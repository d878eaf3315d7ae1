/** Player colours: a fixed colour for the local player, a seven-colour cycle for everyone else. */
module Palette {
  import opened Types

  /** The local player's colour, cyan. */
  const PlayerColor: int := 0x00f5ff

  const BotColors: seq<int> := [0xff2dfb, 0x39ff14, 0xff7a00, 0xffe600, 0x9b00ff, 0xff003c, 0x007bff]

  predicate IsDigit(c: char) {
    '0' <= c <= '9'
  }

  predicate NoDigits(s: seq<char>) {
    forall i :: 0 <= i < |s| ==> !IsDigit(s[i])
  }

  predicate AllDigits(s: seq<char>) {
    forall i :: 0 <= i < |s| ==> IsDigit(s[i])
  }

  /** The length of the run of digits at the front of `s`. */
  function DigitPrefix(s: seq<char>): (n: nat)
    ensures n <= |s| && AllDigits(s[..n])
    ensures n < |s| ==> !IsDigit(s[n])
  {
    if |s| == 0 || !IsDigit(s[0]) then 0
    else
      var n := 1 + DigitPrefix(s[1..]);
      assert forall i :: 1 <= i < n ==> s[..n][i] == s[1..][..n - 1][i - 1];
      n
  }

  /**
    `id.match(/\d+/)`: the bounds `[start, end)` of the first maximal run of
    decimal digits, or `None` when there is no digit at all.
   */
  function FirstDigitRun(s: seq<char>): (r: Option<(nat, nat)>)
    ensures r.None? <==> NoDigits(s)
    ensures r.Some? ==> var (start, end) := r.value;
      && start < end <= |s|
      && NoDigits(s[..start]) && AllDigits(s[start..end])
      && (end < |s| ==> !IsDigit(s[end]))
  {
    if |s| == 0 then None
    else if IsDigit(s[0]) then
      var n := DigitPrefix(s);
      assert s[0..n] == s[..n];
      Some((0, n))
    else
      match FirstDigitRun(s[1..])
      case None => None
      case Some((start, end)) =>
        assert s[1 + start..1 + end] == s[1..][start..end];
        assert NoDigits(s[..1 + start]) by {
          forall i | 0 < i < 1 + start ensures !IsDigit(s[i]) {
            assert s[i] == s[1..][..start][i - 1];
          }
        }
        Some((1 + start, 1 + end))
  }

  function DigitValue(c: char): (v: nat)
    requires IsDigit(c)
    ensures v <= 9
  {
    c as int - '0' as int
  }

  /** `parseInt(digits, 10)`, most significant digit first. */
  function ParseDecimal(digits: seq<char>): (n: nat)
    requires AllDigits(digits)
  {
    if |digits| == 0 then 0
    else ParseDecimal(digits[..|digits| - 1]) * 10 + DigitValue(digits[|digits| - 1])
  }

  /** `extractIndex`: the first number in the id, minus one, floored at 0; 0 without digits. */
  function ExtractIndex(id: seq<char>): (i: nat)
    ensures NoDigits(id) ==> i == 0
    ensures !NoDigits(id) ==> var (start, end) := FirstDigitRun(id).value;
      i == if ParseDecimal(id[start..end]) >= 1 then ParseDecimal(id[start..end]) - 1 else 0
  {
    match FirstDigitRun(id)
    case None => 0
    case Some((start, end)) =>
      var n := ParseDecimal(id[start..end]);
      if n - 1 >= 0 then n - 1 else 0
  }

  /** `getPlayerColor`. */
  function GetPlayerColor(id: seq<char>): (c: int)
    ensures id == "p1" ==> c == PlayerColor
    ensures id != "p1" ==> c == BotColors[ExtractIndex(id) % |BotColors|]
  {
    if id == "p1" then PlayerColor else BotColors[ExtractIndex(id) % |BotColors|]
  }

  /** Everyone but the local player gets one of the seven bot colours, never the player's. */
  lemma BotColorIsInCycle(id: seq<char>)
    requires id != "p1"
    ensures GetPlayerColor(id) in BotColors
    ensures GetPlayerColor(id) != PlayerColor
  {
  }

  /** An id made of one non-digit and the digit `k >= 1` gets the k-th colour of the cycle. */
  lemma SingleDigitBot(c: char, d: char)
    requires !IsDigit(c) && IsDigit(d) && d != '0' && [c, d] != "p1"
    ensures GetPlayerColor([c, d]) == BotColors[(DigitValue(d) - 1) % 7]
  {
    var id := [c, d];
    assert !NoDigits(id) by { assert IsDigit(id[1]); }
    assert FirstDigitRun(id) == Some((1, 2)) by {
      assert FirstDigitRun(id[1..]) == Some((0, 1));
    }
    assert id[1..2] == [d];
    assert ParseDecimal([d]) == DigitValue(d) by {
      assert [d][..0] == [];
    }
  }

  /** The seven bot colours are all different. */
  lemma BotColorsDistinct()
    ensures forall i, j :: 0 <= i < j < |BotColors| ==> BotColors[i] != BotColors[j]
  {
  }

  /** The bot id "b" followed by one digit. */
  function BotId(d: char): seq<char> {
    ['b', d]
  }

  /** b1 to b7 receive seven different colours. */
  lemma BotsGetDistinctColors()
    ensures forall d1, d2 :: '1' <= d1 <= '7' && '1' <= d2 <= '7' && d1 != d2 ==>
      GetPlayerColor(BotId(d1)) != GetPlayerColor(BotId(d2))
  {
    BotColorsDistinct();
    forall d1, d2 | '1' <= d1 <= '7' && '1' <= d2 <= '7' && d1 != d2
      ensures GetPlayerColor(BotId(d1)) != GetPlayerColor(BotId(d2))
    {
      SingleDigitBot('b', d1);
      SingleDigitBot('b', d2);
    }
  }

  /** The id "b3" takes the third colour of the cycle. */
  lemma ThirdBotColor()
    ensures GetPlayerColor("b3") == 0xff7a00
  {
    SingleDigitBot('b', '3');
  }

  /** Ids without digits share the first bot colour. */
  lemma NoDigitsFirstColor(id: seq<char>)
    requires NoDigits(id) && id != "p1"
    ensures GetPlayerColor(id) == BotColors[0]
  {
  }
}
