/** The server's reading of a client's left/right key message. */
module InputCoercion {
  import opened Types

  /** A client message; either key may be absent from it. */
  datatype InputMessage = InputMessage(left: Option<bool>, right: Option<bool>)

  /** `!!field`: an absent key reads as not pressed. */
  function Pressed(key: Option<bool>): (b: bool)
    ensures b <==> key == Some(true)
  {
    key.GetOr(false)
  }

  /** `coerceInput`: one key alone steers, both or neither cancel. */
  function CoerceInput(message: InputMessage): (s: Steer)
    ensures s == -1 <==> Pressed(message.left) && !Pressed(message.right)
    ensures s == 1 <==> Pressed(message.right) && !Pressed(message.left)
    ensures s == 0 <==> Pressed(message.left) == Pressed(message.right)
  {
    var left := Pressed(message.left);
    var right := Pressed(message.right);
    if left == right then 0 else if left then -1 else 1
  }

  /** Swapping the keys mirrors the steering. */
  lemma CoerceMirror(left: Option<bool>, right: Option<bool>)
    ensures CoerceInput(InputMessage(right, left)) == -CoerceInput(InputMessage(left, right))
  {
  }

  /** The four key combinations, with absent keys read as released. */
  lemma CoerceExamples()
    ensures CoerceInput(InputMessage(Some(true), Some(false))) == -1
    ensures CoerceInput(InputMessage(Some(false), Some(true))) == 1
    ensures CoerceInput(InputMessage(Some(false), Some(false))) == 0
    ensures CoerceInput(InputMessage(Some(true), Some(true))) == 0
    ensures CoerceInput(InputMessage(None, Some(true))) == 1
    ensures CoerceInput(InputMessage(None, None)) == 0
  {
  }
}
