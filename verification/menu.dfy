/** The labels the menu and result screens show. */
module MenuLabels {
  import opened Outcome

  datatype ModeOption = Local | Online

  datatype ConnectionStatus = Disconnected | Connecting | Connected

  /** The wire name of a mode, as stored and passed around. */
  function ModeName(mode: ModeOption): (s: string)
    ensures s == "LOCAL" || s == "ONLINE"
  {
    match mode
    case Local => "LOCAL"
    case Online => "ONLINE"
  }

  /** `coerceMode`: anything but "ONLINE" is the local mode. */
  function CoerceMode(value: string): (mode: ModeOption)
    ensures mode == Online <==> value == "ONLINE"
  {
    if value == "ONLINE" then Online else Local
  }

  /** Coercing a mode's own name gives the mode back. */
  lemma CoerceModeRoundTrip(mode: ModeOption)
    ensures CoerceMode(ModeName(mode)) == mode
  {
  }

  /** `modeToUseServer`: only the online mode talks to the server. */
  function ModeToUseServer(mode: ModeOption): (useServer: bool)
    ensures useServer <==> mode == Online
  {
    mode == Online
  }

  /** Unknown mode strings never connect to the server. */
  lemma UnknownModeStaysLocal(value: string)
    requires value != "ONLINE"
    ensures !ModeToUseServer(CoerceMode(value))
  {
  }

  /** `formatConnectionStatus`. */
  function FormatConnectionStatus(status: ConnectionStatus): (text: string)
    ensures status == Connecting <==> text == "Connecting"
    ensures status == Connected <==> text == "Connected"
    ensures status == Disconnected <==> text == "Disconnected"
  {
    match status
    case Connecting => "Connecting"
    case Connected => "Connected"
    case Disconnected => "Disconnected"
  }

  /** `formatResultTitle`. */
  function FormatResultTitle(status: ResultStatus): (title: string)
    ensures status == Victory <==> title == "Victory"
    ensures status == TimeUp <==> title == "Time Up"
    ensures status == Eliminated <==> title == "Eliminated"
  {
    match status
    case Victory => "Victory"
    case TimeUp => "Time Up"
    case Eliminated => "Eliminated"
  }

  /** Different results never share a title, nor connection states a label. */
  lemma LabelsAreDistinct(a: ResultStatus, b: ResultStatus, c: ConnectionStatus, d: ConnectionStatus)
    ensures a != b ==> FormatResultTitle(a) != FormatResultTitle(b)
    ensures c != d ==> FormatConnectionStatus(c) != FormatConnectionStatus(d)
  {
  }
}
