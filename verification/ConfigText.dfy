// The persisted configuration: its record, its printed text, and what the
// loader reads out of an arbitrary text.
module ConfigText {
  import opened Options
  import opened CStrings
  import opened JsonScan

  const CFG_CH_NAME_LEN := 32
  const CFG_MAX_CHANNELS := 12
  const RC_CH_COUNT := 6
  const MAC_LEN := 20
  const PORT_LEN := 8
  const SCOPE_LEN := 512

  datatype Network = Network(mac: string, dhcp: bool, ip: string, netmask: string, gateway: string,
                             agentIp: string, agentPort: string)

  datatype Ros = Ros(nodeName: string, ns: string)

  datatype Channel = Channel(name: string, enabled: bool, topic: string)

  datatype TrimCh = TrimCh(min: nat, center: nat, max: nat)

  datatype RcTrim = RcTrim(ch: seq<TrimCh>, deadzone: nat, emaAlpha: real)

  datatype Config = Config(network: Network, ros: Ros, channels: seq<Channel>, trim: RcTrim)

  // ---------------------------------------------------------------- printing
  //
  // A format string is written as the text before its first quote and the cells
  // that follow: each quoted token with the text up to the next quote.

  function HeadTok(c: Config, k: nat): string
  {
    if k == 0 then "network" else if k == 1 then "mac" else if k == 2 then c.network.mac
    else if k == 3 then "dhcp" else if k == 4 then "ip" else if k == 5 then c.network.ip
    else if k == 6 then "netmask" else if k == 7 then c.network.netmask
    else if k == 8 then "gateway" else if k == 9 then c.network.gateway
    else if k == 10 then "agent_ip" else if k == 11 then c.network.agentIp
    else if k == 12 then "agent_port" else if k == 13 then c.network.agentPort
    else if k == 14 then "ros" else if k == 15 then "node_name" else if k == 16 then c.ros.nodeName
    else if k == 17 then "namespace" else c.ros.ns
  }

  function HeadGap(c: Config, k: nat): string
  {
    if k in {0, 14} then ": {\n    "
    else if k == 3 then ": " + (BoolText(c.network.dhcp) + ",\n    ")
    else if k in {1, 4, 6, 8, 10, 12, 15, 17} then ": "
    else if k == 13 then "\n  },\n  "
    else if k == 18 then "\n  }"
    else ",\n    "
  }

  const HEAD_CELLS := 19

  function HeadCells(c: Config): (cs: seq<Cell>)
    ensures |cs| == HEAD_CELLS
  { seq(HEAD_CELLS, k requires k >= 0 => Cell(HeadTok(c, k), HeadGap(c, k))) }

  function ChannelCells(ch: Channel): (cs: seq<Cell>)
    ensures cs != []
  {
    if ch.topic != "" then
      [Cell(ch.name, ": { "), Cell("enabled", ": " + (BoolText(ch.enabled) + ", ")),
       Cell("topic", ": "), Cell(ch.topic, " }")]
    else [Cell(ch.name, ": " + BoolText(ch.enabled))]
  }

  /** One entry as printed: separator, line break, cells. */
  function ChannelText(ch: Channel, first: bool): string
  { (if first then "\n    " else ",\n    ") + Render(ChannelCells(ch)) }

  function TrimKey(k: nat): string
  {
    if k < 18
    then "ch" + [DigitChar((k / 3 + 1) % 10)] + (if k % 3 == 0 then "_min" else if k % 3 == 1 then "_center" else "_max")
    else if k == 18 then "deadzone"
    else "ema_alpha"
  }

  function TrimNum(t: RcTrim, k: nat): nat
    requires |t.ch| == RC_CH_COUNT && k < 19
  {
    if k == 18 then t.deadzone
    else if k % 3 == 0 then t.ch[k / 3].min else if k % 3 == 1 then t.ch[k / 3].center else t.ch[k / 3].max
  }

  /** The value of the k-th trim key and the layout behind it. */
  function TrimGap(t: RcTrim, k: nat): string
    requires |t.ch| == RC_CH_COUNT && k < 20
  {
    if k == 19 then ": " + (Dec2(t.emaAlpha) + "\n  ")
    else if k == 18 || k % 3 == 2 then ": " + (Dec(TrimNum(t, k)) + ",\n    ")
    else ": " + (Dec(TrimNum(t, k)) + ", ")
  }

  function TrimCells(t: RcTrim): (cs: seq<Cell>)
    requires |t.ch| == RC_CH_COUNT
    ensures |cs| == 20
  { seq(20, k requires 0 <= k < 20 => Cell(TrimKey(k), TrimGap(t, k))) }

  function HeadText(c: Config): string { "{\n  " + Render(HeadCells(c)) }

  function ChannelsOpen(): string { ",\n  " + (Quote("channels") + ": {") }

  /** The text after the head and the first i channels. */
  function ChannelsText(c: Config, i: nat): string
    requires i <= |c.channels|
  {
    if i == 0 then HeadText(c) + ChannelsOpen()
    else ChannelsText(c, i - 1) + ChannelText(c.channels[i - 1], i == 1)
  }

  function BeforeTrim(c: Config): string
  { if c.channels == [] then HeadText(c) else ChannelsText(c, |c.channels|) + "\n  }" }

  function TrimOpen(): string { ",\n  " + (Quote("rc_trim") + ": {") }

  /** Rows of the trim block: one per channel, then deadzone and filter constant. */
  function RowText(t: RcTrim, r: nat): string
    requires |t.ch| == RC_CH_COUNT && r <= RC_CH_COUNT
  {
    if r < RC_CH_COUNT then
      (if r > 0 then ",\n    " else "\n    ")
      + Render([Cell(TrimKey(3 * r), TrimGap(t, 3 * r)), Cell(TrimKey(3 * r + 1), TrimGap(t, 3 * r + 1)),
                Cell(TrimKey(3 * r + 2), ": " + Dec(t.ch[r].max))])
    else
      ",\n    " + Render([Cell(TrimKey(18), TrimGap(t, 18)), Cell(TrimKey(19), TrimGap(t, 19))]) + "}"
  }

  function TrimText(c: Config, r: nat): string
    requires |c.trim.ch| == RC_CH_COUNT && r <= RC_CH_COUNT + 1
  {
    if r == 0 then BeforeTrim(c) + TrimOpen() else TrimText(c, r - 1) + RowText(c.trim, r - 1)
  }

  /** Everything config_to_json prints, before truncation to the buffer. */
  function JsonText(c: Config): string
    requires |c.trim.ch| == RC_CH_COUNT
  { TrimText(c, RC_CH_COUNT + 1) + "\n}\n" }

  // ---------------------------------------------------------------- parsing channels

  /** Offset of the brace that closes the block entered at the given depth. */
  function FindEnd(t: string, depth: nat): (r: Option<nat>)
    requires depth > 0
    ensures r.Some? ==> r.value < |t| && t[r.value] == '}'
  {
    if t == "" then None
    else if t[0] == '}' && depth == 1 then Some(0)
    else
      var d := if t[0] == '{' then depth + 1 else if t[0] == '}' then depth - 1 else depth;
      match FindEnd(t[1..], d)
      case None => None
      case Some(k) => Some(k + 1)
  }

  /** parse_channel_object: both searches run to the end of the text, not of the object. */
  function ParseObject(start: string, name: string): Channel
  {
    Channel(name,
            match GetBool(start, "enabled") case BoolIs(b) => b case NoBool(_) => true,
            Into(GetStr(start, "topic", CFG_CH_NAME_LEN), ""))
  }

  /** One turn of the entry loop over the text at pos, whose section ends n characters on. */
  datatype Turn = Stop | Skip(adv: nat) | Add(ch: Channel, adv: nat)

  function AfterName(rest: string, m: nat, name: string, used: nat): (r: Turn)
    requires m <= |rest|
    ensures !r.Stop? ==> r.adv >= used
  {
    if rest != "" && rest[0] == '{' then
      match MemChr(rest[1..], '}')
      case None => Stop
      case Some(k) => if k + 1 > m then Stop else Add(ParseObject(rest, name), used + k + 2)
    else if 4 <= m && "true" <= rest then Add(Channel(name, true, ""), used + 4)
    else if 5 <= m && "false" <= rest then Add(Channel(name, false, ""), used + 5)
    else Skip(used)
  }

  function NextTurn(t: string, n: nat): (r: Turn)
    requires n <= |t|
    ensures !r.Stop? ==> r.adv >= 2
  {
    match MemChr(t[..n], '"')
    case None => Stop
    case Some(q) =>
      match MemChr(t[q + 1..n], '"')
      case None => Stop
      case Some(len) =>
        var p := q + len + 2;
        if len == 0 || len >= CFG_CH_NAME_LEN then Skip(p)
        else
          var b := p + (n - p - |SkipBlank(t[p..n])|);
          AfterName(t[b..], n - b, t[q + 1..q + 1 + len], b)
  }

  function ParseEntries(t: string, n: nat, acc: seq<Channel>): seq<Channel>
    requires n <= |t|
    decreases n
  {
    if n == 0 || |acc| >= CFG_MAX_CHANNELS then acc
    else
      match NextTurn(t, n)
      case Stop => acc
      case Skip(adv) => if adv > n then acc else ParseEntries(t[adv..], n - adv, acc)
      case Add(ch, adv) => if adv > n then acc + [ch] else ParseEntries(t[adv..], n - adv, acc + [ch])
  }

  function ParseChannels(json: string): seq<Channel>
  {
    match StrStr(json, Quote("channels"))
    case None => []
    case Some(sec) =>
      match StrChr(sec, '{')
      case None => []
      case Some(brace) =>
        match FindEnd(brace[1..], 1)
        case None => []
        case Some(n) => ParseEntries(brace[1..], n, [])
  }

  // ---------------------------------------------------------------- parsing trims

  function IntOr(scope: string, key: string, dflt: nat): nat
  { match GetInt(scope, key) case IntIs(v) => U16(v) case NoInt(_) => dflt }

  function TrimChOr(scope: string, i: nat, dflt: TrimCh): TrimCh
  {
    TrimCh(IntOr(scope, TrimKey(3 * i), dflt.min), IntOr(scope, TrimKey(3 * i + 1), dflt.center),
           IntOr(scope, TrimKey(3 * i + 2), dflt.max))
  }

  function ReadScope(scope: string, old_: RcTrim): (t: RcTrim)
    requires |old_.ch| == RC_CH_COUNT
    ensures |t.ch| == RC_CH_COUNT
  {
    RcTrim(seq(RC_CH_COUNT, i requires 0 <= i < RC_CH_COUNT => TrimChOr(scope, i, old_.ch[i])),
           IntOr(scope, TrimKey(18), old_.deadzone),
           match GetFloat(scope, TrimKey(19)) case RealIs(x) => x case NoReal(_) => old_.emaAlpha)
  }

  /** The braced block behind "rc_trim", if it fits the scope buffer. */
  function TrimScope(json: string): Option<string>
  {
    match StrStr(json, Quote("rc_trim"))
    case None => None
    case Some(sec) =>
      match StrChr(sec, '{')
      case None => None
      case Some(brace) =>
        match MemChr(brace[1..], '}')
        case None => None
        case Some(k) => if k + 2 >= SCOPE_LEN then None else Some(brace[..k + 2])
  }

  function ParseTrim(json: string, old_: RcTrim): (t: RcTrim)
    requires |old_.ch| == RC_CH_COUNT
    ensures |t.ch| == RC_CH_COUNT
  { match TrimScope(json) case None => old_ case Some(scope) => ReadScope(scope, old_) }

  // ---------------------------------------------------------------- loading

  function StrOr(json: string, key: string, cap: nat, dest: string): string
  { Into(GetStr(json, key, cap), dest) }

  function ParseNetwork(json: string, o: Network): Network
  {
    Network(StrOr(json, "mac", MAC_LEN, o.mac),
            match GetBool(json, "dhcp") case BoolIs(b) => b case NoBool(_) => o.dhcp,
            StrOr(json, "ip", CFG_STR_LEN, o.ip), StrOr(json, "netmask", CFG_STR_LEN, o.netmask),
            StrOr(json, "gateway", CFG_STR_LEN, o.gateway), StrOr(json, "agent_ip", CFG_STR_LEN, o.agentIp),
            StrOr(json, "agent_port", PORT_LEN, o.agentPort))
  }

  function ParseRos(json: string, o: Ros): Ros
  { Ros(StrOr(json, "node_name", CFG_STR_LEN, o.nodeName), StrOr(json, "namespace", CFG_STR_LEN, o.ns)) }

  /** What config_load makes of a text, starting from whatever is in RAM. */
  function Parse(json: string, o: Config): Config
    requires |o.trim.ch| == RC_CH_COUNT
  { Config(ParseNetwork(json, o.network), ParseRos(json, o.ros), ParseChannels(json), ParseTrim(json, o.trim)) }
}
