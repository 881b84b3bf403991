// g_config, its I/O buffer and /lfs/config.json: printing, parsing, saving and
// loading as the firmware runs them.
module ConfigStore {
  import opened Options
  import opened Errno
  import opened CStrings
  import opened JsonScan
  import opened ConfigText
  import opened ConfigKeys

  const IO_BUF := 1536

  function DefaultNetwork(): Network
  { Network("", false, "192.168.68.114", "255.255.255.0", "192.168.68.1", "192.168.68.125", "8888") }

  function DefaultTrim(): (t: RcTrim)
    ensures |t.ch| == RC_CH_COUNT
  { RcTrim(seq(RC_CH_COUNT, _ => TrimCh(1000, 1500, 2000)), 20, 1.0) }

  function Defaults(): Config { Config(DefaultNetwork(), Ros("pico_bridge", "/"), [], DefaultTrim()) }

  /** One character of the brace-matching loop. */
  lemma EndStep(t: string, i: nat, depth: nat)
    requires i < |t| && depth > 0
    ensures t[i] == '}' && depth == 1 ==> FindEnd(t[i..], depth) == Some(0)
    ensures !(t[i] == '}' && depth == 1) ==>
              var d := if t[i] == '{' then depth + 1 else if t[i] == '}' then depth - 1 else depth;
              FindEnd(t[i..], depth) == match FindEnd(t[i + 1..], d) case None => None case Some(k) => Some(k + 1)
  {
    assert t[i..][1..] == t[i + 1..];
  }

  class ConfigStore {
    var network: Network
    var ros: Ros
    var channels: seq<Channel>
    var trim: RcTrim
    var file: Option<string>
    const ioBuf: array<char>

    ghost predicate Valid()
      reads this
    { ioBuf.Length == IO_BUF && |trim.ch| == RC_CH_COUNT && |channels| <= CFG_MAX_CHANNELS }

    ghost function Snapshot(): Config
      reads this
    { Config(network, ros, channels, trim) }

    constructor ()
      ensures Valid() && Snapshot() == Defaults() && file == None && fresh(ioBuf)
    {
      network, ros, channels, trim := DefaultNetwork(), Ros("pico_bridge", "/"), [], DefaultTrim();
      file := None;
      ioBuf := new char[IO_BUF];
    }

    /** config_reset_defaults. */
    method ResetDefaults()
      requires Valid()
      modifies this`network, this`ros, this`channels, this`trim
      ensures Valid() && Snapshot() == Defaults()
      ensures network.mac == "" && !network.dhcp && network.ip == "192.168.68.114" && network.netmask == "255.255.255.0"
      ensures network.gateway == "192.168.68.1" && network.agentIp == "192.168.68.125" && network.agentPort == "8888"
      ensures ros.nodeName == "pico_bridge" && ros.ns == "/" && channels == []
      ensures forall i :: 0 <= i < RC_CH_COUNT ==>
                trim.ch[i].min == 1000 && trim.ch[i].center == 1500 && trim.ch[i].max == 2000
      ensures trim.deadzone == 20 && trim.emaAlpha == 1.0
    {
      network, ros, channels, trim := DefaultNetwork(), Ros("pico_bridge", "/"), [], DefaultTrim();
    }

    // -------------------------------------------------------------- settings

    /** The loop that looks an entry up by name. */
    method Lookup(name: string) returns (i: int)
      ensures i == FindChannel(channels, name)
    {
      i := 0;
      while i < |channels|
        invariant 0 <= i <= |channels|
        invariant forall k :: 0 <= k < i ==> channels[k].name != name
      {
        if channels[i].name == name { return; }
        i := i + 1;
      }
      i := -1;
    }

    /** config_channel_enabled: entries decide, unlisted names are enabled. */
    method ChannelEnabled(name: string) returns (on: bool)
      ensures Unique(channels) ==> on == (name in AsMap(channels) ==> AsMap(channels)[name].enabled)
    {
      var i := Lookup(name);
      FoundIff(channels, name);
      if Unique(channels) { MapOfUnique(channels); }
      on := i < 0 || channels[i].enabled;
    }

    /** Entry i is the first of that name that has a topic. */
    ghost predicate IsOverride(i: int, name: string, topic: string)
      requires 0 <= i < |channels|
      reads this
    {
      && channels[i].name == name && channels[i].topic == topic
      && (forall k :: 0 <= k < i ==> channels[k].name != name || channels[k].topic == "")
    }

    /** config_channel_topic: the override, if the name has one. */
    method ChannelTopic(name: string) returns (topic: Option<string>)
      ensures topic.Some? ==>
                topic.value != "" && exists i :: 0 <= i < |channels| && IsOverride(i, name, topic.value)
      ensures topic.None? ==> forall i :: 0 <= i < |channels| ==> channels[i].name != name || channels[i].topic == ""
      ensures Unique(channels) ==>
                topic == if name in AsMap(channels) && AsMap(channels)[name].topic != ""
                         then Some(AsMap(channels)[name].topic) else None
    {
      hide AsMap;
      MapKeys(channels);
      if Unique(channels) { MapOfUnique(channels); }
      for i := 0 to |channels|
        invariant forall k :: 0 <= k < i ==> channels[k].name != name || channels[k].topic == ""
      {
        if channels[i].name == name && channels[i].topic != "" {
          assert IsOverride(i, name, channels[i].topic);
          return Some(channels[i].topic);
        }
      }
      topic := None;
    }

    method SetChannelFlag(rest: string, value: string) returns (rc: int)
      requires Valid()
      modifies this`channels
      ensures Valid() && (rc, channels) == SetEnabled(old(channels), rest, Truth(value))
    {
      var en := value == "true" || value == "1";
      var i := Lookup(rest);
      if i >= 0 {
        channels := channels[i := channels[i].(enabled := en)];
        return 0;
      }
      if |channels| >= CFG_MAX_CHANNELS { return ENOMEM; }
      channels := channels + [Channel(SafeCopy(rest, CFG_CH_NAME_LEN), en, "")];
      rc := 0;
    }

    method SetChannelTopic(name: string, what: string, value: string) returns (rc: int)
      requires Valid()
      modifies this`channels
      ensures Valid() && (rc, channels) == SetTopic(old(channels), name, what, value)
    {
      if |name| >= CFG_CH_NAME_LEN { return EINVAL; }
      if what != "topic" { return ENOENT; }
      var topic := SafeCopy(value, CFG_CH_NAME_LEN);
      var i := Lookup(name);
      if i >= 0 {
        channels := channels[i := channels[i].(topic := topic)];
        return 0;
      }
      if |channels| >= CFG_MAX_CHANNELS { return ENOMEM; }
      channels := channels + [Channel(name, true, topic)];
      rc := 0;
    }

    method SetRosName(field: string, value: string) returns (rc: int)
      requires Valid()
      modifies this`ros
      ensures (rc, ros) == SetRos(old(ros), field, value)
    {
      if field == "node_name" {
        var ok := IsValidName(value);
        if !ok { return EINVAL; }
        ros := ros.(nodeName := SafeCopy(value, CFG_STR_LEN));
        rc := 0;
      } else if field == "namespace" {
        var ok := IsValidNamespace(value);
        if !ok { return EINVAL; }
        ros := ros.(ns := SafeCopy(value, CFG_STR_LEN));
        rc := 0;
      } else {
        rc := ENOENT;
      }
    }

    /** config_set. */
    method SetKey(key: string, value: string) returns (rc: int)
      requires Valid()
      modifies this`network, this`ros, this`channels, this`trim
      ensures Valid() && (rc, Snapshot()) == Set(old(Snapshot()), key, value)
    {
      hide SetNetwork, SetRos, SetTrim, SetEnabled, SetTopic;
      if |value| >= CFG_STR_LEN { return ENAMETOOLONG; }
      if "network." <= key {
        var (r, n) := SetNetwork(network, key[8..], value);
        rc, network := r, n;
      } else if "ros." <= key {
        rc := SetRosName(key[4..], value);
      } else if "channels." <= key {
        var rest := key[9..];
        match MemChr(rest, '.') {
          case Some(dot) => rc := SetChannelTopic(rest[..dot], rest[dot + 1..], value);
          case None => rc := SetChannelFlag(rest, value);
        }
      } else if "rc_trim." <= key {
        var (r, t) := SetTrim(trim, key[8..], value);
        rc, trim := r, t;
      } else {
        rc := ENOENT;
      }
    }

    // -------------------------------------------------------------- printing

    /** One print of config_to_json, appended at pos.  A print that starts beyond the buffer is out of
        bounds in C, where the room left is an unsigned difference: the model stops and reports it. */
    method Put(pos: nat, ghost done: string, s: string) returns (next: nat, over: bool)
      requires Valid() && pos == |done|
      requires 0 < pos <= IO_BUF ==> Holds(ioBuf[..], Clip(done, IO_BUF - 1))
      modifies ioBuf
      ensures over == (pos > IO_BUF)
      ensures !over ==> next == |done + s| && Holds(ioBuf[..], Clip(done + s, IO_BUF - 1))
    {
      next, over := pos, pos > IO_BUF;
      if !over { next := Snprintf(ioBuf, pos, done, s); }
    }

    method PrintChannels(start: nat) returns (pos: nat, over: bool)
      requires Valid() && channels != []
      requires start == |HeadText(Snapshot())| && Holds(ioBuf[..], Clip(HeadText(Snapshot()), IO_BUF - 1))
      modifies ioBuf
      ensures over <==> |ChannelsText(Snapshot(), |channels|)| > IO_BUF
      ensures !over ==> pos == |BeforeTrim(Snapshot())| && Holds(ioBuf[..], Clip(BeforeTrim(Snapshot()), IO_BUF - 1))
    {
      hide HeadText, ChannelText, Clip, Holds;
      ghost var c := Snapshot();
      ChannelsGrow(c, 0, |channels|);
      pos, over := Put(start, HeadText(c), ChannelsOpen());
      if over { return; }
      for i := 0 to |channels|
        invariant pos == |ChannelsText(c, i)| && Holds(ioBuf[..], Clip(ChannelsText(c, i), IO_BUF - 1))
      {
        ChannelsGrow(c, i, |channels|);
        pos, over := Put(pos, ChannelsText(c, i), ChannelText(channels[i], i == 0));
        if over { return; }
      }
      pos, over := Put(pos, ChannelsText(c, |channels|), "\n  }");
    }

    method PrintTrim(start: nat) returns (pos: nat, over: bool)
      requires Valid() && start == |BeforeTrim(Snapshot())|
      requires start <= IO_BUF ==> Holds(ioBuf[..], Clip(BeforeTrim(Snapshot()), IO_BUF - 1))
      modifies ioBuf
      ensures over <==> |TrimText(Snapshot(), RC_CH_COUNT)| > IO_BUF
      ensures var t := TrimText(Snapshot(), RC_CH_COUNT + 1);
              !over ==> pos == |t| && Holds(ioBuf[..], Clip(t, IO_BUF - 1))
    {
      hide RowText, BeforeTrim, Clip, Holds;
      ghost var c := Snapshot();
      TrimGrows(c, 0, RC_CH_COUNT);
      pos, over := Put(start, BeforeTrim(c), TrimOpen());
      if over { return; }
      for r := 0 to RC_CH_COUNT + 1
        invariant pos == |TrimText(c, r)| && Holds(ioBuf[..], Clip(TrimText(c, r), IO_BUF - 1))
        invariant r > 0 ==> |TrimText(c, r - 1)| <= IO_BUF
      {
        TrimGrows(c, r, RC_CH_COUNT);
        pos, over := Put(pos, TrimText(c, r), RowText(trim, r));
        if over { return; }
      }
    }

    /** config_to_json: as much of the text as the buffer can hold.  Some print starts out of bounds
        exactly when the text before the last line is longer than the buffer. */
    method ConfigToJson() returns (over: bool)
      requires Valid()
      modifies ioBuf
      ensures over <==> |TrimText(Snapshot(), RC_CH_COUNT + 1)| > IO_BUF
      ensures !over ==> Holds(ioBuf[..], Clip(JsonText(Snapshot()), IO_BUF - 1))
    {
      hide HeadText, BeforeTrim, ChannelsText, TrimText, Clip, Holds;
      ghost var c := Snapshot();
      HeadFits(c);
      TrimGrows(c, RC_CH_COUNT, RC_CH_COUNT + 1);
      BeforeTrimIs(c);
      var pos;
      pos, over := Put(0, "", HeadText(Config(network, ros, channels, trim)));
      assert "" + HeadText(c) == HeadText(c);
      if channels != [] {
        pos, over := PrintChannels(pos);
        if over { return; }
      }
      pos, over := PrintTrim(pos);
      if over { return; }
      pos, over := Put(pos, TrimText(c, RC_CH_COUNT + 1), "\n}\n");
    }

    // -------------------------------------------------------------- parsing

    /** The brace-matching loop of parse_channels. */
    method MatchBrace(t: string) returns (end: nat, depth: nat)
      ensures depth == 0 <==> FindEnd(t, 1).Some?
      ensures depth == 0 ==> FindEnd(t, 1) == Some(end)
    {
      hide FindEnd;
      assert t[0..] == t && t[|t|..] == "";
      end, depth := 0, 1;
      while end < |t| && depth > 0
        invariant end <= |t|
        invariant depth > 0 ==> match FindEnd(t[end..], depth)
                                case None => FindEnd(t, 1) == None
                                case Some(k) => FindEnd(t, 1) == Some(end + k)
        invariant depth == 0 ==> FindEnd(t, 1) == Some(end)
        decreases |t| - end, depth
      {
        EndStep(t, end, depth);
        if t[end] == '{' { depth := depth + 1; }
        else if t[end] == '}' { depth := depth - 1; }
        if depth > 0 { end := end + 1; }
      }
    }

    /** One turn of the entry loop, searching no further than n for names and blanks. */
    method ReadTurn(t: string, n: nat) returns (turn: Turn)
      requires n <= |t|
      ensures turn == NextTurn(t, n)
    {
      hide AfterName, MemChr, SkipBlank;
      var q1 := MemChr(t[..n], '"');
      if q1.None? { return Stop; }
      var start := q1.value + 1;
      var q2 := MemChr(t[start..n], '"');
      if q2.None? { return Stop; }
      var len := q2.value;
      var pos := start + len + 1;
      if len == 0 || len >= CFG_CH_NAME_LEN { return Skip(pos); }
      var b := SkipBlanks(t[..n], pos);
      assert t[..n][pos..] == t[pos..n];
      turn := AfterName(t[b..], n - b, t[start..start + len], b);
    }

    method EntryLoop(t: string, end: nat)
      requires Valid() && end <= |t| && channels == []
      modifies this`channels
      ensures Valid() && channels == ParseEntries(t, end, [])
    {
      hide NextTurn;
      var pos := 0;
      while pos < end && |channels| < CFG_MAX_CHANNELS
        invariant pos <= end && |channels| <= CFG_MAX_CHANNELS
        invariant ParseEntries(t[pos..], end - pos, channels) == ParseEntries(t, end, [])
        decreases end - pos
      {
        var turn := ReadTurn(t[pos..], end - pos);
        if turn.Stop? { return; }
        if turn.Add? { channels := channels + [turn.ch]; }
        if turn.adv > end - pos { return; }
        assert t[pos..][turn.adv..] == t[pos + turn.adv..];
        pos := pos + turn.adv;
      }
    }

    /** parse_channels: the distance to the section's closing brace shrinks in every turn. */
    method ParseChannelsSection(json: string)
      requires Valid()
      modifies this`channels
      ensures Valid() && channels == ParseChannels(json)
    {
      channels := [];
      var sec := StrStr(json, Quote("channels"));
      if sec.None? { return; }
      var brace := StrChr(sec.value, '{');
      if brace.None? { return; }
      var end, depth := MatchBrace(brace.value[1..]);
      if depth != 0 { return; }
      EntryLoop(brace.value[1..], end);
    }

    method ReadTrimField(scope: string, key: string, dest: nat) returns (v: nat)
      ensures v == IntOr(scope, key, dest)
    {
      v := dest;
      var rc, ival := JsonGetInt(scope, key, 0);
      assert rc == 0 ==> GetInt(scope, key).IntIs? by { GetIntRc(scope, key); }
      if rc == 0 { v := U16(ival); }
    }

    method ReadTrimCh(scope: string, i: nat, dest: TrimCh) returns (t: TrimCh)
      requires i < RC_CH_COUNT
      ensures t == TrimChOr(scope, i, dest)
    {
      var min := ReadTrimField(scope, TrimKey(3 * i), dest.min);
      var center := ReadTrimField(scope, TrimKey(3 * i + 1), dest.center);
      var max := ReadTrimField(scope, TrimKey(3 * i + 2), dest.max);
      t := TrimCh(min, center, max);
    }

    /** parse_rc_trim. */
    method ParseRcTrim(json: string)
      requires Valid()
      modifies this`trim
      ensures Valid() && trim == ParseTrim(json, old(trim))
    {
      var scope := TrimScope(json);
      if scope.None? { return; }
      var was, ch := trim.ch, trim.ch;
      for i := 0 to RC_CH_COUNT
        invariant |ch| == RC_CH_COUNT && unchanged(this)
        invariant forall k :: 0 <= k < i ==> ch[k] == TrimChOr(scope.value, k, was[k])
        invariant forall k :: i <= k < RC_CH_COUNT ==> ch[k] == was[k]
      {
        var t := ReadTrimCh(scope.value, i, ch[i]);
        ch := ch[i := t];
      }
      var deadzone := ReadTrimField(scope.value, TrimKey(18), trim.deadzone);
      var _, alpha := JsonGetFloat(scope.value, TrimKey(19), trim.emaAlpha);
      assert ch == ReadScope(scope.value, trim).ch;
      trim := RcTrim(ch, deadzone, alpha);
    }

    method LoadNetwork(json: string)
      requires Valid()
      modifies this`network
      ensures network == ParseNetwork(json, old(network))
    {
      var _, mac := JsonGetStr(json, "mac", network.mac, MAC_LEN);
      var _, dhcp := JsonGetBool(json, "dhcp", network.dhcp);
      var _, ip := JsonGetStr(json, "ip", network.ip, CFG_STR_LEN);
      var _, netmask := JsonGetStr(json, "netmask", network.netmask, CFG_STR_LEN);
      var _, gateway := JsonGetStr(json, "gateway", network.gateway, CFG_STR_LEN);
      var _, agentIp := JsonGetStr(json, "agent_ip", network.agentIp, CFG_STR_LEN);
      var _, agentPort := JsonGetStr(json, "agent_port", network.agentPort, PORT_LEN);
      network := Network(mac, dhcp, ip, netmask, gateway, agentIp, agentPort);
    }

    method LoadRos(json: string)
      requires Valid()
      modifies this`ros
      ensures ros == ParseRos(json, old(ros))
    {
      var _, nodeName := JsonGetStr(json, "node_name", ros.nodeName, CFG_STR_LEN);
      var _, ns := JsonGetStr(json, "namespace", ros.ns, CFG_STR_LEN);
      ros := Ros(nodeName, ns);
    }

    /** config_load; openRc and readRc are the file system's answers. */
    method Load(openRc: int, readRc: int) returns (rc: int)
      requires Valid()
      modifies this`network, this`ros, this`channels, this`trim, ioBuf
      ensures Valid()
      ensures rc >= 0 <==> file.Some? && openRc >= 0 && readRc >= 0
      ensures rc >= 0 ==> rc == 0 && Snapshot() == Parse(Visible(file.value, IO_BUF), old(Snapshot()))
      ensures rc < 0 ==> Snapshot() == Defaults()
    {
      hide ParseNetwork, ParseRos, ParseChannels, ParseTrim, CStr, Clip;
      if file == None || openRc < 0 {
        ResetDefaults();
        return if file == None then ENOENT else openRc;
      }
      if readRc < 0 {
        ResetDefaults();
        return readRc;
      }
      var n := FillFrom(ioBuf, file.value);
      var json := CStr(ioBuf[..]);
      CacheText(ioBuf[..], Clip(file.value, IO_BUF - 1));
      LoadNetwork(json);
      LoadRos(json);
      ParseChannelsSection(json);
      ParseRcTrim(json);
      rc := 0;
    }

    /** config_save: the whole file is replaced, or kept when the file system refuses.  When the print
        runs out of bounds the model stops there. */
    method Save(openRc: int, writeRc: int) returns (rc: int, over: bool)
      requires Valid()
      modifies this`file, ioBuf
      ensures Valid() && Snapshot() == old(Snapshot())
      ensures over <==> |TrimText(Snapshot(), RC_CH_COUNT + 1)| > IO_BUF
      ensures over ==> file == old(file)
      ensures !over ==> (rc >= 0 <==> openRc >= 0 && writeRc >= 0)
      ensures !over && rc >= 0 ==> rc == 0 && file == Some(Visible(JsonText(Snapshot()), IO_BUF))
      ensures !over && rc < 0 ==> file == old(file) || (old(file) == None && file == Some(""))
    {
      hide JsonText, TrimText, Holds;
      rc := 0;
      over := ConfigToJson();
      if over { return; }
      if openRc < 0 { return openRc, false; }
      if file == None { file := Some(""); }
      if writeRc < 0 { return writeRc, false; }
      CacheText(ioBuf[..], Clip(JsonText(Snapshot()), IO_BUF - 1));
      file := Some(CStr(ioBuf[..]));
    }
  }

  // ---------------------------------------------------------------- where the prints start

  /** Every print of config_to_json starts inside the buffer. */
  ghost predicate PrintsInside(c: Config)
    requires |c.trim.ch| == RC_CH_COUNT
  {
    && (c.channels != [] ==>
          |HeadText(c)| <= IO_BUF && forall i :: 0 <= i <= |c.channels| ==> |ChannelsText(c, i)| <= IO_BUF)
    && |BeforeTrim(c)| <= IO_BUF && (forall r :: 0 <= r <= RC_CH_COUNT + 1 ==> |TrimText(c, r)| <= IO_BUF)
  }

  /** That is so exactly when the text before the last line is no longer than the buffer. */
  lemma PrintsInsideExactly(c: Config)
    requires |c.trim.ch| == RC_CH_COUNT
    ensures PrintsInside(c) <==> |TrimText(c, RC_CH_COUNT + 1)| <= IO_BUF
  {
    hide HeadText, ChannelText, RowText;
    HeadFits(c);
    forall i | 0 <= i <= |c.channels| ensures |ChannelsText(c, i)| <= |ChannelsText(c, |c.channels|)| {
      ChannelsGrow(c, i, |c.channels|);
    }
    forall r | 0 <= r <= RC_CH_COUNT + 1 ensures |TrimText(c, r)| <= |TrimText(c, RC_CH_COUNT + 1)| {
      TrimGrows(c, r, RC_CH_COUNT + 1);
    }
  }

  /** From the factory defaults, any sequence of commands leaves names the grammars accept, and
      a table that is the map of the last values set if no flag name is truncated. */
  lemma SettingsFromReset(cmds: seq<Cmd>)
    ensures var c := Run(Defaults(), cmds); ValidName(c.ros.nodeName) && ValidNamespace(c.ros.ns)
    ensures (forall x :: x in cmds ==> NameFits(x.key)) ==>
              Unique(Run(Defaults(), cmds).channels) && AsMap(Run(Defaults(), cmds).channels) == MapRun(cmds)
  {
    hide Run, MapRun, AsMap, Unique, NameFits;
    NamesStayValid(Defaults(), cmds);
    if forall x :: x in cmds ==> NameFits(x.key) { TableRefinesMap(Defaults(), cmds); }
  }

  // ---------------------------------------------------------------- names the loader lets in

  predicate NameRead(r: StrRead)
  { match r case StrIs(t) => ValidName(t) case Emptied => false case NoStr(_) => true }

  ghost predicate NamespaceRead(r: StrRead)
  { match r case StrIs(t) => ValidNamespace(t) case Emptied => false case NoStr(_) => true }

  /** config_load keeps valid names valid exactly when the text holds, under either key, no string
      at all or one that satisfies the grammar; a string cut off or too long empties the name. */
  lemma LoadKeepsNamesExactly(json: string, o: Ros)
    requires ValidName(o.nodeName) && ValidNamespace(o.ns)
    ensures ValidName(ParseRos(json, o).nodeName) && ValidNamespace(ParseRos(json, o).ns)
       <==> NameRead(GetStr(json, "node_name", CFG_STR_LEN)) && NamespaceRead(GetStr(json, "namespace", CFG_STR_LEN))
  {
    hide GetStr;
    assert !ValidName("");
    NamespaceMeans("");
    hide ValidName, ValidNamespace;
  }

  /** What the loader stores it does not check: any quote-free string under 48 characters becomes
      the node name, "9" among them. */
  lemma LoadsAnyName(v: string, o: Ros)
    requires QuoteFree(v) && |v| < CFG_STR_LEN
    ensures ParseRos("{" + (Quote("node_name") + (": " + (Quote(v) + "}"))), o).nodeName == v
    ensures !ValidName("9")
  {
    hide StrStr, GetStr;
    var key, s := "node_name", ": " + (Quote(v) + "}");
    Finds("{", [], key, s);
    assert "{" + Render([]) == "{";
    ReadsStr("{" + (Quote(key) + s), key, ": ", v, "}", CFG_STR_LEN);
  }

  lemma {:induction false} ChannelsGrow(c: Config, i: nat, j: nat)
    requires i <= j <= |c.channels|
    ensures ChannelsText(c, i) <= ChannelsText(c, j)
  {
    hide ChannelText;
    if i < j { ChannelsGrow(c, i, j - 1); }
  }

  lemma {:induction false} TrimGrows(c: Config, i: nat, j: nat)
    requires |c.trim.ch| == RC_CH_COUNT && i <= j <= RC_CH_COUNT + 1
    ensures TrimText(c, i) <= TrimText(c, j)
  {
    hide RowText;
    if i < j { TrimGrows(c, i, j - 1); }
  }

  lemma BeforeTrimIs(c: Config)
    ensures c.channels == [] ==> BeforeTrim(c) == HeadText(c)
    ensures c.channels != [] ==> |ChannelsText(c, |c.channels|)| < |BeforeTrim(c)|
  {
    hide HeadText, ChannelsText;
  }

  lemma HeadFits(c: Config)
    requires |c.trim.ch| == RC_CH_COUNT
    ensures HeadText(c) <= BeforeTrim(c) <= TrimText(c, RC_CH_COUNT + 1)
  {
    hide HeadText, ChannelText, RowText;
    TrimGrows(c, 0, RC_CH_COUNT + 1);
    ChannelsGrow(c, 0, |c.channels|);
  }
}
