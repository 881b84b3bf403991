// Commands and the saved configuration: what a command changes in the printed
// text, which runs of commands end in a configuration that survives a restart,
// and the whole way from the commands to the file and back.
module ConfigCommands {
  import opened Options
  import opened Errno
  import opened CStrings
  import opened JsonScan
  import opened ConfigText
  import opened ConfigKeys
  import opened ConfigHead
  import opened ConfigRoundTrip
  import opened ConfigSections
  import opened ConfigChannels
  import opened ConfigStore
  import opened ConfigExact
  import opened ConfigSize

  /** Keys a search of the loader looks for, in front of which a string may stand. */
  const SEARCHED: set<string> :=
    {"dhcp", "ip", "netmask", "gateway", "agent_ip", "agent_port", "node_name", "namespace", "channels", "rc_trim"}

  // ---------------------------------------------------------------- a command changes what it names

  predicate IsNetworkKey(k: nat) { k in {1, 4, 6, 8, 10, 12} }

  /** A network command named like a printed key is accepted and changes the value printed behind
      that key, clipped to its field, and no other token of the head. */
  lemma NetworkCommand(c: Config, k: nat, value: string)
    requires IsNetworkKey(k) && |value| < CFG_STR_LEN && |c.trim.ch| == RC_CH_COUNT
    ensures var (rc, after) := Set(c, "network." + HeadTok(c, k), value);
            && rc == 0 && after.channels == c.channels && after.trim == c.trim && after.network.dhcp == c.network.dhcp
            && forall j :: 0 <= j < HEAD_CELLS ==>
                 HeadTok(after, j) == if j == k + 1 then Clip(value, Cap(k) - 1) else HeadTok(c, j)
  {
    NetworkPrefix(HeadTok(c, k));
    hide SetRos, SetChannels, SetTrim, Clip;
  }

  /** The network flag is set by its two true spellings and cleared by every other value. */
  lemma DhcpCommand(c: Config, value: string)
    requires |value| < CFG_STR_LEN && |c.trim.ch| == RC_CH_COUNT
    ensures Set(c, "network." + HeadTok(c, 3), value)
         == (0, c.(network := c.network.(dhcp := value == "true" || value == "1")))
  {
    NetworkPrefix(HeadTok(c, 3));
    hide SetRos, SetChannels, SetTrim;
  }

  /** Every other network command is refused. */
  lemma NetworkUnknown(c: Config, field: string, value: string)
    requires |value| < CFG_STR_LEN && |c.trim.ch| == RC_CH_COUNT
    requires field != HeadTok(c, 3) && forall k :: IsNetworkKey(k) ==> field != HeadTok(c, k)
    ensures Set(c, "network." + field, value) == (ENOENT, c)
  {
    NetworkPrefix(field);
    assert field != HeadTok(c, 1) && field != HeadTok(c, 4) && field != HeadTok(c, 6) && field != HeadTok(c, 8)
        && field != HeadTok(c, 10) && field != HeadTok(c, 12);
    hide SetRos, SetChannels, SetTrim;
  }

  lemma NetworkPrefix(field: string)
    ensures "network." <= "network." + field && ("network." + field)[8..] == field
  {
  }

  /** A ROS command named like a printed key is accepted exactly if its value keeps to the grammar of
      that name, and then it changes the value printed behind the key and no other token. */
  lemma RosCommand(c: Config, k: nat, value: string)
    requires k in {15, 17} && |value| < CFG_STR_LEN && |c.trim.ch| == RC_CH_COUNT
    ensures var (rc, after) := Set(c, "ros." + HeadTok(c, k), value);
            var ok := if k == 15 then ValidName(value) else ValidNamespace(value);
            && rc == (if ok then 0 else EINVAL)
            && after.channels == c.channels && after.trim == c.trim && after.network.dhcp == c.network.dhcp
            && forall j :: 0 <= j < HEAD_CELLS ==>
                 HeadTok(after, j) == if ok && j == k + 1 then value else HeadTok(c, j)
  {
    RosPrefix(HeadTok(c, k));
    hide SetNetwork, SetChannels, SetTrim, ValidName, ValidNamespace;
  }

  /** Every other ROS command is refused. */
  lemma RosUnknown(c: Config, field: string, value: string)
    requires |value| < CFG_STR_LEN && |c.trim.ch| == RC_CH_COUNT
    requires field != HeadTok(c, 15) && field != HeadTok(c, 17)
    ensures Set(c, "ros." + field, value) == (ENOENT, c)
  {
    RosPrefix(field);
    hide SetNetwork, SetChannels, SetTrim, ValidName, ValidNamespace;
  }

  lemma RosPrefix(field: string)
    ensures var key := "ros." + field; "ros." <= key && key[4..] == field && !("network." <= key)
  {
    assert ("ros." + field)[0] == 'r';
  }

  /** A trim command named like a printed trim key is accepted and changes the number printed behind
      that key, and no other. */
  lemma TrimCommand(c: Config, k: nat, value: string)
    requires k < 20 && |value| < CFG_STR_LEN && |c.trim.ch| == RC_CH_COUNT
    ensures var (rc, after) := Set(c, "rc_trim." + TrimKey(k), value);
            && rc == 0 && after == c.(trim := after.trim) && |after.trim.ch| == RC_CH_COUNT
            && (forall j :: 0 <= j < 19 ==>
                 TrimNum(after.trim, j) == if j == k then U16(Strtol(value)) else TrimNum(c.trim, j))
            && after.trim.emaAlpha == if k == 19 then Strtof(value) else c.trim.emaAlpha
  {
    TrimPrefix(TrimKey(k));
    SetTrimIs(c.trim, k, value);
    hide SetTrim, TrimKey, TrimNum, Strtol, Strtof, SetNetwork, SetRos, SetChannels, U16;
  }

  lemma SetTrimIs(t: RcTrim, k: nat, value: string)
    requires k < 20 && |t.ch| == RC_CH_COUNT
    ensures var (rc, r) := SetTrim(t, TrimKey(k), value);
            && rc == 0
            && (forall j :: 0 <= j < 19 ==> TrimNum(r, j) == if j == k then U16(Strtol(value)) else TrimNum(t, j))
            && r.emaAlpha == if k == 19 then Strtof(value) else t.emaAlpha
  {
    hide TrimKey, Strtol, Strtof, U16;
    if k < 18 {
      SetTrimCh(t, k, value);
      hide SetTrim;
      NumsAfter(t, k, U16(Strtol(value)));
    } else {
      TrimKeyIs(k);
      assert "deadzone"[0] == 'd' && "ema_alpha"[0] == 'e';
    }
  }

  /** The m-th trim of a channel set to v. */
  function WithTrim(x: TrimCh, m: nat, v: nat): TrimCh
  { if m == 0 then x.(min := v) else if m == 1 then x.(center := v) else x.(max := v) }

  lemma SetTrimCh(t: RcTrim, k: nat, value: string)
    requires k < 18 && |t.ch| == RC_CH_COUNT
    ensures SetTrim(t, TrimKey(k), value)
         == (0, t.(ch := t.ch[k / 3 := WithTrim(t.ch[k / 3], k % 3, U16(Strtol(value)))]))
  {
    TrimKeyIs(k);
    hide TrimKey, Strtol, Strtof, U16;
    assert "deadzone"[0] == 'd' && "ema_alpha"[0] == 'e' && TrimKey(k)[0] == TrimKey(k)[..2][0] == 'c';
    assert (TrimKey(k)[2] - '1') as nat == k / 3;
  }

  lemma NumsAfter(t: RcTrim, k: nat, v: nat)
    requires k < 18 && |t.ch| == RC_CH_COUNT
    ensures var r := t.(ch := t.ch[k / 3 := WithTrim(t.ch[k / 3], k % 3, v)]);
            forall j :: 0 <= j < 19 ==> TrimNum(r, j) == if j == k then v else TrimNum(t, j)
  {
  }

  lemma TrimPrefix(field: string)
    ensures var key := "rc_trim." + field;
            "rc_trim." <= key && key[8..] == field && !("network." <= key) && !("ros." <= key) && !("channels." <= key)
  {
    var key := "rc_trim." + field;
    assert key[1] == 'c' && key[0] == 'r';
  }

  lemma TrimKeyIs(k: nat)
    requires k < 20
    ensures k == 18 ==> TrimKey(k) == "deadzone"
    ensures k == 19 ==> TrimKey(k) == "ema_alpha"
    ensures k < 18 ==>
              && |TrimKey(k)| >= 6 && TrimKey(k)[..2] == "ch"
              && TrimKey(k)[2] == '1' + (k / 3) as char && TrimKey(k)[3] == '_'
              && TrimKey(k)[4..] == (if k % 3 == 0 then "min" else if k % 3 == 1 then "center" else "max")
  {
    if k < 18 {
      var tail := if k % 3 == 0 then "_min" else if k % 3 == 1 then "_center" else "_max";
      assert TrimKey(k) == ['c', 'h', DigitChar((k / 3 + 1) % 10)] + tail;
    }
  }

  /** Only commands named like a printed trim key are accepted. */
  lemma TrimUnknown(c: Config, field: string, value: string)
    requires |value| < CFG_STR_LEN && |c.trim.ch| == RC_CH_COUNT
    requires forall k :: 0 <= k < 20 ==> field != TrimKey(k)
    ensures Set(c, "rc_trim." + field, value) == (ENOENT, c)
  {
    TrimPrefix(field);
    assert field != TrimKey(18) && field != TrimKey(19);
    if |field| >= 6 && field[..2] == "ch" && '1' <= field[2] <= '6' && field[3] == '_' {
      var i := (field[2] - '1') as nat;
      NotThatKey(field, i, 0);
      NotThatKey(field, i, 1);
      NotThatKey(field, i, 2);
    }
    hide TrimKey, Strtol, Strtof, SetNetwork, SetRos, SetChannels, U16;
  }

  lemma NotThatKey(field: string, i: nat, m: nat)
    requires i < RC_CH_COUNT && m < 3 && field != TrimKey(3 * i + m)
    requires |field| >= 6 && field[..2] == "ch" && field[2] == '1' + i as char && field[3] == '_'
    ensures field[4..] != if m == 0 then "min" else if m == 1 then "center" else "max"
  {
    var k := 3 * i + m;
    assert k / 3 == i && k % 3 == m;
    TrimKeyIs(k);
    hide TrimKey;
    KeyParts(field);
    KeyParts(TrimKey(k));
  }

  lemma KeyParts(s: string)
    requires |s| >= 4
    ensures s == s[..2] + [s[2], s[3]] + s[4..]
  {
  }

  // ---------------------------------------------------------------- runs that end in a printable configuration

  /** A string that fits its field and can neither end a token nor pose as a key. */
  predicate Harmless(s: string)
  { |s| < CFG_STR_LEN && QuoteFree(s) && BraceFree(s) && NoNul(s) && s !in SEARCHED }

  /** A value to set: harmless, also when clipped to the eight characters of the port. */
  predicate HarmlessValue(v: string) { Harmless(v) && Clip(v, PORT_LEN - 1) !in SEARCHED }

  /** The channel a channels command names. */
  function ChannelOf(rest: string): string { match MemChr(rest, '.') case None => rest case Some(dot) => rest[..dot] }

  predicate HarmlessName(n: string) { n != "" && QuoteFree(n) && BraceFree(n) && NoNul(n) && n != TRIM_KEY }

  predicate HarmlessCmd(x: Cmd)
  { HarmlessValue(x.value) && ("channels." <= x.key ==> HarmlessName(ChannelOf(x.key[9..]))) }

  predicate HarmlessNetwork(n: Network)
  {
    && |n.mac| < MAC_LEN && |n.agentPort| < PORT_LEN && Harmless(n.mac) && Harmless(n.ip) && Harmless(n.netmask)
    && Harmless(n.gateway) && Harmless(n.agentIp) && Harmless(n.agentPort)
  }

  predicate HarmlessChannels(chs: seq<Channel>)
  { |chs| <= CFG_MAX_CHANNELS && forall ch :: ch in chs ==> PlainChannel(ch) && !Spells(ch) }

  predicate HarmlessTrim(t: RcTrim) { TrimInRange(t) && |Dec2(t.emaAlpha)| < 98 }

  predicate HarmlessConfig(c: Config)
  {
    && HarmlessNetwork(c.network) && Harmless(c.ros.nodeName) && Harmless(c.ros.ns)
    && HarmlessChannels(c.channels) && HarmlessTrim(c.trim)
  }

  // Such a configuration is printable.

  lemma HeadTokens(c: Config)
    requires HarmlessNetwork(c.network) && Harmless(c.ros.nodeName) && Harmless(c.ros.ns)
    ensures forall j :: 0 <= j < HEAD_CELLS && IsValue(j) ==> Harmless(HeadTok(c, j))
  {
    hide Harmless;
  }

  lemma SearchedKeys(c: Config, k: nat)
    requires IsSearched(k) && k > 1
    ensures HeadTok(c, k) in SEARCHED
  {
  }

  lemma HarmlessHead(c: Config)
    requires HarmlessNetwork(c.network) && Harmless(c.ros.nodeName) && Harmless(c.ros.ns)
    ensures PlainHead(c) && BracesHarmless(c) && HeadClear(c)
    ensures forall j :: 0 <= j < HEAD_CELLS && IsValue(j) ==> HeadTok(c, j) !in {TABLE_KEY, TRIM_KEY}
  {
    HeadTokens(c);
    hide HeadTok;
    forall k | 0 <= k < HEAD_CELLS && IsSearched(k) ensures KeyClear(c, k) {
      if k > 1 { SearchedKeys(c, k); }
    }
  }

  lemma NoChannelSpells(chs: seq<Channel>)
    requires HarmlessChannels(chs)
    ensures PlainChannels(chs) && ChannelsReach(chs)
  {
    hide Spells, NoTopics, PlainChannel;
  }

  lemma HarmlessIsPrintable(c: Config)
    requires HarmlessConfig(c)
    ensures Printable(c)
  {
    HarmlessHead(c);
    NoChannelSpells(c.channels);
    assert IsValue(16) && IsValue(18);
    hide HarmlessNetwork, PlainHead, HeadClear, BracesHarmless, PlainChannels, ChannelsReach, TrimInRange, Dec2, HeadTok;
  }

  // Harmless commands keep it harmless.

  lemma {:induction false} ValBound(d: string)
    requires forall c :: c in d ==> IsDigit(c)
    ensures Val(d) < Pow10(|d|)
  {
    if d != "" {
      assert d[|d| - 1] in d;
      ValBound(d[..|d| - 1]);
    }
  }

  lemma {:induction false} PowGrows(j: nat, k: nat)
    requires j <= k
    ensures Pow10(j) <= Pow10(k)
  {
    if j < k { PowGrows(j, k - 1); }
  }

  lemma FixedBound(s: string)
    ensures 0.0 <= Fixed(s) <= Pow10(|s|) as real
  {
    var whole := Digits(s);
    ValBound(whole);
    PowGrows(|whole|, |s|);
    var rest := s[|whole|..];
    if rest != "" && rest[0] == '.' {
      var frac := Digits(rest[1..]);
      ValBound(frac);
      PowGrows(|whole|, |s|);
      Fraction(Val(frac), Pow10(|frac|));
    }
  }

  lemma Fraction(a: nat, b: nat)
    requires a < b
    ensures 0.0 <= a as real / b as real < 1.0
  {
  }

  lemma {:induction false} SkipSpaceShortens(s: string)
    ensures |SkipSpace(s)| <= |s|
  {
    if s != "" && IsSpace(s[0]) { SkipSpaceShortens(s[1..]); }
  }

  lemma StrtofBound(s: string)
    ensures -(Pow10(|s|) as real) <= Strtof(s) <= Pow10(|s|) as real
  {
    hide Fixed, Pow10, SkipSpace;
    var t := SkipSpace(s);
    SkipSpaceShortens(s);
    Between(t, |s|);
    if t != "" { Between(t[1..], |s|); }
  }

  lemma Between(t: string, n: nat)
    requires |t| <= n
    ensures 0.0 <= Fixed(t) <= Pow10(n) as real && -(Pow10(n) as real) <= -Fixed(t) <= 0.0
  {
    PowGrows(|t|, n);
    FixedBound(t);
    hide Fixed, Pow10;
  }

  lemma HundredthsLength(n: nat, k: nat)
    requires n <= 100 * Pow10(k)
    ensures |Hundredths(n)| <= k + 4
  {
    assert Pow10(k + 1) == 10 * Pow10(k);
    assert n / 100 <= Pow10(k);
    DecLength(n / 100, k + 1);
    hide Pow10;
  }

  lemma RoundBound(x: real, p: nat)
    requires 0.0 <= x <= p as real
    ensures Round(x * 100.0) <= 100 * p
  {
    assert x * 100.0 <= p as real * 100.0 == (100 * p) as real;
    hide Round;
  }

  /** The constant a command can set prints in at most 52 characters. */
  lemma AlphaLength(s: string)
    requires |s| < CFG_STR_LEN
    ensures |Dec2(Strtof(s))| < 98
  {
    hide Strtof, Pow10, Hundredths, Round;
    StrtofBound(s);
    var x, p := Strtof(s), Pow10(|s|);
    var y := if x < 0.0 then -x else x;
    RoundBound(y, p);
    HundredthsLength(Round(y * 100.0), |s|);
  }

  lemma ClipHarmless(v: string, n: nat)
    requires HarmlessValue(v) && (n == PORT_LEN - 1 || n == MAC_LEN - 1 || n == CFG_STR_LEN - 1)
    ensures Harmless(Clip(v, n)) && |Clip(v, n)| <= n
  {
    assert forall c :: c in Clip(v, n) ==> c in v;
    if n == MAC_LEN - 1 && |v| > n { LongIsNoKey(Clip(v, n)); }
  }

  lemma LongIsNoKey(s: string)
    requires |s| > 10
    ensures s !in SEARCHED
  {
  }

  lemma NetworkStep(n: Network, field: string, value: string)
    requires HarmlessNetwork(n) && HarmlessValue(value)
    ensures HarmlessNetwork(SetNetwork(n, field, value).1)
  {
    ClipHarmless(value, PORT_LEN - 1);
    ClipHarmless(value, MAC_LEN - 1);
    ClipHarmless(value, CFG_STR_LEN - 1);
    hide Harmless, HarmlessValue, Clip;
  }

  lemma ChannelHarmless(name: string, en: bool, topic: string)
    requires HarmlessName(name) && Harmless(topic)
    ensures var ch := Channel(Clip(name, CFG_CH_NAME_LEN - 1), en, Clip(topic, CFG_CH_NAME_LEN - 1));
            PlainChannel(ch) && !Spells(ch)
  {
    assert forall c :: c in Clip(name, 31) ==> c in name;
    assert forall c :: c in Clip(topic, 31) ==> c in topic;
    assert |TRIM_KEY| == 7;
  }

  lemma ChannelsStep(chs: seq<Channel>, rest: string, value: string)
    requires HarmlessChannels(chs) && HarmlessName(ChannelOf(rest)) && HarmlessValue(value)
    ensures HarmlessChannels(SetChannels(chs, rest, value).1)
  {
    hide MemChr, FindChannel, PlainChannel, Spells;
    var name := ChannelOf(rest);
    EmptyHarmless();
    ChannelHarmless(name, Truth(value), "");
    ChannelHarmless(name, true, value);
    forall ch | ch in chs
      ensures PlainChannel(ch.(enabled := Truth(value))) && !Spells(ch.(enabled := Truth(value)))
      ensures var y := ch.(topic := Clip(value, CFG_CH_NAME_LEN - 1)); PlainChannel(y) && !Spells(y)
    {
      OtherFlag(ch, Truth(value));
      OtherTopic(ch, name, value);
    }
    assert forall k :: 0 <= k < |chs| ==> chs[k] in chs;
  }

  lemma EmptyHarmless()
    ensures Harmless("") && Clip("", CFG_CH_NAME_LEN - 1) == ""
  {
    assert forall s :: s in SEARCHED ==> s != "";
  }

  lemma OtherFlag(ch: Channel, en: bool)
    requires PlainChannel(ch) && !Spells(ch)
    ensures PlainChannel(ch.(enabled := en)) && !Spells(ch.(enabled := en))
  {
  }

  lemma OtherTopic(ch: Channel, name: string, value: string)
    requires PlainChannel(ch) && !Spells(ch) && HarmlessName(name) && Harmless(value)
    ensures var y := ch.(topic := Clip(value, CFG_CH_NAME_LEN - 1)); PlainChannel(y) && !Spells(y)
  {
    ChannelHarmless(name, true, value);
  }

  lemma TrimRangeStep(t: RcTrim, field: string, value: string)
    requires TrimInRange(t)
    ensures TrimInRange(SetTrim(t, field, value).1)
  {
    hide Strtol, Strtof;
  }

  lemma AlphaStep(t: RcTrim, field: string, value: string)
    requires |t.ch| == RC_CH_COUNT
    ensures SetTrim(t, field, value).1.emaAlpha in {t.emaAlpha, Strtof(value)}
  {
    hide Strtol, Strtof;
  }

  lemma TrimStep(t: RcTrim, field: string, value: string)
    requires HarmlessTrim(t) && |value| < CFG_STR_LEN
    ensures HarmlessTrim(SetTrim(t, field, value).1)
  {
    TrimRangeStep(t, field, value);
    AlphaStep(t, field, value);
    AlphaLength(value);
    hide SetTrim, Strtof, Dec2, TrimInRange;
  }

  // How a command unfolds for each prefix.

  lemma SetsNetwork(c: Config, key: string, value: string)
    requires |c.trim.ch| == RC_CH_COUNT && |value| < CFG_STR_LEN && "network." <= key
    ensures Set(c, key, value).1 == c.(network := SetNetwork(c.network, key[8..], value).1)
  {
    hide SetNetwork, SetRos, SetChannels, SetTrim;
  }

  lemma SetsRos(c: Config, key: string, value: string)
    requires |c.trim.ch| == RC_CH_COUNT && |value| < CFG_STR_LEN && "ros." <= key
    ensures Set(c, key, value).1 == c.(ros := SetRos(c.ros, key[4..], value).1)
  {
    assert key[0] == "ros."[0];
    hide SetNetwork, SetRos, SetChannels, SetTrim;
  }

  lemma SetsChannels(c: Config, key: string, value: string)
    requires |c.trim.ch| == RC_CH_COUNT && |value| < CFG_STR_LEN && "channels." <= key
    ensures Set(c, key, value).1 == c.(channels := SetChannels(c.channels, key[9..], value).1)
  {
    PrefixesDiffer(key);
    hide SetNetwork, SetRos, SetChannels, SetTrim;
  }

  lemma SetsTrim(c: Config, key: string, value: string)
    requires |c.trim.ch| == RC_CH_COUNT && |value| < CFG_STR_LEN && "rc_trim." <= key
    ensures Set(c, key, value).1 == c.(trim := SetTrim(c.trim, key[8..], value).1)
  {
    assert key[0] == "rc_trim."[0] && key[1] == "rc_trim."[1];
    hide SetNetwork, SetRos, SetChannels, SetTrim;
  }

  lemma SetsNothing(c: Config, key: string, value: string)
    requires |c.trim.ch| == RC_CH_COUNT
    requires |value| >= CFG_STR_LEN
             || !("network." <= key || "ros." <= key || "channels." <= key || "rc_trim." <= key)
    ensures Set(c, key, value).1 == c
  {
    hide SetNetwork, SetRos, SetChannels, SetTrim;
  }

  lemma RosStep(o: Ros, field: string, value: string)
    requires Harmless(o.nodeName) && Harmless(o.ns) && HarmlessValue(value)
    ensures var r := SetRos(o, field, value).1; Harmless(r.nodeName) && Harmless(r.ns)
  {
    ClipHarmless(value, CFG_STR_LEN - 1);
    hide Harmless, HarmlessValue, ValidName, ValidNamespace;
  }

  lemma CommandStep(c: Config, x: Cmd)
    requires HarmlessConfig(c) && HarmlessCmd(x)
    ensures HarmlessConfig(Set(c, x.key, x.value).1)
  {
    assert |c.trim.ch| == RC_CH_COUNT;
    hide Set, SetNetwork, SetRos, SetChannels, SetTrim, HarmlessName, ChannelOf;
    hide HarmlessNetwork, HarmlessChannels, HarmlessTrim, Harmless;
    if |x.value| >= CFG_STR_LEN {
      SetsNothing(c, x.key, x.value);
    } else if "network." <= x.key {
      SetsNetwork(c, x.key, x.value);
      NetworkStep(c.network, x.key[8..], x.value);
    } else if "ros." <= x.key {
      SetsRos(c, x.key, x.value);
      RosStep(c.ros, x.key[4..], x.value);
    } else if "channels." <= x.key {
      SetsChannels(c, x.key, x.value);
      ChannelsStep(c.channels, x.key[9..], x.value);
    } else if "rc_trim." <= x.key {
      SetsTrim(c, x.key, x.value);
      TrimStep(c.trim, x.key[8..], x.value);
    } else {
      SetsNothing(c, x.key, x.value);
    }
  }

  /** No key consists of digits and dots. */
  lemma DottedHarmless(s: string)
    requires |s| < CFG_STR_LEN && forall c :: c in s ==> IsDigit(c) || c == '.'
    ensures Harmless(s)
  {
    forall k | k in SEARCHED ensures k != s {
      assert k != "" && 'a' <= k[0] <= 'z' by { KeyLetter(k); }
      if s != "" { assert s[0] in s; }
    }
  }

  lemma KeyLetter(k: string)
    requires k in SEARCHED
    ensures k != "" && 'a' <= k[0] <= 'z'
  {
  }

  lemma DefaultNames()
    ensures Harmless("pico_bridge") && Harmless("/")
  {
    assert |"pico_bridge"| == 11;
    LongIsNoKey("pico_bridge");
    if "/" in SEARCHED { KeyLetter("/"); }
    hide SEARCHED;
  }

  lemma DefaultsHarmless()
    ensures HarmlessConfig(Defaults())
  {
    DottedHarmless("");
    DottedHarmless("192.168.68.114");
    DottedHarmless("255.255.255.0");
    DottedHarmless("192.168.68.1");
    DottedHarmless("192.168.68.125");
    DottedHarmless("8888");
    DefaultNames();
    OneLength();
    hide Dec2, Harmless, SEARCHED;
  }

  lemma OneLength()
    ensures |Dec2(1.0)| < 98
  {
    RoundBound(1.0, 1);
    assert Pow10(0) == 1;
    HundredthsLength(Round(100.0), 0);
    hide Hundredths, Round;
  }

  /** From the defaults, every run of harmless commands ends in a printable configuration. */
  lemma {:induction false} RunIsPrintable(cmds: seq<Cmd>)
    requires forall x :: x in cmds ==> HarmlessCmd(x)
    ensures HarmlessConfig(Run(Defaults(), cmds)) && Printable(Run(Defaults(), cmds))
  {
    hide Set, HarmlessConfig, HarmlessCmd, Printable;
    if cmds == [] {
      DefaultsHarmless();
    } else {
      var front := cmds[..|cmds| - 1];
      RunIsPrintable(front);
      assert cmds[|cmds| - 1] in cmds;
      CommandStep(Run(Defaults(), front), cmds[|cmds| - 1]);
    }
    HarmlessIsPrintable(Run(Defaults(), cmds));
  }

  // ---------------------------------------------------------------- from the commands to the file and back

  method Apply(s: ConfigStore, cmds: seq<Cmd>)
    requires s.Valid()
    modifies s`network, s`ros, s`channels, s`trim
    ensures s.Valid() && s.Snapshot() == Run(old(s.Snapshot()), cmds)
  {
    hide Set;
    for i := 0 to |cmds|
      invariant s.Valid() && s.Snapshot() == Run(old(s.Snapshot()), cmds[..i])
    {
      assert cmds[..i + 1][..i] == cmds[..i];
      var _ := s.SetKey(cmds[i].key, cmds[i].value);
    }
    assert cmds[..|cmds|] == cmds;
  }

  /** Reset, set, save, change the settings in RAM at will, load: the saved configuration is back, as
      long as the table and the filter constant stay within their budget. */
  method SetSaveLoad(s: ConfigStore, cmds: seq<Cmd>, later: seq<Cmd>) returns (over: bool)
    requires s.Valid() && forall x :: x in cmds ==> HarmlessCmd(x)
    modifies s, s.ioBuf
    ensures s.Valid()
    ensures var c := Run(Defaults(), cmds);
            TableSize(c.channels) + |Dec2(c.trim.emaAlpha)| <= 596 ==> !over && s.Snapshot() == Rounded(c)
  {
    hide Run, HarmlessCmd, TrimText, JsonText, Parse, TableSize, Dec2, Rounded, Printable, Visible;
    s.ResetDefaults();
    Apply(s, cmds);
    ghost var c := s.Snapshot();
    RunIsPrintable(cmds);
    RunFits(cmds);
    var rc;
    rc, over := s.Save(0, 0);
    if over {
      OverBudget(c);
      return;
    }
    Apply(s, later);
    ghost var o := s.Snapshot();
    var loaded := s.Load(0, 0);
    if TableSize(c.channels) + |Dec2(c.trim.emaAlpha)| <= 596 {
      TableBudget(c);
      SaveLoadRestores(c, o);
    }
  }

  lemma OverBudget(c: Config)
    requires FieldsFit(c) && |c.trim.ch| == RC_CH_COUNT && |TrimText(c, RC_CH_COUNT + 1)| > IO_BUF
    ensures TableSize(c.channels) + |Dec2(c.trim.emaAlpha)| > 596
  {
    hide TableSize, Dec2, TrimText;
    if TableSize(c.channels) + |Dec2(c.trim.emaAlpha)| <= 596 { TableBudget(c); }
  }
}
