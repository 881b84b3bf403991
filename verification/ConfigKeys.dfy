// config_set and the channel table it maintains, and the grammars that guard
// the node name and the namespace.
module ConfigKeys {
  import opened Options
  import opened Errno
  import opened CStrings
  import opened JsonScan
  import opened ConfigText

  // ---------------------------------------------------------------- name grammars

  predicate IsLetter(c: char) { 'a' <= c <= 'z' || 'A' <= c <= 'Z' }

  predicate IsNameChar(c: char) { IsLetter(c) || IsDigit(c) || c == '_' }

  /** A ROS 2 name: a letter, then letters, digits and underscores. */
  predicate ValidName(s: string)
  { s != "" && IsLetter(s[0]) && forall i :: 1 <= i < |s| ==> IsNameChar(s[i]) }

  /** Each segment behind a slash. */
  function Slashed(segs: seq<string>): string
  { if segs == [] then "" else "/" + segs[0] + Slashed(segs[1..]) }

  predicate ValidSegment(s: string) { ValidName(s) && |s| < CFG_STR_LEN }

  /** The namespace grammar: the root, or one or more slash-led segments. */
  ghost predicate ValidNamespace(s: string)
  { s == "/" || exists segs: seq<string> :: segs != [] && (forall x :: x in segs ==> ValidSegment(x)) && s == Slashed(segs) }

  /** is_valid_ros2_name. */
  method IsValidName(s: string) returns (ok: bool)
    ensures ok <==> ValidName(s)
  {
    if s == "" || !IsLetter(s[0]) { return false; }
    var i := 1;
    while i < |s|
      invariant 1 <= i <= |s| && forall k :: 1 <= k < i ==> IsNameChar(s[k])
    {
      if !IsNameChar(s[i]) { return false; }
      i := i + 1;
    }
    ok := true;
  }

  /** The text up to the next slash. */
  function FirstSegment(t: string): (s: string)
    ensures s <= t && '/' !in s && (|s| < |t| ==> t[|s|] == '/')
  {
    if t == "" || t[0] == '/' then ""
    else
      assert t == [t[0]] + t[1..];
      [t[0]] + FirstSegment(t[1..])
  }

  /** What the segment loop accepts from just behind a slash. */
  predicate SegmentsOk(t: string)
    decreases |t|
  {
    t == "" ||
    (var seg := FirstSegment(t);
     ValidSegment(seg) && (|seg| == |t| || SegmentsOk(t[|seg| + 1..])))
  }

  /** The inner loop: the end of the segment that starts at `start`. */
  method SegmentEnd(s: string, start: nat) returns (p: nat)
    requires start <= |s|
    ensures start <= p <= |s| && s[start..p] == FirstSegment(s[start..])
  {
    ghost var seg := FirstSegment(s[start..]);
    assert start + |seg| < |s| ==> s[start + |seg|] == s[start..][|seg|];
    assert forall k :: 0 <= k < |seg| ==> s[start + k] == seg[k] && seg[k] in seg;
    p := start;
    while p < |s| && s[p] != '/'
      invariant start <= p <= start + |seg| <= |s|
    {
      p := p + 1;
    }
    assert p - start == |seg|;
  }

  /** is_valid_ros2_namespace. */
  method IsValidNamespace(s: string) returns (ok: bool)
    ensures ok <==> ValidNamespace(s)
  {
    hide ValidNamespace, ValidName, FirstSegment;
    NamespaceMeans(s);
    if s == "" || s[0] != '/' { return false; }
    if |s| == 1 { return true; }
    if s[|s| - 1] == '/' { return false; }
    var p := 1;
    while p < |s|
      invariant 1 <= p <= |s|
      invariant SegmentsOk(s[p..]) <==> SegmentsOk(s[1..])
    {
      var start := p;
      p := SegmentEnd(s, start);
      if p == start {
        assert !ValidName(s[start..p]) by { EmptyIsNoName(s[start..p]); }
        return false;
      }
      if p - start >= CFG_STR_LEN { return false; }
      var valid := IsValidName(s[start..p]);
      if !valid { return false; }
      if p < |s| {
        assert s[start..][p - start + 1..] == s[p + 1..];
        p := p + 1;
      }
    }
    assert s[p..] == "";
    ok := true;
  }

  lemma EmptyIsNoName(s: string)
    requires s == ""
    ensures !ValidName(s)
  {
  }

  lemma NameHasNoSlash(s: string)
    requires ValidName(s)
    ensures '/' !in s
  {
  }

  lemma {:induction false} FirstSegmentIs(x: string, t: string)
    requires '/' !in x && (t == "" || t[0] == '/')
    ensures FirstSegment(x + t) == x
  {
    if x == "" {
      assert x + t == t;
    } else {
      assert (x + t)[0] == x[0] && x[0] in x && (x + t)[1..] == x[1..] + t;
      FirstSegmentIs(x[1..], t);
      assert [x[0]] + x[1..] == x;
    }
  }

  lemma {:induction false} SlashedForm(segs: seq<string>)
    requires segs != [] && forall x :: x in segs ==> ValidSegment(x)
    ensures var t := Slashed(segs); |t| > 1 && t[0] == '/' && t[|t| - 1] != '/'
  {
    assert segs[0] in segs;
    var x, rest := segs[0], Slashed(segs[1..]);
    if segs[1..] != [] { SlashedForm(segs[1..]); }
    NameHasNoSlash(x);
    assert x[|x| - 1] in x;
  }

  lemma {:induction false} SegmentsComplete(segs: seq<string>)
    requires segs != [] && forall x :: x in segs ==> ValidSegment(x)
    ensures Slashed(segs) != "" && SegmentsOk(Slashed(segs)[1..])
  {
    hide ValidSegment, FirstSegment;
    var x, rest := segs[0], Slashed(segs[1..]);
    assert ValidSegment(x) && '/' !in x by { assert x in segs; SegmentHasNoSlash(x); }
    assert Slashed(segs) == "/" + (x + rest);
    assert Slashed(segs)[1..] == x + rest;
    if segs[1..] != [] {
      SlashedForm(segs[1..]);
      SegmentsComplete(segs[1..]);
      assert (x + rest)[|x| + 1..] == rest[1..];
    }
    FirstSegmentIs(x, rest);
  }

  lemma SegmentHasNoSlash(s: string)
    requires ValidSegment(s)
    ensures '/' !in s
  {
  }

  lemma {:induction false} SegmentsSound(t: string) returns (segs: seq<string>)
    requires t != "" && SegmentsOk(t) && t[|t| - 1] != '/'
    ensures segs != [] && (forall x :: x in segs ==> ValidSegment(x)) && "/" + t == Slashed(segs)
    decreases |t|
  {
    hide ValidSegment, FirstSegment, Slashed;
    var seg := FirstSegment(t);
    FirstSegmentCuts(t);
    if |seg| == |t| {
      segs := [seg];
      SlashedCons(seg, []);
      assert [seg] + [] == [seg] && "/" + seg + "" == "/" + t;
    } else {
      var more := SegmentsSound(t[|seg| + 1..]);
      segs := [seg] + more;
      SlashedCons(seg, more);
      Assoc("/", seg, "/" + t[|seg| + 1..]);
    }
  }

  lemma FirstSegmentCuts(t: string)
    ensures var n := |FirstSegment(t)|;
            n <= |t| && if n == |t| then t == FirstSegment(t) else t == FirstSegment(t) + ("/" + t[n + 1..])
  {
  }

  lemma SlashedCons(x: string, more: seq<string>)
    ensures Slashed([x] + more) == "/" + x + Slashed(more)
    ensures Slashed([]) == ""
  {
    assert ([x] + more)[1..] == more;
  }

  lemma NamespaceMeans(s: string)
    ensures ValidNamespace(s) <==>
            s == "/" || (|s| > 1 && s[0] == '/' && s[|s| - 1] != '/' && SegmentsOk(s[1..]))
  {
    if s != "/" {
      if segs: seq<string> :| segs != [] && (forall x :: x in segs ==> ValidSegment(x)) && s == Slashed(segs) {
        SegmentsComplete(segs);
        SlashedForm(segs);
      }
      if |s| > 1 && s[0] == '/' && s[|s| - 1] != '/' && SegmentsOk(s[1..]) {
        var segs := SegmentsSound(s[1..]);
        assert s == "/" + s[1..];
      }
    }
  }

  // ---------------------------------------------------------------- config_set

  /** strcpy into a field of the given size, truncating. */
  function SafeCopy(s: string, size: nat): string
    requires size > 0
  { Clip(s, size - 1) }

  function Truth(value: string): bool { value == "true" || value == "1" }

  /** The first entry of that name. */
  function FindChannel(chs: seq<Channel>, name: string): (i: int)
    ensures -1 <= i < |chs| && (i >= 0 ==> chs[i].name == name)
    ensures forall k :: 0 <= k < (if i < 0 then |chs| else i) ==> chs[k].name != name
  {
    if chs == [] then -1
    else if chs[0].name == name then 0
    else
      var r := FindChannel(chs[1..], name);
      assert forall k :: 1 <= k < |chs| ==> chs[k] == chs[1..][k - 1];
      if r < 0 then -1 else r + 1
  }

  /** channels.<rest>: set the flag of an entry, or append one under the truncated name. */
  function SetEnabled(chs: seq<Channel>, rest: string, en: bool): (r: (int, seq<Channel>))
    ensures r.0 != 0 ==> r.1 == chs
    ensures |chs| <= CFG_MAX_CHANNELS ==> |r.1| <= CFG_MAX_CHANNELS
  {
    var i := FindChannel(chs, rest);
    if i >= 0 then (0, chs[i := chs[i].(enabled := en)])
    else if |chs| >= CFG_MAX_CHANNELS then (ENOMEM, chs)
    else (0, chs + [Channel(SafeCopy(rest, CFG_CH_NAME_LEN), en, "")])
  }

  /** channels.<name>.<what>: only the topic can be set. */
  function SetTopic(chs: seq<Channel>, name: string, what: string, value: string): (r: (int, seq<Channel>))
    ensures r.0 != 0 ==> r.1 == chs
    ensures |chs| <= CFG_MAX_CHANNELS ==> |r.1| <= CFG_MAX_CHANNELS
  {
    if |name| >= CFG_CH_NAME_LEN then (EINVAL, chs)
    else if what != "topic" then (ENOENT, chs)
    else
      var i := FindChannel(chs, name);
      var topic := SafeCopy(value, CFG_CH_NAME_LEN);
      if i >= 0 then (0, chs[i := chs[i].(topic := topic)])
      else if |chs| >= CFG_MAX_CHANNELS then (ENOMEM, chs)
      else (0, chs + [Channel(name, true, topic)])
  }

  function SetChannels(chs: seq<Channel>, rest: string, value: string): (r: (int, seq<Channel>))
    ensures r.0 != 0 ==> r.1 == chs
    ensures |chs| <= CFG_MAX_CHANNELS ==> |r.1| <= CFG_MAX_CHANNELS
  {
    match MemChr(rest, '.')
    case Some(dot) => SetTopic(chs, rest[..dot], rest[dot + 1..], value)
    case None => SetEnabled(chs, rest, Truth(value))
  }

  function SetTrim(t: RcTrim, field: string, value: string): (r: (int, RcTrim))
    requires |t.ch| == RC_CH_COUNT
    ensures r.0 != 0 ==> r.1 == t
    ensures |r.1.ch| == RC_CH_COUNT
  {
    var v := U16(Strtol(value));
    if field == "deadzone" then (0, t.(deadzone := v))
    else if field == "ema_alpha" then (0, t.(emaAlpha := Strtof(value)))
    else if |field| >= 6 && field[..2] == "ch" && '1' <= field[2] <= '6' && field[3] == '_' then
      var i := (field[2] - '1') as nat;
      var sub := field[4..];
      if sub == "min" then (0, t.(ch := t.ch[i := t.ch[i].(min := v)]))
      else if sub == "center" then (0, t.(ch := t.ch[i := t.ch[i].(center := v)]))
      else if sub == "max" then (0, t.(ch := t.ch[i := t.ch[i].(max := v)]))
      else (ENOENT, t)
    else (ENOENT, t)
  }

  function SetNetwork(n: Network, field: string, value: string): (r: (int, Network))
    ensures r.0 != 0 ==> r.1 == n
  {
    if field == "mac" then (0, n.(mac := SafeCopy(value, MAC_LEN)))
    else if field == "dhcp" then (0, n.(dhcp := Truth(value)))
    else if field == "ip" then (0, n.(ip := SafeCopy(value, CFG_STR_LEN)))
    else if field == "netmask" then (0, n.(netmask := SafeCopy(value, CFG_STR_LEN)))
    else if field == "gateway" then (0, n.(gateway := SafeCopy(value, CFG_STR_LEN)))
    else if field == "agent_ip" then (0, n.(agentIp := SafeCopy(value, CFG_STR_LEN)))
    else if field == "agent_port" then (0, n.(agentPort := SafeCopy(value, PORT_LEN)))
    else (ENOENT, n)
  }

  ghost function SetRos(o: Ros, field: string, value: string): (r: (int, Ros))
    ensures r.0 != 0 ==> r.1 == o
  {
    if field == "node_name" then
      if ValidName(value) then (0, o.(nodeName := SafeCopy(value, CFG_STR_LEN))) else (EINVAL, o)
    else if field == "namespace" then
      if ValidNamespace(value) then (0, o.(ns := SafeCopy(value, CFG_STR_LEN))) else (EINVAL, o)
    else (ENOENT, o)
  }

  /** config_set: the return code and the configuration afterwards. */
  ghost function Set(c: Config, key: string, value: string): (r: (int, Config))
    requires |c.trim.ch| == RC_CH_COUNT
  {
    if |value| >= CFG_STR_LEN then (ENAMETOOLONG, c)
    else if "network." <= key then
      var (rc, n) := SetNetwork(c.network, key[8..], value);
      (rc, c.(network := n))
    else if "ros." <= key then
      var (rc, o) := SetRos(c.ros, key[4..], value);
      (rc, c.(ros := o))
    else if "channels." <= key then
      var (rc, chs) := SetChannels(c.channels, key[9..], value);
      (rc, c.(channels := chs))
    else if "rc_trim." <= key then
      var (rc, t) := SetTrim(c.trim, key[8..], value);
      (rc, c.(trim := t))
    else (ENOENT, c)
  }

  /** Every error return leaves the whole configuration as it was. */
  lemma ErrorsChangeNothing(c: Config, key: string, value: string)
    requires |c.trim.ch| == RC_CH_COUNT
    ensures Set(c, key, value).0 != 0 ==> Set(c, key, value).1 == c
  {
    hide SetNetwork, SetRos, SetChannels, SetTrim;
  }

  // ---------------------------------------------------------------- the table as a map

  datatype Setting = Setting(enabled: bool, topic: string)

  predicate Unique(chs: seq<Channel>)
  { forall i, j :: 0 <= i < j < |chs| ==> chs[i].name != chs[j].name }

  function AsMap(chs: seq<Channel>): map<string, Setting>
  {
    if chs == [] then map[]
    else AsMap(chs[..|chs| - 1])[chs[|chs| - 1].name := Setting(chs[|chs| - 1].enabled, chs[|chs| - 1].topic)]
  }

  predicate Named(chs: seq<Channel>, n: string) { exists i :: 0 <= i < |chs| && chs[i].name == n }

  lemma {:induction false} MapKeys(chs: seq<Channel>)
    ensures forall n :: n in AsMap(chs) <==> Named(chs, n)
  {
    if chs != [] {
      var init, last := chs[..|chs| - 1], chs[|chs| - 1];
      MapKeys(init);
      forall n ensures Named(chs, n) <==> Named(init, n) || n == last.name {
        if Named(init, n) { var i :| 0 <= i < |init| && init[i].name == n; assert chs[i].name == n; }
        if Named(chs, n) && n != last.name {
          var i :| 0 <= i < |chs| && chs[i].name == n;
          assert init[i].name == n;
        }
      }
    }
  }

  /** A unique table is its map: same values, one entry each. */
  lemma {:induction false} MapOfUnique(chs: seq<Channel>)
    requires Unique(chs)
    ensures |AsMap(chs)| == |chs|
    ensures forall i :: 0 <= i < |chs| ==>
              chs[i].name in AsMap(chs) && AsMap(chs)[chs[i].name] == Setting(chs[i].enabled, chs[i].topic)
  {
    if chs != [] {
      var init, last := chs[..|chs| - 1], chs[|chs| - 1];
      MapOfUnique(init);
      MapKeys(init);
      assert last.name !in AsMap(init);
      assert forall i :: 0 <= i < |init| ==> chs[i] == init[i];
    }
  }

  lemma FoundIff(chs: seq<Channel>, n: string)
    ensures FindChannel(chs, n) >= 0 <==> n in AsMap(chs)
  {
    hide FindChannel, AsMap;
    MapKeys(chs);
  }

  lemma SameMap(a: seq<Channel>, m: map<string, Setting>)
    requires Unique(a) && |m| == |a|
    requires forall i :: 0 <= i < |a| ==> a[i].name in m && m[a[i].name] == Setting(a[i].enabled, a[i].topic)
    ensures AsMap(a) == m
  {
    hide AsMap;
    MapOfUnique(a);
    MapKeys(a);
    var k := AsMap(a);
    forall n | n in k ensures n in m && m[n] == k[n] {
      var i :| 0 <= i < |a| && a[i].name == n;
    }
    assert k.Keys <= m.Keys;
    SubsetOfSameSize(k.Keys, m.Keys);
  }

  lemma SubsetOfSameSize<T>(a: set<T>, b: set<T>)
    requires a <= b && |a| == |b|
    ensures a == b
  {
    assert b == a + (b - a);
  }

  /** The abstract table: at most twelve names; a new name starts enabled without a topic. */
  function MapSet(m: map<string, Setting>, name: string, change: Setting -> Setting): (int, map<string, Setting>)
  {
    if name in m then (0, m[name := change(m[name])])
    else if |m| >= CFG_MAX_CHANNELS then (ENOMEM, m)
    else (0, m[name := change(Setting(true, ""))])
  }

  lemma AppendRefines(chs: seq<Channel>, ch: Channel)
    requires Unique(chs) && FindChannel(chs, ch.name) < 0
    ensures Unique(chs + [ch]) && AsMap(chs + [ch]) == AsMap(chs)[ch.name := Setting(ch.enabled, ch.topic)]
  {
    hide FindChannel;
    assert (chs + [ch])[..|chs|] == chs;
  }

  lemma UpdateRefines(chs: seq<Channel>, i: nat, en: bool, topic: string)
    requires Unique(chs) && i < |chs|
    ensures var after := chs[i := Channel(chs[i].name, en, topic)];
            Unique(after) && AsMap(after) == AsMap(chs)[chs[i].name := Setting(en, topic)]
  {
    hide AsMap;
    MapOfUnique(chs);
    SameMap(chs[i := Channel(chs[i].name, en, topic)], AsMap(chs)[chs[i].name := Setting(en, topic)]);
  }

  /** channels.<name> on the table is the flag update on the map, for names that fit. */
  lemma EnabledRefines(chs: seq<Channel>, name: string, en: bool)
    requires Unique(chs) && |name| < CFG_CH_NAME_LEN
    ensures var (rc, after) := SetEnabled(chs, name, en);
            Unique(after) && (rc, AsMap(after)) == MapSet(AsMap(chs), name, (s: Setting) => Setting(en, s.topic))
  {
    hide AsMap, FindChannel, Unique;
    MapOfUnique(chs);
    FoundIff(chs, name);
    var i := FindChannel(chs, name);
    if i >= 0 {
      UpdateRefines(chs, i, en, chs[i].topic);
    } else if |chs| < CFG_MAX_CHANNELS {
      AppendRefines(chs, Channel(name, en, ""));
    }
  }

  /** channels.<name>.topic on the table is the topic update on the map. */
  lemma TopicRefines(chs: seq<Channel>, name: string, value: string)
    requires Unique(chs) && |name| < CFG_CH_NAME_LEN
    ensures var (rc, after) := SetTopic(chs, name, "topic", value);
            var topic := SafeCopy(value, CFG_CH_NAME_LEN);
            Unique(after) && (rc, AsMap(after)) == MapSet(AsMap(chs), name, (s: Setting) => Setting(s.enabled, topic))
  {
    hide AsMap, FindChannel, Unique;
    MapOfUnique(chs);
    FoundIff(chs, name);
    var i, topic := FindChannel(chs, name), SafeCopy(value, CFG_CH_NAME_LEN);
    if i >= 0 {
      UpdateRefines(chs, i, chs[i].enabled, topic);
    } else if |chs| < CFG_MAX_CHANNELS {
      AppendRefines(chs, Channel(name, true, topic));
    }
  }

  /** A name of 32 characters or more is stored truncated and never found again: setting it
      twice appends two entries under one name. */
  lemma LongNameDuplicates(chs: seq<Channel>, name: string, en: bool)
    requires |name| >= CFG_CH_NAME_LEN && |chs| + 2 <= CFG_MAX_CHANNELS
    requires forall ch :: ch in chs ==> |ch.name| < CFG_CH_NAME_LEN
    ensures var twice := SetEnabled(SetEnabled(chs, name, en).1, name, en).1;
            |twice| == |chs| + 2 && twice[|chs|].name == twice[|chs| + 1].name == name[..31] && !Unique(twice)
  {
    hide FindChannel;
    var once := SetEnabled(chs, name, en).1;
    assert forall ch :: ch in once ==> |ch.name| < CFG_CH_NAME_LEN;
    assert forall i :: 0 <= i < |once| ==> once[i] in once;
    assert forall i :: 0 <= i < |chs| ==> chs[i] in chs;
  }

  // ---------------------------------------------------------------- runs of config_set

  datatype Cmd = Cmd(key: string, value: string)

  ghost function Run(c: Config, cmds: seq<Cmd>): (r: Config)
    requires |c.trim.ch| == RC_CH_COUNT
    ensures |r.trim.ch| == RC_CH_COUNT
  { if cmds == [] then c else Set(Run(c, cmds[..|cmds| - 1]), cmds[|cmds| - 1].key, cmds[|cmds| - 1].value).1 }

  /** The same command on the abstract table. */
  function MapStep(m: map<string, Setting>, key: string, value: string): (int, map<string, Setting>)
  {
    var rest := if "channels." <= key then key[9..] else "";
    if |value| >= CFG_STR_LEN || !("channels." <= key) then (0, m)
    else
      match MemChr(rest, '.')
      case None => MapSet(m, rest, (s: Setting) => Setting(Truth(value), s.topic))
      case Some(dot) =>
        if dot >= CFG_CH_NAME_LEN || rest[dot + 1..] != "topic" then (0, m)
        else
          var topic := SafeCopy(value, CFG_CH_NAME_LEN);
          MapSet(m, rest[..dot], (s: Setting) => Setting(s.enabled, topic))
  }

  function MapRun(cmds: seq<Cmd>): map<string, Setting>
  { if cmds == [] then map[] else MapStep(MapRun(cmds[..|cmds| - 1]), cmds[|cmds| - 1].key, cmds[|cmds| - 1].value).1 }

  /** A flag command whose channel name is not truncated; other commands always fit. */
  predicate NameFits(key: string)
  { "channels." <= key && '.' !in key[9..] ==> |key| < 9 + CFG_CH_NAME_LEN }

  /** One command keeps the table a map and acts on it as the map command does; a command is
      refused for space exactly when the map refuses it. */
  lemma ChannelsRefine(chs: seq<Channel>, key: string, value: string)
    requires Unique(chs) && NameFits(key) && "channels." <= key && |value| < CFG_STR_LEN
    ensures var (rc, after) := SetChannels(chs, key[9..], value);
            && Unique(after) && AsMap(after) == MapStep(AsMap(chs), key, value).1
            && (rc == ENOMEM <==> MapStep(AsMap(chs), key, value).0 == ENOMEM)
  {
    hide AsMap, SetEnabled, Unique;
    var rest := key[9..];
    match MemChr(rest, '.') {
      case None => EnabledRefines(chs, rest, Truth(value));
      case Some(dot) =>
        if dot < CFG_CH_NAME_LEN && rest[dot + 1..] == "topic" { TopicRefines(chs, rest[..dot], value); }
    }
  }

  lemma StepRefines(c: Config, key: string, value: string)
    requires |c.trim.ch| == RC_CH_COUNT && Unique(c.channels) && NameFits(key)
    ensures var (rc, after) := Set(c, key, value);
            && Unique(after.channels) && AsMap(after.channels) == MapStep(AsMap(c.channels), key, value).1
            && (rc == ENOMEM <==> MapStep(AsMap(c.channels), key, value).0 == ENOMEM)
  {
    if "channels." <= key && |value| < CFG_STR_LEN {
      ChannelsRefine(c.channels, key, value);
      PrefixesDiffer(key);
      hide AsMap, SetChannels, MapStep, Unique;
    } else {
      hide AsMap, SetChannels, Unique;
    }
  }

  lemma PrefixesDiffer(key: string)
    requires "channels." <= key
    ensures !("network." <= key) && !("ros." <= key) && !("rc_trim." <= key)
  {
    assert key[0] == "channels."[0];
  }

  /** The guarded names after one command. */
  lemma StepKeepsNames(c: Config, key: string, value: string)
    requires |c.trim.ch| == RC_CH_COUNT && ValidName(c.ros.nodeName) && ValidNamespace(c.ros.ns)
    ensures var r := Set(c, key, value).1.ros; ValidName(r.nodeName) && ValidNamespace(r.ns)
  {
    hide ValidName, ValidNamespace, SetNetwork, SetChannels, SetTrim;
  }

  /** From any start with an empty table: after every sequence of commands whose flag names fit,
      the table is the map of the last values set. */
  lemma {:induction false} TableRefinesMap(c: Config, cmds: seq<Cmd>)
    requires |c.trim.ch| == RC_CH_COUNT && c.channels == []
    requires forall x :: x in cmds ==> NameFits(x.key)
    ensures Unique(Run(c, cmds).channels) && AsMap(Run(c, cmds).channels) == MapRun(cmds)
  {
    hide Set, MapStep, NameFits;
    if cmds != [] {
      var init, last := cmds[..|cmds| - 1], cmds[|cmds| - 1];
      TableRefinesMap(c, init);
      assert last in cmds && forall x :: x in init ==> x in cmds;
      StepRefines(Run(c, init), last.key, last.value);
    }
  }

  /** After every sequence of commands the node name and the namespace satisfy their grammars. */
  lemma {:induction false} NamesStayValid(c: Config, cmds: seq<Cmd>)
    requires |c.trim.ch| == RC_CH_COUNT && ValidName(c.ros.nodeName) && ValidNamespace(c.ros.ns)
    ensures ValidName(Run(c, cmds).ros.nodeName) && ValidNamespace(Run(c, cmds).ros.ns)
  {
    hide Set, ValidName, ValidNamespace;
    if cmds != [] {
      NamesStayValid(c, cmds[..|cmds| - 1]);
      StepKeepsNames(Run(c, cmds[..|cmds| - 1]), cmds[|cmds| - 1].key, cmds[|cmds| - 1].value);
    }
  }

  // ---------------------------------------------------------------- exactly when the table is a map

  /** What holds of the stored table whatever was set: few entries, and names that fit their field. */
  predicate Bounded(chs: seq<Channel>)
  { |chs| <= CFG_MAX_CHANNELS && forall ch :: ch in chs ==> |ch.name| < CFG_CH_NAME_LEN }

  lemma StepBounded(c: Config, key: string, value: string)
    requires |c.trim.ch| == RC_CH_COUNT && Bounded(c.channels)
    ensures Bounded(Set(c, key, value).1.channels)
  {
    hide SetNetwork, SetRos, SetTrim, FindChannel;
  }

  lemma {:induction false} TableBounded(c: Config, cmds: seq<Cmd>)
    requires |c.trim.ch| == RC_CH_COUNT && c.channels == []
    ensures Bounded(Run(c, cmds).channels)
  {
    hide Set;
    if cmds != [] {
      TableBounded(c, cmds[..|cmds| - 1]);
      StepBounded(Run(c, cmds[..|cmds| - 1]), cmds[|cmds| - 1].key, cmds[|cmds| - 1].value);
    }
  }

  /** A flag under a name that is too long: with room it is stored under another name, and only a
      full table refuses it as the map would. */
  lemma LongFlag(chs: seq<Channel>, rest: string, en: bool)
    requires Unique(chs) && Bounded(chs) && |rest| >= CFG_CH_NAME_LEN
    ensures AsMap(SetEnabled(chs, rest, en).1) == MapSet(AsMap(chs), rest, (s: Setting) => Setting(en, s.topic)).1
       <==> |chs| == CFG_MAX_CHANNELS
  {
    hide AsMap, FindChannel, Unique;
    MapOfUnique(chs);
    FoundIff(chs, rest);
    var after := SetEnabled(chs, rest, en).1;
    MapKeys(chs);
    MapKeys(after);
    assert FindChannel(chs, rest) < 0;
    if |chs| < CFG_MAX_CHANNELS {
      assert forall ch :: ch in after ==> |ch.name| < CFG_CH_NAME_LEN;
      assert !Named(after, rest);
    }
  }

  /** The command is one the table can carry out as a map: it is refused for its value, its flag
      name fits, or the table is full. */
  predicate Carried(entries: nat, x: Cmd)
  { |x.value| >= CFG_STR_LEN || NameFits(x.key) || entries == CFG_MAX_CHANNELS }

  lemma StepRefinesExactly(c: Config, x: Cmd)
    requires |c.trim.ch| == RC_CH_COUNT && Unique(c.channels) && Bounded(c.channels)
    ensures Unique(Set(c, x.key, x.value).1.channels)
            && AsMap(Set(c, x.key, x.value).1.channels) == MapStep(AsMap(c.channels), x.key, x.value).1
       <==> Carried(|c.channels|, x)
  {
    if |x.value| >= CFG_STR_LEN || NameFits(x.key) {
      hide Set, MapStep, AsMap, Unique;
      if NameFits(x.key) { StepRefines(c, x.key, x.value); } else { Refused(c, x); }
    } else {
      LongFlagStep(c, x.key, x.value);
      LongFlag(c.channels, x.key[9..], Truth(x.value));
      hide Set, MapStep, AsMap, Unique, SetEnabled, MapSet, NameFits, Bounded;
      if |c.channels| == CFG_MAX_CHANNELS { FullKeeps(c.channels, x.key[9..], Truth(x.value)); }
    }
  }

  lemma Refused(c: Config, x: Cmd)
    requires |c.trim.ch| == RC_CH_COUNT && |x.value| >= CFG_STR_LEN
    ensures Set(c, x.key, x.value).1 == c && MapStep(AsMap(c.channels), x.key, x.value).1 == AsMap(c.channels)
  {
    hide AsMap;
  }

  lemma LongFlagStep(c: Config, key: string, value: string)
    requires |c.trim.ch| == RC_CH_COUNT && |value| < CFG_STR_LEN && !NameFits(key)
    ensures |key| >= 9 + CFG_CH_NAME_LEN
    ensures Set(c, key, value).1.channels == SetEnabled(c.channels, key[9..], Truth(value)).1
    ensures MapStep(AsMap(c.channels), key, value).1
         == MapSet(AsMap(c.channels), key[9..], (s: Setting) => Setting(Truth(value), s.topic)).1
  {
    hide AsMap, SetEnabled, MapSet;
    PrefixesDiffer(key);
  }

  lemma FullKeeps(chs: seq<Channel>, rest: string, en: bool)
    requires Unique(chs) && |chs| == CFG_MAX_CHANNELS && Bounded(chs) && |rest| >= CFG_CH_NAME_LEN
    ensures SetEnabled(chs, rest, en).1 == chs
  {
  }

  ghost predicate Refines(c: Config, cmds: seq<Cmd>)
    requires |c.trim.ch| == RC_CH_COUNT
  { Unique(Run(c, cmds).channels) && AsMap(Run(c, cmds).channels) == MapRun(cmds) }

  ghost predicate AlwaysRefines(c: Config, cmds: seq<Cmd>)
    requires |c.trim.ch| == RC_CH_COUNT
  { forall k :: 0 <= k <= |cmds| ==> Refines(c, cmds[..k]) }

  ghost predicate AlwaysCarried(cmds: seq<Cmd>)
  { forall k :: 0 <= k < |cmds| ==> Carried(|MapRun(cmds[..k])|, cmds[k]) }

  /** Over every run from an empty table: the table is the map of the last values set after every
      command exactly when each flag name either fits its field or is refused, by its value or by
      a full table. */
  lemma {:induction false} RunRefinesExactly(c: Config, cmds: seq<Cmd>)
    requires |c.trim.ch| == RC_CH_COUNT && c.channels == []
    ensures AlwaysRefines(c, cmds) <==> AlwaysCarried(cmds)
  {
    if cmds == [] {
      hide Set, MapStep, Carried, Unique, AsMap;
      assert cmds[..0] == [];
      EmptyTable();
    } else {
      var init := cmds[..|cmds| - 1];
      RunRefinesExactly(c, init);
      OneMore(c, cmds);
      if Refines(c, init) { LastRefines(c, cmds); }
      hide Refines, Carried, MapRun;
      assert init[..|init|] == init;
    }
  }

  lemma OneMore(c: Config, cmds: seq<Cmd>)
    requires |c.trim.ch| == RC_CH_COUNT && cmds != []
    ensures var init := cmds[..|cmds| - 1];
            && (AlwaysRefines(c, cmds) <==> AlwaysRefines(c, init) && Refines(c, cmds))
            && (AlwaysCarried(cmds) <==> AlwaysCarried(init) && Carried(|MapRun(init)|, cmds[|cmds| - 1]))
  {
    hide Refines, Carried, MapRun;
    var init := cmds[..|cmds| - 1];
    assert forall k :: 0 <= k <= |init| ==> init[..k] == cmds[..k];
    assert cmds[..|cmds|] == cmds;
  }

  lemma LastRefines(c: Config, cmds: seq<Cmd>)
    requires |c.trim.ch| == RC_CH_COUNT && c.channels == [] && cmds != [] && Refines(c, cmds[..|cmds| - 1])
    ensures Refines(c, cmds) <==> Carried(|MapRun(cmds[..|cmds| - 1])|, cmds[|cmds| - 1])
  {
    hide Set, MapStep, Carried, Unique, AsMap, Bounded;
    var init := cmds[..|cmds| - 1];
    TableBounded(c, init);
    MapOfUnique(Run(c, init).channels);
    StepRefinesExactly(Run(c, init), cmds[|cmds| - 1]);
  }

  lemma EmptyTable()
    ensures Unique([]) && AsMap([]) == map[]
  {
  }
}
