// The saved files as JSON documents: what config_to_json and the parameter
// server print is the text of a document, which is given here field by field.
module ConfigJson {
  import opened CStrings
  import opened JsonScan
  import opened Json
  import opened ConfigText
  import opened ConfigHead
  import opened ConfigRoundTrip
  import opened ConfigSections
  import opened ConfigExact
  import ConfigStore

  // ---------------------------------------------------------------- the configuration as a document

  function NetworkJson(n: Network): Members {
    Cons("mac", Text(n.mac), Cons("dhcp", Literal(BoolText(n.dhcp)), Cons("ip", Text(n.ip),
      Cons("netmask", Text(n.netmask), Cons("gateway", Text(n.gateway), Cons("agent_ip", Text(n.agentIp),
        Cons("agent_port", Text(n.agentPort), Nil)))))))
  }

  function RosJson(o: Ros): Members { Cons("node_name", Text(o.nodeName), Cons("namespace", Text(o.ns), Nil)) }

  function ChannelJson(ch: Channel): Json {
    if ch.topic != ""
    then Object(Cons("enabled", Literal(BoolText(ch.enabled)), Cons("topic", Text(ch.topic), Nil)))
    else Literal(BoolText(ch.enabled))
  }

  function ChannelsJson(chs: seq<Channel>): (ms: Members)
    ensures ms.Nil? <==> chs == []
  { if chs == [] then Nil else Cons(chs[0].name, ChannelJson(chs[0]), ChannelsJson(chs[1..])) }

  /** The trims from the k-th on: ch1_min, ch1_center, ch1_max, ch2_min and so on. */
  function TrimJson(t: RcTrim, k: nat): (ms: Members)
    requires |t.ch| == RC_CH_COUNT && k <= 20
    ensures ms.Nil? <==> k == 20
    decreases 20 - k
  {
    if k == 20 then Nil
    else Cons(TrimKey(k), Literal(if k < 19 then Dec(TrimNum(t, k)) else Dec2(t.emaAlpha)), TrimJson(t, k + 1))
  }

  function LastJson(c: Config): Members
    requires |c.trim.ch| == RC_CH_COUNT
  {
    var trim := Cons("rc_trim", Object(TrimJson(c.trim, 0)), Nil);
    if c.channels == [] then trim else Cons("channels", Object(ChannelsJson(c.channels)), trim)
  }

  function AsJson(c: Config): Json
    requires |c.trim.ch| == RC_CH_COUNT
  { Object(Root(c)) }

  function Root(c: Config): Members
    requires |c.trim.ch| == RC_CH_COUNT
  { Cons("network", Object(NetworkJson(c.network)), Cons("ros", Object(RosJson(c.ros)), LastJson(c))) }

  // ---------------------------------------------------------------- cells as members

  /** Two cells: a key and its string. */
  lemma TextMember(cs: seq<Cell>, k: nat, key: string, v: string, g: string)
    requires k + 1 < |cs| && cs[k] == Cell(key, ": ") && cs[k + 1] == Cell(v, g)
    ensures Squeeze(cs[k..]) == Member(key, Quote(v), Strip(g) + Squeeze(cs[k + 2..]))
  {
    Layouts();
    SqueezeAt(cs, k);
    SqueezeAt(cs, k + 1);
    hide Quote, Strip, Squeeze;
    var z := Strip(g) + Squeeze(cs[k + 2..]);
    assert ":" + (Quote(v) + z) == ":" + Quote(v) + z;
  }

  /** One cell: a key and its literal. */
  lemma LiteralMember(cs: seq<Cell>, k: nat, key: string, v: string, g: string)
    requires k < |cs| && cs[k] == Cell(key, ": " + (v + g)) && QuoteFree(v) && forall c :: c in v ==> !Space(c)
    ensures Squeeze(cs[k..]) == Member(key, v, Strip(g) + Squeeze(cs[k + 1..]))
  {
    SqueezeAt(cs, k);
    StripValue(v, g);
    hide Quote, Strip, Squeeze;
    var r := Squeeze(cs[k + 1..]);
    Assoc(v, Strip(g), r);
    Assoc(":", v + Strip(g), r);
  }

  lemma StripValue(v: string, g: string)
    requires QuoteFree(v) && forall c :: c in v ==> !Space(c)
    ensures Strip(": " + (v + g)) == ":" + (v + Strip(g))
  {
    Layouts();
    SolidStays(v);
    QuoteFreeStays(": ", false);
    QuoteFreeStays(v, false);
    CompactCat(": ", v + g, false);
    CompactCat(v, g, false);
    hide Compact, Quoted;
  }

  /** One cell: a key and the brace that opens its object. */
  lemma ObjectMember(cs: seq<Cell>, k: nat, key: string, g: string)
    requires k < |cs| && cs[k] == Cell(key, g) && Strip(g) == ":{"
    ensures Squeeze(cs[k..]) == Member(key, "{", Squeeze(cs[k + 1..]))
  {
    SqueezeAt(cs, k);
    hide Quote, Strip, Squeeze;
    assert ":{" + Squeeze(cs[k + 1..]) == ":" + ("{" + Squeeze(cs[k + 1..]));
  }

  lemma BoolSolid(b: bool)
    ensures QuoteFree(BoolText(b)) && forall c :: c in BoolText(b) ==> !Space(c)
  {
  }

  /** A key, its string and a comma in front of more members. */
  lemma TextThen(cs: seq<Cell>, k: nat, key: string, v: string, rest: Members, z: string)
    requires k + 1 < |cs| && cs[k] == Cell(key, ": ") && cs[k + 1].tok == v && Strip(cs[k + 1].gap) == ","
    requires !rest.Nil? && Squeeze(cs[k + 2..]) == ShowMembers(rest) + z
    ensures Squeeze(cs[k..]) == ShowMembers(Cons(key, Text(v), rest)) + z
  {
    TextMember(cs, k, key, v, cs[k + 1].gap);
    ShowText(key, v, rest, z);
    hide Squeeze, ShowMembers, Member, Strip;
  }

  /** The last key of an object, its string and the closing brace. */
  lemma TextLast(cs: seq<Cell>, k: nat, key: string, v: string, z: string)
    requires k + 1 < |cs| && cs[k] == Cell(key, ": ") && cs[k + 1].tok == v
    requires Strip(cs[k + 1].gap) + Squeeze(cs[k + 2..]) == z
    ensures Squeeze(cs[k..]) == ShowMembers(Cons(key, Text(v), Nil)) + z
  {
    TextMember(cs, k, key, v, cs[k + 1].gap);
    ShowText(key, v, Nil, z);
    hide Squeeze, ShowMembers, Member, Strip;
  }

  /** A key, its literal and a comma in front of more members. */
  lemma LiteralThen(cs: seq<Cell>, k: nat, key: string, v: string, g: string, rest: Members, z: string)
    requires k < |cs| && cs[k] == Cell(key, ": " + (v + g)) && QuoteFree(v) && forall c :: c in v ==> !Space(c)
    requires Strip(g) == "," && !rest.Nil? && Squeeze(cs[k + 1..]) == ShowMembers(rest) + z
    ensures Squeeze(cs[k..]) == ShowMembers(Cons(key, Literal(v), rest)) + z
  {
    LiteralMember(cs, k, key, v, g);
    ShowLiteral(key, v, rest, z);
    hide Squeeze, ShowMembers, Member, Strip;
  }

  /** The last key of an object and its literal. */
  lemma LiteralLast(cs: seq<Cell>, k: nat, key: string, v: string, g: string, z: string)
    requires k < |cs| && cs[k] == Cell(key, ": " + (v + g)) && QuoteFree(v) && forall c :: c in v ==> !Space(c)
    requires Strip(g) + Squeeze(cs[k + 1..]) == z
    ensures Squeeze(cs[k..]) == ShowMembers(Cons(key, Literal(v), Nil)) + z
  {
    LiteralMember(cs, k, key, v, g);
    ShowLiteral(key, v, Nil, z);
    hide Squeeze, ShowMembers, Member, Strip;
  }

  /** A key, an object, and a comma in front of more members. */
  lemma ObjectThen(cs: seq<Cell>, k: nat, key: string, ms: Members, rest: Members, z: string)
    requires k < |cs| && cs[k].tok == key && Strip(cs[k].gap) == ":{"
    requires Squeeze(cs[k + 1..]) == ShowMembers(ms) + ("}" + Behind(rest, z))
    ensures Squeeze(cs[k..]) == ShowMembers(Cons(key, Object(ms), rest)) + z
  {
    ObjectMember(cs, k, key, cs[k].gap);
    MemberObject(key, ms, Behind(rest, z));
    ShowCons(key, Object(ms), rest, z);
    hide Squeeze, ShowMembers, Show, Member, Strip, Behind;
  }

  lemma ShowText(k: string, v: string, rest: Members, z: string)
    ensures ShowMembers(Cons(k, Text(v), rest)) + z == Member(k, Quote(v), Behind(rest, z))
  {
    ShowCons(k, Text(v), rest, z);
    hide Member, Behind, ShowMembers, Quote;
  }

  lemma ShowLiteral(k: string, v: string, rest: Members, z: string)
    ensures ShowMembers(Cons(k, Literal(v), rest)) + z == Member(k, v, Behind(rest, z))
  {
    ShowCons(k, Literal(v), rest, z);
    hide Member, Behind, ShowMembers;
  }

  // ---------------------------------------------------------------- the head

  /** The head with anything behind it. */
  function Headed(c: Config, rest: seq<Cell>): (w: seq<Cell>)
    ensures |w| == HEAD_CELLS + |rest| && w[HEAD_CELLS..] == rest
  { WideHead(c) + rest }

  lemma HeadCellAt(c: Config, rest: seq<Cell>, k: nat)
    requires k < HEAD_CELLS
    ensures Headed(c, rest)[k] == Cell(HeadTok(c, k), if k == 18 then "\n  },\n  " else HeadGap(c, k))
  {
    hide HeadTok;
    assert WideHead(c)[..18] == HeadCells(c)[..18];
    assert "\n  }" + ",\n  " == "\n  },\n  ";
  }

  /** A key of the head and its string, in front of more members of the same object. */
  lemma HeadTextThen(c: Config, rest: seq<Cell>, k: nat, ms: Members, z: string)
    requires k in {1, 4, 6, 8, 10, 15} && !ms.Nil? && Squeeze(Headed(c, rest)[k + 2..]) == ShowMembers(ms) + z
    ensures Squeeze(Headed(c, rest)[k..]) == ShowMembers(Cons(HeadTok(c, k), Text(HeadTok(c, k + 1)), ms)) + z
  {
    HeadCellAt(c, rest, k);
    HeadCellAt(c, rest, k + 1);
    Layouts();
    hide Headed, HeadTok, Strip, Squeeze, ShowMembers;
    TextThen(Headed(c, rest), k, HeadTok(c, k), HeadTok(c, k + 1), ms, z);
  }

  /** The last key of an object of the head and its string. */
  lemma HeadTextLast(c: Config, rest: seq<Cell>, k: nat, y: string)
    requires k in {12, 17} && Squeeze(Headed(c, rest)[k + 2..]) == y
    ensures Squeeze(Headed(c, rest)[k..])
         == ShowMembers(Cons(HeadTok(c, k), Text(HeadTok(c, k + 1)), Nil)) + ("}" + ("," + y))
  {
    HeadCellAt(c, rest, k);
    HeadCellAt(c, rest, k + 1);
    Layouts();
    hide Headed, HeadTok, Strip, Squeeze, ShowMembers;
    BraceComma(y);
    TextLast(Headed(c, rest), k, HeadTok(c, k), HeadTok(c, k + 1), "}" + ("," + y));
  }

  lemma BraceComma(y: string)
    ensures "}," + y == "}" + ("," + y)
  {
  }

  lemma HeadDhcp(c: Config, rest: seq<Cell>, ms: Members, z: string)
    requires !ms.Nil? && Squeeze(Headed(c, rest)[4..]) == ShowMembers(ms) + z
    ensures Squeeze(Headed(c, rest)[3..]) == ShowMembers(Cons("dhcp", Literal(BoolText(c.network.dhcp)), ms)) + z
  {
    HeadCellAt(c, rest, 3);
    Layouts();
    BoolSolid(c.network.dhcp);
    hide Headed, Strip, Squeeze, ShowMembers, BoolText;
    LiteralThen(Headed(c, rest), 3, "dhcp", BoolText(c.network.dhcp), ",\n    ", ms, z);
  }

  lemma RosSqueezes(c: Config, rest: seq<Cell>, ms: Members, z: string)
    requires !ms.Nil? && Squeeze(rest) == ShowMembers(ms) + z
    ensures Squeeze(Headed(c, rest)[14..]) == ShowMembers(Cons("ros", Object(RosJson(c.ros)), ms)) + z
  {
    HeadCellAt(c, rest, 14);
    Layouts();
    RosToks(c);
    hide Headed, HeadTok, Strip, Squeeze, ShowMembers;
    HeadTextLast(c, rest, 17, Squeeze(rest));
    HeadTextThen(c, rest, 15, Cons("namespace", Text(c.ros.ns), Nil), "}" + ("," + Squeeze(rest)));
    ObjectThen(Headed(c, rest), 14, "ros", RosJson(c.ros), ms, z);
  }

  lemma RosToks(c: Config)
    ensures HeadTok(c, 14) == "ros" && HeadTok(c, 15) == "node_name" && HeadTok(c, 16) == c.ros.nodeName
    ensures HeadTok(c, 17) == "namespace" && HeadTok(c, 18) == c.ros.ns
  {
  }

  lemma NetworkToks(c: Config)
    ensures HeadTok(c, 0) == "network" && HeadTok(c, 1) == "mac" && HeadTok(c, 4) == "ip" && HeadTok(c, 6) == "netmask"
    ensures HeadTok(c, 8) == "gateway" && HeadTok(c, 10) == "agent_ip" && HeadTok(c, 12) == "agent_port"
    ensures HeadTok(c, 2) == c.network.mac && HeadTok(c, 5) == c.network.ip && HeadTok(c, 7) == c.network.netmask
    ensures HeadTok(c, 9) == c.network.gateway && HeadTok(c, 11) == c.network.agentIp
    ensures HeadTok(c, 13) == c.network.agentPort
  {
  }

  lemma NetworkSqueezes(c: Config, rest: seq<Cell>, ms: Members, z: string)
    requires !ms.Nil? && Squeeze(Headed(c, rest)[14..]) == ShowMembers(ms) + z
    ensures Squeeze(Headed(c, rest)) == ShowMembers(Cons("network", Object(NetworkJson(c.network)), ms)) + z
  {
    HeadCellAt(c, rest, 0);
    Layouts();
    NetworkToks(c);
    hide Headed, HeadTok, Strip, Squeeze, ShowMembers, BoolText;
    var n, y := c.network, "}" + ("," + Squeeze(Headed(c, rest)[14..]));
    HeadTextLast(c, rest, 12, Squeeze(Headed(c, rest)[14..]));
    var port := Cons("agent_port", Text(n.agentPort), Nil);
    HeadTextThen(c, rest, 10, port, y);
    var agent := Cons("agent_ip", Text(n.agentIp), port);
    HeadTextThen(c, rest, 8, agent, y);
    var gateway := Cons("gateway", Text(n.gateway), agent);
    HeadTextThen(c, rest, 6, gateway, y);
    var netmask := Cons("netmask", Text(n.netmask), gateway);
    HeadTextThen(c, rest, 4, netmask, y);
    var ip := Cons("ip", Text(n.ip), netmask);
    HeadDhcp(c, rest, ip, y);
    HeadTextThen(c, rest, 1, Cons("dhcp", Literal(BoolText(n.dhcp)), ip), y);
    assert Headed(c, rest)[0..] == Headed(c, rest);
    ObjectThen(Headed(c, rest), 0, "network", NetworkJson(n), ms, z);
  }

  // ---------------------------------------------------------------- the channels

  lemma EntryLayout(g: string)
    requires g in {"\n  },\n  ", ",\n    "}
    ensures QuoteFree(g) && Strip(g) == (if g == ",\n    " then "," else "},") && Strip(" }" + g) == "}" + Strip(g)
  {
    Layouts();
    CloserLayout();
    hide Compact, Quoted;
    CompactCat(" }", g, false);
  }

  lemma CloserLayout()
    ensures Strip(" }") == "}" && !Quoted(" }", false)
  {
  }

  lemma TopicSqueezes(ch: Channel, g: string, r: seq<Cell>, rest: Members, z: string)
    requires ch.topic != "" && Strip(" }" + g) + Squeeze(r) == "}" + Behind(rest, z)
    ensures Squeeze(EntryCell(ch, g) + r) == ShowMembers(Cons(ch.name, ChannelJson(ch), rest)) + z
  {
    var cs := EntryCell(ch, g) + r;
    var b := BoolText(ch.enabled);
    assert cs[0] == Cell(ch.name, ": { ") && cs[1] == Cell("enabled", ": " + (b + ", "));
    assert cs[2] == Cell("topic", ": ") && cs[3] == Cell(ch.topic, " }" + g) && cs[4..] == r && cs[0..] == cs;
    ShortLayouts();
    BoolSolid(ch.enabled);
    assert ChannelJson(ch) == Object(Cons("enabled", Literal(b), Cons("topic", Text(ch.topic), Nil)));
    hide *;
    TextLast(cs, 2, "topic", ch.topic, "}" + Behind(rest, z));
    var topic := Cons("topic", Text(ch.topic), Nil);
    LiteralThen(cs, 1, "enabled", b, ", ", topic, "}" + Behind(rest, z));
    ObjectThen(cs, 0, ch.name, Cons("enabled", Literal(b), topic), rest, z);
  }

  lemma FlagSqueezes(ch: Channel, g: string, r: seq<Cell>, rest: Members, z: string)
    requires ch.topic == "" && Strip(g) + Squeeze(r) == Behind(rest, z)
    ensures Squeeze(EntryCell(ch, g) + r) == ShowMembers(Cons(ch.name, ChannelJson(ch), rest)) + z
  {
    var cs := EntryCell(ch, g) + r;
    var b := BoolText(ch.enabled);
    Assoc(": ", b, g);
    assert cs[0] == Cell(ch.name, ": " + (b + g)) && cs[1..] == r && cs[0..] == cs;
    BoolSolid(ch.enabled);
    hide EntryCell, Strip, Squeeze, ShowMembers, Behind, BoolText, QuoteFree;
    LiteralMember(cs, 0, ch.name, b, g);
    ShowLiteral(ch.name, b, rest, z);
  }

  lemma {:induction false} EntriesSqueeze(chs: seq<Channel>, tail: seq<Cell>)
    requires chs != []
    ensures Squeeze(EntryCells(chs) + tail) == ShowMembers(ChannelsJson(chs)) + ("}" + ("," + Squeeze(tail)))
    decreases |chs|
  {
    hide EntryCell, Strip, Squeeze, ShowMembers, ChannelJson;
    var g := if |chs| == 1 then "\n  },\n  " else ",\n    ";
    var cell, more := EntryCell(chs[0], g), EntryCells(chs[1..]);
    var r, z, y := more + tail, "}" + ("," + Squeeze(tail)), Squeeze(more + tail);
    assert EntryCells(chs) + tail == cell + r;
    EntryLayout(g);
    BraceComma(y);
    if |chs| == 1 {
      assert r == tail;
    } else {
      EntriesSqueeze(chs[1..], tail);
    }
    Assoc("}", Strip(g), y);
    if chs[0].topic != "" {
      TopicSqueezes(chs[0], g, r, ChannelsJson(chs[1..]), z);
    } else {
      FlagSqueezes(chs[0], g, r, ChannelsJson(chs[1..]), z);
    }
  }

  // ---------------------------------------------------------------- the trims

  lemma DigitsSolid(v: string)
    requires forall c :: c in v ==> IsDigit(c) || c == '.' || c == '-'
    ensures QuoteFree(v) && forall c :: c in v ==> !Space(c)
  {
  }

  lemma {:induction false} TrimSqueezes(t: RcTrim, k: nat)
    requires |t.ch| == RC_CH_COUNT && k < 20
    ensures Squeeze(Extend(TrimCells(t), "}\n}\n")[k..]) == ShowMembers(TrimJson(t, k)) + "}}"
    decreases 20 - k
  {
    hide TrimKey, Dec, Dec2, TrimNum, Strip, Squeeze, ShowMembers, QuoteFree;
    var cs := Extend(TrimCells(t), "}\n}\n");
    if k == 19 {
      LastTrim(t);
    } else {
      assert cs[k] == Cell(TrimKey(k), TrimGap(t, k));
      TrimSqueezes(t, k + 1);
      Layouts();
      ShortLayouts();
      DigitsSolid(Dec(TrimNum(t, k)));
      LiteralThen(cs, k, TrimKey(k), Dec(TrimNum(t, k)), if k == 18 || k % 3 == 2 then ",\n    " else ", ",
                  TrimJson(t, k + 1), "}}");
    }
  }

  lemma LastTrim(t: RcTrim)
    requires |t.ch| == RC_CH_COUNT
    ensures Squeeze(Extend(TrimCells(t), "}\n}\n")[19..]) == ShowMembers(TrimJson(t, 19)) + "}}"
  {
    var cs, v := Extend(TrimCells(t), "}\n}\n"), Dec2(t.emaAlpha);
    hide TrimKey, Dec2, QuoteFree, ShowMembers;
    Assoc(": ", v + "\n  ", "}\n}\n");
    Assoc(v, "\n  ", "}\n}\n");
    assert cs[19] == Cell(TrimKey(19), ": " + (v + ("\n  " + "}\n}\n"))) && cs[20..] == [];
    LastLayout();
    assert Squeeze(cs[20..]) == "";
    hide Strip, Squeeze, Extend, TrimCells;
    DigitsSolid(v);
    LiteralLast(cs, 19, TrimKey(19), v, "\n  " + "}\n}\n", "}}");
    assert TrimJson(t, 20) == Nil;
  }

  lemma LastLayout()
    ensures Strip("\n  " + "}\n}\n") == "}}"
  {
    CompactCat("\n  ", "}\n}\n", false);
    CompactCat("}\n", "}\n", false);
    assert "}\n" + "}\n" == "}\n}\n";
    assert Strip("\n  ") == "" && Strip("}\n") == "}" && !Quoted("\n  ", false) && !Quoted("}\n", false);
    hide Compact, Quoted;
  }

  // ---------------------------------------------------------------- the whole text

  /** No string of the configuration holds a quote. */
  predicate Quotable(c: Config)
  {
    && (forall k :: 0 <= k < HEAD_CELLS && IsValue(k) ==> QuoteFree(HeadTok(c, k)))
    && (forall ch :: ch in c.channels ==> QuoteFree(ch.name) && QuoteFree(ch.topic))
  }

  function TrimPart(t: RcTrim): (cs: seq<Cell>)
    requires |t.ch| == RC_CH_COUNT
    ensures cs != [] && cs[0] == Cell(TRIM_KEY, ": {\n    ") && cs[1..] == Extend(TrimCells(t), "}\n}\n")
  { [Cell(TRIM_KEY, ": {\n    ")] + Extend(TrimCells(t), "}\n}\n") }

  /** What stands behind the head. */
  function Rest(c: Config): seq<Cell>
    requires |c.trim.ch| == RC_CH_COUNT
  {
    if c.channels == [] then TrimPart(c.trim)
    else [Cell("channels", ": {\n    ")] + (EntryCells(c.channels) + TrimPart(c.trim))
  }

  lemma TextIsCells(c: Config)
    requires |c.trim.ch| == RC_CH_COUNT
    ensures JsonText(c) == "{\n  " + Render(Headed(c, Rest(c)))
  {
    CellsJoin(c);
    TextEndsWithTrim(c);
    TrimIsCells(c.trim);
    hide *;
    RenderCat(CellsBeforeTrim(c), TrimPart(c.trim));
    Assoc("{\n  ", Render(CellsBeforeTrim(c)), Render(TrimPart(c.trim)));
  }

  lemma CellsJoin(c: Config)
    requires |c.trim.ch| == RC_CH_COUNT
    ensures CellsBeforeTrim(c) + TrimPart(c.trim) == Headed(c, Rest(c))
  {
    hide WideHead, EntryCells, TrimPart;
  }

  lemma TextEndsWithTrim(c: Config)
    requires |c.trim.ch| == RC_CH_COUNT
    ensures JsonText(c)
         == "{\n  " + Render(CellsBeforeTrim(c)) + (Quote(TRIM_KEY) + (": {" + TrimBody(c.trim, "\n}\n")))
  {
    TextSplitsAtTrim(c, "\n}\n");
    hide Render, TrimText, CellsBeforeTrim, TrimBody, Quote;
  }

  lemma TrimIsCells(t: RcTrim)
    requires |t.ch| == RC_CH_COUNT
    ensures Render(TrimPart(t)) == Quote(TRIM_KEY) + (": {" + TrimBody(t, "\n}\n"))
  {
    var cs := TrimPart(t);
    RenderExtend(TrimCells(t), "}\n}\n");
    assert Render(cs) == Quote(cs[0].tok) + cs[0].gap + Render(cs[1..]);
    assert TrimBody(t, "\n}\n") == "\n    " + Render(TrimCells(t)) + "}" + "\n}\n";
    hide *;
    assert ": {" + "\n    " == ": {\n    " && "}" + "\n}\n" == "}\n}\n";
    Regrouped(Quote(TRIM_KEY), ": {", "\n    ", Render(TrimCells(t)), "}", "\n}\n");
  }

  lemma Regrouped(q: string, x: string, y: string, r: string, u: string, z: string)
    ensures q + (x + y) + (r + (u + z)) == q + (x + (y + r + u + z))
  {
  }

  lemma AllClean(c: Config)
    requires Quotable(c) && |c.trim.ch| == RC_CH_COUNT
    ensures Clean(Headed(c, Rest(c)))
  {
    hide HeadTok, WideHead, EntryCells, TrimPart, QuoteFree;
    TrimCellsClean(c.trim);
    EntriesClean(c.channels);
    HeadIsClean(c);
    PartClean(c.trim);
    SectionClean();
    hide HeadTok, IsValue;
    CleanCat(EntryCells(c.channels), TrimPart(c.trim));
    CleanCat([Cell("channels", ": {\n    ")], EntryCells(c.channels) + TrimPart(c.trim));
    CleanCat(WideHead(c), Rest(c));
  }

  lemma CleanCat(a: seq<Cell>, b: seq<Cell>)
    requires Clean(a) && Clean(b)
    ensures Clean(a + b)
  {
  }

  lemma SectionClean()
    ensures QuoteFree("channels") && QuoteFree(": {\n    ") && QuoteFree(TRIM_KEY) && QuoteFree("}\n}\n")
  {
  }

  lemma PartClean(t: RcTrim)
    requires |t.ch| == RC_CH_COUNT && Clean(TrimCells(t))
    ensures Clean(TrimPart(t))
  {
    SectionClean();
    var cs, wide := TrimCells(t), Extend(TrimCells(t), "}\n}\n");
    hide TrimCells;
    assert forall x :: x in cs[..19] ==> x in cs;
    assert cs[19] in cs && wide == cs[..19] + [wide[19]];
  }

  lemma HeadIsClean(c: Config)
    requires forall k :: 0 <= k < HEAD_CELLS && IsValue(k) ==> QuoteFree(HeadTok(c, k))
    ensures Clean(WideHead(c))
  {
    forall x | x in WideHead(c) ensures QuoteFree(x.tok) && QuoteFree(x.gap) {
      var j :| 0 <= j < HEAD_CELLS && WideHead(c)[j] == x;
      HeadCellAt(c, [], j);
      HeadGapForm(c, j);
      if !IsValue(j) { LabelForm(c, j); }
      assert WideHead(c) + [] == WideHead(c);
    }
  }

  lemma {:induction false} EntriesClean(chs: seq<Channel>)
    requires forall ch :: ch in chs ==> QuoteFree(ch.name) && QuoteFree(ch.topic)
    ensures Clean(EntryCells(chs))
  {
    if chs != [] {
      EntriesClean(chs[1..]);
      EntryLayout(if |chs| == 1 then "\n  },\n  " else ",\n    ");
      EntryClean(chs[0], if |chs| == 1 then "\n  },\n  " else ",\n    ");
      hide EntryCell, QuoteFree;
    }
  }

  lemma EntryClean(ch: Channel, g: string)
    requires QuoteFree(ch.name) && QuoteFree(ch.topic) && QuoteFree(g)
    ensures Clean(EntryCell(ch, g))
  {
    var b := BoolText(ch.enabled);
    BoolSolid(ch.enabled);
    EntryQuotes();
    hide BoolText, QuoteFree;
    if ch.topic != "" {
      QuoteFreeCat(b, ", ");
      QuoteFreeCat(": ", b + ", ");
      QuoteFreeCat(" }", g);
      assert EntryCell(ch, g) == [Cell(ch.name, ": { "), Cell("enabled", ": " + (b + ", ")), Cell("topic", ": "),
                                  Cell(ch.topic, " }" + g)];
    } else {
      QuoteFreeCat(": ", b);
      QuoteFreeCat(": " + b, g);
      assert EntryCell(ch, g) == [Cell(ch.name, ": " + b + g)];
    }
  }

  lemma EntryQuotes()
    ensures QuoteFree(": { ") && QuoteFree(": ") && QuoteFree(", ") && QuoteFree(" }") && QuoteFree("enabled")
    ensures QuoteFree("topic")
  {
  }

  lemma QuoteFreeCat(a: string, b: string)
    requires QuoteFree(a) && QuoteFree(b)
    ensures QuoteFree(a + b)
  {
  }

  /** The text that is saved is a JSON document, blanks aside: the one that AsJson spells out. */
  lemma TextIsJson(c: Config)
    requires Quotable(c) && |c.trim.ch| == RC_CH_COUNT
    ensures Compact(JsonText(c), false) == Show(AsJson(c)) && !Quoted(JsonText(c), false)
  {
    TextIsCells(c);
    AllClean(c);
    CellsAreJson(c);
    ShowRoot(c);
    OpenLayout();
    hide *;
    CompactCells(Headed(c, Rest(c)));
    CompactCat("{\n  ", Render(Headed(c, Rest(c))), false);
  }

  lemma ShowRoot(c: Config)
    requires |c.trim.ch| == RC_CH_COUNT
    ensures Show(AsJson(c)) == "{" + (ShowMembers(Root(c)) + "}")
  {
    hide ShowMembers, NetworkJson, RosJson, LastJson;
  }

  lemma CellsAreJson(c: Config)
    requires |c.trim.ch| == RC_CH_COUNT
    ensures Squeeze(Headed(c, Rest(c))) == ShowMembers(Root(c)) + "}"
  {
    hide Headed, Rest, Squeeze, ShowMembers, NetworkJson, RosJson, LastJson;
    RestSqueezes(c);
    RosSqueezes(c, Rest(c), LastJson(c), "}");
    NetworkSqueezes(c, Rest(c), Cons("ros", Object(RosJson(c.ros)), LastJson(c)), "}");
  }

  lemma OpenLayout()
    ensures Compact("{\n  ", false) == "{" && !Quoted("{\n  ", false)
  {
  }

  lemma PartSqueezes(t: RcTrim)
    requires |t.ch| == RC_CH_COUNT
    ensures Squeeze(TrimPart(t)) == ShowMembers(Cons("rc_trim", Object(TrimJson(t, 0)), Nil)) + "}"
  {
    var part := TrimPart(t);
    assert part[0..] == part;
    Layouts();
    AllTrims(t);
    TwoBraces();
    hide TrimPart, TrimCells, Extend, TrimJson, Strip, Squeeze, ShowMembers, Behind;
    ObjectThen(part, 0, "rc_trim", TrimJson(t, 0), Nil, "}");
  }

  lemma AllTrims(t: RcTrim)
    requires |t.ch| == RC_CH_COUNT
    ensures Squeeze(Extend(TrimCells(t), "}\n}\n")) == ShowMembers(TrimJson(t, 0)) + "}}"
  {
    var cs := Extend(TrimCells(t), "}\n}\n");
    assert cs[0..] == cs;
    hide *;
    TrimSqueezes(t, 0);
  }

  lemma TwoBraces()
    ensures "}" + Behind(Nil, "}") == "}}"
  {
  }

  lemma RestSqueezes(c: Config)
    requires |c.trim.ch| == RC_CH_COUNT
    ensures Squeeze(Rest(c)) == ShowMembers(LastJson(c)) + "}" && !LastJson(c).Nil?
  {
    PartSqueezes(c.trim);
    if c.channels != [] {
      var part, cs := TrimPart(c.trim), Rest(c);
      assert cs[0..] == cs && cs[1..] == EntryCells(c.channels) + part;
      Layouts();
      hide TrimPart, TrimJson, EntryCells, ChannelsJson, Strip, Squeeze, ShowMembers;
      EntriesSqueeze(c.channels, part);
      ObjectThen(cs, 0, "channels", ChannelsJson(c.channels), Cons("rc_trim", Object(TrimJson(c.trim, 0)), Nil), "}");
    }
  }

  // ---------------------------------------------------------------- the file

  /** The file a save leaves holds this document exactly if the text is no longer than the buffer: one
      character more is a line break that may go, two are the closing brace. */
  lemma FileIsJsonExactly(c: Config)
    requires Plain(c) && |c.trim.ch| == RC_CH_COUNT
    ensures Compact(Visible(JsonText(c), ConfigStore.IO_BUF), false) == Show(AsJson(c))
       <==> |JsonText(c)| <= ConfigStore.IO_BUF
  {
    VisibleText(c);
    PlainQuotable(c);
    TextIsJson(c);
    TextEnds(c);
    hide *;
    CutExactly(JsonText(c), ConfigStore.IO_BUF - 1);
  }

  lemma PlainQuotable(c: Config)
    requires Plain(c)
    ensures Quotable(c)
  {
  }

  lemma TextEnds(c: Config)
    requires |c.trim.ch| == RC_CH_COUNT
    ensures var t := JsonText(c); |t| >= 2 && t[|t| - 2..] == "}\n"
  {
    var t := TrimText(c, RC_CH_COUNT + 1);
    assert JsonText(c) == t + "\n}\n";
  }

  lemma CutExactly(t: string, n: nat)
    requires |t| >= 2 && t[|t| - 2..] == "}\n" && !Quoted(t, false)
    ensures Compact(Clip(t, n), false) == Compact(t, false) <==> |t| <= n + 1
  {
    if |t| > n {
      var a, b := t[..n], t[n..];
      assert t == a + b && Clip(t, n) == a;
      assert b[|b| - 1] == t[|t| - 2..][1] == '\n';
      if |t| > n + 1 {
        assert b[|b| - 2] == t[|t| - 2..][0] == '}';
        CutShows(a, b, '}');
      } else {
        assert b == "\n";
        CompactCat(a, b, false);
      }
    }
  }
}
