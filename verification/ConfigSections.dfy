// The two searched sections of the printed text, "channels" and "rc_trim":
// which block the parsers enter when strings spell these keys, and exactly when
// it is the right one.
module ConfigSections {
  import opened Options
  import opened CStrings
  import opened JsonScan
  import opened ConfigText
  import opened ConfigHead
  import opened ConfigRoundTrip

  const TRIM_KEY := "rc_trim"

  // ---------------------------------------------------------------- the text in front of the trim block

  /** A channel's cells with the layout g behind them. */
  function EntryCell(ch: Channel, g: string): (cs: seq<Cell>)
    ensures cs != []
  { Extend(ChannelCells(ch), g) }

  /** Everything before the trim block as cells. */
  function EntryCells(chs: seq<Channel>): seq<Cell>
  {
    if chs == [] then []
    else EntryCell(chs[0], if |chs| == 1 then "\n  },\n  " else ",\n    ") + EntryCells(chs[1..])
  }

  function WideHead(c: Config): seq<Cell> { Extend(HeadCells(c), ",\n  ") }

  function CellsBeforeTrim(c: Config): seq<Cell>
  {
    if c.channels == [] then WideHead(c)
    else WideHead(c) + ([Cell("channels", ": {\n    ")] + EntryCells(c.channels))
  }

  lemma {:induction false} EntriesAreCells(chs: seq<Channel>, first: bool)
    requires chs != []
    ensures EntriesText(chs, first) + "\n  },\n  " == Lead(first) + Render(EntryCells(chs))
  {
    hide ChannelCells, Extend;
    var cs, rest := ChannelCells(chs[0]), EntriesText(chs[1..], false);
    var one := Lead(first) + Render(cs);
    assert ChannelText(chs[0], first) == one;
    if |chs| == 1 {
      RenderExtend(cs, "\n  },\n  ");
      assert chs[1..] == [] && one + "" == one;
      assert EntriesText(chs, first) == one;
      assert Extend(cs, "\n  },\n  ") + [] == Extend(cs, "\n  },\n  ");
      Assoc(Lead(first), Render(cs), "\n  },\n  ");
    } else {
      EntriesAreCells(chs[1..], false);
      RenderExtend(cs, ",\n    ");
      RenderCat(Extend(cs, ",\n    "), EntryCells(chs[1..]));
      var r := Render(EntryCells(chs[1..]));
      Assoc(one, rest, "\n  },\n  ");
      Assoc(one, ",\n    ", r);
      Assoc(Lead(first), Render(cs), ",\n    ");
      Assoc(Lead(first), Render(cs) + ",\n    ", r);
    }
  }

  lemma BeforeTrimIsCells(c: Config)
    ensures BeforeTrim(c) + ",\n  " == "{\n  " + Render(CellsBeforeTrim(c))
  {
    hide HeadCells, ChannelsText, EntryCells;
    RenderExtend(HeadCells(c), ",\n  ");
    Assoc("{\n  ", Render(HeadCells(c)), ",\n  ");
    if c.channels != [] {
      WithChannels(c);
    }
  }

  lemma WithChannels(c: Config)
    requires c.channels != [] && HeadText(c) + ",\n  " == "{\n  " + Render(WideHead(c))
    ensures ChannelsText(c, |c.channels|) + "\n  }" + ",\n  "
            == "{\n  " + Render(WideHead(c) + ([Cell("channels", ": {\n    ")] + EntryCells(c.channels)))
  {
    hide HeadText, WideHead, EntryCells, EntriesText, Render, Quote;
    var e, r := EntriesText(c.channels, true), Render(EntryCells(c.channels));
    EntriesAreChannels(c, 0);
    assert c.channels[0..] == c.channels;
    EntriesAreCells(c.channels, true);
    RenderCat(WideHead(c), [Cell("channels", ": {\n    ")] + EntryCells(c.channels));
    RenderCat([Cell("channels", ": {\n    ")], EntryCells(c.channels));
    Render1(Cell("channels", ": {\n    "));
    OpenAndFill(HeadText(c), "{\n  " + Render(WideHead(c)), Quote("channels"), e, r);
    assert "{\n  " + Render(WideHead(c)) + (Quote("channels") + ": {\n    " + r)
           == "{\n  " + (Render(WideHead(c)) + (Quote("channels") + ": {\n    " + r));
  }

  lemma OpenAndFill(h: string, wide: string, q: string, e: string, r: string)
    requires h + ",\n  " == wide && e + "\n  },\n  " == "\n    " + r
    ensures h + (",\n  " + (q + ": {")) + e + "\n  }" + ",\n  " == wide + (q + ": {\n    " + r)
  {
    assert h + (",\n  " + (q + ": {")) + e + "\n  }" + ",\n  " == wide + (q + ": {") + (e + "\n  },\n  ");
    assert q + ": {" + ("\n    " + r) == q + ": {\n    " + r;
    Assoc(wide, q + ": {", "\n    " + r);
  }

  // ---------------------------------------------------------------- the layout between tokens

  /** Behind its blanks the layout shows no digit and no sign. */
  predicate Dull(g: string) { var v := SkipBlank(g); v == "" || v[0] in {',', '}', '{', 't', 'f'} }

  /** Layout of the printer: it opens a brace only as the last thing but blanks. */
  predicate GapForm(g: string)
  {
    && QuoteFree(g) && NoNul(g) && g != "" && g[0] in {':', ',', '\n', ' '} && Dull(g)
    && ('{' in g ==> g in {": { ", ": {\n    "})
  }

  predicate CellForm(x: Cell) { QuoteFree(x.tok) && NoNul(x.tok) && GapForm(x.gap) }

  predicate AllForm(cs: seq<Cell>) { forall x :: x in cs ==> CellForm(x) }

  lemma DullOver(p: string, v: string)
    requires Blank(p) && v != "" && v[0] in {',', '}', '{', 't', 'f'}
    ensures Dull(p + v)
  {
    SkipBlankOver(p, v);
  }

  lemma DullBlank(p: string)
    requires Blank(p)
    ensures Dull(p)
  {
    SkipBlankOver(p, "");
    assert p + "" == p;
  }

  /** Layout that is blank up to a dull character and opens no brace. */
  lemma FormOver(p: string, v: string)
    requires Blank(p) && QuoteFree(v) && NoNul(v) && '{' !in v && v != "" && v[0] in {',', '}', 't', 'f'}
    requires (p + v)[0] in {':', ',', '\n', ' '}
    ensures GapForm(p + v) && '{' !in p + v
  {
    DullOver(p, v);
    BlankForm(p);
  }

  lemma BlankForm(p: string)
    requires Blank(p)
    ensures QuoteFree(p) && NoNul(p) && '{' !in p && '}' !in p
    ensures p != "" ==> p[0] in {':', ',', '\n', ' ', '\t', '\r'}
  {
    if p != "" { assert p[0] in p; }
  }

  lemma OpenForm()
    ensures GapForm(": {\n    ") && GapForm(": { ") && GapForm(": ") && '{' !in ": "
  {
    DullOver(": ", "{\n    ");
    DullOver(": ", "{ ");
    DullBlank(": ");
    assert ": " + "{\n    " == ": {\n    " && ": " + "{ " == ": { ";
  }

  lemma BoolForm(b: bool, g: string)
    requires QuoteFree(g) && NoNul(g) && '{' !in g
    ensures GapForm(": " + (BoolText(b) + g)) && '{' !in ": " + (BoolText(b) + g)
  {
    FormOver(": ", BoolText(b) + g);
  }

  lemma HeadGapForms(c: Config, k: nat)
    requires k < HEAD_CELLS
    ensures GapForm(HeadGap(c, k)) && ('{' in HeadGap(c, k) <==> k in {0, 14})
  {
    hide GapForm, BoolText;
    OpenForm();
    if k == 3 {
      BoolForm(c.network.dhcp, ",\n    ");
    } else if k == 13 {
      FormOver("\n  ", "},\n  ");
      assert "\n  " + "},\n  " == "\n  },\n  ";
    } else if k == 18 {
      LastGap(c);
    } else if k !in {0, 1, 4, 6, 8, 10, 12, 14, 15, 17} {
      FormOver("", ",\n    ");
      assert "" + ",\n    " == ",\n    ";
    }
  }

  lemma LastGap(c: Config)
    ensures GapForm(HeadGap(c, 18)) && GapForm(HeadGap(c, 18) + ",\n  ")
    ensures '{' !in HeadGap(c, 18) && '{' !in HeadGap(c, 18) + ",\n  " && '}' in HeadGap(c, 18)
  {
    FormOver("\n  ", "}");
    FormOver("\n  ", "},\n  ");
    assert "\n  " + "}" == "\n  }" && "\n  }" + ",\n  " == "\n  " + "},\n  ";
  }

  lemma WideHeadForm(c: Config)
    requires PlainHead(c)
    ensures AllForm(WideHead(c)) && |WideHead(c)| == HEAD_CELLS
    ensures forall j :: 0 <= j < HEAD_CELLS ==>
              WideHead(c)[j].tok == HeadTok(c, j) && ('{' in WideHead(c)[j].gap <==> j in {0, 14})
    ensures '}' in WideHead(c)[HEAD_CELLS - 1].gap
  {
    hide HeadTok, HeadGap, GapForm;
    var cs, w := HeadCells(c), WideHead(c);
    HeadClean(c);
    forall j | 0 <= j < HEAD_CELLS
      ensures w[j].tok == HeadTok(c, j) && CellForm(w[j]) && ('{' in w[j].gap <==> j in {0, 14})
      ensures j == HEAD_CELLS - 1 ==> '}' in w[j].gap
    {
      HeadGapForms(c, j);
      LastGap(c);
      assert cs[j] in cs;
      assert j < HEAD_CELLS - 1 ==> w[j] == w[..HEAD_CELLS - 1][j] == cs[j];
    }
  }

  lemma ObjectCells(ch: Channel, g: string)
    requires ch.topic != ""
    ensures EntryCell(ch, g) == [Cell(ch.name, ": { "), Cell("enabled", ": " + (BoolText(ch.enabled) + ", ")),
                                 Cell("topic", ": "), Cell(ch.topic, " }" + g)]
  {
    hide BoolText;
  }

  lemma ObjectCellsForm(ch: Channel, g: string)
    requires PlainChannel(ch) && ch.topic != "" && g in {"\n  },\n  ", ",\n    "}
    ensures AllForm(EntryCell(ch, g))
    ensures '{' !in ": " + (BoolText(ch.enabled) + ", ") && '{' !in " }" + g
  {
    NameForm(ch);
    EnabledForm(ch.enabled);
    TopicForm(ch, g);
    ObjectCells(ch, g);
    hide CellForm, BoolText, EntryCell, PlainChannel;
    FourForms(Cell(ch.name, ": { "), Cell("enabled", ": " + (BoolText(ch.enabled) + ", ")),
              Cell("topic", ": "), Cell(ch.topic, " }" + g));
  }

  lemma NameForm(ch: Channel)
    requires PlainChannel(ch)
    ensures CellForm(Cell(ch.name, ": { "))
  {
    OpenForm();
    hide GapForm;
  }

  lemma EnabledForm(b: bool)
    ensures CellForm(Cell("enabled", ": " + (BoolText(b) + ", "))) && '{' !in ": " + (BoolText(b) + ", ")
    ensures CellForm(Cell("topic", ": "))
  {
    BoolForm(b, ", ");
    OpenForm();
    hide GapForm;
    assert CellForm(Cell("topic", ": "));
    EnabledToken();
    hide CellForm, NoNul, QuoteFree;
    assert '{' !in BoolText(b);
    hide BoolText;
  }

  lemma EnabledToken()
    ensures QuoteFree("enabled") && NoNul("enabled")
  {
  }

  lemma TopicForm(ch: Channel, g: string)
    requires PlainChannel(ch) && g in {"\n  },\n  ", ",\n    "}
    ensures CellForm(Cell(ch.topic, " }" + g)) && '{' !in " }" + g
  {
    FormOver(" ", "}" + g);
    assert " " + ("}" + g) == " }" + g;
    hide GapForm;
  }

  lemma FourForms(a: Cell, b: Cell, c: Cell, d: Cell)
    requires CellForm(a) && CellForm(b) && CellForm(c) && CellForm(d)
    ensures AllForm([a, b, c, d])
  {
  }

  lemma FlagCellsForm(ch: Channel, g: string)
    requires PlainChannel(ch) && ch.topic == "" && g in {"\n  },\n  ", ",\n    "}
    ensures EntryCell(ch, g) == [Cell(ch.name, ": " + (BoolText(ch.enabled) + g))]
    ensures AllForm(EntryCell(ch, g)) && '{' !in EntryCell(ch, g)[0].gap
  {
    hide GapForm, BoolText;
    BoolForm(ch.enabled, g);
    assert ": " + BoolText(ch.enabled) + g == ": " + (BoolText(ch.enabled) + g);
  }

  lemma ChannelCellsForm(ch: Channel, g: string)
    requires PlainChannel(ch) && g in {"\n  },\n  ", ",\n    "}
    ensures var cs := EntryCell(ch, g);
            && AllForm(cs) && (forall x :: x in cs ==> BraceFree(x.tok)) && '{' !in cs[|cs| - 1].gap
            && ('}' in g ==> '}' in cs[|cs| - 1].gap)
  {
    hide GapForm, BoolText, EntryCell;
    if ch.topic != "" {
      ObjectCells(ch, g);
      ObjectCellsForm(ch, g);
    } else {
      FlagCellsForm(ch, g);
    }
    hide AllForm;
  }

  lemma {:induction false} EntryCellsForm(chs: seq<Channel>)
    requires PlainChannels(chs)
    ensures AllForm(EntryCells(chs)) && forall x :: x in EntryCells(chs) ==> BraceFree(x.tok)
    ensures chs != [] ==> var cs := EntryCells(chs);
              cs != [] && '}' in cs[|cs| - 1].gap && '{' !in cs[|cs| - 1].gap
  {
    hide EntryCell, CellForm, BraceFree;
    if chs != [] {
      assert chs[0] in chs;
      EntryCellsForm(chs[1..]);
      ChannelCellsForm(chs[0], if |chs| == 1 then "\n  },\n  " else ",\n    ");
      if |chs| == 1 {
        assert EntryCells(chs[1..]) == [];
        assert EntryCells(chs) == EntryCell(chs[0], "\n  },\n  ");
      }
    }
  }

  lemma CellsForm(c: Config)
    requires PlainHead(c) && PlainChannels(c.channels)
    ensures var cs := CellsBeforeTrim(c);
            AllForm(cs) && cs != [] && '}' in cs[|cs| - 1].gap && '{' !in cs[|cs| - 1].gap
  {
    hide WideHead, EntryCells, CellForm, HeadTok;
    WideHeadForm(c);
    EntryCellsForm(c.channels);
    assert CellForm(Cell("channels", ": {\n    ")) by { ChannelsCell(); }
  }

  lemma ChannelsCell()
    ensures CellForm(Cell("channels", ": {\n    "))
  {
    OpenForm();
  }

  lemma FormIsClean(cs: seq<Cell>, key: string)
    requires AllForm(cs) && key != "" && key[0] !in {':', ',', '\n', ' '}
    ensures Clean(cs) && NulFree(cs) && forall x :: x in cs ==> x.gap != key
  {
  }

  // ---------------------------------------------------------------- the next brace

  /** The text from the first '{' behind the first occurrence of a quoted key. */
  function Opened(json: string, key: string): Option<string>
  { match StrStr(json, Quote(key)) case None => None case Some(sec) => StrChr(sec, '{') }

  predicate NoOpen(cs: seq<Cell>) { forall x :: x in cs ==> '{' !in x.gap }

  lemma {:induction false} RenderNoOpen(cs: seq<Cell>)
    requires NoOpen(cs) && forall x :: x in cs ==> '{' !in x.tok
    ensures '{' !in Render(cs)
  {
    if cs != [] {
      assert cs[0] in cs;
      RenderNoOpen(cs[1..]);
    }
  }

  lemma OpensBehind(q: string, key: string, body: string)
    requires '{' !in q && '{' !in key
    ensures StrChr(q + (Quote(key) + (": {" + body)), '{') == Some("{" + body)
  {
    var p := q + (Quote(key) + ": ");
    StrChrAfter(p, '{', body);
    assert q + (Quote(key) + (": {" + body)) == p + ['{'] + body;
  }

  /** The first cell of cs that opens a brace, and what StrChr makes of the text from cs on. */
  lemma {:induction false} NextOpen(q: string, cs: seq<Cell>, s: string) returns (m: nat, post: string)
    requires '{' !in q && !NoOpen(cs) && AllForm(cs) && forall x :: x in cs ==> '{' !in x.tok
    ensures m < |cs| && '{' in cs[m].gap && NoOpen(cs[..m]) && cs[m].gap == ": {" + post && post in {" ", "\n    "}
    ensures StrChr(q + (Render(cs) + s), '{') == Some("{" + (post + (Render(cs[m + 1..]) + s)))
    decreases |cs|
  {
    hide StrChr, Dull, Quote, QuoteFree, NoNul;
    var x := cs[0];
    assert x in cs;
    if '{' in x.gap {
      m, post := 0, if x.gap == ": { " then " " else "\n    ";
      assert x.gap == ": {" + post by { assert ": {" + " " == ": { " && ": {" + "\n    " == ": {\n    "; }
      Here(q, x.tok, post, Render(cs[1..]), s);
      assert cs[..0] == [];
    } else {
      var r := Quote(x.tok) + x.gap;
      assert '{' !in q + r by { QuoteOpensNot(x.tok); }
      var n;
      n, post := NextOpen(q + r, cs[1..], s);
      m := n + 1;
      assert cs[m + 1..] == cs[1..][n + 1..] && cs[..m] == [x] + cs[1..][..n];
      Assoc(r, Render(cs[1..]), s);
      Assoc(q, r, Render(cs[1..]) + s);
    }
  }

  lemma QuoteOpensNot(t: string)
    requires '{' !in t
    ensures '{' !in Quote(t)
  {
  }

  lemma Here(q: string, tok: string, post: string, r: string, s: string)
    requires '{' !in q && '{' !in tok
    ensures StrChr(q + (Quote(tok) + (": {" + post) + r + s), '{') == Some("{" + (post + (r + s)))
  {
    var t := Quote(tok);
    OpensBehind(q, tok, post + (r + s));
    Assoc(t + (": {" + post), r, s);
    Assoc(t, ": {" + post, r + s);
    Assoc(": {", post, r + s);
    hide StrChr, Quote;
  }

  // ---------------------------------------------------------------- which block "rc_trim" opens

  /** Behind every token that spells the key no brace opens any more. */
  predicate Reaches(cs: seq<Cell>)
  { forall i :: 0 <= i < |cs| && cs[i].tok == TRIM_KEY ==> NoOpen(cs[i..]) }

  predicate Mentions(cs: seq<Cell>) { exists i :: 0 <= i < |cs| && cs[i].tok == TRIM_KEY }

  lemma NoOpenCat(a: seq<Cell>, b: seq<Cell>)
    ensures NoOpen(a + b) <==> NoOpen(a) && NoOpen(b)
  {
    assert forall x :: x in a ==> x in a + b;
    assert forall x :: x in b ==> x in a + b;
  }

  lemma ReachesCat(a: seq<Cell>, b: seq<Cell>)
    ensures Reaches(a + b) <==> Reaches(a) && Reaches(b) && (Mentions(a) ==> NoOpen(b))
    ensures Mentions(a + b) <==> Mentions(a) || Mentions(b)
  {
    hide NoOpen;
    var ab := a + b;
    forall i | 0 <= i < |a| ensures ab[i] == a[i] && (NoOpen(ab[i..]) <==> NoOpen(a[i..]) && NoOpen(b)) {
      assert ab[i..] == a[i..] + b;
      NoOpenCat(a[i..], b);
    }
    forall i | 0 <= i < |b| ensures ab[|a| + i] == b[i] && ab[|a| + i..] == b[i..] {
    }
  }

  predicate NoTopics(chs: seq<Channel>) { forall ch :: ch in chs ==> ch.topic == "" }

  predicate Spells(ch: Channel) { ch.name == TRIM_KEY || ch.topic == TRIM_KEY }

  /** A channel whose name or topic spells the key has no topic behind its name, and no channel
      printed behind it has one. */
  predicate ChannelsReach(chs: seq<Channel>) { forall i :: 0 <= i < |chs| ==> ReachAt(chs, i) }

  predicate ReachAt(chs: seq<Channel>, i: nat)
    requires i < |chs|
  { Spells(chs[i]) ==> (chs[i].name == TRIM_KEY ==> chs[i].topic == "") && NoTopics(chs[i + 1..]) }

  lemma EntryReaches(ch: Channel, g: string)
    requires PlainChannel(ch) && g in {"\n  },\n  ", ",\n    "}
    ensures Reaches(EntryCell(ch, g)) <==> (ch.name == TRIM_KEY ==> ch.topic == "")
    ensures Mentions(EntryCell(ch, g)) <==> Spells(ch)
    ensures NoOpen(EntryCell(ch, g)) <==> ch.topic == ""
  {
    var cs := EntryCell(ch, g);
    if ch.topic != "" {
      ObjectCells(ch, g);
      ObjectCellsForm(ch, g);
      hide EntryCell, BoolText, AllForm;
      assert "enabled" != TRIM_KEY && "topic" != TRIM_KEY by { assert "enabled"[0] == 'e' && "topic"[0] == 't'; }
      assert '{' in cs[0].gap && cs[0] in cs && '{' !in ": ";
      assert cs[1..] == [cs[1], cs[2], cs[3]] && cs[2..] == [cs[2], cs[3]] && cs[3..] == [cs[3]] && cs[0..] == cs;
      FourReach(cs);
    } else {
      FlagCellsForm(ch, g);
      hide EntryCell, BoolText, AllForm;
      assert ch.name == TRIM_KEY <==> cs[0].tok == TRIM_KEY;
      assert cs[0..] == cs;
    }
  }

  lemma FourReach(cs: seq<Cell>)
    requires |cs| == 4 && '{' in cs[0].gap && cs[1].tok != TRIM_KEY && cs[2].tok != TRIM_KEY
    requires '{' !in cs[1].gap && '{' !in cs[2].gap && '{' !in cs[3].gap
    ensures Reaches(cs) <==> cs[0].tok != TRIM_KEY
    ensures Mentions(cs) <==> cs[0].tok == TRIM_KEY || cs[3].tok == TRIM_KEY
    ensures !NoOpen(cs)
  {
    assert cs[0] in cs && cs[0..] == cs;
    assert cs[3..] == [cs[3]];
    assert Mentions(cs) <== cs[0].tok == TRIM_KEY || cs[3].tok == TRIM_KEY;
  }

  lemma {:induction false} EntriesReach(chs: seq<Channel>)
    requires PlainChannels(chs)
    ensures Reaches(EntryCells(chs)) <==> ChannelsReach(chs)
    ensures NoOpen(EntryCells(chs)) <==> NoTopics(chs)
  {
    hide Reaches, Mentions, NoOpen, EntryCell, PlainChannel;
    if chs == [] {
      NothingReaches();
    } else {
      assert chs[0] in chs;
      var g := if |chs| == 1 then "\n  },\n  " else ",\n    ";
      EntriesReach(chs[1..]);
      EntryReaches(chs[0], g);
      ReachesCat(EntryCell(chs[0], g), EntryCells(chs[1..]));
      NoOpenCat(EntryCell(chs[0], g), EntryCells(chs[1..]));
      ReachStep(chs);
    }
  }

  lemma NothingReaches()
    ensures Reaches([]) && NoOpen([]) && ChannelsReach([])
  {
  }

  lemma ReachStep(chs: seq<Channel>)
    requires chs != []
    ensures ChannelsReach(chs) <==>
            && (chs[0].name == TRIM_KEY ==> chs[0].topic == "")
            && ChannelsReach(chs[1..]) && (Spells(chs[0]) ==> NoTopics(chs[1..]))
    ensures NoTopics(chs) <==> chs[0].topic == "" && NoTopics(chs[1..])
  {
    hide NoTopics;
    var rest := chs[1..];
    forall i: nat | i < |rest| ensures ReachAt(rest, i) == ReachAt(chs, i + 1) {
      assert rest[i] == chs[i + 1] && rest[i + 1..] == chs[i + 2..];
    }
    forall i: nat | 0 < i < |chs| ensures ReachAt(chs, i) == ReachAt(rest, i - 1) {
      assert rest[i - 1] == chs[i] && rest[i..] == chs[i + 1..];
    }
    assert ReachAt(chs, 0) <==> (chs[0].name == TRIM_KEY ==> chs[0].topic == "") && (Spells(chs[0]) ==> NoTopics(rest));
    assert ChannelsReach(rest) ==> forall i: nat :: 0 < i < |chs| ==> ReachAt(chs, i);
    assert ChannelsReach(chs) ==> forall i: nat :: i < |rest| ==> ReachAt(rest, i);
    TopicsStep(chs);
    hide Spells, ReachAt;
  }

  lemma TopicsStep(chs: seq<Channel>)
    requires chs != []
    ensures NoTopics(chs) <==> chs[0].topic == "" && NoTopics(chs[1..])
  {
    assert forall ch :: ch in chs[1..] ==> ch in chs;
  }

  /** The first "rc_trim" in the text stands where the next brace is the trim block's own: no
      network string spells it, no ROS name while there are channels, and no channel in front
      of a topic. */
  predicate TrimClear(c: Config)
  {
    && (forall j :: 0 <= j < 14 && IsValue(j) ==> HeadTok(c, j) != TRIM_KEY)
    && (c.channels != [] ==> HeadTok(c, 16) != TRIM_KEY && HeadTok(c, 18) != TRIM_KEY)
    && ChannelsReach(c.channels)
  }

  lemma HeadReach(c: Config)
    requires PlainHead(c)
    ensures Reaches(WideHead(c)) <==> forall j :: 0 <= j < 14 && IsValue(j) ==> HeadTok(c, j) != TRIM_KEY
    ensures Mentions(WideHead(c)) <==> exists j :: 0 <= j < HEAD_CELLS && IsValue(j) && HeadTok(c, j) == TRIM_KEY
  {
    hide WideHead, HeadTok;
    var w := WideHead(c);
    WideHeadForm(c);
    forall j | 0 <= j < HEAD_CELLS ensures (NoOpen(w[j..]) <==> j > 14) && (w[j].tok == TRIM_KEY ==> IsValue(j)) {
      if j <= 14 { assert w[14] in w[j..]; } else { OpensAfter(w, j); }
      if !IsValue(j) { NoLabelIsSection(c, j); }
    }
    hide NoOpen;
  }

  lemma OpensAfter(w: seq<Cell>, j: nat)
    requires 14 < j <= |w| && forall i :: 14 < i < |w| ==> '{' !in w[i].gap
    ensures NoOpen(w[j..])
  {
  }

  lemma ReachesExactly(c: Config)
    requires PlainHead(c) && PlainChannels(c.channels)
    ensures Reaches(CellsBeforeTrim(c)) <==> TrimClear(c)
  {
    hide Reaches, Mentions, NoOpen, WideHead, EntryCells, ChannelsReach, HeadTok, PlainHead, PlainChannels;
    HeadReach(c);
    EntriesReach(c.channels);
    if c.channels != [] {
      var mid := [Cell("channels", ": {\n    ")];
      MidReaches();
      ReachesCat(mid, EntryCells(c.channels));
      ReachesCat(WideHead(c), mid + EntryCells(c.channels));
      NoOpenCat(mid, EntryCells(c.channels));
    } else {
      NothingReaches();
    }
    assert IsValue(16) && IsValue(18);
    hide *;
  }

  lemma MidReaches()
    ensures var mid := [Cell("channels", ": {\n    ")]; Reaches(mid) && !Mentions(mid) && !NoOpen(mid)
  {
    var mid := [Cell("channels", ": {\n    ")];
    assert "channels"[0] == 'c' && TRIM_KEY[0] == 'r';
    assert mid[0] in mid && ": {\n    "[2] == '{';
  }

  /** Braces in network and ROS strings matter only if one of these strings spells a section key. */
  predicate BracesHarmless(c: Config)
  {
    || (forall j :: 0 <= j < HEAD_CELLS && IsValue(j) ==> HeadTok(c, j) !in {"channels", TRIM_KEY})
    || (forall j :: 0 <= j < HEAD_CELLS && IsValue(j) ==> BraceFree(HeadTok(c, j)))
  }

  predicate PlainText(c: Config) { PlainHead(c) && PlainChannels(c.channels) && BracesHarmless(c) }

  lemma TokensAt(c: Config, i: nat)
    requires PlainHead(c) && PlainChannels(c.channels) && i < |CellsBeforeTrim(c)|
    ensures i < HEAD_CELLS ==> CellsBeforeTrim(c)[i].tok == HeadTok(c, i)
    ensures i >= HEAD_CELLS ==> BraceFree(CellsBeforeTrim(c)[i].tok)
  {
    hide WideHead, EntryCells, HeadTok, PlainHead, PlainChannels;
    WideHeadForm(c);
    EntryCellsForm(c.channels);
    if i > HEAD_CELLS {
      assert CellsBeforeTrim(c)[i] == EntryCells(c.channels)[i - HEAD_CELLS - 1];
    } else if i == HEAD_CELLS {
      assert CellsBeforeTrim(c)[i] == Cell("channels", ": {\n    ");
    } else {
      assert CellsBeforeTrim(c)[i] == WideHead(c)[i];
    }
  }

  /** From the first cell that spells a section key on, tokens hold no braces. */
  lemma BehindIsPlain(c: Config, key: string, i: nat)
    requires PlainText(c) && key in {"channels", TRIM_KEY}
    requires FirstAt(CellsBeforeTrim(c), key) <= i < |CellsBeforeTrim(c)|
    ensures BraceFree(CellsBeforeTrim(c)[i].tok)
  {
    hide CellsBeforeTrim, HeadTok;
    var a := FirstAt(CellsBeforeTrim(c), key);
    TokensAt(c, a);
    TokensAt(c, i);
    if i < HEAD_CELLS {
      if !IsValue(a) { NoLabelIsSection(c, a); }
      if !IsValue(i) { LabelForm(c, i); }
    }
  }

  /** The text up to the trim block's opening brace and whatever is behind it. */
  function UpToTrim(c: Config, body: string): string
  { "{\n  " + Render(CellsBeforeTrim(c)) + (Quote(TRIM_KEY) + (": {" + body)) }

  lemma FoundBefore(c: Config, body: string)
    requires PlainText(c) && FirstAt(CellsBeforeTrim(c), TRIM_KEY) < |CellsBeforeTrim(c)|
    ensures var cs, tail := CellsBeforeTrim(c), Quote(TRIM_KEY) + (": {" + body);
            var a := FirstAt(cs, TRIM_KEY);
            StrStr(UpToTrim(c, body), Quote(TRIM_KEY)) == Some(Quote(TRIM_KEY) + (cs[a].gap + (Render(cs[a + 1..]) + tail)))
  {
    hide CellsBeforeTrim, StrStr, Render, AllForm, Quote;
    CellsForm(c);
    assert TRIM_KEY[0] == 'r';
    FormIsClean(CellsBeforeTrim(c), TRIM_KEY);
    FoundAt("{\n  ", CellsBeforeTrim(c), TRIM_KEY, Quote(TRIM_KEY) + (": {" + body));
  }

  lemma FoundOwn(c: Config, body: string)
    requires PlainText(c) && FirstAt(CellsBeforeTrim(c), TRIM_KEY) == |CellsBeforeTrim(c)|
    ensures StrStr(UpToTrim(c, body), Quote(TRIM_KEY)) == Some(Quote(TRIM_KEY) + (": {" + body))
  {
    hide CellsBeforeTrim, StrStr, Render, AllForm, Quote;
    CellsForm(c);
    assert TRIM_KEY[0] == 'r' && QuoteFree(TRIM_KEY);
    FormIsClean(CellsBeforeTrim(c), TRIM_KEY);
    Finds("{\n  ", CellsBeforeTrim(c), TRIM_KEY, ": {" + body);
  }

  /** When the key is clear, the block that opens behind it is the trim block. */
  lemma TrimOpens(c: Config, body: string)
    requires PlainText(c) && TrimClear(c)
    ensures Opened(UpToTrim(c, body), TRIM_KEY) == Some("{" + body)
  {
    hide CellsBeforeTrim, StrStr, StrChr, Render, TrimClear, PlainText, UpToTrim, Quote;
    var cs, tail := CellsBeforeTrim(c), Quote(TRIM_KEY) + (": {" + body);
    var a := FirstAt(cs, TRIM_KEY);
    assert '{' !in TRIM_KEY && '{' !in Quote(TRIM_KEY) by { QuoteOpensNot(TRIM_KEY); }
    if a == |cs| {
      FoundOwn(c, body);
      OpensBehind("", TRIM_KEY, body);
      assert "" + (Quote(TRIM_KEY) + (": {" + body)) == Quote(TRIM_KEY) + (": {" + body);
    } else {
      FoundBefore(c, body);
      assert Reaches(cs) by { PlainParts(c); ReachesExactly(c); }
      assert cs[a] in cs[a..] && forall x :: x in cs[a + 1..] ==> x in cs[a..];
      forall x | x in cs[a + 1..] ensures '{' !in x.tok {
        var i :| a < i < |cs| && cs[i] == x;
        BehindIsPlain(c, TRIM_KEY, i);
      }
      RenderNoOpen(cs[a + 1..]);
      var q := Quote(TRIM_KEY) + (cs[a].gap + Render(cs[a + 1..]));
      Assoc(cs[a].gap, Render(cs[a + 1..]), tail);
      Assoc(Quote(TRIM_KEY), cs[a].gap + Render(cs[a + 1..]), tail);
      OpensBehind(q, TRIM_KEY, body);
    }
  }

  lemma PlainParts(c: Config)
    requires PlainText(c)
    ensures PlainHead(c) && PlainChannels(c.channels)
  {
  }

  // A block that is not the trim block holds no trim value.

  lemma {:induction false} SkipDull(g: string, t: string)
    requires Dull(g) && (t == "" || t[0] == '"')
    ensures var v := SkipBlank(g + t); v == "" || v[0] in {',', '}', '{', 't', 'f', '"'}
  {
    if g == "" {
      assert g + t == t;
    } else if IsBlank(g[0]) {
      assert (g + t)[0] == g[0] && (g + t)[1..] == g[1..] + t;
      SkipDull(g[1..], t);
    } else {
      assert (g + t)[0] == g[0];
    }
  }

  lemma {:induction false} DullCut(g: string, j: nat)
    requires Dull(g) && j < |g| && g[j] == '}'
    ensures Dull(g[..j + 1])
  {
    if IsBlank(g[0]) {
      assert g[..j + 1][1..] == g[1..][..j];
      DullCut(g[1..], j - 1);
    }
  }

  /** Cells as the scope holds them: the last one may be cut behind a brace. */
  predicate ScopeForm(x: Cell) {
    && QuoteFree(x.tok) && QuoteFree(x.gap) && Dull(x.gap)
    && x.gap != "" && x.gap[0] in {':', ',', '\n', ' ', '}'}
  }

  predicate AllScope(cs: seq<Cell>) { forall x :: x in cs ==> ScopeForm(x) }

  /** No cell of such a block carries a number. */
  lemma NoNumber(p: string, ds: seq<Cell>, key: string)
    requires QuoteFree(p) && AllScope(ds) && QuoteFree(key) && key != "" && 'a' <= key[0] <= 'z' && |key| < CFG_STR_LEN
    ensures GetInt(p + Render(ds), key).NoInt?
  {
    hide Render, StrStr, Dull;
    assert Clean(ds) && forall x :: x in ds ==> x.gap != key;
    var i := FirstAt(ds, key);
    if i == |ds| {
      assert Avoids(ds, key) by { forall x | x in ds ensures x.tok != key { var j :| 0 <= j < |ds| && ds[j] == x; } }
      FindsNothing(p, ds, key);
    } else {
      FoundAt(p, ds, key, "");
      assert p + Render(ds) + "" == p + Render(ds);
      var t := Render(ds[i + 1..]) + "";
      RenderHead(ds[i + 1..]);
      assert ds[i] in ds;
      SkipDull(ds[i].gap, t);
      FoundBehind(p + Render(ds), key, ds[i].gap + t);
    }
  }

  /** The text of cells up to their first closing brace, as cells. */
  lemma {:induction false} CutCells(p: string, cs: seq<Cell>, s: string) returns (ds: seq<Cell>)
    requires AllForm(cs) && '}' !in p && (exists x :: x in cs && '}' in x.gap) && forall x :: x in cs ==> '}' !in x.tok
    ensures AllScope(ds)
    ensures var k := MemChr(p + (Render(cs) + s), '}');
            k.Some? && k.value < |p + (Render(cs) + s)| && (p + (Render(cs) + s))[..k.value + 1] == p + Render(ds)
    decreases |cs|
  {
    hide MemChr, Dull, Quote;
    var x := cs[0];
    assert x in cs;
    var r := Render(cs[1..]);
    if '}' in x.gap {
      var j := MemChr(x.gap, '}').value;
      var cut := Cell(x.tok, x.gap[..j + 1]);
      DullCut(x.gap, j);
      ds := [cut];
      assert cut.gap[0] == x.gap[0];
      CutHere(p, x.tok, x.gap, j, r, s);
      assert Render(ds) == Quote(x.tok) + x.gap[..j + 1] + "";
    } else {
      var q := p + (Quote(x.tok) + x.gap);
      assert '}' !in q by { QuoteClosesNot(x.tok); }
      var y :| y in cs && '}' in y.gap;
      assert y in cs[1..];
      var es := CutCells(q, cs[1..], s);
      ds := [x] + es;
      assert ScopeForm(x);
      Assoc(Quote(x.tok) + x.gap, r, s);
      Assoc(p, Quote(x.tok) + x.gap, r + s);
      Assoc(p, Quote(x.tok) + x.gap, Render(es));
      assert ds[1..] == es;
    }
  }

  lemma QuoteClosesNot(t: string)
    requires '}' !in t
    ensures '}' !in Quote(t)
  {
  }

  lemma CutHere(p: string, tok: string, g: string, j: nat, r: string, s: string)
    requires '}' !in p && '}' !in tok && j < |g| && g[j] == '}' && '}' !in g[..j]
    ensures var x := p + (Quote(tok) + g + r + s);
            && MemChr(x, '}') == Some(|p| + |tok| + 2 + j)
            && x[..|p| + |tok| + 2 + j + 1] == p + (Quote(tok) + g[..j + 1] + "")
  {
    var x, h := p + (Quote(tok) + g + r + s), p + (Quote(tok) + g[..j]);
    assert g == g[..j] + ['}'] + g[j + 1..];
    assert x == h + ['}'] + (g[j + 1..] + r + s);
    MemChrAfter(h, '}', g[j + 1..] + r + s);
  }

  /** The brace that opens instead belongs to a cell in front of the trim block. */
  lemma WrongOpen(c: Config, body: string) returns (post: string, rest: seq<Cell>)
    requires PlainText(c) && !TrimClear(c)
    ensures AllForm(rest) && (forall x :: x in rest ==> '}' !in x.tok) && post in {" ", "\n    "}
    ensures exists x :: x in rest && '}' in x.gap
    ensures Opened(UpToTrim(c, body), TRIM_KEY)
         == Some("{" + (post + (Render(rest) + (Quote(TRIM_KEY) + (": {" + body)))))
  {
    hide CellsBeforeTrim, StrStr, StrChr, Render, TrimClear, PlainText, UpToTrim, Quote, AllForm, BraceFree, NoOpen, Reaches;
    var cs, tail := CellsBeforeTrim(c), Quote(TRIM_KEY) + (": {" + body);
    var a := WrongCells(c);
    var m;
    m, post := NextOpen("", cs[a..], tail);
    FoundBefore(c, body);
    FromCell(cs, a, tail);
    rest := cs[a..][m + 1..];
    RestCloses(cs[a..], m);
    RestForm(cs[a..], rest);
  }

  /** From the first cell that spells the key on, some cell opens a brace, and the last closes one. */
  lemma WrongCells(c: Config) returns (a: nat)
    requires PlainText(c) && !TrimClear(c)
    ensures a == FirstAt(CellsBeforeTrim(c), TRIM_KEY) < |CellsBeforeTrim(c)| && !NoOpen(CellsBeforeTrim(c)[a..])
    ensures var D := CellsBeforeTrim(c)[a..];
            && AllForm(D) && (forall x :: x in D ==> '{' !in x.tok && '}' !in x.tok)
            && '{' !in D[|D| - 1].gap && '}' in D[|D| - 1].gap
  {
    hide CellsBeforeTrim, TrimClear, PlainText, PlainHead, PlainChannels, CellForm, BraceFree, NoOpen;
    var cs := CellsBeforeTrim(c);
    PlainParts(c);
    ReachesExactly(c);
    CellsForm(c);
    var i :| 0 <= i < |cs| && cs[i].tok == TRIM_KEY && !NoOpen(cs[i..]);
    a := FirstAt(cs, TRIM_KEY);
    OpenEarlier(cs, a, i);
    forall x | x in cs[a..] ensures BraceFree(x.tok) && CellForm(x) {
      var j :| a <= j < |cs| && cs[j] == x;
      BehindIsPlain(c, TRIM_KEY, j);
    }
    TokensOpenNot(cs[a..]);
  }

  lemma RestForm(D: seq<Cell>, rest: seq<Cell>)
    requires AllForm(D) && (forall x :: x in rest ==> x in D) && forall x :: x in D ==> '}' !in x.tok
    ensures AllForm(rest) && forall x :: x in rest ==> '}' !in x.tok
  {
  }

  lemma RestCloses(D: seq<Cell>, m: nat)
    requires m < |D| && '{' in D[m].gap && '{' !in D[|D| - 1].gap && '}' in D[|D| - 1].gap
    ensures exists x :: x in D[m + 1..] && '}' in x.gap
    ensures forall x :: x in D[m + 1..] ==> x in D
  {
    assert D[m + 1..][|D| - m - 2] == D[|D| - 1];
  }

  /** Up to its closing brace it holds cells of that kind only. */
  lemma WrongBlock(c: Config, body: string) returns (post: string, ds: seq<Cell>)
    requires PlainText(c) && !TrimClear(c)
    ensures AllScope(ds) && QuoteFree(post)
    ensures var brace := Opened(UpToTrim(c, body), TRIM_KEY);
            brace.Some? && brace.value != "" && var k := MemChr(brace.value[1..], '}');
            k.Some? && k.value + 2 <= |brace.value| && brace.value[..k.value + 2] == "{" + post + Render(ds)
  {
    hide Opened, MemChr, Render, TrimClear, PlainText, UpToTrim, Quote, AllForm, AllScope;
    var rest, tail;
    post, rest := WrongOpen(c, body);
    tail := Quote(TRIM_KEY) + (": {" + body);
    PostClosesNot(post);
    ds := CutCells(post, rest, tail);
    Braced(post + (Render(rest) + tail), post, Render(ds));
  }

  lemma OpenEarlier(cs: seq<Cell>, a: nat, i: nat)
    requires a <= i < |cs| && !NoOpen(cs[i..])
    ensures !NoOpen(cs[a..])
  {
    assert forall x :: x in cs[i..] ==> x in cs[a..];
  }

  lemma TokensOpenNot(cs: seq<Cell>)
    requires forall x :: x in cs ==> BraceFree(x.tok)
    ensures forall x :: x in cs ==> '{' !in x.tok && '}' !in x.tok
  {
  }

  lemma PostClosesNot(post: string)
    requires post in {" ", "\n    "}
    ensures '}' !in post && QuoteFree(post)
  {
  }

  lemma FromCell(cs: seq<Cell>, a: nat, s: string)
    requires a < |cs|
    ensures "" + (Render(cs[a..]) + s) == Quote(cs[a].tok) + (cs[a].gap + (Render(cs[a + 1..]) + s))
  {
    var r := Render(cs[a + 1..]);
    assert cs[a..][0] == cs[a] && cs[a..][1..] == cs[a + 1..];
    Assoc(Quote(cs[a].tok), cs[a].gap, r);
    Assoc(Quote(cs[a].tok), cs[a].gap + r, s);
    Assoc(cs[a].gap, r, s);
    hide Quote, Render;
  }

  lemma Braced(x: string, post: string, r: string)
    requires MemChr(x, '}').Some? && x[..MemChr(x, '}').value + 1] == post + r
    ensures ("{" + x)[1..] == x && ("{" + x)[..MemChr(x, '}').value + 2] == "{" + post + r
  {
    var k := MemChr(x, '}').value;
    assert ("{" + x)[..k + 2] == "{" + x[..k + 1];
    hide MemChr;
    Assoc("{", post, r);
  }

  /** When the key is not clear, the lower trim of the first channel is not restored: it keeps
      whatever RAM held. */
  lemma TrimMisses(c: Config, body: string, o: RcTrim)
    requires PlainText(c) && !TrimClear(c) && |o.ch| == RC_CH_COUNT
    ensures ParseTrim(UpToTrim(c, body), o).ch[0].min == o.ch[0].min
  {
    hide PlainText, TrimClear, UpToTrim, StrStr, StrChr, MemChr, Render, TrimKey, GetInt;
    var post, ds := WrongBlock(c, body);
    TrimKeyForms(0);
    assert QuoteFree("{" + post);
    NoNumber("{" + post, ds, TrimKey(0));
  }

  // ---------------------------------------------------------------- reading the trim block

  lemma {:induction false} NoCloser(cs: seq<Cell>)
    requires forall x :: x in cs ==> '}' !in x.tok && '}' !in x.gap
    ensures '}' !in Render(cs)
  {
    if cs != [] {
      assert cs[0] in cs;
      NoCloser(cs[1..]);
    }
  }

  lemma TrimNoCloser(t: RcTrim)
    requires |t.ch| == RC_CH_COUNT
    ensures '}' !in Render(TrimCells(t))
  {
    hide TrimKey, TrimGap;
    var cs := TrimCells(t);
    forall x | x in cs ensures '}' !in x.tok && '}' !in x.gap {
      var j :| 0 <= j < 20 && cs[j] == x;
      TrimGapForms(t, j);
      TrimKeyNoCloser(j);
    }
    NoCloser(cs);
  }

  lemma TrimKeyNoCloser(k: nat)
    requires k < 20
    ensures '}' !in TrimKey(k)
  {
    hide DigitChar;
    assert k < 18 ==> '}' !in [DigitChar((k / 3 + 1) % 10)];
  }

  /** The text behind the opening of the trim block; z is what follows the block. */
  function TrimBody(t: RcTrim, z: string): string
    requires |t.ch| == RC_CH_COUNT
  { "\n    " + Render(TrimCells(t)) + "}" + z }

  lemma TextSplitsAtTrim(c: Config, z: string)
    requires |c.trim.ch| == RC_CH_COUNT
    ensures TrimText(c, RC_CH_COUNT + 1) + z == UpToTrim(c, TrimBody(c.trim, z))
    ensures TrimText(c, RC_CH_COUNT + 1) + z
         == BeforeTrim(c) + (",\n  " + (Quote(TRIM_KEY) + (": {" + TrimBody(c.trim, z))))
  {
    hide BeforeTrim, CellsBeforeTrim, TrimCells, Render, Quote, TrimText;
    TrimBlock(c);
    BeforeTrimIsCells(c);
    JoinTrim(BeforeTrim(c), Quote(TRIM_KEY), Render(TrimCells(c.trim)), "{\n  " + Render(CellsBeforeTrim(c)), z);
  }

  lemma JoinTrim(b: string, q: string, r: string, w: string, z: string)
    requires b + ",\n  " == w
    ensures b + (",\n  " + (q + ": {")) + ("\n    " + (r + "}")) + z == w + (q + (": {" + ("\n    " + r + "}" + z)))
    ensures b + (",\n  " + (q + ": {")) + ("\n    " + (r + "}")) + z
            == b + (",\n  " + (q + (": {" + ("\n    " + r + "}" + z))))
  {
    var body := "\n    " + r + "}" + z;
    assert b + (",\n  " + (q + ": {")) + ("\n    " + (r + "}")) + z == b + (",\n  " + (q + (": {" + body)));
    Assoc(b, ",\n  ", q + (": {" + body));
  }

  lemma FindsTrimScope(c: Config, z: string)
    requires PlainText(c) && TrimClear(c) && TrimInRange(c.trim) && |Dec2(c.trim.emaAlpha)| < 98
    ensures TrimScope(UpToTrim(c, TrimBody(c.trim, z))) == Some(Scope(c.trim))
  {
    hide TrimCells, Render, StrStr, StrChr, MemChr, Dec2, UpToTrim, PlainText, TrimClear;
    var body := TrimBody(c.trim, z);
    TrimOpens(c, body);
    var inner := "\n    " + Render(TrimCells(c.trim));
    TrimNoCloser(c.trim);
    assert body == inner + ['}'] + z;
    MemChrAfter(inner, '}', z);
    ScopeLength(c.trim);
    assert ("{" + body)[1..] == body && ("{" + body)[..|inner| + 2] == Scope(c.trim);
  }

  /** The trim settings are restored from every state of RAM exactly when the key is clear. */
  lemma TrimExactly(c: Config, z: string)
    requires PlainText(c) && TrimInRange(c.trim) && |Dec2(c.trim.emaAlpha)| < 98
    ensures (forall o: RcTrim :: |o.ch| == RC_CH_COUNT ==>
               ParseTrim(TrimText(c, RC_CH_COUNT + 1) + z, o) == c.trim.(emaAlpha := ToHundredths(c.trim.emaAlpha)))
       <==> TrimClear(c)
  {
    TextSplitsAtTrim(c, z);
    hide PlainText, TrimClear, UpToTrim, TrimText, TrimScope, ReadScope, Scope, Dec2, ToHundredths, TrimBody;
    var text := UpToTrim(c, TrimBody(c.trim, z));
    if TrimClear(c) {
      FindsTrimScope(c, z);
      forall o: RcTrim | |o.ch| == RC_CH_COUNT
        ensures ParseTrim(text, o) == c.trim.(emaAlpha := ToHundredths(c.trim.emaAlpha))
      {
        ReadsScope(c.trim, o);
      }
    } else {
      var o := OtherTrim(c.trim);
      TrimMisses(c, TrimBody(c.trim, z), o);
    }
  }

  function OtherTrim(t: RcTrim): (o: RcTrim)
    requires |t.ch| == RC_CH_COUNT
    ensures |o.ch| == RC_CH_COUNT && o.ch[0].min != t.ch[0].min && o.deadzone != t.deadzone
  { RcTrim(t.ch[0 := t.ch[0].(min := t.ch[0].min + 1)], t.deadzone + 1, t.emaAlpha) }

  /** A text cut before the block's closing brace restores no trim. */
  lemma CutTrimIsLost(c: Config)
    requires PlainText(c) && TrimInRange(c.trim)
    ensures var text := UpToTrim(c, "\n    " + Render(TrimCells(c.trim)));
            ParseTrim(text, OtherTrim(c.trim)) != c.trim.(emaAlpha := ToHundredths(c.trim.emaAlpha))
  {
    hide PlainText, TrimClear, UpToTrim, StrStr, StrChr, MemChr, Render, TrimCells, ToHundredths, ReadScope;
    var body, o := "\n    " + Render(TrimCells(c.trim)), OtherTrim(c.trim);
    if TrimClear(c) {
      TrimOpens(c, body);
      TrimNoCloser(c.trim);
      assert ("{" + body)[1..] == body && '}' !in body;
    } else {
      TrimMisses(c, body, o);
    }
  }
}
