// The channel table in the printed text: what the parser makes of the block
// that opens behind the first "channels", and exactly when it is the table.
module ConfigChannels {
  import opened Options
  import opened CStrings
  import opened JsonScan
  import opened ConfigText
  import opened ConfigHead
  import opened ConfigRoundTrip
  import opened ConfigSections

  const TABLE_KEY := "channels"

  // ---------------------------------------------------------------- a block without entries

  /** Behind its blanks the layout shows neither a brace nor a flag. */
  predicate Inert(g: string) { var v := SkipBlank(g); v == "" || v[0] !in {'{', 't', 'f'} }

  lemma {:induction false} SkipSuffix(g: string, r: string)
    requires r == "" || !IsBlank(r[0])
    ensures SkipBlank(g + r) == (if SkipBlank(g) != "" then SkipBlank(g) + r else r)
    ensures |SkipBlank(g)| <= |g| && g[|g| - |SkipBlank(g)|..] == SkipBlank(g)
  {
    if g == "" {
      assert g + r == r;
    } else if IsBlank(g[0]) {
      assert (g + r)[0] == g[0] && (g + r)[1..] == g[1..] + r;
      SkipSuffix(g[1..], r);
      var n := |g| - |SkipBlank(g)|;
      assert g[n..] == g[1..][n - 1..];
    } else {
      assert (g + r)[0] == g[0];
    }
  }

  lemma SkipsOn(rest: string, m: nat, name: string, used: nat)
    requires m <= |rest| && rest != "" && rest[0] !in {'{', 't', 'f'}
    ensures AfterName(rest, m, name, used) == Skip(used)
  {
  }

  lemma Window(a: string, x: string, b: string)
    ensures (a + x + b)[..|a| + |x|] == a + x && (a + x + b)[|a|..|a| + |x|] == x && (a + x + b)[|a|..] == x + b
  {
  }

  lemma FromName(w: string, tok: string, g: string, r: string, s: string)
    ensures w + (Quote(tok) + g + r + s) == w + ['"'] + (tok + ['"'] + (g + r)) + s
  {
    assert Quote(tok) == ['"'] + (tok + ['"']);
    var x := tok + ['"'];
    assert Quote(tok) + g + r + s == ['"'] + (x + (g + r)) + s;
    Assoc(w, ['"'] + (x + (g + r)), s);
    Assoc(w, ['"'], x + (g + r));
  }

  lemma FromGap(w: string, tok: string, g: string, r: string, s: string)
    ensures w + (Quote(tok) + g + r + s) == w + Quote(tok) + (g + r) + s
  {
    var q := Quote(tok);
    Assoc(q, g, r);
    Assoc(q, g + r, s);
    Assoc(w, q, g + r + s);
    Assoc(w + q, g + r, s);
    hide Quote;
  }

  /** The places of one cell's quotes in the text. */
  lemma CellPlaces(w: string, tok: string, g: string, r: string, s: string)
    requires QuoteFree(w) && QuoteFree(tok)
    ensures var t := w + (Quote(tok) + g + r + s);
            var n, p := |w| + |tok| + 2 + |g| + |r|, |w| + |tok| + 2;
            && n <= |t| && MemChr(t[..n], '"') == Some(|w|) && MemChr(t[|w| + 1..n], '"') == Some(|tok|)
            && t[p..n] == g + r && t[p..] == g + (r + s)
  {
    FromName(w, tok, g, r, s);
    FromGap(w, tok, g, r, s);
    var x := tok + ['"'] + (g + r);
    Window(w + ['"'], x, s);
    Window(w + Quote(tok), g + r, s);
    Assoc(g, r, s);
    MemChrAfter(w, '"', x);
    MemChrAfter(tok, '"', g + r);
    assert |w + ['"']| == |w| + 1 && |x| == |tok| + 1 + |g| + |r| && |w + Quote(tok)| == |w| + |tok| + 2;
    hide MemChr, Quote;
  }

  /** Where one turn over such a cell leads: just past the name, or past the blanks behind it. */
  lemma InertTurn(t: string, n: nat, q: nat, tok: string, g: string, r: string, s: string) returns (v: string)
    requires q + |tok| + 2 <= n <= |t| && MemChr(t[..n], '"') == Some(q) && MemChr(t[q + 1..n], '"') == Some(|tok|)
    requires t[q + |tok| + 2..n] == g + r && t[q + |tok| + 2..] == g + (r + s) && n == q + |tok| + 2 + |g| + |r|
    requires Inert(g) && QuoteFree(g) && (r == "" || r[0] == '"') && s != "" && s[0] == '}'
    ensures QuoteFree(v) && |v| <= |g| && NextTurn(t, n) == Skip(n - |v| - |r|) && t[n - |v| - |r|..] == v + (r + s)
  {
    hide NextTurn, MemChr, AfterName, SkipBlank;
    var p := q + |tok| + 2;
    if |tok| == 0 || |tok| >= CFG_CH_NAME_LEN {
      v := g;
      NameSkipped(t, n, q, |tok|);
    } else {
      var left;
      v, left := BehindName(g, r, s);
      hide Inert, QuoteFree;
      Tails(t, p, g, r + s, v);
      BlanksSkipped(t, n, q, |tok|, left);
    }
  }

  lemma BlanksSkipped(t: string, n: nat, q: nat, len: nat, left: string)
    requires q + len + 2 <= n <= |t| && MemChr(t[..n], '"') == Some(q) && MemChr(t[q + 1..n], '"') == Some(len)
    requires 0 < len < CFG_CH_NAME_LEN && SkipBlank(t[q + len + 2..n]) == left && |left| <= n
    requires var rest := t[n - |left|..]; rest != "" && rest[0] !in {'{', 't', 'f'}
    ensures NextTurn(t, n) == Skip(n - |left|)
  {
    hide NextTurn, MemChr, AfterName, SkipBlank;
    var b := n - |left|;
    TurnBy(t, n, q, len, left);
    SkipsOn(t[b..], n - b, t[q + 1..q + 1 + len], b);
  }

  lemma NameSkipped(t: string, n: nat, q: nat, len: nat)
    requires q + len + 2 <= n <= |t| && MemChr(t[..n], '"') == Some(q) && MemChr(t[q + 1..n], '"') == Some(len)
    requires len == 0 || len >= CFG_CH_NAME_LEN
    ensures NextTurn(t, n) == Skip(q + len + 2)
  {
    hide MemChr, AfterName, SkipBlank;
  }

  lemma BehindName(g: string, r: string, s: string) returns (v: string, left: string)
    requires Inert(g) && QuoteFree(g) && (r == "" || r[0] == '"') && s != "" && s[0] == '}'
    ensures |v| <= |g| && v == g[|g| - |v|..] && left == v + r && SkipBlank(g + r) == left && QuoteFree(v)
    ensures (v + (r + s))[0] !in {'{', 't', 'f'}
  {
    v := SkipBlank(g);
    left := v + r;
    SkipSuffix(g, r);
    assert "" + r == r;
    hide SkipBlank;
    SuffixQuoteFree(g, v);
    FirstBehind(v, r, s);
  }

  lemma SuffixQuoteFree(g: string, v: string)
    requires QuoteFree(g) && |v| <= |g| && v == g[|g| - |v|..]
    ensures QuoteFree(v)
  {
    assert forall c :: c in v ==> c in g;
  }

  lemma FirstBehind(v: string, r: string, s: string)
    requires v == "" || v[0] !in {'{', 't', 'f'}
    requires (r == "" || r[0] == '"') && s != "" && s[0] == '}'
    ensures (v + (r + s))[0] !in {'{', 't', 'f'}
  {
    if v != "" { assert (v + (r + s))[0] == v[0]; } else if r != "" { assert (v + (r + s))[0] == r[0]; }
  }

  lemma Tails(t: string, p: nat, g: string, y: string, v: string)
    requires p <= |t| && t[p..] == g + y && |v| <= |g| && v == g[|g| - |v|..]
    ensures t[|t| - |y| - |v|..] == v + y
  {
    var k := |g| - |v|;
    assert t[p..][k..] == t[p + k..];
    assert (g + y)[k..] == g[k..] + y;
  }

  lemma CellTurn(w: string, x: Cell, r: string, s: string) returns (v: string)
    requires QuoteFree(w) && QuoteFree(x.tok) && QuoteFree(x.gap) && Inert(x.gap)
    requires (r == "" || r[0] == '"') && s != "" && s[0] == '}'
    ensures var t, n := w + (Quote(x.tok) + x.gap + r + s), |w| + |x.tok| + 2 + |x.gap| + |r|;
            && QuoteFree(v) && |v| <= |x.gap| && n <= |t|
            && NextTurn(t, n) == Skip(n - |v| - |r|) && t[n - |v| - |r|..] == v + (r + s)
  {
    hide NextTurn, MemChr, Inert, Quote;
    CellPlaces(w, x.tok, x.gap, r, s);
    v := InertTurn(w + (Quote(x.tok) + x.gap + r + s), |w| + |x.tok| + 2 + |x.gap| + |r|, |w|, x.tok, x.gap, r, s);
  }

  /** A block of cells none of which carries an object or a flag yields no entry. */
  lemma {:induction false} ParsesNothing(w: string, cs: seq<Cell>, u: string, acc: seq<Channel>)
    requires QuoteFree(w) && Clean(cs) && forall x :: x in cs ==> Inert(x.gap)
    ensures |w| + |Render(cs)| <= |w + (Render(cs) + ("}" + u))|
    ensures ParseEntries(w + (Render(cs) + ("}" + u)), |w| + |Render(cs)|, acc) == acc
    decreases |cs|
  {
    hide NextTurn, Inert, QuoteFree;
    var t, n, s := w + (Render(cs) + ("}" + u)), |w| + |Render(cs)|, "}" + u;
    if cs == [] {
      assert t[..n] == w;
      NoMoreNames(t, n);
    } else {
      assert cs[0] in cs;
      RenderHead(cs[1..]);
      var v := CellTurn(w, cs[0], Render(cs[1..]), s);
      ParsesNothing(v, cs[1..], u, acc);
      hide Render, Quote;
    }
  }

  /** Such a block, brace-free inside, behind the first occurrence of the key empties the table. */
  lemma NoEntries(json: string, w: string, cs: seq<Cell>, u: string)
    requires QuoteFree(w) && Clean(cs) && (forall x :: x in cs ==> Inert(x.gap)) && BraceFree(w + Render(cs))
    requires Opened(json, TABLE_KEY) == Some("{" + (w + (Render(cs) + ("}" + u))))
    ensures ParseChannels(json) == []
  {
    hide StrStr, StrChr, FindEnd, ParseEntries, Render;
    var body := w + (Render(cs) + ("}" + u));
    assert ("{" + body)[1..] == body;
    Assoc(w, Render(cs), "}" + u);
    EndOverPlain(w + Render(cs), "}" + u, 1);
    assert FindEnd("}" + u, 1) == Some(0) by { ClosesAtOnce(u); }
    ParsesNothing(w, cs, u, []);
  }

  lemma ClosesAtOnce(u: string)
    ensures FindEnd("}" + u, 1) == Some(0)
  {
  }

  // ---------------------------------------------------------------- where the key is found

  lemma HeadWidens(c: Config)
    ensures HeadText(c) + ",\n  " == "{\n  " + Render(WideHead(c))
  {
    hide HeadCells;
    RenderExtend(HeadCells(c), ",\n  ");
    Assoc("{\n  ", Render(HeadCells(c)), ",\n  ");
  }

  lemma SectionOpens(h: string, q: string, e: string, u: string, w: string)
    requires h + ",\n  " == w
    ensures h + (",\n  " + (q + ": {")) + e + "\n  }" + u == w + (q + (": {" + (e + ("\n  }" + u))))
  {
    assert h + (",\n  " + (q + ": {")) + e + "\n  }" + u == h + (",\n  " + (q + (": {" + (e + ("\n  }" + u)))));
    Assoc(h, ",\n  ", q + (": {" + (e + ("\n  }" + u))));
  }

  /** The text with the head written as cells, and what follows them. */
  function HeadThen(c: Config, tail: string): string { "{\n  " + Render(WideHead(c)) + tail }

  /** The first head cell that spells the key; it is a value. */
  lemma FirstSpelling(c: Config)
    requires PlainHead(c)
    ensures var a := FirstAt(WideHead(c), TABLE_KEY);
            && |WideHead(c)| == HEAD_CELLS
            && (a < HEAD_CELLS ==> IsValue(a) && HeadTok(c, a) == TABLE_KEY)
            && (a < HEAD_CELLS ==> BracesHarmless(c) ==> forall j :: 0 <= j < HEAD_CELLS ==> BraceFree(WideHead(c)[j].tok))
            && (a < 14 <==> exists j :: 0 <= j < 14 && IsValue(j) && HeadTok(c, j) == TABLE_KEY)
  {
    hide WideHead, HeadTok, BraceFree;
    var w, a := WideHead(c), FirstAt(WideHead(c), TABLE_KEY);
    WideHeadForm(c);
    if a < HEAD_CELLS {
      assert w[a].tok == HeadTok(c, a);
      if !IsValue(a) { NoLabelIsSection(c, a); }
      if BracesHarmless(c) {
        forall j | 0 <= j < HEAD_CELLS ensures BraceFree(w[j].tok) {
          if !IsValue(j) { LabelBraces(c, j); }
        }
      }
    }
  }

  lemma LabelBraces(c: Config, j: nat)
    requires j < HEAD_CELLS && !IsValue(j)
    ensures BraceFree(HeadTok(c, j))
  {
    hide HeadTok;
    LabelForm(c, j);
  }

  lemma SpelledAt(c: Config, tail: string)
    requires PlainHead(c) && FirstAt(WideHead(c), TABLE_KEY) < |WideHead(c)|
    ensures var a, w := FirstAt(WideHead(c), TABLE_KEY), WideHead(c);
            StrStr(HeadThen(c, tail), Quote(TABLE_KEY)) == Some("" + (Render(w[a..]) + tail))
  {
    hide WideHead, StrStr, Render, AllForm, Quote;
    WideHeadForm(c);
    assert TABLE_KEY[0] == 'c';
    FormIsClean(WideHead(c), TABLE_KEY);
    FoundAt("{\n  ", WideHead(c), TABLE_KEY, tail);
    FromCell(WideHead(c), FirstAt(WideHead(c), TABLE_KEY), tail);
  }

  // A network string that spells the key: the block entered is the ROS block.

  function RosCells(c: Config): (cs: seq<Cell>)
    ensures cs != []
  {
    [Cell("node_name", ": "), Cell(c.ros.nodeName, ",\n    "), Cell("namespace", ": "), Cell(c.ros.ns, "\n  ")]
  }

  lemma RosBlock(c: Config)
    ensures |WideHead(c)| == HEAD_CELLS && Render(WideHead(c)[15..]) == Render(RosCells(c)) + "},\n  "
  {
    var cs, w := HeadCells(c), WideHead(c);
    assert w[15] == w[..18][15] == cs[15] && w[16] == w[..18][16] == cs[16] && w[17] == w[..18][17] == cs[17];
    assert w[15..] == [w[15], w[16], w[17], w[18]];
    assert w[18].gap == "\n  }" + ",\n  " == "\n  " + "},\n  ";
    assert w[15..] == Extend(RosCells(c), "},\n  ");
    RenderExtend(RosCells(c), "},\n  ");
  }

  lemma RosInert(c: Config)
    requires PlainHead(c)
    ensures Clean(RosCells(c)) && forall x :: x in RosCells(c) ==> Inert(x.gap)
  {
    assert IsValue(16) && IsValue(18);
    RosTokens(c);
    InertGaps();
    RosQuotes();
    assert QuoteFree(c.ros.nodeName) && QuoteFree(c.ros.ns);
    hide HeadTok, Inert, QuoteFree, PlainHead;
  }

  lemma RosQuotes()
    ensures QuoteFree(": ") && QuoteFree(",\n    ") && QuoteFree("\n  ") && QuoteFree("node_name") && QuoteFree("namespace")
  {
  }

  lemma InertGaps()
    ensures Inert(": ") && Inert(",\n    ") && Inert("\n  ")
  {
    SkipBlankOver(": ", "");
    SkipBlankOver("\n  ", "");
    assert ": " + "" == ": " && "\n  " + "" == "\n  ";
  }

  lemma {:induction false} RenderBraces(cs: seq<Cell>)
    requires forall x :: x in cs ==> BraceFree(x.tok) && BraceFree(x.gap)
    ensures BraceFree(Render(cs))
  {
    if cs != [] {
      assert cs[0] in cs;
      RenderBraces(cs[1..]);
    }
  }

  lemma RosBraces(c: Config)
    requires BraceFree(c.ros.nodeName) && BraceFree(c.ros.ns)
    ensures BraceFree("\n    " + Render(RosCells(c)))
  {
    var cs := RosCells(c);
    PlainGaps();
    assert cs[0].tok == "node_name" && cs[2].tok == "namespace";
    hide BraceFree;
    assert forall x :: x in cs ==> BraceFree(x.tok) && BraceFree(x.gap);
    RenderBraces(cs);
    hide Render, RosCells;
    BraceFreeCat("\n    ", Render(cs));
  }

  lemma PlainGaps()
    ensures BraceFree("\n    ") && BraceFree(": ") && BraceFree(",\n    ") && BraceFree("\n  ")
    ensures BraceFree("node_name") && BraceFree("namespace")
  {
  }

  lemma BraceFreeCat(a: string, b: string)
    requires BraceFree(a) && BraceFree(b)
    ensures BraceFree(a + b)
  {
  }

  /** With a network string that spells the key, the block entered is the ROS block. */
  lemma NetworkOpens(c: Config, tail: string)
    requires PlainHead(c) && BracesHarmless(c) && FirstAt(WideHead(c), TABLE_KEY) < 14
    ensures |WideHead(c)| == HEAD_CELLS
    ensures Opened(HeadThen(c, tail), TABLE_KEY) == Some("{" + ("\n    " + (Render(WideHead(c)[15..]) + tail)))
  {
    hide WideHead, StrStr, StrChr, Render, HeadThen, CellForm, BraceFree, BracesHarmless, PlainHead, Quote;
    var w, a := WideHead(c), FirstAt(WideHead(c), TABLE_KEY);
    WideHeadForm(c);
    FirstSpelling(c);
    SpelledAt(c, tail);
    var D := w[a..];
    assert D[14 - a] == w[14] && w[14] in D;
    forall x | x in D ensures BraceFree(x.tok) && CellForm(x) {
      var j :| a <= j < |w| && w[j] == x;
    }
    TokensOpenNot(D);
    var m, post := NextOpen("", D, tail);
    OnlyRosOpens(c, a, m);
    assert D[m + 1..] == w[15..] && D[m] == w[14];
    RosGap(c);
    RosPost(post);
  }

  lemma RosGap(c: Config)
    ensures |WideHead(c)| == HEAD_CELLS && WideHead(c)[14].gap == ": {\n    "
  {
    assert WideHead(c)[14] == WideHead(c)[..18][14] == HeadCells(c)[14];
  }

  lemma RosTokens(c: Config)
    ensures HeadTok(c, 16) == c.ros.nodeName && HeadTok(c, 18) == c.ros.ns
  {
  }

  /** A network string that spells the key empties the table. */
  lemma NetworkShadow(c: Config, tail: string)
    requires PlainHead(c) && BracesHarmless(c) && FirstAt(WideHead(c), TABLE_KEY) < 14
    ensures ParseChannels(HeadThen(c, tail)) == []
  {
    NetworkOpens(c, tail);
    FirstSpelling(c);
    RosBlock(c);
    RosInert(c);
    WideHeadForm(c);
    RosTokens(c);
    hide WideHead, Opened, Render, HeadThen, ParseChannels, Inert, CellForm, BracesHarmless, PlainHead, RosCells, HeadTok;
    RosBraces(c);
    Regrouped(Render(RosCells(c)), tail);
    NoEntries(HeadThen(c, tail), "\n    ", RosCells(c), ",\n  " + tail);
  }

  lemma OnlyRosOpens(c: Config, a: nat, m: nat)
    requires PlainHead(c) && IsValue(a) && a < 14 && |WideHead(c)| == HEAD_CELLS && m < |WideHead(c)[a..]|
    requires '{' in WideHead(c)[a..][m].gap
    ensures a + m == 14
  {
    WideHeadForm(c);
    assert WideHead(c)[a..][m] == WideHead(c)[a + m];
    hide WideHead;
  }

  lemma RosPost(post: string)
    requires ": {" + post == ": {\n    "
    ensures post == "\n    "
  {
    assert (": {" + post)[3..] == post && ": {\n    "[3..] == "\n    ";
  }

  lemma Regrouped(r: string, tail: string)
    ensures r + "},\n  " + tail == r + ("}" + (",\n  " + tail))
  {
    assert "},\n  " == "}" + ",\n  ";
    Assoc(r, "}" + ",\n  ", tail);
    Assoc("}", ",\n  ", tail);
  }

  // Otherwise the first block behind the key is the one printed next.

  /** Without a network string that spells the key, the next section's own block is entered. */
  lemma SectionBehind(c: Config, key: string, body: string)
    requires PlainHead(c) && BracesHarmless(c) && 14 <= FirstAt(WideHead(c), TABLE_KEY) && '{' !in key
    requires FirstAt(WideHead(c), TABLE_KEY) < HEAD_CELLS || key == TABLE_KEY
    ensures Opened(HeadThen(c, Quote(key) + (": {" + body)), TABLE_KEY) == Some("{" + body)
  {
    hide WideHead, StrStr, StrChr, Render, HeadThen, AllForm, BraceFree, BracesHarmless, PlainHead, Quote;
    var w, a, tail := WideHead(c), FirstAt(WideHead(c), TABLE_KEY), Quote(key) + (": {" + body);
    FirstSpelling(c);
    WideHeadForm(c);
    if a < HEAD_CELLS {
      SpelledAt(c, tail);
      var D := w[a..];
      forall x | x in D ensures BraceFree(x.tok) && '{' !in x.gap {
        var j :| a <= j < |w| && w[j] == x;
      }
      TokensOpenNot(D);
      RenderNoOpen(D);
      OpensBehind("" + Render(D), key, body);
      Assoc("", Render(D), tail);
    } else {
      KeyOwn(c, body);
      OpensBehind("", TABLE_KEY, body);
      assert "" + tail == tail;
    }
  }

  lemma KeyOwn(c: Config, body: string)
    requires PlainHead(c) && FirstAt(WideHead(c), TABLE_KEY) == |WideHead(c)|
    ensures var tail := Quote(TABLE_KEY) + (": {" + body); StrStr(HeadThen(c, tail), Quote(TABLE_KEY)) == Some(tail)
  {
    hide WideHead, StrStr, Render, AllForm, Quote;
    WideHeadForm(c);
    assert TABLE_KEY[0] == 'c' && QuoteFree(TABLE_KEY);
    FormIsClean(WideHead(c), TABLE_KEY);
    Finds("{\n  ", WideHead(c), TABLE_KEY, ": {" + body);
  }

  /** The printed table behind its brace is parsed back. */
  lemma TableParsed(json: string, chs: seq<Channel>, u: string)
    requires PlainChannels(chs) && chs != [] && |chs| <= CFG_MAX_CHANNELS
    requires Opened(json, TABLE_KEY) == Some("{" + (EntriesText(chs, true) + ("\n  }" + u)))
    ensures ParseChannels(json) == chs
  {
    hide EntriesText, StrStr, StrChr, FindEnd, ParseEntries, PlainChannels;
    var body := EntriesText(chs, true) + ("\n  }" + u);
    assert ("{" + body)[1..] == body;
    SectionEnd(chs, true, u);
    ParsePrinted(chs, true, [], u);
    assert [] + chs == chs;
  }

  lemma TrimInert(t: RcTrim)
    requires |t.ch| == RC_CH_COUNT
    ensures Clean(TrimCells(t)) && (forall x :: x in TrimCells(t) ==> Inert(x.gap))
    ensures BraceFree("\n    " + Render(TrimCells(t)))
  {
    hide TrimKey, TrimGap, Inert, BraceFree;
    var cs := TrimCells(t);
    TrimCellsClean(t);
    forall x | x in cs ensures Inert(x.gap) && BraceFree(x.tok) && BraceFree(x.gap) {
      var k :| 0 <= k < 20 && cs[k] == x;
      TrimGapInert(t, k);
      TrimKeyBraces(k);
    }
    RenderBraces(cs);
    BraceFreeBehind(Render(cs));
    hide Render, TrimCells;
  }

  lemma BraceFreeBehind(r: string)
    requires BraceFree(r)
    ensures BraceFree("\n    " + r)
  {
  }

  lemma TrimKeyBraces(k: nat)
    requires k < 20
    ensures BraceFree(TrimKey(k))
  {
    hide DigitChar;
    assert k < 18 ==> BraceFree([DigitChar((k / 3 + 1) % 10)]);
  }

  lemma TrimGapInert(t: RcTrim, k: nat)
    requires |t.ch| == RC_CH_COUNT && k < 20
    ensures Inert(TrimGap(t, k)) && BraceFree(TrimGap(t, k))
  {
    hide Dec, Dec2, TrimNum;
    var v := TrimGap(t, k)[2..];
    assert TrimGap(t, k) == ": " + v && v != "" && !IsBlank(v[0]) && v[0] !in {'{', 't', 'f'} by {
      if k < 19 { assert Dec(TrimNum(t, k))[0] in Dec(TrimNum(t, k)); }
    }
    SkipBlankOver(": ", v);
  }

  /** Without channels the text parses to none, whatever the strings are. */
  lemma NoTable(c: Config, z: string)
    requires PlainHead(c) && BracesHarmless(c) && |c.trim.ch| == RC_CH_COUNT && QuoteFree(z)
    ensures ParseChannels(HeadThen(c, Quote(TRIM_KEY) + (": {" + TrimBody(c.trim, z)))) == []
  {
    hide WideHead, HeadThen, ParseChannels, TrimCells, Render, Opened, BracesHarmless, PlainHead, TrimBody, Inert;
    var tail := Quote(TRIM_KEY) + (": {" + TrimBody(c.trim, z));
    FirstSpelling(c);
    if FirstAt(WideHead(c), TABLE_KEY) < 14 {
      NetworkShadow(c, tail);
    } else if FirstAt(WideHead(c), TABLE_KEY) < HEAD_CELLS {
      assert '{' !in TRIM_KEY;
      SectionBehind(c, TRIM_KEY, TrimBody(c.trim, z));
      TrimInert(c.trim);
      TrimBodyParts(c.trim, z);
      NoEntries(HeadThen(c, tail), "\n    ", TrimCells(c.trim), z);
    } else {
      NoTableKey(c, z);
      NoKeyNoTable(HeadThen(c, tail));
    }
  }

  lemma TrimBodyParts(t: RcTrim, z: string)
    requires |t.ch| == RC_CH_COUNT
    ensures TrimBody(t, z) == "\n    " + (Render(TrimCells(t)) + ("}" + z))
  {
    hide Render, TrimCells;
    var r := Render(TrimCells(t));
    Assoc("\n    ", r, "}" + z);
    Assoc("\n    " + r, "}", z);
  }

  lemma NoKeyNoTable(json: string)
    requires StrStr(json, Quote(TABLE_KEY)) == None
    ensures ParseChannels(json) == []
  {
    hide StrStr;
  }

  /** Without channels and without a string that spells it, the key is nowhere in the text. */
  lemma NoTableKey(c: Config, z: string)
    requires PlainHead(c) && |c.trim.ch| == RC_CH_COUNT && QuoteFree(z) && FirstAt(WideHead(c), TABLE_KEY) == |WideHead(c)|
    ensures StrStr(HeadThen(c, Quote(TRIM_KEY) + (": {" + TrimBody(c.trim, z))), Quote(TABLE_KEY)) == None
  {
    hide WideHead, TrimCells, Render, StrStr, Extend, AllForm;
    WideHeadForm(c);
    assert TABLE_KEY[0] == 'c';
    FormIsClean(WideHead(c), TABLE_KEY);
    var trim := Extend(TrimCells(c.trim), "}" + z);
    var open := [Cell(TRIM_KEY, ": {\n    ")];
    RenderExtend(TrimCells(c.trim), "}" + z);
    RenderCat(WideHead(c), open + trim);
    RenderCat(open, trim);
    Render1(open[0]);
    JoinAll(Render(WideHead(c)), Quote(TRIM_KEY), Render(TrimCells(c.trim)), z);
    TrimAvoidsTable(c.trim, z);
    assert TRIM_KEY != TABLE_KEY && ": {\n    " != TABLE_KEY by { assert |TRIM_KEY| == 7 && ": {\n    "[0] == ':'; }
    forall x | x in WideHead(c) ensures x.tok != TABLE_KEY {
      var j :| 0 <= j < |WideHead(c)| && WideHead(c)[j] == x;
    }
    assert QuoteFree(TRIM_KEY) && QuoteFree(": {\n    ") && QuoteFree(TABLE_KEY);
    FindsNothing("{\n  ", WideHead(c) + (open + trim), TABLE_KEY);
  }

  lemma JoinAll(w: string, q: string, r: string, z: string)
    ensures "{\n  " + w + (q + (": {" + ("\n    " + r + "}" + z))) == "{\n  " + (w + (q + ": {\n    " + (r + ("}" + z))))
  {
    assert ": {" + ("\n    " + r + "}" + z) == ": {\n    " + (r + ("}" + z));
    Assoc("{\n  ", w, q + (": {\n    " + (r + ("}" + z))));
    Assoc(q, ": {\n    ", r + ("}" + z));
  }

  lemma TrimAvoidsTable(t: RcTrim, z: string)
    requires |t.ch| == RC_CH_COUNT && QuoteFree(z)
    ensures var cs := Extend(TrimCells(t), "}" + z); Clean(cs) && Avoids(cs, TABLE_KEY)
  {
    hide TrimKey, TrimGap;
    var cs, w := TrimCells(t), Extend(TrimCells(t), "}" + z);
    forall x | x in w
      ensures QuoteFree(x.tok) && QuoteFree(x.gap) && x.tok != TABLE_KEY && x.gap != TABLE_KEY
    {
      var j :| 0 <= j < 20 && w[j] == x;
      assert j < 19 ==> w[j] == w[..19][j] == cs[j];
      TrimKeyForms(j);
      TrimGapForms(t, j);
      assert x.tok == TrimKey(j) && x.gap[0] == ':';
      assert TABLE_KEY[0] == 'c' && TABLE_KEY[5] == 'e' && TABLE_KEY[2] == 'a';
    }
  }

  // ---------------------------------------------------------------- exactly when the table is restored

  /** The first block behind "channels" is the table: there is none, or no network string spells
      the key. (A ROS name that spells it does no harm.) */
  predicate TableClear(c: Config)
  { c.channels == [] || forall j :: 0 <= j < 14 && IsValue(j) ==> HeadTok(c, j) != TABLE_KEY }

  lemma HeadThenTrim(c: Config, z: string)
    requires |c.trim.ch| == RC_CH_COUNT && c.channels == []
    ensures TrimText(c, RC_CH_COUNT + 1) + z == HeadThen(c, Quote(TRIM_KEY) + (": {" + TrimBody(c.trim, z)))
  {
    TextSplitsAtTrim(c, z);
    hide WideHead, Render, TrimBody, TrimText, Quote;
  }

  lemma HeadThenTable(c: Config, u: string)
    requires c.channels != []
    ensures BeforeTrim(c) + u
         == HeadThen(c, Quote(TABLE_KEY) + (": {" + (EntriesText(c.channels, true) + ("\n  }" + u))))
  {
    hide HeadText, WideHead, EntriesText, Render, Quote;
    EntriesAreChannels(c, 0);
    assert c.channels[0..] == c.channels;
    HeadWidens(c);
    SectionOpens(HeadText(c), Quote(TABLE_KEY), EntriesText(c.channels, true), u, "{\n  " + Render(WideHead(c)));
  }

  /** The channel table is restored exactly when its key is clear. */
  lemma TableExactly(c: Config, z: string)
    requires PlainText(c) && |c.channels| <= CFG_MAX_CHANNELS && |c.trim.ch| == RC_CH_COUNT && QuoteFree(z)
    ensures ParseChannels(TrimText(c, RC_CH_COUNT + 1) + z) == c.channels <==> TableClear(c)
  {
    hide WideHead, HeadThen, ParseChannels, TrimText, BeforeTrim, TrimBody, EntriesText, Opened;
    hide BracesHarmless, PlainHead, HeadTok;
    if c.channels == [] {
      HeadThenTrim(c, z);
      NoTable(c, z);
    } else {
      TextSplitsAtTrim(c, z);
      var u := ",\n  " + (Quote(TRIM_KEY) + (": {" + TrimBody(c.trim, z)));
      HeadThenTable(c, u);
      FirstSpelling(c);
      var body := EntriesText(c.channels, true) + ("\n  }" + u);
      if FirstAt(WideHead(c), TABLE_KEY) < 14 {
        NetworkShadow(c, Quote(TABLE_KEY) + (": {" + body));
      } else {
        assert '{' !in TABLE_KEY;
        SectionBehind(c, TABLE_KEY, body);
        TableParsed(BeforeTrim(c) + u, c.channels, u);
      }
    }
  }
}
