// Channel parameters in /lfs/ch_params.json: printing, cached loading, and the
// parameter server's bulk save and restore.
module ChannelParams {
  import opened Options
  import opened Errno
  import opened CStrings
  import opened JsonScan

  const CH_PARAMS_BUF := 2048
  const LOAD_KEY_CAP := 67        // char key[CFG_STR_LEN + 20], one for the NUL

  datatype Params = Params(periodMs: nat, enabled: bool, invert: bool)

  datatype Entry = Entry(name: string, params: Params)

  // ---------------------------------------------------------------- printed text

  function PeriodKey(name: string): string { "ch." + name + ".period_ms" }
  function EnabledKey(name: string): string { "ch." + name + ".enabled" }
  function InvertKey(name: string): string { "ch." + name + ".invert" }

  /** `  "key": value` and what follows on the line. */
  function Line(key: string, value: string, tail: string): string
  { "  " + Quote(key) + ": " + value + tail }

  function EntryText(e: Entry, comma: string): string
  {
    Line(PeriodKey(e.name), Dec(e.params.periodMs), ",\n")
    + Line(EnabledKey(e.name), BoolText(e.params.enabled), ",\n")
    + Line(InvertKey(e.name), BoolText(e.params.invert), comma + "\n")
  }

  /** The text after the opening brace and the first i entries. */
  function Printed(es: seq<Entry>, i: nat): (s: string)
    requires i <= |es|
  {
    if i == 0 then "{\n" else Printed(es, i - 1) + EntryText(es[i - 1], if i < |es| then "," else "")
  }

  function OpenText(es: seq<Entry>): string { Printed(es, |es|) }

  /** What a successful save leaves in the file. */
  function FileText(es: seq<Entry>): string { Clip(OpenText(es) + "}\n", CH_PARAMS_BUF - 1) }

  predicate Fits(es: seq<Entry>) { |OpenText(es)| < CH_PARAMS_BUF - 1 }

  // ---------------------------------------------------------------- extraction

  function ExtractPeriod(text: string, name: string, dflt: nat): (r: nat)
  {
    match GetInt(text, Clip(PeriodKey(name), LOAD_KEY_CAP))
    case IntIs(v) => if v > 0 then v else dflt
    case NoInt(_) => dflt
  }

  function ExtractBool(text: string, key: string, dflt: bool): bool
  {
    match GetBool(text, Clip(key, LOAD_KEY_CAP))
    case BoolIs(b) => b
    case NoBool(_) => dflt
  }

  /** A fresh, uncached parse of one channel's parameters; missing keys keep the defaults. */
  function Extract(text: string, name: string, dflt: Params): Params
  {
    Params(ExtractPeriod(text, name, dflt.periodMs),
           ExtractBool(text, EnabledKey(name), dflt.enabled),
           ExtractBool(text, InvertKey(name), dflt.invert))
  }

  // ---------------------------------------------------------------- the file and its cache

  class ParamStore {
    var file: Option<string>          // contents on flash
    const cache: array<char>          // ch_params_buf
    const wbuf: array<char>
    var loaded: bool                  // ch_params_loaded

    /** Whenever the loaded flag is set the cached text is the file's. */
    ghost predicate Valid()
      reads this, cache
    {
      && cache.Length == wbuf.Length == CH_PARAMS_BUF && cache != wbuf
      && (loaded ==> file.Some? && CStr(cache[..]) == Visible(file.value, CH_PARAMS_BUF))
    }

    constructor ()
      ensures Valid() && !loaded && file == None && fresh(cache) && fresh(wbuf)
    {
      cache := new char[CH_PARAMS_BUF];
      wbuf := new char[CH_PARAMS_BUF];
      file, loaded := None, false;
    }

    /** channel_params_save.  openRc and writeRc are the file system's answers: a write
        replaces the whole file or fails and leaves it; opening creates a missing file. */
    method Save(entries: seq<Entry>, openRc: int, writeRc: int) returns (rc: int)
      requires Valid()
      requires forall e :: e in entries ==> NoNul(e.name)
      modifies this, wbuf
      ensures Valid()
      ensures rc == 0 <==> entries != [] && Fits(entries) && openRc >= 0 && writeRc >= 0
      ensures rc == 0 ==> file == Some(FileText(entries)) && !loaded
      ensures entries == [] ==> rc == EINVAL
      ensures entries != [] && !Fits(entries) ==> rc == ENOMEM
      ensures rc != 0 ==> loaded == old(loaded)
                          && (file == old(file) || (old(file) == None && file == Some("")))
    {
      if entries == [] { return EINVAL; }
      var fits, pos := Print(entries);
      if !fits { return ENOMEM; }
      pos := Snprintf(wbuf, pos, OpenText(entries), "}\n");
      if openRc < 0 { return openRc; }
      if file == None { file := Some(""); }
      if writeRc < 0 { return writeRc; }
      FileTextNoNul(entries);
      HoldsCStr(wbuf[..], FileText(entries));
      file := Some(CStr(wbuf[..]));
      loaded := false;
      rc := 0;
    }

    /** The printing loop of channel_params_save, with its overflow check after every entry. */
    method Print(entries: seq<Entry>) returns (fits: bool, pos: nat)
      requires Valid() && entries != []
      modifies wbuf
      ensures Valid()
      ensures fits <==> Fits(entries)
      ensures fits ==> pos == |OpenText(entries)| && Holds(wbuf[..], Clip(OpenText(entries), CH_PARAMS_BUF - 1))
    {
      pos := PrintOpen(entries);
      var i := 0;
      while i < |entries|
        invariant i <= |entries| && pos == |Printed(entries, i)| < CH_PARAMS_BUF - 1
        invariant Holds(wbuf[..], Clip(Printed(entries, i), CH_PARAMS_BUF - 1))
        invariant Valid()
      {
        pos := PrintEntry(entries, i, pos);
        PrintedGrows(entries, i + 1, |entries|);
        if pos >= CH_PARAMS_BUF - 1 { return false, pos; }
        i := i + 1;
      }
      fits := true;
    }

    method PrintOpen(ghost entries: seq<Entry>) returns (pos: nat)
      requires Valid()
      modifies wbuf
      ensures Valid() && pos == |Printed(entries, 0)| == 2
      ensures Holds(wbuf[..], Clip(Printed(entries, 0), CH_PARAMS_BUF - 1))
    {
      pos := Snprintf(wbuf, 0, "", "{\n");
      assert "" + "{\n" == Printed(entries, 0);
    }

    method PrintEntry(entries: seq<Entry>, i: nat, pos: nat) returns (next: nat)
      requires Valid() && i < |entries| && pos == |Printed(entries, i)| < CH_PARAMS_BUF
      requires Holds(wbuf[..], Clip(Printed(entries, i), CH_PARAMS_BUF - 1))
      modifies wbuf
      ensures Valid() && next == |Printed(entries, i + 1)|
      ensures Holds(wbuf[..], Clip(Printed(entries, i + 1), CH_PARAMS_BUF - 1))
    {
      var comma := if i < |entries| - 1 then "," else "";
      next := Snprintf(wbuf, pos, Printed(entries, i), EntryText(entries[i], comma));
    }

    /** channel_params_load: whatever the cache holds, the answer is that of a fresh parse. */
    method Load(name: string, dflt: Params, openRc: int, readRc: int, junk: string)
      returns (rc: int, out: Params)
      requires Valid()
      modifies this`loaded, cache
      ensures Valid()
      ensures rc == 0 ==> loaded && file.Some? && out == Extract(Visible(file.value, CH_PARAMS_BUF), name, dflt)
      ensures rc != 0 ==> out == dflt && !loaded
      ensures rc == 0 <==> old(loaded) || (file.Some? && openRc >= 0 && readRc >= 0)
      ensures file == None ==> rc == ENOENT
      ensures rc == ENOENT && file.Some? ==> openRc == ENOENT || readRc == ENOENT
    {
      out := dflt;
      if !loaded {
        if file == None { return ENOENT, out; }
        if openRc < 0 { return openRc, out; }
        if readRc < 0 {
          var _ := FillFrom(cache, junk);
          return readRc, out;
        }
        var _ := FillFrom(cache, file.value);
        CacheText(cache[..], Clip(file.value, CH_PARAMS_BUF - 1));
        loaded := true;
      }
      var text := CStr(cache[..]);
      var r, ival := JsonGetInt(text, Clip(PeriodKey(name), LOAD_KEY_CAP), 0);
      var period := if r == 0 && ival > 0 then ival else dflt.periodMs;
      var _, enabled := JsonGetBool(text, Clip(EnabledKey(name), LOAD_KEY_CAP), dflt.enabled);
      var _, invert := JsonGetBool(text, Clip(InvertKey(name), LOAD_KEY_CAP), dflt.invert);
      out := Params(period, enabled, invert);
      rc := 0;
      GetIntRc(text, Clip(PeriodKey(name), LOAD_KEY_CAP));
    }
  }

  lemma {:induction false} PrintedGrows(es: seq<Entry>, i: nat, j: nat)
    requires i <= j <= |es|
    ensures |Printed(es, i)| <= |Printed(es, j)|
  {
    hide EntryText;
    if i < j { PrintedGrows(es, i, j - 1); }
  }

  lemma LineNoNul(key: string, value: string, tail: string)
    requires NoNul(key) && NoNul(value) && NoNul(tail)
    ensures NoNul(Line(key, value, tail))
  {
  }

  lemma EntryNoNul(e: Entry, comma: string)
    requires NoNul(e.name) && NoNul(comma)
    ensures NoNul(EntryText(e, comma))
  {
    LineNoNul(PeriodKey(e.name), Dec(e.params.periodMs), ",\n");
    LineNoNul(EnabledKey(e.name), BoolText(e.params.enabled), ",\n");
    LineNoNul(InvertKey(e.name), BoolText(e.params.invert), comma + "\n");
  }

  lemma {:induction false} PrintedNoNul(es: seq<Entry>, i: nat)
    requires i <= |es| && forall e :: e in es ==> NoNul(e.name)
    ensures NoNul(Printed(es, i))
  {
    hide EntryText;
    if i > 0 {
      PrintedNoNul(es, i - 1);
      EntryNoNul(es[i - 1], if i < |es| then "," else "");
    }
  }

  lemma FileTextNoNul(es: seq<Entry>)
    requires forall e :: e in es ==> NoNul(e.name)
    ensures NoNul(FileText(es))
  {
    PrintedNoNul(es, |es|);
  }

  // ---------------------------------------------------------------- round trip

  /** The text behind a key: its value and the layout up to the next quote. */
  function GapAt(es: seq<Entry>, k: nat, nxt: string): string
    requires k < 3 * |es|
  {
    var q := es[k / 3].params;
    if k % 3 == 0 then ": " + (Dec(q.periodMs) + ",\n  ")
    else if k % 3 == 1 then ": " + (BoolText(q.enabled) + ",\n  ")
    else ": " + (BoolText(q.invert) + (if k / 3 < |es| - 1 then ",\n  " else "\n" + nxt))
  }

  function KeyAt(es: seq<Entry>, k: nat): string
    requires k < 3 * |es|
  {
    var n := es[k / 3].name;
    if k % 3 == 0 then PeriodKey(n) else if k % 3 == 1 then EnabledKey(n) else InvertKey(n)
  }

  function CellsOf(es: seq<Entry>, nxt: string): (cs: seq<Cell>)
    ensures |cs| == 3 * |es|
  { seq(3 * |es|, k requires 0 <= k < 3 * |es| => Cell(KeyAt(es, k), GapAt(es, k, nxt))) }

  lemma LineIsCell(key: string, value: string, tail: string, nxt: string)
    ensures Line(key, value, tail) + nxt == "  " + (Quote(key) + (": " + (value + (tail + nxt))))
  {
  }

  lemma RenderSnoc(cs: seq<Cell>, k: nat)
    requires k < |cs|
    ensures Render(cs[..k + 1]) == Render(cs[..k]) + (Quote(cs[k].tok) + cs[k].gap)
  {
    assert cs[..k + 1] == cs[..k] + [cs[k]];
    RenderCat(cs[..k], [cs[k]]);
    assert Render([cs[k]]) == Quote(cs[k].tok) + cs[k].gap + "";
  }

  /** One more line printed is one more cell. */
  lemma LineStep(cs: seq<Cell>, k: nat, p: string, t: string, value: string, tail: string, nxt: string)
    requires k < |cs| && t + "  " == p + Render(cs[..k])
    requires cs[k].gap == ": " + (value + (tail + nxt))
    ensures t + Line(cs[k].tok, value, tail) + nxt == p + Render(cs[..k + 1])
  {
    RenderSnoc(cs, k);
    LineIsCell(cs[k].tok, value, tail, nxt);
    var c := Quote(cs[k].tok) + cs[k].gap;
    assert t + Line(cs[k].tok, value, tail) + nxt == t + (Line(cs[k].tok, value, tail) + nxt);
    assert t + ("  " + c) == t + "  " + c;
    assert p + Render(cs[..k]) + c == p + (Render(cs[..k]) + c);
  }

  /** The layout behind the first i entries, up to the next quote or the end. */
  function Behind(es: seq<Entry>, i: nat, nxt: string): string
  { if i < |es| then "  " else nxt }

  lemma {:induction false} PrintedIsCells(es: seq<Entry>, i: nat, nxt: string)
    requires i <= |es| && es != []
    ensures Printed(es, i) + Behind(es, i, nxt) == "{\n  " + Render(CellsOf(es, nxt)[..3 * i])
  {
    hide EntryText;
    if i == 0 {
      assert CellsOf(es, nxt)[..0] == [];
      assert "{\n" + "  " == "{\n  " + "";
    } else {
      PrintedIsCells(es, i - 1, nxt);
      EntryStep(es, i - 1, nxt, "{\n  ", Printed(es, i - 1));
    }
  }

  lemma EntryStep(es: seq<Entry>, j: nat, nxt: string, p: string, t: string)
    requires j < |es| && t + "  " == p + Render(CellsOf(es, nxt)[..3 * j])
    ensures t + EntryText(es[j], if j + 1 < |es| then "," else "") + Behind(es, j + 1, nxt)
            == p + Render(CellsOf(es, nxt)[..3 * (j + 1)])
  {
    var e := es[j];
    CellForms(es, j, nxt);
    ThreeLines(CellsOf(es, nxt), 3 * j, p, t, Dec(e.params.periodMs), BoolText(e.params.enabled),
               BoolText(e.params.invert), (if j + 1 < |es| then "," else "") + "\n", Behind(es, j + 1, nxt));
  }

  lemma ThreeLines(cs: seq<Cell>, k: nat, p: string, t: string,
                   v1: string, v2: string, v3: string, tail: string, nxt: string)
    requires k + 2 < |cs| && t + "  " == p + Render(cs[..k])
    requires cs[k].gap == ": " + (v1 + (",\n" + "  ")) && cs[k + 1].gap == ": " + (v2 + (",\n" + "  "))
    requires cs[k + 2].gap == ": " + (v3 + (tail + nxt))
    ensures t + (Line(cs[k].tok, v1, ",\n") + Line(cs[k + 1].tok, v2, ",\n") + Line(cs[k + 2].tok, v3, tail)) + nxt
            == p + Render(cs[..k + 3])
  {
    var l1, l2, l3 := Line(cs[k].tok, v1, ",\n"), Line(cs[k + 1].tok, v2, ",\n"), Line(cs[k + 2].tok, v3, tail);
    LineStep(cs, k, p, t, v1, ",\n", "  ");
    LineStep(cs, k + 1, p, t + l1, v2, ",\n", "  ");
    LineStep(cs, k + 2, p, t + l1 + l2, v3, tail, nxt);
    Assoc(t, l1 + l2, l3);
    Assoc(t, l1, l2);
  }

  lemma CellForms(es: seq<Entry>, j: nat, nxt: string)
    requires j < |es|
    ensures var cs, e := CellsOf(es, nxt), es[j];
            var comma, last := if j + 1 < |es| then "," else "", Behind(es, j + 1, nxt);
            && cs[3 * j] == Cell(PeriodKey(e.name), ": " + (Dec(e.params.periodMs) + (",\n" + "  ")))
            && cs[3 * j + 1] == Cell(EnabledKey(e.name), ": " + (BoolText(e.params.enabled) + (",\n" + "  ")))
            && cs[3 * j + 2] == Cell(InvertKey(e.name), ": " + (BoolText(e.params.invert) + (comma + "\n" + last)))
  {
    hide CellsOf, KeyAt, GapAt, PeriodKey, EnabledKey, InvertKey, Dec, BoolText;
    CellIs(es, 3 * j, nxt);
    CellIs(es, 3 * j + 1, nxt);
    CellIs(es, 3 * j + 2, nxt);
    PeriodCell(es, j, nxt);
    EnabledCell(es, j, nxt);
    InvertCell(es, j, nxt);
  }

  lemma CellIs(es: seq<Entry>, k: nat, nxt: string)
    requires k < 3 * |es|
    ensures CellsOf(es, nxt)[k] == Cell(KeyAt(es, k), GapAt(es, k, nxt))
  {
  }

  lemma PeriodCell(es: seq<Entry>, j: nat, nxt: string)
    requires j < |es|
    ensures KeyAt(es, 3 * j) == PeriodKey(es[j].name)
    ensures GapAt(es, 3 * j, nxt) == ": " + (Dec(es[j].params.periodMs) + (",\n" + "  "))
  {
    hide PeriodKey, Dec;
    assert 3 * j / 3 == j && 3 * j % 3 == 0;
    assert ",\n" + "  " == ",\n  ";
  }

  lemma EnabledCell(es: seq<Entry>, j: nat, nxt: string)
    requires j < |es|
    ensures KeyAt(es, 3 * j + 1) == EnabledKey(es[j].name)
    ensures GapAt(es, 3 * j + 1, nxt) == ": " + (BoolText(es[j].params.enabled) + (",\n" + "  "))
  {
    hide EnabledKey, BoolText;
    assert (3 * j + 1) / 3 == j && (3 * j + 1) % 3 == 1;
    assert ",\n" + "  " == ",\n  ";
  }

  lemma InvertCell(es: seq<Entry>, j: nat, nxt: string)
    requires j < |es|
    ensures KeyAt(es, 3 * j + 2) == InvertKey(es[j].name)
    ensures var comma, last := if j + 1 < |es| then "," else "", Behind(es, j + 1, nxt);
            GapAt(es, 3 * j + 2, nxt) == ": " + (BoolText(es[j].params.invert) + (comma + "\n" + last))
  {
    hide InvertKey, BoolText;
    assert (3 * j + 2) / 3 == j && (3 * j + 2) % 3 == 2;
    assert "," + "\n" + "  " == ",\n  " && "" + "\n" + nxt == "\n" + nxt;
  }

  predicate DistinctNames(es: seq<Entry>)
  { forall i, j :: 0 <= i < j < |es| ==> es[i].name != es[j].name }

  predicate PlainNames(es: seq<Entry>)
  { forall e :: e in es ==> QuoteFree(e.name) && NoNul(e.name) }

  lemma KeyForms(a: string, b: string)
    ensures PeriodKey(a) != EnabledKey(b) && PeriodKey(a) != InvertKey(b) && EnabledKey(a) != InvertKey(b)
    ensures PeriodKey(a) == PeriodKey(b) ==> a == b
    ensures EnabledKey(a) == EnabledKey(b) ==> a == b
    ensures InvertKey(a) == InvertKey(b) ==> a == b
  {
    assert PeriodKey(a)[|PeriodKey(a)| - 1] == 's' && EnabledKey(b)[|EnabledKey(b)| - 1] == 'd';
    assert EnabledKey(a)[|EnabledKey(a)| - 1] == 'd' && InvertKey(b)[|InvertKey(b)| - 1] == 't';
    assert PeriodKey(a)[3..|PeriodKey(a)| - 10] == a && PeriodKey(b)[3..|PeriodKey(b)| - 10] == b;
    assert EnabledKey(a)[3..|EnabledKey(a)| - 8] == a && EnabledKey(b)[3..|EnabledKey(b)| - 8] == b;
    assert InvertKey(a)[3..|InvertKey(a)| - 7] == a && InvertKey(b)[3..|InvertKey(b)| - 7] == b;
  }

  lemma KeysDiffer(es: seq<Entry>, j: nat, k: nat)
    requires DistinctNames(es) && j < k < 3 * |es|
    ensures KeyAt(es, j) != KeyAt(es, k)
  {
    KeyForms(es[j / 3].name, es[k / 3].name);
    KeyForms(es[k / 3].name, es[j / 3].name);
  }

  lemma GapIsNoKey(es: seq<Entry>, j: nat, k: nat, nxt: string)
    requires j < 3 * |es| && k < 3 * |es|
    ensures GapAt(es, j, nxt) != KeyAt(es, k)
  {
    assert GapAt(es, j, nxt)[0] == ':' && KeyAt(es, k)[0] == 'c';
  }

  lemma CellQuoteFree(es: seq<Entry>, k: nat, nxt: string)
    requires PlainNames(es) && QuoteFree(nxt) && k < 3 * |es|
    ensures QuoteFree(KeyAt(es, k)) && QuoteFree(GapAt(es, k, nxt))
  {
    hide Dec;
    assert es[k / 3] in es;
    var q := es[k / 3].params;
    assert QuoteFree(Dec(q.periodMs)) && QuoteFree(BoolText(q.enabled)) && QuoteFree(BoolText(q.invert));
  }

  lemma CellsClean(es: seq<Entry>, nxt: string)
    requires PlainNames(es) && QuoteFree(nxt)
    ensures Clean(CellsOf(es, nxt))
  {
    var cs := CellsOf(es, nxt);
    forall c | c in cs ensures QuoteFree(c.tok) && QuoteFree(c.gap) {
      var j :| 0 <= j < |cs| && cs[j] == c;
      CellQuoteFree(es, j, nxt);
    }
  }

  /** The first occurrence of every key is its own line. */
  lemma FindsKey(es: seq<Entry>, k: nat, nxt: string)
    requires DistinctNames(es) && PlainNames(es) && QuoteFree(nxt) && k < 3 * |es|
    ensures var cs := CellsOf(es, nxt);
            StrStr("{\n  " + Render(cs), Quote(KeyAt(es, k)))
            == Some(Quote(KeyAt(es, k)) + (GapAt(es, k, nxt) + Render(cs[k + 1..])))
  {
    var cs := CellsOf(es, nxt);
    CellsClean(es, nxt);
    forall c | c in cs[..k] ensures c.tok != cs[k].tok && c.gap != cs[k].tok {
      var j :| 0 <= j < k && cs[j] == c;
      KeysDiffer(es, j, k);
      GapIsNoKey(es, j, k, nxt);
    }
    FindsCell("{\n  ", cs, k);
  }

  /** What a load after a save returns: each value under the key-length limit of the
      extractors; period 0 never overrides, periods over 2^31 - 1 saturate. */
  function Restored(e: Entry, dflt: Params): Params
  {
    Params(if |e.name| > 34 || e.params.periodMs == 0 then dflt.periodMs
           else if e.params.periodMs > 0x7fff_ffff then 0x7fff_ffff else e.params.periodMs,
           if |e.name| > 36 then dflt.enabled else e.params.enabled,
           if |e.name| > 37 then dflt.invert else e.params.invert)
  }

  function Full(es: seq<Entry>, nxt: string): string { "{\n  " + Render(CellsOf(es, nxt)) }

  lemma PeriodLine(es: seq<Entry>, i: nat, nxt: string)
    requires DistinctNames(es) && PlainNames(es) && QuoteFree(nxt) && i < |es| && |es[i].name| <= 34
    ensures var n := es[i].params.periodMs;
            GetInt(Full(es, nxt), PeriodKey(es[i].name)) == IntIs(if n <= 0x7fff_ffff then n else 0x7fff_ffff)
  {
    hide GetInt, PlainNames, DistinctNames, QuoteFree, Render, Dec;
    assert 3 * i / 3 == i;
    FindsKey(es, 3 * i, nxt);
    var d, s := Dec(es[i].params.periodMs), Render(CellsOf(es, nxt)[3 * i + 1..]);
    Regroup(": ", d, ",\n  ", s);
    ReadsInt(Full(es, nxt), KeyAt(es, 3 * i), ": ", es[i].params.periodMs, ",\n  " + s);
  }

  lemma ExtractsPeriod(es: seq<Entry>, i: nat, nxt: string, dflt: nat)
    requires DistinctNames(es) && PlainNames(es) && QuoteFree(nxt) && i < |es|
    ensures ExtractPeriod(Full(es, nxt), es[i].name, dflt) == Restored(es[i], Params(dflt, true, true)).periodMs
  {
    if |es[i].name| <= 34 {
      PeriodLine(es, i, nxt);
    } else {
      assert |Clip(PeriodKey(es[i].name), LOAD_KEY_CAP)| >= CFG_STR_LEN;
    }
  }

  lemma Regroup(a: string, b: string, c: string, d: string)
    ensures a + (b + c) + d == a + (b + (c + d))
  {
  }

  lemma BoolLine(es: seq<Entry>, k: nat, nxt: string, b: bool, t: string)
    requires DistinctNames(es) && PlainNames(es) && QuoteFree(nxt) && k < 3 * |es|
    requires |KeyAt(es, k)| < CFG_STR_LEN && GapAt(es, k, nxt) == ": " + (BoolText(b) + t)
    ensures GetBool(Full(es, nxt), KeyAt(es, k)) == BoolIs(b)
  {
    FindsKey(es, k, nxt);
    var s := Render(CellsOf(es, nxt)[k + 1..]);
    Regroup(": ", BoolText(b), t, s);
    ReadsBool(Full(es, nxt), KeyAt(es, k), ": ", b, t + s);
  }

  /** A key too long for the search buffer is never found. */
  lemma LongKey(text: string, key: string, dflt: bool)
    requires |key| >= CFG_STR_LEN
    ensures ExtractBool(text, key, dflt) == dflt
  {
    assert |Clip(key, LOAD_KEY_CAP)| >= CFG_STR_LEN;
  }

  lemma ExtractsEnabled(es: seq<Entry>, i: nat, nxt: string, dflt: bool)
    requires DistinctNames(es) && PlainNames(es) && QuoteFree(nxt) && i < |es|
    ensures ExtractBool(Full(es, nxt), EnabledKey(es[i].name), dflt)
            == if |es[i].name| > 36 then dflt else es[i].params.enabled
  {
    hide Full, GetBool, PlainNames, DistinctNames, QuoteFree, BoolText;
    if |es[i].name| <= 36 {
      assert (3 * i + 1) / 3 == i;
      BoolLine(es, 3 * i + 1, nxt, es[i].params.enabled, ",\n  ");
    } else {
      LongKey(Full(es, nxt), EnabledKey(es[i].name), dflt);
    }
  }

  lemma ExtractsInvert(es: seq<Entry>, i: nat, nxt: string, dflt: bool)
    requires DistinctNames(es) && PlainNames(es) && QuoteFree(nxt) && i < |es|
    ensures ExtractBool(Full(es, nxt), InvertKey(es[i].name), dflt)
            == if |es[i].name| > 37 then dflt else es[i].params.invert
  {
    hide Full, GetBool, PlainNames, DistinctNames, QuoteFree, BoolText;
    if |es[i].name| <= 37 {
      assert (3 * i + 2) / 3 == i;
      BoolLine(es, 3 * i + 2, nxt, es[i].params.invert, if i < |es| - 1 then ",\n  " else "\n" + nxt);
    } else {
      LongKey(Full(es, nxt), InvertKey(es[i].name), dflt);
    }
  }

  /** The file is the rendered cells; only the final newline can be cut off. */
  lemma FileIsCells(es: seq<Entry>)
    requires es != [] && Fits(es)
    ensures FileText(es) == Full(es, "}\n") || FileText(es) == Full(es, "}")
  {
    var t := OpenText(es);
    PrintedIsCells(es, |es|, "}\n");
    PrintedIsCells(es, |es|, "}");
    assert CellsOf(es, "}\n")[..3 * |es|] == CellsOf(es, "}\n");
    assert CellsOf(es, "}")[..3 * |es|] == CellsOf(es, "}");
    if |t| == CH_PARAMS_BUF - 2 {
      assert (t + "}\n")[..CH_PARAMS_BUF - 1] == t + "}";
    }
  }

  lemma VisibleIsFile(es: seq<Entry>)
    requires PlainNames(es)
    ensures Visible(FileText(es), CH_PARAMS_BUF) == FileText(es)
  {
    FileTextNoNul(es);
    var t := FileText(es);
    assert Clip(t, CH_PARAMS_BUF - 1) == t;
    assert Holds(t + "\0", t);
    HoldsCStr(t + "\0", t);
  }

  lemma ExtractsFull(es: seq<Entry>, i: nat, nxt: string, dflt: Params)
    requires DistinctNames(es) && PlainNames(es) && QuoteFree(nxt) && i < |es|
    ensures Extract(Full(es, nxt), es[i].name, dflt) == Restored(es[i], dflt)
  {
    ExtractsPeriod(es, i, nxt, dflt.periodMs);
    ExtractsEnabled(es, i, nxt, dflt.enabled);
    ExtractsInvert(es, i, nxt, dflt.invert);
  }

  /** Round trip of a saved file, for every list of distinct quote-free names that fits. */
  lemma RestoresEntry(es: seq<Entry>, i: nat, dflt: Params)
    requires DistinctNames(es) && PlainNames(es) && Fits(es) && i < |es|
    ensures Extract(Visible(FileText(es), CH_PARAMS_BUF), es[i].name, dflt) == Restored(es[i], dflt)
  {
    FileIsCells(es);
    VisibleIsFile(es);
    if FileText(es) == Full(es, "}\n") {
      ExtractsFull(es, i, "}\n", dflt);
    } else {
      ExtractsFull(es, i, "}", dflt);
    }
  }

  /** A save and a load give back exactly the saved values, whatever the defaults, if and only
      if the name has at most 34 characters and the period is in 1..2^31-1. */
  lemma ExactRoundTrip(es: seq<Entry>, i: nat)
    requires DistinctNames(es) && PlainNames(es) && Fits(es) && i < |es|
    ensures (forall dflt: Params :: Extract(Visible(FileText(es), CH_PARAMS_BUF), es[i].name, dflt) == es[i].params)
            <==> |es[i].name| <= 34 && 0 < es[i].params.periodMs <= 0x7fff_ffff
  {
    forall dflt: Params
      ensures Extract(Visible(FileText(es), CH_PARAMS_BUF), es[i].name, dflt) == Restored(es[i], dflt)
    {
      RestoresEntry(es, i, dflt);
    }
    var other := es[i].params.(periodMs := es[i].params.periodMs + 1);
    assert |es[i].name| > 34 || es[i].params.periodMs == 0 ==> Restored(es[i], other).periodMs == other.periodMs;
    assert Extract(Visible(FileText(es), CH_PARAMS_BUF), es[i].name, other) == Restored(es[i], other);
  }

  // ---------------------------------------------------------------- parameter server

  const CHANNEL_MAX := 16

  function EntriesOf(names: seq<string>, states: seq<Params>): (es: seq<Entry>)
    requires |names| <= |states|
    ensures |es| == |names|
  { seq(|names|, i requires 0 <= i < |names| => Entry(names[i], states[i])) }

  class ParamServer {
    const store: ParamStore
    const names: seq<string>          // registered channels, in order
    const states: array<Params>

    ghost predicate Valid()
      reads this, states, store, store.cache
    {
      && store.Valid() && states.Length == CHANNEL_MAX && |names| <= CHANNEL_MAX
      && (forall n :: n in names ==> NoNul(n))
    }

    constructor (store: ParamStore, names: seq<string>, initial: Params)
      requires store.Valid() && |names| <= CHANNEL_MAX && forall n :: n in names ==> NoNul(n)
      ensures Valid() && this.store == store && this.names == names && fresh(states)
    {
      this.store, this.names := store, names;
      states := new Params[CHANNEL_MAX](_ => initial);
    }

    /** param_server_save_to_config. */
    method SaveToConfig(openRc: int, writeRc: int) returns (rc: int)
      requires Valid()
      modifies store, store.wbuf
      ensures Valid() && states[..] == old(states[..])
      ensures rc == 0 <==> names != [] && Fits(EntriesOf(names, states[..])) && openRc >= 0 && writeRc >= 0
      ensures rc == 0 ==> store.file == Some(FileText(EntriesOf(names, states[..])))
      ensures rc != 0 ==> store.file == old(store.file) || store.file == Some("")
    {
      var entries: seq<Entry> := [];
      for i := 0 to |names|
        invariant entries == EntriesOf(names, states[..])[..i]
      {
        entries := entries + [Entry(names[i], states[i])];
      }
      assert entries == EntriesOf(names, states[..]);
      rc := store.Save(entries, openRc, writeRc);
      assert states[..] == old(states[..]);
    }

    /** param_server_load_from_config; io(i) is what the file system answers for channel i. */
    method LoadFromConfig(io: nat -> (int, int), junk: string) returns (rc: int)
      requires Valid()
      modifies store`loaded, store.cache, states
      ensures Valid()
      ensures forall i :: 0 <= i < CHANNEL_MAX ==>
                || states[i] == old(states[i])
                || (i < |names| && store.file.Some?
                    && states[i] == Extract(Visible(store.file.value, CH_PARAMS_BUF), names[i], old(states[i])))
      ensures store.file.Some? && (forall i :: io(i).0 >= 0 && io(i).1 >= 0) ==>
                forall i :: 0 <= i < |names| ==>
                  states[i] == Extract(Visible(store.file.value, CH_PARAMS_BUF), names[i], old(states[i]))
      ensures store.file == None ==> states[..] == old(states[..]) && rc == ENOENT
      ensures store.file.Some? && (forall i :: io(i).0 >= 0 && io(i).1 >= 0) ==> (rc == 0 <==> names != [])
      ensures forall i :: |names| <= i < CHANNEL_MAX ==> states[i] == old(states[i])
    {
      hide Extract, Visible;
      var count := 0;
      var i := 0;
      while i < |names|
        invariant Valid() && i <= |names| && (store.file == None ==> i == 0 && count == 0)
        invariant forall j :: i <= j < CHANNEL_MAX ==> states[j] == old(states[j])
        invariant forall j :: 0 <= j < i ==>
                    || states[j] == old(states[j])
                    || (store.file.Some?
                        && states[j] == Extract(Visible(store.file.value, CH_PARAMS_BUF), names[j], old(states[j])))
        invariant store.file.Some? && (forall j :: io(j).0 >= 0 && io(j).1 >= 0) ==>
                    count == i && forall j :: 0 <= j < i ==>
                      states[j] == Extract(Visible(store.file.value, CH_PARAMS_BUF), names[j], old(states[j]))
      {
        var r, loaded := store.Load(names[i], states[i], io(i).0, io(i).1, junk);
        if r == ENOENT { break; }
        states[i] := loaded;
        count := count + 1;
        i := i + 1;
      }
      rc := if count > 0 then 0 else ENOENT;
    }
  }

  /** Whatever the states are now, restoring what was saved gives back the saved states. */
  lemma RestoresAll(names: seq<string>, saved: seq<Params>, now: seq<Params>)
    requires |names| <= |saved| && |names| <= |now|
    requires forall i, j :: 0 <= i < j < |names| ==> names[i] != names[j]
    requires forall i :: 0 <= i < |names| ==>
               QuoteFree(names[i]) && NoNul(names[i]) && |names[i]| <= 34 && 0 < saved[i].periodMs <= 0x7fff_ffff
    requires Fits(EntriesOf(names, saved))
    ensures forall i :: 0 <= i < |names| ==>
              Extract(Visible(FileText(EntriesOf(names, saved)), CH_PARAMS_BUF), names[i], now[i]) == saved[i]
  {
    var es := EntriesOf(names, saved);
    forall i | 0 <= i < |names|
      ensures Extract(Visible(FileText(es), CH_PARAMS_BUF), names[i], now[i]) == saved[i]
    {
      RestoresEntry(es, i, now[i]);
    }
  }
}
