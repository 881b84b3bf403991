// Reading back what the printer wrote: the trim block, whatever its scope is
// found by, and the entries of the channel section.
module ConfigRoundTrip {
  import opened Options
  import opened CStrings
  import opened JsonScan
  import opened ConfigText

  // ---------------------------------------------------------------- the trim block as cells

  lemma RowStep(t: RcTrim, r: nat)
    requires |t.ch| == RC_CH_COUNT && r < RC_CH_COUNT
    ensures RowText(t, r) + ",\n    "
            == (if r > 0 then ",\n    " else "\n    ") + Render(TrimCells(t)[3 * r..3 * r + 3])
  {
    hide Dec, TrimKey;
    assert (3 * r) / 3 == r && (3 * r + 1) / 3 == r && (3 * r + 2) / 3 == r;
    var short := [Cell(TrimKey(3 * r), TrimGap(t, 3 * r)), Cell(TrimKey(3 * r + 1), TrimGap(t, 3 * r + 1)),
                  Cell(TrimKey(3 * r + 2), ": " + Dec(t.ch[r].max))];
    RenderExtend(short, ",\n    ");
    Assoc(": ", Dec(t.ch[r].max), ",\n    ");
    assert Extend(short, ",\n    ") == TrimCells(t)[3 * r..3 * r + 3];
    Assoc(if r > 0 then ",\n    " else "\n    ", Render(short), ",\n    ");
  }

  lemma {:induction false} RowsAreCells(c: Config, r: nat)
    requires |c.trim.ch| == RC_CH_COUNT && 0 < r <= RC_CH_COUNT
    ensures TrimText(c, r) + ",\n    "
            == BeforeTrim(c) + TrimOpen() + ("\n    " + Render(TrimCells(c.trim)[..3 * r]))
  {
    hide BeforeTrim, TrimOpen, RowText, TrimCells;
    var cs := TrimCells(c.trim);
    var q := r - 1;
    RowStep(c.trim, q);
    Assoc(TrimText(c, q), RowText(c.trim, q), ",\n    ");
    assert cs[..3 * r] == cs[..3 * q] + cs[3 * q..3 * q + 3];
    RenderCat(cs[..3 * q], cs[3 * q..3 * q + 3]);
    var row := Render(cs[3 * q..3 * q + 3]);
    if q == 0 {
      assert cs[..0] == [];
      assert Render(cs[..3 * r]) == row;
    } else {
      RowsAreCells(c, q);
      Assoc(TrimText(c, q), ",\n    ", row);
      Assoc("\n    ", Render(cs[..3 * q]), row);
      Assoc(BeforeTrim(c) + TrimOpen(), "\n    " + Render(cs[..3 * q]), row);
    }
  }

  /** The scoped block the trim parser copies out: opening brace to closing brace. */
  function Scope(t: RcTrim): string
    requires |t.ch| == RC_CH_COUNT
  { "{\n    " + Render(TrimCells(t)) + "}" }

  lemma TrimBlock(c: Config)
    requires |c.trim.ch| == RC_CH_COUNT
    ensures TrimText(c, RC_CH_COUNT + 1)
            == BeforeTrim(c) + TrimOpen() + ("\n    " + (Render(TrimCells(c.trim)) + "}"))
  {
    hide BeforeTrim, TrimOpen, TrimGap, TrimKey;
    var cs := TrimCells(c.trim);
    RowsAreCells(c, RC_CH_COUNT);
    var last := Render([Cell(TrimKey(18), TrimGap(c.trim, 18)), Cell(TrimKey(19), TrimGap(c.trim, 19))]);
    assert [Cell(TrimKey(18), TrimGap(c.trim, 18)), Cell(TrimKey(19), TrimGap(c.trim, 19))] == cs[18..];
    assert cs == cs[..18] + cs[18..];
    RenderCat(cs[..18], cs[18..]);
    Tail(c, last);
  }

  lemma Tail(c: Config, last: string)
    requires |c.trim.ch| == RC_CH_COUNT
    requires RowText(c.trim, RC_CH_COUNT) == ",\n    " + last + "}"
    requires TrimText(c, RC_CH_COUNT) + ",\n    "
             == BeforeTrim(c) + TrimOpen() + ("\n    " + Render(TrimCells(c.trim)[..18]))
    requires Render(TrimCells(c.trim)) == Render(TrimCells(c.trim)[..18]) + last
    ensures TrimText(c, RC_CH_COUNT + 1)
            == BeforeTrim(c) + TrimOpen() + ("\n    " + (Render(TrimCells(c.trim)) + "}"))
  {
    hide BeforeTrim, TrimOpen, RowText, TrimCells, Render;
    var a, b, r := TrimText(c, RC_CH_COUNT), BeforeTrim(c) + TrimOpen(), Render(TrimCells(c.trim)[..18]);
    Assoc(",\n    ", last, "}");
    Assoc(a, ",\n    ", last + "}");
    Assoc(r, last, "}");
    Assoc("\n    ", r, last + "}");
    Assoc(b, "\n    " + r, last + "}");
  }

  // ---------------------------------------------------------------- reading the trim block

  predicate TrimInRange(t: RcTrim)
  {
    && |t.ch| == RC_CH_COUNT && t.deadzone < 0x1_0000
    && (forall x :: x in t.ch ==> x.min < 0x1_0000 && x.center < 0x1_0000 && x.max < 0x1_0000)
  }

  lemma TrimKeyForms(k: nat)
    requires k < 20
    ensures QuoteFree(TrimKey(k)) && NoNul(TrimKey(k)) && 0 < |TrimKey(k)| <= 10 && TrimKey(k)[0] in {'c', 'd', 'e'}
    ensures k < 18 ==> |TrimKey(k)| > 5 && TrimKey(k)[0] == 'c' && TrimKey(k)[2] == DigitChar(k / 3 + 1)
    ensures k < 18 ==> TrimKey(k)[5] == (if k % 3 == 0 then 'i' else if k % 3 == 1 then 'e' else 'a')
    ensures k == 18 ==> TrimKey(k)[0] == 'd'
    ensures k == 19 ==> TrimKey(k)[0] == 'e'
  {
    if k < 18 {
      var d := [DigitChar((k / 3 + 1) % 10)];
      assert "ch" + d == ['c', 'h', d[0]];
      assert QuoteFree(d) && NoNul(d);
    }
  }

  lemma TrimKeysDiffer(j: nat, k: nat)
    requires j < k < 20
    ensures TrimKey(j) != TrimKey(k)
  {
    hide TrimKey;
    TrimKeyForms(j);
    TrimKeyForms(k);
    if k < 18 && j / 3 == k / 3 {
      assert j % 3 != k % 3;
      assert TrimKey(j)[5] != TrimKey(k)[5];
    } else if k < 18 {
      assert TrimKey(j)[2] != TrimKey(k)[2];
    } else {
      assert TrimKey(j)[0] != TrimKey(k)[0];
    }
  }

  lemma TrimGapForms(t: RcTrim, k: nat)
    requires |t.ch| == RC_CH_COUNT && k < 20
    ensures QuoteFree(TrimGap(t, k)) && NoNul(TrimGap(t, k)) && '}' !in TrimGap(t, k)
    ensures TrimGap(t, k) != "" && TrimGap(t, k)[0] == ':'
  {
    hide Dec, Dec2, TrimNum;
  }

  lemma TrimCellsClean(t: RcTrim)
    requires |t.ch| == RC_CH_COUNT
    ensures Clean(TrimCells(t)) && NulFree(TrimCells(t))
  {
    hide TrimGap, TrimKey;
    var cs := TrimCells(t);
    forall c | c in cs ensures QuoteFree(c.tok) && QuoteFree(c.gap) && NoNul(c.tok) && NoNul(c.gap) {
      var j :| 0 <= j < 20 && cs[j] == c;
      TrimKeyForms(j);
      TrimGapForms(t, j);
    }
  }

  lemma ScopeFinds(t: RcTrim, k: nat)
    requires |t.ch| == RC_CH_COUNT && k < 20
    ensures StrStr(Scope(t), Quote(TrimKey(k)))
            == Some(Quote(TrimKey(k)) + (TrimGap(t, k) + (Render(TrimCells(t)[k + 1..]) + "}")))
  {
    hide TrimGap, TrimKey;
    var cs := TrimCells(t);
    TrimCellsClean(t);
    forall c | c in cs[..k] ensures c.tok != cs[k].tok && c.gap != cs[k].tok {
      var j :| 0 <= j < k && cs[j] == c;
      TrimKeysDiffer(j, k);
      TrimKeyForms(k);
      TrimGapForms(t, j);
    }
    FindsCellIn("{\n    ", cs, k, "}");
  }

  lemma ReadsTrimNum(t: RcTrim, k: nat, dflt: nat)
    requires TrimInRange(t) && k < 19
    ensures IntOr(Scope(t), TrimKey(k), dflt) == TrimNum(t, k)
  {
    hide TrimKey, Dec, Scope;
    TrimKeyForms(k);
    assert k < 18 ==> t.ch[k / 3] in t.ch;
    var n := TrimNum(t, k);
    var lay := if k == 18 || k % 3 == 2 then ",\n    " else ", ";
    var rest := Render(TrimCells(t)[k + 1..]) + "}";
    ScopeFinds(t, k);
    assert TrimGap(t, k) == ": " + (Dec(n) + lay);
    Assoc(Dec(n), lay, rest);
    Assoc(": ", Dec(n) + lay, rest);
    ReadsInt(Scope(t), TrimKey(k), ": ", n, lay + rest);
  }

  lemma ReadsAlpha(t: RcTrim)
    requires |t.ch| == RC_CH_COUNT
    ensures GetFloat(Scope(t), TrimKey(19)) == RealIs(ToHundredths(t.emaAlpha))
  {
    hide TrimKey, Dec2, Scope, ToHundredths;
    TrimKeyForms(19);
    ScopeFinds(t, 19);
    var rest := Render(TrimCells(t)[20..]) + "}";
    Assoc(Dec2(t.emaAlpha), "\n  ", rest);
    Assoc(": ", Dec2(t.emaAlpha) + "\n  ", rest);
    ReadsDec2(Scope(t), TrimKey(19), ": ", t.emaAlpha, "\n  " + rest);
  }

  lemma ReadsTrimCh(t: RcTrim, i: nat, dflt: TrimCh)
    requires TrimInRange(t) && i < RC_CH_COUNT
    ensures TrimChOr(Scope(t), i, dflt) == t.ch[i]
  {
    hide TrimKey, Scope, IntOr;
    assert 3 * i / 3 == i && (3 * i + 1) / 3 == i && (3 * i + 2) / 3 == i;
    ReadsTrimNum(t, 3 * i, dflt.min);
    ReadsTrimNum(t, 3 * i + 1, dflt.center);
    ReadsTrimNum(t, 3 * i + 2, dflt.max);
  }

  lemma ReadsScope(t: RcTrim, o: RcTrim)
    requires TrimInRange(t) && |o.ch| == RC_CH_COUNT
    ensures ReadScope(Scope(t), o) == t.(emaAlpha := ToHundredths(t.emaAlpha))
  {
    hide TrimKey, Scope, ToHundredths, TrimChOr, IntOr;
    forall i | 0 <= i < RC_CH_COUNT ensures TrimChOr(Scope(t), i, o.ch[i]) == t.ch[i] {
      ReadsTrimCh(t, i, o.ch[i]);
    }
    ReadsTrimNum(t, 18, o.deadzone);
    ReadsAlpha(t);
    assert ReadScope(Scope(t), o).ch == t.ch;
  }

  // ---------------------------------------------------------------- the scope fits

  lemma {:induction false} DecLength(n: nat, d: nat)
    requires 0 < d && n < Pow10(d)
    ensures |Dec(n)| <= d
  {
    if n >= 10 {
      assert Pow10(1) == 10 by { assert Pow10(0) == 1; }
      DecLength(n / 10, d - 1);
    }
  }

  lemma FiveDigits(n: nat)
    requires n < 0x1_0000
    ensures |Dec(n)| <= 5
  {
    assert Pow10(5) == 100000 by {
      assert Pow10(3) == 1000 by { assert Pow10(2) == 100 by { assert Pow10(1) == 10; } }
      assert Pow10(4) == 10000;
    }
    DecLength(n, 5);
  }

  function CellLen(t: RcTrim, k: nat): nat
    requires |t.ch| == RC_CH_COUNT && k < 20
  { |TrimKey(k)| + 2 + |TrimGap(t, k)| }

  lemma CellBound(t: RcTrim, k: nat)
    requires TrimInRange(t) && k < 19
    ensures CellLen(t, k) <= if k == 18 then 23 else if k % 3 == 0 then 18 else if k % 3 == 1 then 21 else 22
  {
    hide Dec;
    assert k < 18 ==> t.ch[k / 3] in t.ch;
    FiveDigits(TrimNum(t, k));
  }

  lemma {:induction false} RenderLength(cs: seq<Cell>, k: nat)
    requires k < |cs|
    ensures |Render(cs[..k + 1])| == |Render(cs[..k])| + |cs[k].tok| + 2 + |cs[k].gap|
  {
    assert cs[..k + 1] == cs[..k] + [cs[k]];
    RenderCat(cs[..k], [cs[k]]);
    assert Render([cs[k]]) == Quote(cs[k].tok) + cs[k].gap + "";
  }

  lemma {:induction false} RowsBound(t: RcTrim, r: nat)
    requires TrimInRange(t) && r <= RC_CH_COUNT
    ensures |Render(TrimCells(t)[..3 * r])| <= 61 * r
  {
    hide TrimKey, TrimGap;
    var cs := TrimCells(t);
    if r == 0 {
      assert cs[..0] == [];
    } else {
      RowsBound(t, r - 1);
      var k := 3 * (r - 1);
      RenderLength(cs, k);
      RenderLength(cs, k + 1);
      RenderLength(cs, k + 2);
      CellBound(t, k);
      CellBound(t, k + 1);
      CellBound(t, k + 2);
    }
  }

  /** The printed trim block: 412 characters and the filter constant's digits at most. */
  lemma ScopeLength(t: RcTrim)
    requires TrimInRange(t)
    ensures |Scope(t)| <= 412 + |Dec2(t.emaAlpha)|
  {
    hide TrimKey, TrimGap, Dec2;
    var cs := TrimCells(t);
    RowsBound(t, 6);
    RenderLength(cs, 18);
    RenderLength(cs, 19);
    CellBound(t, 18);
    assert cs[..20] == cs;
    TrimKeyForms(19);
    assert |TrimKey(19)| == 9 && |TrimGap(t, 19)| == 5 + |Dec2(t.emaAlpha)| by { LastCell(t); }
  }

  lemma LastCell(t: RcTrim)
    requires |t.ch| == RC_CH_COUNT
    ensures |TrimKey(19)| == 9 && |TrimGap(t, 19)| == 5 + |Dec2(t.emaAlpha)|
  {
    hide Dec2;
  }

  // ---------------------------------------------------------------- the channel section

  predicate BraceFree(s: string) { '{' !in s && '}' !in s }

  predicate PlainChannel(ch: Channel)
  {
    && 0 < |ch.name| < CFG_CH_NAME_LEN && QuoteFree(ch.name) && BraceFree(ch.name) && NoNul(ch.name)
    && |ch.topic| < CFG_CH_NAME_LEN && QuoteFree(ch.topic) && BraceFree(ch.topic) && NoNul(ch.topic)
  }

  predicate PlainChannels(chs: seq<Channel>) { forall ch :: ch in chs ==> PlainChannel(ch) }

  function Lead(first: bool): string { if first then "\n    " else ",\n    " }

  function EntriesText(chs: seq<Channel>, first: bool): string
  { if chs == [] then "" else ChannelText(chs[0], first) + EntriesText(chs[1..], false) }

  lemma {:induction false} EntriesAreChannels(c: Config, i: nat)
    requires i <= |c.channels|
    ensures ChannelsText(c, i) + EntriesText(c.channels[i..], i == 0) == ChannelsText(c, |c.channels|)
    decreases |c.channels| - i
  {
    hide ChannelText, HeadText;
    if i < |c.channels| {
      EntriesAreChannels(c, i + 1);
      assert c.channels[i..][1..] == c.channels[i + 1..];
      Assoc(ChannelsText(c, i), ChannelText(c.channels[i], i == 0), EntriesText(c.channels[i + 1..], false));
    } else {
      assert ChannelsText(c, i) + "" == ChannelsText(c, i);
    }
  }

  // Brace matching over printed entries.

  function Shift(n: nat, o: Option<nat>): Option<nat>
  { match o case None => None case Some(k) => Some(n + k) }

  lemma {:induction false} EndOverPlain(p: string, s: string, d: nat)
    requires BraceFree(p) && d > 0
    ensures FindEnd(p + s, d) == Shift(|p|, FindEnd(s, d))
  {
    if p == "" {
      assert p + s == s;
    } else {
      assert p[0] in p && (p + s)[0] == p[0] && (p + s)[1..] == p[1..] + s;
      EndOverPlain(p[1..], s, d);
    }
  }

  lemma EndOverBlock(y: string, s: string, d: nat)
    requires BraceFree(y) && d > 0
    ensures FindEnd("{" + (y + ("}" + s)), d) == Shift(|y| + 2, FindEnd(s, d))
  {
    var x := y + ("}" + s);
    assert ("{" + x)[1..] == x && ("}" + s)[1..] == s;
    EndOverPlain(y, "}" + s, d + 1);
  }

  /** The inside of an extended entry's braces. */
  function ObjectText(ch: Channel): string
  { " " + Quote("enabled") + (": " + (BoolText(ch.enabled) + ", ")) + Quote("topic") + ": " + Quote(ch.topic) + " " }

  /** What follows the name: the value with its layout. */
  function ValueOf(ch: Channel): string
  { if ch.topic != "" then "{" + ObjectText(ch) + "}" else BoolText(ch.enabled) }

  lemma ChannelForm(ch: Channel, first: bool)
    ensures ChannelText(ch, first) == Lead(first) + (Quote(ch.name) + (": " + ValueOf(ch)))
  {
    if ch.topic != "" {
      ObjectForm(ch);
    } else {
      assert Render(ChannelCells(ch)) == Quote(ch.name) + (": " + BoolText(ch.enabled)) + "";
    }
  }

  lemma ObjectForm(ch: Channel)
    requires ch.topic != ""
    ensures Render(ChannelCells(ch)) == Quote(ch.name) + (": " + ("{" + ObjectText(ch) + "}"))
  {
    hide BoolText, Quote;
    var e := ": " + (BoolText(ch.enabled) + ", ");
    FourCells(Cell(ch.name, ": { "), Cell("enabled", e), Cell("topic", ": "), Cell(ch.topic, " }"));
    Regroup(Quote(ch.name), Quote("enabled"), e, Quote("topic"), Quote(ch.topic));
  }

  lemma FourCells(a: Cell, b: Cell, c: Cell, d: Cell)
    ensures Render([a, b, c, d])
            == Quote(a.tok) + a.gap + (Quote(b.tok) + b.gap + (Quote(c.tok) + c.gap + (Quote(d.tok) + d.gap)))
  {
    hide Quote;
    assert [a, b, c, d][1..] == [b, c, d] && [b, c, d][1..] == [c, d] && [c, d][1..] == [d];
    assert Render([d]) == Quote(d.tok) + d.gap + Render([]);
    assert Render([c, d]) == Quote(c.tok) + c.gap + Render([d]);
    assert Render([b, c, d]) == Quote(b.tok) + b.gap + Render([c, d]);
  }

  lemma Regroup(n: string, q: string, e: string, t: string, v: string)
    ensures n + ": { " + (q + e + (t + ": " + (v + " }")))
            == n + (": " + ("{" + (" " + q + e + t + ": " + v + " ") + "}"))
  {
  }

  lemma EndOverChannel(ch: Channel, first: bool, s: string)
    requires PlainChannel(ch)
    ensures FindEnd(ChannelText(ch, first) + s, 1) == Shift(|ChannelText(ch, first)|, FindEnd(s, 1))
  {
    hide ChannelText, FindEnd, ObjectText;
    ChannelForm(ch, first);
    var x := Lead(first) + (Quote(ch.name) + ": ");
    assert BraceFree(x);
    Assoc(Lead(first), Quote(ch.name), ": " + ValueOf(ch));
    Assoc(Quote(ch.name), ": ", ValueOf(ch));
    Assoc(Lead(first), Quote(ch.name) + ": ", ValueOf(ch));
    EndOverValue(x, ch, s);
  }

  lemma EndOverValue(x: string, ch: Channel, s: string)
    requires PlainChannel(ch) && BraceFree(x)
    ensures FindEnd(x + ValueOf(ch) + s, 1) == Shift(|x + ValueOf(ch)|, FindEnd(s, 1))
  {
    hide FindEnd, ObjectText, BoolText;
    Assoc(x, ValueOf(ch), s);
    EndOverPlain(x, ValueOf(ch) + s, 1);
    if ch.topic != "" {
      var y := ObjectText(ch);
      ObjectPlain(ch);
      EndOverBlock(y, s, 1);
      assert "{" + y + "}" + s == "{" + (y + ("}" + s));
    } else {
      EndOverPlain(BoolText(ch.enabled), s, 1);
    }
  }

  lemma ObjectPlain(ch: Channel)
    requires PlainChannel(ch)
    ensures BraceFree(ObjectText(ch))
  {
    assert BraceFree(BoolText(ch.enabled));
  }

  lemma {:induction false} SectionEnd(chs: seq<Channel>, first: bool, u: string)
    requires PlainChannels(chs)
    ensures FindEnd(EntriesText(chs, first) + ("\n  }" + u), 1) == Some(|EntriesText(chs, first)| + 3)
  {
    hide ChannelText;
    if chs == [] {
      assert "" + ("\n  }" + u) == "\n  " + ("}" + u);
      EndOverPlain("\n  ", "}" + u, 1);
      assert FindEnd("}" + u, 1) == Some(0);
    } else {
      assert chs[0] in chs;
      var rest := EntriesText(chs[1..], false);
      SectionEnd(chs[1..], false, u);
      EndOverChannel(chs[0], first, rest + ("\n  }" + u));
      Assoc(ChannelText(chs[0], first), rest, "\n  }" + u);
    }
  }

  // The entry loop over printed entries.

  /** A name, its layout and a value: the turn is decided by the value. */
  lemma TurnAt(w: string, name: string, v: string, n: nat)
    requires QuoteFree(w) && QuoteFree(name) && 0 < |name| < CFG_CH_NAME_LEN
    requires v != "" && !IsBlank(v[0])
    requires |w| + |name| + 4 < n <= |w + (Quote(name) + (": " + v))|
    ensures var b := |w| + |name| + 4;
            NextTurn(w + (Quote(name) + (": " + v)), n) == AfterName(v, n - b, name, b)
  {
    hide *;
    FirstQuote(w, name, v, n);
    SecondQuote(w, name, v, n);
    BlankBehind(w, name, v, n);
    TurnTexts(w, name, v, n);
    TurnBy(w + (Quote(name) + (": " + v)), n, |w|, |name|, v[..n - (|w| + |name| + 4)]);
  }

  lemma TurnTexts(w: string, name: string, v: string, n: nat)
    requires |w| + |name| + 4 < n <= |w + (Quote(name) + (": " + v))|
    ensures var t, a, b := w + (Quote(name) + (": " + v)), |w| + 1, |w| + |name| + 4;
            t[b..] == v && t[a..a + |name|] == name && n - b <= |v|
  {
    TurnParts(w, name, v, n);
  }

  lemma FirstQuote(w: string, name: string, v: string, n: nat)
    requires QuoteFree(w) && |w| + |name| + 4 < n <= |w + (Quote(name) + (": " + v))|
    ensures MemChr((w + (Quote(name) + (": " + v)))[..n], '"') == Some(|w|)
  {
    hide MemChr, Quote;
    TurnParts(w, name, v, n);
    var t := w + (Quote(name) + (": " + v));
    QuoteAt(t[..n], w, t[|w| + 1..n]);
  }

  lemma SecondQuote(w: string, name: string, v: string, n: nat)
    requires QuoteFree(name) && |w| + |name| + 4 < n <= |w + (Quote(name) + (": " + v))|
    ensures MemChr((w + (Quote(name) + (": " + v)))[|w| + 1..n], '"') == Some(|name|)
  {
    hide MemChr, Quote;
    TurnParts(w, name, v, n);
    var t := w + (Quote(name) + (": " + v));
    QuoteAt(t[|w| + 1..n], name, t[|w| + |name| + 2..n]);
  }

  lemma BlankBehind(w: string, name: string, v: string, n: nat)
    requires v != "" && !IsBlank(v[0]) && |w| + |name| + 4 < n <= |w + (Quote(name) + (": " + v))|
    ensures n - (|w| + |name| + 4) <= |v|
    ensures SkipBlank((w + (Quote(name) + (": " + v)))[|w| + |name| + 2..n]) == v[..n - (|w| + |name| + 4)]
  {
    hide SkipBlank, Quote;
    TurnParts(w, name, v, n);
    ColonSkipped(v[..n - (|w| + |name| + 4)]);
  }

  lemma QuoteAt(s: string, w: string, x: string)
    requires '"' !in w && s == w + ['"'] + x
    ensures MemChr(s, '"') == Some(|w|)
  {
    MemChrAfter(w, '"', x);
  }

  lemma ColonSkipped(u: string)
    requires u != "" && !IsBlank(u[0])
    ensures SkipBlank(": " + u) == u
  {
    SkipBlankOver(": ", u);
  }

  lemma TurnBy(t: string, n: nat, q: nat, len: nat, left: string)
    requires q + len + 2 <= n <= |t| && 0 < len < CFG_CH_NAME_LEN
    requires MemChr(t[..n], '"') == Some(q) && MemChr(t[q + 1..n], '"') == Some(len)
    requires SkipBlank(t[q + len + 2..n]) == left
    ensures var b := n - |left|; 0 <= b && NextTurn(t, n) == AfterName(t[b..], n - b, t[q + 1..q + 1 + len], b)
  {
    hide AfterName, MemChr, SkipBlank;
  }

  lemma TurnParts(w: string, name: string, v: string, n: nat)
    requires |w| + |name| + 4 < n <= |w + (Quote(name) + (": " + v))|
    ensures var t, a, p, b := w + (Quote(name) + (": " + v)), |w| + 1, |w| + |name| + 2, |w| + |name| + 4;
            && t[..n] == w + ['"'] + t[a..n] && t[a..n] == name + ['"'] + t[p..n]
            && t[p..n] == ": " + v[..n - b] && t[b..] == v && t[a..a + |name|] == name
  {
    var t := w + ("\"" + name + "\"" + (": " + v));
    assert t == w + (Quote(name) + (": " + v));
  }

  lemma ReadsObject(ch: Channel, s: string)
    requires PlainChannel(ch) && ch.topic != ""
    ensures ParseObject("{" + ObjectText(ch) + "}" + s, ch.name) == ch
  {
    hide StrStr, GetBool, GetStr, Render;
    var start := "{" + ObjectText(ch) + "}" + s;
    var e := ": " + (BoolText(ch.enabled) + ", ");
    ObjectSearches(ch, s);
    var r := Quote("topic") + ": " + Quote(ch.topic) + " }" + s;
    assert e + r == ": " + (BoolText(ch.enabled) + (", " + r));
    ReadsBool(start, "enabled", ": ", ch.enabled, ", " + r);
    ReadsStr(start, "topic", ": ", ch.topic, " }" + s, CFG_CH_NAME_LEN);
  }

  lemma ObjectSearches(ch: Channel, s: string)
    requires PlainChannel(ch)
    ensures var start := "{" + ObjectText(ch) + "}" + s;
            && StrStr(start, Quote("enabled"))
               == Some(Quote("enabled") + (": " + (BoolText(ch.enabled) + ", ")
                                           + (Quote("topic") + ": " + Quote(ch.topic) + " }" + s)))
            && StrStr(start, Quote("topic")) == Some(Quote("topic") + (": " + (Quote(ch.topic) + (" }" + s))))
  {
    hide StrStr, BoolText;
    var e := ": " + (BoolText(ch.enabled) + ", ");
    var start, v := "{" + ObjectText(ch) + "}" + s, Quote(ch.topic);
    var head := [Cell("enabled", e)];
    Render1(head[0]);
    assert QuoteFree(e);
    ObjectSplit(Quote("enabled"), e, Quote("topic"), v, s);
    Finds("{ ", [], "enabled", e + (Quote("topic") + ": " + v + " }" + s));
    assert "{ " + Render([]) == "{ ";
    assert e[0] == ':' && "topic" != "enabled";
    Finds("{ ", head, "topic", ": " + (v + (" }" + s)));
  }

  lemma Render1(c: Cell)
    ensures Render([c]) == Quote(c.tok) + c.gap
  {
    assert Render([c]) == Quote(c.tok) + c.gap + "";
  }

  lemma ObjectSplit(q: string, e: string, t: string, v: string, s: string)
    ensures "{" + (" " + q + e + t + ": " + v + " ") + "}" + s == "{ " + (q + (e + (t + ": " + v + " }" + s)))
    ensures "{" + (" " + q + e + t + ": " + v + " ") + "}" + s == "{ " + (q + e) + (t + (": " + (v + (" }" + s))))
  {
  }

  lemma ValueTurn(ch: Channel, s: string, m: nat, used: nat)
    requires PlainChannel(ch) && |ValueOf(ch)| <= m <= |ValueOf(ch) + s|
    ensures AfterName(ValueOf(ch) + s, m, ch.name, used) == Add(ch, used + |ValueOf(ch)|)
  {
    hide ParseObject, ObjectText, BoolText;
    var v := ValueOf(ch) + s;
    if ch.topic != "" {
      ObjectPlain(ch);
      assert v[1..] == ObjectText(ch) + ['}'] + s;
      MemChrAfter(ObjectText(ch), '}', s);
      ReadsObject(ch, s);
    } else {
      TrueFalse(ch.enabled, s);
      assert v[0] == BoolText(ch.enabled)[0] && BoolText(ch.enabled)[0] in BoolText(ch.enabled);
      assert |BoolText(ch.enabled)| == if ch.enabled then 4 else 5 by { BoolLength(ch.enabled); }
    }
  }

  lemma BoolLength(b: bool)
    ensures |BoolText(b)| == if b then 4 else 5
  {
  }

  lemma TurnPrinted(ch: Channel, first: bool, s: string, n: nat)
    requires PlainChannel(ch) && |ChannelText(ch, first)| <= n <= |ChannelText(ch, first) + s|
    ensures NextTurn(ChannelText(ch, first) + s, n) == Add(ch, |ChannelText(ch, first)|)
  {
    hide ChannelText, NextTurn, AfterName, ObjectText;
    ChannelForm(ch, first);
    var w, v := Lead(first), ValueOf(ch) + s;
    assert ChannelText(ch, first) + s == w + (Quote(ch.name) + (": " + v));
    assert ValueOf(ch) != "" && v[0] == ValueOf(ch)[0] && !IsBlank(v[0]) by { ValueStart(ch); }
    TurnAt(w, ch.name, v, n);
    var b := |w| + |ch.name| + 4;
    ValueTurn(ch, s, n - b, b);
  }

  lemma ValueStart(ch: Channel)
    ensures ValueOf(ch) != "" && !IsBlank(ValueOf(ch)[0])
  {
    assert BoolText(ch.enabled)[0] in BoolText(ch.enabled);
  }

  lemma {:induction false} ParsePrinted(chs: seq<Channel>, first: bool, acc: seq<Channel>, u: string)
    requires PlainChannels(chs) && |acc| + |chs| <= CFG_MAX_CHANNELS
    ensures ParseEntries(EntriesText(chs, first) + ("\n  }" + u), |EntriesText(chs, first)| + 3, acc) == acc + chs
  {
    hide ChannelText, NextTurn;
    var n := |EntriesText(chs, first)| + 3;
    var t := EntriesText(chs, first) + ("\n  }" + u);
    if chs == [] {
      assert t[..n] == "\n  ";
      assert NextTurn(t, n) == Stop by { NoMoreNames(t, n); }
      assert acc + chs == acc;
    } else {
      assert chs[0] in chs;
      var rest := EntriesText(chs[1..], false) + ("\n  }" + u);
      Assoc(ChannelText(chs[0], first), EntriesText(chs[1..], false), "\n  }" + u);
      TurnPrinted(chs[0], first, rest, n);
      var adv := |ChannelText(chs[0], first)|;
      assert t[adv..] == rest;
      ParsePrinted(chs[1..], false, acc + [chs[0]], u);
      assert acc + [chs[0]] + chs[1..] == acc + chs;
    }
  }

  lemma NoMoreNames(t: string, n: nat)
    requires n <= |t| && QuoteFree(t[..n])
    ensures NextTurn(t, n) == Stop
  {
  }
}
