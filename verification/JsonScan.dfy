// The four hand-written value extractors of the configuration code, and what
// they find in text whose quotes delimit tokens.
module JsonScan {
  import opened Options
  import opened Errno
  import opened CStrings

  const CFG_STR_LEN := 48

  function Quote(s: string): string { "\"" + s + "\"" }

  predicate QuoteFree(s: string) { '"' !in s }

  // ---------------------------------------------------------------- extractors

  /** Where the value of a key starts: after the first quoted occurrence and the blanks behind it. */
  datatype Place = Here(text: string) | NoKey | KeyTooLong

  function FindValue(json: string, key: string): Place
  {
    if |key| >= CFG_STR_LEN then KeyTooLong
    else
      match StrStr(json, Quote(key))
      case None => NoKey
      case Some(m) => Here(SkipBlank(m[|Quote(key)|..]))
  }

  function PlaceError(p: Place): int
    requires !p.Here?
  { if p.NoKey? then ENOENT else EINVAL }

  datatype BoolRead = BoolIs(value: bool) | NoBool(rc: int)

  function GetBool(json: string, key: string): BoolRead
  {
    var p := FindValue(json, key);
    if !p.Here? then NoBool(PlaceError(p))
    else if "true" <= p.text then BoolIs(true)
    else if "false" <= p.text then BoolIs(false)
    else NoBool(EINVAL)
  }

  datatype IntRead = IntIs(value: int) | NoInt(rc: int)

  function GetInt(json: string, key: string): IntRead
  {
    var p := FindValue(json, key);
    if !p.Here? then NoInt(PlaceError(p))
    else if p.text != "" && (p.text[0] == '-' || IsDigit(p.text[0])) then IntIs(Strtol(p.text))
    else NoInt(EINVAL)
  }

  lemma GetIntRc(json: string, key: string)
    ensures GetInt(json, key).NoInt? ==> GetInt(json, key).rc != 0
  {
  }

  datatype RealRead = RealIs(value: real) | NoReal(rc: int)

  function GetFloat(json: string, key: string): RealRead
  {
    var p := FindValue(json, key);
    if !p.Here? then NoReal(PlaceError(p))
    else if p.text != "" && (p.text[0] in {'-', '.'} || IsDigit(p.text[0])) then RealIs(Strtof(p.text))
    else NoReal(EINVAL)
  }

  /** `rc` and what the destination holds afterwards: a string whose closing quote is
      missing or out of reach empties it, every other error leaves it alone. */
  datatype StrRead = StrIs(text: string) | Emptied | NoStr(rc: int)

  function GetStr(json: string, key: string, cap: nat): StrRead
  {
    var p := FindValue(json, key);
    if cap == 0 then NoStr(EINVAL)
    else if !p.Here? then NoStr(PlaceError(p))
    else if p.text == "" || p.text[0] != '"' then NoStr(EINVAL)
    else
      match MemChr(p.text[1..], '"')
      case None => Emptied
      case Some(n) => if n < cap then StrIs(p.text[1..][..n]) else Emptied
  }

  function Rc(r: StrRead): int
  { match r case StrIs(_) => 0 case Emptied => EINVAL case NoStr(rc) => rc }

  function Into(r: StrRead, dest: string): string
  { match r case StrIs(t) => t case Emptied => "" case NoStr(_) => dest }

  // The extractors as they run: index-advancing loops over the text.

  /** The blank-skipping loop all four share; `pos` enters just behind the matched key. */
  method SkipBlanks(json: string, start: nat) returns (pos: nat)
    requires start <= |json|
    ensures pos <= |json| && json[pos..] == SkipBlank(json[start..])
  {
    pos := start;
    while pos < |json| && IsBlank(json[pos])
      invariant pos <= |json|
      invariant SkipBlank(json[pos..]) == SkipBlank(json[start..])
    {
      assert json[pos..][1..] == json[pos + 1..];
      pos := pos + 1;
    }
  }

  /** The opening of all four: key length, search, skip. */
  method Seek(json: string, key: string) returns (rc: int, pos: nat)
    ensures rc == 0 ==> pos <= |json| && FindValue(json, key) == Here(json[pos..])
    ensures rc != 0 ==> !FindValue(json, key).Here? && rc == PlaceError(FindValue(json, key))
  {
    pos := 0;
    if |key| >= CFG_STR_LEN { return EINVAL, pos; }
    var found := StrStr(json, Quote(key));
    match found {
      case None => rc := ENOENT;
      case Some(m) =>
        rc := 0;
        StrStrSuffix(json, Quote(key));
        pos := SkipBlanks(json, |json| - |m| + |key| + 2);
        assert json[|json| - |m| + |key| + 2..] == m[|Quote(key)|..];
    }
  }

  method JsonGetBool(json: string, key: string, dest: bool) returns (rc: int, out: bool)
    ensures rc == (match GetBool(json, key) case BoolIs(_) => 0 case NoBool(e) => e)
    ensures out == (match GetBool(json, key) case BoolIs(b) => b case NoBool(_) => dest)
  {
    var pos;
    out := dest;
    rc, pos := Seek(json, key);
    if rc != 0 { return; }
    if "true" <= json[pos..] { out := true; }
    else if "false" <= json[pos..] { out := false; }
    else { rc := EINVAL; }
  }

  method JsonGetInt(json: string, key: string, dest: int) returns (rc: int, out: int)
    ensures rc == (match GetInt(json, key) case IntIs(_) => 0 case NoInt(e) => e)
    ensures out == (match GetInt(json, key) case IntIs(v) => v case NoInt(_) => dest)
  {
    var pos;
    out := dest;
    rc, pos := Seek(json, key);
    if rc != 0 { return; }
    if pos < |json| && (json[pos] == '-' || IsDigit(json[pos])) { out := Strtol(json[pos..]); }
    else { rc := EINVAL; }
  }

  method JsonGetFloat(json: string, key: string, dest: real) returns (rc: int, out: real)
    ensures rc == (match GetFloat(json, key) case RealIs(_) => 0 case NoReal(e) => e)
    ensures out == (match GetFloat(json, key) case RealIs(v) => v case NoReal(_) => dest)
  {
    var pos;
    out := dest;
    rc, pos := Seek(json, key);
    if rc != 0 { return; }
    if pos < |json| && (json[pos] in {'-', '.'} || IsDigit(json[pos])) { out := Strtof(json[pos..]); }
    else { rc := EINVAL; }
  }

  /** The copy loop: at most cap - 1 characters up to the next quote or the end. */
  method CopyToQuote(body: string, cap: nat) returns (i: nat, out: string)
    requires cap > 0
    ensures i <= |body| && out == body[..i] && QuoteFree(out) && i < cap
    ensures i == |body| || body[i] == '"' || i == cap - 1
  {
    i, out := 0, "";
    while i < |body| && body[i] != '"' && i < cap - 1
      invariant i <= |body| && i < cap && out == body[..i] && QuoteFree(out)
    {
      out := out + [body[i]];
      i := i + 1;
    }
  }

  method JsonGetStr(json: string, key: string, dest: string, cap: nat) returns (rc: int, out: string)
    ensures rc == Rc(GetStr(json, key, cap)) && out == Into(GetStr(json, key, cap), dest)
  {
    out := dest;
    if |key| >= CFG_STR_LEN || cap == 0 { return EINVAL, out; }
    var pos;
    rc, pos := Seek(json, key);
    if rc != 0 { return; }
    if pos == |json| || json[pos] != '"' { return EINVAL, out; }
    var body := json[pos + 1..];
    assert body == json[pos..][1..];
    var i;
    i, out := CopyToQuote(body, cap);
    FirstQuote(body, i);
    if i == |body| || body[i] != '"' { return EINVAL, ""; }
  }

  lemma FirstQuote(body: string, i: nat)
    requires i <= |body| && QuoteFree(body[..i])
    ensures i < |body| && body[i] == '"' ==> MemChr(body, '"') == Some(i)
    ensures i < |body| && body[i] != '"' ==> MemChr(body, '"').Some? ==> MemChr(body, '"').value > i
    ensures i == |body| ==> MemChr(body, '"') == None
  {
    assert forall k :: 0 <= k < i ==> body[k] == body[..i][k] && body[..i][k] in body[..i];
    if i < |body| && body[i] == '"' {
      assert body == body[..i] + ['"'] + body[i + 1..];
      MemChrAfter(body[..i], '"', body[i + 1..]);
    }
  }

  // ---------------------------------------------------------------- quoted text

  /** One quoted token and the quote-free text behind it. */
  datatype Cell = Cell(tok: string, gap: string)

  function Render(cs: seq<Cell>): string
  { if cs == [] then "" else Quote(cs[0].tok) + cs[0].gap + Render(cs[1..]) }

  predicate Clean(cs: seq<Cell>) { forall c :: c in cs ==> QuoteFree(c.tok) && QuoteFree(c.gap) }

  /** Key is neither a token nor the text between two tokens. */
  predicate Avoids(cs: seq<Cell>, key: string) { forall c :: c in cs ==> c.tok != key && c.gap != key }

  predicate NulFree(cs: seq<Cell>) { forall c :: c in cs ==> NoNul(c.tok) && NoNul(c.gap) }

  lemma {:induction false} RenderNoNul(cs: seq<Cell>)
    requires NulFree(cs)
    ensures NoNul(Render(cs))
  {
    if cs != [] {
      assert cs[0] in cs;
      RenderNoNul(cs[1..]);
    }
  }

  lemma {:induction false} RenderCat(a: seq<Cell>, b: seq<Cell>)
    ensures Render(a + b) == Render(a) + Render(b)
  {
    if a == [] {
      assert a + b == b;
    } else {
      assert (a + b)[0] == a[0] && (a + b)[1..] == a[1..] + b;
      RenderCat(a[1..], b);
    }
  }

  lemma SearchStep(c: char, s: string, pat: string)
    requires pat != "" && !(pat <= [c] + s)
    ensures StrStr([c] + s, pat) == StrStr(s, pat)
  {
    assert ([c] + s)[1..] == s;
  }

  /** A quoted key can only start at a quote. */
  lemma {:induction false} SkipPlain(p: string, s: string, key: string)
    requires QuoteFree(p)
    ensures StrStr(p + s, Quote(key)) == StrStr(s, Quote(key))
  {
    if p == "" {
      assert p + s == s;
    } else {
      var t := p[1..] + s;
      assert p + s == [p[0]] + t;
      assert p[0] in p && Quote(key)[0] == '"';
      SearchStep(p[0], t, Quote(key));
      SkipPlain(p[1..], s, key);
    }
  }

  /** Between two consecutive quotes there is room for one word only. */
  lemma QuotedOnly(t: string, s: string, key: string)
    requires QuoteFree(t) && QuoteFree(key)
    requires Quote(key) <= Quote(t) + s
    ensures t == key
  {
    var q, x := Quote(key), Quote(t) + s;
    assert forall k :: 0 <= k < |key| ==> key[k] in key && q[k + 1] == key[k] == x[k + 1];
    assert forall k :: 0 <= k < |t| ==> t[k] in t && x[k + 1] == t[k];
    assert q[|key| + 1] == '"' == x[|key| + 1];
    assert x[|t| + 1] == '"';
    assert |t| == |key|;
  }

  lemma SkipToken(t: string, s: string, key: string)
    requires QuoteFree(t) && QuoteFree(key) && t != key
    ensures StrStr(Quote(t) + s, Quote(key)) == StrStr("\"" + s, Quote(key))
  {
    if Quote(key) <= Quote(t) + s { QuotedOnly(t, s, key); }
    assert Quote(t) + s == ['"'] + (t + ("\"" + s));
    SearchStep('"', t + ("\"" + s), Quote(key));
    SkipPlain(t, "\"" + s, key);
  }

  /** The closing quote of a token opens no occurrence of key unless the gap behind it spells key. */
  lemma SkipGap(g: string, s: string, key: string)
    requires QuoteFree(g) && QuoteFree(key) && g != key
    requires s == "" || s[0] == '"'
    ensures StrStr("\"" + (g + s), Quote(key)) == StrStr(s, Quote(key))
  {
    if s == "" {
      assert g + s == g;
      if Quote(key) <= "\"" + g { NoSecondQuote(g, key); }
    } else {
      assert "\"" + (g + s) == Quote(g) + s[1..];
      if Quote(key) <= "\"" + (g + s) { QuotedOnly(g, s[1..], key); }
    }
    SearchStep('"', g + s, Quote(key));
    SkipPlain(g, s, key);
  }

  lemma NoSecondQuote(g: string, key: string)
    requires QuoteFree(g)
    ensures !(Quote(key) <= "\"" + g)
  {
    var x := "\"" + g;
    assert |key| < |g| ==> x[|key| + 1] == g[|key|] && g[|key|] in g;
    assert Quote(key)[|key| + 1] == '"';
  }

  /** Text up to and including a cell that is not about key hides nothing behind it. */
  lemma SkipCell(c: Cell, s: string, key: string)
    requires QuoteFree(c.tok) && QuoteFree(c.gap) && QuoteFree(key)
    requires c.tok != key && c.gap != key
    requires s == "" || s[0] == '"'
    ensures StrStr(Quote(c.tok) + c.gap + s, Quote(key)) == StrStr(s, Quote(key))
  {
    assert Quote(c.tok) + c.gap + s == Quote(c.tok) + (c.gap + s);
    SkipToken(c.tok, c.gap + s, key);
    SkipGap(c.gap, s, key);
  }

  lemma RenderHead(cs: seq<Cell>)
    ensures Render(cs) == "" || Render(cs)[0] == '"'
  {
  }

  /** Searching cell by cell: cells that avoid the key are passed over. */
  lemma {:induction false} SearchPast(cs: seq<Cell>, s: string, key: string)
    requires Clean(cs) && Avoids(cs, key) && QuoteFree(key)
    requires s == "" || s[0] == '"'
    ensures StrStr(Render(cs) + s, Quote(key)) == StrStr(s, Quote(key))
  {
    hide StrStr, Quote;
    if cs == [] {
      assert Render(cs) + s == s;
    } else {
      assert cs[0] in cs;
      var t := Render(cs[1..]) + s;
      RenderHead(cs[1..]);
      Assoc(Quote(cs[0].tok) + cs[0].gap, Render(cs[1..]), s);
      SkipCell(cs[0], t, key);
      assert Clean(cs[1..]) && Avoids(cs[1..], key);
      SearchPast(cs[1..], s, key);
    }
  }

  /** The first-occurrence search of a key that no earlier token or gap spells. */
  lemma Finds(p: string, before: seq<Cell>, key: string, s: string)
    requires QuoteFree(p) && QuoteFree(key) && Clean(before) && Avoids(before, key)
    ensures StrStr(p + Render(before) + (Quote(key) + s), Quote(key)) == Some(Quote(key) + s)
  {
    assert p + Render(before) + (Quote(key) + s) == p + (Render(before) + (Quote(key) + s));
    SkipPlain(p, Render(before) + (Quote(key) + s), key);
    SearchPast(before, Quote(key) + s, key);
  }

  lemma RenderSplit(cs: seq<Cell>, k: nat)
    requires k < |cs|
    ensures Render(cs) == Render(cs[..k]) + (Quote(cs[k].tok) + (cs[k].gap + Render(cs[k + 1..])))
  {
    assert cs == cs[..k] + cs[k..];
    RenderCat(cs[..k], cs[k..]);
    assert cs[k..][0] == cs[k] && cs[k..][1..] == cs[k + 1..];
    Assoc(Quote(cs[k].tok), cs[k].gap, Render(cs[k + 1..]));
  }

  /** The same, for a key that is the k-th token of a rendered text. */
  lemma FindsCell(p: string, cs: seq<Cell>, k: nat)
    requires k < |cs| && QuoteFree(p) && Clean(cs) && Avoids(cs[..k], cs[k].tok)
    ensures var key := Quote(cs[k].tok);
            StrStr(p + Render(cs), key) == Some(key + (cs[k].gap + Render(cs[k + 1..])))
  {
    RenderSplit(cs, k);
    var s := cs[k].gap + Render(cs[k + 1..]);
    assert QuoteFree(cs[k].tok) && Clean(cs[..k]) by {
      assert cs[k] in cs && forall c :: c in cs[..k] ==> c in cs;
    }
    Finds(p, cs[..k], cs[k].tok, s);
    Assoc(p, Render(cs[..k]), Quote(cs[k].tok) + s);
  }

  /** The same with more text behind the cells. */
  lemma FindsCellIn(p: string, cs: seq<Cell>, k: nat, s: string)
    requires k < |cs| && QuoteFree(p) && Clean(cs) && Avoids(cs[..k], cs[k].tok)
    ensures var key := Quote(cs[k].tok);
            StrStr(p + Render(cs) + s, key) == Some(key + (cs[k].gap + (Render(cs[k + 1..]) + s)))
  {
    RenderSplit(cs, k);
    var q, a, g, r := Quote(cs[k].tok), Render(cs[..k]), cs[k].gap, Render(cs[k + 1..]);
    assert QuoteFree(cs[k].tok) && Clean(cs[..k]) by {
      assert cs[k] in cs && forall c :: c in cs[..k] ==> c in cs;
    }
    Finds(p, cs[..k], cs[k].tok, g + (r + s));
    Spread(p, a, q, g, r, s);
  }

  lemma Spread(p: string, a: string, q: string, g: string, r: string, s: string)
    ensures p + (a + (q + (g + r))) + s == p + a + (q + (g + (r + s)))
  {
    Assoc(g, r, s);
    Assoc(q, g + r, s);
    Assoc(a, q + (g + r), s);
    Assoc(p, a + (q + (g + r)), s);
    Assoc(p, a, q + (g + (r + s)));
  }

  /** The cells with more text behind the last one. */
  function Extend(cs: seq<Cell>, g: string): (r: seq<Cell>)
    requires cs != []
    ensures |r| == |cs| && r[..|cs| - 1] == cs[..|cs| - 1]
    ensures r[|cs| - 1] == Cell(cs[|cs| - 1].tok, cs[|cs| - 1].gap + g)
  { cs[..|cs| - 1] + [Cell(cs[|cs| - 1].tok, cs[|cs| - 1].gap + g)] }

  lemma RenderExtend(cs: seq<Cell>, g: string)
    requires cs != []
    ensures Render(Extend(cs, g)) == Render(cs) + g
  {
    var n := |cs| - 1;
    var last, wide := cs[n], Cell(cs[n].tok, cs[n].gap + g);
    assert cs == cs[..n] + [last];
    RenderCat(cs[..n], [last]);
    RenderCat(cs[..n], [wide]);
    assert Render([last]) == Quote(last.tok) + last.gap + "";
    assert Render([wide]) == Quote(last.tok) + (last.gap + g) + "";
  }

  lemma FindsNothing(p: string, cs: seq<Cell>, key: string)
    requires QuoteFree(p) && QuoteFree(key) && Clean(cs) && Avoids(cs, key)
    ensures StrStr(p + Render(cs), Quote(key)) == None
  {
    SkipPlain(p, Render(cs), key);
    SearchPast(cs, "", key);
    assert Render(cs) + "" == Render(cs);
  }

  // ---------------------------------------------------------------- reading what was printed

  function BoolText(b: bool): (s: string)
    ensures s != "" && forall c :: c in s ==> 'a' <= c <= 'z'
  { if b then "true" else "false" }

  predicate Blank(g: string) { forall c :: c in g ==> IsBlank(c) }

  /** The value text of a key whose first occurrence is known. */
  lemma ValueText(json: string, key: string, g: string, v: string)
    requires |key| < CFG_STR_LEN && Blank(g) && v != "" && !IsBlank(v[0])
    requires StrStr(json, Quote(key)) == Some(Quote(key) + (g + v))
    ensures FindValue(json, key) == Here(v)
  {
    assert (Quote(key) + (g + v))[|Quote(key)|..] == g + v;
    SkipBlankOver(g, v);
  }

  lemma ReadsStr(json: string, key: string, g: string, v: string, s: string, cap: nat)
    requires |key| < CFG_STR_LEN && Blank(g) && QuoteFree(v)
    requires StrStr(json, Quote(key)) == Some(Quote(key) + (g + (Quote(v) + s)))
    ensures |v| < cap ==> GetStr(json, key, cap) == StrIs(v)
    ensures 0 < cap <= |v| ==> GetStr(json, key, cap) == Emptied
  {
    ValueText(json, key, g, Quote(v) + s);
    ToNextQuote(v, s);
  }

  lemma ToNextQuote(v: string, s: string)
    requires QuoteFree(v)
    ensures (Quote(v) + s)[0] == '"'
    ensures MemChr((Quote(v) + s)[1..], '"') == Some(|v|) && (Quote(v) + s)[1..][..|v|] == v
  {
    var body := (Quote(v) + s)[1..];
    assert body == v + ['"'] + s;
    MemChrAfter(v, '"', s);
  }

  lemma ReadsBool(json: string, key: string, g: string, b: bool, s: string)
    requires |key| < CFG_STR_LEN && Blank(g)
    requires StrStr(json, Quote(key)) == Some(Quote(key) + (g + (BoolText(b) + s)))
    ensures GetBool(json, key) == BoolIs(b)
  {
    ValueText(json, key, g, BoolText(b) + s);
    TrueFalse(b, s);
  }

  lemma TrueFalse(b: bool, s: string)
    ensures "true" <= BoolText(b) + s <==> b
    ensures "false" <= BoolText(b) + s <==> !b
  {
    assert (BoolText(b) + s)[0] == BoolText(b)[0];
  }

  lemma ReadsInt(json: string, key: string, g: string, n: nat, s: string)
    requires |key| < CFG_STR_LEN && Blank(g) && (s != "" ==> !IsDigit(s[0]))
    requires StrStr(json, Quote(key)) == Some(Quote(key) + (g + (Dec(n) + s)))
    ensures GetInt(json, key) == IntIs(if n <= 0x7fff_ffff then n else 0x7fff_ffff)
  {
    var d := Dec(n);
    assert (d + s)[0] == d[0] && d[0] in d;
    ValueText(json, key, g, d + s);
    StrtolDec(n, s);
  }

  lemma ReadsDec2(json: string, key: string, g: string, x: real, s: string)
    requires |key| < CFG_STR_LEN && Blank(g) && (s != "" ==> !IsDigit(s[0]))
    requires StrStr(json, Quote(key)) == Some(Quote(key) + (g + (Dec2(x) + s)))
    ensures GetFloat(json, key) == RealIs(ToHundredths(x))
  {
    var d := Dec2(x);
    assert (d + s)[0] == d[0];
    ValueText(json, key, g, d + s);
    StrtofDec2(x, s);
  }
}
