// JSON documents: their compact text, and how a text of cells becomes one when
// the blanks between its tokens are dropped.
module Json {
  import opened CStrings
  import opened JsonScan

  /** A document without arrays; a literal is a number, true or false. */
  datatype Json = Text(s: string) | Literal(t: string) | Object(ms: Members)

  datatype Members = Nil | Cons(key: string, value: Json, rest: Members)

  function Show(j: Json): string {
    match j
    case Text(s) => Quote(s)
    case Literal(t) => t
    case Object(ms) => "{" + ShowMembers(ms) + "}"
  }

  function ShowMembers(ms: Members): string {
    match ms
    case Nil => ""
    case Cons(k, v, rest) => Quote(k) + ":" + Show(v) + if rest.Nil? then "" else "," + ShowMembers(rest)
  }

  // ---------------------------------------------------------------- dropping blanks

  predicate Space(c: char) { c in {' ', '\t', '\r', '\n'} }

  /** The text without the blanks outside its quoted strings. */
  function Compact(t: string, quoted: bool): string {
    if t == "" then ""
    else if t[0] == '"' then [t[0]] + Compact(t[1..], !quoted)
    else if !quoted && Space(t[0]) then Compact(t[1..], quoted)
    else [t[0]] + Compact(t[1..], quoted)
  }

  /** Whether the text ends inside a quoted string. */
  function Quoted(t: string, quoted: bool): bool
  { if t == "" then quoted else Quoted(t[1..], if t[0] == '"' then !quoted else quoted) }

  function Strip(g: string): string { Compact(g, false) }

  lemma {:induction false} CompactCat(a: string, b: string, quoted: bool)
    ensures Compact(a + b, quoted) == Compact(a, quoted) + Compact(b, Quoted(a, quoted))
    ensures Quoted(a + b, quoted) == Quoted(b, Quoted(a, quoted))
    decreases |a|
  {
    if a == "" {
      assert a + b == b;
    } else {
      assert (a + b)[0] == a[0] && (a + b)[1..] == a[1..] + b;
      CompactCat(a[1..], b, if a[0] == '"' then !quoted else quoted);
    }
  }

  lemma {:induction false} QuoteFreeStays(g: string, quoted: bool)
    requires QuoteFree(g)
    ensures Quoted(g, quoted) == quoted && (quoted ==> Compact(g, quoted) == g)
  {
    if g != "" {
      assert g[0] in g;
      QuoteFreeStays(g[1..], quoted);
      assert g == [g[0]] + g[1..];
    }
  }

  /** A text without blanks stays as it is. */
  lemma {:induction false} SolidStays(v: string)
    requires QuoteFree(v) && forall c :: c in v ==> !Space(c)
    ensures Strip(v) == v
  {
    if v != "" {
      assert v[0] in v;
      SolidStays(v[1..]);
      assert v == [v[0]] + v[1..];
    }
  }

  lemma TokenStays(tok: string)
    requires QuoteFree(tok)
    ensures Compact(Quote(tok), false) == Quote(tok) && !Quoted(Quote(tok), false)
  {
    var t := tok + "\"";
    assert Quote(tok)[0] == '"' && Quote(tok)[1..] == t;
    QuoteFreeStays(tok, true);
    CompactCat(tok, "\"", true);
    assert Compact("\"", true) == "\"" && !Quoted("\"", true);
    assert "\"" + t == Quote(tok);
  }

  /** The tokens with what is left of the layout behind each. */
  function Squeeze(cs: seq<Cell>): string
  { if cs == [] then "" else Quote(cs[0].tok) + (Strip(cs[0].gap) + Squeeze(cs[1..])) }

  lemma {:induction false} CompactCells(cs: seq<Cell>)
    requires Clean(cs)
    ensures Compact(Render(cs), false) == Squeeze(cs) && !Quoted(Render(cs), false)
  {
    hide Compact, Quoted, Quote;
    if cs == [] {
      EmptyStays();
    } else {
      assert cs[0] in cs;
      var q, g, r := Quote(cs[0].tok), cs[0].gap, Render(cs[1..]);
      CompactCells(cs[1..]);
      TokenStays(cs[0].tok);
      QuoteFreeStays(g, false);
      CompactCat(q, g, false);
      CompactCat(q + g, r, false);
      Assoc(q, Strip(g), Squeeze(cs[1..]));
    }
  }

  lemma EmptyStays()
    ensures Compact("", false) == "" && !Quoted("", false)
  {
  }

  lemma {:induction false} SqueezeCat(a: seq<Cell>, b: seq<Cell>)
    ensures Squeeze(a + b) == Squeeze(a) + Squeeze(b)
  {
    hide Strip, Quote;
    if a == [] {
      assert a + b == b;
    } else {
      assert (a + b)[0] == a[0] && (a + b)[1..] == a[1..] + b;
      SqueezeCat(a[1..], b);
      Assoc(Strip(a[0].gap), Squeeze(a[1..]), Squeeze(b));
      Assoc(Quote(a[0].tok), Strip(a[0].gap) + Squeeze(a[1..]), Squeeze(b));
    }
  }

  /** One cell of many. */
  lemma SqueezeAt(cs: seq<Cell>, k: nat)
    requires k < |cs|
    ensures Squeeze(cs[k..]) == Quote(cs[k].tok) + (Strip(cs[k].gap) + Squeeze(cs[k + 1..]))
  {
    assert cs[k..][0] == cs[k] && cs[k..][1..] == cs[k + 1..];
  }

  // ---------------------------------------------------------------- members

  /** A member with more text behind it. */
  function Member(key: string, value: string, z: string): string { Quote(key) + (":" + (value + z)) }

  /** What stands behind a member: the other members and the text behind them. */
  function Behind(rest: Members, z: string): string { if rest.Nil? then z else "," + (ShowMembers(rest) + z) }

  lemma ShowCons(k: string, v: Json, rest: Members, z: string)
    ensures ShowMembers(Cons(k, v, rest)) + z == Member(k, Show(v), Behind(rest, z))
  {
    hide Show, Quote;
    var q, s, r := Quote(k), Show(v), if rest.Nil? then "" else "," + ShowMembers(rest);
    assert r + z == Behind(rest, z);
    hide ShowMembers, Behind;
    assert q + ":" + s + r + z == q + (":" + (s + (r + z)));
  }

  lemma MemberObject(k: string, ms: Members, z: string)
    ensures Member(k, Show(Object(ms)), z) == Member(k, "{", ShowMembers(ms) + ("}" + z))
  {
    hide Quote, ShowMembers;
    assert "{" + ShowMembers(ms) + "}" + z == "{" + (ShowMembers(ms) + ("}" + z));
  }

  /** The layouts of the printers. */
  lemma Layouts()
    ensures Strip(": ") == ":" && Strip(",\n    ") == "," && Strip(": {\n    ") == ":{" && Strip("\n  },\n  ") == "},"
  {
  }

  lemma ShortLayouts()
    ensures Strip(": { ") == ":{" && Strip(", ") == "," && Strip("{\n  ") == "{" && Strip("\n  ") == "" && Strip("") == ""
  {
  }

  // ---------------------------------------------------------------- cut texts

  lemma {:induction false} CompactKeeps(t: string, quoted: bool, c: char)
    requires c in t && !Space(c)
    ensures c in Compact(t, quoted)
  {
    if t[0] != c { CompactKeeps(t[1..], if t[0] == '"' then !quoted else quoted, c); }
  }

  /** Cutting anything but blanks off the end of a text changes its compact form. */
  lemma CutShows(a: string, b: string, c: char)
    requires c in b && !Space(c)
    ensures Compact(a, false) != Compact(a + b, false)
  {
    CompactCat(a, b, false);
    CompactKeeps(b, Quoted(a, false), c);
  }
}
