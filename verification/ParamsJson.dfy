// The channel parameter file as a JSON document.
module ParamsJson {
  import opened CStrings
  import opened JsonScan
  import opened Json
  import opened ConfigJson
  import opened ChannelParams

  /** Three members for each channel, keyed by its name. */
  function EntryJson(e: Entry, rest: Members): Members {
    Cons("ch." + e.name + ".period_ms", Literal(Dec(e.params.periodMs)),
      Cons("ch." + e.name + ".enabled", Literal(BoolText(e.params.enabled)),
        Cons("ch." + e.name + ".invert", Literal(BoolText(e.params.invert)), rest)))
  }

  function EntriesJson(es: seq<Entry>): (ms: Members)
    ensures ms.Nil? <==> es == []
  { if es == [] then Nil else EntryJson(es[0], EntriesJson(es[1..])) }

  /** The layouts of this printer. */
  lemma LineLayouts()
    ensures Strip(",\n  ") == "," && Strip("\n" + "}\n") == "}" && Strip("\n" + "}") == "}"
  {
    assert Strip("\n") == "" && !Quoted("\n", false) && Strip("}\n") == "}" && Strip("}") == "}";
    CompactCat("\n", "}\n", false);
    CompactCat("\n", "}", false);
    hide Compact, Quoted;
  }

  function Key(e: Entry, m: nat): string
  { "ch." + e.name + if m == 0 then ".period_ms" else if m == 1 then ".enabled" else ".invert" }

  function LineValue(e: Entry, m: nat): (v: string)
    ensures QuoteFree(v) && forall c :: c in v ==> !Space(c)
  {
    BoolSolid(e.params.enabled);
    BoolSolid(e.params.invert);
    DigitsSolid(Dec(e.params.periodMs));
    if m == 0 then Dec(e.params.periodMs) else if m == 1 then BoolText(e.params.enabled) else BoolText(e.params.invert)
  }

  lemma LineCell(es: seq<Entry>, i: nat, m: nat, nxt: string)
    requires i < |es| && m < 3
    ensures CellsOf(es, nxt)[3 * i + m]
         == Cell(Key(es[i], m),
                 ": " + (LineValue(es[i], m) + (if m < 2 || i < |es| - 1 then ",\n  " else "\n" + nxt)))
  {
    var k := 3 * i + m;
    assert k / 3 == i && k % 3 == m;
    hide Dec, BoolText;
  }

  /** The first two lines of an entry in front of the third. */
  lemma EntrySqueezes(es: seq<Entry>, i: nat, rest: Members, nxt: string)
    requires i < |es|
    requires Squeeze(CellsOf(es, nxt)[3 * i + 2..])
          == ShowMembers(Cons(Key(es[i], 2), Literal(LineValue(es[i], 2)), rest)) + "}"
    ensures Squeeze(CellsOf(es, nxt)[3 * i..]) == ShowMembers(EntryJson(es[i], rest)) + "}"
  {
    var cs, k, e := CellsOf(es, nxt), 3 * i, es[i];
    LineCell(es, i, 0, nxt);
    LineCell(es, i, 1, nxt);
    LineLayouts();
    EntryIs(e, rest);
    hide *;
    var invert := Cons(Key(e, 2), Literal(LineValue(e, 2)), rest);
    LiteralThen(cs, k + 1, Key(e, 1), LineValue(e, 1), ",\n  ", invert, "}");
    LiteralThen(cs, k, Key(e, 0), LineValue(e, 0), ",\n  ", Cons(Key(e, 1), Literal(LineValue(e, 1)), invert), "}");
  }

  lemma EntryIs(e: Entry, rest: Members)
    ensures EntryJson(e, rest)
         == Cons(Key(e, 0), Literal(LineValue(e, 0)),
                 Cons(Key(e, 1), Literal(LineValue(e, 1)), Cons(Key(e, 2), Literal(LineValue(e, 2)), rest)))
  {
  }

  /** The third line of an entry, in front of more entries or of the end. */
  lemma NextLine(es: seq<Entry>, i: nat, rest: Members, nxt: string)
    requires i + 1 < |es| && !rest.Nil? && Squeeze(CellsOf(es, nxt)[3 * i + 3..]) == ShowMembers(rest) + "}"
    ensures Squeeze(CellsOf(es, nxt)[3 * i + 2..])
         == ShowMembers(Cons(Key(es[i], 2), Literal(LineValue(es[i], 2)), rest)) + "}"
  {
    LineCell(es, i, 2, nxt);
    LineLayouts();
    hide *;
    LiteralThen(CellsOf(es, nxt), 3 * i + 2, Key(es[i], 2), LineValue(es[i], 2), ",\n  ", rest, "}");
  }

  lemma LastLine(es: seq<Entry>, i: nat, nxt: string)
    requires i + 1 == |es| && nxt in {"}\n", "}"}
    ensures Squeeze(CellsOf(es, nxt)[3 * i + 2..])
         == ShowMembers(Cons(Key(es[i], 2), Literal(LineValue(es[i], 2)), Nil)) + "}"
  {
    LineCell(es, i, 2, nxt);
    LineLayouts();
    NothingBehind(CellsOf(es, nxt));
    hide *;
    LiteralLast(CellsOf(es, nxt), 3 * i + 2, Key(es[i], 2), LineValue(es[i], 2), "\n" + nxt, "}");
  }

  lemma {:induction false} LinesSqueeze(es: seq<Entry>, i: nat, nxt: string)
    requires i < |es| && nxt in {"}\n", "}"}
    ensures Squeeze(CellsOf(es, nxt)[3 * i..]) == ShowMembers(EntriesJson(es[i..])) + "}"
    decreases |es| - i
  {
    assert es[i..][0] == es[i] && es[i..][1..] == es[i + 1..];
    var rest := EntriesJson(es[i + 1..]);
    assert EntriesJson(es[i..]) == EntryJson(es[i], rest);
    hide *;
    if i + 1 < |es| {
      LinesSqueeze(es, i + 1, nxt);
      NextLine(es, i, rest, nxt);
    } else {
      LastLine(es, i, nxt);
    }
    EntrySqueezes(es, i, rest, nxt);
  }

  lemma NothingBehind(cs: seq<Cell>)
    ensures "}" + Squeeze(cs[|cs|..]) == "}"
  {
  }

  /** What a successful save of channel parameters leaves is a JSON document, blanks aside: the values
      of every channel under its name, in order. */
  lemma ParamFileIsJson(es: seq<Entry>)
    requires es != [] && Fits(es) && PlainNames(es)
    ensures Compact(FileText(es), false) == Show(Object(EntriesJson(es)))
  {
    FileIsCells(es);
    hide FileText, Fits, PlainNames, Full;
    var nxt := if FileText(es) == Full(es, "}\n") then "}\n" else "}";
    FullIsJson(es, nxt);
  }

  lemma FullIsJson(es: seq<Entry>, nxt: string)
    requires es != [] && PlainNames(es) && nxt in {"}\n", "}"}
    ensures Compact(Full(es, nxt), false) == Show(Object(EntriesJson(es)))
  {
    var cs := CellsOf(es, nxt);
    assert QuoteFree(nxt) && es[0..] == es && cs[0..] == cs;
    CellsClean(es, nxt);
    OpenLayout();
    LinesSqueeze(es, 0, nxt);
    assert Show(Object(EntriesJson(es))) == "{" + ShowMembers(EntriesJson(es)) + "}";
    assert Full(es, nxt) == "{\n  " + Render(cs);
    hide *;
    CompactCells(cs);
    CompactCat("{\n  ", Render(cs), false);
    Assoc("{", ShowMembers(EntriesJson(es)), "}");
  }
}
