// The network and ROS settings in the printed text: which of them the loader
// gets back, and exactly when it gets back all of them.
module ConfigHead {
  import opened Options
  import opened CStrings
  import opened JsonScan
  import opened ConfigText

  // ---------------------------------------------------------------- tokens of the head

  /** Tokens of the head that are configured values; the others are keys. */
  predicate IsValue(k: nat) { k in {2, 5, 7, 9, 11, 13, 16, 18} }

  /** Keys of the head that the loader searches for; "network" and "ros" are not among them. */
  predicate IsSearched(k: nat) { k in {1, 3, 4, 6, 8, 10, 12, 15, 17} }

  /** No value printed in front of key k spells it. */
  predicate KeyClear(c: Config, k: nat)
  { forall j :: 0 <= j < k < HEAD_CELLS && IsValue(j) ==> HeadTok(c, j) != HeadTok(c, k) }

  /** No configured string equals a key that is searched for and printed behind it. */
  predicate HeadClear(c: Config) { forall k :: 0 <= k < HEAD_CELLS && IsSearched(k) ==> KeyClear(c, k) }

  /** Every string fits its field and holds no quote (and, as a C string, no NUL). */
  predicate PlainHead(c: Config)
  {
    && |c.network.mac| < MAC_LEN && |c.network.agentPort| < PORT_LEN
    && (forall k :: 0 <= k < HEAD_CELLS && IsValue(k) ==>
          |HeadTok(c, k)| < CFG_STR_LEN && QuoteFree(HeadTok(c, k)) && NoNul(HeadTok(c, k)))
  }

  lemma LabelForm(c: Config, k: nat)
    requires k < HEAD_CELLS && !IsValue(k)
    ensures var s := HeadTok(c, k);
            && QuoteFree(s) && NoNul(s) && 2 <= |s| < CFG_STR_LEN && '{' !in s && '}' !in s
            && |s| == (if k in {0, 6, 8} then 7 else if k in {1, 14} then 3 else if k == 3 then 4 else if k == 4 then 2
                       else if k == 10 then 8 else if k == 12 then 10 else 9)
            && s[0] == (if k in {0, 6, 15, 17} then 'n' else if k == 1 then 'm' else if k == 3 then 'd'
                        else if k == 4 then 'i' else if k == 8 then 'g' else if k == 14 then 'r' else 'a')
            && (k == 15 ==> s[1] == 'o') && (k == 17 ==> s[1] == 'a')
            && (k == 0 ==> s[3] == 'w') && (k == 6 ==> s[3] == 'm')
  {
  }

  lemma LabelsDiffer(c: Config, j: nat, k: nat)
    requires j < k < HEAD_CELLS && !IsValue(j) && !IsValue(k)
    ensures HeadTok(c, j) != HeadTok(c, k)
  {
    hide HeadTok;
    LabelForm(c, j);
    LabelForm(c, k);
  }

  lemma NoLabelIsSection(c: Config, k: nat)
    requires k < HEAD_CELLS && !IsValue(k)
    ensures HeadTok(c, k) != "channels" && HeadTok(c, k) != "rc_trim"
  {
    hide HeadTok;
    LabelForm(c, k);
    assert "channels"[0] == 'c' && "rc_trim"[0] == 'r' && |"rc_trim"| == 7;
  }

  lemma HeadGapForm(c: Config, k: nat)
    requires k < HEAD_CELLS
    ensures QuoteFree(HeadGap(c, k)) && NoNul(HeadGap(c, k)) && HeadGap(c, k) != "" && HeadGap(c, k)[0] in {':', ',', '\n'}
    ensures k != 0 && k != 14 ==> '{' !in HeadGap(c, k)
  {
    hide BoolText;
  }

  lemma HeadClean(c: Config)
    requires PlainHead(c)
    ensures Clean(HeadCells(c)) && NulFree(HeadCells(c))
  {
    hide HeadTok, HeadGap;
    var cs := HeadCells(c);
    forall x | x in cs ensures QuoteFree(x.tok) && QuoteFree(x.gap) && NoNul(x.tok) && NoNul(x.gap) {
      var j :| 0 <= j < HEAD_CELLS && cs[j] == x;
      HeadGapForm(c, j);
      if !IsValue(j) { LabelForm(c, j); }
    }
  }

  // ---------------------------------------------------------------- where a key is found

  /** The first cell whose token is key, or the end. */
  function FirstAt(cs: seq<Cell>, key: string): (i: nat)
    ensures i <= |cs| && (i < |cs| ==> cs[i].tok == key)
    ensures forall j :: 0 <= j < i ==> cs[j].tok != key
  {
    if cs == [] then 0
    else if cs[0].tok == key then 0
    else
      assert forall j :: 1 <= j < |cs| ==> cs[j] == cs[1..][j - 1];
      1 + FirstAt(cs[1..], key)
  }

  /** The search for a key that some cell's token spells, and no gap, stops at the first such cell. */
  lemma FoundAt(p: string, cs: seq<Cell>, key: string, s: string)
    requires QuoteFree(p) && Clean(cs) && (forall x :: x in cs ==> x.gap != key) && FirstAt(cs, key) < |cs|
    ensures var i := FirstAt(cs, key);
            StrStr(p + Render(cs) + s, Quote(key)) == Some(Quote(key) + (cs[i].gap + (Render(cs[i + 1..]) + s)))
  {
    hide Render, StrStr;
    var i := FirstAt(cs, key);
    forall x | x in cs[..i] ensures x.tok != key && x.gap != key {
      var j :| 0 <= j < i && cs[j] == x;
      assert cs[j] in cs;
    }
    FindsCellIn(p, cs, i, s);
  }

  lemma GapIsNoKey(c: Config, k: nat, key: string)
    requires k < HEAD_CELLS && key != "" && key[0] !in {':', ',', '\n'}
    ensures HeadGap(c, k) != key
  {
    HeadGapForm(c, k);
  }

  /** A key of the head is found at its own place or at a value in front of it. */
  lemma HeadFirst(c: Config, k: nat)
    requires IsSearched(k)
    ensures var i := FirstAt(HeadCells(c), HeadTok(c, k));
            i <= k && (i < k ==> IsValue(i) && HeadTok(c, i) == HeadTok(c, k))
    ensures KeyClear(c, k) <==> FirstAt(HeadCells(c), HeadTok(c, k)) == k
  {
    hide HeadTok, HeadGap;
    var cs, i := HeadCells(c), FirstAt(HeadCells(c), HeadTok(c, k));
    assert forall j :: 0 <= j < HEAD_CELLS ==> cs[j].tok == HeadTok(c, j);
    if i < k && !IsValue(i) { LabelsDiffer(c, i, k); }
  }

  lemma HeadFound(c: Config, k: nat, s: string)
    requires PlainHead(c) && IsSearched(k)
    ensures var i := FirstAt(HeadCells(c), HeadTok(c, k));
            && i <= k
            && StrStr(HeadText(c) + s, Quote(HeadTok(c, k)))
               == Some(Quote(HeadTok(c, k)) + (HeadGap(c, i) + (Render(HeadCells(c)[i + 1..]) + s)))
  {
    HeadFirst(c, k);
    HeadClean(c);
    NoGapIsKey(c, k);
    var cs, i := HeadCells(c), FirstAt(HeadCells(c), HeadTok(c, k));
    assert cs[i].gap == HeadGap(c, i);
    hide HeadTok, HeadGap, StrStr, Render, HeadCells, PlainHead, KeyClear, Quote;
    FoundAt("{\n  ", cs, HeadTok(c, k), s);
  }

  lemma NoGapIsKey(c: Config, k: nat)
    requires IsSearched(k)
    ensures forall x :: x in HeadCells(c) ==> x.gap != HeadTok(c, k)
  {
    hide HeadTok, HeadGap;
    LabelForm(c, k);
    var cs := HeadCells(c);
    forall x | x in cs ensures x.gap != HeadTok(c, k) {
      var j :| 0 <= j < HEAD_CELLS && cs[j] == x;
      GapIsNoKey(c, j, HeadTok(c, k));
    }
  }

  // ---------------------------------------------------------------- a clear key restores its value

  function Cap(k: nat): nat { if k == 1 then MAC_LEN else if k == 12 then PORT_LEN else CFG_STR_LEN }

  lemma ReadsHeadStr(c: Config, k: nat, s: string, dest: string)
    requires PlainHead(c) && IsSearched(k) && k != 3 && KeyClear(c, k)
    ensures StrOr(HeadText(c) + s, HeadTok(c, k), Cap(k), dest) == HeadTok(c, k + 1)
  {
    StringKey(c, k);
    hide HeadTok, HeadGap, HeadText, Quote, GetStr, StrStr;
    var cs, v := HeadCells(c), HeadTok(c, k + 1);
    HeadFirst(c, k);
    HeadFound(c, k, s);
    LabelForm(c, k);
    assert cs[k + 1..][0] == cs[k + 1] && cs[k + 1..][1..] == cs[k + 2..];
    var r := HeadGap(c, k + 1) + Render(cs[k + 2..]);
    assert Render(cs[k + 1..]) == Quote(v) + HeadGap(c, k + 1) + Render(cs[k + 2..]);
    Assoc(Quote(v), HeadGap(c, k + 1), Render(cs[k + 2..]));
    Assoc(Quote(v), r, s);
    ReadsStr(HeadText(c) + s, HeadTok(c, k), ": ", v, r + s, Cap(k));
  }

  /** Every searched key but "dhcp" is followed by its string. */
  lemma StringKey(c: Config, k: nat)
    requires PlainHead(c) && IsSearched(k) && k != 3
    ensures HeadGap(c, k) == ": " && IsValue(k + 1) && |HeadTok(c, k + 1)| < Cap(k) && QuoteFree(HeadTok(c, k + 1))
  {
    assert IsValue(k + 1);
  }

  // A value with a quote: the first of them comes back cut at it.

  lemma CellsInFront(c: Config, k: nat)
    requires IsSearched(k) && KeyClear(c, k)
    requires forall j :: 0 <= j < k && IsValue(j) ==> QuoteFree(HeadTok(c, j))
    ensures Clean(HeadCells(c)[..k + 1]) && Avoids(HeadCells(c)[..k], HeadTok(c, k))
  {
    hide HeadTok, HeadGap;
    var cs := HeadCells(c);
    forall j | 0 <= j <= k
      ensures QuoteFree(cs[j].tok) && QuoteFree(cs[j].gap) && (j < k ==> HeadTok(c, k) !in {cs[j].tok, cs[j].gap})
    {
      HeadGapForm(c, j);
      NoGapIsKey(c, k);
      if !IsValue(j) {
        LabelForm(c, j);
        if j < k { LabelsDiffer(c, j, k); }
      }
    }
    forall x | x in cs[..k + 1] ensures QuoteFree(x.tok) && QuoteFree(x.gap) {
      var j :| 0 <= j <= k && cs[j] == x;
    }
    forall x | x in cs[..k] ensures HeadTok(c, k) !in {x.tok, x.gap} {
      var j :| 0 <= j < k && cs[j] == x;
    }
  }

  /** A key is found at its cell whatever the cells behind it hold. */
  lemma FoundInFront(p: string, cs: seq<Cell>, k: nat, s: string)
    requires k + 1 < |cs| && QuoteFree(p) && Clean(cs[..k + 1]) && Avoids(cs[..k], cs[k].tok)
    ensures var key := Quote(cs[k].tok);
            StrStr(p + Render(cs) + s, key)
            == Some(key + (cs[k].gap + (Quote(cs[k + 1].tok) + (cs[k + 1].gap + Render(cs[k + 2..])) + s)))
  {
    hide Quote, StrStr, Render;
    var front, q, r := cs[..k + 1], Quote(cs[k + 1].tok), cs[k + 1].gap + Render(cs[k + 2..]);
    RenderSplit(cs, k + 1);
    Assoc(p, Render(front), q + r);
    Assoc(p + Render(front), q + r, s);
    assert front[..k] == cs[..k] && front[k + 1..] == [];
    FindsCellIn(p, front, k, q + r + s);
    NoCells(q + r + s);
  }

  lemma NoCells(s: string)
    ensures Render([]) + s == s
  {
  }

  lemma KeyCell(c: Config, k: nat)
    requires IsSearched(k) && k != 3
    ensures HeadCells(c)[k] == Cell(HeadTok(c, k), ": ") && HeadCells(c)[k + 1].tok == HeadTok(c, k + 1)
    ensures |HeadTok(c, k)| < CFG_STR_LEN
  {
    LabelForm(c, k);
    hide HeadTok;
  }

  /** If no value in front of a clear key holds a quote, its value comes back cut at its first quote. */
  lemma CutAtQuote(c: Config, k: nat, a: string, b: string, s: string, dest: string)
    requires IsSearched(k) && k != 3 && KeyClear(c, k)
    requires forall j :: 0 <= j < k && IsValue(j) ==> QuoteFree(HeadTok(c, j))
    requires HeadTok(c, k + 1) == a + ("\"" + b) && QuoteFree(a) && |a| < Cap(k)
    ensures StrOr(HeadText(c) + s, HeadTok(c, k), Cap(k), dest) == a
  {
    hide HeadTok, HeadGap, Quote, GetStr, StrStr, HeadCells, Render;
    var cs := HeadCells(c);
    KeyCell(c, k);
    CellsInFront(c, k);
    hide IsSearched, IsValue, KeyClear;
    var r := cs[k + 1].gap + Render(cs[k + 2..]);
    FoundInFront("{\n  ", cs, k, s);
    QuotedSplit(a, b, r, s);
    ReadsStr(HeadText(c) + s, HeadTok(c, k), ": ", a, b + ("\"" + (r + s)), Cap(k));
  }

  lemma QuotedSplit(a: string, b: string, r: string, s: string)
    ensures Quote(a + ("\"" + b)) + r + s == Quote(a) + (b + ("\"" + (r + s)))
  {
  }

  lemma ReadsDhcp(c: Config, s: string)
    requires PlainHead(c) && KeyClear(c, 3)
    ensures GetBool(HeadText(c) + s, "dhcp") == BoolIs(c.network.dhcp)
  {
    hide HeadText, Render, StrStr, GetBool;
    HeadFirst(c, 3);
    HeadFound(c, 3, s);
    var b, r := BoolText(c.network.dhcp), Render(HeadCells(c)[4..]) + s;
    Assoc(b, ",\n    ", r);
    Assoc(": ", b + ",\n    ", r);
    ReadsBool(HeadText(c) + s, "dhcp", ": ", c.network.dhcp, ",\n    " + r);
  }

  // ---------------------------------------------------------------- a shadowed key keeps what RAM held

  /** Behind a value there is a comma or a closing brace, never a value. */
  lemma BehindValue(c: Config, i: nat, t: string)
    requires IsValue(i) && i < HEAD_CELLS - 1
    ensures var v := SkipBlank(HeadGap(c, i) + t); v != "" && v[0] in {',', '}'}
  {
    if i == 13 {
      assert HeadGap(c, i) + t == "\n  " + ("},\n  " + t);
      SkipBlankOver("\n  ", "},\n  " + t);
    } else {
      assert (HeadGap(c, i) + t)[0] == ',';
    }
  }

  lemma ShadowHides(c: Config, k: nat, s: string, cap: nat, dest: string)
    requires PlainHead(c) && IsSearched(k) && !KeyClear(c, k)
    ensures StrOr(HeadText(c) + s, HeadTok(c, k), cap, dest) == dest
    ensures GetBool(HeadText(c) + s, HeadTok(c, k)).NoBool?
  {
    hide HeadTok, HeadGap, HeadText, HeadCells, Render, StrStr, KeyClear;
    var i := FirstAt(HeadCells(c), HeadTok(c, k));
    HeadFirst(c, k);
    HeadFound(c, k, s);
    LabelForm(c, k);
    var t := Render(HeadCells(c)[i + 1..]) + s;
    BehindValue(c, i, t);
    FoundBehind(HeadText(c) + s, HeadTok(c, k), HeadGap(c, i) + t);
    hide IsSearched, IsValue;
  }

  lemma FoundBehind(json: string, key: string, t: string)
    requires |key| < CFG_STR_LEN && StrStr(json, Quote(key)) == Some(Quote(key) + t)
    ensures FindValue(json, key) == Here(SkipBlank(t))
  {
    assert (Quote(key) + t)[|Quote(key)|..] == t;
  }

  // ---------------------------------------------------------------- exactly when the head is restored

  /** The field behind string key k. */
  function Field(k: nat, n: Network, r: Ros): string {
    if k == 1 then n.mac else if k == 4 then n.ip else if k == 6 then n.netmask else if k == 8 then n.gateway
    else if k == 10 then n.agentIp else if k == 12 then n.agentPort else if k == 15 then r.nodeName else r.ns
  }

  lemma FieldParsed(c: Config, json: string, k: nat, n: Network, r: Ros)
    requires IsSearched(k) && k != 3
    ensures Field(k, ParseNetwork(json, n), ParseRos(json, r)) == StrOr(json, HeadTok(c, k), Cap(k), Field(k, n, r))
    ensures HeadTok(c, k + 1) == Field(k, c.network, c.ros)
  {
    hide StrOr, GetBool;
  }

  predicate Restored(c: Config, json: string, n: Network, r: Ros)
  { ParseNetwork(json, n) == c.network && ParseRos(json, r) == c.ros }

  lemma RestoredByFields(c: Config, json: string, n: Network, r: Ros)
    requires ParseNetwork(json, n).dhcp == c.network.dhcp
    requires forall k :: IsSearched(k) && k != 3 ==>
               Field(k, ParseNetwork(json, n), ParseRos(json, r)) == Field(k, c.network, c.ros)
    ensures Restored(c, json, n, r)
  {
    hide ParseNetwork, ParseRos;
    var p, q := ParseNetwork(json, n), ParseRos(json, r);
    assert Field(1, p, q) == Field(1, c.network, c.ros) && Field(4, p, q) == Field(4, c.network, c.ros)
        && Field(6, p, q) == Field(6, c.network, c.ros) && Field(8, p, q) == Field(8, c.network, c.ros)
        && Field(10, p, q) == Field(10, c.network, c.ros) && Field(12, p, q) == Field(12, c.network, c.ros)
        && Field(15, p, q) == Field(15, c.network, c.ros) && Field(17, p, q) == Field(17, c.network, c.ros);
  }

  lemma ClearRestores(c: Config, s: string, n: Network, r: Ros)
    requires PlainHead(c) && HeadClear(c)
    ensures Restored(c, HeadText(c) + s, n, r)
  {
    hide PlainHead, KeyClear, HeadText, HeadTok, StrOr, GetBool;
    assert IsSearched(3) && KeyClear(c, 3);
    ReadsDhcp(c, s);
    DhcpParsed(HeadText(c) + s, n);
    forall k | IsSearched(k) && k != 3
      ensures Field(k, ParseNetwork(HeadText(c) + s, n), ParseRos(HeadText(c) + s, r)) == Field(k, c.network, c.ros)
    {
      FieldParsed(c, HeadText(c) + s, k, n, r);
      ReadsHeadStr(c, k, s, Field(k, n, r));
    }
    RestoredByFields(c, HeadText(c) + s, n, r);
  }

  lemma DhcpParsed(json: string, n: Network)
    ensures ParseNetwork(json, n).dhcp == match GetBool(json, "dhcp") case BoolIs(b) => b case NoBool(_) => n.dhcp
  {
    hide StrOr, GetBool;
  }

  /** RAM contents that differ from the configuration in every field. */
  function OtherNetwork(n: Network): Network
  {
    Network(n.mac + "x", !n.dhcp, n.ip + "x", n.netmask + "x", n.gateway + "x", n.agentIp + "x", n.agentPort + "x")
  }

  function OtherRos(r: Ros): Ros { Ros(r.nodeName + "x", r.ns + "x") }

  lemma ShadowLoses(c: Config, s: string, k: nat)
    requires PlainHead(c) && IsSearched(k) && !KeyClear(c, k)
    ensures !Restored(c, HeadText(c) + s, OtherNetwork(c.network), OtherRos(c.ros))
  {
    hide PlainHead, KeyClear, HeadText, HeadTok, StrOr, GetBool, ParseNetwork, ParseRos;
    var n, r, json := OtherNetwork(c.network), OtherRos(c.ros), HeadText(c) + s;
    ShadowHides(c, k, s, Cap(k), Field(k, n, r));
    if k == 3 {
      DhcpParsed(json, n);
      assert HeadTok(c, 3) == "dhcp" by { DhcpKey(c); }
    } else {
      FieldParsed(c, json, k, n, r);
      OtherDiffers(k, c.network, c.ros);
    }
  }

  lemma DhcpKey(c: Config)
    ensures HeadTok(c, 3) == "dhcp"
  {
  }

  lemma OtherDiffers(k: nat, n: Network, r: Ros)
    ensures Field(k, OtherNetwork(n), OtherRos(r)) != Field(k, n, r)
  {
    assert |Field(k, OtherNetwork(n), OtherRos(r))| == |Field(k, n, r)| + 1;
  }

  /** Network and ROS settings are restored from every state of RAM, whatever text follows the
      head, exactly when no string equals a searched key printed behind it. */
  lemma HeadExactly(c: Config, s: string)
    requires PlainHead(c)
    ensures (forall n: Network, r: Ros :: Restored(c, HeadText(c) + s, n, r)) <==> HeadClear(c)
  {
    hide PlainHead, KeyClear, Restored, HeadText;
    if HeadClear(c) {
      forall n: Network, r: Ros ensures Restored(c, HeadText(c) + s, n, r) {
        ClearRestores(c, s, n, r);
      }
    } else {
      var k :| IsSearched(k) && !KeyClear(c, k);
      ShadowLoses(c, s, k);
    }
  }

  /** One such input: with the MAC string "dhcp" the flag keeps whatever RAM held. */
  lemma ShadowedFlagIsLost(c: Config, s: string, n: Network)
    requires PlainHead(c) && c.network.mac == "dhcp"
    ensures ParseNetwork(HeadText(c) + s, n).dhcp == n.dhcp
  {
    hide PlainHead, StrOr, GetBool, HeadText;
    assert HeadTok(c, 2) == HeadTok(c, 3) && IsValue(2) && IsSearched(3);
    assert !KeyClear(c, 3);
    ShadowHides(c, 3, s, 0, "");
    DhcpParsed(HeadText(c) + s, n);
  }
}
