// The installed workspace script: pruning, topological ordering and cycle
// reporting over a dictionary of package dependencies.
module PackageOrder {

  type Graph = map<string, set<string>>

  // ---------------------------------------------------------------- string order

  /** Python's order of strings. */
  predicate Leq(a: string, b: string)
  { a == "" || (b != "" && (a[0] < b[0] || (a[0] == b[0] && Leq(a[1..], b[1..])))) }

  /** This is the order of a dictionary: a prefix comes first, and otherwise the lower character in the
      first place where two strings differ. */
  predicate Alphabetical(a: string, b: string)
  { a <= b || exists k :: 0 <= k < |a| && k < |b| && LowerAt(a, b, k) }

  predicate LowerAt(a: string, b: string, k: nat)
    requires k < |a| && k < |b|
  { a[..k] == b[..k] && a[k] < b[k] }

  lemma {:induction false} LeqIsAlphabetical(a: string, b: string)
    ensures Leq(a, b) <==> Alphabetical(a, b)
  {
    if a != "" && b != "" && a[0] == b[0] {
      LeqIsAlphabetical(a[1..], b[1..]);
      RestDecides(a, b);
    } else if a != "" && b != "" {
      FirstDecides(a, b);
    }
  }

  lemma RestDecides(a: string, b: string)
    requires a != "" && b != "" && a[0] == b[0]
    ensures Alphabetical(a, b) <==> Alphabetical(a[1..], b[1..])
  {
    var x, y := a[1..], b[1..];
    assert a == [a[0]] + x && b == [b[0]] + y;
    forall k: nat | k < |x| && k < |y| ensures LowerAt(a, b, k + 1) <==> LowerAt(x, y, k) {
      assert a[..k + 1] == [a[0]] + x[..k] && b[..k + 1] == [b[0]] + y[..k];
      assert x[..k] == a[..k + 1][1..] && y[..k] == b[..k + 1][1..];
    }
    assert !LowerAt(a, b, 0);
    hide LowerAt;
    if k :| 0 <= k < |a| && k < |b| && LowerAt(a, b, k) { assert LowerAt(x, y, k - 1); }
  }

  lemma FirstDecides(a: string, b: string)
    requires a != "" && b != "" && a[0] != b[0]
    ensures Alphabetical(a, b) <==> a[0] < b[0]
  {
    if a[0] < b[0] { assert a[..0] == b[..0]; }
    assert LowerAt(a, b, 0) <==> a[0] < b[0];
    forall k | 0 < k < |a| && k < |b| ensures !LowerAt(a, b, k) {
      assert a[..k][0] != b[..k][0];
    }
  }

  lemma {:induction false} LeqTotal(a: string, b: string)
    ensures Leq(a, b) || Leq(b, a)
  {
    if a != "" && b != "" && a[0] == b[0] { LeqTotal(a[1..], b[1..]); }
  }

  lemma {:induction false} LeqAntisymmetric(a: string, b: string)
    requires Leq(a, b) && Leq(b, a)
    ensures a == b
  {
    if a != "" {
      LeqAntisymmetric(a[1..], b[1..]);
      assert a == [a[0]] + a[1..] && b == [b[0]] + b[1..];
    }
  }

  lemma {:induction false} LeqTransitive(a: string, b: string, c: string)
    requires Leq(a, b) && Leq(b, c)
    ensures Leq(a, c)
  {
    if a != "" && a[0] == b[0] && b[0] == c[0] { LeqTransitive(a[1..], b[1..], c[1..]); }
  }

  predicate Less(a: string, b: string) { a != b && Alphabetical(a, b) }

  /** Lexicographic order of lists of names. */
  ghost predicate ListLess(x: seq<string>, y: seq<string>)
  { exists i :: 0 <= i < |x| && i < |y| && x[..i] == y[..i] && Less(x[i], y[i]) }

  // ---------------------------------------------------------------- orders and cycles

  function Names(s: seq<string>): set<string> { set x | x in s }

  predicate NoRepeat(s: seq<string>) { forall i, j :: 0 <= i < j < |s| ==> s[i] != s[j] }

  /** Every name behind all its dependencies. */
  predicate Layered(g: Graph, o: seq<string>)
  { forall i :: 0 <= i < |o| ==> o[i] in g && g[o[i]] <= Names(o[..i]) }

  /** Every package exactly once, behind all its dependencies. */
  predicate ValidOrder(g: Graph, o: seq<string>)
  { NoRepeat(o) && Names(o) == g.Keys && Layered(g, o) }

  /** Ready to follow the packages already ordered. */
  predicate Ready(g: Graph, done: set<string>, n: string) { n in g && n !in done && g[n] <= done }

  /** Each name is the least that was ready. */
  ghost predicate Greedy(g: Graph, o: seq<string>)
  {
    forall i :: 0 <= i < |o| ==>
      Ready(g, Names(o[..i]), o[i]) && (forall m :: Ready(g, Names(o[..i]), m) ==> Leq(o[i], m))
  }

  predicate Closed(g: Graph) { forall k :: k in g ==> g[k] <= g.Keys }

  /** Consecutive packages depend on the next, the last on the first. */
  predicate Cycle(g: Graph, c: seq<string>)
  {
    && c != [] && (forall i :: 0 <= i < |c| ==> c[i] in g)
    && (forall i :: 0 <= i < |c| - 1 ==> c[i + 1] in g[c[i]])
    && c[0] in g[c[|c| - 1]]
  }

  /** No member can be ordered before some other member. */
  predicate Stuck(g: Graph, s: set<string>) { s <= g.Keys && forall n :: n in s ==> !(g[n] <= g.Keys - s) }

  /** Some package of p depends on n. */
  predicate DependedIn(g: Graph, p: set<string>, n: string) { exists m :: m in p && m in g && n in g[m] }

  /** The greatest stuck set. */
  ghost predicate MaxStuck(g: Graph, b: set<string>) { Stuck(g, b) && forall s :: Stuck(g, s) ==> s <= b }

  /** Every member has a dependent inside. */
  predicate Held(g: Graph, s: set<string>) { forall n :: n in s ==> DependedIn(g, s, n) }

  /** The greatest such set within b. */
  ghost predicate MaxHeld(g: Graph, b: set<string>, e: set<string>)
  { e <= b && Held(g, e) && forall t :: t <= b && Held(g, t) ==> t <= e }

  /** The greedy order comes before every other valid order. */
  lemma GreedyIsLeast(g: Graph, o: seq<string>, other: seq<string>)
    requires Greedy(g, o) && ValidOrder(g, o) && ValidOrder(g, other)
    ensures o == other || ListLess(o, other)
  {
    SameLength(o, other);
    if o != other {
      var i := FirstDifference(o, other);
      assert Ready(g, Names(o[..i]), other[i]) by {
        assert other[i] !in other[..i];
      }
      LeqIsAlphabetical(o[i], other[i]);
      assert Less(o[i], other[i]);
    }
  }

  lemma {:induction false} SetSize(s: seq<string>)
    requires NoRepeat(s)
    ensures |Names(s)| == |s|
  {
    if s != [] {
      var init := s[..|s| - 1];
      SetSize(init);
      assert Names(s) == Names(init) + {s[|s| - 1]};
    }
  }

  lemma SameLength(a: seq<string>, b: seq<string>)
    requires NoRepeat(a) && NoRepeat(b) && Names(a) == Names(b)
    ensures |a| == |b|
  {
    SetSize(a);
    SetSize(b);
  }

  lemma {:induction false} FirstDifference(a: seq<string>, b: seq<string>) returns (i: nat)
    requires |a| == |b| && a != b
    ensures i < |a| && a[..i] == b[..i] && a[i] != b[i]
  {
    if a[0] != b[0] {
      i := 0;
    } else {
      assert a == [a[0]] + a[1..] && b == [b[0]] + b[1..];
      var j := FirstDifference(a[1..], b[1..]);
      i := j + 1;
      assert a[..i] == [a[0]] + a[1..][..j] && b[..i] == [b[0]] + b[1..][..j];
    }
  }

  lemma NamesSnoc(o: seq<string>, i: nat)
    requires i < |o|
    ensures Names(o[..i + 1]) == Names(o[..i]) + {o[i]} && Names(o[..i + 1]) <= Names(o)
  {
    assert o[..i + 1] == o[..i] + [o[i]];
  }

  lemma ReadyIsNotStuck(g: Graph, s: set<string>, before: set<string>, n: string)
    requires Stuck(g, s) && before !! s && before <= g.Keys && n in g && g[n] <= before
    ensures n !in s
  {
    assert g[n] <= g.Keys - s;
  }

  lemma {:induction false} PrefixAvoidsStuck(g: Graph, o: seq<string>, s: set<string>, i: nat)
    requires Layered(g, o) && Stuck(g, s) && i <= |o|
    ensures Names(o[..i]) !! s && Names(o[..i]) <= g.Keys
  {
    hide Names, Stuck;
    if i > 0 {
      PrefixAvoidsStuck(g, o, s, i - 1);
      ReadyIsNotStuck(g, s, Names(o[..i - 1]), o[i - 1]);
      NamesSnoc(o, i - 1);
    } else {
      assert Names(o[..0]) == {} by { NoNames(o[..0]); }
    }
  }

  lemma NoNames(o: seq<string>)
    requires o == []
    ensures Names(o) == {}
  {
  }

  /** A valid order leaves no stuck set: its first member in the order would be ready. */
  lemma OrderLeavesNoneStuck(g: Graph, o: seq<string>, s: set<string>)
    requires ValidOrder(g, o) && Stuck(g, s)
    ensures s == {}
  {
    PrefixAvoidsStuck(g, o, s, |o|);
    assert o[..|o|] == o;
  }

  /** The packages on a cycle are stuck, and each is depended on by another of them. */
  lemma CycleIsStuck(g: Graph, c: seq<string>)
    requires Cycle(g, c)
    ensures Stuck(g, Names(c)) && Held(g, Names(c)) && Names(c) != {}
  {
    forall n | n in Names(c) ensures !(g[n] <= g.Keys - Names(c)) && DependedIn(g, Names(c), n) {
      var i :| 0 <= i < |c| && c[i] == n;
      var next, prev := if i < |c| - 1 then c[i + 1] else c[0], if i > 0 then c[i - 1] else c[|c| - 1];
      assert next in c && prev in c;
      assert next in g[n] && n in g[prev];
    }
    assert c[0] in Names(c);
  }

  lemma InNames(o: seq<string>)
    ensures forall n :: n in o <==> n in Names(o)
  {
  }

  lemma OneNameMore(o: seq<string>, n: string)
    ensures Names(o + [n]) == Names(o) + {n}
  {
  }

  lemma OneNameLess(o: seq<string>, rest: seq<string>, n: string)
    requires n in o && n !in rest && (forall m :: m in rest ==> m in o) && forall m :: m in o && m != n ==> m in rest
    ensures Names(rest) == Names(o) - {n}
  {
  }

  /** In a closed graph a non-empty stuck set contains a cycle: walk until a name repeats. */
  lemma StuckHasCycle(g: Graph, s: set<string>) returns (c: seq<string>)
    requires Closed(g) && Stuck(g, s) && s != {}
    ensures Cycle(g, c) && Names(c) <= s
  {
    var start :| start in s;
    var p := [start];
    while |p| <= |s|
      invariant 0 < |p| <= |s| + 1 && Names(p) <= s
      invariant forall i :: 0 <= i < |p| - 1 ==> p[i + 1] in g[p[i]]
      decreases |s| - |p|
    {
      var last := p[|p| - 1];
      assert last in Names(p);
      var next :| next in g[last] && next !in g.Keys - s;
      assert g[last] <= g.Keys;
      p := p + [next];
    }
    var i, j := Repeats(p, s);
    CloseWalk(g, s, p, i, j);
    c := p[i..j];
  }

  lemma CloseWalk(g: Graph, s: set<string>, p: seq<string>, i: nat, j: nat)
    requires s <= g.Keys && Names(p) <= s && i < j < |p| && p[i] == p[j]
    requires forall k :: 0 <= k < |p| - 1 ==> p[k] in g && p[k + 1] in g[p[k]]
    ensures Cycle(g, p[i..j]) && Names(p[i..j]) <= s
  {
    assert p[j] in g[p[j - 1]];
  }

  /** A list longer than the set it lives in repeats a name. */
  lemma Repeats(p: seq<string>, s: set<string>) returns (i: nat, j: nat)
    requires Names(p) <= s && |p| > |s|
    ensures i < j < |p| && p[i] == p[j]
  {
    if NoRepeat(p) {
      SetSize(p);
      SubsetSize(Names(p), s);
      assert false;
    }
    i, j :| 0 <= i < j < |p| && p[i] == p[j];
  }

  lemma {:induction false} SubsetSize(a: set<string>, b: set<string>)
    requires a <= b
    ensures |a| <= |b|
  {
    assert b == a + (b - a);
  }

  /** Ordering succeeds exactly on graphs without a cycle, self-dependency included. */
  lemma OrderableIffAcyclic(g: Graph, o: seq<string>, s: set<string>)
    requires Closed(g)
    ensures ValidOrder(g, o) ==> forall c :: !Cycle(g, c)
    ensures Stuck(g, s) && s != {} ==> exists c :: Cycle(g, c)
  {
    if ValidOrder(g, o) {
      forall c ensures !Cycle(g, c) {
        if Cycle(g, c) {
          CycleIsStuck(g, c);
          OrderLeavesNoneStuck(g, o, Names(c));
        }
      }
    }
    if Stuck(g, s) && s != {} { var c := StuckHasCycle(g, s); }
  }

  // ---------------------------------------------------------------- the script

  datatype Outcome = Ordered(names: seq<string>) | Circular(names: seq<string>)

  /** The list comprehension of names without remaining dependencies. */
  function WithoutDeps(names: seq<string>, deps: Graph): (r: seq<string>)
    requires forall n :: n in names ==> n in deps
    ensures forall n :: n in r <==> n in names && deps[n] == {}
  {
    if names == [] then []
    else if deps[names[0]] == {} then [names[0]] + WithoutDeps(names[1..], deps)
    else WithoutDeps(names[1..], deps)
  }

  /** list.remove of a name that occurs once. */
  function Without(names: seq<string>, n: string): (r: seq<string>)
    ensures forall m :: m in r ==> m in names
    ensures forall m :: m in names && m != n ==> m in r
    ensures NoRepeat(names) ==> NoRepeat(r) && n !in r
    ensures n in names ==> |r| == |names| - 1
  {
    if names == [] then []
    else if names[0] == n then
      assert names == [n] + names[1..];
      names[1..]
    else
      var r := Without(names[1..], n);
      assert names == [names[0]] + names[1..];
      assert NoRepeat(names) ==> names[0] !in names[1..];
      [names[0]] + r
  }

  /** sort() and [0]. */
  method Least(names: seq<string>) returns (best: string)
    requires names != []
    ensures best in names && forall n :: n in names ==> Leq(best, n) && Alphabetical(best, n)
  {
    best := names[0];
    LeqTotal(best, best);
    for i := 1 to |names|
      invariant best in names && forall k :: 0 <= k < i ==> Leq(best, names[k])
    {
      LeqTotal(best, names[i]);
      if !Leq(best, names[i]) {
        forall k | 0 <= k < i ensures Leq(names[i], names[k]) { LeqTransitive(names[i], best, names[k]); }
        LeqTotal(names[i], names[i]);
        best := names[i];
      }
    }
    forall n | n in names ensures Alphabetical(best, n) { LeqIsAlphabetical(best, n); }
  }

  /** The dictionary: keys in insertion order, and the dependency sets. */
  class Packages {
    var keys: seq<string>
    var deps: Graph

    ghost predicate Valid()
      reads this
    { NoRepeat(keys) && Names(keys) == deps.Keys }

    constructor (keys: seq<string>, deps: Graph)
      requires NoRepeat(keys) && Names(keys) == deps.Keys
      ensures Valid() && this.keys == keys && this.deps == deps
    {
      this.keys, this.deps := keys, deps;
    }

    /** The last step of get_packages: dependencies outside the workspace are dropped. */
    method Prune()
      requires Valid()
      modifies this
      ensures Valid() && keys == old(keys) && deps.Keys == old(deps.Keys) && Closed(deps)
      ensures forall k :: k in deps ==> deps[k] == old(deps[k]) * deps.Keys
    {
      ghost var all := deps.Keys;
      var names := set k | k in keys;
      for i := 0 to |keys|
        invariant keys == old(keys) && deps.Keys == all
        invariant forall j :: 0 <= j < i ==> deps[keys[j]] == old(deps[keys[j]]) * all
        invariant forall j :: i <= j < |keys| ==> deps[keys[j]] == old(deps[keys[j]])
      {
        assert keys[i] in Names(keys);
        var pruned := set d | d in deps[keys[i]] && d in names;
        assert pruned == old(deps[keys[i]]) * all;
        deps := deps[keys[i] := pruned];
      }
      forall k | k in deps ensures deps[k] == old(deps[k]) * deps.Keys {
        assert k in Names(keys);
        var j :| 0 <= j < |keys| && keys[j] == k;
      }
    }

    /** One pass over the values: everything some package still depends on. */
    method Depended() returns (d: set<string>)
      requires Valid()
      ensures IsDepended(deps, d)
    {
      d := {};
      for i := 0 to |keys|
        invariant forall n :: n in d <==> exists j :: 0 <= j < i && n in deps[keys[j]]
      {
        assert keys[i] in Names(keys);
        d := d + deps[keys[i]];
      }
      forall n ensures n in d <==> DependedIn(deps, deps.Keys, n) {
        if DependedIn(deps, deps.Keys, n) {
          var m :| m in deps && n in deps[m];
          assert m in Names(keys);
          var j :| 0 <= j < |keys| && keys[j] == m;
          assert n in deps[keys[j]];
        }
        if n in d {
          var j :| 0 <= j < |keys| && n in deps[keys[j]];
          assert keys[j] in Names(keys);
        }
      }
    }

    /** Deletes the packages outside d. */
    method Keep(d: set<string>)
      requires Valid()
      modifies this
      ensures Valid() && Names(keys) == old(Names(keys)) * d && |keys| <= |old(keys)|
      ensures |keys| == |old(keys)| ==> keys == old(keys)
      ensures deps == map k | k in old(deps) && k in d :: old(deps)[k]
    {
      var kept: seq<string> := [];
      for i := 0 to |keys|
        invariant |kept| <= i && keys == old(keys) && deps == old(deps)
        invariant NoRepeat(kept) && Names(kept) == Names(keys[..i]) * d
        invariant |kept| == i ==> kept == keys[..i]
      {
        NamesSnoc(keys, i);
        assert keys[i] !in Names(keys[..i]);
        if keys[i] in d {
          assert Names(kept + [keys[i]]) == Names(kept) + {keys[i]};
          kept := kept + [keys[i]];
        }
        assert keys[..i + 1] == keys[..i] + [keys[i]];
      }
      assert keys[..|keys|] == keys;
      deps := map k | k in deps && k in d :: deps[k];
      keys := kept;
    }

    /** reduce_cycle_set: leaves the greatest set in which every package has a dependent inside. */
    method ReduceCycleSet()
      requires Valid()
      modifies this
      ensures Valid() && MaxHeld(old(deps), old(deps.Keys), deps.Keys)
    {
      hide Held, Names, NoRepeat;
      ghost var g := deps;
      ghost var settled := false;
      var last: set<string> := {};
      while |keys| > 0
        invariant Valid() && Rest(g, deps)
        invariant forall t :: t <= g.Keys && Held(g, t) ==> t <= deps.Keys
        invariant last != {} ==> deps.Keys <= last
        invariant settled ==> last != {} && IsDepended(deps, last)
        decreases |keys|, if settled then 0 else 1
      {
        var depended := Depended();
        KeepsHeld(g, deps, depended);
        SomeKey(keys, deps.Keys);
        ghost var before, n := deps, |keys|;
        assert settled ==> last == depended;
        Keep(depended);
        assert deps.Keys == before.Keys * depended;
        if last != {} {
          if last == depended {
            assert deps.Keys == before.Keys;
            AllHeld(g, before, depended);
            return;
          }
        }
        settled := |keys| == n;
        last := depended;
        if settled { assert deps == before; }
      }
      assert deps.Keys == {} by { NoNames(keys); }
      assert Held(g, deps.Keys) by { NoneHeld(g, deps.Keys); }
    }

    /** Removes an ordered package from every dependency set. */
    method DropDependency(n: string)
      requires Valid()
      modifies this`deps
      ensures Valid() && deps.Keys == old(deps.Keys)
      ensures forall k :: k in deps ==> deps[k] == old(deps[k]) - {n}
    {
      for i := 0 to |keys|
        invariant deps.Keys == old(deps.Keys)
        invariant forall j :: 0 <= j < i ==> deps[keys[j]] == old(deps[keys[j]]) - {n}
        invariant forall j :: i <= j < |keys| ==> deps[keys[j]] == old(deps[keys[j]])
      {
        assert keys[i] in Names(keys);
        if n in deps[keys[i]] { deps := deps[keys[i] := deps[keys[i]] - {n}]; }
      }
      forall k | k in deps ensures deps[k] == old(deps[k]) - {n} {
        assert k in Names(keys);
        var j :| 0 <= j < |keys| && keys[j] == k;
      }
    }

    /** The error message's list: sorted(packages). */
    method SortedKeys() returns (sorted: seq<string>)
      requires Valid()
      ensures NoRepeat(sorted) && Names(sorted) == deps.Keys
      ensures forall i, j :: 0 <= i < j < |sorted| ==> Alphabetical(sorted[i], sorted[j])
    {
      hide Leq, Alphabetical;
      var left := keys;
      sorted := [];
      while left != []
        invariant NoRepeat(left) && NoRepeat(sorted) && Names(left) !! Names(sorted)
        invariant Names(left) + Names(sorted) == deps.Keys
        invariant forall i, j :: 0 <= i < j < |sorted| ==> Alphabetical(sorted[i], sorted[j])
        invariant forall n, m :: n in sorted && m in left ==> Alphabetical(n, m)
        decreases |left|
      {
        var n := Least(left);
        assert n in Names(left);
        var rest := Without(left, n);
        assert Names(left) == Names(rest) + {n};
        assert Names(sorted + [n]) == Names(sorted) + {n};
        left, sorted := rest, sorted + [n];
      }
      assert Names(left) == {} by { NoNames(left); }
    }

    /** The error: reduce what is left, and list it sorted. */
    method ReportCircular(ghost g: Graph, ghost done: set<string>, ghost blocked: set<string>) returns (r: Outcome)
      requires Valid() && blocked !! done && blocked + done == g.Keys == deps.Keys
      requires forall k :: k in g ==> deps[k] == g[k] - done
      modifies this
      ensures r.Circular? && MaxHeld(g, blocked, Names(r.names)) && NoRepeat(r.names)
      ensures forall i, j :: 0 <= i < j < |r.names| ==> Alphabetical(r.names[i], r.names[j])
    {
      hide MaxHeld, Leq, Alphabetical, NoRepeat;
      ghost var rest := deps;
      ReduceCycleSet();
      HeldIsBlocked(g, rest, done, blocked, deps.Keys);
      var names := SortedKeys();
      r := Circular(names);
    }

    /** order_packages: the greedy topological order, or the packages that hold the cycles.
        `blocked` is the set of packages that no order can place. */
    method OrderPackages() returns (r: Outcome, ghost blocked: set<string>)
      requires Valid()
      modifies this
      ensures r.Ordered? ==> ValidOrder(old(deps), r.names) && Greedy(old(deps), r.names)
      ensures r.Circular? ==> blocked != {} && MaxStuck(old(deps), blocked)
                              && MaxHeld(old(deps), blocked, Names(r.names)) && NoRepeat(r.names)
      ensures r.Circular? ==> forall i, j :: 0 <= i < j < |r.names| ==> Alphabetical(r.names[i], r.names[j])
    {
      ghost var g := deps;
      blocked := {};
      var toBeOrdered := keys;
      var ordered: seq<string> := [];
      assert Layered(g, ordered) && Greedy(g, ordered) && NoRepeat(ordered);
      NoNames(ordered);
      hide Layered, Greedy, MaxStuck, MaxHeld, Leq, Alphabetical, NoRepeat, Names, Without, WithoutDeps;
      while toBeOrdered != []
        invariant Valid() && deps.Keys == g.Keys
        invariant NoRepeat(toBeOrdered) && NoRepeat(ordered)
        invariant Names(toBeOrdered) !! Names(ordered) && Names(toBeOrdered) + Names(ordered) == g.Keys
        invariant forall k :: k in g ==> deps[k] == g[k] - Names(ordered)
        invariant Layered(g, ordered) && Greedy(g, ordered)
        decreases |toBeOrdered|
      {
        InNames(toBeOrdered);
        var ready := WithoutDeps(toBeOrdered, deps);
        if ready == [] {
          blocked := Names(toBeOrdered);
          assert toBeOrdered[0] in toBeOrdered;
          NothingReady(g, deps, ordered, blocked, ready);
          r := ReportCircular(g, Names(ordered), blocked);
          return r, blocked;
        }
        var name := Least(ready);
        TakeReady(g, deps, ordered, toBeOrdered, ready, name);
        var rest := Without(toBeOrdered, name);
        OneNameLess(toBeOrdered, rest, name);
        OneNameMore(ordered, name);
        toBeOrdered := rest;
        ordered := ordered + [name];
        DropDependency(name);
      }
      assert Names(toBeOrdered) == {} by { NoNames(toBeOrdered); }
      r := Ordered(ordered);
    }

    /** Pruning, then ordering, as the script does it: the least of all valid orders, or, exactly
        when there is a cycle, a report that holds every cycle. */
    method OrderWorkspace() returns (r: Outcome)
      requires Valid()
      modifies this
      ensures var g := Pruned(old(deps));
              && (r.Circular? <==> exists c :: Cycle(g, c))
              && (r.Ordered? ==> LeastOrder(g, r.names))
              && (r.Circular? ==> r.names != [] && forall c :: Cycle(g, c) ==> Names(c) <= Names(r.names))
      ensures r.Circular? ==> forall i, j :: 0 <= i < j < |r.names| ==> Alphabetical(r.names[i], r.names[j])
    {
      hide ValidOrder, Greedy, Cycle, MaxStuck, MaxHeld, Names, ListLess, Closed, Alphabetical;
      Prune();
      ghost var g := deps;
      assert g == Pruned(old(deps));
      ghost var blocked;
      r, blocked := OrderPackages();
      if r.Ordered? { OrderedMeans(g, r.names); } else { CircularMeans(g, blocked, r.names); }
    }
  }

  function Pruned(g: Graph): Graph { map k | k in g :: g[k] * g.Keys }

  ghost predicate LeastOrder(g: Graph, o: seq<string>)
  { ValidOrder(g, o) && forall other :: ValidOrder(g, other) ==> other == o || ListLess(o, other) }

  lemma OrderedMeans(g: Graph, o: seq<string>)
    requires Closed(g) && ValidOrder(g, o) && Greedy(g, o)
    ensures LeastOrder(g, o) && forall c :: !Cycle(g, c)
  {
    hide Greedy, Cycle, ListLess, Closed;
    OrderableIffAcyclic(g, o, {});
    forall other | ValidOrder(g, other) ensures other == o || ListLess(o, other) {
      GreedyIsLeast(g, o, other);
    }
  }

  lemma CircularMeans(g: Graph, blocked: set<string>, names: seq<string>)
    requires Closed(g) && blocked != {} && MaxStuck(g, blocked) && MaxHeld(g, blocked, Names(names))
    ensures names != [] && (exists c :: Cycle(g, c)) && forall c :: Cycle(g, c) ==> Names(c) <= Names(names)
  {
    hide Cycle, Closed, MaxStuck, MaxHeld;
    ReportHoldsCycles(g, blocked, Names(names));
  }

  /** Appending the least ready name keeps the order layered and greedy. */
  lemma TakeReady(g: Graph, deps: Graph, ordered: seq<string>, left: seq<string>, ready: seq<string>, name: string)
    requires Layered(g, ordered) && Greedy(g, ordered) && NoRepeat(ordered)
    requires Names(left) !! Names(ordered) && Names(left) + Names(ordered) == g.Keys == deps.Keys
    requires forall k :: k in g ==> deps[k] == g[k] - Names(ordered)
    requires forall n :: n in ready <==> n in left && n in deps && deps[n] == {}
    requires name in ready && forall n :: n in ready ==> Leq(name, n)
    ensures name in left && NoRepeat(ordered + [name])
    ensures Layered(g, ordered + [name]) && Greedy(g, ordered + [name])
  {
    assert name in Names(left);
    var o := ordered + [name];
    forall i | 0 <= i < |o| ensures o[..i] == ordered[..i] || (i == |ordered| && o[..i] == ordered) {
    }
    assert g[name] - Names(ordered) == {};
    forall m | Ready(g, Names(ordered), m) ensures m in ready {
      assert m in Names(left);
    }
    forall i | 0 <= i < |o|
      ensures Ready(g, Names(o[..i]), o[i]) && (forall m :: Ready(g, Names(o[..i]), m) ==> Leq(o[i], m))
    {
      if i < |ordered| { assert o[i] == ordered[i] && o[..i] == ordered[..i]; }
      else {
        assert o[..i] == ordered && o[i] == name;
        assert deps[name] == {};
        AllInside(g[name], Names(ordered));
        assert name !in Names(ordered);
        assert Ready(g, Names(ordered), name);
      }
    }
  }

  lemma AllInside(a: set<string>, b: set<string>)
    requires a - b == {}
    ensures a <= b
  {
    assert a == a - b + a * b;
  }

  /** With nothing ready, what is left is the greatest stuck set. */
  lemma NothingReady(g: Graph, deps: Graph, ordered: seq<string>, blocked: set<string>, ready: seq<string>)
    requires Layered(g, ordered) && blocked !! Names(ordered) && blocked + Names(ordered) == g.Keys == deps.Keys
    requires forall k :: k in g ==> deps[k] == g[k] - Names(ordered)
    requires ready == [] && forall n :: n in ready <==> n in blocked && deps[n] == {}
    ensures MaxStuck(g, blocked)
  {
    assert g.Keys - blocked == Names(ordered);
    forall n | n in blocked ensures !(g[n] <= g.Keys - blocked) {
      assert n !in ready;
      assert deps[n] != {};
    }
    forall s | Stuck(g, s) ensures s <= blocked {
      PrefixAvoidsStuck(g, ordered, s, |ordered|);
      assert ordered[..|ordered|] == ordered;
    }
  }

  /** Removing ordered packages from the dependency sets leaves the held sets of blocked ones. */
  lemma HeldIsBlocked(g: Graph, rest: Graph, done: set<string>, blocked: set<string>, e: set<string>)
    requires blocked !! done && blocked + done == g.Keys == rest.Keys
    requires forall k :: k in g ==> rest[k] == g[k] - done
    requires MaxHeld(rest, rest.Keys, e)
    ensures MaxHeld(g, blocked, e)
  {
    forall n | n in e ensures n in blocked && DependedIn(g, e, n) {
      assert DependedIn(rest, e, n);
    }
    forall t | t <= blocked && Held(g, t) ensures t <= e {
      forall n | n in t ensures DependedIn(rest, t, n) {
        assert DependedIn(g, t, n);
      }
      assert Held(rest, t);
    }
  }

  /** What a reported circular dependency is: every cycle lies inside the reported set, and in a
      closed graph there is one. */
  lemma ReportHoldsCycles(g: Graph, blocked: set<string>, e: set<string>)
    requires MaxStuck(g, blocked) && MaxHeld(g, blocked, e)
    ensures forall c :: Cycle(g, c) ==> Names(c) <= e
    ensures Closed(g) && blocked != {} ==> e != {} && exists c :: Cycle(g, c)
  {
    forall c | Cycle(g, c) ensures Names(c) <= e && e != {} {
      CycleIsStuck(g, c);
    }
    if Closed(g) && blocked != {} {
      var c := StuckHasCycle(g, blocked);
    }
  }

  /** g restricted to the packages that are left. */
  predicate Rest(g: Graph, rest: Graph)
  { rest.Keys <= g.Keys && rest == map k | k in g && k in rest.Keys :: g[k] }

  ghost predicate IsDepended(g: Graph, d: set<string>) { forall n :: n in d <==> DependedIn(g, g.Keys, n) }

  lemma SomeKey(keys: seq<string>, all: set<string>)
    requires Names(keys) == all && keys != []
    ensures all != {}
  {
    assert keys[0] in Names(keys);
  }

  lemma NoneHeld(g: Graph, s: set<string>)
    requires s == {}
    ensures Held(g, s)
  {
  }

  /** Deleting what nobody depends on deletes no member of a held set. */
  lemma KeepsHeld(g: Graph, rest: Graph, d: set<string>)
    requires Rest(g, rest) && IsDepended(rest, d)
    ensures forall t :: t <= rest.Keys && Held(g, t) ==> t <= d
  {
    forall t, n | t <= rest.Keys && Held(g, t) && n in t ensures n in d {
      assert DependedIn(g, t, n);
      var m :| m in t && m in g && n in g[m];
      assert n in rest[m];
    }
  }

  lemma AllHeld(g: Graph, rest: Graph, d: set<string>)
    requires Rest(g, rest) && IsDepended(rest, d)
    requires rest.Keys <= d
    ensures Held(g, rest.Keys)
  {
    forall n | n in rest.Keys ensures DependedIn(g, rest.Keys, n) {
      assert DependedIn(rest, rest.Keys, n);
    }
  }
}