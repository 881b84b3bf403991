// The life cycle of a micro-ROS session: every entity the firmware creates in
// the client library, in which order it is finalised, and the reconnect loop.
module Session {
  import opened Errno
  import PublishSteps
  import W = Watchdog

  const CHANNEL_MAX := PublishSteps.CHANNEL_MAX
  const SERVICE_MAX := 8

  // ---------------------------------------------------------------- the client library

  datatype Entity = Pub(i: nat) | Sub(i: nat) | Srv(i: nat) | Diag

  /** What the client library holds for the firmware; `attached` has a handle in the executor. */
  datatype World = World(support: bool, node: bool, executor: bool, capacity: nat, attached: seq<Entity>, live: set<Entity>)

  const NOTHING := World(false, false, false, 0, [], {})

  /** The library calls that may fail. */
  datatype Op = OpenSupport | OpenNode | OpenExecutor | Make(e: Entity) | Attach(e: Entity)

  /** Calls that took effect, and the moments the reconnect loop starts over. */
  datatype Call =
    | SupportInit | NodeInit | Create(e: Entity) | ExecutorInit(capacity: nat) | AddHandle(e: Entity)
    | Fini(e: Entity) | ExecutorFini | NodeFini | SupportFini | LoopTop

  /** Parents before children, children gone before parents, nothing twice, no handle
      beyond the executor's capacity, and nothing at all at the loop top. */
  predicate Allowed(w: World, c: Call) {
    match c
    case SupportInit => w == NOTHING
    case NodeInit => w.support && !w.node
    case Create(e) => w.node && e !in w.live
    case ExecutorInit(n) => w.support && !w.executor && n >= 1
    case AddHandle(e) => w.executor && e in w.live && (e.Sub? || e.Srv?) && e !in w.attached && |w.attached| < w.capacity
    case Fini(e) => w.node && e in w.live
    case ExecutorFini => w.support && w.executor
    case NodeFini => w.support && w.node && w.live == {} && !w.executor
    case SupportFini => w.support && !w.node && !w.executor && w.live == {}
    case LoopTop => w == NOTHING
  }

  function Next(w: World, c: Call): World {
    match c
    case SupportInit => w.(support := true)
    case NodeInit => w.(node := true)
    case Create(e) => w.(live := w.live + {e})
    case ExecutorInit(n) => w.(executor := true, capacity := n, attached := [])
    case AddHandle(e) => w.(attached := w.attached + [e])
    case Fini(e) => w.(live := w.live - {e})
    case ExecutorFini => w.(executor := false, capacity := 0, attached := [])
    case NodeFini => w.(node := false)
    case SupportFini => w.(support := false)
    case LoopTop => w
  }

  predicate Legal(w: World, trace: seq<Call>)
    decreases |trace|
  { trace == [] || (Allowed(w, trace[0]) && Legal(Next(w, trace[0]), trace[1..])) }

  function After(w: World, trace: seq<Call>): World
    decreases |trace|
  { if trace == [] then w else After(Next(w, trace[0]), trace[1..]) }

  lemma {:induction false} Recorded(w: World, trace: seq<Call>, c: Call)
    requires Legal(w, trace) && Allowed(After(w, trace), c)
    ensures Legal(w, trace + [c]) && After(w, trace + [c]) == Next(After(w, trace), c)
    decreases |trace|
  {
    if trace == [] {
      assert (trace + [c])[0] == c && (trace + [c])[1..] == [];
      assert Legal(Next(w, c), []) && After(Next(w, c), []) == Next(w, c);
    } else {
      assert (trace + [c])[0] == trace[0] && (trace + [c])[1..] == trace[1..] + [c];
      Recorded(Next(w, trace[0]), trace[1..], c);
    }
  }

  // ---------------------------------------------------------------- what a legal trace means

  predicate Touches(c: Call, e: Entity) { c == Create(e) || c == Fini(e) }

  /** A live entity that is not live later was finalised in between, exactly once, while its node
      and its support stayed up. */
  lemma {:induction false} FinalisedOnce(w: World, trace: seq<Call>, e: Entity) returns (k: nat)
    requires Legal(w, trace) && e in w.live && e !in After(w, trace).live
    ensures k < |trace| && trace[k] == Fini(e)
    ensures forall j :: 0 <= j < k ==> !Touches(trace[j], e) && trace[j] != NodeFini && trace[j] != SupportFini
    decreases |trace|
  {
    if trace[0] == Fini(e) {
      k := 0;
    } else {
      var m := FinalisedOnce(Next(w, trace[0]), trace[1..], e);
      k := m + 1;
      forall j | 0 <= j < k ensures !Touches(trace[j], e) && trace[j] != NodeFini && trace[j] != SupportFini {
        if j > 0 { assert trace[j] == trace[1..][j - 1]; }
      }
    }
  }

  /** A legal trace cut at any point: the head is legal, and the tail from where the head ends. */
  lemma {:induction false} Cut(w: World, trace: seq<Call>, k: nat)
    requires Legal(w, trace) && k <= |trace|
    ensures Legal(w, trace[..k]) && Legal(After(w, trace[..k]), trace[k..])
    decreases k
  {
    if k > 0 {
      assert trace[..k][0] == trace[0] && trace[..k][1..] == trace[1..][..k - 1] && trace[1..][k - 1..] == trace[k..];
      Cut(Next(w, trace[0]), trace[1..], k - 1);
    } else {
      assert trace[..k] == [] && trace[k..] == trace;
    }
  }

  /** Between its creation and the next time the loop starts over, every entity is finalised,
      exactly once at that, before its node and its support. */
  lemma FinalisedByTop(trace: seq<Call>, j: nat, k: nat, e: Entity) returns (m: nat)
    requires Legal(NOTHING, trace) && j < k < |trace| && trace[j] == Create(e) && trace[k] == LoopTop
    ensures j < m < k && trace[m] == Fini(e)
    ensures forall i :: j < i < m ==> !Touches(trace[i], e) && trace[i] != NodeFini && trace[i] != SupportFini
  {
    hide After;
    var head, rest := trace[..j], trace[j..];
    Cut(NOTHING, trace, j);
    var w := Next(After(NOTHING, head), Create(e));
    var span := rest[1..][..k - j - 1];
    Cut(w, rest[1..], k - j - 1);
    assert rest[1..][k - j - 1..][0] == trace[k];
    var n := FinalisedOnce(w, span, e);
    m := j + 1 + n;
    assert forall i :: 0 <= i < |span| ==> span[i] == trace[j + 1 + i];
    forall i | j < i < m ensures !Touches(trace[i], e) && trace[i] != NodeFini && trace[i] != SupportFini {
      assert trace[i] == span[i - j - 1];
    }
  }

  /** A node that is gone later was finalised before the support it belongs to. */
  lemma {:induction false} NodeBeforeSupport(w: World, trace: seq<Call>) returns (k: nat)
    requires Legal(w, trace) && w.node && !After(w, trace).node
    ensures k < |trace| && trace[k] == NodeFini
    ensures forall j :: 0 <= j < k ==> trace[j] != NodeInit && trace[j] != NodeFini && trace[j] != SupportFini
    decreases |trace|
  {
    if trace[0] == NodeFini {
      k := 0;
    } else {
      var m := NodeBeforeSupport(Next(w, trace[0]), trace[1..]);
      k := m + 1;
      forall j | 0 <= j < k ensures trace[j] != NodeInit && trace[j] != NodeFini && trace[j] != SupportFini {
        if j > 0 { assert trace[j] == trace[1..][j - 1]; }
      }
    }
  }

  function Creates(trace: seq<Call>, e: Entity): nat
  { if trace == [] then 0 else (if trace[0] == Create(e) then 1 else 0) + Creates(trace[1..], e) }

  function Finis(trace: seq<Call>, e: Entity): nat
  { if trace == [] then 0 else (if trace[0] == Fini(e) then 1 else 0) + Finis(trace[1..], e) }

  /** Creations and finalisations balance up to what is live. */
  lemma {:induction false} Balanced(w: World, trace: seq<Call>, e: Entity)
    requires Legal(w, trace)
    ensures (if e in w.live then 1 else 0) + Creates(trace, e)
         == Finis(trace, e) + if e in After(w, trace).live then 1 else 0
    decreases |trace|
  {
    if trace != [] { Balanced(Next(w, trace[0]), trace[1..], e); }
  }

  /** No run gives the executor more handles than it was made for. */
  lemma {:induction false} WithinCapacity(w: World, trace: seq<Call>)
    requires Legal(w, trace) && |w.attached| <= w.capacity
    ensures |After(w, trace).attached| <= After(w, trace).capacity
    decreases |trace|
  {
    if trace != [] { WithinCapacity(Next(w, trace[0]), trace[1..]); }
  }

  // ---------------------------------------------------------------- counting

  /** How many of the first n flags are set. */
  function CountSet(a: seq<bool>, n: nat): (c: nat)
    requires n <= |a|
    ensures c <= n
  { if n == 0 then 0 else CountSet(a, n - 1) + if a[n - 1] then 1 else 0 }

  lemma {:induction false} CountGrows(a: seq<bool>, m: nat, n: nat)
    requires m <= n <= |a|
    ensures CountSet(a, m) <= CountSet(a, n)
    decreases n
  {
    if m < n { CountGrows(a, m, n - 1); }
  }

  predicate Subscribes(ch: PublishSteps.Channel) { ch.topicSub.Some? && ch.hasWrite }

  // ---------------------------------------------------------------- the firmware's side

  class Session {
    const channels: seq<PublishSteps.Channel>
    const srvCount: nat
    const pubActive: array<bool>
    const subActive: array<bool>
    const srvActive: array<bool>
    var diagReady: bool
    var sessionActive: bool
    var attempt: nat                            // bring-ups so far
    const works: (nat, Op) -> bool              // which calls succeed in which bring-up
    ghost var world: World
    ghost var trace: seq<Call>

    ghost predicate Sized()
      reads this
    {
      && |channels| <= CHANNEL_MAX == pubActive.Length == subActive.Length
      && srvCount <= SERVICE_MAX == srvActive.Length
      && pubActive != subActive && pubActive != srvActive && subActive != srvActive
      && Legal(NOTHING, trace) && After(NOTHING, trace) == world
    }

    /** The flags say exactly which entities are live. */
    ghost predicate Valid()
      reads this, pubActive, subActive, srvActive
    {
      && Sized()
      && (forall i: nat :: Pub(i) in world.live <==> i < |channels| && pubActive[i])
      && (forall i: nat :: Sub(i) in world.live <==> i < |channels| && subActive[i])
      && (forall i: nat :: Srv(i) in world.live <==> i < srvCount && srvActive[i])
      && (Diag in world.live <==> diagReady)
    }

    /** No session: the library holds nothing. */
    ghost predicate Closed()
      reads this, pubActive, subActive, srvActive
    { Valid() && world == NOTHING && !sessionActive }

    /** A session is up, and everything that should be served has its handle. */
    ghost predicate Open()
      reads this, pubActive, subActive, srvActive
    {
      && Valid() && world.support && world.node && world.executor && sessionActive
      && world.attached == Handles() && |world.attached| <= world.capacity
    }

    /** The entities that get a handle: the active subscriptions in front of the first the executor
        refuses, then the active services. */
    ghost function Handles(): seq<Entity>
      reads this`attempt, subActive, srvActive
      requires |channels| <= subActive.Length && srvCount <= srvActive.Length
    { SubHandles(subActive[..], works, attempt, |channels|) + SrvHandles(srvActive[..], srvCount) }

    constructor (channels: seq<PublishSteps.Channel>, srvCount: nat, works: (nat, Op) -> bool)
      requires |channels| <= CHANNEL_MAX && srvCount <= SERVICE_MAX
      ensures Closed() && trace == [] && fresh(pubActive) && fresh(subActive) && fresh(srvActive)
    {
      this.channels, this.srvCount, this.works := channels, srvCount, works;
      pubActive := new bool[CHANNEL_MAX](_ => false);
      subActive := new bool[CHANNEL_MAX](_ => false);
      srvActive := new bool[SERVICE_MAX](_ => false);
      diagReady, sessionActive, attempt := false, false, 0;
      world, trace := NOTHING, [];
    }

    /** Whether channel i publishes or subscribes in this bring-up. */
    predicate PubUp(i: nat)
      reads this
      requires i < |channels|
    { PublishSteps.Publishes(channels[i]) && works(attempt, Make(Pub(i))) }

    predicate SubUp(i: nat)
      reads this
      requires i < |channels|
    { Subscribes(channels[i]) && works(attempt, Make(Sub(i))) }

    predicate SrvUp(i: nat)
      reads this
    { works(attempt, Make(Srv(i))) && works(attempt, Attach(Srv(i))) }

    /** Exactly the entities whose calls succeed in this bring-up are there. */
    ghost predicate Complete()
      reads this, pubActive, subActive, srvActive
      requires Sized()
    {
      && (forall i: nat :: i < |channels| ==> pubActive[i] == PubUp(i) && subActive[i] == SubUp(i))
      && (forall i: nat :: i < srvCount ==> srvActive[i] == SrvUp(i))
      && diagReady == works(attempt, Make(Diag))
    }

    ghost method Record(c: Call)
      requires Sized() && Allowed(world, c)
      modifies this`world, this`trace
      ensures Sized() && world == Next(old(world), c) && trace == old(trace) + [c]
    {
      Recorded(NOTHING, trace, c);
      world, trace := Next(world, c), trace + [c];
    }

    // -------------------------------------------------------------- channel entities

    method InitPub(i: nat)
      requires Valid() && world.node && i < |channels| && !pubActive[i]
      modifies this`world, this`trace, pubActive
      ensures Valid() && SameBut(old(world), world)
      ensures forall j: nat :: j < CHANNEL_MAX ==>
                pubActive[j] == if j == i then works(attempt, Make(Pub(i))) else old(pubActive[j])
      ensures old(trace) <= trace
    {
      hide Legal, After;
      if works(attempt, Make(Pub(i))) {
        Record(Create(Pub(i)));
        pubActive[i] := true;
      }
    }

    method InitSub(i: nat)
      requires Valid() && world.node && i < |channels| && !subActive[i]
      modifies this`world, this`trace, subActive
      ensures Valid() && SameBut(old(world), world)
      ensures forall j: nat :: j < CHANNEL_MAX ==>
                subActive[j] == if j == i then works(attempt, Make(Sub(i))) else old(subActive[j])
      ensures old(trace) <= trace
    {
      hide Legal, After;
      if works(attempt, Make(Sub(i))) {
        Record(Create(Sub(i)));
        subActive[i] := true;
      }
    }

    method CreateEntities()
      requires Valid() && world.node && world.live == {}
      modifies this`world, this`trace, pubActive, subActive
      ensures Valid() && SameBut(old(world), world) && old(trace) <= trace
      ensures forall i: nat :: i < |channels| ==> pubActive[i] == PubUp(i) && subActive[i] == SubUp(i)
    {
      hide Legal, After;
      var i := 0;
      while i < |channels|
        invariant i <= |channels| && Valid() && SameBut(old(world), world) && old(trace) <= trace
        invariant forall j: nat :: j < i ==> pubActive[j] == PubUp(j) && subActive[j] == SubUp(j)
        invariant forall j: nat :: i <= j < |channels| ==> !pubActive[j] && !subActive[j]
      {
        var ch := channels[i];
        if ch.topicPub.Some? && ch.hasRead { InitPub(i); }
        if ch.topicSub.Some? && ch.hasWrite { InitSub(i); }
        i := i + 1;
      }
    }

    method DestroyEntities()
      requires Valid() && (world.live == {} || world.node)
      modifies this`world, this`trace, pubActive, subActive
      ensures Valid() && SameBut(old(world), world) && old(trace) <= trace
      ensures forall i: nat :: i < |channels| ==> !pubActive[i] && !subActive[i]
    {
      hide Legal, After;
      var i := 0;
      while i < |channels|
        invariant i <= |channels| && Valid() && SameBut(old(world), world) && old(trace) <= trace
        invariant world.live == {} || world.node
        invariant forall j: nat :: j < i ==> !pubActive[j] && !subActive[j]
      {
        if pubActive[i] { FiniPub(i); }
        if subActive[i] { FiniSub(i); }
        i := i + 1;
      }
    }

    method FiniPub(i: nat)
      requires Valid() && i < |channels| && pubActive[i] && (world.live == {} || world.node)
      modifies this`world, this`trace, pubActive
      ensures Valid() && SameBut(old(world), world) && old(trace) <= trace
      ensures forall j: nat :: j < CHANNEL_MAX ==> pubActive[j] == (j != i && old(pubActive[j]))
    {
      hide Legal, After;
      assert Pub(i) in world.live;
      Record(Fini(Pub(i)));
      pubActive[i] := false;
    }

    method FiniSub(i: nat)
      requires Valid() && i < |channels| && subActive[i] && (world.live == {} || world.node)
      modifies this`world, this`trace, subActive
      ensures Valid() && SameBut(old(world), world) && old(trace) <= trace
      ensures forall j: nat :: j < CHANNEL_MAX ==> subActive[j] == (j != i && old(subActive[j]))
    {
      hide Legal, After;
      assert Sub(i) in world.live;
      Record(Fini(Sub(i)));
      subActive[i] := false;
    }

    method SubCount() returns (count: nat)
      requires Sized()
      ensures count == CountSet(subActive[..], |channels|)
    {
      count := 0;
      for i := 0 to |channels|
        invariant count == CountSet(subActive[..], i)
      {
        if subActive[i] { count := count + 1; }
      }
    }

    /** Adds the subscriptions in order and stops at the first the executor refuses. */
    method AddSubs() returns (rc: int)
      requires Valid() && world.executor && world.attached == []
      requires CountSet(subActive[..], |channels|) <= world.capacity
      modifies this`world, this`trace
      ensures Valid() && old(trace) <= trace && world.(attached := []) == old(world)
      ensures world.attached == SubHandles(subActive[..], works, attempt, |channels|)
      ensures rc == 0 <==> forall i: nat :: i < |channels| && subActive[i] ==> works(attempt, Attach(Sub(i)))
    {
      hide Legal, After, SubHandles, CountSet;
      NoHandles(subActive[..], works, attempt);
      for i := 0 to |channels|
        invariant Valid() && old(trace) <= trace && world.(attached := []) == old(world)
        invariant world.attached == SubHandles(subActive[..], works, attempt, i)
        invariant forall j: nat :: j < i && subActive[j] ==> works(attempt, Attach(Sub(j)))
      {
        OneSubMore(subActive[..], works, attempt, i);
        if !subActive[i] { continue; }
        assert Sub(i) in world.live;
        if !works(attempt, Attach(Sub(i))) {
          NoneAfterRefusal(subActive[..], works, attempt, i, |channels|);
          return EIO;
        }
        SubHandlesBound(subActive[..], works, attempt, i, |channels|);
        Record(AddHandle(Sub(i)));
      }
      rc := 0;
    }

    // -------------------------------------------------------------- services and diagnostics

    method InitService(i: nat)
      requires Valid() && world.node && world.executor && |world.attached| < world.capacity
      requires i < srvCount && !srvActive[i] && Srv(i) !in world.attached
      modifies this`world, this`trace, srvActive
      ensures Valid() && old(trace) <= trace
      ensures SameBut(old(world).(attached := world.attached), world)
      ensures world.attached == old(world).attached + if srvActive[i] then [Srv(i)] else []
      ensures forall j: nat :: j < SERVICE_MAX ==> srvActive[j] == if j == i then SrvUp(i) else old(srvActive[j])
    {
      hide Legal, After;
      if !works(attempt, Make(Srv(i))) { return; }
      Record(Create(Srv(i)));
      srvActive[i] := true;
      if !works(attempt, Attach(Srv(i))) {
        Record(Fini(Srv(i)));
        srvActive[i] := false;
      } else {
        Record(AddHandle(Srv(i)));
      }
    }

    /** Every service that ends up active has exactly one handle. */
    method ServiceManagerInit()
      requires Valid() && world.node && world.executor && |world.attached| + srvCount <= world.capacity
      requires forall e :: e in world.attached ==> e.Sub?
      requires forall i: nat :: i < srvCount ==> !srvActive[i]
      modifies this`world, this`trace, srvActive
      ensures Valid() && old(trace) <= trace
      ensures SameBut(old(world).(attached := world.attached), world)
      ensures world.attached == old(world).attached + SrvHandles(srvActive[..], srvCount)
      ensures forall i: nat :: i < srvCount ==> srvActive[i] == SrvUp(i)
    {
      hide Legal, After, SrvHandles;
      NoServices(srvActive[..]);
      var i := 0;
      while i < srvCount
        invariant i <= srvCount && Valid() && old(trace) <= trace
        invariant SameBut(old(world).(attached := world.attached), world)
        invariant world.attached == old(world).attached + SrvHandles(srvActive[..], i)
        invariant forall j: nat :: j < i ==> srvActive[j] == SrvUp(j)
        invariant forall j: nat :: i <= j < srvCount ==> !srvActive[j]
      {
        ghost var before := srvActive[..];
        SrvHandlesBelow(before, i);
        InitService(i);
        SrvHandlesSame(before, srvActive[..], i);
        OneSrvMore(srvActive[..], i);
        i := i + 1;
      }
    }

    method ServiceManagerFini()
      requires Valid() && (world.live == {} || world.node)
      modifies this`world, this`trace, srvActive
      ensures Valid() && SameBut(old(world), world) && old(trace) <= trace
      ensures forall i: nat :: i < srvCount ==> !srvActive[i]
    {
      hide Legal, After;
      var i := 0;
      while i < srvCount
        invariant i <= srvCount && Valid() && SameBut(old(world), world) && old(trace) <= trace
        invariant world.live == {} || world.node
        invariant forall j: nat :: j < i ==> !srvActive[j]
      {
        if srvActive[i] {
          assert Srv(i) in world.live;
          Record(Fini(Srv(i)));
          srvActive[i] := false;
        }
        i := i + 1;
      }
    }

    method DiagnosticsInit()
      requires Valid() && world.node && !diagReady
      modifies this`world, this`trace, this`diagReady
      ensures Valid() && SameBut(old(world), world) && old(trace) <= trace && diagReady == works(attempt, Make(Diag))
    {
      hide Legal, After;
      if works(attempt, Make(Diag)) {
        Record(Create(Diag));
        diagReady := true;
      }
    }

    method DiagnosticsFini()
      requires Valid() && (diagReady ==> world.node)
      modifies this`world, this`trace, this`diagReady
      ensures Valid() && SameBut(old(world), world) && old(trace) <= trace && !diagReady
    {
      hide Legal, After;
      if !diagReady { return; }
      Record(Fini(Diag));
      diagReady := false;
    }

    // -------------------------------------------------------------- the session

    ghost predicate Quiet()
      reads this, pubActive, subActive, srvActive
      requires Sized()
    {
      && !diagReady
      && (forall i: nat :: i < |channels| ==> !pubActive[i] && !subActive[i])
      && (forall i: nat :: i < srvCount ==> !srvActive[i])
    }

    lemma QuietIsEmpty()
      requires Valid()
      ensures Quiet() <==> world.live == {}
    {
      hide Legal, After;
      if Quiet() {
        forall e ensures e !in world.live {
          match e case Pub(i) => {} case Sub(i) => {} case Srv(i) => {} case Diag => {}
        }
      } else if !diagReady {
        if forall i: nat :: i < |channels| ==> !pubActive[i] && !subActive[i] {
          var i: nat :| i < srvCount && srvActive[i];
          assert Srv(i) in world.live;
        } else {
          var i: nat :| i < |channels| && (pubActive[i] || subActive[i]);
          assert Pub(i) in world.live || Sub(i) in world.live;
        }
      }
    }

    /** Brings up support, node, entities and executor; every failure exit leaves nothing behind. */
    method Init() returns (ok: bool)
      requires Closed()
      modifies this`attempt, this`world, this`trace, this`diagReady, this`sessionActive, pubActive, subActive, srvActive
      ensures old(trace) <= trace && (if ok then Open() && Complete() else Closed()) && attempt == old(attempt) + 1
      ensures ok <==> works(attempt, OpenSupport) && works(attempt, OpenNode) && works(attempt, OpenExecutor)
      ensures ok ==> world.capacity == W.Max(1, CountSet(subActive[..], |channels|) + srvCount)
      ensures ok ==> forall i: nat :: i < |channels| && TakesSub(subActive[..], works, attempt, i) ==>
                AddHandle(Sub(i)) in trace[|old(trace)|..]
      ensures ok && (forall i: nat :: i < |channels| && subActive[i] ==> works(attempt, Attach(Sub(i)))) ==>
                |world.attached| == CountSet(subActive[..], |channels|) + CountSet(srvActive[..], srvCount)
    {
      hide Legal, After, CountSet, SubHandles, SrvHandles, TakesSub, Subscribes;
      QuietIsEmpty();
      attempt := attempt + 1;
      ok := works(attempt, OpenSupport);
      if !ok { return; }
      Record(SupportInit);

      ok := works(attempt, OpenNode);
      if !ok {
        Record(SupportFini);
        return;
      }
      Record(NodeInit);

      ok := InitOnNode();
      if ok { HandlesMean(old(trace)); }
    }

    /** What the handles of an open session mean for its trace and its counts. */
    lemma HandlesMean(before: seq<Call>)
      requires Valid() && before <= trace && Legal(NOTHING, before) && After(NOTHING, before) == NOTHING
      requires world.attached == Handles()
      ensures forall i: nat :: i < |channels| && TakesSub(subActive[..], works, attempt, i) ==>
                AddHandle(Sub(i)) in trace[|before|..]
      ensures (forall i: nat :: i < |channels| && subActive[i] ==> works(attempt, Attach(Sub(i)))) ==>
                |world.attached| == CountSet(subActive[..], |channels|) + CountSet(srvActive[..], srvCount)
    {
      hide Legal, After, CountSet, SubHandles, SrvHandles, TakesSub;
      var more := trace[|before|..];
      assert trace == before + more;
      Continued(NOTHING, before, more);
      SrvHandlesCount(srvActive[..], srvCount);
      SubHandlesAre(subActive[..], works, attempt, |channels|);
      forall i: nat | i < |channels| && TakesSub(subActive[..], works, attempt, i)
        ensures AddHandle(Sub(i)) in more
      {
        WasAdded(NOTHING, more, Sub(i));
      }
      if forall i: nat :: i < |channels| && subActive[i] ==> works(attempt, Attach(Sub(i))) {
        SubHandlesCount(subActive[..], works, attempt, |channels|);
      }
    }

    /** The part of the bring-up that follows the node. */
    method InitOnNode() returns (ok: bool)
      requires Valid() && world == World(true, true, false, 0, [], {}) && !sessionActive && Quiet()
      modifies this`world, this`trace, this`diagReady, this`sessionActive, pubActive, subActive, srvActive
      ensures old(trace) <= trace && (if ok then Open() && Complete() else Closed()) && ok == works(attempt, OpenExecutor)
      ensures ok ==> world.capacity == W.Max(1, CountSet(subActive[..], |channels|) + srvCount)
    {
      hide Legal, After, CountSet, Subscribes, SubHandles, SrvHandles;
      CreateEntities();
      DiagnosticsInit();

      var subCount := SubCount();
      var handleCount := subCount + srvCount;
      if handleCount < 1 { handleCount := 1; }
      ok := works(attempt, OpenExecutor);
      if !ok {
        Abandon();
        return;
      }
      Record(ExecutorInit(handleCount));
      InitOnExecutor();
    }

    /** The part that follows the executor. */
    method InitOnExecutor()
      requires Valid() && world.support && world.node && world.executor && world.attached == []
      requires CountSet(subActive[..], |channels|) + srvCount <= world.capacity
      requires forall i: nat :: i < srvCount ==> !srvActive[i]
      modifies this`world, this`trace, this`sessionActive, srvActive
      ensures Open() && old(trace) <= trace && world.capacity == old(world).capacity
      ensures forall i: nat :: i < srvCount ==> srvActive[i] == SrvUp(i)
    {
      hide Legal, After, CountSet, Subscribes, SubHandles, SrvHandles;
      var rc := AddSubs();
      SubHandlesBound(subActive[..], works, attempt, |channels|, |channels|);
      ServiceManagerInit();
      SrvHandlesBelow(srvActive[..], srvCount);
      sessionActive := true;
    }

    /** The exit taken when the executor cannot be made. */
    method Abandon()
      requires Valid() && SameBut(World(true, true, false, 0, [], {}), world) && !sessionActive
      requires forall i: nat :: i < srvCount ==> !srvActive[i]
      modifies this`world, this`trace, this`diagReady, pubActive, subActive, srvActive
      ensures Closed() && old(trace) <= trace
    {
      hide Legal, After;
      DiagnosticsFini();
      DestroyEntities();
      QuietIsEmpty();
      Record(NodeFini);
      Record(SupportFini);
    }

    /** Takes a session down: services, diagnostics, channels, executor, node, support. */
    method Close()
      requires Closed() || Open()
      modifies this`world, this`trace, this`diagReady, this`sessionActive, pubActive, subActive, srvActive
      ensures Closed() && old(trace) <= trace
    {
      hide Legal, After;
      if !sessionActive { return; }
      ServiceManagerFini();
      DiagnosticsFini();
      DestroyEntities();
      QuietIsEmpty();
      Record(ExecutorFini);
      Record(NodeFini);
      Record(SupportFini);
      sessionActive := false;
    }
  }

  /** Time, as the main loop and the watchdog see it. */
  class Clock {
    const limits: W.Limits
    const took: (W.Pc, nat) -> nat              // how long each blocking step takes
    var time: nat
    var tick: nat
    ghost var at: W.State
    ghost var steps: seq<W.Step>
    ghost var spent: nat                        // how long the last step took
    ghost var turns: nat                        // turns begun by the three loops
    ghost var feeds: seq<nat>                   // when the watchdog was fed

    ghost predicate Valid()
      reads this
    {
      && (forall pc, n :: W.Allowed(limits, pc, took(pc, n)))
      && W.Legal(limits, W.START, steps) && W.After(W.START, steps) == at && at.time == time
      && at.fed == (if feeds == [] then 0 else feeds[|feeds| - 1])
      && forall k :: 0 < k < |feeds| ==> feeds[k] - feeds[k - 1] <= W.Bound(limits)
    }

    constructor (limits: W.Limits, took: (W.Pc, nat) -> nat)
      requires forall pc, n :: W.Allowed(limits, pc, took(pc, n))
      ensures Valid() && at == W.START && feeds == [] && this.limits == limits
    {
      this.limits, this.took := limits, took;
      time, tick, spent, turns, at, steps, feeds := 0, 0, 0, 0, W.START, [], [];
    }

    /** One step of the main loop. */
    method Spend(pc: W.Pc, ok: bool)
      requires Valid() && at.pc == pc && !W.Feeds(pc)
      modifies this
      ensures Valid() && feeds == old(feeds) && at == W.Next(old(at), W.Step(spent, ok))
      ensures turns == old(turns) + if W.BeginsTurn(pc) then 1 else 0
    {
      hide W.Legal, W.After, W.Bound, W.Next, W.Allowed;
      var d := took(pc, tick);
      W.StepTakes(at, W.Step(d, ok));
      W.One(limits, at, W.Step(d, ok));
      W.Chain(limits, W.START, steps, [W.Step(d, ok)]);
      at, steps := W.Next(at, W.Step(d, ok)), steps + [W.Step(d, ok)];
      if W.BeginsTurn(pc) { turns := turns + 1; }
      time, tick, spent := time + d, tick + 1, d;
    }

    method WatchdogFeed()
      requires Valid() && W.Feeds(at.pc)
      modifies this
      ensures Valid() && time == old(time) && feeds == old(feeds) + [time]
      ensures at == W.Next(old(at), W.Step(0, true))
      ensures turns == old(turns) + if W.BeginsTurn(old(at).pc) then 1 else 0
    {
      hide W.Legal, W.After, W.Bound;
      W.FedInTime(limits, steps);
      if W.BeginsTurn(at.pc) { turns := turns + 1; }
      W.One(limits, at, W.Step(0, true));
      W.Chain(limits, W.START, steps, [W.Step(0, true)]);
      at, steps := W.Next(at, W.Step(0, true)), steps + [W.Step(0, true)];
      feeds := feeds + [time];
    }
  }

  /** The main loop, followed for a given number of steps. */
  class Bridge {
    const session: Session
    const clock: Clock
    const answers: nat -> bool                  // result of each agent ping
    var pings: nat
    var reconnects: nat

    constructor (session: Session, clock: Clock, answers: nat -> bool)
      ensures this.session == session && this.clock == clock
    {
      this.session, this.clock, this.answers := session, clock, answers;
      pings, reconnects := 0, 0;
    }

    method Ping(pc: W.Pc) returns (ok: bool)
      requires clock.Valid() && clock.at.pc == pc && !W.Feeds(pc)
      modifies this`pings, clock
      ensures clock.Valid() && clock.feeds == old(clock.feeds)
      ensures ok == answers(old(pings)) && pings == old(pings) + 1
      ensures clock.turns == old(clock.turns) + if W.BeginsTurn(pc) then 1 else 0
      ensures clock.at == W.Next(old(clock.at), W.Step(clock.spent, ok))
    {
      ok := answers(pings);
      pings := pings + 1;
      clock.Spend(pc, ok);
    }

    /** The search for the agent, for at most fuel attempts. */
    method Search(fuel: nat) returns (found: bool, left: nat)
      requires clock.Valid() && clock.at.pc == W.SearchPing
      modifies this`pings, clock
      ensures clock.Valid() && left <= fuel && old(clock.feeds) <= clock.feeds
      ensures if found then clock.at.pc == W.InitSession else left == 0
      ensures pings >= old(pings) && forall k: nat :: old(pings) <= k < pings ==> (answers(k) <==> found && k == pings - 1)
      ensures found ==> pings > old(pings)
      ensures clock.turns == old(clock.turns) + fuel - left
    {
      hide W.Legal, W.After, W.Bound, Clock.Valid;
      left, found := fuel, false;
      while left > 0
        invariant clock.Valid() && clock.at.pc == W.SearchPing && left <= fuel && old(clock.feeds) <= clock.feeds
        invariant clock.turns == old(clock.turns) + fuel - left
        invariant pings >= old(pings) && forall k: nat :: old(pings) <= k < pings ==> !answers(k)
      {
        left := left - 1;
        found := Ping(W.SearchPing);
        if found { return; }
        clock.WatchdogFeed();
        clock.Spend(W.SearchSleep, true);
      }
      found := false;
    }

    /** The run loop, for at most fuel passes: true when the agent was lost. */
    method Serve(fuel: nat) returns (lost: bool, left: nat)
      requires clock.Valid() && clock.at.pc == W.Serve && clock.at.lastPing == clock.at.lastDiag == clock.time
      modifies this`pings, clock
      ensures clock.Valid() && left <= fuel && old(clock.feeds) <= clock.feeds
      ensures if lost then clock.at.pc == W.FiniSession else left == 0
      ensures clock.turns == old(clock.turns) + fuel - left
    {
      hide W.Legal, W.After, W.Bound;
      var lastPing, lastDiag := clock.time, clock.time;
      left, lost := fuel, false;
      while left > 0 && !lost
        invariant clock.Valid() && left <= fuel && old(clock.feeds) <= clock.feeds
        invariant clock.at.pc == if lost then W.FiniSession else W.Serve
        invariant clock.turns == old(clock.turns) + fuel - left
        invariant clock.at.lastPing == lastPing && clock.at.lastDiag == lastDiag
      {
        left := left - 1;
        lost, lastPing, lastDiag := ServePass(lastPing, lastDiag);
      }
    }

    /** One pass of the run loop. */
    method ServePass(lastPing: nat, lastDiag: nat) returns (lost: bool, ping: nat, diag: nat)
      requires clock.Valid() && clock.at.pc == W.Serve
      requires clock.at.lastPing == lastPing && clock.at.lastDiag == lastDiag
      modifies this`pings, clock
      ensures clock.Valid() && old(clock.feeds) <= clock.feeds
      ensures clock.at.pc == if lost then W.FiniSession else W.Serve
      ensures clock.at.lastPing == ping && clock.at.lastDiag == diag && clock.turns == old(clock.turns) + 1
      ensures old(pings) <= pings <= old(pings) + 1 && (lost <==> pings > old(pings) && !answers(old(pings)))
      ensures pings > old(pings) <==> clock.at.now - lastPing >= W.PING_PERIOD_MS
      ensures ping == if pings > old(pings) then clock.at.now else lastPing
    {
      hide W.Legal, W.After, W.Bound, W.Next;
      diag := lastDiag;
      var now;
      lost, now, ping := ServeAndPing(lastPing);
      if !lost { diag := DiagAndRest(now, lastDiag); }
    }

    /** The first half of a pass: serve, feed, and ping when the last ping is a second old. */
    method ServeAndPing(lastPing: nat) returns (lost: bool, now: nat, ping: nat)
      requires clock.Valid() && clock.at.pc == W.Serve && clock.at.lastPing == lastPing
      modifies this`pings, clock
      ensures clock.Valid() && old(clock.feeds) <= clock.feeds
      ensures clock.at.pc == (if lost then W.FiniSession else W.DiagCheck) && clock.at.now == now
      ensures clock.at.lastPing == ping && clock.at.lastDiag == old(clock.at.lastDiag)
      ensures clock.turns == old(clock.turns) + 1
      ensures old(pings) <= pings <= old(pings) + 1 && (lost <==> pings > old(pings) && !answers(old(pings)))
      ensures pings > old(pings) <==> now - lastPing >= W.PING_PERIOD_MS
      ensures ping == if pings > old(pings) then now else lastPing
    {
      hide W.Legal, W.After, W.Bound;
      lost, ping := false, lastPing;
      clock.Spend(W.Serve, true);
      clock.WatchdogFeed();
      now := clock.time;
      clock.Spend(W.PingCheck, true);
      if now - ping >= W.PING_PERIOD_MS {
        ping := now;
        var ok := Ping(W.RunPing);
        lost := !ok;
      }
    }

    /** The second half: diagnostics when the last ones are five seconds old, and the rest. */
    method DiagAndRest(now: nat, lastDiag: nat) returns (diag: nat)
      requires clock.Valid() && clock.at.pc == W.DiagCheck && clock.at.now == now && clock.at.lastDiag == lastDiag
      modifies clock
      ensures clock.Valid() && old(clock.feeds) <= clock.feeds && clock.at.pc == W.Serve
      ensures clock.at.lastDiag == diag && clock.at.lastPing == old(clock.at.lastPing) && clock.at.now == now
      ensures diag == if now - lastDiag >= W.DIAG_PERIOD_MS then now else lastDiag
      ensures clock.turns == old(clock.turns)
    {
      hide W.Legal, W.After, W.Bound;
      diag := lastDiag;
      clock.Spend(W.DiagCheck, true);
      if now - diag >= W.DIAG_PERIOD_MS {
        diag := now;
        clock.Spend(W.Publish, true);
      }
      clock.Spend(W.Rest, true);
    }

    /** The reconnect loop for fuel turns of its three loops, whatever the library, the agent and
        the clock do: the trace of library calls is legal, so nothing is live whenever the loop
        starts over, and consecutive feeds stay within the bound. */
    method Run(fuel: nat)
      requires session.Closed() && session.trace == [] && clock.Valid() && clock.at.pc == W.Top
      requires clock.feeds == []
      modifies this, clock, session, session.pubActive, session.subActive, session.srvActive
      ensures session.Valid() && Legal(NOTHING, session.trace) && clock.turns == old(clock.turns) + fuel
      ensures forall k :: 0 < k < |clock.feeds| ==> clock.feeds[k] - clock.feeds[k - 1] <= W.Bound(clock.limits)
    {
      hide W.Legal, W.After, W.Bound, Legal, After;
      var left: nat := fuel;
      while left > 0
        invariant session.Valid() && clock.Valid() && left <= fuel && clock.turns == old(clock.turns) + fuel - left
        invariant left > 0 ==> session.Closed() && clock.at.pc == W.Top
      {
        left := left - 1;
        left := Round(left);
      }
    }

    /** One round, from the loop top to the next; nothing is left when fuel ran out inside it. */
    method Round(fuel: nat) returns (left: nat)
      requires session.Closed() && clock.Valid() && clock.at.pc == W.Top
      modifies this, clock, session, session.pubActive, session.subActive, session.srvActive
      ensures session.Valid() && clock.Valid() && left <= fuel && old(session.trace) + [LoopTop] <= session.trace
      ensures left > 0 ==> session.Closed() && clock.at.pc == W.Top
      ensures clock.turns == old(clock.turns) + 1 + fuel - left
    {
      hide W.Legal, W.After, W.Bound, Legal, After;
      left := fuel;
      session.Record(LoopTop);
      clock.WatchdogFeed();
      var found := Ping(W.FirstPing);
      if !found {
        found, left := Search(left);
        if !found { return 0; }
      }
      left := ServeSession(left);
    }

    /** Session bring-up, the run loop, and the way back. */
    method ServeSession(fuel: nat) returns (left: nat)
      requires session.Closed() && clock.Valid() && clock.at.pc == W.InitSession
      modifies this, clock, session, session.pubActive, session.subActive, session.srvActive
      ensures session.Valid() && clock.Valid() && left <= fuel && old(session.trace) <= session.trace
      ensures left > 0 ==> session.Closed() && clock.at.pc == W.Top
      ensures clock.turns == old(clock.turns) + fuel - left
    {
      hide W.Legal, W.After, W.Bound, Legal, After;
      var ok := session.Init();
      clock.Spend(W.InitSession, ok);
      if !ok {
        clock.Spend(W.RetrySleep, true);
        return fuel;
      }
      var lost: bool;
      lost, left := Serve(fuel);
      if !lost { return 0; }
      Reconnect();
    }

    /** The way back to the loop top when the agent was lost. */
    method Reconnect()
      requires session.Open() && clock.Valid() && clock.at.pc == W.FiniSession
      modifies this`reconnects, clock, session, session.pubActive, session.subActive, session.srvActive
      ensures session.Closed() && clock.Valid() && clock.at.pc == W.Top && old(session.trace) <= session.trace
      ensures clock.turns == old(clock.turns) && reconnects == old(reconnects) + 1
    {
      hide W.Legal, W.After, W.Bound, Legal, After;
      session.Close();
      clock.Spend(W.FiniSession, true);
      reconnects := reconnects + 1;
      clock.Spend(W.ReconnectSleep, true);
    }
  }

  /** Same library objects, whatever entities live on the node. */
  predicate SameBut(a: World, b: World) { b.(live := a.live) == a }

  // ---------------------------------------------------------------- handles

  /** The executor takes subscription i: it is active, and none active up to it is refused. */
  ghost predicate TakesSub(flags: seq<bool>, works: (nat, Op) -> bool, attempt: nat, i: nat)
    requires i < |flags|
  { flags[i] && forall j: nat :: j <= i && flags[j] ==> works(attempt, Attach(Sub(j))) }

  ghost function SubHandles(flags: seq<bool>, works: (nat, Op) -> bool, attempt: nat, n: nat): seq<Entity>
    requires n <= |flags|
  {
    if n == 0 then []
    else SubHandles(flags, works, attempt, n - 1) + if TakesSub(flags, works, attempt, n - 1) then [Sub(n - 1)] else []
  }

  ghost function SrvHandles(flags: seq<bool>, n: nat): seq<Entity>
    requires n <= |flags|
  { if n == 0 then [] else SrvHandles(flags, n - 1) + if flags[n - 1] then [Srv(n - 1)] else [] }

  lemma NoHandles(flags: seq<bool>, works: (nat, Op) -> bool, attempt: nat)
    ensures SubHandles(flags, works, attempt, 0) == []
  {
  }

  lemma OneSubMore(flags: seq<bool>, works: (nat, Op) -> bool, attempt: nat, i: nat)
    requires i < |flags| && forall j: nat :: j < i && flags[j] ==> works(attempt, Attach(Sub(j)))
    ensures SubHandles(flags, works, attempt, i + 1)
         == SubHandles(flags, works, attempt, i) + if flags[i] && works(attempt, Attach(Sub(i))) then [Sub(i)] else []
  {
  }

  lemma {:induction false} NoneAfterRefusal(flags: seq<bool>, works: (nat, Op) -> bool, attempt: nat, i: nat, n: nat)
    requires i <= n <= |flags| && i < |flags| && flags[i] && !works(attempt, Attach(Sub(i)))
    ensures SubHandles(flags, works, attempt, n) == SubHandles(flags, works, attempt, i)
  {
    if i < n { NoneAfterRefusal(flags, works, attempt, i, n - 1); }
  }

  /** Exactly the subscriptions the executor takes are among them. */
  lemma {:induction false} SubHandlesAre(flags: seq<bool>, works: (nat, Op) -> bool, attempt: nat, n: nat)
    requires n <= |flags|
    ensures forall e :: e in SubHandles(flags, works, attempt, n) <==>
              e.Sub? && e.i < n && TakesSub(flags, works, attempt, e.i)
  {
    hide TakesSub;
    if n > 0 { SubHandlesAre(flags, works, attempt, n - 1); }
  }

  lemma {:induction false} SubHandlesBound(flags: seq<bool>, works: (nat, Op) -> bool, attempt: nat, i: nat, n: nat)
    requires i <= n <= |flags|
    ensures |SubHandles(flags, works, attempt, i)| <= CountSet(flags, i)
    ensures i < n && flags[i] ==> |SubHandles(flags, works, attempt, i)| < CountSet(flags, n)
    ensures forall e :: e in SubHandles(flags, works, attempt, i) ==> e.Sub? && e.i < i
  {
    if i > 0 { SubHandlesBound(flags, works, attempt, i - 1, i); }
    if i < n { CountGrows(flags, i + 1, n); }
  }

  lemma {:induction false} SubHandlesCount(flags: seq<bool>, works: (nat, Op) -> bool, attempt: nat, n: nat)
    requires n <= |flags| && forall j: nat :: j < n && flags[j] ==> works(attempt, Attach(Sub(j)))
    ensures |SubHandles(flags, works, attempt, n)| == CountSet(flags, n)
  {
    if n > 0 { SubHandlesCount(flags, works, attempt, n - 1); }
  }

  lemma {:induction false} SrvHandlesCount(flags: seq<bool>, n: nat)
    requires n <= |flags|
    ensures |SrvHandles(flags, n)| == CountSet(flags, n)
  {
    if n > 0 { SrvHandlesCount(flags, n - 1); }
  }

  lemma {:induction false} SrvHandlesBelow(flags: seq<bool>, n: nat)
    requires n <= |flags|
    ensures |SrvHandles(flags, n)| <= n && forall e :: e in SrvHandles(flags, n) ==> e.Srv? && e.i < n
  {
    if n > 0 { SrvHandlesBelow(flags, n - 1); }
  }

  lemma NoServices(flags: seq<bool>)
    ensures SrvHandles(flags, 0) == []
  {
  }

  lemma OneSrvMore(flags: seq<bool>, i: nat)
    requires i < |flags|
    ensures SrvHandles(flags, i + 1) == SrvHandles(flags, i) + if flags[i] then [Srv(i)] else []
  {
  }

  lemma {:induction false} SrvHandlesSame(a: seq<bool>, b: seq<bool>, n: nat)
    requires n <= |a| == |b| && forall j :: 0 <= j < n ==> a[j] == b[j]
    ensures SrvHandles(a, n) == SrvHandles(b, n)
  {
    if n > 0 { SrvHandlesSame(a, b, n - 1); }
  }

  /** What has a handle at the end of a legal trace and had none at its start was given it there. */
  lemma {:induction false} WasAdded(w: World, trace: seq<Call>, e: Entity)
    requires e in After(w, trace).attached && e !in w.attached
    ensures AddHandle(e) in trace
    decreases |trace|
  {
    if trace[0] != AddHandle(e) { WasAdded(Next(w, trace[0]), trace[1..], e); }
  }

  lemma {:induction false} Continued(w: World, a: seq<Call>, b: seq<Call>)
    ensures After(w, a + b) == After(After(w, a), b)
    decreases |a|
  {
    if a == [] {
      assert a + b == b;
    } else {
      assert (a + b)[0] == a[0] && (a + b)[1..] == a[1..] + b;
      Continued(Next(w, a[0]), a[1..], b);
    }
  }
}
