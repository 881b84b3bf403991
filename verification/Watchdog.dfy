// The timing of the bridge's main loop: a step system of blocking calls and
// watchdog feeds, and the longest time between two feeds over all its runs.
module Watchdog {

  const WDT_TIMEOUT_MS := 8000
  const AGENT_PING_TIMEOUT := 200
  const AGENT_WAIT_DELAY_MS := 2000
  const PING_PERIOD_MS := 1000
  const DIAG_PERIOD_MS := 5000

  /** The longest each part of the loop may take, in milliseconds. */
  datatype Limits = Limits(init: nat, fini: nat, serve: nat, diag: nat)

  /** The next thing the loop does. */
  datatype Pc =
    | Top          // feed at the loop top
    | FirstPing
    | SearchPing
    | SearchFeed
    | SearchSleep
    | InitSession
    | RetrySleep
    | Serve        // interrupt pass, executor, periodic pass
    | RunFeed
    | PingCheck
    | RunPing
    | DiagCheck
    | Publish
    | Rest         // k_msleep(1)
    | FiniSession
    | ReconnectSleep

  datatype State = State(pc: Pc, time: nat, fed: nat, now: nat, lastPing: nat, lastDiag: nat)

  /** One step: how long it takes, and whether the call it makes succeeds. */
  datatype Step = Step(took: nat, ok: bool)

  const START := State(Top, 0, 0, 0, 0, 0)

  /** How long a step may take. */
  predicate Allowed(l: Limits, pc: Pc, took: nat) {
    match pc
    case FirstPing => took <= AGENT_PING_TIMEOUT
    case SearchPing => took <= AGENT_PING_TIMEOUT
    case RunPing => took <= AGENT_PING_TIMEOUT
    case SearchSleep => took == AGENT_WAIT_DELAY_MS
    case RetrySleep => took == AGENT_WAIT_DELAY_MS
    case ReconnectSleep => took == AGENT_WAIT_DELAY_MS
    case Rest => took == 1
    case InitSession => took <= l.init
    case FiniSession => took <= l.fini
    case Serve => took <= l.serve
    case Publish => took <= l.diag
    case _ => took == 0
  }

  function Next(s: State, e: Step): State {
    var t := s.time + e.took;
    match s.pc
    case Top => s.(pc := FirstPing, fed := t, time := t)
    case FirstPing => s.(pc := if e.ok then InitSession else SearchPing, time := t)
    case SearchPing => s.(pc := if e.ok then InitSession else SearchFeed, time := t)
    case SearchFeed => s.(pc := SearchSleep, fed := t, time := t)
    case SearchSleep => s.(pc := SearchPing, time := t)
    case InitSession =>
      if e.ok then s.(pc := Serve, time := t, lastPing := t, lastDiag := t) else s.(pc := RetrySleep, time := t)
    case RetrySleep => s.(pc := Top, time := t)
    case Serve => s.(pc := RunFeed, time := t)
    case RunFeed => s.(pc := PingCheck, fed := t, time := t, now := t)
    case PingCheck =>
      if s.now - s.lastPing >= PING_PERIOD_MS then s.(pc := RunPing, lastPing := s.now, time := t)
      else s.(pc := DiagCheck, time := t)
    case RunPing => s.(pc := if e.ok then DiagCheck else FiniSession, time := t)
    case DiagCheck =>
      if s.now - s.lastDiag >= DIAG_PERIOD_MS then s.(pc := Publish, lastDiag := s.now, time := t)
      else s.(pc := Rest, time := t)
    case Publish => s.(pc := Rest, time := t)
    case Rest => s.(pc := Serve, time := t)
    case FiniSession => s.(pc := ReconnectSleep, time := t)
    case ReconnectSleep => s.(pc := Top, time := t)
  }

  /** Every step takes its time, and only feeds feed. */
  lemma StepTakes(s: State, e: Step)
    ensures Next(s, e).time == s.time + e.took
    ensures Next(s, e).fed == if Feeds(s.pc) then s.time + e.took else s.fed
  {
  }

  /** Pings decide: a session is tried exactly after an answered ping of the search, and given up exactly
      after an unanswered one of the run loop; nothing else starts or ends one. */
  lemma PingsDecide(s: State, e: Step)
    ensures Next(s, e).pc == InitSession <==> (s.pc == FirstPing || s.pc == SearchPing) && e.ok
    ensures Next(s, e).pc == FiniSession <==> s.pc == RunPing && !e.ok
    ensures Next(s, e).pc == Serve <==> (s.pc == InitSession && e.ok) || s.pc == Rest
  {
  }

  predicate Legal(l: Limits, s: State, run: seq<Step>)
    decreases |run|
  { run == [] || (Allowed(l, s.pc, run[0].took) && Legal(l, Next(s, run[0]), run[1..])) }

  function After(s: State, run: seq<Step>): State
    decreases |run|
  { if run == [] then s else After(Next(s, run[0]), run[1..]) }

  predicate Feeds(pc: Pc) { pc == Top || pc == SearchFeed || pc == RunFeed }

  /** Where the loop top, the search loop and the run loop each begin a turn. */
  predicate BeginsTurn(pc: Pc) { pc == Top || pc == SearchPing || pc == Serve }

  /** The time since the last feed when the step after the run is a feed. */
  function Gap(s: State): int { s.time - s.fed }

  // ---------------------------------------------------------------- the bound

  function Max(a: nat, b: nat): nat { if a < b then b else a }

  /** The longest time between two feeds: a failed search ping up to a failed or a first
      served session, a lost agent, or one pass of the run loop. */
  function Bound(l: Limits): nat {
    Max(Max(4200 + l.init, 2200 + l.init + l.serve), Max(2200 + l.fini, 201 + l.diag + l.serve))
  }

  /** The longest the time since the last feed can be at each point. */
  function Since(l: Limits, pc: Pc): nat {
    match pc
    case Top => Max(4200 + l.init, 2200 + l.fini)
    case FirstPing => 0
    case SearchPing => 2000
    case SearchFeed => 2200
    case SearchSleep => 0
    case InitSession => 2200
    case RetrySleep => 2200 + l.init
    case Serve => Max(2200 + l.init, 201 + l.diag)
    case RunFeed => Max(2200 + l.init, 201 + l.diag) + l.serve
    case PingCheck => 0
    case RunPing => 0
    case DiagCheck => 200
    case Publish => 200
    case Rest => 200 + l.diag
    case FiniSession => 200
    case ReconnectSleep => 200 + l.fini
  }

  predicate Timely(l: Limits, s: State) { s.fed <= s.time && Gap(s) <= Since(l, s.pc) }

  lemma TimelyStep(l: Limits, s: State, e: Step)
    requires Timely(l, s) && Allowed(l, s.pc, e.took)
    ensures Timely(l, Next(s, e))
  {
  }

  lemma {:induction false} TimelyRun(l: Limits, s: State, run: seq<Step>)
    requires Timely(l, s) && Legal(l, s, run)
    ensures Timely(l, After(s, run))
    decreases |run|
  {
    hide Timely, Next;
    if run != [] {
      TimelyStep(l, s, run[0]);
      TimelyRun(l, Next(s, run[0]), run[1..]);
    }
  }

  /** In every run, whenever the loop feeds the watchdog the previous feed is at most the bound ago. */
  lemma FedInTime(l: Limits, run: seq<Step>)
    requires Legal(l, START, run) && Feeds(After(START, run).pc)
    ensures Gap(After(START, run)) <= Bound(l)
  {
    TimelyRun(l, START, run);
  }

  // ---------------------------------------------------------------- pings and diagnostics

  /** The loop's stamps lie behind the clock, and what was due has been done: behind the check for a
      ping the last one is under a second old, behind that for the diagnostics they are under five. */
  predicate Stamped(s: State) {
    && s.lastPing <= s.time && s.lastDiag <= s.time && s.now <= s.time
    && match s.pc
       case PingCheck => s.lastPing <= s.now && s.lastDiag <= s.now
       case RunPing => s.lastPing == s.now && s.lastDiag <= s.now
       case DiagCheck => Recent(s.lastPing, s.now, PING_PERIOD_MS) && s.lastDiag <= s.now
       case Publish => Recent(s.lastPing, s.now, PING_PERIOD_MS) && s.lastDiag == s.now
       case Rest => Recent(s.lastPing, s.now, PING_PERIOD_MS) && Recent(s.lastDiag, s.now, DIAG_PERIOD_MS)
       case _ => true
  }

  predicate Recent(last: nat, now: nat, period: nat) { last <= now < last + period }

  lemma StampedStep(l: Limits, s: State, e: Step)
    requires Stamped(s) && Allowed(l, s.pc, e.took)
    ensures Stamped(Next(s, e)) && s.lastPing <= Next(s, e).lastPing && s.lastDiag <= Next(s, e).lastDiag
    ensures Next(s, e).pc == RunPing ==> Next(s, e).now - s.lastPing >= PING_PERIOD_MS
    ensures Next(s, e).pc == Publish ==> Next(s, e).now - s.lastDiag >= DIAG_PERIOD_MS
  {
    StampsGrow(l, s, e);
    StampsKept(l, s, e);
  }

  lemma StampsGrow(l: Limits, s: State, e: Step)
    requires Stamped(s) && Allowed(l, s.pc, e.took)
    ensures s.lastPing <= Next(s, e).lastPing && s.lastDiag <= Next(s, e).lastDiag
  {
  }

  lemma StampsKept(l: Limits, s: State, e: Step)
    requires Stamped(s) && Allowed(l, s.pc, e.took)
    ensures Stamped(Next(s, e))
  {
  }

  /** Nothing that is due is put off: in every run, whenever a turn of the run loop rests, the last ping
      is under a second and the last diagnostics under five seconds older than the turn's feed. */
  lemma {:induction false} NothingPutOff(l: Limits, s: State, run: seq<Step>)
    requires Stamped(s) && Legal(l, s, run)
    ensures Stamped(After(s, run))
    ensures var e := After(s, run);
            e.pc == Rest ==> e.now - e.lastPing < PING_PERIOD_MS && e.now - e.lastDiag < DIAG_PERIOD_MS
    decreases |run|
  {
    hide Next;
    if run != [] {
      StampedStep(l, s, run[0]);
      NothingPutOff(l, Next(s, run[0]), run[1..]);
    }
  }

  lemma StartStamped()
    ensures Stamped(START)
  {
  }

  lemma {:induction false} StampsApart(l: Limits, s: State, run: seq<Step>, ping: int, diag: int)
    requires Stamped(s) && Legal(l, s, run) && ping <= s.lastPing && diag <= s.lastDiag
    requires s.pc == RunPing ==> s.now - ping >= PING_PERIOD_MS
    requires s.pc == Publish ==> s.now - diag >= DIAG_PERIOD_MS
    ensures var e := After(s, run);
            && (e.pc == RunPing ==> e.now - ping >= PING_PERIOD_MS)
            && (e.pc == Publish ==> e.now - diag >= DIAG_PERIOD_MS)
    decreases |run|
  {
    hide Next, Stamped, Allowed;
    if run != [] {
      StampedStep(l, s, run[0]);
      StampsApart(l, Next(s, run[0]), run[1..], ping, diag);
    }
  }

  /** Two pings of the run loop are at least a second apart and two diagnostics at least five seconds,
      from any point of any run on, in one session or in two. */
  lemma DuesApart(l: Limits, before: seq<Step>, run: seq<Step>)
    requires Legal(l, START, before) && run != [] && Legal(l, After(START, before), run)
    ensures var s, e := After(START, before), After(After(START, before), run);
            && (s.pc == RunPing && e.pc == RunPing ==> e.now - s.now >= PING_PERIOD_MS)
            && (s.pc == Publish && e.pc == Publish ==> e.now - s.now >= DIAG_PERIOD_MS)
  {
    StartStamped();
    NothingPutOff(l, START, before);
    var s := After(START, before);
    StampedStep(l, s, run[0]);
    StampsApart(l, Next(s, run[0]), run[1..], s.lastPing, s.lastDiag);
  }

  // ---------------------------------------------------------------- the bound is attained

  lemma {:induction false} Chain(l: Limits, s: State, a: seq<Step>, b: seq<Step>)
    requires Legal(l, s, a) && Legal(l, After(s, a), b)
    ensures Legal(l, s, a + b) && After(s, a + b) == After(After(s, a), b)
    decreases |a|
  {
    if a == [] {
      assert a + b == b;
    } else {
      assert (a + b)[0] == a[0] && (a + b)[1..] == a[1..] + b;
      Chain(l, Next(s, a[0]), a[1..], b);
    }
  }

  lemma One(l: Limits, s: State, e: Step)
    requires Allowed(l, s.pc, e.took)
    ensures Legal(l, s, [e]) && After(s, [e]) == Next(s, e)
  {
    assert [e][0] == e && [e][1..] == [];
    assert Legal(l, Next(s, e), []) && After(Next(s, e), []) == Next(s, e);
  }

  lemma Then(l: Limits, run: seq<Step>, e: Step) returns (more: seq<Step>)
    requires Legal(l, START, run) && Allowed(l, After(START, run).pc, e.took)
    ensures Legal(l, START, more) && After(START, more) == Next(After(START, run), e)
  {
    One(l, After(START, run), e);
    Chain(l, START, run, [e]);
    more := run + [e];
  }

  lemma Nil(l: Limits) returns (run: seq<Step>)
    ensures Legal(l, START, run) && After(START, run).pc == Top
  {
    run := [];
  }

  /** A search that fails twice and then finds the agent, everything as slow as allowed. */
  lemma SlowSearch(l: Limits) returns (run: seq<Step>)
    ensures Legal(l, START, run) && After(START, run).pc == InitSession && Gap(After(START, run)) == 2200
  {
    hide Legal, After;
    run := NotFound(l);
    run := Then(l, run, Step(0, true));
    run := Then(l, run, Step(AGENT_WAIT_DELAY_MS, true));
    run := Then(l, run, Step(AGENT_PING_TIMEOUT, true));
  }

  lemma NotFound(l: Limits) returns (run: seq<Step>)
    ensures Legal(l, START, run) && After(START, run).pc == SearchFeed
  {
    hide Legal, After;
    run := Nil(l);
    run := Then(l, run, Step(0, true));
    assert After(START, run).pc == FirstPing;
    run := Then(l, run, Step(0, false));
    assert After(START, run).pc == SearchPing;
    run := Then(l, run, Step(0, false));
  }

  lemma SlowRetry(l: Limits) returns (run: seq<Step>)
    ensures Legal(l, START, run) && Feeds(After(START, run).pc) && Gap(After(START, run)) == 4200 + l.init
  {
    hide Legal, After;
    run := SlowSearch(l);
    run := Then(l, run, Step(l.init, false));
    run := Then(l, run, Step(AGENT_WAIT_DELAY_MS, true));
  }

  lemma SlowFirstPass(l: Limits) returns (run: seq<Step>)
    ensures Legal(l, START, run) && Feeds(After(START, run).pc) && Gap(After(START, run)) == 2200 + l.init + l.serve
  {
    hide Legal, After;
    run := SlowSearch(l);
    run := Then(l, run, Step(l.init, true));
    run := Then(l, run, Step(l.serve, true));
  }

  /** How far the session is: k milliseconds of idle passes, every ping answered at once. */
  predicate IdleFor(s: State, k: nat) {
    && s.pc == Serve && s.time == s.lastDiag + k && s.lastPing <= s.time
    && s.lastPing == s.lastDiag + Pinged(k)
  }

  /** The offset of the latest ping of an idle session. */
  function Pinged(k: nat): nat { if k == 0 then 0 else (k - 1) / PING_PERIOD_MS * PING_PERIOD_MS }

  /** The feed after k idle milliseconds. */
  lemma IdleFeed(l: Limits, k: nat) returns (run: seq<Step>)
    requires k <= DIAG_PERIOD_MS
    ensures Legal(l, START, run) && var s := After(START, run);
            s.pc == PingCheck && s.now == s.time == s.fed == s.lastDiag + k && s.lastPing == s.lastDiag + Pinged(k)
            && (s.now - s.lastPing >= PING_PERIOD_MS <==> k > 0 && k % PING_PERIOD_MS == 0)
    decreases k, 1
  {
    hide Legal, After;
    run := Idle(l, k);
    run := Then(l, run, Step(0, true));
    run := Then(l, run, Step(0, true));
  }

  lemma {:induction false} Idle(l: Limits, k: nat) returns (run: seq<Step>)
    requires k <= DIAG_PERIOD_MS
    ensures Legal(l, START, run) && IdleFor(After(START, run), k)
    decreases k, 0
  {
    hide Legal, After;
    if k == 0 {
      run := SlowSearch(l);
      run := Then(l, run, Step(0, true));
    } else {
      run := IdleFeed(l, k - 1);
      ghost var ping := After(START, run).now - After(START, run).lastPing >= PING_PERIOD_MS;
      run := Then(l, run, Step(0, true));
      if ping { run := Then(l, run, Step(0, true)); }
      run := Then(l, run, Step(0, true));
      run := Then(l, run, Step(1, true));
    }
  }

  lemma SlowLoss(l: Limits) returns (run: seq<Step>)
    ensures Legal(l, START, run) && Feeds(After(START, run).pc) && Gap(After(START, run)) == 2200 + l.fini
  {
    hide Legal, After;
    run := IdleFeed(l, PING_PERIOD_MS);
    run := Then(l, run, Step(0, true));
    run := Then(l, run, Step(AGENT_PING_TIMEOUT, false));
    run := Then(l, run, Step(l.fini, true));
    run := Then(l, run, Step(AGENT_WAIT_DELAY_MS, true));
  }

  lemma SlowPass(l: Limits) returns (run: seq<Step>)
    ensures Legal(l, START, run) && Feeds(After(START, run).pc) && Gap(After(START, run)) == 201 + l.diag + l.serve
  {
    hide Legal, After;
    run := IdleFeed(l, DIAG_PERIOD_MS);
    run := Then(l, run, Step(0, true));
    run := Then(l, run, Step(AGENT_PING_TIMEOUT, true));
    run := Then(l, run, Step(0, true));
    run := Then(l, run, Step(l.diag, true));
    run := Then(l, run, Step(1, true));
    run := Then(l, run, Step(l.serve, true));
  }

  lemma BoundAttained(l: Limits) returns (run: seq<Step>)
    ensures Legal(l, START, run) && Feeds(After(START, run).pc) && Gap(After(START, run)) == Bound(l)
  {
    hide Legal, After;
    var a := SlowRetry(l);
    var b := SlowFirstPass(l);
    var c := SlowLoss(l);
    var d := SlowPass(l);
    run := if Bound(l) == 4200 + l.init then a else if Bound(l) == 2200 + l.init + l.serve then b
           else if Bound(l) == 2200 + l.fini then c else d;
  }

  /** At every moment of every run, in a blocking call too, the last feed is at most the bound ago. */
  lemma NeverLater(l: Limits, run: seq<Step>)
    requires Legal(l, START, run)
    ensures Gap(After(START, run)) <= Bound(l)
  {
    TimelyRun(l, START, run);
    SinceBounded(l, After(START, run).pc);
    hide Legal, After, Bound, Since;
  }

  lemma SinceBounded(l: Limits, pc: Pc)
    ensures Since(l, pc) <= Bound(l)
  {
  }

  /** The watchdog never expires, in any state of any run, exactly when the bound is under its timeout. */
  lemma NeverExpires(l: Limits)
    ensures (forall run :: Legal(l, START, run) ==> Gap(After(START, run)) < WDT_TIMEOUT_MS)
       <==> Bound(l) < WDT_TIMEOUT_MS
  {
    hide Bound;
    forall run | Legal(l, START, run) ensures Gap(After(START, run)) <= Bound(l) {
      NeverLater(l, run);
    }
    var worst := BoundAttained(l);
  }
}
