// The main loop and the channels on one clock: how often a session serves its
// channels, and what that makes of the periods.
module Latency {
  import opened PublishSteps
  import W = Watchdog

  /** Inside the run loop of a session. */
  predicate InSession(pc: W.Pc) { pc in {W.Serve, W.RunFeed, W.PingCheck, W.RunPing, W.DiagCheck, W.Publish, W.Rest} }

  // ---------------------------------------------------------------- from one serve to the next

  /** How long after the start of a serve the run loop can be at each point. */
  function Since(l: W.Limits, pc: W.Pc): nat
    requires InSession(pc)
  {
    match pc
    case Rest => 200 + l.serve + l.diag
    case Serve => 201 + l.serve + l.diag
    case DiagCheck => 200 + l.serve
    case Publish => 200 + l.serve
    case _ => l.serve
  }

  /** A run that stays in the session and does not serve again before its end. */
  predicate OneTurn(s: W.State, run: seq<W.Step>)
    decreases |run|
  {
    run == [] || (InSession(s.pc) && s.pc != W.Serve && OneTurn(W.Next(s, run[0]), run[1..]))
  }

  lemma {:induction false} TurnTakes(l: W.Limits, s: W.State, run: seq<W.Step>, start: nat)
    requires W.Legal(l, s, run) && OneTurn(s, run) && W.After(s, run).pc == W.Serve
    requires InSession(s.pc) && s.time <= start + Since(l, s.pc)
    ensures W.After(s, run).time <= start + Since(l, W.Serve)
    decreases |run|
  {
    if run != [] {
      var n := W.Next(s, run[0]);
      if InSession(n.pc) { TurnTakes(l, n, run[1..], start); }
    }
  }

  /** Consecutive serves of one session start at most 201 + serve + diag milliseconds apart. */
  lemma ServesApart(l: W.Limits, s: W.State, run: seq<W.Step>)
    requires s.pc == W.Serve && run != [] && W.Legal(l, s, run) && OneTurn(W.Next(s, run[0]), run[1..])
    requires W.After(s, run).pc == W.Serve
    ensures W.After(s, run).time <= s.time + 201 + l.serve + l.diag
  {
    TurnTakes(l, W.Next(s, run[0]), run[1..], s.time);
  }

  // ---------------------------------------------------------------- the loop and the channels together

  /** One step of the loop and what the channels do meanwhile: a serve holds one periodic pass, which
      samples the clock at `at`, after and before other actions; no other step holds one. */
  datatype Turn = Turn(step: W.Step, before: seq<Action>, at: int, after: seq<Action>)

  function Acts(pc: W.Pc, x: Turn): seq<Action>
  { if pc == W.Serve then x.before + [StartTimer(x.at)] + x.after else x.before }

  predicate NoPass(acts: seq<Action>) { forall k :: 0 <= k < |acts| ==> !acts[k].StartTimer? }

  predicate Fits(l: W.Limits, w: W.State, s: State, x: Turn)
    requires Shaped(s)
  {
    && InSession(w.pc) && W.Allowed(l, w.pc, x.step.took)
    && NoPass(x.before) && NoPass(x.after) && (w.pc == W.Serve ==> w.time <= x.at <= w.time + x.step.took)
    && Legal(s, Acts(w.pc, x)) && After(s, Acts(w.pc, x)).phase == Idle
  }

  predicate Joint(l: W.Limits, w: W.State, s: State, turns: seq<Turn>)
    requires Shaped(s)
    decreases |turns|
  {
    turns == [] || (Fits(l, w, s, turns[0])
                    && Joint(l, W.Next(w, turns[0].step), After(s, Acts(w.pc, turns[0])), turns[1..]))
  }

  function Loop(w: W.State, turns: seq<Turn>): W.State
    decreases |turns|
  { if turns == [] then w else Loop(W.Next(w, turns[0].step), turns[1..]) }

  function All(w: W.State, turns: seq<Turn>): seq<Action>
    decreases |turns|
  { if turns == [] then [] else Acts(w.pc, turns[0]) + All(W.Next(w, turns[0].step), turns[1..]) }

  /** The actions of a joint run are a run of the channels. */
  lemma {:induction false} JointIsRun(l: W.Limits, w: W.State, s: State, turns: seq<Turn>)
    requires Shaped(s) && Joint(l, w, s, turns)
    ensures Legal(s, All(w, turns))
    ensures turns != [] ==> After(s, All(w, turns)).phase == Idle
    decreases |turns|
  {
    hide W.Next, Next;
    if turns != [] {
      var acts, w1 := Acts(w.pc, turns[0]), W.Next(w, turns[0].step);
      JointIsRun(l, w1, After(s, acts), turns[1..]);
      RunOn(s, acts, All(w1, turns[1..]));
    }
  }

  // ---------------------------------------------------------------- spacing of the passes

  /** The longest time between two periodic passes of a session. */
  function Spacing(l: W.Limits): nat { 201 + 2 * l.serve + l.diag }

  /** The latest pass at tau is no older than the part of the turn behind the loop allows. */
  predicate Fresh(l: W.Limits, w: W.State, tau: int)
  { InSession(w.pc) ==> w.time <= tau + Since(l, w.pc) }

  lemma FreshStep(l: W.Limits, w: W.State, s: State, x: Turn, tau: int)
    requires Shaped(s) && Fits(l, w, s, x) && Fresh(l, w, tau)
    ensures Fresh(l, W.Next(w, x.step), if w.pc == W.Serve then x.at else tau)
    ensures w.pc == W.Serve ==> x.at <= tau + Spacing(l)
  {
  }

  lemma {:induction false} QuietSpaced(acts: seq<Action>, more: seq<Action>, tau: int, d: nat)
    requires NoPass(acts)
    ensures Spaced(acts + more, tau, d) == Spaced(more, tau, d) && LastPass(acts + more, tau) == LastPass(more, tau)
    decreases |acts|
  {
    if acts == [] {
      assert acts + more == more;
    } else {
      assert (acts + more)[0] == acts[0] && (acts + more)[1..] == acts[1..] + more;
      QuietSpaced(acts[1..], more, tau, d);
    }
  }

  lemma TurnSpaced(pc: W.Pc, x: Turn, more: seq<Action>, tau: int, d: nat)
    requires NoPass(x.before) && NoPass(x.after) && (pc == W.Serve ==> x.at <= tau + d)
    ensures var u := if pc == W.Serve then x.at else tau;
            && Spaced(Acts(pc, x) + more, tau, d) == Spaced(more, u, d)
            && LastPass(Acts(pc, x) + more, tau) == LastPass(more, u)
  {
    if pc == W.Serve {
      var tail := [StartTimer(x.at)] + (x.after + more);
      assert Acts(pc, x) + more == x.before + tail;
      QuietSpaced(x.before, tail, tau, d);
      assert tail[0] == StartTimer(x.at) && tail[1..] == x.after + more;
      QuietSpaced(x.after, more, x.at, d);
    } else {
      QuietSpaced(x.before, more, tau, d);
    }
  }

  /** Whatever the channels and the interrupts do, the periodic passes of a session are at most
      201 + 2 serve + diag milliseconds apart, and the latest is never older than a turn. */
  lemma {:induction false} SessionSpaced(l: W.Limits, w: W.State, s: State, turns: seq<Turn>, tau: int)
    requires Shaped(s) && Joint(l, w, s, turns) && Fresh(l, w, tau)
    ensures Spaced(All(w, turns), tau, Spacing(l))
    ensures Fresh(l, Loop(w, turns), LastPass(All(w, turns), tau))
    decreases |turns|
  {
    hide W.Next, Next, Fresh, Spacing, Acts, Legal, After;
    if turns != [] {
      var x, w1 := turns[0], W.Next(w, turns[0].step);
      var u := if w.pc == W.Serve then x.at else tau;
      FreshStep(l, w, s, x, tau);
      SessionSpaced(l, w1, After(s, Acts(w.pc, x)), turns[1..], u);
      TurnSpaced(w.pc, x, All(w1, turns[1..]), tau, Spacing(l));
    }
  }

  // ---------------------------------------------------------------- what the periods become

  /** Channel i published last no longer ago than its period p and the part of the turn behind the loop. */
  predicate Current(l: W.Limits, w: W.State, s: State, i: nat, p: nat)
    requires Shaped(s) && i < CHANNEL_MAX && InSession(w.pc)
  { w.time <= s.last[i] + p + Since(l, w.pc) }

  /** At every point of a session a connected enabled channel published last no longer ago than its
      period and one turn of the loop. */
  lemma NeverStale(l: W.Limits, w: W.State, s: State, turns: seq<Turn>, i: nat, p: nat)
    requires Sane(s) && s.phase == Idle && Joint(l, w, s, turns) && Undisturbed(All(w, turns), i)
    requires Periodic(s, i, p) && InSession(w.pc) && Current(l, w, s, i, p) && InSession(Loop(w, turns).pc)
    ensures Legal(s, All(w, turns)) && Current(l, Loop(w, turns), After(s, All(w, turns)), i, p)
    ensures Loop(w, turns).time - After(s, All(w, turns)).last[i] <= p + 201 + l.serve + l.diag
  {
    var tau := s.last[i] + p;
    JointIsRun(l, w, s, turns);
    SessionSpaced(l, w, s, turns, tau);
    NeverLate(s, All(w, turns), i, p, Spacing(l), tau);
    SinceBounded(l, Loop(w, turns).pc);
    assert turns == [] ==> All(w, turns) == [];
    hide Joint, Legal, Loop, All, Undisturbed, Spaced, LastPass, Since, Spacing;
  }

  lemma SinceBounded(l: W.Limits, pc: W.Pc)
    requires InSession(pc)
    ensures Since(l, pc) <= 201 + l.serve + l.diag
  {
  }

  lemma {:induction false} LastPassFrom(run: seq<Action>, a: int, b: int)
    ensures LastPass(run, a) == LastPass(run, b) || (LastPass(run, a) == a && LastPass(run, b) == b)
    decreases |run|
  {
    if run != [] { LastPassFrom(run[1..], PassOf(run[0], a), PassOf(run[0], b)); }
  }

  /** Whatever happened at te, a dropped edge included: if the session is still up one period and one
      turn later, the channel has published since, before any pass later than p + 201 + 2 serve + diag
      after te. */
  lemma ReportedInSession(l: W.Limits, w: W.State, s: State, turns: seq<Turn>, i: nat, p: nat, te: int)
    returns (n: nat)
    requires Sane(s) && s.phase == Idle && Joint(l, w, s, turns) && Undisturbed(All(w, turns), i)
    requires Periodic(s, i, p) && s.clock <= te && InSession(w.pc) && w.time < te + p + Since(l, w.pc)
    requires InSession(Loop(w, turns).pc) && Loop(w, turns).time >= te + p + 201 + l.serve + l.diag
    ensures n <= |All(w, turns)| && LastPass(All(w, turns)[..n], te) <= te + p + 201 + 2 * l.serve + l.diag
    ensures Legal(s, All(w, turns)[..n]) && Total(After(s, All(w, turns)[..n]), i) > Total(s, i)
  {
    var tau := te + p - 1;
    JointIsRun(l, w, s, turns);
    SessionSpaced(l, w, s, turns, tau);
    SinceBounded(l, Loop(w, turns).pc);
    assert turns == [] ==> All(w, turns) == [];
    n := ReportedWithin(s, All(w, turns), i, p, Spacing(l), te, tau);
    LastPassFrom(All(w, turns)[..n], tau, te);
  }
}
