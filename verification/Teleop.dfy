// The RC teleop node: four callbacks, a timer, and what it may publish.
module Teleop {
  import opened Options
  import opened Reals

  datatype Params = Params(
    tank: bool, maxWheel: real, separation: real, maxLin: real, maxAng: real, deadzone: real, isPwm: bool,
    threshold: real)

  datatype Twist = Twist(linear: real, angular: real)

  const ZERO := Twist(0.0, 0.0)

  /** Messages on the four topics, a tick of the timer, and the interrupt that ends the program. */
  datatype Event = StickA(v: real) | StickB(v: real) | EStop(active: bool) | Mode(v: real) | Timer | Stop

  /** The node's fields, and whether the program has left its main loop. */
  datatype State = State(chA: real, chB: real, rcMode: bool, estop: bool, down: bool)

  const INITIAL := State(0.0, 0.0, false, true, false)

  // ---------------------------------------------------------------- stick values

  function Stick(p: Params, raw: real): (r: real)
    ensures -1.0 <= r <= 1.0
  {
    var norm := Clamp(if p.isPwm then (raw - 1500.0) / 500.0 else raw);
    if Abs(norm) < p.deadzone then 0.0 else norm
  }

  /** Moving the stick up never lowers its value, and mirroring it mirrors the value. */
  lemma StickMonotone(p: Params, a: real, b: real)
    requires a <= b
    ensures Stick(p, a) <= Stick(p, b)
    ensures !p.isPwm ==> Stick(p, -a) == -Stick(p, a)
    ensures p.isPwm ==> Stick(p, 3000.0 - a) == -Stick(p, a)
  {
    assert (3000.0 - a - 1500.0) / 500.0 == -((a - 1500.0) / 500.0);
  }

  /** The deflection of a stick from its centre, full at -1 and 1. */
  predicate Deflected(p: Params, raw: real, x: real) { if p.isPwm then raw == 1500.0 + 500.0 * x else raw == x }

  /** What a stick value is: zero inside the deadzone, the deflection itself up to the stops, and full
      deflection beyond them, unless the deadzone swallows that too. */
  lemma StickIs(p: Params, raw: real, x: real)
    requires Deflected(p, raw, x)
    ensures Abs(x) < p.deadzone ==> Stick(p, raw) == 0.0
    ensures p.deadzone <= Abs(x) <= 1.0 ==> Stick(p, raw) == x
    ensures Abs(x) > 1.0 ==> Stick(p, raw) == if p.deadzone > 1.0 then 0.0 else if x > 0.0 then 1.0 else -1.0
    ensures Stick(p, raw) == 0.0 <==> Rests(p, raw)
  {
    if p.isPwm { assert (raw - 1500.0) / 500.0 == x; }
  }

  /** The stick is at its centre or within the deadzone. */
  predicate Rests(p: Params, raw: real) {
    if p.isPwm then raw == 1500.0 || Abs(raw - 1500.0) < 500.0 * p.deadzone || p.deadzone > 1.0
    else raw == 0.0 || Abs(raw) < p.deadzone || p.deadzone > 1.0
  }

  // ---------------------------------------------------------------- the mixing

  /** What the tank commands amount to as a twist. */
  function Mix(p: Params, a: real, b: real): Twist
    requires p.tank ==> p.separation != 0.0
  {
    if p.tank
    then var l, r := Speed(a, p.maxWheel), Speed(b, p.maxWheel); Twist((l + r) / 2.0, (r - l) / p.separation)
    else Twist(Speed(a, p.maxLin), Speed(b, p.maxAng))
  }

  /** The fraction of a top speed that a stick value commands. */
  function Speed(stick: real, top: real): real { stick * top }

  /** The wheel speeds a differential drive makes of a twist. */
  function Left(t: Twist, separation: real): real { t.linear - t.angular * separation / 2.0 }
  function Right(t: Twist, separation: real): real { t.linear + t.angular * separation / 2.0 }

  /** In tank mode the drive recovers exactly the stick commands, so no wheel exceeds the maximum. */
  lemma TankRecovers(p: Params, a: real, b: real)
    requires p.tank && p.separation != 0.0 && -1.0 <= a <= 1.0 && -1.0 <= b <= 1.0
    ensures Left(Mix(p, a, b), p.separation) == a * p.maxWheel
    ensures Right(Mix(p, a, b), p.separation) == b * p.maxWheel
    ensures Abs(Left(Mix(p, a, b), p.separation)) <= Abs(p.maxWheel)
    ensures Abs(Right(Mix(p, a, b), p.separation)) <= Abs(p.maxWheel)
  {
    assert Speed(a, p.maxWheel) == a * p.maxWheel && Speed(b, p.maxWheel) == b * p.maxWheel;
    hide Speed, Left, Right, Abs;
    Bounded(a, p.maxWheel);
    Bounded(b, p.maxWheel);
    Recover(Speed(a, p.maxWheel), Speed(b, p.maxWheel), p.separation);
  }

  lemma Recover(l: real, r: real, s: real)
    requires s != 0.0
    ensures Left(Twist((l + r) / 2.0, (r - l) / s), s) == l && Right(Twist((l + r) / 2.0, (r - l) / s), s) == r
  {
    var w := (r - l) / s;
    assert w * s == r - l;
  }

  lemma Bounded(a: real, m: real)
    requires -1.0 <= a <= 1.0
    ensures Abs(Speed(a, m)) <= Abs(m)
  {
    var x := Speed(a, m);
    if m >= 0.0 {
      Between(a, m);
    } else {
      Between(a, -m);
      Negated(a, m);
    }
    assert -Abs(m) <= x <= Abs(m);
  }

  lemma Negated(a: real, m: real)
    ensures a * -m == -Speed(a, m)
  {
  }

  lemma Between(a: real, m: real)
    requires -1.0 <= a <= 1.0 && m >= 0.0
    ensures -m <= Speed(a, m) <= m && -m <= a * m <= m
  {
  }

  /** In arcade mode each stick commands its share of its own limit, so neither speed exceeds it. */
  lemma ArcadeBounded(p: Params, a: real, b: real)
    requires !p.tank && -1.0 <= a <= 1.0 && -1.0 <= b <= 1.0
    ensures Mix(p, a, b).linear == a * p.maxLin && Mix(p, a, b).angular == b * p.maxAng
    ensures Abs(Mix(p, a, b).linear) <= Abs(p.maxLin) && Abs(Mix(p, a, b).angular) <= Abs(p.maxAng)
  {
    assert Speed(a, p.maxLin) == a * p.maxLin && Speed(b, p.maxAng) == b * p.maxAng;
    hide Speed, Abs;
    Bounded(a, p.maxLin);
    Bounded(b, p.maxAng);
  }

  /** A mix is zero exactly when both sticks that count for it are. */
  lemma MixIsZero(p: Params, a: real, b: real)
    requires p.tank ==> p.separation != 0.0
    ensures p.tank ==> (Mix(p, a, b) == ZERO <==> p.maxWheel == 0.0 || (a == 0.0 && b == 0.0))
    ensures !p.tank ==>
              (Mix(p, a, b) == ZERO <==> (p.maxLin == 0.0 || a == 0.0) && (p.maxAng == 0.0 || b == 0.0))
  {
    SpeedIsZero(a, p.maxWheel);
    SpeedIsZero(b, p.maxWheel);
    SpeedIsZero(a, p.maxLin);
    SpeedIsZero(b, p.maxAng);
    hide Speed, Left, Right;
    if p.tank {
      var l, r := Speed(a, p.maxWheel), Speed(b, p.maxWheel);
      Recover(l, r, p.separation);
      LeftRight(Mix(p, a, b), p.separation);
    }
  }

  lemma SpeedIsZero(stick: real, top: real)
    ensures Speed(stick, top) == 0.0 <==> stick == 0.0 || top == 0.0
  {
  }

  lemma LeftRight(t: Twist, separation: real)
    ensures t == ZERO ==> Left(t, separation) == 0.0 && Right(t, separation) == 0.0
  {
  }

  // ---------------------------------------------------------------- events

  /** The timer callback divides by the wheel separation; with zero it raises, and the program ends. */
  predicate Raises(p: Params, s: State) { s.rcMode && !s.estop && p.tank && p.separation == 0.0 }

  function Next(p: Params, s: State, e: Event): State {
    if s.down then s
    else
      match e
      case StickA(v) => s.(chA := Stick(p, v))
      case StickB(v) => s.(chB := Stick(p, v))
      case EStop(active) => s.(estop := active)
      case Mode(v) => s.(rcMode := v > p.threshold)
      case Timer => s.(down := Raises(p, s))
      case Stop => s.(down := true)
  }

  predicate Switches(p: Params, s: State, e: Event) { !s.down && e.Mode? && (e.v > p.threshold) != s.rcMode }

  predicate Ticks(s: State, e: Event) { !s.down && e.Timer? && s.rcMode }

  predicate Ends(s: State, e: Event) { !s.down && e.Stop? }

  /** What one event makes the node send; leaving the main loop, in either way, sends a zero. */
  function Sent(p: Params, s: State, e: Event): seq<Twist> {
    if Switches(p, s, e) || Ends(s, e) then [ZERO]
    else if Ticks(s, e) then [if s.estop || Raises(p, s) then ZERO else Mix(p, s.chA, s.chB)]
    else []
  }

  function After(p: Params, s: State, es: seq<Event>): State
  { if es == [] then s else Next(p, After(p, s, es[..|es| - 1]), es[|es| - 1]) }

  function Output(p: Params, s: State, es: seq<Event>): seq<Twist>
  { if es == [] then [] else Output(p, s, es[..|es| - 1]) + Sent(p, After(p, s, es[..|es| - 1]), es[|es| - 1]) }

  // ---------------------------------------------------------------- safety of whole runs

  /** The latest value on the e-stop topic, active before the first message. */
  function LastEStop(es: seq<Event>): bool {
    if es == [] then true
    else if es[|es| - 1].EStop? then es[|es| - 1].active else LastEStop(es[..|es| - 1])
  }

  /** Whether the latest mode message chose RC; ROS before the first. */
  function LastMode(p: Params, es: seq<Event>): bool {
    if es == [] then false
    else if es[|es| - 1].Mode? then es[|es| - 1].v > p.threshold else LastMode(p, es[..|es| - 1])
  }

  function LastStick(p: Params, es: seq<Event>, a: bool): (r: real)
    ensures -1.0 <= r <= 1.0
  {
    if es == [] then 0.0
    else var e := es[|es| - 1];
      if a && e.StickA? then Stick(p, e.v) else if !a && e.StickB? then Stick(p, e.v)
      else LastStick(p, es[..|es| - 1], a)
  }

  predicate Running(p: Params, es: seq<Event>) { !After(p, INITIAL, es).down }

  /** While the program runs, the fields are what the messages so far say. */
  lemma {:induction false} Remembers(p: Params, es: seq<Event>)
    requires Running(p, es)
    ensures After(p, INITIAL, es)
         == State(LastStick(p, es, true), LastStick(p, es, false), LastMode(p, es), LastEStop(es), false)
  {
    if es != [] { Remembers(p, es[..|es| - 1]); }
  }

  /** The latest raw value of a stick. */
  function LastRaw(es: seq<Event>, a: bool): Option<real> {
    if es == [] then None
    else var e := es[|es| - 1];
      if a && e.StickA? then Some(e.v) else if !a && e.StickB? then Some(e.v) else LastRaw(es[..|es| - 1], a)
  }

  predicate LastRests(p: Params, es: seq<Event>, a: bool)
  { match LastRaw(es, a) case None => true case Some(v) => Rests(p, v) }

  lemma {:induction false} LastStickIs(p: Params, es: seq<Event>, a: bool)
    ensures LastStick(p, es, a) == match LastRaw(es, a) case None => 0.0 case Some(v) => Stick(p, v)
  {
    hide Stick;
    if es != [] { LastStickIs(p, es[..|es| - 1], a); }
  }

  lemma RestIsZero(p: Params, es: seq<Event>, a: bool)
    ensures LastStick(p, es, a) == 0.0 <==> LastRests(p, es, a)
  {
    LastStickIs(p, es, a);
    match LastRaw(es, a) {
      case None =>
      case Some(v) => StickIs(p, v, if p.isPwm then (v - 1500.0) / 500.0 else v);
    }
    hide Stick, Rests;
  }

  /** A tick of the running program in RC mode sends a zero exactly if the e-stop is active, the wheel
      separation is a zero divisor, or every stick that has a speed to command rests. */
  lemma TickSendsZeroExactly(p: Params, es: seq<Event>)
    requires Running(p, es) && LastMode(p, es)
    ensures var raises := p.tank && p.separation == 0.0;
            var still := if p.tank then p.maxWheel == 0.0 || (LastRests(p, es, true) && LastRests(p, es, false))
                         else (p.maxLin == 0.0 || LastRests(p, es, true)) && (p.maxAng == 0.0 || LastRests(p, es, false));
            Output(p, INITIAL, es + [Timer]) == Output(p, INITIAL, es) + [ZERO] <==> LastEStop(es) || raises || still
  {
    RestIsZero(p, es, true);
    RestIsZero(p, es, false);
    TickSends(p, es);
    hide Mix, LastRests, LastStick, LastMode, LastEStop, Output, Running;
    if LastEStop(es) || (p.tank && p.separation == 0.0) { return; }
    MixIsZero(p, LastStick(p, es, true), LastStick(p, es, false));
    SameTail(Output(p, INITIAL, es), Mix(p, LastStick(p, es, true), LastStick(p, es, false)), ZERO);
  }

  lemma TickSends(p: Params, es: seq<Event>)
    requires Running(p, es) && LastMode(p, es)
    ensures Output(p, INITIAL, es + [Timer]) == Output(p, INITIAL, es) + [
              if LastEStop(es) || (p.tank && p.separation == 0.0) then ZERO
              else Mix(p, LastStick(p, es, true), LastStick(p, es, false))]
  {
    Remembers(p, es);
    Appended(es, Timer);
    hide Mix, LastStick, LastMode, LastEStop;
  }

  lemma SameTail(o: seq<Twist>, t: Twist, u: Twist)
    ensures o + [t] == o + [u] <==> t == u
  {
    assert (o + [t])[|o|] == t && (o + [u])[|o|] == u;
  }

  /** The message an event sequence ends with is not zero only if its last event is the timer, the
      latest mode message chose RC and the latest e-stop message released it; then it is exactly
      the mix of the latest stick values, however old. */
  lemma NonZeroMeansReleased(p: Params, es: seq<Event>)
    requires es != []
    ensures var sent := Sent(p, After(p, INITIAL, es[..|es| - 1]), es[|es| - 1]);
            && |sent| <= 1
            && (forall t :: t in sent && t != ZERO ==>
                  es[|es| - 1].Timer? && LastMode(p, es) && !LastEStop(es)
                  && (exists k :: 0 <= k < |es| && es[k] == EStop(false))
                  && (p.tank ==> p.separation != 0.0)
                  && t == Mix(p, LastStick(p, es, true), LastStick(p, es, false)))
  {
    hide Mix;
    var front := es[..|es| - 1];
    if Running(p, front) { Remembers(p, front); }
    var sent := Sent(p, After(p, INITIAL, front), es[|es| - 1]);
    forall t | t in sent && t != ZERO ensures exists k :: 0 <= k < |es| && es[k] == EStop(false) {
      Released(front);
    }
  }

  lemma {:induction false} Released(es: seq<Event>)
    requires !LastEStop(es)
    ensures exists k :: 0 <= k < |es| && es[k] == EStop(false)
  {
    if es[|es| - 1].EStop? {
      assert es[|es| - 1] == EStop(false);
    } else {
      var front := es[..|es| - 1];
      Released(front);
      var k :| 0 <= k < |front| && front[k] == EStop(false);
      assert es[k] == EStop(false);
    }
  }

  /** Before the first release message nothing but zero has been sent. */
  lemma {:induction false} NothingBeforeRelease(p: Params, es: seq<Event>)
    requires EStop(false) !in es
    ensures forall t :: t in Output(p, INITIAL, es) ==> t == ZERO
  {
    if es != [] {
      NothingBeforeRelease(p, es[..|es| - 1]);
      NonZeroMeansReleased(p, es);
    }
  }

  /** n ticks of the timer with no other event between them. */
  function Timers(n: nat): seq<Event> { if n == 0 then [] else Timers(n - 1) + [Timer] }

  function Copies(t: Twist, n: nat): seq<Twist> { if n == 0 then [] else Copies(t, n - 1) + [t] }

  /** There is no input timeout: in RC mode with the e-stop released, when all messages stop, every
      further tick repeats the mix of the last stick values, which is zero only if they are. */
  lemma {:induction false} RepeatsLastMix(p: Params, es: seq<Event>, n: nat)
    requires Running(p, es) && LastMode(p, es) && !LastEStop(es) && (p.tank ==> p.separation != 0.0)
    ensures var mix := Mix(p, LastStick(p, es, true), LastStick(p, es, false));
            Output(p, INITIAL, es + Timers(n)) == Output(p, INITIAL, es) + Copies(mix, n)
    ensures After(p, INITIAL, es + Timers(n)) == After(p, INITIAL, es)
  {
    hide Mix, Sent, Next;
    Remembers(p, es);
    if n == 0 {
      assert es + Timers(0) == es;
      hide *;
    } else {
      RepeatsLastMix(p, es, n - 1);
      OneTick(p, es + Timers(n - 1));
      assert es + Timers(n - 1) + [Timer] == es + Timers(n);
      var mix := Mix(p, LastStick(p, es, true), LastStick(p, es, false));
      assert Output(p, INITIAL, es) + Copies(mix, n - 1) + [mix] == Output(p, INITIAL, es) + (Copies(mix, n - 1) + [mix]);
    }
  }

  lemma OneTick(p: Params, es: seq<Event>)
    requires var s := After(p, INITIAL, es);
             !s.down && s.rcMode && !s.estop && (p.tank ==> p.separation != 0.0)
    ensures var s := After(p, INITIAL, es);
            && After(p, INITIAL, es + [Timer]) == s
            && Output(p, INITIAL, es + [Timer]) == Output(p, INITIAL, es) + [Mix(p, s.chA, s.chB)]
  {
    hide Mix;
    Appended(es, Timer);
  }

  /** A program that has ended, by the interrupt or by an exception, sent a zero last, and sends no more. */
  lemma {:induction false} EndsAtZero(p: Params, es: seq<Event>)
    requires !Running(p, es)
    ensures Output(p, INITIAL, es) != [] && Output(p, INITIAL, es)[|Output(p, INITIAL, es)| - 1] == ZERO
    ensures forall more: seq<Event> :: Output(p, INITIAL, es + more) == Output(p, INITIAL, es)
  {
    hide Mix;
    var front := es[..|es| - 1];
    if !Running(p, front) { EndsAtZero(p, front); }
    forall more: seq<Event> ensures Output(p, INITIAL, es + more) == Output(p, INITIAL, es) {
      DownIsFinal(p, es, more);
    }
  }

  /** With a zero wheel separation in tank mode, the first tick that would drive ends the program. */
  lemma ZeroSeparationEnds(p: Params, es: seq<Event>)
    requires Running(p, es) && p.tank && p.separation == 0.0
    ensures Running(p, es + [Timer]) <==> !LastMode(p, es) || LastEStop(es)
  {
    Remembers(p, es);
    Appended(es, Timer);
  }

  function SwitchCount(p: Params, es: seq<Event>): nat {
    if es == [] then 0
    else SwitchCount(p, es[..|es| - 1]) + if Switches(p, After(p, INITIAL, es[..|es| - 1]), es[|es| - 1]) then 1 else 0
  }

  function TickCount(p: Params, es: seq<Event>): nat {
    if es == [] then 0
    else TickCount(p, es[..|es| - 1]) + if Ticks(After(p, INITIAL, es[..|es| - 1]), es[|es| - 1]) then 1 else 0
  }

  function EndCount(p: Params, es: seq<Event>): nat {
    if es == [] then 0
    else EndCount(p, es[..|es| - 1]) + if Ends(After(p, INITIAL, es[..|es| - 1]), es[|es| - 1]) then 1 else 0
  }

  /** Every message is accounted for: one for each change of mode, one for each tick in RC mode,
      and one for the interrupt that ends the program. */
  lemma {:induction false} MessagesCounted(p: Params, es: seq<Event>)
    ensures |Output(p, INITIAL, es)| == SwitchCount(p, es) + TickCount(p, es) + EndCount(p, es)
    ensures EndCount(p, es) <= 1 && (EndCount(p, es) == 1 ==> !Running(p, es))
  {
    hide Mix;
    if es != [] { MessagesCounted(p, es[..|es| - 1]); }
  }

  /** While the mode stays ROS and the program runs the node sends nothing. */
  lemma {:induction false} SilentInRos(p: Params, s: State, es: seq<Event>)
    requires !s.rcMode && Stop !in es && forall k :: 0 <= k < |es| && es[k].Mode? ==> es[k].v <= p.threshold
    ensures Output(p, s, es) == [] && !After(p, s, es).rcMode
  {
    if es != [] {
      var front := es[..|es| - 1];
      SilentInRos(p, s, front);
      assert es[|es| - 1] != Stop;
    }
  }

  // ---------------------------------------------------------------- the node

  class Node {
    const params: Params
    var chA: real
    var chB: real
    var rcMode: bool
    var estopActive: bool
    var down: bool
    var published: seq<Twist>
    ghost var events: seq<Event>

    ghost function Fields(): State
      reads this
    { State(chA, chB, rcMode, estopActive, down) }

    /** The node is where its events lead, and has sent exactly what they call for. */
    ghost predicate Valid()
      reads this
    { Fields() == After(params, INITIAL, events) && published == Output(params, INITIAL, events) }

    constructor (params: Params)
      ensures Valid() && events == [] && !down && this.params == params
    {
      this.params := params;
      chA, chB, rcMode, estopActive, down := 0.0, 0.0, false, true, false;
      published, events := [], [];
    }

    method Normalize(raw: real) returns (r: real)
      ensures r == Stick(params, raw)
    {
      var norm := if params.isPwm then (raw - 1500.0) / 500.0 else raw;
      if norm > 1.0 { norm := 1.0; }
      if norm < -1.0 { norm := -1.0; }
      if Abs(norm) < params.deadzone { return 0.0; }
      r := norm;
    }

    method StickACallback(v: real)
      requires Valid() && !down
      modifies this
      ensures Valid() && !down && events == old(events) + [StickA(v)]
    {
      Appended(events, StickA(v));
      chA := Normalize(v);
      events := events + [StickA(v)];
    }

    method StickBCallback(v: real)
      requires Valid() && !down
      modifies this
      ensures Valid() && !down && events == old(events) + [StickB(v)]
    {
      Appended(events, StickB(v));
      chB := Normalize(v);
      events := events + [StickB(v)];
    }

    method EStopCallback(active: bool)
      requires Valid() && !down
      modifies this
      ensures Valid() && !down && events == old(events) + [EStop(active)]
    {
      Appended(events, EStop(active));
      estopActive := active;
      events := events + [EStop(active)];
    }

    method ModeSwitchCallback(v: real)
      requires Valid() && !down
      modifies this
      ensures Valid() && !down && events == old(events) + [Mode(v)]
    {
      hide Mix;
      Appended(events, Mode(v));
      var newMode := v > params.threshold;
      if newMode != rcMode {
        rcMode := newMode;
        PublishZero();
      }
      events := events + [Mode(v)];
    }

    method PublishZero()
      modifies this`published
      ensures published == old(published) + [ZERO]
    {
      published := published + [ZERO];
    }

    /** The timer callback; it raises on a zero wheel separation, before anything is published. */
    method PublishTwist() returns (raised: bool)
      requires Valid() && !down
      modifies this
      ensures raised == old(Raises(params, Fields()))
      ensures raised ==> unchanged(this)
      ensures !raised ==> Valid() && !down && events == old(events) + [Timer]
    {
      hide Mix;
      Appended(events, Timer);
      if !rcMode {
        events := events + [Timer];
        return false;
      }
      var msg := ZERO;
      if !estopActive {
        if params.tank && params.separation == 0.0 { return true; }
        msg := Drive();
      }
      published := published + [msg];
      events := events + [Timer];
      raised := false;
    }

    method Drive() returns (msg: Twist)
      requires params.tank ==> params.separation != 0.0
      ensures msg == Mix(params, chA, chB)
    {
      if params.tank {
        var vLeft := chA * params.maxWheel;
        var vRight := chB * params.maxWheel;
        msg := Twist((vLeft + vRight) / 2.0, (vRight - vLeft) / params.separation);
      } else {
        msg := Twist(chA * params.maxLin, chB * params.maxAng);
      }
    }

    /** main: spin until the interrupt or an exception, then publish a zero and end.  What is
        sent over the whole life of the node is exactly what the events call for. */
    method Run(incoming: seq<Event>)
      requires Valid() && !down && events == [] && Stop !in incoming
      modifies this
      ensures Valid() && down && published == Output(params, INITIAL, incoming + [Stop])
    {
      hide Mix, Output, After;
      var raised := false;
      var i := 0;
      while i < |incoming| && !raised
        invariant i <= |incoming| && Valid() && !down
        invariant events == incoming[..i] && (raised ==> i < |incoming| && incoming[i] == Timer && Raises(params, Fields()))
        decreases |incoming| - i, if raised then 0 else 1
      {
        assert incoming[..i + 1] == incoming[..i] + [incoming[i]] && incoming[i] in incoming;
        match incoming[i] {
          case StickA(v) => StickACallback(v);
          case StickB(v) => StickBCallback(v);
          case EStop(active) => EStopCallback(active);
          case Mode(v) => ModeSwitchCallback(v);
          case Timer => raised := PublishTwist();
          case Stop =>
        }
        if !raised { i := i + 1; }
      }
      ghost var last := if raised then Timer else Stop;
      Ending(params, events, last);
      PublishZero();
      down := true;
      events := events + [last];
      if raised {
        DownIsFinal(params, events, incoming[i + 1..] + [Stop]);
        assert incoming + [Stop] == events + (incoming[i + 1..] + [Stop]);
        events := incoming + [Stop];
      } else {
        assert incoming[..i] == incoming;
      }
    }
  }

  /** The event that ends the program sends a zero. */
  lemma Ending(p: Params, es: seq<Event>, e: Event)
    requires Running(p, es) && (e == Stop || (e == Timer && Raises(p, After(p, INITIAL, es))))
    ensures After(p, INITIAL, es + [e]) == After(p, INITIAL, es).(down := true)
    ensures Output(p, INITIAL, es + [e]) == Output(p, INITIAL, es) + [ZERO]
  {
    Appended(es, e);
  }

  /** After the end events change nothing and send nothing. */
  lemma {:induction false} DownIsFinal(p: Params, es: seq<Event>, more: seq<Event>)
    requires !Running(p, es)
    ensures After(p, INITIAL, es + more) == After(p, INITIAL, es)
    ensures Output(p, INITIAL, es + more) == Output(p, INITIAL, es)
    decreases |more|
  {
    var all := es + more;
    if more == [] {
      assert all == es;
    } else {
      DownIsFinal(p, es, more[..|more| - 1]);
      assert all[..|all| - 1] == es + more[..|more| - 1];
    }
  }

  lemma Appended(es: seq<Event>, e: Event)
    ensures (es + [e])[..|es + [e]| - 1] == es && (es + [e])[|es + [e]| - 1] == e
  {
  }
}
