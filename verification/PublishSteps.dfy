// The publishing side of the channels as a step system: GPIO interrupts may
// fire between any two steps of the main loop. A run is a list of actions.
module PublishSteps {
  import opened Options

  const CHANNEL_MAX := 16
  const DEBOUNCE_MS := 50

  datatype MsgType = MsgBool | MsgInt32 | MsgFloat32

  /** The three views of a channel value. */
  datatype Value = Value(b: bool, i32: int, f32: real)

  datatype Payload = Bool(b: bool) | Int32(i: int) | Float32(f: real)

  datatype Channel = Channel(
    name: string, topicPub: Option<string>, topicSub: Option<string>, msgType: MsgType,
    period: nat, irqCapable: bool, hasRead: bool, hasWrite: bool)

  datatype ChannelState = ChannelState(period: nat, enabled: bool, invert: bool, pending: bool)

  /** A published message; the stamp is the clock its pass sampled. */
  datatype Message = Message(ch: nat, irq: bool, stamp: int, payload: Payload)

  /** Where the main loop is: between passes, about to look at a channel, or
      past the claim of a channel and about to read it. */
  datatype Phase = Idle | Scan(irq: bool, now: int, at: nat) | Claimed(irq: bool, now: int, at: nat)

  datatype State = State(
    channels: seq<Channel>, states: seq<ChannelState>, active: seq<bool>, last: seq<int>,
    wiring: seq<int>, lastIrq: seq<int>, sent: seq<Message>, phase: Phase, clock: int)

  datatype Action =
    | Edge(pin: nat, t: int)
    | Main(v: Value)
    | StartIrq(t: int)
    | StartTimer(t: int)
    | Register(ch: Channel)
    | Connect(i: nat, t: int)
    | Disconnect(i: nat)
    | SetPeriod(i: nat, ms: nat)
    | SetEnabled(i: nat, en: bool)
    | SetInvert(i: nat, inv: bool)

  // ---------------------------------------------------------------- values

  function Outgoing(ch: Channel, invert: bool, v: Value): Payload {
    match ch.msgType
    case MsgBool => Bool(if invert then !v.b else v.b)
    case MsgInt32 => Int32(v.i32)
    case MsgFloat32 => Float32(v.f32)
  }

  predicate Typed(ch: Channel, p: Payload) {
    match ch.msgType case MsgBool => p.Bool? case MsgInt32 => p.Int32? case MsgFloat32 => p.Float32?
  }

  /** What the subscription callback hands to the channel's write. */
  function Incoming(ch: Channel, invert: bool, p: Payload): Value
    requires Typed(ch, p)
  {
    match p
    case Bool(b) => Value(if invert then !b else b, 0, 0.0)
    case Int32(i) => Value(false, i, 0.0)
    case Float32(f) => Value(false, 0, f)
  }

  /** A message carries a value: a boolean is the value itself exactly on a channel that is not
      inverted, and a number is the value whatever the inversion. */
  predicate Carries(ch: Channel, invert: bool, p: Payload, v: Value) {
    match p
    case Bool(b) => ch.msgType == MsgBool && (b == v.b <==> !invert)
    case Int32(i) => ch.msgType == MsgInt32 && i == v.i32
    case Float32(f) => ch.msgType == MsgFloat32 && f == v.f32
  }

  /** What a channel publishes carries what it read, and is the only payload that does; what it
      receives carries what it hands to its write. */
  lemma WireMeans(ch: Channel, invert: bool, v: Value, p: Payload)
    ensures Carries(ch, invert, p, v) <==> p == Outgoing(ch, invert, v)
    ensures Typed(ch, p) ==> Carries(ch, invert, p, Incoming(ch, invert, p))
  {
  }

  /** A command read back from its actuator is published as it was received exactly if the channel
      carries no boolean or its inversion has not been switched in between. */
  lemma EchoExactly(ch: Channel, written: bool, read: bool, p: Payload)
    requires Typed(ch, p)
    ensures Outgoing(ch, read, Incoming(ch, written, p)) == p <==> ch.msgType != MsgBool || written == read
  {
  }

  // ---------------------------------------------------------------- steps

  predicate Shaped(s: State) {
    && |s.channels| <= CHANNEL_MAX == |s.states| == |s.active| == |s.last|
    && |s.wiring| == |s.lastIrq|
  }

  predicate Publishes(ch: Channel) { ch.topicPub.Some? && ch.hasRead }

  predicate Accepts(s: State, pin: nat, t: int)
    requires Shaped(s) && pin < |s.lastIrq|
  { t - s.lastIrq[pin] >= DEBOUNCE_MS }

  predicate Enabled(s: State, a: Action)
    requires Shaped(s)
  {
    match a
    case Edge(pin, t) => pin < |s.wiring| && s.clock <= t
    case Main(v) => s.phase != Idle
    case StartIrq(t) => s.phase == Idle && s.clock <= t
    case StartTimer(t) => s.phase == Idle && s.clock <= t
    case Register(ch) => s.phase == Idle && |s.channels| < CHANNEL_MAX
    case Connect(i, t) => s.phase == Idle && i < |s.channels| && Publishes(s.channels[i]) && s.clock <= t
    case Disconnect(i) => s.phase == Idle && i < |s.channels|
    case SetPeriod(i, ms) => i < |s.channels|
    case SetEnabled(i, en) => i < |s.channels|
    case SetInvert(i, inv) => i < |s.channels|
  }

  function Signalled(s: State, idx: int): (r: State)
    requires Shaped(s)
    ensures Shaped(r)
  {
    if 0 <= idx < |s.channels|
    then s.(states := s.states[idx := s.states[idx].(pending := true)]) else s
  }

  function OnEdge(s: State, pin: nat, t: int): (r: State)
    requires Shaped(s) && pin < |s.wiring|
    ensures Shaped(r)
  {
    if Accepts(s, pin, t)
    then Signalled(s.(lastIrq := s.lastIrq[pin := t], clock := t), s.wiring[pin])
    else s.(clock := t)
  }

  predicate Claims(s: State, irq: bool, now: int, k: nat)
    requires Shaped(s) && k < |s.channels|
  {
    && s.active[k]
    && if irq then s.channels[k].irqCapable && s.states[k].pending
       else s.states[k].enabled && now - s.last[k] >= s.states[k].period
  }

  function Claim(s: State, irq: bool, now: int, k: nat): (r: State)
    requires Shaped(s) && k < |s.channels|
    ensures Shaped(r)
  {
    s.(last := s.last[k := now], phase := Claimed(irq, now, k),
       states := if irq then s.states[k := s.states[k].(pending := false)] else s.states)
  }

  function Emit(s: State, irq: bool, now: int, k: nat, v: Value): (r: State)
    requires Shaped(s)
    ensures Shaped(r)
  {
    s.(phase := Scan(irq, now, k + 1),
       sent := if k < |s.channels| && s.channels[k].hasRead
               then s.sent + [Message(k, irq, now, Outgoing(s.channels[k], s.states[k].invert, v))] else s.sent)
  }

  function Advance(s: State, v: Value): (r: State)
    requires Shaped(s)
    ensures Shaped(r)
  {
    match s.phase
    case Idle => s
    case Scan(irq, now, k) =>
      if k >= |s.channels| then s.(phase := Idle)
      else if Claims(s, irq, now, k) then Claim(s, irq, now, k)
      else s.(phase := Scan(irq, now, k + 1))
    case Claimed(irq, now, k) => Emit(s, irq, now, k, v)
  }

  function Next(s: State, a: Action): (r: State)
    requires Shaped(s) && Enabled(s, a)
    ensures Shaped(r)
  {
    match a
    case Edge(pin, t) => OnEdge(s, pin, t)
    case Main(v) => Advance(s, v)
    case StartIrq(t) => s.(phase := Scan(true, t, 0), clock := t)
    case StartTimer(t) => s.(phase := Scan(false, t, 0), clock := t)
    case Register(ch) =>
      s.(channels := s.channels + [ch],
         states := s.states[|s.channels| := ChannelState(ch.period, true, false, false)])
    case Connect(i, t) => s.(active := s.active[i := true], last := s.last[i := t], clock := t)
    case Disconnect(i) => s.(active := s.active[i := false])
    case SetPeriod(i, ms) => s.(states := s.states[i := s.states[i].(period := ms)])
    case SetEnabled(i, en) => s.(states := s.states[i := s.states[i].(enabled := en)])
    case SetInvert(i, inv) => s.(states := s.states[i := s.states[i].(invert := inv)])
  }

  predicate Legal(s: State, run: seq<Action>)
    requires Shaped(s)
    decreases |run|
  { run == [] || (Enabled(s, run[0]) && Legal(Next(s, run[0]), run[1..])) }

  function After(s: State, run: seq<Action>): (r: State)
    requires Shaped(s) && Legal(s, run)
    ensures Shaped(r)
    decreases |run|
  { if run == [] then s else After(Next(s, run[0]), run[1..]) }

  lemma {:induction false} RunOn(s: State, run: seq<Action>, more: seq<Action>)
    requires Shaped(s) && Legal(s, run) && Legal(After(s, run), more)
    ensures Legal(s, run + more) && After(s, run + more) == After(After(s, run), more)
    decreases |run|
  {
    if run == [] {
      assert run + more == more;
    } else {
      assert (run + more)[0] == run[0] && (run + more)[1..] == run[1..] + more;
      RunOn(Next(s, run[0]), run[1..], more);
    }
  }

  lemma RunOne(s: State, run: seq<Action>, a: Action)
    requires Shaped(s) && Legal(s, run) && Enabled(After(s, run), a)
    ensures Legal(s, run + [a]) && After(s, run + [a]) == Next(After(s, run), a)
  {
    var s1 := After(s, run);
    assert [a][0] == a && [a][1..] == [];
    assert Legal(Next(s1, a), []) && After(Next(s1, a), []) == Next(s1, a);
    assert Legal(s1, [a]) && After(s1, [a]) == Next(s1, a);
    RunOn(s, run, [a]);
  }

  // ---------------------------------------------------------------- what every step keeps

  /** Stamps lie behind the clock, unregistered slots are clear, and only readable channels are claimed. */
  predicate Sane(s: State) {
    && Shaped(s)
    && (forall i :: 0 <= i < CHANNEL_MAX ==> s.last[i] <= s.clock)
    && (forall i :: |s.channels| <= i < CHANNEL_MAX ==> !s.active[i] && !s.states[i].pending)
    && (forall i :: 0 <= i < |s.channels| && s.active[i] ==> s.channels[i].hasRead)
    && (s.phase != Idle ==> s.phase.now <= s.clock && forall i :: 0 <= i < CHANNEL_MAX ==> s.last[i] <= s.phase.now)
    && (s.phase.Claimed? ==> s.phase.at < |s.channels| && s.channels[s.phase.at].hasRead && s.active[s.phase.at]
                             && s.last[s.phase.at] == s.phase.now)
  }

  lemma SaneStep(s: State, a: Action)
    requires Sane(s) && Enabled(s, a)
    ensures Sane(Next(s, a)) && s.clock <= Next(s, a).clock
  {
  }

  lemma {:induction false} SaneRun(s: State, run: seq<Action>)
    requires Sane(s) && Legal(s, run)
    ensures Sane(After(s, run)) && s.clock <= After(s, run).clock
    decreases |run|
  {
    if run != [] {
      SaneStep(s, run[0]);
      SaneRun(Next(s, run[0]), run[1..]);
    }
  }

  // ---------------------------------------------------------------- counting messages

  /** How many messages channel i has sent on the interrupt path (irq) or the periodic path. */
  function Count(sent: seq<Message>, i: nat, irq: bool): nat {
    if sent == [] then 0
    else Count(sent[..|sent| - 1], i, irq) + if sent[|sent| - 1].ch == i && sent[|sent| - 1].irq == irq then 1 else 0
  }

  lemma CountOne(sent: seq<Message>, m: Message, i: nat, irq: bool)
    ensures Count(sent + [m], i, irq) == Count(sent, i, irq) + if m.ch == i && m.irq == irq then 1 else 0
  {
    assert (sent + [m])[..|sent|] == sent;
  }

  /** Whether this step sends a message of channel i on the given path. */
  predicate Sends(s: State, a: Action, i: nat, irq: bool)
  { a.Main? && s.phase.Claimed? && s.phase.at == i && s.phase.irq == irq }

  lemma SendsCounts(s: State, a: Action, i: nat, irq: bool)
    requires Sane(s) && Enabled(s, a)
    ensures Count(Next(s, a).sent, i, irq) == Count(s.sent, i, irq) + if Sends(s, a, i, irq) then 1 else 0
  {
    hide Count;
    if a.Main? && s.phase.Claimed? {
      var k := s.phase.at;
      CountOne(s.sent, Message(k, s.phase.irq, s.phase.now, Outgoing(s.channels[k], s.states[k].invert, a.v)), i, irq);
    } else {
      assert Next(s, a).sent == s.sent;
    }
  }

  /** The step behind a claim sends one message, which carries what the channel read in that step. */
  lemma SentCarries(s: State, v: Value)
    requires Sane(s) && s.phase.Claimed?
    ensures var k, n := s.phase.at, Next(s, Main(v));
            && |n.sent| == |s.sent| + 1 && n.sent[..|s.sent|] == s.sent
            && var m := n.sent[|s.sent|];
               m.ch == k && m.irq == s.phase.irq && m.stamp == s.phase.now
               && Carries(s.channels[k], s.states[k].invert, m.payload, v)
  {
    var k := s.phase.at;
    WireMeans(s.channels[k], s.states[k].invert, v, Outgoing(s.channels[k], s.states[k].invert, v));
    hide Outgoing, Carries;
  }

  // ---------------------------------------------------------------- no signal is lost

  /** Channel i owes an interrupt publish: its bit is set, or it was claimed and not yet read. */
  predicate Owes(s: State, i: nat)
    requires Shaped(s)
  { i < |s.channels| && (s.states[i].pending || Reading(s, i)) }

  predicate Reading(s: State, i: nat) { s.phase.Claimed? && s.phase.irq && s.phase.at == i }

  lemma OwesStep(s: State, a: Action, i: nat)
    requires Sane(s) && Enabled(s, a) && Owes(s, i)
    ensures Owes(Next(s, a), i) || Sends(s, a, i, true)
  {
  }

  /** Whatever the interleaving and the connection do, an owed interrupt publish is either still
      owed or has been read and sent since. */
  lemma {:induction false} NothingForgotten(s: State, run: seq<Action>, i: nat)
    requires Sane(s) && Legal(s, run) && Owes(s, i)
    ensures Count(After(s, run).sent, i, true) >= Count(s.sent, i, true)
    ensures Owes(After(s, run), i) || Count(After(s, run).sent, i, true) > Count(s.sent, i, true)
    decreases |run|
  {
    hide Count, Next;
    if run != [] {
      var s1 := Next(s, run[0]);
      SaneStep(s, run[0]);
      SendsCounts(s, run[0], i, true);
      OwesStep(s, run[0], i);
      if Owes(s1, i) { NothingForgotten(s1, run[1..], i); } else { NeverFewer(s1, run[1..], i, true); }
    }
  }

  lemma {:induction false} NeverFewer(s: State, run: seq<Action>, i: nat, irq: bool)
    requires Sane(s) && Legal(s, run)
    ensures Count(After(s, run).sent, i, irq) >= Count(s.sent, i, irq)
    decreases |run|
  {
    hide Count, Next;
    if run != [] {
      SaneStep(s, run[0]);
      SendsCounts(s, run[0], i, irq);
      NeverFewer(Next(s, run[0]), run[1..], i, irq);
    }
  }

  /** An edge the debounce accepts: at every later moment the bit is set, or a read that began
      after the edge has been sent or is under way. */
  lemma NoSignalLost(s: State, pin: nat, t: int, run: seq<Action>)
    requires Sane(s) && Legal(s, [Edge(pin, t)] + run) && Accepts(s, pin, t) && 0 <= s.wiring[pin] < |s.channels|
    ensures var i := s.wiring[pin]; var end := After(s, [Edge(pin, t)] + run);
            Owes(end, i) || Count(end.sent, i, true) > Count(s.sent, i, true)
  {
    var i := s.wiring[pin];
    var all := [Edge(pin, t)] + run;
    assert all[0] == Edge(pin, t) && all[1..] == run;
    SaneStep(s, all[0]);
    var s1 := Next(s, all[0]);
    assert Owes(s1, i) && s1.sent == s.sent;
    NothingForgotten(s1, run, i);
  }

  // ---------------------------------------------------------------- coalescing

  predicate Raises(s: State, a: Action, i: nat)
    requires Shaped(s) && Enabled(s, a)
  { a.Edge? && Accepts(s, a.pin, a.t) && s.wiring[a.pin] == i && i < |s.channels| }

  /** Accepted edges of channel i in a run. */
  function Raised(s: State, run: seq<Action>, i: nat): nat
    requires Shaped(s) && Legal(s, run)
    decreases |run|
  {
    if run == [] then 0
    else (if Raises(s, run[0], i) then 1 else 0) + Raised(Next(s, run[0]), run[1..], i)
  }

  /** Accepted edges that found the bit already set. */
  function Merged(s: State, run: seq<Action>, i: nat): nat
    requires Shaped(s) && Legal(s, run)
    decreases |run|
  {
    if run == [] then 0
    else (if Raises(s, run[0], i) && s.states[i].pending then 1 else 0) + Merged(Next(s, run[0]), run[1..], i)
  }

  function Owed(s: State, i: nat): nat
    requires Shaped(s) && i < CHANNEL_MAX
  { (if s.states[i].pending then 1 else 0) + if Reading(s, i) then 1 else 0 }

  lemma OwedStep(s: State, a: Action, i: nat)
    requires Sane(s) && Enabled(s, a) && i < CHANNEL_MAX
    ensures (if Raises(s, a, i) && !s.states[i].pending then 1 else 0) + Owed(s, i)
         == (if Sends(s, a, i, true) then 1 else 0) + Owed(Next(s, a), i)
  {
  }

  /** Conservation: every accepted edge is sent once, merged into a pending one, or still owed. */
  lemma {:induction false} SignalsConserved(s: State, run: seq<Action>, i: nat)
    requires Sane(s) && Legal(s, run) && i < CHANNEL_MAX
    ensures Raised(s, run, i) + Owed(s, i) + Count(s.sent, i, true)
         == Count(After(s, run).sent, i, true) + Merged(s, run, i) + Owed(After(s, run), i)
    decreases |run|
  {
    hide Count, Next, Owed, Raises;
    if run != [] {
      SaneStep(s, run[0]);
      SendsCounts(s, run[0], i, true);
      OwedStep(s, run[0], i);
      SignalsConserved(Next(s, run[0]), run[1..], i);
    }
  }

  // ---------------------------------------------------------------- one pass serves what it found

  /** Only main-loop steps of the pass and interrupts. */
  predicate WithinPass(run: seq<Action>) { forall k :: 0 <= k < |run| ==> run[k].Main? || run[k].Edge? }

  /** An interrupt pass that has not looked at channel i yet. */
  predicate IrqComing(s: State, i: nat)
  { s.phase != Idle && s.phase.irq && if s.phase.Scan? then s.phase.at <= i else s.phase.at < i }

  /** An accepted edge raises channel i while the interrupt pass has not looked at it yet. */
  predicate RaisedInTime(s: State, run: seq<Action>, i: nat)
    requires Shaped(s) && Legal(s, run)
    decreases |run|
  {
    run != [] && ((IrqComing(s, i) && Raises(s, run[0], i)) || RaisedInTime(Next(s, run[0]), run[1..], i))
  }

  /** What the interrupt pass will still send on channel i, which is raised in time or not. */
  function WantedIrq(s: State, i: nat, raised: bool): nat
    requires Shaped(s) && i < |s.channels|
  {
    if Reading(s, i) then 1
    else if IrqComing(s, i) && s.active[i] && s.channels[i].irqCapable && (s.states[i].pending || raised) then 1 else 0
  }

  lemma WantedIrqStep(s: State, a: Action, i: nat, raised: bool)
    requires Sane(s) && Enabled(s, a) && (a.Main? || a.Edge?) && i < |s.channels|
    requires raised ==> IrqComing(Next(s, a), i)
    ensures var n := Next(s, a);
            i < |n.channels| && (if Sends(s, a, i, true) then 1 else 0) + WantedIrq(n, i, raised)
                                == WantedIrq(s, i, (IrqComing(s, i) && Raises(s, a, i)) || raised)
    ensures IrqComing(Next(s, a), i) ==> IrqComing(s, i)
  {
  }

  lemma {:induction false} InTimeIsComing(s: State, run: seq<Action>, i: nat)
    requires Sane(s) && Legal(s, run) && WithinPass(run) && i < |s.channels| && RaisedInTime(s, run, i)
    ensures IrqComing(s, i)
    decreases |run|
  {
    hide Next, Raises, IrqComing, WantedIrq;
    var n := Next(s, run[0]);
    SaneStep(s, run[0]);
    WantedIrqStep(s, run[0], i, false);
    if RaisedInTime(n, run[1..], i) { InTimeIsComing(n, run[1..], i); }
  }

  lemma {:induction false} WantedIrqIsSent(s: State, run: seq<Action>, i: nat)
    requires Sane(s) && Legal(s, run) && WithinPass(run) && i < |s.channels| && After(s, run).phase == Idle
    ensures Count(After(s, run).sent, i, true) == Count(s.sent, i, true) + WantedIrq(s, i, RaisedInTime(s, run, i))
    decreases |run|
  {
    hide Count, Next, WantedIrq, Raises, IrqComing;
    if run == [] {
      IdleWantsNoIrq(s, i);
    } else {
      var n := Next(s, run[0]);
      SaneStep(s, run[0]);
      SendsCounts(s, run[0], i, true);
      WantedIrqStep(s, run[0], i, false);
      if RaisedInTime(n, run[1..], i) { InTimeIsComing(n, run[1..], i); }
      WantedIrqStep(s, run[0], i, RaisedInTime(n, run[1..], i));
      WantedIrqIsSent(n, run[1..], i);
    }
  }

  lemma IdleWantsNoIrq(s: State, i: nat)
    requires Shaped(s) && i < |s.channels| && s.phase == Idle
    ensures WantedIrq(s, i, false) == 0
  {
  }

  /** Channel i has a message coming from an interrupt pass that starts at s and samples t. */
  predicate Served(s: State, t: int, run: seq<Action>, i: nat)
    requires Sane(s) && Legal(s, [StartIrq(t)] + run) && i < |s.channels|
  {
    var all := [StartIrq(t)] + run;
    assert all[0] == StartIrq(t) && all[1..] == run;
    s.active[i] && s.channels[i].irqCapable && (s.states[i].pending || RaisedInTime(Next(s, StartIrq(t)), run, i))
  }

  /** A complete interrupt pass sends exactly the connected interrupt channels whose bit was set when
      it began or was raised by an accepted edge before the pass came to the channel, each once. The
      enabled flag does not matter. */
  lemma IrqPassExact(s: State, t: int, run: seq<Action>, i: nat)
    requires Sane(s) && Legal(s, [StartIrq(t)] + run) && WithinPass(run) && i < |s.channels|
    requires After(s, [StartIrq(t)] + run).phase == Idle
    ensures Count(After(s, [StartIrq(t)] + run).sent, i, true)
         == Count(s.sent, i, true) + if Served(s, t, run, i) then 1 else 0
  {
    var all := [StartIrq(t)] + run;
    assert all[0] == StartIrq(t) && all[1..] == run;
    SaneStep(s, all[0]);
    WantedIrqIsSent(Next(s, all[0]), run, i);
  }

  lemma {:induction false} NoEdgeInTime(s: State, run: seq<Action>, i: nat)
    requires Shaped(s) && Legal(s, run) && forall a :: a in run ==> !a.Edge?
    ensures !RaisedInTime(s, run, i)
    decreases |run|
  {
    if run != [] { NoEdgeInTime(Next(s, run[0]), run[1..], i); }
  }

  /** Without interrupts meanwhile, these are the connected interrupt channels with their bit set. */
  lemma QuietIrqPassExact(s: State, t: int, run: seq<Action>, i: nat)
    requires Sane(s) && Legal(s, [StartIrq(t)] + run) && i < |s.channels|
    requires (forall a :: a in run ==> a.Main?) && After(s, [StartIrq(t)] + run).phase == Idle
    ensures Count(After(s, [StartIrq(t)] + run).sent, i, true)
         == Count(s.sent, i, true) + if Claims(s, true, t, i) then 1 else 0
  {
    var all := [StartIrq(t)] + run;
    assert all[0] == StartIrq(t) && all[1..] == run;
    IrqPassExact(s, t, run, i);
    NoEdgeInTime(Next(s, all[0]), run, i);
  }

  /** A complete interrupt pass publishes every connected interrupt channel whose bit was set when
      it began, whether the channel is enabled or not, and however long ago the bit was set. */
  lemma PassServes(s: State, t: int, run: seq<Action>, i: nat)
    requires Sane(s) && Legal(s, [StartIrq(t)] + run) && WithinPass(run)
    requires i < |s.channels| && s.active[i] && s.channels[i].irqCapable && s.states[i].pending
    requires After(s, [StartIrq(t)] + run).phase == Idle
    ensures Count(After(s, [StartIrq(t)] + run).sent, i, true) > Count(s.sent, i, true)
  {
    IrqPassExact(s, t, run, i);
  }

  /** Channel i can send nothing on the interrupt path: it is not capable, or not connected and not
      reconnected in the run. */
  ghost predicate IrqMute(s: State, run: seq<Action>, i: nat)
    requires Shaped(s) && i < |s.channels|
  { !Reading(s, i) && (!s.channels[i].irqCapable || (!s.active[i] && forall t :: Connect(i, t) !in run)) }

  /** In a run of any actions such a channel is silent on the interrupt path, whatever edges raise it. */
  lemma {:induction false} MuteIsSilent(s: State, run: seq<Action>, i: nat)
    requires Sane(s) && Legal(s, run) && i < |s.channels| && IrqMute(s, run, i)
    ensures Count(After(s, run).sent, i, true) == Count(s.sent, i, true)
    decreases |run|
  {
    hide Count, Next, IrqMute;
    if run != [] {
      SaneStep(s, run[0]);
      SendsCounts(s, run[0], i, true);
      MuteStep(s, run, i);
      MuteIsSilent(Next(s, run[0]), run[1..], i);
    }
  }

  lemma MuteStep(s: State, run: seq<Action>, i: nat)
    requires Sane(s) && run != [] && Enabled(s, run[0]) && i < |s.channels| && IrqMute(s, run, i)
    ensures i < |Next(s, run[0]).channels| && IrqMute(Next(s, run[0]), run[1..], i) && !Sends(s, run[0], i, true)
  {
  }

  /** What a pass may still send on channel i. */
  function Budget(s: State, i: nat): nat
  { if s.phase != Idle && s.phase.at <= i then 1 else 0 }

  lemma BudgetStep(s: State, a: Action, i: nat, irq: bool)
    requires Sane(s) && Enabled(s, a) && (a.Main? || a.Edge?) && (s.phase != Idle ==> s.phase.irq == irq)
    ensures (if Sends(s, a, i, irq) then 1 else 0) + Budget(Next(s, a), i) <= Budget(s, i)
    ensures !Sends(s, a, i, !irq) && (Next(s, a).phase != Idle ==> Next(s, a).phase.irq == irq)
  {
  }

  /** A pass sends each channel at most once, and only on its own path. */
  lemma {:induction false} PassSendsOnce(s: State, run: seq<Action>, i: nat, irq: bool)
    requires Sane(s) && Legal(s, run) && WithinPass(run) && (s.phase != Idle ==> s.phase.irq == irq)
    ensures Count(After(s, run).sent, i, irq) <= Count(s.sent, i, irq) + Budget(s, i)
    ensures Count(After(s, run).sent, i, !irq) == Count(s.sent, i, !irq)
    decreases |run|
  {
    hide Count, Next, Budget;
    if run != [] {
      SaneStep(s, run[0]);
      SendsCounts(s, run[0], i, irq);
      SendsCounts(s, run[0], i, !irq);
      BudgetStep(s, run[0], i, irq);
      PassSendsOnce(Next(s, run[0]), run[1..], i, irq);
    }
  }

  /** Whether the periodic pass will still send channel i. */
  function Wanted(s: State, i: nat): nat
    requires Shaped(s) && i < |s.channels|
  {
    if s.phase == Idle || s.phase.irq then 0
    else if s.phase.Claimed? && s.phase.at == i then 1
    else if Coming(s, i, s.phase.now) && Claims(s, false, s.phase.now, i) then 1 else 0
  }

  lemma WantedStep(s: State, a: Action, i: nat)
    requires Sane(s) && Enabled(s, a) && (a.Main? || a.Edge?) && i < |s.channels|
    requires s.phase != Idle ==> !s.phase.irq
    ensures var n := Next(s, a);
            i < |n.channels| && (if Sends(s, a, i, false) then 1 else 0) + Wanted(n, i) == Wanted(s, i)
            && (n.phase != Idle ==> !n.phase.irq)
  {
  }

  lemma {:induction false} WantedIsSent(s: State, run: seq<Action>, i: nat)
    requires Sane(s) && Legal(s, run) && WithinPass(run) && i < |s.channels|
    requires (s.phase != Idle ==> !s.phase.irq) && After(s, run).phase == Idle
    ensures Count(After(s, run).sent, i, false) == Count(s.sent, i, false) + Wanted(s, i)
    decreases |run|
  {
    hide Count, Next, Wanted;
    if run == [] {
      IdleWantsNothing(s, i);
    } else {
      SaneStep(s, run[0]);
      SendsCounts(s, run[0], i, false);
      WantedStep(s, run[0], i);
      WantedIsSent(Next(s, run[0]), run[1..], i);
    }
  }

  lemma IdleWantsNothing(s: State, i: nat)
    requires Shaped(s) && i < |s.channels| && s.phase == Idle
    ensures Wanted(s, i) == 0
  {
  }

  /** A complete periodic pass that sampled t sends exactly the connected enabled channels whose
      period has run out at t, each once. */
  lemma PeriodicPassExact(s: State, t: int, run: seq<Action>, i: nat)
    requires Sane(s) && Legal(s, [StartTimer(t)] + run) && WithinPass(run) && i < |s.channels|
    requires After(s, [StartTimer(t)] + run).phase == Idle
    ensures Count(After(s, [StartTimer(t)] + run).sent, i, false)
         == Count(s.sent, i, false) + if Claims(s, false, t, i) then 1 else 0
  {
    var all := [StartTimer(t)] + run;
    assert all[0] == StartTimer(t) && all[1..] == run;
    SaneStep(s, all[0]);
    WantedIsSent(Next(s, all[0]), run, i);
  }

  /** A signal raised while disconnected outlives any number of reconnects: the first interrupt
      pass that finds the publisher connected sends it. */
  lemma SentAfterReconnect(s: State, pin: nat, t: int, run: seq<Action>, t2: int, pass: seq<Action>)
    requires Sane(s) && Legal(s, [Edge(pin, t)] + run) && Accepts(s, pin, t)
    requires var i := s.wiring[pin]; var b := After(s, [Edge(pin, t)] + run);
             0 <= i < |s.channels| && i < |b.channels| && b.active[i] && b.channels[i].irqCapable && b.phase == Idle
             && WithinPass(pass) && Legal(b, [StartIrq(t2)] + pass) && After(b, [StartIrq(t2)] + pass).phase == Idle
    ensures var i := s.wiring[pin]; var b := After(s, [Edge(pin, t)] + run);
            Count(After(b, [StartIrq(t2)] + pass).sent, i, true) > Count(s.sent, i, true)
  {
    var i := s.wiring[pin];
    var all := [Edge(pin, t)] + run;
    var b := After(s, all);
    NoSignalLost(s, pin, t, run);
    SaneRun(s, all);
    if b.states[i].pending {
      PassServes(b, t2, pass, i);
      NeverFewer(s, all, i, true);
    } else {
      NeverFewer(b, [StartIrq(t2)] + pass, i, true);
    }
  }

  /** A disabled channel sends nothing on the periodic path; only an interrupt publishes it. */
  lemma {:induction false} DisabledIsNotPeriodic(s: State, run: seq<Action>, i: nat)
    requires Sane(s) && Legal(s, run) && i < |s.channels| && !s.states[i].enabled
    requires !(s.phase.Claimed? && !s.phase.irq && s.phase.at == i) && forall en :: SetEnabled(i, en) !in run
    ensures Count(After(s, run).sent, i, false) == Count(s.sent, i, false)
    decreases |run|
  {
    hide Count, Next;
    if run != [] {
      var s1 := Next(s, run[0]);
      SaneStep(s, run[0]);
      SendsCounts(s, run[0], i, false);
      DisabledStep(s, run[0], i);
      DisabledIsNotPeriodic(s1, run[1..], i);
    }
  }

  lemma DisabledStep(s: State, a: Action, i: nat)
    requires Sane(s) && Enabled(s, a) && i < |s.channels| && !s.states[i].enabled
    requires !(s.phase.Claimed? && !s.phase.irq && s.phase.at == i) && forall en :: a != SetEnabled(i, en)
    ensures var n := Next(s, a); i < |n.channels| && !n.states[i].enabled
                                 && !(n.phase.Claimed? && !n.phase.irq && n.phase.at == i)
  {
  }

  /** What a disabled channel sends: over a complete interrupt pass nothing at all exactly if it is not
      connected, is not capable, or neither has its bit set nor is raised in time; else one message. */
  lemma DisabledExactly(s: State, t: int, run: seq<Action>, i: nat)
    requires Sane(s) && Legal(s, [StartIrq(t)] + run) && WithinPass(run) && i < |s.channels| && !s.states[i].enabled
    requires s.phase == Idle && After(s, [StartIrq(t)] + run).phase == Idle
    ensures var e := After(s, [StartIrq(t)] + run);
            && (Total(e, i) == Total(s, i) <==> !Served(s, t, run, i))
            && Total(e, i) <= Total(s, i) + 1
  {
    var all := [StartIrq(t)] + run;
    assert forall a :: a in all ==> a == StartIrq(t) || a in run;
    assert forall en :: SetEnabled(i, en) !in all;
    IrqPassExact(s, t, run, i);
    DisabledIsNotPeriodic(s, all, i);
  }

  // ---------------------------------------------------------------- timing

  /** The timestamp of a channel never goes back. */
  lemma {:induction false} LastGrows(s: State, run: seq<Action>, i: nat)
    requires Sane(s) && Legal(s, run) && i < CHANNEL_MAX
    ensures s.last[i] <= After(s, run).last[i]
    decreases |run|
  {
    hide Next;
    if run != [] {
      SaneStep(s, run[0]);
      LastStep(s, run[0], i);
      LastGrows(Next(s, run[0]), run[1..], i);
    }
  }

  lemma LastStep(s: State, a: Action, i: nat)
    requires Sane(s) && Enabled(s, a) && i < CHANNEL_MAX
    ensures s.last[i] <= Next(s, a).last[i]
  {
  }

  /** After a publish of channel i on either path, the next periodic claim of that channel
      is stamped at least its period later. */
  lemma PeriodicGap(s: State, run: seq<Action>, i: nat)
    requires Sane(s) && s.phase.Claimed? && s.phase.at == i
    requires Legal(s, run) && i < |After(s, run).channels|
    requires var e := After(s, run); e.phase.Scan? && !e.phase.irq && e.phase.at == i && Claims(e, false, e.phase.now, i)
    ensures var e := After(s, run); e.phase.now - s.phase.now >= e.states[i].period
  {
    LastGrows(s, run, i);
  }

  /** Nothing in the run reconnects channel i or changes its period or its flag. */
  predicate Undisturbed(run: seq<Action>, i: nat) { forall k :: 0 <= k < |run| ==> Calm(run[k], i) }

  predicate Calm(a: Action, i: nat) {
    match a
    case Connect(j, _) => j != i
    case Disconnect(j) => j != i
    case SetPeriod(j, _) => j != i
    case SetEnabled(j, _) => j != i
    case _ => true
  }

  /** The latest start of a periodic pass, tau being the one before the run. */
  function LastPass(run: seq<Action>, tau: int): int {
    if run == [] then tau else LastPass(run[1..], PassOf(run[0], tau))
  }

  function PassOf(a: Action, tau: int): int { if a.StartTimer? then a.t else tau }

  /** Periodic passes sample the clock at most d apart. */
  predicate Spaced(run: seq<Action>, tau: int, d: nat) {
    run == [] || ((run[0].StartTimer? ==> run[0].t <= tau + d) && Spaced(run[1..], PassOf(run[0], tau), d))
  }

  predicate Periodic(s: State, i: nat, p: nat)
    requires Shaped(s)
  { i < |s.channels| && s.active[i] && s.states[i].enabled && s.states[i].period == p }

  /** A periodic pass that has not reached channel i yet. */
  predicate Coming(s: State, i: nat, tau: int)
  {
    && s.phase != Idle && !s.phase.irq && s.phase.now == tau
    && if s.phase.Scan? then s.phase.at <= i else s.phase.at < i
  }

  /** How far the latest pass may lie behind the latest publish. */
  predicate OnTime(s: State, i: nat, p: nat, d: nat, tau: int)
    requires Shaped(s) && i < CHANNEL_MAX
  { tau - s.last[i] <= p || (Coming(s, i, tau) && tau - s.last[i] <= p + d) }

  lemma OnTimeStep(s: State, a: Action, i: nat, p: nat, d: nat, tau: int)
    requires Sane(s) && Enabled(s, a) && Periodic(s, i, p) && OnTime(s, i, p, d, tau) && Calm(a, i)
    requires a.StartTimer? ==> a.t <= tau + d
    requires !Coming(s, i, tau) ==> tau - s.last[i] <= p
    ensures var n := Next(s, a); var u := PassOf(a, tau);
            Periodic(n, i, p) && OnTime(n, i, p, d, u) && (!Coming(n, i, u) ==> u - n.last[i] <= p)
  {
  }

  /** With passes at most d apart, no pass starts more than p + d behind the latest publish, and
      a finished pass never leaves more than p: the channel publishes at least every p + d. */
  lemma {:induction false} NeverLate(s: State, run: seq<Action>, i: nat, p: nat, d: nat, tau: int)
    requires Sane(s) && Legal(s, run) && Periodic(s, i, p) && OnTime(s, i, p, d, tau)
    requires !Coming(s, i, tau) ==> tau - s.last[i] <= p
    requires Undisturbed(run, i) && Spaced(run, tau, d)
    ensures var e := After(s, run); var u := LastPass(run, tau);
            u - e.last[i] <= p + d && (e.phase == Idle ==> u - e.last[i] <= p)
    decreases |run|
  {
    hide Next;
    if run != [] {
      SaneStep(s, run[0]);
      OnTimeStep(s, run[0], i, p, d, tau);
      NeverLate(Next(s, run[0]), run[1..], i, p, d, PassOf(run[0], tau));
    }
  }

  /** Channel i has not published since te, and the pass that must publish it is due, or it is being read. */
  predicate Due(s: State, i: nat, p: nat, d: nat, te: int, tau: int)
    requires Shaped(s) && i < CHANNEL_MAX
  {
    && tau <= te + p + d
    && ((s.phase.Claimed? && s.phase.at == i) || (s.last[i] <= te && (tau < te + p || Coming(s, i, tau))))
  }

  predicate Publishing(s: State, a: Action, i: nat) { Sends(s, a, i, true) || Sends(s, a, i, false) }

  lemma DueStep(s: State, a: Action, i: nat, p: nat, d: nat, te: int, tau: int)
    requires Sane(s) && Enabled(s, a) && Periodic(s, i, p) && Due(s, i, p, d, te, tau) && Calm(a, i)
    requires a.StartTimer? ==> a.t <= tau + d
    ensures Periodic(Next(s, a), i, p)
    ensures Publishing(s, a, i) || Due(Next(s, a), i, p, d, te, PassOf(a, tau))
    ensures Publishing(s, a, i) ==> PassOf(a, tau) <= te + p + d
  {
  }

  function Total(s: State, i: nat): nat { Count(s.sent, i, true) + Count(s.sent, i, false) }

  /** Whatever happened at te, an edge the debounce dropped included, once a pass at te + p or
      later has finished the channel has published since, and within p + d of te. */
  lemma {:induction false} ReportedWithin(s: State, run: seq<Action>, i: nat, p: nat, d: nat, te: int, tau: int)
    returns (n: nat)
    requires Sane(s) && Legal(s, run) && Periodic(s, i, p) && Due(s, i, p, d, te, tau)
    requires Undisturbed(run, i) && Spaced(run, tau, d)
    requires After(s, run).phase == Idle && LastPass(run, tau) >= te + p
    ensures n <= |run| && LastPass(run[..n], tau) <= te + p + d
    ensures Legal(s, run[..n]) && Total(After(s, run[..n]), i) > Total(s, i)
    decreases |run|
  {
    hide Count, Due;
    if run == [] {
      DueIdle(s, i, p, d, te, tau);
    } else {
      var a := run[0];
      var s1 := Next(s, a);
      SaneStep(s, a);
      DueStep(s, a, i, p, d, te, tau);
      SendsCounts(s, a, i, true);
      SendsCounts(s, a, i, false);
      if Publishing(s, a, i) {
        n := 1;
        assert run[..1][0] == a && run[..1][1..] == [];
        assert Total(s1, i) > Total(s, i);
      } else {
        var m := ReportedWithin(s1, run[1..], i, p, d, te, PassOf(a, tau));
        n := m + 1;
        assert run[..n][0] == a && run[..n][1..] == run[1..][..m];
      }
    }
  }

  lemma DueIdle(s: State, i: nat, p: nat, d: nat, te: int, tau: int)
    requires Shaped(s) && i < CHANNEL_MAX && Due(s, i, p, d, te, tau) && s.phase == Idle
    ensures tau < te + p
  {
  }

  lemma {:induction false} RaisedPrefix(s: State, run: seq<Action>, n: nat, i: nat)
    requires Shaped(s) && Legal(s, run) && n <= |run|
    ensures Legal(s, run[..n]) && Raised(s, run[..n], i) <= Raised(s, run, i)
    decreases |run|
  {
    if n > 0 {
      assert run[..n][0] == run[0] && run[..n][1..] == run[1..][..n - 1];
      RaisedPrefix(Next(s, run[0]), run[1..], n - 1, i);
    }
  }

  /** An edge the debounce drops raises nothing, and still reaches the topic of its channel if that
      is enabled and periodic: within p + d, by a message sent after the edge, which is a periodic
      one if nothing else raises the channel meanwhile. */
  lemma DroppedEdgeReported(s: State, pin: nat, te: int, run: seq<Action>, p: nat, d: nat, tau: int)
    returns (n: nat)
    requires Sane(s) && s.clock <= te && pin < |s.wiring| && !Accepts(s, pin, te)
    requires 0 <= s.wiring[pin] < |s.channels| && Periodic(s, s.wiring[pin], p) && p > 0 && tau <= s.clock
    requires var s1 := Next(s, Edge(pin, te)); Legal(s1, run) && After(s1, run).phase == Idle
    requires Undisturbed(run, s.wiring[pin]) && Spaced(run, tau, d) && LastPass(run, tau) >= te + p
    ensures Next(s, Edge(pin, te)) == s.(clock := te)
    ensures n <= |run| && LastPass(run[..n], tau) <= te + p + d
    ensures var i, s1 := s.wiring[pin], Next(s, Edge(pin, te));
            && Legal(s1, run[..n]) && Total(After(s1, run[..n]), i) > Total(s, i)
            && (!Owes(s, i) && Raised(s1, run, i) == 0 ==>
                  Count(After(s1, run[..n]).sent, i, false) > Count(s.sent, i, false))
  {
    var i, s1 := s.wiring[pin], Next(s, Edge(pin, te));
    SaneStep(s, Edge(pin, te));
    n := ReportedWithin(s1, run, i, p, d, te, tau);
    RaisedPrefix(s1, run, n, i);
    SignalsConserved(s1, run[..n], i);
    hide After, Legal, Count, Raised, Merged;
  }

  // ---------------------------------------------------------------- debouncing

  /** An edge 50 ms or more after the last accepted one of its pin sets the bit of its registered channel
      and becomes the last accepted one; an earlier one changes nothing. No other bit changes. */
  lemma EdgeCounts(s: State, pin: nat, t: int)
    requires Sane(s) && Enabled(s, Edge(pin, t))
    ensures var n, i := Next(s, Edge(pin, t)), s.wiring[pin];
            && (t - s.lastIrq[pin] >= DEBOUNCE_MS ==>
                  n.lastIrq[pin] == t && (0 <= i < |s.channels| ==> n.states[i].pending))
            && (t - s.lastIrq[pin] < DEBOUNCE_MS ==> n == s.(clock := t))
            && (forall j :: 0 <= j < |s.lastIrq| && j != pin ==> n.lastIrq[j] == s.lastIrq[j])
            && (forall j :: 0 <= j < CHANNEL_MAX && j != i ==> n.states[j] == s.states[j])
  {
  }

  /** Two accepted edges of one pin are at least the debounce time apart. */
  lemma {:induction false} AcceptedApart(s: State, pin: nat, t: int, run: seq<Action>, t2: int)
    requires Sane(s) && pin < |s.wiring| && Accepts(s, pin, t) && s.clock <= t
    requires var s1 := Next(s, Edge(pin, t)); Legal(s1, run) && Enabled(After(s1, run), Edge(pin, t2))
                                              && Accepts(After(s1, run), pin, t2)
    ensures t2 - t >= DEBOUNCE_MS
  {
    var s1 := Next(s, Edge(pin, t));
    assert s1.lastIrq[pin] == t;
    SaneStep(s, Edge(pin, t));
    PinGrows(s1, run, pin, t);
  }

  lemma {:induction false} PinGrows(s: State, run: seq<Action>, pin: nat, t: int)
    requires Sane(s) && Legal(s, run) && pin < |s.wiring| && t <= s.lastIrq[pin] && t <= s.clock
    ensures pin < |After(s, run).lastIrq| && t <= After(s, run).lastIrq[pin]
    decreases |run|
  {
    if run != [] {
      SaneStep(s, run[0]);
      PinGrows(Next(s, run[0]), run[1..], pin, t);
    }
  }
}
