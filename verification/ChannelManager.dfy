// The channel manager and the GPIO interrupt handler as the firmware runs
// them. Every method is a stretch of a run of PublishSteps: the run is kept in
// a ghost field, and interrupts may fire before every shared access.
module ChannelManager {
  import opened Options
  import opened Errno
  import opened PublishSteps

  const NO_VALUE := Value(false, 0, 0.0)

  function Boot(wiring: seq<int>): (s: State)
    ensures Sane(s)
  {
    State([], seq(CHANNEL_MAX, _ => ChannelState(0, false, false, false)), seq(CHANNEL_MAX, _ => false),
          seq(CHANNEL_MAX, _ => 0), wiring, seq(|wiring|, _ => 0), [], Idle, 0)
  }

  /** The tail of a legal run is legal where the head ends. */
  lemma {:induction false} RunSplits(s: State, head: seq<Action>, tail: seq<Action>)
    requires Shaped(s) && Legal(s, head + tail)
    ensures Legal(s, head) && Legal(After(s, head), tail) && After(s, head + tail) == After(After(s, head), tail)
    decreases |head|
  {
    if head == [] {
      assert head + tail == tail;
    } else {
      assert (head + tail)[0] == head[0] && (head + tail)[1..] == head[1..] + tail;
      RunSplits(Next(s, head[0]), head[1..], tail);
    }
  }

  /** The edges of a moment, on the pins that are wired. */
  function EdgesOf(pins: seq<nat>, wired: nat, t: int): seq<Action> {
    if pins == [] then []
    else EdgesOf(pins[..|pins| - 1], wired, t) + if pins[|pins| - 1] < wired then [Edge(pins[|pins| - 1], t)] else []
  }

  predicate OnlyEdges(run: seq<Action>) { forall k :: 0 <= k < |run| ==> run[k].Edge? }

  class Manager {
    const states: array<ChannelState>
    const pubActive: array<bool>
    const lastPublish: array<int>
    const wiring: seq<int>                       // channel index of each GPIO pin
    const lastIrq: array<int>                    // last accepted edge of each GPIO pin
    var channels: seq<Channel>
    var time: int
    var tick: nat
    // The environment before each shared access: time that passed, edges that fired,
    // what a read returns, and whether a publisher can be created.
    const elapsed: nat -> nat
    const edges: nat -> seq<nat>
    const sample: (nat, nat) -> Value
    const agent: nat -> bool
    ghost var sent: seq<Message>                 // what was handed to rcl_publish, in order
    ghost var phase: Phase
    ghost var seen: int
    ghost var run: seq<Action>                   // everything that has happened

    ghost function Now(): State
      reads this, states, pubActive, lastPublish, lastIrq
    {
      State(channels, states[..], pubActive[..], lastPublish[..], wiring, lastIrq[..], sent, phase, seen)
    }

    ghost predicate Valid()
      reads this, states, pubActive, lastPublish, lastIrq
    {
      && Shaped(Now()) && lastPublish != lastIrq && seen <= time
      && Legal(Boot(wiring), run) && After(Boot(wiring), run) == Now()
    }

    /** Every state the firmware can be in is one the step system reaches. */
    lemma Reachable()
      requires Valid()
      ensures Sane(Now())
    {
      SaneRun(Boot(wiring), run);
    }

    constructor (wiring: seq<int>, elapsed: nat -> nat, edges: nat -> seq<nat>, sample: (nat, nat) -> Value,
                 agent: nat -> bool)
      ensures Valid() && run == [] && phase == Idle && channels == []
      ensures fresh(states) && fresh(pubActive) && fresh(lastPublish) && fresh(lastIrq)
    {
      this.wiring, this.elapsed, this.edges, this.sample, this.agent := wiring, elapsed, edges, sample, agent;
      states := new ChannelState[CHANNEL_MAX](_ => ChannelState(0, false, false, false));
      pubActive := new bool[CHANNEL_MAX](_ => false);
      lastPublish := new int[CHANNEL_MAX](_ => 0);
      lastIrq := new int[|wiring|](_ => 0);
      channels, sent, time, tick := [], [], 0, 0;
      phase, seen, run := Idle, 0, [];
      new;
      assert states[..] == Boot(wiring).states;
      assert pubActive[..] == Boot(wiring).active;
      assert lastPublish[..] == Boot(wiring).last;
      assert lastIrq[..] == Boot(wiring).lastIrq;
      assert Legal(Boot(wiring), run) && After(Boot(wiring), run) == Boot(wiring);
    }

    // -------------------------------------------------------------- interrupts

    method SignalIrq(idx: int)
      requires states.Length == CHANNEL_MAX && |channels| <= CHANNEL_MAX
      modifies states
      ensures states[..] == if 0 <= idx < |channels|
                            then old(states[..])[idx := old(states[..])[idx].(pending := true)] else old(states[..])
    {
      if 0 <= idx && idx < |channels| {
        states[idx] := states[idx].(pending := true);
      }
    }

    method GpioIsr(pin: nat)
      requires Valid() && pin < |wiring|
      modifies this`seen, this`run, states, lastIrq
      ensures Valid() && seen == time
      ensures run == old(run) + [Edge(pin, time)] && Now() == Next(old(Now()), Edge(pin, time))
      ensures time - old(lastIrq[pin]) >= DEBOUNCE_MS ==>
                lastIrq[pin] == time && (0 <= wiring[pin] < |channels| ==> states[wiring[pin]].pending)
      ensures time - old(lastIrq[pin]) < DEBOUNCE_MS ==> unchanged(states) && unchanged(lastIrq)
    {
      hide Legal, After, Boot;
      ghost var s := Now();
      RunOne(Boot(wiring), run, Edge(pin, time));
      var now := time;
      seen, run := now, run + [Edge(pin, time)];
      if now - lastIrq[pin] < DEBOUNCE_MS { return; }
      lastIrq[pin] := now;
      SignalIrq(wiring[pin]);
    }

    /** What may happen before the main loop touches shared state. */
    method Interrupts() returns (ghost ext: seq<Action>)
      requires Valid()
      modifies this`time, this`tick, this`seen, this`run, states, lastIrq
      ensures Valid() && run == old(run) + ext && OnlyEdges(ext)
      ensures time == old(time) + elapsed(old(tick)) && tick == old(tick) + 1
      ensures ext == EdgesOf(edges(old(tick)), |wiring|, time)
      ensures Settings(old(states[..]), states[..])
    {
      hide Legal, After, Boot, Next;
      ext := [];
      time := time + elapsed(tick);
      var pins := edges(tick);
      tick := tick + 1;
      for k := 0 to |pins|
        invariant Valid() && run == old(run) + ext && OnlyEdges(ext)
        invariant time == old(time) + elapsed(old(tick)) && tick == old(tick) + 1
        invariant ext == EdgesOf(pins[..k], |wiring|, time)
        invariant Settings(old(states[..]), states[..])
      {
        assert pins[..k + 1][..k] == pins[..k];
        if pins[k] < |wiring| {
          ghost var s := Now();
          GpioIsr(pins[k]);
          EdgeKeeps(s, pins[k], time);
          ext := ext + [Edge(pins[k], time)];
        }
      }
      assert pins[..|pins|] == pins;
    }

    // -------------------------------------------------------------- passes

    /** A look at a channel that leads to nothing. */
    ghost method Pass()
      requires Valid() && phase.Scan? && phase.at < |channels| && !Claims(Now(), phase.irq, phase.now, phase.at)
      modifies this`phase, this`run
      ensures Valid() && phase == Scan(old(phase).irq, old(phase).now, old(phase).at + 1)
      ensures run == old(run) + [Main(NO_VALUE)]
    {
      hide Legal, After, Boot;
      RunOne(Boot(wiring), run, Main(NO_VALUE));
      phase, run := Scan(phase.irq, phase.now, phase.at + 1), run + [Main(NO_VALUE)];
    }

    ghost method Begin(irq: bool)
      requires Valid() && phase == Idle
      modifies this`phase, this`seen, this`run
      ensures Valid() && phase == Scan(irq, time, 0)
      ensures run == old(run) + [if irq then StartIrq(time) else StartTimer(time)]
    {
      hide Legal, After, Boot;
      ghost var a := if irq then StartIrq(time) else StartTimer(time);
      RunOne(Boot(wiring), run, a);
      phase, seen, run := Scan(irq, time, 0), time, run + [a];
    }

    ghost method Finish()
      requires Valid() && phase.Scan? && phase.at >= |channels|
      modifies this`phase, this`run
      ensures Valid() && phase == Idle && run == old(run) + [Main(NO_VALUE)]
    {
      hide Legal, After, Boot;
      RunOne(Boot(wiring), run, Main(NO_VALUE));
      phase, run := Idle, run + [Main(NO_VALUE)];
    }

    /** Tests and clears the bit of the channel; a hit takes the pass's timestamp. */
    method TestAndClear(i: nat, now: int) returns (hit: bool)
      requires Valid() && phase == Scan(true, now, i) && i < |channels| && pubActive[i] && channels[i].irqCapable
      modifies this`phase, this`run, states, lastPublish
      ensures Valid() && hit == Claims(old(Now()), true, now, i)
      ensures !hit ==> unchanged(this) && unchanged(states) && unchanged(lastPublish)
      ensures hit ==> phase == Claimed(true, now, i) && run == old(run) + [Main(NO_VALUE)]
      ensures SameSetup(old(states[..]), states[..])
    {
      hide Legal, After, Boot;
      ghost var s := Now();
      hit := states[i].pending;
      if hit {
        RunOne(Boot(wiring), run, Main(NO_VALUE));
        states[i] := states[i].(pending := false);
        lastPublish[i] := now;
        phase, run := Claimed(true, now, i), run + [Main(NO_VALUE)];
      }
    }

    /** Takes the timestamp of a channel whose period has run out. */
    method TakeTurn(i: nat, now: int)
      requires Valid() && phase == Scan(false, now, i) && i < |channels| && Claims(Now(), false, now, i)
      modifies this`phase, this`run, lastPublish
      ensures Valid() && phase == Claimed(false, now, i) && run == old(run) + [Main(NO_VALUE)]
    {
      hide Legal, After, Boot;
      ghost var s := Now();
      RunOne(Boot(wiring), run, Main(NO_VALUE));
      lastPublish[i] := now;
      phase, run := Claimed(false, now, i), run + [Main(NO_VALUE)];
    }

    /** Reads the channel and hands its value to the publisher. */
    method PerformPublish(i: nat, ghost irq: bool, ghost now: int)
      returns (ghost ext: seq<Action>, ghost out: seq<Message>)
      requires Valid() && phase == Claimed(irq, now, i) && i < |channels|
      modifies this`time, this`tick, this`seen, this`run, this`phase, this`sent, states, lastIrq
      ensures Valid() && phase == Scan(irq, now, i + 1) && run == old(run) + ext && WithinPass(ext)
      ensures old(time) <= time && tick == old(tick) + 1 && Settings(old(states[..]), states[..])
      ensures sent == old(sent) + out
      ensures out == if !channels[i].hasRead then []
                     else [Message(i, irq, now, Outgoing(channels[i], states[i].invert, sample(i, tick)))]
      ensures channels[i].hasRead ==>
                |out| == 1 && Carries(channels[i], states[i].invert, out[0].payload, sample(i, tick))
      ensures AllRead(out, channels, states[..], sample, irq, now, old(tick), tick)
    {
      hide Legal, After, Boot, Carries;
      ext := Interrupts();
      var ch := channels[i];
      var v := if ch.hasRead then sample(i, tick) else NO_VALUE;
      RunOne(Boot(wiring), run, Main(v));
      out := [];
      if ch.hasRead {
        var payload := Outgoing(ch, states[i].invert, v);
        WireMeans(ch, states[i].invert, v, payload);
        out := [Message(i, irq, now, payload)];
        sent := sent + out;
      }
      phase, run := Scan(irq, now, i + 1), run + [Main(v)];
      ext := ext + [Main(v)];
    }

    /** What the subscription callback of a channel hands to its write; None when it writes nothing. */
    method SubCallback(idx: int, msg: Payload) returns (w: Option<Value>)
      requires Valid() && (0 <= idx < |channels| ==> Typed(channels[idx], msg))
      ensures w.Some? <==> 0 <= idx < |channels| && channels[idx].hasWrite
      ensures w.Some? ==> Carries(channels[idx], states[idx].invert, msg, w.value)
      ensures w.Some? ==> w.value == Incoming(channels[idx], states[idx].invert, msg)
    {
      if idx < 0 || idx >= |channels| { return None; }
      var ch := channels[idx];
      if !ch.hasWrite { return None; }
      var v := NO_VALUE;
      match msg {
        case Bool(b) => v := v.(b := if states[idx].invert then !b else b);
        case Int32(i) => v := v.(i32 := i);
        case Float32(f) => v := v.(f32 := f);
      }
      w := Some(v);
    }

    /** One channel of the interrupt pass: interrupts, then the claim if there is one. */
    method ClaimIrq(i: nat, now: int) returns (hit: bool, ghost ext: seq<Action>)
      requires Valid() && phase == Scan(true, now, i) && i < |channels|
      modifies this`time, this`tick, this`seen, this`run, this`phase, states, lastPublish, lastIrq
      ensures Valid() && phase == (if hit then Claimed(true, now, i) else Scan(true, now, i + 1))
      ensures run == old(run) + ext && WithinPass(ext)
      ensures old(time) <= time && old(tick) <= tick && SameSetup(old(states[..]), states[..])
    {
      hide Legal, After, Boot, Next;
      hit := false;
      ext := Interrupts();
      if !pubActive[i] || !channels[i].irqCapable {
        Pass();
      } else {
        hit := TestAndClear(i, now);
        if !hit { Pass(); }
      }
      ext := ext + [Main(NO_VALUE)];
    }

    /** One channel of the interrupt pass. */
    method ServeIrq(i: nat, now: int) returns (ghost ext: seq<Action>, ghost out: seq<Message>)
      requires Valid() && phase == Scan(true, now, i) && i < |channels|
      modifies this`time, this`tick, this`seen, this`run, this`phase, this`sent, states, lastPublish, lastIrq
      ensures Valid() && phase == Scan(true, now, i + 1) && run == old(run) + ext && WithinPass(ext)
      ensures old(time) <= time && old(tick) <= tick && SameSetup(old(states[..]), states[..])
      ensures sent == old(sent) + out && AllRead(out, channels, states[..], sample, true, now, old(tick), tick)
    {
      hide Legal, After, Boot, Next, AllRead, WasRead, Outgoing, Carries, Claims, EdgesOf, OnlyEdges;
      out := [];
      var hit;
      hit, ext := ClaimIrq(i, now);
      if hit {
        ghost var mid, e := tick, [];
        e, out := PerformPublish(i, true, now);
        ReadInPass(out, channels, states[..], sample, true, now, old(tick), mid, tick);
        ext := ext + e;
      } else {
        NoneRead(channels, states[..], sample, true, now, old(tick), tick);
      }
    }

    /** One channel of the periodic pass: interrupts, then the claim if there is one. */
    method ClaimTimer(i: nat, now: int) returns (hit: bool, ghost ext: seq<Action>)
      requires Valid() && phase == Scan(false, now, i) && i < |channels|
      modifies this`time, this`tick, this`seen, this`run, this`phase, states, lastPublish, lastIrq
      ensures Valid() && phase == (if hit then Claimed(false, now, i) else Scan(false, now, i + 1))
      ensures run == old(run) + ext && WithinPass(ext)
      ensures old(time) <= time && old(tick) <= tick && SameSetup(old(states[..]), states[..])
    {
      hide Legal, After, Boot, Next;
      hit := false;
      ext := Interrupts();
      if !pubActive[i] || !states[i].enabled {
        Pass();
      } else if now - lastPublish[i] < states[i].period {
        Pass();
      } else {
        hit := true;
        TakeTurn(i, now);
      }
      ext := ext + [Main(NO_VALUE)];
    }

    /** One channel of the periodic pass. */
    method ServeTimer(i: nat, now: int) returns (ghost ext: seq<Action>, ghost out: seq<Message>)
      requires Valid() && phase == Scan(false, now, i) && i < |channels|
      modifies this`time, this`tick, this`seen, this`run, this`phase, this`sent, states, lastPublish, lastIrq
      ensures Valid() && phase == Scan(false, now, i + 1) && run == old(run) + ext && WithinPass(ext)
      ensures old(time) <= time && old(tick) <= tick && SameSetup(old(states[..]), states[..])
      ensures sent == old(sent) + out && AllRead(out, channels, states[..], sample, false, now, old(tick), tick)
    {
      hide Legal, After, Boot, Next, AllRead, WasRead, Outgoing, Carries, Claims, EdgesOf, OnlyEdges;
      out := [];
      var hit;
      hit, ext := ClaimTimer(i, now);
      if hit {
        ghost var mid, e := tick, [];
        e, out := PerformPublish(i, false, now);
        ReadInPass(out, channels, states[..], sample, false, now, old(tick), mid, tick);
        ext := ext + e;
      } else {
        NoneRead(channels, states[..], sample, false, now, old(tick), tick);
      }
    }

    /** The interrupt pass. */
    method HandleIrqPending() returns (ghost now: int, ghost out: seq<Message>)
      requires Valid() && phase == Idle
      modifies this`time, this`tick, this`seen, this`run, this`phase, this`sent, states, lastPublish, lastIrq
      ensures Valid() && phase == Idle && old(time) <= now <= time
      ensures forall i: nat :: i < |channels| && pubActive[i] && channels[i].irqCapable && old(states[i].pending)
                ==> Count(sent, i, true) == Count(old(sent), i, true) + 1
      ensures forall i: nat :: i < |channels| && !(pubActive[i] && channels[i].irqCapable)
                ==> Count(sent, i, true) == Count(old(sent), i, true)
      ensures IsPass(old(run), run, StartIrq(now)) && SameSetup(old(states[..]), states[..])
      ensures sent == old(sent) + out && AllRead(out, channels, states[..], sample, true, now, old(tick), tick)
      ensures forall i: nat :: Count(sent, i, true) <= Count(old(sent), i, true) + 1
      ensures forall i: nat :: Count(sent, i, false) == Count(old(sent), i, false)
    {
      hide Legal, After, Boot, Next, Count, Claims, AllRead, WasRead, IsPass;
      ghost var first := Interrupts();
      assert run == old(run) + first;
      var clock := time;
      Begin(true);
      now := clock;
      ghost var head := run;
      assert head == old(run) + first + [StartIrq(now)];
      ghost var ext := [];
      out := [];
      NoneRead(channels, states[..], sample, true, now, old(tick), tick);
      assert SameSetup(old(states[..]), states[..]);
      hide SameSetup;
      var i := 0;
      while i < |channels|
        invariant i <= |channels| && Valid() && phase == Scan(true, now, i)
        invariant run == head + ext && WithinPass(ext) && now <= time
        invariant old(tick) <= tick && SameSetup(old(states[..]), states[..]) && sent == old(sent) + out
        invariant AllRead(out, channels, states[..], sample, true, now, old(tick), tick)
      {
        ghost var st, mid := states[..], tick;
        ghost var e, o := ServeIrq(i, clock);
        StillRead(out, o, channels, st, states[..], sample, true, now, old(tick), mid, tick);
        StillSame(old(states[..]), st, states[..]);
        ext, out := ext + e, out + o;
        i := i + 1;
      }
      Finish();
      ext := ext + [Main(NO_VALUE)];
      assert run == old(run) + first + [StartIrq(now)] + ext;
      IrqPassResult(Boot(wiring), old(run), first, now, ext);
      MakesPass(old(run), first, StartIrq(now), ext);
    }

    /** The periodic pass. */
    method Publish() returns (ghost now: int, ghost out: seq<Message>)
      requires Valid() && phase == Idle
      modifies this`time, this`tick, this`seen, this`run, this`phase, this`sent, states, lastPublish, lastIrq
      ensures Valid() && phase == Idle && old(time) <= now <= time
      ensures forall i: nat :: i < |channels| ==>
                Count(sent, i, false) == Count(old(sent), i, false) + if Claims(old(Now()), false, now, i) then 1 else 0
      ensures IsPass(old(run), run, StartTimer(now)) && SameSetup(old(states[..]), states[..])
      ensures sent == old(sent) + out && AllRead(out, channels, states[..], sample, false, now, old(tick), tick)
      ensures forall i: nat :: Count(sent, i, true) == Count(old(sent), i, true)
    {
      hide Legal, After, Boot, Next, Count, Claims, WasRead, IsPass;
      ghost var first := Interrupts();
      assert run == old(run) + first;
      var clock := time;
      Begin(false);
      now := clock;
      ghost var head := run;
      assert head == old(run) + first + [StartTimer(now)];
      ghost var ext := [];
      out := [];
      var i := 0;
      while i < |channels|
        invariant i <= |channels| && Valid() && phase == Scan(false, now, i)
        invariant run == head + ext && WithinPass(ext) && now <= time
        invariant old(tick) <= tick && SameSetup(old(states[..]), states[..]) && sent == old(sent) + out
        invariant AllRead(out, channels, states[..], sample, false, now, old(tick), tick)
      {
        ghost var st, mid := states[..], tick;
        ghost var e, o := ServeTimer(i, clock);
        StillRead(out, o, channels, st, states[..], sample, false, now, old(tick), mid, tick);
        ext, out := ext + e, out + o;
        i := i + 1;
      }
      Finish();
      ext := ext + [Main(NO_VALUE)];
      assert run == old(run) + first + [StartTimer(now)] + ext;
      TimerPassResult(Boot(wiring), old(run), first, now, ext);
      MakesPass(old(run), first, StartTimer(now), ext);
    }

    // -------------------------------------------------------------- registration and settings

    method Register(ch: Option<Channel>) returns (rc: int)
      requires Valid() && phase == Idle
      modifies this`channels, this`run, states
      ensures Valid()
      ensures rc == if |old(channels)| >= CHANNEL_MAX then ENOMEM else if ch.None? then EINVAL else 0
      ensures rc < 0 ==> unchanged(this) && unchanged(states)
      ensures rc == 0 ==> channels == old(channels) + [ch.value] && Now() == Next(old(Now()), Action.Register(ch.value))
      ensures rc == 0 ==> var added := states[|old(channels)|];
                added.enabled && !added.invert && !added.pending && added.period == ch.value.period
      ensures forall k: nat :: k < CHANNEL_MAX && (rc < 0 || k != |old(channels)|) ==> states[k] == old(states[k])
    {
      hide Legal, After, Boot;
      if |channels| >= CHANNEL_MAX { return ENOMEM; }
      if ch.None? { return EINVAL; }
      ghost var s := Now();
      ghost var a := Action.Register(ch.value);
      RunOne(Boot(wiring), run, a);
      states[|channels|] := ChannelState(ch.value.period, true, false, false);
      channels := channels + [ch.value];
      run := run + [a];
      rc := 0;
    }

    method SetPeriod(idx: int, ms: nat)
      requires Valid()
      modifies this`run, states
      ensures Valid()
      ensures if 0 <= idx < |channels| then Now() == Next(old(Now()), Action.SetPeriod(idx, ms)) else Now() == old(Now())
      ensures 0 <= idx < |channels| ==> states[idx] == old(states[idx]).(period := ms)
    {
      hide Legal, After, Boot;
      if 0 <= idx && idx < |channels| {
        RunOne(Boot(wiring), run, Action.SetPeriod(idx, ms));
        states[idx] := states[idx].(period := ms);
        run := run + [Action.SetPeriod(idx, ms)];
      }
    }

    method SetEnabled(idx: int, en: bool)
      requires Valid()
      modifies this`run, states
      ensures Valid()
      ensures if 0 <= idx < |channels| then Now() == Next(old(Now()), Action.SetEnabled(idx, en)) else Now() == old(Now())
      ensures 0 <= idx < |channels| ==> states[idx] == old(states[idx]).(enabled := en)
    {
      hide Legal, After, Boot;
      if 0 <= idx && idx < |channels| {
        RunOne(Boot(wiring), run, Action.SetEnabled(idx, en));
        states[idx] := states[idx].(enabled := en);
        run := run + [Action.SetEnabled(idx, en)];
      }
    }

    method SetInvert(idx: int, inv: bool)
      requires Valid()
      modifies this`run, states
      ensures Valid()
      ensures if 0 <= idx < |channels| then Now() == Next(old(Now()), Action.SetInvert(idx, inv)) else Now() == old(Now())
      ensures 0 <= idx < |channels| ==> states[idx] == old(states[idx]).(invert := inv)
    {
      hide Legal, After, Boot;
      if 0 <= idx && idx < |channels| {
        RunOne(Boot(wiring), run, Action.SetInvert(idx, inv));
        states[idx] := states[idx].(invert := inv);
        run := run + [Action.SetInvert(idx, inv)];
      }
    }

    // -------------------------------------------------------------- connecting

    /** Creates the publishers; what is pending stays pending. */
    method CreatePublishers()
      requires Valid() && phase == Idle
      modifies this`time, this`tick, this`seen, this`run, states, pubActive, lastPublish, lastIrq
      ensures Valid() && Settings(old(states[..]), states[..])
      ensures forall i: nat :: i < |channels| ==>
                if Publishes(channels[i]) && agent(old(tick) + i + 1)
                then pubActive[i] && old(time) <= lastPublish[i] <= time
                else pubActive[i] == old(pubActive[i]) && lastPublish[i] == old(lastPublish[i])
    {
      hide Legal, After, Boot;
      var i := 0;
      while i < |channels|
        invariant i <= |channels| && Valid() && Settings(old(states[..]), states[..]) && time >= old(time)
        invariant tick == old(tick) + i
        invariant forall j: nat :: j < i ==>
                    if Publishes(channels[j]) && agent(old(tick) + j + 1)
                    then pubActive[j] && old(time) <= lastPublish[j] <= time
                    else pubActive[j] == old(pubActive[j]) && lastPublish[j] == old(lastPublish[j])
        invariant forall j: nat :: i <= j < |channels| ==>
                    pubActive[j] == old(pubActive[j]) && lastPublish[j] == old(lastPublish[j])
      {
        ghost var e := Interrupts();
        if channels[i].topicPub.Some? && channels[i].hasRead {
          if agent(tick) { Connect(i); }
        }
        i := i + 1;
      }
    }

    method Connect(i: nat)
      requires Valid() && phase == Idle && i < |channels| && Publishes(channels[i])
      modifies this`seen, this`run, pubActive, lastPublish
      ensures Valid() && Now() == Next(old(Now()), Action.Connect(i, time))
    {
      hide Legal, After, Boot;
      RunOne(Boot(wiring), run, Action.Connect(i, time));
      pubActive[i] := true;
      lastPublish[i] := time;
      seen, run := time, run + [Action.Connect(i, time)];
    }

    /** Finalises the publishers; what is pending stays pending. */
    method DestroyPublishers()
      requires Valid() && phase == Idle
      modifies this`time, this`tick, this`seen, this`run, states, pubActive, lastIrq
      ensures Valid() && Settings(old(states[..]), states[..])
      ensures forall i: nat :: i < CHANNEL_MAX ==> !pubActive[i]
    {
      hide Legal, After, Boot;
      var i := 0;
      while i < |channels|
        invariant i <= |channels| && Valid() && Settings(old(states[..]), states[..])
        invariant forall j: nat :: j < i ==> !pubActive[j]
      {
        ghost var e := Interrupts();
        if pubActive[i] {
          ghost var s := Now();
          RunOne(Boot(wiring), run, Disconnect(i));
          pubActive[i] := false;
          run := run + [Disconnect(i)];
        }
        i := i + 1;
      }
      Reachable();
    }
  }

  /** Interrupts only set bits. */
  predicate Settings(a: seq<ChannelState>, b: seq<ChannelState>) {
    |a| == |b| && forall i :: 0 <= i < |a| ==> b[i].(pending := a[i].pending) == a[i] && (a[i].pending ==> b[i].pending)
  }

  /** The settings are the same; bits may differ. */
  predicate SameSetup(a: seq<ChannelState>, b: seq<ChannelState>)
  { |a| == |b| && forall i :: 0 <= i < |a| ==> b[i].(pending := a[i].pending) == a[i] }

  /** Message m carries what its channel read at a moment in lo+1..hi, inverted as configured. */
  ghost predicate WasRead(m: Message, channels: seq<Channel>, states: seq<ChannelState>, sample: (nat, nat) -> Value,
                          lo: nat, hi: nat)
  {
    && m.ch < |channels| && m.ch < |states|
    && exists t: nat :: lo < t <= hi && Carries(channels[m.ch], states[m.ch].invert, m.payload, sample(m.ch, t))
  }

  /** The messages belong to one pass and were read in it. */
  ghost predicate AllRead(out: seq<Message>, channels: seq<Channel>, states: seq<ChannelState>,
                          sample: (nat, nat) -> Value, irq: bool, now: int, lo: nat, hi: nat)
  { forall m :: m in out ==> m.irq == irq && m.stamp == now && WasRead(m, channels, states, sample, lo, hi) }

  /** The run went on by one complete pass, interrupts before and within it. */
  ghost predicate IsPass(before: seq<Action>, after: seq<Action>, start: Action) {
    exists first, ext :: OnlyEdges(first) && WithinPass(ext) && after == before + first + [start] + ext
  }

  lemma MakesPass(before: seq<Action>, first: seq<Action>, start: Action, ext: seq<Action>)
    requires OnlyEdges(first) && WithinPass(ext)
    ensures IsPass(before, before + first + [start] + ext, start)
  {
  }

  lemma NoneRead(channels: seq<Channel>, states: seq<ChannelState>, sample: (nat, nat) -> Value, irq: bool, now: int,
                 lo: nat, hi: nat)
    ensures AllRead([], channels, states, sample, irq, now, lo, hi)
  {
  }

  lemma ReadInPass(out: seq<Message>, channels: seq<Channel>, states: seq<ChannelState>, sample: (nat, nat) -> Value,
                   irq: bool, now: int, lo: nat, mid: nat, hi: nat)
    requires lo <= mid && AllRead(out, channels, states, sample, irq, now, mid, hi)
    ensures AllRead(out, channels, states, sample, irq, now, lo, hi)
  {
  }

  lemma StillRead(out: seq<Message>, more: seq<Message>, channels: seq<Channel>, before: seq<ChannelState>,
                  after: seq<ChannelState>, sample: (nat, nat) -> Value, irq: bool, now: int,
                  lo: nat, mid: nat, hi: nat)
    requires lo <= mid <= hi && SameSetup(before, after)
    requires AllRead(out, channels, before, sample, irq, now, lo, mid)
    requires AllRead(more, channels, after, sample, irq, now, mid, hi)
    ensures AllRead(out + more, channels, after, sample, irq, now, lo, hi)
  {
  }

  lemma StillSame(a: seq<ChannelState>, b: seq<ChannelState>, c: seq<ChannelState>)
    requires SameSetup(a, b) && SameSetup(b, c)
    ensures SameSetup(a, c)
  {
  }

  lemma EdgeKeeps(s: State, pin: nat, t: int)
    requires Shaped(s) && Enabled(s, Edge(pin, t))
    ensures Settings(s.states, Next(s, Edge(pin, t)).states)
  {
  }

  /** What a whole interrupt pass means, from the run it added. */
  lemma IrqPassResult(b: State, before: seq<Action>, first: seq<Action>, now: int, ext: seq<Action>)
    requires Sane(b) && OnlyEdges(first) && WithinPass(ext)
    requires Legal(b, before + first + [StartIrq(now)] + ext)
    requires After(b, before + first + [StartIrq(now)] + ext).phase == Idle
    ensures Legal(b, before)
    ensures var s := After(b, before); var e := After(b, before + first + [StartIrq(now)] + ext);
            && (forall i: nat :: i < |s.channels| && s.active[i] && s.channels[i].irqCapable && s.states[i].pending ==>
                  Count(e.sent, i, true) == Count(s.sent, i, true) + 1)
            && (forall i: nat :: i < |s.channels| && !(s.active[i] && s.channels[i].irqCapable) ==>
                  Count(e.sent, i, true) == Count(s.sent, i, true))
            && (forall i: nat :: Count(e.sent, i, true) <= Count(s.sent, i, true) + 1)
            && (forall i: nat :: Count(e.sent, i, false) == Count(s.sent, i, false))
  {
    hide Count, Next;
    var s, m, e := PassFrom(b, before, first, [StartIrq(now)], ext);
    SaneRun(b, before);
    EdgesOnly(s, first);
    SaneRun(s, first);
    var pass := [StartIrq(now)] + ext;
    assert pass[0] == StartIrq(now) && pass[1..] == ext;
    forall i: nat
      ensures Count(e.sent, i, true) <= Count(s.sent, i, true) + 1 && Count(e.sent, i, false) == Count(s.sent, i, false)
    {
      Started(m, now, true);
      PassSendsOnce(Next(m, pass[0]), ext, i, true);
    }
    forall i: nat | i < |s.channels| && s.active[i] && s.channels[i].irqCapable && s.states[i].pending
      ensures Count(e.sent, i, true) > Count(s.sent, i, true)
    {
      IrqPassExact(m, now, ext, i);
    }
    forall i: nat | i < |s.channels| && !(s.active[i] && s.channels[i].irqCapable)
      ensures Count(e.sent, i, true) == Count(s.sent, i, true)
    {
      IrqPassExact(m, now, ext, i);
    }
  }

  lemma TimerPassResult(b: State, before: seq<Action>, first: seq<Action>, now: int, ext: seq<Action>)
    requires Sane(b) && OnlyEdges(first) && WithinPass(ext)
    requires Legal(b, before + first + [StartTimer(now)] + ext)
    requires After(b, before + first + [StartTimer(now)] + ext).phase == Idle
    ensures Legal(b, before)
    ensures var s := After(b, before); var e := After(b, before + first + [StartTimer(now)] + ext);
            && (forall i: nat :: i < |s.channels| ==>
                  Count(e.sent, i, false) == Count(s.sent, i, false) + if Claims(s, false, now, i) then 1 else 0)
            && (forall i: nat :: Count(e.sent, i, true) == Count(s.sent, i, true))
  {
    hide Count, Next;
    var s, m, e := PassFrom(b, before, first, [StartTimer(now)], ext);
    SaneRun(b, before);
    EdgesOnly(s, first);
    SaneRun(s, first);
    var pass := [StartTimer(now)] + ext;
    assert pass[0] == StartTimer(now) && pass[1..] == ext;
    forall i: nat ensures Count(e.sent, i, true) == Count(s.sent, i, true) {
      Started(m, now, false);
      PassSendsOnce(Next(m, pass[0]), ext, i, false);
    }
    forall i: nat | i < |s.channels|
      ensures Count(e.sent, i, false) == Count(s.sent, i, false) + if Claims(s, false, now, i) then 1 else 0
    {
      PeriodicPassExact(m, now, ext, i);
    }
  }

  lemma Started(s: State, t: int, irq: bool)
    requires Sane(s) && Enabled(s, if irq then StartIrq(t) else StartTimer(t))
    ensures var n := Next(s, if irq then StartIrq(t) else StartTimer(t));
            Sane(n) && n.phase == Scan(irq, t, 0) && n.sent == s.sent
  {
  }

  lemma PassFrom(b: State, before: seq<Action>, first: seq<Action>, start: seq<Action>, ext: seq<Action>)
    returns (s: State, m: State, e: State)
    requires Shaped(b) && Legal(b, before + first + start + ext)
    ensures Shaped(s) && Shaped(m) && Legal(b, before) && s == After(b, before)
    ensures Legal(s, first) && m == After(s, first)
    ensures Legal(m, start + ext) && e == After(m, start + ext) == After(b, before + first + start + ext)
  {
    assert before + first + start + ext == before + (first + (start + ext));
    RunSplits(b, before, first + (start + ext));
    s := After(b, before);
    RunSplits(s, first, start + ext);
    m := After(s, first);
    e := After(m, start + ext);
  }

  /** Interrupts alone change nothing but bits and pin timestamps. */
  lemma {:induction false} EdgesOnly(s: State, run: seq<Action>)
    requires Shaped(s) && Legal(s, run) && OnlyEdges(run)
    ensures var e := After(s, run);
            && Settings(s.states, e.states) && e.channels == s.channels && e.active == s.active && e.last == s.last
            && e.sent == s.sent && e.phase == s.phase
    decreases |run|
  {
    if run != [] {
      EdgeKeeps(s, run[0].pin, run[0].t);
      EdgesOnly(Next(s, run[0]), run[1..]);
    }
  }
}
