// The RC receiver path: pulse widths measured by an interrupt handler from a
// wrapping cycle counter, normalised with the trim and smoothed.
module RcInput {
  import opened Options
  import opened Reals
  import opened CStrings
  import opened ConfigText

  const RC_PWM_MIN_US := 800
  const RC_PWM_MAX_US := 2200
  const RC_PWM_TIMEOUT_MS := 500
  const WORD := 0x1_0000_0000

  // ---------------------------------------------------------------- pulse width

  /** k_cyc_to_us_floor32 at hz cycles per second. */
  function Micros(cycles: nat, hz: nat): nat
    requires hz > 0
  { cycles * 1000000 / hz % WORD }

  /** From one megahertz up the conversion does not wrap. */
  lemma MicrosIsTrue(cycles: nat, hz: nat)
    requires hz >= 1000000 && cycles < WORD
    ensures Micros(cycles, hz) == cycles * 1000000 / hz
  {
    Quotient(cycles * 1000000, hz, cycles) by { assert cycles * 1000000 <= cycles * hz; }
  }

  lemma Quotient(n: nat, d: nat, q: nat)
    requires d > 0 && n <= q * d
    ensures n / d <= q
  {
    var k := n / d;
    assert (k - q) * d <= 0;
  }

  /** The time between two unwrapped cycle counts, in whole microseconds. */
  function TrueMicros(rise: nat, fall: nat, hz: nat): int
    requires hz > 0
  { (fall - rise) * 1000000 / hz }

  /** The elapsed cycles as the handler computes them from two samples of the 32-bit counter. */
  function Elapsed(rise: nat, fall: nat): nat { (fall % WORD + WORD - rise % WORD) % WORD }

  /** The difference is the true one exactly when the pulse is shorter than one turn of the counter,
      wherever in the turn it begins. */
  lemma ElapsedIsTrue(rise: nat, fall: nat)
    requires rise <= fall
    ensures Elapsed(rise, fall) == fall - rise <==> fall - rise < WORD
  {
    var q, r := fall / WORD - rise / WORD, fall % WORD - rise % WORD;
    assert fall - rise == q * WORD + r;
  }

  // ---------------------------------------------------------------- normalisation

  function I16(v: int): (r: int)
    ensures -0x8000 <= r < 0x8000
  { if U16(v) < 0x8000 then U16(v) else U16(v) - 0x1_0000 }

  function Centered(raw: nat, center: nat): int { I16(I16(raw) - I16(center)) }

  function Ratio(c: int, range: nat): real { if range > 0 then c as real / range as real else 0.0 }

  function Magnitude(c: int): nat { if c < 0 then -c else c }

  /** The stick position of a centred pulse, with the half ranges above and below and the deadzone. */
  function Position(c: int, up: nat, down: nat, dz: int): (r: real)
    ensures -1.0 <= r <= 1.0
  { if Magnitude(c) < dz || c == 0 then 0.0 else Clamp(Ratio(c, if c > 0 then up else down)) }

  function Norm(raw: nat, t: TrimCh, dz: nat): (r: real)
    ensures -1.0 <= r <= 1.0
  { Position(Centered(raw, t.center), U16(t.max - t.center), U16(t.center - t.min), I16(dz)) }

  predicate Pulse(raw: int) { RC_PWM_MIN_US <= raw <= RC_PWM_MAX_US }

  predicate Words(t: TrimCh) { t.min < 0x1_0000 && t.center < 0x1_0000 && t.max < 0x1_0000 }

  lemma RatioMonotone(c1: int, c2: int, range: nat)
    requires c1 <= c2
    ensures Ratio(c1, range) <= Ratio(c2, range)
    ensures 0 <= c1 ==> Ratio(c1, range) >= 0.0
    ensures c2 <= 0 ==> Ratio(c2, range) <= 0.0
  {
  }

  lemma PositionMonotone(c1: int, c2: int, up: nat, down: nat, dz: int)
    requires c1 <= c2
    ensures Position(c1, up, down, dz) <= Position(c2, up, down, dz)
  {
    hide Ratio;
    RatioMonotone(c1, c2, up);
    RatioMonotone(c1, c2, down);
    RatioMonotone(c1, c1, up);
    RatioMonotone(c1, c1, down);
    RatioMonotone(c2, c2, up);
    RatioMonotone(c2, c2, down);
  }

  /** The 16-bit difference: exact unless the centre is more than 32768 above the pulse. */
  lemma CenteredIs(raw: nat, center: nat)
    requires raw < 0x8000 && center < 0x1_0000
    ensures Centered(raw, center) == if center - raw <= 0x8000 then raw - center else raw - center + 0x1_0000
  {
  }

  /** A larger pulse never gives a smaller position, for all pulses and every trim and deadzone
      the fields can hold, unless the centre lies in 33569..34968 with some half range. */
  lemma MonotoneExactly(t: TrimCh, dz: nat)
    requires Words(t) && dz < 0x1_0000
    ensures (forall a: nat, b: nat :: Pulse(a) && Pulse(b) && a <= b ==> Norm(a, t, dz) <= Norm(b, t, dz))
       <==> (!(33569 <= t.center <= 34968) || t.min == t.center == t.max)
  {
    hide Centered, Position;
    if 33569 <= t.center <= 34968 {
      if t.min == t.center == t.max {
        forall a: nat, b: nat | Pulse(a) && Pulse(b) ensures Norm(a, t, dz) <= Norm(b, t, dz) {
          NoRange(a, t, dz);
          NoRange(b, t, dz);
        }
      } else {
        WrapBreaks(t, dz);
        var a, b := t.center - 32769, t.center - 32768;
        assert Pulse(a) && Pulse(b) && a <= b && Norm(a, t, dz) > Norm(b, t, dz);
      }
    } else {
      forall a: nat, b: nat | Pulse(a) && Pulse(b) && a <= b ensures Norm(a, t, dz) <= Norm(b, t, dz) {
        CenteredIs(a, t.center);
        CenteredIs(b, t.center);
        PositionMonotone(Centered(a, t.center), Centered(b, t.center),
                         U16(t.max - t.center), U16(t.center - t.min), I16(dz));
      }
    }
  }

  lemma NoRange(raw: nat, t: TrimCh, dz: nat)
    requires t.min == t.center == t.max
    ensures Norm(raw, t, dz) == 0.0
  {
  }

  /** Across the 16-bit wrap of the difference the position jumps from the top to the bottom. */
  lemma WrapBreaks(t: TrimCh, dz: nat)
    requires Words(t) && dz < 0x1_0000 && 33569 <= t.center <= 34968 && !(t.min == t.center == t.max)
    ensures Norm(t.center - 32769, t, dz) > Norm(t.center - 32768, t, dz)
  {
    var up, down := U16(t.max - t.center), U16(t.center - t.min);
    hide Centered, U16, I16;
    CenteredIs(t.center - 32769, t.center);
    CenteredIs(t.center - 32768, t.center);
    HalfRanges(t);
    Extremes(up, down, I16(dz));
  }

  lemma HalfRanges(t: TrimCh)
    requires Words(t) && !(t.min == t.center == t.max)
    ensures U16(t.max - t.center) > 0 || U16(t.center - t.min) > 0
  {
  }

  lemma Extremes(up: nat, down: nat, dz: int)
    requires dz <= 0x7fff && (up > 0 || down > 0)
    ensures Position(0x7fff, up, down, dz) > Position(-0x8000, up, down, dz)
  {
    assert up > 0 ==> Ratio(0x7fff, up) > 0.0;
    assert down > 0 ==> Ratio(-0x8000, down) < 0.0;
  }

  /** Strictly ordered trims that fit 15 bits map their end points and centre to -1, 1 and 0
      exactly when the deadzone, read as a signed number, does not exceed either half range. */
  lemma EndPointsExactly(t: TrimCh, dz: nat)
    requires t.min < t.center < t.max < 0x8000 && dz < 0x1_0000
    ensures Norm(t.center, t, dz) == 0.0
    ensures Norm(t.min, t, dz) == -1.0 && Norm(t.max, t, dz) == 1.0
       <==> dz >= 0x8000 || (dz <= t.center - t.min && dz <= t.max - t.center)
  {
    CenteredIs(t.min, t.center);
    CenteredIs(t.center, t.center);
    CenteredIs(t.max, t.center);
    hide Centered;
    var up, down := t.max - t.center, t.center - t.min;
    assert U16(up) == up && U16(down) == down;
    Full(up);
    Full(down);
  }

  lemma Full(n: int)
    requires n > 0
    ensures Ratio(n, n) == 1.0 && Ratio(-n, n) == -1.0
  {
    var x := n as real;
    assert (-n) as real == -x;
    assert x / x == 1.0 && (-x) / x == -(x / x);
  }

  /** x is c over the range. */
  predicate IsFraction(x: real, c: int, range: int) { x * range as real == c as real }

  /** Outside the deadzone and inside ordered trims, the position is the fraction of its half range. */
  lemma Proportional(raw: nat, t: TrimCh, dz: nat)
    requires t.min < t.center < t.max < 0x8000 && dz < 0x8000 && t.min <= raw <= t.max
    ensures var c, up, down, norm := raw - t.center, t.max - t.center, t.center - t.min, Norm(raw, t, dz);
            && (Magnitude(c) < dz ==> norm == 0.0)
            && (Magnitude(c) >= dz && c >= 0 ==> IsFraction(norm, c, up))
            && (Magnitude(c) >= dz && c <= 0 ==> IsFraction(norm, c, down))
  {
    NormIsPosition(raw, t, dz);
    hide Norm, Position, Magnitude, IsFraction;
    PositionInside(raw - t.center, t.max - t.center, t.center - t.min, dz);
  }

  lemma NormIsPosition(raw: nat, t: TrimCh, dz: nat)
    requires t.min < t.center < t.max < 0x8000 && dz < 0x8000 && t.min <= raw <= t.max
    ensures Norm(raw, t, dz) == Position(raw - t.center, t.max - t.center, t.center - t.min, dz)
  {
    CenteredIs(raw, t.center);
    SmallWords(t.max - t.center, t.center - t.min, dz);
    hide Centered, U16, I16, Position;
  }

  lemma PositionInside(c: int, up: int, down: int, dz: nat)
    requires up > 0 && down > 0 && -down <= c <= up
    ensures Magnitude(c) < dz ==> Position(c, up, down, dz) == 0.0
    ensures Magnitude(c) >= dz && c >= 0 ==> IsFraction(Position(c, up, down, dz), c, up)
    ensures Magnitude(c) >= dz && c <= 0 ==> IsFraction(Position(c, up, down, dz), c, down)
  {
    hide Ratio;
    InRange(c, up);
    InRange(-c, down);
    if Magnitude(c) >= dz && c != 0 {
      if c > 0 {
        Positive(c, up);
      } else {
        Positive(-c, down);
      }
    }
  }

  lemma SmallWords(up: nat, down: nat, dz: nat)
    requires up < 0x8000 && down < 0x8000 && dz < 0x8000
    ensures U16(up) == up && U16(down) == down && I16(dz) == dz
  {
  }

  lemma Positive(c: int, range: nat)
    requires c >= 0
    ensures Ratio(c, range) >= 0.0
  {
  }

  lemma InRange(c: int, range: nat)
    requires range > 0 && c <= range
    ensures Ratio(c, range) <= 1.0 && Ratio(c, range) * range as real == c as real
    ensures Ratio(-c, range) == -Ratio(c, range)
  {
    var x, r := c as real, range as real;
    assert (-c) as real == -x;
    assert (-x) / r == -(x / r) && x / r * r == x;
  }

  // ---------------------------------------------------------------- the filter

  function Mix(alpha: real, v: real, y: real): real { alpha * v + (1.0 - alpha) * y }

  /** One sample through the filter: a lost signal (None) resets it. */
  function Filter(alpha: real, s: Option<real>, x: Option<real>): (Option<real>, real) {
    match x
    case None => (None, 0.0)
    case Some(v) =>
      if alpha >= 1.0 then (s, v)
      else match s
           case None => (Some(v), v)
           case Some(y) => (Some(Mix(alpha, v, y)), Mix(alpha, v, y))
  }

  function Settled(alpha: real, s: Option<real>, xs: seq<Option<real>>): Option<real>
    decreases |xs|
  { if xs == [] then s else Settled(alpha, Filter(alpha, s, xs[0]).0, xs[1..]) }

  function Outputs(alpha: real, s: Option<real>, xs: seq<Option<real>>): (r: seq<real>)
    ensures |r| == |xs|
    decreases |xs|
  { if xs == [] then [] else [Filter(alpha, s, xs[0]).1] + Outputs(alpha, Filter(alpha, s, xs[0]).0, xs[1..]) }

  lemma {:induction false} OutputsSplit(alpha: real, s: Option<real>, a: seq<Option<real>>, b: seq<Option<real>>)
    ensures Outputs(alpha, s, a + b) == Outputs(alpha, s, a) + Outputs(alpha, Settled(alpha, s, a), b)
    ensures Settled(alpha, s, a + b) == Settled(alpha, Settled(alpha, s, a), b)
    decreases |a|
  {
    if a == [] {
      assert a + b == b;
    } else {
      assert (a + b)[0] == a[0] && (a + b)[1..] == a[1..] + b;
      OutputsSplit(alpha, Filter(alpha, s, a[0]).0, a[1..], b);
    }
  }

  /** After a signal loss every output depends on later samples only. */
  lemma LossForgets(alpha: real, s: Option<real>, before: seq<Option<real>>, later: seq<Option<real>>)
    ensures Outputs(alpha, s, before + [None] + later)[|before| + 1..] == Outputs(alpha, None, later)
  {
    OutputsSplit(alpha, s, before + [None], later);
    OutputsSplit(alpha, s, before, [None]);
    assert Settled(alpha, Settled(alpha, s, before), [None]) == None;
  }

  predicate Within(lo: real, hi: real, s: Option<real>) { s.Some? ==> lo <= s.value <= hi }

  lemma Blend(alpha: real, v: real, y: real, lo: real, hi: real)
    requires 0.0 <= alpha < 1.0 && lo <= v <= hi && lo <= y <= hi
    ensures lo <= Mix(alpha, v, y) <= hi
  {
    Weighted(alpha, 1.0 - alpha, lo, v, lo, y);
    Weighted(alpha, 1.0 - alpha, v, hi, y, hi);
    Split(alpha, lo);
    Split(alpha, hi);
  }

  lemma Split(alpha: real, x: real)
    ensures alpha * x + (1.0 - alpha) * x == x
  {
  }

  lemma Weighted(a: real, b: real, x1: real, x2: real, y1: real, y2: real)
    requires a >= 0.0 && b >= 0.0 && x1 <= x2 && y1 <= y2
    ensures a * x1 + b * y1 <= a * x2 + b * y2
  {
    Scales(a, x1, x2);
    Scales(b, y1, y2);
  }

  lemma Scales(a: real, x: real, y: real)
    requires a >= 0.0 && x <= y
    ensures a * x <= a * y
  {
  }

  /** While the signal lasts, outputs stay within the hull of the samples since the last reset. */
  lemma {:induction false} StaysInHull(alpha: real, s: Option<real>, xs: seq<Option<real>>, lo: real, hi: real)
    requires 0.0 <= alpha && Within(lo, hi, s)
    requires forall k :: 0 <= k < |xs| ==> xs[k].Some? && lo <= xs[k].value <= hi
    ensures Within(lo, hi, Settled(alpha, s, xs))
    ensures forall k :: 0 <= k < |xs| ==> lo <= Outputs(alpha, s, xs)[k] <= hi
    decreases |xs|
  {
    if xs != [] {
      if alpha < 1.0 && s.Some? { Blend(alpha, xs[0].value, s.value, lo, hi); }
      StaysInHull(alpha, Filter(alpha, s, xs[0]).0, xs[1..], lo, hi);
    }
  }

  /** n equal samples. */
  function Steady(x: real, n: nat): (xs: seq<Option<real>>)
    ensures |xs| == n
  { if n == 0 then [] else [Some(x)] + Steady(x, n - 1) }

  function Pow(b: real, n: nat): real { if n == 0 then 1.0 else b * Pow(b, n - 1) }

  /** The b^n-th part of an error. */
  function Share(b: real, n: nat, e: real): real { Pow(b, n) * e }

  /** n equal samples leave exactly the (1 - alpha)^n-th part of the initial error. */
  lemma {:induction false} ErrorDecays(alpha: real, y: real, x: real, n: nat)
    requires alpha < 1.0
    ensures Settled(alpha, Some(y), Steady(x, n)) == Some(x + Share(1.0 - alpha, n, y - x))
    decreases n
  {
    hide Mix, Share;
    if n == 0 {
      assert Share(1.0 - alpha, 0, y - x) == y - x by { ShareNone(1.0 - alpha, y - x); }
    } else {
      var xs := Steady(x, n);
      var z := Mix(alpha, x, y);
      assert xs[0] == Some(x) && xs[1..] == Steady(x, n - 1);
      ErrorDecays(alpha, z, x, n - 1);
      OneShare(alpha, y, x, n - 1);
    }
  }

  /** Every output is the filter's new state, and zero where the signal is lost; from alpha 1 on it is
      the sample itself, whatever is held. */
  lemma {:induction false} OutputsAreStates(alpha: real, s: Option<real>, xs: seq<Option<real>>, k: nat)
    requires k < |xs|
    ensures var out := Outputs(alpha, s, xs)[k];
            && (xs[k].None? ==> out == 0.0 && Settled(alpha, s, xs[..k + 1]) == None)
            && (xs[k].Some? && alpha < 1.0 ==> Settled(alpha, s, xs[..k + 1]) == Some(out))
            && (xs[k].Some? && alpha >= 1.0 ==> out == xs[k].value)
    decreases |xs|
  {
    hide Mix;
    assert xs[..k + 1][0] == xs[0] && xs[..k + 1][1..] == xs[1..][..k];
    if k > 0 { OutputsAreStates(alpha, Filter(alpha, s, xs[0]).0, xs[1..], k - 1); }
  }

  /** The k-th of n equal samples comes out with exactly the (1 - alpha)^(k + 1)-th part of the error. */
  lemma {:induction false} OutputsDecay(alpha: real, y: real, x: real, n: nat, k: nat)
    requires alpha < 1.0 && k < n
    ensures Outputs(alpha, Some(y), Steady(x, n))[k] == x + Share(1.0 - alpha, k + 1, y - x)
  {
    var xs := Steady(x, n);
    SteadyPrefix(x, n, k);
    OutputsAreStates(alpha, Some(y), xs, k);
    ErrorDecays(alpha, y, x, k + 1);
    hide Mix, Share, Settled, Outputs;
  }

  lemma {:induction false} SteadyPrefix(x: real, n: nat, k: nat)
    requires k < n
    ensures Steady(x, n)[k] == Some(x) && Steady(x, n)[..k + 1] == Steady(x, k + 1)
  {
    var xs := Steady(x, n);
    assert xs[0] == Some(x) && xs[1..] == Steady(x, n - 1);
    if k > 0 {
      SteadyPrefix(x, n - 1, k - 1);
      assert xs[..k + 1] == [xs[0]] + xs[1..][..k];
    } else {
      assert Steady(x, 1) == [Some(x)] + Steady(x, 0) == [Some(x)];
    }
  }

  lemma ShareNone(b: real, e: real)
    ensures Share(b, 0, e) == e
  {
  }

  lemma OneShare(alpha: real, y: real, x: real, n: nat)
    ensures Share(1.0 - alpha, n, Mix(alpha, x, y) - x) == Share(1.0 - alpha, n + 1, y - x)
  {
    assert Mix(alpha, x, y) - x == (1.0 - alpha) * (y - x);
    Commute(Pow(1.0 - alpha, n), 1.0 - alpha, y - x);
  }

  lemma Commute(p: real, b: real, e: real)
    ensures p * (b * e) == b * p * e
  {
  }

  // ---------------------------------------------------------------- runs of edges

  /** One edge of a channel: the pin's level after it, the unwrapped cycle count and the uptime. */
  datatype Edge = Edge(high: bool, cycles: nat, uptime: int)

  predicate Ordered(es: seq<Edge>) { forall j, k :: 0 <= j < k < |es| ==> es[j].cycles <= es[k].cycles }

  /** The cycle count of the latest rising edge, and the counter's start before the first. */
  function Rise(es: seq<Edge>): nat
  { if es == [] then 0 else if es[|es| - 1].high then es[|es| - 1].cycles else Rise(es[..|es| - 1]) }

  /** The width the handler computes at the falling edge k. */
  function Width(es: seq<Edge>, k: nat, hz: nat): nat
    requires k < |es| && hz > 0
  { Micros(Elapsed(Rise(es[..k]), es[k].cycles), hz) }

  /** Edge k ends a pulse the handler stores. */
  predicate Counts(es: seq<Edge>, k: nat, hz: nat)
    requires k < |es| && hz > 0
  { !es[k].high && Pulse(Width(es, k, hz)) }

  /** The latest edge that ends a stored pulse. */
  function Latest(es: seq<Edge>, hz: nat): (r: Option<nat>)
    requires hz > 0
    ensures r.Some? ==> r.value < |es|
  {
    if es == [] then None
    else if Counts(es, |es| - 1, hz) then Some(|es| - 1) else Latest(es[..|es| - 1], hz)
  }

  lemma {:induction false} LatestIs(es: seq<Edge>, hz: nat)
    requires hz > 0
    ensures var r := Latest(es, hz);
            && (r.Some? ==> Counts(es, r.value, hz))
            && (forall k :: (if r.Some? then r.value + 1 else 0) <= k < |es| ==> !Counts(es, k, hz))
  {
    hide Micros, Elapsed, Rise, Pulse;
    if es != [] {
      var n: nat := |es| - 1;
      LatestIs(es[..n], hz);
      forall k | 0 <= k < n ensures Counts(es[..n], k, hz) == Counts(es, k, hz) {
        assert es[..n][..k] == es[..k];
      }
    }
  }

  /** Edge j begins the pulse that edge k ends: the latest rising edge before it. */
  predicate Begins(es: seq<Edge>, j: int, k: int)
  { 0 <= j < k < |es| && es[j].high && !es[k].high && forall m :: j < m < k ==> !es[m].high }

  /** Edge k ends a pulse that a rising edge began, shorter than one turn of the counter. */
  ghost predicate EndsShort(es: seq<Edge>, k: int)
    requires 0 <= k < |es|
  { exists j :: Begins(es, j, k) && es[k].cycles - es[j].cycles < WORD }

  /** Every falling edge ends such a pulse. */
  ghost predicate Measurable(es: seq<Edge>) { forall k :: 0 <= k < |es| && !es[k].high ==> EndsShort(es, k) }

  lemma {:induction false} RiseBegins(es: seq<Edge>, j: nat, k: nat)
    requires k < |es| && Begins(es, j, k)
    ensures Rise(es[..k]) == es[j].cycles
    decreases k
  {
    var front := es[..k];
    if j < k - 1 {
      assert !es[k - 1].high;
      var shorter := es[..k - 1] + [es[k]];
      assert Begins(shorter, j, k - 1);
      RiseBegins(shorter, j, k - 1);
      assert shorter[..k - 1] == es[..k - 1] == front[..k - 1];
    }
  }

  /** The width computed for a pulse is the true one, in microseconds, wherever the counter wraps. */
  lemma WidthIsTrue(es: seq<Edge>, j: nat, k: nat, hz: nat)
    requires Ordered(es) && k < |es| && Begins(es, j, k) && hz >= 1000000
    requires es[k].cycles - es[j].cycles < WORD
    ensures Width(es, k, hz) == TrueMicros(es[j].cycles, es[k].cycles, hz)
  {
    hide Micros, Elapsed;
    RiseBegins(es, j, k);
    ElapsedIsTrue(es[j].cycles, es[k].cycles);
    MicrosIsTrue(es[k].cycles - es[j].cycles, hz);
  }

  /** The true width of the pulse that edge k ends is us microseconds. */
  ghost predicate TrulyLasts(es: seq<Edge>, k: int, hz: nat, us: nat)
    requires hz > 0
  {
    exists j :: Begins(es, j, k) && es[j].cycles <= es[k].cycles
                && us == TrueMicros(es[j].cycles, es[k].cycles, hz)
  }

  lemma OneBegin(es: seq<Edge>, i: int, j: int, k: int)
    requires Begins(es, i, k) && Begins(es, j, k)
    ensures i == j
  {
    assert !(i < j) && !(j < i);
  }

  /** A pulse of a turn of the counter or more is measured at least a microsecond too short. */
  lemma LongIsCut(rise: nat, fall: nat, hz: nat)
    requires rise + WORD <= fall && 1000000 <= hz <= WORD * 1000000
    ensures Micros(Elapsed(rise, fall), hz) < TrueMicros(rise, fall, hz)
  {
    var e, d := Elapsed(rise, fall), fall - rise;
    assert e + WORD <= d by { LosesTurns(rise, fall); }
    hide Elapsed;
    MicrosIsTrue(e, hz);
    OneMore(e * 1000000, d * 1000000, hz);
  }

  lemma LosesTurns(rise: nat, fall: nat)
    requires rise + WORD <= fall
    ensures Elapsed(rise, fall) + WORD <= fall - rise
  {
    var q, r := fall / WORD - rise / WORD, fall % WORD - rise % WORD;
    assert fall - rise == q * WORD + r;
    assert q >= 1;
  }

  lemma OneMore(a: nat, b: nat, d: nat)
    requires d > 0 && a + d <= b
    ensures a / d + 1 <= b / d
  {
    var x, y := a / d, b / d;
    assert (y - x) * d > 0;
  }

  /** The width computed at a falling edge is the true one exactly if a rising edge began the pulse
      less than one turn of the counter before: not without a rising edge, and not after a turn. */
  lemma WidthExactly(es: seq<Edge>, k: nat, hz: nat)
    requires Ordered(es) && k < |es| && !es[k].high && 1000000 <= hz <= WORD * 1000000
    ensures TrulyLasts(es, k, hz, Width(es, k, hz)) <==> EndsShort(es, k)
  {
    hide Micros, Elapsed, Rise, TrueMicros;
    if j :| Begins(es, j, k) {
      forall i | Begins(es, i, k) ensures i == j { OneBegin(es, i, j, k); }
      if es[k].cycles - es[j].cycles < WORD {
        WidthIsTrue(es, j, k, hz);
      } else {
        RiseBegins(es, j, k);
        LongIsCut(es[j].cycles, es[k].cycles, hz);
      }
    }
  }

  /** Over a run every computed width is the true one exactly if the run is measurable. */
  lemma WidthsExactly(es: seq<Edge>, hz: nat)
    requires Ordered(es) && 1000000 <= hz <= WORD * 1000000
    ensures (forall k: nat :: k < |es| && !es[k].high ==> TrulyLasts(es, k, hz, Width(es, k, hz))) <==> Measurable(es)
  {
    hide TrulyLasts, Width, EndsShort;
    forall k: nat | k < |es| && !es[k].high
      ensures TrulyLasts(es, k, hz, Width(es, k, hz)) <==> EndsShort(es, k)
    {
      WidthExactly(es, k, hz);
    }
  }

  /** Over every measurable run the stored pulse is the true width of the latest pulse of 800..2200
      microseconds; no later pulse lay in that range. */
  lemma StoredIsTrue(es: seq<Edge>, hz: nat)
    requires Ordered(es) && Measurable(es) && hz >= 1000000
    ensures var r := Latest(es, hz);
            && (r.Some? ==> Pulse(Width(es, r.value, hz)) && TrulyLasts(es, r.value, hz, Width(es, r.value, hz)))
            && (forall k: nat, us: nat :: (if r.Some? then r.value + 1 else 0) <= k < |es| && TrulyLasts(es, k, hz, us) ==>
                  !Pulse(us))
  {
    hide Width, Latest, Pulse, Begins, Measurable, TrulyLasts;
    var r := Latest(es, hz);
    LatestIs(es, hz);
    if r.Some? { OneWidth(es, r.value, hz); }
    forall k: nat, us: nat | (if r.Some? then r.value + 1 else 0) <= k < |es| && TrulyLasts(es, k, hz, us)
      ensures !Pulse(us)
    {
      EndsLow(es, k, hz, us);
      OneWidth(es, k, hz);
      assert !Counts(es, k, hz);
    }
  }

  lemma EndsLow(es: seq<Edge>, k: nat, hz: nat, us: nat)
    requires k < |es| && hz > 0 && TrulyLasts(es, k, hz, us)
    ensures !es[k].high
  {
  }

  lemma OneWidth(es: seq<Edge>, k: nat, hz: nat)
    requires Ordered(es) && Measurable(es) && k < |es| && !es[k].high && hz >= 1000000
    ensures TrulyLasts(es, k, hz, Width(es, k, hz))
    ensures forall us :: TrulyLasts(es, k, hz, us) ==> us == Width(es, k, hz)
  {
    hide Width;
    var j :| Begins(es, j, k) && es[k].cycles - es[j].cycles < WORD;
    WidthIsTrue(es, j, k, hz);
    forall us | TrulyLasts(es, k, hz, us) ensures us == Width(es, k, hz) {
      var i :| Begins(es, i, k) && es[i].cycles <= es[k].cycles && us == TrueMicros(es[i].cycles, es[k].cycles, hz);
      OneBegin(es, i, j, k);
    }
  }

  /** Why a rising edge must come first: a falling edge with none before it is measured from the
      start of the counter, and 1.5 ms after it stores a pulse that never was. */
  lemma FirstFallIsTaken(uptime: int)
    ensures var es := [Edge(false, 1500, uptime)];
            Latest(es, 1000000) == Some(0) && Width(es, 0, 1000000) == 1500 && forall us :: !TrulyLasts(es, 0, 1000000, us)
  {
    assert [Edge(false, 1500, uptime)][..0] == [];
    assert Elapsed(0, 1500) == 1500 && Micros(1500, 1000000) == 1500;
  }

  // ---------------------------------------------------------------- the receiver

  /** What the fields of a channel say about its edges. */
  predicate Measures(es: seq<Edge>, hz: nat, rise: nat, pulse: nat, stamp: int)
    requires hz > 0
  {
    && Ordered(es) && rise == Rise(es) % WORD
    && match Latest(es, hz)
       case None => pulse == 1500 && stamp == 0
       case Some(k) => pulse == Width(es, k, hz) && stamp == es[k].uptime
  }

  class Receiver {
    const hz: nat                               // cycle counter frequency
    const riseCycles: array<nat>
    const pulseUs: array<nat>
    const lastUpdateMs: array<int>
    const emaState: array<real>
    const emaInitialized: array<bool>
    ghost var edges: seq<seq<Edge>>             // every edge of each channel so far

    /** The fields are what the edges so far make of them. */
    ghost predicate Valid()
      reads this, riseCycles, pulseUs, lastUpdateMs
    {
      && hz > 0 && riseCycles != pulseUs && |edges| == RC_CH_COUNT
      && riseCycles.Length == pulseUs.Length == lastUpdateMs.Length == RC_CH_COUNT
      && emaState.Length == emaInitialized.Length == RC_CH_COUNT
      && forall i: nat :: i < RC_CH_COUNT ==> Measures(edges[i], hz, riseCycles[i], pulseUs[i], lastUpdateMs[i])
    }

    ghost function Held(i: nat): Option<real>
      reads emaState, emaInitialized
      requires i < emaState.Length && i < emaInitialized.Length
    { if emaInitialized[i] then Some(emaState[i]) else None }

    constructor (hz: nat)
      requires hz > 0
      ensures Valid() && this.hz == hz && edges == seq(RC_CH_COUNT, _ => [])
      ensures forall i: nat :: i < RC_CH_COUNT ==> Held(i) == None
      ensures fresh(riseCycles) && fresh(pulseUs) && fresh(lastUpdateMs) && fresh(emaState) && fresh(emaInitialized)
    {
      assert 0 % WORD == 0;
      this.hz := hz;
      riseCycles := new nat[RC_CH_COUNT](_ => 0);
      pulseUs := new nat[RC_CH_COUNT](_ => 1500);
      lastUpdateMs := new int[RC_CH_COUNT](_ => 0);
      emaState := new real[RC_CH_COUNT](_ => 0.0);
      emaInitialized := new bool[RC_CH_COUNT](_ => false);
      edges := seq(RC_CH_COUNT, _ => []);
    }

    /** Every stored pulse is a plausible one. */
    lemma StoredIsPlausible(i: nat)
      requires Valid() && i < RC_CH_COUNT
      ensures Pulse(pulseUs[i])
    {
      LatestIs(edges[i], hz);
    }

    /** One edge of channel i at an unwrapped cycle count, the pin high after a rising one. */
    method PwmIsr(i: nat, high: bool, cycles: nat, uptime: int)
      requires Valid() && i < RC_CH_COUNT
      requires forall e :: e in edges[i] ==> e.cycles <= cycles
      modifies this, riseCycles, pulseUs, lastUpdateMs
      ensures Valid() && edges == old(edges)[i := old(edges)[i] + [Edge(high, cycles, uptime)]]
      ensures var us := TrueMicros(Rise(old(edges)[i]), cycles, hz);
              !high && hz >= 1000000 && cycles - Rise(old(edges)[i]) < WORD && Pulse(us) ==>
                pulseUs[i] == us && lastUpdateMs[i] == uptime
    {
      hide Micros, Elapsed, Rise, Latest, Counts, Ordered, Measures;
      var now := cycles % WORD;
      ghost var es := edges[i];
      RiseIsPast(es, cycles);
      NextMeasures(es, Edge(high, cycles, uptime), hz, riseCycles[i], pulseUs[i], lastUpdateMs[i]);
      if high {
        riseCycles[i] := now;
      } else {
        var elapsed := (now + WORD - riseCycles[i]) % WORD;
        ElapsedIs(es, hz, riseCycles[i], pulseUs[i], lastUpdateMs[i], cycles);
        var us := Micros(elapsed, hz);
        TakenIsTrue(Rise(es), cycles, hz);
        if us >= RC_PWM_MIN_US && us <= RC_PWM_MAX_US {
          pulseUs[i] := us;
          lastUpdateMs[i] := uptime;
        }
      }
      edges := edges[i := es + [Edge(high, cycles, uptime)]];
    }

    /** Valid for less than 500 ms after the latest edge that ended a plausible pulse, and for less
        than 500 ms after the start as long as there was none. */
    method RcPwmValid(i: nat, uptime: int) returns (ok: bool)
      requires Valid() && i < RC_CH_COUNT
      ensures ok <==> match Latest(edges[i], hz)
                      case None => uptime < RC_PWM_TIMEOUT_MS
                      case Some(k) => uptime < edges[i][k].uptime + RC_PWM_TIMEOUT_MS
      ensures ok <==> uptime - lastUpdateMs[i] < RC_PWM_TIMEOUT_MS
    {
      ok := uptime - lastUpdateMs[i] < RC_PWM_TIMEOUT_MS;
    }

    /** What channel i reads as, and how that moves its filter. */
    method RcNormalize(i: nat, uptime: int, trim: RcTrim) returns (r: real)
      requires Valid() && i < RC_CH_COUNT == |trim.ch|
      modifies emaState, emaInitialized
      ensures Valid() && forall j: nat :: j < RC_CH_COUNT && j != i ==> Held(j) == old(Held(j))
      ensures var x := if uptime - lastUpdateMs[i] < RC_PWM_TIMEOUT_MS
                       then Some(Norm(pulseUs[i], trim.ch[i], trim.deadzone)) else None;
              (Held(i), r) == Filter(trim.emaAlpha, old(Held(i)), x)
      ensures if uptime - lastUpdateMs[i] >= RC_PWM_TIMEOUT_MS then r == 0.0 && Held(i) == None
              else if trim.emaAlpha < 1.0 then Held(i) == Some(r)
              else r == Norm(pulseUs[i], trim.ch[i], trim.deadzone) && Held(i) == old(Held(i))
      ensures trim.emaAlpha >= 0.0 && old(Within(-1.0, 1.0, Held(i))) ==> Within(-1.0, 1.0, Held(i)) && -1.0 <= r <= 1.0
    {
      hide Norm, Mix, Pow;
      var ok := RcPwmValid(i, uptime);
      if !ok {
        emaInitialized[i] := false;
        return 0.0;
      }
      var norm := Normalize(pulseUs[i], trim.ch[i], trim.deadzone);
      var alpha := trim.emaAlpha;
      if alpha >= 1.0 { return norm; }
      if !emaInitialized[i] {
        emaState[i] := norm;
        emaInitialized[i] := true;
        return norm;
      }
      if alpha >= 0.0 && -1.0 <= emaState[i] <= 1.0 { Blend(alpha, norm, emaState[i], -1.0, 1.0); }
      emaState[i] := Mix(alpha, norm, emaState[i]);
      r := emaState[i];
    }
  }

  /** A receiver that sees the edges es on channel i, from its start on: over every measurable run it
      ends up with the true width of the latest pulse in range, and the time of its end. */
  method Capture(hz: nat, i: nat, es: seq<Edge>) returns (r: Receiver)
    requires hz >= 1000000 && i < RC_CH_COUNT && Ordered(es) && Measurable(es)
    ensures fresh(r) && r.Valid() && r.hz == hz && r.edges[i] == es
    ensures match Latest(es, hz)
            case None => r.pulseUs[i] == 1500 && r.lastUpdateMs[i] == 0
                         && forall k: nat, us: nat :: k < |es| && TrulyLasts(es, k, hz, us) ==> !Pulse(us)
            case Some(k) => Pulse(r.pulseUs[i]) && TrulyLasts(es, k, hz, r.pulseUs[i]) && r.lastUpdateMs[i] == es[k].uptime
                            && forall m: nat, us: nat :: k < m < |es| && TrulyLasts(es, m, hz, us) ==> !Pulse(us)
  {
    hide Latest, Width, Measurable, TrulyLasts, Pulse;
    r := new Receiver(hz);
    for n := 0 to |es|
      invariant r.Valid() && r.hz == hz && r.edges[i] == es[..n] && fresh(r)
      invariant fresh(r.riseCycles) && fresh(r.pulseUs) && fresh(r.lastUpdateMs)
    {
      assert forall e :: e in es[..n] ==> e.cycles <= es[n].cycles;
      r.PwmIsr(i, es[n].high, es[n].cycles, es[n].uptime);
      assert es[..n + 1] == es[..n] + [es[n]];
    }
    assert es[..|es|] == es;
    StoredIsTrue(es, hz);
  }

  method Normalize(raw: nat, t: TrimCh, dz: nat) returns (norm: real)
    ensures norm == Norm(raw, t, dz)
  {
    var centered := I16(I16(raw) - I16(t.center));
    if Magnitude(centered) < I16(dz) { centered := 0; }
    if centered > 0 {
      var range := U16(t.max - t.center);
      norm := if range > 0 then centered as real / range as real else 0.0;
    } else if centered < 0 {
      var range := U16(t.center - t.min);
      norm := if range > 0 then centered as real / range as real else 0.0;
    } else {
      norm := 0.0;
    }
    if norm > 1.0 { norm := 1.0; } else if norm < -1.0 { norm := -1.0; }
  }

  /** What one more edge changes. */
  lemma OneMoreEdge(es: seq<Edge>, e: Edge, hz: nat)
    requires Ordered(es) && hz > 0 && forall x :: x in es ==> x.cycles <= e.cycles
    ensures var more := es + [e];
            && Ordered(more) && Rise(more) == (if e.high then e.cycles else Rise(es))
            && Width(more, |es|, hz) == Micros(Elapsed(Rise(es), e.cycles), hz)
            && Latest(more, hz) == (if !e.high && Pulse(Width(more, |es|, hz)) then Some(|es|) else Latest(es, hz))
            && (forall k :: 0 <= k < |es| ==> Width(more, k, hz) == Width(es, k, hz) && more[k] == es[k])
  {
    hide Micros, Elapsed, Pulse, Width, Ordered;
    var more := es + [e];
    assert more[..|es|] == es;
    StillOrdered(es, e);
    SameWidths(es, e, hz);
  }

  lemma StillOrdered(es: seq<Edge>, e: Edge)
    requires Ordered(es) && forall x :: x in es ==> x.cycles <= e.cycles
    ensures Ordered(es + [e])
  {
    assert forall k :: 0 <= k < |es| ==> es[k] in es;
  }

  lemma SameWidths(es: seq<Edge>, e: Edge, hz: nat)
    requires hz > 0
    ensures forall k :: 0 <= k < |es| ==> Width(es + [e], k, hz) == Width(es, k, hz)
    ensures Width(es + [e], |es|, hz) == Micros(Elapsed(Rise(es), e.cycles), hz)
  {
    hide Micros, Elapsed, Rise;
    assert forall k :: 0 <= k <= |es| ==> (es + [e])[..k] == es[..k];
    assert es[..|es|] == es;
  }

  lemma ElapsedIs(es: seq<Edge>, hz: nat, rise: nat, pulse: nat, stamp: int, cycles: nat)
    requires hz > 0 && Measures(es, hz, rise, pulse, stamp)
    ensures rise < WORD && (cycles % WORD + WORD - rise) % WORD == Elapsed(Rise(es), cycles)
  {
    hide Latest, Width, Rise;
  }

  /** The handler keeps the fields true to the edges. */
  lemma NextMeasures(es: seq<Edge>, e: Edge, hz: nat, rise: nat, pulse: nat, stamp: int)
    requires hz > 0 && Measures(es, hz, rise, pulse, stamp) && forall x :: x in es ==> x.cycles <= e.cycles
    ensures e.high ==> Measures(es + [e], hz, e.cycles % WORD, pulse, stamp)
    ensures !e.high ==>
              var us := Micros(Elapsed(Rise(es), e.cycles), hz);
              if Pulse(us) then Measures(es + [e], hz, rise, us, e.uptime) else Measures(es + [e], hz, rise, pulse, stamp)
  {
    hide Micros, Elapsed, Rise, Ordered, Pulse, Width, Latest;
    OneMoreEdge(es, e, hz);
  }

  lemma {:induction false} RiseIsPast(es: seq<Edge>, cycles: nat)
    requires forall e :: e in es ==> e.cycles <= cycles
    ensures Rise(es) <= cycles
  {
    if es != [] { RiseIsPast(es[..|es| - 1], cycles); }
  }

  lemma TakenIsTrue(rise: nat, fall: nat, hz: nat)
    requires rise <= fall && hz > 0
    ensures hz >= 1000000 && fall - rise < WORD ==> Micros(Elapsed(rise, fall), hz) == TrueMicros(rise, fall, hz)
  {
    hide Micros, Elapsed;
    ElapsedIsTrue(rise, fall);
    if hz >= 1000000 && fall - rise < WORD { MicrosIsTrue(fall - rise, hz); }
  }
}
