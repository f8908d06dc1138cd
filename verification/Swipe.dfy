/** Swipes between workspaces (input/swipe_tracker.c), over exact reals: the rubber band,
    the choice of a target, and the samples that the velocity is computed from. */
module Swipe {
  import opened Options
  import opened Reals

  /** Stands for DBL_MAX / 10, the distance from which on the rubber band is flat. Nothing
      below depends on how large it is. */
  type Huge = r: real | r > 0.0 witness 1.0

  // ----- The rubber band -----------------------------------------------------------------------

  function WithSign(magnitude: real, sign: real): real {
    if sign >= 0.0 then magnitude else -magnitude
  }

  /** How far past the edge a position at that distance from it is shown. */
  function Band(distance: real, huge: Huge): real
    requires distance >= 0.0
  {
    if distance >= huge then 0.05 else 0.05 * (1.0 - 1.0 / (1.0 + distance * 10.0))
  }

  /** leme_swipe_position. */
  function Position(raw: real, center: real, huge: Huge): real {
    var lo, hi := center - 1.0, center + 1.0;
    if lo <= raw <= hi then raw
    else
      var edge := if raw < lo then lo else hi;
      edge + WithSign(Band(Abs(raw - edge), huge), raw - edge)
  }

  /** leme_swipe_position_derivative. */
  function Derivative(raw: real, center: real, huge: Huge): real {
    var lo, hi := center - 1.0, center + 1.0;
    if lo <= raw <= hi then 1.0
    else
      var distance := Abs(raw - if raw < lo then lo else hi);
      if distance >= huge then 0.0 else Slope(distance)
  }

  function Slope(distance: real): real
    requires distance >= 0.0
  {
    var denominator := 1.0 + distance * 10.0;
    (0.5 / denominator) / denominator
  }

  lemma Inverse(x: real)
    requires x >= 1.0
    ensures 0.0 < 1.0 / x <= 1.0 && x * (1.0 / x) == 1.0
  {
  }

  lemma DerivativeInUnit(raw: real, center: real, huge: Huge)
    ensures 0.0 <= Derivative(raw, center, huge) <= 1.0
  {
    var lo, hi := center - 1.0, center + 1.0;
    if !(lo <= raw <= hi) {
      var x := 1.0 + Abs(raw - if raw < lo then lo else hi) * 10.0;
      Inverse(x);
      assert (0.5 / x) / x == 0.5 * (1.0 / x) * (1.0 / x);
      Product(1.0 / x, 1.0 / x);
      Product(1.0 / x, 1.0 - 1.0 / x);
    }
  }

  lemma InverseFalls(x: real, y: real)
    requires 1.0 <= x <= y
    ensures 1.0 / y <= 1.0 / x
  {
    Inverse(x);
    Inverse(y);
    var i, j := 1.0 / x, 1.0 / y;
    assert i - j == (y - x) * i * j by { Cross(x, y, i, j); }
    Product(y - x, i);
    Product((y - x) * i, j);
  }

  /** For the inverses i of x and j of y. */
  lemma Cross(x: real, y: real, i: real, j: real)
    requires x * i == 1.0 && y * j == 1.0
    ensures i - j == (y - x) * i * j
  {
    assert (y - x) * i * j == i * (y * j) - j * (x * i);
  }

  lemma BandRises(d: real, e: real, huge: Huge)
    requires 0.0 <= d <= e
    ensures 0.0 <= Band(d, huge) <= Band(e, huge) <= 0.05
  {
    Inverse(1.0 + d * 10.0);
    Inverse(1.0 + e * 10.0);
    InverseFalls(1.0 + d * 10.0, 1.0 + e * 10.0);
  }

  /** The position shown is the raw one up to a distance of one, and never more than
      1.05 from the centre. */
  lemma PositionIsBounded(raw: real, center: real, huge: Huge)
    ensures Abs(raw - center) <= 1.0 ==> Position(raw, center, huge) == raw
    ensures Abs(raw - center) > 1.0 ==> 1.0 <= Abs(Position(raw, center, huge) - center) <= 1.05
  {
    var lo, hi := center - 1.0, center + 1.0;
    if raw < lo {
      BandRises(0.0, lo - raw, huge);
    } else if raw > hi {
      BandRises(0.0, raw - hi, huge);
    }
  }

  /** Past the edge the band gives way, less and less, towards 0.05: at a distance d it
      is stretched by d / (2 + 20 d). */
  lemma PositionGivesWay(raw: real, center: real, huge: Huge)
    ensures var d, stretch := raw - (center + 1.0), Position(raw, center, huge) - (center + 1.0);
      && (0.0 < d < huge ==> 0.0 < stretch && stretch * (2.0 + 20.0 * d) == d)
      && (d >= huge ==> stretch == 0.05)
  {
    var d := raw - (center + 1.0);
    if 0.0 < d < huge {
      var x := 1.0 + d * 10.0;
      Inverse(x);
      var i := 1.0 / x;
      assert x * i == 1.0;
      assert (0.05 - 0.05 * i) * (2.0 * x) == 0.1 * x - 0.1 * (x * i);
      Positive(d * 10.0, i);
      assert x * i == i + d * 10.0 * i;
    }
  }

  lemma PositionIsOdd(x: real, center: real, huge: Huge)
    ensures Position(center + x, center, huge) - center == -(Position(center - x, center, huge) - center)
  {
  }

  lemma PositionRises(u: real, v: real, center: real, huge: Huge)
    requires u <= v
    ensures Position(u, center, huge) <= Position(v, center, huge)
  {
    var lo, hi := center - 1.0, center + 1.0;
    PositionIsBounded(u, center, huge);
    PositionIsBounded(v, center, huge);
    if v < lo {
      BandRises(lo - v, lo - u, huge);
    } else if u > hi {
      BandRises(u - hi, v - hi, huge);
    }
  }

  /** Between two distances the band grows by the geometric mean of the two slopes. */
  lemma BandSecant(d: real, e: real, huge: Huge)
    requires 0.0 <= d <= e < huge
    ensures Slope(e) * (e - d) <= Band(e, huge) - Band(d, huge) <= Slope(d) * (e - d)
  {
    var x, y := 1.0 + d * 10.0, 1.0 + e * 10.0;
    Inverse(x);
    Inverse(y);
    var i, j := 1.0 / x, 1.0 / y;
    InverseFalls(x, y);
    Cross(x, y, i, j);
    var w := e - d;
    assert Band(e, huge) - Band(d, huge) == 0.05 * (i - j);
    assert i - j == 10.0 * (w * (i * j));
    assert Slope(d) == 0.5 * (i * i) && Slope(e) == 0.5 * (j * j);
    Ordered(w, i, j);
  }

  lemma Ordered(w: real, i: real, j: real)
    requires 0.0 <= w && 0.0 <= j <= i
    ensures w * (j * j) <= w * (i * j) <= w * (i * i)
  {
    Product(j, i - j);
    Product(i, i - j);
    Product(w, j * (i - j));
    Product(w, i * (i - j));
    assert i * j - j * j == j * (i - j) && i * i - i * j == i * (i - j);
  }

  /** On the same side of an edge. */
  predicate SamePastEdge(u: real, v: real, center: real, huge: Huge) {
    || (u <= v < center - 1.0 && center - 1.0 - u < huge)
    || (center + 1.0 < u <= v && v - center - 1.0 < huge)
  }

  /** The growth r over a width w, between the slopes p and q in either order. */
  predicate Between(p: real, q: real, w: real, r: real) {
    (if p < q then p else q) * w <= r <= (if p < q then q else p) * w
  }

  lemma Ends(p: real, q: real, w: real, r: real)
    requires 0.0 <= w && p * w <= r <= q * w
    ensures Between(p, q, w, r) && Between(q, p, w, r)
  {
    if q < p {
      Product(p - q, w);
      assert (p - q) * w == p * w - q * w;
    }
  }

  lemma SecantAbove(u: real, v: real, center: real, huge: Huge)
    requires center + 1.0 < u <= v && v - center - 1.0 < huge
    ensures Between(Derivative(u, center, huge), Derivative(v, center, huge), v - u,
                    Position(v, center, huge) - Position(u, center, huge))
  {
    var d, e := u - (center + 1.0), v - (center + 1.0);
    BandSecant(d, e, huge);
    Ends(Slope(e), Slope(d), e - d, Band(e, huge) - Band(d, huge));
    assert e - d == v - u;
    assert Derivative(u, center, huge) == Slope(d) && Derivative(v, center, huge) == Slope(e);
    assert Position(v, center, huge) - Position(u, center, huge) == Band(e, huge) - Band(d, huge);
  }

  lemma SecantBelow(u: real, v: real, center: real, huge: Huge)
    requires u <= v < center - 1.0 && center - 1.0 - u < huge
    ensures Between(Derivative(u, center, huge), Derivative(v, center, huge), v - u,
                    Position(v, center, huge) - Position(u, center, huge))
  {
    var d, e := center - 1.0 - v, center - 1.0 - u;
    BandSecant(d, e, huge);
    Ends(Slope(e), Slope(d), e - d, Band(e, huge) - Band(d, huge));
    assert e - d == v - u;
    assert Derivative(v, center, huge) == Slope(d) && Derivative(u, center, huge) == Slope(e);
    assert Position(v, center, huge) - Position(u, center, huge) == Band(e, huge) - Band(d, huge);
  }

  /** The derivative is one: secants of the rubber band lie between the derivatives at
      their two ends. */
  lemma SecantIsBetween(u: real, v: real, center: real, huge: Huge)
    requires SamePastEdge(u, v, center, huge)
    ensures Between(Derivative(u, center, huge), Derivative(v, center, huge), v - u,
                    Position(v, center, huge) - Position(u, center, huge))
  {
    if v < center - 1.0 {
      SecantBelow(u, v, center, huge);
    } else {
      SecantAbove(u, v, center, huge);
    }
  }

  // ----- Targets ------------------------------------------------------------------------------------

  /** leme_swipe_target. */
  function Target(projected: real, center: real, threshold: real): real {
    if threshold <= 0.0 || threshold >= 1.0 then center
    else if projected >= center + threshold then center + 1.0
    else if projected <= center - threshold then center - 1.0
    else center
  }

  /** A swipe leaves its workspace exactly when it is projected a threshold away from it,
      and then for the neighbour on that side. */
  predicate Leaves(projected: real, center: real, threshold: real, target: real) {
    if threshold <= 0.0 || threshold >= 1.0 then target == center
    else
      && (target != center <==> Abs(projected - center) >= threshold)
      && (target != center ==> target == if projected > center then center + 1.0 else center - 1.0)
  }

  lemma TargetLeaves(projected: real, center: real, threshold: real)
    ensures Leaves(projected, center, threshold, Target(projected, center, threshold))
  {
  }

  /** With one half as the threshold no position that it could go to is nearer. */
  lemma TargetIsNearest(projected: real, center: real, other: real)
    requires other == center - 1.0 || other == center || other == center + 1.0
    ensures Abs(Target(projected, center, 0.5) - projected) <= Abs(other - projected)
  {
  }

  /** Beyond this doubles do not tell adjacent positions apart. */
  const FAR: real := 4503599627370494.0

  /** leme_swipe_continuous_target; None for the NaN of the source. */
  function ContinuousTarget(projected: real, threshold: real, forward: bool): Option<real> {
    if Abs(projected) > FAR || threshold <= 0.0 || threshold >= 1.0 then None
    else
      var base := projected.Floor as real;
      Some(if projected == base then base
           else if forward then if projected >= base + threshold then base + 1.0 else base
           else if projected <= base + 1.0 - threshold then base else base + 1.0)
  }

  predicate Whole(x: real) { x == x.Floor as real }

  /** The one whole position that is less than the threshold behind the projection, or
      what the threshold leaves to one ahead of it. */
  predicate Lands(projected: real, threshold: real, forward: bool, target: real) {
    && Whole(target)
    && if forward then -threshold < target - projected <= 1.0 - threshold
       else -(1.0 - threshold) <= target - projected < threshold
  }

  /** A continuous swipe moves on to the next position once it is a threshold past the
      last one, in its own direction. */
  lemma ContinuousTargetLands(projected: real, threshold: real, forward: bool)
    ensures var t := ContinuousTarget(projected, threshold, forward);
      && (t.None? <==> Abs(projected) > FAR || threshold <= 0.0 || threshold >= 1.0)
      && (t.Some? ==> Lands(projected, threshold, forward, t.value))
  {
    var base := projected.Floor;
    assert ((base + 1) as real).Floor == base + 1;
  }

  lemma LandsOnce(projected: real, threshold: real, forward: bool, t: real, u: real)
    requires Lands(projected, threshold, forward, t) && Lands(projected, threshold, forward, u)
    ensures t == u
  {
    assert (t.Floor - u.Floor) as real == t - u;
  }

  /** The target is a workspace less than one away, and where the swipe already is if it
      is on one. */
  lemma ContinuousTargetIsNear(projected: real, threshold: real, forward: bool)
    ensures var t := ContinuousTarget(projected, threshold, forward);
      t.Some? ==> Whole(t.value) && Abs(t.value - projected) < 1.0 && (Whole(projected) ==> t.value == projected)
  {
    var base := projected.Floor;
    assert ((base + 1) as real).Floor == base + 1;
  }

  predicate NoLess(t: Option<real>, u: Option<real>) {
    t.Some? && u.Some? ==> t.value <= u.value
  }

  /** Swiping further leads no less far: `f` and `g` say whether the two swipes lead
      forward, and they may differ as long as the threshold is at most one half. */
  lemma ContinuousTargetRises(p: real, q: real, threshold: real, f: bool, g: bool)
    requires p <= q && (f ==> g) && (f == g || threshold <= 0.5)
    ensures NoLess(ContinuousTarget(p, threshold, f), ContinuousTarget(q, threshold, g))
  {
    assert p.Floor <= q.Floor;
  }

  /** Where a free swipe that started at `initial` leads. */
  function Landing(initial: real, projected: real, threshold: real): Option<real> {
    ContinuousTarget(projected, threshold, projected >= initial)
  }

  /** With a larger threshold it can lead less far: between 1 - threshold and
      threshold a swipe back stays at the upper workspace, one forward at the lower. */
  lemma LandingCanFall(threshold: real) returns (p: real)
    requires 0.5 < threshold < 1.0
    ensures p <= 0.5 && Landing(0.5, p, threshold) == Some(1.0) && Landing(0.5, 0.5, threshold) == Some(0.0)
  {
    p := 0.75 - threshold * 0.5;
    assert 1.0 - threshold < p < 0.5;
    assert p.Floor == 0 && (0.5).Floor == 0;
  }

  /** So of the thresholds that a configuration may have, it is exactly those up to
      one half, the default, with which swiping further never leads less far. */
  lemma LandingRisesExactly(threshold: real)
    requires 0.0 < threshold < 1.0
    ensures (forall initial: real, p: real, q: real ::
        p <= q ==> NoLess(Landing(initial, p, threshold), Landing(initial, q, threshold))) <==> threshold <= 0.5
  {
    if threshold <= 0.5 {
      forall initial: real, p: real, q: real | p <= q
        ensures NoLess(Landing(initial, p, threshold), Landing(initial, q, threshold))
      {
        ContinuousTargetRises(p, q, threshold, p >= initial, q >= initial);
      }
    } else {
      var p := LandingCanFall(threshold);
      assert !NoLess(Landing(0.5, p, threshold), Landing(0.5, 0.5, threshold));
    }
  }

  lemma TargetRises(p: real, q: real, center: real, threshold: real)
    requires p <= q
    ensures Target(p, center, threshold) <= Target(q, center, threshold)
  {
  }

  function Ceiling(x: real): int { -(-x).Floor }

  function Clamp(low: real, x: real, high: real): real {
    var capped := if x < high then x else high;
    if low > capped then low else capped
  }

  lemma ClampRises(low: real, p: real, q: real, high: real)
    requires p <= q
    ensures Clamp(low, p, high) <= Clamp(low, q, high)
  {
  }

  /** A scrub ends at one of the two workspaces it is shown between. */
  lemma ScrubTargets(projected: real, visual: real, threshold: real, forward: bool)
    ensures var low, high := visual.Floor as real, Ceiling(visual) as real;
      var t := ContinuousTarget(Clamp(low, projected, high), threshold, forward);
      t.Some? ==> t.value == low || t.value == high
  {
    var low, high := visual.Floor, Ceiling(visual);
    assert high == low || high == low + 1;
    assert (low as real).Floor == low && (high as real).Floor == high;
    var x := Clamp(low as real, projected, high as real);
    assert x.Floor == low || x == high as real;
  }

  // ----- Samples ---------------------------------------------------------------------------------------

  const CAP: nat := 32
  const WORD: nat := 0x1_0000_0000
  const INT32_MAX: nat := 0x7FFF_FFFF

  type Uint32 = n: nat | n < WORD

  datatype Sample = Sample(delta: real, time: Uint32)

  /** Unsigned subtraction. */
  function Age(s: Sample, now: Uint32): Uint32 {
    (now - s.time) % WORD
  }

  /** Whether a sample counts: not from the future, and not before the window. */
  predicate Counts(s: Sample, now: Uint32, window: nat) {
    Age(s, now) <= INT32_MAX && Age(s, now) <= window
  }

  /** What the loop over the samples adds up. */
  datatype Sums = Sums(total: real, youngest: Uint32, oldest: Uint32, count: nat) {
    function Plus(other: Sums): Sums {
      Sums(total + other.total, if other.youngest < youngest then other.youngest else youngest,
           if other.oldest > oldest then other.oldest else oldest, count + other.count)
    }

    function Velocity(): real {
      if count < 2 || oldest <= youngest then 0.0 else total / (oldest - youngest) as real * 1000.0
    }
  }

  const NOTHING := Sums(0.0, WORD - 1, 0, 0)

  function Sum(samples: seq<Sample>, now: Uint32, window: nat): Sums {
    if samples == [] then NOTHING
    else
      var rest := Sum(samples[..|samples| - 1], now, window);
      var last := samples[|samples| - 1];
      if Counts(last, now, window) then rest.Plus(Sums(last.delta, Age(last, now), Age(last, now), 1)) else rest
  }

  lemma {:induction false} SumConcat(a: seq<Sample>, b: seq<Sample>, now: Uint32, window: nat)
    ensures Sum(a + b, now, window) == Sum(a, now, window).Plus(Sum(b, now, window))
    decreases |b|
  {
    if b == [] {
      assert a + b == a;
    } else {
      var front := b[..|b| - 1];
      assert (a + b)[..|a + b| - 1] == a + front;
      SumConcat(a, front, now, window);
    }
  }

  /** The order of two parts does not matter. */
  lemma SumSwapped(a: seq<Sample>, b: seq<Sample>, now: Uint32, window: nat)
    ensures Sum(a + b, now, window) == Sum(b + a, now, window)
  {
    SumConcat(a, b, now, window);
    SumConcat(b, a, now, window);
  }

  /** The samples that count. */
  function Counted(samples: seq<Sample>, now: Uint32, window: nat): (r: seq<Sample>)
    ensures forall s :: s in r <==> s in samples && Counts(s, now, window)
  {
    if samples == [] then []
    else
      var rest, last := Counted(samples[..|samples| - 1], now, window), samples[|samples| - 1];
      if Counts(last, now, window) then rest + [last] else rest
  }

  function Total(samples: seq<Sample>): real {
    if samples == [] then 0.0 else Total(samples[..|samples| - 1]) + samples[|samples| - 1].delta
  }

  lemma TotalPush(samples: seq<Sample>, s: Sample)
    ensures Total(samples + [s]) == Total(samples) + s.delta
  {
    assert (samples + [s])[..|samples|] == samples;
  }

  /** The sums are about the samples that count: their number, the way they went, and the
      ages of the youngest and the oldest. */
  lemma {:induction false} SumIsOfCounted(samples: seq<Sample>, now: Uint32, window: nat)
    ensures var s, c := Sum(samples, now, window), Counted(samples, now, window);
      && s.count == |c| && s.total == Total(c)
      && (forall e :: e in c ==> s.youngest <= Age(e, now) <= s.oldest)
      && (c != [] ==> (exists e :: e in c && Age(e, now) == s.youngest))
      && (c != [] ==> (exists e :: e in c && Age(e, now) == s.oldest))
      && (c == [] ==> s == NOTHING)
  {
    if samples != [] {
      var front, last := samples[..|samples| - 1], samples[|samples| - 1];
      SumIsOfCounted(front, now, window);
      var c := Counted(front, now, window);
      TotalPush(c, last);
      if Counts(last, now, window) {
        assert last in c + [last];
      }
    }
  }

  /** The velocity is the way gone per second between the youngest and the oldest sample,
      in the direction of that way. */
  lemma VelocityIsPerSecond(s: Sums)
    ensures s.count >= 2 && s.youngest < s.oldest ==>
      && s.Velocity() * ((s.oldest - s.youngest) as real / 1000.0) == s.total
      && (s.Velocity() > 0.0 <==> s.total > 0.0) && (s.Velocity() < 0.0 <==> s.total < 0.0)
    ensures s.count < 2 || s.youngest == s.oldest ==> s.Velocity() == 0.0
  {
    if s.count >= 2 && s.youngest < s.oldest {
      var d := (s.oldest - s.youngest) as real;
      var q := s.total / d;
      assert q * d == s.total;
      if q > 0.0 {
        Positive(q, d);
      } else {
        Positive(-q, d);
        assert -q * d == -s.total;
      }
    }
  }

  /** The clock may wrap around: a sample counts exactly when it was taken in the window
      before now, as long as the two times are less than half a turn apart. */
  lemma CountsInWindow(delta: real, taken: nat, now: nat, window: nat)
    requires -(INT32_MAX as int) <= now - taken <= INT32_MAX
    ensures Counts(Sample(delta, taken % WORD), now % WORD, window) <==> 0 <= now - taken <= window
  {
    Turns(taken, now);
  }

  lemma Turns(a: nat, b: nat)
    ensures (b % WORD - a % WORD) % WORD == (b - a) % WORD
  {
    var n := b / WORD - a / WORD;
    assert b - a == b % WORD - a % WORD + n * WORD;
    WholeTurns(b % WORD - a % WORD, n);
  }

  lemma WholeTurns(x: int, n: int)
    ensures (x + n * WORD) % WORD == x % WORD
  {
  }

  /** The newest samples, as many as fit. */
  function Recent(history: seq<Sample>): (r: seq<Sample>)
    ensures |r| == if |history| <= CAP then |history| else CAP
  {
    if |history| <= CAP then history else history[|history| - CAP..]
  }

  /** One more sample: it overwrites the oldest of a full ring. */
  lemma PushTurns(older: seq<Sample>, newer: seq<Sample>, s: Sample)
    ensures older == [] ==> (newer + older) + [s] == newer + [s]
    ensures older != [] ==> (newer + older)[|newer| := s] == (newer + [s]) + older[1..]
    ensures older != [] ==> (older + newer)[1..] + [s] == older[1..] + (newer + [s])
  {
  }

  lemma PushRecent(history: seq<Sample>, s: Sample)
    ensures Recent(history + [s]) == if |history| < CAP then Recent(history) + [s] else Recent(history)[1..] + [s]
  {
  }

  class Tracker {
    const samples: array<Sample>
    var count: nat
    var head: nat
    var window: nat
    /** Everything pushed since the last reset. */
    ghost var history: seq<Sample>
    /** The newest samples in two parts: what was written since the head was last at the
        start of the ring, and what is still there from the round before. */
    ghost var newer: seq<Sample>
    ghost var older: seq<Sample>

    ghost predicate Valid()
      reads this, samples
    {
      && samples.Length == CAP && count == |older| + |newer| && head == |newer| < CAP
      && (older == [] || count == CAP)
      && samples[..count] == newer + older && Recent(history) == older + newer
    }

    constructor (window: Uint32)
      ensures Valid() && history == [] && fresh(samples) && this.window == if window > 0 then window else 150
    {
      samples := new Sample[CAP](_ => Sample(0.0, 0));
      count, head, history, newer, older := 0, 0, [], [], [];
      this.window := if window > 0 then window else 150;
    }

    /** leme_swipe_tracker_reset. */
    method Reset()
      requires Valid()
      modifies this`count, this`head, this`history, this`newer, this`older
      ensures Valid() && history == []
    {
      count, head, history, newer, older := 0, 0, [], [], [];
    }

    /** leme_swipe_tracker_push: the oldest sample makes room. */
    method Push(delta: real, time: Uint32)
      requires Valid()
      modifies this`count, this`head, this`history, this`newer, this`older, samples
      ensures Valid() && history == old(history) + [Sample(delta, time)]
    {
      var s := Sample(delta, time);
      PushTurns(older, newer, s);
      PushRecent(history, s);
      samples[head] := s;
      head := (head + 1) % CAP;
      history, newer := history + [s], newer + [s];
      if count < CAP {
        count := count + 1;
      } else {
        older := older[1..];
      }
      assert samples[..count] == newer + older;
      if head == 0 {
        older, newer := newer, [];
      }
    }

    /** leme_swipe_tracker_velocity: the velocity of the newest samples, wherever the
        ring has put them. */
    method Velocity(now: Uint32) returns (velocity: real)
      requires Valid()
      ensures velocity == Sum(Recent(history), now, window).Velocity()
    {
      if count == 0 {
        return 0.0;
      }
      var total, youngest: Uint32, oldest: Uint32, valid := 0.0, WORD - 1, 0, 0;
      for i := 0 to count
        invariant Sums(total, youngest, oldest, valid) == Sum(samples[..i], now, window)
      {
        var sample := samples[i];
        var age := Age(sample, now);
        assert samples[..i + 1][..i] == samples[..i];
        if age > INT32_MAX {
          continue;
        }
        if age <= window {
          total := total + sample.delta;
          if age < youngest {
            youngest := age;
          }
          if age > oldest {
            oldest := age;
          }
          valid := valid + 1;
        }
      }
      SumSwapped(newer, older, now, window);
      if valid < 2 || oldest <= youngest {
        return 0.0;
      }
      velocity := total / (oldest - youngest) as real * 1000.0;
    }
  }
}
