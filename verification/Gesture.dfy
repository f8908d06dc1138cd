/** The swipe gesture that switches workspaces (input/pointer.c, handle_swipe_*). What the
    focused output, a running transition and the velocity contribute is input. */
module Gesture {
  import opened Ints
  import opened Options
  import opened Reals
  import opened Swipe

  const RING_MAX: nat := 65

  datatype Mode = Single | Scrub | Free

  /** The tags of the focused output: the focused one, the position it is shown at, and
      the ring of tags that swiping goes through. */
  datatype Tags = Tags(focused: nat, position: real, ring: seq<nat>)

  /** A transition that is running: where it is, its ring, and whether it accepts the
      range of the gesture. */
  datatype Running = Running(presented: Option<real>, ring: seq<nat>, accepts: bool)

  // ----- Positions on the ring -------------------------------------------------------------------

  /** fmod. */
  function Fmod(x: real, n: real): real
    requires n > 0.0
  {
    x - n * Truncate(x / n) as real
  }

  /** leme_tags_ring_wrap. */
  function RingWrap(position: real, count: nat): real {
    if count <= 1 then 0.0
    else
      var m := Fmod(position, count as real);
      var wrapped := if m < 0.0 then m + count as real else m;
      if wrapped >= count as real then 0.0 else wrapped
  }

  /** For whole positions that is the Euclidean modulo. */
  lemma RingWrapWhole(k: int, n: nat)
    requires n >= 2
    ensures RingWrap(k as real, n) == (k % n) as real
  {
    var m := Turned(k, n);
  }

  /** The remainder of fmod, which has the sign of what is divided. */
  lemma Turned(k: int, n: int) returns (m: int)
    requires n > 0
    ensures Fmod(k as real, n as real) == m as real && -n < m < n
    ensures (m < 0 ==> k % n == m + n) && (m >= 0 ==> k % n == m)
  {
    var q, r := k / n, k % n;
    assert k == n * q + r;
    Quotient(k, n, q, r);
    TruncateSum(q, r as real / n as real);
    if q >= 0 || r == 0 {
      m := r;
      Remains(k, n, q, r);
    } else {
      m := r - n;
      OneMore(n, q);
      Remains(k, n, q + 1, m);
    }
  }

  lemma OneMore(n: int, q: int)
    ensures n * (q + 1) == n * q + n
  {
  }

  lemma TruncateSum(q: int, f: real)
    requires 0.0 <= f < 1.0
    ensures Truncate(q as real + f) == if q >= 0 || f == 0.0 then q else q + 1
  {
    if q < 0 && f > 0.0 {
      assert (-(q as real + f)).Floor == -q - 1;
    }
  }

  lemma Remains(k: int, n: nat, t: int, r: int)
    requires k == n * t + r
    ensures k as real - n as real * t as real == r as real
  {
    assert (n * t) as real == n as real * t as real;
  }

  lemma Quotient(k: int, n: nat, q: int, r: nat)
    requires n > 0 && k == n * q + r && r < n
    ensures var f := r as real / n as real; k as real / n as real == q as real + f && 0.0 <= f < 1.0
    ensures (r == 0) == (r as real / n as real == 0.0)
  {
    var m, f := n as real, r as real / n as real;
    Share(r as real, m);
    DividedBy(k as real, m, q as real + f);
  }

  lemma Share(x: real, m: real)
    requires 0.0 <= x < m
    ensures 0.0 <= x / m < 1.0 && (x == 0.0) == (x / m == 0.0)
  {
    var y := x / m;
    assert y * m == x;
    Positive(y, m);
    Positive(-y, m);
    Positive(y - 1.0, m);
    assert (-y) * m == -x && (y - 1.0) * m == x - m;
  }

  lemma DividedBy(x: real, m: real, y: real)
    requires m > 0.0 && x == m * y
    ensures x / m == y
  {
  }

  lemma ModUnique(i: nat, n: nat, m: int)
    requires i < n
    ensures (i + n * m) % n == i
  {
    var x := i + n * m;
    var d := x / n - m;
    assert x == n * (x / n) + x % n;
    assert n * d == i - x % n;
    assert d >= 1 ==> n * d >= n;
    assert d <= -1 ==> n * d + n <= 0;
  }

  /** Of the positions that are `index` modulo `count` the one nearest to `position`. */
  function Nearest(index: int, count: nat, position: real): int
    requires count > 0
  {
    index + count * Round((position - index as real) / count as real)
  }

  lemma NearestIsNear(index: int, count: nat, position: real)
    requires count > 0
    ensures Abs(Nearest(index, count, position) as real - position) <= count as real / 2.0
  {
    var y, n := (position - index as real) / count as real, count as real;
    var m := Round(y) as real;
    assert y * n == position - index as real;
    assert Nearest(index, count, position) as real - position == (m - y) * n;
    Product(m - y + 0.5, n);
    Product(y - m + 0.5, n);
  }

  lemma NearestIsCongruent(index: int, count: nat, position: real)
    requires count > 0
    ensures Nearest(index, count, position) % count == index % count
  {
    var turns, m := index / count, Round((position - index as real) / count as real);
    assert index == count * turns + index % count;
    assert Nearest(index, count, position) == index % count + count * (turns + m);
    ModUnique(index % count, count, turns + m);
  }

  function IndexIn(ring: seq<nat>, tag: nat): (i: nat)
    ensures i <= |ring| && tag !in ring[..i] && (i < |ring| ==> ring[i] == tag)
  {
    if ring == [] || ring[0] == tag then 0
    else
      var i := 1 + IndexIn(ring[1..], tag);
      assert ring[..i] == [ring[0]] + ring[1..][..i - 1];
      i
  }

  /** The centre for those tags: the copy of the focused one nearest to the position. */
  function CenterOf(tags: Tags): Option<int> {
    var n, index := |tags.ring|, IndexIn(tags.ring, tags.focused);
    if n < 2 || n > RING_MAX || index == n then None else Some(Nearest(index, n, tags.position))
  }

  /** What a gesture starts from: the tags as they are shown, and whether it takes the
      running transition over. */
  function Basis(now: Tags, running: Option<Running>, later: Tags): (Tags, bool) {
    if running.None? then (now, false)
    else if running.value.presented.None? then (Tags(now.focused, later.position, later.ring), false)
    else
      var ring := if 2 <= |running.value.ring| <= RING_MAX then running.value.ring else now.ring;
      (Tags(now.focused, running.value.presented.value, ring), true)
  }

  /** A transition is given up, and the tags taken as they are then, if the gesture does
      not fit it. */
  function Start(mode: Mode, now: Tags, running: Option<Running>, later: Tags): (start: Option<(Tags, bool)>)
    ensures start.Some? ==> CenterOf(start.value.0).Some?
    ensures start.Some? && start.value.1 ==> running.Some? && running.value.accepts
    ensures start.Some? && start.value.1 && mode.Single? ==>
      Abs(start.value.0.position - CenterOf(start.value.0).value as real) <= 1.0
  {
    var (tags, takeover) := Basis(now, running, later);
    var center := CenterOf(tags);
    if center.None? then None
    else if takeover
      && ((mode.Single? && Abs(tags.position - center.value as real) > 1.0) || !running.value.accepts)
    then
      if CenterOf(later).None? then None else Some((later, false))
    else Some((tags, takeover))
  }

  lemma SmallMod(i: nat, n: nat)
    requires i < n
    ensures i % n == i
  {
  }

  lemma MarksWhole(k: int, ring: seq<nat>, tag: nat)
    requires 2 <= |ring| <= RING_MAX && ring[k % |ring|] == tag
    ensures Marks(k as real, ring, tag)
  {
    WholeInt(k);
  }

  /** The centre marks the focused tag, at most half a ring away. */
  lemma CenterMarks(tags: Tags)
    requires CenterOf(tags).Some?
    ensures var center := CenterOf(tags).value as real;
      Marks(center, tags.ring, tags.focused) && Abs(center - tags.position) <= |tags.ring| as real / 2.0
  {
    var n, index := |tags.ring|, IndexIn(tags.ring, tags.focused);
    NearestIsNear(index, n, tags.position);
    NearestIsCongruent(index, n, tags.position);
    SmallMod(index, n);
    MarksWhole(Nearest(index, n, tags.position), tags.ring, tags.focused);
  }

  // ----- Where a gesture ends ------------------------------------------------------------------------

  /** The position that is shown for a raw one. */
  function Shown(mode: Mode, raw: real, center: real, huge: Huge): real {
    if mode.Single? then Position(raw, center, huge) else raw
  }

  /** The target of a cancelled gesture: the initial tag, or its copy nearest to what is
      shown. */
  function CancelTarget(mode: Mode, center: real, ring: seq<nat>, visual: real): real {
    if mode.Single? || |ring| < 2 then center
    else center + |ring| as real * Round((visual - center) / |ring| as real) as real
  }

  /** The target of a finished gesture. */
  function FinishTarget(mode: Mode, center: real, visual: real, projection: real, threshold: real, forward: bool)
    : Option<real>
  {
    match mode
    case Single => Some(Target(projection, center, threshold))
    case Scrub =>
      ContinuousTarget(Clamp(visual.Floor as real, projection, Ceiling(visual) as real), threshold, forward)
    case Free => ContinuousTarget(projection, threshold, forward)
  }

  /** The position is that of the tag on the ring. */
  predicate Marks(position: real, ring: seq<nat>, tag: nat) {
    2 <= |ring| <= RING_MAX && Whole(position) && ring[position.Floor % |ring|] == tag
  }

  lemma WholeInt(k: int)
    ensures Whole(k as real) && (k as real).Floor == k
  {
  }

  /** Wrapping a whole position gives the index of the tag that it marks. */
  lemma WrapMarks(position: real, ring: seq<nat>)
    requires 2 <= |ring| <= RING_MAX && Whole(position)
    ensures var index := RingWrap(position, |ring|).Floor;
      0 <= index < |ring| && Marks(position, ring, ring[index])
  {
    RingWrapWhole(position.Floor, |ring|);
  }

  /** A cancelled gesture goes back to its initial tag, by the shortest way. */
  lemma CancelReturns(mode: Mode, center: real, ring: seq<nat>, tag: nat, visual: real)
    requires Marks(center, ring, tag)
    ensures var target := CancelTarget(mode, center, ring, visual);
      Marks(target, ring, tag) && (!mode.Single? ==> Abs(target - visual) <= |ring| as real / 2.0)
  {
    var c, n := center.Floor, |ring|;
    if !mode.Single? {
      NearestIsNear(c, n, visual);
      NearestIsCongruent(c, n, visual);
      MarksWhole(Nearest(c, n, visual), ring, tag);
      assert CancelTarget(mode, center, ring, visual) == Nearest(c, n, visual) as real;
    }
  }

  /** What each mode promises of the target of a finished gesture. */
  predicate Promised(mode: Mode, center: real, visual: real, projection: real, threshold: real, forward: bool,
      target: real)
  {
    Whole(target) &&
    match mode
    case Single => Leaves(projection, center, threshold, target)
    case Scrub =>
      var low, high := visual.Floor as real, Ceiling(visual) as real;
      && (target == low || target == high)
      && (projection <= low ==> target == low)
      && (projection >= high ==> target == high)
      && (low < projection < high ==> Lands(projection, threshold, forward, target))
    case Free => Lands(projection, threshold, forward, target)
  }

  lemma FinishIsPromised(mode: Mode, center: real, visual: real, projection: real, threshold: real, forward: bool)
    requires Whole(center)
    ensures var target := FinishTarget(mode, center, visual, projection, threshold, forward);
      target.Some? ==> Promised(mode, center, visual, projection, threshold, forward, target.value)
  {
    match mode {
      case Single =>
        TargetLeaves(projection, center, threshold);
        WholeInt(center.Floor - 1);
        WholeInt(center.Floor + 1);
      case Scrub =>
        ScrubTargets(projection, visual, threshold, forward);
        ContinuousTargetLands(Clamp(visual.Floor as real, projection, Ceiling(visual) as real), threshold, forward);
        WholeInt(visual.Floor);
        WholeInt(Ceiling(visual));
      case Free =>
        ContinuousTargetLands(projection, threshold, forward);
    }
  }

  /** The same gesture, released where it is projected further, ends no less far: in
      scrub and free mode as long as both are on the same side of its start, or the
      threshold is at most one half. */
  lemma FinishRises(mode: Mode, initial: real, center: real, visual: real, p: real, q: real, threshold: real)
    requires p <= q
    requires mode.Single? || threshold <= 0.5 || (p >= initial) == (q >= initial)
    ensures NoLess(FinishTarget(mode, center, visual, p, threshold, p >= initial),
                   FinishTarget(mode, center, visual, q, threshold, q >= initial))
  {
    match mode {
      case Single =>
        TargetRises(p, q, center, threshold);
      case Scrub =>
        var low, high := visual.Floor as real, Ceiling(visual) as real;
        ClampRises(low, p, q, high);
        ContinuousTargetRises(Clamp(low, p, high), Clamp(low, q, high), threshold, p >= initial, q >= initial);
      case Free =>
        ContinuousTargetRises(p, q, threshold, p >= initial, q >= initial);
    }
  }

  /** The direction of the change of focus. */
  datatype Direction = Forward | Backward

  /** It leads from the centre to the target, and back to the centre from what is shown
      if that is the target. */
  function Toward(target: real, center: real, visual: real): Direction {
    if target > center then Forward
    else if target < center then Backward
    else if visual >= center then Backward
    else Forward
  }

  lemma TowardLeads(target: real, center: real, visual: real)
    ensures var from := if target != center then center else visual;
      from != target ==> (Toward(target, center, visual).Forward? <==> from < target)
  {
  }

  /** The velocity that the transition settles with, from that of the fingers: the
      rubber band slows it down by its derivative. */
  function ShownVelocity(mode: Mode, speed: real, raw: real, center: real, huge: Huge): real {
    speed * if mode.Single? then Derivative(raw, center, huge) else 1.0
  }

  /** It never exceeds that of the fingers, and never turns around. */
  lemma ShownVelocityIsSlower(mode: Mode, speed: real, raw: real, center: real, huge: Huge)
    ensures var shown := ShownVelocity(mode, speed, raw, center, huge);
      (0.0 <= speed ==> 0.0 <= shown <= speed) && (speed <= 0.0 ==> speed <= shown <= 0.0)
  {
    var k := if mode.Single? then Derivative(raw, center, huge) else 1.0;
    assert 0.0 <= k <= 1.0 by {
      DerivativeInUnit(raw, center, huge);
    }
    Scaled(speed, k);
  }

  lemma Scaled(speed: real, k: real)
    requires 0.0 <= k <= 1.0
    ensures 0.0 <= speed ==> 0.0 <= speed * k <= speed
    ensures speed <= 0.0 ==> speed <= speed * k <= 0.0
  {
    if 0.0 <= speed {
      Product(speed, k);
      Product(speed, 1.0 - k);
    } else {
      Product(-speed, k);
      Product(-speed, 1.0 - k);
    }
  }

  // ----- The gesture ------------------------------------------------------------------------------------

  /** A motion event: how far, the distance of one workspace, whether the output still
      fits and whether a transition could be prepared. */
  datatype Motion = Motion(dx: real, dy: real, distance: real, usable: bool, prepared: bool)

  /** The distance gone, squared. */
  function Gone(x: real, y: real): real { x * x + y * y }

  function Sideways(e: Motion, natural: bool): real {
    if natural then -e.dx else e.dx
  }

  /** A motion in workspaces. */
  function Advance(e: Motion, natural: bool): real
    requires e.distance > 0.0
  {
    Sideways(e, natural) / e.distance
  }

  /** What is shown when the gesture ends. */
  datatype Presented = NoTransition | At(position: real) | Lost {
    function Visual(shown: real): real
      requires this != Lost
    {
      if At? then position else shown
    }
  }

  datatype Outcome = Dropped | Focused(tag: nat, direction: Direction, target: real, visual: real, velocity: real)

  class State {
    var mode: Mode
    var active: bool
    var engaged: bool
    var initial: real
    var center: real
    var tag: nat
    var displacement: real
    var dx: real
    var dy: real
    var ring: seq<nat>
    var pointer: Option<nat>
    var natural: bool
    const huge: Huge

    /** The centre is a copy of the initial tag. */
    ghost predicate Valid()
      reads this
    {
      active ==> Marks(center, ring, tag)
    }

    constructor (huge: Huge)
      ensures Valid() && !active
    {
      this.huge := huge;
      mode, active, engaged, ring, pointer, natural := Single, false, false, [], None, false;
    }

    /** Whether an event comes from another pointer than the gesture. */
    predicate Foreign(pointer: Option<nat>)
      reads this
    {
      this.pointer.Some? && pointer.Some? && pointer != this.pointer
    }

    method Reset()
      modifies this
      ensures Valid() && !active && displacement == 0.0
    {
      active, engaged, pointer, displacement, dx, dy := false, false, None, 0.0, 0.0, 0.0;
    }

    /** The search for the focused tag on the ring, and the centre it gives. */
    static method FindCenter(tags: Tags) returns (center: Option<int>)
      ensures center == CenterOf(tags)
    {
      var ring := tags.ring;
      if |ring| < 2 || |ring| > RING_MAX {
        return None;
      }
      var index := 0;
      assert ring[0..] == ring;
      while index < |ring| && ring[index] != tags.focused
        invariant index <= |ring| && index + IndexIn(ring[index..], tags.focused) == IndexIn(ring, tags.focused)
      {
        assert ring[index..][0] == ring[index] && ring[index..][1..] == ring[index + 1..];
        index := index + 1;
      }
      if index >= |ring| {
        return None;
      }
      return Some(Nearest(index, |ring|, tags.position));
    }

    /** Whether the gesture can take the running transition over, and the tags that it
        then starts from. */
    static method TakeOver(now: Tags, running: Option<Running>, later: Tags) returns (tags: Tags, takeover: bool)
      ensures (tags, takeover) == Basis(now, running, later)
    {
      tags, takeover := now, running.Some?;
      if takeover && running.value.presented.None? {
        takeover, tags := false, Tags(now.focused, later.position, later.ring);
      }
      if takeover {
        tags := tags.(position := running.value.presented.value);
        if 2 <= |running.value.ring| <= RING_MAX {
          tags := tags.(ring := running.value.ring);
        }
      }
    }

    /** The tags, the centre and the transition that the gesture starts with. */
    static method Prepare(mode: Mode, now: Tags, running: Option<Running>, later: Tags)
      returns (start: Option<(Tags, bool)>, middle: Option<int>)
      ensures start == Start(mode, now, running, later)
      ensures start.Some? ==> middle == CenterOf(start.value.0)
    {
      var tags, takeover := TakeOver(now, running, later);
      middle := FindCenter(tags);
      if middle.None? {
        return None, middle;
      }
      if takeover && ((mode.Single? && Abs(tags.position - middle.value as real) > 1.0) || !running.value.accepts) {
        takeover, tags := false, later;
        middle := FindCenter(tags);
        if middle.None? {
          return None, middle;
        }
      }
      start := Some((tags, takeover));
    }

    /** leme_input_handle_swipe_begin. A swipe with another number of fingers is none of
        its business; any other one ends the gesture that is going on. `later` are the
        tags as they are once a running transition has been finished. */
    method Begin(pointer: Option<nat>, fingersMatch: bool, natural: bool, mode: Mode, allowed: bool, now: Tags,
        running: Option<Running>, later: Tags)
      requires Valid()
      modifies this
      ensures !fingersMatch ==> unchanged(this)
      ensures Valid()
      ensures fingersMatch ==> active == (allowed && Start(mode, now, running, later).Some?)
      ensures fingersMatch && active ==> Begun(mode, now, running, later)
      ensures fingersMatch && active ==> (this.pointer, this.natural) == (pointer, natural)
    {
      if !fingersMatch {
        return;
      }
      Reset();
      if !allowed {
        return;
      }
      var start, middle := Prepare(mode, now, running, later);
      if start.None? {
        return;
      }
      var (tags, takeover) := start.value;
      CenterMarks(tags);
      this.mode, active, engaged, initial, center := mode, true, takeover, tags.position, middle.value as real;
      this.pointer, this.natural, tag, ring := pointer, natural, tags.focused, tags.ring;
    }

    /** The gesture has the tags and the transition it starts from; its centre is the
        nearest copy of the focused tag. */
    ghost predicate Begun(mode: Mode, now: Tags, running: Option<Running>, later: Tags)
      requires Start(mode, now, running, later).Some?
      reads this
    {
      var (tags, takeover) := Start(mode, now, running, later).value;
      && this.mode == mode && engaged == takeover && displacement == 0.0
      && (tag, initial, ring) == (tags.focused, tags.position, tags.ring)
      && center == CenterOf(tags).value as real
    }

    /** Whether a motion leaves the gesture active: before it is engaged it may still be
        short, but not mostly upwards; afterwards it must stay in reach. */
    predicate Goes(e: Motion)
      reads this
    {
      var x, y := dx + Sideways(e, natural), dy + e.dy;
      var short := !engaged && Gone(x, y) < 256.0;
      && e.usable && e.distance > 0.0
      && (short || engaged || (Abs(y) < Abs(x) && e.prepared))
      && (short || mode.Single? ||
          Abs(initial + ((if engaged then displacement else 0.0) + Advance(e, natural))) <= FAR)
    }

    /** leme_input_handle_swipe_update: the gesture is engaged once it has gone 16 units,
        more of them sideways. */
    method Update(pointer: Option<nat>, e: Motion)
      requires Valid()
      modifies this
      ensures old(Foreign(pointer)) ==> unchanged(this)
      ensures Valid() && active == old(active && (Foreign(pointer) || Goes(e)))
      ensures active ==> (mode, initial, center, tag, ring) == old((mode, initial, center, tag, ring))
      ensures active ==> (this.pointer, natural) == old((this.pointer, natural))
      ensures active && !old(Foreign(pointer)) && old(engaged) ==>
        engaged && displacement == old(displacement) + Advance(e, natural)
      ensures active && !old(Foreign(pointer)) && engaged ==>
        var before := if old(engaged) then old(displacement) else 0.0;
        && (natural ==> (displacement > before <==> e.dx < 0.0))
        && (!natural ==> (displacement > before <==> e.dx > 0.0))
      ensures active && !old(Foreign(pointer)) && !old(engaged) ==>
        (dx, dy) == (old(dx) + Sideways(e, natural), old(dy) + e.dy) && engaged == (Gone(dx, dy) >= 256.0)
      ensures active && !old(Foreign(pointer)) && !old(engaged) && engaged ==>
        Abs(dx) > Abs(dy) && displacement == Advance(e, natural)
    {
      if !active || Foreign(pointer) {
        return;
      }
      if !e.usable || e.distance <= 0.0 {
        Reset();
        return;
      }
      var sideways := Sideways(e, natural);
      if !engaged {
        dx, dy := dx + sideways, dy + e.dy;
        if Gone(dx, dy) < 256.0 {
          return;
        }
        if Abs(dy) >= Abs(dx) || !e.prepared {
          Reset();
          return;
        }
        displacement := 0.0;
        engaged := true;
      }
      var next := displacement + Advance(e, natural);
      if !mode.Single? && Abs(initial + next) > FAR {
        Reset();
        return;
      }
      displacement := next;
    }

    /** Whether the end of a swipe ends this gesture with a target. */
    predicate Ends(pointer: Option<nat>)
      reads this
    {
      active && engaged && !Foreign(pointer)
    }

    function RawShown(): real
      reads this
    {
      Shown(mode, initial + displacement, center, huge)
    }

    function Carried(speed: real): real
      reads this
    {
      ShownVelocity(mode, speed, initial + displacement, center, huge)
    }

    function Finish(visual: real, projection: real, threshold: real): Option<real>
      reads this
    {
      FinishTarget(mode, center, visual, projection, threshold, projection >= initial)
    }

    /** The target of an engaged gesture that ends, its tag, and how to get there. */
    method Decide(cancelled: bool, presented: Presented, projection: real, threshold: real, speed: real, accepts: bool)
      returns (outcome: Outcome)
      requires Valid() && active && presented != Lost
      ensures (presented != NoTransition && !accepts) ==> outcome == Dropped
      ensures (presented == NoTransition || accepts) ==> (outcome == Dropped <==>
        !cancelled && Finish(presented.Visual(RawShown()), projection, threshold).None?)
      ensures outcome.Focused? ==> Marks(outcome.target, ring, outcome.tag)
      ensures outcome.Focused? ==> outcome.visual == presented.Visual(RawShown())
      ensures outcome.Focused? ==> outcome.direction == Toward(outcome.target, center, outcome.visual)
      ensures outcome.Focused? ==> outcome.velocity == if cancelled then 0.0 else Carried(speed)
      ensures outcome.Focused? && cancelled ==> outcome.tag == tag
      ensures outcome.Focused? && !cancelled ==>
        Promised(mode, center, outcome.visual, projection, threshold, projection >= initial, outcome.target)
      ensures outcome.Focused? && !cancelled ==>
        Some(outcome.target) == Finish(outcome.visual, projection, threshold)
    {
      var raw := initial + displacement;
      var visual := presented.Visual(Shown(mode, raw, center, huge));
      var velocity := if cancelled then 0.0 else ShownVelocity(mode, speed, raw, center, huge);
      var forward := projection >= initial;
      var target := if cancelled then Some(CancelTarget(mode, center, ring, visual))
                    else FinishTarget(mode, center, visual, projection, threshold, forward);
      if target.None? || (presented != NoTransition && !accepts) {
        return Dropped;
      }
      if cancelled {
        CancelReturns(mode, center, ring, tag, visual);
      } else {
        FinishIsPromised(mode, center, visual, projection, threshold, forward);
      }
      WrapMarks(target.value, ring);
      var direction := if target.value > center then Forward
                       else if target.value < center then Backward
                       else if visual >= center then Backward
                       else Forward;
      outcome := Focused(ring[RingWrap(target.value, |ring|).Floor], direction, target.value, visual, velocity);
    }

    /** leme_input_handle_swipe_end: `projection` is where the velocity `speed` leads,
        `usable` whether the output still fits, `accepts` whether the transition takes
        the range. */
    method End(pointer: Option<nat>, cancelled: bool, usable: bool, presented: Presented, projection: real,
        threshold: real, speed: real, accepts: bool) returns (outcome: Outcome)
      requires Valid()
      modifies this
      ensures old(Foreign(pointer)) ==> unchanged(this) && outcome == Dropped
      ensures Valid() && (active ==> old(Foreign(pointer))) && (outcome.Focused? ==> old(active && engaged))
      ensures outcome.Focused? ==> Marks(outcome.target, old(ring), outcome.tag)
      ensures outcome.Focused? ==> presented != Lost
      ensures outcome.Focused? ==> outcome.visual == presented.Visual(old(RawShown()))
      ensures outcome.Focused? ==> outcome.direction == Toward(outcome.target, old(center), outcome.visual)
      ensures outcome.Focused? ==> outcome.velocity == if cancelled then 0.0 else old(Carried(speed))
      ensures outcome.Focused? && cancelled ==> outcome.tag == old(tag)
      ensures outcome.Focused? && !cancelled ==>
        Promised(old(mode), old(center), outcome.visual, projection, threshold, projection >= old(initial),
          outcome.target)
      ensures outcome.Focused? && !cancelled ==>
        Some(outcome.target) == old(Finish(outcome.visual, projection, threshold))
      ensures old(Ends(pointer)) && usable && (presented == NoTransition || (presented != Lost && accepts)) ==>
        (outcome == Dropped <==> !cancelled && old(Finish(presented.Visual(RawShown()), projection, threshold)).None?)
    {
      if !active || Foreign(pointer) {
        return Dropped;
      }
      outcome := Dropped;
      if usable && engaged && presented != Lost {
        outcome := Decide(cancelled, presented, projection, threshold, speed, accepts);
      }
      Reset();
    }
  }
}
