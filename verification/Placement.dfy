/** Where outputs go (placement.c): explicit positions, positions relative to other
    outputs up to a fixpoint, and the right edge for the rest. */
module Placement {
  import opened Ints
  import opened Options

  datatype Relation = NoRelation | LeftOf | RightOf | TopOf | BottomOf

  datatype Request = Request(name: Option<string>, width: Int32, height: Int32, x: Int32, y: Int32,
    relativeTo: Option<string>, relation: Relation, hasPosition: bool)

  datatype Place = Place(x: Int32, y: Int32, placed: bool)

  /** Request i asks to be put next to request j. */
  predicate Refers(requests: seq<Request>, i: nat, j: nat) {
    && i < |requests| && j < |requests| && i != j
    && requests[i].relativeTo.Some? && requests[i].relativeTo == requests[j].name
  }

  /** The position next to a reference that `relation` asks for, saturated. */
  function NextTo(request: Request, reference: Request, anchor: Place): Place {
    match request.relation
    case LeftOf => Place(Saturate(anchor.x - request.width), anchor.y, true)
    case RightOf => Place(Saturate(anchor.x + reference.width), anchor.y, true)
    case TopOf => Place(anchor.x, Saturate(anchor.y - request.height), true)
    case BottomOf => Place(anchor.x, Saturate(anchor.y + reference.height), true)
    case NoRelation => Place(0, 0, false)
  }

  /** The coordinate that such a position needs is a 32-bit one. */
  predicate InReach(request: Request, reference: Request, anchor: Place) {
    match request.relation
    case LeftOf => INT_MIN <= anchor.x - request.width <= INT_MAX
    case RightOf => INT_MIN <= anchor.x + reference.width <= INT_MAX
    case TopOf => INT_MIN <= anchor.y - request.height <= INT_MAX
    case BottomOf => INT_MIN <= anchor.y + reference.height <= INT_MAX
    case NoRelation => false
  }

  // ----- Which outputs a relation can place --------------------------------------------

  /** A chain of references that ends at an explicit position. */
  predicate Chain(requests: seq<Request>, c: seq<nat>) {
    if |c| == 0 || c[0] >= |requests| then false
    else if |c| == 1 then requests[c[0]].hasPosition
    else if requests[c[0]].hasPosition || requests[c[0]].relation == NoRelation then false
    else Refers(requests, c[0], c[1]) && Chain(requests, c[1..])
  }

  ghost predicate Anchored(requests: seq<Request>, i: nat) {
    exists c :: Chain(requests, c) && c[0] == i
  }

  lemma AnchoredThrough(requests: seq<Request>, i: nat, j: nat)
    requires Refers(requests, i, j) && !requests[i].hasPosition && requests[i].relation != NoRelation
    requires Anchored(requests, j)
    ensures Anchored(requests, i)
  {
    var c :| Chain(requests, c) && c[0] == j;
    assert ([i] + c)[1..] == c;
    assert Chain(requests, [i] + c);
  }

  /** Output i stands next to output j, without saturation if there is room. */
  predicate StandsNext(requests: seq<Request>, places: seq<Place>, i: nat, j: nat)
    requires i < |places| == |requests| && j < |places|
  {
    && places[i] == NextTo(requests[i], requests[j], places[j])
    && (Roomy(requests) ==> InReach(requests[i], requests[j], places[j]))
  }

  /** Output i stands where its relation to some anchored output puts it. */
  ghost predicate Follows(requests: seq<Request>, places: seq<Place>, i: nat)
    requires |places| == |requests|
  {
    exists j: nat :: Refers(requests, i, j) && Anchored(requests, j) && StandsNext(requests, places, i, j)
  }

  // ----- Room for everything ---------------------------------------------------------------

  /** The sum of the first n sizes, of those that `among` selects. */
  function SumOf(sizes: seq<int>, among: set<nat>, n: nat): int
    requires n <= |sizes|
  {
    if n == 0 then 0 else SumOf(sizes, among, n - 1) + if n - 1 in among then sizes[n - 1] else 0
  }

  lemma {:induction false} SumGrows(sizes: seq<int>, among: set<nat>, i: nat, n: nat)
    requires i !in among && n <= |sizes|
    ensures SumOf(sizes, among + {i}, n) == SumOf(sizes, among, n) + if i < n then sizes[i] else 0
  {
    if n > 0 {
      SumGrows(sizes, among, i, n - 1);
    }
  }

  function Total(sizes: seq<int>): int {
    if sizes == [] then 0 else Total(sizes[..|sizes| - 1]) + sizes[|sizes| - 1]
  }

  lemma {:induction false} SumAtMost(sizes: seq<int>, among: set<nat>, n: nat)
    requires n <= |sizes| && forall k :: 0 <= k < |sizes| ==> 0 < sizes[k]
    ensures 0 <= SumOf(sizes, among, n) <= Total(sizes[..n])
    ensures forall k :: k in among && k < n ==> sizes[k] <= SumOf(sizes, among, n)
  {
    if n > 0 {
      SumAtMost(sizes, among, n - 1);
      assert sizes[..n][..n - 1] == sizes[..n - 1];
    }
  }

  function Widths(requests: seq<Request>): (r: seq<int>)
    ensures |r| == |requests|
  {
    seq(|requests|, k requires 0 <= k < |requests| => requests[k].width)
  }

  function Heights(requests: seq<Request>): (r: seq<int>)
    ensures |r| == |requests|
  {
    seq(|requests|, k requires 0 <= k < |requests| => requests[k].height)
  }

  /** On one axis there is room around an explicit position for everything else. */
  predicate RoomAround(sizes: seq<int>, start: int) {
    INT_MIN + Total(sizes) <= start && start + Total(sizes) <= INT_MAX
  }

  /** Every output has a size, and all of them fit in a row, also next to any explicit
      position, within 32 bits. */
  predicate Roomy(requests: seq<Request>) {
    && (forall k :: 0 <= k < |requests| ==> requests[k].width > 0 && requests[k].height > 0)
    && Total(Widths(requests)) <= INT_MAX && Total(Heights(requests)) <= INT_MAX
    && (forall k :: 0 <= k < |requests| && requests[k].hasPosition ==>
         RoomAround(Widths(requests), requests[k].x) && RoomAround(Heights(requests), requests[k].y))
  }

  /** An output at `start` leaves room on both sides for all the sizes not yet used. */
  ghost predicate Spares(sizes: seq<int>, used: set<nat>, size: int, start: int) {
    var left := Total(sizes) - SumOf(sizes, used, |sizes|);
    INT_MIN + left <= start && start + size + left <= INT_MAX
  }

  ghost function PlacedSet(places: seq<Place>): set<nat> {
    set k: nat | k < |places| && places[k].placed
  }

  ghost predicate InRoom(requests: seq<Request>, places: seq<Place>)
    requires |places| == |requests|
  {
    forall k :: 0 <= k < |places| && places[k].placed ==>
      && Spares(Widths(requests), PlacedSet(places), requests[k].width, places[k].x)
      && Spares(Heights(requests), PlacedSet(places), requests[k].height, places[k].y)
  }

  /** The next output beside, at the same coordinate as, or right of everything that is
      there. */
  lemma SparesNext(sizes: seq<int>, used: set<nat>, i: nat, j: nat, at: int, start: int)
    requires forall k :: 0 <= k < |sizes| ==> 0 < sizes[k]
    requires i < |sizes| && j < |sizes| && i !in used && j in used && Spares(sizes, used, sizes[j], at)
    requires start == at - sizes[i] || start == at || start == at + sizes[j]
    ensures Spares(sizes, used + {i}, sizes[i], start) && INT_MIN <= start <= INT_MAX
  {
    SumGrows(sizes, used, i, |sizes|);
    SumAtMost(sizes, used + {i}, |sizes|);
    assert sizes[..|sizes|] == sizes;
  }

  /** What is there keeps sparing the rest. */
  lemma SparesOn(sizes: seq<int>, used: set<nat>, i: nat, size: int, at: int)
    requires forall k :: 0 <= k < |sizes| ==> 0 < sizes[k]
    requires i < |sizes| && i !in used && Spares(sizes, used, size, at)
    ensures Spares(sizes, used + {i}, size, at) && INT_MIN <= at && at + size <= INT_MAX
  {
    SumGrows(sizes, used, i, |sizes|);
    SumAtMost(sizes, used + {i}, |sizes|);
    assert sizes[..|sizes|] == sizes;
  }

  /** A start of its own that leaves room for everything, or for everything to its right. */
  lemma SparesFirst(sizes: seq<int>, used: set<nat>, i: nat, start: int)
    requires forall k :: 0 <= k < |sizes| ==> 0 < sizes[k]
    requires i < |sizes| && i in used && (RoomAround(sizes, start) || (start == 0 && Total(sizes) <= INT_MAX))
    ensures Spares(sizes, used, sizes[i], start)
  {
    SumAtMost(sizes, used, |sizes|);
    assert sizes[..|sizes|] == sizes;
  }

  lemma PlacedInRoom(requests: seq<Request>, places: seq<Place>, i: nat, p: Place)
    requires |places| == |requests| && Roomy(requests) && InRoom(requests, places)
    requires i < |places| && !places[i].placed && p.placed
    requires Spares(Widths(requests), PlacedSet(places) + {i}, requests[i].width, p.x)
    requires Spares(Heights(requests), PlacedSet(places) + {i}, requests[i].height, p.y)
    ensures InRoom(requests, places[i := p])
  {
    var after, used := places[i := p], PlacedSet(places);
    assert PlacedSet(after) == used + {i};
    forall k | 0 <= k < |after| && after[k].placed
      ensures Spares(Widths(requests), used + {i}, requests[k].width, after[k].x)
      ensures Spares(Heights(requests), used + {i}, requests[k].height, after[k].y)
    {
      if k != i {
        SparesOn(Widths(requests), used, i, requests[k].width, places[k].x);
        SparesOn(Heights(requests), used, i, requests[k].height, places[k].y);
      }
    }
  }

  /** Next to something that stands in room an output is in room, with no saturation. */
  lemma NextInRoom(requests: seq<Request>, places: seq<Place>, i: nat, j: nat)
    requires |places| == |requests| && Roomy(requests) && InRoom(requests, places)
    requires i < |places| && j < |places| && !places[i].placed && places[j].placed && requests[i].relation != NoRelation
    ensures InRoom(requests, places[i := NextTo(requests[i], requests[j], places[j])])
    ensures InReach(requests[i], requests[j], places[j])
  {
    var widths, heights, used, at := Widths(requests), Heights(requests), PlacedSet(places), places[j];
    var x := match requests[i].relation
      case LeftOf => at.x - widths[i]
      case RightOf => at.x + widths[j]
      case _ => at.x;
    var y := match requests[i].relation
      case TopOf => at.y - heights[i]
      case BottomOf => at.y + heights[j]
      case _ => at.y;
    SparesNext(widths, used, i, j, at.x, x);
    SparesNext(heights, used, i, j, at.y, y);
    assert NextTo(requests[i], requests[j], at) == Place(x, y, true);
    PlacedInRoom(requests, places, i, Place(x, y, true));
  }

  /** The outcome of the fixpoint: the anchored outputs are placed, each by its own
      position or next to its reference, and no others are. */
  ghost predicate PlacedByRelation(requests: seq<Request>, places: seq<Place>) {
    && |places| == |requests|
    && (forall i :: 0 <= i < |places| ==> (places[i].placed <==> Anchored(requests, i)))
    && PlacedSoundly(requests, places)
  }

  ghost predicate PlacedSoundly(requests: seq<Request>, places: seq<Place>) {
    && |places| == |requests| && (Roomy(requests) ==> InRoom(requests, places))
    && (forall i :: 0 <= i < |places| && places[i].placed ==> Anchored(requests, i))
    && (forall i :: 0 <= i < |places| && requests[i].hasPosition ==>
      places[i] == Place(requests[i].x, requests[i].y, true))
    && (forall i :: 0 <= i < |places| && places[i].placed && !requests[i].hasPosition ==>
      FollowsPlaced(requests, places, i))
  }

  ghost predicate FollowsPlaced(requests: seq<Request>, places: seq<Place>, i: nat)
    requires |places| == |requests|
  {
    exists j: nat :: Refers(requests, i, j) && places[j].placed && StandsNext(requests, places, i, j)
  }

  /** An output that is not placed has no reference that is. */
  ghost predicate Stuck(requests: seq<Request>, places: seq<Place>, i: nat)
    requires i < |places| == |requests|
  {
    !places[i].placed && requests[i].relation != NoRelation ==>
      forall j: nat :: Refers(requests, i, j) ==> !places[j].placed
  }

  ghost predicate Settled(requests: seq<Request>, places: seq<Place>, n: nat)
    requires n <= |places| == |requests|
  {
    forall i: nat :: i < n ==> Stuck(requests, places, i)
  }

  /** When nothing can be placed any more, everything anchored is placed. */
  lemma {:induction false} SettledIsComplete(requests: seq<Request>, places: seq<Place>, c: seq<nat>)
    requires PlacedSoundly(requests, places) && Settled(requests, places, |requests|) && Chain(requests, c)
    ensures places[c[0]].placed
    decreases |c|
  {
    assert Stuck(requests, places, c[0]);
    if |c| > 1 {
      SettledIsComplete(requests, places, c[1..]);
      assert Refers(requests, c[0], c[1]);
    }
  }

  // ----- Falling back to the right edge ---------------------------------------------------

  function RightOfOutput(requests: seq<Request>, places: seq<Place>, i: nat): Int32
    requires i < |places| == |requests|
  {
    Saturate(places[i].x + requests[i].width)
  }

  /** `edge` is the greatest right edge of the outputs that `among` selects, or 0. */
  ghost predicate IsRightEdge(requests: seq<Request>, places: seq<Place>, among: set<nat>, edge: int)
    requires |places| == |requests|
  {
    && (forall k :: k in among && k < |places| ==> RightOfOutput(requests, places, k) <= edge)
    && (edge == 0 || (exists k :: k in among && k < |places| && RightOfOutput(requests, places, k) == edge))
    && edge >= 0
  }

  /** The outputs that stand when output i falls back: the anchored ones, and those
      that fell back before it. */
  ghost function Standing(requests: seq<Request>, i: nat): set<nat> {
    set k: nat | k < |requests| && (k < i || Anchored(requests, k))
  }

  /** Everything Resolve promises about the final places. */
  ghost predicate Resolved(requests: seq<Request>, places: seq<Place>) {
    && |places| == |requests| && (Roomy(requests) ==> InRoom(requests, places))
    && (forall i :: 0 <= i < |places| ==> places[i].placed)
    && (forall i :: 0 <= i < |places| && requests[i].hasPosition ==>
      places[i] == Place(requests[i].x, requests[i].y, true))
    && (forall i :: 0 <= i < |places| && !requests[i].hasPosition && Anchored(requests, i) ==>
      Follows(requests, places, i))
    && (forall i :: 0 <= i < |places| && !Anchored(requests, i) ==>
      places[i].y == 0 && IsRightEdge(requests, places, Standing(requests, i), places[i].x))
  }

  // ----- The algorithm --------------------------------------------------------------------------

  function Unplaced(places: seq<Place>): nat {
    if places == [] then 0 else (if places[0].placed then 0 else 1) + Unplaced(places[1..])
  }

  lemma {:induction false} UnplacedDrops(places: seq<Place>, i: nat, p: Place)
    requires i < |places| && !places[i].placed && p.placed
    ensures Unplaced(places[i := p]) == Unplaced(places) - 1
  {
    if i > 0 {
      assert places[i := p][1..] == places[1..][i - 1 := p];
      UnplacedDrops(places[1..], i - 1, p);
    } else {
      assert places[i := p][1..] == places[1..];
    }
  }

  lemma PlaceOne(requests: seq<Request>, places: seq<Place>, i: nat, j: nat)
    requires PlacedSoundly(requests, places) && Refers(requests, i, j)
    requires !places[i].placed && requests[i].relation != NoRelation && places[j].placed
    ensures PlacedSoundly(requests, places[i := NextTo(requests[i], requests[j], places[j])])
  {
    var p := NextTo(requests[i], requests[j], places[j]);
    var after := places[i := p];
    AnchoredThrough(requests, i, j);
    if Roomy(requests) {
      NextInRoom(requests, places, i, j);
    }
    forall k | 0 <= k < |after| && after[k].placed && !requests[k].hasPosition
      ensures FollowsPlaced(requests, after, k)
    {
      if k == i {
        assert Refers(requests, i, j) && after[j] == places[j] && StandsNext(requests, after, i, j);
      } else {
        var m: nat :| Refers(requests, k, m) && places[m].placed && StandsNext(requests, places, k, m);
        assert after[m] == places[m] && StandsNext(requests, after, k, m);
      }
    }
  }

  method PlaceNextTo(requests: seq<Request>, places: array<Place>, i: nat, j: nat)
    requires PlacedSoundly(requests, places[..]) && Refers(requests, i, j)
    requires !places[i].placed && requests[i].relation != NoRelation && places[j].placed
    modifies places
    ensures PlacedSoundly(requests, places[..])
    ensures places[..] == old(places[..])[i := NextTo(requests[i], requests[j], old(places[j]))]
    ensures Unplaced(places[..]) < old(Unplaced(places[..]))
  {
    var place := NextTo(requests[i], requests[j], places[j]);
    PlaceOne(requests, places[..], i, j);
    UnplacedDrops(places[..], i, place);
    places[i] := place;
    assert places[..] == old(places[..])[i := place];
  }

  /** Output j is the first placed output of the name that output i asks for. */
  predicate FirstReference(requests: seq<Request>, places: seq<Place>, i: nat, j: nat)
    requires |places| == |requests|
  {
    && Refers(requests, i, j) && places[j].placed
    && forall k: nat :: k < j && Refers(requests, i, k) ==> !places[k].placed
  }

  method FindReference(requests: seq<Request>, places: array<Place>, i: nat) returns (reference: Option<nat>)
    requires places.Length == |requests| && i < |requests|
    ensures reference.Some? ==> FirstReference(requests, places[..], i, reference.value)
    ensures reference.None? ==> forall j: nat :: Refers(requests, i, j) ==> !places[j].placed
  {
    for j := 0 to |requests|
      invariant forall k: nat :: k < j && Refers(requests, i, k) ==> !places[k].placed
    {
      if Refers(requests, i, j) && places[j].placed {
        return Some(j);
      }
    }
    return None;
  }

  ghost predicate PutNextToFirst(requests: seq<Request>, before: seq<Place>, after: seq<Place>, i: nat)
    requires |before| == |requests|
  {
    exists j: nat :: FirstReference(requests, before, i, j)
      && after == before[i := NextTo(requests[i], requests[j], before[j])]
  }

  /** leme_placement_resolve_relative. */
  method ResolveRelative(requests: seq<Request>, places: array<Place>, i: nat) returns (done: bool)
    requires PlacedSoundly(requests, places[..]) && i < |requests|
    requires !places[i].placed && requests[i].relation != NoRelation
    modifies places
    ensures PlacedSoundly(requests, places[..])
    ensures done ==> PutNextToFirst(requests, old(places[..]), places[..], i)
    ensures done ==> Unplaced(places[..]) < old(Unplaced(places[..]))
    ensures !done ==> places[..] == old(places[..]) && Stuck(requests, places[..], i)
  {
    var reference := FindReference(requests, places, i);
    done := reference.Some?;
    if done {
      PlaceNextTo(requests, places, i, reference.value);
    }
  }

  /** What a sweep does with one output. */
  method Visit(requests: seq<Request>, places: array<Place>, i: nat) returns (done: bool)
    requires PlacedSoundly(requests, places[..]) && i < |requests|
    modifies places
    ensures PlacedSoundly(requests, places[..])
    ensures done ==> PutNextToFirst(requests, old(places[..]), places[..], i)
    ensures done ==> Unplaced(places[..]) < old(Unplaced(places[..]))
    ensures !done ==> places[..] == old(places[..]) && Stuck(requests, places[..], i)
  {
    done := false;
    if !places[i].placed && requests[i].relation != NoRelation {
      done := ResolveRelative(requests, places, i);
    }
  }

  /** A sweep so far: it has placed something, or nothing that it has visited can be. */
  ghost predicate SweptTo(requests: seq<Request>, before: seq<Place>, now: seq<Place>, progress: bool, i: nat) {
    && |before| == |requests| && i <= |requests|
    && if progress then Unplaced(now) < Unplaced(before) else now == before && Settled(requests, before, i)
  }

  lemma SweepNext(requests: seq<Request>, before: seq<Place>, now: seq<Place>, next: seq<Place>, progress: bool,
      done: bool, i: nat)
    requires i < |requests| && SweptTo(requests, before, now, progress, i) && |next| == |requests|
    requires if done then Unplaced(next) < Unplaced(now) else next == now && Stuck(requests, next, i)
    ensures SweptTo(requests, before, next, progress || done, i + 1)
  {
  }

  /** One sweep of the fixpoint. */
  method Sweep(requests: seq<Request>, places: array<Place>) returns (progress: bool)
    requires PlacedSoundly(requests, places[..])
    modifies places
    ensures PlacedSoundly(requests, places[..])
    ensures progress ==> Unplaced(places[..]) < old(Unplaced(places[..]))
    ensures !progress ==> places[..] == old(places[..]) && Settled(requests, old(places[..]), |requests|)
  {
    ghost var before := places[..];
    progress := false;
    for i := 0 to |requests|
      invariant PlacedSoundly(requests, places[..]) && SweptTo(requests, before, places[..], progress, i)
    {
      ghost var now := places[..];
      var done := Visit(requests, places, i);
      SweepNext(requests, before, now, places[..], progress, done, i);
      if done {
        progress := true;
      }
    }
  }

  /** leme_placement_right_edge. */
  method RightEdge(requests: seq<Request>, places: array<Place>) returns (edge: Int32)
    requires places.Length == |requests|
    ensures IsRightEdge(requests, places[..], PlacedSet(places[..]), edge)
  {
    edge := 0;
    ghost var ps := places[..];
    for i := 0 to |requests|
      invariant edge >= 0
      invariant forall k :: 0 <= k < i && ps[k].placed ==> RightOfOutput(requests, ps, k) <= edge
      invariant edge == 0 || exists k :: 0 <= k < i && ps[k].placed && RightOfOutput(requests, ps, k) == edge
    {
      if places[i].placed {
        var candidate := Saturate(places[i].x + requests[i].width);
        assert candidate == RightOfOutput(requests, ps, i);
        if candidate > edge {
          edge := candidate;
        }
      }
    }
  }

  /** leme_placement_resolve. */
  method Resolve(requests: seq<Request>, places: array<Place>)
    requires places.Length == |requests|
    modifies places
    ensures Resolved(requests, places[..])
  {
    for i := 0 to |requests|
      invariant forall k :: 0 <= k < i ==>
        places[k] == if requests[k].hasPosition then Place(requests[k].x, requests[k].y, true) else Place(0, 0, false)
    {
      places[i] := Place(0, 0, false);
      if requests[i].hasPosition {
        places[i] := Place(requests[i].x, requests[i].y, true);
      }
    }
    PositionsAreSound(requests, places[..]);
    var progress := true;
    while progress
      invariant PlacedSoundly(requests, places[..])
      invariant !progress ==> Settled(requests, places[..], |requests|)
      decreases Unplaced(places[..]) + (if progress then 1 else 0)
    {
      progress := Sweep(requests, places);
    }
    forall i | 0 <= i < |requests| && Anchored(requests, i) ensures places[i].placed {
      var c :| Chain(requests, c) && c[0] == i;
      SettledIsComplete(requests, places[..], c);
    }
    FallBack(requests, places);
  }

  lemma PositionsAreSound(requests: seq<Request>, places: seq<Place>)
    requires |places| == |requests|
    requires forall k :: 0 <= k < |places| ==>
      places[k] == if requests[k].hasPosition then Place(requests[k].x, requests[k].y, true) else Place(0, 0, false)
    ensures PlacedSoundly(requests, places)
  {
    forall i | 0 <= i < |places| && places[i].placed ensures Anchored(requests, i) {
      assert Chain(requests, [i]) && [i][0] == i;
    }
    if Roomy(requests) {
      forall i | 0 <= i < |places| && places[i].placed
        ensures Spares(Widths(requests), PlacedSet(places), requests[i].width, places[i].x)
        ensures Spares(Heights(requests), PlacedSet(places), requests[i].height, places[i].y)
      {
        SparesFirst(Widths(requests), PlacedSet(places), i, places[i].x);
        SparesFirst(Heights(requests), PlacedSet(places), i, places[i].y);
      }
    }
  }

  /** At the right edge of what stands in room an output is in room. */
  lemma EdgeInRoom(requests: seq<Request>, places: seq<Place>, i: nat, edge: Int32)
    requires |places| == |requests| && Roomy(requests) && InRoom(requests, places)
    requires i < |places| && !places[i].placed && IsRightEdge(requests, places, PlacedSet(places), edge)
    ensures InRoom(requests, places[i := Place(edge, 0, true)])
  {
    var widths, heights, used := Widths(requests), Heights(requests), PlacedSet(places);
    SparesFirst(heights, used + {i}, i, 0);
    if edge == 0 {
      SparesFirst(widths, used + {i}, i, 0);
    } else {
      var k :| k in used && k < |places| && RightOfOutput(requests, places, k) == edge;
      SparesOn(widths, used, i, widths[k], places[k].x);
      SparesNext(widths, used, i, k, places[k].x, edge);
    }
    PlacedInRoom(requests, places, i, Place(edge, 0, true));
  }

  lemma RightEdgeStable(requests: seq<Request>, places: seq<Place>, places': seq<Place>, among: set<nat>, edge: int)
    requires |places| == |places'| == |requests|
    requires forall k :: k in among && k < |places| ==> places[k] == places'[k]
    requires IsRightEdge(requests, places, among, edge)
    ensures IsRightEdge(requests, places', among, edge)
  {
    forall k | k in among && k < |places|
      ensures RightOfOutput(requests, places', k) == RightOfOutput(requests, places, k)
    {
    }
    if edge != 0 {
      var k :| k in among && k < |places| && RightOfOutput(requests, places, k) == edge;
      assert RightOfOutput(requests, places', k) == edge;
    }
  }

  /** Output k fell back to the right edge of what stood before it. */
  ghost predicate FellBack(requests: seq<Request>, places: seq<Place>, k: nat)
    requires k < |places| == |requests|
  {
    places[k].placed && places[k].y == 0 && IsRightEdge(requests, places, Standing(requests, k), places[k].x)
  }

  /** Placing output i leaves what stood before it as it was. */
  lemma FellBackStable(requests: seq<Request>, places: seq<Place>, i: nat, p: Place, k: nat)
    requires |places| == |requests| && k < i < |places| && !Anchored(requests, i)
    requires FellBack(requests, places, k)
    ensures FellBack(requests, places[i := p], k)
  {
    RightEdgeStable(requests, places, places[i := p], Standing(requests, k), places[k].x);
  }

  /** The last loop: outputs that nothing anchors go to the right of everything, in
      their order. */
  method FallBack(requests: seq<Request>, places: array<Place>)
    requires PlacedByRelation(requests, places[..])
    modifies places
    ensures Resolved(requests, places[..])
  {
    ghost var fixed := places[..];
    for i := 0 to |requests|
      invariant forall k :: 0 <= k < |requests| && (Anchored(requests, k) || i <= k) ==> places[k] == fixed[k]
      invariant forall k :: 0 <= k < i && !Anchored(requests, k) ==> FellBack(requests, places[..], k)
      invariant Roomy(requests) ==> InRoom(requests, places[..])
    {
      if !places[i].placed {
        ghost var before := places[..];
        assert PlacedSet(before) == Standing(requests, i);
        var edge := RightEdge(requests, places);
        if Roomy(requests) {
          EdgeInRoom(requests, before, i, edge);
        }
        places[i] := Place(edge, 0, true);
        assert places[..] == before[i := places[i]];
        forall k | 0 <= k < i && !Anchored(requests, k) ensures FellBack(requests, places[..], k) {
          FellBackStable(requests, before, i, places[i], k);
        }
        RightEdgeStable(requests, before, places[..], Standing(requests, i), edge);
      }
    }
    ghost var final := places[..];
    forall i | 0 <= i < |requests| && !requests[i].hasPosition && Anchored(requests, i)
      ensures Follows(requests, final, i)
    {
      var j: nat :| Refers(requests, i, j) && fixed[j].placed && StandsNext(requests, fixed, i, j);
      assert Refers(requests, i, j) && Anchored(requests, j) && StandsNext(requests, final, i, j);
    }
  }

  // ----- What the promise means ---------------------------------------------------------------------

  predicate DistinctNames(requests: seq<Request>) {
    forall i, j :: 0 <= i < j < |requests| && requests[i].name.Some? ==> requests[i].name != requests[j].name
  }

  /** With distinct names an output has one reference at most, and it stands exactly
      where its relation to that reference's final position puts it. */
  lemma RelationHolds(requests: seq<Request>, places: seq<Place>, i: nat, j: nat)
    requires Resolved(requests, places) && DistinctNames(requests)
    requires Refers(requests, i, j) && !requests[i].hasPosition && requests[i].relation != NoRelation
    ensures Anchored(requests, i) <==> Anchored(requests, j)
    ensures Anchored(requests, j) ==> StandsNext(requests, places, i, j)
  {
    if Anchored(requests, j) {
      AnchoredThrough(requests, i, j);
      assert Follows(requests, places, i);
    }
    if Anchored(requests, i) {
      var c :| Chain(requests, c) && c[0] == i;
      assert c[1] == j && Chain(requests, c[1..]) && c[1..][0] == j;
    }
  }

  datatype Box = Box(x: int, y: int, width: int, height: int)

  function BoxOf(requests: seq<Request>, places: seq<Place>, i: nat): Box
    requires i < |requests| == |places|
  {
    Box(places[i].x, places[i].y, requests[i].width, requests[i].height)
  }

  /** Box a is on that side of box b: the edges meet, and the other coordinate is equal. */
  predicate Beside(relation: Relation, a: Box, b: Box) {
    match relation
    case LeftOf => a.x + a.width == b.x && a.y == b.y
    case RightOf => b.x + b.width == a.x && a.y == b.y
    case TopOf => a.y + a.height == b.y && a.x == b.x
    case BottomOf => b.y + b.height == a.y && a.x == b.x
    case NoRelation => false
  }

  /** An output is on the side of its reference that it asks for exactly when the
      coordinate it needs there is a 32-bit one. */
  lemma BesideExactly(requests: seq<Request>, places: seq<Place>, i: nat, j: nat)
    requires Resolved(requests, places) && DistinctNames(requests) && Anchored(requests, j)
    requires Refers(requests, i, j) && !requests[i].hasPosition && requests[i].relation != NoRelation
    ensures Beside(requests[i].relation, BoxOf(requests, places, i), BoxOf(requests, places, j))
      <==> InReach(requests[i], requests[j], places[j])
  {
    RelationHolds(requests, places, i, j);
    assert places[i] == NextTo(requests[i], requests[j], places[j]);
  }

  predicate Covers(b: Box, px: int, py: int) {
    b.x <= px < b.x + b.width && b.y <= py < b.y + b.height
  }

  ghost predicate ShareAPixel(a: Box, b: Box) {
    exists px, py :: Covers(a, px, py) && Covers(b, px, py)
  }

  lemma BesideIsApart(relation: Relation, a: Box, b: Box)
    requires Beside(relation, a, b)
    ensures !ShareAPixel(a, b)
  {
  }

  /** leme_output_box_edges: a box with a size whose edges fit in 32 bits. */
  predicate HasEdges(b: Box) {
    && b.width > 0 && b.height > 0
    && INT_MIN <= b.x + b.width <= INT_MAX && INT_MIN <= b.y + b.height <= INT_MAX
  }

  /** leme_output_boxes_overlap: boxes without proper edges count as overlapping. */
  predicate Overlap(a: Box, b: Box) {
    !HasEdges(a) || !HasEdges(b)
    || (a.x < b.x + b.width && b.x < a.x + a.width && a.y < b.y + b.height && b.y < a.y + a.height)
  }

  /** Boxes with proper edges overlap exactly when they share a pixel. */
  lemma OverlapExactly(a: Box, b: Box)
    requires HasEdges(a) && HasEdges(b)
    ensures Overlap(a, b) <==> ShareAPixel(a, b)
  {
    if Overlap(a, b) {
      assert Covers(a, Max(a.x, b.x), Max(a.y, b.y)) && Covers(b, Max(a.x, b.x), Max(a.y, b.y));
    }
  }

  /** The right edge of output j is at x, or both are past the largest coordinate. */
  predicate EndsAt(b: Box, x: int) {
    b.x + b.width == x || (x == INT_MAX && b.x + b.width > INT_MAX)
  }

  /** An output that nothing anchors is at the top, to the right of everything anchored
      and of what fell back before it, and no further: it touches the screen's origin or
      one of these outputs. */
  lemma FallbackTouches(requests: seq<Request>, places: seq<Place>, i: nat)
    requires Resolved(requests, places) && i < |requests| && !Anchored(requests, i)
    ensures var b := BoxOf(requests, places, i);
      && b.y == 0 && b.x >= 0
      && (forall j: nat :: j < |requests| && (Anchored(requests, j) || j < i) ==>
           var other := BoxOf(requests, places, j); other.x + other.width <= b.x || EndsAt(other, b.x))
      && (b.x == 0 || exists j: nat :: j < |requests| && j != i && EndsAt(BoxOf(requests, places, j), b.x))
  {
    var edge := places[i].x;
    forall j: nat | j < |requests| && (Anchored(requests, j) || j < i)
      ensures var other := BoxOf(requests, places, j); other.x + other.width <= edge || EndsAt(other, edge)
    {
      assert j in Standing(requests, i) && RightOfOutput(requests, places, j) <= edge;
    }
    if edge != 0 {
      var j :| j in Standing(requests, i) && j < |places| && RightOfOutput(requests, places, j) == edge;
      assert EndsAt(BoxOf(requests, places, j), edge);
    }
  }

  /** An output that fell back overlaps another one only in the sense that one of
      the two boxes has no proper edges: no size, or an edge beyond 32 bits. */
  lemma FallbackOverlapsExactly(requests: seq<Request>, places: seq<Place>, i: nat, j: nat)
    requires Resolved(requests, places) && i < |requests| && j < |requests| && i != j && !Anchored(requests, i)
    ensures Overlap(BoxOf(requests, places, i), BoxOf(requests, places, j))
      <==> !HasEdges(BoxOf(requests, places, i)) || !HasEdges(BoxOf(requests, places, j))
  {
    if j in Standing(requests, i) {
      assert RightOfOutput(requests, places, j) <= places[i].x;
    } else {
      assert i in Standing(requests, j) && !Anchored(requests, j);
      assert RightOfOutput(requests, places, i) <= places[j].x;
    }
  }

  /** Where everything fits, every output ends with proper edges, and an output that
      fell back overlaps no other one. */
  lemma RoomyFits(requests: seq<Request>, places: seq<Place>, i: nat, j: nat)
    requires Roomy(requests) && Resolved(requests, places) && i < |requests| && j < |requests| && i != j
    ensures HasEdges(BoxOf(requests, places, i))
    ensures !Anchored(requests, i) ==> !Overlap(BoxOf(requests, places, i), BoxOf(requests, places, j))
  {
    EdgesInRoom(requests, places, i);
    EdgesInRoom(requests, places, j);
    if !Anchored(requests, i) {
      FallbackOverlapsExactly(requests, places, i, j);
    }
  }

  lemma EdgesInRoom(requests: seq<Request>, places: seq<Place>, i: nat)
    requires Roomy(requests) && Resolved(requests, places) && i < |requests|
    ensures HasEdges(BoxOf(requests, places, i))
  {
    var used := PlacedSet(places);
    SumAtMost(Widths(requests), used, |requests|);
    SumAtMost(Heights(requests), used, |requests|);
    assert Widths(requests)[..|requests|] == Widths(requests) && Heights(requests)[..|requests|] == Heights(requests);
  }

  /** And every output with a relation is on the side of its reference that it asks for,
      without overlapping it. */
  lemma RoomyIsBeside(requests: seq<Request>, places: seq<Place>, i: nat, j: nat)
    requires Roomy(requests) && Resolved(requests, places) && DistinctNames(requests) && Anchored(requests, j)
    requires Refers(requests, i, j) && !requests[i].hasPosition && requests[i].relation != NoRelation
    ensures Beside(requests[i].relation, BoxOf(requests, places, i), BoxOf(requests, places, j))
    ensures !Overlap(BoxOf(requests, places, i), BoxOf(requests, places, j))
  {
    RelationHolds(requests, places, i, j);
    BesideExactly(requests, places, i, j);
    EdgesInRoom(requests, places, i);
    EdgesInRoom(requests, places, j);
  }

  const AT_THE_END := Request(Some("a"), 1, 1, INT_MAX, 0, None, NoRelation, true)
  const WITHOUT_PLACE := Request(Some("b"), 10, 1, 0, 0, None, NoRelation, false)

  /** Next to an output at the largest coordinate an output falls back onto it. */
  lemma FallbackCanOverlap(places: seq<Place>)
    requires Resolved([AT_THE_END, WITHOUT_PLACE], places)
    ensures var requests := [AT_THE_END, WITHOUT_PLACE];
      !Anchored(requests, 1) && Overlap(BoxOf(requests, places, 1), BoxOf(requests, places, 0))
  {
    var requests := [AT_THE_END, WITHOUT_PLACE];
    forall c | Chain(requests, c)
      ensures c[0] != 1
    {
    }
    assert Chain(requests, [0]) && [0][0] == 0;
    assert 0 in Standing(requests, 1);
    assert RightOfOutput(requests, places, 0) == INT_MAX;
  }
}
