/** Where floating views go (shell/policy.c): keeping a box in an area, carrying it to
    another area, centring it. Doubles are exact reals here, and llround rounds half
    away from zero. */
module Policy {
  import opened Ints
  import opened Reals

  /** One dimension of a box or an area. */
  datatype Axis = Axis(start: Int32, size: Int32) {
    /** A 64-bit sum in the source. */
    function End(): int { start + size }
  }

  datatype Box = Box(x: Int32, y: Int32, width: Int32, height: Int32) {
    function Horizontal(): Axis { Axis(x, width) }
    function Vertical(): Axis { Axis(y, height) }
  }

  function FromAxes(h: Axis, v: Axis): Box {
    Box(h.start, v.start, h.size, v.size)
  }

  predicate Inside(a: Axis, area: Axis) {
    1 <= a.size && area.start <= a.start && a.End() <= area.End()
  }

  predicate BoxInside(box: Box, area: Box) {
    Inside(box.Horizontal(), area.Horizontal()) && Inside(box.Vertical(), area.Vertical())
  }

  predicate Empty(area: Box) {
    area.width < 1 || area.height < 1
  }

  // ----- Clamping ------------------------------------------------------------------------------

  function FitSize(size: Int32, limit: Int32): Int32 {
    if size < 1 then 1 else if size > limit then limit else size
  }

  function ClampAxis(a: Axis, area: Axis): Axis {
    var size := FitSize(a.size, area.size);
    if a.start < area.start then Axis(area.start, size)
    else if a.start + size > area.End() then Axis(Saturate(area.End() - size), size)
    else Axis(a.start, size)
  }

  /** leme_view_policy_clamp_box. */
  function ClampBox(box: Box, area: Box): Box {
    if Empty(area) then box
    else FromAxes(ClampAxis(box.Horizontal(), area.Horizontal()), ClampAxis(box.Vertical(), area.Vertical()))
  }

  /** The result is in the area, nothing in the area with its size is closer to where the
      box was, its size is the closest that fits, and the saturation is never needed. */
  lemma ClampAxisNearest(a: Axis, area: Axis, p: Axis)
    requires area.size >= 1
    ensures Inside(ClampAxis(a, area), area)
    ensures Inside(p, area) ==> Distance(ClampAxis(a, area).size, a.size) <= Distance(p.size, a.size)
    ensures Inside(p, area) && p.size == ClampAxis(a, area).size ==>
      Distance(ClampAxis(a, area).start, a.start) <= Distance(p.start, a.start)
    ensures var far := area.End() - FitSize(a.size, area.size);
      a.start > far && a.start >= area.start ==> Saturate(far) == far
  {
  }

  /** A box in the area is left alone, and only such a box is. */
  lemma ClampKeeps(box: Box, area: Box)
    requires !Empty(area)
    ensures BoxInside(ClampBox(box, area), area)
    ensures ClampBox(box, area) == box <==> BoxInside(box, area)
    ensures ClampBox(ClampBox(box, area), area) == ClampBox(box, area)
  {
    ClampAxisNearest(box.Horizontal(), area.Horizontal(), area.Horizontal());
    ClampAxisNearest(box.Vertical(), area.Vertical(), area.Vertical());
  }

  // ----- Reanchoring ------------------------------------------------------------------------------

  function Fraction(offset: int, size: int): real {
    if size > 0 then offset as real / size as real else 0.0
  }

  function Scale(offset: int, size: int, newSize: int): int {
    Round(Fraction(offset, size) * newSize as real)
  }

  /** The offset in the new area, before saturation. */
  function Offset(a: Axis, from: Axis, to: Axis): int {
    Scale(a.start - from.start, from.size, to.size)
  }

  function ReanchorAxis(a: Axis, from: Axis, to: Axis): Axis {
    Axis(Saturate(to.start + Offset(a, from, to)), a.size)
  }

  /** leme_view_policy_reanchor_box. */
  function ReanchorBox(box: Box, from: Box, to: Box): Box {
    ClampBox(FromAxes(ReanchorAxis(box.Horizontal(), from.Horizontal(), to.Horizontal()),
                      ReanchorAxis(box.Vertical(), from.Vertical(), to.Vertical())), to)
  }

  /** n is v / a, rounded half up. */
  predicate Rounds(n: int, v: int, a: int) {
    2 * (n * a) - a <= 2 * v < 2 * (n * a) + a
  }

  /** Rounding d * b / a, without division. */
  lemma RoundScaled(d: int, a: int, b: int)
    requires 0 <= d && 0 < a && 0 < b
    ensures 0 <= Scale(d, a, b) && Rounds(Scale(d, a, b), d * b, a)
  {
    ScaleBack(d, a, b);
    RoundsReal(Fraction(d, a) * b as real, d * b, a);
  }

  lemma RoundsReal(x: real, v: int, a: int)
    requires x >= 0.0 && 0 < a && x * a as real == v as real
    ensures 0 <= Round(x) && Rounds(Round(x), v, a)
  {
    RoundEncloses(x);
    Whole(Round(x), a);
    Scaled(x, Round(x) as real, a as real, v as real, (Round(x) * a) as real);
    Enclosed(Round(x) * a, v, a);
  }

  lemma RoundEncloses(x: real)
    requires x >= 0.0
    ensures var n := Round(x); 0 <= n && n as real - 0.5 <= x < n as real + 0.5
  {
    assert Round(x) == (x + 0.5).Floor;
  }

  lemma Scaled(x: real, y: real, k: real, p: real, q: real)
    requires 0.0 < k && y - 0.5 <= x < y + 0.5 && x * k == p && y * k == q
    ensures q - 0.5 * k <= p < q + 0.5 * k
  {
    Difference(x, y, k, p, q, x - y + 0.5, y - x + 0.5);
    Positive(x - y + 0.5, k);
    Positive(y - x + 0.5, k);
  }

  lemma Difference(x: real, y: real, k: real, p: real, q: real, low: real, high: real)
    requires x * k == p && y * k == q && low == x - y + 0.5 && high == y - x + 0.5
    ensures low * k == p - q + 0.5 * k && high * k == q - p + 0.5 * k
  {
    assert low * k == x * k - y * k + 0.5 * k;
    assert high * k == y * k - x * k + 0.5 * k;
  }

  lemma Whole(n: int, a: int)
    ensures n as real * a as real == (n * a) as real
  {
  }

  lemma Enclosed(n: int, v: int, a: int)
    requires n as real - 0.5 * a as real <= v as real < n as real + 0.5 * a as real
    ensures 2 * n - a <= 2 * v < 2 * n + a
  {
  }

  lemma ScaleBack(d: int, a: int, b: int)
    requires 0 <= d && 0 < a && 0 < b
    ensures var x := Fraction(d, a) * b as real; x >= 0.0 && x * a as real == (d * b) as real
  {
    var f := d as real / a as real;
    assert f * a as real == d as real;
    assert f >= 0.0;
  }

  lemma Step(x: int, y: int, k: int)
    requires 0 <= k
    ensures x <= y ==> x * k <= y * k
    ensures x < y ==> x * k + k <= y * k
  {
    Distribute(y, x, k);
    Sign(y - x, k);
  }

  lemma Sign(d: int, k: int)
    requires 0 <= k
    ensures 0 <= d ==> 0 <= d * k
    ensures 0 < d ==> k <= d * k
  {
  }

  lemma Distribute(x: int, y: int, k: int)
    ensures (x - y) * k == x * k - y * k
  {
  }

  lemma RoundUnique(n: int, m: int, a: int, v: int)
    requires 0 < a && Rounds(n, v, a) && Rounds(m, v, a)
    ensures n == m
  {
    Step(n, m, a);
    Step(m, n, a);
  }

  lemma OffsetRounds(a: Axis, from: Axis, to: Axis, d: int)
    requires 1 <= from.size && 1 <= to.size && 0 <= d == a.start - from.start
    ensures 0 <= Offset(a, from, to) && Rounds(Offset(a, from, to), d * to.size, from.size)
  {
    RoundScaled(d, from.size, to.size);
  }

  /** A box that was in its area stays in a wider one without the help of the clamp. */
  lemma OffsetFits(a: Axis, from: Axis, to: Axis)
    requires Inside(a, from) && 1 <= from.size <= to.size
    ensures 0 <= Offset(a, from, to) <= to.size - a.size
  {
    var d: int := a.start - from.start;
    OffsetRounds(a, from, to, d);
    Rearranged(d, Offset(a, from, to), a.size, from.size, to.size);
  }

  lemma Rearranged(d: int, p: int, s: int, a: int, b: int)
    requires 0 <= d <= a - s && 1 <= s && 1 <= a <= b && Rounds(p, d * b, a)
    ensures p <= b - s
  {
    Step(d, a - s, b);
    Distribute(a, s, b);
    Step(a, b, s);
    Step(b - s, p, a);
    Distribute(b, s, a);
    Settle(p, b - s, p * a, d * b, a * b, a * s, b * s, a);
  }

  lemma Settle(p: int, most: int, pa: int, db: int, ab: int, sa: int, sb: int, a: int)
    requires 1 <= a && 2 * pa - a <= 2 * db && db <= ab - sb && sa <= sb
    requires most < p ==> ab - sa + a <= pa
    ensures p <= most
  {
  }

  /** When the way back brings a coordinate home: saturating the right edge of the world
      must not have cost more than the rounding can restore. */
  predicate Returns(a: Axis, from: Axis, to: Axis) {
    2 * ((INT_MAX - to.start) * from.size) >= 2 * ((a.start - from.start) * to.size) - to.size
  }

  function ThereAxis(a: Axis, from: Axis, to: Axis): Axis {
    ClampAxis(ReanchorAxis(a, from, to), to)
  }

  lemma There(a: Axis, from: Axis, to: Axis)
    requires Inside(a, from) && 1 <= from.size <= to.size
    ensures ThereAxis(a, from, to) == Axis(Saturate(to.start + Offset(a, from, to)), a.size)
    ensures Inside(ThereAxis(a, from, to), to)
  {
    OffsetFits(a, from, to);
  }

  /** On the way there a box keeps its size and its share of the way, rounded half up, or
      stops at the largest coordinate before that. */
  predicate KeepsShare(r: Axis, a: Axis, from: Axis, to: Axis) {
    && r.size == a.size
    && (r.start < INT_MAX ==> Rounds(r.start - to.start, (a.start - from.start) * to.size, from.size))
    && (r.start == INT_MAX ==>
         2 * ((INT_MAX - to.start) * from.size) - from.size <= 2 * ((a.start - from.start) * to.size))
  }

  lemma ThereKeepsShare(a: Axis, from: Axis, to: Axis)
    requires Inside(a, from) && 1 <= from.size <= to.size
    ensures KeepsShare(ThereAxis(a, from, to), a, from, to)
  {
    There(a, from, to);
    OffsetRounds(a, from, to, a.start - from.start);
    Step(INT_MAX - to.start, Offset(a, from, to), from.size);
  }

  /** What carrying a box to an area at least as large is for. */
  lemma ReanchorKeepsShare(box: Box, from: Box, to: Box)
    requires BoxInside(box, from) && !Empty(from) && from.width <= to.width && from.height <= to.height
    ensures var r := ReanchorBox(box, from, to);
      && KeepsShare(r.Horizontal(), box.Horizontal(), from.Horizontal(), to.Horizontal())
      && KeepsShare(r.Vertical(), box.Vertical(), from.Vertical(), to.Vertical())
  {
    ThereKeepsShare(box.Horizontal(), from.Horizontal(), to.Horizontal());
    ThereKeepsShare(box.Vertical(), from.Vertical(), to.Vertical());
  }

  /** Of two roundings of nearby values the one of the smaller value is not larger. */
  lemma Compare(r: int, d: int, b: int, v: int)
    requires 1 <= b && Rounds(r, v, b) && 2 * v < 2 * (d * b) + b
    ensures r <= d
    ensures r == d <==> 2 * v >= 2 * (d * b) - b
  {
    Step(d, r, b);
    Step(r, d, b);
  }

  lemma BackUpper(d: int, p: int, a: int, b: int)
    requires 1 <= a <= b && Rounds(p, d * b, a)
    ensures Rounds(d, p * a, b)
  {
    if a == b {
      RoundUnique(p, d, a, d * b);
    }
  }

  /** The arithmetic of the way back: d was the offset at home, p the rounded offset in
      the wider area, q what saturation at `most` left of it and r its rounded way back. */
  lemma BackArithmetic(d: int, p: int, q: int, r: int, a: int, b: int, most: int)
    requires 0 <= d && 0 <= q <= p && 1 <= a <= b && q <= most && (q == p || q == most)
    requires Rounds(p, d * b, a) && Rounds(r, q * a, b)
    ensures r <= d && (r == d <==> 2 * (most * a) >= 2 * (d * b) - b)
  {
    BackUpper(d, p, a, b);
    Step(q, most, a);
    Step(q, p, a);
    Compare(r, d, b, q * a);
  }

  /** There and back is home, exactly when Returns holds. */
  lemma AxisRoundTrip(a: Axis, from: Axis, to: Axis)
    requires Inside(a, from) && 1 <= from.size <= to.size
    ensures ThereAxis(ThereAxis(a, from, to), to, from) == a <==> Returns(a, from, to)
  {
    AxisComesBack(a, from, to);
    AxisOffsets(a, from, to);
  }

  lemma AxisComesBack(a: Axis, from: Axis, to: Axis)
    requires Inside(a, from) && 1 <= from.size <= to.size
    ensures var out := ThereAxis(a, from, to);
      Offset(out, to, from) <= a.start - from.start ==>
        (ThereAxis(out, to, from) == a <==> Offset(out, to, from) == a.start - from.start)
  {
    There(a, from, to);
    var out := ThereAxis(a, from, to);
    RoundScaled(out.start - to.start, to.size, from.size);
  }

  lemma AxisOffsets(a: Axis, from: Axis, to: Axis)
    requires Inside(a, from) && 1 <= from.size <= to.size
    ensures var r, d := Offset(ThereAxis(a, from, to), to, from), a.start - from.start;
      r <= d && (r == d <==> Returns(a, from, to))
  {
    There(a, from, to);
    OffsetFits(a, from, to);
    var out := ThereAxis(a, from, to);
    var d: int, p: int, q: int := a.start - from.start, Offset(a, from, to), out.start - to.start;
    var r := Offset(out, to, from);
    OffsetRounds(a, from, to, d);
    OffsetRounds(out, to, from, q);
    BackArithmetic(d, p, q, r, from.size, to.size, INT_MAX - to.start);
  }

  /** Carrying a box to an area at least as large and back returns the same box, exactly
      when both dimensions return. */
  lemma ReanchorRoundTrip(box: Box, from: Box, to: Box)
    requires BoxInside(box, from) && !Empty(from) && from.width <= to.width && from.height <= to.height
    ensures ReanchorBox(ReanchorBox(box, from, to), to, from) == box <==>
      && Returns(box.Horizontal(), from.Horizontal(), to.Horizontal())
      && Returns(box.Vertical(), from.Vertical(), to.Vertical())
  {
    AxisRoundTrip(box.Horizontal(), from.Horizontal(), to.Horizontal());
    AxisRoundTrip(box.Vertical(), from.Vertical(), to.Vertical());
  }

  /** In particular always when the last pixel of the larger area has 32-bit coordinates. */
  lemma ReanchorRoundTripInRange(box: Box, from: Box, to: Box)
    requires BoxInside(box, from) && !Empty(from) && from.width <= to.width && from.height <= to.height
    requires to.x + to.width - 1 <= INT_MAX && to.y + to.height - 1 <= INT_MAX
    ensures ReanchorBox(ReanchorBox(box, from, to), to, from) == box
  {
    ReanchorRoundTrip(box, from, to);
    InRange(box.Horizontal(), from.Horizontal(), to.Horizontal());
    InRange(box.Vertical(), from.Vertical(), to.Vertical());
  }

  lemma InRange(a: Axis, from: Axis, to: Axis)
    requires Inside(a, from) && 1 <= from.size <= to.size && to.End() - 1 <= INT_MAX
    ensures Returns(a, from, to)
  {
    var d: int, f: int, t: int := a.start - from.start, from.size, to.size;
    Step(t - 1, INT_MAX - to.start, f);
    Distribute(t, 1, f);
    Step(d, f - 1, t);
    Distribute(f, 1, t);
  }

  /** An area that runs past the largest coordinate can lose the box. */
  lemma ReturnCanFail()
    ensures var from, to, box := Box(0, 0, 100, 100), Box(INT_MAX - 10, 0, 100, 100), Box(50, 0, 1, 1);
      BoxInside(box, from) && ReanchorBox(ReanchorBox(box, from, to), to, from) != box
  {
    var from, to, box := Box(0, 0, 100, 100), Box(INT_MAX - 10, 0, 100, 100), Box(50, 0, 1, 1);
    ReanchorRoundTrip(box, from, to);
  }

  // ----- Centring ------------------------------------------------------------------------------------

  /** Division by two in C. */
  function Halved(n: int): int {
    if n >= 0 then n / 2 else -(-n / 2)
  }

  function CenterAxis(size: Int32, anchor: Axis): Axis {
    Axis(Saturate(anchor.start + Halved(anchor.size - size)), size)
  }

  /** leme_view_policy_center_box. */
  function CenterBox(box: Box, anchor: Box, area: Box): Box {
    if Empty(area) then box
    else
      var around := if Empty(anchor) then area else anchor;
      var width, height := FitSize(box.width, area.width), FitSize(box.height, area.height);
      ClampBox(FromAxes(CenterAxis(width, around.Horizontal()), CenterAxis(height, around.Vertical())), area)
  }

  /** How much more space there is after a than before it. */
  function Skew(a: Axis, around: Axis): int {
    (around.End() - a.End()) - (a.start - around.start)
  }

  /** The space before and after, equal up to one pixel that goes to the far side. */
  predicate Centered(a: Axis, area: Axis) {
    0 <= Skew(a, area) <= 1
  }

  /** a is closer to the middle of `around` than p. As far from it on the other side, a
      has its odd pixel behind it, or before it if it is larger than `around`. */
  predicate NearerMiddle(a: Axis, p: Axis, around: Axis) {
    || Distance(0, Skew(a, around)) < Distance(0, Skew(p, around))
    || (Skew(a, around) == -Skew(p, around) && (a.start < p.start <==> a.size <= around.size))
  }

  lemma CenterAxisNearest(a: Axis, p: Axis, around: Axis, area: Axis)
    requires Inside(p, area) && a == ClampAxis(CenterAxis(p.size, around), area) && a != p
    ensures a.size == p.size ==> NearerMiddle(a, p, around)
  {
  }

  /** What the source promises of an anchor inside or outside the area: of all the places
      for a box of this size in the area, none is nearer to the middle of the anchor. */
  lemma CenterIsNearest(box: Box, anchor: Box, area: Box, p: Box)
    requires !Empty(area) && !Empty(anchor) && BoxInside(p, area)
    ensures var r := CenterBox(box, anchor, area);
      p.width == r.width && p.height == r.height ==>
        && (r.x == p.x || NearerMiddle(r.Horizontal(), p.Horizontal(), anchor.Horizontal()))
        && (r.y == p.y || NearerMiddle(r.Vertical(), p.Vertical(), anchor.Vertical()))
  {
    var r := CenterBox(box, anchor, area);
    CenterBalances(box, anchor, area);
    if p.width == r.width && p.height == r.height {
      if r.x != p.x {
        CenterAxisNearest(r.Horizontal(), p.Horizontal(), anchor.Horizontal(), area.Horizontal());
      }
      if r.y != p.y {
        CenterAxisNearest(r.Vertical(), p.Vertical(), anchor.Vertical(), area.Vertical());
      }
    }
  }

  /** Centred on the area itself the margins are equal, exactly unless saturation gets
      in the way. */
  lemma CenterAxisBalances(size: Int32, area: Axis)
    requires 1 <= size <= area.size
    ensures var r := ClampAxis(CenterAxis(size, area), area);
      Centered(r, area) <==> area.start + (area.size - size) / 2 <= INT_MAX
  {
  }

  /** The box ends up in the area, and centred on the area itself it is balanced exactly
      when its coordinates need no saturation. */
  lemma CenterBalances(box: Box, anchor: Box, area: Box)
    requires !Empty(area)
    ensures var r := CenterBox(box, anchor, area);
      && BoxInside(r, area)
      && r.width == FitSize(box.width, area.width) && r.height == FitSize(box.height, area.height)
      && (anchor == area || Empty(anchor) ==>
           && (Centered(r.Horizontal(), area.Horizontal()) <==> area.x + (area.width - r.width) / 2 <= INT_MAX)
           && (Centered(r.Vertical(), area.Vertical()) <==> area.y + (area.height - r.height) / 2 <= INT_MAX))
  {
    var around := if Empty(anchor) then area else anchor;
    var h := CenterAxis(FitSize(box.width, area.width), around.Horizontal());
    var v := CenterAxis(FitSize(box.height, area.height), around.Vertical());
    ClampKeeps(FromAxes(h, v), area);
    CenterAxisBalances(FitSize(box.width, area.width), area.Horizontal());
    CenterAxisBalances(FitSize(box.height, area.height), area.Vertical());
  }

  /** Past the largest coordinate a box is not centred. */
  lemma CenteringCanFail()
    ensures var area, box := Box(INT_MAX - 10, 0, 100, 100), Box(0, 0, 10, 10);
      !Centered(CenterBox(box, area, area).Horizontal(), area.Horizontal())
  {
    var area, box := Box(INT_MAX - 10, 0, 100, 100), Box(0, 0, 10, 10);
    CenterBalances(box, area, area);
  }
}
