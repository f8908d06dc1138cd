/** The workspace transition effect (render/workspace_effect.c): the leaves of two scene
    trees are moved and cropped for every frame. Doubles are exact reals here. */
module Effect {
  import opened Ints
  import opened Options
  import opened Reals
  import opened Seqs
  import opened Transforms

  datatype Box = Box(x: int, y: int, width: Int32, height: Int32) {
    predicate Has(px: int, py: int) {
      x <= px < x + width && y <= py < y + height
    }
  }

  const NOWHERE := Fbox(0.0, 0.0, 0.0, 0.0)

  /** The size of a buffer, and how it is turned to be shown. */
  datatype Buffer = Buffer(width: Int32, height: Int32, transform: Transform) {
    function Turn(part: Fbox): Fbox {
      Turned(part, transform, width as real, height as real)
    }

    function TurnBack(part: Fbox): Fbox {
      var (w, h) := Extent(transform, width as real, height as real);
      Turned(part, Inverse(transform), w, h)
    }

    lemma TurnsThereAndBack(part: Fbox)
      ensures TurnBack(Turn(part)) == part && Turn(TurnBack(part)) == part
      ensures Turn(part).Empty() == part.Empty() == TurnBack(part).Empty()
    {
      var (w, h) := Extent(transform, width as real, height as real);
      TurnsBack(part, transform, width as real, height as real);
      TurnsBack(part, Inverse(transform), w, h);
      TurnedEmpty(part, transform, width as real, height as real);
      TurnedEmpty(part, Inverse(transform), w, h);
    }
  }

  /** What can be seen of a node: the size of a rectangle or the destination size of a
      buffer, the four colour components or the opacity, and the part of the buffer. */
  datatype Look = Look(x: Int32, y: Int32, enabled: bool, width: Int32, height: Int32, shade: seq<real>, source: Fbox)

  class SceneNode {
    var x: Int32
    var y: Int32
    var enabled: bool
    var width: Int32
    var height: Int32
    var shade: seq<real>
    var source: Fbox
    /** Whether a buffer lets the pointer through, and which of its pixels are opaque. */
    var mute: bool
    var opaquePixels: set<(int, int)>

    function State(): Look
      reads this
    {
      Look(x, y, enabled, width, height, shade, source)
    }

    predicate Muted()
      reads this
    {
      mute && opaquePixels == {}
    }

    constructor (look: Look, opaquePixels: set<(int, int)>)
      ensures State() == look && !mute && this.opaquePixels == opaquePixels
    {
      x, y, enabled, width, height := look.x, look.y, look.enabled, look.width, look.height;
      shade, source, mute := look.shade, look.source, false;
      this.opaquePixels := opaquePixels;
    }
  }

  /** Where something is inside an enclosing tree, and whether it is visible there. */
  datatype Above = Above(dx: int, dy: int, visible: bool) {
    function Under(outer: Above): Above {
      Above(outer.dx + dx, outer.dy + dy, outer.visible && visible)
    }
  }

  /** A recorded leaf: its node, its buffer if it has one, its place among the trees
      between it and the root, and how it looked. */
  datatype Leaf = Leaf(node: SceneNode, buffer: Option<Buffer>, above: Above, base: Look) {
    /** The size it is shown with: a buffer without a destination size has its own, turned. */
    function Size(): (Int32, Int32) {
      if buffer.None? || base.width != 0 || base.height != 0 then (base.width, base.height)
      else Extent(buffer.value.transform, buffer.value.width, buffer.value.height)
    }

    /** Where it belongs on the screen when its root is at `at`. */
    function Area(at: Above): Box {
      Box(at.dx + above.dx + base.x, at.dy + above.dy + base.y, Size().0, Size().1)
    }

    /** The part of the buffer it shows. */
    function Source(): Fbox
      requires buffer.Some?
    {
      if base.source.Empty() then Fbox(0.0, 0.0, buffer.value.width as real, buffer.value.height as real)
      else base.source
    }

    /** That part as it is seen. */
    function Picture(): Fbox
      requires buffer.Some?
    {
      buffer.value.Turn(Source())
    }
  }

  // ----- What a leaf looks like -------------------------------------------------------------------

  function Shaded(shade: seq<real>, opacity: real): (r: seq<real>)
    ensures |r| == |shade| && forall k :: 0 <= k < |shade| ==> r[k] == shade[k] * opacity
  {
    if shade == [] then [] else [shade[0] * opacity] + Shaded(shade[1..], opacity)
  }

  /** As recorded, but for the opacity. */
  function Restored(leaf: Leaf, opacity: real): Look {
    leaf.base.(shade := Shaded(leaf.base.shade, opacity),
               source := if leaf.buffer.Some? && leaf.base.source.Empty() then NOWHERE else leaf.base.source)
  }

  datatype Clip = Clip(left: int, top: int, width: int, height: int)

  /** leme_workspace_intersection. */
  function Intersection(viewport: Box, area: Box): (r: Option<Clip>)
    ensures r.Some? ==> 0 <= r.value.left && 0 < r.value.width <= viewport.width
    ensures r.Some? ==> 0 <= r.value.top && 0 < r.value.height <= viewport.height
  {
    var left, top := Max(area.x, viewport.x), Max(area.y, viewport.y);
    var right := Min(area.x + area.width, viewport.x + viewport.width);
    var bottom := Min(area.y + area.height, viewport.y + viewport.height);
    if right <= left || bottom <= top then None
    else Some(Clip(left - area.x, top - area.y, right - left, bottom - top))
  }

  /** How much of an extent k of n pixels are. */
  function Part(k: real, extent: real, n: real): real
    requires n != 0.0
  {
    k * extent / n
  }

  /** What the clip leaves of the picture. */
  function Cropped(leaf: Leaf, clip: Clip): Fbox
    requires leaf.buffer.Some? && leaf.Size().0 != 0 && leaf.Size().1 != 0
  {
    var s, w, h := leaf.Picture(), leaf.Size().0 as real, leaf.Size().1 as real;
    Fbox(s.x + Part(clip.left as real, s.width, w), s.y + Part(clip.top as real, s.height, h),
         Part(clip.width as real, s.width, w), Part(clip.height as real, s.height, h))
  }

  /** What one frame makes of a leaf; nothing of what earlier frames made of it is in it. */
  function Shown(leaf: Leaf, viewport: Box, at: Above, opacity: real): Look {
    var base, area := Restored(leaf, opacity), leaf.Area(at);
    if !leaf.base.enabled then base
    else if area.width <= 0 || area.height <= 0 || !at.visible || !leaf.above.visible then base.(enabled := false)
    else
      match Intersection(viewport, area)
      case None => base.(enabled := false)
      case Some(clip) =>
        if clip == Clip(0, 0, area.width, area.height) then base
        else base.(x := Saturate(leaf.base.x + clip.left), y := Saturate(leaf.base.y + clip.top),
                   width := clip.width, height := clip.height,
                   source := if leaf.buffer.Some? then leaf.buffer.value.TurnBack(Cropped(leaf, clip)) else base.source)
  }

  // ----- What is seen of it ------------------------------------------------------------------------

  /** Where a leaf with that look is seen. */
  function Seen(leaf: Leaf, look: Look, at: Above): Box {
    leaf.(base := look).Area(at)
  }

  predicate Drawn(leaf: Leaf, at: Above) {
    leaf.base.enabled && at.visible && leaf.above.visible && leaf.Size().0 > 0 && leaf.Size().1 > 0
  }

  /** A leaf is drawn exactly when it and everything around it is enabled and its box
      has a pixel. */
  lemma DrawnExactly(leaf: Leaf, at: Above)
    ensures Drawn(leaf, at) <==>
      leaf.base.enabled && leaf.above.visible && at.visible && exists px, py :: leaf.Area(at).Has(px, py)
  {
    var a := leaf.Area(at);
    if a.width > 0 && a.height > 0 {
      assert a.Has(a.x, a.y);
    }
  }

  /** What a leaf shows of its buffer, turned back: the part that was set for it, or else
      all of the buffer, for which its picture is all of the buffer as it is seen. */
  lemma WholeBuffer(leaf: Leaf)
    requires leaf.buffer.Some?
    ensures var b := leaf.buffer.value;
      var (w, h) := Extent(b.transform, b.width as real, b.height as real);
      if leaf.base.source.Empty() then leaf.Picture() == Fbox(0.0, 0.0, w, h)
      else b.TurnBack(leaf.Picture()) == leaf.base.source
  {
    leaf.buffer.value.TurnsThereAndBack(leaf.Source());
  }

  ghost predicate Overlap(a: Box, b: Box) {
    exists px, py :: a.Has(px, py) && b.Has(px, py)
  }

  /** A leaf that is not drawn anyway stays disabled or hidden; the others are disabled
      exactly when no pixel of theirs is in the viewport. */
  lemma DisabledExactly(leaf: Leaf, viewport: Box, at: Above, opacity: real)
    requires leaf.base.enabled
    ensures Shown(leaf, viewport, at, opacity).enabled <==> Drawn(leaf, at) && Overlap(leaf.Area(at), viewport)
  {
    var a := leaf.Area(at);
    var px, py := Max(a.x, viewport.x), Max(a.y, viewport.y);
    if Intersection(viewport, a).Some? {
      assert a.width > 0 && a.height > 0 ==> a.Has(px, py) && viewport.Has(px, py);
    }
  }

  ghost predicate SamePixels(seen: Box, area: Box, viewport: Box) {
    forall px, py :: seen.Has(px, py) <==> area.Has(px, py) && viewport.Has(px, py)
  }

  /** An enabled leaf shows exactly the pixels of its moved box that are in the viewport,
      unless its new position within its parent saturated, and then it does not. */
  lemma ShowsExactly(leaf: Leaf, viewport: Box, at: Above, opacity: real)
    requires leaf.base.enabled && Shown(leaf, viewport, at, opacity).enabled
    ensures SamePixels(Seen(leaf, Shown(leaf, viewport, at, opacity), at), leaf.Area(at), viewport) <==>
      var a := leaf.Area(at);
      leaf.base.x + Max(0, viewport.x - a.x) <= INT_MAX && leaf.base.y + Max(0, viewport.y - a.y) <= INT_MAX
  {
    var a, look := leaf.Area(at), Shown(leaf, viewport, at, opacity);
    var seen, clip := Seen(leaf, look, at), Intersection(viewport, a).value;
    assert seen.width == clip.width && seen.height == clip.height;
    if !(leaf.base.x + clip.left <= INT_MAX && leaf.base.y + clip.top <= INT_MAX) {
      assert seen.Has(seen.x, seen.y) && !(a.Has(seen.x, seen.y) && viewport.Has(seen.x, seen.y));
    }
  }

  /** Where a buffer is sampled for the point u of a row of n pixels. */
  function Sample(start: real, extent: real, n: real, u: real): real
    requires n > 0.0
  {
    start + Part(u, extent, n)
  }

  /** A rectangle at the largest coordinate, in a tree that brings it back. */
  function FarLeaf(node: SceneNode): Leaf {
    Leaf(node, None, Above(90 - (INT_MAX - 5), 0, true), Look(INT_MAX - 5, 0, true, 50, 50, [], NOWHERE))
  }

  /** Cropping it would need a position past the largest coordinate. */
  lemma CroppingCanSaturate(node: SceneNode)
    ensures var leaf, viewport, at := FarLeaf(node), Box(100, 0, 100, 100), Above(0, 0, true);
      var look := Shown(leaf, viewport, at, 1.0);
      look.enabled && !SamePixels(Seen(leaf, look, at), leaf.Area(at), viewport)
  {
    ShowsExactly(FarLeaf(node), Box(100, 0, 100, 100), Above(0, 0, true), 1.0);
  }

  lemma CropAxis(start: real, extent: real, n: real, left: real, width: real, u: real)
    requires n > 0.0 && width > 0.0 && extent > 0.0
    ensures Part(width, extent, n) > 0.0
    ensures width == n ==> Part(width, extent, n) == extent
    ensures left == 0.0 ==> Part(left, extent, n) == 0.0
    ensures Sample(start + Part(left, extent, n), Part(width, extent, n), width, u - left)
      == Sample(start, extent, n, u)
  {
    var k := extent / n;
    assert width * extent / n == width * k && left * extent / n == left * k && u * extent / n == u * k;
    assert (u - left) * (width * k) / width == (u - left) * k;
    assert n * extent / n == extent;
  }

  predicate HasPixels(leaf: Leaf) {
    leaf.buffer.Some? && leaf.buffer.value.width > 0 && leaf.buffer.value.height > 0
  }

  /** The part of its buffer that a leaf shows, cropped or not. */
  lemma ShownPicture(leaf: Leaf, viewport: Box, at: Above, opacity: real)
    requires leaf.base.enabled && Shown(leaf, viewport, at, opacity).enabled && HasPixels(leaf)
    ensures
      var shown := leaf.(base := Shown(leaf, viewport, at, opacity));
      var clip := Intersection(viewport, leaf.Area(at)).value;
      shown.Size() == (clip.width, clip.height) && shown.Picture() == Cropped(leaf, clip)
  {
    var s, clip := leaf.Picture(), Intersection(viewport, leaf.Area(at)).value;
    CropAxis(s.x, s.width, leaf.Size().0 as real, clip.left as real, clip.width as real, 0.0);
    CropAxis(s.y, s.height, leaf.Size().1 as real, clip.top as real, clip.height as real, 0.0);
    leaf.buffer.value.TurnsThereAndBack(leaf.Source());
    leaf.buffer.value.TurnsThereAndBack(Cropped(leaf, clip));
  }

  /** Cropping does not move the picture, however the buffer is turned: every point shows
      what it showed before. */
  lemma CropKeepsSampling(leaf: Leaf, viewport: Box, at: Above, opacity: real, u: real, v: real)
    requires leaf.base.enabled && Shown(leaf, viewport, at, opacity).enabled && HasPixels(leaf)
    ensures
      var shown := leaf.(base := Shown(leaf, viewport, at, opacity));
      var clip := Intersection(viewport, leaf.Area(at)).value;
      var now, was := shown.Picture(), leaf.Picture();
      && Sample(now.x, now.width, shown.Size().0 as real, u - clip.left as real)
        == Sample(was.x, was.width, leaf.Size().0 as real, u)
      && Sample(now.y, now.height, shown.Size().1 as real, v - clip.top as real)
        == Sample(was.y, was.height, leaf.Size().1 as real, v)
  {
    ShownPicture(leaf, viewport, at, opacity);
    leaf.buffer.value.TurnsThereAndBack(leaf.Source());
    var s, clip := leaf.Picture(), Intersection(viewport, leaf.Area(at)).value;
    CropAxis(s.x, s.width, leaf.Size().0 as real, clip.left as real, clip.width as real, u);
    CropAxis(s.y, s.height, leaf.Size().1 as real, clip.top as real, clip.height as real, v);
  }

  // ----- Recording the leaves --------------------------------------------------------------------------

  /** A scene tree. */
  datatype Item =
    | Branch(x: Int32, y: Int32, enabled: bool, children: seq<Item>)
    | Rectangle(node: SceneNode)
    | Picture(node: SceneNode, buffer: Option<Buffer>)

  const AT_ROOT := Above(0, 0, true)

  /** A leaf of a tree that can be drawn, and its place in the tree. */
  datatype Site = Site(node: SceneNode, buffer: Option<Buffer>, above: Above)

  /** The leaves of a tree in order; a buffer node without a buffer is none. */
  function Sites(items: seq<Item>, above: Above): seq<Site> {
    if items == [] then [] else SitesOf(items[0], above) + Sites(items[1..], above)
  }

  function SitesOf(item: Item, above: Above): seq<Site> {
    match item
    case Branch(x, y, enabled, children) => Sites(children, Above(x, y, enabled).Under(above))
    case Rectangle(node) => [Site(node, None, above)]
    case Picture(node, buffer) => if buffer.None? then [] else [Site(node, buffer, above)]
  }

  function Record(site: Site): Leaf
    reads site.node
  {
    Leaf(site.node, site.buffer, site.above, site.node.State())
  }

  /** The leaves are those sites as they are now. */
  ghost predicate Recorded(leaves: seq<Leaf>, sites: seq<Site>)
    reads set s | s in sites :: s.node
  {
    |leaves| == |sites| && forall k :: 0 <= k < |sites| ==> leaves[k] == Record(sites[k])
  }

  /** The boxes on the screen of what a tree can draw, when the tree is at (x, y): every
      tree moves what is inside it. */
  ghost function Boxes(items: seq<Item>, x: int, y: int): seq<Box>
    reads *
  {
    if items == [] then [] else BoxesOf(items[0], x, y) + Boxes(items[1..], x, y)
  }

  ghost function BoxesOf(item: Item, x: int, y: int): seq<Box>
    reads *
  {
    match item
    case Branch(dx, dy, _, children) => Boxes(children, x + dx, y + dy)
    case Rectangle(node) => [Box(x + node.x, y + node.y, node.width, node.height)]
    case Picture(node, buffer) =>
      if buffer.None? then []
      else if node.width != 0 || node.height != 0 then [Box(x + node.x, y + node.y, node.width, node.height)]
      else
        var (width, height) := Extent(buffer.value.transform, buffer.value.width, buffer.value.height);
        [Box(x + node.x, y + node.y, width, height)]
  }

  /** The records of these sites give these boxes when the root is at `at`. */
  ghost predicate AreAt(sites: seq<Site>, boxes: seq<Box>, at: Above)
    reads *
  {
    |sites| == |boxes| && forall k :: 0 <= k < |sites| ==> Record(sites[k]).Area(at) == boxes[k]
  }

  /** The records of a tree give the boxes of the tree, wherever its root is put. */
  lemma {:induction false} AreasAreBoxes(items: seq<Item>, above: Above, at: Above)
    ensures AreAt(Sites(items, above), Boxes(items, at.dx + above.dx, at.dy + above.dy), at)
  {
    if items != [] {
      AreasOfItem(items[0], above, at);
      AreasAreBoxes(items[1..], above, at);
    }
  }

  lemma {:induction false} AreasOfItem(item: Item, above: Above, at: Above)
    ensures AreAt(SitesOf(item, above), BoxesOf(item, at.dx + above.dx, at.dy + above.dy), at)
  {
    if item.Branch? {
      var inner := Above(item.x, item.y, item.enabled).Under(above);
      AreasAreBoxes(item.children, inner, at);
      assert at.dx + inner.dx == at.dx + above.dx + item.x && at.dy + inner.dy == at.dy + above.dy + item.y;
    }
  }

  ghost function BufferNodes(sites: seq<Site>): set<SceneNode> {
    set s | s in sites && s.buffer.Some? :: s.node
  }

  predicate Drawable(leaf: Leaf) {
    leaf.base.enabled && leaf.Size().0 > 0 && leaf.Size().1 > 0
  }

  lemma DrawableExactly(leaf: Leaf)
    ensures Drawable(leaf) <==> leaf.base.enabled && exists px, py :: leaf.Area(AT_ROOT).Has(px, py)
  {
    var a := leaf.Area(AT_ROOT);
    if a.width > 0 && a.height > 0 {
      assert a.Has(a.x, a.y);
    }
  }

  function DrawableCount(leaves: seq<Leaf>): nat {
    if leaves == [] then 0 else (if Drawable(leaves[0]) then 1 else 0) + DrawableCount(leaves[1..])
  }

  lemma {:induction false} DrawableCountConcat(a: seq<Leaf>, b: seq<Leaf>)
    ensures DrawableCount(a + b) == DrawableCount(a) + DrawableCount(b)
  {
    if a == [] {
      assert a + b == b;
    } else {
      assert (a + b)[1..] == a[1..] + b;
      DrawableCountConcat(a[1..], b);
    }
  }

  /** There is nothing to see exactly when the count is zero. */
  lemma {:induction false} DrawableCountEnds(leaves: seq<Leaf>)
    ensures DrawableCount(leaves) <= |leaves|
    ensures DrawableCount(leaves) == 0 <==> forall l :: l in leaves ==> !Drawable(l)
    ensures DrawableCount(leaves) == |leaves| <==> forall l :: l in leaves ==> Drawable(l)
  {
    if leaves != [] {
      DrawableCountEnds(leaves[1..]);
      assert leaves == [leaves[0]] + leaves[1..];
    }
  }

  lemma RecordedMore(leaves: seq<Leaf>, sites: seq<Site>, more: seq<Leaf>, next: seq<Site>)
    requires Recorded(leaves, sites) && Recorded(more, next)
    ensures Recorded(leaves + more, sites + next)
    ensures DrawableCount(leaves + more) == DrawableCount(leaves) + DrawableCount(more)
  {
    DrawableCountConcat(leaves, more);
  }

  /** leme_workspace_collect_tree: the leaves are recorded, and the buffers among them let
      the pointer through from now on. */
  method CollectTree(items: seq<Item>, above: Above) returns (leaves: seq<Leaf>, count: nat)
    modifies BufferNodes(Sites(items, above))`mute
    ensures Recorded(leaves, Sites(items, above)) && count == DrawableCount(leaves)
    ensures forall n :: n in BufferNodes(Sites(items, above)) ==> n.mute
    decreases items
  {
    leaves, count := [], 0;
    ghost var sites := [];
    var index := 0;
    assert items[0..] == items;
    while index < |items|
      invariant index <= |items| && sites + Sites(items[index..], above) == Sites(items, above)
      invariant Recorded(leaves, sites) && count == DrawableCount(leaves)
      invariant forall n :: n in BufferNodes(sites) ==> n.mute
    {
      assert items[index..][0] == items[index] && items[index..][1..] == items[index + 1..];
      ghost var next, rest := SitesOf(items[index], above), Sites(items[index + 1..], above);
      Associate(sites, next, rest);
      BufferNodesWithin(sites, next, rest);
      var more, extra := CollectItem(items[index], above);
      RecordedMore(leaves, sites, more, next);
      leaves, count, sites := leaves + more, count + extra, sites + next;
      index := index + 1;
    }
  }

  lemma BufferNodesWithin(sites: seq<Site>, next: seq<Site>, rest: seq<Site>)
    ensures BufferNodes(next) <= BufferNodes(sites + (next + rest))
    ensures BufferNodes(sites + next) == BufferNodes(sites) + BufferNodes(next)
  {
  }

  method CollectItem(item: Item, above: Above) returns (leaves: seq<Leaf>, count: nat)
    modifies BufferNodes(SitesOf(item, above))`mute
    ensures Recorded(leaves, SitesOf(item, above)) && count == DrawableCount(leaves)
    ensures forall n :: n in BufferNodes(SitesOf(item, above)) ==> n.mute
    decreases item
  {
    leaves := [];
    match item {
      case Branch(x, y, enabled, children) =>
        leaves, count := CollectTree(children, Above(x, y, enabled).Under(above));
        return;
      case Rectangle(node) =>
        leaves := [Record(Site(node, None, above))];
      case Picture(node, buffer) =>
        if buffer.Some? {
          assert Site(node, buffer, above) in SitesOf(item, above);
          node.mute := true;
          leaves := [Record(Site(node, buffer, above))];
        }
    }
    count := if leaves != [] && Drawable(leaves[0]) then 1 else 0;
  }

  // ----- Frames -----------------------------------------------------------------------------------------

  datatype Frame = Frame(x: Int32, y: Int32, opacity: real)

  function Nodes(leaves: seq<Leaf>): set<SceneNode> {
    set l | l in leaves :: l.node
  }

  predicate Distinct(leaves: seq<Leaf>) {
    forall i, j :: 0 <= i < j < |leaves| ==> leaves[i].node != leaves[j].node
  }

  /** A scene tree does not hold a node twice. */
  predicate Separate(sites: seq<Site>) {
    forall i, j :: 0 <= i < j < |sites| ==> sites[i].node != sites[j].node
  }

  /** leme_workspace_offset. */
  function Moved(origin: Int32, direction: int, distance: int): Int32 {
    Saturate(origin + direction * distance)
  }

  /** leme_workspace_opacity. */
  function UnitOpacity(opacity: real): real {
    if opacity <= 0.0 then 0.0 else if opacity >= 1.0 then 1.0 else opacity
  }

  method Shade(shade: seq<real>, opacity: real) returns (shaded: seq<real>)
    ensures shaded == Shaded(shade, opacity)
  {
    shaded := [];
    for index := 0 to |shade|
      invariant |shaded| == index && shaded == Shaded(shade, opacity)[..index]
    {
      shaded := shaded + [shade[index] * opacity];
    }
  }

  /** What happens to the node of a leaf beside its look: a buffer lets the pointer
      through and has no opaque pixels any more. */
  twostate predicate Muted(leaf: Leaf)
    reads leaf.node
  {
    if leaf.buffer.Some? then leaf.node.Muted() else unchanged(leaf.node`mute, leaf.node`opaquePixels)
  }

  /** leme_workspace_restore_leaf. */
  method RestoreLeaf(leaf: Leaf, opacity: real)
    modifies leaf.node
    ensures leaf.node.State() == Restored(leaf, opacity) && Muted(leaf)
  {
    var node := leaf.node;
    node.x, node.y, node.enabled := leaf.base.x, leaf.base.y, leaf.base.enabled;
    node.width, node.height := leaf.base.width, leaf.base.height;
    node.shade := Shade(leaf.base.shade, opacity);
    node.source := if leaf.buffer.Some? && leaf.base.source.Empty() then NOWHERE else leaf.base.source;
    if leaf.buffer.Some? {
      node.mute, node.opaquePixels := true, {};
    }
  }

  /** leme_workspace_apply_leaf. */
  method ApplyLeaf(leaf: Leaf, viewport: Box, at: Above, opacity: real)
    modifies leaf.node
    ensures leaf.node.State() == Shown(leaf, viewport, at, opacity) && Muted(leaf)
  {
    var node := leaf.node;
    RestoreLeaf(leaf, opacity);
    if !leaf.base.enabled {
      return;
    }
    var area := leaf.Area(at);
    var clip := Intersection(viewport, area);
    if area.width <= 0 || area.height <= 0 || !at.visible || !leaf.above.visible || clip.None? {
      node.enabled := false;
      return;
    }
    if clip.value == Clip(0, 0, area.width, area.height) {
      return;
    }
    node.x, node.y := Moved(leaf.base.x, 1, clip.value.left), Moved(leaf.base.y, 1, clip.value.top);
    node.width, node.height := clip.value.width, clip.value.height;
    if leaf.buffer.Some? {
      node.source := leaf.buffer.value.TurnBack(Cropped(leaf, clip.value));
    }
  }

  ghost predicate AllShown(leaves: seq<Leaf>, viewport: Box, at: Above, opacity: real)
    reads Nodes(leaves)
  {
    forall l :: l in leaves ==> l.node.State() == Shown(l, viewport, at, opacity)
  }

  /** leme_workspace_apply_leaves. */
  method ApplyLeaves(leaves: seq<Leaf>, viewport: Box, at: Above, opacity: real)
    requires Distinct(leaves)
    modifies Nodes(leaves)
    ensures AllShown(leaves, viewport, at, opacity) && forall l :: l in leaves ==> Muted(l)
  {
    for index := 0 to |leaves|
      invariant forall k :: 0 <= k < index ==>
        leaves[k].node.State() == Shown(leaves[k], viewport, at, opacity) && Muted(leaves[k])
      invariant forall k :: index <= k < |leaves| ==> unchanged(leaves[k].node)
    {
      assert leaves[index] in leaves;
      ApplyLeaf(leaves[index], viewport, at, opacity);
    }
  }

  /** A look that differs at most in which way its part of the buffer is left open. */
  predicate Alike(a: Look, b: Look) {
    a == b.(source := a.source) && (a.source == b.source || (a.source.Empty() && b.source.Empty()))
  }

  lemma RestoredIsAlike(leaf: Leaf)
    ensures Alike(Restored(leaf, 1.0), leaf.base)
  {
    assert Shaded(leaf.base.shade, 1.0) == leaf.base.shade;
  }

  /** The colours and the opacity of a leaf are as recorded, or all zero. */
  predicate Opaque(leaf: Leaf)
    reads leaf.node
  {
    leaf.node.shade == leaf.base.shade
  }

  predicate Transparent(leaf: Leaf)
    reads leaf.node
  {
    |leaf.node.shade| == |leaf.base.shade| && forall k :: 0 <= k < |leaf.node.shade| ==> leaf.node.shade[k] == 0.0
  }

  lemma ShadedEnds(shade: seq<real>)
    ensures Shaded(shade, 1.0) == shade
    ensures forall k :: 0 <= k < |shade| ==> Shaded(shade, 0.0)[k] == 0.0
  {
  }

  /** Component by component, no stronger. */
  predicate NoStronger(a: seq<real>, b: seq<real>) {
    |a| == |b| && forall k :: 0 <= k < |a| ==> a[k] <= b[k]
  }

  lemma ProductRises(x: real, p: real, q: real)
    requires 0.0 <= x && p <= q
    ensures x * p <= x * q
  {
    Product(x, q - p);
  }

  lemma {:induction false} ShadedRises(shade: seq<real>, p: real, q: real)
    requires (forall k :: 0 <= k < |shade| ==> 0.0 <= shade[k]) && p <= q
    ensures NoStronger(Shaded(shade, p), Shaded(shade, q))
  {
    forall k | 0 <= k < |shade| ensures Shaded(shade, p)[k] <= Shaded(shade, q)[k] {
      ProductRises(shade[k], p, q);
    }
  }

  /** However a leaf is cropped, its colours are the recorded ones times the opacity. */
  lemma ShownShade(leaf: Leaf, viewport: Box, at: Above, opacity: real)
    ensures Shown(leaf, viewport, at, opacity).shade == Shaded(leaf.base.shade, opacity)
  {
  }

  /** The leaves of both trees, which are different nodes. */
  method CollectBoth(outgoingTree: seq<Item>, incomingTree: seq<Item>)
      returns (leaving: seq<Leaf>, coming: seq<Leaf>, count: nat)
    requires Separate(Sites(outgoingTree, AT_ROOT) + Sites(incomingTree, AT_ROOT))
    modifies BufferNodes(Sites(outgoingTree, AT_ROOT))`mute, BufferNodes(Sites(incomingTree, AT_ROOT))`mute
    ensures Recorded(leaving, Sites(outgoingTree, AT_ROOT)) && Recorded(coming, Sites(incomingTree, AT_ROOT))
    ensures Distinct(leaving + coming) && count == DrawableCount(leaving) + DrawableCount(coming)
  {
    var first, second;
    leaving, first := CollectTree(outgoingTree, AT_ROOT);
    coming, second := CollectTree(incomingTree, AT_ROOT);
    SeparateLeaves(leaving + coming, Sites(outgoingTree, AT_ROOT) + Sites(incomingTree, AT_ROOT));
    count := first + second;
  }

  class Transition {
    const outgoing: seq<Leaf>
    const incoming: seq<Leaf>
    const viewport: Box
    const direction: int
    const fade: bool
    const travel: int
    const drawableCount: nat
    /** Where the two roots are mounted, and whether they are visible. */
    const outgoingStage: Above
    const incomingStage: Above
    var outgoingX: Int32
    var outgoingY: Int32
    var incomingX: Int32
    var incomingY: Int32

    ghost predicate Valid() {
      Distinct(outgoing + incoming)
    }

    function OutgoingOpacity(frame: Frame): real {
      if fade then UnitOpacity(frame.opacity) else 1.0
    }

    function IncomingOpacity(frame: Frame): real {
      if fade then 1.0 - UnitOpacity(frame.opacity) else 1.0
    }

    function OutgoingAt(frame: Frame): Above {
      Above(frame.x, frame.y, true).Under(outgoingStage)
    }

    function IncomingAt(frame: Frame): Above {
      Above(Moved(frame.x, direction, travel), frame.y, true).Under(incomingStage)
    }

    /** Where the two roots are now, on the screen. */
    function OutgoingNow(): Above
      reads this
    {
      Above(outgoingX, outgoingY, true).Under(outgoingStage)
    }

    function IncomingNow(): Above
      reads this
    {
      Above(incomingX, incomingY, true).Under(incomingStage)
    }

    /** The ends of the animation, by leme_workspace_effect_animation_spec. */
    function FirstFrame(): Frame
      requires INT_MIN <= viewport.x <= INT_MAX && INT_MIN <= viewport.y <= INT_MAX
    {
      Frame(viewport.x, viewport.y, 1.0)
    }

    function LastFrame(): Frame
      requires INT_MIN <= viewport.x <= INT_MAX && INT_MIN <= viewport.y <= INT_MAX
    {
      Frame(Moved(viewport.x, -direction, travel), viewport.y, if fade then 0.0 else 1.0)
    }

    /** One tree is as it was recorded and the other is not to be seen. */
    ghost predicate Only(shown: seq<Leaf>, hidden: seq<Leaf>)
      reads Nodes(shown), Nodes(hidden)
    {
      (forall l :: l in shown ==> Opaque(l)) && (forall l :: l in hidden ==> Transparent(l))
    }

    /** The scene is as one frame says, whatever came before it. */
    ghost predicate Presents(frame: Frame)
      reads Nodes(outgoing), Nodes(incoming)
    {
      && AllShown(outgoing, viewport, OutgoingAt(frame), OutgoingOpacity(frame))
      && AllShown(incoming, viewport, IncomingAt(frame), IncomingOpacity(frame))
    }

    constructor (outgoingTree: seq<Item>, incomingTree: seq<Item>, viewport: Box, direction: int, fade: bool,
        travel: int, outgoingStage: Above, incomingStage: Above)
      requires Separate(Sites(outgoingTree, AT_ROOT) + Sites(incomingTree, AT_ROOT))
      modifies BufferNodes(Sites(outgoingTree, AT_ROOT))`mute, BufferNodes(Sites(incomingTree, AT_ROOT))`mute
      ensures Valid() && Recorded(outgoing, Sites(outgoingTree, AT_ROOT))
      ensures Recorded(incoming, Sites(incomingTree, AT_ROOT))
      ensures drawableCount == DrawableCount(outgoing) + DrawableCount(incoming)
      ensures this.viewport == viewport && this.direction == direction && this.fade == fade && this.travel == travel
      ensures this.outgoingStage == outgoingStage && this.incomingStage == incomingStage
    {
      var leaving, coming, count := CollectBoth(outgoingTree, incomingTree);
      outgoing, incoming, drawableCount := leaving, coming, count;
      this.viewport, this.direction, this.fade, this.travel := viewport, direction, fade, travel;
      this.outgoingStage, this.incomingStage := outgoingStage, incomingStage;
      outgoingX, outgoingY, incomingX, incomingY := 0, 0, 0, 0;
    }

    /** leme_workspace_effect_apply. */
    method Apply(frame: Frame)
      requires Valid()
      modifies this, Nodes(outgoing), Nodes(incoming)
      ensures Presents(frame) && forall l :: l in outgoing + incoming ==> Muted(l)
      ensures (outgoingX, outgoingY) == (frame.x, frame.y)
      ensures (incomingX, incomingY) == (Moved(frame.x, direction, travel), frame.y)
      ensures OutgoingAt(frame) == OutgoingNow() && IncomingAt(frame) == IncomingNow()
      ensures fade && frame.opacity >= 1.0 ==> Only(outgoing, incoming)
      ensures fade && frame.opacity <= 0.0 ==> Only(incoming, outgoing)
      ensures !fade ==> forall l :: l in outgoing + incoming ==> Opaque(l)
    {
      var outgoingOpacity, incomingOpacity := 1.0, 1.0;
      if fade {
        outgoingOpacity := UnitOpacity(frame.opacity);
        incomingOpacity := 1.0 - outgoingOpacity;
      }
      outgoingX, outgoingY := frame.x, frame.y;
      incomingX, incomingY := Moved(frame.x, direction, travel), frame.y;
      ApplyTrees(OutgoingNow(), outgoingOpacity, IncomingNow(), incomingOpacity);
      PresentedShades(frame);
    }

    method ApplyTrees(outgoingAt: Above, outgoingOpacity: real, incomingAt: Above, incomingOpacity: real)
      requires Valid()
      modifies Nodes(outgoing), Nodes(incoming)
      ensures AllShown(outgoing, viewport, outgoingAt, outgoingOpacity)
      ensures AllShown(incoming, viewport, incomingAt, incomingOpacity)
      ensures forall l :: l in outgoing + incoming ==> Muted(l)
    {
      Apart(outgoing, incoming);
      ApplyLeaves(outgoing, viewport, outgoingAt, outgoingOpacity);
      ApplyLeaves(incoming, viewport, incomingAt, incomingOpacity);
    }

    /** What a frame that is presented makes of the colours. */
    lemma PresentedShades(frame: Frame)
      requires Presents(frame)
      ensures fade && frame.opacity >= 1.0 ==> Only(outgoing, incoming)
      ensures fade && frame.opacity <= 0.0 ==> Only(incoming, outgoing)
      ensures !fade ==> forall l :: l in outgoing + incoming ==> Opaque(l)
    {
      forall l | l in outgoing
        ensures OutgoingOpacity(frame) == 1.0 ==> Opaque(l)
        ensures OutgoingOpacity(frame) == 0.0 ==> Transparent(l)
      {
        ShownShade(l, viewport, OutgoingAt(frame), OutgoingOpacity(frame));
        ShadedEnds(l.base.shade);
      }
      forall l | l in incoming
        ensures IncomingOpacity(frame) == 1.0 ==> Opaque(l)
        ensures IncomingOpacity(frame) == 0.0 ==> Transparent(l)
      {
        ShownShade(l, viewport, IncomingAt(frame), IncomingOpacity(frame));
        ShadedEnds(l.base.shade);
      }
    }

    /** During a fade the opacities of the two trees add up to one. */
    lemma CrossFades(frame: Frame, l: Leaf)
      requires fade && 0.0 <= frame.opacity <= 1.0
      ensures Shown(l, viewport, OutgoingAt(frame), OutgoingOpacity(frame)).shade
        == Shaded(l.base.shade, frame.opacity)
      ensures Shown(l, viewport, IncomingAt(frame), IncomingOpacity(frame)).shade
        == Shaded(l.base.shade, 1.0 - frame.opacity)
    {
      ShownShade(l, viewport, OutgoingAt(frame), OutgoingOpacity(frame));
      ShownShade(l, viewport, IncomingAt(frame), IncomingOpacity(frame));
    }

    /** Of two frames the one with the larger opacity shows the outgoing tree no weaker,
        and the incoming one no stronger. */
    lemma FadesOver(f: Frame, g: Frame, l: Leaf)
      requires f.opacity <= g.opacity && forall k :: 0 <= k < |l.base.shade| ==> 0.0 <= l.base.shade[k]
      ensures NoStronger(Shown(l, viewport, OutgoingAt(f), OutgoingOpacity(f)).shade,
                         Shown(l, viewport, OutgoingAt(g), OutgoingOpacity(g)).shade)
      ensures NoStronger(Shown(l, viewport, IncomingAt(g), IncomingOpacity(g)).shade,
                         Shown(l, viewport, IncomingAt(f), IncomingOpacity(f)).shade)
    {
      ShownShade(l, viewport, OutgoingAt(f), OutgoingOpacity(f));
      ShownShade(l, viewport, OutgoingAt(g), OutgoingOpacity(g));
      ShownShade(l, viewport, IncomingAt(f), IncomingOpacity(f));
      ShownShade(l, viewport, IncomingAt(g), IncomingOpacity(g));
      ShadedRises(l.base.shade, OutgoingOpacity(f), OutgoingOpacity(g));
      ShadedRises(l.base.shade, IncomingOpacity(g), IncomingOpacity(f));
    }

    /** Between the two ends, with room for the travel, the incoming tree stands the
        travel away from the outgoing one, in the direction of the change, and arrives
        where that one was. */
    lemma TreesChangePlaces(frame: Frame)
      requires INT_MIN <= viewport.x <= INT_MAX && INT_MIN <= viewport.y <= INT_MAX
      requires INT_MIN <= frame.x + direction * travel <= INT_MAX
      ensures IncomingAt(frame).dx - incomingStage.dx
        == OutgoingAt(frame).dx - outgoingStage.dx + direction * travel
      ensures IncomingAt(frame).dy - incomingStage.dy == OutgoingAt(frame).dy - outgoingStage.dy
      ensures INT_MIN <= viewport.x - direction * travel <= INT_MAX ==>
        && IncomingAt(LastFrame()).dx - incomingStage.dx == viewport.x
        && OutgoingAt(LastFrame()).dx - outgoingStage.dx == viewport.x - direction * travel
      ensures OutgoingAt(FirstFrame()).dx - outgoingStage.dx == viewport.x
      ensures OutgoingAt(frame).visible == outgoingStage.visible && IncomingAt(frame).visible == incomingStage.visible
    {
    }

    /** leme_workspace_effect_restore. */
    method Restore()
      requires Valid()
      modifies this, Nodes(outgoing), Nodes(incoming)
      ensures forall l :: l in outgoing + incoming ==> l.node.State() == Restored(l, 1.0) && Muted(l)
      ensures (outgoingX, outgoingY, incomingX, incomingY) == (0, 0, 0, 0)
    {
      var leaves := outgoing + incoming;
      for index := 0 to |leaves|
        invariant forall k :: 0 <= k < index ==> leaves[k].node.State() == Restored(leaves[k], 1.0) && Muted(leaves[k])
        invariant forall k :: index <= k < |leaves| ==> unchanged(leaves[k].node)
      {
        assert leaves[index] in leaves;
        RestoreLeaf(leaves[index], 1.0);
      }
      outgoingX, outgoingY, incomingX, incomingY := 0, 0, 0, 0;
    }

    /** Any number of frames and then the end: in between the scene is as the last frame
        says, at the end every leaf looks as it did when it was recorded. But buffers go
        on letting the pointer through, and do not get their opaque pixels back. */
    method Play(frames: seq<Frame>)
      requires Valid()
      modifies this, Nodes(outgoing), Nodes(incoming)
      ensures forall l :: l in outgoing + incoming ==> Alike(l.node.State(), l.base) && Muted(l)
    {
      for index := 0 to |frames|
        invariant index > 0 ==> Presents(frames[index - 1])
        invariant forall l :: l in outgoing + incoming && l.buffer.None? ==> Muted(l)
      {
        Apply(frames[index]);
      }
      Restore();
      forall l | l in outgoing + incoming
        ensures Alike(l.node.State(), l.base)
      {
        RestoredIsAlike(l);
      }
    }
  }

  lemma SeparateLeaves(leaves: seq<Leaf>, sites: seq<Site>)
    requires Separate(sites) && |leaves| == |sites| && forall k :: 0 <= k < |sites| ==> leaves[k].node == sites[k].node
    ensures Distinct(leaves)
  {
    forall i, j | 0 <= i < j < |leaves|
      ensures leaves[i].node != leaves[j].node
    {
      assert sites[i].node != sites[j].node;
    }
  }

  lemma Apart(a: seq<Leaf>, b: seq<Leaf>)
    requires Distinct(a + b)
    ensures Distinct(a) && Distinct(b) && Nodes(a) !! Nodes(b)
  {
    forall i, j | 0 <= i < j < |a|
      ensures a[i].node != a[j].node
    {
      assert (a + b)[i].node != (a + b)[j].node;
    }
    forall i, j | 0 <= i < j < |b|
      ensures b[i].node != b[j].node
    {
      assert (a + b)[|a| + i].node != (a + b)[|a| + j].node;
    }
    forall i, j | 0 <= i < |a| && 0 <= j < |b|
      ensures a[i].node != b[j].node
    {
      assert (a + b)[i].node != (a + b)[|a| + j].node;
    }
  }
}
