/** Parts of buffers, and the eight ways in which an output shows a buffer: the
    wl_output.transform of the Wayland protocol, as wlr_fbox_transform applies it. */
module Transforms {
  /** A part of a buffer. */
  datatype Fbox = Fbox(x: real, y: real, width: real, height: real) {
    predicate Empty() { width <= 0.0 || height <= 0.0 }
  }

  type Quarters = n: nat | n < 4

  /** Quarter turns, after a flip if there is one. */
  datatype Transform = Transform(quarters: Quarters, flipped: bool)

  predicate Swaps(t: Transform) {
    t.quarters % 2 == 1
  }

  /** wlr_output_transform_invert: only a quarter turn without a flip is not its own
      inverse. */
  function Inverse(t: Transform): Transform {
    if Swaps(t) && !t.flipped then t.(quarters := 4 - t.quarters) else t
  }

  /** wlr_output_transform_coords. */
  function Extent<T>(t: Transform, width: T, height: T): (T, T) {
    if Swaps(t) then (height, width) else (width, height)
  }

  /** wlr_fbox_transform, within a buffer of that size. */
  function Turned(b: Fbox, t: Transform, width: real, height: real): Fbox {
    var right, below := width - b.x - b.width, height - b.y - b.height;
    match (t.flipped, t.quarters)
    case (false, 0) => b
    case (false, 1) => Fbox(below, b.x, b.height, b.width)
    case (false, 2) => Fbox(right, below, b.width, b.height)
    case (false, _) => Fbox(b.y, right, b.height, b.width)
    case (true, 0) => Fbox(right, b.y, b.width, b.height)
    case (true, 1) => Fbox(b.y, b.x, b.height, b.width)
    case (true, 2) => Fbox(b.x, below, b.width, b.height)
    case (true, _) => Fbox(below, right, b.height, b.width)
  }

  /** Turning there and back again, within the turned size, is no turn. */
  lemma TurnsBack(b: Fbox, t: Transform, width: real, height: real)
    ensures var (w, h) := Extent(t, width, height);
      Turned(Turned(b, t, width, height), Inverse(t), w, h) == b
  {
    var c := Turned(b, t, width, height);
    var (w, h) := Extent(t, width, height);
    if Swaps(t) {
      assert (c.width, c.height, w, h) == (b.height, b.width, height, width);
    } else {
      assert (c.width, c.height, w, h) == (b.width, b.height, width, height);
    }
    assert w - (w - c.x - c.width) - c.width == c.x && h - (h - c.y - c.height) - c.height == c.y;
  }

  lemma TurnedEmpty(b: Fbox, t: Transform, width: real, height: real)
    ensures Turned(b, t, width, height).Empty() == b.Empty()
  {
  }
}
