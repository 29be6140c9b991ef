/** Geometry of the mask overlay: the two size spaces of the drawing surface
    (backing pixels and on-screen display units) and the maps between them. */
module Geometry {

  /** A point, either in display (client) coordinates or in backing pixels. */
  datatype Point = Point(x: real, y: real)

  /** A width and height in display units, as layout reports them. */
  datatype Size = Size(w: real, h: real)

  /** An on-screen bounding box: its top-left origin and its extent. */
  datatype Box = Box(left: real, top: real, width: real, height: real)

  /** An offset along one axis, converted by the scale factor to / from. */
  function Scale(offset: real, to: real, from: real): real
    requires from > 0.0
  {
    offset * (to / from)
  }

  /** Converting an offset and converting it back gives the offset; a zero
      offset stays zero; the full extent `from` becomes the full extent `to`. */
  lemma ScaleInverse(offset: real, to: real, from: real)
    requires to > 0.0 && from > 0.0
    ensures Scale(Scale(offset, to, from), from, to) == offset
  {
    var s, t := to / from, from / to;
    assert s * t == 1.0 by {
      assert s * from == to && t * to == from;
      assert s * t * (from * to) == (s * from) * (t * to);
    }
    assert offset * s * t == offset * (s * t);
  }

  lemma ScaleTimesFrom(offset: real, to: real, from: real)
    requires from > 0.0
    ensures Scale(offset, to, from) * from == offset * to
    ensures offset == 0.0 ==> Scale(offset, to, from) == 0.0
    ensures offset == from ==> Scale(offset, to, from) == to
  {
    assert (to / from) * from == to;
    assert offset * (to / from) * from == offset * ((to / from) * from);
  }

  /** The backing-pixel point under the pointer at (clientX, clientY) when the
      surface has `width` x `height` backing pixels and occupies `box` on
      screen. Each axis has its own scale factor, backing / display. */
  function CanvasPoint(width: nat, height: nat, box: Box, clientX: real, clientY: real): (p: Point)
    requires box.width > 0.0 && box.height > 0.0
    // the offset from the box's origin is scaled per axis by backing / display
    ensures p.x * box.width == (clientX - box.left) * width as real
    ensures p.y * box.height == (clientY - box.top) * height as real
    // the box's top-left corner is backing pixel (0, 0) and its bottom-right
    // corner is backing pixel (width, height): the surface is pixel-registered
    ensures clientX == box.left ==> p.x == 0.0
    ensures clientY == box.top ==> p.y == 0.0
    ensures clientX == box.left + box.width ==> p.x == width as real
    ensures clientY == box.top + box.height ==> p.y == height as real
  {
    ScaleTimesFrom(clientX - box.left, width as real, box.width);
    ScaleTimesFrom(clientY - box.top, height as real, box.height);
    Point(Scale(clientX - box.left, width as real, box.width),
          Scale(clientY - box.top, height as real, box.height))
  }

  /** The display point that shows backing pixel `p`: the inverse of CanvasPoint. */
  function ClientPoint(width: nat, height: nat, box: Box, p: Point): (c: Point)
    requires width > 0 && height > 0
    ensures (c.x - box.left) * width as real == p.x * box.width
    ensures (c.y - box.top) * height as real == p.y * box.height
  {
    ScaleTimesFrom(p.x, box.width, width as real);
    ScaleTimesFrom(p.y, box.height, height as real);
    Point(box.left + Scale(p.x, box.width, width as real),
          box.top + Scale(p.y, box.height, height as real))
  }

  /** Mapping a pointer position to backing pixels and back gives the pointer
      position again. */
  lemma {:induction false} ClientOfCanvasPoint(width: nat, height: nat, box: Box, c: Point)
    requires width > 0 && height > 0
    requires box.width > 0.0 && box.height > 0.0
    ensures ClientPoint(width, height, box, CanvasPoint(width, height, box, c.x, c.y)) == c
  {
    ScaleInverse(c.x - box.left, width as real, box.width);
    ScaleInverse(c.y - box.top, height as real, box.height);
  }

  /** Every backing pixel is the image of the display point that shows it. */
  lemma {:induction false} CanvasOfClientPoint(width: nat, height: nat, box: Box, p: Point)
    requires width > 0 && height > 0
    requires box.width > 0.0 && box.height > 0.0
    ensures var c := ClientPoint(width, height, box, p);
            CanvasPoint(width, height, box, c.x, c.y) == p
  {
    var c := ClientPoint(width, height, box, p);
    assert c.x - box.left == Scale(p.x, box.width, width as real);
    assert c.y - box.top == Scale(p.y, box.height, height as real);
    ScaleInverse(p.x, box.width, width as real);
    ScaleInverse(p.y, box.height, height as real);
  }

  /** A 1920x1080 surface shown at 480x270 from the viewport origin has scale 4
      on both axes: the pointer at (100, 50) lands on backing pixel (400, 200). */
  lemma QuarterScaleExample()
    ensures CanvasPoint(1920, 1080, Box(0.0, 0.0, 480.0, 270.0), 100.0, 50.0) == Point(400.0, 200.0)
  {
  }

  /** One backing dimension after a resize: the video's intrinsic size when it
      is known (non-zero), otherwise the rendered size, truncated to whole
      pixels as assigning a fractional number to an unsigned integer
      attribute does. */
  function BackingDim(intrinsic: nat, rendered: real): (r: nat)
    requires rendered >= 0.0
    ensures intrinsic > 0 ==> r == intrinsic
    ensures intrinsic == 0 ==> r as real <= rendered < r as real + 1.0
    // the fallback never leaves a visible surface at zero size
    ensures rendered >= 1.0 ==> r >= 1
  {
    if intrinsic != 0 then intrinsic else rendered.Floor
  }
}
