/** The overlay component itself: the canvas's size fields, its paint buffer,
    the two React state cells of a stroke, the props the page passes in and
    the page's mask flag that receives the presence reports. The handlers
    update these in place, one event at a time. */
module Component {
  import opened Geometry
  import opened Overlay

  class VideoCanvas {
    /** Whether the canvas element is attached to the component's ref. */
    const hasCanvas: bool
    /** Backing size, in pixels. */
    var width: nat
    var height: nat
    /** Style size set by the last resize, in display units. */
    var display: Option<Size>
    /** The raster buffer, as the paint operations drawn into it since it was last wiped. */
    var ops: seq<PaintOp>
    /** The stroke state: isDrawingActive and lastPoint. */
    var active: bool
    var lastPoint: Option<Point>
    /** Props. */
    var isDrawing: bool
    var brushSize: real
    /** The last value passed to onMaskChange, which is the page's hasMask. */
    var presence: bool

    /** The object invariant: the brush size is positive, as the page's
        slider keeps it. */
    ghost predicate Valid()
      reads this
    {
      brushSize > 0.0
    }

    /** The component's state as a value of the pure model. */
    function Snapshot(): State
      reads this
    {
      State(hasCanvas, width, height, display, ops, active, lastPoint, isDrawing, brushSize, presence)
    }

    /** Mount the component with its first props. */
    constructor (hasCanvas: bool, isDrawing: bool, brushSize: real)
      requires brushSize > 0.0
      ensures Valid()
      ensures Snapshot() == Initial(hasCanvas, isDrawing, brushSize)
    {
      this.hasCanvas := hasCanvas;
      width, height := 300, 150;
      display := None;
      ops := [];
      active, lastPoint := false, None;
      this.isDrawing, this.brushSize := isDrawing, brushSize;
      presence := false;
    }

    /** A render with new props; the stroke state and the buffer are kept. */
    method SetProps(isDrawing: bool, brushSize: real)
      requires brushSize > 0.0
      requires Valid()
      modifies this
      ensures Valid()
      ensures this.isDrawing == isDrawing && this.brushSize == brushSize
      ensures width == old(width) && height == old(height) && display == old(display)
      ensures ops == old(ops) && active == old(active) && lastPoint == old(lastPoint)
      ensures presence == old(presence)
      ensures Snapshot() == Step(old(Snapshot()), Props(isDrawing, brushSize))
    {
      this.isDrawing, this.brushSize := isDrawing, brushSize;
    }

    /** resizeCanvas: backing size from the video's intrinsic size, axis by
        axis, falling back to the rendered size; display size from the
        rendered size. Assigning the backing size wipes the buffer. The stroke
        state and the mask flag are left as they are, and nothing is reported. */
    method ResizeCanvas(videoWidth: nat, videoHeight: nat, rendered: Size)
      requires rendered.w >= 0.0 && rendered.h >= 0.0
      requires Valid()
      modifies this
      ensures Valid()
      ensures hasCanvas ==> width == BackingDim(videoWidth, rendered.w) && height == BackingDim(videoHeight, rendered.h)
      ensures hasCanvas ==> display == Some(rendered) && ops == []
      ensures !hasCanvas ==> width == old(width) && height == old(height) && display == old(display) && ops == old(ops)
      ensures active == old(active) && lastPoint == old(lastPoint) && presence == old(presence)
      ensures isDrawing == old(isDrawing) && brushSize == old(brushSize)
      ensures Snapshot() == Step(old(Snapshot()), Resize(videoWidth, videoHeight, rendered))
    {
      if hasCanvas {
        width := BackingDim(videoWidth, rendered.w);
        height := BackingDim(videoHeight, rendered.h);
        display := Some(rendered);
        ops := [];
      }
    }

    /** drawLine: stroke one round-capped line of the current brush width. */
    method DrawLine(from: Point, to: Point)
      requires Valid()
      modifies this`ops
      ensures Valid()
      ensures ops == old(ops) + [Segment(from, to, brushSize)]
    {
      ops := ops + [Segment(from, to, brushSize)];
    }

    /** handleMouseDown: with drawing enabled, start a stroke at the point
        under the pointer, paint a dot of the brush's diameter there and report
        presence; with drawing disabled, change nothing. */
    method HandleMouseDown(clientX: real, clientY: real, box: Box)
      requires box.width > 0.0 && box.height > 0.0
      requires Valid()
      modifies this
      ensures Valid()
      ensures !old(isDrawing) || !hasCanvas ==> Snapshot() == old(Snapshot())
      ensures old(isDrawing) && hasCanvas ==>
                var p := CanvasPoint(width, height, box, clientX, clientY);
                active && lastPoint == Some(p) && presence &&
                ops == old(ops) + [Dot(p, brushSize / 2.0)]
      ensures width == old(width) && height == old(height) && display == old(display)
      ensures isDrawing == old(isDrawing) && brushSize == old(brushSize)
      ensures Snapshot() == Step(old(Snapshot()), MouseDown(clientX, clientY, box))
    {
      if !isDrawing {
        return;
      }
      if hasCanvas {
        var point := CanvasPoint(width, height, box, clientX, clientY);
        active := true;
        lastPoint := Some(point);
        ops := ops + [Dot(point, brushSize / 2.0)];
        presence := true;
      }
    }

    /** handleMouseMove: during an active stroke with an anchor, paint a
        segment from the anchor to the point under the pointer, make that point
        the anchor and report presence; otherwise change nothing. */
    method HandleMouseMove(clientX: real, clientY: real, box: Box)
      requires box.width > 0.0 && box.height > 0.0
      requires Valid()
      modifies this
      ensures Valid()
      ensures !(old(isDrawing) && old(active) && old(lastPoint).Some? && hasCanvas) ==>
                Snapshot() == old(Snapshot())
      ensures old(isDrawing) && old(active) && old(lastPoint).Some? && hasCanvas ==>
                var p := CanvasPoint(width, height, box, clientX, clientY);
                lastPoint == Some(p) && presence &&
                ops == old(ops) + [Segment(old(lastPoint).value, p, brushSize)]
      ensures width == old(width) && height == old(height) && display == old(display)
      ensures active == old(active) && isDrawing == old(isDrawing) && brushSize == old(brushSize)
      ensures Snapshot() == Step(old(Snapshot()), MouseMove(clientX, clientY, box))
    {
      if !isDrawing || !active || lastPoint.None? {
        return;
      }
      if hasCanvas {
        var point := CanvasPoint(width, height, box, clientX, clientY);
        DrawLine(lastPoint.value, point);
        lastPoint := Some(point);
        presence := true;
      }
    }

    /** handleMouseUp: end the stroke, whatever the props say. */
    method HandleMouseUp()
      requires Valid()
      modifies this
      ensures Valid()
      ensures !active && lastPoint == None
      ensures ops == old(ops) && presence == old(presence)
      ensures width == old(width) && height == old(height) && display == old(display)
      ensures isDrawing == old(isDrawing) && brushSize == old(brushSize)
      ensures Snapshot() == Step(old(Snapshot()), MouseUp)
    {
      active := false;
      lastPoint := None;
    }

    /** handleMouseLeave: the same as a mouse-up. */
    method HandleMouseLeave()
      requires Valid()
      modifies this
      ensures Valid()
      ensures !active && lastPoint == None
      ensures ops == old(ops) && presence == old(presence)
      ensures width == old(width) && height == old(height) && display == old(display)
      ensures isDrawing == old(isDrawing) && brushSize == old(brushSize)
      ensures Snapshot() == Step(old(Snapshot()), MouseLeave)
    {
      active := false;
      lastPoint := None;
    }

    /** clearCanvas: wipe the buffer and report that there is no mask. */
    method ClearCanvas()
      requires Valid()
      modifies this
      ensures Valid()
      ensures hasCanvas ==> ops == [] && !presence
      ensures !hasCanvas ==> ops == old(ops) && presence == old(presence)
      ensures width == old(width) && height == old(height) && display == old(display)
      ensures active == old(active) && lastPoint == old(lastPoint)
      ensures isDrawing == old(isDrawing) && brushSize == old(brushSize)
      ensures Snapshot() == Step(old(Snapshot()), Overlay.ClearCanvas)
    {
      if hasCanvas {
        ops := [];
        presence := false;
      }
    }

    /** getMaskData: nothing without a canvas, otherwise the buffer's
        contents; it changes nothing. */
    method GetMaskData() returns (data: Option<seq<PaintOp>>)
      ensures data.Some? <==> hasCanvas
      ensures data.Some? ==> data.value == ops
    {
      if hasCanvas {
        return Some(ops);
      }
      return None;
    }
  }

  /** Handling events through the component is the pure model's Run: after a
      click at (100, 50) on a 1920x1080 video shown at 480x270, the mask holds
      one dot at backing pixel (400, 200), and clearing twice empties it. */
  method QuarterScaleSession() returns (mask: Option<seq<PaintOp>>)
    ensures mask == Some([])
  {
    var c := new VideoCanvas(true, true, 20.0);
    c.ResizeCanvas(1920, 1080, Size(480.0, 270.0));
    c.HandleMouseDown(100.0, 50.0, Box(0.0, 0.0, 480.0, 270.0));
    c.HandleMouseUp();
    QuarterScaleExample();
    assert c.ops == [Dot(Point(400.0, 200.0), 10.0)] && c.presence;
    c.ClearCanvas();
    c.ClearCanvas();
    assert !c.presence;
    mask := c.GetMaskData();
  }
}
