/** The mask overlay as a state machine over values: the surface sizes, the
    paint buffer, the stroke state (Idle when `active` is false), the drawing
    props the page passes in, and the mask-presence flag the page keeps from
    the overlay's reports. Each event handler is one transition of `Step`. */
module Overlay {
  import opened Geometry

  datatype Option<T> = None | Some(value: T)

  /** One paint operation accumulated in the raster buffer: a filled circle,
      or a round-capped line of the given width. */
  datatype PaintOp =
    | Dot(center: Point, radius: real)
    | Segment(from: Point, to: Point, lineWidth: real)

  /** Where the pen is after the operation. */
  function EndPoint(op: PaintOp): Point
  {
    match op
    case Dot(c, _) => c
    case Segment(_, t, _) => t
  }

  /** The whole observable state of one mounted overlay. `hasCanvas` says
      whether the canvas element exists; `display` is the style size the
      last resize set (None before the first). */
  datatype State = State(
    hasCanvas: bool,
    width: nat, height: nat,
    display: Option<Size>,
    ops: seq<PaintOp>,
    active: bool, lastPoint: Option<Point>,
    isDrawing: bool, brushSize: real,
    presence: bool)

  /** What can happen to the overlay: a new render with new props, a mouse
      event over the canvas (with the canvas's bounding box at that moment), a
      resize (video metadata loaded or the window resized, with the video's
      intrinsic size and rendered size), or a call to clear. */
  datatype Event =
    | Props(drawing: bool, brush: real)
    | MouseDown(downX: real, downY: real, downBox: Box)
    | MouseMove(moveX: real, moveY: real, moveBox: Box)
    | MouseUp
    | MouseLeave
    | Resize(videoWidth: nat, videoHeight: nat, rendered: Size)
    | ClearCanvas

  /** What the environment guarantees of an event: the page's brush slider
      gives a positive size, a canvas under the pointer has area, and layout
      sizes are not negative. */
  predicate WellFormed(e: Event)
  {
    match e
    case Props(_, brush) => brush > 0.0
    case MouseDown(_, _, box) => box.width > 0.0 && box.height > 0.0
    case MouseMove(_, _, box) => box.width > 0.0 && box.height > 0.0
    case Resize(_, _, rendered) => rendered.w >= 0.0 && rendered.h >= 0.0
    case _ => true
  }

  predicate AllWellFormed(evs: seq<Event>)
  {
    forall i :: 0 <= i < |evs| ==> WellFormed(evs[i])
  }

  /** The overlay right after mounting: a fresh canvas has the default
      300 x 150 backing size, nothing is painted, no stroke is in progress and
      the page's mask flag is false. */
  function Initial(hasCanvas: bool, isDrawing: bool, brushSize: real): (s: State)
    ensures s.ops == [] && !s.presence && !s.active && s.lastPoint == None
  {
    State(hasCanvas, 300, 150, None, [], false, None, isDrawing, brushSize, false)
  }

  /** Sync the surface with the video: backing size from the intrinsic size
      per axis (rendered size as fallback), display size from the rendered
      size. Assigning the backing size wipes the bitmap. */
  function ResizeStep(s: State, videoWidth: nat, videoHeight: nat, rendered: Size): (r: State)
    requires rendered.w >= 0.0 && rendered.h >= 0.0
    ensures !s.hasCanvas ==> r == s
    ensures s.hasCanvas ==> r.width == BackingDim(videoWidth, rendered.w) && r.height == BackingDim(videoHeight, rendered.h)
    ensures s.hasCanvas ==> r.display == Some(rendered) && r.ops == []
    // the stroke state, the props and the mask flag are untouched: no report is made
    ensures r.active == s.active && r.lastPoint == s.lastPoint && r.presence == s.presence
    ensures r.isDrawing == s.isDrawing && r.brushSize == s.brushSize && r.hasCanvas == s.hasCanvas
  {
    if !s.hasCanvas then s
    else s.(width := BackingDim(videoWidth, rendered.w),
            height := BackingDim(videoHeight, rendered.h),
            display := Some(rendered),
            ops := [])
  }

  /** Pointer down: when drawing is enabled, start a stroke at the mapped
      point, paint a dot of the brush's diameter there and report presence. */
  function MouseDownStep(s: State, clientX: real, clientY: real, box: Box): (r: State)
    requires box.width > 0.0 && box.height > 0.0
    ensures !s.isDrawing || !s.hasCanvas ==> r == s
    ensures s.isDrawing && s.hasCanvas ==>
              var p := CanvasPoint(s.width, s.height, box, clientX, clientY);
              r.active && r.lastPoint == Some(p) && r.presence &&
              r.ops == s.ops + [Dot(p, s.brushSize / 2.0)]
    ensures r.width == s.width && r.height == s.height && r.display == s.display
    ensures r.isDrawing == s.isDrawing && r.brushSize == s.brushSize && r.hasCanvas == s.hasCanvas
  {
    if !s.isDrawing || !s.hasCanvas then s
    else
      var p := CanvasPoint(s.width, s.height, box, clientX, clientY);
      s.(active := true, lastPoint := Some(p),
         ops := s.ops + [Dot(p, s.brushSize / 2.0)],
         presence := true)
  }

  /** Pointer move: only during an active stroke with an anchor, paint a
      segment from the anchor to the mapped point, move the anchor there and
      report presence. */
  function MouseMoveStep(s: State, clientX: real, clientY: real, box: Box): (r: State)
    requires box.width > 0.0 && box.height > 0.0
    ensures !(s.isDrawing && s.active && s.lastPoint.Some? && s.hasCanvas) ==> r == s
    ensures s.isDrawing && s.active && s.lastPoint.Some? && s.hasCanvas ==>
              var p := CanvasPoint(s.width, s.height, box, clientX, clientY);
              r.lastPoint == Some(p) && r.presence &&
              r.ops == s.ops + [Segment(s.lastPoint.value, p, s.brushSize)]
    ensures r.width == s.width && r.height == s.height && r.display == s.display && r.active == s.active
    ensures r.isDrawing == s.isDrawing && r.brushSize == s.brushSize && r.hasCanvas == s.hasCanvas
  {
    if !s.isDrawing || !s.active || s.lastPoint.None? || !s.hasCanvas then s
    else
      var p := CanvasPoint(s.width, s.height, box, clientX, clientY);
      s.(lastPoint := Some(p),
         ops := s.ops + [Segment(s.lastPoint.value, p, s.brushSize)],
         presence := true)
  }

  /** Pointer up or leaving the canvas: back to Idle, whatever the props say. */
  function EndStroke(s: State): (r: State)
    ensures !r.active && r.lastPoint == None
    ensures r.ops == s.ops && r.presence == s.presence
    ensures r.width == s.width && r.height == s.height && r.display == s.display
    ensures r.isDrawing == s.isDrawing && r.brushSize == s.brushSize && r.hasCanvas == s.hasCanvas
  {
    s.(active := false, lastPoint := None)
  }

  /** Clear: wipe the buffer and report that there is no mask. */
  function ClearStep(s: State): (r: State)
    ensures s.hasCanvas ==> r.ops == [] && !r.presence
    ensures !s.hasCanvas ==> r == s
    ensures r.width == s.width && r.height == s.height && r.display == s.display
    ensures r.active == s.active && r.lastPoint == s.lastPoint
    ensures r.isDrawing == s.isDrawing && r.brushSize == s.brushSize && r.hasCanvas == s.hasCanvas
  {
    if !s.hasCanvas then s else s.(ops := [], presence := false)
  }

  /** One event handled by its handler. No event attaches or detaches the
      canvas, only a resize or a clear can shrink the buffer, and only a
      resize changes the surface size. */
  function Step(s: State, e: Event): (r: State)
    requires WellFormed(e)
    ensures r.hasCanvas == s.hasCanvas
    ensures KeepsBuffer(e) ==> s.ops <= r.ops
    ensures !e.Resize? ==> r.width == s.width && r.height == s.height && r.display == s.display
  {
    match e
    case Props(drawing, brush) => s.(isDrawing := drawing, brushSize := brush)
    case MouseDown(x, y, box) => MouseDownStep(s, x, y, box)
    case MouseMove(x, y, box) => MouseMoveStep(s, x, y, box)
    case MouseUp => EndStroke(s)
    case MouseLeave => EndStroke(s)
    case Resize(vw, vh, rendered) => ResizeStep(s, vw, vh, rendered)
    case ClearCanvas => ClearStep(s)
  }

  /** The state after the events, handled one after another, each handler
      seeing the state the previous one left. */
  function Run(s: State, evs: seq<Event>): (r: State)
    requires AllWellFormed(evs)
    // no sequence of events attaches or detaches the canvas
    ensures r.hasCanvas == s.hasCanvas
    decreases |evs|
  {
    if evs == [] then s else Run(Step(s, evs[0]), evs[1..])
  }

  /** Handling one sequence of events and then another is handling the two
      in order: so a session can be split at any event. */
  lemma {:induction false} RunAppend(s: State, a: seq<Event>, b: seq<Event>)
    requires AllWellFormed(a) && AllWellFormed(b)
    ensures AllWellFormed(a + b)
    ensures Run(s, a + b) == Run(Run(s, a), b)
    decreases |a|
  {
    assert AllWellFormed(a + b) by {
      forall i | 0 <= i < |a + b| ensures WellFormed((a + b)[i]) {
        if i < |a| { assert (a + b)[i] == a[i]; } else { assert (a + b)[i] == b[i - |a|]; }
      }
    }
    if a != [] {
      assert (a + b)[0] == a[0];
      assert (a + b)[1..] == a[1..] + b;
      RunAppend(Step(s, a[0]), a[1..], b);
    } else {
      assert a + b == b;
    }
  }

  /** What getMaskData hands out: nothing without a canvas, otherwise the buffer. */
  function MaskData(s: State): (r: Option<seq<PaintOp>>)
    ensures r.Some? <==> s.hasCanvas
    ensures r.Some? ==> r.value == s.ops
  {
    if s.hasCanvas then Some(s.ops) else None
  }

  // ---------------------------------------------------------------------
  // Stroke continuity

  /** Every segment in the buffer starts where the operation before it ended;
      so no segment is first in the buffer. */
  predicate Chained(ops: seq<PaintOp>)
  {
    forall i :: 0 <= i < |ops| && ops[i].Segment? ==> 0 < i && ops[i].from == EndPoint(ops[i - 1])
  }

  /** The stroke anchor, when there is one, is where the last operation ended. */
  predicate Anchored(s: State)
  {
    s.lastPoint.Some? ==> s.ops != [] && EndPoint(s.ops[|s.ops| - 1]) == s.lastPoint.value
  }

  /** Events that do not wipe the buffer: props and pointer events. */
  predicate KeepsBuffer(e: Event)
  {
    !e.Resize? && !e.ClearCanvas?
  }

  lemma StepChains(s: State, e: Event)
    requires WellFormed(e) && KeepsBuffer(e)
    requires Anchored(s) && Chained(s.ops)
    ensures var t := Step(s, e); Anchored(t) && Chained(t.ops) && s.ops <= t.ops
  {
  }

  /** While nothing wipes the buffer, painting only appends, and each segment
      of a stroke starts where the previous mark ended: the first at the
      centre of the stroke's dot, each later one at the previous segment's
      end. */
  lemma {:induction false} StrokeContinuity(s: State, evs: seq<Event>)
    requires AllWellFormed(evs)
    requires forall i :: 0 <= i < |evs| ==> KeepsBuffer(evs[i])
    requires Anchored(s) && Chained(s.ops)
    ensures var t := Run(s, evs); Anchored(t) && Chained(t.ops) && s.ops <= t.ops
    decreases |evs|
  {
    if evs != [] {
      StepChains(s, evs[0]);
      StrokeContinuity(Step(s, evs[0]), evs[1..]);
    }
  }

  /** The chaining invariants hold of a freshly mounted overlay. */
  lemma InitialChained(hasCanvas: bool, isDrawing: bool, brushSize: real)
    ensures var s := Initial(hasCanvas, isDrawing, brushSize); Anchored(s) && Chained(s.ops)
  {
  }

  // ---------------------------------------------------------------------
  // Drawing disabled

  /** Events the pointer produces. */
  predicate PointerEvent(e: Event)
  {
    e.MouseDown? || e.MouseMove? || e.MouseUp? || e.MouseLeave?
  }

  /** With drawing disabled, no pointer sequence paints or reports anything,
      and the overlay never leaves Idle once it is there. */
  lemma {:induction false} DisabledPointerInert(s: State, evs: seq<Event>)
    requires AllWellFormed(evs)
    requires forall i :: 0 <= i < |evs| ==> PointerEvent(evs[i])
    requires !s.isDrawing
    ensures var t := Run(s, evs);
            t.ops == s.ops && t.presence == s.presence &&
            t.width == s.width && t.height == s.height &&
            (!s.active ==> !t.active)
    decreases |evs|
  {
    if evs != [] {
      DisabledPointerInert(Step(s, evs[0]), evs[1..]);
    }
  }

  // ---------------------------------------------------------------------
  // Mask presence

  /** The page's mask flag is on whenever something is painted. */
  predicate PresenceCovers(s: State)
  {
    s.ops != [] ==> s.presence
  }

  /** The page's mask flag says exactly whether something is painted. */
  predicate PresenceExact(s: State)
  {
    s.presence <==> s.ops != []
  }

  /** Whatever happens, painted content is never hidden from the page: every
      event that paints also reports presence, and the only events that drop
      the flag also wipe the buffer. */
  lemma {:induction false} PaintIsReported(s: State, evs: seq<Event>)
    requires AllWellFormed(evs)
    requires PresenceCovers(s)
    ensures PresenceCovers(Run(s, evs))
    decreases |evs|
  {
    if evs != [] {
      PaintIsReported(Step(s, evs[0]), evs[1..]);
    }
  }

  /** Without resizes the flag is exact: it is true only while something is
      painted. A resize breaks this (see ResizeKeepsStalePresence). */
  lemma {:induction false} PresenceExactWithoutResize(s: State, evs: seq<Event>)
    requires AllWellFormed(evs)
    requires forall i :: 0 <= i < |evs| ==> !evs[i].Resize?
    requires PresenceExact(s)
    ensures PresenceExact(Run(s, evs))
    decreases |evs|
  {
    if evs != [] {
      PresenceExactWithoutResize(Step(s, evs[0]), evs[1..]);
    }
  }

  /** Only a clear turns the flag off: without one, a flag that is on stays on. */
  lemma {:induction false} OnlyClearReportsAbsence(s: State, evs: seq<Event>)
    requires AllWellFormed(evs)
    requires forall i :: 0 <= i < |evs| ==> !evs[i].ClearCanvas?
    requires s.presence
    ensures Run(s, evs).presence
    decreases |evs|
  {
    if evs != [] {
      OnlyClearReportsAbsence(Step(s, evs[0]), evs[1..]);
    }
  }

  // ---------------------------------------------------------------------
  // Surface size

  /** Only a resize changes the backing size. */
  lemma {:induction false} SurfaceKeptWithoutResize(s: State, evs: seq<Event>)
    requires AllWellFormed(evs)
    requires forall i :: 0 <= i < |evs| ==> !evs[i].Resize?
    ensures Run(s, evs).width == s.width && Run(s, evs).height == s.height
    ensures Run(s, evs).display == s.display
    decreases |evs|
  {
    if evs != [] {
      SurfaceKeptWithoutResize(Step(s, evs[0]), evs[1..]);
    }
  }

  /** Clearing twice is clearing once. */
  lemma ClearIdempotent(s: State)
    ensures ClearStep(ClearStep(s)) == ClearStep(s)
  {
  }

  /** However much was painted, a clear followed by an export yields an empty
      mask of the same dimensions. */
  lemma {:induction false} ClearedExportIsEmpty(s: State, evs: seq<Event>)
    requires AllWellFormed(evs)
    requires forall i :: 0 <= i < |evs| ==> !evs[i].Resize?
    requires s.hasCanvas
    ensures var t := ClearStep(Run(s, evs));
            MaskData(t) == Some([]) && !t.presence &&
            t.width == s.width && t.height == s.height
  {
    SurfaceKeptWithoutResize(s, evs);
  }

  // ---------------------------------------------------------------------
  // Scenarios

  /** A 1920x1080 video shown at 480x270: a click at (100, 50) with brush 20
      paints one circle of diameter 20 centred on backing pixel (400, 200),
      reports presence, and leaves the overlay Idle. */
  lemma QuarterScaleClick()
    ensures var box := Box(0.0, 0.0, 480.0, 270.0);
            var s := ResizeStep(Initial(true, true, 20.0), 1920, 1080, Size(480.0, 270.0));
            var t := Run(s, [MouseDown(100.0, 50.0, box), MouseUp]);
            t.ops == [Dot(Point(400.0, 200.0), 10.0)] && t.presence &&
            t.width == 1920 && t.height == 1080 && !t.active
  {
    var box := Box(0.0, 0.0, 480.0, 270.0);
    var s := ResizeStep(Initial(true, true, 20.0), 1920, 1080, Size(480.0, 270.0));
    QuarterScaleExample();
    var evs := [MouseDown(100.0, 50.0, box), MouseUp];
    assert Run(s, evs) == Run(MouseDownStep(s, 100.0, 50.0, box), [MouseUp]);
  }

  /** A resize in the middle of a stroke wipes the buffer but keeps the anchor,
      so the next move paints a segment from a point of the old coordinate
      space with no mark before it: the stroke is no longer chained. */
  lemma ResizeMidStrokeLeavesStaleAnchor()
    ensures var box := Box(0.0, 0.0, 100.0, 100.0);
            var s := Initial(true, true, 10.0);
            var t := Run(s, [MouseDown(50.0, 50.0, box), Resize(0, 0, Size(200.0, 200.0)),
                             MouseMove(60.0, 60.0, box)]);
            t.ops == [Segment(Point(150.0, 75.0), Point(120.0, 120.0), 10.0)] &&
            !Chained(t.ops)
  {
    var box := Box(0.0, 0.0, 100.0, 100.0);
    var s := Initial(true, true, 10.0);
    var e1, e2, e3 := MouseDown(50.0, 50.0, box), Resize(0, 0, Size(200.0, 200.0)), MouseMove(60.0, 60.0, box);
    var s1 := Step(s, e1);
    assert CanvasPoint(300, 150, box, 50.0, 50.0) == Point(150.0, 75.0);
    var s2 := Step(s1, e2);
    assert s2.width == 200 && s2.height == 200 && s2.ops == [];
    assert CanvasPoint(200, 200, box, 60.0, 60.0) == Point(120.0, 120.0);
    var s3 := Step(s2, e3);
    assert Run(s, [e1, e2, e3]) == Run(s1, [e2, e3]) == Run(s2, [e3]) == s3;
    assert s3.ops[0].Segment?;
  }

  /** A resize after painting wipes the buffer without a report, so the
      page's mask flag stays on over an empty buffer. */
  lemma ResizeKeepsStalePresence()
    ensures var box := Box(0.0, 0.0, 100.0, 100.0);
            var t := Run(Initial(true, true, 10.0),
                         [MouseDown(5.0, 5.0, box), MouseUp, Resize(640, 480, Size(100.0, 100.0))]);
            t.presence && t.ops == [] && !PresenceExact(t)
  {
    var box := Box(0.0, 0.0, 100.0, 100.0);
    var s := Initial(true, true, 10.0);
    var e1, e2, e3 := MouseDown(5.0, 5.0, box), MouseUp, Resize(640, 480, Size(100.0, 100.0));
    var s1 := Step(s, e1);
    var s2 := Step(s1, e2);
    var s3 := Step(s2, e3);
    assert Run(s, [e1, e2, e3]) == Run(s1, [e2, e3]) == Run(s2, [e3]) == s3;
  }

  /** With drawing disabled, a click-and-drag leaves the buffer empty and the
      mask flag off. */
  lemma DisabledDragPaintsNothing(box: Box, x0: real, y0: real, x1: real, y1: real)
    requires box.width > 0.0 && box.height > 0.0
    ensures var t := Run(Initial(true, false, 20.0), [MouseDown(x0, y0, box), MouseMove(x1, y1, box), MouseUp]);
            t.ops == [] && !t.presence && !t.active
  {
    var evs := [MouseDown(x0, y0, box), MouseMove(x1, y1, box), MouseUp];
    DisabledPointerInert(Initial(true, false, 20.0), evs);
  }
}
