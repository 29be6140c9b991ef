# VideoCanvas mask overlay, in Dafny

This project models the mask-painting overlay of a video inpainting front end, `components/VideoCanvas.tsx`. The overlay is a canvas laid over a video element. It does three things:

- It keeps the canvas's backing size equal to the video's intrinsic size, falling back to the rendered size on each axis separately. It keeps the display size equal to the rendered size.
- It maps pointer positions on screen to backing pixels, with a separate scale factor per axis.
- It runs a two-state stroke machine (Idle / Active). A mouse-down paints a dot, each mouse-move paints a segment from the last anchor, and mouse-up or mouse-leave ends the stroke. Each paint reports "mask present" to the page through `onMaskChange`. `clearCanvas` wipes the buffer and reports "no mask". `getMaskData` hands out the buffer.

There are three modules:

- `Geometry` (`geometry.dfy`) holds the pure parts. `CanvasPoint` is `getCanvasPoint`, and `ClientPoint` is its inverse. `BackingDim` is the per-axis sizing rule of `resizeCanvas`.
- `Overlay` (`overlay.dfy`) models the whole component as values. `State` is the component's state and `Event` is what can happen to it. `Step` gives one handler as a transition and `Run` handles a sequence of events. The lemmas about event sequences sit here: stroke continuity, a disabled pointer changes nothing, the mask flag tracks painted content, and only a resize changes the surface size.
- `Component` (`component.dfy`) holds the class `VideoCanvas`. Its fields are the canvas's sizes, the buffer, the `isDrawingActive` and `lastPoint` state cells, the props and the page's `hasMask` flag (`presence`). The handlers are methods that update these fields in place, and `Valid()` keeps the brush size positive. The constructor establishes `Initial`. Each handler method (`SetProps`, `ResizeCanvas`, `HandleMouseDown`, `HandleMouseMove`, `HandleMouseUp`, `HandleMouseLeave`, `ClearCanvas`) states its whole new state, and also states that its new `Snapshot()` is `Step` of the old one. `GetMaskData` changes nothing. With `RunAppend`, which splits a run at any event, the lemmas proved about `Run` therefore hold for any sequence of handler calls on the class. `DrawLine` is the exception: it is the internal helper that only `HandleMouseMove` calls, as `drawLine` is only called at components/VideoCanvas.tsx:132. Called on its own, it would paint without a report, and so it lies outside the `Step` correspondence.

The raster buffer is modelled as the list of paint operations drawn into it since it was last wiped: `Dot(center, radius)` for the click mark and `Segment(from, to, lineWidth)` for a stroke piece.

Assigning `canvas.width` or `canvas.height` resets the bitmap, as the HTML Living Standard's canvas element section (4.12.5) prescribes. So a resize empties the buffer. A fresh canvas has that standard's default backing size of 300 x 150.

Two behaviours of the source are reproduced as they are:

- A resize does not touch the stroke state or the mask flag. A stroke in progress therefore keeps an anchor from the old coordinate space, and the flag can stay on over an empty buffer. `ResizeMidStrokeLeavesStaleAnchor` and `ResizeKeepsStalePresence` show both, on concrete inputs.
- Mouse-up and mouse-leave end the stroke without looking at `isDrawing`.

## Model

| member | source | states |
|---|---|---|
| Geometry.CanvasPoint | components/VideoCanvas.tsx:75-87 | each axis offset from the box origin is scaled by backing size / display size (`x * boxWidth == (clientX - left) * width`); the box's top-left corner maps to (0, 0) and its bottom-right corner to (width, height) |
| Geometry.ClientPoint | components/VideoCanvas.tsx:80-85 | the inverse transform, from backing pixels to display coordinates, satisfies the same per-axis proportion |
| Geometry.ScaleInverse | components/VideoCanvas.tsx:80-81 | an axis's scale factor backing / display and its reciprocal undo each other: scaling an offset one way and back returns it |
| Geometry.ClientOfCanvasPoint | components/VideoCanvas.tsx:80-85 | mapping a pointer position to backing pixels and back gives the pointer position again |
| Geometry.CanvasOfClientPoint | components/VideoCanvas.tsx:80-85 | every backing pixel is the image of the display point that shows it, so the transform is a bijection |
| Geometry.QuarterScaleExample | components/VideoCanvas.tsx:75-87 | a 1920x1080 surface shown at 480x270 from origin (0, 0) maps the pointer at (100, 50) to (400, 200) |
| Geometry.BackingDim | components/VideoCanvas.tsx:50-51 | a backing dimension is the intrinsic size when that is non-zero, otherwise the rendered size truncated to whole pixels; a rendered size of at least 1 never gives a zero-size surface |
| Overlay.Initial | components/VideoCanvas.tsx:19-21 | a mounted overlay starts Idle with no anchor (the state cells at lines 20-21) and an empty buffer; the mask flag is off because the page's `hasMask` starts false (app/page.tsx:18) |
| Overlay.ResizeStep | components/VideoCanvas.tsx:48-54 | with a canvas, backing width and height are `BackingDim` of intrinsic and rendered size per axis, the display size is the rendered size and the buffer is empty; the stroke state, props and mask flag are unchanged (no report); without a canvas nothing changes |
| Overlay.MouseDownStep | components/VideoCanvas.tsx:102-122 | with drawing disabled (or no canvas) the state is unchanged; otherwise Active, anchor at the mapped point, exactly one `Dot` of radius brushSize/2 there after the unchanged prior ops, and presence reported; sizes and props unchanged |
| Overlay.MouseMoveStep | components/VideoCanvas.tsx:124-137 | unchanged unless drawing is enabled, a stroke is active and an anchor exists; then one `Segment` from the old anchor to the mapped point with the brush width is appended, the anchor moves there and presence is reported |
| Overlay.EndStroke | components/VideoCanvas.tsx:139-147 | Idle with no anchor, whatever `isDrawing` is; buffer, flag, sizes and props unchanged |
| Overlay.ClearStep | components/VideoCanvas.tsx:24-33 | with a canvas the buffer is empty and the flag is off; the stroke state, sizes and props are unchanged; without a canvas nothing changes |
| Overlay.Step | components/VideoCanvas.tsx:23-147 | no handler attaches or detaches the canvas; only a resize or a clear can remove painted operations; only a resize changes the backing or display size |
| Overlay.Run | components/VideoCanvas.tsx:19 | handling a sequence of events in order never attaches or detaches the canvas |
| Overlay.RunAppend | components/VideoCanvas.tsx:102-147 | handling one event sequence and then another is the same as handling their concatenation, each handler seeing the state the previous one left |
| Overlay.MaskData | components/VideoCanvas.tsx:34-40 | the exported mask is absent exactly when there is no canvas, and otherwise it is the buffer's contents |
| Overlay.StepChains | components/VideoCanvas.tsx:102-147 | a prop change or pointer event keeps the anchor at the end of the last mark, keeps segments chained, and only appends to the buffer |
| Overlay.StrokeContinuity | components/VideoCanvas.tsx:102-137 | over any sequence of events without a resize or clear, the buffer only grows, the anchor stays at the end of the last mark, and every segment starts where the mark before it ended, so the first segment starts at the stroke's dot |
| Overlay.InitialChained | components/VideoCanvas.tsx:19-21 | the continuity invariants hold of a freshly mounted overlay |
| Overlay.DisabledPointerInert | components/VideoCanvas.tsx:102-147 | with drawing disabled, no pointer sequence paints, reports presence or resizes the surface, and an Idle overlay stays Idle |
| Overlay.PaintIsReported | components/VideoCanvas.tsx:102-137 | over every sequence of events, a non-empty buffer implies the page's mask flag is on |
| Overlay.PresenceExactWithoutResize | components/VideoCanvas.tsx:24-33 | over event sequences without a resize, the mask flag is on exactly when the buffer is non-empty |
| Overlay.OnlyClearReportsAbsence | components/VideoCanvas.tsx:24-33 | without a clear, a mask flag that is on stays on: only clearCanvas reports absence |
| Overlay.SurfaceKeptWithoutResize | components/VideoCanvas.tsx:48-54 | only a resize changes the backing size or the display size |
| Overlay.ClearIdempotent | components/VideoCanvas.tsx:24-33 | clearing twice gives the same state as clearing once |
| Overlay.ClearedExportIsEmpty | components/VideoCanvas.tsx:23-41 | after any painting without a resize, a clear followed by an export gives an empty mask of unchanged dimensions, and the flag is off |
| Overlay.QuarterScaleClick | components/VideoCanvas.tsx:102-122 | a click at (100, 50) on a 1920x1080 video shown at 480x270, with brush 20, paints exactly one dot of radius 10 at (400, 200), reports presence, and ends Idle |
| Overlay.ResizeMidStrokeLeavesStaleAnchor | components/VideoCanvas.tsx:48-54 | a resize between a mouse-down and a mouse-move wipes the dot but keeps the old anchor, so the buffer becomes a lone segment from a stale point and is no longer chained |
| Overlay.ResizeKeepsStalePresence | components/VideoCanvas.tsx:48-54 | a resize after painting empties the buffer without a report, so the mask flag stays on over an empty buffer |
| Overlay.DisabledDragPaintsNothing | components/VideoCanvas.tsx:102-103 | with drawing disabled, a down/move/up sequence leaves the buffer empty and the mask flag off |
| Component.VideoCanvas.constructor | components/VideoCanvas.tsx:17-21 | the component mounts in the model's initial state |
| Component.VideoCanvas.SetProps | components/VideoCanvas.tsx:18 | a render with new `isDrawing`/`brushSize` changes only those two fields |
| Component.VideoCanvas.ResizeCanvas | components/VideoCanvas.tsx:48-54 | the backing width and height are `BackingDim` of the intrinsic and rendered sizes, decided independently; the display size is the rendered size; the buffer is emptied; the stroke state and the mask flag are unchanged, with no report |
| Component.VideoCanvas.DrawLine | components/VideoCanvas.tsx:89-100 | appends exactly one segment of the current brush width from `from` to `to` |
| Component.VideoCanvas.HandleMouseDown | components/VideoCanvas.tsx:102-122 | with drawing disabled, nothing changes; with it enabled, the overlay becomes Active with the mapped point as anchor, exactly one dot of radius brushSize/2 is appended after the unchanged prior operations, and presence is reported |
| Component.VideoCanvas.HandleMouseMove | components/VideoCanvas.tsx:124-137 | paints only when drawing is enabled, a stroke is active and an anchor exists, and otherwise nothing changes; when it paints, it appends one segment from the old anchor to the mapped point, moves the anchor there and reports presence |
| Component.VideoCanvas.HandleMouseUp | components/VideoCanvas.tsx:139-142 | ends the stroke (Idle, no anchor) whatever `isDrawing` is; paints and reports nothing |
| Component.VideoCanvas.HandleMouseLeave | components/VideoCanvas.tsx:144-147 | the same as mouse-up |
| Component.VideoCanvas.ClearCanvas | components/VideoCanvas.tsx:24-33 | with a canvas, the buffer is emptied and absence is reported; nothing else changes |
| Component.VideoCanvas.GetMaskData | components/VideoCanvas.tsx:34-40 | returns nothing exactly when there is no canvas, otherwise the buffer's contents, and changes no state |
| Component.QuarterScaleSession | components/VideoCanvas.tsx:23-54 | driving the class through resize, a click and two clears leaves an exported mask that exists and is empty |

## Left out

- Rasterisation: colour `rgba(255, 0, 0, 0.7)`, `source-over` blending, antialiasing, and the pixels that arcs and round caps and joins cover. These are floating-point graphics inside the browser. The buffer is the list of paint operations.
- Image encoding: `canvas.toDataURL()` (PNG) is a call into the browser. `GetMaskData` returns the operation list.
- A null 2D context: `getContext('2d')` is taken to succeed. If it failed, mouse-down would still start a stroke without painting, and mouse-move would not advance the anchor.
- Listener registration and React lifecycle: the `useEffect` that adds and removes the `loadedmetadata` and `resize` listeners, and the initial-resize guard `videoWidth > 0`. A resize is an event that the environment may deliver at any time (`ResizeCanvas`, `Resize`).
- React's deferred state updates: each handler sees the state the previous one left.
- Layout: `getBoundingClientRect` results are inputs to each operation (the canvas's box for mouse events, the video's rendered size for a resize).
- Geometry.CanvasPoint: requires a canvas box of positive width and height, because a pointer event on the canvas needs a box with area. The source has no guard, and a zero-size box would give infinite or NaN coordinates, which are not modelled.
- Geometry.BackingDim: sizes of 2^31 pixels and more are not modelled. For those, WebIDL `unsigned long` conversion wraps modulo 2^32 and HTML attribute reflection applies its own limit. Only truncation of a fractional rendered size is modelled.
- Component.VideoCanvas.DrawLine: a brush size of zero or less is not modelled. The canvas ignores such a `lineWidth` and strokes at the width it already had, and `arc` throws for a negative radius. The class invariant `Valid()` keeps the size positive: the constructor and `SetProps` require a positive size, and so does the `Props` event. The page's slider (5 to 50) guarantees it.
- Exact numbers: coordinates and sizes are Dafny `real`s, which idealise JavaScript's double-precision numbers. With doubles and a fractional rendered size, rounding can move a mapped point slightly, for example the bottom-right corner can miss `(width, height)` by a rounding error.
- The `onMaskChange` callback is optional in the source. The model takes it as always attached to the page's `hasMask` state, as the page does.
- The page (`app/page.tsx`) is not part of this model: file selection, drag and drop, download link, inpainting stub, pause on entering drawing mode, slider and buttons.
