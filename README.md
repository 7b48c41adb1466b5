# Hand-tracking drawing controller — a Dafny model

This project models the interaction logic of a webcam drawing application. A hand tracker
reports the hand's landmarks each frame. A debouncer turns the per-frame "pinch" observation
into a stable drawing mode. While drawing is on, the index fingertip is forwarded to a
renderer, which stamps filled discs along the path between consecutive points onto a
persistent canvas.

Modules:

- `Base` (`base.dfy`): `Option` (Python's `None`) and integer pixel `Point`s.
- `HandDetector` (`hand_detector.dfy`): the pure predicate `IsIndexFingerUp` over a
  landmark snapshot. Image y grows downward.
- `Drawing` (`drawing.dfy`): the class `Drawing` with the source's fields. The canvas is
  `stamps`, the append-only sequence of discs `(cx, cy, radius, colour)` stamped on it.
  `canvasReady` records its lazy creation. `ProcessPoint` stamps a segment with a loop, as
  the source does. It is proved against the pure specification `Stroke` / `NewStamps`.
  The interpolation is exact integer arithmetic: `x1 + (x2 - x1) * i / steps`, truncated
  toward zero as Python's `int()` does.
- `MainLoop` (`main_loop.dfy`): the hysteresis of the frame loop. `Step` and `Run` are the
  specification. The class `DrawModeDebouncer` holds `on_counter`, `off_counter` and
  `draw_state`, and its `Update` method changes them in place. `LastDecisive` is an
  independent, counter-free definition of the mode, and a lemma proves the two agree.
  `RunSession` is the frame loop with its forwarding guard. A `None` in its output means
  "nothing forwarded this frame", not a gap: the source then does not call the renderer at
  all, so a hand's last point survives a frame without a hand or with drawing off, and the
  next forwarded tip is joined to it. Gaps reach `ProcessPoint` only when a caller passes
  `None` itself.

## Model

| member | source | states |
|---|---|---|
| `HandDetector.LevelTipIsNotUp` | app/hand_detector.py:25-26 | the comparison is strict: a tip level with its PIP joint is not "up" |
| `HandDetector.IsIndexFingerUp` | app/hand_detector.py:25-26 | up exactly when landmark 8 lies above landmark 6 (its y is smaller, since image y grows downward); needs at least nine landmarks |
| `HandDetector.OnlyIndexHeightsMatter` | app/hand_detector.py:26 | two snapshots agreeing on the y of landmarks 6 and 8 give the same answer, whatever the other landmarks and all x and z values are |
| `HandDetector.RaisingTipKeepsUp` | app/hand_detector.py:26 | moving the tip higher keeps a raised finger raised |
| `Drawing.Drawing.constructor` | app/drawing.py:5-10 | no canvas yet, no last points, eraser off for both hands, green, thickness 5 |
| `Drawing.Drawing.UpdateThickness` | app/drawing.py:17-18 | thickness becomes `val` if positive, else 1; nothing else changes; thickness stays at least 1 |
| `Drawing.Drawing.UpdateColor` | app/drawing.py:20-26 | 0, 1 and 2 select (0,255,0), (0,0,255) and (255,0,0); any other value leaves the colour unchanged; the colour is always one of the three |
| `Drawing.Drawing.MouseCallback` | app/drawing.py:28-32 | right button down sets both eraser flags, right button up clears both, other events change nothing |
| `Drawing.Drawing.ProcessPoint` | app/drawing.py:34-57 | the canvas exists afterwards; only this hand's last point changes, to the new point (a gap clears it); earlier discs are kept and exactly the segment from the previous point is appended, or nothing after a gap or for a hand's first point |
| `Drawing.BrushFor` | app/drawing.py:52-55 | an erasing hand stamps radius 60 in black; otherwise the disc has the current colour and radius `thickness // 2` (twice the radius is the thickness or one less) |
| `Drawing.TruncDiv` | app/drawing.py:50-51 | the quotient truncated toward zero, as `int()` does: for a non-negative dividend it is at most the exact quotient and within one of it, for a negative one at least the exact quotient and within one of it |
| `Drawing.Lerp` | app/drawing.py:49-51 | the coordinate at step `i` of `n` is the exact point `a + (b - a) * i / n` truncated toward zero, bracketed as for `TruncDiv` |
| `Drawing.StepCount` | app/drawing.py:45-47 | the step count is at least 1 (no division by zero) and is half the largest per-axis displacement, rounded down |
| `Drawing.Stroke` | app/drawing.py:48-51 | a segment has exactly `steps + 1` discs |
| `Drawing.LerpBetween` | app/drawing.py:49-51 | in exact arithmetic, every interpolated coordinate lies between the endpoints; step 0 gives the start and the last step gives the end |
| `Drawing.StrokeShape` | app/drawing.py:48-55 | in exact arithmetic, a segment has at least two discs, starts at the previous point, ends at the new point, stays in the box the two points span, and uses the hand's brush for every disc |
| `Drawing.StrokeIsDense` | app/drawing.py:45-51 | in exact arithmetic, consecutive discs of a segment are at most 3 pixels apart on each axis, so a fast stroke stays connected |
| `Drawing.NewStamps` | app/drawing.py:38-57 | one call stamps something exactly when the hand has a previous point and the new point is not a gap; then at least two discs, the first at the previous point, the last at the new point, all with the hand's brush |
| `Drawing.Replay` | app/drawing.py:34-57 | successive calls for one hand with an unchanged brush stamp either nothing or at least two discs; a hand's first point alone stamps nothing |
| `Drawing.ReplayUsesBrush` | app/drawing.py:52-55 | every disc stamped by successive calls carries the brush's radius and colour |
| `Drawing.GapBreaksContinuity` | app/drawing.py:38-42 | after a gap, what a hand stamps no longer depends on any point before the gap |
| `Drawing.TwoPointsThenGap` | app/drawing.py:38-57 | the points P1, P2, gap, P3 stamp exactly the segment P1 to P2; P3 alone stamps nothing |
| `Drawing.EraserCoversInk` | app/drawing.py:52-55 | for thicknesses 1 to 119 (the trackbar offers 0 to 20), the eraser radius 60 is strictly larger than the drawing radius `thickness // 2` |
| `Drawing.EraserNoLargerFrom120` | app/drawing.py:52-55 | from thickness 120 on, which `update_thickness` accepts, the drawing radius is at least the eraser radius, so the bound 119 is tight |
| `MainLoop.Run` | app/main.py:33-46 | after any sequence of observations at most one counter is nonzero, the counters together never exceed the number of frames, and drawing is on only after at least 3 frames |
| `MainLoop.Step` | app/main.py:33-46 | a pinch increments the on-counter and zeroes the off-counter, anything else does the reverse; at most one counter is nonzero; from off the mode turns on exactly when the on-counter reaches 3; from on it turns off exactly when the off-counter reaches 3 |
| `MainLoop.CountersAreTrailingRuns` | app/main.py:33-41 | the on- and off-counters equal the lengths of the trailing runs of pinches and non-pinches |
| `MainLoop.DrawStateFollowsLastDecisive` | app/main.py:33-46 | the mode is on exactly when the most recent window of 3 identical observations was a pinch window, and off before any such window |
| `MainLoop.PinchRunActivatesAtThreshold` | app/main.py:43-44 | from off, after a non-pinch or at the start, `j` pinches in a row turn drawing on exactly when `j >= 3` |
| `MainLoop.PinchesFromOff` | app/main.py:33-44 | from off with a cleared on-counter, `j` pinches leave the on-counter at `j` and turn drawing on exactly when `j >= 3` |
| `MainLoop.ReleasesFromOn` | app/main.py:36-46 | from on with a cleared off-counter, `j` non-pinches leave the off-counter at `j` and turn drawing off exactly when `j >= 3` |
| `MainLoop.ShortPinchNeverActivates` | app/main.py:33-44 | two or fewer pinches in a row followed by a non-pinch never turn drawing on |
| `MainLoop.ReleaseRunDeactivatesAtThreshold` | app/main.py:36-46 | from on, after a pinch, `j` non-pinches in a row turn drawing off exactly when `j >= 3` |
| `MainLoop.ThreeOffThenThreeOn` | app/main.py:33-46 | for F,F,F,T,T,T the mode is off after each of the first five observations and on after the sixth |
| `MainLoop.DrawModeDebouncer.constructor` | app/main.py:10-14 | both counters are zero and drawing is off |
| `MainLoop.DrawModeDebouncer.Update` | app/main.py:33-46 | the fields change as `Step` prescribes and keep at most one counter nonzero |
| `MainLoop.Observation` | app/main.py:27-41 | a frame without a hand counts as "no pinch"; with a hand, the pinch decides |
| `MainLoop.Forwarded` | app/main.py:48-49 | a point is forwarded exactly when drawing is on and a tip exists, and it is that tip |
| `MainLoop.RunSession` | app/main.py:16-49 | for each frame in order, the point forwarded is the guard applied to the mode after that frame and all earlier ones |

## Left out

- Pixel work is not modelled: `cv2.circle` filling, `np.zeros_like` and `cv2.add` in `draw`. The canvas is the sequence of stamped discs. `Drawing.draw` only composites, so it is not modelled.
- The canvas's size, taken from the first frame, is not modelled. `ProcessPoint` has no frame parameter.
- `ProcessPoint`: the source computes `int(x1*(1-alpha) + x2*alpha)` in floating point. The model uses the exact rational value truncated toward zero. A stamped pixel can differ by one: from (3,0) to (3,20), step 3 of 10, the float sum is 2.9999999999999996 and `int()` gives 2, where the model gives 3. `LerpBetween`, `StrokeShape` and `StrokeIsDense` are proved for the exact-arithmetic model, not for the float computation.
- The conversion of the normalised tip to pixels (app/main.py:29-32) is floating point and is not modelled. A frame carries the tip already in pixels.
- The window, trackbar and mouse-callback registration (app/drawing.py:12-15) is UI setup and is not modelled. `MouseCallback` keeps only `event`, because the source ignores `x`, `y`, `flags` and `param`. The OpenCV event codes are fixed at 2 (right button down) and 5 (right button up).
- `ProcessPoint` takes `hand_id` in 0..1. Python's negative list indices are not modelled.
- `HandTracker.__init__` and `process` are not modelled, because they call MediaPipe. Frame capture, `flip`, `cvtColor`, `imshow`, `waitKey` and `release` are not modelled either. The session ends when the frame sequence ends. The Escape key is not modelled.
- The pinch test `is_thumb_and_index_close` is called at app/main.py:33 but defined nowhere. The pinch is therefore an input of each frame.
- `RunSession`: the source forwards the tip with `drawing.add_point`, which `Drawing` does not define, and unpacks three values from `process`, which returns two. The model returns the forwarded points instead of calling the renderer, and does not model the unpacking.
