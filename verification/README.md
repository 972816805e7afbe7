# GraphicLab1 line demo — a Dafny model

The program is a small Qt demo. It has two lines on a scene. One of them, `CustomLine`, paints
itself pixel by pixel with Bresenham's algorithm. The other wraps a stock Qt line item. The
keyboard moves, rotates and resizes whichever line is active, and Space switches between them.

This project models the three pieces of logic in `main.cpp`:

- **Raster** (`raster.dfy`, `raster_facts.dfy`): `drawLine`, `drawLineLow` and
  `drawLineHigh` on integer endpoints. `drawLineLow` and `drawLineHigh` are methods that
  run the source's own loop, with the decision variable `d` integer-valued. Their contracts tie
  the emitted pixels to a closed-form reference `IdealRun`: along the driving axis, the
  pixel nearest the ideal segment, with an exact half-pixel tie going toward the start
  point.
  - The link is the error term `2*rise*k - 2*run*m`. It lies in the half-open window
    `(-run, run]`, which has exactly one solution `m` (`IdealUnique`), and the loop's `d` is
    that term shifted by `2*rise - run`.
  - `Rasterize` is the reference for the whole of `drawLine`. `raster_facts.dfy` proves,
    from that reference, the facts about the output as a whole: swap symmetry, the
    degenerate segments and worked examples.
- **LinePose** (`pose.dfy`): the `CustomLine` record `Pose` of origin, length and angle, with
  `move`, `rotateClockwise`, `rotateCounterClockwise` and `resize` as pure updates.
- **Controller** (`controller.dfy`): `keyPressEvent` as a pure step on a window of two lines
  and an active index. The window is generic in the line type. The effect of a command is
  passed in as a function, which is how the virtual `Line` interface is reached.
  `PoseWindow` instantiates it with `LinePose.Pose`.

The painter becomes "append a pixel to a sequence". The two text labels become a list of
`Label`s in the returned `Stroke`.

## Model

| member | source | states |
|---|---|---|
| Raster.DrawLineLow | main.cpp:187-205 | for x0 <= x1 it emits exactly x1-x0+1 pixels, and none otherwise. The x coordinates run x0, x0+1, … and the first pixel is (x0,y0). Between neighbours y changes by 0 or by `sy` (the sign of dy, +1 when dy is 0). For a shallow segment the pixels are exactly the nearest-row reference run and the last one is (x1,y1). |
| Raster.DrawLineHigh | main.cpp:166-185 | the same with x and y exchanged: y1 <= y2 gives y2-y1+1 pixels, y runs consecutively from y1, the first pixel is (x1,y1), x steps by 0 or `sx`, and a steep segment gives the nearest-column reference run ending at (x2,y2). |
| Raster.DrawLine | main.cpp:147-164 | it emits the reference `Rasterize` of the segment: max(\|dx\|,\|dy\|)+1 pixels, driven along x when \|y2-y1\| < \|x2-x1\| and along y otherwise, from the smaller coordinate. The pixels are 8-connected and start and end at the two endpoints. The labels "A2" and "B2" sit 5 units above the original, unswapped endpoints. |
| Raster.IdealUnique | main.cpp:193-203 | an offset m whose error term 2·rise·k − 2·run·m lies in (−run, run] is the rounded ideal offset; only one offset fits the window. |
| Raster.IdealStep | main.cpp:197-203 | with d = error term + 2·rise − run, the ideal offset steps to the next row exactly when d > 0. The error term then changes by 2·(rise − run), or by 2·rise otherwise. These are the source's two updates of d. |
| Raster.OnIdealStep | main.cpp:195-203 | one loop iteration keeps the minor coordinate equal to base + s·(ideal offset) and d equal to the shifted error term. |
| Raster.WalkStep | main.cpp:195-203 | one iteration of either routine keeps the loop invariant: consecutive driving coordinates, minor steps of 0 or s, and the emitted prefix equal to the reference run. |
| Raster.WalkExit | main.cpp:195 | when the loop condition fails, the emitted pixels have the right count and equal the whole reference run, whose last pixel is the far endpoint. |
| Raster.IdealAtEnd | main.cpp:195-203 | after run steps the ideal offset is exactly rise, so the last pixel hits the endpoint. |
| Raster.IdealAtStart | main.cpp:193-196 | the ideal offset at the first column is 0, so the first pixel is the start point. |
| Raster.IdealRunEnds | main.cpp:195-196 | a reference run starts at its first endpoint and ends at its second. |
| Raster.IdealRunNearLine | main.cpp:193-203 | every pixel k of a reference run satisfies −run < 2·rise·k − 2·run·s·(minor − b0) <= run: it lies within half a pixel of the ideal line. |
| Raster.DrivenRunConnected | main.cpp:190-199 | consecutive driving coordinates plus minor steps of 0 or ±1 make the pixel sequence 8-connected. |
| Raster.SignTimesAbs | main.cpp:190-191 | `dy * sy` is \|dy\|, equal to the negation under the sign test that the model writes for it, and sy times \|dy\| gives dy back. |
| RasterFacts.RasterizeSwap | main.cpp:148-160 | drawing p→q and q→p emits the same pixels in the same order. |
| RasterFacts.SinglePoint | main.cpp:148-158 | a single point goes to the steep branch and yields exactly that one pixel. |
| RasterFacts.HorizontalRun | main.cpp:148-153 | a horizontal segment yields \|x2−x1\|+1 pixels, one per column from the smaller x, all on its row. |
| RasterFacts.VerticalRun | main.cpp:154-159 | a vertical segment yields \|y2−y1\|+1 pixels, one per row from the smaller y, all in its column. |
| RasterFacts.FlatRun | main.cpp:193-203 | a reference run with no rise keeps its minor coordinate fixed. |
| RasterFacts.DiagonalRun | main.cpp:154-185 | a 45° segment with x and y growing together, (x,y)–(x+n,y+n), goes to the steep branch and yields the exact diagonal (x+k, y+k). |
| RasterFacts.AntiDiagonalRun | main.cpp:154-185 | a 45° segment with x growing as y shrinks, (x,y)–(x+n,y−n), goes to the steep branch, is drawn from its upper end, and yields the exact anti-diagonal (x+n−k, y−n+k). |
| RasterFacts.DiagonalExample | main.cpp:147-160 | (0,0)–(4,4) and (4,4)–(0,0) both yield (0,0),(1,1),(2,2),(3,3),(4,4). |
| RasterFacts.ShallowShape | main.cpp:187-205 | a segment 4 right and 1 down from any start puts three pixels on the first row and two on the next. |
| RasterFacts.ShallowExample | main.cpp:147-153 | (0,0)–(4,1) is shallow and yields (0,0),(1,0),(2,0),(3,1),(4,1) in both directions. |
| RasterFacts.CrossSwap | main.cpp:148-160 | measuring from the other endpoint only flips the sign of the cross product, so the distance to the segment does not depend on the endpoint order. |
| RasterFacts.CrossIsErr | main.cpp:193-203 | in driving/minor coordinates, twice the cross product of a pixel with the segment equals the Bresenham error term up to sign. |
| RasterFacts.RunNearSegment | main.cpp:187-205 | every pixel of a reference run has \|2·cross\| <= run against the segment between its ends: within half a pixel of it. |
| RasterFacts.RasterizeNearSegment | main.cpp:147-205 | every pixel `drawLine` emits, in both routines and both endpoint orders, has \|2·((py−y1)(x2−x1) − (y2−y1)(px−x1))\| <= max(\|dx\|,\|dy\|): it lies within half a pixel of the ideal segment, measured along the shorter axis. |
| LinePose.InitialIsDemoSegment | main.cpp:232 | the self-rendering line's starting pose is valid, starts at (100,200) with angle 0, and its far end along the x axis is (200,200): the segment the window builds it from. |
| LinePose.Move | main.cpp:87-91 | `move(dx,dy)` shifts the origin by exactly (dx,dy) and leaves length and angle unchanged. |
| LinePose.MoveInverse | main.cpp:87-91 | moving by (−dx,−dy) after (dx,dy) restores the pose. |
| LinePose.MoveCompose | main.cpp:87-91 | two moves equal one move by the summed offset. |
| LinePose.RotateClockwise | main.cpp:93-96 | the angle grows by exactly 30 degrees; origin and length are unchanged. |
| LinePose.RotateCounterClockwise | main.cpp:98-110 | the angle shrinks by exactly 30 degrees; origin and length are unchanged. |
| LinePose.RotateInverse | main.cpp:93-110 | the two rotations undo each other in either order. |
| LinePose.RotateClockwiseTimesAngle | main.cpp:93-96 | n clockwise rotations turn the angle by exactly 30·n degrees. |
| LinePose.FullTurn | main.cpp:93-96 | twelve clockwise rotations add exactly 360 degrees and change nothing else. |
| LinePose.MoveRotateCommute | main.cpp:87-110 | moving and rotating commute. |
| LinePose.Resize | main.cpp:112-118 | the new length is non-negative, at least length+delta, and either 0 or length+delta (so it is max(0, length+delta)); origin and angle are unchanged. |
| LinePose.ResizeClamps | main.cpp:112-118 | the new length is 0 exactly when length+delta <= 0, and is length+delta whenever that is non-negative. |
| LinePose.MutatorsPreserveValid | main.cpp:87-118 | every mutator keeps length >= 0. |
| LinePose.ResizeToZero | main.cpp:112-118 | two resizes whose deltas sum to −length give length exactly 0, if the first one does not hit the clamp. |
| LinePose.ResizeUndo | main.cpp:112-118 | a resize that does not hit the clamp is undone by the opposite resize. |
| LinePose.ResizeCompose | main.cpp:112-118 | on a valid line, two growths or two shrinks equal one resize by the summed delta. |
| LinePose.ResizeClampAbsorbs | main.cpp:112-118 | once a shrink hits the clamp, further shrinks keep length 0. |
| Controller.CommandFor | main.cpp:238-267 | the whole key map, each part both ways. Exactly Space and unmapped keys send no command. Exactly W, A, S and D send a move: W and S move along y only, A and D along x only, by 100, with W and A negative and S and D positive. Exactly E sends a clockwise rotation and exactly Q a counter-clockwise one. Exactly Z and C send a resize: Z by −10, C by +10. |
| Controller.CommandForInjective | main.cpp:242-266 | different mapped keys send different commands. |
| Controller.Step | main.cpp:237-268 | the index flips exactly on Space. The command sent is the key's fixed command, and none exactly for Space and unmapped keys. |
| Controller.ToggleTwice | main.cpp:239-241 | Space twice restores the index. |
| Controller.Initial | main.cpp:214-234 | a new window has index false (value-initialised at main.cpp:214), so `lines[0]` (the adapter) is active and `lines[1]` (the self-rendering line) is not. |
| Controller.Handle | main.cpp:237-268 | Space swaps which line is active and changes no line. A mapped key keeps the index, applies its command to the active line only, and leaves the other line unchanged. An unmapped key changes nothing. |
| Controller.HandleToggleTwice | main.cpp:239-241 | Space twice leaves the whole window as it was. |
| Controller.HandleAllKeepsInactive | main.cpp:237-268 | a run of key presses without Space never changes the index or touches the inactive line. |
| Controller.HandleAllIgnoresOther | main.cpp:237-268 | dropping the unmapped keys from a run does not change its outcome. |
| Controller.OppositeInvolution | main.cpp:242-266 | opposite keys (W/S, A/D, Q/E, Z/C) come in pairs. |
| Controller.Apply | main.cpp:244-265 | a command on the self-rendering line changes only what its mutator changes. A move shifts the origin by exactly (dx,dy) and keeps length and angle. The two rotations change only the angle, by +30 and −30. A resize keeps origin and angle and leaves the length at 0 or at length+delta, never below length+delta. A valid pose stays valid. |
| Controller.Inverse | main.cpp:243-265 | the undoing command is the opposite move, the other rotation or the opposite resize. |
| Controller.ApplyInverse | main.cpp:87-118 | on a valid line, a command followed by its inverse restores the pose exactly, except a shrink that hits the clamp at 0. |
| Controller.OppositeSendsInverse | main.cpp:243-266 | the opposite of each mapped key (W/S, A/D, Q/E, Z/C) sends exactly the inverse of that key's command. |
| Controller.HandlePreservesValid | main.cpp:237-268 | every key press keeps both self-rendering lines at non-negative length. |
| Controller.OppositeKeysCancel | main.cpp:242-266 | on self-rendering lines, a key followed by its opposite restores the window. Z then C needs the active line to be at least 10 long. |
| Controller.ShrinkGrowLoses | main.cpp:261-266 | a line shorter than 10 comes back from Z then C at length exactly 10, not its old length. |

## Left out

- `QtLineAdapter` (main.cpp:23-70): it delegates to `QGraphicsLineItem` and `QLineF`, whose semantics are not visible. That includes the `?: 1` length policy of its `resize`. The controller is generic in the line type for this reason, and only its instantiation with the self-rendering pose has the opposite-key results.
- Endpoint derivation in `paint` (main.cpp:134-136): `cos` and `sin` of the angle times the length are floating-point trigonometry. The rasterizer takes integer endpoints directly, and `FullTurn` states the 360-degree periodicity only for the angle itself.
- `qreal` to `int` truncation in the rasterizer: all endpoints are integers here. So the model does not cover the asymmetry that `drawLineLow` keeps `y` as a `qreal` (main.cpp:194) while `drawLineHigh` truncates `x` (main.cpp:174), nor the truncation of the label positions (main.cpp:162-163).
- `dy = dy * sy` and `dx *= sx` (main.cpp:171, 191) are written as a negation under the sign test. `SignTimesAbs` states that the two agree.
- Floating point: origin, length and angle are exact `real`s, so rounding in `qreal` arithmetic is not modelled.
- Integer widths in the rasterizer: in the source `dx`, `dy` and `d` are `qreal`s (main.cpp:167-168, 173, 188-189, 193). Every value the loop computes (`dx`, `dy`, `2*dy`, `2*(dy-dx)` and `d`) is at most four times the largest endpoint magnitude, so these `qreal`s hold exact integers as long as the endpoints stay below 2^51 in magnitude; that is well inside the 32-bit range the next line already requires. The model assumes this by using unbounded integers.
- The loop counters are 32-bit `int`s compared against a `qreal` bound (main.cpp:176, 195). The model does not cover what happens when an endpoint reaches INT_MAX: `x++` or `y++` overflows there and the source loop would not end. It also does not cover `int()` of endpoints out of the 32-bit range. `DrawLineLow` and `DrawLineHigh` are proved to terminate for unbounded integers only.
- The `CustomLine` constructor (main.cpp:74-80): it takes length and angle from a `QLineF`, which needs a square root and an arctangent. `LinePose.Initial` writes out the pose it gives the demo line, and `LinePose.InitialIsDemoSegment` checks it against that segment.
- Qt painting and scene plumbing (main.cpp:79, 83, 120-144): `fillRect`, pen handling, `boundingRect`, item registration and the `update()` redraw requests.
- Destructors (main.cpp:38-45, 82-85): memory management only.
- Window, layout and view setup (main.cpp:215-230) and `main` (main.cpp:277-284): UI construction only.
- The commented-out rotation code (main.cpp:99-106).
