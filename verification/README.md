# Paint: a verified model of the drawing engines

This project models the logic at the core of a small JavaFX paint program and proves properties of that model in Dafny.
Five parts are modelled:

- **The brush tool.** This is a stack-based flood fill over 4-neighbours. Picking the tool takes a snapshot of the canvas and samples the target colour at pixel (0, 0) of that snapshot. It also allocates one `visited` grid, which every later press reuses. A pixel is fillable when its snapshot colour is the target colour, `WHITESMOKE` or `WHITE`.
- **The rectangle and circle tools and their fill patterns.**
  - The rectangle is spanned by the two drag corners.
  - Hatch lines run every 25 pixels: horizontal ones inside rectangles, vertical ones inside rectangles, and both kinds inside circles.
  - A dragged circle's radius is the Chebyshev distance from its centre to the mouse.
  - A pixel is inside the circle by the Euclidean test.
  - Circle hatching scans the canvas and paints the pixels that lie inside the circle and on a hatch line, skipping those that already have the line colour.
- **The bilateral filter.** Every pixel at least 3 pixels from each border becomes the weighted average of its 7 x 7 window; border pixels are copied. The menu's filter command runs the filter twice.
- **The File menu.** This covers the file-extension helper, the format a save writes, the New File reset, and where Insert Image places the overlay.
- **The zoom-selection tool.** A primary-button drag selects a rectangle. The release blows up the middle two thirds of that rectangle to fill it. Every release detaches the tool's handlers.

Modelling conventions:

- Images are immutable values: a width, a height and rows of RGB triples.
- Doubles are reals.
- Java's `(int)` cast is written out: it truncates toward zero and saturates at the 32-bit bounds.
- Mouse handlers are functions from the controller state to the next state and the drawing they make.
- Sequences of events are folded over with `Run` functions.

Module layout:

| file | module | contents |
|---|---|---|
| `wrappers.dfy` | `Wrappers` | `Option` |
| `numeric.dfy` | `Numeric` | `Math.abs/min/max`, `(int)` casts, bounds of a truncated quotient |
| `raster.dfy` | `Raster` | points, colours, images |
| `geometry.dfy` | `Geometry` | rectangles from two corners, fill patterns |
| `flood_fill.dfy` | `FloodFill` | the brush tool |
| `patterns.dfy` | `Patterns` | hatch-line positions, drag radius, inside test, circle hatch scan |
| `circle_shape.dfy` | `CircleShapes` | the `CircleShape` record |
| `gestures.dfy` | `Gestures` | press/drag/release of the rectangle and circle tools |
| `averages.dfy` | `Averages` | weighted sums and the convex-average bound |
| `bilateral.dfy` | `Bilateral` | the bilateral filter |
| `menu.dfy` | `Menu` | the File menu helpers |
| `resize.dfy` | `Resize` | the zoom-selection tool |

Behaviour modelled exactly as the code does it, which a reader might not expect:

- The fill's target colour is sampled at (0, 0) of the snapshot, not at the pressed pixel.
- The `visited` grid lives as long as one activation of the tool, not one fill.
- Horizontal rectangle hatching starts at the raw start row of the drag and steps toward the end row, rather than at the top edge.

## Model

Source paths are relative to the repository root.

| member | source | states |
|---|---|---|
| Numeric.JavaIntCast | src/main/java/com/example/paint/FunctionController.java:77-78 | `(int)` of a double stays in the 32-bit range. It is the integer part rounded toward zero, and saturates beyond the bounds. |
| Numeric.TruncatedQuotientBounds | src/main/java/com/example/paint/BilateralFilter.java:71-73 | If `lo * b <= a <= hi * b` with `b > 0`, then `(int) (a / b)` lies in `lo .. hi`. |
| FloodFill.Activate | src/main/java/com/example/paint/FunctionController.java:64-74 | Picking the brush keeps the snapshot, takes the target colour from (0, 0) and starts with nothing visited. On an empty canvas it installs nothing. |
| FloodFill.Neighbours | src/main/java/com/example/paint/FunctionController.java:98-101 | The four pushed points are exactly the 4-adjacent pixels. |
| FloodFill.FillShrinksUnvisited | src/main/java/com/example/paint/FunctionController.java:89-96 | Each fill marks a fresh in-bounds cell, so the number of unvisited cells drops and the loop terminates. |
| FloodFill.Click | src/main/java/com/example/paint/FunctionController.java:76-105 | A press off the canvas writes nothing and changes nothing. Otherwise the writes are distinct and are exactly the pixels newly marked visited. They are exactly the pixels reachable from the pressed pixel by 4-steps through fillable, unvisited snapshot pixels. Written pixels take the picked colour and all others keep theirs. |
| FloodFill.ClickTwice | src/main/java/com/example/paint/FunctionController.java:74-96 | In one activation a second press never rewrites a pixel the first filled. `visited` ends as the earlier marks plus both presses' writes. |
| FloodFill.WholeCanvasWhenEveryPixelMatches | src/main/java/com/example/paint/FunctionController.java:93-95 | On a canvas where every pixel passes the colour test (all white, say), any pixel is in the region of any seed on the canvas. |
| Geometry.FromCorners | src/main/java/com/example/paint/FunctionController.java:228-231 | The rectangle has non-negative size. Its left and right edges are the two corner x values, its top and bottom edges the two y values, and it contains both corners. |
| Geometry.FromCornersIsSymmetric | src/main/java/com/example/paint/FunctionController.java:257-260 | The rectangle does not depend on which corner the drag started from. |
| Geometry.MinMaxFormAgrees | src/main/java/com/example/paint/FunctionController.java:288-291 | The min/max corners of the vertical-hatch branch give the same rectangle as the min/abs form. |
| Patterns.StepsBelow | src/main/java/com/example/paint/FunctionController.java:330-335 | The loop's values are `start + 25k`, all below the limit, and one more step would reach it. |
| Patterns.StepsAbove | src/main/java/com/example/paint/FunctionController.java:322-328 | The loop's values are `start - 25k`, all above the limit, and one more step would reach it. |
| Patterns.HorizontalLinePositions | src/main/java/com/example/paint/FunctionController.java:316-337 | Lines start at `y1` and step by 25 toward `y2`. They stay between the two and never reach `y2`. There are none when `y1 == y2`, and none is missing. |
| Patterns.HorizontalLinesEvenlySpaced | src/main/java/com/example/paint/FunctionController.java:319-336 | Consecutive horizontal lines are exactly 25 apart. |
| Patterns.VerticalLinePositions | src/main/java/com/example/paint/FunctionController.java:349-371 | Line x values are `min + 12.5 + 25k`, strictly inside `min .. max`, and none is missing. |
| Patterns.VerticalLinesIgnoreCornerOrder | src/main/java/com/example/paint/FunctionController.java:356-370 | The two corner-order branches draw the same lines. |
| Patterns.DragRadius | src/main/java/com/example/paint/FunctionController.java:449-450 | The radius is non-negative and equals the larger of the two axis offsets. |
| Patterns.SqrtComparison | src/main/java/com/example/paint/FunctionController.java:530-531 | For the exact square root `d` of `v`, `d <= r` holds exactly when `r >= 0` and `v <= r * r`. |
| Patterns.InsideCircleMatchesSqrt | src/main/java/com/example/paint/FunctionController.java:529-532 | The squared inside test agrees with the square-root test. |
| Patterns.ScanRow | src/main/java/com/example/paint/FunctionController.java:506-514 | The inner loop strokes exactly the hatch pixels of the row from the start column on, left to right. |
| Patterns.ScanRows | src/main/java/com/example/paint/FunctionController.java:505-515 | The outer loop strokes exactly the hatch pixels from the start row on, in row-major order. |
| Patterns.CircleHatch | src/main/java/com/example/paint/FunctionController.java:552-561 | Hatching strokes exactly the on-canvas pixels inside the circle, on a hatch row or column, and not already of the line colour. It strokes each once, in row-major order, and strokes nothing without a fill pattern. |
| Patterns.HatchPixelsNearCentre | src/main/java/com/example/paint/FunctionController.java:505-513 | Every hatch pixel lies within the radius of the centre along both axes. |
| CircleShapes.SetRadius | src/main/java/com/example/paint/CircleShape.java:36-38 | `setRadius` then `getRadius` returns the value set. Centre, colour and fill type are unchanged. |
| CircleShapes.SetRadiusLastWins | src/main/java/com/example/paint/CircleShape.java:28-38 | Of two `setRadius` calls only the last is observable. |
| CircleShapes.FixedFieldsNeverChange | src/main/java/com/example/paint/CircleShape.java:6-42 | After any number of `setRadius` calls, the getters for centre, colour and fill type return what the constructor stored. The radius is the last value set. |
| Gestures.RectPress | src/main/java/com/example/paint/FunctionController.java:240-246 | A press puts both corners at the press point and starts drawing. |
| Gestures.RectDrag | src/main/java/com/example/paint/FunctionController.java:247-253 | A drag moves only the end corner, and only while drawing. |
| Gestures.HorizontalHatch | src/main/java/com/example/paint/FunctionController.java:326 | Each horizontal hatch line runs from `x1` to `x2` at one of the line rows. |
| Gestures.VerticalHatch | src/main/java/com/example/paint/FunctionController.java:368 | Each vertical hatch line runs from `y1` to `y2` at one of the line columns. |
| Gestures.RectRelease | src/main/java/com/example/paint/FunctionController.java:254-268 | A release while drawing stops drawing. It strokes the normalised rectangle and the pattern's hatch lines. Otherwise it does nothing. |
| Gestures.HatchInsideOutline | src/main/java/com/example/paint/FunctionController.java:285-300 | Every hatch line has both ends in the outline. Horizontal lines span its full width and vertical lines its full height. |
| Gestures.ClickWithoutDragDrawsAPoint | src/main/java/com/example/paint/FunctionController.java:240-268 | A press and release without a drag strokes a zero-size rectangle at the press point and no hatch lines. |
| Gestures.CirclePress | src/main/java/com/example/paint/FunctionController.java:437-443 | A press starts a circle of radius 0 at the press point, with the picked colour and pattern. Nothing else changes; the rectangle tool's fields are kept. |
| Gestures.CircleDrag | src/main/java/com/example/paint/FunctionController.java:445-454 | A drag sets the circle's radius to the drag radius, only while a circle is being drawn. |
| Gestures.CircleReleaseState | src/main/java/com/example/paint/FunctionController.java:456-459 | A release stops drawing and clamps the radius at 0. Nothing else changes; the rectangle tool's fields are kept. Without a circle in progress it changes nothing. |
| Gestures.CircleRelease | src/main/java/com/example/paint/FunctionController.java:456-485 | A release draws exactly when a circle is being drawn. The drawn circle has a non-negative radius, and its hatch is exactly the hatch pixels of that circle. |
| Gestures.ReleaseClampNeverFires | src/main/java/com/example/paint/FunctionController.java:437-459 | From the initial state, after any events, the circle's radius is non-negative, so the clamp at release never changes it. |
| Gestures.RunKeepsRadiusNonNegative | src/main/java/com/example/paint/FunctionController.java:445-459 | No handler makes a non-negative radius negative. |
| Averages.TotalAtLeastEach | src/main/java/com/example/paint/BilateralFilter.java:63 | With positive weights, the weight sum is at least every single weight. |
| Averages.DotBounds | src/main/java/com/example/paint/BilateralFilter.java:63-67 | For values in `lo .. hi`, the weighted sum lies between `lo` and `hi` times the weight sum. |
| Averages.AverageBounds | src/main/java/com/example/paint/BilateralFilter.java:65-73 | The truncated weighted average of values in `lo .. hi` is in `lo .. hi`. |
| Bilateral.ColorDistanceSquared | src/main/java/com/example/paint/BilateralFilter.java:90-95 | The colour distance is non-negative and zero exactly when the colours are equal. |
| Bilateral.SpaceDistanceSquared | src/main/java/com/example/paint/BilateralFilter.java:106-110 | The spatial distance is non-negative and zero exactly at the centre. |
| Bilateral.DistancesAreSymmetric | src/main/java/com/example/paint/BilateralFilter.java:90-110 | Neither distance depends on argument order. |
| Bilateral.Window | src/main/java/com/example/paint/BilateralFilter.java:53-57 | The window has 49 pixels, with the centre in the middle position. A pixel is in it exactly when it is within 3 of the centre along both axes. |
| Bilateral.WindowInBounds | src/main/java/com/example/paint/BilateralFilter.java:44-57 | Every window pixel of a processed pixel is on the image. |
| Bilateral.PixelWeight | src/main/java/com/example/paint/BilateralFilter.java:59-62 | Every weight is positive, and the centre's weight is 1. |
| Bilateral.WindowWeights | src/main/java/com/example/paint/BilateralFilter.java:53-67 | The weight sum is at least 1, so the divisions are defined. |
| Bilateral.FilteredChannelWithinWindow | src/main/java/com/example/paint/BilateralFilter.java:65-75 | Each output channel lies between the smallest and largest value of that channel in the window, hence in `0 .. 255`. |
| Bilateral.FilteredPixel | src/main/java/com/example/paint/BilateralFilter.java:71-75 | The filtered colour is a valid RGB colour. |
| Bilateral.Filter | src/main/java/com/example/paint/BilateralFilter.java:35-81 | The output has the input's size. Border pixels equal the input, and interior pixels are the filtered window average. |
| Bilateral.SmallImageUnchanged | src/main/java/com/example/paint/BilateralFilter.java:40-45 | An image narrower or shorter than 7 comes back unchanged. |
| Bilateral.UniformWindowKept | src/main/java/com/example/paint/BilateralFilter.java:62-75 | A window of one colour reproduces that colour. |
| Bilateral.FilterTwice | src/main/java/com/example/paint/MenuController.java:134-138 | Two passes keep the size and the input's border, and leave images smaller than the window unchanged. |
| Bilateral.ApplyFilter | src/main/java/com/example/paint/BilateralFilter.java:35-81 | The row-major loops over a copy of the input compute exactly `Filter`, so the visiting order does not matter. |
| Menu.LastDot | src/main/java/com/example/paint/MenuController.java:75 | No index exactly when there is no dot. Otherwise the index holds a dot and no dot follows it. |
| Menu.FileExtension | src/main/java/com/example/paint/MenuController.java:74-80 | Without a dot, "png". Otherwise the lower-cased text after the last dot, which has no dot and no upper-case letter, and is empty when the name ends in a dot. |
| Menu.ExtensionOfJoinedName | src/main/java/com/example/paint/MenuController.java:74-80 | The extension of `base + "." + suffix` for a dot-free suffix is the lower-cased suffix. |
| Menu.LowerIsIdempotent | src/main/java/com/example/paint/MenuController.java:77 | Lower-casing twice equals lower-casing once, and leaves lower-case text alone. |
| Menu.SaveFormat | src/main/java/com/example/paint/MenuController.java:50 | The recorded format if there is one, else "png". |
| Menu.FileSave | src/main/java/com/example/paint/MenuController.java:36-60 | A cancelled dialog writes nothing. Otherwise the writer gets the save format. Only a successful write records it, and a failed write changes nothing. |
| Menu.NewFile | src/main/java/com/example/paint/MenuController.java:25-30 | New File forgets the recorded format, so the next save writes "png". |
| Menu.SaveIsIdempotent | src/main/java/com/example/paint/MenuController.java:47-56 | After a successful save, saving again writes the same format and changes nothing. |
| Menu.EverySaveWritesDefault | src/main/java/com/example/paint/MenuController.java:19-60 | From a fresh controller, after any menu actions, the recorded format is absent or "png", so every save writes "png". |
| Menu.SaveIgnoresChosenName | src/main/java/com/example/paint/MenuController.java:50-51 | Saving to "picture.jpeg" from a fresh controller writes "png", while the name's extension is "jpeg". |
| Menu.FileSaveAs | src/main/java/com/example/paint/MenuController.java:45-52 | The corrected save writes the chosen name's extension and records it on success. |
| Menu.SaveAsWritesChosenFormat | src/main/java/com/example/paint/MenuController.java:74-80 | The corrected save to `base.ext` writes the lower-cased `ext`, and to a dot-free name writes "png". |
| Menu.OverlayPlacement | src/main/java/com/example/paint/MenuController.java:96-103 | Each side of the overlay is the smaller of the canvas side and the picture side. The margins on both sides are equal and non-negative. |
| Menu.OverlayFitsAndIsCentred | src/main/java/com/example/paint/MenuController.java:100-109 | The overlay lies on the canvas and shares its centre. Along any axis where the picture fits, it keeps the picture's own size. |
| Menu.OverlayPlacementIsStable | src/main/java/com/example/paint/MenuController.java:100-103 | Placing a picture of the placed size again gives the same rectangle. |
| Resize.Selection | src/main/java/com/example/paint/ResizeController.java:61-64 | The selection's left and right edges are the start and end x in some order, and its top and bottom edges the start and end y. Its origin is the smaller corner, its size is non-negative and it contains both points. |
| Resize.EnlargeSource | src/main/java/com/example/paint/ResizeController.java:66-73 | The source is the selection shrunk by 1.5 about the same centre. It lies inside a selection of non-negative size. |
| Resize.Redraw | src/main/java/com/example/paint/ResizeController.java:59-78 | No snapshot means no drawing. With one, it draws the enlarged source onto the selection, or the whole snapshot when not enlarging. |
| Resize.Press | src/main/java/com/example/paint/ResizeController.java:22-30 | A press drops the snapshot. A primary press records the start, starts selecting and clears `shouldEnlarge`. A detached tool ignores it. |
| Resize.Release | src/main/java/com/example/paint/ResizeController.java:32-44 | A primary release records the end, stops selecting, sets `shouldEnlarge`, keeps the snapshot and draws the enlarged source. Every release detaches the tool. |
| Resize.Drag | src/main/java/com/example/paint/ResizeController.java:46-52 | A drag moves the end point and redraws only while selecting. |
| Resize.DragsAfterPressDrawNothing | src/main/java/com/example/paint/ResizeController.java:22-60 | After a press, any number of drags draws nothing. |
| Resize.DetachedToolIgnoresMouse | src/main/java/com/example/paint/ResizeController.java:41-43 | Once detached, presses, drags and releases change nothing and draw nothing until the tool is picked again. |
| Resize.ReleaseEndsTheTool | src/main/java/com/example/paint/ResizeController.java:32-44 | After any release, the tool is one-shot: later mouse events are ignored. |
| Resize.OnlyEnlargedRegionsAreDrawn | src/main/java/com/example/paint/ResizeController.java:66-76 | From the initial state, a held snapshot always comes with `shouldEnlarge`, so every drawing is the enlarged region. The whole-canvas branch is never taken. |

## Left out

- Rendering is not modelled. This covers `strokeRect`, `strokeOval`, `strokeLine`, `drawImage` pixel resampling, `clearRect`, line widths, antialiasing and the preview drawn on the overlay canvas while dragging. The model keeps the coordinates and pixel sets handed to these calls.
- Handler registration (`setOnMouse*`) is modelled by the handler functions. The zoom tool's `installed` flag stands for its three handlers. How other tools replace some of those handlers is not modelled.
- `Alert` dialogs, file choosers, `ImageIO` reads and writes, `SwingFXUtils` conversion and `System.exit` are not modelled. A save's outcome is a parameter, and so is the canvas snapshot.
- The pencil, eraser and clear tools, Controller.java (FXML wiring) and Paint.java (application launch) are not part of this model.
- Bilateral.PixelWeight: `Math.exp(-colour/2s^2 - space/2s^2)` is replaced by any weight function of the two squared distances that is positive and equals 1 at distance 0. The model holds for every such function, but it is not tied to the exponential or to sigma 70.
- Double rounding is not modelled. Hatch positions, radii, weights and sums are exact reals.
- Bilateral.Filter: the input image is assumed to store 8-bit opaque RGB exactly. `setRGB` on an indexed or grey image (a GIF or BMP opened from the menu) quantises the written colour to the image's palette or to grey, and `new Color(r, g, b)` makes filtered pixels opaque while border pixels keep their alpha. Neither the quantisation nor alpha is modelled, so for such images the second pass of the menu's filter reads values the model does not predict.
- Colours are integer RGB triples. `Color.equals` on float components and alpha are not modelled.
- Menu.FileExtension: `toLowerCase` is modelled for ASCII letters only, not Java's locale-dependent Unicode mapping.
- Patterns.InsideCircle: `Math.sqrt` is replaced by the squared comparison. SqrtComparison shows the two agree for the exact square root; the rounding of `Math.sqrt` is not modelled.
- The rectangle tool's three pattern branches are one set of handlers taking a `FillPattern`. The extra outline that the vertical branch strokes a second time is not modelled.

## Findings

| source | as written | input that shows it | evidently intended | confidence | as-written member | corrected member |
|---|---|---|---|---|---|---|
| src/main/java/com/example/paint/MenuController.java:50 | The save format is the recorded format or "png". The only format ever recorded is the one just used, so every save writes PNG, and `getFileExtension` is never called. | From a fresh controller, save to `picture.jpeg`: PNG data is written to a `.jpeg` file. | Take the format from the chosen file name's extension, which is what `getFileExtension` and the per-format dialog filters are for. | medium, not executed | Menu.SaveIgnoresChosenName | Menu.SaveAsWritesChosenFormat |
