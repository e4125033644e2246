# Verified models of linux-wallpaperengine

Dafny models of three stateful cores of the wallpaper engine, with proofs about them: the SVG scan converter it ships,
the state machines of its application loop, and its frame pacer. `dafny verify dfyconfig.toml` checks all of it.

Floats are `real`, fixed-point numbers and durations `int`. Code that updates fields, arrays or linked lists is written
the same way here, as classes and loops, and each method is tied to a function of its input or old state; the properties
are then lemmas about those functions, over all inputs or all runs.

**Scan converter** (nanosvg). `PathItems`, `PathBuilder` and `PathParser` read path data and basic shapes into the point
buffer; `PathReading` says what a text means, command by command and subpath by subpath, `BasicShapes` what curves the
shapes are. `Transform` and `Gradient` hold the matrix and stop parsing and the colour ramp. `Flatten` subdivides cubics,
`Flatness` says how near the result stays to the curve and `PathTrace` what it keeps of a whole path. `Prepare` and
`Stroke` expand a centre line into edges, `StrokeWidth` says where those run beside it, `Dash` cuts it into dashes, and
`Shape` puts fill and stroke together. `Edges` defines winding and closed outlines, `Sweep` the active list and its
fixed-point stepping, `ActiveList` the linked list and freelist in place, `Pool` the page pool its nodes lie in.
`Coverage`, `Blend`, `Bitmap` and `Unpremultiply` turn spans into bytes and bytes into pixels, `Rasterize` and `Render`
are the passes over a bitmap, `Image` the shapes of an image.

The sweep works with rounded starts and steps; `Interior` says what that means in the plane. A sample of a sub-scanline
is *clear* if it keeps, from every edge that crosses its height, half a 1024th of a pixel per sub-scanline since the edge
started. `Shape.PathDataFollowsFillRule` and `Shape.StrokeFollowsOutlines` run through all of the scan converter: for any
path data, at any scale and tolerance, a clear sample is painted exactly when the fill rule of section 11.3 of SVG 1.1
puts its point inside the flattened outline, or inside the outlines of the stroke's lines and dashes.
`Render.UncutPixel` carries it to pixels no edge passes through, `Precision.PixelNearArea` bounds the error for all pixels,
`Precision.PassMixesByArea` says what that makes of their colours, and `Image.Rasterizer.Rasterize` is the whole image.

**Application loop**. `Playlist` is the order, selection and failure handling of a playlist, `PauseLoop` the pause half
of the render loop with the playlists' timers, `Screens` the arguments that hand out screens, `LiveSettings` the settings
that are changed live and have to agree with what installing a wallpaper would compute, `Backgrounds` the paths that
loading, playlists and live requests leave in the settings.

**Frame pacer**. `FramePacer` is the one-second budget and its shares.

`Names`, `Options`, `Cyclic` and `Permutations` hold what several of these need.

## Where the code and what is said about it differ

The models follow the code. Each of these has a lemma with the exact condition, a concrete case, or both.

- README.md, line 56, says that an item that fails to load is skipped for that round only. An item that the preflight
  rejects in the last place of the order is skipped in every later round: `Playlist.SkippedForOneRoundIff`,
  `Playlist.StuckStays`, `Playlist.SkippedForeverExample`.
- A fullscreen pause is meant to delay a live request. A second request right after one that a battery or idle pause let
  through is taken during it: `PauseLoop.TakenInWindowPauseIff`, `PauseLoop.WindowPauseExample`.
- A playlist given after `--screen-span` is filed under a key that no group has, unless a root was given that key for a
  name: `Screens.SpanPlaylistMissesGroup`, `Screens.SpanPlaylistExample`.
- A screen called with a `#` can be a root and a slot at once, since `--screen-slot` does not look whether the name it
  makes up is taken: `Screens.OwnedTwiceIff`, `Screens.HashOwnedTwice`.
- `flattenCubicBez` drops the end point where no last piece of the curve is flat: `Flatten.EndPointHandedOnIff`,
  `Flatten.ArchLosesItsEnd`.
- The first dash is always drawn, also where the pattern has a gap at the offset. Section 11.4 of SVG 1.1 is met exactly
  when an even number of entries lies before the offset: `Dash.PhaseFollowsPatternIff`, `Dash.PhaseExample`.
- The functions of a `transform` take missing numbers from uninitialised memory, a `matrix(...)` with too few numbers
  repeats the function before it, and a function with too many is passed over: `Transform.ParseTransform`,
  `Transform.MatricesAreFixedIff`, `Transform.ShortMatrixExample`, `Transform.MissingAndSurplusExample`.
- The spread method of a gradient is never looked at, so one that repeats or reflects mostly goes wrong beyond its ends:
  `Gradient.PixelFollowsSpreadIff`, `Gradient.ReflectExample`.
- A flat piece of a cubic is near the line of its chord, but may run past the chord: `Flatness.OverChordIff`,
  `Flatness.OvershootExample`.
- A live request without a path loads the wallpapers again from the settings, which may name others than those that run:
  `Backgrounds.LoadedAgreeIff`, `Backgrounds.PlaylistKeepsAgreementIff`, `Backgrounds.RequestKeepsAgreementIff`,
  `Backgrounds.FailedScreenExample`, `Backgrounds.WindowPlaylistExample`.
- `unpremultiplyAlpha` lets a transparent pixel borrow from its neighbours, but one in the second column does not look
  left and one in the second row does not look up: `Unpremultiply.DefringedAverages`.
- `xformInverse` of a singular matrix overwrites its argument instead of its result: `Transform.XformInverse`. A
  `transform` with `scale(0)` in it gets there: `Transform.ZeroScaleIsSingular`, `Transform.ScaleIsRegularIff`.

## Model

| member | source | states |
|---|---|---|
| Edges.ClosedIsBalanced | src/External/nanosvg/nanosvgrast.h:290-320 | the edges along any closed polyline have directions that sum to zero at every height, horizontal segments being dropped |
| Edges.PolylineWinding | src/External/nanosvg/nanosvgrast.h:290-320 | the directions of a polyline's edges at a height add up to what its two ends alone decide |
| Edges.SegmentOnEdge | src/External/nanosvg/nanosvgrast.h:290-320 | every point of a segment lies on its edge, which is as tall as the segment and knows which way it ran |
| Edges.WindingPermutation | src/External/nanosvg/nanosvgrast.h:849-858 | sorting the edges changes the winding at no height |
| Edges.PlaceBalanced | src/External/nanosvg/nanosvgrast.h:1414-1421 | translating and scaling an outline for the sub-scanlines keeps it closed |
| Stroke.EdgeBuffer.AddEdge | src/External/nanosvg/nanosvgrast.h:290-320 | an edge goes from top to bottom with its direction noted, and none is added for a horizontal segment |
| Stroke.EdgeBuffer.AddCap | src/External/nanosvg/nanosvgrast.h:416-490 | a butt, square or round cap adds exactly the edges through the cap's points and hands on its two ends, connected to the previous ends or not |
| Stroke.EdgeBuffer.AddJoin | src/External/nanosvg/nanosvgrast.h:492-600 | a bevel, miter, round or straight join adds exactly the edges from the old to the new left and right ends |
| Stroke.EdgeBuffer.AddJoins | src/External/nanosvg/nanosvgrast.h:610-679 | the loop over the centre line adds exactly the edges of the two sides |
| Stroke.EdgeBuffer.ExpandStroke | src/External/nanosvg/nanosvgrast.h:610-679 | the edges added are, as a multiset, those of the closed outline of an open stroke or of the two rings of a closed one; balance and validity of the buffer are kept |
| Prepare.PrepareStroke | src/External/nanosvg/nanosvgrast.h:681-736 | the two loops leave at every point the direction of the segment behind it, the extrusion of its join and the flags of its turn, read off the points as they were before |
| StrokeWidth.ExtrusionMeetsIff | src/External/nanosvg/nanosvgrast.h:704-715 | the extrusion reaches the point where the offset lines of both segments meet if and only if half of one and the cosine of the turn is at least a six-hundredth; otherwise it stays short of both, equally far |
| StrokeWidth.CornerFlags | src/External/nanosvg/nanosvgrast.h:717-731 | a corner is cut off exactly where a miter would reach beyond the miter limit, or the joins are no miters; a turn counts as left exactly when the next segment heads for the forward side |
| StrokeWidth.CapIs | src/External/nanosvg/nanosvgrast.h:416-490 | a cap begins half the width beside the end of the line and ends as far on the other side, a square one half the width behind it; a round one keeps that distance from the end throughout |
| StrokeWidth.JoinFlanks | src/External/nanosvg/nanosvgrast.h:492-600 | whatever the join, the sides leave it half the width beside the segment behind it and reach it half the width beside the one before |
| StrokeWidth.RoundJoinOnCircle | src/External/nanosvg/nanosvgrast.h:548-588 | every point of a round join is half the width away from its corner |
| StrokeWidth.MiterPointOutside | src/External/nanosvg/nanosvgrast.h:514-546 | a mitered corner has its one point on the side the line turns away from |
| StrokeWidth.OpenStrokeWidth | src/External/nanosvg/nanosvgrast.h:610-679 | the outline of an open stroke runs half the width beside every segment of the line, once on either side |
| StrokeWidth.ClosedStrokeWidth | src/External/nanosvg/nanosvgrast.h:610-679 | so do the two rings of a closed stroke, one on either side, also along the segment that closes it |
| StrokeWidth.PreparedIsGoodLine | src/External/nanosvg/nanosvgrast.h:681-736 | prepareStroke makes the line those theorems ask for of any points a millionth apart, as long as no turn is sharper than the bound on the extrusion |
| Stroke.StrokeIsBalanced | src/External/nanosvg/nanosvgrast.h:402-679 | whatever the points, joins and caps, open or closed, a stroke leaves no net direction at any height |
| Stroke.OpenOutlineEdges | src/External/nanosvg/nanosvgrast.h:610-679 | start cap, sides, end cap and the connecting edges are together one closed polyline |
| Flatten.HalvesAreHalfIntervals | src/External/nanosvg/nanosvgrast.h:336-372 | each half of a subdivided cubic is the original curve over half of the parameter interval |
| Flatten.PieceOnCurve | src/External/nanosvg/nanosvgrast.h:336-372 | every point handed on below any node of the recursion is the curve at a grid parameter of that node's interval |
| Flatten.FlatteningFollowsCurve | src/External/nanosvg/nanosvgrast.h:336-372 | every point handed on for a cubic is the curve at a multiple of 1/1024, in strictly increasing order, so at most 1024 points |
| Flatten.EndPointHandedOnIff | src/External/nanosvg/nanosvgrast.h:340-372 | the end point is handed on if and only if the piece over the last 1/2^j of the curve is flat for some j up to 10; otherwise every point handed on lies at a parameter before the end |
| Flatten.ArchLosesItsEnd | src/External/nanosvg/nanosvgrast.h:336-372 | at the tolerance 0.25 the code uses, one large arch is handed on without the point it ends at |
| Flatness.FlatIff | src/External/nanosvg/nanosvgrast.h:345-353 | a piece counts as flat if and only if its two control points together lie less than the square root of the tolerance from the line of its chord |
| Flatness.FlatStaysNearLine | src/External/nanosvg/nanosvgrast.h:336-372 | every point of a flat piece lies within three quarters of the square root of the tolerance of the line of its chord |
| Flatness.OverChordIff | src/External/nanosvg/nanosvgrast.h:336-372 | from the control points one can tell exactly whether a piece stays over its chord at every parameter |
| Flatness.FlatStaysNearChord | src/External/nanosvg/nanosvgrast.h:336-372 | a flat piece that does so stays within that distance of the chord itself |
| Flatness.OvershootExample | src/External/nanosvg/nanosvgrast.h:336-372 | a flat piece handed on as the point (1, 0) alone passes (7.625, 0), which the chord is nowhere near |
| Flatness.ChainStaysNearCurve | src/External/nanosvg/nanosvgrast.h:336-372 | where the recursion ends with flat pieces only, the points handed on are a chain from start to end, and between two of them the whole curve stays near their line, and near their segment where it stays over it |
| Flatten.PathFlattener.AddPathPoint | src/External/nanosvg/nanosvgrast.h:242-265 | a point near the last one only merges its flag, so neighbours in the buffer are never nearer than the tolerance |
| Flatten.PathFlattener.FlattenCubicBez | src/External/nanosvg/nanosvgrast.h:336-372 | the recursive method appends exactly the points the specification hands on, in order |
| Flatten.PathFlattener.FlattenPoints | src/External/nanosvg/nanosvgrast.h:750-757 | the points of a path are its start and each cubic's points in turn, stepping by three within bounds; what that makes of the path's own points is `PathTrace.FlatteningTracesPath` |
| PathTrace.FlatteningTracesPath | src/External/nanosvg/nanosvgrast.h:371-393 | for a whole path, each point kept is the path's start or the Bernstein form over four consecutive points of the path, scaled, at n/1024 with 0 < n <= 1024, cubic and parameter increasing from point to point |
| PathTrace.FlatteningKeepsAll | src/External/nanosvg/nanosvgrast.h:242-265 | nothing handed on is lost: all points of all cubics, in order, fall into runs, and each run is kept as its first point, the others lying near it, with the corner of any of them |
| PathTrace.CornersAtEnds | src/External/nanosvg/nanosvgrast.h:336-372 | only the last point handed on for a cubic is a corner, and only in a stroke |
| Flatten.PathFlattener.FlattenPath | src/External/nanosvg/nanosvgrast.h:374-393 | the edges added for a path are those of the closed polygon through its flattened points |
| Shape.FlattenShape | src/External/nanosvg/nanosvgrast.h:374-393 | all paths of a fill give valid edges whose directions cancel at every height |
| Shape.FillTracesPath | src/External/nanosvg/nanosvgrast.h:374-393 | the edges a path adds are those of the ring through points that run along its own cubics, back to its start unless the last one lies near it, and closed |
| Shape.FillsJoin | src/External/nanosvg/nanosvgrast.h:374-393 | the fill of a list of paths is the fill of each of them, one behind the other |
| Shape.CentreLineHasPoints | src/External/nanosvg/nanosvgrast.h:758-771 | dropping a last point that is back at the start leaves at least two points to stroke |
| Shape.FlattenShapeStroke | src/External/nanosvg/nanosvgrast.h:738-847 | the edges are, as a multiset, the outlines of the centre lines of all paths, solid as an open outline or two rings, dashed one open outline for each drawn dash, and they are closed and valid |
| Shape.StrokeTracesPath | src/External/nanosvg/nanosvgrast.h:738-847 | the line a path is stroked along runs along its own cubics, without the last point if that is back near the start, closed if the path is or that point was dropped, and dashed back to its start then |
| Shape.OpenLineWidth | src/External/nanosvg/nanosvgrast.h:610-847 | an open line without hairpins, flattened with any tolerance above a millionth, gets an outline that runs half the width beside each of its segments, on either side |
| Shape.ClosedLineWidth | src/External/nanosvg/nanosvgrast.h:610-847 | a closed one gets two, one on either side of each segment |
| Shape.StrokesJoin | src/External/nanosvg/nanosvgrast.h:738-847 | the stroke of a list of paths is the stroke of each of them |
| Shape.PathDataFollowsFillRule | src/External/nanosvg/nanosvgrast.h:926-958 | for any path data, scale, tolerance and sort order, a sample that keeps clear of the edges is in a span exactly when its point has a non-zero, or odd, winding about the flattened outline |
| Shape.StrokeFollowsOutlines | src/External/nanosvg/nanosvgrast.h:738-958 | the same for a stroke, dashed or not: what is painted is what lies inside the outlines of its lines and dashes |
| Interior.SweepFollowsOutline | src/External/nanosvg/nanosvgrast.h:1124-1200 | over a closed outline, placed and sorted, the spans contain a sample exactly when the edges left of its point, in the plane, do not cancel or are odd in number, if it is half a unit per sub-scanline away from each edge |
| Interior.EntrySide | src/External/nanosvg/nanosvgrast.h:860-888 | the stepped, rounded position of an edge is on the same side of such a sample as the edge itself |
| Interior.LeftPermutation | src/External/nanosvg/nanosvgrast.h:849-858 | winding and crossing count about a point do not depend on the order of the edges |
| Interior.PlacedLeft | src/External/nanosvg/nanosvgrast.h:1414-1421 | scaling and translating outline and point together changes neither winding nor crossing count |
| Interior.UncutRow | src/External/nanosvg/nanosvgrast.h:896-958 | a pixel none of whose samples is near an edge is covered wholly or not at all on that sub-scanline |
| Dash.PatternLength | src/External/nanosvg/nanosvgrast.h:786-790 | the length the code computes, doubled for an odd count, is that of the repeated pattern, and positive |
| Dash.FmodRange | src/External/nanosvg/nanosvgrast.h:791-794 | the remainder of the offset is less than one pattern away from zero, whatever its sign |
| Dash.FindStart | src/External/nanosvg/nanosvgrast.h:785-800 | the first loop ends at the first entry that reaches up to the offset's place in the repeated pattern, with the rest into it |
| Dash.StartOf | src/External/nanosvg/nanosvgrast.h:791-800 | the start lies within the pattern, whole entries and the rest adding up to the offset's place in it, and an entry is only passed over when the offset lies beyond its end |
| Dash.CutProgress | src/External/nanosvg/nanosvgrast.h:802-834 | each cut lowers a measure that is never negative, so the second loop ends although zero entries are allowed |
| Dash.CutRunning | src/External/nanosvg/nanosvgrast.h:807-829 | cutting at the intermediate point completes a piece of exactly its entry's scaled length and keeps the rest of the length accounted for |
| Dash.AdvanceRunning | src/External/nanosvg/nanosvgrast.h:830-835 | running on to the next vertex keeps pieces, vertices and lengths accounted for |
| Dash.CutUp | src/External/nanosvg/nanosvgrast.h:802-841 | the second loop as a whole: the buffers handed on are those of the drawn pieces, in order, and none has fewer than two points |
| Dash.DashPieces | src/External/nanosvg/nanosvgrast.h:802-841 | the pieces partition the polyline vertex by vertex and in length, each starting where the one before was cut; they are drawn and skipped in turn in pattern order, each but the last complete: it has its entry's scaled length, the first what is left of its entry |
| Dash.DashPolyline | src/External/nanosvg/nanosvgrast.h:770-841 | for any non-negative entries with positive sum, any offset and polyline: both loops end, and the buffers handed on are those of the drawn pieces for the start that entries and offset alone fix |
| Shape.DashesCoverLine | src/External/nanosvg/nanosvgrast.h:766-841 | a closed line is dashed all the way round: its pieces are as long as the line and the side that closes it |
| Dash.EuclideanIsLinear | src/External/nanosvg/nanosvgrast.h:785-800 | the Euclidean distance is a metric as the dashes need it: cutting a segment at a fraction divides its length in proportion |
| Dash.BetweenIsPartWay | src/External/nanosvg/nanosvgrast.h:800-812 | the point of a cut is the point of the segment a fraction of the way along |
| Dash.PhaseFollowsPatternIff | src/External/nanosvg/nanosvgrast.h:770-800 | at any place of the polyline a piece is drawn as the pattern, repeated in both directions, says at the offset plus the length run, if and only if an even number of entries lies before the start |
| Dash.PhaseExample | src/External/nanosvg/nanosvgrast.h:770-800 | entries 5 5 with offset 6 begin in a gap, and the first piece of any polyline is drawn |
| Dash.OnAtIff | src/External/nanosvg/nanosvgrast.h:785-800 | every place of the pattern lies in one entry of one repetition, so being drawn there is a matter of that entry's parity |
| Dash.LengthBefore | src/External/nanosvg/nanosvgrast.h:802-841 | the pieces before the k-th are as long as the pattern from the start to its entry |
| Sweep.ActiveListIsCrossingEdges | src/External/nanosvg/nanosvgrast.h:1136-1187 | on every sub-scanline the list is, sorted by x, exactly the edges with y0 <= scan line < y1 at their stepped positions |
| Sweep.SubScanIsRight | src/External/nanosvg/nanosvgrast.h:1136-1187 | removal, stepping, re-sorting and insertion take the right list of one sub-scanline to that of the next |
| Sweep.BubblingLowersInversions | src/External/nanosvg/nanosvgrast.h:1156-1173 | a pass that exchanges anything removes inversions, so the re-sorting loop ends |
| Sweep.UnchangedMeansSorted | src/External/nanosvg/nanosvgrast.h:1156-1173 | a pass without an exchange means the list is in order |
| Sweep.Resorted | src/External/nanosvg/nanosvgrast.h:1156-1173 | the re-sorting loop ends with a sorted permutation of the list |
| Sweep.InsertedSorted | src/External/nanosvg/nanosvgrast.h:1173-1196 | inserting an edge keeps the list sorted and adds exactly that edge |
| Sweep.CrossingStepped | src/External/nanosvg/nanosvgrast.h:1139-1155 | dropping ended edges and stepping the others takes the crossing edges of one sub-scanline to those of the next |
| Sweep.ClosedOutlineCancels | src/External/nanosvg/nanosvgrast.h:926-958 | for a closed outline the directions in the active list sum to zero on every sub-scanline, so no span is left open |
| Sweep.SteppingDrift | src/External/nanosvg/nanosvgrast.h:860-888 | in exact arithmetic an edge stepped k times is within (k + 1) / 2 units of 1024 times its true crossing |
| Sweep.RoundTies | src/External/nanosvg/nanosvgrast.h:334 | rounding is the same for both signs, and of two nearest integers it takes the one away from zero |
| Sweep.SortedOrderExists | src/External/nanosvg/nanosvgrast.h:849-858 | every list of edges has an order by their tops, as is asked of qsort |
| ActiveList.EdgeList.Unlink | src/External/nanosvg/nanosvgrast.h:1141-1153 | unlinking through the previous link removes exactly that node and puts it on the freelist |
| ActiveList.EdgeList.StepAndRemove | src/External/nanosvg/nanosvgrast.h:1139-1155 | the first loop leaves exactly the stepped list, and no node is both active and free |
| ActiveList.EdgeList.SwapWithNext | src/External/nanosvg/nanosvgrast.h:1160-1168 | exchanging neighbours re-links exactly two nodes |
| ActiveList.EdgeList.BubblePass | src/External/nanosvg/nanosvgrast.h:1156-1173 | one pass is one pass of the specification and reports whether it changed anything |
| ActiveList.EdgeList.Resort | src/External/nanosvg/nanosvgrast.h:1156-1173 | the loop over passes ends with the re-sorted list |
| ActiveList.EdgeList.AddActive | src/External/nanosvg/nanosvgrast.h:860-888 | a node from the freelist, or a block from the pool that overlaps no other node, is filled for the edge and is on no list yet |
| ActiveList.EdgeList.Insert | src/External/nanosvg/nanosvgrast.h:1173-1196 | the linked list becomes the list with the edge inserted in order of x, and no two nodes share memory of the pool |
| ActiveList.SwapLowersInversions | src/External/nanosvg/nanosvgrast.h:1156-1173 | one exchange of neighbours out of order removes exactly one inversion |
| Pool.MemPool.NextPage | src/External/nanosvg/nanosvgrast.h:190-211 | the next page is unused and every page stays in the chain |
| Pool.MemPool.Alloc | src/External/nanosvg/nanosvgrast.h:223-233 | a block never overlaps one handed out since the last reset; only a size above a page is refused |
| Pool.MemPool.ResetPool | src/External/nanosvg/nanosvgrast.h:213-221 | a reset frees every page and keeps the chain |
| Coverage.FillScanline | src/External/nanosvg/nanosvgrast.h:896-924 | a span adds exactly the weight times its overlap, in 1024ths and rounded down, to each pixel in range, touches nothing else, and widens the range to contain every touched pixel |
| Coverage.SpansOrdered | src/External/nanosvg/nanosvgrast.h:926-958 | the spans of a sorted list follow one another without overlap, under either rule |
| Coverage.SpansFitOnePixel | src/External/nanosvg/nanosvgrast.h:896-958 | ordered spans together add at most one full pixel's weight to any pixel |
| Coverage.ActiveSpansFit | src/External/nanosvg/nanosvgrast.h:926-958 | a sub-scanline adds at most 51 to any pixel |
| Coverage.SpansAreFillRule | src/External/nanosvg/nanosvgrast.h:926-958 | where the directions cancel, a point is in a span exactly when its prefix winding is non-zero, or odd |
| Coverage.FillActiveEdges | src/External/nanosvg/nanosvgrast.h:926-958 | walking the list adds to every pixel exactly what the spans of the rule cover and keeps the touched range right |
| Rasterize.CoverageUpTo | src/External/nanosvg/nanosvgrast.h:1134-1207 | after n of the five sub-scanlines no coverage exceeds 51 n, so it always fits a byte |
| Rasterize.SubScanline | src/External/nanosvg/nanosvgrast.h:1139-1196 | the list work of a sub-scanline takes the swept state to the next one |
| Rasterize.CoverRow | src/External/nanosvg/nanosvgrast.h:1129-1201 | after five sub-scanlines the scanline holds the row's coverage, and every pixel with coverage lies in [xmin, xmax] |
| Rasterize.BlitRow | src/External/nanosvg/nanosvgrast.h:1202-1208 | blending only [xmin, xmax] gives every pixel of the row its blended colour, since the rest has no coverage |
| Rasterize.RasterizeSortedEdges | src/External/nanosvg/nanosvgrast.h:1124-1210 | the whole pass: every pixel becomes its colour blended by its coverage, no byte outside the image changes, and the nodes of the list never overlap in the pool |
| Blend.Div255IsFloor | src/External/nanosvg/nanosvgrast.h:991-994 | the shift formula is division by 255 rounded down, for 0 to 65025 |
| Blend.BlendKeepsPremultiplied | src/External/nanosvg/nanosvgrast.h:996-1055 | blending any paint at any coverage keeps r, g and b at most a |
| Blend.NoCoverageNoChange | src/External/nanosvg/nanosvgrast.h:996-1055 | without coverage a pixel stays as it is |
| Blend.FullCoverageReplaces | src/External/nanosvg/nanosvgrast.h:996-1055 | an opaque colour at full coverage replaces the pixel |
| Blend.AlphaNeverFalls | src/External/nanosvg/nanosvgrast.h:996-1055 | blending never lowers a pixel's alpha |
| Blend.ScanlineSolid | src/External/nanosvg/nanosvgrast.h:996-1122 | every pixel of the run is blended with the paint's colour at its place, and nothing else is written; `Blend.BlendIsMix` says what blending is |
| Blend.BlendIsMix | src/External/nanosvg/nanosvgrast.h:996-1055 | for every pixel, coverage and colour each channel becomes the mixture of old pixel and paint by coverage times alpha, less than three below it and less than one above |
| Unpremultiply.DivideByAlpha | src/External/nanosvg/nanosvgrast.h:1216-1228 | the first pass gives every pixel its straight colour, each channel within a byte; `Unpremultiply.StraightTakesAlphaOut` says which that is |
| Unpremultiply.StraightTakesAlphaOut | src/External/nanosvg/nanosvgrast.h:1216-1228 | each channel of a visible pixel times its alpha is the premultiplied channel times 255, rounded down to a multiple of the alpha |
| Unpremultiply.PremultipliedBack | src/External/nanosvg/nanosvgrast.h:1216-1228 | multiplying the alpha back in gives the premultiplied channel again, or one less |
| Unpremultiply.Defringe | src/External/nanosvg/nanosvgrast.h:1230-1269 | although it works in place, every pixel becomes what the image before the pass prescribes |
| Unpremultiply.UnpremultiplyAlpha | src/External/nanosvg/nanosvgrast.h:1212-1269 | no alpha changes, no pixel with alpha above zero is touched by the second pass, and no byte outside the image changes |
| Unpremultiply.DefringedKeepsVisible | src/External/nanosvg/nanosvgrast.h:1230-1269 | the borrowing pass keeps every alpha and every visible pixel |
| Unpremultiply.DefringedAverages | src/External/nanosvg/nanosvgrast.h:1230-1269 | a transparent pixel takes the average of its visible neighbours, the second column not looking left and the second row not looking up, and keeps its colour without any |
| Bitmap.PixelsApart | src/External/nanosvg/nanosvgrast.h:1212-1269 | two pixels of an image with a stride never share a byte |
| Bitmap.PixelBytes | src/External/nanosvg/nanosvgrast.h:1212-1269 | a pixel is the four bytes at its place in its row: red, green, blue, alpha |
| Render.ClosedPassFollowsFillRule | src/External/nanosvg/nanosvgrast.h:1375-1451 | for every closed outline, placement and qsort order a clear sample is in a span exactly when its point of the image is inside the outline by the fill rule |
| Render.UncutPixel | src/External/nanosvg/nanosvgrast.h:1124-1201 | a pixel that keeps clear of the edges is covered by 51 for each of its five sub-scanlines that lies inside the outline, so wholly inside by 255 and outside by nothing |
| Render.InsideIsFull | src/External/nanosvg/nanosvgrast.h:1124-1201 | so a pixel no edge passes through has coverage 255 if it is inside, and none if it is outside |
| Precision.OverlapNearArea | src/External/nanosvg/nanosvgrast.h:860-958 | on any sub-scanline and pixel, cut or not, the overlap of the spans differs from the number of samples inside the outline by at most the ages, in sub-scanlines, of the crossing edges |
| Precision.CoverNearArea | src/External/nanosvg/nanosvgrast.h:896-958 | so does the coverage, times the weight, and downwards less than one more unit for each span that touches the pixel |
| Precision.PixelNearArea | src/External/nanosvg/nanosvgrast.h:1124-1201 | the coverage of any pixel is 51 for each 1024 of its 5120 samples inside the outline, within those bounds |
| Precision.PassMixesByArea | src/External/nanosvg/nanosvgrast.h:996-1201 | one pass mixes its paint into any pixel by the area of the pixel inside the outline times the paint's alpha, up to those bounds and three units |
| Precision.NearEdgeCount | src/External/nanosvg/nanosvgrast.h:860-888 | an edge makes at most as many samples of a pixel doubtful as sub-scanlines have passed since it started |
| Render.PaintedBy | src/External/nanosvg/nanosvgrast.h:1375-1451 | after any number of passes over a cleared bitmap every pixel is premultiplied |
| Render.ClearImage | src/External/nanosvg/nanosvgrast.h:1397-1398 | every pixel is transparent and no byte between the rows changes |
| Image.Rasterizer.Rasterize | src/External/nanosvg/nanosvgrast.h:1375-1470 | the bitmap shows the layers of all visible shapes, each blended once over those below it, as straight colours: each channel times the alpha is the painted channel times 255, rounded down; transparent pixels may borrow a colour and stay transparent, and no byte outside the image changes |
| Image.Rasterizer.PaintLayer | src/External/nanosvg/nanosvgrast.h:1404-1456 | a turn of the loop over the paint order paints the fill, or the stroke if its scaled width exceeds 0.01, or nothing |
| Image.Rasterizer.PaintEdges | src/External/nanosvg/nanosvgrast.h:1414-1430 | placing, sorting, the paint and the sweep add exactly one pass for the outline to what the bitmap shows |
| Image.PaintOrderRoundTrip | src/External/nanosvg/nanosvg.h:635-637 | the three fields of a paint order decode to what was encoded |
| Image.EachLayerOnce | src/External/nanosvg/nanosvg.h:1769-1785 | for any paint-order text a shape is filled once if it has a fill and stroked once if it has a stroke |
| Image.LayersInTextOrder | src/External/nanosvg/nanosvgrast.h:1389-1456 | a shape has a fill layer with its own paths, rule, paint and opacity, and a stroke layer where the scaled line is wider than a hundredth, in the order the paint-order text says |
| Image.ShapesInOrder | src/External/nanosvg/nanosvgrast.h:1389-1456 | shapes are painted in the order of the image, and an invisible one not at all |
| Image.LayersFollowOutlines | src/External/nanosvg/nanosvgrast.h:1407-1456 | what a layer's pass paints is what lies inside the fill's, or the stroke's, outline by the fill rule |
| Gradient.GradientData.AddStop | src/External/nanosvg/nanosvg.h:2809-2833 | the stop is shifted into place behind the stops with the same offset |
| Gradient.StopsAreStablySorted | src/External/nanosvg/nanosvg.h:2794-2834 | stops inserted one at a time end up sorted by offset, equal offsets in the order given |
| Gradient.CachedPaint.InitPaint | src/External/nanosvg/nanosvgrast.h:1272-1331 | what is painted with is the opacity-applied colour, or for sorted stops the ramp in all 256 entries with the gradient's transform, whatever was cached before |
| Gradient.GradientPixel | src/External/nanosvg/nanosvgrast.h:1057-1122 | a pixel has the colour of the ramp at the gradient's coordinate of the pixel; beyond either end the first or last colour goes on |
| Gradient.PixelInGradientSpace | src/External/nanosvg/nanosvgrast.h:1057-1122 | a pixel is coloured at the point of the image placed on it, which the gradient's transform takes to gradient space: linear gradients run along the second axis there, radial ones away from the origin |
| Gradient.SpreadMeans | src/External/nanosvg/nanosvgrast.h:1057-1122 | what the spread methods ask for: all leave the ramp alone, padding keeps its ends, repeating has period one, reflecting is even with period two |
| Gradient.RampIndexFollowsSpreadIff | src/External/nanosvg/nanosvgrast.h:1057-1122 | the entry looked up is the one section 13.2 of SVG 1.1 asks for exactly when the method is pad, or the coordinate is from 0 to below 1, or it is negative and folds onto the first entry, or a reflection folds it onto the end |
| Gradient.PixelFollowsSpreadIff | src/External/nanosvg/nanosvgrast.h:1057-1122 | under the same condition, and no other, a gradient's pixel has the colour its spread method asks for whatever its stops and opacity |
| Gradient.ReflectExample | src/External/nanosvg/nanosvgrast.h:1057-1122 | a reflected fade from black to white stays white at coordinate 1.5, where it should be mid grey |
| Gradient.CachedPaint.FillSegment | src/External/nanosvg/nanosvgrast.h:1310-1330 | the entries from one stop up to the next are filled in range, with the mixed colours |
| Gradient.RampBetweenNeighbours | src/External/nanosvg/nanosvgrast.h:971-979 | between two stops every channel lies between theirs |
| Gradient.RampIsMixture | src/External/nanosvg/nanosvgrast.h:1305-1325 | an entry between two stops is, in every channel and with the opacity applied, the colour that many steps of the way from one to the other, less than two below and less than one above |
| Gradient.RampEnds | src/External/nanosvg/nanosvgrast.h:1285-1330 | before its first stop and behind its last one the ramp has their colours, and without stops it is transparent |
| Gradient.StopHasItsColor | src/External/nanosvg/nanosvgrast.h:1057-1122 | a coordinate equal to a stop's offset takes exactly that stop's colour, unless a later stop shares the entry |
| Gradient.OpacityBounds | src/External/nanosvg/nanosvgrast.h:981-989 | full opacity changes nothing, none leaves no alpha, and no opacity raises it |
| Gradient.OpacityScales | src/External/nanosvg/nanosvgrast.h:981-989 | opacity scales the alpha, losing less than two, and leaves the colour |
| Transform.XformMultiply | src/External/nanosvg/nanosvg.h:521-532 | overwriting t entry by entry leaves the product of the old t and s |
| Transform.ComposeApplies | src/External/nanosvg/nanosvg.h:521-562 | the product maps a point by t first and then by s |
| Transform.ComposeAssociative | src/External/nanosvg/nanosvg.h:521-532 | multiplication is associative |
| Transform.XformPremultiply | src/External/nanosvg/nanosvg.h:550-556 | t becomes s followed by the old t |
| Transform.ParseRotate | src/External/nanosvg/nanosvg.h:1659-1686 | the matrix is the rotation, or translation, rotation and translation back, for any number of arguments, those not given being whatever memory held |
| Transform.RotateFixesCentre | src/External/nanosvg/nanosvg.h:1659-1686 | a rotation with three arguments leaves its centre in place |
| Transform.MatrixApplies | src/External/nanosvg/nanosvg.h:1602-1686 | the matrix of each function moves a point as section 7.6 of SVG 1.1 defines it |
| Transform.ParseItem | src/External/nanosvg/nanosvg.h:1602-1657 | each function sets t to its matrix, missing numbers being whatever memory held; a matrix with fewer than six leaves t as it was; one with too many numbers is reported as passed over |
| Transform.ParseTransformArgs | src/External/nanosvg/nanosvg.h:1573-1599 | the first numbers are stored as far as there is room, the rest of the array keeps what it held, and a surplus is reported |
| Transform.ParseTransform | src/External/nanosvg/nanosvg.h:1688-1720 | for any list the folded matrix is the product of the matrices of the functions that are not passed over, a matrix with too few numbers repeating what t held, and takes a point through them, the last one first |
| Transform.WellFormedChain | src/External/nanosvg/nanosvg.h:1688-1720 | for a well-formed list that is T1(T2(... Tn(p))) of section 7.6 of SVG 1.1, whatever uninitialised memory held |
| Transform.ShortMatrixExample | src/External/nanosvg/nanosvg.h:1602-1610 | a matrix with too few numbers applies the translation before it a second time |
| Transform.MissingAndSurplusExample | src/External/nanosvg/nanosvg.h:1612-1636 | translate() moves by whatever memory held, and scale() with three numbers does nothing |
| Transform.LeftIsFixedIff | src/External/nanosvg/nanosvg.h:1602-1686 | a function's matrix does not depend on what memory held if and only if none of its numbers is missing |
| Transform.MatricesAreFixedIff | src/External/nanosvg/nanosvg.h:1688-1720 | the matrices a list multiplies up do not depend on uninitialised memory if and only if no function misses a number and the first is no matrix with too few |
| Transform.XformInverse | src/External/nanosvg/nanosvg.h:534-548 | a regular t is inverted into inv; a singular one is itself overwritten with the identity and inv is left unset |
| Transform.InverseUndoes | src/External/nanosvg/nanosvg.h:534-548 | for every transform with the absolute determinant >= 1e-6 the inverse undoes it on both sides |
| Transform.DetComposes | src/External/nanosvg/nanosvg.h:521-548 | the determinant of a product is the product of the determinants |
| Transform.ScaleIsRegularIff | src/External/nanosvg/nanosvg.h:534-548 | a scale can be inverted exactly when the product of its factors is at least a millionth in size |
| Transform.ZeroScaleIsSingular | src/External/nanosvg/nanosvg.h:1688-1720 | an attribute with scale(0) anywhere in it cannot be inverted, whatever else it says |
| PathItems.ParseNumber | src/External/nanosvg/nanosvg.h:1183-1224 | sign, digits, fraction and exponent are consumed, a unit's "em" or "ex" is not, and the item holds the first 63 characters |
| PathItems.GetItem | src/External/nanosvg/nanosvg.h:1226-1255 | the next item is a number or one character, or a lone 0 or 1 where a flag of an arc is due |
| PathItems.ItemTakesCharacters | src/External/nanosvg/nanosvg.h:1239-1255 | an item takes up at least one character, and there is none exactly when only blanks are left |
| PathReading.NumeralIsRead | src/External/nanosvg/nanosvg.h:1183-1255 | a number, with or without sign, fraction and exponent, is read whole, blanks before it and anything separate behind it, and its first 63 characters are kept |
| PathReading.FlagIsRead | src/External/nanosvg/nanosvg.h:1226-1237 | where a flag of an arc is due a 0 or a 1 is read alone, whatever is written behind it |
| PathReading.ReadInTurn | src/External/nanosvg/nanosvg.h:2374-2479 | reading two texts in one go is reading one after the other, unless the second runs on into the last number of the first |
| PathParser.Parser.AddPoint | src/External/nanosvg/nanosvg.h:732-742 | a point is appended and the points before survive the doubling of the buffer |
| PathParser.Parser.LineTo | src/External/nanosvg/nanosvg.h:754-766 | a line adds its two third points and its end, or nothing to an empty buffer |
| PathParser.Parser.AddPath | src/External/nanosvg/nanosvg.h:1063-1121 | the buffer, closed if asked for, becomes a transformed path when it has four points; the rejection of other counts never happens |
| PathParser.Parser.Draw | src/External/nanosvg/nanosvg.h:2384-2440 | each drawing command draws, and leaves the current and control points, as the specification of the command says |
| PathParser.Parser.PathArcTo | src/External/nanosvg/nanosvg.h:2219-2338 | an arc adds whole segments only, or a line when it degenerates |
| PathParser.Parser.ParsePath | src/External/nanosvg/nanosvg.h:2340-2486 | path data adds exactly the paths of its commands, and every added path is well shaped; what those are is `PathReading` |
| PathReading.SubpathsCompose | src/External/nanosvg/nanosvg.h:2443-2451 | the paths of two texts, the second one beginning with an absolute moveto, are those of the first and then those of the second, however the first one ends |
| PathReading.MovetoStarts | src/External/nanosvg/nanosvg.h:2384-2395 | a moveto adds the open subpath and starts the next one at its point, counted from the pen if it is relative, with lines to follow |
| PathReading.ClosepathCloses | src/External/nanosvg/nanosvg.h:2456-2471 | a closepath adds the open subpath as a closed path |
| PathReading.ClosepathMovesToStart | src/External/nanosvg/nanosvg.h:2456-2471 | a command behind a closepath draws as behind a moveto to where the closed subpath began |
| PathReading.ClosepathIgnoresNumbers | src/External/nanosvg/nanosvg.h:2433-2440 | numbers behind a closepath are passed over |
| PathReading.LetterSets | src/External/nanosvg/nanosvg.h:2443-2478 | a command letter makes the numbers behind it that command's, once there has been a moveto |
| PathReading.CommandDraws | src/External/nanosvg/nanosvg.h:2374-2441 | a command draws with as many numbers as it takes, the fourth and fifth of an arc being flags, and is ready to draw again |
| PathReading.NothingWithoutMoveto | src/External/nanosvg/nanosvg.h:2452-2455 | path data without a moveto adds nothing |
| PathReading.LinesDrawn | src/External/nanosvg/nanosvg.h:2047-2075 | L, H and V draw the straight line to their point |
| PathReading.CubicsDrawn | src/External/nanosvg/nanosvg.h:2077-2134 | C draws the cubic of its control points, and S the one whose first control point mirrors the last one |
| PathReading.QuadraticsDrawn | src/External/nanosvg/nanosvg.h:2136-2201 | Q draws the quadratic of its control point, and T the one whose control point mirrors the last one, as cubics that are the same curves |
| PathReading.ArcsDrawn | src/External/nanosvg/nanosvg.h:2219-2338 | A draws the pieces of its arc one behind the other, or a line where its ends are less than a millionth apart or a radius is less than a millionth |
| PathReading.SubpathAdded | src/External/nanosvg/nanosvg.h:1063-1121 | a subpath of a segment or more is added before all other paths, transformed, and with a straight line back to its first point if it is closed; a shorter one is not added |
| PathBuilder.PathsAreGood | src/External/nanosvg/nanosvg.h:1063-1121 | whatever the path data, each added path has at least four points, one more than a multiple of three, and a closed one ends where it began |
| PathBuilder.CommittedIsGood | src/External/nanosvg/nanosvg.h:1063-1121 | closing a path keeps the point count and returns to the start |
| PathBuilder.DrawnShape | src/External/nanosvg/nanosvg.h:2384-2440 | every command keeps the buffer empty or at one point and whole segments |
| PathBuilder.RelativeIsAbsolute | src/External/nanosvg/nanosvg.h:2035-2338 | a relative command draws what the absolute one draws with the current point added to its coordinates |
| PathBuilder.LineIsStraight | src/External/nanosvg/nanosvg.h:754-766 | the cubic of a line is the straight segment at every parameter |
| PathBuilder.QuadraticIsSame | src/External/nanosvg/nanosvg.h:2136-2201 | the cubic of a quadratic is the same curve at every parameter |
| PathParser.Parser.ParseRect | src/External/nanosvg/nanosvg.h:2488-2541 | a rectangle adds one closed, well-shaped path, and none when it has no width or height |
| PathParser.RectInside | src/External/nanosvg/nanosvg.h:2508-2536 | the path of a rectangle, rounded corners and control points included, stays between its corners, for negative sizes too |
| BasicShapes.RoundedRectIs | src/External/nanosvg/nanosvg.h:2516-2538 | the path of a rounded rectangle has a quarter of an ellipse at each corner and straight lines between them, clockwise from the top |
| BasicShapes.PlainRectIs | src/External/nanosvg/nanosvg.h:2519-2523 | the path of a plain one runs straight from corner to corner |
| BasicShapes.RadiiAre | src/External/nanosvg/nanosvg.h:2509-2514 | a radius that is not given is the other one, and those given are kept up to half the side |
| PathParser.Parser.ParseEllipse | src/External/nanosvg/nanosvg.h:2543-2604 | a circle or ellipse adds one closed, well-shaped path |
| PathParser.EllipseInside | src/External/nanosvg/nanosvg.h:2589-2600 | the path of an ellipse stays inside its bounding box |
| BasicShapes.EllipseIsQuarters | src/External/nanosvg/nanosvg.h:2573-2604 | the path of an ellipse is its four quarters and ends where it begins |
| BasicShapes.QuarterCurve | src/External/nanosvg/nanosvg.h:203 | at every parameter a quarter is the image of a point whose squared distance from the centre of the unit circle is between 0.9999 and 1.0006 |
| PathParser.Parser.ParseLine | src/External/nanosvg/nanosvg.h:2606-2631 | a line adds one open path of one straight segment |
| PathParser.Parser.ParsePoly | src/External/nanosvg/nanosvg.h:2633-2667 | a point list is read two numbers at a time into one well-shaped path |
| BasicShapes.PolyIsThrough | src/External/nanosvg/nanosvg.h:2633-2660 | a point list draws the polyline through its points, a number left over at its end being dropped |
| BasicShapes.ThroughIs | src/External/nanosvg/nanosvg.h:2633-2660 | that polyline runs straight from each point to the next |
| FramePacer.Pacer.BeginSleep | src/WallpaperEngine/Application/FramePacer.h:25-60 | the fields become those of the specification and the sleep asked for is never negative |
| FramePacer.Pacer.EndSleep | src/WallpaperEngine/Application/FramePacer.h:62-66 | the budget and the statistics take in the real sleep |
| FramePacer.Pacer.TakeStats | src/WallpaperEngine/Application/FramePacer.h:68-68 | the statistics so far are handed over and start again from nothing |
| FramePacer.FixedFrame | src/WallpaperEngine/Application/FramePacer.h:28-42 | with the fixed limiter a frame lasts as long as its work or its share of a second, whichever is longer, and the budget is left alone |
| FramePacer.BudgetedFrame | src/WallpaperEngine/Application/FramePacer.h:44-60 | with a budget it lasts as long as its work or an equal share of what is left of the second, which begins anew when it or its frames are used up |
| FramePacer.RunIsSafe | src/WallpaperEngine/Application/FramePacer.h:25-60 | over any run, with rate and mode changing at will, the divisor is at least one and the divided budget not negative |
| FramePacer.StatsAddUp | src/WallpaperEngine/Application/FramePacer.h:31-66 | the statistics count the frames, sum their work and sleep, and hold the longest work of any of them |
| FramePacer.SleepsAddUp | src/WallpaperEngine/Application/FramePacer.h:25-75 | so are the sleep asked for, the number of late frames and the longest overshoot |
| FramePacer.WindowBudget | src/WallpaperEngine/Application/FramePacer.h:41-66 | inside a window the budget is one second minus all sleeps and all work but the first frame's |
| FramePacer.WindowLength | src/WallpaperEngine/Application/FramePacer.h:41-66 | a full window whose last sleep is exact lasts one second plus the first work minus what the last frame was still allowed |
| FramePacer.WindowLengthIff | src/WallpaperEngine/Application/FramePacer.h:41-66 | it lasts one second plus first work minus last work if and only if the last frame's work still fits into the budget |
| FramePacer.NextShare | src/WallpaperEngine/Application/FramePacer.h:50-50 | dividing what is left among the frames left gives the next of the equal shares, despite truncation |
| FramePacer.EvenShares | src/WallpaperEngine/Application/FramePacer.h:41-66 | with constant work and exact sleeps the frames of a window last exactly one second and differ by at most a nanosecond |
| FramePacer.WindowsAddUp | src/WallpaperEngine/Application/FramePacer.h:41-66 | any number of such windows lasts that many seconds exactly |
| Playlist.ActivePlaylist.constructor | src/WallpaperEngine/Application/WallpaperApplication.cpp:429-486 | the order is a permutation with the intro first, and the position is the first item whose path is on screen |
| Playlist.ActivePlaylist.SelectNextCandidate | src/WallpaperEngine/Application/WallpaperApplication.cpp:539-563 | the loop finds the position that the specification selects |
| Playlist.SelectIsFirst | src/WallpaperEngine/Application/WallpaperApplication.cpp:539-563 | selection returns the first eligible position in cyclic order, and none exactly when no position is eligible |
| Playlist.ActivePlaylist.MoveOn | src/WallpaperEngine/Application/WallpaperApplication.cpp:572-588 | the position moves on, a new round forgetting failures and reshuffling |
| Playlist.ActivePlaylist.Advance | src/WallpaperEngine/Application/WallpaperApplication.cpp:565-666 | the whole new state and the item chosen, for any preflight and load result |
| Playlist.StepIsSafe | src/WallpaperEngine/Application/WallpaperApplication.cpp:565-666 | an advance keeps the permutation, pins the intro, and never chooses an item that failed in the same round |
| Playlist.StepOrder | src/WallpaperEngine/Application/WallpaperApplication.cpp:565-600 | a random order is reshuffled exactly when a round begins, a sequential one never |
| Playlist.SequentialKeepsOrder | src/WallpaperEngine/Application/WallpaperApplication.cpp:565-666 | over any run a sequential playlist keeps its order |
| Playlist.AdvanceChooses | src/WallpaperEngine/Application/WallpaperApplication.cpp:565-666 | an advance ends on the first eligible item behind the present one, going round, or on the next one behind that if the preflight rejects it; rejected and unloadable items fail, a new round and an empty choice forget all failures |
| Playlist.RunIsSafe | src/WallpaperEngine/Application/WallpaperApplication.cpp:565-666 | over any run the order stays a permutation with the intro first, the position stays in range and the intro is never selected again |
| Playlist.NothingIff | src/WallpaperEngine/Application/WallpaperApplication.cpp:592-616 | an advance gives up exactly when no position is eligible but the one the preflight just rejected |
| Playlist.RoundIsComplete | src/WallpaperEngine/Application/WallpaperApplication.cpp:572-590 | between two wrap-arounds without failures every item, or every item but the intro, is selected exactly once, for any reshuffle |
| Playlist.RejectedLastIsStuck | src/WallpaperEngine/Application/WallpaperApplication.cpp:577-616 | rejecting the last item in the preflight passes over the reset of the failed items |
| Playlist.StuckStays | src/WallpaperEngine/Application/WallpaperApplication.cpp:572-616 | from then on the failed items are skipped in every round, as long as anything can be shown |
| Playlist.SkippedForOneRoundIff | src/WallpaperEngine/Application/WallpaperApplication.cpp:577-616 | with nothing failing any more, the failed items are forgotten within a round if and only if the position is on the last item or that item has not failed |
| Playlist.SkippedForeverExample | src/WallpaperEngine/Application/WallpaperApplication.cpp:601-616 | a playlist of two whose second item fails the preflight once and is skipped from then on |
| PauseLoop.RenderLoop.Render | src/WallpaperEngine/Application/WallpaperApplication.cpp:3123-3335 | one frame takes the loop to the specified state: pause, resume, hotswap and playlists |
| PauseLoop.PausedIff | src/WallpaperEngine/Application/WallpaperApplication.cpp:3128-3325 | a paused loop stays paused if and only if there is a reason, it still runs and no hotswap can be taken; a running one pauses if and only if there is a reason, no frame was let through and it is not stopping |
| PauseLoop.FlagsAfter | src/WallpaperEngine/Application/WallpaperApplication.cpp:3128-3325 | the other flags after a frame: running, letting a frame through, input suspended, the start of the pause, a request still pending |
| PauseLoop.CallsOfPaused | src/WallpaperEngine/Application/WallpaperApplication.cpp:3128-3176 | what a frame of a paused loop calls, in order |
| PauseLoop.CallsOfRunning | src/WallpaperEngine/Application/WallpaperApplication.cpp:3280-3335 | what a frame of a running loop calls |
| PauseLoop.NoReasonNoPause | src/WallpaperEngine/Application/WallpaperApplication.cpp:3148 | over any run the loop is not paused after a frame without a reason |
| PauseLoop.PauseLasts | src/WallpaperEngine/Application/WallpaperApplication.cpp:3128-3160 | over any run a pause lasts through frames that have a reason, no stop and no hotswap |
| PauseLoop.DueListsSwitch | src/WallpaperEngine/Application/WallpaperApplication.cpp:668-714 | in a frame that is not spent pausing a playlist advances, once, if and only if it is due: its video has ended, or its deadline, put off by the pause that ends there, has come |
| PauseLoop.SwitchesIff | src/WallpaperEngine/Application/WallpaperApplication.cpp:668-714 | the switches the waiting times speak of are those |
| PauseLoop.RenderLoop.UpdatePlaylists | src/WallpaperEngine/Application/WallpaperApplication.cpp:668-714 | each playlist advances by its own timer, or at the end of a video that plays once, and no other changes |
| PauseLoop.RenderLoop.ShiftPlaylists | src/WallpaperEngine/Application/WallpaperApplication.cpp:3155-3163 | on resuming, every deadline but those of playlists that update on pause moves by the length of the pause |
| PauseLoop.RunSound | src/WallpaperEngine/Application/WallpaperApplication.cpp:3123-3327 | over any run setPause(true) and setPause(false) alternate, as do suspending and resuming the input, and suspended input implies paused |
| PauseLoop.SuspendedAfterDelay | src/WallpaperEngine/Application/WallpaperApplication.cpp:3131-3135 | the input is suspended only after three seconds of pause |
| PauseLoop.TakenIff | src/WallpaperEngine/Application/WallpaperApplication.cpp:3142-3153 | exactly when a frame takes a pending hotswap, and that it takes it once |
| PauseLoop.TakenInWindowPauseIff | src/WallpaperEngine/Application/WallpaperApplication.cpp:3146-3153 | during a window pause a pending hotswap is taken if and only if the loop is stopping or an earlier hotswap let this frame through |
| PauseLoop.WindowPauseExample | src/WallpaperEngine/Application/WallpaperApplication.cpp:3153-3334 | three frames after which a second hotswap is taken while the window reason is present |
| PauseLoop.PendingStays | src/WallpaperEngine/Application/WallpaperApplication.cpp:960-963 | a pending hotswap stays pending until one is taken |
| PauseLoop.TimerWaits | src/WallpaperEngine/Application/WallpaperApplication.cpp:664-714 | at least the delay, and a minute, of unpaused time passes between a switch and the next timer-driven one, over any run of pauses |
| PauseLoop.FirstTimerWaits | src/WallpaperEngine/Application/WallpaperApplication.cpp:456-714 | the same from the registration of a playlist to its first switch, if that is timer-driven |
| PauseLoop.PausedTimeFits | src/WallpaperEngine/Application/WallpaperApplication.cpp:3155-3163 | the time counted as paused lies within the time that passed |
| LiveSettings.LiveSetting.UpdateScreenSetting | src/WallpaperEngine/Application/WallpaperApplication.cpp:1409-1434 | a target changes one screen or span group, no target changes the window and every stored value |
| LiveSettings.LiveSetting.SetOnTargets | src/WallpaperEngine/Application/WallpaperApplication.cpp:1436-1449 | every wallpaper the target reaches is set once, however many screens share it, and no other |
| LiveSettings.ResolvedIsValid | src/WallpaperEngine/Application/WallpaperApplication.cpp:1385-1397 | a name resolves unless no wallpaper runs under it, to a target that is no group member and reaches it |
| LiveSettings.ResolvesToOwner | src/WallpaperEngine/Application/WallpaperApplication.cpp:1385-1397 | a name resolves to the owner of its screen if it is a key or listed in a group, and to nothing otherwise |
| LiveSettings.ReachesIffOwner | src/WallpaperEngine/Application/WallpaperApplication.cpp:1399-1407 | a target reaches exactly the screens whose wallpaper was installed for it |
| LiveSettings.InstalledAfterUpdate | src/WallpaperEngine/Application/WallpaperApplication.cpp:1414-1434 | after an update, installing yields the new value for the target's wallpaper and the old one for every other |
| LiveSettings.LiveEqualsReload | src/WallpaperEngine/Application/WallpaperApplication.cpp:1399-1449 | what a reload would give a screen changes to the new value exactly on the screens reached |
| LiveSettings.UnresolvedMemberDisagrees | src/WallpaperEngine/Application/WallpaperApplication.cpp:1385-1407 | addressing a group member without resolving it would make live and reload differ |
| LiveSettings.LiveSetting.Apply | src/WallpaperEngine/Application/WallpaperApplication.cpp:1736-1878 | after any live change every running wallpaper has the value a reload would give it, and those not reached are unchanged |
| LiveSettings.LiveSetting.InstallWallpaper | src/WallpaperEngine/Application/WallpaperApplication.cpp:2974-3055 | an installed wallpaper agrees with the stored settings on every screen of its key; a span group none of whose screens is there is refused |
| LiveSettings.LiveSetting.Hotswap | src/WallpaperEngine/Application/WallpaperApplication.cpp:1318-1374 | exactly the wallpapers reached that load, and for a span group have a screen, are replaced by new ones on all their screens, all others stay, and every wallpaper agrees with the stored settings |
| Backgrounds.Application.LoadBackgrounds | src/WallpaperEngine/Application/WallpaperApplication.cpp:182-220 | every screen and span group runs its own path or the default, a window the default or the first item of its playlist |
| Backgrounds.LoadedForAll | src/WallpaperEngine/Application/WallpaperApplication.cpp:195-219 | on the desktop one wallpaper is loaded for each given screen and each span, and for nothing else |
| Backgrounds.Application.SwitchPlaylist | src/WallpaperEngine/Application/WallpaperApplication.cpp:629-651 | the next item runs and is filed as the screen's path |
| Backgrounds.Application.Hotswap | src/WallpaperEngine/Application/WallpaperApplication.cpp:1277-1383 | exactly the wallpapers reached that load run the new path, or again that of the settings, and it is filed for them, and as the default when everything was addressed; a request with a path that replaces nothing leaves paths, wallpapers and overrides as they were |
| Backgrounds.LoadedAgreeIff | src/WallpaperEngine/Application/WallpaperApplication.cpp:182-220 | after loading every wallpaper runs what the settings resolve to, in a window if and only if the playlist's first item is that |
| Backgrounds.PlaylistKeepsAgreementIff | src/WallpaperEngine/Application/WallpaperApplication.cpp:629-651 | a playlist switch keeps that agreement if and only if the item is looked up where it is filed, which it is not for a span key |
| Backgrounds.RequestKeepsAgreementIff | src/WallpaperEngine/Application/WallpaperApplication.cpp:1318-1383 | a live request keeps it if and only if each replaced wallpaper has a place in the settings and each other one a path of its own, or the new default comes out right for it |
| Backgrounds.RunAgreesIff | src/WallpaperEngine/Application/WallpaperApplication.cpp:629-1383 | over any run of switches and requests wallpapers and settings agree at every moment if and only if each event met its condition |
| Backgrounds.FailedScreenExample | src/WallpaperEngine/Application/WallpaperApplication.cpp:1318-1383 | a screen on the default background that fails to follow goes on with the old one while the settings name the new one |
| Backgrounds.WindowPlaylistExample | src/WallpaperEngine/Application/WallpaperApplication.cpp:1318-1338 | a window given both a background and a playlist turns to the background at a request that only changes layers |
| Screens.Arguments.ScreenRoot | src/WallpaperEngine/Application/ApplicationContext.cpp:520-542 | a screen root is accepted exactly when the name is free and no window is asked for |
| Screens.Arguments.ScreenSpan | src/WallpaperEngine/Application/ApplicationContext.cpp:546-590 | a span is accepted exactly when at least two names are listed, all free and none twice |
| Screens.Arguments.ScreenSlot | src/WallpaperEngine/Application/ApplicationContext.cpp:599-631 | a slot is accepted exactly for a plain name with no root and no group, and gets the next number of its screen |
| Screens.Arguments.FindSplitScreen | src/WallpaperEngine/Application/ApplicationContext.cpp:293-303 | the split found is the first of the screen before the last # of the name |
| Screens.Arguments.Parse | src/WallpaperEngine/Application/ApplicationContext.cpp:419-692 | the arguments take effect in order up to the first refused one |
| Screens.AcceptedIff | src/WallpaperEngine/Application/ApplicationContext.cpp:520-631 | when each kind of argument is accepted, told by the settings so far |
| Screens.AcceptedChanges | src/WallpaperEngine/Application/ApplicationContext.cpp:419-692 | what each accepted argument changes: the mode, the names under which backgrounds and playlists are filed, the groups and the slots |
| Screens.ListedJoins | src/WallpaperEngine/Application/ApplicationContext.cpp:546-560 | a list of names is split at its commas, and empty names are dropped |
| Screens.AcceptedIsExclusive | src/WallpaperEngine/Application/ApplicationContext.cpp:520-631 | after any accepted arguments no screen whose name has no # is in two of root, span group and split, groups do not overlap, and slots carry their screen and number |
| Screens.SlotsApart | src/WallpaperEngine/Application/ApplicationContext.cpp:626-630 | no two slots share a name, and a slot's screen is what comes before its last # |
| Screens.HashOwnedTwice | src/WallpaperEngine/Application/ApplicationContext.cpp:520-631 | a root called "A#1" and then a first slot of A are both accepted, and the name is root and slot |
| Screens.OwnedTwiceIff | src/WallpaperEngine/Application/ApplicationContext.cpp:599-631 | after any accepted arguments some name has two owners among roots, groups, splits and slots if and only if some --screen-slot generated a name that was a key or in a group already |
| Screens.AcceptedGivesLayout | src/WallpaperEngine/Application/WallpaperApplication.cpp:201-219 | when no listed span name has a # or a "span:" prefix, the loaded wallpapers never share a screen with a group |
| Screens.SpanPlaylistMissesGroup | src/WallpaperEngine/Application/ApplicationContext.cpp:672-692 | after any accepted arguments a playlist's key finds a span group only if a --screen-root was given that very key as its name |
| Screens.SpanPlaylistExample | src/WallpaperEngine/Application/ApplicationContext.cpp:672-692 | a playlist given right after any accepted span is filed under a key that no group has |

## Left out

- Float rounding, NaN and infinities: all geometry is in exact reals, so equality of floats is equality of reals.
- Integer widths: frame counts, durations and fixed-point positions are unbounded.
- Failed allocations, and the early returns they cause.
- Square roots, trigonometry, the angles of arcs, and `curveBounds`: the values are arbitrary functions or arbitrary points; `StrokeWidth.GoodTrig` is what the width of a stroke needs of them.
- Shape.OpenLineWidth: says where the two sides of a segment run, not that the joins between them cover every gap; lines with a turn sharper than `Shape.NoHairpins` allows get less than their width there.
- Dash.DashPolyline: lengths are those of any metric that is linear along segments, of which `Dash.EuclideanIsLinear` shows the Euclidean one to be one.
- Dash.DashPolyline: the sum of the entries has to be positive; the parser drops arrays whose sum is at most 1e-6.
- Blend.ScanlineSolid: a packed 32-bit colour is a record of four bytes; packing, shifting and masking are not modelled.
- Pool.MemPool.Alloc: a page is its place in the chain, so the pointers between pages are not modelled.
- Transform.ParseTransform: the text is taken as the list of functions and numbers in it; a function without brackets counts as one without numbers.
- Gradient.GradientData.AddStop: the parsing of offset, colour and opacity is not modelled, nor references between gradients.
- PathParser.Parser.PathArcTo: the Bezier segments of an arc are arbitrary, so that they approximate the arc is not stated.
- PathParser.Parser.ParseRect: attributes, coordinates and units are taken as numbers already read; the same holds for the other basic shapes.
- PathParser.Parser.ParsePoly: one `points` attribute per element.
- Path bounds, shapes, groups, the attribute stack, styles, colours and `defs`.
- Image.Rasterizer.Rasterize: the order qsort leaves edges in, square roots and the divisions of round caps are inputs; markers are not drawn by the code either.
- Interior.SweepFollowsOutline: single samples nearer to an edge than the sweep may be off are left open; `Precision` bounds their number.
- FramePacer.EvenShares: the sleep of each frame is assumed exact; overshoot is covered by `FramePacer.WindowLength` only.
- Playlist.ActivePlaylist.Advance: preflight, loading and shuffles are inputs; the project that is installed and its audio are not modelled.
- PauseLoop.RenderLoop.Render: drawing, audio, media and input updates, the screenshot and the environment variables for regression renders are not modelled, and signals arrive before the frame or just before the hotswap check.
- PauseLoop.TimerWaits: speaks of the time of the switch as `updatePlaylists` reads it, not of when the wallpaper appears.
- LiveSettings.LiveSetting.Apply: one setting at a time, of any value type and with any clamping in its setter; image adjustments, which are merged, and video segments are not covered.
- LiveSettings.LiveSetting.Hotswap: loading succeeds or fails as an input; paths and overrides are those of `Backgrounds`.
- Backgrounds.Application.Hotswap: the overrides that a request with a path replaces are one value; the settings it applies before are not part of it.
- Backgrounds.Application.LoadBackgrounds: a background that does not load ends the program, so all of them load.
- LiveSettings.LiveSetting.InstallWallpaper: the bounding box of a span group is reduced to whether any of its screens is there.
- Screens.Arguments.Parse: the keys of the settings maps only; paths, `--split-layout`, the per-screen settings and the parser's own mutual exclusion of options are not modelled.
- OpenGL, Wayland, X11, D-Bus, CEF, mpv, audio devices and file access.
- Help texts, listing commands, and the Python and C tools.
