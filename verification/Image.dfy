/** nsvgRasterize: the shapes of an image, layer by layer, onto a bitmap (src/External/nanosvg/nanosvgrast.h, with the
    order of the layers as src/External/nanosvg/nanosvg.h encodes it). */
module Image {
  import opened Options
  import opened Edges
  import opened Sweep
  import opened Coverage
  import opened Blend
  import opened Bitmap
  import opened Interior
  import opened PathBuilder
  import opened Rasterize
  import opened Render
  import opened Shape
  import opened Unpremultiply
  import Dash
  import Gradient
  import Pool

  // ----- the order of fill and stroke -----

  const FILL := 0
  const MARKERS := 1
  const STROKE := 2

  /** nsvg__encodePaintOrder: three fields of two bits. */
  function EncodePaintOrder(a: nat, b: nat, c: nat): (r: byte)
    requires a < 4 && b < 4 && c < 4
  {
    a + 4 * b + 16 * c
  }

  /** Field j of a paint order. */
  function LayerAt(order: byte, j: nat): (r: nat)
    requires j < 3
    ensures r < 4
  {
    if j == 0 then order % 4 else if j == 1 then order / 4 % 4 else order / 16 % 4
  }

  /** nsvg__parsePaintOrder. */
  function ParsePaintOrder(s: string): byte {
    if s == "normal" || s == "fill stroke markers" then EncodePaintOrder(FILL, STROKE, MARKERS)
    else if s == "fill markers stroke" then EncodePaintOrder(FILL, MARKERS, STROKE)
    else if s == "markers fill stroke" then EncodePaintOrder(MARKERS, FILL, STROKE)
    else if s == "markers stroke fill" then EncodePaintOrder(MARKERS, STROKE, FILL)
    else if s == "stroke fill markers" then EncodePaintOrder(STROKE, FILL, MARKERS)
    else if s == "stroke markers fill" then EncodePaintOrder(STROKE, MARKERS, FILL)
    else EncodePaintOrder(FILL, STROKE, MARKERS)
  }

  function Layers(order: byte): seq<nat> {
    [LayerAt(order, 0), LayerAt(order, 1), LayerAt(order, 2)]
  }

  /** Decoding gives back what was encoded. */
  lemma PaintOrderRoundTrip(a: nat, b: nat, c: nat)
    requires a < 4 && b < 4 && c < 4
    ensures Layers(EncodePaintOrder(a, b, c)) == [a, b, c]
  {
    var order := EncodePaintOrder(a, b, c);
    assert order / 4 == b + 4 * c && order / 16 == c;
  }

  // ----- shapes and their layers -----

  datatype SvgShape = SvgShape(paths: seq<SvgPath>, fill: Option<Gradient.SourcePaint>,
                               stroke: Option<Gradient.SourcePaint>, opacity: real, strokeWidth: real, line: Style,
                               fillRule: FillRule, paintOrder: byte, visible: bool)

  /** The square root, the order qsort leaves edges in, and the points nsvg__curveDivs gives half a circle of a line of
      some width. */
  datatype Machine = Machine(sqrt: real -> real, sort: seq<Edge> -> seq<Edge>, halfCircle: real -> int)

  ghost predicate GoodMachine(m: Machine) {
    (forall es :: multiset(m.sort(es)) == multiset(es) && SortedByTop(m.sort(es))) && forall w :: m.halfCircle(w) >= 2
  }

  ghost predicate GoodShape(s: SvgShape) {
    GoodPaths(s.paths) && (s.fill.Some? ==> Gradient.GoodPaint(s.fill.value)) &&
    (s.stroke.Some? ==> Gradient.GoodPaint(s.stroke.value)) &&
    Dash.LinearMetric(s.line.dist) && (s.line.dashes != [] ==> Dash.ValidDashes(s.line.dashes))
  }

  /** How the shape is stroked with lines of some width. */
  function StyleOf(s: SvgShape, width: real, m: Machine): Style {
    s.line.(width := width, ncap := m.halfCircle(width))
  }

  function ScaledWidth(s: SvgShape, scale: real): real {
    s.strokeWidth * scale
  }

  function StyleAt(s: SvgShape, scale: real, m: Machine): Style {
    StyleOf(s, ScaledWidth(s, scale), m)
  }

  /** One thing to paint: the edges of its outline, in any order, and how. */
  datatype Layer = Layer(edges: seq<Edge>, rule: FillRule, paint: Gradient.SourcePaint, opacity: real)

  predicate HasStroke(s: SvgShape, scale: real) {
    s.stroke.Some? && ScaledWidth(s, scale) > 0.01
  }

  /** What layer number `kind` of a shape comes to. */
  ghost function LayerOf(s: SvgShape, kind: nat, scale: real, tol: Tolerances, m: Machine): (r: seq<Layer>)
    requires GoodShape(s) && GoodMachine(m) && scale > 0.0
    ensures |r| <= 1
  {
    if kind == FILL && s.fill.Some? then [Layer(FilledEdges(s.paths, scale, tol), s.fillRule, s.fill.value, s.opacity)]
    else if kind == STROKE && HasStroke(s, scale) then
      [Layer(StrokedEdges(StyleAt(s, scale, m), s.paths, scale, tol), NonZero, s.stroke.value, s.opacity)]
    else []
  }

  ghost function LayersUpTo(s: SvgShape, j: nat, scale: real, tol: Tolerances, m: Machine): seq<Layer>
    requires GoodShape(s) && GoodMachine(m) && scale > 0.0 && j <= 3
  {
    if j == 0 then []
    else LayersUpTo(s, j - 1, scale, tol, m) + LayerOf(s, LayerAt(s.paintOrder, j - 1), scale, tol, m)
  }

  ghost predicate GoodShapes(shapes: seq<SvgShape>) {
    forall i :: 0 <= i < |shapes| ==> GoodShape(shapes[i])
  }

  /** Everything an image paints, in order: the layers of its visible shapes. */
  ghost function ImageLayers(shapes: seq<SvgShape>, scale: real, tol: Tolerances, m: Machine): seq<Layer>
    requires GoodShapes(shapes) && GoodMachine(m) && scale > 0.0
  {
    if shapes == [] then []
    else
      ImageLayers(shapes[..|shapes| - 1], scale, tol, m) +
      (if shapes[|shapes| - 1].visible then LayersUpTo(shapes[|shapes| - 1], 3, scale, tol, m) else [])
  }

  lemma StyleIsValid(s: SvgShape, scale: real, m: Machine)
    requires GoodShape(s) && GoodMachine(m)
    ensures ValidStyle(StyleAt(s, scale, m))
  {
    hide Dash.LinearMetric, Dash.ValidDashes;
  }

  lemma LayersOfThree(s: SvgShape, scale: real, tol: Tolerances, m: Machine)
    requires GoodShape(s) && GoodMachine(m) && scale > 0.0
    ensures LayersUpTo(s, 3, scale, tol, m)
         == LayerOf(s, LayerAt(s.paintOrder, 0), scale, tol, m) + LayerOf(s, LayerAt(s.paintOrder, 1), scale, tol, m)
            + LayerOf(s, LayerAt(s.paintOrder, 2), scale, tol, m)
  {
    hide LayerOf, GoodShape, GoodMachine, LayerAt;
    assert LayersUpTo(s, 0, scale, tol, m) == [];
    assert LayersUpTo(s, 1, scale, tol, m) == LayerOf(s, LayerAt(s.paintOrder, 0), scale, tol, m);
  }

  /** The paint-order texts that put the stroke below the fill. */
  predicate StrokeFirst(order: string) {
    order == "stroke fill markers" || order == "stroke markers fill" || order == "markers stroke fill"
  }

  lemma OrderOf(order: string) returns (a: nat, b: nat, c: nat)
    ensures a <= 2 && b <= 2 && c <= 2 && a != b && b != c && a != c
    ensures ParsePaintOrder(order) == EncodePaintOrder(a, b, c)
    ensures StrokeFirst(order) <==> a == STROKE || (a == MARKERS && b == STROKE)
  {
    hide EncodePaintOrder;
    if order == "fill markers stroke" { return FILL, MARKERS, STROKE; }
    if order == "markers fill stroke" { return MARKERS, FILL, STROKE; }
    if order == "markers stroke fill" { return MARKERS, STROKE, FILL; }
    if order == "stroke fill markers" { return STROKE, FILL, MARKERS; }
    if order == "stroke markers fill" { return STROKE, MARKERS, FILL; }
    return FILL, STROKE, MARKERS;
  }

  lemma LayersArePicked(s: SvgShape, order: string, scale: real, tol: Tolerances, m: Machine)
    returns (a: nat, b: nat, c: nat)
    requires GoodShape(s) && GoodMachine(m) && scale > 0.0 && s.paintOrder == ParsePaintOrder(order)
    ensures a <= 2 && b <= 2 && c <= 2 && a != b && b != c && a != c
    ensures StrokeFirst(order) <==> a == STROKE || (a == MARKERS && b == STROKE)
    ensures var fill, stroke := LayerOf(s, FILL, scale, tol, m), LayerOf(s, STROKE, scale, tol, m);
            LayersUpTo(s, 3, scale, tol, m) == Pick(a, fill, stroke) + Pick(b, fill, stroke) + Pick(c, fill, stroke)
  {
    a, b, c := OrderOf(order);
    PaintOrderRoundTrip(a, b, c);
    assert Layers(s.paintOrder) == [a, b, c];
    LayersOfThree(s, scale, tol, m);
    assert LayerOf(s, MARKERS, scale, tol, m) == [];
    hide LayerOf, GoodShape, GoodMachine, LayerAt, ParsePaintOrder, EncodePaintOrder, LayersUpTo, StrokeFirst;
  }

  /** Whatever the paint order says, a shape is filled once if it has a fill and stroked once if it has a stroke. */
  lemma EachLayerOnce(s: SvgShape, order: string, scale: real, tol: Tolerances, m: Machine)
    requires GoodShape(s) && GoodMachine(m) && scale > 0.0 && s.paintOrder == ParsePaintOrder(order)
    ensures multiset(LayersUpTo(s, 3, scale, tol, m))
         == multiset(LayerOf(s, FILL, scale, tol, m)) + multiset(LayerOf(s, STROKE, scale, tol, m))
  {
    hide LayerOf, LayersUpTo, GoodShape, GoodMachine, Pick, ParsePaintOrder;
    var fill, stroke := LayerOf(s, FILL, scale, tol, m), LayerOf(s, STROKE, scale, tol, m);
    var a, b, c := LayersArePicked(s, order, scale, tol, m);
    PickEach(a, b, c, fill, stroke);
  }

  /** A shape paints its paths by its own fill rule, its fill and its opacity, and their outlines by the non-zero rule,
      its stroke and the same opacity where the scaled line is wider than a hundredth of a pixel; the text decides which
      lies below. */
  lemma LayersInTextOrder(s: SvgShape, order: string, scale: real, tol: Tolerances, m: Machine) returns (style: Style)
    requires GoodShape(s) && GoodMachine(m) && scale > 0.0 && s.paintOrder == ParsePaintOrder(order)
    ensures ValidStyle(style) && style.width == s.strokeWidth * scale
    ensures style == s.line.(width := style.width, ncap := m.halfCircle(style.width))
    ensures var fill := if s.fill.None? then []
                        else [Layer(FilledEdges(s.paths, scale, tol), s.fillRule, s.fill.value, s.opacity)];
            var stroke := if s.stroke.None? || style.width <= 0.01 then []
                          else [Layer(StrokedEdges(style, s.paths, scale, tol), NonZero, s.stroke.value, s.opacity)];
            LayersUpTo(s, 3, scale, tol, m) == if StrokeFirst(order) then stroke + fill else fill + stroke
  {
    hide ParsePaintOrder, LayersUpTo, GoodMachine, ValidStyle, FilledEdges, StrokedEdges, StrokeFirst, Pick;
    var width := ScaledWidth(s, scale);
    style := StyleOf(s, width, m);
    StyleAtWidth(s, scale, m, width);
    hide StyleAt;
    StyleIsValid(s, scale, m);
    var fill, stroke := LayerOf(s, FILL, scale, tol, m), LayerOf(s, STROKE, scale, tol, m);
    var a, b, c := LayersArePicked(s, order, scale, tol, m);
    PickInOrder(a, b, c, fill, stroke);
  }

  lemma StyleAtWidth(s: SvgShape, scale: real, m: Machine, width: real)
    requires width == ScaledWidth(s, scale)
    ensures StyleAt(s, scale, m) == StyleOf(s, width, m) && StyleOf(s, width, m).width == width
    ensures HasStroke(s, scale) <==> s.stroke.Some? && width > 0.01
  {
  }

  lemma PickInOrder<T>(a: nat, b: nat, c: nat, fill: seq<T>, stroke: seq<T>)
    requires a <= 2 && b <= 2 && c <= 2 && a != b && b != c && a != c
    ensures Pick(a, fill, stroke) + Pick(b, fill, stroke) + Pick(c, fill, stroke)
         == if a == STROKE || (a == MARKERS && b == STROKE) then stroke + fill else fill + stroke
  {
  }

  /** Shapes lie in the order of the image, and an invisible one paints nothing. */
  lemma {:induction false} ShapesInOrder(a: seq<SvgShape>, s: SvgShape, b: seq<SvgShape>, scale: real, tol: Tolerances,
                                         m: Machine)
    requires GoodShapes(a) && GoodShape(s) && GoodShapes(b) && GoodMachine(m) && scale > 0.0
    ensures GoodShapes(a + [s] + b)
    ensures ImageLayers(a + [s] + b, scale, tol, m)
         == ImageLayers(a, scale, tol, m) + (if s.visible then LayersUpTo(s, 3, scale, tol, m) else [])
            + ImageLayers(b, scale, tol, m)
    decreases |b|
  {
    hide GoodShape, GoodMachine, LayersUpTo;
    if b == [] {
      assert a + [s] + b == a + [s];
      assert (a + [s])[..|a|] == a;
    } else {
      var n := |b| - 1;
      assert (a + [s] + b)[..|a| + 1 + n] == a + [s] + b[..n];
      ShapesInOrder(a, s, b[..n], scale, tol, m);
    }
  }

  function Pick<T>(kind: nat, fill: seq<T>, stroke: seq<T>): seq<T> {
    if kind == FILL then fill else if kind == STROKE then stroke else []
  }

  lemma PickEach<T>(a: nat, b: nat, c: nat, fill: seq<T>, stroke: seq<T>)
    requires a <= 2 && b <= 2 && c <= 2 && a != b && b != c && a != c
    ensures multiset(Pick(a, fill, stroke) + Pick(b, fill, stroke) + Pick(c, fill, stroke))
         == multiset(fill) + multiset(stroke)
  {
    ThreeParts(Pick(a, fill, stroke), Pick(b, fill, stroke), Pick(c, fill, stroke));
  }

  lemma ThreeParts<T>(a: seq<T>, b: seq<T>, c: seq<T>)
    ensures multiset(a + b + c) == multiset(a) + multiset(b) + multiset(c)
  {
  }

  // ----- painting -----

  /** The pass paints the layer. */
  ghost predicate Paints(p: Pass, layer: Layer) {
    Gradient.GoodPaint(layer.paint) && multiset(p.outline) == multiset(layer.edges) && p.rule == layer.rule &&
    p.paint == Gradient.PaintOf(layer.paint, layer.opacity)
  }

  ghost predicate AllPaint(passes: seq<Pass>, layers: seq<Layer>) {
    |passes| == |layers| && forall i :: 0 <= i < |passes| ==> Paints(passes[i], layers[i])
  }

  /** The bitmap shows the passes, and nothing else. */
  ghost predicate Shows(l: Layout, b: seq<byte>, passes: seq<Pass>, sqrt: real -> real, at: Placement) {
    Holds(l, |b|) && ValidPasses(passes, at) &&
    forall x: nat, y: nat :: x < l.w && y < l.h ==> Pixel(l, b, x, y) == PaintedBy(passes, sqrt, at, x, y)
  }

  lemma ShowsOneMore(l: Layout, before: seq<byte>, after: seq<byte>, passes: seq<Pass>, p: Pass, sqrt: real -> real,
                     at: Placement)
    requires Shows(l, before, passes, sqrt, at) && |before| == |after| && ValidPass(p, at) && ValidEdges(p.edges)
    requires forall x: nat, y: nat :: x < l.w && y < l.h ==>
               Pixel(l, after, x, y)
               == PaintedPixel(p.edges, p.rule, p.paint, sqrt, at, x, y, Pixel(l, before, x, y))
    ensures Shows(l, after, passes + [p], sqrt, at)
  {
    hide Pixel, PaintedPixel, PaintedBy, Holds, ValidPass, ValidEdges;
    assert ValidPasses(passes + [p], at);
    forall x: nat, y: nat | x < l.w && y < l.h
      ensures Pixel(l, after, x, y) == PaintedBy(passes + [p], sqrt, at, x, y)
    {
      PaintedByOneMore(passes, p, sqrt, at, x, y);
    }
  }

  class Rasterizer {
    const tol: Tolerances
    const pool: Pool.MemPool
    var scanline: array<byte>

    constructor ()
      ensures tol == Tolerances(0.25, 0.01) && pool.Valid() && fresh(pool) && fresh(scanline) && scanline.Length == 0
    {
      tol := Tolerances(0.25, 0.01);
      pool := new Pool.MemPool();
      scanline := new byte[0](_ => 0);
    }

    // The loop that scales and translates the edges.
    method PlaceEdges(outline: seq<Edge>, at: Placement) returns (edges: seq<Edge>)
      ensures edges == PlaceAll(outline, at.tx, at.ty)
    {
      hide Place;
      edges := outline;
      var i := 0;
      while i < |edges|
        invariant 0 <= i <= |edges| == |outline|
        invariant forall j :: 0 <= j < i ==> edges[j] == Place(outline[j], at.tx, at.ty)
        invariant forall j :: i <= j < |edges| ==> edges[j] == outline[j]
      {
        edges := edges[i := Place(edges[i], at.tx, at.ty)];
        i := i + 1;
      }
    }

    /** From the outline of a layer to the painted bitmap. */
    method PaintEdges(outline: seq<Edge>, rule: FillRule, paint: Gradient.SourcePaint, opacity: real, l: Layout,
                      dst: array<byte>, at: Placement, m: Machine, ghost passes: seq<Pass>)
      returns (ghost p: Pass)
      requires pool.Valid() && ValidEdges(outline) && Gradient.GoodPaint(paint) && GoodMachine(m)
      requires Shows(l, dst[..], passes, m.sqrt, at) && l.w <= scanline.Length && dst != scanline
      modifies dst, scanline, pool
      ensures pool.Valid()
      ensures Paints(p, Layer(outline, rule, paint, opacity)) && Shows(l, dst[..], passes + [p], m.sqrt, at)
      ensures SameOutside(l, old(dst[..]), dst[..])
    {
      hide Pixel, PaintedPixel, PaintedBy, Holds, InImage, Gradient.PaintOf, ValidPaint, Gradient.GoodPaint;
      ghost var before := dst[..];
      var edges := PlaceEdges(outline, at);
      if |edges| != 0 {
        edges := m.sort(edges);
      }
      var cache := new Gradient.CachedPaint();
      cache.InitPaint(paint, opacity);
      var value := cache.Value();
      p := Pass(outline, edges, rule, value);
      assert ValidPass(p, at);
      PassEdgesValid(p, at);
      hide ValidPass, SortedByTop, ValidEdges;
      RasterizeSortedEdges(edges, l, dst, scanline, rule, at, value, m.sqrt, pool);
      ShowsOneMore(l, before, dst[..], passes, p, m.sqrt, at);
    }

    method PaintFill(s: SvgShape, l: Layout, dst: array<byte>, at: Placement, m: Machine, ghost passes: seq<Pass>)
      returns (ghost p: Pass)
      requires pool.Valid() && GoodShape(s) && GoodMachine(m) && at.scale > 0.0 && s.fill.Some?
      requires Shows(l, dst[..], passes, m.sqrt, at) && l.w <= scanline.Length && dst != scanline
      modifies dst, scanline, pool
      ensures pool.Valid()
      ensures Paints(p, LayerOf(s, FILL, at.scale, tol, m)[0]) && Shows(l, dst[..], passes + [p], m.sqrt, at)
      ensures SameOutside(l, old(dst[..]), dst[..])
    {
      hide Shows, Holds, InImage, FilledEdges, StrokedEdges, GoodMachine, Gradient.GoodPaint, Gradient.PaintOf;
      pool.ResetPool();
      var edges := FlattenShape(s.paths, at.scale, tol);
      p := PaintEdges(edges, s.fillRule, s.fill.value, s.opacity, l, dst, at, m, passes);
    }

    method PaintStroke(s: SvgShape, l: Layout, dst: array<byte>, at: Placement, m: Machine, ghost passes: seq<Pass>)
      returns (ghost p: Pass)
      requires pool.Valid() && GoodShape(s) && GoodMachine(m) && at.scale > 0.0 && HasStroke(s, at.scale)
      requires Shows(l, dst[..], passes, m.sqrt, at) && l.w <= scanline.Length && dst != scanline
      modifies dst, scanline, pool
      ensures pool.Valid()
      ensures Paints(p, LayerOf(s, STROKE, at.scale, tol, m)[0]) && Shows(l, dst[..], passes + [p], m.sqrt, at)
      ensures SameOutside(l, old(dst[..]), dst[..])
    {
      StyleIsValid(s, at.scale, m);
      hide Shows, Holds, InImage, FilledEdges, StrokedEdges, GoodMachine, Gradient.GoodPaint, Gradient.PaintOf,
           ValidStyle;
      pool.ResetPool();
      var edges := FlattenShapeStroke(StyleAt(s, at.scale, m), s.paths, at.scale, tol);
      p := PaintEdges(edges, NonZero, s.stroke.value, s.opacity, l, dst, at, m, passes);
    }

    /** One turn of the loop over the paint order. */
    method PaintLayer(s: SvgShape, kind: nat, l: Layout, dst: array<byte>, at: Placement, m: Machine,
                      ghost passes: seq<Pass>)
      returns (ghost painted: seq<Pass>)
      requires pool.Valid() && GoodShape(s) && GoodMachine(m) && at.scale > 0.0
      requires Shows(l, dst[..], passes, m.sqrt, at) && l.w <= scanline.Length && dst != scanline
      modifies dst, scanline, pool
      ensures pool.Valid()
      ensures AllPaint(painted, LayerOf(s, kind, at.scale, tol, m))
      ensures Shows(l, dst[..], passes + painted, m.sqrt, at) && SameOutside(l, old(dst[..]), dst[..])
    {
      hide Shows, Holds, InImage, FilledEdges, StrokedEdges, GoodMachine, GoodShape, Paints, HasStroke;
      painted := [];
      assert passes + [] == passes;
      if kind == FILL && s.fill.Some? {
        ghost var p := PaintFill(s, l, dst, at, m, passes);
        painted := [p];
      }
      if kind == STROKE && HasStroke(s, at.scale) {
        ghost var p := PaintStroke(s, l, dst, at, m, passes);
        painted := [p];
      }
    }

    /** The layers of one shape. */
    method PaintShape(s: SvgShape, l: Layout, dst: array<byte>, at: Placement, m: Machine, ghost passes: seq<Pass>)
      returns (ghost painted: seq<Pass>)
      requires pool.Valid() && GoodShape(s) && GoodMachine(m) && at.scale > 0.0
      requires Shows(l, dst[..], passes, m.sqrt, at) && l.w <= scanline.Length && dst != scanline
      modifies dst, scanline, pool
      ensures pool.Valid()
      ensures AllPaint(painted, LayersUpTo(s, 3, at.scale, tol, m))
      ensures Shows(l, dst[..], passes + painted, m.sqrt, at) && SameOutside(l, old(dst[..]), dst[..])
    {
      hide Shows, InImage, LayerOf, LayerAt, GoodShape, GoodMachine, Paints;
      ghost var before := dst[..];
      painted := [];
      assert passes + [] == passes;
      for j := 0 to 3
        invariant pool.Valid() && AllPaint(painted, LayersUpTo(s, j, at.scale, tol, m))
        invariant Shows(l, dst[..], passes + painted, m.sqrt, at) && SameOutside(l, before, dst[..])
      {
        ghost var was := dst[..];
        ghost var more := PaintLayer(s, LayerAt(s.paintOrder, j), l, dst, at, m, passes + painted);
        assert passes + painted + more == passes + (painted + more);
        SameOutsideNext(l, before, was, dst[..]);
        painted := painted + more;
      }
    }

    /** The loop over the shapes, from a cleared bitmap. */
    method PaintShapes(shapes: seq<SvgShape>, l: Layout, dst: array<byte>, at: Placement, m: Machine)
      returns (ghost passes: seq<Pass>)
      requires pool.Valid() && GoodShapes(shapes) && GoodMachine(m) && at.scale > 0.0
      requires Shows(l, dst[..], [], m.sqrt, at) && l.w <= scanline.Length && dst != scanline
      modifies dst, scanline, pool
      ensures pool.Valid() && AllPaint(passes, ImageLayers(shapes, at.scale, tol, m))
      ensures Shows(l, dst[..], passes, m.sqrt, at) && SameOutside(l, old(dst[..]), dst[..])
    {
      hide Shows, InImage, LayersUpTo, GoodShape, GoodMachine, Paints;
      ghost var before := dst[..];
      passes := [];
      for n := 0 to |shapes|
        invariant pool.Valid() && AllPaint(passes, ImageLayers(shapes[..n], at.scale, tol, m))
        invariant Shows(l, dst[..], passes, m.sqrt, at) && SameOutside(l, before, dst[..])
      {
        assert shapes[..n + 1][..n] == shapes[..n];
        if shapes[n].visible {
          ghost var was := dst[..];
          ghost var more := PaintShape(shapes[n], l, dst, at, m, passes);
          SameOutsideNext(l, before, was, dst[..]);
          passes := passes + more;
        }
      }
      assert shapes[..|shapes|] == shapes;
    }

    /** nsvgRasterize: the bitmap shows the layers of the image's visible shapes, each blended once over what lies below
        it, as straight colours; transparent pixels may borrow a colour from their neighbours but stay transparent, and
        no byte outside the image changes. */
    method Rasterize(shapes: seq<SvgShape>, l: Layout, dst: array<byte>, at: Placement, m: Machine)
      returns (ghost passes: seq<Pass>, ghost straight: seq<byte>)
      requires pool.Valid() && GoodShapes(shapes) && GoodMachine(m) && at.scale > 0.0
      requires Holds(l, dst.Length) && dst != scanline
      modifies this, dst, scanline, pool
      ensures pool.Valid() && (scanline == old(scanline) || fresh(scanline))
      ensures ValidPasses(passes, at) && AllPaint(passes, ImageLayers(shapes, at.scale, tol, m))
      ensures Holds(l, |straight|) && SameOutside(l, old(dst[..]), dst[..])
      ensures forall x: nat, y: nat :: x < l.w && y < l.h ==>
                var p := PaintedBy(passes, m.sqrt, at, x, y);
                Pixel(l, straight, x, y) == Straight(p) && Pixel(l, dst[..], x, y) == Defringed(l, straight, x, y) &&
                Pixel(l, dst[..], x, y).a == p.a && (p.a != 0 ==> Pixel(l, dst[..], x, y) == Straight(p))
      ensures forall x: nat, y: nat :: x < l.w && y < l.h ==>
                var p := PaintedBy(passes, m.sqrt, at, x, y);
                p.a != 0 ==> TakesAlphaOut(Pixel(l, dst[..], x, y), p)
    {
      hide Pixel, Holds, InImage, LayersUpTo, GoodShape, GoodMachine, Straight, Defringed, PaintedBy, Paints,
           Premultiplied;
      ghost var before := dst[..];
      if l.w > scanline.Length {
        scanline := new byte[l.w](_ => 0);
      }
      ClearImage(l, dst);
      ghost var cleared := dst[..];
      NothingShown(l, cleared, m.sqrt, at);
      hide Shows, AllPaint, ImageLayers;
      passes := PaintShapes(shapes, l, dst, at, m);
      SameOutsideNext(l, before, cleared, dst[..]);
      ghost var painted := dst[..];
      ShownIsPremultiplied(l, painted, passes, m.sqrt, at);
      straight := UnpremultiplyAlpha(l, dst);
      SameOutsideNext(l, before, painted, dst[..]);
      AllStraight();
    }
  }

  lemma AllStraight()
    ensures forall p: Rgba {:trigger Straight(p)} :: Premultiplied(p) && p.a != 0 ==> TakesAlphaOut(Straight(p), p)
  {
    forall p: Rgba | Premultiplied(p) && p.a != 0 ensures TakesAlphaOut(Straight(p), p) {
      StraightTakesAlphaOut(p);
    }
  }

  lemma NothingShown(l: Layout, b: seq<byte>, sqrt: real -> real, at: Placement)
    requires Holds(l, |b|) && at.scale > 0.0
    requires forall x: nat, y: nat :: x < l.w && y < l.h ==> Pixel(l, b, x, y) == TRANSPARENT
    ensures Shows(l, b, [], sqrt, at)
  {
    hide Pixel;
  }

  lemma ShownIsPremultiplied(l: Layout, b: seq<byte>, passes: seq<Pass>, sqrt: real -> real, at: Placement)
    requires Shows(l, b, passes, sqrt, at)
    ensures Holds(l, |b|) && ValidPasses(passes, at) && AllPremultiplied(l, b)
    ensures forall x: nat, y: nat :: x < l.w && y < l.h ==> Pixel(l, b, x, y) == PaintedBy(passes, sqrt, at, x, y)
  {
    hide Pixel, PaintedBy, Holds, Premultiplied;
  }

  /** Every layer of an image follows its outline: a clear sample is inside a span of its pass exactly when its point is
      inside the fill's, or the stroke's, outline. */
  lemma LayersFollowOutlines(s: SvgShape, kind: nat, scale: real, tol: Tolerances, m: Machine, p: Pass, at: Placement,
                             k: nat, x: int)
    requires GoodShape(s) && GoodMachine(m) && scale > 0.0 && ValidPass(p, at)
    requires LayerOf(s, kind, scale, tol, m) != [] && Paints(p, LayerOf(s, kind, scale, tol, m)[0])
    ensures ValidEdges(p.edges) && ValidEdges(LayerOf(s, kind, scale, tol, m)[0].edges)
    ensures SampleAway(p.edges, k, x) ==>
              (InSpans(SpansOf(p.rule, ActiveOn(p.edges, k)), x)
               <==> Inside(p.rule, LayerOf(s, kind, scale, tol, m)[0].edges, SamplePoint(at.tx, at.ty, k, x)))
  {
    hide FilledEdges, StrokedEdges, ValidPass, ActiveOn, SpansOf, InSpans, Inside, SampleAway, SamplePoint, ValidEdges,
         Balanced, Gradient.PaintOf;
    if kind == FILL {
      FillIsClosed(s.paths, scale, tol);
    } else {
      StrokeIsClosed(StyleAt(s, scale, m), s.paths, scale, tol);
    }
    PassFollows(LayerOf(s, kind, scale, tol, m)[0].edges, p, at, k, x);
  }
}
