/** Premultiplied blending and the final un-premultiplication (src/External/nanosvg/nanosvgrast.h). */
module Blend {
  import opened Coverage

  datatype Rgba = Rgba(r: byte, g: byte, b: byte, a: byte)

  /** nsvg__div255. */
  function Div255(x: int): int {
    (x + 1) * 257 / 65536
  }

  /** On products of two bytes the shift trick is exact floor division. */
  lemma Div255IsFloor(x: int)
    requires 0 <= x <= 255 * 255
    ensures Div255(x) == x / 255
  {
    var q, r := x / 255, x % 255;
    assert (x + 1) * 257 == 65535 * q + 257 * (r + 1);
    assert 0 <= 257 * (r + 1) - q < 65536;
    assert (x + 1) * 257 == 65536 * q + (257 * (r + 1) - q);
  }

  lemma Div255Product(u: byte, v: byte)
    ensures 0 <= Div255(u * v) <= v
    ensures Div255(u * v) <= u
    ensures Div255(u * 255) == u && Div255(255 * v) == v && Div255(0) == 0
  {
    ProductBound(u, v);
    Div255IsFloor(u * v);
    Div255IsFloor(u * 255);
    Div255IsFloor(255 * v);
    hide Div255;
    DivBound(u * v, u);
    DivBound(u * v, v);
  }

  lemma ProductBound(u: byte, v: byte)
    ensures 0 <= u * v <= 255 * 255 && u * v <= 255 * u && u * v <= 255 * v
  {
    assert (255 - u) * v >= 0;
    assert u * (255 - v) >= 0;
  }

  lemma DivBound(x: int, v: byte)
    requires 0 <= x <= 255 * v
    ensures 0 <= x / 255 <= v
  {
  }

  lemma Div255Monotone(x: int, y: int)
    requires x <= y
    ensures Div255(x) <= Div255(y)
  {
  }

  lemma ProductMonotone(w: byte, u: byte, v: byte)
    requires u <= v
    ensures w * u <= w * v
  {
    assert w * (v - u) >= 0;
  }

  /** One colour channel blended over another: the source share of `c`, plus what the source leaves of `d`. */
  function BlendChannel(c: byte, a: byte, d: byte): (r: byte)
    ensures r <= a + Div255((255 - a) * d)
  {
    Div255Product(c, a);
    Div255Product(255 - a, d);
    Div255(c * a) + Div255((255 - a) * d)
  }

  function SourceAlpha(cover: byte, c: Rgba): byte {
    Div255Product(cover, c.a);
    Div255(cover * c.a)
  }

  function BlendAlpha(a: byte, d: byte): byte {
    Div255Product(255 - a, d);
    a + Div255((255 - a) * d)
  }

  /** The body of the pixel loop of nsvg__scanlineSolid. None of its byte conversions loses anything. */
  function BlendOver(dst: Rgba, cover: byte, c: Rgba): Rgba {
    var a := SourceAlpha(cover, c);
    Rgba(BlendChannel(c.r, a, dst.r), BlendChannel(c.g, a, dst.g), BlendChannel(c.b, a, dst.b), BlendAlpha(a, dst.a))
  }

  predicate Premultiplied(p: Rgba) {
    p.r <= p.a && p.g <= p.a && p.b <= p.a
  }

  lemma ChannelBelowAlpha(c: byte, a: byte, d: byte, da: byte)
    requires d <= da
    ensures BlendChannel(c, a, d) <= BlendAlpha(a, da)
  {
    ProductMonotone(255 - a, d, da);
    Div255Monotone((255 - a) * d, (255 - a) * da);
    Div255Product(c, a);
    hide Div255;
  }

  /** Blending any colour at any coverage keeps a premultiplied pixel premultiplied. */
  lemma BlendKeepsPremultiplied(dst: Rgba, cover: byte, c: Rgba)
    requires Premultiplied(dst)
    ensures Premultiplied(BlendOver(dst, cover, c))
  {
    hide BlendChannel, BlendAlpha, SourceAlpha;
    var a := SourceAlpha(cover, c);
    ChannelBelowAlpha(c.r, a, dst.r, dst.a);
    ChannelBelowAlpha(c.g, a, dst.g, dst.a);
    ChannelBelowAlpha(c.b, a, dst.b, dst.a);
  }

  /** A pixel without coverage is left exactly as it was, so blitting a wider range than needed is harmless. */
  lemma NoCoverageNoChange(dst: Rgba, c: Rgba)
    ensures BlendOver(dst, 0, c) == dst
  {
    Div255Product(0, c.a);
    Div255Product(255, dst.r);
    Div255Product(255, dst.g);
    Div255Product(255, dst.b);
    Div255Product(255, dst.a);
    Div255Product(c.r, 0);
    Div255Product(c.g, 0);
    Div255Product(c.b, 0);
    hide Div255;
  }

  /** Full coverage with an opaque colour replaces the pixel. */
  lemma FullCoverageReplaces(dst: Rgba, c: Rgba)
    requires c.a == 255
    ensures BlendOver(dst, 255, c) == c
  {
    Div255Product(255, 255);
    Div255Product(c.r, 255);
    Div255Product(c.g, 255);
    Div255Product(c.b, 255);
    Div255Product(0, dst.r);
    Div255Product(0, dst.g);
    Div255Product(0, dst.b);
    Div255Product(0, dst.a);
    hide Div255;
  }

  /** Alpha never falls, and only a covered pixel with a visible colour can change at all. */
  lemma AlphaNeverFalls(dst: Rgba, cover: byte, c: Rgba)
    ensures BlendOver(dst, cover, c).a >= dst.a
  {
    var a := SourceAlpha(cover, c);
    hide SourceAlpha, BlendChannel;
    AlphaFloor(a, dst.a);
  }

  /** u/65025 parts of c and the rest of d, in 65025ths. */
  function Mix(u: int, c: int, d: int): int {
    u * c + (65025 - u) * d
  }

  lemma ChannelIsMix(u: int, a: byte, c: byte, d: byte)
    requires 0 <= u - 255 * a < 255
    ensures -3 * 65025 < 65025 * BlendChannel(c, a, d) - Mix(u, c, d) < 65025
  {
    hide Div255;
    ProductBound(c, a);
    ProductBound(255 - a, d);
    Div255IsFloor(c * a);
    Div255IsFloor((255 - a) * d);
    MixRounding(u, a, c, d, Div255(c * a), Div255((255 - a) * d));
  }

  lemma MixRounding(u: int, a: int, c: byte, d: byte, s: int, t: int)
    requires 0 <= u - 255 * a < 255
    requires 0 <= c * a - 255 * s < 255 && 0 <= (255 - a) * d - 255 * t < 255
    ensures -3 * 65025 < 65025 * (s + t) - Mix(u, c, d) < 65025
  {
    var e, w := u - 255 * a, c - d;
    assert Mix(u, c, d) == u * w + 65025 * d;
    assert u * w == 255 * (a * w) + e * w;
    assert a * w == c * a + (255 - a) * d - 255 * d;
    assert -255 * 255 < e * w < 255 * 255 by { SmallProduct(e, w); }
  }

  lemma SmallProduct(e: int, w: int)
    requires 0 <= e < 255 && -255 <= w <= 255
    ensures -255 * 255 < e * w < 255 * 255
  {
    assert e * (255 - w) >= 0 && e * (255 + w) >= 0;
  }

  /** Blending is mixing: in every channel, the result is the mixture of the old pixel and the paint that the coverage
      and the paint's own alpha ask for, less than three below it and less than one above. */
  lemma BlendIsMix(dst: Rgba, cover: byte, c: Rgba)
    ensures var p, u := BlendOver(dst, cover, c), cover * c.a;
            -3 * 65025 < 65025 * p.r - (u * c.r + (65025 - u) * dst.r) < 65025 &&
            -3 * 65025 < 65025 * p.g - (u * c.g + (65025 - u) * dst.g) < 65025 &&
            -3 * 65025 < 65025 * p.b - (u * c.b + (65025 - u) * dst.b) < 65025 &&
            -3 * 65025 < 65025 * p.a - (u * 255 + (65025 - u) * dst.a) < 65025
  {
    var u, a := cover * c.a, SourceAlpha(cover, c);
    ProductBound(cover, c.a);
    Div255IsFloor(u);
    Div255Product(255, a);
    hide Div255;
    ChannelIsMix(u, a, c.r, dst.r);
    ChannelIsMix(u, a, c.g, dst.g);
    ChannelIsMix(u, a, c.b, dst.b);
    ChannelIsMix(u, a, 255, dst.a);
  }

  lemma AlphaFloor(a: byte, d: byte)
    ensures a + Div255((255 - a) * d) >= d
  {
    ProductBound(255 - a, d);
    Div255IsFloor((255 - a) * d);
    ProductBound(a, 255 - d);
    Rest(a, d);
    hide Div255;
    DivFloorBelow((255 - a) * d, d - a);
  }

  lemma Rest(a: int, d: int)
    ensures (255 - a) * d == 255 * (d - a) + a * (255 - d)
  {
  }

  lemma DivFloorBelow(x: int, k: int)
    requires x >= 255 * k
    ensures x / 255 >= k
  {
  }

  // ----- pixels in a byte buffer -----

  /** The i-th pixel of the row that starts at byte `at`. */
  function Px(b: seq<byte>, at: nat, i: nat): Rgba
    requires at + 4 * i + 4 <= |b|
  {
    Rgba(b[at + 4 * i], b[at + 4 * i + 1], b[at + 4 * i + 2], b[at + 4 * i + 3])
  }

  // ----- paints -----

  datatype Paint =
    | Solid(color: Rgba)
    | Linear(colors: seq<Rgba>, t: seq<real>)
    | Radial(colors: seq<Rgba>, t: seq<real>)

  predicate ValidPaint(p: Paint) {
    !p.Solid? ==> |p.colors| == 256 && |p.t| == 6
  }

  function Clamp(v: real, lo: real, hi: real): real {
    if v < lo then lo else if v > hi then hi else v
  }

  /** Index of a gradient coordinate in the 256-entry ramp. */
  function RampIndex(v: real): (i: nat)
    ensures i < 256
  {
    Clamp(v * 255.0, 0.0, 255.0).Floor
  }

  function Line(x: real, y: real, u: real, v: real, g: real): real {
    x * u + y * v + g
  }

  /** The coordinate of a linear gradient. */
  function Along(t: seq<real>, fx: real, fy: real): real
    requires |t| == 6
  {
    Line(fx, fy, t[1], t[3], t[5])
  }

  /** The other coordinate of the gradient's space, which only a radial one looks at. */
  function Sideways(t: seq<real>, fx: real, fy: real): real
    requires |t| == 6
  {
    Line(fx, fy, t[0], t[2], t[4])
  }

  /** The coordinate of a radial gradient. */
  function Distance(t: seq<real>, sqrt: real -> real, fx: real, fy: real): real
    requires |t| == 6
  {
    sqrt(Squares(Sideways(t, fx, fy), Along(t, fx, fy)))
  }

  function Squares(x: real, y: real): real {
    x * x + y * y
  }

  /** The colour the paint has at (fx, fy) in its own space; `sqrt` is the square root of the radial distance. */
  function ColorAt(p: Paint, sqrt: real -> real, fx: real, fy: real): Rgba
    requires ValidPaint(p)
  {
    match p
    case Solid(c) => c
    case Linear(colors, t) => colors[RampIndex(Along(t, fx, fy))]
    case Radial(colors, t) => colors[RampIndex(Distance(t, sqrt, fx, fy))]
  }

  /** Where the image is placed on the bitmap. */
  datatype Placement = Placement(tx: real, ty: real, scale: real)

  /** The paint's colour at pixel (x, y) of the bitmap. */
  function PixelColor(p: Paint, sqrt: real -> real, at: Placement, x: int, y: int): Rgba
    requires ValidPaint(p) && at.scale > 0.0
  {
    ColorAt(p, sqrt, (x as real - at.tx) / at.scale, (y as real - at.ty) / at.scale)
  }

  lemma StepRight(x: int, at: Placement)
    requires at.scale > 0.0
    ensures (x as real - at.tx) / at.scale + 1.0 / at.scale == ((x + 1) as real - at.tx) / at.scale
  {
  }

  lemma Fits(i: int, n: int)
    requires 0 <= i < n
    ensures 4 * i + 4 <= 4 * n
  {
  }

  /** nsvg__scanlineSolid: blends `count` pixels from byte `start` on, the first of them being pixel (x, y). */
  method ScanlineSolid(bitmap: array<byte>, start: nat, count: nat, cover: array<byte>, coverAt: nat, x: int, y: int,
                       at: Placement, paint: Paint, sqrt: real -> real)
    requires start + 4 * count <= bitmap.Length && coverAt + count <= cover.Length && bitmap != cover
    requires ValidPaint(paint) && at.scale > 0.0
    modifies bitmap
    ensures forall i: nat :: i < count ==>
              Px(bitmap[..], start, i)
              == BlendOver(Px(old(bitmap[..]), start, i), cover[coverAt + i], PixelColor(paint, sqrt, at, x + i, y))
    ensures forall k :: 0 <= k < bitmap.Length && !(start <= k < start + 4 * count) ==> bitmap[k] == old(bitmap[k])
  {
    hide BlendOver, ColorAt;
    ghost var before := bitmap[..];
    var fx, fy := (x as real - at.tx) / at.scale, (y as real - at.ty) / at.scale;
    var dx := 1.0 / at.scale;
    for i := 0 to count
      invariant fx == ((x + i) as real - at.tx) / at.scale
      invariant forall j: nat :: j < i ==>
                  Px(bitmap[..], start, j)
                  == BlendOver(Px(before, start, j), cover[coverAt + j], PixelColor(paint, sqrt, at, x + j, y))
      invariant forall k :: 0 <= k < bitmap.Length && !(start <= k < start + 4 * i) ==> bitmap[k] == before[k]
    {
      ghost var was := bitmap[..];
      var dst := start + 4 * i;
      var c := ColorAt(paint, sqrt, fx, fy);
      var blended := BlendOver(Rgba(bitmap[dst], bitmap[dst + 1], bitmap[dst + 2], bitmap[dst + 3]),
                               cover[coverAt + i], c);
      bitmap[dst] := blended.r;
      bitmap[dst + 1] := blended.g;
      bitmap[dst + 2] := blended.b;
      bitmap[dst + 3] := blended.a;
      StepRight(x + i, at);
      fx := fx + dx;
      forall j: nat | j < i ensures Px(bitmap[..], start, j) == Px(was, start, j) {
        Fits(j, i);
      }
    }
  }
}
