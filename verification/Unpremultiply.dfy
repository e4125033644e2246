/** nsvg__unpremultiplyAlpha: division by alpha, then the defringe pass (src/External/nanosvg/nanosvgrast.h). */
module Unpremultiply {
  import opened Coverage
  import opened Blend
  import opened Bitmap

  // Writes the colour of one pixel and leaves its alpha.
  method SetColor(l: Layout, image: array<byte>, x: nat, y: nat, r: byte, g: byte, b: byte)
    requires Holds(l, image.Length) && x < l.w && y < l.h
    modifies image
    ensures Pixel(l, image[..], x, y) == Rgba(r, g, b, Pixel(l, old(image[..]), x, y).a)
    ensures forall x': nat, y': nat :: x' < l.w && y' < l.h && (x' != x || y' != y) ==>
              Pixel(l, image[..], x', y') == Pixel(l, old(image[..]), x', y')
    ensures SameOutside(l, old(image[..]), image[..])
  {
    PixelFits(l, x, y, image.Length);
    var row := RowAt(l, y) + 4 * x;
    ghost var before := image[..];
    image[row], image[row + 1], image[row + 2] := r, g, b;
    PixelChanged(l, x, y, before, image[..]);
    forall x': nat, y': nat | x' < l.w && y' < l.h && (x' != x || y' != y)
      ensures Pixel(l, image[..], x', y') == Pixel(l, old(image[..]), x', y')
    {
      PixelsApart(l, x, y, x', y');
      PixelFits(l, x', y', image.Length);
      hide RowAt;
    }
  }

  // ----- division by alpha -----

  lemma Undivided(c: byte, a: byte)
    requires c <= a && a != 0
    ensures 0 <= c * 255 / a <= 255
  {
    assert c * 255 <= 255 * a;
  }

  function Divided(c: byte, a: byte): byte
    requires c <= a && a != 0
  {
    Undivided(c, a);
    c * 255 / a
  }

  /** A premultiplied pixel's straight colour; every channel fits a byte. */
  function Straight(p: Rgba): Rgba
    requires Premultiplied(p)
  {
    if p.a == 0 then p else Rgba(Divided(p.r, p.a), Divided(p.g, p.a), Divided(p.b, p.a), p.a)
  }

  /** q is the colour of a visible premultiplied pixel p with its alpha taken out, rounded down. */
  predicate TakesAlphaOut(q: Rgba, p: Rgba) {
    q.a == p.a &&
    p.a * q.r <= 255 * p.r < p.a * q.r + p.a &&
    p.a * q.g <= 255 * p.g < p.a * q.g + p.a &&
    p.a * q.b <= 255 * p.b < p.a * q.b + p.a
  }

  lemma DividedIsQuotient(c: byte, a: byte)
    requires c <= a && a != 0
    ensures a * Divided(c, a) <= 255 * c < a * Divided(c, a) + a
  {
    var q, r := c * 255 / a, c * 255 % a;
    assert c * 255 == a * q + r;
  }

  lemma StraightTakesAlphaOut(p: Rgba)
    requires Premultiplied(p) && p.a != 0
    ensures TakesAlphaOut(Straight(p), p)
  {
    hide Divided;
    DividedIsQuotient(p.r, p.a);
    DividedIsQuotient(p.g, p.a);
    DividedIsQuotient(p.b, p.a);
  }

  lemma ProductBack(q: byte, c: byte, a: byte)
    requires a * q <= 255 * c < a * q + a
    ensures Div255(q * a) <= c <= Div255(q * a) + 1
  {
    ProductBound(q, a);
    Div255IsFloor(q * a);
    hide Div255;
    assert q * a == a * q;
  }

  /** Multiplying the alpha back in loses at most one in any channel. */
  lemma PremultipliedBack(p: Rgba)
    requires Premultiplied(p) && p.a != 0
    ensures var q := Straight(p);
            p.r - 1 <= Div255(q.r * q.a) <= p.r && p.g - 1 <= Div255(q.g * q.a) <= p.g &&
            p.b - 1 <= Div255(q.b * q.a) <= p.b
  {
    StraightTakesAlphaOut(p);
    hide Straight, Div255;
    var q := Straight(p);
    ProductBack(q.r, p.r, p.a);
    ProductBack(q.g, p.g, p.a);
    ProductBack(q.b, p.b, p.a);
  }

  // ----- the defringe pass -----

  // The pixel as a donor of colour: itself if it is visible at all.
  function Visible(l: Layout, b: seq<byte>, x: nat, y: nat): seq<Rgba>
    requires Holds(l, |b|) && x < l.w && y < l.h
  {
    if Pixel(l, b, x, y).a != 0 then [Pixel(l, b, x, y)] else []
  }

  datatype Side = Left | Right | Up | Down

  /** The code looks left only from the third column on, and up only from the third row on. */
  predicate Looks(l: Layout, x: nat, y: nat, side: Side) {
    match side
    case Left => x > 1
    case Right => x + 1 < l.w
    case Up => y > 1
    case Down => y + 1 < l.h
  }

  function Donor(l: Layout, b: seq<byte>, x: nat, y: nat, side: Side): seq<Rgba>
    requires Holds(l, |b|) && x < l.w && y < l.h
  {
    if !Looks(l, x, y, side) then []
    else match side
      case Left => Visible(l, b, x - 1, y)
      case Right => Visible(l, b, x + 1, y)
      case Up => Visible(l, b, x, y - 1)
      case Down => Visible(l, b, x, y + 1)
  }

  /** The neighbours whose colour a transparent pixel borrows, in the order the code adds them. */
  function Donors(l: Layout, b: seq<byte>, x: nat, y: nat): seq<Rgba>
    requires Holds(l, |b|) && x < l.w && y < l.h
  {
    [] + Donor(l, b, x, y, Left) + Donor(l, b, x, y, Right) + Donor(l, b, x, y, Up) + Donor(l, b, x, y, Down)
  }

  datatype Sum = Sum(r: nat, g: nat, b: nat)

  function SumOf(ps: seq<Rgba>): (s: Sum)
    ensures s.r <= 255 * |ps| && s.g <= 255 * |ps| && s.b <= 255 * |ps|
  {
    if ps == [] then Sum(0, 0, 0)
    else
      var s, p := SumOf(ps[..|ps| - 1]), ps[|ps| - 1];
      Sum(s.r + p.r, s.g + p.g, s.b + p.b)
  }

  lemma AverageFits(s: nat, n: nat)
    requires n > 0 && s <= 255 * n
    ensures 0 <= s / n <= 255
  {
    assert s < 256 * n;
  }

  function Average(s: Sum, n: nat, a: byte): Rgba
    requires n > 0 && s.r <= 255 * n && s.g <= 255 * n && s.b <= 255 * n
  {
    AverageFits(s.r, n);
    AverageFits(s.g, n);
    AverageFits(s.b, n);
    Rgba(s.r / n, s.g / n, s.b / n, a)
  }

  /** What the pass does to pixel (x, y), read off the image as it was before the pass. */
  function Defringed(l: Layout, b: seq<byte>, x: nat, y: nat): Rgba
    requires Holds(l, |b|) && x < l.w && y < l.h
  {
    var p, donors := Pixel(l, b, x, y), Donors(l, b, x, y);
    if p.a != 0 || donors == [] then p else Average(SumOf(donors), |donors|, p.a)
  }

  /** v is the average of n values that add up to `total`, rounded down. */
  predicate Averages(v: int, total: int, n: int) {
    n * v <= total < n * v + n
  }

  /** What a pixel lends to a neighbour that looks at it: its colour if it is visible, and whether it does. */
  datatype Loan = Loan(n: nat, r: nat, g: nat, b: nat)

  function Lends(l: Layout, b: seq<byte>, looked: bool, x: int, y: int): Loan
    requires Holds(l, |b|) && (looked ==> 0 <= x < l.w && 0 <= y < l.h)
  {
    if !looked || Pixel(l, b, x, y).a == 0 then Loan(0, 0, 0, 0)
    else
      var p := Pixel(l, b, x, y);
      Loan(1, p.r, p.g, p.b)
  }

  lemma AverageIs(s: Sum, n: nat, a: byte)
    requires n > 0 && s.r <= 255 * n && s.g <= 255 * n && s.b <= 255 * n
    ensures var q := Average(s, n, a);
            Averages(q.r, s.r, n) && Averages(q.g, s.g, n) && Averages(q.b, s.b, n) && q.a == a
  {
    Euclid(s.r, n);
    Euclid(s.g, n);
    Euclid(s.b, n);
  }

  lemma Euclid(v: nat, n: nat)
    requires n > 0
    ensures Averages(v / n, v, n)
  {
    assert v == n * (v / n) + v % n;
  }

  /** A transparent pixel takes the average colour of those of its four neighbours that are visible, the second column
      not looking left and the second row not looking up; without any it keeps its colour. */
  lemma DefringedAverages(l: Layout, b: seq<byte>, x: nat, y: nat)
    requires Holds(l, |b|) && x < l.w && y < l.h && Pixel(l, b, x, y).a == 0
    ensures var left, right := Lends(l, b, x > 1, x - 1, y), Lends(l, b, x + 1 < l.w, x + 1, y);
            var up, down := Lends(l, b, y > 1, x, y - 1), Lends(l, b, y + 1 < l.h, x, y + 1);
            var n := left.n + right.n + up.n + down.n;
            var d := Defringed(l, b, x, y);
            d.a == 0 && (n == 0 ==> d == Pixel(l, b, x, y)) &&
            (n > 0 ==>
               Averages(d.r, left.r + right.r + up.r + down.r, n) &&
               Averages(d.g, left.g + right.g + up.g + down.g, n) &&
               Averages(d.b, left.b + right.b + up.b + down.b, n))
  {
    hide Pixel, Holds, SumOf, Average, Averages, Div255, Donor, Lends;
    var a := [] + Donor(l, b, x, y, Left);
    var c := a + Donor(l, b, x, y, Right);
    var e := c + Donor(l, b, x, y, Up);
    var f := e + Donor(l, b, x, y, Down);
    SumOfNone();
    SumOfOneMore(l, b, x, y, Left, []);
    SumOfOneMore(l, b, x, y, Right, a);
    SumOfOneMore(l, b, x, y, Up, c);
    SumOfOneMore(l, b, x, y, Down, e);
    assert f == Donors(l, b, x, y);
    if f != [] { AverageIs(SumOf(f), |f|, 0); }
  }

  lemma SumOfNone()
    ensures SumOf([]) == Sum(0, 0, 0)
  {
  }

  lemma SumOfOneMore(l: Layout, b: seq<byte>, x: nat, y: nat, side: Side, ps: seq<Rgba>)
    requires Holds(l, |b|) && x < l.w && y < l.h
    ensures var d, s := Donor(l, b, x, y, side), SumOf(ps);
            var q := match side
                     case Left => Lends(l, b, x > 1, x - 1, y)
                     case Right => Lends(l, b, x + 1 < l.w, x + 1, y)
                     case Up => Lends(l, b, y > 1, x, y - 1)
                     case Down => Lends(l, b, y + 1 < l.h, x, y + 1);
            |ps + d| == |ps| + q.n && SumOf(ps + d) == Sum(s.r + q.r, s.g + q.g, s.b + q.b)
  {
    hide Pixel, Holds, SumOf;
    var d := Donor(l, b, x, y, side);
    if d == [] {
      assert ps + d == ps;
    } else {
      SumOfSnoc(ps, d[0]);
      assert ps + d == ps + [d[0]];
    }
  }

  /** Two images with the same alphas and the same visible pixels have the same donors everywhere. */
  ghost predicate SameVisible(l: Layout, b: seq<byte>, b': seq<byte>)
    requires Holds(l, |b|) && Holds(l, |b'|)
  {
    forall x: nat, y: nat {:trigger Pixel(l, b', x, y)} :: x < l.w && y < l.h ==>
      Pixel(l, b', x, y).a == Pixel(l, b, x, y).a &&
      (Pixel(l, b, x, y).a != 0 ==> Pixel(l, b', x, y) == Pixel(l, b, x, y))
  }

  lemma SameDonors(l: Layout, b: seq<byte>, b': seq<byte>, x: nat, y: nat)
    requires Holds(l, |b|) && Holds(l, |b'|) && SameVisible(l, b, b') && x < l.w && y < l.h
    ensures Donors(l, b', x, y) == Donors(l, b, x, y)
  {
    hide Pixel, Holds;
  }

  lemma SumOfSnoc(ps: seq<Rgba>, p: Rgba)
    ensures var s := SumOf(ps); SumOf(ps + [p]) == Sum(s.r + p.r, s.g + p.g, s.b + p.b)
  {
    assert (ps + [p])[..|ps|] == ps;
  }

  // Pixels that a row-by-row pass standing at (x, y) has already handled.
  predicate Passed(x: nat, y: nat, x': nat, y': nat) {
    y' < y || (y' == y && x' < x)
  }

  /** First pass: every pixel becomes its straight colour. */
  method DivideByAlpha(l: Layout, image: array<byte>)
    requires Holds(l, image.Length) && AllPremultiplied(l, image[..])
    modifies image
    ensures forall x: nat, y: nat :: x < l.w && y < l.h ==>
              Pixel(l, image[..], x, y) == Straight(Pixel(l, old(image[..]), x, y))
    ensures SameOutside(l, old(image[..]), image[..])
  {
    ghost var before := image[..];
    hide Pixel, Holds, Straight, Premultiplied, InImage;
    for y := 0 to l.h
      invariant forall x': nat, y': nat :: x' < l.w && y' < l.h ==>
                  Pixel(l, image[..], x', y')
                  == if Passed(0, y, x', y') then Straight(Pixel(l, before, x', y')) else Pixel(l, before, x', y')
      invariant SameOutside(l, before, image[..])
    {
      for x := 0 to l.w
        invariant forall x': nat, y': nat :: x' < l.w && y' < l.h ==>
                    Pixel(l, image[..], x', y')
                    == if Passed(x, y, x', y') then Straight(Pixel(l, before, x', y')) else Pixel(l, before, x', y')
        invariant SameOutside(l, before, image[..])
      {
        ghost var was := image[..];
        DividePixel(l, image, x, y);
        SameOutsideNext(l, before, was, image[..]);
      }
    }
  }

  method DividePixel(l: Layout, image: array<byte>, x: nat, y: nat)
    requires Holds(l, image.Length) && x < l.w && y < l.h && Premultiplied(Pixel(l, image[..], x, y))
    modifies image
    ensures Pixel(l, image[..], x, y) == Straight(Pixel(l, old(image[..]), x, y))
    ensures forall x': nat, y': nat :: x' < l.w && y' < l.h && (x' != x || y' != y) ==>
              Pixel(l, image[..], x', y') == Pixel(l, old(image[..]), x', y')
    ensures SameOutside(l, old(image[..]), image[..])
  {
    PixelFits(l, x, y, image.Length);
    var row := RowAt(l, y) + 4 * x;
    var r, g, b, a := image[row], image[row + 1], image[row + 2], image[row + 3];
    assert Pixel(l, image[..], x, y) == Rgba(r, g, b, a);
    hide Pixel, Holds, Divided;
    if a != 0 {
      SetColor(l, image, x, y, Divided(r, a), Divided(g, a), Divided(b, a));
    }
  }

  /** Second pass: every pixel becomes what the image before the pass prescribes, although the pass works in place and
      reads neighbours it may already have written: it only borrows from visible pixels, which it never changes. */
  method Defringe(l: Layout, image: array<byte>)
    requires Holds(l, image.Length)
    modifies image
    ensures forall x: nat, y: nat :: x < l.w && y < l.h ==>
              Pixel(l, image[..], x, y) == Defringed(l, old(image[..]), x, y)
    ensures SameVisible(l, old(image[..]), image[..]) && SameOutside(l, old(image[..]), image[..])
  {
    ghost var before := image[..];
    DefringedKeepsVisible(l, before);
    hide Pixel, Holds, Defringed, InImage;
    for y := 0 to l.h
      invariant forall x': nat, y': nat :: x' < l.w && y' < l.h ==>
                  Pixel(l, image[..], x', y')
                  == if Passed(0, y, x', y') then Defringed(l, before, x', y') else Pixel(l, before, x', y')
      invariant SameOutside(l, before, image[..])
    {
      for x := 0 to l.w
        invariant forall x': nat, y': nat :: x' < l.w && y' < l.h ==>
                    Pixel(l, image[..], x', y')
                    == if Passed(x, y, x', y') then Defringed(l, before, x', y') else Pixel(l, before, x', y')
        invariant SameOutside(l, before, image[..])
      {
        assert SameVisible(l, before, image[..]);
        DefringedSame(l, before, image[..], x, y);
        ghost var was := image[..];
        DefringePixel(l, image, x, y);
        SameOutsideNext(l, before, was, image[..]);
      }
    }
  }

  lemma DefringedKeepsVisible(l: Layout, b: seq<byte>)
    requires Holds(l, |b|)
    ensures forall x: nat, y: nat :: x < l.w && y < l.h ==>
              Defringed(l, b, x, y).a == Pixel(l, b, x, y).a &&
              (Pixel(l, b, x, y).a != 0 ==> Defringed(l, b, x, y) == Pixel(l, b, x, y))
  {
    hide Pixel, Holds, Donors;
  }

  lemma DefringedSame(l: Layout, b: seq<byte>, b': seq<byte>, x: nat, y: nat)
    requires Holds(l, |b|) && Holds(l, |b'|) && SameVisible(l, b, b') && x < l.w && y < l.h
    requires Pixel(l, b', x, y) == Pixel(l, b, x, y)
    ensures Defringed(l, b', x, y) == Defringed(l, b, x, y)
  {
    hide Pixel, Holds;
    SameDonors(l, b, b', x, y);
    hide Donors;
  }

  method PixelOf(l: Layout, image: array<byte>, x: nat, y: nat) returns (p: Rgba)
    requires Holds(l, image.Length) && x < l.w && y < l.h
    ensures p == Pixel(l, image[..], x, y)
  {
    PixelFits(l, x, y, image.Length);
    var row := RowAt(l, y) + 4 * x;
    p := Rgba(image[row], image[row + 1], image[row + 2], image[row + 3]);
  }

  // Adds the neighbour on one side to the running sums when it is there and visible.
  method Borrow(l: Layout, image: array<byte>, x: nat, y: nat, side: Side, s: Sum, n: nat, ghost donors: seq<Rgba>)
    returns (s': Sum, n': nat)
    requires Holds(l, image.Length) && x < l.w && y < l.h
    requires s == SumOf(donors) && n == |donors|
    ensures var donors' := donors + Donor(l, image[..], x, y, side); s' == SumOf(donors') && n' == |donors'|
  {
    hide Pixel, Holds;
    s', n' := s, n;
    assert donors + [] == donors;
    if Looks(l, x, y, side) {
      var q;
      match side {
        case Left => q := PixelOf(l, image, x - 1, y);
        case Right => q := PixelOf(l, image, x + 1, y);
        case Up => q := PixelOf(l, image, x, y - 1);
        case Down => q := PixelOf(l, image, x, y + 1);
      }
      if q.a != 0 {
        SumOfSnoc(donors, q);
        s', n' := Sum(s.r + q.r, s.g + q.g, s.b + q.b), n + 1;
      }
    }
  }

  method GatherDonors(l: Layout, image: array<byte>, x: nat, y: nat) returns (s: Sum, n: nat)
    requires Holds(l, image.Length) && x < l.w && y < l.h
    ensures s == SumOf(Donors(l, image[..], x, y)) && n == |Donors(l, image[..], x, y)|
  {
    s, n := Sum(0, 0, 0), 0;
    assert SumOf([]) == s;
    hide Holds, Donor, SumOf;
    ghost var b := image[..];
    ghost var donors := [];
    s, n := Borrow(l, image, x, y, Left, s, n, donors);
    donors := donors + Donor(l, b, x, y, Left);
    s, n := Borrow(l, image, x, y, Right, s, n, donors);
    donors := donors + Donor(l, b, x, y, Right);
    s, n := Borrow(l, image, x, y, Up, s, n, donors);
    donors := donors + Donor(l, b, x, y, Up);
    s, n := Borrow(l, image, x, y, Down, s, n, donors);
  }

  method DefringePixel(l: Layout, image: array<byte>, x: nat, y: nat)
    requires Holds(l, image.Length) && x < l.w && y < l.h
    modifies image
    ensures Pixel(l, image[..], x, y) == Defringed(l, old(image[..]), x, y)
    ensures forall x': nat, y': nat :: x' < l.w && y' < l.h && (x' != x || y' != y) ==>
              Pixel(l, image[..], x', y') == Pixel(l, old(image[..]), x', y')
    ensures SameOutside(l, old(image[..]), image[..])
  {
    hide Pixel, Holds, Donors, SumOf;
    var p := PixelOf(l, image, x, y);
    if p.a == 0 {
      var s, n := GatherDonors(l, image, x, y);
      if n > 0 {
        var q := Average(s, n, p.a);
        SetColor(l, image, x, y, q.r, q.g, q.b);
      }
    }
  }

  /** The whole of nsvg__unpremultiplyAlpha; `straight` is the image between the two passes. */
  method UnpremultiplyAlpha(l: Layout, image: array<byte>) returns (ghost straight: seq<byte>)
    requires Holds(l, image.Length) && AllPremultiplied(l, image[..])
    modifies image
    ensures Holds(l, |straight|)
    ensures forall x: nat, y: nat :: x < l.w && y < l.h ==>
              Pixel(l, straight, x, y) == Straight(Pixel(l, old(image[..]), x, y)) &&
              Pixel(l, image[..], x, y) == Defringed(l, straight, x, y)
    ensures forall x: nat, y: nat :: x < l.w && y < l.h ==>
              Pixel(l, image[..], x, y).a == Pixel(l, old(image[..]), x, y).a &&
              (Pixel(l, old(image[..]), x, y).a != 0 ==>
                 Pixel(l, image[..], x, y) == Straight(Pixel(l, old(image[..]), x, y)))
    ensures SameOutside(l, old(image[..]), image[..])
  {
    hide Pixel, Defringed, InImage;
    ghost var before := image[..];
    DivideByAlpha(l, image);
    straight := image[..];
    Defringe(l, image);
    SameOutsideNext(l, before, straight, image[..]);
  }
}
