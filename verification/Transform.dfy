/** Affine transforms in six-element arrays, and the transform attribute (src/External/nanosvg/nanosvg.h; section 7.6 of
    SVG 1.1).

    The text of the attribute is taken as the list of functions in it, each with its numbers, however many those are.
    Sines, cosines and tangents are arbitrary functions of the angle in degrees. */
module Transform {
  import opened Edges

  datatype Affine = Affine(a: real, b: real, c: real, d: real, e: real, f: real)

  const IDENTITY := Affine(1.0, 0.0, 0.0, 1.0, 0.0, 0.0)

  function Mat(t: seq<real>): Affine
    requires |t| == 6
  {
    Affine(t[0], t[1], t[2], t[3], t[4], t[5])
  }

  // A row times a column, and a constant.
  function Mix(x: real, y: real, u: real, v: real, g: real): real {
    x * u + y * v + g
  }

  /** nsvg__xformPoint. */
  function Apply(m: Affine, p: Pt): Pt {
    Pt(Mix(p.x, p.y, m.a, m.c, m.e), Mix(p.x, p.y, m.b, m.d, m.f))
  }

  function Compose(t: Affine, s: Affine): Affine {
    Affine(Mix(t.a, t.b, s.a, s.c, 0.0), Mix(t.a, t.b, s.b, s.d, 0.0),
           Mix(t.c, t.d, s.a, s.c, 0.0), Mix(t.c, t.d, s.b, s.d, 0.0),
           Mix(t.e, t.f, s.a, s.c, s.e), Mix(t.e, t.f, s.b, s.d, s.f))
  }

  lemma MixMix(x: real, y: real, a: real, b: real, c: real, d: real, e: real, f: real, u: real, v: real, g: real)
    ensures Mix(Mix(x, y, a, c, e), Mix(x, y, b, d, f), u, v, g) ==
            Mix(x, y, Mix(a, b, u, v, 0.0), Mix(c, d, u, v, 0.0), Mix(e, f, u, v, g))
  {
    assert x * (a * u + b * v) == (x * a) * u + (x * b) * v;
    assert y * (c * u + d * v) == (y * c) * u + (y * d) * v;
  }

  lemma MixNothing(u: real, v: real)
    ensures Mix(0.0, 0.0, u, v, 0.0) == 0.0
  {
  }

  /** Multiplying t by s is t followed by s. */
  lemma ComposeApplies(t: Affine, s: Affine, p: Pt)
    ensures Apply(Compose(t, s), p) == Apply(s, Apply(t, p))
  {
    hide Mix;
    MixMix(p.x, p.y, t.a, t.b, t.c, t.d, t.e, t.f, s.a, s.c, s.e);
    MixMix(p.x, p.y, t.a, t.b, t.c, t.d, t.e, t.f, s.b, s.d, s.f);
  }

  lemma ComposeAssociative(r: Affine, s: Affine, t: Affine)
    ensures Compose(Compose(r, s), t) == Compose(r, Compose(s, t))
  {
    hide Mix;
    MixNothing(t.a, t.c);
    MixNothing(t.b, t.d);
    MixMix(r.a, r.b, s.a, s.b, s.c, s.d, 0.0, 0.0, t.a, t.c, 0.0);
    MixMix(r.a, r.b, s.a, s.b, s.c, s.d, 0.0, 0.0, t.b, t.d, 0.0);
    MixMix(r.c, r.d, s.a, s.b, s.c, s.d, 0.0, 0.0, t.a, t.c, 0.0);
    MixMix(r.c, r.d, s.a, s.b, s.c, s.d, 0.0, 0.0, t.b, t.d, 0.0);
    MixMix(r.e, r.f, s.a, s.b, s.c, s.d, s.e, s.f, t.a, t.c, t.e);
    MixMix(r.e, r.f, s.a, s.b, s.c, s.d, s.e, s.f, t.b, t.d, t.f);
  }

  lemma IdentityApplies(p: Pt)
    ensures Apply(IDENTITY, p) == p
  {
  }

  // ----- the functions of a transform attribute -----

  datatype Kind = Matrix | Translate | Scale | Rotate | SkewX | SkewY

  /** A function of the list, its numbers, and what the memory for its arguments held before they were read. */
  datatype Item = Item(kind: Kind, args: seq<real>, stale: nat -> real)

  datatype Trig = Trig(sin: real -> real, cos: real -> real, tan: real -> real)

  /** A function with as many numbers as section 7.6 asks for. */
  predicate WellFormed(item: Item) {
    var n := |item.args|;
    match item.kind
    case Matrix => n == 6
    case Translate => n == 1 || n == 2
    case Scale => n == 1 || n == 2
    case Rotate => n == 1 || n == 3
    case SkewX => n == 1
    case SkewY => n == 1
  }

  /** Where a function of the list takes a point, in section 7.6's terms. */
  function Moved(trig: Trig, item: Item, p: Pt): Pt
    requires WellFormed(item)
  {
    var v := item.args;
    match item.kind
    case Matrix => Pt(p.x * v[0] + p.y * v[2] + v[4], p.x * v[1] + p.y * v[3] + v[5])
    case Translate => Pt(p.x + v[0], p.y + if |v| == 1 then 0.0 else v[1])
    case Scale => Pt(p.x * v[0], p.y * if |v| == 1 then v[0] else v[1])
    case Rotate =>
      if |v| == 1 then Turned(trig, v[0], p)
      else
        var q := Turned(trig, v[0], Pt(p.x - v[1], p.y - v[2]));
        Pt(q.x + v[1], q.y + v[2])
    case SkewX => Pt(p.x + p.y * trig.tan(v[0]), p.y)
    case SkewY => Pt(p.x, p.x * trig.tan(v[0]) + p.y)
  }

  function Turned(trig: Trig, angle: real, p: Pt): Pt {
    Pt(p.x * trig.cos(angle) - p.y * trig.sin(angle), p.x * trig.sin(angle) + p.y * trig.cos(angle))
  }

  function Translation(x: real, y: real): Affine {
    Affine(1.0, 0.0, 0.0, 1.0, x, y)
  }

  function Rotation(trig: Trig, angle: real): Affine {
    Affine(trig.cos(angle), trig.sin(angle), -trig.sin(angle), trig.cos(angle), 0.0, 0.0)
  }

  function MatrixOf(trig: Trig, item: Item): Affine
    requires WellFormed(item)
  {
    var v := item.args;
    match item.kind
    case Matrix => Mat(v)
    case Translate => Translation(v[0], if |v| == 1 then 0.0 else v[1])
    case Scale => Affine(v[0], 0.0, 0.0, if |v| == 1 then v[0] else v[1], 0.0, 0.0)
    case Rotate =>
      if |v| == 1 then Compose(IDENTITY, Rotation(trig, v[0]))
      else
        Compose(Compose(Compose(IDENTITY, Translation(-v[1], -v[2])), Rotation(trig, v[0])), Translation(v[1], v[2]))
    case SkewX => Affine(1.0, 0.0, trig.tan(v[0]), 1.0, 0.0, 0.0)
    case SkewY => Affine(1.0, trig.tan(v[0]), 0.0, 1.0, 0.0, 0.0)
  }

  lemma RotationApplies(trig: Trig, angle: real, p: Pt)
    ensures Apply(Rotation(trig, angle), p) == Turned(trig, angle, p)
  {
  }

  lemma MatrixApplies(trig: Trig, item: Item, p: Pt)
    requires WellFormed(item)
    ensures Apply(MatrixOf(trig, item), p) == Moved(trig, item, p)
  {
    if item.kind == Rotate {
      RotateApplies(trig, item, p);
    } else {
      PlainApplies(trig, item, p);
    }
  }

  lemma PlainApplies(trig: Trig, item: Item, p: Pt)
    requires WellFormed(item) && item.kind != Rotate
    ensures Apply(MatrixOf(trig, item), p) == Moved(trig, item, p)
  {
    hide Compose, Rotation, Turned;
    var v := item.args;
    match item.kind {
      case Matrix =>
      case Translate =>
      case Scale =>
      case SkewX =>
      case SkewY =>
    }
  }

  lemma RotateApplies(trig: Trig, item: Item, p: Pt)
    requires WellFormed(item) && item.kind == Rotate
    ensures Apply(MatrixOf(trig, item), p) == Moved(trig, item, p)
  {
    var v := item.args;
    var r := Rotation(trig, v[0]);
    hide Compose, Rotation, Turned;
    IdentityApplies(p);
    if |v| == 1 {
      ComposeApplies(IDENTITY, r, p);
      RotationApplies(trig, v[0], p);
    } else {
      var back := Compose(IDENTITY, Translation(-v[1], -v[2]));
      var moved := Pt(p.x - v[1], p.y - v[2]);
      ComposeApplies(Compose(back, r), Translation(v[1], v[2]), p);
      ComposeApplies(back, r, p);
      ComposeApplies(IDENTITY, Translation(-v[1], -v[2]), p);
      RotationApplies(trig, v[0], moved);
    }
  }

  /** A rotation about a point leaves that point where it is. */
  lemma RotateFixesCentre(trig: Trig, angle: real, centre: Pt, stale: nat -> real)
    ensures Apply(MatrixOf(trig, Item(Rotate, [angle, centre.x, centre.y], stale)), centre) == centre
  {
    MatrixApplies(trig, Item(Rotate, [angle, centre.x, centre.y], stale), centre);
    assert Turned(trig, angle, Pt(0.0, 0.0)) == Pt(0.0, 0.0);
    hide MatrixOf, Apply, Turned;
  }

  // ----- in place -----

  method XformIdentity(t: array<real>)
    requires t.Length == 6
    modifies t
    ensures Mat(t[..]) == IDENTITY
  {
    t[0], t[1], t[2], t[3], t[4], t[5] := 1.0, 0.0, 0.0, 1.0, 0.0, 0.0;
  }

  method XformSetTranslation(t: array<real>, tx: real, ty: real)
    requires t.Length == 6
    modifies t
    ensures Mat(t[..]) == Translation(tx, ty)
  {
    t[0], t[1], t[2], t[3], t[4], t[5] := 1.0, 0.0, 0.0, 1.0, tx, ty;
  }

  method XformSetRotation(t: array<real>, trig: Trig, angle: real)
    requires t.Length == 6
    modifies t
    ensures Mat(t[..]) == Rotation(trig, angle)
  {
    var cs, sn := trig.cos(angle), trig.sin(angle);
    t[0], t[1], t[2], t[3], t[4], t[5] := cs, sn, -sn, cs, 0.0, 0.0;
  }

  /** nsvg__xformMultiply, overwriting t entry by entry. */
  method XformMultiply(t: array<real>, s: array<real>)
    requires t.Length == 6 && s.Length == 6 && t != s
    modifies t
    ensures Mat(t[..]) == Compose(old(Mat(t[..])), Mat(s[..]))
  {
    hide Mix;
    var t0 := Mix(t[0], t[1], s[0], s[2], 0.0);
    var t2 := Mix(t[2], t[3], s[0], s[2], 0.0);
    var t4 := Mix(t[4], t[5], s[0], s[2], s[4]);
    t[1] := Mix(t[0], t[1], s[1], s[3], 0.0);
    t[3] := Mix(t[2], t[3], s[1], s[3], 0.0);
    t[5] := Mix(t[4], t[5], s[1], s[3], s[5]);
    t[0] := t0;
    t[2] := t2;
    t[4] := t4;
  }

  /** nsvg__xformPremultiply: s comes first, then what t was. */
  method XformPremultiply(t: array<real>, s: array<real>)
    requires t.Length == 6 && s.Length == 6
    modifies t
    ensures Mat(t[..]) == Compose(old(Mat(s[..])), old(Mat(t[..])))
  {
    hide Compose;
    var s2 := new real[6](i requires 0 <= i < 6 reads s => if i < s.Length then s[i] else 0.0);
    assert Mat(s2[..]) == old(Mat(s[..]));
    XformMultiply(s2, t);
    CopyInto(t, s2);
  }

  method CopyInto(to: array<real>, from: array<real>)
    requires to.Length == 6 && from.Length == 6
    modifies to
    ensures Mat(to[..]) == old(Mat(from[..]))
  {
    to[0], to[1], to[2], to[3], to[4], to[5] := from[0], from[1], from[2], from[3], from[4], from[5];
  }

  /** How many numbers a function has room for. */
  function Room(kind: Kind): nat {
    match kind
    case Matrix => 6
    case Translate => 2
    case Scale => 2
    case Rotate => 3
    case SkewX => 1
    case SkewY => 1
  }

  /** A function with more numbers than it has room for is passed over. */
  predicate PassedOver(item: Item) {
    |item.args| > Room(item.kind)
  }

  /** The arguments the code goes on with: no more than there is room for, and stale ones for those it did not read. */
  function Completed(item: Item): (r: Item)
    requires item.kind == Matrix ==> |item.args| >= 6
    ensures WellFormed(r) && (WellFormed(item) ==> r.args == item.args && r.kind == item.kind)
  {
    var room := Room(item.kind);
    var v := if |item.args| > room then item.args[..room] else item.args;
    var s := item.stale;
    item.(args := match item.kind
                  case Matrix => v
                  case Translate => if v == [] then [s(0), s(1)] else v
                  case Scale => if v == [] then [s(0), s(1)] else v
                  case Rotate => if v == [] then [s(0)] else if |v| == 2 then v + [s(2)] else v
                  case SkewX => if v == [] then [s(0)] else v
                  case SkewY => if v == [] then [s(0)] else v)
  }

  /** The matrix left in t: that of the function, but a matrix with too few numbers leaves t as it was. */
  function Left(trig: Trig, item: Item, t: Affine): Affine {
    if item.kind == Matrix && |item.args| < 6 then t else MatrixOf(trig, Completed(item))
  }

  /** nsvg__parseTransformArgs, on the numbers between the brackets: as many as there is room for. */
  method ParseTransformArgs(numbers: seq<real>, args: array<real>) returns (na: nat, ok: bool)
    modifies args
    ensures na == (if |numbers| < args.Length then |numbers| else args.Length) && (ok <==> |numbers| <= args.Length)
    ensures forall k :: 0 <= k < args.Length ==> args[k] == if k < na then numbers[k] else old(args[k])
  {
    na := 0;
    while na < |numbers|
      invariant na <= |numbers| && na <= args.Length
      invariant forall k :: 0 <= k < args.Length ==> args[k] == if k < na then numbers[k] else old(args[k])
    {
      if na >= args.Length {
        return na, false;
      }
      args[na] := numbers[na];
      na := na + 1;
    }
    return na, true;
  }

  method ParseMatrix(xform: array<real>, item: Item) returns (ok: bool)
    requires xform.Length == 6 && item.kind == Matrix
    modifies xform
    ensures ok <==> !PassedOver(item)
    ensures Mat(xform[..]) == if |item.args| < 6 then old(Mat(xform[..])) else Mat(item.args[..6])
  {
    var t := new real[6](i requires 0 <= i => item.stale(i));
    var na;
    na, ok := ParseTransformArgs(item.args, t);
    if na == 6 {
      CopyInto(xform, t);
    }
  }

  method ParseTwo(item: Item) returns (args: array<real>, na: nat, ok: bool)
    ensures fresh(args) && args.Length == 2 && (ok <==> |item.args| <= 2)
    ensures na == if |item.args| < 2 then |item.args| else 2
    ensures args[0] == (if item.args == [] then item.stale(0) else item.args[0])
    ensures args[1] == (if |item.args| < 2 then item.stale(1) else item.args[1])
  {
    args := new real[2](i requires 0 <= i => item.stale(i));
    na, ok := ParseTransformArgs(item.args, args);
  }

  method ParseTranslate(xform: array<real>, trig: Trig, item: Item) returns (ok: bool)
    requires xform.Length == 6 && item.kind == Translate
    modifies xform
    ensures Mat(xform[..]) == MatrixOf(trig, Completed(item)) && (ok <==> !PassedOver(item))
  {
    var args, na;
    args, na, ok := ParseTwo(item);
    if na == 1 { args[1] := 0.0; }
    XformSetTranslation(xform, args[0], args[1]);
  }

  method ParseScale(xform: array<real>, trig: Trig, item: Item) returns (ok: bool)
    requires xform.Length == 6 && item.kind == Scale
    modifies xform
    ensures Mat(xform[..]) == MatrixOf(trig, Completed(item)) && (ok <==> !PassedOver(item))
  {
    var args, na;
    args, na, ok := ParseTwo(item);
    if na == 1 { args[1] := args[0]; }
    xform[0], xform[1], xform[2], xform[3], xform[4], xform[5] := args[0], 0.0, 0.0, args[1], 0.0, 0.0;
  }

  method ParseSkew(xform: array<real>, trig: Trig, item: Item) returns (ok: bool)
    requires xform.Length == 6 && (item.kind == SkewX || item.kind == SkewY)
    modifies xform
    ensures Mat(xform[..]) == MatrixOf(trig, Completed(item)) && (ok <==> !PassedOver(item))
  {
    var args := new real[1](i requires 0 <= i => item.stale(i));
    var na;
    na, ok := ParseTransformArgs(item.args, args);
    var tan := trig.tan(args[0]);
    if item.kind == SkewX {
      xform[0], xform[1], xform[2], xform[3], xform[4], xform[5] := 1.0, 0.0, tan, 1.0, 0.0, 0.0;
    } else {
      xform[0], xform[1], xform[2], xform[3], xform[4], xform[5] := 1.0, tan, 0.0, 1.0, 0.0, 0.0;
    }
  }

  /** nsvg__parseRotate, for any number of arguments. */
  method ParseRotate(xform: array<real>, trig: Trig, item: Item) returns (ok: bool)
    requires xform.Length == 6 && item.kind == Rotate
    modifies xform
    ensures Mat(xform[..]) == MatrixOf(trig, Completed(item)) && (ok <==> !PassedOver(item))
  {
    var args := new real[3](i requires 0 <= i => item.stale(i));
    var na;
    na, ok := ParseTransformArgs(item.args, args);
    if na == 1 { args[1], args[2] := 0.0, 0.0; }
    RotateArgs(item, args[0], args[1], args[2], na);
    hide Completed;
    var m := RotateAbout(trig, args[0], args[1], args[2], na > 1);
    RotateMatrix(trig, Completed(item), args[0], args[1], args[2], na > 1);
    CopyInto(xform, m);
  }

  lemma RotateArgs(item: Item, a: real, x: real, y: real, na: nat)
    requires item.kind == Rotate && na == if |item.args| < 3 then |item.args| else 3
    requires a == (if na > 0 then item.args[0] else item.stale(0))
    requires na > 1 ==> x == item.args[1] && y == if na > 2 then item.args[2] else item.stale(2)
    ensures Completed(item).kind == Rotate && Completed(item).args == if na > 1 then [a, x, y] else [a]
  {
  }

  lemma RotateMatrix(trig: Trig, item: Item, a: real, x: real, y: real, about: bool)
    requires item.kind == Rotate && item.args == if about then [a, x, y] else [a]
    ensures MatrixOf(trig, item) == RotationAbout(trig, a, x, y, about)
  {
    hide Compose, Rotation, Translation;
  }

  function RotationAbout(trig: Trig, a: real, x: real, y: real, about: bool): Affine {
    if about then Compose(Compose(Compose(IDENTITY, Translation(-x, -y)), Rotation(trig, a)), Translation(x, y))
    else Compose(IDENTITY, Rotation(trig, a))
  }

  method RotateAbout(trig: Trig, a: real, x: real, y: real, about: bool) returns (m: array<real>)
    ensures fresh(m) && m.Length == 6 && Mat(m[..]) == RotationAbout(trig, a, x, y, about)
  {
    hide Compose, Rotation, Translation, Mat, Mix;
    m := new real[6];
    var t := new real[6];
    XformIdentity(m);
    if about {
      XformSetTranslation(t, -x, -y);
      XformMultiply(m, t);
    }
    XformSetRotation(t, trig, a);
    XformMultiply(m, t);
    if about {
      XformSetTranslation(t, x, y);
      XformMultiply(m, t);
    }
  }

  /** The nsvg__parse... function of one list item, whatever numbers it has. */
  method ParseItem(t: array<real>, trig: Trig, item: Item) returns (ok: bool)
    requires t.Length == 6
    modifies t
    ensures Mat(t[..]) == Left(trig, item, old(Mat(t[..]))) && (ok <==> !PassedOver(item))
  {
    if item.kind == Matrix {
      ok := ParseMatrix(t, item);
      return;
    }
    hide Completed, MatrixOf, PassedOver, Mat;
    match item.kind {
      case Translate => ok := ParseTranslate(t, trig, item);
      case Scale => ok := ParseScale(t, trig, item);
      case Rotate => ok := ParseRotate(t, trig, item);
      case SkewX => ok := ParseSkew(t, trig, item);
      case SkewY => ok := ParseSkew(t, trig, item);
    }
  }

  // ----- the whole list -----

  /** T1(T2(... Tn(p))), in section 7.6's terms. */
  function Chain(trig: Trig, items: seq<Item>, p: Pt): Pt
    requires forall i :: 0 <= i < |items| ==> WellFormed(items[i])
  {
    if items == [] then p else Moved(trig, items[0], Chain(trig, items[1..], p))
  }

  /** The same for matrices. */
  function Through(ms: seq<Affine>, p: Pt): Pt {
    if ms == [] then p else Apply(ms[0], Through(ms[1..], p))
  }

  lemma {:induction false} ThroughSnoc(ms: seq<Affine>, m: Affine, p: Pt)
    ensures Through(ms + [m], p) == Through(ms, Apply(m, p))
  {
    hide Apply;
    if ms == [] {
      assert ms + [m] == [m];
      assert Through([m][1..], p) == p;
    } else {
      ThroughSnoc(ms[1..], m, p);
      assert (ms + [m])[1..] == ms[1..] + [m] && (ms + [m])[0] == ms[0];
    }
  }

  /** The matrix in t after the list, when it held `unset` before. */
  function LastOf(trig: Trig, items: seq<Item>, unset: Affine): Affine {
    if items == [] then unset
    else Left(trig, items[|items| - 1], LastOf(trig, items[..|items| - 1], unset))
  }

  /** The matrices the list multiplies up: one for every function that is not passed over, where a matrix with too few
      numbers repeats what t held. */
  function Matrices(trig: Trig, items: seq<Item>, unset: Affine): seq<Affine> {
    if items == [] then []
    else
      Matrices(trig, items[..|items| - 1], unset) +
      (if PassedOver(items[|items| - 1]) then [] else [LastOf(trig, items, unset)])
  }

  ghost predicate Does(ms: seq<Affine>, m: Affine) {
    forall p :: Apply(m, p) == Through(ms, p)
  }

  lemma DoesNext(ms: seq<Affine>, m: Affine, t: Affine)
    requires Does(ms, m)
    ensures Does(ms + [t], Compose(t, m))
  {
    hide Compose, Apply;
    forall p ensures Apply(Compose(t, m), p) == Through(ms + [t], p) {
      ComposeApplies(t, m, p);
      ThroughSnoc(ms, t, p);
    }
  }

  /** The matrix a list of matrices comes to. */
  function Product(ms: seq<Affine>): Affine {
    if ms == [] then IDENTITY else Compose(ms[|ms| - 1], Product(ms[..|ms| - 1]))
  }

  lemma ProductNext(ms: seq<Affine>, t: Affine)
    ensures Product(ms + [t]) == Compose(t, Product(ms))
  {
    hide Compose;
    assert (ms + [t])[..|ms|] == ms;
  }

  lemma {:induction false} ProductDoes(ms: seq<Affine>)
    ensures Does(ms, Product(ms))
  {
    hide Compose, Does;
    if ms == [] {
      IdentityDoes();
    } else {
      var init, last := ms[..|ms| - 1], ms[|ms| - 1];
      ProductDoes(init);
      DoesNext(init, Product(init), last);
      assert ms == init + [last];
    }
  }

  /** nsvg__parseTransform, for any list of functions: the matrix is the product of those of the list, and takes every
      point through them, last one first. `unset` is what t held before anything was read into it. */
  method ParseTransform(xform: array<real>, trig: Trig, items: seq<Item>, unset: Affine)
    requires xform.Length == 6
    modifies xform
    ensures Mat(xform[..]) == Product(Matrices(trig, items, unset))
    ensures forall p :: Apply(Mat(xform[..]), p) == Through(Matrices(trig, items, unset), p)
  {
    hide Left, Compose, Apply, Mat, PassedOver;
    var t := new real[6];
    SetTo(t, unset);
    XformIdentity(xform);
    var i := 0;
    while i < |items|
      invariant 0 <= i <= |items| && fresh(t)
      invariant Mat(xform[..]) == Product(Matrices(trig, items[..i], unset))
      invariant Mat(t[..]) == LastOf(trig, items[..i], unset)
    {
      assert items[..i + 1][..i] == items[..i] && items[..i + 1][i] == items[i];
      ghost var ms := Matrices(trig, items[..i], unset);
      var ok := ParseItem(t, trig, items[i]);
      if ok {
        ProductNext(ms, Mat(t[..]));
        XformPremultiply(xform, t);
      } else {
        assert ms + [] == ms;
      }
      i := i + 1;
    }
    assert items[..|items|] == items;
    ProductDoes(Matrices(trig, items, unset));
  }

  // The contents the uninitialised array happens to have.
  method SetTo(t: array<real>, m: Affine)
    requires t.Length == 6
    modifies t
    ensures Mat(t[..]) == m
  {
    t[0], t[1], t[2], t[3], t[4], t[5] := m.a, m.b, m.c, m.d, m.e, m.f;
  }

  lemma IdentityDoes()
    ensures Does([], IDENTITY)
  {
    forall p ensures Apply(IDENTITY, p) == Through([], p) {
      IdentityApplies(p);
    }
  }

  lemma WellFormedLast(trig: Trig, items: seq<Item>, unset: Affine)
    requires items != [] && WellFormed(items[|items| - 1])
    ensures !PassedOver(items[|items| - 1])
    ensures LastOf(trig, items, unset) == MatrixOf(trig, items[|items| - 1])
  {
    hide Compose, Rotation, Translation;
  }

  /** For a well-formed list the matrices do what section 7.6 says, whatever was in uninitialised memory. */
  lemma {:induction false} WellFormedChain(trig: Trig, items: seq<Item>, unset: Affine, p: Pt)
    requires forall i :: 0 <= i < |items| ==> WellFormed(items[i])
    ensures Through(Matrices(trig, items, unset), p) == Chain(trig, items, p)
  {
    hide WellFormed, MatrixOf, Moved, Apply, PassedOver, LastOf;
    if items != [] {
      var init, last := items[..|items| - 1], items[|items| - 1];
      WellFormedLast(trig, items, unset);
      ThroughSnoc(Matrices(trig, init, unset), MatrixOf(trig, last), p);
      MatrixApplies(trig, last, p);
      WellFormedChain(trig, init, unset, Moved(trig, last, p));
      ChainSnoc(trig, init, last, p);
      assert items == init + [last];
    }
  }

  lemma {:induction false} ChainSnoc(trig: Trig, items: seq<Item>, item: Item, p: Pt)
    requires WellFormed(item) && forall i :: 0 <= i < |items| ==> WellFormed(items[i])
    ensures Chain(trig, items + [item], p) == Chain(trig, items, Moved(trig, item, p))
  {
    hide Moved, WellFormed;
    if items == [] {
      assert items + [item] == [item];
      assert Chain(trig, [item][1..], p) == p;
    } else {
      ChainSnoc(trig, items[1..], item, p);
      assert (items + [item])[1..] == items[1..] + [item] && (items + [item])[0] == items[0];
    }
  }

  /** A matrix with too few numbers is not ignored: "translate(x) matrix(1)" moves by 2x. */
  lemma ShortMatrixExample(trig: Trig, x: real, p: Pt, stale: nat -> real, unset: Affine)
    ensures Through(Matrices(trig, [Item(Translate, [x], stale), Item(Matrix, [1.0], stale)], unset), p)
         == Pt(p.x + 2.0 * x, p.y)
  {
    var shift, short := Item(Translate, [x], stale), Item(Matrix, [1.0], stale);
    var items := [shift, short];
    var m := Translation(x, 0.0);
    assert items[..1] == [shift] && [shift][..0] == [];
    assert LastOf(trig, [shift], unset) == m && LastOf(trig, items, unset) == m;
    assert Matrices(trig, [shift], unset) == [m] && Matrices(trig, items, unset) == [m, m];
    assert [m, m][1..] == [m] && [m][1..] == [];
    assert Through([m], p) == Pt(p.x + x, p.y);
  }

  /** A list a caller might take for harmless: "translate() scale(2, 2, 2)" moves by whatever was in memory, and does
      not scale. */
  lemma MissingAndSurplusExample(trig: Trig, p: Pt, stale: nat -> real, unset: Affine)
    ensures Through(Matrices(trig, [Item(Translate, [], stale), Item(Scale, [2.0, 2.0, 2.0], stale)], unset), p)
         == Pt(p.x + stale(0), p.y + stale(1))
  {
    var shift, surplus := Item(Translate, [], stale), Item(Scale, [2.0, 2.0, 2.0], stale);
    var items := [shift, surplus];
    var m := Translation(stale(0), stale(1));
    assert items[..1] == [shift] && [shift][..0] == [];
    assert LastOf(trig, [shift], unset) == m;
    assert PassedOver(surplus) && Matrices(trig, [shift], unset) == [m] && Matrices(trig, items, unset) == [m];
    assert [m][1..] == [];
  }

  // ----- when memory does not matter -----

  /** A number the code goes on with has not been read. */
  predicate Missing(item: Item) {
    (item.kind != Matrix && item.args == []) || (item.kind == Rotate && |item.args| == 2)
  }

  function MovedUp(stale: nat -> real): nat -> real {
    (n: nat) => stale(n) + 1.0
  }

  // Functions of the angle that tell angles, and the centres of rotations, apart.
  const ANGLES := Trig(x => 1.0, x => x, x => x)

  const QUARTER := Trig(x => 1.0, x => 0.0, x => 0.0)

  /** A function's matrix is the same whatever memory held if and only if none of its numbers is missing. */
  lemma LeftIsFixedIff(item: Item, t: Affine)
    ensures (forall trig, stale :: Left(trig, item.(stale := stale), t) == Left(trig, item, t)) <==> !Missing(item)
  {
    var other := item.(stale := MovedUp(item.stale));
    if Missing(item) {
      if item.kind == Rotate && |item.args| == 2 {
        CentreTells(item.args[0], item.args[1], item.stale(2));
        assert Completed(item).args == item.args + [item.stale(2)];
        assert Completed(other).args == item.args + [item.stale(2) + 1.0];
        assert Left(QUARTER, other, t) != Left(QUARTER, item, t);
      } else {
        AngleTells(item.stale(0));
        hide Compose;
        assert Left(ANGLES, other, t) != Left(ANGLES, item, t);
      }
    } else {
      forall trig, stale ensures Left(trig, item.(stale := stale), t) == Left(trig, item, t) {
        hide Compose, Rotation, Translation;
        assert TooFew(item) || Completed(item.(stale := stale)).args == Completed(item).args;
      }
    }
  }

  lemma CentreTells(a: real, x: real, y: real)
    ensures var m, n := RotationAbout(QUARTER, a, x, y, true), RotationAbout(QUARTER, a, x, y + 1.0, true);
            m.e == x + y && n.e == x + y + 1.0
  {
  }

  lemma AngleTells(a: real)
    ensures RotationAbout(ANGLES, a, 0.0, 0.0, false).a == a
    ensures RotationAbout(ANGLES, a + 1.0, 0.0, 0.0, false).a == a + 1.0
  {
  }

  /** The same functions and numbers, over memory that held something else. */
  predicate SameText(items: seq<Item>, others: seq<Item>) {
    |items| == |others| &&
    forall i :: 0 <= i < |items| ==> items[i].kind == others[i].kind && items[i].args == others[i].args
  }

  // No number is missing, and there is a function for a matrix with too few numbers to repeat.
  predicate NothingMissing(items: seq<Item>) {
    (forall i :: 0 <= i < |items| ==> !Missing(items[i])) && (items != [] ==> !TooFew(items[0]))
  }

  predicate TooFew(item: Item) {
    item.kind == Matrix && |item.args| < 6
  }

  ghost predicate SameMatrices(trig: Trig, items: seq<Item>, unset: Affine, others: seq<Item>, unset': Affine) {
    SameText(items, others) ==> Matrices(trig, items, unset) == Matrices(trig, others, unset')
  }

  /** What a list of functions multiplies up does not depend on uninitialised memory if and only if no function misses a
      number and the first one is no matrix with too few. Functions with too many numbers do no harm. */
  lemma MatricesAreFixedIff(items: seq<Item>)
    ensures (forall trig, unset, others, unset' :: SameMatrices(trig, items, unset, others, unset')) <==>
            NothingMissing(items)
  {
    hide Matrices, Missing, SameText;
    if NothingMissing(items) {
      forall trig, unset, others, unset' ensures SameMatrices(trig, items, unset, others, unset') {
        if SameText(items, others) {
          FixedMatrices(trig, items, unset, others, unset');
        }
      }
    } else if items != [] && TooFew(items[0]) {
      var u, v := IDENTITY, IDENTITY.(e := 1.0);
      FirstMatrix(ANGLES, items, u);
      FirstMatrix(ANGLES, items, v);
      SameTextAsItself(items);
      assert !SameMatrices(ANGLES, items, u, items, v);
    } else {
      var i :| 0 <= i < |items| && Missing(items[i]);
      var trig, others := Different(items, i);
      assert !SameMatrices(trig, items, IDENTITY, others, IDENTITY);
    }
  }

  lemma SameTextAsItself(items: seq<Item>)
    ensures SameText(items, items)
  {
  }

  lemma {:induction false} FixedMatrices(trig: Trig, items: seq<Item>, unset: Affine, others: seq<Item>, unset': Affine)
    requires NothingMissing(items) && SameText(items, others)
    ensures items != [] ==> LastOf(trig, items, unset) == LastOf(trig, others, unset')
    ensures Matrices(trig, items, unset) == Matrices(trig, others, unset')
  {
    if items != [] {
      var n := |items| - 1;
      var init, init' := items[..n], others[..n];
      assert items[n].kind == others[n].kind && items[n].args == others[n].args && !Missing(items[n]);
      hide Left, Missing, TooFew, PassedOver;
      assert NothingMissing(init) by {
        if init != [] { assert init[0] == items[0]; }
      }
      FixedMatrices(trig, init, unset, init', unset');
      SameLeft(trig, items[n], others[n], LastOf(trig, init, unset), LastOf(trig, init', unset'));
      assert PassedOver(items[n]) == PassedOver(others[n]) by { SamePassed(items[n], others[n]); }
    }
  }

  lemma SamePassed(item: Item, other: Item)
    requires item.kind == other.kind && item.args == other.args
    ensures PassedOver(item) == PassedOver(other)
  {
  }

  lemma SameLeft(trig: Trig, item: Item, other: Item, t: Affine, t': Affine)
    requires item.kind == other.kind && item.args == other.args && !Missing(item) && (TooFew(item) ==> t == t')
    ensures Left(trig, item, t) == Left(trig, other, t')
  {
    LeftIsFixedIff(item, t);
    assert other == item.(stale := other.stale);
    assert Left(trig, item.(stale := other.stale), t) == Left(trig, item, t);
  }

  lemma {:induction false} MatricesOfPrefix(trig: Trig, items: seq<Item>, unset: Affine, n: nat)
    requires n <= |items|
    ensures Matrices(trig, items[..n], unset) <= Matrices(trig, items, unset)
    decreases |items|
  {
    hide LastOf, PassedOver;
    if n == |items| {
      assert items[..n] == items;
    } else {
      MatricesOfPrefix(trig, items[..|items| - 1], unset, n);
      assert items[..|items| - 1][..n] == items[..n];
    }
  }

  /** Where in the product the i-th function's matrix stands. */
  lemma MatrixAtPlace(trig: Trig, items: seq<Item>, unset: Affine, i: nat)
    requires i < |items| && !PassedOver(items[i])
    ensures var ms, k := Matrices(trig, items, unset), |Matrices(trig, items[..i], unset)|;
            k < |ms| && ms[k] == Left(trig, items[i], LastOf(trig, items[..i], unset))
  {
    var upTo := items[..i + 1];
    assert upTo[..i] == items[..i] && upTo[|upTo| - 1] == items[i];
    assert Matrices(trig, upTo, unset) == Matrices(trig, items[..i], unset) + [LastOf(trig, upTo, unset)];
    hide Left, PassedOver;
    assert LastOf(trig, upTo, unset) == Left(trig, items[i], LastOf(trig, items[..i], unset));
    MatricesOfPrefix(trig, items, unset, i + 1);
  }

  lemma FirstMatrix(trig: Trig, items: seq<Item>, unset: Affine)
    requires items != [] && TooFew(items[0])
    ensures var ms := Matrices(trig, items, unset); ms != [] && ms[0] == unset
  {
    MatrixAtPlace(trig, items, unset, 0);
    assert items[..0] == [];
  }

  /** Memory that makes a missing number tell. */
  lemma Different(items: seq<Item>, i: nat) returns (trig: Trig, others: seq<Item>)
    requires i < |items| && Missing(items[i])
    ensures SameText(items, others) && Matrices(trig, items, IDENTITY) != Matrices(trig, others, IDENTITY)
  {
    assert !PassedOver(items[i]);
    LeftIsFixedIff(items[i], IDENTITY);
    hide Left, PassedOver, Missing, Matrices, LastOf;
    var stale;
    trig, stale :| Left(trig, items[i].(stale := stale), IDENTITY) != Left(trig, items[i], IDENTITY);
    var other := items[i].(stale := stale);
    others := items[i := other];
    var t := LastOf(trig, items[..i], IDENTITY);
    MissingIgnores(trig, items[i], stale, IDENTITY, t);
    SamePassed(items[i], other);
    assert others[..i] == items[..i] && others[i] == other;
    MatrixAtPlace(trig, items, IDENTITY, i);
    MatrixAtPlace(trig, others, IDENTITY, i);
  }

  // What t held is of no account to a function with a missing number.
  lemma MissingIgnores(trig: Trig, item: Item, stale: nat -> real, t: Affine, t': Affine)
    requires Missing(item)
    ensures Left(trig, item, t) == Left(trig, item, t')
    ensures Left(trig, item.(stale := stale), t) == Left(trig, item.(stale := stale), t')
  {
    hide MatrixOf, Completed;
  }

  // ----- inverse -----

  function Det(m: Affine): real {
    m.a * m.d - m.c * m.b
  }

  predicate Regular(m: Affine) {
    !(-0.000001 < Det(m) < 0.000001)
  }

  function InverseOf(m: Affine): Affine
    requires Regular(m)
  {
    var k := 1.0 / Det(m);
    Affine(m.d * k, -m.b * k, -m.c * k, m.a * k, (m.c * m.f - m.d * m.e) * k, (m.b * m.e - m.a * m.f) * k)
  }

  /** nsvg__xformInverse: a singular t is itself overwritten with the identity, and inv is left as it was. */
  method XformInverse(inv: array<real>, t: array<real>)
    requires inv.Length == 6 && t.Length == 6 && inv != t
    modifies inv, t
    ensures Regular(old(Mat(t[..]))) ==> Mat(inv[..]) == InverseOf(old(Mat(t[..]))) && Mat(t[..]) == old(Mat(t[..]))
    ensures !Regular(old(Mat(t[..]))) ==> Mat(inv[..]) == old(Mat(inv[..])) && Mat(t[..]) == IDENTITY
  {
    var det := t[0] * t[3] - t[2] * t[1];
    assert det == Det(Mat(t[..]));
    if det > -0.000001 && det < 0.000001 {
      XformIdentity(t);
      return;
    }
    var invdet := 1.0 / det;
    inv[0] := t[3] * invdet;
    inv[2] := -t[2] * invdet;
    inv[4] := (t[2] * t[5] - t[3] * t[4]) * invdet;
    inv[1] := -t[1] * invdet;
    inv[3] := t[0] * invdet;
    inv[5] := (t[1] * t[4] - t[0] * t[5]) * invdet;
  }

  // A row times a column whose entries share the factor k.
  lemma Scaled(x: real, y: real, u: real, v: real, k: real, uk: real, vk: real)
    requires uk == u * k && vk == v * k
    ensures x * uk + y * vk == (x * u + y * v) * k
  {
    assert x * (u * k) == (x * u) * k && y * (v * k) == (y * v) * k;
  }

  predicate CofactorsOf(m: Affine, k: real, i: Affine) {
    Det(m) * k == 1.0 &&
    i == Affine(m.d * k, -m.b * k, -m.c * k, m.a * k, (m.c * m.f - m.d * m.e) * k, (m.b * m.e - m.a * m.f) * k)
  }

  lemma Cofactors(m: Affine, k: real, i: Affine)
    requires CofactorsOf(m, k, i)
    ensures Compose(m, i) == IDENTITY && Compose(i, m) == IDENTITY
  {
    RightInverse(m, k, i);
    LeftInverse(m, k, i);
  }

  lemma RightInverse(m: Affine, k: real, i: Affine)
    requires CofactorsOf(m, k, i)
    ensures Compose(m, i) == IDENTITY
  {
    RightLinear(m, k, i);
    Scaled(m.e, m.f, m.d, -m.c, k, i.a, i.c);
    Scaled(m.e, m.f, -m.b, m.a, k, i.b, i.d);
    hide CofactorsOf;
  }

  lemma RightLinear(m: Affine, k: real, i: Affine)
    requires CofactorsOf(m, k, i)
    ensures m.a * i.a + m.b * i.c == 1.0 && m.a * i.b + m.b * i.d == 0.0
    ensures m.c * i.a + m.d * i.c == 0.0 && m.c * i.b + m.d * i.d == 1.0
  {
    Scaled(m.a, m.b, m.d, -m.c, k, i.a, i.c);
    Scaled(m.a, m.b, -m.b, m.a, k, i.b, i.d);
    Scaled(m.c, m.d, m.d, -m.c, k, i.a, i.c);
    Scaled(m.c, m.d, -m.b, m.a, k, i.b, i.d);
  }

  lemma LeftInverse(m: Affine, k: real, i: Affine)
    requires CofactorsOf(m, k, i)
    ensures Compose(i, m) == IDENTITY
  {
    LeftLinear(m, k, i);
    LastColumn(m.a, m.c, m.e, m, k, i);
    LastColumn(m.b, m.d, m.f, m, k, i);
    hide CofactorsOf;
  }

  lemma LeftLinear(m: Affine, k: real, i: Affine)
    requires CofactorsOf(m, k, i)
    ensures i.a * m.a + i.b * m.c == 1.0 && i.a * m.b + i.b * m.d == 0.0
    ensures i.c * m.a + i.d * m.c == 0.0 && i.c * m.b + i.d * m.d == 1.0
  {
    Scaled(m.a, m.c, m.d, -m.b, k, i.a, i.b);
    Scaled(m.b, m.d, m.d, -m.b, k, i.a, i.b);
    Scaled(m.a, m.c, -m.c, m.a, k, i.c, i.d);
    Scaled(m.b, m.d, -m.c, m.a, k, i.c, i.d);
  }

  // The translation part of i followed by m, for either coordinate.
  lemma LastColumn(u: real, v: real, w: real, m: Affine, k: real, i: Affine)
    requires Det(m) * k == 1.0 && ((u == m.a && v == m.c && w == m.e) || (u == m.b && v == m.d && w == m.f))
    requires i.e == (m.c * m.f - m.d * m.e) * k && i.f == (m.b * m.e - m.a * m.f) * k
    ensures u * i.e + v * i.f + w == 0.0
  {
    var p, q := m.c * m.f - m.d * m.e, m.b * m.e - m.a * m.f;
    Scaled(u, v, p, q, k, i.e, i.f);
    assert u * p + v * q == -Det(m) * w;
    assert -Det(m) * w * k == -w * (Det(m) * k);
  }

  /** The inverse of a regular transform undoes it, before and after. */
  lemma InverseUndoes(m: Affine, p: Pt)
    requires Regular(m)
    ensures Apply(InverseOf(m), Apply(m, p)) == p
    ensures Apply(m, Apply(InverseOf(m), p)) == p
  {
    var det := Det(m);
    var k := 1.0 / det;
    assert det * k == 1.0;
    Cofactors(m, k, InverseOf(m));
    hide Det, InverseOf, CofactorsOf;
    ComposeApplies(m, InverseOf(m), p);
    ComposeApplies(InverseOf(m), m, p);
    IdentityApplies(p);
  }

  /** Determinants multiply, so one singular function makes the whole attribute singular. */
  lemma DetComposes(t: Affine, s: Affine)
    ensures Det(Compose(t, s)) == Det(t) * Det(s)
  {
    var m := Compose(t, s);
    assert m.a == t.a * s.a + t.b * s.c && m.b == t.a * s.b + t.b * s.d;
    assert m.c == t.c * s.a + t.d * s.c && m.d == t.c * s.b + t.d * s.d;
    var e, f := Det(t), Det(s);
    DetExpand(t.a, t.b, t.c, t.d, s.a, s.b, s.c, s.d, m.a, m.b, m.c, m.d, e, f);
    hide Compose;
  }

  lemma DetExpand(a: real, b: real, c: real, d: real, x: real, y: real, z: real, w: real, p: real, q: real, r: real,
                  u: real, e: real, f: real)
    requires p == a * x + b * z && q == a * y + b * w && r == c * x + d * z && u == c * y + d * w
    requires e == a * d - c * b && f == x * w - z * y
    ensures p * u - r * q == e * f
  {
    SumsTimes(a, x, b, z, c, y, d, w);
    SumsTimes(c, x, d, z, a, y, b, w);
    Differences(e, f, a * d, c * b, x * w, z * y);
  }

  lemma Differences(e: real, f: real, k: real, l: real, m: real, n: real)
    requires e == k - l && f == m - n
    ensures e * f == k * m - k * n - l * m + l * n
  {
  }

  lemma SumsTimes(a: real, x: real, b: real, z: real, c: real, y: real, d: real, w: real)
    ensures (a * x + b * z) * (c * y + d * w)
         == a * x * (c * y) + a * x * (d * w) + b * z * (c * y) + b * z * (d * w)
  {
    var k, l, m, n := a * x, b * z, c * y, d * w;
    assert (k + l) * (m + n) == k * m + k * n + l * m + l * n;
  }

  /** The inverse of scale(sx, sy) fails exactly for scales whose product is below a millionth, zero among them. */
  lemma ScaleIsRegularIff(trig: Trig, item: Item)
    requires item.kind == Scale && WellFormed(item)
    ensures var sx := item.args[0];
            var sy := if |item.args| == 1 then sx else item.args[1];
            Regular(MatrixOf(trig, item)) <==> sx * sy >= 0.000001 || sx * sy <= -0.000001
  {
  }

  lemma ZeroScale(trig: Trig, item: Item, t: Affine)
    requires item.kind == Scale && item.args == [0.0]
    ensures !PassedOver(item) && Det(Left(trig, item, t)) == 0.0
  {
    assert Completed(item).args == [0.0];
  }

  /** With "scale(0)" anywhere in a transform attribute the whole of it is singular. */
  lemma ZeroScaleIsSingular(trig: Trig, items: seq<Item>, unset: Affine, i: nat)
    requires i < |items| && items[i].kind == Scale && items[i].args == [0.0]
    ensures !Regular(Product(Matrices(trig, items, unset)))
  {
    hide Matrices, LastOf, PassedOver, Left, Product, Det;
    ZeroScale(trig, items[i], LastOf(trig, items[..i], unset));
    MatrixAtPlace(trig, items, unset, i);
    ProductIsSingular(Matrices(trig, items, unset), |Matrices(trig, items[..i], unset)|);
  }

  lemma {:induction false} ProductIsSingular(ms: seq<Affine>, k: nat)
    requires k < |ms| && Det(ms[k]) == 0.0
    ensures Det(Product(ms)) == 0.0
  {
    hide Compose, Det;
    var n := |ms| - 1;
    DetComposes(ms[n], Product(ms[..n]));
    if k < n {
      ProductIsSingular(ms[..n], k);
      assert ms[..n][k] == ms[k];
    }
  }
}
