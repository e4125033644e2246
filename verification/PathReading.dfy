/** How path data is read, told by the text alone (src/External/nanosvg/nanosvg.h; section 8.3 of SVG 1.1): where the
    text may be cut, that subpaths do not touch each other, and what each command draws from the numbers behind it. */
module PathReading {
  import opened Edges
  import opened Flatten
  import opened PathItems
  import opened PathBuilder
  import Transform

  // ----- where the text may be cut -----

  /** What follows a text does not run on into its last number: b begins with no digit, sign, point or exponent, and
      does not turn a trailing e into the unit "em" or "ex". */
  predicate Separate(a: string, b: string) {
    b != "" && !StartsNumber(b[0]) && b[0] != 'e' && b[0] != 'E' &&
    (b[0] == 'm' || b[0] == 'x' ==> a == "" || (a[|a| - 1] != 'e' && a[|a| - 1] != 'E'))
  }

  lemma {:induction false} DigitsEndBefore(a: string, b: string, k: nat)
    requires k <= |a| && b != "" && !IsDigit(b[0])
    ensures DigitsEnd(a + b, k) == DigitsEnd(a, k)
    decreases |a| - k
  {
    if k < |a| && IsDigit(a[k]) {
      DigitsEndBefore(a, b, k + 1);
    }
  }

  lemma SignEndBefore(a: string, b: string, k: nat)
    requires k <= |a| && b != "" && !StartsNumber(b[0])
    ensures SignEnd(a + b, k) == SignEnd(a, k)
  {
  }

  lemma FractionEndBefore(a: string, b: string, k: nat)
    requires k <= |a| && b != "" && !StartsNumber(b[0])
    ensures FractionEnd(a + b, k) == FractionEnd(a, k)
  {
    if k < |a| {
      DigitsEndBefore(a, b, k + 1);
    }
  }

  lemma ExponentEndBefore(a: string, b: string, k: nat)
    requires k <= |a| && Separate(a, b)
    ensures ExponentEnd(a + b, k) == ExponentEnd(a, k)
  {
    hide DigitsEnd;
    if k < |a| {
      SignEndBefore(a, b, k + 1);
      DigitsEndBefore(a, b, SignEnd(a, k + 1));
    }
  }

  lemma NumberEndBefore(a: string, b: string)
    requires Separate(a, b)
    ensures NumberEnd(a + b) == NumberEnd(a)
  {
    hide ExponentEnd, FractionEnd, DigitsEnd, SignEnd;
    SignEndBefore(a, b, 0);
    DigitsEndBefore(a, b, SignEnd(a, 0));
    FractionEndBefore(a, b, DigitsEnd(a, SignEnd(a, 0)));
    ExponentEndBefore(a, b, FractionEnd(a, DigitsEnd(a, SignEnd(a, 0))));
  }

  lemma {:induction false} BlanksBefore(a: string, b: string)
    ensures SkipBlanks(a + b) == if SkipBlanks(a) == "" then SkipBlanks(b) else SkipBlanks(a) + b
  {
    if a == "" {
      assert a + b == b;
    } else if IsBlank(a[0]) {
      assert (a + b)[1..] == a[1..] + b;
      BlanksBefore(a[1..], b);
    }
  }

  /** The item at which a reader is. */
  function ItemAt(s: string, flag: bool): (r: (string, string)) {
    if flag then NextFlagOrItem(s) else NextItem(s)
  }

  lemma SeparateRest(a: string, rest: string, b: string)
    requires Separate(a, b) && |rest| <= |a| && rest == a[|a| - |rest|..]
    ensures Separate(rest, b)
  {
  }

  lemma NumberBefore(t: string, b: string)
    requires Separate(t, b)
    ensures NumberEnd(t + b) == NumberEnd(t)
    ensures (t + b)[NumberEnd(t)..] == t[NumberEnd(t)..] + b && Clipped(t + b, NumberEnd(t)) == Clipped(t, NumberEnd(t))
  {
    NumberEndBefore(t, b);
    hide NumberEnd;
    var e := NumberEnd(t);
    assert (t + b)[..e] == t[..e];
    assert e > ITEM_SIZE ==> (t + b)[..ITEM_SIZE] == t[..ITEM_SIZE];
  }

  // What an item is, once the blanks before it are skipped.
  function TakenFrom(t: string, flag: bool): (string, string) {
    if t == "" then ("", "")
    else if flag && (t[0] == '0' || t[0] == '1') then (t[..1], t[1..])
    else if StartsNumber(t[0]) then (Clipped(t, NumberEnd(t)), t[NumberEnd(t)..])
    else (t[..1], t[1..])
  }

  lemma NextIsTaken(s: string)
    ensures NextItem(s) == TakenFrom(SkipBlanks(s), false)
  {
    hide NumberEnd, Clipped, SkipBlanks;
  }

  lemma FlagIsTaken(s: string)
    ensures NextFlagOrItem(s) == TakenFrom(SkipBlanks(s), true)
  {
    var t := SkipBlanks(s);
    BlanksSkipped(s);
    NextIsTaken(t);
    hide NumberEnd, Clipped, SkipBlanks, NextItem;
  }

  lemma ItemIsTaken(s: string, flag: bool)
    ensures ItemAt(s, flag) == TakenFrom(SkipBlanks(s), flag)
    ensures ItemAt(s, flag).0 == "" <==> SkipBlanks(s) == ""
  {
    NextIsTaken(s);
    FlagIsTaken(s);
    hide TakenFrom, SkipBlanks, NextItem, NextFlagOrItem;
  }

  lemma TakenBefore(t: string, b: string, flag: bool)
    requires Separate(t, b) && t != ""
    ensures var (item, rest) := TakenFrom(t, flag);
            TakenFrom(t + b, flag) == (item, rest + b) && |rest| < |t| && rest == t[|t| - |rest|..]
  {
    hide NumberEnd, Clipped;
    NumberBefore(t, b);
    assert (t + b)[..1] == t[..1] && (t + b)[1..] == t[1..] + b;
  }

  /** The next item is the same whatever follows separately; where there is none, it is the first one of what follows.
      */
  lemma ItemBefore(a: string, b: string, flag: bool)
    requires Separate(a, b)
    ensures var (item, rest) := ItemAt(a, flag);
            if item == "" then ItemAt(a + b, flag) == ItemAt(b, flag)
            else ItemAt(a + b, flag) == (item, rest + b) && |rest| < |a| && rest == a[|a| - |rest|..]
  {
    hide SkipBlanks, Separate, ItemAt, TakenFrom;
    var t := SkipBlanks(a);
    BlanksBefore(a, b);
    ItemIsTaken(a, flag);
    ItemIsTaken(b, flag);
    ItemIsTaken(a + b, flag);
    if t != "" {
      SeparateRest(a, t, b);
      TakenBefore(t, b, flag);
      TailOfTail(a, t, TakenFrom(t, flag).1);
    }
  }

  lemma TailOfTail(a: string, t: string, rest: string)
    requires |rest| < |t| <= |a| && t == a[|a| - |t|..] && rest == t[|t| - |rest|..]
    ensures |rest| < |a| && rest == a[|a| - |rest|..]
  {
  }

  /** Reading two separate texts in one go is reading one after the other. */
  lemma {:induction false} ReadInTurn(w: World, m: Transform.Affine, r: Reader, a: string, b: string)
    requires ReaderOk(r) && Separate(a, b)
    ensures AllRead(w, m, r, a + b) == AllRead(w, m, AllRead(w, m, r, a), b)
    decreases |a|
  {
    hide ItemRead, ItemAt, ReaderOk, Separate, FlagDue, AllRead;
    ItemBefore(a, b, FlagDue(r));
    OneItem(w, m, r, a);
    OneItem(w, m, r, b);
    OneItem(w, m, r, a + b);
    var (item, rest) := ItemAt(a, FlagDue(r));
    if item != "" {
      SeparateRest(a, rest, b);
      ReadInTurn(w, m, ItemRead(w, m, r, item), rest, b);
    }
  }

  lemma OneItem(w: World, m: Transform.Affine, r: Reader, s: string)
    requires ReaderOk(r)
    ensures var (item, rest) := ItemAt(s, FlagDue(r));
            if item == "" then AllRead(w, m, r, s) == r
            else s != "" && AllRead(w, m, r, s) == AllRead(w, m, ItemRead(w, m, r, item), rest)
  {
    hide ItemRead, FlagDue, SkipBlanks, NumberEnd, Clipped;
  }

  lemma LetterRead(w: World, m: Transform.Affine, r: Reader, s: string, item: string, rest: string)
    requires ReaderOk(r) && ItemAt(s, FlagDue(r)) == (item, rest) && item != "" && !IsCoordinate(item)
    ensures AllRead(w, m, r, s) == AllRead(w, m, CommandRead(m, r, item[0]), rest)
  {
    OneItem(w, m, r, s);
    hide ItemAt, FlagDue, IsCoordinate, AllRead, CommandRead, ReaderOk;
  }

  lemma CoordinateRead(w: World, m: Transform.Affine, r: Reader, s: string, item: string, rest: string)
    requires ReaderOk(r) && r.cmd != NO_COMMAND && ItemAt(s, FlagDue(r)) == (item, rest) && IsCoordinate(item)
    ensures AllRead(w, m, r, s) == AllRead(w, m, NumberRead(w, r, w.atof(item)), rest)
  {
    OneItem(w, m, r, s);
    CoordinateIsItem(item);
    hide ItemAt, FlagDue, IsCoordinate, AllRead, NumberRead, ReaderOk;
  }

  lemma CoordinateIsItem(item: string)
    requires IsCoordinate(item)
    ensures item != ""
  {
  }

  // ----- numbers are read whole -----

  /** A number as section 8.3.9 of SVG 1.1 writes it: an optional sign, digits, an optional fraction, an optional
      exponent. */
  datatype Numeral = Numeral(sign: string, digits: string, fraction: string, exponent: string)

  predicate AllDigits(s: string) {
    forall i :: 0 <= i < |s| ==> '0' <= s[i] <= '9'
  }

  predicate AllBlanks(s: string) {
    forall i :: 0 <= i < |s| ==> s[i] == ' ' || s[i] == ',' || s[i] == '\t' || s[i] == '\n' || s[i] == '\r'
  }

  predicate IsSign(s: string) {
    s == "" || s == "+" || s == "-"
  }

  ghost predicate GoodNumeral(n: Numeral) {
    IsSign(n.sign) && AllDigits(n.digits) && IsFraction(n.fraction) && IsExponent(n.exponent)
  }

  predicate IsFraction(s: string) {
    s == "" || (s[0] == '.' && AllDigits(s[1..]))
  }

  predicate IsExponent(s: string) {
    s == "" || ((s[0] == 'e' || s[0] == 'E') &&
                (AllDigits(s[1..]) || (|s| > 1 && (s[1] == '+' || s[1] == '-') && AllDigits(s[2..]))))
  }

  function TextOf(n: Numeral): string {
    n.sign + n.digits + n.fraction + n.exponent
  }

  predicate StopsDigits(b: string) {
    b == "" || !IsDigit(b[0])
  }

  lemma {:induction false} DigitsRun(a: string, ds: string, b: string)
    requires AllDigits(ds) && StopsDigits(b)
    ensures DigitsEnd(a + ds + b, |a|) == |a| + |ds|
    decreases |ds|
  {
    if ds == "" {
      assert a + ds + b == a + b;
    } else {
      DigitsRun(a + [ds[0]], ds[1..], b);
      assert a + [ds[0]] + ds[1..] + b == a + ds + b;
    }
  }

  lemma FractionRun(a: string, f: string, b: string)
    requires IsFraction(f) && StopsDigits(b) && (f == "" && b != "" ==> b[0] != '.')
    ensures FractionEnd(a + f + b, |a|) == |a| + |f|
  {
    if f == "" {
      assert a + f + b == a + b;
    } else {
      DigitsRun(a + ".", f[1..], b);
      assert a + "." + f[1..] + b == a + f + b;
    }
  }

  lemma ExponentRun(a: string, e: string)
    requires IsExponent(e)
    ensures ExponentEnd(a + e, |a|) == |a| + |e|
  {
    if e != "" {
      var s := a + e;
      assert |a| + 1 < |s| ==> s[|a| + 1] == e[1];
      if AllDigits(e[1..]) {
        DigitsRun(a + e[..1], e[1..], "");
        assert a + e[..1] + e[1..] + "" == s;
        assert SignEnd(s, |a| + 1) == |a| + 1;
      } else {
        DigitsRun(a + e[..2], e[2..], "");
        assert a + e[..2] + e[2..] + "" == s;
        assert SignEnd(s, |a| + 1) == |a| + 2;
      }
    }
  }

  lemma SignRun(n: Numeral)
    requires GoodNumeral(n)
    ensures SignEnd(TextOf(n), 0) == |n.sign|
  {
    var s := TextOf(n);
    if n.sign == "" && s != "" {
      if n.digits != "" {
        assert s[0] == n.digits[0];
      } else if n.fraction != "" {
        assert s[0] == n.fraction[0];
      } else {
        assert s[0] == n.exponent[0];
      }
    }
  }

  lemma NumeralEnds(n: Numeral)
    requires GoodNumeral(n)
    ensures NumberEnd(TextOf(n)) == |TextOf(n)|
  {
    hide DigitsEnd, FractionEnd, ExponentEnd, SignEnd, AllDigits;
    SignRun(n);
    var whole := n.sign + n.digits;
    DigitsRun(n.sign, n.digits, n.fraction + n.exponent);
    assert n.sign + n.digits + (n.fraction + n.exponent) == TextOf(n);
    FractionRun(whole, n.fraction, n.exponent);
    ExponentRun(whole + n.fraction, n.exponent);
  }

  /** A number is read whole, however it is written and whatever follows it separately, though only its first 63
      characters are kept. */
  lemma NumeralIsRead(blanks: string, n: Numeral, rest: string)
    requires GoodNumeral(n) && n.digits + n.fraction != ""
    requires AllBlanks(blanks) && (rest == "" || Separate(TextOf(n), rest))
    ensures var t := TextOf(n);
            NextItem(blanks + t + rest) == (if |t| <= 63 then t else t[..63], rest)
  {
    hide NumberEnd, SkipBlanks, NextItem, Separate, StartsNumber, AllBlanks, GoodNumeral, TextOf;
    var t := TextOf(n);
    NumeralEnds(n);
    NumeralStarts(n);
    NextOfNumeral(blanks, t, rest);
    assert t[..|t|] == t;
  }

  lemma NumeralStarts(n: Numeral)
    requires GoodNumeral(n) && n.digits + n.fraction != ""
    ensures TextOf(n) != "" && StartsNumber(TextOf(n)[0])
  {
  }

  lemma NextOfNumeral(blanks: string, t: string, rest: string)
    requires t != "" && StartsNumber(t[0]) && NumberEnd(t) == |t|
    requires AllBlanks(blanks) && (rest == "" || Separate(t, rest))
    ensures NextItem(blanks + t + rest) == (Clipped(t, |t|), rest)
  {
    hide NumberEnd, SkipBlanks, NextItem, TakenFrom, AllBlanks, StartsNumber;
    var text := t + rest;
    assert blanks + t + rest == blanks + text;
    BlanksGone(blanks, text);
    NextIsTaken(blanks + text);
    NumeralTaken(t, rest);
  }

  lemma NothingSkipped(s: string)
    requires s != "" && StartsNumber(s[0])
    ensures SkipBlanks(s) == s
  {
  }

  lemma NumeralTaken(t: string, rest: string)
    requires t != "" && StartsNumber(t[0]) && NumberEnd(t) == |t| && (rest == "" || Separate(t, rest))
    ensures TakenFrom(t + rest, false) == (Clipped(t, |t|), rest)
  {
    if rest == "" {
      assert t + rest == t;
    } else {
      NumberEndBefore(t, rest);
    }
    hide NumberEnd, Separate;
    assert (t + rest)[..|t|] == t && (t + rest)[|t|..] == rest && t[..|t|] == t;
    assert |t| > ITEM_SIZE ==> (t + rest)[..ITEM_SIZE] == t[..ITEM_SIZE];
  }

  lemma {:induction false} AllBlank(s: string)
    requires AllBlanks(s)
    ensures SkipBlanks(s) == ""
  {
    if s != "" { AllBlank(s[1..]); }
  }

  /** Where a flag of an arc is due, a 0 or a 1 is an item of its own, whatever is written behind it. */
  lemma FlagIsRead(blanks: string, flag: char, rest: string)
    requires AllBlanks(blanks) && (flag == '0' || flag == '1')
    ensures NextFlagOrItem(blanks + [flag] + rest) == ([flag], rest)
  {
    var text := [flag] + rest;
    assert blanks + [flag] + rest == blanks + text;
    assert StartsNumber(text[0]);
    hide SkipBlanks, NextFlagOrItem, AllBlanks, TakenFrom, StartsNumber;
    FlagTaken(flag, rest);
    BlanksGone(blanks, text);
    FlagIsTaken(blanks + text);
  }

  lemma BlanksGone(blanks: string, text: string)
    requires AllBlanks(blanks) && text != "" && StartsNumber(text[0])
    ensures SkipBlanks(blanks + text) == text
  {
    hide SkipBlanks, AllBlanks, StartsNumber;
    AllBlank(blanks);
    BlanksBefore(blanks, text);
    NothingSkipped(text);
  }

  lemma FlagTaken(flag: char, rest: string)
    requires flag == '0' || flag == '1'
    ensures TakenFrom([flag] + rest, true) == ([flag], rest)
  {
    hide NumberEnd, Clipped;
    var text := [flag] + rest;
    assert text[0] == flag && text[..1] == [flag] && text[1..] == rest;
  }

  // ----- subpaths -----

  function MovetoLetter(rel: bool): char {
    if rel then 'm' else 'M'
  }

  /** The text is a moveto, an M or an m and the two numbers x and y, with `rest` behind it. */
  predicate IsMoveto(s: string, rel: bool, x: string, y: string, rest: string) {
    var (letter, one) := NextItem(s);
    var (first, two) := NextItem(one);
    letter == [MovetoLetter(rel)] && first == x && NextItem(two) == (y, rest) && IsCoordinate(x) && IsCoordinate(y)
  }

  /** The text begins with an absolute moveto. */
  ghost predicate StartsSubpath(s: string) {
    exists x, y, rest :: IsMoveto(s, false, x, y, rest)
  }

  /** The point a moveto names, counted from cp if it is relative. */
  predicate IsMovetoPoint(q: Pt, rel: bool, cp: Pt, x: real, y: real) {
    if rel then q.x == cp.x + x && q.y == cp.y + y else q.x == x && q.y == y
  }

  /** The reader behind a moveto to q: the pen is there, and more numbers draw lines, relative ones for a relative
      moveto. */
  function AfterMoveto(rel: bool, q: Pt, paths: seq<SvgPath>): (r: Reader)
    ensures ReaderOk(r)
  {
    assert ArgsPer('L') == 2 && ArgsPer('l') == 2;
    Reader(if rel then 'l' else 'L', [], 2, Pen(q, q, [q]), true, paths)
  }

  /** A moveto adds the open subpath and starts a new one at its point. */
  lemma MovetoStarts(w: World, m: Transform.Affine, r: Reader, s: string, rel: bool, x: string, y: string, rest: string)
    returns (q: Pt)
    requires ReaderOk(r) && IsMoveto(s, rel, x, y, rest)
    ensures IsMovetoPoint(q, rel, r.pen.cp, w.atof(x), w.atof(y))
    ensures AllRead(w, m, r, s) == AllRead(w, m, AfterMoveto(rel, q, Committed(r.paths, r.pen.ps, false, m)), rest)
  {
    var (letter, one) := NextItem(s);
    var two := NextItem(one).1;
    MovetoLetterRead(w, m, r, s, rel, one);
    MovetoCommand(m, r, rel);
    hide *;
    q := MovetoNumbers(w, m, CommandRead(m, r, MovetoLetter(rel)), one, rel, x, two, y, rest);
  }

  lemma MovetoLetterRead(w: World, m: Transform.Affine, r: Reader, s: string, rel: bool, one: string)
    requires ReaderOk(r) && NextItem(s) == ([MovetoLetter(rel)], one)
    ensures AllRead(w, m, r, s) == AllRead(w, m, CommandRead(m, r, MovetoLetter(rel)), one)
  {
    hide NextItem, NextFlagOrItem, IsCoordinate, AllRead, CommandRead, MovetoLetter, FlagDue, ReaderOk, SkipBlanks;
    LetterIsNoCoordinate(rel);
    FlagItem(s);
    assert ItemAt(s, FlagDue(r)) == ([MovetoLetter(rel)], one);
    LetterRead(w, m, r, s, [MovetoLetter(rel)], one);
  }

  lemma MovetoCommand(m: Transform.Affine, r: Reader, rel: bool)
    requires ReaderOk(r)
    ensures CommandRead(m, r, MovetoLetter(rel))
         == Reader(MovetoLetter(rel), [], 2, r.pen.(ps := []), r.init, Committed(r.paths, r.pen.ps, false, m))
  {
    hide Committed;
  }

  /** After an absolute moveto nothing is left of what came before but the paths, the open subpath among them. */
  lemma MovetoStartsAfresh(w: World, m: Transform.Affine, r: Reader, s: string)
    requires ReaderOk(r) && StartsSubpath(s)
    ensures AllRead(w, m, r, s) == AllRead(w, m, Start(Committed(r.paths, r.pen.ps, false, m)), s)
  {
    var x, y, rest :| IsMoveto(s, false, x, y, rest);
    hide AllRead, Committed, IsMoveto, NextItem, AfterMoveto;
    var paths := Committed(r.paths, r.pen.ps, false, m);
    var q := MovetoStarts(w, m, r, s, false, x, y, rest);
    var q' := MovetoStarts(w, m, Start(paths), s, false, x, y, rest);
    TooFewToAdd(paths, [], m);
    assert q == q';
  }

  lemma LetterIsNoCoordinate(rel: bool)
    ensures !IsCoordinate([MovetoLetter(rel)]) && !StartsNumber(MovetoLetter(rel))
  {
  }

  // A flag of an arc may be due when a letter comes; it is read all the same.
  lemma FlagItem(s: string)
    requires NextItem(s).0 != "" && !StartsNumber(NextItem(s).0[0])
    ensures NextFlagOrItem(s) == NextItem(s)
  {
    var t := SkipBlanks(s);
    NextIsTaken(s);
    FlagIsTaken(s);
    hide SkipBlanks, NextItem, NextFlagOrItem, TakenFrom;
    TakenLetter(t);
  }

  lemma TakenLetter(t: string)
    requires TakenFrom(t, false).0 != "" && !StartsNumber(TakenFrom(t, false).0[0])
    ensures TakenFrom(t, true) == TakenFrom(t, false)
  {
    if t != "" { NumberStart(t); }
    hide NumberEnd, Clipped;
  }

  lemma NumberStart(t: string)
    requires t != ""
    ensures StartsNumber(t[0]) ==> Clipped(t, NumberEnd(t)) != "" && Clipped(t, NumberEnd(t))[0] == t[0]
  {
    hide NumberEnd;
  }

  lemma MovetoNumbers(w: World, m: Transform.Affine, r: Reader, s: string, rel: bool, x: string, two: string, y: string,
                      rest: string) returns (q: Pt)
    requires ReaderOk(r) && r.cmd == MovetoLetter(rel) && r.args == [] && r.rargs == 2 && r.pen.ps == []
    requires NextItem(s) == (x, two) && IsCoordinate(x) && NextItem(two) == (y, rest) && IsCoordinate(y)
    ensures IsMovetoPoint(q, rel, r.pen.cp, w.atof(x), w.atof(y))
    ensures AllRead(w, m, r, s) == AllRead(w, m, AfterMoveto(rel, q, r.paths), rest)
  {
    hide AllRead, Drawn, NumberRead, ReaderOk, FlagDue, ItemAt, NextItem, IsCoordinate, AfterMoveto, IsMovetoPoint;
    var u, v := w.atof(x), w.atof(y);
    var next := r.(args := [u]);
    NoFlagDue(r);
    FirstNumber(w, r, u);
    ItemUnflagged(s);
    CoordinateRead(w, m, r, s, x, two);
    NoFlagDue(next);
    ItemUnflagged(two);
    CoordinateRead(w, m, next, two, y, rest);
    q := MovetoDone(w, r, rel, u, v);
  }

  lemma MovetoDone(w: World, r: Reader, rel: bool, x: real, y: real) returns (q: Pt)
    requires r.cmd == MovetoLetter(rel) && r.args == [] && r.rargs == 2 && r.pen.ps == []
    ensures ReaderOk(r.(args := [x])) && NumberRead(w, r.(args := [x]), y) == AfterMoveto(rel, q, r.paths)
    ensures IsMovetoPoint(q, rel, r.pen.cp, x, y)
  {
    hide Drawn, NumberRead, ReaderOk, AfterMoveto, IsMovetoPoint;
    SecondNumber(w, r.(args := [x]), y);
    q := MovetoDraws(w, rel, [x, y], r.pen);
    AfterMovetoIs(rel, q, r.paths);
  }

  lemma AfterMovetoIs(rel: bool, q: Pt, paths: seq<SvgPath>)
    ensures AfterMoveto(rel, q, paths)
         == Reader(if MovetoLetter(rel) == 'm' then 'l' else 'L', [], 2, Pen(q, q, [q]), true, paths)
  {
  }

  lemma ItemUnflagged(s: string)
    ensures ItemAt(s, false) == NextItem(s)
  {
  }

  lemma NoFlagDue(r: Reader)
    requires r.cmd == 'M' || r.cmd == 'm' || r.cmd == 'L' || r.cmd == 'Z' || r.cmd == 'z'
    ensures !FlagDue(r) && r.cmd != NO_COMMAND
    ensures (r.cmd == 'M' || r.cmd == 'm') && r.rargs == 2 && |r.args| < 7 ==> ReaderOk(r)
  {
  }

  lemma FirstNumber(w: World, r: Reader, x: real)
    requires (r.cmd == 'M' || r.cmd == 'm') && r.args == [] && r.rargs == 2
    ensures ReaderOk(r) && NumberRead(w, r, x) == r.(args := [x])
  {
    hide Drawn;
    assert [] + [x] == [x];
  }

  lemma SecondNumber(w: World, r: Reader, x: real)
    requires (r.cmd == 'M' || r.cmd == 'm') && |r.args| == 1 && r.rargs == 2
    ensures ReaderOk(r) && ArgsPer(r.cmd) == 2
    ensures NumberRead(w, r, x)
         == Reader(if r.cmd == 'm' then 'l' else 'L', [], 2, Drawn(w, r.cmd, [r.args[0], x], r.pen), true, r.paths)
  {
    hide Drawn;
    assert r.args + [x] == [r.args[0], x];
  }

  lemma MovetoDraws(w: World, rel: bool, v: seq<real>, pen: Pen) returns (q: Pt)
    requires |v| == 2 && pen.ps == []
    ensures ArgsPer(MovetoLetter(rel)) == 2 && Drawn(w, MovetoLetter(rel), v, pen) == Pen(q, q, [q])
    ensures IsMovetoPoint(q, rel, pen.cp, v[0], v[1])
  {
    q := Drawn(w, MovetoLetter(rel), v, pen).cp;
  }

  /** Subpaths do not touch each other: the paths of two texts, the second one beginning with an absolute moveto, are
      the paths of the first and then those of the second, however the first one ends. */
  lemma SubpathsCompose(w: World, m: Transform.Affine, paths: seq<SvgPath>, a: string, b: string)
    requires StartsSubpath(b) && Separate(a, b)
    ensures PathsOf(w, m, paths, a + b) == PathsOf(w, m, PathsOf(w, m, paths, a), b)
  {
    hide AllRead, Committed, StartsSubpath, Separate;
    ReadInTurn(w, m, Start(paths), a, b);
    MovetoStartsAfresh(w, m, AllRead(w, m, Start(paths), a), b);
  }

  /** A text that begins with the letter M never runs on from the one before it. */
  lemma MovetoIsSeparate(a: string, b: string)
    requires b != "" && b[0] == 'M'
    ensures Separate(a, b)
  {
  }

  // ----- closing a subpath -----

  /** A closepath adds the open subpath as a closed path. */
  lemma ClosepathCloses(w: World, m: Transform.Affine, paths: seq<SvgPath>, a: string)
    requires AllRead(w, m, Start(paths), a).init
    ensures var end := AllRead(w, m, Start(paths), a);
            PathsOf(w, m, paths, a + "Z") == Committed(end.paths, end.pen.ps, true, m)
  {
    hide AllRead, Committed;
    var end := AllRead(w, m, Start(paths), a);
    assert Separate(a, "Z");
    ReadInTurn(w, m, Start(paths), a, "Z");
    assert "Z" + "" == "Z";
    ClosepathRead(w, m, end, "");
    var after := CommandRead(m, end, 'Z');
    NothingRead(w, m, after);
    TooFewToAdd(after.paths, after.pen.ps, m);
  }

  lemma NothingRead(w: World, m: Transform.Affine, r: Reader)
    requires ReaderOk(r)
    ensures AllRead(w, m, r, "") == r
  {
  }

  lemma TooFewToAdd(paths: seq<SvgPath>, ps: seq<Pt>, m: Transform.Affine)
    requires |ps| < 4
    ensures Committed(paths, ps, false, m) == paths
  {
  }

  lemma ClosepathRead(w: World, m: Transform.Affine, r: Reader, s: string)
    requires ReaderOk(r) && r.init
    ensures AllRead(w, m, r, "Z" + s) == AllRead(w, m, CommandRead(m, r, 'Z'), s)
  {
    var t := "Z" + s;
    assert t[0] == 'Z' && t[..1] == "Z" && t[1..] == s;
    assert SkipBlanks(t) == t;
    assert !IsCoordinate("Z");
    ItemIsTaken(t, FlagDue(r));
    hide CommandRead, SkipBlanks, ItemAt, FlagDue, AllRead, IsCoordinate;
    LetterRead(w, m, r, t, "Z", s);
  }

  /** A command behind a closepath draws as behind a moveto to the point where the closed subpath began. */
  lemma ClosepathMovesToStart(w: World, m: Transform.Affine, r: Reader, s: string)
    requires ReaderOk(r) && r.init && r.pen.ps != [] && NextItem(s).0 != "" && !IsCoordinate(NextItem(s).0)
    ensures var start := r.pen.ps[0];
            AllRead(w, m, r, "Z" + s)
            == AllRead(w, m, AfterMoveto(false, start, Committed(r.paths, r.pen.ps, true, m)), s)
  {
    hide Committed, IsCoordinate, NextItem, AllRead, CommandRead, FlagDue, ItemAt;
    var start := r.pen.ps[0];
    var closed := Committed(r.paths, r.pen.ps, true, m);
    var pen := Pen(start, start, [start]);
    var z, l := Reader('Z', [], 0, pen, true, closed), AfterMoveto(false, start, closed);
    ClosepathIs(m, r);
    ClosepathRead(w, m, r, s);
    NoFlagDue(z);
    NoFlagDue(l);
    ItemUnflagged(s);
    var (item, rest) := NextItem(s);
    LetterRead(w, m, z, s, item, rest);
    LetterRead(w, m, l, s, item, rest);
    SameCommand(m, z, l, item[0]);
  }

  lemma ClosepathIs(m: Transform.Affine, r: Reader)
    requires ReaderOk(r) && r.init && r.pen.ps != []
    ensures var start := r.pen.ps[0];
            CommandRead(m, r, 'Z')
            == Reader('Z', [], 0, Pen(start, start, [start]), true, Committed(r.paths, r.pen.ps, true, m))
  {
    hide Committed;
  }

  lemma SameCommand(m: Transform.Affine, r: Reader, r': Reader, c: char)
    requires ReaderOk(r) && ReaderOk(r') && r' == r.(cmd := r'.cmd, rargs := r'.rargs) && r.args == []
    ensures CommandRead(m, r, c) == CommandRead(m, r', c)
  {
    hide Committed;
  }

  /** Numbers behind a closepath are passed over. */
  lemma ClosepathIgnoresNumbers(w: World, m: Transform.Affine, r: Reader, s: string)
    requires ReaderOk(r) && (r.cmd == 'Z' || r.cmd == 'z') && r.args == [] && IsCoordinate(NextItem(s).0)
    ensures AllRead(w, m, r, s) == AllRead(w, m, r, NextItem(s).1)
  {
    var x := w.atof(NextItem(s).0);
    NoFlagDue(r);
    ItemUnflagged(s);
    OneNumberDrawsNothing(w, r, x);
    hide NextItem, IsCoordinate, AllRead, NumberRead, FlagDue, ReaderOk, ItemAt;
    CoordinateRead(w, m, r, s, NextItem(s).0, NextItem(s).1);
  }

  lemma OneNumberDrawsNothing(w: World, r: Reader, x: real)
    requires ReaderOk(r) && (r.cmd == 'Z' || r.cmd == 'z') && r.args == []
    ensures NumberRead(w, r, x) == r
  {
    NothingDrawn(w, r.cmd, x, r.pen);
    hide Drawn;
    assert [] + [x] == [x];
  }

  lemma NothingDrawn(w: World, cmd: char, x: real, pen: Pen)
    requires cmd == 'Z' || cmd == 'z'
    ensures Drawn(w, cmd, [x], pen) == pen
  {
  }

  // ----- commands and their numbers -----

  /** How many numbers a drawing command takes. */
  predicate Takes(c: char, n: nat) {
    if c == 'H' || c == 'h' || c == 'V' || c == 'v' then n == 1
    else if c == 'L' || c == 'l' || c == 'T' || c == 't' then n == 2
    else if c == 'S' || c == 's' || c == 'Q' || c == 'q' then n == 4
    else if c == 'C' || c == 'c' then n == 6
    else (c == 'A' || c == 'a') && n == 7
  }

  /** The text texts[0] begins with the numbers `items`, and goes on with texts[i] behind i of them. The fourth and the
      fifth number of an arc are flags, single characters. */
  ghost predicate Numbers(c: char, items: seq<string>, texts: seq<string>) {
    |texts| == |items| + 1 &&
    forall i :: 0 <= i < |items| ==>
      IsCoordinate(items[i]) &&
      ItemAt(texts[i], (c == 'A' || c == 'a') && (i == 3 || i == 4)) == (items[i], texts[i + 1])
  }

  function Values(w: World, items: seq<string>): (v: seq<real>)
    ensures |v| == |items|
  {
    seq(|items|, i requires 0 <= i < |items| => w.atof(items[i]))
  }

  lemma TakesArgs(c: char, n: nat)
    requires Takes(c, n)
    ensures ArgsPer(c) == n && c !in "mMzZ" && c != NO_COMMAND
  {
  }

  /** A drawing command draws with the numbers behind it, as many as it takes, and is ready to draw again. */
  lemma CommandDraws(w: World, m: Transform.Affine, r: Reader, items: seq<string>, texts: seq<string>)
    requires ReaderOk(r) && Takes(r.cmd, |items|) && r.args == [] && Numbers(r.cmd, items, texts)
    ensures ArgsPer(r.cmd) == |items| > 0
    ensures AllRead(w, m, r, texts[0])
         == AllRead(w, m, r.(pen := Drawn(w, r.cmd, Values(w, items), r.pen)), texts[|items|])
  {
    TakesArgs(r.cmd, |items|);
    assert Values(w, items[..0]) == [];
    assert r.(args := []) == r;
    var k := |items| - 1;
    ArgumentsRead(w, m, r, items, texts, k);
    LastNumber(w, m, r, items, texts);
  }

  lemma {:induction false} ArgumentsRead(w: World, m: Transform.Affine, r: Reader, items: seq<string>,
                                         texts: seq<string>, k: nat)
    requires ReaderOk(r) && Takes(r.cmd, |items|) && r.args == [] && Numbers(r.cmd, items, texts) && k < |items|
    ensures ReaderOk(r.(args := Values(w, items[..k])))
    ensures AllRead(w, m, r, texts[0]) == AllRead(w, m, r.(args := Values(w, items[..k])), texts[k])
  {
    hide AllRead, IsCoordinate, ItemAt, NumberRead, Numbers;
    WithArgs(r, Values(w, items[..k]), |items|);
    if k == 0 {
      assert r.(args := []) == r;
    } else {
      ArgumentsRead(w, m, r, items, texts, k - 1);
      var before := r.(args := Values(w, items[..k - 1]));
      NumberAt(r.cmd, items, texts, k - 1);
      hide ReaderOk, Takes;
      FlagDueIs(before);
      CoordinateRead(w, m, before, texts[k - 1], items[k - 1], texts[k]);
      ArgumentTaken(w, before, w.atof(items[k - 1]), |items|);
      assert Values(w, items[..k]) == Values(w, items[..k - 1]) + [w.atof(items[k - 1])];
    }
  }

  lemma WithArgs(r: Reader, args: seq<real>, n: nat)
    requires ReaderOk(r) && Takes(r.cmd, n) && |args| < n
    ensures ReaderOk(r.(args := args)) && r.rargs == n && r.cmd != NO_COMMAND
  {
    TakesArgs(r.cmd, n);
    hide ArgsPer;
  }

  lemma NumberAt(c: char, items: seq<string>, texts: seq<string>, i: nat)
    requires Numbers(c, items, texts) && i < |items|
    ensures |texts| == |items| + 1 && IsCoordinate(items[i])
    ensures ItemAt(texts[i], (c == 'A' || c == 'a') && (i == 3 || i == 4)) == (items[i], texts[i + 1])
  {
    hide IsCoordinate, ItemAt;
  }

  lemma FlagDueIs(r: Reader)
    ensures FlagDue(r) <==> (r.cmd == 'A' || r.cmd == 'a') && (|r.args| == 3 || |r.args| == 4)
  {
  }

  lemma ArgumentTaken(w: World, r: Reader, x: real, n: nat)
    requires ReaderOk(r) && r.rargs == n && r.cmd != NO_COMMAND && |r.args| + 1 < n
    ensures NumberRead(w, r, x) == r.(args := r.args + [x])
  {
    hide Drawn, ArgsPer;
  }

  lemma LastNumber(w: World, m: Transform.Affine, r: Reader, items: seq<string>, texts: seq<string>)
    requires ReaderOk(r) && Takes(r.cmd, |items|) && r.args == [] && Numbers(r.cmd, items, texts) && items != []
    requires ArgsPer(r.cmd) == |items|
    ensures var last := r.(args := Values(w, items[..|items| - 1]));
            ReaderOk(last) && AllRead(w, m, last, texts[|items| - 1])
            == AllRead(w, m, r.(pen := Drawn(w, r.cmd, Values(w, items), r.pen)), texts[|items|])
  {
    hide AllRead, IsCoordinate, ItemAt, NumberRead, Numbers, Drawn;
    var k := |items| - 1;
    var last := r.(args := Values(w, items[..k]));
    WithArgs(r, Values(w, items[..k]), |items|);
    NumberAt(r.cmd, items, texts, k);
    FlagDueIs(last);
    CoordinateRead(w, m, last, texts[k], items[k], texts[k + 1]);
    LastTaken(w, r, Values(w, items[..k]), w.atof(items[k]));
    assert Values(w, items) == Values(w, items[..k]) + [w.atof(items[k])];
  }

  lemma LastTaken(w: World, r: Reader, args: seq<real>, x: real)
    requires ReaderOk(r) && r.args == [] && Takes(r.cmd, |args| + 1) && ReaderOk(r.(args := args))
    ensures ArgsPer(r.cmd) == |args| + 1
    ensures NumberRead(w, r.(args := args), x) == r.(pen := Drawn(w, r.cmd, args + [x], r.pen))
  {
    TakesArgs(r.cmd, |args| + 1);
    hide Drawn, ArgsPer;
  }

  /** A command letter makes the numbers behind it that command's, once a subpath has been started. */
  lemma LetterSets(w: World, m: Transform.Affine, r: Reader, s: string, c: char, n: nat)
    requires ReaderOk(r) && r.init && Takes(c, n) && ItemAt(s, FlagDue(r)).0 == [c]
    ensures ReaderOk(r.(cmd := c, rargs := n))
    ensures AllRead(w, m, r, s) == AllRead(w, m, r.(cmd := c, rargs := n), ItemAt(s, FlagDue(r)).1)
  {
    TakesArgs(c, n);
    assert !IsCoordinate([c]) by { NoCoordinate(c, n); }
    hide AllRead, IsCoordinate, ItemAt, FlagDue, ArgsPer, Committed;
    LetterRead(w, m, r, s, [c], ItemAt(s, FlagDue(r)).1);
  }

  lemma NoCoordinate(c: char, n: nat)
    requires Takes(c, n)
    ensures !IsCoordinate([c])
  {
  }

  // ----- before the first moveto -----

  predicate NoMoveto(s: string) {
    forall i :: 0 <= i < |s| ==> s[i] != 'm' && s[i] != 'M'
  }

  lemma ItemIsPart(s: string)
    requires NoMoveto(s) && NextItem(s).0 != ""
    ensures NextItem(s).0[0] != 'm' && NextItem(s).0[0] != 'M' && NoMoveto(NextItem(s).1) && |NextItem(s).1| < |s|
  {
    var t := SkipBlanks(s);
    NextIsTaken(s);
    PartHasNone(s, |s| - |t|);
    assert t != "" && t[0] == s[|s| - |t|] && t[0] != 'm' && t[0] != 'M';
    hide SkipBlanks, NextItem, TakenFrom, NoMoveto;
    TakenPart(t);
    PartHasNone(t, |t| - |TakenFrom(t, false).1|);
  }

  lemma PartHasNone(s: string, k: nat)
    requires NoMoveto(s) && k <= |s|
    ensures NoMoveto(s[k..])
  {
  }

  lemma TakenPart(t: string)
    requires t != "" && TakenFrom(t, false).0 != ""
    ensures var (item, rest) := TakenFrom(t, false);
            item[0] == t[0] && |rest| < |t| && rest == t[|t| - |rest|..]
  {
    var e := if StartsNumber(t[0]) then NumberEnd(t) else 1;
    hide NumberEnd;
    assert TakenFrom(t, false).1 == t[e..];
  }

  /** Without a moveto nothing is drawn. */
  lemma NothingWithoutMoveto(w: World, m: Transform.Affine, paths: seq<SvgPath>, s: string)
    requires NoMoveto(s)
    ensures PathsOf(w, m, paths, s) == paths
  {
    hide NoMoveto, AllRead, Committed;
    SkippedUpTo(w, m, Start(paths), s);
    TooFewToAdd(paths, [], m);
  }

  predicate Idle(r: Reader) {
    ReaderOk(r) && !r.init && r.cmd == NO_COMMAND && r.pen.ps == []
  }

  lemma IdleItem(w: World, m: Transform.Affine, r: Reader, item: string)
    requires Idle(r) && item != "" && item[0] != 'm' && item[0] != 'M'
    ensures !FlagDue(r) && ItemRead(w, m, r, item) == r
  {
    hide Committed;
  }

  lemma {:induction false} SkippedUpTo(w: World, m: Transform.Affine, r: Reader, s: string)
    requires NoMoveto(s) && Idle(r)
    ensures AllRead(w, m, r, s) == r
    decreases |s|
  {
    assert !FlagDue(r) && ReaderOk(r);
    hide NoMoveto, NextItem, NextFlagOrItem, Committed, Idle, ItemRead, ReaderOk, FlagDue;
    if s != "" {
      var (item, rest) := NextItem(s);
      if item != "" {
        ItemIsPart(s);
        IdleItem(w, m, r, item);
        SkippedUpTo(w, m, r, rest);
      }
    }
  }

  // ----- what a command draws -----

  /** The curve from p through two control points to q. */
  function CurveOf(p: Pt, c1: Pt, c2: Pt, q: Pt, t: real): Pt {
    CurveAt(Cubic(p, c1, c2, q), t)
  }

  /** L, H and V draw the straight line to their point, from the last point of the buffer on. */
  lemma LinesDrawn(w: World, cmd: char, v: seq<real>, pen: Pen, t: real) returns (c1: Pt, c2: Pt, q: Pt)
    requires pen.ps != [] && (cmd == 'L' || cmd == 'H' || cmd == 'V') && |v| == ArgsPer(cmd)
    ensures cmd == 'L' ==> |v| == 2 && q == Pt(v[0], v[1])
    ensures cmd == 'H' ==> |v| == 1 && q == Pt(v[0], pen.cp.y)
    ensures cmd == 'V' ==> |v| == 1 && q == Pt(pen.cp.x, v[0])
    ensures Drawn(w, cmd, v, pen) == Pen(q, q, pen.ps + [c1, c2, q])
    ensures var p := pen.ps[|pen.ps| - 1];
            CurveOf(p, c1, c2, q, t) == Pt(p.x + t * (q.x - p.x), p.y + t * (q.y - p.y))
  {
    hide CurveAt;
    var p := pen.ps[|pen.ps| - 1];
    q := if cmd == 'L' then Pt(v[0], v[1]) else if cmd == 'H' then Pt(v[0], pen.cp.y) else Pt(pen.cp.x, v[0]);
    c1, c2 := Third(p, q), Third(q, p);
    LineIsStraight(p, q, t);
    hide Third;
  }

  /** C draws the cubic with the control points it gives; S the one whose first control point mirrors the last control
      point in the current point. */
  lemma CubicsDrawn(w: World, cmd: char, v: seq<real>, pen: Pen)
    requires pen.ps != [] && (cmd == 'C' || cmd == 'S') && |v| == ArgsPer(cmd)
    ensures cmd == 'C' ==>
              |v| == 6 &&
              Drawn(w, cmd, v, pen)
              == Pen(Pt(v[4], v[5]), Pt(v[2], v[3]), pen.ps + [Pt(v[0], v[1]), Pt(v[2], v[3]), Pt(v[4], v[5])])
    ensures cmd == 'S' ==>
              |v| == 4 &&
              exists c1 :: Mid(c1, pen.cp2) == pen.cp &&
                Drawn(w, cmd, v, pen) ==
                Pen(Pt(v[2], v[3]), Pt(v[0], v[1]), pen.ps + [c1, Pt(v[0], v[1]), Pt(v[2], v[3])])
  {
    if cmd == 'S' {
      assert Mid(Reflected(pen.cp, pen.cp2), pen.cp2) == pen.cp;
    }
  }

  /** Q draws the quadratic curve with the control point it gives, and T the one whose control point mirrors the last
      one, which becomes the last control point in turn: as a cubic, but the same curve. */
  lemma QuadraticsDrawn(w: World, cmd: char, v: seq<real>, pen: Pen, t: real) returns (c: Pt, c1: Pt, c2: Pt, q: Pt)
    requires pen.ps != [] && (cmd == 'Q' || cmd == 'T') && |v| == ArgsPer(cmd)
    ensures cmd == 'Q' ==> |v| == 4 && c == Pt(v[0], v[1]) && q == Pt(v[2], v[3])
    ensures cmd == 'T' ==> |v| == 2 && Mid(c, pen.cp2) == pen.cp && q == Pt(v[0], v[1])
    ensures Drawn(w, cmd, v, pen) == Pen(q, c, pen.ps + [c1, c2, q])
    ensures CurveOf(pen.cp, c1, c2, q, t) == Pt(Quadratic(t, pen.cp.x, c.x, q.x), Quadratic(t, pen.cp.y, c.y, q.y))
  {
    hide CurveAt, Quadratic;
    if cmd == 'Q' {
      c, q := Pt(v[0], v[1]), Pt(v[2], v[3]);
    } else {
      c, q := Reflected(pen.cp, pen.cp2), Pt(v[0], v[1]);
      assert Mid(c, pen.cp2) == pen.cp;
    }
    c1, c2 := TowardsControl(pen.cp, c), TowardsControl(q, c);
    QuadraticIsSame(pen.cp, c, q, t);
    hide TowardsControl, Mid;
  }

  function Joined(cubics: seq<(Pt, Pt, Pt)>): seq<Pt> {
    if cubics == [] then [] else [cubics[0].0, cubics[0].1, cubics[0].2] + Joined(cubics[1..])
  }

  lemma {:induction false} JoinedSnoc(cubics: seq<(Pt, Pt, Pt)>, c: (Pt, Pt, Pt))
    ensures Joined(cubics + [c]) == Joined(cubics) + [c.0, c.1, c.2]
  {
    if cubics == [] {
      assert [c][1..] == [];
    } else {
      assert (cubics + [c])[1..] == cubics[1..] + [c];
      JoinedSnoc(cubics[1..], c);
    }
  }

  lemma {:induction false} AllCurvedIs(ps: seq<Pt>, cubics: seq<(Pt, Pt, Pt)>)
    requires ps != []
    ensures AllCurvedTo(ps, cubics) == ps + Joined(cubics)
  {
    if cubics == [] {
      assert ps + [] == ps;
    } else {
      var n := |cubics| - 1;
      AllCurvedIs(ps, cubics[..n]);
      JoinedSnoc(cubics[..n], cubics[n]);
      assert cubics == cubics[..n] + [cubics[n]];
    }
  }

  /** A draws the curves that approximate its arc, one after the other, and a straight line where its ends are less than
      a millionth apart or a radius is less than a millionth. */
  lemma ArcsDrawn(w: World, v: seq<real>, pen: Pen)
    requires pen.ps != [] && |v| == 7
    ensures ArgsPer('A') == 7
    ensures var q := Pt(v[5], v[6]);
            var line := w.sqrt(SquaredDistance(pen.cp, q)) < 0.000001 || -0.000001 < v[0] < 0.000001
                        || -0.000001 < v[1] < 0.000001;
            var a := pen.cp.x - v[5];
            SquaredDistance(pen.cp, q) - a * a == (pen.cp.y - v[6]) * (pen.cp.y - v[6]) &&
            Drawn(w, 'A', v, pen) == if line then Drawn(w, 'L', [v[5], v[6]], pen)
                                     else Pen(q, q, pen.ps + Joined(w.arc(pen.cp, q, v[..5])))
  {
    var q := Pt(v[5], v[6]);
    AllCurvedIs(pen.ps, w.arc(pen.cp, q, v[..5]));
    assert SquaredDistance(pen.cp, q)
        == (pen.cp.x - v[5]) * (pen.cp.x - v[5]) + (pen.cp.y - v[6]) * (pen.cp.y - v[6]);
    hide AllCurvedTo, Joined, LinedTo, SquaredDistance;
    assert ArgsPer('L') == 2;
  }

  // ----- what a subpath adds -----

  /** The path a subpath of at least one segment adds, before all others: its points transformed, and behind them, if it
      is closed, a straight line back to the first. Less than a segment adds nothing. */
  lemma SubpathAdded(paths: seq<SvgPath>, ps: seq<Pt>, closed: bool, m: Transform.Affine, t: real)
    returns (outline: seq<Pt>)
    ensures |ps| < 4 ==> Committed(paths, ps, closed, m) == paths
    ensures |ps| >= 4 ==>
              var n, all := |ps|, Committed(paths, ps, closed, m);
              |outline| == n + (if closed then 3 else 0) && ps <= outline &&
              (closed ==>
                 var p, q := ps[n - 1], ps[0];
                 outline[n + 2] == q && CurveOf(p, outline[n], outline[n + 1], q, t)
                                        == Pt(p.x + t * (q.x - p.x), p.y + t * (q.y - p.y))) &&
              |all| == |paths| + 1 && all[1..] == paths && all[0].closed == closed &&
              |all[0].pts| == |outline| &&
              forall i :: 0 <= i < |outline| ==> all[0].pts[i] == Transform.Apply(m, outline[i])
  {
    hide CurveAt, Transform.Apply;
    outline := Outline(ps, closed);
    if |ps| >= 4 && closed {
      LineIsStraight(ps[|ps| - 1], ps[0], t);
    }
  }
}
