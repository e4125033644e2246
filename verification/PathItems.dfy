/** Splitting path data into numbers and commands (src/External/nanosvg/nanosvg.h). */
module PathItems {
  // The characters an item can hold, its terminator aside.
  const ITEM_SIZE := 63

  predicate IsDigit(c: char) {
    '0' <= c <= '9'
  }

  predicate IsSpace(c: char) {
    c == ' ' || c == '\t' || c == '\n' || c == '\r' || c == 11 as char || c == 12 as char
  }

  predicate IsBlank(c: char) {
    IsSpace(c) || c == ','
  }

  predicate StartsNumber(c: char) {
    c == '-' || c == '+' || c == '.' || IsDigit(c)
  }

  /** nsvg__isCoordinate. */
  predicate IsCoordinate(item: string) {
    var k := SignEnd(item, 0);
    k < |item| && (IsDigit(item[k]) || item[k] == '.')
  }

  // ----- where the parts of a number end -----

  function SignEnd(s: string, k: nat): (e: nat)
    requires k <= |s|
    ensures k <= e <= |s|
  {
    if k < |s| && (s[k] == '-' || s[k] == '+') then k + 1 else k
  }

  function DigitsEnd(s: string, k: nat): (e: nat)
    requires k <= |s|
    ensures k <= e <= |s|
    ensures forall i :: k <= i < e ==> IsDigit(s[i])
    ensures e < |s| ==> !IsDigit(s[e])
    decreases |s| - k
  {
    if k < |s| && IsDigit(s[k]) then DigitsEnd(s, k + 1) else k
  }

  function FractionEnd(s: string, k: nat): (e: nat)
    requires k <= |s|
    ensures k <= e <= |s|
  {
    if k < |s| && s[k] == '.' then DigitsEnd(s, k + 1) else k
  }

  /** An exponent, unless it is the start of a unit, "em" or "ex". */
  function ExponentEnd(s: string, k: nat): (e: nat)
    requires k <= |s|
    ensures k <= e <= |s|
  {
    if k < |s| && (s[k] == 'e' || s[k] == 'E') && !(k + 1 < |s| && (s[k + 1] == 'm' || s[k + 1] == 'x')) then
      DigitsEnd(s, SignEnd(s, k + 1))
    else k
  }

  function NumberEnd(s: string): (e: nat)
    ensures e <= |s|
    ensures s != "" && StartsNumber(s[0]) ==> e > 0
  {
    ExponentEnd(s, FractionEnd(s, DigitsEnd(s, SignEnd(s, 0))))
  }

  // The first k characters, as far as an item can hold them.
  function Clipped(s: string, k: nat): string
    requires k <= |s|
  {
    if k <= ITEM_SIZE then s[..k] else s[..ITEM_SIZE]
  }

  // ----- items -----

  function SkipBlanks(s: string): (rest: string)
    ensures |rest| <= |s| && rest == s[|s| - |rest|..]
    ensures rest != "" ==> !IsBlank(rest[0])
    ensures forall i :: 0 <= i < |s| - |rest| ==> IsBlank(s[i])
  {
    if s != "" && IsBlank(s[0]) then SkipBlanks(s[1..]) else s
  }

  /** nsvg__getNextPathItem: the next item, and what follows it. */
  function NextItem(s: string): (r: (string, string))
    ensures |r.1| <= |s| && (s != "" ==> |r.1| < |s|)
    ensures r.0 == "" <==> SkipBlanks(s) == ""
  {
    var t := SkipBlanks(s);
    if t == "" then ("", "")
    else if StartsNumber(t[0]) then (Clipped(t, NumberEnd(t)), t[NumberEnd(t)..])
    else (t[..1], t[1..])
  }

  /** With nsvg__getNextPathItemWhenArcFlag first where a flag of an arc is due: a lone 0 or 1. */
  function NextFlagOrItem(s: string): (r: (string, string))
    ensures |r.1| <= |s| && (s != "" ==> |r.1| < |s|)
    ensures r.0 == "" <==> SkipBlanks(s) == ""
  {
    var t := SkipBlanks(s);
    if t != "" && (t[0] == '0' || t[0] == '1') then (t[..1], t[1..])
    else
      BlanksSkipped(s);
      var r := NextItem(t);
      if t == "" then ("", "") else r
  }

  lemma BlanksSkipped(s: string)
    ensures SkipBlanks(SkipBlanks(s)) == SkipBlanks(s)
  {
  }

  /** An item that is read takes up at least one character, so reading goes on only finitely often. */
  lemma ItemTakesCharacters(s: string)
    ensures NextItem(s).0 != "" ==> |NextItem(s).1| < |s|
    ensures NextItem(s).0 == "" <==> forall i :: 0 <= i < |s| ==> IsBlank(s[i])
  {
    var t := SkipBlanks(s);
    if t != "" {
      assert s[|s| - |t|] == t[0];
    }
  }

  // ----- the same, character by character -----

  /** Copies a run of digits into the item, as far as it can hold them. */
  method CopyDigits(s: string, k: nat, it: string) returns (e: nat, item: string)
    requires k <= |s| && it == Clipped(s, k)
    ensures e == DigitsEnd(s, k) && item == Clipped(s, e)
  {
    e, item := k, it;
    while e < |s| && IsDigit(s[e])
      invariant k <= e <= |s| && item == Clipped(s, e)
      invariant DigitsEnd(s, e) == DigitsEnd(s, k)
    {
      e, item := Copy(s, e, item);
    }
  }

  method Copy(s: string, k: nat, it: string) returns (e: nat, item: string)
    requires k < |s| && it == Clipped(s, k)
    ensures e == k + 1 && item == Clipped(s, e)
  {
    item := if |it| < ITEM_SIZE then it + [s[k]] else it;
    e := k + 1;
  }

  /** nsvg__parseNumber. */
  method ParseNumber(s: string) returns (item: string, rest: string)
    ensures item == Clipped(s, NumberEnd(s)) && rest == s[NumberEnd(s)..]
  {
    hide Clipped, DigitsEnd;
    var k := 0;
    item := "";
    EmptyItem(s);
    if k < |s| && (s[k] == '-' || s[k] == '+') {
      k, item := Copy(s, k, item);
    }
    k, item := CopyDigits(s, k, item);
    if k < |s| && s[k] == '.' {
      k, item := Copy(s, k, item);
      k, item := CopyDigits(s, k, item);
    }
    if k < |s| && (s[k] == 'e' || s[k] == 'E') && !(k + 1 < |s| && (s[k + 1] == 'm' || s[k + 1] == 'x')) {
      k, item := Copy(s, k, item);
      if k < |s| && (s[k] == '-' || s[k] == '+') {
        k, item := Copy(s, k, item);
      }
      k, item := CopyDigits(s, k, item);
    }
    rest := s[k..];
  }

  lemma EmptyItem(s: string)
    ensures Clipped(s, 0) == ""
  {
  }

  method GetNextPathItem(s: string) returns (item: string, rest: string)
    ensures (item, rest) == NextItem(s)
  {
    hide NumberEnd, Clipped, SkipBlanks;
    rest := SkipBlanksIn(s);
    if rest == "" {
      return "", "";
    }
    if StartsNumber(rest[0]) {
      item, rest := ParseNumber(rest);
    } else {
      item, rest := rest[..1], rest[1..];
    }
  }

  method SkipBlanksIn(s: string) returns (rest: string)
    ensures rest == SkipBlanks(s)
  {
    rest := s;
    while rest != "" && IsBlank(rest[0])
      invariant SkipBlanks(rest) == SkipBlanks(s)
      decreases |rest|
    {
      rest := rest[1..];
    }
  }

  /** The next item of path data; `flag` says that a flag of an arc is due. */
  method GetItem(s: string, flag: bool) returns (item: string, rest: string)
    ensures (item, rest) == if flag then NextFlagOrItem(s) else NextItem(s)
  {
    hide NumberEnd, Clipped, SkipBlanks;
    item, rest := "", s;
    if flag {
      rest := SkipBlanksIn(rest);
      if rest != "" && (rest[0] == '0' || rest[0] == '1') {
        item, rest := rest[..1], rest[1..];
      }
    }
    if item == "" {
      item, rest := GetNextPathItem(rest);
    }
  }
}
