/** The text handling that screen names rest on: splitting at commas and printing slot numbers. */
module Names {
  /** The index of the first `c`, or the length. */
  function IndexOf(s: string, c: char): (i: nat)
    ensures i <= |s| && c !in s[..i] && (i < |s| ==> s[i] == c)
  {
    if s == [] || s[0] == c then 0
    else
      assert s[..1 + IndexOf(s[1..], c)] == [s[0]] + s[1..][..IndexOf(s[1..], c)];
      1 + IndexOf(s[1..], c)
  }

  /** The index of the last `c`, or the length. */
  function LastIndexOf(s: string, c: char): (i: nat)
    ensures i <= |s| && (i < |s| ==> s[i] == c && c !in s[i + 1..]) && (i == |s| ==> c !in s)
  {
    if s == [] then 0
    else if s[|s| - 1] == c then |s| - 1
    else
      var i := LastIndexOf(s[..|s| - 1], c);
      assert s == s[..|s| - 1] + [s[|s| - 1]];
      if i == |s| - 1 then |s|
      else
        assert s[i + 1..] == s[..|s| - 1][i + 1..] + [s[|s| - 1]];
        i
  }

  predicate StartsWith(s: string, prefix: string) {
    |prefix| <= |s| && s[..|prefix|] == prefix
  }

  function Digit(d: nat): (c: char)
    requires d < 10
    ensures c != '#'
  {
    "0123456789"[d]
  }

  /** std::to_string of a count. */
  function Decimal(n: nat): (s: string)
    ensures s != [] && '#' !in s
  {
    if n < 10 then [Digit(n)] else Decimal(n / 10) + [Digit(n % 10)]
  }

  lemma {:induction false} DecimalInjective(m: nat, n: nat)
    requires Decimal(m) == Decimal(n)
    ensures m == n
    decreases m
  {
    var s := Decimal(m);
    assert s[|s| - 1] == Digit(m % 10) == Digit(n % 10);
    assert m % 10 == n % 10;
    if m >= 10 && n >= 10 {
      assert Decimal(m / 10) == s[..|s| - 1] == Decimal(n / 10);
      DecimalInjective(m / 10, n / 10);
    }
  }

  lemma {:induction false} FirstAt(s: string, c: char, p: nat)
    requires p < |s| && s[p] == c && c !in s[..p]
    ensures IndexOf(s, c) == p
  {
    if p > 0 {
      assert s[0] == s[..p][0] && s[1..][..p - 1] == s[..p][1..];
      FirstAt(s[1..], c, p - 1);
    }
  }

  lemma {:induction false} LastAt(s: string, c: char, p: nat)
    requires p < |s| && s[p] == c && c !in s[p + 1..]
    ensures LastIndexOf(s, c) == p
  {
    var n := |s| - 1;
    if p < n {
      assert s[n] == s[p + 1..][n - p - 1] && s[..n][p + 1..] == s[p + 1..][..n - p - 1];
      LastAt(s[..n], c, p);
    }
  }

  /** Two names joined with '#' and a number agree only if both parts do. */
  lemma SlotNamesDiffer(a: string, m: nat, b: string, n: nat)
    requires '#' !in a && '#' !in b
    ensures a + "#" + Decimal(m) == b + "#" + Decimal(n) ==> a == b && m == n
  {
    var x, y := a + "#" + Decimal(m), b + "#" + Decimal(n);
    assert x[..|a|] == a && x[|a| + 1..] == Decimal(m);
    assert y[..|b|] == b && y[|b| + 1..] == Decimal(n);
    FirstAt(x, '#', |a|);
    FirstAt(y, '#', |b|);
    if x == y {
      DecimalInjective(m, n);
    }
  }

  /** The screen of a slot name is what comes before its last '#'. */
  lemma LastHash(a: string, m: nat)
    ensures LastIndexOf(a + "#" + Decimal(m), '#') == |a|
  {
    var s := a + "#" + Decimal(m);
    assert s[|a| + 1..] == Decimal(m);
    LastAt(s, '#', |a|);
  }
}
