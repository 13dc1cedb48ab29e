/** The byte-wise order of Go strings, and sorting by it. */
module StringOrder {

  predicate Less(a: string, b: string)
    decreases |a|
  {
    && |b| > 0
    && (|a| == 0 || a[0] < b[0] || (a[0] == b[0] && Less(a[1..], b[1..])))
  }

  lemma {:induction false} LessIrreflexive(a: string)
    ensures !Less(a, a)
    decreases |a|
  {
    if a != [] { LessIrreflexive(a[1..]); }
  }

  lemma {:induction false} LessTotal(a: string, b: string)
    ensures a == b || Less(a, b) || Less(b, a)
    decreases |a|
  {
    if a != [] && b != [] && a[0] == b[0] {
      LessTotal(a[1..], b[1..]);
      assert a == [a[0]] + a[1..] && b == [b[0]] + b[1..];
    }
  }

  lemma {:induction false} LessTransitive(a: string, b: string, c: string)
    requires Less(a, b) && Less(b, c)
    ensures Less(a, c)
    decreases |a|
  {
    if a != [] && a[0] == b[0] && b[0] == c[0] { LessTransitive(a[1..], b[1..], c[1..]); }
  }

  lemma LessAsymmetric(a: string, b: string)
    requires Less(a, b)
    ensures !Less(b, a)
  {
    if Less(b, a) {
      LessTransitive(a, b, a);
      LessIrreflexive(a);
    }
  }

  /** Sorted without repetition. */
  predicate StrictlySorted(xs: seq<string>) {
    forall i, j | 0 <= i < j < |xs| :: Less(xs[i], xs[j])
  }

  lemma Inhabited(xs: seq<string>)
    ensures xs == [] || exists x :: x in xs
  {
    if xs != [] { assert xs[0] in xs; }
  }

  /** A strictly sorted list is determined by its elements. */
  lemma {:induction false} StrictlySortedUnique(xs: seq<string>, ys: seq<string>)
    requires StrictlySorted(xs) && StrictlySorted(ys)
    requires forall x :: x in xs <==> x in ys
    ensures xs == ys
    decreases |xs|
  {
    if xs == [] {
      Inhabited(ys);
    } else {
      assert xs[0] in xs && xs[0] in ys;
      var k :| 0 <= k < |ys| && ys[k] == xs[0];
      assert ys[0] in xs;
      var m :| 0 <= m < |xs| && xs[m] == ys[0];
      if k > 0 && m > 0 { LessAsymmetric(xs[0], ys[0]); }
      if k == 0 || m == 0 { assert xs[0] == ys[0]; }
      forall x ensures x in xs[1..] <==> x in ys[1..] {
        LessIrreflexive(xs[0]);
        if x in xs[1..] {
          assert x in ys;
          var j :| 0 <= j < |ys| && ys[j] == x;
          assert j != 0;
        }
        if x in ys[1..] {
          assert x in xs;
          var j :| 0 <= j < |xs| && xs[j] == x;
          assert j != 0;
        }
      }
      StrictlySortedUnique(xs[1..], ys[1..]);
    }
  }

  /** `a` ends where `b` goes on, or the first characters that differ decide. */
  predicate FirstDifferenceLess(a: string, b: string) {
    exists k | 0 <= k <= |a| && k < |b| :: a[..k] == b[..k] && (k == |a| || a[k] < b[k])
  }

  lemma {:induction false} LessExactly(a: string, b: string)
    ensures Less(a, b) <==> FirstDifferenceLess(a, b)
    decreases |a|
  {
    if a != [] && b != [] && a[0] == b[0] {
      LessExactly(a[1..], b[1..]);
      ShiftDifference(a, b);
    } else if |b| > 0 && (a == [] || a[0] < b[0]) {
      assert a[..0] == b[..0];
    } else {
      forall k | 0 <= k <= |a| && k < |b| ensures a[..k] == b[..k] ==> k < |a| && a[k] >= b[k] { }
    }
  }

  lemma ShiftDifference(a: string, b: string)
    requires a != [] && b != [] && a[0] == b[0]
    ensures FirstDifferenceLess(a, b) <==> FirstDifferenceLess(a[1..], b[1..])
  {
    if FirstDifferenceLess(a, b) {
      var k :| 0 <= k <= |a| && k < |b| && a[..k] == b[..k] && (k == |a| || a[k] < b[k]);
      SamePrefixes(a, b, k - 1);
    }
    if FirstDifferenceLess(a[1..], b[1..]) {
      var k :| 0 <= k <= |a[1..]| && k < |b[1..]| && a[1..][..k] == b[1..][..k] && (k == |a[1..]| || a[1..][k] < b[1..][k]);
      SamePrefixes(a, b, k);
    }
  }

  lemma SamePrefixes(a: string, b: string, k: nat)
    requires a != [] && b != [] && a[0] == b[0] && k < |a| && k < |b|
    ensures a[..k + 1] == b[..k + 1] <==> a[1..][..k] == b[1..][..k]
  {
    assert a[..k + 1] == [a[0]] + a[1..][..k];
    assert b[..k + 1] == [b[0]] + b[1..][..k];
  }
}
