/** Sorting lists of strings, and the one-element insertion that keeps a list sorted. */
module Sorting {
  import opened Basics
  import opened StringOrder

  predicate Sorted(xs: seq<string>) {
    forall i, j | 0 <= i < j < |xs| :: !Less(xs[j], xs[i])
  }

  /** Put `value` before the first entry that is not smaller. */
  function Insert(values: seq<string>, value: string): (r: seq<string>)
    ensures multiset(r) == multiset(values) + multiset{value}
    ensures |r| == |values| + 1
  {
    if values == [] || !Less(values[0], value) then
      assert multiset([value] + values) == multiset{value} + multiset(values);
      [value] + values
    else
      assert values == [values[0]] + values[1..];
      [values[0]] + Insert(values[1..], value)
  }

  function Sort(xs: seq<string>): (r: seq<string>)
    ensures multiset(r) == multiset(xs) && |r| == |xs|
  {
    if xs == [] then [] else
    assert xs == [xs[0]] + xs[1..];
    Insert(Sort(xs[1..]), xs[0])
  }

  lemma InMultiset(xs: seq<string>, ys: seq<string>)
    requires multiset(xs) == multiset(ys)
    ensures forall x :: x in xs <==> x in ys
    ensures |xs| == |ys|
  {
    assert forall x :: x in xs <==> x in multiset(xs);
    assert forall x :: x in ys <==> x in multiset(ys);
    assert |multiset(xs)| == |xs| && |multiset(ys)| == |ys|;
  }

  lemma InsertMembers(values: seq<string>, value: string)
    ensures forall x :: x in Insert(values, value) <==> x in values || x == value
  {
    assert forall x :: x in Insert(values, value) <==> x in multiset(Insert(values, value));
    assert forall x :: x in values <==> x in multiset(values);
  }

  lemma {:induction false} InsertSorts(values: seq<string>, value: string)
    requires Sorted(values)
    ensures Sorted(Insert(values, value))
  {
    if values == [] {
    } else if !Less(values[0], value) {
      forall j | 0 <= j < |values| ensures !Less(values[j], value) {
        if Less(values[j], value) {
          LessTotal(values[0], values[j]);
          if Less(values[0], values[j]) { LessTransitive(values[0], values[j], value); }
        }
      }
      assert Insert(values, value) == [value] + values;
    } else {
      var rest := Insert(values[1..], value);
      InsertSorts(values[1..], value);
      InsertMembers(values[1..], value);
      LessAsymmetric(values[0], value);
      forall j | 0 <= j < |rest| ensures !Less(rest[j], values[0]) {
        assert rest[j] in rest;
        if rest[j] != value {
          var i :| 0 <= i < |values[1..]| && values[1..][i] == rest[j];
          assert rest[j] == values[i + 1];
        }
      }
      assert Insert(values, value) == [values[0]] + rest;
    }
  }

  lemma {:induction false} SortSorts(xs: seq<string>)
    ensures Sorted(Sort(xs))
  {
    if xs != [] {
      SortSorts(xs[1..]);
      InsertSorts(Sort(xs[1..]), xs[0]);
    }
  }

  /** Among sorted lists without repetition, the order is strict. */
  lemma SortedStrictly(xs: seq<string>)
    requires Sorted(xs) && Distinct(xs)
    ensures StrictlySorted(xs)
  {
    forall i, j | 0 <= i < j < |xs| ensures Less(xs[i], xs[j]) { LessTotal(xs[i], xs[j]); }
  }

  /** Repetition is a matter of the multiset alone. */
  lemma DistinctByMultiset(xs: seq<string>, ys: seq<string>)
    requires multiset(xs) == multiset(ys) && Distinct(xs)
    ensures Distinct(ys)
  {
    forall i, j | 0 <= i < j < |ys| ensures ys[i] != ys[j] {
      InMultiset(xs, ys);
      CountTwice(ys, i, j);
      CountOnce(xs, ys[i]);
    }
  }

  lemma CountTwice(ys: seq<string>, i: int, j: int)
    requires 0 <= i < j < |ys|
    ensures ys[i] == ys[j] ==> multiset(ys)[ys[i]] >= 2
  {
    var rest := ys[..j] + ys[j + 1..];
    assert ys == ys[..j] + [ys[j]] + ys[j + 1..];
    assert rest[i] == ys[i];
    assert multiset(ys) == multiset(rest) + multiset{ys[j]};
    assert ys[i] in multiset(rest);
  }

  lemma CountOnce(xs: seq<string>, x: string)
    requires Distinct(xs)
    ensures multiset(xs)[x] <= 1
  {
    if xs != [] {
      var rest := xs[1..];
      assert xs == [xs[0]] + rest;
      CountOnce(rest, x);
      assert xs[0] in rest <==> xs[0] in multiset(rest);
    }
  }

  /** Sorted lists without repetition and with the same elements are equal. */
  lemma SortedUnique(xs: seq<string>, ys: seq<string>)
    requires Sorted(xs) && Sorted(ys) && Distinct(xs) && multiset(xs) == multiset(ys)
    ensures xs == ys
  {
    DistinctByMultiset(xs, ys);
    InMultiset(xs, ys);
    SortedStrictly(xs);
    SortedStrictly(ys);
    StrictlySortedUnique(xs, ys);
  }

  lemma SortOfSorted(xs: seq<string>)
    requires Sorted(xs) && Distinct(xs)
    ensures Sort(xs) == xs
  {
    SortSorts(xs);
    SortedUnique(xs, Sort(xs));
  }
}
