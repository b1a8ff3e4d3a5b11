/** Small facts about sequences shared by the IR generator, the block splitter
    and the assembly generator. */
module Seqs {

  import opened Wrappers

  /** No element occurs twice. */
  predicate NoDuplicates<T(==)>(s: seq<T>) {
    forall i, j :: 0 <= i < j < |s| ==> s[i] != s[j]
  }

  /** Two duplicate-free sequences with no common element concatenate to a
      duplicate-free sequence. */
  lemma NoDuplicatesConcat<T>(a: seq<T>, b: seq<T>)
    requires NoDuplicates(a) && NoDuplicates(b)
    requires forall x :: x in a ==> x !in b
    ensures NoDuplicates(a + b)
  {
    forall i, j | 0 <= i < j < |a + b|
      ensures (a + b)[i] != (a + b)[j]
    {
      if i < |a| && j >= |a| {
        assert (a + b)[i] in a && (a + b)[j] in b;
      }
    }
  }

  /** Every element has a number, and it lies in `[lo, hi)`. */
  ghost predicate Within<T>(s: seq<T>, num: T -> Option<nat>, lo: nat, hi: nat) {
    forall x :: x in s ==> num(x).Some? && lo <= num(x).value < hi
  }

  /** Duplicate-free sequences numbered in adjacent ranges concatenate to a
      duplicate-free sequence numbered in the joined range. */
  lemma AppendWithin<T>(s1: seq<T>, s2: seq<T>, num: T -> Option<nat>, lo: nat, mid: nat, hi: nat)
    requires NoDuplicates(s1) && NoDuplicates(s2)
    requires Within(s1, num, lo, mid) && Within(s2, num, mid, hi)
    requires lo <= mid <= hi
    ensures NoDuplicates(s1 + s2) && Within(s1 + s2, num, lo, hi)
  {
    assert forall x :: x in s1 ==> num(x).value < mid;
    NoDuplicatesConcat(s1, s2);
    forall x | x in s1 + s2
      ensures num(x).Some? && lo <= num(x).value < hi
    {
      assert x in s1 || x in s2;
    }
  }

  /** Concatenates the pieces `f` gives for each element, in order. */
  function FlatMap<T, U>(s: seq<T>, f: T -> seq<U>): (r: seq<U>)
    ensures |s| == 0 ==> r == []
    decreases |s|
  {
    if |s| == 0 then [] else f(s[0]) + FlatMap(s[1..], f)
  }

  lemma {:induction false} FlatMapConcat<T, U>(a: seq<T>, b: seq<T>, f: T -> seq<U>)
    ensures FlatMap(a + b, f) == FlatMap(a, f) + FlatMap(b, f)
    decreases |a|
  {
    if |a| > 0 {
      assert (a + b)[0] == a[0] && (a + b)[1..] == a[1..] + b;
      FlatMapConcat(a[1..], b, f);
    } else {
      assert a + b == b;
    }
  }

  lemma FlatMapSingle<T, U>(x: T, f: T -> seq<U>)
    ensures FlatMap([x], f) == f(x)
  {
    assert FlatMap([x], f) == f(x) + FlatMap([x][1..], f);
  }

  /** An element of the result comes from some element of the input. */
  lemma {:induction false} FlatMapMember<T, U>(s: seq<T>, f: T -> seq<U>, y: U)
    requires y in FlatMap(s, f)
    ensures exists i :: 0 <= i < |s| && y in f(s[i])
    decreases |s|
  {
    if y !in f(s[0]) {
      FlatMapMember(s[1..], f, y);
      var i :| 0 <= i < |s[1..]| && y in f(s[1..][i]);
      assert s[i + 1] == s[1..][i];
    }
  }

  lemma FlatMapSnoc<T, U>(s: seq<T>, x: T, f: T -> seq<U>)
    ensures FlatMap(s + [x], f) == FlatMap(s, f) + f(x)
  {
    FlatMapConcat(s, [x], f);
    FlatMapSingle(x, f);
  }

  lemma FlatMapPair<T, U>(x: T, y: T, f: T -> seq<U>)
    ensures FlatMap([x, y], f) == f(x) + f(y)
  {
    assert [x, y] == [x] + [y];
    FlatMapConcat([x], [y], f);
    FlatMapSingle(x, f);
    FlatMapSingle(y, f);
  }

  lemma FlatMapConcat3<T, U>(a: seq<T>, b: seq<T>, c: seq<T>, f: T -> seq<U>)
    ensures FlatMap(a + b + c, f) == FlatMap(a, f) + FlatMap(b, f) + FlatMap(c, f)
  {
    FlatMapConcat(a + b, c, f);
    FlatMapConcat(a, b, f);
  }

  /** Of seven stretches, those whose pieces are all empty drop out of the
      result, leaving the pieces of the other three in order. */
  lemma FlatMapAroundQuiet<T, U>(a: seq<T>, p: seq<T>, b: seq<T>, q: seq<T>, c: seq<T>, r: seq<T>, d: seq<T>, f: T -> seq<U>,
                                 x1: U, x2: U, x3: U, x4: U, x5: U, x6: U)
    requires FlatMap(a, f) == [] && FlatMap(b, f) == [] && FlatMap(c, f) == [] && FlatMap(d, f) == []
    requires FlatMap(p, f) == [x1, x2, x3] && FlatMap(q, f) == [x4, x5] && FlatMap(r, f) == [x6]
    ensures FlatMap(a + p + b + q + c + r + d, f) == [x1, x2, x3, x4, x5, x6]
  {
    var s3, s5 := [x1, x2, x3], [x1, x2, x3, x4, x5];
    assert FlatMap(a + p, f) == s3 by {
      FlatMapConcat(a, p, f);
    }
    assert FlatMap(a + p + b, f) == s3 by {
      FlatMapConcat(a + p, b, f);
      assert s3 + [] == s3;
    }
    assert FlatMap(a + p + b + q, f) == s5 by {
      FlatMapConcat(a + p + b, q, f);
    }
    assert FlatMap(a + p + b + q + c, f) == s5 by {
      FlatMapConcat(a + p + b + q, c, f);
      assert s5 + [] == s5;
    }
    assert FlatMap(a + p + b + q + c + r, f) == s5 + [x6] by {
      FlatMapConcat(a + p + b + q + c, r, f);
    }
    FlatMapConcat(a + p + b + q + c + r, d, f);
    assert s5 + [x6] + [] == [x1, x2, x3, x4, x5, x6];
  }

  /** Every piece of an element is part of the result. */
  lemma FlatMapIncludes<T, U>(s: seq<T>, f: T -> seq<U>, i: nat)
    requires i < |s|
    ensures forall y :: y in f(s[i]) ==> y in FlatMap(s, f)
  {
    assert s == s[..i] + [s[i]] + s[i + 1..];
    FlatMapConcat3(s[..i], [s[i]], s[i + 1..], f);
    FlatMapSingle(s[i], f);
  }
}
