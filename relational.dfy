/**
  The relational operators the transformation is built from, over tables
  represented as finite sequences of rows: projection (`select`), selection
  (`filter`) and duplicate elimination (`dropDuplicates`), plus the
  surrogate-id allocator that stands for `monotonically_increasing_id`.
 */
module Relational {

  /** No row occurs twice in the table. */
  predicate NoDuplicates<T(==)>(s: seq<T>) {
    forall i, j :: 0 <= i < j < |s| ==> s[i] != s[j]
  }

  /** `select`: the image of every row under a projection, in order. */
  function Select<T, U>(s: seq<T>, f: T -> U): seq<U> {
    seq(|s|, i requires 0 <= i < |s| => f(s[i]))
  }

  /** The rows of a projection are exactly the images of the input rows. */
  lemma SelectElements<T(!new), U(!new)>(s: seq<T>, f: T -> U)
    ensures forall x :: x in s ==> f(x) in Select(s, f)
    ensures forall y :: y in Select(s, f) <==> exists x :: x in s && y == f(x)
  {
    forall x | x in s ensures f(x) in Select(s, f) {
      var i :| 0 <= i < |s| && s[i] == x;
      assert Select(s, f)[i] == f(x);
    }
  }

  lemma SelectSnoc<T, U>(s: seq<T>, f: T -> U, x: T)
    ensures Select(s + [x], f) == Select(s, f) + [f(x)]
  {
  }

  lemma SelectConcat<T, U>(a: seq<T>, b: seq<T>, f: T -> U)
    ensures Select(a + b, f) == Select(a, f) + Select(b, f)
  {
  }

  /** Two tables without duplicates and without a common row concatenate to one without duplicates. */
  lemma NoDuplicatesConcat<T(!new)>(a: seq<T>, b: seq<T>)
    requires NoDuplicates(a) && NoDuplicates(b)
    requires forall x :: x in a ==> x !in b
    ensures NoDuplicates(a + b)
  {
    var c := a + b;
    forall i, j | 0 <= i < j < |c| ensures c[i] != c[j] {
      if i < |a| && j >= |a| {
        assert c[i] in a && c[j] == b[j - |a|];
      }
    }
  }

  /** `filter`: the rows that satisfy `keep`, in their original order. */
  function Filter<T(==,!new)>(s: seq<T>, keep: T -> bool): (r: seq<T>)
    ensures forall x :: x in r <==> x in s && keep(x)
    ensures forall x :: multiset(r)[x] == if keep(x) then multiset(s)[x] else 0
    ensures |r| <= |s|
  {
    if s == [] then []
    else
      var rest := Filter(s[..|s| - 1], keep);
      var last := s[|s| - 1];
      assert s == s[..|s| - 1] + [last];
      assert multiset(s) == multiset(s[..|s| - 1]) + multiset{last};
      if keep(last) then rest + [last] else rest
  }

  /** A single row passes exactly when it satisfies the condition; with FilterConcat this fixes the order of the rows kept. */
  lemma FilterSingleton<T(!new)>(x: T, keep: T -> bool)
    ensures Filter([x], keep) == if keep(x) then [x] else []
  {
    assert [x][..0] == [];
  }

  /** Filtering twice by the same condition is filtering once. */
  lemma {:induction false} FilterIdempotent<T(!new)>(s: seq<T>, keep: T -> bool)
    ensures Filter(Filter(s, keep), keep) == Filter(s, keep)
  {
    if s != [] {
      var p, x := s[..|s| - 1], s[|s| - 1];
      assert s == p + [x];
      FilterIdempotent(p, keep);
      FilterSnoc(p, keep, x);
      FilterSnoc(Filter(p, keep), keep, x);
    }
  }

  /** Filtering distributes over concatenation. */
  lemma {:induction false} FilterConcat<T(!new)>(a: seq<T>, b: seq<T>, keep: T -> bool)
    ensures Filter(a + b, keep) == Filter(a, keep) + Filter(b, keep)
  {
    if b != [] {
      var p, x := b[..|b| - 1], b[|b| - 1];
      assert b == p + [x];
      assert a + b == (a + p) + [x];
      FilterConcat(a, p, keep);
      FilterSnoc(a + p, keep, x);
      FilterSnoc(p, keep, x);
    } else {
      assert a + b == a;
    }
  }

  /** A condition no row satisfies selects nothing. */
  lemma {:induction false} FilterNone<T(!new)>(s: seq<T>, keep: T -> bool)
    requires forall x :: x in s ==> !keep(x)
    ensures Filter(s, keep) == []
  {
    if s != [] {
      var p, x := s[..|s| - 1], s[|s| - 1];
      assert s == p + [x];
      FilterNone(p, keep);
      FilterSnoc(p, keep, x);
    }
  }

  /** A condition that only one row of a table satisfies selects exactly that row. */
  lemma {:induction false} FilterSingle<T(!new)>(s: seq<T>, keep: T -> bool, k: int)
    requires 0 <= k < |s| && keep(s[k])
    requires forall i :: 0 <= i < |s| && keep(s[i]) ==> i == k
    ensures Filter(s, keep) == [s[k]]
  {
    var p, x := s[..|s| - 1], s[|s| - 1];
    assert s == p + [x];
    FilterSnoc(p, keep, x);
    if k == |s| - 1 {
      forall y | y in p ensures !keep(y) {
        var i :| 0 <= i < |p| && p[i] == y;
        assert s[i] == y;
      }
      FilterNone(p, keep);
    } else {
      assert !keep(s[|s| - 1]);
      FilterSingle(p, keep, k);
      assert p[k] == s[k];
    }
  }

  /**
    `dropDuplicates`: every distinct row exactly once. The engine leaves the
    order open; the model keeps each row at its first occurrence.
   */
  function Distinct<T(==,!new)>(s: seq<T>): (r: seq<T>)
    ensures NoDuplicates(r)
    ensures forall x :: x in r <==> x in s
    ensures |r| <= |s|
  {
    if s == [] then []
    else
      var rest := Distinct(s[..|s| - 1]);
      var last := s[|s| - 1];
      assert s == s[..|s| - 1] + [last];
      if last in rest then rest else rest + [last]
  }

  lemma DistinctSnoc<T(!new)>(s: seq<T>, x: T)
    ensures Distinct(s + [x]) == if x in s then Distinct(s) else Distinct(s) + [x]
  {
    assert (s + [x])[..|s|] == s;
  }

  lemma FilterSnoc<T(!new)>(s: seq<T>, keep: T -> bool, x: T)
    ensures Filter(s + [x], keep) == if keep(x) then Filter(s, keep) + [x] else Filter(s, keep)
  {
    assert (s + [x])[..|s|] == s;
  }

  /** Removing duplicates from a table that has none changes nothing. */
  lemma {:induction false} DistinctOfNoDuplicates<T(!new)>(s: seq<T>)
    requires NoDuplicates(s)
    ensures Distinct(s) == s
  {
    if s != [] {
      var p, x := s[..|s| - 1], s[|s| - 1];
      assert s == p + [x];
      assert NoDuplicates(p);
      DistinctOfNoDuplicates(p);
      assert x !in p by {
        forall k | 0 <= k < |p| ensures p[k] != x {
          assert s[k] == p[k] && s[|s| - 1] == x;
        }
      }
      DistinctSnoc(p, x);
    }
  }

  /** Filtering and duplicate elimination commute, order included. */
  lemma {:induction false} FilterDistinctCommute<T(!new)>(s: seq<T>, keep: T -> bool)
    ensures Filter(Distinct(s), keep) == Distinct(Filter(s, keep))
  {
    if s != [] {
      var p, x := s[..|s| - 1], s[|s| - 1];
      assert s == p + [x];
      FilterDistinctCommute(p, keep);
      DistinctSnoc(p, x);
      FilterSnoc(p, keep, x);
      FilterSnoc(Distinct(p), keep, x);
      if keep(x) {
        DistinctSnoc(Filter(p, keep), x);
      }
    }
  }

  /**
    `monotonically_increasing_id`: the engine promises only that the ids it
    hands out along a table increase strictly. Row `i` of a table gets
    `alloc(i)`; nothing else is assumed about the values.
   */
  type Allocator = f: nat -> int | forall i: nat, j: nat :: i < j ==> f(i) < f(j)
    witness (i: nat) => i as int
}
