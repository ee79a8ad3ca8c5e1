/** Sequence operations the JavaScript code leans on: `Array.prototype.filter`, and the
    ordering a SQL `ORDER BY` imposes on the rows it returns. */
module Seqs {

  /** The elements of `s` that pass `keep`, in their order. */
  function Filter<T>(s: seq<T>, keep: T -> bool): (r: seq<T>)
    ensures |r| <= |s|
    decreases |s|
  {
    if s == [] then []
    else Filter(s[..|s| - 1], keep) + (if keep(s[|s| - 1]) then [s[|s| - 1]] else [])
  }

  /** An element survives the filter exactly when it was there and passes the test. */
  lemma {:induction false} FilterMembers<T>(s: seq<T>, keep: T -> bool)
    ensures forall x :: x in Filter(s, keep) <==> x in s && keep(x)
    decreases |s|
  {
    if s != [] {
      FilterMembers(s[..|s| - 1], keep);
      assert s == s[..|s| - 1] + [s[|s| - 1]];
    }
  }

  /** Filtering keeps the original order: it distributes over concatenation. */
  lemma {:induction false} FilterAppend<T>(a: seq<T>, b: seq<T>, keep: T -> bool)
    ensures Filter(a + b, keep) == Filter(a, keep) + Filter(b, keep)
    decreases |b|
  {
    if b == [] {
      assert a + b == a;
    } else {
      var b' := b[..|b| - 1];
      assert (a + b)[..|a + b| - 1] == a + b';
      assert (a + b)[|a + b| - 1] == b[|b| - 1];
      FilterAppend(a, b', keep);
    }
  }

  /** A filter that every element passes changes nothing. */
  lemma {:induction false} FilterAll<T>(s: seq<T>, keep: T -> bool)
    requires forall i :: 0 <= i < |s| ==> keep(s[i])
    ensures Filter(s, keep) == s
    decreases |s|
  {
    if s != [] {
      FilterAll(s[..|s| - 1], keep);
    }
  }

  /** `r` is `s` with some elements dropped and the rest in their original order (matched
      greedily from the back). */
  predicate Subsequence<T(==)>(r: seq<T>, s: seq<T>)
    decreases |s|
  {
    if r == [] then true
    else if s == [] then false
    else if r[|r| - 1] == s[|s| - 1] then Subsequence(r[..|r| - 1], s[..|s| - 1])
    else Subsequence(r, s[..|s| - 1])
  }

  /** A filtered list is an order-preserving subsequence of the list. */
  lemma {:induction false} FilterSubsequence<T>(s: seq<T>, keep: T -> bool)
    ensures Subsequence(Filter(s, keep), s)
    decreases |s|
  {
    if s != [] {
      var init := s[..|s| - 1];
      var x := s[|s| - 1];
      var f := Filter(init, keep);
      FilterSubsequence(init, keep);
      if keep(x) {
        assert Filter(s, keep) == f + [x];
        assert (f + [x])[..|f + [x]| - 1] == f;
      } else {
        assert Filter(s, keep) == f;
        if f != [] {
          FilterMembers(init, keep);
          assert f[|f| - 1] in f;
          assert f[|f| - 1] != x;
        }
      }
    }
  }

  /** Number of elements that pass `keep`. */
  function Count<T>(s: seq<T>, keep: T -> bool): (n: nat)
    ensures n == |Filter(s, keep)|
  {
    |Filter(s, keep)|
  }

  /** Filtering by a test keeps every element except those its complement counts. */
  lemma {:induction false} FilterComplement<T>(s: seq<T>, keep: T -> bool, drop: T -> bool)
    requires forall x :: drop(x) == !keep(x)
    ensures |Filter(s, keep)| + Count(s, drop) == |s|
    decreases |s|
  {
    if s != [] {
      FilterComplement(s[..|s| - 1], keep, drop);
    }
  }

  /** The count is zero exactly when no element passes the test. */
  lemma {:induction false} CountZero<T>(s: seq<T>, keep: T -> bool)
    ensures Count(s, keep) == 0 <==> forall i :: 0 <= i < |s| ==> !keep(s[i])
    decreases |s|
  {
    if s != [] {
      var init := s[..|s| - 1];
      CountZero(init, keep);
      assert forall i :: 0 <= i < |init| ==> init[i] == s[i];
    }
  }

  /** Counts under two tests that never hold together add up to the count under either. */
  lemma {:induction false} CountDisjoint<T>(s: seq<T>, p: T -> bool, q: T -> bool, pq: T -> bool)
    requires forall x :: !(p(x) && q(x))
    requires forall x :: pq(x) == (p(x) || q(x))
    ensures Count(s, p) + Count(s, q) == Count(s, pq)
    decreases |s|
  {
    if s != [] {
      CountDisjoint(s[..|s| - 1], p, q, pq);
    }
  }

  ghost predicate Total<T(!new)>(le: (T, T) -> bool) {
    forall x: T, y: T :: le(x, y) || le(y, x)
  }

  ghost predicate Transitive<T(!new)>(le: (T, T) -> bool) {
    forall x: T, y: T, z: T :: le(x, y) && le(y, z) ==> le(x, z)
  }

  /** Every element comes no later, under `le`, than every element after it. */
  ghost predicate SortedBy<T>(s: seq<T>, le: (T, T) -> bool) {
    forall i, j :: 0 <= i < j < |s| ==> le(s[i], s[j])
  }

  /** Places `x` before the first element it precedes. */
  function InsertBy<T>(x: T, s: seq<T>, le: (T, T) -> bool): (r: seq<T>)
    ensures multiset(r) == multiset(s) + multiset{x}
    ensures |r| == |s| + 1
  {
    if s == [] then [x]
    else if le(x, s[0]) then [x] + s
    else
      assert s == [s[0]] + s[1..];
      [s[0]] + InsertBy(x, s[1..], le)
  }

  /** Every element of the inserted sequence is `x` or an element of `s`. */
  lemma {:induction false} InsertByMembers<T>(x: T, s: seq<T>, le: (T, T) -> bool)
    ensures forall y :: y in InsertBy(x, s, le) <==> y == x || y in s
  {
    var r := InsertBy(x, s, le);
    forall y ensures y in r <==> y == x || y in s {
      calc {
        y in r;
        multiset(r)[y] > 0;
        (multiset(s) + multiset{x})[y] > 0;
        y == x || y in s;
      }
    }
  }

  lemma {:induction false} InsertBySorted<T(!new)>(x: T, s: seq<T>, le: (T, T) -> bool)
    requires Total(le) && Transitive(le)
    requires SortedBy(s, le)
    ensures SortedBy(InsertBy(x, s, le), le)
  {
    if s != [] && !le(x, s[0]) {
      var rest := InsertBy(x, s[1..], le);
      InsertBySorted(x, s[1..], le);
      InsertByMembers(x, s[1..], le);
      assert le(s[0], x);
      forall j | 0 <= j < |rest| ensures le(s[0], rest[j]) {
        assert rest[j] in rest;
        if rest[j] != x {
          var k :| 0 <= k < |s[1..]| && s[1..][k] == rest[j];
          assert s[k + 1] == rest[j];
        }
      }
      var r := [s[0]] + rest;
      forall i, j | 0 <= i < j < |r| ensures le(r[i], r[j]) {
        if i == 0 {
          assert r[j] == rest[j - 1];
        } else {
          assert r[i] == rest[i - 1] && r[j] == rest[j - 1];
        }
      }
    }
  }

  /** The rows in `le` order (an insertion sort standing for the database's `ORDER BY`). */
  function SortBy<T>(s: seq<T>, le: (T, T) -> bool): (r: seq<T>)
    ensures multiset(r) == multiset(s)
    ensures |r| == |s|
    decreases |s|
  {
    if s == [] then []
    else
      assert s == s[..|s| - 1] + [s[|s| - 1]];
      InsertBy(s[|s| - 1], SortBy(s[..|s| - 1], le), le)
  }

  /** Under a total preorder the result of `SortBy` is sorted. */
  lemma {:induction false} SortBySorted<T(!new)>(s: seq<T>, le: (T, T) -> bool)
    requires Total(le) && Transitive(le)
    ensures SortedBy(SortBy(s, le), le)
    decreases |s|
  {
    if s != [] {
      SortBySorted(s[..|s| - 1], le);
      InsertBySorted(s[|s| - 1], SortBy(s[..|s| - 1], le), le);
    }
  }
}
