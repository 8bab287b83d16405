/** Order-preserving selection and stable sorting of sequences: what the source's
    `retain`, `filter`, `take`, `drain` and `sort_by` calls compute. */
module Seqs {

  datatype Option<+T> = None | Some(value: T)

  datatype Result<+T, +E> = Ok(value: T) | Err(error: E)

  function Min(a: int, b: int): int { if a <= b then a else b }

  function Max(a: int, b: int): int { if a <= b then b else a }

  /** Subtraction that stops at zero. */
  function SatSub(a: nat, b: nat): nat { if a <= b then 0 else a - b }

  function Last<T>(s: seq<T>): T
    requires s != []
  {
    s[|s| - 1]
  }

  function Front<T>(s: seq<T>): seq<T>
    requires s != []
  {
    s[..|s| - 1]
  }

  /** At most the first `n` elements. */
  function Take<T>(s: seq<T>, n: nat): seq<T> { if n < |s| then s[..n] else s }

  function RemoveAt<T>(s: seq<T>, i: nat): seq<T>
    requires i < |s|
  {
    s[..i] + s[i + 1..]
  }

  function Map<T, U>(s: seq<T>, f: T -> U): (r: seq<U>)
    ensures |r| == |s| && forall i :: 0 <= i < |s| ==> r[i] == f(s[i])
  {
    seq(|s|, i requires 0 <= i < |s| => f(s[i]))
  }

  /** The elements satisfying `p`, in order. */
  function Filter<T>(s: seq<T>, p: T -> bool): (r: seq<T>)
    ensures |r| <= |s|
  {
    if s == [] then [] else Filter(Front(s), p) + (if p(Last(s)) then [Last(s)] else [])
  }

  lemma {:induction false} FilterMembers<T>(s: seq<T>, p: T -> bool)
    ensures forall x :: x in Filter(s, p) <==> x in s && p(x)
  {
    if s != [] {
      FilterMembers(Front(s), p);
      assert s == Front(s) + [Last(s)];
    }
  }

  lemma FilterSnoc<T>(s: seq<T>, x: T, p: T -> bool)
    ensures Filter(s + [x], p) == Filter(s, p) + (if p(x) then [x] else [])
  {
    assert Front(s + [x]) == s;
  }

  lemma {:induction false} FilterConcat<T>(s: seq<T>, t: seq<T>, p: T -> bool)
    ensures Filter(s + t, p) == Filter(s, p) + Filter(t, p)
  {
    if t == [] {
      assert s + t == s;
    } else {
      assert s + t == (s + Front(t)) + [Last(t)];
      FilterSnoc(s + Front(t), Last(t), p);
      FilterConcat(s, Front(t), p);
    }
  }

  lemma SplitAround<T>(s: seq<T>, i: nat)
    requires i < |s|
    ensures s == s[..i] + [s[i]] + s[i + 1..]
  {
  }

  /** A filter splits around any one element. */
  lemma FilterSplit<T>(s: seq<T>, i: nat, p: T -> bool)
    requires i < |s|
    ensures Filter(s, p) == Filter(s[..i], p) + (if p(s[i]) then [s[i]] else []) + Filter(s[i + 1..], p)
  {
    var a, x, b := s[..i], s[i], s[i + 1..];
    assert Filter(s, p) == Filter(a + [x], p) + Filter(b, p) by {
      SplitAround(s, i);
      FilterConcat(a + [x], b, p);
    }
    FilterSnoc(a, x, p);
  }

  /** Filtering by `p` and then by `q` is one pass with any `r` that agrees with both on `s`. */
  lemma {:induction false} FilterFuse<T>(s: seq<T>, p: T -> bool, q: T -> bool, r: T -> bool)
    requires forall x :: x in s ==> (r(x) <==> p(x) && q(x))
    ensures Filter(Filter(s, p), q) == Filter(s, r)
  {
    if s != [] {
      FilterFuse(Front(s), p, q, r);
      if p(Last(s)) {
        FilterSnoc(Filter(Front(s), p), Last(s), q);
      } else {
        assert Filter(s, p) == Filter(Front(s), p);
      }
    }
  }

  lemma {:induction false} FilterAgree<T>(s: seq<T>, p: T -> bool, q: T -> bool)
    requires forall x :: x in s ==> p(x) == q(x)
    ensures Filter(s, p) == Filter(s, q)
  {
    if s != [] {
      FilterAgree(Front(s), p, q);
    }
  }

  lemma {:induction false} FilterAll<T>(s: seq<T>, p: T -> bool)
    requires forall x :: x in s ==> p(x)
    ensures Filter(s, p) == s
  {
    if s != [] {
      FilterAll(Front(s), p);
    }
  }

  lemma {:induction false} FilterNone<T>(s: seq<T>, p: T -> bool)
    requires forall x :: x in s ==> !p(x)
    ensures Filter(s, p) == []
  {
    if s != [] {
      FilterNone(Front(s), p);
    }
  }

  /** Filtering a sequence by a property and by its complement loses nothing. */
  lemma {:induction false} FilterPartition<T>(s: seq<T>, p: T -> bool, q: T -> bool)
    requires forall x :: x in s ==> p(x) != q(x)
    ensures |Filter(s, p)| + |Filter(s, q)| == |s|
  {
    if s != [] {
      FilterPartition(Front(s), p, q);
    }
  }

  lemma {:induction false} FilterMonotone<T>(s: seq<T>, p: T -> bool, q: T -> bool)
    requires forall x :: x in s && p(x) ==> q(x)
    ensures |Filter(s, p)| <= |Filter(s, q)|
  {
    if s != [] {
      FilterMonotone(Front(s), p, q);
    }
  }

  /** A filtered sequence contains no duplicate the original did not. */
  lemma {:induction false} FilterDistinct<T>(s: seq<T>, p: T -> bool)
    requires Distinct(s)
    ensures Distinct(Filter(s, p))
  {
    if s != [] {
      assert Distinct(Front(s));
      FilterDistinct(Front(s), p);
      FilterMembers(Front(s), p);
    }
  }

  ghost predicate Distinct<T>(s: seq<T>) {
    forall i, j :: 0 <= i < j < |s| ==> s[i] != s[j]
  }

  // ---- Stable sorting ------------------------------------------------------

  /** `le` is a total preorder: what a comparator handed to a sort has to be. */
  ghost predicate TotalPreorder<T(!new)>(le: (T, T) -> bool) {
    && (forall x, y :: le(x, y) || le(y, x))
    && (forall x, y, z :: le(x, y) && le(y, z) ==> le(x, z))
  }

  ghost predicate Sorted<T>(s: seq<T>, le: (T, T) -> bool) {
    forall i, j :: 0 <= i < j < |s| ==> le(s[i], s[j])
  }

  /** Put `x` behind every element of `s` that is not after it. */
  function Insert<T>(s: seq<T>, x: T, le: (T, T) -> bool): (r: seq<T>)
    ensures |r| == |s| + 1
  {
    if s == [] || le(Last(s), x) then s + [x] else Insert(Front(s), x, le) + [Last(s)]
  }

  /** The stable sort: equal elements keep their order. */
  function SortBy<T>(s: seq<T>, le: (T, T) -> bool): (r: seq<T>)
    ensures |r| == |s|
  {
    if s == [] then [] else Insert(SortBy(Front(s), le), Last(s), le)
  }

  lemma {:induction false} InsertPermutes<T>(s: seq<T>, x: T, le: (T, T) -> bool)
    ensures multiset(Insert(s, x, le)) == multiset(s) + multiset{x}
  {
    if s == [] || le(Last(s), x) {
    } else {
      InsertPermutes(Front(s), x, le);
      assert s == Front(s) + [Last(s)];
    }
  }

  lemma {:induction false} SortPermutes<T>(s: seq<T>, le: (T, T) -> bool)
    ensures multiset(SortBy(s, le)) == multiset(s)
  {
    if s != [] {
      SortPermutes(Front(s), le);
      InsertPermutes(SortBy(Front(s), le), Last(s), le);
      assert s == Front(s) + [Last(s)];
    }
  }

  lemma {:induction false} InsertMembers<T>(s: seq<T>, x: T, le: (T, T) -> bool)
    ensures forall y :: y in Insert(s, x, le) <==> y in s || y == x
  {
    if s == [] || le(Last(s), x) {
    } else {
      InsertMembers(Front(s), x, le);
      assert s == Front(s) + [Last(s)];
    }
  }

  lemma {:induction false} SortMembers<T>(s: seq<T>, le: (T, T) -> bool)
    ensures forall y :: y in SortBy(s, le) <==> y in s
  {
    if s != [] {
      SortMembers(Front(s), le);
      InsertMembers(SortBy(Front(s), le), Last(s), le);
      assert s == Front(s) + [Last(s)];
    }
  }

  lemma {:induction false} InsertDistinct<T>(s: seq<T>, x: T, le: (T, T) -> bool)
    requires Distinct(s) && x !in s
    ensures Distinct(Insert(s, x, le))
  {
    if s == [] || le(Last(s), x) {
    } else {
      InsertDistinct(Front(s), x, le);
      InsertMembers(Front(s), x, le);
      assert Last(s) !in Front(s);
    }
  }

  lemma {:induction false} SortDistinct<T>(s: seq<T>, le: (T, T) -> bool)
    requires Distinct(s)
    ensures Distinct(SortBy(s, le))
  {
    if s != [] {
      SortDistinct(Front(s), le);
      SortMembers(Front(s), le);
      InsertDistinct(SortBy(Front(s), le), Last(s), le);
    }
  }

  lemma {:induction false} InsertSorted<T(!new)>(s: seq<T>, x: T, le: (T, T) -> bool)
    requires TotalPreorder(le) && Sorted(s, le)
    ensures Sorted(Insert(s, x, le), le)
  {
    if s == [] || le(Last(s), x) {
    } else {
      InsertSorted(Front(s), x, le);
      InsertMembers(Front(s), x, le);
      var r := Insert(Front(s), x, le);
      forall i | 0 <= i < |r| ensures le(r[i], Last(s)) {
        assert r[i] in Front(s) || r[i] == x;
      }
    }
  }

  lemma {:induction false} SortSorted<T(!new)>(s: seq<T>, le: (T, T) -> bool)
    requires TotalPreorder(le)
    ensures Sorted(SortBy(s, le), le)
  {
    if s != [] {
      SortSorted(Front(s), le);
      InsertSorted(SortBy(Front(s), le), Last(s), le);
    }
  }

  lemma LeLast<T(!new)>(s: seq<T>, y: T, x: T, le: (T, T) -> bool)
    requires TotalPreorder(le) && Sorted(s, le) && y in s && le(Last(s), x)
    ensures le(y, x)
  {
    var i :| 0 <= i < |s| && s[i] == y;
    assert le(y, Last(s));
  }

  /** A filter passes through an insertion into a sorted sequence. */
  lemma {:induction false} FilterInsert<T(!new)>(s: seq<T>, x: T, le: (T, T) -> bool, p: T -> bool)
    requires TotalPreorder(le) && Sorted(s, le)
    ensures Filter(Insert(s, x, le), p) == if p(x) then Insert(Filter(s, p), x, le) else Filter(s, p)
  {
    if s == [] || le(Last(s), x) {
      FilterSnoc(s, x, p);
      FilterMembers(s, p);
      if Filter(s, p) != [] {
        LeLast(s, Last(Filter(s, p)), x, le);
      }
    } else {
      FilterSnoc(Insert(Front(s), x, le), Last(s), p);
      FilterInsert(Front(s), x, le, p);
      if p(Last(s)) {
        assert Front(Filter(s, p)) == Filter(Front(s), p);
      } else {
        assert Filter(s, p) == Filter(Front(s), p);
      }
    }
  }

  /** Filtering commutes with stable sorting. */
  lemma {:induction false} FilterSort<T(!new)>(s: seq<T>, le: (T, T) -> bool, p: T -> bool)
    requires TotalPreorder(le)
    ensures Filter(SortBy(s, le), p) == SortBy(Filter(s, p), le)
  {
    if s != [] {
      FilterSort(Front(s), le, p);
      SortSorted(Front(s), le);
      FilterInsert(SortBy(Front(s), le), Last(s), le, p);
      if p(Last(s)) {
        assert Front(Filter(s, p)) == Filter(Front(s), p);
      } else {
        assert Filter(s, p) == Filter(Front(s), p);
      }
    }
  }

  /** The first `n` of the sorted selection: what is in it, in which order, and what it leaves out. */
  lemma TopOfSelection<T(!new)>(s: seq<T>, p: T -> bool, le: (T, T) -> bool, n: nat)
    requires TotalPreorder(le)
    ensures var r := Take(SortBy(Filter(s, p), le), n);
            && |r| == Min(n, |Filter(s, p)|)
            && (forall x :: x in r ==> x in s && p(x))
            && (|r| < n ==> forall x :: x in s && p(x) ==> x in r)
            && (forall i, j :: 0 <= i < j < |r| ==> le(r[i], r[j]))
            && (forall x, y :: x in r && y in s && p(y) && y !in r ==> le(x, y))
  {
    var sorted := SortBy(Filter(s, p), le);
    var r := Take(sorted, n);
    FilterMembers(s, p);
    SortMembers(Filter(s, p), le);
    SortSorted(Filter(s, p), le);
    hide SortBy, Filter;
    forall x, y | x in r && y in s && p(y) && y !in r ensures le(x, y) {
      var i :| 0 <= i < |r| && r[i] == x;
      assert y in sorted;
      var j :| 0 <= j < |sorted| && sorted[j] == y;
      assert j >= |r| ==> le(sorted[i], sorted[j]);
      assert j < |r| ==> r[j] == y;
    }
  }
}
