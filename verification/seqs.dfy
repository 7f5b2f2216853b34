/** The query shapes the services build on a table: `eq` filters, bulk `update ... eq`,
    `order` and `limit`. Tables are sequences of rows in insertion order. */
module Seqs {

  /** Rows of `s` that satisfy `p`, in their original order. */
  function Filter<T(!new)>(s: seq<T>, p: T -> bool): (r: seq<T>)
    ensures |r| <= |s|
    ensures forall x :: x in r <==> x in s && p(x)
    decreases |s|
  {
    if s == [] then []
    else
      assert s == s[..|s| - 1] + [s[|s| - 1]];
      Filter(s[..|s| - 1], p) + (if p(s[|s| - 1]) then [s[|s| - 1]] else [])
  }

  /** The positions of `s` whose row passes `p`. */
  function Passing<T>(s: seq<T>, p: T -> bool): set<int> {
    set i | 0 <= i < |s| && p(s[i])
  }

  /** A filter keeps as many rows as there are positions whose row passes. */
  lemma {:induction false} FilterCount<T(!new)>(s: seq<T>, p: T -> bool)
    ensures |Filter(s, p)| == |Passing(s, p)|
    decreases |s|
  {
    if s != [] {
      var t := s[..|s| - 1];
      FilterCount(t, p);
      PassingSnoc(s, p);
    }
  }

  /** One more row adds its position exactly when it passes. */
  lemma PassingSnoc<T>(s: seq<T>, p: T -> bool)
    requires s != []
    ensures |Passing(s, p)| == |Passing(s[..|s| - 1], p)| + (if p(s[|s| - 1]) then 1 else 0)
  {
    var t := s[..|s| - 1];
    var before, after := Passing(t, p), Passing(s, p);
    var last: set<int> := if p(s[|s| - 1]) then {|t|} else {};
    forall i | i in after
      ensures i in before + last
    {
      if i < |t| {
        assert t[i] == s[i];
      }
    }
    forall i | i in before + last
      ensures i in after
    {
      if i in before {
        assert t[i] == s[i];
      }
    }
    assert after == before + last;
    assert before * last == {};
  }

  /** Filtering a table that has grown by one row. */
  lemma FilterSnoc<T(!new)>(s: seq<T>, x: T, p: T -> bool)
    ensures Filter(s + [x], p) == Filter(s, p) + (if p(x) then [x] else [])
  {
    assert (s + [x])[..|s + [x]| - 1] == s;
  }

  /** Filtering with a predicate that already holds of every row keeps the table. */
  lemma {:induction false} FilterKeepsAll<T(!new)>(s: seq<T>, p: T -> bool)
    requires forall x :: x in s ==> p(x)
    ensures Filter(s, p) == s
    decreases |s|
  {
    if s != [] {
      var t := s[..|s| - 1];
      var x := s[|s| - 1];
      assert s == t + [x];
      FilterKeepsAll(t, p);
      FilterSnocKept(t, x, p);
    }
  }

  /** A kept row appended to a table its filter keeps whole is kept too. */
  lemma FilterSnocKept<T(!new)>(t: seq<T>, x: T, p: T -> bool)
    requires p(x) && Filter(t, p) == t
    ensures Filter(t + [x], p) == t + [x]
  {
    FilterSnoc(t, x, p);
  }

  /** Filtering with a predicate that holds of no row leaves nothing. */
  lemma {:induction false} FilterNone<T(!new)>(s: seq<T>, p: T -> bool)
    requires forall i :: 0 <= i < |s| ==> !p(s[i])
    ensures Filter(s, p) == []
    decreases |s|
  {
    if s != [] {
      FilterNone(s[..|s| - 1], p);
    }
  }

  /** Filtering by a predicate that implies another keeps at most as many rows. */
  lemma {:induction false} FilterMonotone<T(!new)>(s: seq<T>, p: T -> bool, q: T -> bool)
    requires forall x :: p(x) ==> q(x)
    ensures |Filter(s, p)| <= |Filter(s, q)|
    decreases |s|
  {
    if s != [] {
      FilterMonotone(s[..|s| - 1], p, q);
    }
  }

  /** Two predicates that agree on every row filter alike. */
  lemma {:induction false} FilterCongruent<T(!new)>(s: seq<T>, p: T -> bool, q: T -> bool)
    requires forall i :: 0 <= i < |s| ==> p(s[i]) == q(s[i])
    ensures Filter(s, p) == Filter(s, q)
    decreases |s|
  {
    if s != [] {
      FilterCongruent(s[..|s| - 1], p, q);
    }
  }

  /** `update ... eq`: every row satisfying `p` is replaced by `f` of it, the others stay. */
  function UpdateWhere<T>(s: seq<T>, p: T -> bool, f: T -> T): (r: seq<T>)
    ensures |r| == |s|
    ensures forall i :: 0 <= i < |s| ==> r[i] == if p(s[i]) then f(s[i]) else s[i]
  {
    seq(|s|, i requires 0 <= i < |s| => if p(s[i]) then f(s[i]) else s[i])
  }

  /** An update that cannot change whether a row passes `q` keeps the number of rows passing `q`. */
  lemma {:induction false} UpdateWhereKeepsCount<T(!new)>(s: seq<T>, p: T -> bool, f: T -> T, q: T -> bool)
    requires forall x :: p(x) ==> q(f(x)) == q(x)
    ensures |Filter(UpdateWhere(s, p, f), q)| == |Filter(s, q)|
    decreases |s|
  {
    if s != [] {
      var init := s[..|s| - 1];
      UpdateWhereKeepsCount(init, p, f, q);
      assert UpdateWhere(s, p, f)[..|s| - 1] == UpdateWhere(init, p, f);
    }
  }

  /** `limit(n)`: the first `n` rows, or all of them when there are fewer. */
  function Take<T>(s: seq<T>, n: nat): (r: seq<T>)
    ensures |r| <= n && |r| <= |s|
    ensures |r| == n || |r| == |s|
    ensures r == s[..|r|]
    ensures multiset(r) <= multiset(s)
  {
    if |s| <= n then s
    else
      assert s == s[..n] + s[n..];
      s[..n]
  }

  /** `le` orders rows totally, ties allowed: what an `order` clause compares by. */
  ghost predicate TotalPreorder<T(!new)>(le: (T, T) -> bool) {
    && (forall a, b :: le(a, b) || le(b, a))
    && (forall a, b, c :: le(a, b) && le(b, c) ==> le(a, c))
  }

  /** Every earlier row comes no later than every later row. */
  predicate SortedBy<T>(s: seq<T>, le: (T, T) -> bool) {
    forall i, j :: 0 <= i < j < |s| ==> le(s[i], s[j])
  }

  /** Puts `x` into its place in the sorted sequence `s`. */
  function InsertBy<T(!new)>(x: T, s: seq<T>, le: (T, T) -> bool): (r: seq<T>)
    requires TotalPreorder(le)
    requires SortedBy(s, le)
    ensures SortedBy(r, le)
    ensures multiset(r) == multiset(s) + multiset{x}
    ensures forall y :: y in r <==> y == x || y in s
  {
    if s == [] then [x]
    else if le(x, s[0]) then [x] + s
    else
      var rest := InsertBy(x, s[1..], le);
      assert s == [s[0]] + s[1..];
      assert forall y :: y in rest ==> le(s[0], y);
      [s[0]] + rest
  }

  /** `order(...)`: a permutation of the rows that is sorted by `le`. */
  function SortBy<T(!new)>(s: seq<T>, le: (T, T) -> bool): (r: seq<T>)
    requires TotalPreorder(le)
    ensures SortedBy(r, le)
    ensures multiset(r) == multiset(s)
    ensures |r| == |s|
    ensures forall y :: y in r <==> y in s
  {
    if s == [] then []
    else
      assert s == [s[0]] + s[1..];
      InsertBy(s[0], SortBy(s[1..], le), le)
  }

  /** A prefix of a sorted sequence is sorted. */
  lemma TakeSorted<T>(s: seq<T>, n: nat, le: (T, T) -> bool)
    requires SortedBy(s, le)
    ensures SortedBy(Take(s, n), le)
  {
  }

  /** What `limit(n)` leaves out of a sorted sequence comes after everything it keeps. */
  lemma {:induction false} TakeKeepsFirst<T(!new)>(s: seq<T>, n: nat, le: (T, T) -> bool, x: T)
    requires SortedBy(s, le)
    requires x in s && x !in Take(s, n)
    ensures |Take(s, n)| == n
    ensures forall y :: y in Take(s, n) ==> le(y, x)
  {
    var t := Take(s, n);
    var j :| 0 <= j < |s| && s[j] == x;
    assert forall i :: 0 <= i < |t| ==> s[i] in t;
    forall y | y in t
      ensures le(y, x)
    {
      var i :| 0 <= i < |t| && t[i] == y;
      assert s[i] == y;
    }
  }

  /** `order(...).limit(n)` over the rows passing `p`: a sorted page of at most `n` of those
      rows, none more often than the table holds it; a passing row left out means the page is
      full of rows that come no later than it. */
  function Page<T(!new)>(s: seq<T>, p: T -> bool, le: (T, T) -> bool, n: nat): (r: seq<T>)
    requires TotalPreorder(le)
    ensures |r| <= n
    ensures SortedBy(r, le)
    ensures multiset(r) <= multiset(Filter(s, p))
    ensures forall x :: x in r ==> x in s && p(x)
    ensures forall x :: x in s && p(x) && x !in r ==> |r| == n && forall y :: y in r ==> le(y, x)
  {
    var sorted := SortBy(Filter(s, p), le);
    var page := Take(sorted, n);
    assert forall x :: x in page ==> x in sorted;
    forall x | x in s && p(x) && x !in page
      ensures |page| == n && forall y :: y in page ==> le(y, x)
    {
      TakeKeepsFirst(sorted, n, le, x);
    }
    page
  }
}
