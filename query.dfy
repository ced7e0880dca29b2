/**
 * The relational primitives the services' queries are built from:
 * `WHERE` (a filter that keeps row order), `ORDER BY` (a stable sort by a
 * total preorder), `LIMIT` and `LIMIT … OFFSET …`.
 */
module Query {

  /** `le` orders every pair of rows and is transitive: a valid `ORDER BY` key. */
  ghost predicate TotalPreorder<T(!new)>(le: (T, T) -> bool) {
    && (forall a, b :: le(a, b) || le(b, a))
    && (forall a, b, c :: le(a, b) && le(b, c) ==> le(a, c))
  }

  /** Every row comes no later in the order than every row after it. */
  predicate SortedBy<T>(s: seq<T>, le: (T, T) -> bool) {
    forall i, j :: 0 <= i < j < |s| ==> le(s[i], s[j])
  }

  /** `SELECT … WHERE p`: the rows satisfying `p`, each as often as in `s`, in their order. */
  function Where<T(!new)>(s: seq<T>, p: T -> bool): (r: seq<T>)
    ensures |r| <= |s|
    ensures forall x :: multiset(r)[x] == if p(x) then multiset(s)[x] else 0
    ensures forall x :: x in r <==> x in s && p(x)
  {
    if s == [] then []
    else
      var init, last := s[..|s| - 1], s[|s| - 1];
      assert s == init + [last];
      var w := Where(init, p);
      if p(last) then w + [last] else w
  }

  /** `Where` keeps a row appended to the table exactly when the row satisfies the filter. */
  lemma WhereAppend<T(!new)>(s: seq<T>, x: T, p: T -> bool)
    ensures Where(s + [x], p) == if p(x) then Where(s, p) + [x] else Where(s, p)
  {
    assert (s + [x])[..|s + [x]| - 1] == s;
  }

  /** `x` inserted into the sorted `s` before the first row it does not follow. */
  function Insert<T(!new)>(x: T, s: seq<T>, le: (T, T) -> bool): (r: seq<T>)
    requires TotalPreorder(le) && SortedBy(s, le)
    ensures SortedBy(r, le)
    ensures multiset(r) == multiset(s) + multiset{x}
    ensures forall z :: z in r ==> z == x || z in s
  {
    if s == [] then [x]
    else if le(x, s[0]) then
      assert forall j :: 0 < j < |[x] + s| ==> ([x] + s)[j] == s[j - 1];
      [x] + s
    else
      var rest := Insert(x, s[1..], le);
      assert s == [s[0]] + s[1..];
      assert forall z :: z in rest ==> le(s[0], z) by {
        forall z | z in rest ensures le(s[0], z) {
          if z != x {
            var k :| 0 <= k < |s[1..]| && s[1..][k] == z;
            assert s[k + 1] == z;
          }
        }
      }
      assert forall j :: 0 < j < |[s[0]] + rest| ==> ([s[0]] + rest)[j] == rest[j - 1];
      [s[0]] + rest
  }

  /** `ORDER BY le`: a sorted permutation of `s` (an insertion sort, stable for ties). */
  function OrderBy<T(!new)>(s: seq<T>, le: (T, T) -> bool): (r: seq<T>)
    requires TotalPreorder(le)
    ensures SortedBy(r, le)
    ensures multiset(r) == multiset(s)
  {
    if s == [] then []
    else
      assert s == [s[0]] + s[1..];
      Insert(s[0], OrderBy(s[1..], le), le)
  }

  /** `LIMIT n`: the first `n` rows, or all of them when there are fewer. */
  function Limit<T>(s: seq<T>, n: nat): (r: seq<T>)
    ensures |r| == if n <= |s| then n else |s|
    ensures r == s[..|r|]
  {
    if n <= |s| then s[..n] else s
  }

  /** `LIMIT count OFFSET offset`: the rows at positions `offset` up to `offset + count`. */
  function LimitOffset<T>(s: seq<T>, count: nat, offset: nat): (r: seq<T>)
    ensures |r| <= count
    ensures offset >= |s| ==> r == []
    ensures offset < |s| ==> offset + |r| <= |s| && r == s[offset..offset + |r|]
    ensures offset < |s| ==> |r| == if offset + count <= |s| then count else |s| - offset
  {
    if offset >= |s| then [] else Limit(s[offset..], count)
  }

  /** `ORDER BY le LIMIT n`: at most `n` rows of `s`, sorted, and the best ones (see `LimitKeepsTop`). */
  function Top<T(!new)>(s: seq<T>, le: (T, T) -> bool, n: nat): (r: seq<T>)
    requires TotalPreorder(le)
    ensures |r| == if n <= |s| then n else |s|
    ensures SortedBy(r, le)
    ensures multiset(r) <= multiset(s)
    ensures forall x :: x in r ==> x in s
  {
    var sorted := OrderBy(s, le);
    var r := Limit(sorted, n);
    SortedPrefix(sorted, le, |r|);
    assert sorted == r + sorted[|r|..];
    assert multiset(sorted) == multiset(r) + multiset(sorted[|r|..]);
    assert |sorted| == |multiset(sorted)| == |multiset(s)| == |s|;
    assert forall x :: x in r ==> x in multiset(sorted);
    r
  }

  /** A row of `s` that `Top` leaves out comes no earlier in the order than any row it keeps. */
  lemma TopIsBest<T(!new)>(s: seq<T>, le: (T, T) -> bool, n: nat, x: T)
    requires TotalPreorder(le) && x in s && x !in Top(s, le, n)
    ensures forall y :: y in Top(s, le, n) ==> le(y, x)
  {
    var sorted := OrderBy(s, le);
    assert x in multiset(sorted);
    LimitKeepsTop(sorted, le, n, x);
  }

  /** Filters that agree on every row select the same rows. */
  lemma {:induction false} WhereCongruent<T(!new)>(s: seq<T>, p: T -> bool, q: T -> bool)
    requires forall x :: x in s ==> p(x) == q(x)
    ensures Where(s, p) == Where(s, q)
  {
    if s != [] {
      var init := s[..|s| - 1];
      assert forall x :: x in init ==> x in s;
      WhereCongruent(init, p, q);
    }
  }

  /**
   * `ORDER BY … LIMIT n` keeps the top rows: a row of `s` that the limit
   * cut off comes no earlier in the order than any row it kept.
   */
  lemma LimitKeepsTop<T>(s: seq<T>, le: (T, T) -> bool, n: nat, x: T)
    requires SortedBy(s, le) && x in s && x !in Limit(s, n)
    ensures forall y :: y in Limit(s, n) ==> le(y, x)
  {
    var r := Limit(s, n);
    var k :| 0 <= k < |s| && s[k] == x;
    assert forall i :: 0 <= i < |r| ==> r[i] == s[i] && r[i] != x;
    forall y | y in r ensures le(y, x) {
      var i :| 0 <= i < |r| && r[i] == y;
      assert s[i] == y;
    }
  }

  /** A prefix of a sorted sequence is sorted. */
  lemma SortedPrefix<T>(s: seq<T>, le: (T, T) -> bool, n: nat)
    requires SortedBy(s, le) && n <= |s|
    ensures SortedBy(s[..n], le)
  {
  }
}
