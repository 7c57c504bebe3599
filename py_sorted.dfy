/** Python's `sorted(enumerate(scores), key=lambda kv: -kv[1])`, seen through
    the indices it yields. Python's sort is stable, so the result is the
    ordering of the indices by descending score, equal scores keeping
    ascending index order. The model sorts by insertion; any stable sort
    gives the same sequence, as `SortedUnique` shows. */
module PySorted {

  /** Index `i` precedes index `j` in the sorted output. */
  predicate Before(scores: seq<real>, i: nat, j: nat) {
    i < |scores| && j < |scores| &&
    (scores[i] > scores[j] || (scores[i] == scores[j] && i < j))
  }

  /** Every pair of positions of `s` is in output order (hence `s` has no
      duplicates and only valid indices). */
  predicate SortedByScore(scores: seq<real>, s: seq<nat>) {
    forall a, b :: 0 <= a < b < |s| ==> Before(scores, s[a], s[b])
  }

  /** Inserts index `x` into an ordered `s` at its place. */
  function Insert(scores: seq<real>, x: nat, s: seq<nat>): (r: seq<nat>)
    requires x < |scores| && x !in s
    requires SortedByScore(scores, s)
    requires forall y :: y in s ==> y < |scores|
    ensures |r| == |s| + 1
    ensures forall y :: y in r <==> y == x || y in s
    ensures SortedByScore(scores, r)
  {
    if s == [] then [x]
    else if Before(scores, x, s[0]) then
      assert forall b :: 0 <= b < |s| ==> Before(scores, x, s[b]) by {
        forall b | 0 <= b < |s| ensures Before(scores, x, s[b]) {
          if b > 0 { assert Before(scores, s[0], s[b]); }
        }
      }
      [x] + s
    else
      var t := Insert(scores, x, s[1..]);
      assert s[0] in s && s[0] != x;
      assert Before(scores, s[0], x);
      assert forall y :: y in t ==> Before(scores, s[0], y) by {
        forall y | y in t ensures Before(scores, s[0], y) {
          if y != x {
            var b :| 0 <= b < |s[1..]| && s[1..][b] == y;
            assert Before(scores, s[0], s[b + 1]);
          }
        }
      }
      [s[0]] + t
  }

  /** The indices `0 .. n-1`, in output order. */
  function SortIndices(scores: seq<real>, n: nat): (r: seq<nat>)
    requires n <= |scores|
    ensures |r| == n
    ensures forall y: nat :: y in r <==> y < n
    ensures SortedByScore(scores, r)
  {
    if n == 0 then [] else Insert(scores, n - 1, SortIndices(scores, n - 1))
  }

  /** `[i for i, _ in sorted(enumerate(scores), key=lambda kv: -kv[1])]`. */
  function SortedIndices(scores: seq<real>): (r: seq<nat>)
    ensures |r| == |scores|
    ensures forall y: nat :: y in r <==> y < |scores|
    ensures SortedByScore(scores, r)
  {
    SortIndices(scores, |scores|)
  }

  /** Two output-ordered sequences of the same indices are equal: the
      stable descending order is unique, whichever algorithm produces it. */
  lemma {:induction false} SortedUnique(scores: seq<real>, a: seq<nat>, b: seq<nat>)
    requires SortedByScore(scores, a) && SortedByScore(scores, b)
    requires |a| == |b|
    requires forall y :: y in a <==> y in b
    ensures a == b
    decreases |a|
  {
    if a != [] {
      var x, y := a[0], b[0];
      assert x in a && y in b;
      assert x == y || Before(scores, y, x) by {
        var k :| 0 <= k < |b| && b[k] == x;
        if k > 0 { assert Before(scores, b[0], b[k]); }
      }
      assert x == y || Before(scores, x, y) by {
        var m :| 0 <= m < |a| && a[m] == y;
        if m > 0 { assert Before(scores, a[0], a[m]); }
      }
      forall y ensures y in a[1..] ==> y in b[1..] {
        if y in a[1..] {
          var k :| 0 <= k < |a[1..]| && a[1..][k] == y;
          assert Before(scores, a[0], y);
          assert y in b;
          var j :| 0 <= j < |b| && b[j] == y;
          assert b[1..][j - 1] == y;
        }
      }
      forall y ensures y in b[1..] ==> y in a[1..] {
        if y in b[1..] {
          var k :| 0 <= k < |b[1..]| && b[1..][k] == y;
          assert Before(scores, b[0], y);
          assert y in a;
          var j :| 0 <= j < |a| && a[j] == y;
          assert a[1..][j - 1] == y;
        }
      }
      SortedUnique(scores, a[1..], b[1..]);
      assert a == [a[0]] + a[1..] && b == [b[0]] + b[1..];
    }
  }

  /** That `SortedIndices` is the stable descending order of all indices. */
  lemma SortedIndicesIsTheStableOrder(scores: seq<real>, order: seq<nat>)
    requires SortedByScore(scores, order)
    requires |order| == |scores|
    requires forall y: nat :: y in order <==> y < |scores|
    ensures order == SortedIndices(scores)
  {
    SortedUnique(scores, order, SortedIndices(scores));
  }
}
