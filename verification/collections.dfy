/**
 * Sequence operations shared by the SQL and pandas parts of the model:
 * counting rows that satisfy a condition (`COUNT`, `len(df[mask])`), keeping
 * them (`WHERE`), and ordering rows (`ORDER BY`, `sort_values`).
 */
module Collections {

  function Min(a: nat, b: nat): (r: nat)
    ensures r <= a && r <= b && (r == a || r == b)
  {
    if a <= b then a else b
  }

  /** The number of elements of `xs` that satisfy `keep`. */
  function Count<T>(xs: seq<T>, keep: T -> bool): (n: nat)
    ensures n <= |xs|
  {
    if |xs| == 0 then 0
    else (if keep(xs[0]) then 1 else 0) + Count(xs[1..], keep)
  }

  /** The elements of `xs` that satisfy `keep`, in their original order. */
  function Filter<T(!new)>(xs: seq<T>, keep: T -> bool): (r: seq<T>)
    ensures forall x :: multiset(r)[x] == if keep(x) then multiset(xs)[x] else 0
    ensures |r| == Count(xs, keep)
  {
    if |xs| == 0 then []
    else
      assert xs == [xs[0]] + xs[1..];
      (if keep(xs[0]) then [xs[0]] else []) + Filter(xs[1..], keep)
  }

  /** An element of `xs` is kept exactly when it satisfies `keep`. */
  lemma FilterMembership<T(!new)>(xs: seq<T>, keep: T -> bool, p: T)
    requires p in xs
    ensures p in Filter(xs, keep) <==> keep(p)
  {
    var r := Filter(xs, keep);
    assert p in multiset(xs);
    assert p in r <==> p in multiset(r);
  }

  /** Splitting a sequence splits its count. */
  lemma {:induction false} CountAppend<T>(a: seq<T>, b: seq<T>, keep: T -> bool)
    ensures Count(a + b, keep) == Count(a, keep) + Count(b, keep)
    decreases |a|
  {
    if |a| > 0 {
      assert (a + b)[0] == a[0];
      assert (a + b)[1..] == a[1..] + b;
      CountAppend(a[1..], b, keep);
    } else {
      assert a + b == b;
    }
  }

  /**
   * A count reads only the multiset of elements: reordering rows does not
   * change it. The kept elements of both sequences form the same multiset.
   */
  lemma CountPermutation<T(!new)>(a: seq<T>, b: seq<T>, keep: T -> bool)
    requires multiset(a) == multiset(b)
    ensures Count(a, keep) == Count(b, keep)
  {
    var fa, fb := Filter(a, keep), Filter(b, keep);
    assert multiset(fa) == multiset(fb);
    assert |fa| == |multiset(fa)| && |fb| == |multiset(fb)|;
  }

  /** An element that is present and satisfies `keep` is counted. */
  lemma {:induction false} CountPositive<T>(xs: seq<T>, keep: T -> bool, x: T)
    requires x in xs && keep(x)
    ensures Count(xs, keep) >= 1
    decreases |xs|
  {
    if xs[0] != x {
      CountPositive(xs[1..], keep, x);
    }
  }

  /** Nothing satisfies `keep` exactly when the count is zero. */
  lemma {:induction false} CountZero<T(!new)>(xs: seq<T>, keep: T -> bool)
    ensures Count(xs, keep) == 0 <==> forall x :: x in xs ==> !keep(x)
    decreases |xs|
  {
    if |xs| > 0 {
      CountZero(xs[1..], keep);
      assert forall x :: x in xs <==> x == xs[0] || x in xs[1..];
    }
  }

  /** Elements satisfying both conditions: `df[mask1][mask2]` reads as one mask `mask1 & mask2`. */
  function Both<T>(first: T -> bool, second: T -> bool): T -> bool {
    x => first(x) && second(x)
  }

  /** Counting inside the kept elements is counting with both conditions. */
  lemma {:induction false} CountOfFilter<T(!new)>(xs: seq<T>, keep: T -> bool, also: T -> bool)
    ensures Count(Filter(xs, keep), also) == Count(xs, Both(keep, also))
    decreases |xs|
  {
    if |xs| > 0 {
      var head: seq<T> := if keep(xs[0]) then [xs[0]] else [];
      CountAppend(head, Filter(xs[1..], keep), also);
      CountOfFilter(xs[1..], keep, also);
    }
  }

  /** `before` is a total preorder: any two elements compare, and comparison chains. */
  ghost predicate TotalPreorder<T(!new)>(before: (T, T) -> bool) {
    && (forall a, b :: before(a, b) || before(b, a))
    && (forall a, b, c :: before(a, b) && before(b, c) ==> before(a, c))
  }

  /** Every element of `s` comes no later than every element after it. */
  ghost predicate SortedBy<T>(s: seq<T>, before: (T, T) -> bool) {
    forall i, j :: 0 <= i < j < |s| ==> before(s[i], s[j])
  }

  /** Inserts `x` in front of the first element it comes no later than. */
  function Insert<T(!new)>(x: T, s: seq<T>, before: (T, T) -> bool): (r: seq<T>)
    requires TotalPreorder(before)
    requires SortedBy(s, before)
    ensures multiset(r) == multiset(s) + multiset{x}
    ensures SortedBy(r, before)
  {
    if |s| == 0 then [x]
    else if before(x, s[0]) then
      [x] + s
    else
      var tail := Insert(x, s[1..], before);
      assert s == [s[0]] + s[1..];
      assert forall j :: 0 <= j < |tail| ==> before(s[0], tail[j]) by {
        forall j | 0 <= j < |tail| ensures before(s[0], tail[j]) {
          assert tail[j] in multiset(tail);
          if tail[j] != x {
            assert tail[j] in multiset(s[1..]);
            var k :| 0 <= k < |s[1..]| && s[1..][k] == tail[j];
            assert s[k + 1] == tail[j];
          }
        }
      }
      [s[0]] + tail
  }

  /**
   * Stable insertion sort: the rows of `s` reordered so that `before` holds
   * between every earlier and later row.
   */
  function SortBy<T(!new)>(s: seq<T>, before: (T, T) -> bool): (r: seq<T>)
    requires TotalPreorder(before)
    ensures multiset(r) == multiset(s)
    ensures |r| == |s|
    ensures SortedBy(r, before)
  {
    if |s| == 0 then []
    else
      assert s == [s[0]] + s[1..];
      var r := Insert(s[0], SortBy(s[1..], before), before);
      assert |r| == |multiset(r)|;
      r
  }

  /** A sorted sequence splits into a head and a tail with no tail element ranking before a head element. */
  lemma SortedSplit<T>(s: seq<T>, before: (T, T) -> bool, n: nat)
    requires SortedBy(s, before) && n <= |s|
    ensures multiset(s) == multiset(s[..n]) + multiset(s[n..])
    ensures forall p, q :: p in s[..n] && q in s[n..] ==> before(p, q)
  {
    assert s == s[..n] + s[n..];
    forall p, q | p in s[..n] && q in s[n..]
      ensures before(p, q)
    {
      var i :| 0 <= i < n && s[i] == p;
      var j :| n <= j < |s| && s[j] == q;
    }
  }
}
