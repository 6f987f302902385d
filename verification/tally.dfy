/**
 * Per-category counting as the stock-history query does it: `GROUP BY
 * category` with `COUNT(...)` gives one row per category, `json_object_agg`
 * turns those rows into a category-to-count mapping, and `SUM(count)` gives
 * the total. Also the sum of a mapping's values and `dict.get(key, 0)`.
 */
module Tally {
  import opened Collections

  /** One row of the grouped query: a category and the number of rows that carry it. */
  datatype CategoryCount = CategoryCount(category: string, count: nat)

  /** The test `x == c`. */
  function Is(c: string): string -> bool {
    (x: string) => x == c
  }

  /** How many times `c` occurs in `cs`. */
  function Occurrences(cs: seq<string>, c: string): nat {
    Count(cs, Is(c))
  }

  /** The categories that have a row in `g`. */
  function Categories(g: seq<CategoryCount>): set<string> {
    if |g| == 0 then {} else {g[0].category} + Categories(g[1..])
  }

  /** No category has two rows, as `GROUP BY category` guarantees. */
  predicate DistinctCategories(g: seq<CategoryCount>) {
    |g| == 0 || (g[0].category !in Categories(g[1..]) && DistinctCategories(g[1..]))
  }

  /** Every group row stands for at least one counted row. */
  predicate PositiveCounts(g: seq<CategoryCount>) {
    forall i :: 0 <= i < |g| ==> g[i].count >= 1
  }

  /** The count recorded for `c`, or 0 when `c` has no row. */
  function CountOf(g: seq<CategoryCount>, c: string): nat {
    if |g| == 0 then 0
    else if g[0].category == c then g[0].count
    else CountOf(g[1..], c)
  }

  /** `SUM(count)` over the group rows. */
  function SumCounts(g: seq<CategoryCount>): nat {
    if |g| == 0 then 0 else g[0].count + SumCounts(g[1..])
  }

  /** Counts one more row of category `c`. */
  function Bump(g: seq<CategoryCount>, c: string): (r: seq<CategoryCount>)
    requires DistinctCategories(g) && PositiveCounts(g)
    ensures DistinctCategories(r) && PositiveCounts(r)
    ensures Categories(r) == Categories(g) + {c}
    ensures forall d :: CountOf(r, d) == CountOf(g, d) + (if d == c then 1 else 0)
    ensures SumCounts(r) == SumCounts(g) + 1
  {
    if |g| == 0 then [CategoryCount(c, 1)]
    else if g[0].category == c then
      assert CountOf(g[1..], c) == 0 by { CountOfAbsent(g[1..], c); }
      [CategoryCount(c, g[0].count + 1)] + g[1..]
    else
      var tail := Bump(g[1..], c);
      var r := [g[0]] + tail;
      assert r[1..] == tail;
      r
  }

  /** A category without a row has count 0. */
  lemma {:induction false} CountOfAbsent(g: seq<CategoryCount>, c: string)
    requires c !in Categories(g)
    ensures CountOf(g, c) == 0
    decreases |g|
  {
    if |g| > 0 {
      CountOfAbsent(g[1..], c);
    }
  }

  /**
   * The group rows of a list of categories: one row per distinct category,
   * holding the number of times it occurs; the counts add up to the length.
   */
  function GroupCategories(cs: seq<string>): (g: seq<CategoryCount>)
    ensures DistinctCategories(g) && PositiveCounts(g)
    ensures forall c :: c in Categories(g) <==> c in cs
    ensures forall c :: CountOf(g, c) == Occurrences(cs, c)
    ensures SumCounts(g) == |cs|
  {
    if |cs| == 0 then []
    else
      assert forall c :: c in cs <==> c == cs[0] || c in cs[1..];
      Bump(GroupCategories(cs[1..]), cs[0])
  }

  /** `json_object_agg(category, count)`, decoded: the group rows as a mapping. */
  function ToMap(g: seq<CategoryCount>): (m: map<string, nat>)
    requires DistinctCategories(g)
    ensures m.Keys == Categories(g)
    ensures forall c :: c in m ==> m[c] == CountOf(g, c)
  {
    if |g| == 0 then map[] else ToMap(g[1..])[g[0].category := g[0].count]
  }

  /** Some key of a non-empty mapping. */
  ghost function AnyKey(m: map<string, nat>): (k: string)
    requires |m| > 0
    ensures k in m
  {
    var k :| k in m; k
  }

  /** The sum of a mapping's values. */
  ghost function SumValues(m: map<string, nat>): nat
    decreases |m|
  {
    if |m| == 0 then 0
    else
      var k := AnyKey(m);
      assert (m - {k}).Keys == m.Keys - {k};
      m[k] + SumValues(m - {k})
  }

  /** The sum may be taken starting from any key. */
  lemma {:induction false} SumValuesRemove(m: map<string, nat>, k: string)
    requires k in m
    ensures SumValues(m) == m[k] + SumValues(m - {k})
    decreases |m|
  {
    var j := AnyKey(m);
    if j != k {
      var mj, mk := m - {j}, m - {k};
      assert |mj| < |m| && k in mj && mj[k] == m[k] by {
        assert mj.Keys == m.Keys - {j};
      }
      assert |mk| < |m| && j in mk && mk[j] == m[j] by {
        assert mk.Keys == m.Keys - {k};
      }
      SumValuesRemove(mj, k);
      SumValuesRemove(mk, j);
      assert mj - {k} == mk - {j};
    }
  }

  /** `SUM(count)` and the sum of the aggregated mapping's values agree. */
  lemma {:induction false} SumValuesOfToMap(g: seq<CategoryCount>)
    requires DistinctCategories(g)
    ensures SumValues(ToMap(g)) == SumCounts(g)
    decreases |g|
  {
    if |g| == 0 {
      assert ToMap(g) == map[];
    } else {
      var m := ToMap(g);
      SumValuesRemove(m, g[0].category);
      assert m - {g[0].category} == ToMap(g[1..]);
      SumValuesOfToMap(g[1..]);
    }
  }

  /** The mapping built from a list of categories: its keys are the categories, its values their occurrences. */
  lemma TallyOfCategories(cs: seq<string>)
    ensures ToMap(GroupCategories(cs)).Keys == set c | c in cs
    ensures forall c :: c in cs ==> ToMap(GroupCategories(cs))[c] == Occurrences(cs, c) >= 1
    ensures SumValues(ToMap(GroupCategories(cs))) == SumCounts(GroupCategories(cs)) == |cs|
  {
    TallyKeys(cs);
    SumValuesOfToMap(GroupCategories(cs));
    forall c | c in cs
      ensures ToMap(GroupCategories(cs))[c] == Occurrences(cs, c) >= 1
    {
      GroupedCountPositive(cs, c);
    }
  }

  /** The aggregated mapping has a key for each category that occurs, and no other. */
  lemma TallyKeys(cs: seq<string>)
    ensures ToMap(GroupCategories(cs)).Keys == set c | c in cs
  {
    var m := ToMap(GroupCategories(cs));
    assert forall c :: c in m.Keys <==> c in cs;
  }

  /** A category that occurs has a group whose count is its number of occurrences, at least 1. */
  lemma GroupedCountPositive(cs: seq<string>, c: string)
    requires c in cs
    ensures c in ToMap(GroupCategories(cs))
    ensures ToMap(GroupCategories(cs))[c] == Occurrences(cs, c) >= 1
  {
    var g := GroupCategories(cs);
    CountOfPositive(g, c);
  }

  /** A category with a row has a positive count. */
  lemma {:induction false} CountOfPositive(g: seq<CategoryCount>, c: string)
    requires PositiveCounts(g) && c in Categories(g)
    ensures CountOf(g, c) >= 1
    decreases |g|
  {
    if g[0].category != c {
      CountOfPositive(g[1..], c);
    }
  }

  /** `m.get(c, 0)`. */
  function Lookup(m: map<string, nat>, c: string): nat {
    if c in m then m[c] else 0
  }

  /** The values of `m` read at each of `keys`, added up, absent keys reading as 0. */
  function SumLookups(keys: seq<string>, m: map<string, nat>): nat {
    if |keys| == 0 then 0 else Lookup(m, keys[0]) + SumLookups(keys[1..], m)
  }

  ghost predicate Distinct(keys: seq<string>) {
    forall i, j :: 0 <= i < j < |keys| ==> keys[i] != keys[j]
  }

  lemma {:induction false} SumLookupsIgnores(keys: seq<string>, m: map<string, nat>, k: string)
    requires k !in keys
    ensures SumLookups(keys, m) == SumLookups(keys, m - {k})
    decreases |keys|
  {
    if |keys| > 0 {
      SumLookupsIgnores(keys[1..], m, k);
    }
  }

  /**
   * Reading a mapping at a list of distinct keys that covers all of its keys
   * and adding up the readings gives the sum of its values.
   */
  lemma {:induction false} SumLookupsCovers(keys: seq<string>, m: map<string, nat>)
    requires Distinct(keys)
    requires forall c :: c in m ==> c in keys
    ensures SumLookups(keys, m) == SumValues(m)
    decreases |keys|
  {
    if |keys| == 0 {
      assert m == map[];
    } else {
      var k := keys[0];
      var rest := keys[1..];
      assert Distinct(rest);
      assert k !in rest;
      if k in m {
        SumLookupsIgnores(rest, m, k);
        SumLookupsCovers(rest, m - {k});
        SumValuesRemove(m, k);
      } else {
        SumLookupsCovers(rest, m);
      }
    }
  }
}
