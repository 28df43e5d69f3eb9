/** The statistics the inventory offers over its items: the ranking by
    rental count (a stable sort, highest count first) and the rental counts
    summed per item name. Both are stream operations in the inventory and
    are pure functions of the item records here. */
module Popularity {
  import opened Wrappers
  import opened Seqs
  import opened Items

  /** The rental counts of the items, in list order. */
  function Counts(s: seq<ItemData>): (r: seq<int>)
    ensures |r| == |s| && forall k :: 0 <= k < |s| ==> r[k] == s[k].rentalCount
  {
    seq(|s|, k requires 0 <= k < |s| => s[k].rentalCount)
  }

  // ---------------------------------------------------------------------
  // ranking

  /** Position `x` comes before position `y` in the ranking: a higher count,
      or an equal count and an earlier position (the sort is stable). */
  predicate Before(counts: seq<int>, x: nat, y: nat)
    requires x < |counts| && y < |counts|
  {
    counts[x] > counts[y] || (counts[x] == counts[y] && x < y)
  }

  /** `order` lists positions of `counts`, each ranked before every later
      one. */
  predicate Ranked(counts: seq<int>, order: seq<nat>)
  {
    && (forall k :: 0 <= k < |order| ==> order[k] < |counts|)
    && (forall a, b :: 0 <= a < b < |order| ==> Before(counts, order[a], order[b]))
  }

  /** One step of the stable sort: position `i`, later than every position
      already ranked, goes after every position whose count is at least its
      own. */
  function Insert(counts: seq<int>, order: seq<nat>, i: nat): (r: seq<nat>)
    requires i < |counts| && forall k :: 0 <= k < |order| ==> order[k] < |counts|
    ensures forall x :: x in r <==> x in order || x == i
    ensures |r| == |order| + 1
  {
    if order == [] then [i]
    else if counts[i] > counts[order[0]] then [i] + order
    else
      assert order == [order[0]] + order[1..];
      [order[0]] + Insert(counts, order[1..], i)
  }

  /** Inserting a position later than every ranked one keeps the ranking. */
  lemma {:induction false} InsertRanked(counts: seq<int>, order: seq<nat>, i: nat)
    requires i < |counts| && Ranked(counts, order)
    requires forall k :: 0 <= k < |order| ==> order[k] < i
    ensures Ranked(counts, Insert(counts, order, i))
  {
    var r := Insert(counts, order, i);
    if order == [] {
    } else if counts[i] > counts[order[0]] {
      forall b | 0 < b < |r|
        ensures Before(counts, i, r[b])
      {
        if b > 1 {
          assert Before(counts, order[0], order[b - 1]);
        }
      }
    } else {
      var head, tail := order[0], order[1..];
      assert order == [head] + tail;
      var rest := Insert(counts, tail, i);
      InsertRanked(counts, tail, i);
      forall y | y in rest
        ensures y < |counts| && Before(counts, head, y)
      {
        if y != i {
          var b :| 0 <= b < |tail| && tail[b] == y;
          assert Before(counts, order[0], order[b + 1]);
        }
      }
      assert r == [head] + rest;
      forall a, b | 0 <= a < b < |r|
        ensures Before(counts, r[a], r[b])
      {
        if a == 0 {
          assert r[b] == rest[b - 1] && r[b] in rest;
        } else {
          assert r[a] == rest[a - 1] && r[b] == rest[b - 1];
        }
      }
    }
  }

  /** `sorted(comparingInt(rentalCount).reversed())` over the first `n`
      positions: a stable insertion sort, highest count first. */
  function SortByCount(counts: seq<int>, n: nat): (r: seq<nat>)
    requires n <= |counts|
    ensures Ranked(counts, r)
    ensures |r| == n && forall x :: x in r <==> 0 <= x < n
  {
    if n == 0 then []
    else
      var order := SortByCount(counts, n - 1);
      assert forall k :: 0 <= k < |order| ==> order[k] in order;
      InsertRanked(counts, order, n - 1);
      Insert(counts, order, n - 1)
  }

  /** A ranking lists no position twice. */
  lemma RankedDistinct(counts: seq<int>, order: seq<nat>)
    requires Ranked(counts, order)
    ensures forall a, b :: 0 <= a < b < |order| ==> order[a] != order[b]
  {
    forall a, b | 0 <= a < b < |order|
      ensures order[a] != order[b]
    {
      assert Before(counts, order[a], order[b]);
    }
  }

  /** `getMostPopularItems(limit)`: the first `limit` positions of the
      ranking, or all of them when there are fewer; a negative limit makes
      `Stream.limit` throw. */
  function MostPopular(counts: seq<int>, limit: int): (r: Option<seq<nat>>)
    ensures r.None? <==> limit < 0
    ensures r.Some? ==> |r.value| == (if limit < |counts| then limit else |counts|)
    ensures r.Some? ==> Ranked(counts, r.value)
  {
    if limit < 0 then None
    else
      var all := SortByCount(counts, |counts|);
      var m := if limit < |counts| then limit else |counts|;
      Some(all[..m])
  }

  /** The ranking's prefix holds the most rented items: every position it
      leaves out is ranked after every position it keeps, and no position
      is listed twice. */
  lemma {:induction false} MostPopularIsTop(counts: seq<int>, limit: int, j: nat, k: nat)
    requires limit >= 0 && k < |counts|
    requires j in MostPopular(counts, limit).value && k !in MostPopular(counts, limit).value
    ensures Before(counts, j, k)
  {
    var all := SortByCount(counts, |counts|);
    var m := if limit < |counts| then limit else |counts|;
    var top := all[..m];
    assert MostPopular(counts, limit).value == top;
    var a :| 0 <= a < m && top[a] == j;
    assert k in all;
    var p :| 0 <= p < |all| && all[p] == k;
    assert all[a] == j;
  }

  // ---------------------------------------------------------------------
  // rental counts summed per name

  /** The sum of all rental counts. */
  function SumCounts(s: seq<ItemData>): int
  {
    if s == [] then 0 else SumCounts(s[..|s| - 1]) + s[|s| - 1].rentalCount
  }

  /** The sum of the rental counts of the items called `name`. */
  function NameTotal(s: seq<ItemData>, name: string): int
  {
    if s == [] then 0
    else NameTotal(s[..|s| - 1], name) + (if s[|s| - 1].name == name then s[|s| - 1].rentalCount else 0)
  }

  /** Items of other names contribute nothing to a name's sum. */
  lemma {:induction false} NameTotalAbsent(s: seq<ItemData>, name: string)
    requires forall k :: 0 <= k < |s| ==> s[k].name != name
    ensures NameTotal(s, name) == 0
  {
    if s != [] {
      NameTotalAbsent(s[..|s| - 1], name);
    }
  }

  /** `groupingBy(getName, summingLong(getRentalCount))`: the items are
      taken in order, each adding its count to its name's entry. */
  function GroupSums(s: seq<ItemData>): (r: map<string, int>)
  {
    if s == [] then map[]
    else
      var m := GroupSums(s[..|s| - 1]);
      var name := s[|s| - 1].name;
      m[name := (if name in m then m[name] else 0) + s[|s| - 1].rentalCount]
  }

  /** One entry per distinct name, holding the summed counts of the items
      of that name. */
  lemma {:induction false} GroupSumsByName(s: seq<ItemData>)
    ensures GroupSums(s).Keys == set k | 0 <= k < |s| :: s[k].name
    ensures forall name :: name in GroupSums(s) ==> GroupSums(s)[name] == NameTotal(s, name)
  {
    if s != [] {
      var init, last := s[..|s| - 1], s[|s| - 1];
      var m := GroupSums(init);
      GroupSumsByName(init);
      assert forall k :: 0 <= k < |init| ==> init[k] == s[k];
      assert (set k | 0 <= k < |s| :: s[k].name) == (set k | 0 <= k < |init| :: init[k].name) + {last.name};
      if last.name !in m {
        NameTotalAbsent(init, last.name);
      }
    }
  }

  /** The sum of the values of a map. */
  ghost function MapSum(m: map<string, int>): int
    decreases |m|
  {
    if m == map[] then 0
    else
      var k :| k in m;
      m[k] + MapSum(m - {k})
  }

  /** The sum does not depend on which key is taken out first. */
  lemma {:induction false} MapSumRemove(m: map<string, int>, k: string)
    requires k in m
    ensures MapSum(m) == m[k] + MapSum(m - {k})
    decreases |m|
  {
    var j :| j in m && MapSum(m) == m[j] + MapSum(m - {j});
    if j != k {
      MapSumRemove(m - {j}, k);
      MapSumRemove(m - {k}, j);
      assert m - {j} - {k} == m - {k} - {j};
    }
  }

  /** Adding `d` to one key's value (a missing key counting as zero) adds
      `d` to the sum. */
  lemma MapSumAdd(m: map<string, int>, k: string, d: int)
    ensures MapSum(m[k := (if k in m then m[k] else 0) + d]) == MapSum(m) + d
  {
    var m' := m[k := (if k in m then m[k] else 0) + d];
    MapSumRemove(m', k);
    if k in m {
      MapSumRemove(m, k);
      assert m' - {k} == m - {k};
    } else {
      assert m' - {k} == m;
    }
  }

  /** The per-name sums add up to the sum of all rental counts. */
  lemma {:induction false} GroupSumsTotal(s: seq<ItemData>)
    ensures MapSum(GroupSums(s)) == SumCounts(s)
  {
    if s != [] {
      GroupSumsTotal(s[..|s| - 1]);
      MapSumAdd(GroupSums(s[..|s| - 1]), s[|s| - 1].name, s[|s| - 1].rentalCount);
    } else {
      assert GroupSums(s) == map[];
    }
  }
}
