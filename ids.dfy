/** Numeric IDs handed out by a counter: after loading, the counter starts
    one above the largest stored ID that is all digits, and each new ID is
    the counter's value in decimal. */
module Ids {
  import opened Wrappers
  import opened Text

  /** The values of the all-digit IDs among `ids`, in order. */
  function NumericValues(ids: seq<string>): (r: seq<nat>)
    ensures |r| <= |ids|
    ensures forall k :: 0 <= k < |ids| && IsAllDigits(ids[k]) ==> DigitsValue(ids[k]) in r
    ensures forall v :: v in r ==> exists k :: 0 <= k < |ids| && IsAllDigits(ids[k]) && DigitsValue(ids[k]) == v
  {
    if ids == [] then []
    else
      var rest := NumericValues(ids[1..]);
      assert forall k :: 1 <= k < |ids| ==> ids[k] == ids[1..][k - 1];
      if IsAllDigits(ids[0]) then [DigitsValue(ids[0])] + rest else rest
  }

  /** The largest of a non-empty sequence of numbers. */
  function Max(s: seq<nat>): (r: nat)
    requires s != []
    ensures r in s && forall x :: x in s ==> x <= r
  {
    if |s| == 1 then s[0]
    else
      var m := Max(s[1..]);
      assert forall x :: x in s ==> x == s[0] || x in s[1..];
      if s[0] >= m then s[0] else m
  }

  /** `initializeNextId`: the largest value among the IDs that match `\d+`,
      or `fallback` when none does, plus one. */
  function NextIdAfterLoad(ids: seq<string>, fallback: nat): (r: nat)
    ensures forall k :: 0 <= k < |ids| && IsAllDigits(ids[k]) ==> DigitsValue(ids[k]) < r
    ensures (forall k :: 0 <= k < |ids| ==> !IsAllDigits(ids[k])) ==> r == fallback + 1
    ensures (exists k :: 0 <= k < |ids| && IsAllDigits(ids[k])) ==>
      exists k :: 0 <= k < |ids| && IsAllDigits(ids[k]) && r == DigitsValue(ids[k]) + 1
  {
    var values := NumericValues(ids);
    if values == [] then fallback + 1 else Max(values) + 1
  }

  /** Every ID the counter hands out after loading, the `i`-th being the
      decimal text of the loaded counter plus `i`, is the ID of no stored
      record (an all-digit stored ID has a smaller value, any other stored
      ID is not all digits) and differs from every other one handed out. */
  lemma GeneratedIdsAreFresh(ids: seq<string>, fallback: nat, i: nat, j: nat)
    ensures NatToString(NextIdAfterLoad(ids, fallback) + i) !in ids
    ensures i != j ==> NatToString(NextIdAfterLoad(ids, fallback) + i) != NatToString(NextIdAfterLoad(ids, fallback) + j)
  {
  }

  /** Every all-digit ID lies below the counter. */
  predicate CounterAbove(ids: seq<string>, next: nat)
  {
    forall k :: 0 <= k < |ids| && IsAllDigits(ids[k]) ==> DigitsValue(ids[k]) < next
  }

  /** The counter's ID, listed with the counter moved on, keeps the counter
      above every all-digit ID. */
  lemma CounterAboveStep(ids: seq<string>, next: nat)
    requires CounterAbove(ids, next)
    ensures CounterAbove(ids + [NatToString(next)], next + 1)
  {
  }

  /** The counter's ID is none of the IDs it lies above. */
  lemma CounterIdIsFresh(ids: seq<string>, next: nat)
    requires CounterAbove(ids, next)
    ensures NatToString(next) !in ids
  {
  }

  // ---------------------------------------------------------------------
  // the same counter in Java's 64-bit `long`

  const LONG_MIN: int := -0x8000_0000_0000_0000
  const LONG_MAX: int := 0x7fff_ffff_ffff_ffff

  /** Some stored all-digit ID is above `Long.MAX_VALUE`, so `Long.parseLong`
      throws `NumberFormatException` on it and the load fails. */
  predicate ParseOverflows(ids: seq<string>)
  {
    exists k :: 0 <= k < |ids| && IsAllDigits(ids[k]) && DigitsValue(ids[k]) > LONG_MAX
  }

  /** Two's-complement wrap-around of a `long` sum. */
  function WrapLong(x: int): (r: int)
    ensures LONG_MIN <= r <= LONG_MAX
    ensures LONG_MIN <= x <= LONG_MAX ==> r == x
    ensures x == LONG_MAX + 1 ==> r == LONG_MIN
  {
    (x - LONG_MIN) % 0x1_0000_0000_0000_0000 + LONG_MIN
  }

  /** `initializeNextId` in `long` arithmetic: no counter at all when a
      stored ID does not parse, otherwise one above the largest value (or
      `fallback`), wrapped to 64 bits. */
  function LongNextIdAfterLoad(ids: seq<string>, fallback: nat): (r: Option<int>)
    ensures r.None? <==> ParseOverflows(ids)
    ensures r.Some? ==> LONG_MIN <= r.value <= LONG_MAX
  {
    if ParseOverflows(ids) then None else Some(WrapLong(NextIdAfterLoad(ids, fallback)))
  }

  /** While the fallback and every stored all-digit ID lie below
      `Long.MAX_VALUE`, the 64-bit counter is the unbounded one. */
  lemma LongCounterAgrees(ids: seq<string>, fallback: nat)
    requires fallback < LONG_MAX
    requires forall k :: 0 <= k < |ids| && IsAllDigits(ids[k]) ==> DigitsValue(ids[k]) < LONG_MAX
    ensures LongNextIdAfterLoad(ids, fallback) == Some(NextIdAfterLoad(ids, fallback))
  {
    var r := NextIdAfterLoad(ids, fallback);
    if exists k :: 0 <= k < |ids| && IsAllDigits(ids[k]) {
      var k :| 0 <= k < |ids| && IsAllDigits(ids[k]) && r == DigitsValue(ids[k]) + 1;
      assert r <= LONG_MAX;
    }
  }

  /** A stored ID equal to `Long.MAX_VALUE` makes `maxId + 1` wrap: the
      counter starts at `Long.MIN_VALUE`, whose text is negative. */
  lemma LongCounterWraps(ids: seq<string>, fallback: nat, k: nat)
    requires !ParseOverflows(ids)
    requires k < |ids| && IsAllDigits(ids[k]) && DigitsValue(ids[k]) == LONG_MAX
    ensures LongNextIdAfterLoad(ids, fallback) == Some(LONG_MIN)
  {
    var r := NextIdAfterLoad(ids, fallback);
    var j :| 0 <= j < |ids| && IsAllDigits(ids[j]) && r == DigitsValue(ids[j]) + 1;
    assert r == LONG_MAX + 1;
  }
}
