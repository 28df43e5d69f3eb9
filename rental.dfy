/** One rental: who rented which item under which price policy, when it
    started and ended, whether it is still running, and the cost stored when
    it was closed. The lifecycle goes one way, from active to closed. The
    cost of a running rental is metered by the second from its start time;
    the wall clock is the parameter `now`. */
module Rentals {
  import opened Wrappers
  import opened DateTimes
  import opened PricePolicies

  /** The fields of a rental, as one value. A time is the text a rental
      record holds; a missing start or end time is Java's `null`. */
  datatype RentalData = RentalData(
    id: string,
    memberId: string,
    itemId: string,
    policy: Option<PricePolicy>,
    startTime: Option<string>,
    endTime: Option<string>,
    isActive: bool,
    totalCost: real)

  /** The price of `hours` at `basePrice` per hour: under the policy, or,
      for a rental without one, base price times hours. */
  function Charge(policy: Option<PricePolicy>, basePrice: real, hours: real): (r: real)
    ensures policy.None? ==> r == Price(StandardPrice, basePrice, hours)
    ensures policy.Some? ==> r == Price(policy.value, basePrice, hours)
  {
    if policy.Some? then Price(policy.value, basePrice, hours) else basePrice * hours
  }

  /** The whole seconds from `start` to `end`, or zero when the end lies
      before the start. */
  function ClampedSeconds(start: Timestamp, end: Timestamp): (r: nat)
    ensures EpochSeconds(start) <= EpochSeconds(end) ==> r == EpochSeconds(end) - EpochSeconds(start)
    ensures EpochSeconds(end) < EpochSeconds(start) ==> r == 0
  {
    var seconds := EpochSeconds(end) - EpochSeconds(start);
    if seconds < 0 then 0 else seconds
  }

  /** The hours a rental has run: from its parsed start time to `now` while
      it is active, or to its parsed end time once closed. `None` when a
      time does not parse, where `getCurrentCost` catches the exception. */
  function MeteredHours(d: RentalData, now: Timestamp): (r: Option<real>)
    ensures r.Some? ==> r.value >= 0.0
    ensures r.Some? <==> ParseDateTime(d.startTime, now).Some? && (d.isActive || ParseDateTime(d.endTime, now).Some?)
  {
    var start := ParseDateTime(d.startTime, now);
    var end := if d.isActive then Some(now) else ParseDateTime(d.endTime, now);
    if start.None? || end.None? then None
    else Some(ClampedSeconds(start.value, end.value) as real / 3600.0)
  }

  /** `getCurrentCost(basePricePerHour)`: a closed rental with a positive
      stored cost costs that; otherwise the metered hours are charged, and
      a time that does not parse gives zero. */
  function CostOf(d: RentalData, basePrice: real, now: Timestamp): (r: real)
    ensures !d.isActive && d.totalCost > 0.0 ==> r == d.totalCost
    ensures (d.isActive || d.totalCost <= 0.0) && MeteredHours(d, now).None? ==> r == 0.0
    ensures (d.isActive || d.totalCost <= 0.0) && MeteredHours(d, now).Some? ==>
      r == Charge(d.policy, basePrice, MeteredHours(d, now).value)
    ensures basePrice >= 0.0 && (d.isActive || d.totalCost <= 0.0) ==> r >= 0.0
  {
    if !d.isActive && d.totalCost > 0.0 then d.totalCost
    else
      var hours := MeteredHours(d, now);
      if hours.None? then 0.0 else Charge(d.policy, basePrice, hours.value)
  }

  /** The record `endRental(finalCost)` leaves at time `now`. */
  function Closed(d: RentalData, finalCost: real, now: Timestamp): (r: RentalData)
    ensures !r.isActive && r.totalCost == finalCost
    ensures r.endTime == Some(Format(now))
    ensures r.(isActive := d.isActive, endTime := d.endTime, totalCost := d.totalCost) == d
  {
    d.(isActive := false, endTime := Some(Format(now)), totalCost := finalCost)
  }

  // ---------------------------------------------------------------------
  // properties of the metered cost

  /** A rental without a policy is charged as the standard policy charges. */
  lemma NoPolicyIsStandard(d: RentalData, basePrice: real, now: Timestamp)
    requires d.policy.None?
    ensures CostOf(d, basePrice, now) == CostOf(d.(policy := Some(StandardPrice)), basePrice, now)
  {
    assert MeteredHours(d.(policy := Some(StandardPrice)), now) == MeteredHours(d, now);
  }

  /** A closed rental with a positive stored cost costs that, whatever base
      price is asked about and whenever. */
  lemma ClosedCostIsStored(d: RentalData, base1: real, base2: real, now1: Timestamp, now2: Timestamp)
    requires !d.isActive && d.totalCost > 0.0
    ensures CostOf(d, base1, now1) == CostOf(d, base2, now2) == d.totalCost
  {
  }

  /** A closed rental whose stored cost is not positive is recomputed from
      its stored start and end times, so the clock no longer matters. */
  lemma ClosedCostIgnoresClock(d: RentalData, basePrice: real, now1: Timestamp, now2: Timestamp)
    requires !d.isActive && d.totalCost <= 0.0
    requires d.startTime.Some? && d.endTime.Some?
    ensures CostOf(d, basePrice, now1) == CostOf(d, basePrice, now2)
  {
  }

  /** A start time the clock has not reached yet (a clock set back) gives a
      zero cost, never a negative one. */
  lemma FutureStartCostsNothing(d: RentalData, basePrice: real, start: Timestamp, now: Timestamp)
    requires d.isActive && d.startTime == Some(Format(start))
    requires EpochSeconds(now) < EpochSeconds(start)
    ensures CostOf(d, basePrice, now) == 0.0
  {
    ParseDateTimeFormat(start, now);
  }

  /** An active rental started at `start` and asked about `seconds` later
      is charged for `seconds / 3600` hours under its policy. */
  lemma ActiveCostMeters(d: RentalData, basePrice: real, start: Timestamp, now: Timestamp)
    requires d.isActive && d.startTime == Some(Format(start))
    requires EpochSeconds(start) <= EpochSeconds(now)
    ensures CostOf(d, basePrice, now)
      == Charge(d.policy, basePrice, (EpochSeconds(now) - EpochSeconds(start)) as real / 3600.0)
  {
    ParseDateTimeFormat(start, now);
    MeteredFromStart(d, start, now);
    var seconds := ClampedSeconds(start, now);
    assert seconds == EpochSeconds(now) - EpochSeconds(start);
    CostFromHours(d, basePrice, now, seconds as real / 3600.0);
  }

  /** An active rental that has run `hours` costs those hours under its
      policy. */
  lemma CostFromHours(d: RentalData, basePrice: real, now: Timestamp, hours: real)
    requires d.isActive && MeteredHours(d, now) == Some(hours)
    ensures CostOf(d, basePrice, now) == Charge(d.policy, basePrice, hours)
  {
  }

  /** An active rental whose start time reads as `start` has run the
      clamped seconds from `start` to `now`. */
  lemma MeteredFromStart(d: RentalData, start: Timestamp, now: Timestamp)
    requires d.isActive && ParseDateTime(d.startTime, now) == Some(start)
    ensures MeteredHours(d, now) == Some(ClampedSeconds(start, now) as real / 3600.0)
  {
  }

  /** An hour of standard rental costs the base price; an hour of student
      rental costs four fifths of it. */
  lemma OneHourCost(d: RentalData, basePrice: real, start: Timestamp, now: Timestamp)
    requires d.isActive && d.startTime == Some(Format(start))
    requires EpochSeconds(now) == EpochSeconds(start) + 3600
    ensures d.policy == Some(StandardPrice) ==> CostOf(d, basePrice, now) == basePrice
    ensures d.policy == Some(StudentPrice) ==> CostOf(d, basePrice, now) == basePrice * 4.0 / 5.0
  {
    ActiveCostMeters(d, basePrice, start, now);
    assert (EpochSeconds(now) - EpochSeconds(start)) as real / 3600.0 == 1.0;
  }

  /** For a non-negative base price, the cost of an active rental never
      falls as the clock advances. */
  lemma ActiveCostMonotone(d: RentalData, basePrice: real, now1: Timestamp, now2: Timestamp)
    requires d.isActive && basePrice >= 0.0
    requires d.startTime.Some?
    requires EpochSeconds(now1) <= EpochSeconds(now2)
    ensures CostOf(d, basePrice, now1) <= CostOf(d, basePrice, now2)
  {
    var start := ParseDateTime(d.startTime, now1);
    if start.Some? {
      var h1, h2 := MeteredHours(d, now1).value, MeteredHours(d, now2).value;
      assert h1 <= h2;
      PriceMonotoneInHours(if d.policy.Some? then d.policy.value else StandardPrice, basePrice, h1, h2);
    }
  }

  /** A rental closed with an end time that reads back as `t` has run, from
      any later point of view, the hours it had run at `t`. */
  lemma ClosedMeteredHours(d: RentalData, finalCost: real, endTime: string, t: Timestamp, later: Timestamp)
    requires d.isActive
    requires EpochSeconds(t) <= EpochSeconds(later)
    requires ParseDateTime(Some(endTime), later) == Some(t)
    ensures MeteredHours(d.(isActive := false, endTime := Some(endTime), totalCost := finalCost), later)
      == MeteredHours(d, t)
  {
    if d.startTime.None? {
      // the missing start is read as the clock: `t` before closing, `later`
      // after, which is no earlier than the end, so both run zero hours
      assert MeteredHours(d, t) == Some(0.0);
      assert ClampedSeconds(later, t) == 0;
    }
  }

  /** Closing an active rental at time `t` with the cost it had then keeps
      that cost for good: later questions get the same answer, whether the
      stored cost is positive or is recomputed from the stored end time. */
  lemma ClosingFreezesCost(d: RentalData, basePrice: real, t: Timestamp, later: Timestamp)
    requires d.isActive
    requires EpochSeconds(t) <= EpochSeconds(later)
    ensures CostOf(Closed(d, CostOf(d, basePrice, t), t), basePrice, later) == CostOf(d, basePrice, t)
  {
    ParseDateTimeFormat(t, later);
    ClosedMeteredHours(d, CostOf(d, basePrice, t), Format(t), t, later);
  }

  class Rental {
    const id: string
    const memberId: string
    const itemId: string
    const policy: Option<PricePolicy>
    const startTime: Option<string>
    var endTime: Option<string>
    var isActive: bool
    var totalCost: real

    function Data(): RentalData
      reads this
    {
      RentalData(id, memberId, itemId, policy, startTime, endTime, isActive, totalCost)
    }

    /** `new Rental(id, memberId, itemId, policy)` at time `now`: active,
        started now, nothing charged yet. */
    constructor (id: string, memberId: string, itemId: string, policy: Option<PricePolicy>, now: Timestamp)
      ensures Data() == RentalData(id, memberId, itemId, policy, Some(Format(now)), None, true, 0.0)
    {
      this.id := id;
      this.memberId := memberId;
      this.itemId := itemId;
      this.policy := policy;
      this.startTime := Some(Format(now));
      this.endTime := None;
      this.isActive := true;
      this.totalCost := 0.0;
    }

    /** A rental rebuilt from a stored record. */
    constructor FromData(d: RentalData)
      ensures Data() == d
    {
      id, memberId, itemId, policy, startTime := d.id, d.memberId, d.itemId, d.policy, d.startTime;
      endTime, isActive, totalCost := d.endTime, d.isActive, d.totalCost;
    }

    /** `getCurrentCost(basePricePerHour)` at time `now`. */
    function CurrentCost(basePricePerHour: real, now: Timestamp): (r: real)
      reads this
      ensures r == CostOf(Data(), basePricePerHour, now)
    {
      CostOf(Data(), basePricePerHour, now)
    }

    /** `endRental(finalCost)` at time `now`: closed, ended now, and the
        given cost stored. */
    method EndRental(finalCost: real, now: Timestamp)
      modifies this
      ensures Data() == Closed(old(Data()), finalCost, now)
    {
      isActive := false;
      endTime := Some(Format(now));
      totalCost := finalCost;
    }

    method SetTotalCost(cost: real)
      modifies this
      ensures Data() == old(Data()).(totalCost := cost)
    {
      totalCost := cost;
    }
  }
}
