/** The rental ledger: the list of rentals, opened against the member
    register and the inventory and closed again, with the counter that hands
    out rental IDs and the ledger's queries (active rentals, revenue). What
    a start or an end does to the three lists is stated once, as a function
    on their records (`StartRentalSpec`, `EndRentalSpec`); the methods of
    `RentalService` are proved to do exactly that to the objects. */
module RentalServices {
  import opened Wrappers
  import opened Text
  import opened Seqs
  import opened Ids
  import opened DateTimes
  import opened PricePolicies
  import opened Members
  import opened Items
  import opened Rentals
  import MemberRegistries
  import Inventories

  /** The value the rental ID counter falls back on when no stored rental ID
      is all digits: the first rental is then `1`. */
  const RENTAL_ID_FALLBACK: nat := 0

  /** The records of the three lists and the rental ID counter. */
  datatype Ledger = Ledger(
    members: seq<MemberData>,
    items: seq<ItemData>,
    rentals: seq<RentalData>,
    nextRentalId: nat)

  function RentalIds(rentals: seq<RentalData>): (r: seq<string>)
    ensures |r| == |rentals| && forall k :: 0 <= k < |rentals| ==> r[k] == rentals[k].id
  {
    seq(|rentals|, k requires 0 <= k < |rentals| => rentals[k].id)
  }

  /** No two rentals share an ID. */
  predicate DistinctIds(rentals: seq<RentalData>)
  {
    forall a, b :: 0 <= a < b < |rentals| ==> rentals[a].id != rentals[b].id
  }

  /** The counter set at load time lies above every stored rental ID, so
      the ID it hands out next is none of them. */
  lemma LoadedCounterIsFresh(loaded: seq<RentalData>)
    ensures var next := NextIdAfterLoad(RentalIds(loaded), RENTAL_ID_FALLBACK);
      CounterAbove(RentalIds(loaded), next) && NatToString(next) !in RentalIds(loaded)
  {
    var next := NextIdAfterLoad(RentalIds(loaded), RENTAL_ID_FALLBACK);
    GeneratedIdsAreFresh(RentalIds(loaded), RENTAL_ID_FALLBACK, 0, 0);
    assert next + 0 == next;
  }

  // ---------------------------------------------------------------------
  // queries

  /** `getActiveRentals`: the positions of the unfinished rentals, in list
      order. A rental is unfinished while its active flag is set. */
  function ActiveIndices(rentals: seq<RentalData>): (r: seq<nat>)
    ensures forall k :: 0 <= k < |r| ==> r[k] < |rentals| && rentals[r[k]].isActive
    ensures forall i :: 0 <= i < |rentals| && rentals[i].isActive ==> i in r
    ensures forall a, b :: 0 <= a < b < |r| ==> r[a] < r[b]
  {
    FilterIndices(rentals, (d: RentalData) => d.isActive)
  }

  /** `getTotalRevenue`: the stored costs of the finished rentals, summed. */
  function Revenue(rentals: seq<RentalData>): real
  {
    if rentals == [] then 0.0
    else
      var last := rentals[|rentals| - 1];
      Revenue(rentals[..|rentals| - 1]) + (if last.isActive then 0.0 else last.totalCost)
  }

  /** A new active rental adds nothing to the revenue. */
  lemma RevenueOfNewActive(rentals: seq<RentalData>, d: RentalData)
    requires d.isActive
    ensures Revenue(rentals + [d]) == Revenue(rentals)
  {
    assert (rentals + [d])[..|rentals|] == rentals;
  }

  /** Finishing the active rental at `k` adds its stored cost to the
      revenue. */
  lemma {:induction false} RevenueOfClosing(rentals: seq<RentalData>, k: nat, d: RentalData)
    requires k < |rentals| && rentals[k].isActive && !d.isActive
    ensures Revenue(rentals[k := d]) == Revenue(rentals) + d.totalCost
    decreases |rentals|
  {
    var n := |rentals| - 1;
    if k < n {
      assert rentals[k := d][..n] == rentals[..n][k := d];
      RevenueOfClosing(rentals[..n], k, d);
    } else {
      assert rentals[k := d][..n] == rentals[..n];
    }
  }

  /** When no rental has finished the revenue is zero, and it never counts
      an unfinished rental. */
  lemma {:induction false} RevenueOfActiveOnly(rentals: seq<RentalData>)
    requires forall k :: 0 <= k < |rentals| ==> rentals[k].isActive
    ensures Revenue(rentals) == 0.0
  {
    if rentals != [] {
      RevenueOfActiveOnly(rentals[..|rentals| - 1]);
    }
  }

  // ---------------------------------------------------------------------
  // availability pushed through the inventory

  /** `item.setIsAvailable(a)` then `inventory.updateItem(item)` on the
      `i`-th item, the first of its ID: the update copies the item onto
      itself, so only its availability changes, and the update throws when
      the item's own displacement or load is not positive (a stored record
      may hold such a value). */
  function MarkAvailability(items: seq<ItemData>, i: nat, available: bool): (r: (seq<ItemData>, Inventories.ItemUpdateOutcome))
    requires i < |items| && Inventories.FindIndexById(items, items[i].itemId) == Some(i)
    ensures r.0 == items[i := items[i].(isAvailable := available)]
    ensures r.1 == (if VariantError(items[i].variant).None? then Inventories.Updated
                    else Inventories.Threw(VariantError(items[i].variant).value))
  {
    var flipped := items[i := items[i].(isAvailable := available)];
    assert forall k :: 0 <= k < |items| ==> flipped[k].itemId == items[k].itemId;
    assert Inventories.FindIndexById(flipped, flipped[i].itemId) == Some(i);
    Inventories.UpdateInventory(flipped, flipped[i])
  }

  // ---------------------------------------------------------------------
  // opening a rental

  datatype StartOutcome =
    | Started(rentalId: string)
    | MemberNotFound
    | ItemNotAvailable
      /** `updateItem` threw after the rental was listed and the item
          marked rented; the member's history was not extended. */
    | ItemThrew(error: ItemError)

  /** The record of a rental opened at `now`. */
  function OpenedRental(id: string, memberId: string, itemId: string, policy: PricePolicy, now: Timestamp): RentalData
  {
    RentalData(id, memberId, itemId, Some(policy), Some(Format(now)), None, true, 0.0)
  }

  /** The item with this ID exists and is not rented out. */
  predicate ItemRentable(items: seq<ItemData>, itemId: string)
  {
    var i := Inventories.FindIndexById(items, itemId);
    i.Some? && items[i.value].isAvailable
  }

  /** `startRental(memberId, itemId, policy)` at `now`: the member is looked
      up ignoring case, the item by its exact ID; a rental with the next
      counter ID is listed, the item is marked rented through the
      inventory's update, and the rental ID goes at the end of the member's
      history. Nothing increments the item's rental count or saves. */
  function StartRentalSpec(l: Ledger, memberId: string, itemId: string, policy: PricePolicy, now: Timestamp): (Ledger, StartOutcome)
  {
    var m := MemberRegistries.FindIndexById(l.members, memberId);
    var i := Inventories.FindIndexById(l.items, itemId);
    if m.None? then (l, MemberNotFound)
    else if i.None? || !l.items[i.value].isAvailable then (l, ItemNotAvailable)
    else
      var id := NatToString(l.nextRentalId);
      var marked := MarkAvailability(l.items, i.value, false);
      var listed := l.(rentals := l.rentals + [OpenedRental(id, memberId, itemId, policy, now)],
                       nextRentalId := l.nextRentalId + 1, items := marked.0);
      if marked.1.Threw? then (listed, ItemThrew(marked.1.error))
      else
        var member := l.members[m.value];
        (listed.(members := l.members[m.value := member.(rentalHistory := member.rentalHistory + [id])]), Started(id))
  }

  /** An unknown member, or an item that is unknown or rented out, fails
      the start and changes nothing. */
  lemma StartFailsWithoutChange(l: Ledger, memberId: string, itemId: string, policy: PricePolicy, now: Timestamp)
    ensures MemberRegistries.FindIndexById(l.members, memberId).None? ==>
      StartRentalSpec(l, memberId, itemId, policy, now) == (l, MemberNotFound)
    ensures MemberRegistries.FindIndexById(l.members, memberId).Some? && !ItemRentable(l.items, itemId) ==>
      StartRentalSpec(l, memberId, itemId, policy, now) == (l, ItemNotAvailable)
  {
  }

  /** A start for a known member and a rentable item lists exactly one new
      active rental of that member, item and policy, marks that item rented
      and leaves every other item alone; it then appends the rental ID to
      that member's history, unless the item's update threw. */
  lemma StartOpensRental(l: Ledger, memberId: string, itemId: string, policy: PricePolicy, now: Timestamp)
    requires MemberRegistries.FindIndexById(l.members, memberId).Some? && ItemRentable(l.items, itemId)
    ensures var r := StartRentalSpec(l, memberId, itemId, policy, now);
      var m := MemberRegistries.FindIndexById(l.members, memberId).value;
      var i := Inventories.FindIndexById(l.items, itemId).value;
      var id := NatToString(l.nextRentalId);
      && r.0.rentals == l.rentals + [OpenedRental(id, memberId, itemId, policy, now)]
      && r.0.nextRentalId == l.nextRentalId + 1
      && r.0.items == l.items[i := l.items[i].(isAvailable := false)]
      && (r.1 == Started(id) <==> VariantError(l.items[i].variant).None?)
      && (r.1.ItemThrew? <==> VariantError(l.items[i].variant).Some?)
      && (r.1.Started? ==>
            r.0.members == l.members[m := l.members[m].(rentalHistory := l.members[m].rentalHistory + [id])])
      && (r.1.ItemThrew? ==> r.0.members == l.members)
  {
  }

  /** The result of a start that passes the checks, from its parts. */
  lemma StartResultIs(l: Ledger, memberId: string, itemId: string, policy: PricePolicy, now: Timestamp,
                      members: seq<MemberData>, items: seq<ItemData>, rentals: seq<RentalData>, next: nat,
                      outcome: StartOutcome)
    requires MemberRegistries.FindIndexById(l.members, memberId).Some? && ItemRentable(l.items, itemId)
    requires var i := Inventories.FindIndexById(l.items, itemId).value;
      var marked := MarkAvailability(l.items, i, false);
      && items == marked.0
      && outcome == (if marked.1.Threw? then ItemThrew(marked.1.error) else Started(NatToString(l.nextRentalId)))
    requires rentals == l.rentals + [OpenedRental(NatToString(l.nextRentalId), memberId, itemId, policy, now)]
    requires var m := MemberRegistries.FindIndexById(l.members, memberId).value;
      var member := l.members[m];
      members == (if outcome.ItemThrew? then l.members
                  else l.members[m := member.(rentalHistory := member.rentalHistory + [NatToString(l.nextRentalId)])])
    requires next == l.nextRentalId + 1
    ensures StartRentalSpec(l, memberId, itemId, policy, now) == (Ledger(members, items, rentals, next), outcome)
  {
  }

  /** A rental just opened is active, has no end time and costs nothing at
      the moment it opens, whatever the hourly price. */
  lemma OpenedRentalCostsNothing(id: string, memberId: string, itemId: string, policy: PricePolicy, now: Timestamp, basePrice: real)
    ensures var d := OpenedRental(id, memberId, itemId, policy, now);
      d.isActive && d.endTime.None? && d.totalCost == 0.0 && CostOf(d, basePrice, now) == 0.0
  {
    var d := OpenedRental(id, memberId, itemId, policy, now);
    ActiveCostMeters(d, basePrice, now, now);
  }

  /** The ID a start hands out is the ID of no listed rental, and the
      counter stays above every all-digit ID; so IDs stay distinct. */
  lemma StartKeepsIdsFresh(l: Ledger, memberId: string, itemId: string, policy: PricePolicy, now: Timestamp)
    requires CounterAbove(RentalIds(l.rentals), l.nextRentalId)
    ensures var r := StartRentalSpec(l, memberId, itemId, policy, now);
      && CounterAbove(RentalIds(r.0.rentals), r.0.nextRentalId)
      && (r.1.Started? ==> r.1.rentalId !in RentalIds(l.rentals))
      && (DistinctIds(l.rentals) ==> DistinctIds(r.0.rentals))
  {
    var r := StartRentalSpec(l, memberId, itemId, policy, now);
    if r.0.rentals != l.rentals {
      StartOpensRental(l, memberId, itemId, policy, now);
      var id := NatToString(l.nextRentalId);
      forall k | 0 <= k < |l.rentals|
        ensures l.rentals[k].id != id
      {
        if IsAllDigits(l.rentals[k].id) {
          assert RentalIds(l.rentals)[k] == l.rentals[k].id;
        }
      }
      assert r.0.rentals[|l.rentals|].id == id;
    }
  }

  /** A start leaves the revenue as it was and adds at most the new rental,
      at the end, to the active ones. */
  lemma StartKeepsRevenue(l: Ledger, memberId: string, itemId: string, policy: PricePolicy, now: Timestamp)
    ensures var r := StartRentalSpec(l, memberId, itemId, policy, now);
      && Revenue(r.0.rentals) == Revenue(l.rentals)
      && ActiveIndices(r.0.rentals)
         == ActiveIndices(l.rentals) + (if r.0.rentals == l.rentals then [] else [|l.rentals|])
  {
    var r := StartRentalSpec(l, memberId, itemId, policy, now);
    if r.0.rentals != l.rentals {
      StartOpensRental(l, memberId, itemId, policy, now);
      var d := OpenedRental(NatToString(l.nextRentalId), memberId, itemId, policy, now);
      RevenueOfNewActive(l.rentals, d);
      FilterIndicesAppend(l.rentals, d, (d: RentalData) => d.isActive);
    }
  }

  // ---------------------------------------------------------------------
  // closing a rental

  datatype EndOutcome =
    | Ended(cost: real)
    | NoActiveRental
    | ItemMissing
      /** `updateItem` threw after the rental was closed and the item
          marked available again. */
    | EndThrew(error: ItemError)

  /** The first unfinished rental with this ID. */
  function FindActive(rentals: seq<RentalData>, rentalId: string): (r: Option<nat>)
    ensures r.Some? ==> r.value < |rentals| && rentals[r.value].id == rentalId && rentals[r.value].isActive
    ensures r.Some? ==> forall k :: 0 <= k < r.value ==> !(rentals[k].id == rentalId && rentals[k].isActive)
    ensures r.None? <==> forall k :: 0 <= k < |rentals| ==> !(rentals[k].id == rentalId && rentals[k].isActive)
  {
    FirstIndex(rentals, (d: RentalData) => d.id == rentalId && d.isActive)
  }

  /** `endRental(rentalId)` at `now`, storing `asWritten ? base price :
      metered cost`: the first unfinished rental with the ID is found, then
      its item by exact ID; the rental is closed with the cost, the item
      marked available through the inventory's update, and the cost
      returned. */
  function EndRentalWith(l: Ledger, rentalId: string, now: Timestamp, asWritten: bool): (Ledger, EndOutcome)
  {
    var k := FindActive(l.rentals, rentalId);
    if k.None? then (l, NoActiveRental)
    else
      var d := l.rentals[k.value];
      var i := Inventories.FindIndexById(l.items, d.itemId);
      if i.None? then (l, ItemMissing)
      else
        var base := l.items[i.value].currentRentalPrice;
        var cost := if asWritten then base else CostOf(d, base, now);
        var marked := MarkAvailability(l.items, i.value, true);
        var closed := l.(rentals := l.rentals[k.value := Closed(d, cost, now)], items := marked.0);
        (closed, if marked.1.Threw? then EndThrew(marked.1.error) else Ended(cost))
  }

  /** `endRental` as written: `rental.endRental(basePrice)` stores the
      item's hourly price as the final cost and returns it, however long the
      rental ran. */
  function EndRentalAsWritten(l: Ledger, rentalId: string, now: Timestamp): (r: (Ledger, EndOutcome))
    ensures r.1.Ended? ==>
      (FindActive(l.rentals, rentalId).Some? &&
       var d := l.rentals[FindActive(l.rentals, rentalId).value];
       Inventories.FindIndexById(l.items, d.itemId).Some? &&
       r.1.cost == l.items[Inventories.FindIndexById(l.items, d.itemId).value].currentRentalPrice)
  {
    EndRentalWith(l, rentalId, now, true)
  }

  /** `endRental` as evidently intended: the rental is closed with the cost
      it has run up by `now`, which is also what is returned. */
  function EndRentalSpec(l: Ledger, rentalId: string, now: Timestamp): (Ledger, EndOutcome)
  {
    EndRentalWith(l, rentalId, now, false)
  }

  /** No unfinished rental with the ID, or a rented item no longer in the
      inventory, fails the end and changes nothing. */
  lemma EndFailsWithoutChange(l: Ledger, rentalId: string, now: Timestamp)
    ensures FindActive(l.rentals, rentalId).None? ==> EndRentalSpec(l, rentalId, now) == (l, NoActiveRental)
    ensures (FindActive(l.rentals, rentalId).Some? &&
             Inventories.FindIndexById(l.items, l.rentals[FindActive(l.rentals, rentalId).value].itemId).None?) ==>
      EndRentalSpec(l, rentalId, now) == (l, ItemMissing)
  {
  }

  /** An end that finds the rental and its item closes that rental with its
      metered cost, marks that item available, and changes no other rental,
      item or member; the cost returned is the cost stored. */
  lemma EndClosesRental(l: Ledger, rentalId: string, now: Timestamp)
    requires FindActive(l.rentals, rentalId).Some?
    requires Inventories.FindIndexById(l.items, l.rentals[FindActive(l.rentals, rentalId).value].itemId).Some?
    ensures var r := EndRentalSpec(l, rentalId, now);
      var k := FindActive(l.rentals, rentalId).value;
      var d := l.rentals[k];
      var i := Inventories.FindIndexById(l.items, d.itemId).value;
      var cost := CostOf(d, l.items[i].currentRentalPrice, now);
      && r.0.rentals == l.rentals[k := Closed(d, cost, now)]
      && !r.0.rentals[k].isActive && r.0.rentals[k].totalCost == cost
      && r.0.items == l.items[i := l.items[i].(isAvailable := true)]
      && r.0.members == l.members && r.0.nextRentalId == l.nextRentalId
      && (r.1 == Ended(cost) <==> VariantError(l.items[i].variant).None?)
      && (r.1.EndThrew? <==> VariantError(l.items[i].variant).Some?)
  {
  }

  /** The cost an end stores is the charge, under the rental's policy, for
      the seconds from its start to `now` as hours; a rental whose clock
      runs backwards is charged nothing. */
  lemma EndChargesElapsedTime(l: Ledger, rentalId: string, start: Timestamp, now: Timestamp)
    requires FindActive(l.rentals, rentalId).Some?
    requires var d := l.rentals[FindActive(l.rentals, rentalId).value];
      d.startTime == Some(Format(start)) && Inventories.FindIndexById(l.items, d.itemId).Some?
    ensures var r := EndRentalSpec(l, rentalId, now);
      var k := FindActive(l.rentals, rentalId).value;
      var d := l.rentals[k];
      var base := l.items[Inventories.FindIndexById(l.items, d.itemId).value].currentRentalPrice;
      && (EpochSeconds(start) <= EpochSeconds(now) ==>
            r.0.rentals[k].totalCost == Charge(d.policy, base, (EpochSeconds(now) - EpochSeconds(start)) as real / 3600.0))
      && (EpochSeconds(now) < EpochSeconds(start) ==> r.0.rentals[k].totalCost == 0.0)
  {
    var k := FindActive(l.rentals, rentalId).value;
    var d := l.rentals[k];
    var base := l.items[Inventories.FindIndexById(l.items, d.itemId).value].currentRentalPrice;
    EndClosesRental(l, rentalId, now);
    if EpochSeconds(start) <= EpochSeconds(now) {
      ActiveCostMeters(d, base, start, now);
    } else {
      FutureStartCostsNothing(d, base, start, now);
    }
  }

  /** The cost an end stores stays the rental's cost for good: asked again
      at any later time with the same hourly price, the closed rental
      costs what it was closed with. */
  lemma EndFreezesCost(l: Ledger, rentalId: string, now: Timestamp, later: Timestamp)
    requires FindActive(l.rentals, rentalId).Some?
    requires Inventories.FindIndexById(l.items, l.rentals[FindActive(l.rentals, rentalId).value].itemId).Some?
    requires EpochSeconds(now) <= EpochSeconds(later)
    ensures var r := EndRentalSpec(l, rentalId, now);
      var k := FindActive(l.rentals, rentalId).value;
      var base := l.items[Inventories.FindIndexById(l.items, l.rentals[k].itemId).value].currentRentalPrice;
      CostOf(r.0.rentals[k], base, later) == r.0.rentals[k].totalCost
  {
    var k := FindActive(l.rentals, rentalId).value;
    var d := l.rentals[k];
    var base := l.items[Inventories.FindIndexById(l.items, d.itemId).value].currentRentalPrice;
    EndClosesRental(l, rentalId, now);
    ClosingFreezesCost(d, base, now, later);
  }

  /** Ending the same rental twice: once closed it is no longer unfinished,
      so, with rental IDs distinct, the second end finds nothing and
      changes nothing. */
  lemma SecondEndFails(l: Ledger, rentalId: string, now: Timestamp, later: Timestamp)
    requires DistinctIds(l.rentals)
    ensures var r := EndRentalSpec(l, rentalId, now);
      r.1 != ItemMissing ==> EndRentalSpec(r.0, rentalId, later) == (r.0, NoActiveRental)
  {
    var r := EndRentalSpec(l, rentalId, now);
    var k := FindActive(l.rentals, rentalId);
    if k.Some? && Inventories.FindIndexById(l.items, l.rentals[k.value].itemId).Some? {
      EndClosesRental(l, rentalId, now);
      forall j | 0 <= j < |r.0.rentals|
        ensures !(r.0.rentals[j].id == rentalId && r.0.rentals[j].isActive)
      {
        if j != k.value {
          assert r.0.rentals[j] == l.rentals[j];
        }
      }
    }
  }

  /** An end keeps rental IDs and the counter as they were, adds the stored
      cost to the revenue and takes exactly the closed rental out of the
      active ones. */
  lemma EndAddsRevenue(l: Ledger, rentalId: string, now: Timestamp)
    ensures var r := EndRentalSpec(l, rentalId, now);
      && RentalIds(r.0.rentals) == RentalIds(l.rentals) && r.0.nextRentalId == l.nextRentalId
      && (r.1.Ended? ==> Revenue(r.0.rentals) == Revenue(l.rentals) + r.1.cost)
      && (r.1.Ended? ==> forall j :: j in ActiveIndices(r.0.rentals) <==>
            j in ActiveIndices(l.rentals) && j != FindActive(l.rentals, rentalId).value)
  {
    var r := EndRentalSpec(l, rentalId, now);
    var k := FindActive(l.rentals, rentalId);
    if k.Some? && Inventories.FindIndexById(l.items, l.rentals[k.value].itemId).Some? {
      EndClosesRental(l, rentalId, now);
      var d := l.rentals[k.value];
      RevenueOfClosing(l.rentals, k.value, r.0.rentals[k.value]);
      assert RentalIds(r.0.rentals) == RentalIds(l.rentals);
      forall j
        ensures j in ActiveIndices(r.0.rentals) <==> j in ActiveIndices(l.rentals) && j != k.value
      {
        if j in ActiveIndices(r.0.rentals) {
          assert j != k.value && r.0.rentals[j] == l.rentals[j];
        }
        if j in ActiveIndices(l.rentals) && j != k.value {
          assert r.0.rentals[j] == l.rentals[j];
        }
      }
    }
  }

  /** The code as written closes a two-hour standard rental of an item at
      200 per hour with a cost of 200, the price of one hour; the intended
      metered cost is 400. */
  lemma AsWrittenChargesOneHour(l: Ledger, rentalId: string, start: Timestamp, now: Timestamp)
    requires FindActive(l.rentals, rentalId).Some?
    requires var d := l.rentals[FindActive(l.rentals, rentalId).value];
      && d.startTime == Some(Format(start)) && d.policy == Some(StandardPrice)
      && Inventories.FindIndexById(l.items, d.itemId).Some?
      && l.items[Inventories.FindIndexById(l.items, d.itemId).value].currentRentalPrice == 200.0
      && VariantError(l.items[Inventories.FindIndexById(l.items, d.itemId).value].variant).None?
    requires EpochSeconds(now) == EpochSeconds(start) + 7200
    ensures EndRentalAsWritten(l, rentalId, now).1 == Ended(200.0)
    ensures EndRentalSpec(l, rentalId, now).1 == Ended(400.0)
  {
    var d := l.rentals[FindActive(l.rentals, rentalId).value];
    ActiveCostMeters(d, 200.0, start, now);
    assert (EpochSeconds(now) - EpochSeconds(start)) as real / 3600.0 == 2.0;
  }

  // ---------------------------------------------------------------------
  // the service

  /** The records of the listed rentals, in order. */
  function RentalDataOf(rentals: seq<Rental>): (r: seq<RentalData>)
    reads rentals
    ensures |r| == |rentals| && forall k :: 0 <= k < |rentals| ==> r[k] == rentals[k].Data()
  {
    if rentals == [] then [] else RentalDataOf(rentals[..|rentals| - 1]) + [rentals[|rentals| - 1].Data()]
  }

  /** The IDs of the listed rentals, which never change. */
  function IdsOf(rentals: seq<Rental>): (r: seq<string>)
    ensures |r| == |rentals| && forall k :: 0 <= k < |rentals| ==> r[k] == rentals[k].id
  {
    seq(|rentals|, k requires 0 <= k < |rentals| => rentals[k].id)
  }

  /** Listing one more rental adds its record at the end. */
  lemma RentalDataOfAppend(rentals: seq<Rental>, rental: Rental)
    ensures RentalDataOf(rentals + [rental]) == RentalDataOf(rentals) + [rental.Data()]
  {
    assert (rentals + [rental])[..|rentals|] == rentals;
  }

  /** The rental a start listed, if any, as a list. */
  function Listed(created: Option<Rental>): (r: seq<Rental>)
    ensures |r| <= 1 && (created.Some? ==> r == [created.value]) && (created.None? ==> r == [])
  {
    if created.Some? then [created.value] else []
  }

  /** Listing the rental a start made, with the counter moved past its
      ID, keeps the rentals distinct and the counter above every ID. */
  lemma ListingKeepsCounter(listed: seq<Rental>, next: nat, created: Option<Rental>)
    requires forall a, b :: 0 <= a < b < |listed| ==> listed[a] != listed[b]
    requires CounterAbove(IdsOf(listed), next)
    requires created.Some? ==> created.value !in listed && created.value.id == NatToString(next)
    ensures var after := listed + Listed(created);
      && (forall a, b :: 0 <= a < b < |after| ==> after[a] != after[b])
      && CounterAbove(IdsOf(after), next + |Listed(created)|)
  {
    if created.Some? {
      CounterAboveStep(IdsOf(listed), next);
      assert IdsOf(listed + [created.value]) == IdsOf(listed) + [NatToString(next)];
    } else {
      assert listed + [] == listed;
    }
  }

  /** The records of the two registers and of the listed rentals, with the
      rental counter. */
  function LedgerOf(registry: MemberRegistries.MemberRegistry, inventory: Inventories.Inventory,
                    rentals: seq<Rental>, next: nat): Ledger
    reads registry, registry.members, inventory, inventory.items, rentals
  {
    Ledger(registry.Snapshot(), inventory.Snapshot(), RentalDataOf(rentals), next)
  }

  /** `item.setIsAvailable(available)` (or `setAvailable`) on an item the
      inventory lists, then `inventory.updateItem(item)`. */
  method MarkStored(inventory: Inventories.Inventory, item: Item, available: bool)
    returns (o: Inventories.ItemUpdateOutcome)
    requires inventory.Valid() && inventory.FindItemById(item.itemId) == Some(item)
    modifies inventory, inventory.items
    ensures inventory.Valid() && inventory.items == old(inventory.items)
    ensures var i := Inventories.FindIndexById(old(inventory.Snapshot()), item.itemId).value;
      (inventory.Snapshot(), o) == MarkAvailability(old(inventory.Snapshot()), i, available)
  {
    ghost var before := inventory.Snapshot();
    ghost var i := Inventories.FindIndexById(before, item.itemId).value;
    item.SetIsAvailable(available);
    assert inventory.Snapshot() == before[i := before[i].(isAvailable := available)];
    o := inventory.UpdateItem(item);
  }

  /** `MarkStored`, which leaves the member records and the records of
      the listed rentals alone. */
  method MarkKeeping(inventory: Inventories.Inventory, item: Item, available: bool,
                     ghost registry: MemberRegistries.MemberRegistry, ghost rentals: seq<Rental>)
    returns (o: Inventories.ItemUpdateOutcome)
    requires inventory.Valid() && inventory.FindItemById(item.itemId) == Some(item)
    modifies inventory, inventory.items
    ensures inventory.Valid() && inventory.items == old(inventory.items)
    ensures var i := Inventories.FindIndexById(old(inventory.Snapshot()), item.itemId).value;
      (inventory.Snapshot(), o) == MarkAvailability(old(inventory.Snapshot()), i, available)
    ensures registry.Snapshot() == old(registry.Snapshot()) && RentalDataOf(rentals) == old(RentalDataOf(rentals))
    ensures registry.members == old(registry.members)
  {
    o := MarkStored(inventory, item, available);
  }

  /** `member.addRentalToHistory(id)` on the `m`-th member of the register. */
  method AppendStored(registry: MemberRegistries.MemberRegistry, member: Member, m: nat, id: string)
    requires registry.Valid() && m < |registry.members| && registry.members[m] == member
    modifies member
    ensures registry.Snapshot()
      == old(registry.Snapshot())[m := old(member.Data()).(rentalHistory := old(member.Data()).rentalHistory + [id])]
  {
    ghost var before := registry.Snapshot();
    member.AddRentalToHistory(id);
    registry.SnapshotAfterChange(before, m);
  }

  /** `AppendStored`, which leaves the item records and the records of the
      listed rentals alone. */
  method AppendKeeping(registry: MemberRegistries.MemberRegistry, member: Member, m: nat, id: string,
                       ghost inventory: Inventories.Inventory, ghost rentals: seq<Rental>)
    requires registry.Valid() && m < |registry.members| && registry.members[m] == member
    modifies member
    ensures registry.Snapshot()
      == old(registry.Snapshot())[m := old(member.Data()).(rentalHistory := old(member.Data()).rentalHistory + [id])]
    ensures inventory.Snapshot() == old(inventory.Snapshot()) && RentalDataOf(rentals) == old(RentalDataOf(rentals))
    ensures registry.members == old(registry.members)
  {
    AppendStored(registry, member, m, id);
  }

  /** `rental.endRental(cost)` on the `k`-th listed rental: only its record
      changes. */
  method CloseStored(rentals: seq<Rental>, k: nat, cost: real, now: Timestamp,
                     ghost registry: MemberRegistries.MemberRegistry, ghost inventory: Inventories.Inventory)
    requires k < |rentals| && forall a, b :: 0 <= a < b < |rentals| ==> rentals[a] != rentals[b]
    modifies rentals[k]
    ensures registry.Snapshot() == old(registry.Snapshot()) && inventory.Snapshot() == old(inventory.Snapshot())
    ensures inventory.items == old(inventory.items)
    ensures RentalDataOf(rentals) == old(RentalDataOf(rentals))[k := Closed(old(rentals[k].Data()), cost, now)]
  {
    ghost var before := RentalDataOf(rentals);
    rentals[k].EndRental(cost, now);
    assert RentalDataOf(rentals) == before[k := rentals[k].Data()];
  }

  /** `startRental` over the two registers and the listed rentals: the
      rental it opens is returned whenever it is listed (a start whose item
      update threw lists it too), and the caller lists it. */
  method StartIn(registry: MemberRegistries.MemberRegistry, inventory: Inventories.Inventory,
                 rentals: seq<Rental>, next: nat,
                 memberId: string, itemId: string, policy: PricePolicy, now: Timestamp)
    returns (outcome: StartOutcome, created: Option<Rental>)
    requires registry.Valid() && inventory.Valid()
    modifies inventory, inventory.items, registry.members
    ensures inventory.Valid() && inventory.items == old(inventory.items)
    ensures registry.members == old(registry.members)
    ensures created.Some? <==> outcome.Started? || outcome.ItemThrew?
    ensures created.Some? ==> fresh(created.value) && created.value.id == NatToString(next)
    ensures (LedgerOf(registry, inventory, rentals + Listed(created), next + |Listed(created)|), outcome)
      == StartRentalSpec(old(LedgerOf(registry, inventory, rentals, next)), memberId, itemId, policy, now)
  {
    ghost var before := LedgerOf(registry, inventory, rentals, next);
    StartFailsWithoutChange(before, memberId, itemId, policy, now);
    var member := registry.FindMemberById(memberId);
    var found := inventory.FindItemById(itemId);
    if member.None? || found.None? || !found.value.isAvailable {
      assert rentals + Listed(None) == rentals;
      outcome := if member.None? then MemberNotFound else ItemNotAvailable;
      created := None;
    } else {
      var m := MemberRegistries.FindIndexById(registry.Snapshot(), memberId).value;
      outcome, created := StartFound(registry, inventory, rentals, next, member.value, m, found.value,
                                     memberId, itemId, policy, now);
    }
  }

  /** The part of `startRental` after the checks have passed. */
  method StartFound(registry: MemberRegistries.MemberRegistry, inventory: Inventories.Inventory,
                    rentals: seq<Rental>, next: nat, member: Member, m: nat, item: Item,
                    memberId: string, itemId: string, policy: PricePolicy, now: Timestamp)
    returns (outcome: StartOutcome, created: Option<Rental>)
    requires registry.Valid() && inventory.Valid()
    requires MemberRegistries.FindIndexById(registry.Snapshot(), memberId) == Some(m)
    requires registry.members[m] == member
    requires inventory.FindItemById(itemId) == Some(item) && item.isAvailable
    modifies inventory, inventory.items, member
    ensures inventory.Valid() && inventory.items == old(inventory.items)
    ensures registry.members == old(registry.members)
    ensures created.Some? && (outcome.Started? || outcome.ItemThrew?)
    ensures created.Some? ==> fresh(created.value) && created.value.id == NatToString(next)
    ensures (LedgerOf(registry, inventory, rentals + Listed(created), next + |Listed(created)|), outcome)
      == StartRentalSpec(old(LedgerOf(registry, inventory, rentals, next)), memberId, itemId, policy, now)
  {
    var rental;
    outcome, rental := StartMade(registry, inventory, rentals, next, member, m, item, memberId, itemId, policy, now);
    created := Some(rental);
    assert Listed(created) == [rental];
  }

  /** The new rental is made, the item marked and the history extended. */
  method StartMade(registry: MemberRegistries.MemberRegistry, inventory: Inventories.Inventory,
                   rentals: seq<Rental>, next: nat, member: Member, m: nat, item: Item,
                   memberId: string, itemId: string, policy: PricePolicy, now: Timestamp)
    returns (outcome: StartOutcome, rental: Rental)
    requires registry.Valid() && inventory.Valid()
    requires MemberRegistries.FindIndexById(registry.Snapshot(), memberId) == Some(m)
    requires registry.members[m] == member
    requires inventory.FindItemById(itemId) == Some(item) && item.isAvailable
    modifies inventory, inventory.items, member
    ensures inventory.Valid() && inventory.items == old(inventory.items)
    ensures registry.members == old(registry.members)
    ensures fresh(rental) && rental.id == NatToString(next) && (outcome.Started? || outcome.ItemThrew?)
    ensures (LedgerOf(registry, inventory, rentals + [rental], next + 1), outcome)
      == StartRentalSpec(old(LedgerOf(registry, inventory, rentals, next)), memberId, itemId, policy, now)
  {
    ghost var before := LedgerOf(registry, inventory, rentals, next);
    assert before == Ledger(registry.Snapshot(), inventory.Snapshot(), RentalDataOf(rentals), next);
    var id := NatToString(next);
    rental := NewRental(id, memberId, itemId, policy, now, registry, inventory, rentals);
    assert item.itemId == itemId;
    ghost var member0 := before.members[m];
    assert member.Data() == member0;
    var marked := MarkAndRecord(registry, inventory, rentals + [rental], member, m, item, id);
    RentalDataOfAppend(rentals, rental);
    outcome := if marked.Threw? then ItemThrew(marked.error) else Started(id);
    StartResultIs(before, memberId, itemId, policy, now, registry.Snapshot(), inventory.Snapshot(),
                  RentalDataOf(rentals + [rental]), next + 1, outcome);
    assert LedgerOf(registry, inventory, rentals + [rental], next + 1)
      == Ledger(registry.Snapshot(), inventory.Snapshot(), RentalDataOf(rentals + [rental]), next + 1);
  }

  /** `new Rental(id, memberId, itemId, policy)` at `now`. */
  method NewRental(id: string, memberId: string, itemId: string, policy: PricePolicy, now: Timestamp,
                   ghost registry: MemberRegistries.MemberRegistry, ghost inventory: Inventories.Inventory,
                   ghost rentals: seq<Rental>)
    returns (rental: Rental)
    ensures fresh(rental) && rental.Data() == OpenedRental(id, memberId, itemId, policy, now)
    ensures registry.Snapshot() == old(registry.Snapshot()) && inventory.Snapshot() == old(inventory.Snapshot())
    ensures RentalDataOf(rentals) == old(RentalDataOf(rentals))
    ensures registry.members == old(registry.members) && inventory.items == old(inventory.items)
  {
    rental := new Rental(id, memberId, itemId, Some(policy), now);
  }

  /** The part of `startRental` after the new rental is listed: the item
      is marked rented, and, unless the item's update threw, the rental ID
      goes at the end of the member's history. */
  method MarkAndRecord(registry: MemberRegistries.MemberRegistry, inventory: Inventories.Inventory,
                       ghost rentals: seq<Rental>, member: Member, m: nat, item: Item, id: string)
    returns (marked: Inventories.ItemUpdateOutcome)
    requires registry.Valid() && m < |registry.members| && registry.members[m] == member
    requires inventory.Valid() && inventory.FindItemById(item.itemId) == Some(item)
    modifies inventory, inventory.items, member
    ensures inventory.Valid() && inventory.items == old(inventory.items)
    ensures var i := Inventories.FindIndexById(old(inventory.Snapshot()), item.itemId).value;
      (inventory.Snapshot(), marked) == MarkAvailability(old(inventory.Snapshot()), i, false)
    ensures RentalDataOf(rentals) == old(RentalDataOf(rentals)) && registry.members == old(registry.members)
    ensures marked.Threw? ==> registry.Snapshot() == old(registry.Snapshot())
    ensures !marked.Threw? ==>
      registry.Snapshot()
        == old(registry.Snapshot())[m := old(member.Data()).(rentalHistory := old(member.Data()).rentalHistory + [id])]
  {
    marked := MarkKeeping(inventory, item, false, registry, rentals);
    if !marked.Threw? {
      AppendKeeping(registry, member, m, id, inventory, rentals);
    }
  }

  /** `endRental(rentalId)` at `now` over the two registers and the listed
      rentals, closing with the metered cost. */
  method EndIn(registry: MemberRegistries.MemberRegistry, inventory: Inventories.Inventory,
               rentals: seq<Rental>, next: nat, rentalId: string, now: Timestamp)
    returns (outcome: EndOutcome)
    requires inventory.Valid() && forall a, b :: 0 <= a < b < |rentals| ==> rentals[a] != rentals[b]
    modifies rentals, inventory, inventory.items
    ensures inventory.Valid() && inventory.items == old(inventory.items)
    ensures (LedgerOf(registry, inventory, rentals, next), outcome)
      == EndRentalSpec(old(LedgerOf(registry, inventory, rentals, next)), rentalId, now)
  {
    ghost var before := LedgerOf(registry, inventory, rentals, next);
    EndFailsWithoutChange(before, rentalId, now);
    var k := FindActive(RentalDataOf(rentals), rentalId);
    if k.None? {
      return NoActiveRental;
    }
    var rental := rentals[k.value];
    var found := inventory.FindItemById(rental.itemId);
    if found.None? {
      return ItemMissing;
    }
    EndClosesRental(before, rentalId, now);
    ghost var spec := EndRentalSpec(before, rentalId, now);
    var item := found.value;
    var cost := rental.CurrentCost(item.currentRentalPrice, now);
    ghost var i := Inventories.FindIndexById(before.items, rental.itemId).value;
    CloseStored(rentals, k.value, cost, now, registry, inventory);
    assert RentalDataOf(rentals) == spec.0.rentals;
    assert inventory.Snapshot() == before.items;
    assert registry.Snapshot() == before.members;
    var marked := MarkKeeping(inventory, item, true, registry, rentals);
    assert RentalDataOf(rentals) == spec.0.rentals;
    assert registry.Snapshot() == spec.0.members;
    assert inventory.Snapshot() == MarkAvailability(before.items, i, true).0 == spec.0.items;
    outcome := if marked.Threw? then EndThrew(marked.error) else Ended(cost);
  }

  class RentalService {
    var rentals: seq<Rental>
    var nextRentalId: nat
    const memberRegistry: MemberRegistries.MemberRegistry
    const inventory: Inventories.Inventory

    /** The records of the members, items and rentals, and the counter. */
    function State(): Ledger
      reads this, rentals, memberRegistry, memberRegistry.members, inventory, inventory.items
    {
      LedgerOf(memberRegistry, inventory, rentals, nextRentalId)
    }

    /** Both registers are valid, and the rentals are. */
    predicate Valid()
      reads this, memberRegistry, inventory
    {
      memberRegistry.Valid() && inventory.Valid() && RentalsValid()
    }

    /** No rental object is listed twice, and the counter lies above every
        all-digit rental ID. */
    predicate RentalsValid()
      reads this
    {
      && (forall a, b :: 0 <= a < b < |rentals| ==> rentals[a] != rentals[b])
      && CounterAbove(IdsOf(rentals), nextRentalId)
    }

    /** The service over the two registers with the rentals as loaded; the
        counter is set past the stored rental IDs, which the empty
        `updateRentalIdCounter` leaves to be done. */
    constructor (memberRegistry: MemberRegistries.MemberRegistry, inventory: Inventories.Inventory, loaded: seq<RentalData>)
      requires memberRegistry.Valid() && inventory.Valid()
      ensures Valid() && this.memberRegistry == memberRegistry && this.inventory == inventory
      ensures RentalDataOf(rentals) == loaded
      ensures nextRentalId == NextIdAfterLoad(RentalIds(loaded), RENTAL_ID_FALLBACK)
    {
      var made: seq<Rental> := [];
      for i := 0 to |loaded|
        invariant |made| == i
        invariant forall k :: 0 <= k < i ==> made[k].Data() == loaded[k]
        invariant forall a, b :: 0 <= a < b < i ==> made[a] != made[b]
      {
        var rental := new Rental.FromData(loaded[i]);
        made := made + [rental];
      }
      this.memberRegistry := memberRegistry;
      this.inventory := inventory;
      rentals := made;
      nextRentalId := NextIdAfterLoad(RentalIds(loaded), RENTAL_ID_FALLBACK);
      new;
      assert IdsOf(rentals) == RentalIds(loaded);
    }

    /** `startRental(memberId, itemId, pricePolicy)` at `now`; the new
        rental object is returned when the start succeeds. */
    method StartRental(memberId: string, itemId: string, policy: PricePolicy, now: Timestamp)
      returns (outcome: StartOutcome, rental: Option<Rental>)
      requires Valid()
      modifies this, inventory, inventory.items, memberRegistry.members
      ensures Valid() && memberRegistry.members == old(memberRegistry.members) && inventory.items == old(inventory.items)
      ensures State() == StartRentalSpec(old(State()), memberId, itemId, policy, now).0
      ensures outcome == StartRentalSpec(old(State()), memberId, itemId, policy, now).1
      ensures rental.Some? <==> outcome.Started?
      ensures rental.Some? ==> fresh(rental.value) && rentals == old(rentals) + [rental.value]
    {
      var listed, next := rentals, nextRentalId;
      var created;
      outcome, created := StartIn(memberRegistry, inventory, listed, next, memberId, itemId, policy, now);
      List(listed, next, created);
      rental := if outcome.Started? then created else None;
    }

    /** `activeAndFinishedRentals.add(rental)`, with the counter moved past
        the rental's ID. */
    method List(listed: seq<Rental>, next: nat, created: Option<Rental>)
      requires forall a, b :: 0 <= a < b < |listed| ==> listed[a] != listed[b]
      requires CounterAbove(IdsOf(listed), next)
      requires created.Some? ==> created.value !in listed && created.value.id == NatToString(next)
      modifies this`rentals, this`nextRentalId
      ensures RentalsValid() && rentals == listed + Listed(created) && nextRentalId == next + |Listed(created)|
      ensures State() == old(LedgerOf(memberRegistry, inventory, listed + Listed(created), next + |Listed(created)|))
      ensures Valid() == old(memberRegistry.Valid() && inventory.Valid())
    {
      ListingKeepsCounter(listed, next, created);
      rentals, nextRentalId := listed + Listed(created), next + |Listed(created)|;
    }

    /** `endRental(rentalId)` at `now`, closing with the metered cost. */
    method EndRental(rentalId: string, now: Timestamp) returns (outcome: EndOutcome)
      requires Valid()
      modifies rentals, inventory, inventory.items
      ensures Valid() && inventory.items == old(inventory.items)
      ensures State() == EndRentalSpec(old(State()), rentalId, now).0
      ensures outcome == EndRentalSpec(old(State()), rentalId, now).1
    {
      outcome := EndIn(memberRegistry, inventory, rentals, nextRentalId, rentalId, now);
    }

    /** `getActiveRentals`. */
    function GetActiveRentals(): (r: seq<Rental>)
      reads this, rentals
      ensures r == Select(rentals, ActiveIndices(RentalDataOf(rentals)))
    {
      Select(rentals, ActiveIndices(RentalDataOf(rentals)))
    }

    /** `getTotalRevenue`. */
    function GetTotalRevenue(): (r: real)
      reads this, rentals
      ensures r == Revenue(RentalDataOf(rentals))
    {
      Revenue(RentalDataOf(rentals))
    }

    /** `getAllRentals`: the list itself, read only. */
    function GetAllRentals(): (r: seq<Rental>)
      reads this
      ensures r == rentals
    {
      rentals
    }
  }
}
