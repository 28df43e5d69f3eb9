/** The inventory: the list of rentable items, loaded at start and changed
    in place by add and update, the counter that hands out new item IDs,
    and the queries over the list (search, availability, popularity and the
    dashboard counts). Unlike the member register it does not write itself
    back after a change. */
module Inventories {
  import opened Wrappers
  import opened Text
  import opened Seqs
  import opened Ids
  import opened Items
  import opened Popularity
  import opened DataHandlers

  /** The value `initializeNextId` falls back on when no stored ID is all
      digits; the first ID is then one more. */
  const ITEM_ID_FALLBACK: nat := 999

  function ItemIds(snapshot: seq<ItemData>): (r: seq<string>)
    ensures |r| == |snapshot| && forall k :: 0 <= k < |snapshot| ==> r[k] == snapshot[k].itemId
  {
    seq(|snapshot|, k requires 0 <= k < |snapshot| => snapshot[k].itemId)
  }

  /** `findItemById`: the first item whose ID equals `id` exactly. */
  function FindIndexById(snapshot: seq<ItemData>, id: string): (r: Option<nat>)
    ensures r.Some? ==> r.value < |snapshot| && snapshot[r.value].itemId == id
    ensures r.Some? ==> forall k :: 0 <= k < r.value ==> snapshot[k].itemId != id
    ensures r.None? <==> forall k :: 0 <= k < |snapshot| ==> snapshot[k].itemId != id
  {
    FirstIndex(snapshot, (d: ItemData) => d.itemId == id)
  }

  // ---------------------------------------------------------------------
  // queries

  /** `getAvailableItems`: the positions of the available items, in list
      order. */
  function AvailableIndices(snapshot: seq<ItemData>): (r: seq<nat>)
    ensures forall k :: 0 <= k < |r| ==> r[k] < |snapshot| && snapshot[r[k]].isAvailable
    ensures forall i :: 0 <= i < |snapshot| && snapshot[i].isAvailable ==> i in r
    ensures forall a, b :: 0 <= a < b < |r| ==> r[a] < r[b]
  {
    FilterIndices(snapshot, (d: ItemData) => d.isAvailable)
  }

  /** The positions of the rented-out items, in list order. */
  function RentedIndices(snapshot: seq<ItemData>): (r: seq<nat>)
    ensures forall k :: 0 <= k < |r| ==> r[k] < |snapshot| && !snapshot[r[k]].isAvailable
    ensures forall i :: 0 <= i < |snapshot| && !snapshot[i].isAvailable ==> i in r
  {
    FilterIndices(snapshot, (d: ItemData) => !d.isAvailable)
  }

  /** Every item is either available or rented out: the dashboard's total
      is the sum of its two other counts. */
  lemma CountsAddUp(snapshot: seq<ItemData>)
    ensures |AvailableIndices(snapshot)| + |RentedIndices(snapshot)| == |snapshot|
  {
    FilterComplementCount(snapshot, (d: ItemData) => d.isAvailable, (d: ItemData) => !d.isAvailable);
  }

  /** The type filter of `searchItems`: `Scooter` and `Sled` keep only that
      kind, `Alla` and every other text keep all items. */
  predicate KeepsType(typeFilter: string, d: ItemData)
  {
    if typeFilter == "Scooter" then d.variant.ScooterInfo?
    else if typeFilter == "Sled" then d.variant.SledInfo?
    else true
  }

  /** The text match of `searchItems`, against the lower-cased query: the
      empty query matches all; otherwise the lower-cased name, or for a
      snowmobile the engine displacement in decimal or the lower-cased
      licence plate, contains it. */
  predicate QueryMatches(d: ItemData, lowerQuery: string)
  {
    || lowerQuery == []
    || Contains(ToLower(d.name), lowerQuery)
    || (d.variant.ScooterInfo?
        && (Contains(IntToString(d.variant.engineDisplacement), lowerQuery)
            || Contains(ToLower(d.variant.licensePlate), lowerQuery)))
  }

  predicate SearchMatches(d: ItemData, query: string, typeFilter: string, onlyAvailable: bool)
  {
    KeepsType(typeFilter, d) && (!onlyAvailable || d.isAvailable) && QueryMatches(d, ToLower(query))
  }

  /** `searchItems(query, typeFilter, onlyAvailable)`: the positions of the
      matching items, in list order. */
  function SearchIndices(snapshot: seq<ItemData>, query: string, typeFilter: string, onlyAvailable: bool): (r: seq<nat>)
    ensures forall k :: 0 <= k < |r| ==>
      r[k] < |snapshot| && SearchMatches(snapshot[r[k]], query, typeFilter, onlyAvailable)
    ensures forall i :: 0 <= i < |snapshot| && SearchMatches(snapshot[i], query, typeFilter, onlyAvailable) ==> i in r
    ensures forall a, b :: 0 <= a < b < |r| ==> r[a] < r[b]
  {
    FilterIndices(snapshot, (d: ItemData) => SearchMatches(d, query, typeFilter, onlyAvailable))
  }

  /** With an empty query, the filter `Alla` and every item allowed, the
      search returns the whole list. */
  lemma EmptySearchFindsAll(snapshot: seq<ItemData>)
    ensures SearchIndices(snapshot, "", "Alla", false) == Range(|snapshot|)
  {
    FilterIndicesAll(snapshot, (d: ItemData) => SearchMatches(d, "", "Alla", false));
  }

  /** An unknown type filter searches as `Alla` does. */
  lemma UnknownFilterIsAlla(snapshot: seq<ItemData>, query: string, typeFilter: string, onlyAvailable: bool)
    requires typeFilter != "Scooter" && typeFilter != "Sled"
    ensures SearchIndices(snapshot, query, typeFilter, onlyAvailable) == SearchIndices(snapshot, query, "Alla", onlyAvailable)
  {
    FilterIndicesAgree(snapshot, (d: ItemData) => SearchMatches(d, query, typeFilter, onlyAvailable),
                       (d: ItemData) => SearchMatches(d, query, "Alla", onlyAvailable));
  }

  /** Restricting the search to available items keeps exactly the available
      ones among the unrestricted results. */
  lemma OnlyAvailableNarrows(snapshot: seq<ItemData>, query: string, typeFilter: string, i: nat)
    requires i < |snapshot|
    ensures i in SearchIndices(snapshot, query, typeFilter, true)
      <==> i in SearchIndices(snapshot, query, typeFilter, false) && snapshot[i].isAvailable
  {
  }

  // ---------------------------------------------------------------------
  // update

  /** How `updateItem` ended. A displacement or load that is not positive
      makes its setter throw, and nothing catches it. */
  datatype ItemUpdateOutcome = Updated | UnknownId | Threw(error: ItemError)

  /** The setters `updateItem` runs on the stored item with the values of
      `updated`: name, price and availability, then, when both are
      snowmobiles, displacement, plate and start, or, when both are sleds,
      type and maximum load. The record they leave and the error of the
      setter that threw, if one did; setters before it have taken effect. */
  function ApplyItemUpdate(existing: ItemData, updated: ItemData): (r: (ItemData, Option<ItemError>))
    ensures r.0.itemId == existing.itemId && r.0.rentalCount == existing.rentalCount
    ensures r.0.name == updated.name && r.0.currentRentalPrice == updated.currentRentalPrice
    ensures r.0.isAvailable == updated.isAvailable
    ensures r.0.variant.ScooterInfo? == existing.variant.ScooterInfo?
    ensures r.1.None? && existing.variant.ScooterInfo? == updated.variant.ScooterInfo? ==>
      r.0.variant == updated.variant
    ensures existing.variant.ScooterInfo? != updated.variant.ScooterInfo? ==>
      r.1.None? && r.0.variant == existing.variant
    ensures r.1.Some? <==>
      existing.variant.ScooterInfo? == updated.variant.ScooterInfo? && VariantError(updated.variant).Some?
  {
    var d := existing.(name := updated.name, currentRentalPrice := updated.currentRentalPrice,
                       isAvailable := updated.isAvailable);
    match (existing.variant, updated.variant)
    case (ScooterInfo(_, _, _), ScooterInfo(plate, cc, electric)) =>
      if cc <= 0 then (d, Some(EngineDisplacementNotPositive))
      else (d.(variant := ScooterInfo(plate, cc, electric)), None)
    case (SledInfo(_, _), SledInfo(sledType, kg)) =>
      var typed := d.(variant := existing.variant.(sledType := sledType));
      if kg <= 0 then (typed, Some(MaxWeightNotPositive))
      else (typed.(variant := SledInfo(sledType, kg)), None)
    case _ => (d, None)
  }

  /** `updateItem` on the records: the first item whose ID equals the ID of
      `u` gets the setters with the values of `u`. */
  function UpdateInventory(snapshot: seq<ItemData>, u: ItemData): (r: (seq<ItemData>, ItemUpdateOutcome))
    ensures |r.0| == |snapshot|
    ensures r.1 == UnknownId <==> FindIndexById(snapshot, u.itemId).None?
  {
    var found := FindIndexById(snapshot, u.itemId);
    if found.None? then (snapshot, UnknownId)
    else
      var outcome := ApplyItemUpdate(snapshot[found.value], u);
      (snapshot[found.value := outcome.0], if outcome.1.None? then Updated else Threw(outcome.1.value))
  }

  /** An update changes at most the item found, never an item's ID or
      rental count, and nothing at all for an unknown ID. */
  lemma UpdateInventoryFrame(snapshot: seq<ItemData>, u: ItemData)
    ensures var r := UpdateInventory(snapshot, u);
      (r.1 == UnknownId ==> r.0 == snapshot)
      && (forall k :: 0 <= k < |snapshot| ==>
            r.0[k].itemId == snapshot[k].itemId && r.0[k].rentalCount == snapshot[k].rentalCount)
      && (r.1 != UnknownId ==>
            forall k :: 0 <= k < |snapshot| && k != FindIndexById(snapshot, u.itemId).value ==> r.0[k] == snapshot[k])
  {
  }

  /** Updating from an item of the same kind that passes its check succeeds
      and leaves the found item equal to it, except for ID and count. */
  lemma UpdateFromValidItemCopies(snapshot: seq<ItemData>, u: ItemData)
    requires VariantError(u.variant).None?
    requires FindIndexById(snapshot, u.itemId).Some?
    requires snapshot[FindIndexById(snapshot, u.itemId).value].variant.ScooterInfo? == u.variant.ScooterInfo?
    ensures var i := FindIndexById(snapshot, u.itemId).value;
      UpdateInventory(snapshot, u) == (snapshot[i := u.(rentalCount := snapshot[i].rentalCount)], Updated)
  {
    var i := FindIndexById(snapshot, u.itemId).value;
    var outcome := ApplyItemUpdate(snapshot[i], u);
    assert outcome.0 == u.(rentalCount := snapshot[i].rentalCount);
  }

  /** Where the ID is found at `i`, the inventory update is the setters'
      outcome on the `i`-th record. */
  lemma UpdateInventoryAt(snapshot: seq<ItemData>, u: ItemData, i: nat, outcome: (ItemData, Option<ItemError>))
    requires FindIndexById(snapshot, u.itemId) == Some(i)
    requires outcome == ApplyItemUpdate(snapshot[i], u)
    ensures UpdateInventory(snapshot, u) ==
      (snapshot[i := outcome.0], if outcome.1.None? then Updated else Threw(outcome.1.value))
  {
  }

  /** The records of the listed items, in order. */
  function DataOf(items: seq<Item>): (r: seq<ItemData>)
    reads items
    ensures |r| == |items| && forall k :: 0 <= k < |items| ==> r[k] == items[k].Data()
  {
    if items == [] then [] else DataOf(items[..|items| - 1]) + [items[|items| - 1].Data()]
  }

  /** The setter calls of `updateItem` on the stored item `existing`, in
      order, stopping at the first that throws. */
  method RunItemSetters(existing: Item, u: ItemData) returns (err: Option<ItemError>)
    modifies existing
    ensures (existing.Data(), err) == ApplyItemUpdate(old(existing.Data()), u)
  {
    existing.SetName(u.name);
    existing.SetCurrentRentalPrice(u.currentRentalPrice);
    existing.SetAvailable(u.isAvailable);
    if existing.variant.ScooterInfo? && u.variant.ScooterInfo? {
      var o := existing.SetEngineDisplacement(u.variant.engineDisplacement);
      if o.Fail? {
        return Some(o.error);
      }
      existing.SetLicensePlate(u.variant.licensePlate);
      existing.SetHasElectricStart(u.variant.hasElectricStart);
    } else if existing.variant.SledInfo? && u.variant.SledInfo? {
      existing.SetType(u.variant.sledType);
      var o := existing.SetMaxWeightKg(u.variant.maxWeightKg);
      if o.Fail? {
        return Some(o.error);
      }
    }
    return None;
  }

  class Inventory {
    var items: seq<Item>
    var nextId: nat

    /** The items' records, in list order. */
    function Snapshot(): (r: seq<ItemData>)
      reads this`items, items
      ensures |r| == |items| && forall k :: 0 <= k < |items| ==> r[k] == items[k].Data()
    {
      DataOf(items)
    }

    /** No item object is listed twice. */
    predicate Valid()
      reads this`items
    {
      forall i, j :: 0 <= i < j < |items| ==> items[i] != items[j]
    }

    /** The inventory as loaded: one item per stored record, and the ID
        counter set past the stored IDs. */
    constructor (loaded: seq<ItemData>)
      ensures Valid() && Snapshot() == loaded
      ensures nextId == NextIdAfterLoad(ItemIds(loaded), ITEM_ID_FALLBACK)
    {
      var made: seq<Item> := [];
      for i := 0 to |loaded|
        invariant |made| == i
        invariant forall k :: 0 <= k < i ==> made[k].Data() == loaded[k]
        invariant forall a, b :: 0 <= a < b < i ==> made[a] != made[b]
      {
        var item := new Item.FromData(loaded[i]);
        made := made + [item];
      }
      items := made;
      nextId := NextIdAfterLoad(ItemIds(loaded), ITEM_ID_FALLBACK);
    }

    /** `generateNewId`: the counter in decimal, and the counter moves on. */
    method GenerateNewId() returns (id: string)
      modifies this
      ensures id == NatToString(old(nextId)) && nextId == old(nextId) + 1
      ensures items == old(items)
    {
      id := NatToString(nextId);
      nextId := nextId + 1;
    }

    /** `getAllItems`: the list itself, in order, as a view the caller
        cannot change. */
    function GetAllItems(): (r: seq<Item>)
      reads this, items
      ensures r == items
      ensures |r| == |Snapshot()| && forall k :: 0 <= k < |r| ==> r[k].Data() == Snapshot()[k]
    {
      items
    }

    /** `saveData`: the items are written through the persistence layer,
        each tagged with its class, so that a save without a fault loads
        back as the same records. */
    method SaveData(file: StoredFile, fault: SaveFault) returns (result: SaveResult, after: StoredFile)
      ensures result == Returned(true) <==> fault == NoFault
      ensures fault == OpenFault ==> after == file
      ensures fault == NoFault ==> LoadItems(after) == Snapshot()
    {
      result, after := SaveItems(Snapshot(), file, fault);
    }

    /** `findItemById`. */
    function FindItemById(id: string): (r: Option<Item>)
      reads this, items
      ensures r.None? <==> FindIndexById(Snapshot(), id).None?
      ensures r.Some? ==> r.value == items[FindIndexById(Snapshot(), id).value]
    {
      var i := FindIndexById(Snapshot(), id);
      if i.None? then None else Some(items[i.value])
    }

    /** `getAvailableItems`. */
    function GetAvailableItems(): (r: seq<Item>)
      reads this, items
      ensures r == Select(items, AvailableIndices(Snapshot()))
    {
      Select(items, AvailableIndices(Snapshot()))
    }

    /** `searchItems`. */
    function SearchItems(query: string, typeFilter: string, onlyAvailable: bool): (r: seq<Item>)
      reads this, items
      ensures r == Select(items, SearchIndices(Snapshot(), query, typeFilter, onlyAvailable))
    {
      Select(items, SearchIndices(Snapshot(), query, typeFilter, onlyAvailable))
    }

    /** `getMostPopularItems(limit)`; `None` where `Stream.limit` throws. */
    function GetMostPopularItems(limit: int): (r: Option<seq<Item>>)
      reads this, items
      ensures r.None? <==> limit < 0
      ensures r.Some? ==> r.value == Select(items, MostPopular(Counts(Snapshot()), limit).value)
    {
      var top := MostPopular(Counts(Snapshot()), limit);
      if top.None? then None else Some(Select(items, top.value))
    }

    function GetTotalCount(): (r: nat)
      reads this
      ensures r == |items|
    {
      |items|
    }

    function GetAvailableCount(): (r: nat)
      reads this, items
      ensures r == |AvailableIndices(Snapshot())|
    {
      |AvailableIndices(Snapshot())|
    }

    function GetRentedCount(): (r: nat)
      reads this, items
      ensures r == |RentedIndices(Snapshot())|
    {
      |RentedIndices(Snapshot())|
    }

    /** `getModelPopularity`. */
    function GetModelPopularity(): (r: map<string, int>)
      reads this, items
      ensures r == GroupSums(Snapshot())
    {
      GroupSums(Snapshot())
    }

    /** `addItem`: refused when an item has exactly this ID; otherwise
        appended at the end. Nothing is written. */
    method AddItem(item: Item) returns (added: bool)
      requires Valid()
      modifies this
      ensures Valid() && nextId == old(nextId)
      ensures added <==> FindIndexById(old(Snapshot()), item.itemId).None?
      ensures added ==> items == old(items) + [item]
      ensures !added ==> items == old(items)
    {
      if FindIndexById(Snapshot(), item.itemId).Some? {
        return false;
      }
      // an item already listed has its own ID, which was just found absent
      assert forall k :: 0 <= k < |items| ==> items[k].itemId != item.itemId;
      items := items + [item];
      return true;
    }

    /** `updateItem`: finds the item by the ID of `updated` and runs the
        setters on it. The stored item may be `updated` itself: each setter
        reads the field it writes, so reading `updated` first is the same. */
    method UpdateItem(updated: Item) returns (r: ItemUpdateOutcome)
      requires Valid()
      modifies this, items
      ensures Valid() && items == old(items) && nextId == old(nextId)
      ensures Snapshot() == UpdateInventory(old(Snapshot()), old(updated.Data())).0
      ensures r == UpdateInventory(old(Snapshot()), old(updated.Data())).1
    {
      var u := updated.Data();
      var found := FindIndexById(Snapshot(), u.itemId);
      if found.None? {
        assert UpdateInventory(Snapshot(), u) == (Snapshot(), UnknownId);
        return UnknownId;
      }
      var i := found.value;
      ghost var before := Snapshot();
      var err := UpdateAt(i, u);
      UpdateInventoryAt(before, u, i, (Snapshot()[i], err));
      r := if err.None? then Updated else Threw(err.value);
    }

    /** The setters of `updateItem` run on the `i`-th item: only that
        record changes. */
    method UpdateAt(i: nat, u: ItemData) returns (err: Option<ItemError>)
      requires Valid() && i < |items|
      modifies items[i]
      ensures unchanged(this)
      ensures var outcome := ApplyItemUpdate(old(Snapshot())[i], u);
        Snapshot() == old(Snapshot())[i := outcome.0] && err == outcome.1
    {
      ghost var before := Snapshot();
      err := RunItemSetters(items[i], u);
      assert Snapshot() == before[i := items[i].Data()];
    }
  }
}
