# ScooterCentral rental core in Dafny

ScooterCentral is a desktop rental system for a winter sports club. Club
members rent snowmobiles (`Scooter`) and sleds (`Sled`) by the hour, under a
standard or a student price policy. This project models the system's core:

- the entities:
  - `Member`, with validated names and phone number;
  - `Item` and its two variants, with positivity rules;
  - `Rental`, with a metered cost;
  - the two price policies;
- the member register (`MemberRegistry`) and the inventory (`Inventory`),
  each with its ID counter;
- the services on top of them:
  - `MembershipService`, which registers members and updates their details;
  - `RentalService`, which starts and ends rentals and reports active
    rentals and revenue;
- the persistence adapters of `DataHandler`:
  - the `itemType` tag of items and the `policyType` tag of price policies;
  - the fail-soft loading of a stored list;
  - the saving of the item list.

The model follows the source's form:

- Each entity and each register is a Dafny `class` whose fields the methods
  update in place.
- Each entity has a value record (`MemberData`, `ItemData`, `RentalData`)
  read through `Data()`. The registers expose the records of their lists
  through `Snapshot()`.
- Stream queries are pure functions over those records.
- Every state-changing operation is proved against a function on records. For
  example:
  - `UpdateRegister` for `updateMember`;
  - `ChangeDetails` for `updateMemberDetails`;
  - `StartRentalSpec` and `EndRentalSpec` for the two rental operations.

  Lemmas prove what those functions preserve and guarantee.

A Java exception thrown by a setter becomes an outcome value. The changes
made before the throw are kept, as they are in Java.

The clock is a parameter `now`, a `Timestamp`. Prices and hours are exact
reals. The files are plain-state models:

- a stored file is a value of `StoredFile`;
- a write failure is a parameter of type `SaveFault`.

Three behaviours of the rental service are easy to miss, and the model
keeps them as the code has them:

- Starting a rental neither increments the item's rental count nor saves
  anything (`RentalService.java:61-74`).
- Ending a rental whose item is no longer in the inventory fails and changes
  nothing (`RentalService.java:96-100`).
- Ending a rental saves nothing (`RentalService.java:105-114`).

One line is modelled twice. `RentalService.java:107` reports the item's
hourly price as the final price, however long the rental ran.
`EndRentalAsWritten` keeps that behaviour. The service method
`RentalService.EndRental` charges the metered cost of the elapsed time
instead, through `EndRentalSpec` (see Findings).

## Model

| member | source | states |
|---|---|---|
| Members.PhoneMatchesIffPattern | src/main/java/se/scooterrental/model/Member.java:25 | the phone pattern holds exactly when, after an optional leading `+`, 7 to 15 digits, spaces or hyphens follow; the regular expression has only one way to match |
| Members.CheckName | src/main/java/se/scooterrental/model/Member.java:67-75 | a name is refused exactly when it is blank, with that setter's error; an accepted name is stored trimmed, non-empty and with no blank at either end |
| Members.CheckPhone | src/main/java/se/scooterrental/model/Member.java:81-87 | a phone number is refused as missing when blank, as invalid when its trimmed form fails the pattern, and otherwise stored trimmed |
| Members.CheckNameStable | src/main/java/se/scooterrental/model/Member.java:67-75 | a stored name passes the check again and is stored unchanged |
| Members.CheckPhoneStable | src/main/java/se/scooterrental/model/Member.java:81-87 | a stored phone number passes the check again and is stored unchanged |
| Members.NewMemberError | src/main/java/se/scooterrental/model/Member.java:30-42 | the constructor accepts exactly a non-blank ID, two acceptable names and an acceptable phone number; a blank ID is the error reported first |
| Members.SetMemberIdKeepsValid | src/main/java/se/scooterrental/model/Member.java:60-65 | replacing the ID with a non-blank one keeps a valid member valid |
| Members.SetNameKeepsValid | src/main/java/se/scooterrental/model/Member.java:67-75 | an accepted first or last name keeps a valid member valid |
| Members.SetPhoneKeepsValid | src/main/java/se/scooterrental/model/Member.java:81-87 | an accepted phone number keeps a valid member valid |
| Members.UncheckedUpdatesKeepValid | src/main/java/se/scooterrental/model/Member.java:77-95 | the unchecked setters (e-mail, status, rental history) keep a valid member valid |
| Members.Member.Name | src/main/java/se/scooterrental/model/Member.java:97-99 | a member's display name is `FullName` of its current first and last names |
| Members.FullName | src/main/java/se/scooterrental/model/Member.java:97-99 | the display name is the first name, one space, then the last name, character for character |
| Members.Member.constructor | src/main/java/se/scooterrental/model/Member.java:30-42 | a member built from acceptable details is valid and holds the ID, the trimmed names and phone, the e-mail or `""` when none is given, the status and an empty history |
| Members.Member.Create | src/main/java/se/scooterrental/model/Member.java:30-42 | construction fails exactly when a check fails, with the first failing check's error; otherwise it gives a fresh valid member with the constructor's fields |
| Members.Member.FromData | src/main/java/se/scooterrental/persistence/DataHandler.java:141-143 | a loaded member holds the stored fields as they are, unvalidated, as reflective decoding leaves them |
| Members.Member.RentalHistory | src/main/java/se/scooterrental/model/Member.java:53-55 | the history is handed out as a value, so callers cannot change the member's list |
| Members.Member.SetMemberId | src/main/java/se/scooterrental/model/Member.java:60-65 | a blank ID fails and leaves the member unchanged; any other ID replaces the ID and nothing else |
| Members.Member.SetFirstName | src/main/java/se/scooterrental/model/Member.java:67-70 | a blank name fails and changes nothing; otherwise only the first name changes, to the trimmed name |
| Members.Member.SetLastName | src/main/java/se/scooterrental/model/Member.java:72-75 | a blank name fails and changes nothing; otherwise only the last name changes, to the trimmed name |
| Members.Member.SetEmail | src/main/java/se/scooterrental/model/Member.java:77-79 | only the e-mail changes, without a check |
| Members.Member.SetPhone | src/main/java/se/scooterrental/model/Member.java:81-87 | a missing or invalid number fails with that error and changes nothing; otherwise only the phone changes, to the trimmed number |
| Members.Member.SetStatus | src/main/java/se/scooterrental/model/Member.java:89-91 | only the status changes |
| Members.Member.AddRentalToHistory | src/main/java/se/scooterrental/model/Member.java:93-95 | the reference is appended at the end of the history and nothing else changes |
| Items.Int32Inc | src/main/java/se/scooterrental/model/Item.java:38-40 | `rentalCount++` on a Java `int` adds one, and wraps the largest value to the smallest |
| Items.VariantError | src/main/java/se/scooterrental/model/Scooter.java:44-50 | a snowmobile is accepted exactly when its engine displacement is above zero, and a sled exactly when its maximum load is, each with its own error otherwise |
| Items.UniqueInfo | src/main/java/se/scooterrental/model/Scooter.java:60-64 | a snowmobile's summary is `Skylt: <plate>, Motor: <cc> cc, Start: ` followed by exactly `Elstart` or `Kickstart`; a sled's (`Sled.java:51-54`) is `Typ: <type>, Maxvikt: `, exactly the decimal text of the load, then ` kg` |
| Items.UniqueInfoShowsStart | src/main/java/se/scooterrental/model/Scooter.java:60-64 | the summary ends in `Elstart` exactly when the snowmobile has electric start |
| Items.Item.constructor | src/main/java/se/scooterrental/model/Item.java:14-20 | a new item holds the given ID, name, price and variant, is available and has been rented zero times |
| Items.Item.FromData | src/main/java/se/scooterrental/persistence/DataHandler.java:77-81 | a loaded item holds the stored fields as they are, unvalidated |
| Items.Item.NewScooter | src/main/java/se/scooterrental/model/Scooter.java:21-26 | construction fails exactly when the displacement is not positive; otherwise it gives a fresh available snowmobile with the given fields |
| Items.Item.NewSled | src/main/java/se/scooterrental/model/Sled.java:20-25 | construction fails exactly when the maximum load is not positive; otherwise it gives a fresh available sled with the given fields |
| Items.Item.SetName | src/main/java/se/scooterrental/model/Item.java:30 | only the name changes |
| Items.Item.SetAvailable | src/main/java/se/scooterrental/model/Item.java:31 | only the availability changes |
| Items.Item.SetIsAvailable | src/main/java/se/scooterrental/model/Item.java:32 | only the availability changes, as with the other spelling |
| Items.Item.SetCurrentRentalPrice | src/main/java/se/scooterrental/model/Item.java:33 | only the hourly price changes |
| Items.Item.IncrementRentalCount | src/main/java/se/scooterrental/model/Item.java:38-40 | only the rental count changes, by one with 32-bit wrap-around |
| Items.Item.SetEngineDisplacement | src/main/java/se/scooterrental/model/Scooter.java:44-50 | a displacement that is not positive fails and changes nothing; otherwise only the displacement changes |
| Items.Item.SetLicensePlate | src/main/java/se/scooterrental/model/Scooter.java:52-54 | only the plate changes |
| Items.Item.SetHasElectricStart | src/main/java/se/scooterrental/model/Scooter.java:56-58 | only the start type changes |
| Items.Item.SetType | src/main/java/se/scooterrental/model/Sled.java:39-41 | only the sled type changes |
| Items.Item.SetMaxWeightKg | src/main/java/se/scooterrental/model/Sled.java:43-49 | a load that is not positive fails and changes nothing; otherwise only the maximum load changes |
| PricePolicies.Factor | src/main/java/se/scooterrental/model/StudentPricePolicy.java:7 | each policy's factor is positive and at most one, so no policy charges more than the base rate |
| PricePolicies.Price | src/main/java/se/scooterrental/model/StandardPricePolicy.java:10-13 | zero hours or a zero base price cost nothing; for non-negative inputs the price lies between zero and base price times hours; the standard price is exactly that product |
| PricePolicies.Name | src/main/java/se/scooterrental/model/StandardPricePolicy.java:16-18 | every policy has a non-empty name; the name is `Standard` exactly for the standard policy, and the student policy (`StudentPricePolicy.java:16-18`) is named `Student (20% rabatt)` |
| PricePolicies.StudentIsFourFifths | src/main/java/se/scooterrental/model/StudentPricePolicy.java:10-13 | the student price is four fifths of the standard price for the same base price and hours |
| PricePolicies.PriceMonotoneInHours | src/main/java/se/scooterrental/model/PricePolicy.java:16 | for a non-negative base price, a longer rental never costs less |
| PricePolicies.PriceAdditive | src/main/java/se/scooterrental/model/PricePolicy.java:16 | the price of two periods together is the sum of their prices |
| DateTimes.Format | src/main/java/se/scooterrental/model/Rental.java:23 | a timestamp is written in the 19-character `yyyy-MM-dd HH:mm:ss` form |
| DateTimes.FormatMinutes | src/main/java/se/scooterrental/model/Rental.java:25 | a timestamp is written in the 16-character `yyyy-MM-dd HH:mm` form |
| DateTimes.ParsePattern | src/main/java/se/scooterrental/model/Rental.java:87-90 | a text parses under a pattern only if it has that pattern's length, and a time read without seconds has second zero |
| DateTimes.ParseDateTime | src/main/java/se/scooterrental/model/Rental.java:84-92 | a missing time reads as the clock; otherwise the pattern with seconds is tried first and the one without seconds after it |
| DateTimes.ParseFormat | src/main/java/se/scooterrental/model/Rental.java:87 | a timestamp written with seconds parses back to itself |
| DateTimes.ParseDateTimeFormat | src/main/java/se/scooterrental/model/Rental.java:84-92 | a start or end time the code wrote reads back as the timestamp it was written from, whatever the clock says |
| DateTimes.ParseLegacy | src/main/java/se/scooterrental/model/Rental.java:88-90 | an older time without seconds fails the first pattern and reads back through the fallback, with second zero |
| DateTimes.EarlierHasFewerSeconds | src/main/java/se/scooterrental/model/Rental.java:60 | a timestamp earlier on the calendar lies fewer seconds from the epoch, so the elapsed seconds from an earlier start to a later end are positive |
| DateTimes.FewerSecondsIffEarlier | src/main/java/se/scooterrental/model/Rental.java:60 | a timestamp lies fewer seconds from the epoch than another if and only if it is earlier on the calendar, so the elapsed seconds are positive exactly when the end is later |
| Rentals.Charge | src/main/java/se/scooterrental/model/Rental.java:67-72 | a rental is charged under its policy; a rental without a policy is charged exactly as the standard policy would charge it |
| Rentals.ClampedSeconds | src/main/java/se/scooterrental/model/Rental.java:60-62 | the elapsed seconds from start to end, or zero when the end comes first |
| Rentals.MeteredHours | src/main/java/se/scooterrental/model/Rental.java:54-65 | the hours run are never negative, and they exist exactly when the start time parses and, for a closed rental, the end time parses too |
| Rentals.CostOf | src/main/java/se/scooterrental/model/Rental.java:49-79 | a closed rental with a positive stored cost costs that; a time that does not parse costs zero; otherwise the metered hours are charged; for a non-negative base price the cost is never negative |
| Rentals.Closed | src/main/java/se/scooterrental/model/Rental.java:94-98 | closing makes the rental inactive, stamps the end time and stores the final cost, and changes no other field |
| Rentals.NoPolicyIsStandard | src/main/java/se/scooterrental/model/Rental.java:67-72 | a rental without a policy costs what the same rental under the standard policy costs |
| Rentals.ClosedCostIsStored | src/main/java/se/scooterrental/model/Rental.java:50-52 | a closed rental with a positive stored cost costs that whatever the base price and the clock |
| Rentals.ClosedCostIgnoresClock | src/main/java/se/scooterrental/model/Rental.java:57 | a closed rental with stored times costs the same whenever it is asked |
| Rentals.FutureStartCostsNothing | src/main/java/se/scooterrental/model/Rental.java:62 | a start time the clock has not reached gives a zero cost, never a negative one |
| Rentals.ActiveCostMeters | src/main/java/se/scooterrental/model/Rental.java:56-68 | an active rental is charged for the exact elapsed seconds divided by 3600 as hours |
| Rentals.OneHourCost | src/main/java/se/scooterrental/model/Rental.java:65-68 | one hour costs the base price under the standard policy and four fifths of it under the student policy |
| Rentals.ActiveCostMonotone | src/main/java/se/scooterrental/model/Rental.java:49-79 | for a non-negative base price the running cost of an active rental never falls as the clock advances |
| Rentals.ClosedMeteredHours | src/main/java/se/scooterrental/model/Rental.java:57 | a rental closed at time `t` has, at any later time, run the hours it had run at `t` |
| Rentals.ClosingFreezesCost | src/main/java/se/scooterrental/model/Rental.java:94-98 | closing a rental with the cost it has at that moment keeps that cost for every later question |
| Rentals.Rental.constructor | src/main/java/se/scooterrental/model/Rental.java:27-35 | a new rental is active, started at the clock's time in the seconds format, has no end time and nothing charged |
| Rentals.Rental.FromData | src/main/java/se/scooterrental/persistence/DataHandler.java:157-159 | a loaded rental holds the stored fields as they are |
| Rentals.Rental.CurrentCost | src/main/java/se/scooterrental/model/Rental.java:49-79 | the current cost is the metered cost of the rental's record at the clock's time |
| Rentals.Rental.EndRental | src/main/java/se/scooterrental/model/Rental.java:94-98 | the rental becomes the closed record: inactive, ended now, with the given cost stored |
| Rentals.Rental.SetTotalCost | src/main/java/se/scooterrental/model/Rental.java:100-102 | only the stored cost changes |
| Ids.NextIdAfterLoad | src/main/java/se/scooterrental/service/Inventory.java:28-36 | the counter starts one above the largest all-digit stored ID, or one above the fallback when no stored ID is all digits, so it lies above every numeric ID |
| Ids.GeneratedIdsAreFresh | src/main/java/se/scooterrental/service/Inventory.java:38-40 | no ID the counter hands out after loading equals a stored ID, and two different draws give two different IDs |
| Ids.LongNextIdAfterLoad | src/main/java/se/scooterrental/service/Inventory.java:28-36 | in 64-bit arithmetic the load fails exactly when a stored all-digit ID is above `Long.MAX_VALUE`; otherwise the counter is a `long` |
| Ids.WrapLong | src/main/java/se/scooterrental/service/Inventory.java:35 | a `long` sum wraps into the 64-bit range, is unchanged inside it, and `Long.MAX_VALUE + 1` becomes `Long.MIN_VALUE` |
| Ids.LongCounterAgrees | src/main/java/se/scooterrental/service/Inventory.java:28-36 | while the fallback and every stored all-digit ID are below `Long.MAX_VALUE`, the 64-bit counter equals the unbounded one |
| Ids.LongCounterWraps | src/main/java/se/scooterrental/service/MemberRegistry.java:28-36 | a stored ID equal to `Long.MAX_VALUE` makes the 64-bit counter start at `Long.MIN_VALUE` |
| Ids.CounterAboveStep | src/main/java/se/scooterrental/service/MemberRegistry.java:38-40 | listing the ID just handed out and advancing the counter keeps the counter above every ID |
| Ids.CounterIdIsFresh | src/main/java/se/scooterrental/service/MemberRegistry.java:38-40 | a counter above every numeric ID hands out an ID that is not yet listed |
| Text.Trim | src/main/java/se/scooterrental/model/Member.java:68-69 | a trimmed non-empty text has no trimmable character at either end |
| Text.TrimIsInfix | src/main/java/se/scooterrental/model/Member.java:68-69 | the trimmed text is a slice of the original, and every character cut away before or after it is trimmable |
| Text.BlankIffAllTrimmable | src/main/java/se/scooterrental/model/Member.java:68 | a text is blank exactly when every character is trimmable |
| Text.TrimIdempotent | src/main/java/se/scooterrental/model/Member.java:69 | trimming twice is trimming once |
| Text.ContainsIffOccurs | src/main/java/se/scooterrental/service/MemberRegistry.java:99-100 | `contains` holds exactly when the text occurs at some position |
| Text.IndexOf | src/main/java/se/scooterrental/service/MembershipService.java:28 | the first position holding the character, or none exactly when the character is absent |
| Text.RemoveChar | src/main/java/se/scooterrental/service/MembershipService.java:37 | removing every space leaves no space and every other character |
| Text.RemoveCharAppend | src/main/java/se/scooterrental/service/MembershipService.java:37 | removing from a concatenation concatenates the removals, so the kept characters stay in their order |
| Text.RemoveCharCounts | src/main/java/se/scooterrental/service/MembershipService.java:37 | every other character is kept as many times as it occurs, so the length drops by exactly the number of removed occurrences |
| Text.NatToString | src/main/java/se/scooterrental/service/Inventory.java:39 | a counter value is written as digits that read back as that value, with no leading zero |
| Text.IntToString | src/main/java/se/scooterrental/service/Inventory.java:106 | an `int` is written as the digits of its absolute value without leading zeros, with a minus sign when negative |
| Seqs.RemoveFirst | src/main/java/se/scooterrental/service/MemberRegistry.java:83 | `List.remove(Object)` takes out the first occurrence only, and nothing when the element is absent |
| Inventories.FindIndexById | src/main/java/se/scooterrental/service/Inventory.java:70-72 | the first item whose ID equals the given one exactly, or none exactly when no item has that ID |
| Inventories.AvailableIndices | src/main/java/se/scooterrental/service/Inventory.java:78-82 | exactly the available items, in list order |
| Inventories.RentedIndices | src/main/java/se/scooterrental/service/Inventory.java:124 | exactly the rented-out items |
| Inventories.CountsAddUp | src/main/java/se/scooterrental/service/Inventory.java:122-124 | the available count and the rented count add up to the total count |
| Inventories.SearchIndices | src/main/java/se/scooterrental/service/Inventory.java:90-112 | exactly the items that pass the type filter, the availability filter and the text query, in list order |
| Inventories.EmptySearchFindsAll | src/main/java/se/scooterrental/service/Inventory.java:90-112 | an empty query with the `Alla` filter and no availability filter lists every item |
| Inventories.UnknownFilterIsAlla | src/main/java/se/scooterrental/service/Inventory.java:94-99 | a type filter other than `Scooter` or `Sled` filters like `Alla` |
| Inventories.OnlyAvailableNarrows | src/main/java/se/scooterrental/service/Inventory.java:100 | the available-only search lists exactly the available items of the unrestricted search |
| Inventories.ApplyItemUpdate | src/main/java/se/scooterrental/service/Inventory.java:52-64 | the update copies name, price and availability and keeps ID, count and kind; the kind-specific fields are copied only between items of the same kind, and only a rejected positive-number field throws |
| Inventories.UpdateInventory | src/main/java/se/scooterrental/service/Inventory.java:49-68 | the list keeps its length, and the update reports an unknown ID exactly when no item has it |
| Inventories.UpdateInventoryFrame | src/main/java/se/scooterrental/service/Inventory.java:49-68 | an unknown ID changes nothing; IDs and rental counts never change; only the item found changes |
| Inventories.UpdateFromValidItemCopies | src/main/java/se/scooterrental/service/Inventory.java:49-68 | a valid update of an item of the same kind replaces its record by the update's, except that the rental count is kept |
| Inventories.RunItemSetters | src/main/java/se/scooterrental/service/Inventory.java:53-63 | running the setters on the stored item leaves exactly the record and error that `ApplyItemUpdate` gives |
| Inventories.Inventory.constructor | src/main/java/se/scooterrental/service/Inventory.java:20-26 | the inventory holds one item per loaded record, and the counter starts past the stored numeric IDs with fallback 999 |
| Inventories.Inventory.GenerateNewId | src/main/java/se/scooterrental/service/Inventory.java:38-40 | the counter's value is returned as text and the counter advances by one; the list is untouched |
| Inventories.Inventory.GetAllItems | src/main/java/se/scooterrental/service/Inventory.java:74-76 | the inventory's own list of items, in order |
| Inventories.Inventory.SaveData | src/main/java/se/scooterrental/service/Inventory.java:84-86 | saving reports success exactly when no fault occurs, and a successful save reloads as the inventory's records |
| Inventories.Inventory.FindItemById | src/main/java/se/scooterrental/service/Inventory.java:70-72 | the item object at the first exact ID match, or none exactly when there is none |
| Inventories.Inventory.GetAvailableItems | src/main/java/se/scooterrental/service/Inventory.java:78-82 | the item objects that are available, in list order |
| Inventories.Inventory.SearchItems | src/main/java/se/scooterrental/service/Inventory.java:90-112 | the item objects the search selects, in list order |
| Inventories.Inventory.GetMostPopularItems | src/main/java/se/scooterrental/service/Inventory.java:114-119 | a negative limit throws; otherwise the item objects of the ranking's first positions |
| Inventories.Inventory.GetTotalCount | src/main/java/se/scooterrental/service/Inventory.java:122 | the number of items |
| Inventories.Inventory.GetAvailableCount | src/main/java/se/scooterrental/service/Inventory.java:123 | the number of available items |
| Inventories.Inventory.GetRentedCount | src/main/java/se/scooterrental/service/Inventory.java:124 | the number of rented-out items |
| Inventories.Inventory.GetModelPopularity | src/main/java/se/scooterrental/service/Inventory.java:126-132 | the map of rental counts summed per name, whose properties `GroupSumsByName` and `GroupSumsTotal` state |
| Inventories.Inventory.AddItem | src/main/java/se/scooterrental/service/Inventory.java:42-47 | the item is appended exactly when no item has its ID; otherwise nothing changes |
| Inventories.Inventory.UpdateItem | src/main/java/se/scooterrental/service/Inventory.java:49-68 | the records become exactly those of `UpdateInventory`, with its outcome; the list of objects stays the same |
| Popularity.SortByCount | src/main/java/se/scooterrental/service/Inventory.java:116 | the sort ranks every position exactly once, highest count first, and earlier positions first among equal counts |
| Popularity.RankedDistinct | src/main/java/se/scooterrental/service/Inventory.java:116 | a ranking lists no item twice |
| Popularity.MostPopular | src/main/java/se/scooterrental/service/Inventory.java:114-119 | a negative limit throws; otherwise the result is ranked and holds `limit` items, or all of them when there are fewer |
| Popularity.MostPopularIsTop | src/main/java/se/scooterrental/service/Inventory.java:114-119 | every item left out of the list is ranked after every item in it |
| Popularity.GroupSumsByName | src/main/java/se/scooterrental/service/Inventory.java:126-132 | the map has one key per distinct item name, holding the sum of the rental counts of the items with that name |
| Popularity.GroupSumsTotal | src/main/java/se/scooterrental/service/Inventory.java:126-132 | the per-name sums add up to the sum of all rental counts |
| MemberRegistries.FindIndexById | src/main/java/se/scooterrental/service/MemberRegistry.java:90-94 | the first member whose ID equals the given one ignoring case, or none exactly when there is none |
| MemberRegistries.SearchByName | src/main/java/se/scooterrental/service/MemberRegistry.java:96-102 | exactly the members whose lower-cased first or last name contains the lower-cased query, in list order |
| MemberRegistries.EmptyQueryFindsAll | src/main/java/se/scooterrental/service/MemberRegistry.java:96-102 | the empty query lists every member |
| MemberRegistries.ApplyUpdate | src/main/java/se/scooterrental/service/MemberRegistry.java:64-70 | the update keeps the member's ID and rental history; when no setter throws, status and e-mail are copied |
| MemberRegistries.UpdateFromValidCopies | src/main/java/se/scooterrental/service/MemberRegistry.java:64-70 | a valid update copies names, e-mail, phone and status, and nothing throws |
| MemberRegistries.UpdateKeepsValid | src/main/java/se/scooterrental/service/MemberRegistry.java:64-70 | even an update that throws part way leaves a valid member valid |
| MemberRegistries.UpdateRegister | src/main/java/se/scooterrental/service/MemberRegistry.java:61-75 | the list keeps its length, and the update reports "not found" exactly when no member has the ID ignoring case |
| MemberRegistries.UpdateRegisterFrame | src/main/java/se/scooterrental/service/MemberRegistry.java:61-75 | an unknown ID changes nothing; no ID or history changes; only the member found changes |
| MemberRegistries.UpdateRegisterFromValid | src/main/java/se/scooterrental/service/MemberRegistry.java:61-75 | a valid update of a known member replaces its five editable fields and reports success |
| MemberRegistries.RunUpdateSetters | src/main/java/se/scooterrental/service/MemberRegistry.java:66-70 | running the setters leaves exactly the record and error that `ApplyUpdate` gives |
| MemberRegistries.MemberRegistry.constructor | src/main/java/se/scooterrental/service/MemberRegistry.java:20-26 | the register holds one member per loaded record and has saved nothing; the counter starts past the stored numeric IDs with fallback 1000 |
| MemberRegistries.MemberRegistry.GenerateNewId | src/main/java/se/scooterrental/service/MemberRegistry.java:38-40 | the counter's value is returned as text and the counter advances by one; members and saves are untouched |
| MemberRegistries.MemberRegistry.GetMembers | src/main/java/se/scooterrental/service/MemberRegistry.java:46-48 | the register's own list of members, in order |
| MemberRegistries.MemberRegistry.FindMemberById | src/main/java/se/scooterrental/service/MemberRegistry.java:90-94 | the member object at the first case-insensitive ID match, or none exactly when there is none |
| MemberRegistries.MemberRegistry.SearchMembersByName | src/main/java/se/scooterrental/service/MemberRegistry.java:96-102 | the member objects the name search selects, in list order |
| MemberRegistries.MemberRegistry.AddMember | src/main/java/se/scooterrental/service/MemberRegistry.java:50-59 | the member is appended and the list saved exactly when no member has exactly its ID; otherwise nothing changes and nothing is saved |
| MemberRegistries.MemberRegistry.UpdateMember | src/main/java/se/scooterrental/service/MemberRegistry.java:61-75 | the records become exactly those of `UpdateRegister`, with its outcome; the list is saved only after a successful update |
| MemberRegistries.MemberRegistry.RemoveMember | src/main/java/se/scooterrental/service/MemberRegistry.java:82-88 | the first occurrence of the object is removed, the result says whether it was listed, the object is no longer listed, and the list is saved only when it was removed |
| MemberRegistries.MemberRegistry.Save | src/main/java/se/scooterrental/service/MemberRegistry.java:104-106 | the current records are written; members and counter are untouched |
| MembershipServices.SplitFullNameParts | src/main/java/se/scooterrental/service/MembershipService.java:26-34 | a name without a space is all first name, with the fallback last name; otherwise the first name has no space and first name, one space and last name give back the full name |
| MembershipServices.SplitJoined | src/main/java/se/scooterrental/service/MembershipService.java:26-34 | splitting a joined first and last name gives them back when the first has no space |
| MembershipServices.RegistrationEmailShape | src/main/java/se/scooterrental/service/MembershipService.java:37 | the generated address starts with the lower-cased first name and a dot, has no space after the dot, and ends with the club's domain |
| MembershipServices.NewRecord | src/main/java/se/scooterrental/service/MembershipService.java:26-41 | the record is refused exactly when the split name or the phone fails the member checks; an accepted record has the new ID, the status, an empty history and the generated e-mail |
| MembershipServices.NewRecordIsValid | src/main/java/se/scooterrental/service/MembershipService.java:39-41 | an accepted new record is a valid member |
| MembershipServices.RegistrationOf | src/main/java/se/scooterrental/service/MembershipService.java:39-50 | registration is rejected exactly when construction fails, refused as taken exactly when the ID is already listed, and otherwise adds the record built |
| MembershipServices.Registration | src/main/java/se/scooterrental/service/MembershipService.java:22-51 | the outcome of registering a full name and phone: rejected exactly when the record is refused, added only under an unlisted ID |
| MembershipServices.RegistrationUsesFreshId | src/main/java/se/scooterrental/service/MembershipService.java:22-51 | with the counter above every stored ID, registration never hits a taken ID and keeps the counter above every ID |
| MembershipServices.RegistrationKeepsNames | src/main/java/se/scooterrental/service/MembershipService.java:26-41 | registering `first last` with valid parts adds a member with those names and the phone, trimmed |
| MembershipServices.RegistrationWithoutSpace | src/main/java/se/scooterrental/service/MembershipService.java:32-34 | a full name without a space registers as first name with the last name `Okänd` |
| MembershipServices.ApplyDetails | src/main/java/se/scooterrental/service/MembershipService.java:62-76 | the details change names, phone and status and keep ID, e-mail and history; no setter throws exactly when both name parts and the phone are acceptable |
| MembershipServices.DetailsKeepValid | src/main/java/se/scooterrental/service/MembershipService.java:73-76 | even details that throw part way leave a valid member valid |
| MembershipServices.DetailsIdempotent | src/main/java/se/scooterrental/service/MembershipService.java:56-83 | applying accepted details a second time changes nothing |
| MembershipServices.DetailsWithoutSpaceKeepLastName | src/main/java/se/scooterrental/service/MembershipService.java:69-71 | a full name without a space keeps the member's last name |
| MembershipServices.ChangeDetails | src/main/java/se/scooterrental/service/MembershipService.java:56-83 | the list keeps its length; an ID no member has ignoring case is reported and changes nothing |
| MembershipServices.ChangeDetailsFrame | src/main/java/se/scooterrental/service/MembershipService.java:56-83 | no ID and no rental history changes, and only the member found changes |
| MembershipServices.ChangeDetailsKeepsValid | src/main/java/se/scooterrental/service/MembershipService.java:56-83 | a register of valid members stays valid |
| MembershipServices.RunDetailsSetters | src/main/java/se/scooterrental/service/MembershipService.java:73-76 | running the four setters leaves exactly the record and error of `ApplyDetails` |
| MembershipServices.SearchIndices | src/main/java/se/scooterrental/service/MembershipService.java:96-102 | an ID match ignoring case gives just that first member; otherwise exactly the members the name search selects, in order |
| MembershipServices.EmptySearchListsAll | src/main/java/se/scooterrental/service/MembershipService.java:96-102 | an empty query that matches no ID lists every member |
| MembershipServices.AddAndSave | src/main/java/se/scooterrental/service/MembershipService.java:43-45 | the member is added exactly when its ID is unlisted, and then the list is saved twice: once by the register and once by the service |
| MembershipServices.MembershipService.constructor | src/main/java/se/scooterrental/service/MembershipService.java:14-16 | the service works on the given register |
| MembershipServices.MembershipService.RegisterNewMember | src/main/java/se/scooterrental/service/MembershipService.java:22-51 | one ID is drawn whatever happens; the member returned is fresh, is exactly the one `Registration` adds, and is appended and saved; otherwise nothing changes |
| MembershipServices.MembershipService.UpdateMemberDetails | src/main/java/se/scooterrental/service/MembershipService.java:56-83 | records and outcome are exactly those of `ChangeDetails`; the list is saved only when the change completes |
| MembershipServices.MembershipService.GetAllMembers | src/main/java/se/scooterrental/service/MembershipService.java:88-91 | the register's own list of members, in order |
| MembershipServices.MembershipService.SearchMembers | src/main/java/se/scooterrental/service/MembershipService.java:96-102 | the member objects `SearchIndices` selects |
| RentalServices.LoadedCounterIsFresh | src/main/java/se/scooterrental/service/RentalService.java:31-38 | the counter set after loading lies above every stored rental ID, so the first ID is new |
| RentalServices.ActiveIndices | src/main/java/se/scooterrental/service/RentalService.java:126-130 | exactly the unfinished rentals, in list order |
| RentalServices.RevenueOfNewActive | src/main/java/se/scooterrental/service/RentalService.java:136-141 | listing a new active rental leaves the revenue unchanged |
| RentalServices.RevenueOfClosing | src/main/java/se/scooterrental/service/RentalService.java:136-141 | closing an active rental adds its final cost to the revenue |
| RentalServices.RevenueOfActiveOnly | src/main/java/se/scooterrental/service/RentalService.java:136-141 | with no finished rental the revenue is zero |
| RentalServices.MarkAvailability | src/main/java/se/scooterrental/service/RentalService.java:68-69 | flipping availability through the inventory's update changes only that flag, and throws exactly when the item's kind-specific number is not positive |
| RentalServices.StartFailsWithoutChange | src/main/java/se/scooterrental/service/RentalService.java:47-59 | an unknown member, or an unknown or rented-out item, fails the start and changes nothing |
| RentalServices.StartOpensRental | src/main/java/se/scooterrental/service/RentalService.java:61-74 | a start lists a new active rental under the next ID, marks the item rented, and appends the ID to the member's history unless the item update throws |
| RentalServices.OpenedRentalCostsNothing | src/main/java/se/scooterrental/service/RentalService.java:64 | a freshly opened rental is active, unfinished and costs nothing yet |
| RentalServices.StartKeepsIdsFresh | src/main/java/se/scooterrental/service/RentalService.java:63-65 | starting keeps the counter above every rental ID, never reuses one and keeps the IDs distinct |
| RentalServices.StartKeepsRevenue | src/main/java/se/scooterrental/service/RentalService.java:63-65 | starting leaves the revenue unchanged and adds at most the new rental to the active ones |
| RentalServices.FindActive | src/main/java/se/scooterrental/service/RentalService.java:83-86 | the first unfinished rental with the ID, or none exactly when there is none |
| RentalServices.EndRentalAsWritten | src/main/java/se/scooterrental/service/RentalService.java:105-114 | as written, the final price reported is the item's hourly price |
| RentalServices.EndFailsWithoutChange | src/main/java/se/scooterrental/service/RentalService.java:83-100 | no unfinished rental with the ID, or a rented item missing from the inventory, fails the end and changes nothing |
| RentalServices.EndClosesRental | src/main/java/se/scooterrental/service/RentalService.java:102-114 | ending closes the rental with its metered cost, marks the item available, leaves members and counter alone, and reports the cost unless the item update throws |
| RentalServices.EndChargesElapsedTime | src/main/java/se/scooterrental/service/RentalService.java:105-114 | the final cost is the policy's price for the elapsed seconds as hours, and zero when the clock is behind the start |
| RentalServices.EndFreezesCost | src/main/java/se/scooterrental/service/RentalService.java:105-114 | after the end, the rental's cost stays its stored final cost however late it is asked |
| RentalServices.SecondEndFails | src/main/java/se/scooterrental/service/RentalService.java:83-86 | with distinct IDs, ending the same rental again fails and changes nothing |
| RentalServices.EndAddsRevenue | src/main/java/se/scooterrental/service/RentalService.java:105-114 | ending keeps IDs and counter, adds the final cost to the revenue, and removes exactly that rental from the active ones |
| RentalServices.AsWrittenChargesOneHour | src/main/java/se/scooterrental/service/RentalService.java:107 | a two-hour standard rental of a 200-per-hour item ends at 200 as written, where the elapsed-time charge is 400 |
| RentalServices.RentalService.constructor | src/main/java/se/scooterrental/service/RentalService.java:26-33 | the service holds one rental per loaded record over the given registers, with the counter past the stored numeric rental IDs |
| RentalServices.RentalService.StartRental | src/main/java/se/scooterrental/service/RentalService.java:47-75 | records and outcome become exactly those of `StartRentalSpec`; a rental is returned exactly on success, fresh and appended to the list |
| RentalServices.RentalService.EndRental | src/main/java/se/scooterrental/service/RentalService.java:82-120 | records and outcome become exactly those of `EndRentalSpec`, the intended close that charges the metered cost of the elapsed time |
| RentalServices.RentalService.GetAllRentals | src/main/java/se/scooterrental/service/RentalService.java:147-149 | the service's own list of rentals, active and finished, in order |
| RentalServices.RentalService.GetActiveRentals | src/main/java/se/scooterrental/service/RentalService.java:126-130 | the unfinished rental objects, in list order |
| RentalServices.RentalService.GetTotalRevenue | src/main/java/se/scooterrental/service/RentalService.java:136-141 | the sum of the final costs of the finished rentals |
| DataHandlers.AsString | src/main/java/se/scooterrental/persistence/DataHandler.java:74 | a JSON string reads as itself; null and objects do not read as text |
| DataHandlers.TypeName | src/main/java/se/scooterrental/persistence/DataHandler.java:233-237 | the tag is `Scooter` exactly for snowmobiles and `Sled` exactly for sleds |
| DataHandlers.Tagged | src/main/java/se/scooterrental/persistence/DataHandler.java:232-237 | a saved item is an object whose `itemType` field names its kind |
| DataHandlers.ReadItem | src/main/java/se/scooterrental/persistence/DataHandler.java:77-81 | a decoded item is of the kind it was read as |
| DataHandlers.DecodeItem | src/main/java/se/scooterrental/persistence/DataHandler.java:64-85 | a non-object and an object without `itemType` are refused; decoding succeeds exactly for a `Scooter` or `Sled` tag whose fields read, and the result's kind matches the tag |
| DataHandlers.UnknownTypeRefused | src/main/java/se/scooterrental/persistence/DataHandler.java:82-83 | any other tag is refused with the tag named |
| DataHandlers.TaggedRoundTrip | src/main/java/se/scooterrental/persistence/DataHandler.java:227-242 | every saved item decodes back to itself |
| DataHandlers.EncodePolicy | src/main/java/se/scooterrental/persistence/DataHandler.java:93-97 | a policy is saved as an object with the one field `policyType`, `Standard` exactly for the standard policy and `Student` otherwise |
| DataHandlers.DecodePolicy | src/main/java/se/scooterrental/persistence/DataHandler.java:101-120 | a missing tag and any unknown tag give the standard policy; `Student` gives the student policy; only a non-object or a tag that is not text is refused |
| DataHandlers.PolicyRoundTrip | src/main/java/se/scooterrental/persistence/DataHandler.java:93-120 | every policy decodes back to itself |
| DataHandlers.PolicyDecodeStable | src/main/java/se/scooterrental/persistence/DataHandler.java:101-120 | re-saving a decoded policy decodes to the same policy |
| DataHandlers.DecodeAll | src/main/java/se/scooterrental/persistence/DataHandler.java:176 | a list decodes exactly when every element does, element by element |
| DataHandlers.LoadList | src/main/java/se/scooterrental/persistence/DataHandler.java:168-185 | loading gives the decoded elements of a stored list; a missing, unreadable or malformed file, or one element that fails, gives the empty list |
| DataHandlers.Write | src/main/java/se/scooterrental/persistence/DataHandler.java:223-252 | a write reports success exactly without a fault; a failed open leaves the file as it was, a failed write or close leaves it malformed |
| DataHandlers.SaveItems | src/main/java/se/scooterrental/persistence/DataHandler.java:203-205 | a successful save stores one element per item, each tagged with its kind, and loads back as exactly the saved items |

## Left out

- Console and file I/O, Gson's text format and pretty printing are left out. Files are abstract values, and the way a write fails is a parameter.
- The reflective member and rental codec is left out, and so are `saveMembers`, `saveRentals` and `loadRentals` as JSON. A member save is recorded as the list of records written (`saved`). Loading takes the records as a parameter.
- `RentalService.saveData` (`RentalService.java:155-157`) is not modelled: it writes the ledger through that reflective codec, and nothing in the core calls it.
- `LocalDateTimeAdapter`, `ConfigHandler`, the user interface and the autosave thread are not part of this model.
- Concurrency is left out: the `AtomicLong` counters are plain fields.
- Ids.NextIdAfterLoad: the counter is an unbounded number. In Java, `Long.parseLong` (`Inventory.java:32`, `MemberRegistry.java:32`) throws `NumberFormatException` on an all-digit ID above `Long.MAX_VALUE`, and `maxId + 1` (`:35`) and `getAndIncrement` (`:39`) wrap at `Long.MAX_VALUE`. `LongNextIdAfterLoad` models that 64-bit behaviour, and `LongCounterAgrees` shows the two agree while the stored IDs are below `Long.MAX_VALUE`.
- Ids.GeneratedIdsAreFresh: holds for the unbounded counter only. In Java, stored IDs `9223372036854775807` and `-9223372036854775808` make the counter wrap to `Long.MIN_VALUE` (`LongCounterWraps`), so the first new ID is the second stored one.
- Ids.CounterAboveStep: assumes the counter does not wrap at `Long.MAX_VALUE`.
- Inventories.Inventory.constructor: the failed load from an all-digit stored ID above `Long.MAX_VALUE` is not modelled, and the counter does not wrap.
- MemberRegistries.MemberRegistry.constructor: the failed load from an all-digit stored ID above `Long.MAX_VALUE` is not modelled, and the counter does not wrap.
- Inventories.Inventory.GenerateNewId: the counter does not wrap at `Long.MAX_VALUE`.
- MemberRegistries.MemberRegistry.GenerateNewId: the counter does not wrap at `Long.MAX_VALUE`.
- Java `double` is modelled as exact reals, so rounding is not modelled.
- `java.time`'s calendar leniency when parsing is left out. Timestamps hold years 1 to 9999.
- Text.ToLower: lower-cases ASCII letters only. Java's `toLowerCase` and `equalsIgnoreCase` also fold other alphabets, such as Swedish å, ä and ö.
- DataHandlers.NumberText: writes a number as the digits of its floor, so a fraction is dropped.
- DataHandlers.DecodeItem: does not model these Gson leniencies:
  - a number written as a string is refused rather than read;
  - a missing string field reads as `""` instead of `null`;
  - a `null` list element is refused.
- DataHandlers.DecodePolicy: JSON `null` is not modelled as reaching the adapter.
- The boolean results of `saveData` are returned but ignored by every caller, as in the source.
- The rental ID counter is not in the source. `updateRentalIdCounter` (`RentalService.java:38`) has an empty body, and `new Rental(memberId, itemId, policy)` at `RentalService.java:64` passes no ID. The model draws the next ID from a counter set past the stored numeric rental IDs, with fallback 0.
- `RentalService.java` does not compile as written. The model takes the evident intent in each case:
  - the stray `¨` at `:26`;
  - `policy` for `pricePolicy` at `:64`;
  - the `long` rental ID compared with a `String` at `:84`; the ID is modelled as text;
  - `double finalPrice = rental.endRental(basePrice)` assigns from a `void` method at `:107`. Read literally, it stores and reports the item's hourly price; `EndRentalAsWritten` and `AsWrittenChargesOneHour` model that (see Findings). `RentalServices.RentalService.EndRental` implements the intended close instead: the rental is charged the metered cost of the elapsed time, and that cost is reported;
  - `getEndTime` and `getFinalPrice`, which `Rental` does not declare; they are read as "not active" and the stored total cost.
- The `IllegalStateException` catch at `RentalService.java:116-119` is dead code, because nothing in its `try` throws that exception. An `IllegalArgumentException` from an item setter during the inventory update propagates. It is modelled as the outcomes `ItemThrew` and `EndThrew`, with the changes made before it kept.
- MembershipServices.MembershipService.UpdateMemberDetails: a setter's exception propagates out of `updateMemberDetails`. It is modelled as the outcome `DetailsThrew`, with the changes of the earlier setters kept.
- `Item.getUniqueInfo` is abstract. It is modelled per variant by `UniqueInfo`.

## Findings

| source | as written | input that shows it | evidently intended | confidence | as-written member | corrected member |
|---|---|---|---|---|---|---|
| src/main/java/se/scooterrental/service/RentalService.java:107 | `endRental` passes the item's hourly price to `rental.endRental`, which stores it as the rental's final cost, and reports it as the final price, however long the rental ran | a standard rental of a 200-per-hour item ended two hours after its start reports 200 | the final price is the metered cost of the elapsed time under the rental's policy, 400 for that rental | not executed | RentalServices.EndRentalAsWritten, RentalServices.AsWrittenChargesOneHour | RentalServices.EndChargesElapsedTime |
