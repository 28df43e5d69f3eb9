/** Rentable equipment: a base item (ID, name, availability, hourly price,
    rental counter) that is either a snowmobile (`Scooter`) or a sled
    (`Sled`). The Java subclasses become one variant field; the setters the
    subclasses add require the matching variant, as the Java types do. */
module Items {
  import opened Wrappers
  import opened Text

  const INT32_MIN: int := -0x8000_0000
  const INT32_MAX: int := 0x7fff_ffff

  /** A Java `int`. */
  type Int32 = x: int | INT32_MIN <= x <= INT32_MAX

  /** `x++` on a Java `int`: the largest value wraps to the smallest. */
  function Int32Inc(x: Int32): (r: Int32)
    ensures x < INT32_MAX ==> r == x + 1
    ensures x == INT32_MAX ==> r == INT32_MIN
  {
    if x == INT32_MAX then INT32_MIN else x + 1
  }

  /** What a Scooter or a Sled adds to the base item. */
  datatype Variant =
    | ScooterInfo(licensePlate: string, engineDisplacement: Int32, hasElectricStart: bool)
    | SledInfo(sledType: string, maxWeightKg: Int32)

  /** The fields of an item, as one value. */
  datatype ItemData = ItemData(
    itemId: string,
    name: string,
    isAvailable: bool,
    currentRentalPrice: real,
    rentalCount: Int32,
    variant: Variant)

  datatype ItemError = EngineDisplacementNotPositive | MaxWeightNotPositive

  /** The positivity rule of each variant: a snowmobile's engine
      displacement and a sled's maximum load are above zero. */
  function VariantError(v: Variant): (r: Option<ItemError>)
    ensures r.None? <==> (if v.ScooterInfo? then v.engineDisplacement > 0 else v.maxWeightKg > 0)
    ensures r.Some? ==> r.value == (if v.ScooterInfo? then EngineDisplacementNotPositive else MaxWeightNotPositive)
  {
    match v
    case ScooterInfo(_, cc, _) => if cc <= 0 then Some(EngineDisplacementNotPositive) else None
    case SledInfo(_, kg) => if kg <= 0 then Some(MaxWeightNotPositive) else None
  }

  /** `getUniqueInfo`: `Skylt: <plate>, Motor: <cc> cc, Start: Elstart` (or
      `Kickstart`) for a snowmobile, `Typ: <type>, Maxvikt: <kg> kg` for a
      sled, with the numbers in decimal. */
  function UniqueInfo(v: Variant): (r: string)
    ensures v.ScooterInfo? ==>
      var head := "Skylt: " + v.licensePlate + ", Motor: " + IntToString(v.engineDisplacement) + " cc, Start: ";
      StartsWith(r, head) && r[|head|..] == (if v.hasElectricStart then "Elstart" else "Kickstart")
    ensures v.SledInfo? ==>
      var head := "Typ: " + v.sledType + ", Maxvikt: ";
      StartsWith(r, head) && |r| >= |head| + 3 && r[|r| - 3..] == " kg"
      && r[|head|..|r| - 3] == IntToString(v.maxWeightKg) && Contains(r, IntToString(v.maxWeightKg))
  {
    match v
    case ScooterInfo(plate, cc, electric) =>
      var head := "Skylt: " + plate + ", Motor: " + IntToString(cc) + " cc, Start: ";
      var start := if electric then "Elstart" else "Kickstart";
      assert (head + start)[..|head|] == head;
      assert (head + start)[|head|..] == start;
      head + start
    case SledInfo(sledType, kg) =>
      var head := "Typ: " + sledType + ", Maxvikt: ";
      var r := head + IntToString(kg) + " kg";
      assert r[..|head|] == head;
      assert r[|head|..|r| - 3] == IntToString(kg);
      assert OccursAt(r, IntToString(kg), |head|);
      ContainsIffOccurs(r, IntToString(kg));
      r
  }

  /** The electric-start flag can be read back from the information line:
      it ends in `Elstart` exactly when the flag is set. */
  lemma UniqueInfoShowsStart(plate: string, cc: Int32, electric: bool)
    ensures var r := UniqueInfo(ScooterInfo(plate, cc, electric));
      |r| >= 7 && (r[|r| - 7..] == "Elstart" <==> electric)
  {
    var head := "Skylt: " + plate + ", Motor: " + IntToString(cc) + " cc, Start: ";
    var r := UniqueInfo(ScooterInfo(plate, cc, electric));
    var start := if electric then "Elstart" else "Kickstart";
    assert r == head + start by {
      assert r[..|head|] == head && r[|head|..] == start;
      assert r == r[..|head|] + r[|head|..];
    }
    assert r[|r| - 7..] == start[|start| - 7..];
    assert !electric ==> start[|start| - 7..][0] == 'c';
  }

  class Item {
    const itemId: string
    var name: string
    var isAvailable: bool
    var currentRentalPrice: real
    var rentalCount: Int32
    var variant: Variant

    function Data(): ItemData
      reads this
    {
      ItemData(itemId, name, isAvailable, currentRentalPrice, rentalCount, variant)
    }

    /** The base constructor with the subclass's fields once the
        subclass's check has passed: the item starts available and never
        rented. */
    constructor (itemId: string, name: string, currentRentalPrice: real, variant: Variant)
      requires VariantError(variant).None?
      ensures Data() == ItemData(itemId, name, true, currentRentalPrice, 0, variant)
    {
      this.itemId := itemId;
      this.name := name;
      this.isAvailable := true;
      this.currentRentalPrice := currentRentalPrice;
      this.rentalCount := 0;
      this.variant := variant;
    }

    /** An item rebuilt from a stored record, without the setters' checks. */
    constructor FromData(d: ItemData)
      ensures Data() == d
    {
      itemId, name, isAvailable := d.itemId, d.name, d.isAvailable;
      currentRentalPrice, rentalCount, variant := d.currentRentalPrice, d.rentalCount, d.variant;
    }

    /** `new Scooter(...)`: throws when the displacement is not positive. */
    static method NewScooter(itemId: string, name: string, currentRentalPrice: real,
                             licensePlate: string, engineDisplacement: Int32, hasElectricStart: bool)
      returns (r: Result<Item, ItemError>)
      ensures r.Err? <==> engineDisplacement <= 0
      ensures r.Err? ==> r.error == EngineDisplacementNotPositive
      ensures r.Ok? ==> fresh(r.value)
      ensures r.Ok? ==> r.value.Data() == ItemData(itemId, name, true, currentRentalPrice, 0,
                                                   ScooterInfo(licensePlate, engineDisplacement, hasElectricStart))
    {
      if engineDisplacement <= 0 {
        return Err(EngineDisplacementNotPositive);
      }
      var item := new Item(itemId, name, currentRentalPrice,
                           ScooterInfo(licensePlate, engineDisplacement, hasElectricStart));
      return Ok(item);
    }

    /** `new Sled(...)`: throws when the maximum load is not positive. */
    static method NewSled(itemId: string, name: string, currentRentalPrice: real,
                          sledType: string, maxWeightKg: Int32)
      returns (r: Result<Item, ItemError>)
      ensures r.Err? <==> maxWeightKg <= 0
      ensures r.Err? ==> r.error == MaxWeightNotPositive
      ensures r.Ok? ==> fresh(r.value)
      ensures r.Ok? ==> r.value.Data() == ItemData(itemId, name, true, currentRentalPrice, 0, SledInfo(sledType, maxWeightKg))
    {
      if maxWeightKg <= 0 {
        return Err(MaxWeightNotPositive);
      }
      var item := new Item(itemId, name, currentRentalPrice, SledInfo(sledType, maxWeightKg));
      return Ok(item);
    }

    method SetName(name: string)
      modifies this
      ensures Data() == old(Data()).(name := name)
    {
      this.name := name;
    }

    method SetAvailable(available: bool)
      modifies this
      ensures Data() == old(Data()).(isAvailable := available)
    {
      isAvailable := available;
    }

    /** The older name of `SetAvailable`, with the same effect. */
    method SetIsAvailable(available: bool)
      modifies this
      ensures Data() == old(Data()).(isAvailable := available)
    {
      isAvailable := available;
    }

    /** Any price is accepted, negative included. */
    method SetCurrentRentalPrice(price: real)
      modifies this
      ensures Data() == old(Data()).(currentRentalPrice := price)
    {
      currentRentalPrice := price;
    }

    /** `rentalCount++`, wrapping as a Java `int` does. */
    method IncrementRentalCount()
      modifies this
      ensures Data() == old(Data()).(rentalCount := Int32Inc(old(rentalCount)))
    {
      rentalCount := Int32Inc(rentalCount);
    }

    method SetEngineDisplacement(cc: Int32) returns (o: Outcome<ItemError>)
      requires variant.ScooterInfo?
      modifies this
      ensures cc <= 0 ==> o == Fail(EngineDisplacementNotPositive) && Data() == old(Data())
      ensures cc > 0 ==> o == Pass && Data() == old(Data()).(variant := old(variant).(engineDisplacement := cc))
    {
      if cc <= 0 {
        return Fail(EngineDisplacementNotPositive);
      }
      variant := variant.(engineDisplacement := cc);
      return Pass;
    }

    method SetLicensePlate(plate: string)
      requires variant.ScooterInfo?
      modifies this
      ensures Data() == old(Data()).(variant := old(variant).(licensePlate := plate))
    {
      variant := variant.(licensePlate := plate);
    }

    method SetHasElectricStart(electric: bool)
      requires variant.ScooterInfo?
      modifies this
      ensures Data() == old(Data()).(variant := old(variant).(hasElectricStart := electric))
    {
      variant := variant.(hasElectricStart := electric);
    }

    method SetType(sledType: string)
      requires variant.SledInfo?
      modifies this
      ensures Data() == old(Data()).(variant := old(variant).(sledType := sledType))
    {
      variant := variant.(sledType := sledType);
    }

    method SetMaxWeightKg(kg: Int32) returns (o: Outcome<ItemError>)
      requires variant.SledInfo?
      modifies this
      ensures kg <= 0 ==> o == Fail(MaxWeightNotPositive) && Data() == old(Data())
      ensures kg > 0 ==> o == Pass && Data() == old(Data()).(variant := old(variant).(maxWeightKg := kg))
    {
      if kg <= 0 {
        return Fail(MaxWeightNotPositive);
      }
      variant := variant.(maxWeightKg := kg);
      return Pass;
    }
  }
}
