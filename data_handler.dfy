/** The persistence layer at the level of records: JSON documents as
    values, the two polymorphism adapters (items tagged with `itemType`,
    price policies tagged with `policyType`), the field reading that Gson
    does by reflection for a Scooter or a Sled, the fail-soft loading of a
    stored list, and the saving of an item list with each element tagged
    by its variant. A file is an abstract state (missing, unreadable, not a
    JSON document, or a stored document); the way a write fails is a
    parameter. */
module DataHandlers {
  import opened Wrappers
  import opened Text
  import opened Items
  import opened PricePolicies

  // ---------------------------------------------------------------------
  // documents and files

  /** A JSON element. An object is a map from member name to element. */
  datatype Value =
    | Null
    | Bool(b: bool)
    | Num(n: real)
    | Str(s: string)
    | Arr(elems: seq<Value>)
    | Obj(fields: map<string, Value>)

  /** What a load finds on disk. A file that is empty or holds the JSON
      literal `null` is `Stored(Null)`. */
  datatype StoredFile = Missing | Unreadable | Malformed | Stored(doc: Value)

  /** Why a record does not decode. In the Java code every one of these is
      an exception that ends the load of the whole list. */
  datatype DecodeError =
    | NotAnObject
    | MissingItemType
    | TagNotText
    | UnknownItemType(tag: string)
    | MistypedField(key: string)

  const ITEM_TAG := "itemType"
  const POLICY_TAG := "policyType"
  const SCOOTER := "Scooter"
  const SLED := "Sled"
  const STANDARD := "Standard"
  const STUDENT := "Student"

  /** The text Java prints for a boolean. */
  function BoolText(b: bool): string
  {
    if b then "true" else "false"
  }

  /** The text of a number: the decimal digits of its integer part. */
  function NumberText(n: real): (r: string)
    ensures r != [] && (IsDigit(r[0]) || r[0] == '-')
  {
    IntToString(n.Floor)
  }

  /** `JsonElement.getAsString`: the text of a string, number or boolean,
      the text of the one element of a one-element array, and an exception
      (`None`) for null, an object or any other array. */
  function AsString(v: Value): (r: Option<string>)
    ensures v.Str? ==> r == Some(v.s)
    ensures v.Null? || v.Obj? ==> r.None?
    ensures r.Some? && r.value != [] && IsUpperAscii(r.value[0]) ==> v.Str? || (v.Arr? && |v.elems| == 1)
  {
    match v
    case Null => None
    case Bool(b) => Some(BoolText(b))
    case Num(n) => Some(NumberText(n))
    case Str(s) => Some(s)
    case Arr(elems) => if |elems| == 1 then AsString(elems[0]) else None
    case Obj(_) => None
  }

  predicate IsUpperAscii(c: char)
  {
    'A' <= c <= 'Z'
  }

  // ---------------------------------------------------------------------
  // numbers as Gson reads them into an `int` field

  /** Conversion of a real to an integer, rounding toward zero as Java's
      narrowing of a decimal does. */
  function TruncateToInt(x: real): (r: int)
    ensures x >= 0.0 ==> 0 <= r && r as real <= x < r as real + 1.0
    ensures x < 0.0 ==> r <= 0 && r as real - 1.0 < x <= r as real
  {
    if x >= 0.0 then x.Floor else -((-x).Floor)
  }

  /** The low 32 bits of an integer, read as a Java `int`. */
  function WrapInt32(x: int): (r: Int32)
    ensures INT32_MIN <= x <= INT32_MAX ==> r == x
    ensures (r - x) % 0x1_0000_0000 == 0
  {
    INT32_MIN + (x - INT32_MIN) % 0x1_0000_0000
  }

  // ---------------------------------------------------------------------
  // reflective field reading

  /** A `String` field: a missing member or a JSON null leaves the field at
      its default, a string, number or boolean gives its text, anything
      else is a type mismatch. */
  function ReadText(fields: map<string, Value>, key: string): Result<string, DecodeError>
  {
    if key !in fields then Ok("")
    else match fields[key]
      case Null => Ok("")
      case Str(s) => Ok(s)
      case Num(n) => Ok(NumberText(n))
      case Bool(b) => Ok(BoolText(b))
      case _ => Err(MistypedField(key))
  }

  /** A `boolean` field: default `false`; a string counts as true when it
      is `true` in any letter case; a number or a structure is a mismatch. */
  function ReadBool(fields: map<string, Value>, key: string): Result<bool, DecodeError>
  {
    if key !in fields then Ok(false)
    else match fields[key]
      case Null => Ok(false)
      case Bool(b) => Ok(b)
      case Str(s) => Ok(EqualsIgnoreCase(s, "true"))
      case _ => Err(MistypedField(key))
  }

  /** A `double` field: default `0.0`; a number is taken as it is. */
  function ReadReal(fields: map<string, Value>, key: string): Result<real, DecodeError>
  {
    if key !in fields then Ok(0.0)
    else match fields[key]
      case Null => Ok(0.0)
      case Num(n) => Ok(n)
      case _ => Err(MistypedField(key))
  }

  /** An `int` field: default `0`; a number is cut toward zero and then to
      its low 32 bits. */
  function ReadInt(fields: map<string, Value>, key: string): Result<Int32, DecodeError>
  {
    if key !in fields then Ok(0)
    else match fields[key]
      case Null => Ok(0)
      case Num(n) => Ok(WrapInt32(TruncateToInt(n)))
      case _ => Err(MistypedField(key))
  }

  // ---------------------------------------------------------------------
  // items

  /** The type name the save loop writes for a variant. */
  function TypeName(v: Variant): (r: string)
    ensures r == SCOOTER <==> v.ScooterInfo?
    ensures r == SLED <==> v.SledInfo?
  {
    if v.ScooterInfo? then SCOOTER else SLED
  }

  /** The members Gson writes for the fields of a Scooter or a Sled,
      named after the Java fields. */
  function ItemFields(d: ItemData): map<string, Value>
  {
    var base := map[
      "itemId" := Str(d.itemId),
      "name" := Str(d.name),
      "isAvailable" := Bool(d.isAvailable),
      "currentRentalPrice" := Num(d.currentRentalPrice),
      "rentalCount" := Num(d.rentalCount as real)];
    match d.variant
    case ScooterInfo(plate, cc, electric) =>
      base["engineDisplacement" := Num(cc as real)]["licensePlate" := Str(plate)]["hasElectricStart" := Bool(electric)]
    case SledInfo(sledType, kg) =>
      base["type" := Str(sledType)]["maxWeightKg" := Num(kg as real)]
  }

  /** One element of a saved item list: the item's fields and its tag. */
  function Tagged(d: ItemData): (r: Value)
    ensures r.Obj? && ITEM_TAG in r.fields && r.fields[ITEM_TAG] == Str(TypeName(d.variant))
  {
    Obj(ItemFields(d)[ITEM_TAG := Str(TypeName(d.variant))])
  }

  /** The fields Gson reads by reflection into a Scooter. */
  function ReadScooter(fields: map<string, Value>): Result<Variant, DecodeError>
  {
    var cc := ReadInt(fields, "engineDisplacement");
    var plate := ReadText(fields, "licensePlate");
    var electric := ReadBool(fields, "hasElectricStart");
    if cc.Err? then Err(cc.error)
    else if plate.Err? then Err(plate.error)
    else if electric.Err? then Err(electric.error)
    else Ok(ScooterInfo(plate.value, cc.value, electric.value))
  }

  /** The fields Gson reads by reflection into a Sled. */
  function ReadSled(fields: map<string, Value>): Result<Variant, DecodeError>
  {
    var sledType := ReadText(fields, "type");
    var kg := ReadInt(fields, "maxWeightKg");
    if sledType.Err? then Err(sledType.error)
    else if kg.Err? then Err(kg.error)
    else Ok(SledInfo(sledType.value, kg.value))
  }

  /** An item of the class the tag names, built without a constructor: the
      base fields and the class's own fields, members of the other class
      ignored. A member of the wrong type fails the whole record. */
  function ReadItem(fields: map<string, Value>, scooter: bool): (r: Result<ItemData, DecodeError>)
    ensures r.Ok? ==> r.value.variant.ScooterInfo? == scooter
  {
    var itemId := ReadText(fields, "itemId");
    var name := ReadText(fields, "name");
    var available := ReadBool(fields, "isAvailable");
    var price := ReadReal(fields, "currentRentalPrice");
    var count := ReadInt(fields, "rentalCount");
    var variant := if scooter then ReadScooter(fields) else ReadSled(fields);
    if itemId.Err? then Err(itemId.error)
    else if name.Err? then Err(name.error)
    else if available.Err? then Err(available.error)
    else if price.Err? then Err(price.error)
    else if count.Err? then Err(count.error)
    else if variant.Err? then Err(variant.error)
    else Ok(ItemData(itemId.value, name.value, available.value, price.value, count.value, variant.value))
  }

  /** `ItemTypeAdapter.deserialize`: an object with an `itemType` member
      whose text is `Scooter` or `Sled` decodes as that class; no object,
      no tag, a tag without text or any other type name is an error. */
  function DecodeItem(v: Value): (r: Result<ItemData, DecodeError>)
    ensures !v.Obj? ==> r == Err(NotAnObject)
    ensures v.Obj? && ITEM_TAG !in v.fields ==> r == Err(MissingItemType)
    ensures r.Ok? <==>
      && v.Obj? && ITEM_TAG in v.fields
      && AsString(v.fields[ITEM_TAG]) in {Some(SCOOTER), Some(SLED)}
      && ReadItem(v.fields, AsString(v.fields[ITEM_TAG]) == Some(SCOOTER)).Ok?
    ensures r.Ok? ==> AsString(v.fields[ITEM_TAG]) == Some(TypeName(r.value.variant))
  {
    if !v.Obj? then Err(NotAnObject)
    else if ITEM_TAG !in v.fields then Err(MissingItemType)
    else
      var tag := AsString(v.fields[ITEM_TAG]);
      if tag.None? then Err(TagNotText)
      else if tag.value == SCOOTER then ReadItem(v.fields, true)
      else if tag.value == SLED then ReadItem(v.fields, false)
      else Err(UnknownItemType(tag.value))
  }

  /** Any type name other than the two classes' is refused, whatever the
      rest of the record holds. */
  lemma UnknownTypeRefused(fields: map<string, Value>, tag: string)
    requires tag != SCOOTER && tag != SLED
    ensures DecodeItem(Obj(fields[ITEM_TAG := Str(tag)])) == Err(UnknownItemType(tag))
  {
  }

  /** A stored integer reads back as itself. */
  lemma ReadIntStored(fields: map<string, Value>, key: string, x: Int32)
    requires key in fields && fields[key] == Num(x as real)
    ensures ReadInt(fields, key) == Ok(x)
  {
    assert TruncateToInt(x as real) == x;
  }

  /** A record holding an item's fields reads back as that item. */
  lemma ReadItemStored(fields: map<string, Value>, d: ItemData)
    requires "itemId" in fields && fields["itemId"] == Str(d.itemId)
    requires "name" in fields && fields["name"] == Str(d.name)
    requires "isAvailable" in fields && fields["isAvailable"] == Bool(d.isAvailable)
    requires "currentRentalPrice" in fields && fields["currentRentalPrice"] == Num(d.currentRentalPrice)
    requires "rentalCount" in fields && fields["rentalCount"] == Num(d.rentalCount as real)
    requires d.variant.ScooterInfo? ==>
      && "engineDisplacement" in fields && fields["engineDisplacement"] == Num(d.variant.engineDisplacement as real)
      && "licensePlate" in fields && fields["licensePlate"] == Str(d.variant.licensePlate)
      && "hasElectricStart" in fields && fields["hasElectricStart"] == Bool(d.variant.hasElectricStart)
    requires d.variant.SledInfo? ==>
      && "type" in fields && fields["type"] == Str(d.variant.sledType)
      && "maxWeightKg" in fields && fields["maxWeightKg"] == Num(d.variant.maxWeightKg as real)
    ensures ReadItem(fields, d.variant.ScooterInfo?) == Ok(d)
  {
    ReadIntStored(fields, "rentalCount", d.rentalCount);
    match d.variant
    case ScooterInfo(plate, cc, electric) =>
      ReadIntStored(fields, "engineDisplacement", cc);
      assert ReadScooter(fields) == Ok(d.variant);
    case SledInfo(sledType, kg) =>
      ReadIntStored(fields, "maxWeightKg", kg);
      assert ReadSled(fields) == Ok(d.variant);
  }

  /** An item written by the save loop reads back as the same item, of the
      same class. */
  lemma TaggedRoundTrip(d: ItemData)
    ensures DecodeItem(Tagged(d)) == Ok(d)
  {
    var fields := Tagged(d).fields;
    assert AsString(fields[ITEM_TAG]) == Some(TypeName(d.variant));
    ReadItemStored(fields, d);
  }

  // ---------------------------------------------------------------------
  // price policies

  /** `PricePolicyTypeAdapter.serialize`: an object holding only the
      policy's tag, `Standard` for the standard policy and `Student` for
      any other. */
  function EncodePolicy(p: PricePolicy): (r: Value)
    ensures r.Obj? && r.fields.Keys == {POLICY_TAG}
    ensures r.fields[POLICY_TAG] == Str(STANDARD) <==> p == StandardPrice
    ensures r.fields[POLICY_TAG] == Str(STUDENT) <==> p != StandardPrice
  {
    Obj(map[POLICY_TAG := Str(if p == StandardPrice then STANDARD else STUDENT)])
  }

  /** `PricePolicyTypeAdapter.deserialize`: the element must be an object;
      without a tag, or with any tag text but `Student`, the policy is
      Standard; a tag without text is an error. */
  function DecodePolicy(v: Value): (r: Result<PricePolicy, DecodeError>)
    ensures r.Err? <==> !v.Obj? || (POLICY_TAG in v.fields && AsString(v.fields[POLICY_TAG]).None?)
    ensures r == Ok(StudentPrice) <==> v.Obj? && POLICY_TAG in v.fields && AsString(v.fields[POLICY_TAG]) == Some(STUDENT)
    ensures v.Obj? && POLICY_TAG !in v.fields ==> r == Ok(StandardPrice)
  {
    if !v.Obj? then Err(NotAnObject)
    else if POLICY_TAG !in v.fields then Ok(StandardPrice)
    else
      var tag := AsString(v.fields[POLICY_TAG]);
      if tag.None? then Err(TagNotText)
      else if tag.value == STUDENT then Ok(StudentPrice)
      else Ok(StandardPrice)
  }

  /** Every policy reads back as itself. */
  lemma PolicyRoundTrip(p: PricePolicy)
    ensures DecodePolicy(EncodePolicy(p)) == Ok(p)
  {
  }

  /** Decoding forgets everything but the policy: re-encoding a decoded
      policy and decoding again gives the same policy. */
  lemma PolicyDecodeStable(v: Value)
    requires DecodePolicy(v).Ok?
    ensures DecodePolicy(EncodePolicy(DecodePolicy(v).value)) == DecodePolicy(v)
  {
    PolicyRoundTrip(DecodePolicy(v).value);
  }

  // ---------------------------------------------------------------------
  // loading

  /** Gson's decoding of a JSON array, element by element: the first
      element that does not decode ends it with that element's error. */
  function DecodeAll<T>(elems: seq<Value>, decode: Value -> Result<T, DecodeError>): (r: Result<seq<T>, DecodeError>)
    ensures r.Ok? <==> forall i :: 0 <= i < |elems| ==> decode(elems[i]).Ok?
    ensures r.Ok? ==> |r.value| == |elems| && forall i :: 0 <= i < |elems| ==> r.value[i] == decode(elems[i]).value
  {
    if elems == [] then Ok([])
    else
      var head := decode(elems[0]);
      if head.Err? then Err(head.error)
      else
        var tail := DecodeAll(elems[1..], decode);
        if tail.Err? then Err(tail.error)
        else Ok([head.value] + tail.value)
  }

  /** `loadList`: a missing, unreadable or malformed file, a file holding
      null, a document that is not an array, or an array with one element
      that does not decode all give the empty list; otherwise the list holds
      one decoded record per element, in order. */
  function LoadList<T>(file: StoredFile, decode: Value -> Result<T, DecodeError>): (r: seq<T>)
    ensures r != [] ==> file.Stored? && file.doc.Arr? && DecodeAll(file.doc.elems, decode).Ok?
    ensures file.Stored? && file.doc.Arr? && (forall i :: 0 <= i < |file.doc.elems| ==> decode(file.doc.elems[i]).Ok?) ==>
      |r| == |file.doc.elems| && forall i :: 0 <= i < |r| ==> r[i] == decode(file.doc.elems[i]).value
    ensures file.Stored? && file.doc.Arr? && (exists i :: 0 <= i < |file.doc.elems| && decode(file.doc.elems[i]).Err?) ==> r == []
  {
    match file
    case Missing => []
    case Unreadable => []
    case Malformed => []
    case Stored(doc) =>
      if !doc.Arr? then []
      else
        var all := DecodeAll(doc.elems, decode);
        if all.Err? then [] else all.value
  }

  /** `loadItems`. */
  function LoadItems(file: StoredFile): seq<ItemData>
  {
    LoadList(file, DecodeItem)
  }

  // ---------------------------------------------------------------------
  // saving

  /** Where a write goes wrong, if it does: opening the file, Gson writing
      the document (its `IOException` reaches the caller wrapped in an
      unchecked `JsonIOException`), or closing the file. */
  datatype SaveFault = NoFault | OpenFault | WriteFault | CloseFault

  /** How `saveObject` ends: it returns a flag, or the wrapped write error
      escapes it. */
  datatype SaveResult = Returned(ok: bool) | WriteThrew

  /** Writing a document with the given fault: the result and the file
      afterwards. An open failure leaves the file as it was; a write or
      close failure leaves it cut short. */
  function Write(file: StoredFile, doc: Value, fault: SaveFault): (r: (SaveResult, StoredFile))
    ensures r.0 == Returned(true) <==> fault == NoFault
    ensures r.0 == WriteThrew <==> fault == WriteFault
    ensures fault == NoFault ==> r.1 == Stored(doc)
    ensures fault == OpenFault ==> r.1 == file
    ensures fault == WriteFault || fault == CloseFault ==> r.1 == Malformed
  {
    match fault
    case NoFault => (Returned(true), Stored(doc))
    case OpenFault => (Returned(false), file)
    case WriteFault => (WriteThrew, Malformed)
    case CloseFault => (Returned(false), Malformed)
  }

  /** `saveItems`: every item is written with its fields and the tag of its
      class, so that a successful save loads back as the same list, each
      item of the same class. (An empty list takes the untagged path and
      is written as the same empty array.) */
  method SaveItems(items: seq<ItemData>, file: StoredFile, fault: SaveFault)
    returns (result: SaveResult, after: StoredFile)
    ensures result == Returned(true) <==> fault == NoFault
    ensures result == WriteThrew <==> fault == WriteFault
    ensures fault == OpenFault ==> after == file
    ensures fault == NoFault ==> after.Stored? && after.doc.Arr? && |after.doc.elems| == |items|
    ensures fault == NoFault ==> forall i :: 0 <= i < |items| ==>
      after.doc.elems[i].Obj? && ITEM_TAG in after.doc.elems[i].fields && AsString(after.doc.elems[i].fields[ITEM_TAG]) == Some(TypeName(items[i].variant))
    ensures fault == NoFault ==> LoadItems(after) == items
  {
    var jsonItems: seq<Value> := [];
    var k := 0;
    while k < |items|
      invariant 0 <= k <= |items| && |jsonItems| == k
      invariant forall j :: 0 <= j < k ==> jsonItems[j] == Tagged(items[j])
    {
      var fields := ItemFields(items[k]);
      if items[k].variant.ScooterInfo? {
        fields := fields[ITEM_TAG := Str(SCOOTER)];
      } else {
        fields := fields[ITEM_TAG := Str(SLED)];
      }
      jsonItems := jsonItems + [Obj(fields)];
      k := k + 1;
    }
    forall j | 0 <= j < |items|
      ensures DecodeItem(jsonItems[j]) == Ok(items[j])
    {
      TaggedRoundTrip(items[j]);
    }
    var written := Write(file, Arr(jsonItems), fault);
    result, after := written.0, written.1;
    if fault == NoFault {
      var loaded := LoadItems(after);
      assert |loaded| == |items|;
      assert forall i :: 0 <= i < |items| ==> loaded[i] == items[i];
    }
  }
}
