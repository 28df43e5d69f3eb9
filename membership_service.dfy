/** The membership service over the member register: registering a member
    under the next generated ID, with the full name split into first and
    last name and an e-mail address made up from them; changing a member's
    name, phone and status; listing and searching the members. What a call
    does to the member records is stated as a function on the records
    (`Registration`, `ChangeDetails`, `SearchIndices`), and the methods of
    `MembershipService` are proved to do exactly that to the objects. */
module MembershipServices {
  import opened Wrappers
  import opened Text
  import opened Seqs
  import opened Ids
  import opened Members
  import opened MemberRegistries

  /** The domain every made-up e-mail address ends with. */
  const EMAIL_DOMAIN: string := "@scooterrental.se"

  /** The last name a new member gets when the full name has no space. */
  const UNKNOWN_LAST_NAME: string := "Okänd"

  datatype NameParts = NameParts(first: string, last: string)

  // ---------------------------------------------------------------------
  // splitting the full name

  /** The full name split at its first space; a name without a space is
      all first name, with `fallback` as the last name. */
  function SplitFullName(fullName: string, fallback: string): NameParts
  {
    var space := IndexOf(fullName, ' ');
    if space.None? then NameParts(fullName, fallback)
    else NameParts(fullName[..space.value], fullName[space.value + 1..])
  }

  /** A name without a space is all first name; otherwise the first name
      has no space, and joining the two parts with a space gives the full
      name back. */
  lemma SplitFullNameParts(fullName: string, fallback: string)
    ensures var r := SplitFullName(fullName, fallback);
      && (' ' !in fullName ==> r == NameParts(fullName, fallback))
      && (' ' in fullName ==> ' ' !in r.first && FullName(r.first, r.last) == fullName)
  {
    var space := IndexOf(fullName, ' ');
    if space.Some? {
      var i := space.value;
      assert fullName == fullName[..i] + " " + fullName[i + 1..];
    }
  }

  /** Joining a first name without a space to any last name, and splitting
      again, gives the two names back. */
  lemma {:induction false} SplitJoined(first: string, last: string, fallback: string)
    requires ' ' !in first
    ensures SplitFullName(FullName(first, last), fallback) == NameParts(first, last)
  {
    var full := FullName(first, last);
    assert full[|first|] == ' ';
    var r := SplitFullName(full, fallback);
    var i := IndexOf(full, ' ').value;
    assert full[..|first|] == first;
  }

  // ---------------------------------------------------------------------
  // the made-up e-mail address

  /** Lower-casing turns no other character into a space. */
  lemma ToLowerKeepsSpaces(s: string)
    ensures ' ' in ToLower(s) <==> ' ' in s
  {
    if ' ' in s {
      var k :| 0 <= k < |s| && s[k] == ' ';
      assert ToLower(s)[k] == ' ';
    }
    if ' ' in ToLower(s) {
      var k :| 0 <= k < |s| && ToLower(s)[k] == ' ';
      assert s[k] == ' ';
    }
  }

  /** `first.toLowerCase() + "." + last.toLowerCase().replaceAll(" ", "")
      + "@scooterrental.se"`. */
  function RegistrationEmail(first: string, last: string): string
  {
    ToLower(first) + "." + RemoveChar(ToLower(last), ' ') + EMAIL_DOMAIN
  }

  /** The made-up address is the lower-cased first name, a dot, then a part
      without spaces that ends with the domain; so an address made from a
      first name without a space has no space at all. */
  lemma RegistrationEmailShape(first: string, last: string)
    ensures var r := RegistrationEmail(first, last);
      && |r| > |first| + |EMAIL_DOMAIN| && r[..|first|] == ToLower(first) && r[|first|] == '.'
      && r[|r| - |EMAIL_DOMAIN|..] == EMAIL_DOMAIN
      && ' ' !in r[|first| + 1..]
      && (' ' !in first ==> ' ' !in r)
  {
    var r := RegistrationEmail(first, last);
    var local := RemoveChar(ToLower(last), ' ');
    assert r[|first| + 1..] == local + EMAIL_DOMAIN;
    assert r[..|first|] == ToLower(first);
    ToLowerKeepsSpaces(first);
    assert r == r[..|first|] + r[|first|..|first| + 1] + r[|first| + 1..];
  }

  // ---------------------------------------------------------------------
  // registration

  /** How `registerNewMember` ends: the new member's record; the error the
      member's constructor threw (caught, so the caller sees no member); or
      the ID already taken, so that `addMember` refused. */
  datatype RegistrationOutcome = Registered(member: MemberData) | Rejected(error: MemberError) | IdTaken

  /** What `new Member(id, first, last, phone, email, status)` gives for
      the names split from the full name and the made-up e-mail address:
      the new member's record, or the error of the check that throws. */
  function NewRecord(id: string, fullName: string, phone: string, status: MemberStatus)
    : (r: Result<MemberData, MemberError>)
    ensures var parts := SplitFullName(fullName, UNKNOWN_LAST_NAME);
      r.Err? <==> NewMemberError(id, parts.first, parts.last, phone).Some?
    ensures r.Ok? ==>
      && r.value.memberId == id && r.value.status == status && r.value.rentalHistory == []
      && r.value.email == RegistrationEmail(SplitFullName(fullName, UNKNOWN_LAST_NAME).first,
                                            SplitFullName(fullName, UNKNOWN_LAST_NAME).last)
  {
    var parts := SplitFullName(fullName, UNKNOWN_LAST_NAME);
    var err := NewMemberError(id, parts.first, parts.last, phone);
    if err.Some? then Err(err.value)
    else
      Ok(MemberData(id, Trim(parts.first), Trim(parts.last), Trim(phone),
                    RegistrationEmail(parts.first, parts.last), status, []))
  }

  /** A record the constructor gives is valid. */
  lemma NewRecordIsValid(id: string, fullName: string, phone: string, status: MemberStatus)
    requires NewRecord(id, fullName, phone, status).Ok?
    ensures ValidData(NewRecord(id, fullName, phone, status).value)
  {
    var parts := SplitFullName(fullName, UNKNOWN_LAST_NAME);
    CheckNameStable(parts.first, FirstNameRequired);
    CheckNameStable(parts.last, LastNameRequired);
    CheckPhoneStable(phone);
  }

  /** What `addMember` makes of the constructor's outcome `record` under
      the ID `id`: the error the constructor threw, the ID already taken
      by a member (compared exactly), or the new member's record. */
  function RegistrationOf(snapshot: seq<MemberData>, id: string, record: Result<MemberData, MemberError>)
    : (r: RegistrationOutcome)
    ensures r.Rejected? <==> record.Err?
    ensures r.IdTaken? <==> record.Ok? && HasExactId(snapshot, id)
    ensures r.Registered? ==> record == Ok(r.member)
  {
    if record.Err? then Rejected(record.error)
    else if HasExactId(snapshot, id) then IdTaken
    else Registered(record.value)
  }

  /** `registerNewMember(fullName, phone, status)` on the member records,
      with `id` the ID generated for it: the constructor's checks first,
      then `addMember`'s check that no member has exactly this ID. */
  function Registration(snapshot: seq<MemberData>, id: string, fullName: string, phone: string,
                        status: MemberStatus): (r: RegistrationOutcome)
    ensures r.Rejected? <==> NewRecord(id, fullName, phone, status).Err?
    ensures r.IdTaken? ==> HasExactId(snapshot, id)
    ensures r.Registered? ==> !HasExactId(snapshot, id) && r.member == NewRecord(id, fullName, phone, status).value
  {
    RegistrationOf(snapshot, id, NewRecord(id, fullName, phone, status))
  }

  /** The generated ID is never taken while the counter lies above every
      all-digit ID in the register, and registering under it keeps the
      counter, moved on by one, above every ID. */
  lemma RegistrationUsesFreshId(snapshot: seq<MemberData>, next: nat, fullName: string, phone: string,
                                status: MemberStatus)
    requires CounterAbove(MemberIds(snapshot), next)
    ensures var r := Registration(snapshot, NatToString(next), fullName, phone, status);
      && !r.IdTaken?
      && (r.Registered? ==> CounterAbove(MemberIds(snapshot + [r.member]), next + 1))
  {
    var id := NatToString(next);
    var r := Registration(snapshot, id, fullName, phone, status);
    CounterIdIsFresh(MemberIds(snapshot), next);
    if r.Registered? {
      CounterAboveStep(MemberIds(snapshot), next);
      MemberIdsAppend(snapshot, r.member);
    }
  }

  /** Listing one more member lists one more ID. */
  lemma MemberIdsAppend(snapshot: seq<MemberData>, d: MemberData)
    ensures MemberIds(snapshot + [d]) == MemberIds(snapshot) + [d.memberId]
  {
  }

  /** A full name of two names around one space registers under exactly
      those names, trimmed, when the phone number and the ID pass. */
  lemma RegistrationKeepsNames(snapshot: seq<MemberData>, id: string, first: string, last: string,
                               phone: string, status: MemberStatus)
    requires ' ' !in first && !IsBlank(first) && !IsBlank(last)
    requires !IsBlank(id) && CheckPhone(phone).Ok? && !HasExactId(snapshot, id)
    ensures var r := Registration(snapshot, id, FullName(first, last), phone, status);
      r.Registered? && r.member.firstName == Trim(first) && r.member.lastName == Trim(last)
      && r.member.phone == Trim(phone)
  {
    SplitJoined(first, last, UNKNOWN_LAST_NAME);
  }

  /** A full name without a space is all first name, and the last name is
      the placeholder. */
  lemma RegistrationWithoutSpace(snapshot: seq<MemberData>, id: string, fullName: string, phone: string,
                                 status: MemberStatus)
    requires ' ' !in fullName
    ensures var r := Registration(snapshot, id, fullName, phone, status);
      r.Registered? ==> r.member.firstName == Trim(fullName) && r.member.lastName == UNKNOWN_LAST_NAME
  {
    var r := Registration(snapshot, id, fullName, phone, status);
    if r.Registered? {
      assert IsTrimmed(UNKNOWN_LAST_NAME) by {
        assert !IsTrimmable(UNKNOWN_LAST_NAME[0]) && !IsTrimmable(UNKNOWN_LAST_NAME[|UNKNOWN_LAST_NAME| - 1]);
      }
    }
  }

  // ---------------------------------------------------------------------
  // changing a member's details

  /** How `updateMemberDetails` ended: the details changed and were saved,
      no member has the ID, or a setter threw (the exception leaves the
      method, after the setters before it have taken effect). */
  datatype DetailsOutcome = Changed | UnknownMember | DetailsThrew(error: MemberError)

  /** The setters `updateMemberDetails` runs on a member, in order (first
      name, last name, phone, status): the record they leave and the error
      of the setter that threw, if one did. A full name without a space
      keeps the member's last name. */
  function ApplyDetails(d: MemberData, fullName: string, phone: string, status: MemberStatus)
    : (r: (MemberData, Option<MemberError>))
    ensures r.0.memberId == d.memberId && r.0.email == d.email && r.0.rentalHistory == d.rentalHistory
    ensures var parts := SplitFullName(fullName, d.lastName);
      r.1.None? <==> CheckName(parts.first, FirstNameRequired).Ok? && CheckName(parts.last, LastNameRequired).Ok?
                     && CheckPhone(phone).Ok?
    ensures r.1.None? ==> r.0.status == status && r.0.phone == Trim(phone)
  {
    var parts := SplitFullName(fullName, d.lastName);
    var first := CheckName(parts.first, FirstNameRequired);
    if first.Err? then (d, Some(first.error))
    else
      var d1 := d.(firstName := first.value);
      var last := CheckName(parts.last, LastNameRequired);
      if last.Err? then (d1, Some(last.error))
      else
        var d2 := d1.(lastName := last.value);
        var checked := CheckPhone(phone);
        if checked.Err? then (d2, Some(checked.error))
        else (d2.(phone := checked.value, status := status), None)
  }

  /** Changing the details, even when a setter throws half-way, keeps a
      valid member valid. */
  lemma DetailsKeepValid(d: MemberData, fullName: string, phone: string, status: MemberStatus)
    requires ValidData(d)
    ensures ValidData(ApplyDetails(d, fullName, phone, status).0)
  {
    var parts := SplitFullName(fullName, d.lastName);
    var first := CheckName(parts.first, FirstNameRequired);
    if first.Ok? {
      SetNameKeepsValid(d, parts.first, parts.last);
      var d1 := d.(firstName := first.value);
      SetNameKeepsValid(d1, parts.first, parts.last);
      var last := CheckName(parts.last, LastNameRequired);
      if last.Ok? {
        var d2 := d1.(lastName := last.value);
        if CheckPhone(phone).Ok? {
          SetPhoneKeepsValid(d2, phone);
          UncheckedUpdatesKeepValid(d2.(phone := CheckPhone(phone).value), "", status, "");
        }
      }
    }
  }

  /** Changing a valid member's details a second time with the same values
      changes nothing more. */
  lemma {:induction false} DetailsIdempotent(d: MemberData, fullName: string, phone: string, status: MemberStatus)
    requires ValidData(d)
    requires ApplyDetails(d, fullName, phone, status).1.None?
    ensures var once := ApplyDetails(d, fullName, phone, status).0;
      ApplyDetails(once, fullName, phone, status) == (once, None)
  {
    var once := ApplyDetails(d, fullName, phone, status).0;
    var parts := SplitFullName(fullName, d.lastName);
    CheckNameStable(parts.first, FirstNameRequired);
    CheckNameStable(parts.last, LastNameRequired);
    if ' ' !in fullName {
      assert SplitFullName(fullName, once.lastName) == NameParts(fullName, once.lastName);
      assert once.lastName == Trim(d.lastName);
      assert CheckName(d.lastName, LastNameRequired) == Ok(d.lastName);
    }
  }

  /** A valid member whose new full name has no space keeps the last name. */
  lemma DetailsWithoutSpaceKeepLastName(d: MemberData, fullName: string, phone: string, status: MemberStatus)
    requires ValidData(d) && ' ' !in fullName
    ensures ApplyDetails(d, fullName, phone, status).0.lastName == d.lastName
  {
  }

  /** `updateMemberDetails(id, fullName, phone, status)` on the member
      records: the first member whose ID equals `id` ignoring case gets the
      setters. */
  function ChangeDetails(snapshot: seq<MemberData>, id: string, fullName: string, phone: string,
                         status: MemberStatus): (r: (seq<MemberData>, DetailsOutcome))
    ensures |r.0| == |snapshot|
    ensures r.1 == UnknownMember <==> FindIndexById(snapshot, id).None?
    ensures r.1 == UnknownMember ==> r.0 == snapshot
  {
    var found := FindIndexById(snapshot, id);
    if found.None? then (snapshot, UnknownMember)
    else
      var applied := ApplyDetails(snapshot[found.value], fullName, phone, status);
      (snapshot[found.value := applied.0], if applied.1.None? then Changed else DetailsThrew(applied.1.value))
  }

  /** A change of details touches only the member found, and keeps every
      ID and rental history. */
  lemma ChangeDetailsFrame(snapshot: seq<MemberData>, id: string, fullName: string, phone: string,
                           status: MemberStatus)
    ensures var r := ChangeDetails(snapshot, id, fullName, phone, status);
      && MemberIds(r.0) == MemberIds(snapshot)
      && (forall k :: 0 <= k < |snapshot| ==> r.0[k].rentalHistory == snapshot[k].rentalHistory)
      && (r.1 != UnknownMember ==>
            forall k :: 0 <= k < |snapshot| && k != FindIndexById(snapshot, id).value ==> r.0[k] == snapshot[k])
  {
    var r := ChangeDetails(snapshot, id, fullName, phone, status);
    var found := FindIndexById(snapshot, id);
    if found.Some? {
      var i := found.value;
      var applied := ApplyDetails(snapshot[i], fullName, phone, status);
      assert r.0 == snapshot[i := applied.0];
      ReplaceKeepsIds(snapshot, i, applied.0);
    }
  }

  /** Replacing a record by one with the same ID and history keeps the
      IDs and the histories. */
  lemma ReplaceKeepsIds(snapshot: seq<MemberData>, i: nat, d: MemberData)
    requires i < |snapshot| && d.memberId == snapshot[i].memberId && d.rentalHistory == snapshot[i].rentalHistory
    ensures MemberIds(snapshot[i := d]) == MemberIds(snapshot)
    ensures forall k :: 0 <= k < |snapshot| ==> snapshot[i := d][k].rentalHistory == snapshot[k].rentalHistory
  {
    assert MemberIds(snapshot[i := d]) == MemberIds(snapshot);
  }

  /** A change of details, even one a setter stops half-way, keeps a
      register of valid members valid. */
  lemma ChangeDetailsKeepsValid(snapshot: seq<MemberData>, id: string, fullName: string, phone: string,
                                status: MemberStatus)
    requires forall k :: 0 <= k < |snapshot| ==> ValidData(snapshot[k])
    ensures var r := ChangeDetails(snapshot, id, fullName, phone, status);
      forall k :: 0 <= k < |r.0| ==> ValidData(r.0[k])
  {
    var r := ChangeDetails(snapshot, id, fullName, phone, status);
    var found := FindIndexById(snapshot, id);
    if found.Some? {
      var i := found.value;
      var applied := ApplyDetails(snapshot[i], fullName, phone, status);
      assert r.0 == snapshot[i := applied.0];
      DetailsKeepValid(snapshot[i], fullName, phone, status);
      forall k | 0 <= k < |r.0|
        ensures ValidData(r.0[k])
      {
        if k != i {
          assert r.0[k] == snapshot[k];
        }
      }
    }
  }

  /** The setter calls of `updateMemberDetails` on `member`, in order,
      stopping at the first that throws. */
  method RunDetailsSetters(member: Member, fullName: string, phone: string, status: MemberStatus)
    returns (err: Option<MemberError>)
    modifies member
    ensures (member.Data(), err) == ApplyDetails(old(member.Data()), fullName, phone, status)
  {
    var parts := SplitFullName(fullName, member.lastName);
    var o := member.SetFirstName(parts.first);
    if o.Fail? {
      return Some(o.error);
    }
    o := member.SetLastName(parts.last);
    if o.Fail? {
      return Some(o.error);
    }
    o := member.SetPhone(phone);
    if o.Fail? {
      return Some(o.error);
    }
    member.SetStatus(status);
    return None;
  }

  /** The setters of `updateMemberDetails` on the `i`-th member of the
      register: only that record changes. */
  method DetailsAt(registry: MemberRegistry, i: nat, fullName: string, phone: string, status: MemberStatus)
    returns (err: Option<MemberError>)
    requires registry.Valid() && i < |registry.members|
    modifies registry.members[i]
    ensures registry.members == old(registry.members) && registry.saved == old(registry.saved)
    ensures var applied := ApplyDetails(old(registry.Snapshot())[i], fullName, phone, status);
      registry.Snapshot() == old(registry.Snapshot())[i := applied.0] && err == applied.1
  {
    ghost var before := registry.Snapshot();
    err := RunDetailsSetters(registry.members[i], fullName, phone, status);
    registry.SnapshotAfterChange(before, i);
  }

  /** Where the ID is found at `i`, the change is the setters' outcome on
      the `i`-th record. */
  lemma ChangeDetailsAt(snapshot: seq<MemberData>, id: string, fullName: string, phone: string,
                        status: MemberStatus, i: nat, applied: (MemberData, Option<MemberError>))
    requires FindIndexById(snapshot, id) == Some(i)
    requires applied == ApplyDetails(snapshot[i], fullName, phone, status)
    ensures ChangeDetails(snapshot, id, fullName, phone, status)
      == (snapshot[i := applied.0], if applied.1.None? then Changed else DetailsThrew(applied.1.value))
  {
  }

  // ---------------------------------------------------------------------
  // search

  /** `searchMembers(query)`: the member whose ID equals the query ignoring
      case, alone, when there is one; otherwise the members whose first or
      last name contains it, ignoring case, in register order. */
  function SearchIndices(snapshot: seq<MemberData>, query: string): (r: seq<nat>)
    ensures forall k :: 0 <= k < |r| ==> r[k] < |snapshot|
    ensures FindIndexById(snapshot, query).Some? ==>
      |r| == 1 && EqualsIgnoreCase(snapshot[r[0]].memberId, query)
      && forall k :: 0 <= k < r[0] ==> !EqualsIgnoreCase(snapshot[k].memberId, query)
    ensures FindIndexById(snapshot, query).None? ==>
      && (forall k :: 0 <= k < |r| ==> NameMatches(snapshot[r[k]], query))
      && (forall i :: 0 <= i < |snapshot| && NameMatches(snapshot[i], query) ==> i in r)
      && (forall a, b :: 0 <= a < b < |r| ==> r[a] < r[b])
  {
    var byId := FindIndexById(snapshot, query);
    if byId.Some? then [byId.value] else SearchByName(snapshot, query)
  }

  /** When no ID matches, an empty query lists every member. */
  lemma EmptySearchListsAll(snapshot: seq<MemberData>)
    requires FindIndexById(snapshot, "").None?
    ensures SearchIndices(snapshot, "") == Range(|snapshot|)
  {
    EmptyQueryFindsAll(snapshot);
  }

  /** Listing one more member lists its record last. */
  lemma DataOfAppend(ms: seq<Member>, m: Member)
    ensures DataOf(ms + [m]) == DataOf(ms) + [m.Data()]
  {
    assert (ms + [m])[..|ms|] == ms;
  }

  /** `new Member(...)` with the values `registerNewMember` passes. */
  method CreateFor(id: string, fullName: string, phone: string, status: MemberStatus, ghost registry: MemberRegistry)
    returns (created: Result<Member, MemberError>)
    ensures registry.Snapshot() == old(registry.Snapshot()) && registry.members == old(registry.members)
    ensures created.Err? ==> NewRecord(id, fullName, phone, status) == Err(created.error)
    ensures created.Ok? ==> fresh(created.value) && NewRecord(id, fullName, phone, status) == Ok(created.value.Data())
    ensures created.Ok? ==> created.value.memberId == id
  {
    var parts := SplitFullName(fullName, UNKNOWN_LAST_NAME);
    var email := RegistrationEmail(parts.first, parts.last);
    created := Member.Create(id, parts.first, parts.last, phone, Some(email), status);
  }

  /** `addMember(member)` followed by `saveData()` when it was added. */
  method AddAndSave(registry: MemberRegistry, member: Member) returns (added: bool)
    requires registry.Valid()
    modifies registry
    ensures registry.Valid() && registry.nextId == old(registry.nextId)
    ensures added <==> !HasExactId(old(registry.Snapshot()), member.memberId)
    ensures added ==> registry.members == old(registry.members) + [member]
                      && registry.Snapshot() == old(registry.Snapshot()) + [member.Data()]
                      && registry.saved == old(registry.saved) + [registry.Snapshot(), registry.Snapshot()]
    ensures !added ==> registry.members == old(registry.members) && registry.saved == old(registry.saved)
  {
    ghost var before := registry.members;
    added := registry.AddMember(member);
    if added {
      registry.Save();
      DataOfAppend(before, member);
    }
  }

  /** The rest of `registerNewMember` once the ID `id` is generated and
      the constructor has run: `created` is what it gave, `record` its
      record or error. */
  method AddCreated(registry: MemberRegistry, id: string, created: Result<Member, MemberError>,
                    ghost record: Result<MemberData, MemberError>)
    returns (r: Option<Member>)
    requires registry.Valid()
    requires created.Err? ==> record == Err(created.error)
    requires created.Ok? ==> record == Ok(created.value.Data()) && created.value.memberId == id
    modifies registry
    ensures registry.Valid() && registry.nextId == old(registry.nextId)
    ensures var spec := RegistrationOf(old(registry.Snapshot()), id, record);
      && (r.Some? <==> spec.Registered?)
      && (r.Some? ==> created.Ok? && r.value == created.value && r.value.Data() == spec.member
                      && registry.members == old(registry.members) + [r.value]
                      && registry.Snapshot() == old(registry.Snapshot()) + [spec.member]
                      && registry.saved == old(registry.saved) + [registry.Snapshot(), registry.Snapshot()])
      && (r.None? ==> registry.members == old(registry.members) && registry.saved == old(registry.saved))
  {
    if created.Err? {
      return None;
    }
    var added := AddAndSave(registry, created.value);
    r := if added then Some(created.value) else None;
  }

  class MembershipService {
    const registry: MemberRegistry

    /** `new MembershipService(registry)`. */
    constructor (registry: MemberRegistry)
      ensures this.registry == registry
    {
      this.registry := registry;
    }

    /** `registerNewMember(fullName, phone, status)`: an ID is generated
        whatever happens next; the new member is added and the register
        written (by `addMember` and then once more) only when the
        constructor accepts the details and the ID is not taken. */
    method RegisterNewMember(fullName: string, phone: string, status: MemberStatus)
      returns (r: Option<Member>)
      requires registry.Valid()
      modifies registry
      ensures registry.Valid() && registry.nextId == old(registry.nextId) + 1
      ensures var spec := Registration(old(registry.Snapshot()), NatToString(old(registry.nextId)),
                                       fullName, phone, status);
        && (r.Some? <==> spec.Registered?)
        && (r.Some? ==> fresh(r.value) && r.value.Data() == spec.member
                        && registry.members == old(registry.members) + [r.value]
                        && registry.Snapshot() == old(registry.Snapshot()) + [spec.member]
                        && registry.saved == old(registry.saved) + [registry.Snapshot(), registry.Snapshot()])
        && (r.None? ==> registry.members == old(registry.members) && registry.saved == old(registry.saved))
    {
      ghost var before := registry.Snapshot();
      var id := registry.GenerateNewId();
      var created := CreateFor(id, fullName, phone, status, registry);
      assert registry.Snapshot() == before;
      ghost var record := NewRecord(id, fullName, phone, status);
      r := AddCreated(registry, id, created, record);
      assert Registration(before, id, fullName, phone, status) == RegistrationOf(before, id, record);
    }

    /** `updateMemberDetails(id, fullName, phone, status)`: false for an
        unknown ID; otherwise the setters run and, when none throws, the
        register is written. */
    method UpdateMemberDetails(id: string, fullName: string, phone: string, status: MemberStatus)
      returns (outcome: DetailsOutcome)
      requires registry.Valid()
      modifies registry`saved, registry.members
      ensures registry.Valid() && registry.members == old(registry.members) && registry.nextId == old(registry.nextId)
      ensures (registry.Snapshot(), outcome) == ChangeDetails(old(registry.Snapshot()), id, fullName, phone, status)
      ensures registry.saved == old(registry.saved) + (if outcome == Changed then [registry.Snapshot()] else [])
    {
      var found := FindIndexById(registry.Snapshot(), id);
      if found.None? {
        return UnknownMember;
      }
      var err := DetailsAt(registry, found.value, fullName, phone, status);
      if err.Some? {
        return DetailsThrew(err.value);
      }
      registry.Save();
      return Changed;
    }

    /** `getAllMembers`: the register's members, as a list the caller
        cannot change. */
    function GetAllMembers(): (r: seq<Member>)
      reads this, registry, registry.members
      ensures r == registry.members
      ensures |r| == |registry.Snapshot()| && forall k :: 0 <= k < |r| ==> r[k].Data() == registry.Snapshot()[k]
    {
      registry.GetMembers()
    }

    /** `searchMembers(query)`. */
    function SearchMembers(query: string): (r: seq<Member>)
      reads this, registry, registry.members
      ensures r == Select(registry.members, SearchIndices(registry.Snapshot(), query))
    {
      Select(registry.members, SearchIndices(registry.Snapshot(), query))
    }
  }
}
