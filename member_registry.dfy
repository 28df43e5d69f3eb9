/** The member register: the list of members, loaded at start, changed in
    place by add, update and remove, and written back after each change
    that succeeds; plus the counter that hands out new member IDs. Each
    write is recorded in `saved` as the list of member records written. */
module MemberRegistries {
  import opened Wrappers
  import opened Text
  import opened Seqs
  import opened Ids
  import opened Members

  /** The value `initializeNextId` falls back on when no stored ID is all
      digits; the first ID is then one more. */
  const MEMBER_ID_FALLBACK: nat := 1000

  function MemberIds(snapshot: seq<MemberData>): (r: seq<string>)
    ensures |r| == |snapshot| && forall k :: 0 <= k < |snapshot| ==> r[k] == snapshot[k].memberId
  {
    seq(|snapshot|, k requires 0 <= k < |snapshot| => snapshot[k].memberId)
  }

  /** `findMemberById`: the first member whose ID equals `id` ignoring case. */
  function FindIndexById(snapshot: seq<MemberData>, id: string): (r: Option<nat>)
    ensures r.Some? ==> r.value < |snapshot| && EqualsIgnoreCase(snapshot[r.value].memberId, id)
    ensures r.Some? ==> forall k :: 0 <= k < r.value ==> !EqualsIgnoreCase(snapshot[k].memberId, id)
    ensures r.None? <==> forall k :: 0 <= k < |snapshot| ==> !EqualsIgnoreCase(snapshot[k].memberId, id)
  {
    FirstIndex(snapshot, (d: MemberData) => EqualsIgnoreCase(d.memberId, id))
  }

  /** Some member's ID equals `id` exactly, as `addMember` compares. */
  predicate HasExactId(snapshot: seq<MemberData>, id: string)
  {
    exists k :: 0 <= k < |snapshot| && snapshot[k].memberId == id
  }

  /** The lower-cased first or last name contains the lower-cased query. */
  predicate NameMatches(d: MemberData, query: string)
  {
    Contains(ToLower(d.firstName), ToLower(query)) || Contains(ToLower(d.lastName), ToLower(query))
  }

  /** `searchMembersByName`: the positions of the matching members, in list
      order. */
  function SearchByName(snapshot: seq<MemberData>, query: string): (r: seq<nat>)
    ensures forall k :: 0 <= k < |r| ==> r[k] < |snapshot| && NameMatches(snapshot[r[k]], query)
    ensures forall i :: 0 <= i < |snapshot| && NameMatches(snapshot[i], query) ==> i in r
    ensures forall a, b :: 0 <= a < b < |r| ==> r[a] < r[b]
  {
    FilterIndices(snapshot, (d: MemberData) => NameMatches(d, query))
  }

  /** An empty query matches every member. */
  lemma EmptyQueryFindsAll(snapshot: seq<MemberData>)
    ensures SearchByName(snapshot, "") == Range(|snapshot|)
  {
    forall i | 0 <= i < |snapshot|
      ensures NameMatches(snapshot[i], "")
    {
      ContainsEmpty(ToLower(snapshot[i].firstName));
    }
    FilterIndicesAll(snapshot, (d: MemberData) => NameMatches(d, ""));
  }

  /** How `updateMember` ended. */
  datatype UpdateOutcome = Updated | NotFound | Threw(error: MemberError)

  /** The setters `updateMember` runs on the stored member, in order (first
      name, last name, e-mail, phone, status), with the values of `updated`:
      the record they leave and the error of the setter that threw, if one
      did. Setters before the one that threw have taken effect. */
  function ApplyUpdate(existing: MemberData, updated: MemberData): (r: (MemberData, Option<MemberError>))
    ensures r.0.memberId == existing.memberId && r.0.rentalHistory == existing.rentalHistory
    ensures r.1.None? ==> r.0.status == updated.status && r.0.email == updated.email
  {
    var first := CheckName(updated.firstName, FirstNameRequired);
    if first.Err? then (existing, Some(first.error))
    else
      var d1 := existing.(firstName := first.value);
      var last := CheckName(updated.lastName, LastNameRequired);
      if last.Err? then (d1, Some(last.error))
      else
        var d2 := d1.(lastName := last.value, email := updated.email);
        var phone := CheckPhone(updated.phone);
        if phone.Err? then (d2, Some(phone.error))
        else (d2.(phone := phone.value, status := updated.status), None)
  }

  /** Updating from a valid member copies its name, e-mail, phone and
      status, and throws nothing. */
  lemma UpdateFromValidCopies(existing: MemberData, updated: MemberData)
    requires ValidData(updated)
    ensures ApplyUpdate(existing, updated) ==
      (existing.(firstName := updated.firstName, lastName := updated.lastName, email := updated.email,
                 phone := updated.phone, status := updated.status), None)
  {
  }

  /** An update, even one that stops half-way, keeps a valid member valid. */
  lemma UpdateKeepsValid(existing: MemberData, updated: MemberData)
    requires ValidData(existing)
    ensures ValidData(ApplyUpdate(existing, updated).0)
  {
    var first := CheckName(updated.firstName, FirstNameRequired);
    var last := CheckName(updated.lastName, LastNameRequired);
    var phone := CheckPhone(updated.phone);
    if first.Ok? {
      SetNameKeepsValid(existing, updated.firstName, updated.lastName);
      var d1 := existing.(firstName := first.value);
      SetNameKeepsValid(d1, updated.firstName, updated.lastName);
      if last.Ok? {
        var d2 := d1.(lastName := last.value);
        UncheckedUpdatesKeepValid(d2, updated.email, updated.status, "");
        var d3 := d2.(email := updated.email);
        if phone.Ok? {
          SetPhoneKeepsValid(d3, updated.phone);
          UncheckedUpdatesKeepValid(d3.(phone := phone.value), updated.email, updated.status, "");
        }
      }
    }
  }

  /** `updateMember` on the records: the first member whose ID equals the
      ID of `u` ignoring case gets the setters with the values of `u`. */
  function UpdateRegister(snapshot: seq<MemberData>, u: MemberData): (r: (seq<MemberData>, UpdateOutcome))
    ensures |r.0| == |snapshot|
    ensures r.1 == NotFound <==> FindIndexById(snapshot, u.memberId).None?
  {
    var found := FindIndexById(snapshot, u.memberId);
    if found.None? then (snapshot, NotFound)
    else
      var outcome := ApplyUpdate(snapshot[found.value], u);
      (snapshot[found.value := outcome.0], if outcome.1.None? then Updated else Threw(outcome.1.value))
  }

  /** An update changes at most the member found, never a member's ID or
      rental history, and nothing at all when no member is found. */
  lemma UpdateRegisterFrame(snapshot: seq<MemberData>, u: MemberData)
    ensures var r := UpdateRegister(snapshot, u);
      (r.1 == NotFound ==> r.0 == snapshot)
      && (forall k :: 0 <= k < |snapshot| ==>
            r.0[k].memberId == snapshot[k].memberId && r.0[k].rentalHistory == snapshot[k].rentalHistory)
      && (r.1 != NotFound ==>
            forall k :: 0 <= k < |snapshot| && k != FindIndexById(snapshot, u.memberId).value ==> r.0[k] == snapshot[k])
  {
    var found := FindIndexById(snapshot, u.memberId);
    if found.Some? {
      var i := found.value;
      var changed := snapshot[i := ApplyUpdate(snapshot[i], u).0];
      assert UpdateRegister(snapshot, u).0 == changed;
      forall k | 0 <= k < |snapshot|
        ensures changed[k].memberId == snapshot[k].memberId && changed[k].rentalHistory == snapshot[k].rentalHistory
      {
        if k == i {
          assert changed[k] == ApplyUpdate(snapshot[i], u).0;
        } else {
          assert changed[k] == snapshot[k];
        }
      }
    }
  }

  /** Updating the register from a valid member whose ID is known succeeds
      and copies the name, e-mail, phone and status to the first member with
      that ID. */
  lemma UpdateRegisterFromValid(snapshot: seq<MemberData>, u: MemberData)
    requires ValidData(u) && FindIndexById(snapshot, u.memberId).Some?
    ensures var i := FindIndexById(snapshot, u.memberId).value;
      UpdateRegister(snapshot, u) ==
      (snapshot[i := snapshot[i].(firstName := u.firstName, lastName := u.lastName, email := u.email,
                                  phone := u.phone, status := u.status)], Updated)
  {
    UpdateFromValidCopies(snapshot[FindIndexById(snapshot, u.memberId).value], u);
  }

  /** Where the ID is found at `i`, the register update is the setters'
      outcome on the `i`-th record. */
  lemma UpdateRegisterAt(snapshot: seq<MemberData>, u: MemberData, i: nat, outcome: (MemberData, Option<MemberError>))
    requires FindIndexById(snapshot, u.memberId) == Some(i)
    requires outcome == ApplyUpdate(snapshot[i], u)
    ensures UpdateRegister(snapshot, u) ==
      (snapshot[i := outcome.0], if outcome.1.None? then Updated else Threw(outcome.1.value))
  {
  }

  /** The records of the listed members, in order. */
  function DataOf(ms: seq<Member>): (r: seq<MemberData>)
    reads ms
    ensures |r| == |ms| && forall k :: 0 <= k < |ms| ==> r[k] == ms[k].Data()
  {
    if ms == [] then [] else DataOf(ms[..|ms| - 1]) + [ms[|ms| - 1].Data()]
  }

  /** The setter calls of `updateMember` on the stored member `existing`,
      in order, stopping at the first that throws. */
  method RunUpdateSetters(existing: Member, u: MemberData) returns (err: Option<MemberError>)
    modifies existing
    ensures (existing.Data(), err) == ApplyUpdate(old(existing.Data()), u)
  {
    var o := existing.SetFirstName(u.firstName);
    if o.Fail? {
      return Some(o.error);
    }
    o := existing.SetLastName(u.lastName);
    if o.Fail? {
      return Some(o.error);
    }
    existing.SetEmail(u.email);
    o := existing.SetPhone(u.phone);
    if o.Fail? {
      return Some(o.error);
    }
    existing.SetStatus(u.status);
    return None;
  }

  /** One new member object per stored record, in order. */
  method NewMembers(loaded: seq<MemberData>) returns (ms: seq<Member>)
    ensures DataOf(ms) == loaded
    ensures forall a, b :: 0 <= a < b < |ms| ==> ms[a] != ms[b]
  {
    ms := [];
    for i := 0 to |loaded|
      invariant |ms| == i
      invariant forall k :: 0 <= k < i ==> ms[k].Data() == loaded[k]
      invariant forall a, b :: 0 <= a < b < i ==> ms[a] != ms[b]
    {
      var m := new Member.FromData(loaded[i]);
      ms := ms + [m];
    }
  }

  class MemberRegistry {
    var members: seq<Member>
    var nextId: nat
    var saved: seq<seq<MemberData>>

    /** The members' records, in list order. */
    function Snapshot(): (r: seq<MemberData>)
      reads this`members, members
      ensures |r| == |members| && forall k :: 0 <= k < |members| ==> r[k] == members[k].Data()
    {
      DataOf(members)
    }

    /** No member object is listed twice. */
    predicate Valid()
      reads this`members
    {
      forall i, j :: 0 <= i < j < |members| ==> members[i] != members[j]
    }

    /** The register as loaded: one member per stored record, and the ID
        counter set past the stored IDs. */
    constructor (loaded: seq<MemberData>)
      ensures Valid() && Snapshot() == loaded && saved == []
      ensures nextId == NextIdAfterLoad(MemberIds(loaded), MEMBER_ID_FALLBACK)
    {
      members, saved := [], [];
      nextId := NextIdAfterLoad(MemberIds(loaded), MEMBER_ID_FALLBACK);
      new;
      Populate(loaded);
    }

    /** The list replaced by one new member per stored record. */
    method Populate(loaded: seq<MemberData>)
      modifies this`members
      ensures Valid() && Snapshot() == loaded
    {
      var ms := NewMembers(loaded);
      members := ms;
    }

    /** `generateNewId`: the counter in decimal, and the counter moves on. */
    method GenerateNewId() returns (id: string)
      modifies this
      ensures id == NatToString(old(nextId)) && nextId == old(nextId) + 1
      ensures members == old(members) && saved == old(saved)
      ensures Snapshot() == old(Snapshot())
    {
      id := NatToString(nextId);
      nextId := nextId + 1;
    }

    /** `getMembers`: the list itself, in order, as a view the caller
        cannot change. */
    function GetMembers(): (r: seq<Member>)
      reads this, members
      ensures r == members
      ensures |r| == |Snapshot()| && forall k :: 0 <= k < |r| ==> r[k].Data() == Snapshot()[k]
    {
      members
    }

    /** `findMemberById`. */
    function FindMemberById(id: string): (r: Option<Member>)
      reads this, members
      ensures r.None? <==> FindIndexById(Snapshot(), id).None?
      ensures r.Some? ==> r.value == members[FindIndexById(Snapshot(), id).value]
    {
      var i := FindIndexById(Snapshot(), id);
      if i.None? then None else Some(members[i.value])
    }

    /** `searchMembersByName`. */
    function SearchMembersByName(query: string): (r: seq<Member>)
      reads this, members
      ensures r == Select(members, SearchByName(Snapshot(), query))
    {
      Select(members, SearchByName(Snapshot(), query))
    }

    /** `addMember`: refused when a member has exactly this ID; otherwise
        appended at the end and the register written. */
    method AddMember(m: Member) returns (added: bool)
      requires Valid()
      modifies this
      ensures Valid() && nextId == old(nextId)
      ensures added <==> !HasExactId(old(Snapshot()), m.memberId)
      ensures added ==> members == old(members) + [m] && saved == old(saved) + [Snapshot()]
      ensures !added ==> members == old(members) && saved == old(saved)
    {
      if HasExactId(Snapshot(), m.memberId) {
        return false;
      }
      members := members + [m];
      saved := saved + [Snapshot()];
      return true;
    }

    /** `updateMember`: finds the member by the ID of `updated`, ignoring
        case, and runs the setters on it; the register is written when all of
        them succeed. The stored member may be `updated` itself: each setter
        reads the field it writes, so reading `updated` first is the same. */
    method UpdateMember(updated: Member) returns (r: UpdateOutcome)
      requires Valid()
      modifies this, members
      ensures Valid() && members == old(members) && nextId == old(nextId)
      ensures Snapshot() == UpdateRegister(old(Snapshot()), old(updated.Data())).0
      ensures r == UpdateRegister(old(Snapshot()), old(updated.Data())).1
      ensures saved == old(saved) + (if r == Updated then [Snapshot()] else [])
    {
      var u := updated.Data();
      var found := FindIndexById(Snapshot(), u.memberId);
      if found.None? {
        assert UpdateRegister(Snapshot(), u) == (Snapshot(), NotFound);
        return NotFound;
      }
      r := UpdateFound(found.value, u);
    }

    /** `updateMember` once the member is found at `i`. */
    method UpdateFound(i: nat, u: MemberData) returns (r: UpdateOutcome)
      requires Valid() && FindIndexById(Snapshot(), u.memberId) == Some(i)
      modifies this, members
      ensures Valid() && members == old(members) && nextId == old(nextId)
      ensures Snapshot() == UpdateRegister(old(Snapshot()), u).0
      ensures r == UpdateRegister(old(Snapshot()), u).1
      ensures saved == old(saved) + (if r == Updated then [Snapshot()] else [])
    {
      ghost var before := Snapshot();
      var err := UpdateAt(i, u);
      var after := Snapshot();
      UpdateRegisterAt(before, u, i, (after[i], err));
      if err.Some? {
        return Threw(err.value);
      }
      Save();
      return Updated;
    }

    /** The setters of `updateMember` run on the `i`-th member: only that
        record changes. */
    method UpdateAt(i: nat, u: MemberData) returns (err: Option<MemberError>)
      requires Valid() && i < |members|
      modifies members[i]
      ensures unchanged(this)
      ensures var outcome := ApplyUpdate(old(Snapshot())[i], u);
        Snapshot() == old(Snapshot())[i := outcome.0] && err == outcome.1
    {
      ghost var before := Snapshot();
      err := RunUpdateSetters(members[i], u);
      SnapshotAfterChange(before, i);
    }

    /** Writes the register: the member records are recorded as saved. */
    method Save()
      modifies this`saved
      ensures members == old(members) && nextId == old(nextId)
      ensures saved == old(saved) + [Snapshot()]
    {
      saved := saved + [Snapshot()];
    }

    /** When only the `i`-th member has changed, the snapshot changes only
        at `i`. */
    lemma SnapshotAfterChange(before: seq<MemberData>, i: nat)
      requires Valid() && i < |members| && |before| == |members|
      requires forall k :: 0 <= k < |members| && k != i ==> before[k] == members[k].Data()
      ensures Snapshot() == before[i := members[i].Data()]
    {
    }

    /** `removeMember`: removes the first occurrence of this very member
        object and writes the register; false, with nothing written, when
        it is not listed. */
    method RemoveMember(m: Member) returns (removed: bool)
      requires Valid()
      modifies this
      ensures Valid() && nextId == old(nextId)
      ensures removed <==> m in old(members)
      ensures members == RemoveFirst(old(members), m) && m !in members
      ensures saved == old(saved) + (if removed then [Snapshot()] else [])
    {
      if m !in members {
        return false;
      }
      members := RemoveFirst(members, m);
      saved := saved + [Snapshot()];
      return true;
    }
  }
}
