/** A club member: an ID, a validated name and phone number, an e-mail
    address, a membership status and an append-only history of rental IDs.
    The setters validate before they overwrite; a rejected value throws in
    the Java code, which here is a `Fail` outcome that leaves the member as
    it was. */
module Members {
  import opened Wrappers
  import opened Text

  datatype MemberStatus = Standard | Premium | Student

  /** Why a member could not be built or changed, in the order the checks
      run. */
  datatype MemberError = IdRequired | FirstNameRequired | LastNameRequired | PhoneRequired | PhoneInvalid

  /** The fields of a member, as one value. */
  datatype MemberData = MemberData(
    memberId: string,
    firstName: string,
    lastName: string,
    phone: string,
    email: string,
    status: MemberStatus,
    rentalHistory: seq<string>)

  // ---------------------------------------------------------------------
  // the phone pattern `^[+]?[0-9 -]{7,15}$`

  predicate IsPhoneChar(c: char)
  {
    IsDigit(c) || c == ' ' || c == '-'
  }

  /** `[0-9 -]{7,15}`: seven to fifteen digits, spaces or hyphens. */
  predicate PhoneBody(s: string)
  {
    7 <= |s| <= 15 && forall i :: 0 <= i < |s| ==> IsPhoneChar(s[i])
  }

  /** The pattern read as the regular expression reads it: either the
      optional `+` is present and the rest is a body, or it is absent and the
      whole string is. */
  predicate PhonePattern(s: string)
  {
    (s != [] && s[0] == '+' && PhoneBody(s[1..])) || PhoneBody(s)
  }

  /** The pattern decided by looking at the first character once. */
  predicate PhoneMatches(s: string)
  {
    var body := if s != [] && s[0] == '+' then s[1..] else s;
    PhoneBody(body)
  }

  /** Looking at the first character once decides the pattern exactly: a
      `+` is never a body character, so the regular expression has no second
      way to match. */
  lemma PhoneMatchesIffPattern(s: string)
    ensures PhoneMatches(s) <==> PhonePattern(s)
  {
  }

  // ---------------------------------------------------------------------
  // the checks the constructor and the setters run

  /** A string with no trimmable character at either end. */
  predicate IsTrimmed(s: string)
  {
    Trim(s) == s
  }

  /** `setFirstName` / `setLastName`: a blank name is refused with `missing`;
      any other name is kept trimmed. */
  function CheckName(s: string, missing: MemberError): (r: Result<string, MemberError>)
    ensures r.Ok? <==> !IsBlank(s)
    ensures r.Err? ==> r.error == missing
    ensures r.Ok? ==> r.value == Trim(s) && r.value != [] && IsTrimmed(r.value)
  {
    TrimIdempotent(s);
    if IsBlank(s) then Err(missing) else Ok(Trim(s))
  }

  /** `setPhone`: a blank number is refused as missing, a number whose
      trimmed form does not match the pattern as invalid; otherwise the
      trimmed form is kept. */
  function CheckPhone(s: string): (r: Result<string, MemberError>)
    ensures r.Ok? <==> !IsBlank(s) && PhonePattern(Trim(s))
    ensures r.Err? ==> r.error == (if IsBlank(s) then PhoneRequired else PhoneInvalid)
    ensures r.Ok? ==> r.value == Trim(s)
  {
    PhoneMatchesIffPattern(Trim(s));
    if IsBlank(s) then Err(PhoneRequired)
    else if !PhoneMatches(Trim(s)) then Err(PhoneInvalid)
    else Ok(Trim(s))
  }

  /** A value a check accepted passes the same check again unchanged: a
      member whose stored fields are written back keeps them. */
  lemma CheckNameStable(s: string, missing: MemberError)
    requires CheckName(s, missing).Ok?
    ensures CheckName(CheckName(s, missing).value, missing) == CheckName(s, missing)
  {
    TrimIdempotent(s);
  }

  lemma CheckPhoneStable(s: string)
    requires CheckPhone(s).Ok?
    ensures CheckPhone(CheckPhone(s).value) == CheckPhone(s)
  {
    TrimIdempotent(s);
  }

  /** The constructor's checks, in its order: the ID (blank after trimming
      is refused, but the ID is stored as given), then the first name, the
      last name and the phone number. `None` when all pass. */
  function NewMemberError(memberId: string, firstName: string, lastName: string, phone: string): (r: Option<MemberError>)
    ensures r.None? <==>
      !IsBlank(memberId) && CheckName(firstName, FirstNameRequired).Ok?
      && CheckName(lastName, LastNameRequired).Ok? && CheckPhone(phone).Ok?
    ensures IsBlank(memberId) ==> r == Some(IdRequired)
    ensures r.Some? && r.value == PhoneInvalid ==> !IsBlank(phone)
  {
    if IsBlank(memberId) then Some(IdRequired)
    else if CheckName(firstName, FirstNameRequired).Err? then Some(FirstNameRequired)
    else if CheckName(lastName, LastNameRequired).Err? then Some(LastNameRequired)
    else if CheckPhone(phone).Err? then Some(CheckPhone(phone).error)
    else None
  }

  /** What a validated member holds: what the constructor establishes and
      every setter keeps. */
  predicate ValidData(d: MemberData)
  {
    && !IsBlank(d.memberId)
    && CheckName(d.firstName, FirstNameRequired) == Ok(d.firstName)
    && CheckName(d.lastName, LastNameRequired) == Ok(d.lastName)
    && CheckPhone(d.phone) == Ok(d.phone)
  }

  /** Each setter that accepts its argument keeps a valid member valid. */
  lemma SetMemberIdKeepsValid(d: MemberData, id: string)
    requires ValidData(d) && !IsBlank(id)
    ensures ValidData(d.(memberId := id))
  {
  }

  lemma SetNameKeepsValid(d: MemberData, first: string, last: string)
    requires ValidData(d)
    ensures CheckName(first, FirstNameRequired).Ok? ==>
      ValidData(d.(firstName := CheckName(first, FirstNameRequired).value))
    ensures CheckName(last, LastNameRequired).Ok? ==>
      ValidData(d.(lastName := CheckName(last, LastNameRequired).value))
  {
    if CheckName(first, FirstNameRequired).Ok? {
      CheckNameStable(first, FirstNameRequired);
    }
    if CheckName(last, LastNameRequired).Ok? {
      CheckNameStable(last, LastNameRequired);
    }
  }

  lemma SetPhoneKeepsValid(d: MemberData, number: string)
    requires ValidData(d) && CheckPhone(number).Ok?
    ensures ValidData(d.(phone := CheckPhone(number).value))
  {
    CheckPhoneStable(number);
  }

  /** The unchecked setters, and appending to the history, cannot break
      validity. */
  lemma UncheckedUpdatesKeepValid(d: MemberData, email: string, status: MemberStatus, rentalRef: string)
    requires ValidData(d)
    ensures ValidData(d.(email := email))
    ensures ValidData(d.(status := status))
    ensures ValidData(d.(rentalHistory := d.rentalHistory + [rentalRef]))
  {
  }

  /** The first name, a space and the last name. */
  function FullName(first: string, last: string): (r: string)
    ensures |r| == |first| + 1 + |last|
    ensures r[..|first|] == first && r[|first|] == ' ' && r[|first| + 1..] == last
  {
    first + " " + last
  }

  class Member {
    var memberId: string
    var firstName: string
    var lastName: string
    var phone: string
    var email: string
    var status: MemberStatus
    var rentalHistory: seq<string>

    function Data(): MemberData
      reads this
    {
      MemberData(memberId, firstName, lastName, phone, email, status, rentalHistory)
    }

    predicate Valid()
      reads this
    {
      ValidData(Data())
    }

    /** `new Member(...)` once its checks pass: the names and phone stored
        trimmed, the ID as given, a missing e-mail as the empty string, and an
        empty rental history. */
    constructor (memberId: string, firstName: string, lastName: string, phone: string,
                 email: Option<string>, status: MemberStatus)
      requires NewMemberError(memberId, firstName, lastName, phone).None?
      ensures Valid()
      ensures Data() == MemberData(memberId, Trim(firstName), Trim(lastName), Trim(phone),
                                   if email.Some? then email.value else "", status, [])
    {
      this.memberId := memberId;
      this.firstName := Trim(firstName);
      this.lastName := Trim(lastName);
      this.phone := Trim(phone);
      this.email := if email.Some? then email.value else "";
      this.status := status;
      this.rentalHistory := [];
      new;
      CheckNameStable(firstName, FirstNameRequired);
      CheckNameStable(lastName, LastNameRequired);
      CheckPhoneStable(phone);
    }

    /** A member rebuilt from a stored record, field by field and without
        the setters' checks. */
    constructor FromData(d: MemberData)
      ensures Data() == d
    {
      memberId, firstName, lastName, phone := d.memberId, d.firstName, d.lastName, d.phone;
      email, status, rentalHistory := d.email, d.status, d.rentalHistory;
    }

    /** The Java constructor as a whole: it throws the first failing check,
        and otherwise gives the new member. */
    static method Create(memberId: string, firstName: string, lastName: string, phone: string,
                         email: Option<string>, status: MemberStatus)
      returns (r: Result<Member, MemberError>)
      ensures r.Err? <==> NewMemberError(memberId, firstName, lastName, phone).Some?
      ensures r.Err? ==> r.error == NewMemberError(memberId, firstName, lastName, phone).value
      ensures r.Ok? ==> fresh(r.value) && r.value.Valid()
      ensures r.Ok? ==> r.value.Data() == MemberData(memberId, Trim(firstName), Trim(lastName), Trim(phone),
                                                     if email.Some? then email.value else "", status, [])
    {
      var err := NewMemberError(memberId, firstName, lastName, phone);
      if err.Some? {
        return Err(err.value);
      }
      var m := new Member(memberId, firstName, lastName, phone, email, status);
      return Ok(m);
    }

    /** `getRentalHistory`: the history as a value, so a caller that changes
        what it got back cannot change the member. */
    function RentalHistory(): (r: seq<string>)
      reads this
      ensures r == Data().rentalHistory
    {
      rentalHistory
    }

    /** `getName`. */
    function Name(): (r: string)
      reads this
      ensures r == FullName(firstName, lastName)
    {
      firstName + " " + lastName
    }

    method SetMemberId(id: string) returns (o: Outcome<MemberError>)
      modifies this
      ensures IsBlank(id) ==> o == Fail(IdRequired) && Data() == old(Data())
      ensures !IsBlank(id) ==> o == Pass && Data() == old(Data()).(memberId := id)
    {
      if IsBlank(id) {
        return Fail(IdRequired);
      }
      memberId := id;
      return Pass;
    }

    method SetFirstName(name: string) returns (o: Outcome<MemberError>)
      modifies this
      ensures CheckName(name, FirstNameRequired).Err? ==> o == Fail(FirstNameRequired) && Data() == old(Data())
      ensures CheckName(name, FirstNameRequired).Ok? ==>
        o == Pass && Data() == old(Data()).(firstName := CheckName(name, FirstNameRequired).value)
    {
      var c := CheckName(name, FirstNameRequired);
      if c.Err? {
        return Fail(c.error);
      }
      firstName := c.value;
      return Pass;
    }

    method SetLastName(name: string) returns (o: Outcome<MemberError>)
      modifies this
      ensures CheckName(name, LastNameRequired).Err? ==> o == Fail(LastNameRequired) && Data() == old(Data())
      ensures CheckName(name, LastNameRequired).Ok? ==>
        o == Pass && Data() == old(Data()).(lastName := CheckName(name, LastNameRequired).value)
    {
      var c := CheckName(name, LastNameRequired);
      if c.Err? {
        return Fail(c.error);
      }
      lastName := c.value;
      return Pass;
    }

    /** `setEmail` stores any value, unchecked. */
    method SetEmail(email: string)
      modifies this
      ensures Data() == old(Data()).(email := email)
    {
      this.email := email;
    }

    method SetPhone(number: string) returns (o: Outcome<MemberError>)
      modifies this
      ensures CheckPhone(number).Err? ==> o == Fail(CheckPhone(number).error) && Data() == old(Data())
      ensures CheckPhone(number).Ok? ==> o == Pass && Data() == old(Data()).(phone := CheckPhone(number).value)
    {
      var c := CheckPhone(number);
      if c.Err? {
        return Fail(c.error);
      }
      phone := c.value;
      return Pass;
    }

    method SetStatus(status: MemberStatus)
      modifies this
      ensures Data() == old(Data()).(status := status)
    {
      this.status := status;
    }

    /** `addRentalToHistory`: one entry more, at the end. */
    method AddRentalToHistory(rentalRef: string)
      modifies this
      ensures Data() == old(Data()).(rentalHistory := old(rentalHistory) + [rentalRef])
    {
      rentalHistory := rentalHistory + [rentalRef];
    }
  }
}
