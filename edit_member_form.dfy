/**
 * The edit-member form: the same record and updaters as the add form, filled
 * from the member being edited, and submission reporting success or failure
 * without resetting the record.
 */
module EditMemberForm {
  import opened Js
  import opened Members
  import Feedback

  const Updated := "Member updated successfully!"
  const UpdateFailed := "Failed to update member."
  const Unreachable := "Network error or server unreachable during update."

  /** `iso.split("T")[0]`: the date part of an ISO timestamp. */
  function DatePart(iso: string): (d: string)
    ensures d <= iso
    ensures 'T' !in d
    ensures |d| < |iso| ==> iso[|d|] == 'T'
    ensures 'T' !in iso ==> d == iso
  {
    FirstPiece(iso, 'T');
    Split(iso, 'T')[0]
  }

  /** The date part of `date + "T" + time` is `date`. */
  lemma DatePartOfTimestamp(date: string, time: string)
    requires 'T' !in date
    ensures DatePart(date + "T" + time) == date
  {
    SplitAtFirst(date, 'T', time);
  }

  /**
   * The shape of `Date.prototype.toISOString` for a year from 0 to 9999,
   * "YYYY-MM-DDTHH:mm:ss.sssZ": ten characters of date, then "T".
   */
  predicate IsoTimestamp(s: string)
  {
    && |s| == 24 && s[10] == 'T'
    && forall i :: 0 <= i < 10 ==> if i == 4 || i == 7 then s[i] == '-' else IsDigit(s[i])
  }

  /** The date part of an ISO timestamp is its first ten characters. */
  lemma DatePartOfIso(s: string)
    requires IsoTimestamp(s)
    ensures DatePart(s) == s[..10]
  {
    assert s == s[..10] + "T" + s[11..];
    assert forall i :: 0 <= i < 10 ==> s[..10][i] != 'T';
    DatePartOfTimestamp(s[..10], s[11..]);
  }

  /**
   * The record the form is filled with, where `iso(s)` is the text of
   * `new Date(s).toISOString()`: missing names become "", a missing birth date
   * becomes "", a missing date of death stays null, and present dates become
   * the date part of their ISO text. The flag is copied as it is.
   */
  function Populated(m: Member, iso: string -> string): (f: MemberFields)
    ensures f.firstName == OrElse(m.firstName, "")
    ensures f.middleName == OrElse(m.middleName, "")
    ensures f.lastName == OrElse(m.lastName, "")
    ensures Truthy(m.dob) ==> f.dob == DatePart(iso(m.dob.value))
    ensures !Truthy(m.dob) ==> f.dob == ""
    ensures f.dod == if Truthy(m.dod) then Some(DatePart(iso(m.dod.value))) else None
    ensures 'T' !in f.dob
    ensures f.isAlive == m.isAlive
  {
    MemberFields(
      OrElse(m.firstName, ""),
      OrElse(m.middleName, ""),
      OrElse(m.lastName, ""),
      if Truthy(m.dob) then DatePart(iso(m.dob.value)) else "",
      if Truthy(m.dod) then Some(DatePart(iso(m.dod.value))) else None,
      m.isAlive)
  }

  /** Populating does not enforce the invariant: it holds exactly when the server's record keeps it. */
  lemma PopulatedKeepsInvariantIff(m: Member, iso: string -> string)
    ensures DodClearedWhenAlive(Populated(m, iso)) <==> (m.isAlive ==> !Truthy(m.dod))
  {
  }

  /** A birth date whose ISO text is well formed fills the date input with its "YYYY-MM-DD" part. */
  lemma PopulatedBirthDate(m: Member, iso: string -> string)
    requires Truthy(m.dob) && IsoTimestamp(iso(m.dob.value))
    ensures Populated(m, iso).dob == iso(m.dob.value)[..10]
  {
    DatePartOfIso(iso(m.dob.value));
  }

  /** A date of death whose ISO text is well formed fills the date input with its "YYYY-MM-DD" part. */
  lemma PopulatedDeathDate(m: Member, iso: string -> string)
    requires Truthy(m.dod) && IsoTimestamp(iso(m.dod.value))
    ensures Populated(m, iso).dod == Some(iso(m.dod.value)[..10])
  {
    DatePartOfIso(iso(m.dod.value));
  }

  /** The PUT the form sends: the member's id, which addresses it, and the record as its body. */
  datatype Request = Request(memberId: Value, body: MemberFields)

  class Form {
    /** The `memberToEdit` prop the list passes in. */
    var memberToEdit: Option<Member>
    var formData: MemberFields
    var message: string
    var isError: bool

    ghost predicate Consistent()
      reads this
    {
      DodClearedWhenAlive(formData)
    }

    /** The first render, before the effect has run. */
    constructor (memberToEdit: Option<Member>)
      ensures this.memberToEdit == memberToEdit
      ensures formData == Blank && message == "" && !isError
    {
      this.memberToEdit := memberToEdit;
      formData := Blank;
      message := "";
      isError := false;
    }

    /**
     * A render with the prop `memberToEdit`, and the effect run when it
     * changes; it fills nothing while there is none. `iso(s)` is the text of
     * `new Date(s).toISOString()`.
     */
    method Load(memberToEdit: Option<Member>, iso: string -> string)
      modifies this
      ensures this.memberToEdit == memberToEdit
      ensures memberToEdit.Some? ==> formData == Populated(memberToEdit.value, iso) && message == "" && !isError
      ensures memberToEdit.None? ==> formData == old(formData) && message == old(message) && isError == old(isError)
    {
      this.memberToEdit := memberToEdit;
      if memberToEdit.Some? {
        formData := Populated(memberToEdit.value, iso);
        message := "";
        isError := false;
      }
    }

    method HandleChange(field: Field, value: string)
      modifies this
      ensures formData == WithField(old(formData), field, value)
      ensures memberToEdit == old(memberToEdit) && message == old(message) && isError == old(isError)
      ensures old(Consistent()) && Shown(old(formData), field) ==> Consistent()
    {
      formData := WithField(formData, field, value);
    }

    method HandleIsAliveChange(checked: bool)
      modifies this
      ensures formData == WithIsAlive(old(formData), checked)
      ensures memberToEdit == old(memberToEdit) && message == old(message) && isError == old(isError)
      ensures Consistent()
    {
      formData := WithIsAlive(formData, checked);
    }

    /**
     * The synchronous part of `handleSubmit`: clear the feedback and send the
     * record to the edited member's URL. With no member, reading its id throws
     * inside the `try`, and the catch reports the network-failure message.
     */
    method BeginSubmit() returns (request: Option<Request>)
      modifies this
      ensures formData == old(formData) && memberToEdit == old(memberToEdit)
      ensures memberToEdit.Some? ==> request == Some(Request(memberToEdit.value.id, formData)) && message == "" && !isError
      ensures memberToEdit.None? ==> request == None && message == Unreachable && isError
    {
      message := "";
      isError := false;
      if memberToEdit.Some? {
        request := Some(Request(memberToEdit.value.id, formData));
      } else {
        request := None;
        NetworkError();
      }
    }

    /** The response was ok: report success; the caller then runs the list's `handleEditSuccess`. */
    method ResponseOk()
      modifies this
      ensures message == Updated && !isError
      ensures formData == old(formData) && memberToEdit == old(memberToEdit)
    {
      message := Updated;
      isError := false;
    }

    method ResponseError(serverError: Option<string>)
      modifies this
      ensures message == Feedback.ErrorText(serverError, UpdateFailed) && isError
      ensures formData == old(formData) && memberToEdit == old(memberToEdit)
    {
      message := Feedback.ErrorText(serverError, UpdateFailed);
      isError := true;
    }

    method NetworkError()
      modifies this
      ensures message == Unreachable && isError
      ensures formData == old(formData) && memberToEdit == old(memberToEdit)
    {
      message := Unreachable;
      isError := true;
    }
  }
}
