/**
 * The member record the add and edit member forms share, with the two
 * updaters both forms define identically (`handleChange` and
 * `handleIsAliveChange`) and the invariant "a living member has no date of
 * death" that the forms try to keep.
 */
module Members {
  import opened Js

  /** A member as the server sends it: names may be null, dates are ISO strings or null. */
  datatype Member = Member(
    id: Value,
    firstName: Option<string>,
    middleName: Option<string>,
    lastName: Option<string>,
    dob: Option<string>,
    dod: Option<string>,
    isAlive: bool)

  /** The `formData` record of the member forms. */
  datatype MemberFields = MemberFields(
    firstName: string,
    middleName: string,
    lastName: string,
    dob: string,
    dod: Option<string>,
    isAlive: bool)

  /** The record both member forms start from: empty names and dates, alive, no date of death. */
  const Blank: MemberFields := MemberFields("", "", "", "", None, true)

  /** "is_alive implies dod is null". */
  predicate DodClearedWhenAlive(f: MemberFields)
  {
    f.isAlive ==> f.dod == None
  }

  lemma BlankKeepsInvariant()
    ensures DodClearedWhenAlive(Blank)
  {
  }

  /** The inputs whose `onChange` is `handleChange` (the checkbox has its own handler). */
  datatype Field = FirstName | MiddleName | LastName | Dob | Dod

  /** The value of one field; only `dod` can be null. */
  function Get(f: MemberFields, field: Field): Option<string>
  {
    match field
    case FirstName => Some(f.firstName)
    case MiddleName => Some(f.middleName)
    case LastName => Some(f.lastName)
    case Dob => Some(f.dob)
    case Dod => f.dod
  }

  /** The fields and the checkbox together determine the record. */
  lemma SameFieldsSameRecord(a: MemberFields, b: MemberFields)
    requires forall g :: Get(a, g) == Get(b, g)
    requires a.isAlive == b.isAlive
    ensures a == b
  {
    assert Get(a, FirstName) == Get(b, FirstName);
    assert Get(a, MiddleName) == Get(b, MiddleName);
    assert Get(a, LastName) == Get(b, LastName);
    assert Get(a, Dob) == Get(b, Dob);
    assert Get(a, Dod) == Get(b, Dod);
  }

  /** `handleChange`: `{...prev, [name]: value}`; an input always yields a string, so `dod` becomes non-null. */
  function WithField(f: MemberFields, field: Field, value: string): (r: MemberFields)
    ensures Get(r, field) == Some(value)
    ensures forall g :: g != field ==> Get(r, g) == Get(f, g)
    ensures r.isAlive == f.isAlive
  {
    match field
    case FirstName => f.(firstName := value)
    case MiddleName => f.(middleName := value)
    case LastName => f.(lastName := value)
    case Dob => f.(dob := value)
    case Dod => f.(dod := Some(value))
  }

  /** `handleIsAliveChange`: sets the flag and clears `dod` when the member becomes alive. */
  function WithIsAlive(f: MemberFields, checked: bool): (r: MemberFields)
    ensures r.isAlive == checked
    ensures checked ==> r.dod == None
    ensures !checked ==> r.dod == f.dod
    ensures forall g :: g != Dod ==> Get(r, g) == Get(f, g)
    ensures DodClearedWhenAlive(r)
  {
    f.(isAlive := checked, dod := if checked then None else f.dod)
  }

  /** Whether the input for `field` is rendered: the date-of-death input only while not alive. */
  predicate Shown(f: MemberFields, field: Field)
  {
    field == Dod ==> !f.isAlive
  }

  /** An edit through an input that is on screen keeps the invariant. */
  lemma ChangeKeepsInvariant(f: MemberFields, field: Field, value: string)
    requires DodClearedWhenAlive(f)
    requires Shown(f, field)
    ensures DodClearedWhenAlive(WithField(f, field, value))
  {
  }

  /** Without the rendering rule, `handleChange` alone would break the invariant. */
  lemma HiddenDodChangeBreaksInvariant(value: string)
    ensures !DodClearedWhenAlive(WithField(Blank, Dod, value))
  {
  }

  /** One user action on the form. */
  datatype Edit = Change(field: Field, value: string) | ToggleAlive(checked: bool)

  function Step(f: MemberFields, e: Edit): MemberFields
  {
    match e
    case Change(field, value) => WithField(f, field, value)
    case ToggleAlive(checked) => WithIsAlive(f, checked)
  }

  /** An action the rendered form offers. */
  predicate Enabled(f: MemberFields, e: Edit)
  {
    e.Change? ==> Shown(f, e.field)
  }

  function Run(f: MemberFields, edits: seq<Edit>): MemberFields
    decreases |edits|
  {
    if |edits| == 0 then f else Run(Step(f, edits[0]), edits[1..])
  }

  /** Every action of the sequence is offered at the moment it is taken. */
  predicate Admissible(f: MemberFields, edits: seq<Edit>)
    decreases |edits|
  {
    |edits| == 0 || (Enabled(f, edits[0]) && Admissible(Step(f, edits[0]), edits[1..]))
  }

  /** Any sequence of actions the form offers keeps "alive implies no date of death". */
  lemma {:induction false} RunKeepsInvariant(f: MemberFields, edits: seq<Edit>)
    requires DodClearedWhenAlive(f)
    requires Admissible(f, edits)
    ensures DodClearedWhenAlive(Run(f, edits))
    decreases |edits|
  {
    if |edits| > 0 {
      var e := edits[0];
      if e.Change? {
        ChangeKeepsInvariant(f, e.field, e.value);
      }
      RunKeepsInvariant(Step(f, e), edits[1..]);
    }
  }
}
