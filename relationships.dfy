/**
 * The relationship record the add and edit relationship forms share, its
 * per-field updater, and the pre-submit guard against relating a member to
 * themself.
 */
module Relationships {
  import opened Js

  /**
   * A relationship as the list receives it: the ids the server sent (numbers
   * in practice, possibly absent) and the resolved display names.
   */
  datatype Relationship = Relationship(
    id: Value,
    memberId1: Option<Value>,
    memberId2: Option<Value>,
    relationshipTypeId: Option<Value>,
    member1FirstName: string,
    member1LastName: string,
    member2FirstName: string,
    member2LastName: string,
    relationshipTypeName: string)

  /** The `formData` record of the relationship forms. */
  datatype RelationshipFields = RelationshipFields(memberId1: Value, memberId2: Value, relationshipTypeId: Value)

  /** The add form's record before anything is selected, and after a successful submit. */
  const Blank: RelationshipFields := RelationshipFields(Str(""), Str(""), Str(""))

  /** The three `<select>` inputs whose `onChange` is `handleChange`. */
  datatype Field = Member1 | Member2 | RelationshipType

  function Get(f: RelationshipFields, field: Field): Value
  {
    match field
    case Member1 => f.memberId1
    case Member2 => f.memberId2
    case RelationshipType => f.relationshipTypeId
  }

  /** The three selections determine the record. */
  lemma SameFieldsSameRecord(a: RelationshipFields, b: RelationshipFields)
    requires forall g :: Get(a, g) == Get(b, g)
    ensures a == b
  {
    assert Get(a, Member1) == Get(b, Member1);
    assert Get(a, Member2) == Get(b, Member2);
    assert Get(a, RelationshipType) == Get(b, RelationshipType);
  }

  /** Every selection holds a string, as a `<select>` produces. */
  predicate AllText(f: RelationshipFields)
  {
    f.memberId1.Str? && f.memberId2.Str? && f.relationshipTypeId.Str?
  }

  /** `handleChange`: `{...prev, [name]: value}` with the selected option's value, always a string. */
  function WithField(f: RelationshipFields, field: Field, value: string): (r: RelationshipFields)
    ensures Get(r, field) == Str(value)
    ensures forall g :: g != field ==> Get(r, g) == Get(f, g)
    ensures AllText(f) ==> AllText(r)
  {
    match field
    case Member1 => f.(memberId1 := Str(value))
    case Member2 => f.(memberId2 := Str(value))
    case RelationshipType => f.(relationshipTypeId := Str(value))
  }

  /** The id a relationship carries for the selection `g`. */
  function Source(r: Relationship, g: Field): Option<Value>
  {
    match g
    case Member1 => r.memberId1
    case Member2 => r.memberId2
    case RelationshipType => r.relationshipTypeId
  }

  /** The edit form's initial record: each id taken from the relationship, a falsy or missing one replaced by "". */
  function FromRelationship(r: Relationship): (f: RelationshipFields)
    ensures forall g :: Get(f, g) == ValueOrEmpty(Source(r, g))
  {
    RelationshipFields(ValueOrEmpty(r.memberId1), ValueOrEmpty(r.memberId2), ValueOrEmpty(r.relationshipTypeId))
  }

  /** Every field of the initial record is either the relationship's own truthy id or "". */
  lemma FromRelationshipFields(r: Relationship, g: Field)
    ensures var v := Get(FromRelationship(r), g);
      v == Str("") || (ValueTruthy(v) && Source(r, g) == Some(v))
  {
  }

  /** The guard as the source writes it: `formData.member_id_1 === formData.member_id_2`. */
  predicate SameMemberStrict(f: RelationshipFields)
  {
    f.memberId1 == f.memberId2
  }

  /** The guard as intended: both selections name the same member id, whatever JavaScript type holds it. */
  predicate SameMember(f: RelationshipFields)
  {
    ToText(f.memberId1) == ToText(f.memberId2)
  }

  /** Where every selection is a string (always so in the add form) the two guards agree. */
  lemma GuardsAgreeOnText(f: RelationshipFields)
    requires AllText(f)
    ensures SameMember(f) <==> SameMemberStrict(f)
  {
  }

  /** The intended guard blocks whatever the strict one blocks. */
  lemma StrictGuardImpliesGuard(f: RelationshipFields)
    ensures SameMemberStrict(f) ==> SameMember(f)
  {
  }

  /** On two numeric ids the intended guard is numeric equality. */
  lemma SameMemberOnNumbers(a: int, b: int, t: Value)
    ensures SameMember(RelationshipFields(Num(a), Num(b), t)) <==> a == b
  {
    if NumberToString(a) == NumberToString(b) {
      NumberToStringInjective(a, b);
    }
  }

  /** A numeric id and a selected string name the same member exactly when the string is the number's text. */
  lemma SameMemberNumberAndText(n: int, s: string, t: Value)
    ensures SameMember(RelationshipFields(Num(n), Str(s), t)) <==> s == NumberToString(n)
  {
  }

  /**
   * The edit form, opened on a relationship whose ids came from the server as
   * numbers 3 and 5, after member 2 is re-selected as member 3: the strict
   * guard lets the self-relationship through, the intended one stops it.
   */
  lemma StrictGuardMissesNumericId()
    ensures var r := Relationship(Num(10), Some(Num(3)), Some(Num(5)), Some(Num(1)), "A", "B", "C", "D", "Parent");
      var f := WithField(FromRelationship(r), Member2, "3");
      !SameMemberStrict(f) && SameMember(f)
  {
    assert NumberToString(3) == "3";
  }
}
