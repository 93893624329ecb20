/**
 * The edit-relationship form: its record starts from the relationship being
 * edited, the same guard stops a self-relationship before the PUT, and a
 * successful response reports success without touching the record.
 */
module EditRelationshipForm {
  import opened Js
  import opened Relationships
  import Feedback

  const SameMemberError := "Error: Cannot create a relationship with the same member for both roles."
  const Updated := "Relationship updated successfully!"
  const UpdateFailed := "Failed to update relationship."
  const Unreachable := "Network error or server unreachable during relationship update."

  class Form {
    /** The id the PUT is addressed to. */
    const relationshipId: Value
    var formData: RelationshipFields
    var message: string
    var isError: bool

    constructor (initial: Relationship)
      ensures relationshipId == initial.id
      ensures formData == FromRelationship(initial) && message == "" && !isError
    {
      relationshipId := initial.id;
      formData := FromRelationship(initial);
      message := "";
      isError := false;
    }

    method HandleChange(field: Field, value: string)
      modifies this
      ensures formData == WithField(old(formData), field, value)
      ensures message == old(message) && isError == old(isError)
    {
      formData := WithField(formData, field, value);
    }

    /**
     * The synchronous part of `handleSubmit`, with the corrected guard (the
     * ids compared as text); `body` is the record sent, or None when the guard
     * stops the submission before any request.
     */
    method BeginSubmit() returns (body: Option<RelationshipFields>)
      modifies this
      ensures formData == old(formData)
      ensures body.None? <==> SameMember(formData)
      ensures body.None? ==> message == SameMemberError && isError
      ensures body.Some? ==> body.value == formData && message == "" && !isError
    {
      message := "";
      isError := false;
      if SameMember(formData) {
        message := SameMemberError;
        isError := true;
        body := None;
        return;
      }
      body := Some(formData);
    }

    /** The response was ok: report success; the caller then runs the list's `handleRelationshipUpdated`. */
    method ResponseOk()
      modifies this
      ensures message == Updated && !isError
      ensures formData == old(formData)
    {
      message := Updated;
      isError := false;
    }

    method ResponseError(serverError: Option<string>)
      modifies this
      ensures message == Feedback.ErrorText(serverError, UpdateFailed) && isError
      ensures formData == old(formData)
    {
      message := Feedback.ErrorText(serverError, UpdateFailed);
      isError := true;
    }

    method NetworkError()
      modifies this
      ensures message == Unreachable && isError
      ensures formData == old(formData)
    {
      message := Unreachable;
      isError := true;
    }
  }
}
