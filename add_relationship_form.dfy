/**
 * The add-relationship form's state: `formData`, `message` and `isError`.
 * Submitting first clears the feedback, then refuses to send a request that
 * relates a member to themself, and otherwise posts the record; the response
 * either resets the form or reports the server's error.
 */
module AddRelationshipForm {
  import opened Js
  import opened Relationships
  import Feedback

  const SameMemberError := "Error: Cannot create a relationship with the same member for both roles."
  const Added := "Relationship added successfully!"
  const AddFailed := "Failed to add relationship."
  const Unreachable := "Network error or server unreachable during relationship addition."

  class Form {
    var formData: RelationshipFields
    var message: string
    var isError: bool

    /** Every selection of this form is a string: it starts blank and only `<select>` values are written. */
    ghost predicate Valid()
      reads this
    {
      AllText(formData)
    }

    constructor ()
      ensures Valid()
      ensures formData == Blank && message == "" && !isError
    {
      formData := Blank;
      message := "";
      isError := false;
    }

    method HandleChange(field: Field, value: string)
      requires Valid()
      modifies this
      ensures Valid()
      ensures formData == WithField(old(formData), field, value)
      ensures message == old(message) && isError == old(isError)
    {
      formData := WithField(formData, field, value);
    }

    /**
     * The synchronous part of `handleSubmit`. `body` is the record posted, or
     * None when the guard stops the submission before any request.
     */
    method BeginSubmit() returns (body: Option<RelationshipFields>)
      requires Valid()
      modifies this
      ensures Valid() && formData == old(formData)
      ensures body.None? <==> SameMemberStrict(formData)
      ensures body.None? ==> message == SameMemberError && isError
      ensures body.Some? ==> body.value == formData && message == "" && !isError
    {
      message := "";
      isError := false;
      GuardsAgreeOnText(formData);
      if SameMember(formData) {
        message := SameMemberError;
        isError := true;
        body := None;
        return;
      }
      body := Some(formData);
    }

    /** The response was ok: report success and clear all three selections. */
    method ResponseOk()
      modifies this
      ensures Valid()
      ensures message == Added && !isError
      ensures formData == Blank
    {
      message := Added;
      isError := false;
      formData := Blank;
    }

    method ResponseError(serverError: Option<string>)
      modifies this
      ensures message == Feedback.ErrorText(serverError, AddFailed) && isError
      ensures formData == old(formData)
    {
      message := Feedback.ErrorText(serverError, AddFailed);
      isError := true;
    }

    method NetworkError()
      modifies this
      ensures message == Unreachable && isError
      ensures formData == old(formData)
    {
      message := Unreachable;
      isError := true;
    }
  }
}
