/**
 * The add-member form's state: `formData`, `message` and `isError`, and the
 * writes its handlers make. Submission is split at the request: `BeginSubmit`
 * is what happens before the request is sent, and `ResponseOk`,
 * `ResponseError` and `NetworkError` are the writes made when it settles.
 */
module AddMemberForm {
  import opened Js
  import opened Members
  import Feedback

  const Added := "Member added successfully!"
  const AddFailed := "Failed to add member."
  const Unreachable := "Network error or server unreachable."

  class Form {
    var formData: MemberFields
    var message: string
    var isError: bool

    /** The form holds a record that keeps "alive implies no date of death". */
    ghost predicate Consistent()
      reads this
    {
      DodClearedWhenAlive(formData)
    }

    constructor ()
      ensures formData == Blank && message == "" && !isError
      ensures Consistent()
    {
      formData := Blank;
      message := "";
      isError := false;
    }

    method HandleChange(field: Field, value: string)
      modifies this
      ensures formData == WithField(old(formData), field, value)
      ensures message == old(message) && isError == old(isError)
      ensures old(Consistent()) && Shown(old(formData), field) ==> Consistent()
    {
      formData := WithField(formData, field, value);
    }

    method HandleIsAliveChange(checked: bool)
      modifies this
      ensures formData == WithIsAlive(old(formData), checked)
      ensures message == old(message) && isError == old(isError)
      ensures Consistent()
    {
      formData := WithIsAlive(formData, checked);
    }

    /** The synchronous part of `handleSubmit`: clear the feedback; `body` is what is posted. */
    method BeginSubmit() returns (body: MemberFields)
      modifies this
      ensures body == formData == old(formData)
      ensures message == "" && !isError
    {
      message := "";
      isError := false;
      body := formData;
    }

    /** The response was ok: report success and reset the form to its initial record. */
    method ResponseOk()
      modifies this
      ensures message == Added && !isError
      ensures formData == Blank && Consistent()
    {
      message := Added;
      isError := false;
      formData := Blank;
    }

    /** The response was not ok: report the server's error text; the form keeps what was typed. */
    method ResponseError(serverError: Option<string>)
      modifies this
      ensures message == Feedback.ErrorText(serverError, AddFailed) && isError
      ensures formData == old(formData)
    {
      message := Feedback.ErrorText(serverError, AddFailed);
      isError := true;
    }

    /** The request could not be made. */
    method NetworkError()
      modifies this
      ensures message == Unreachable && isError
      ensures formData == old(formData)
    {
      message := Unreachable;
      isError := true;
    }
  }
}
