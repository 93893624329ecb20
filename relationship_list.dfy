/**
 * The relationship list: the sentence each relationship is shown as, which
 * view is shown, and the list's state (the loaded relationships, loading and
 * error flags, the feedback message and the relationship being edited) with
 * the writes its handlers make.
 */
module RelationshipList {
  import opened Js
  import opened Relationships
  import Feedback

  /** "<first> <last> is the <type> of <first> <last>.", member 1 first. */
  function Sentence(r: Relationship): (s: string)
    ensures r.member1FirstName + " " <= s
    ensures s[|s| - 1] == '.'
  {
    r.member1FirstName + " " + r.member1LastName + " is the " + r.relationshipTypeName + " of "
      + r.member2FirstName + " " + r.member2LastName + "."
  }

  /** No name or type label of the relationship contains a space. */
  predicate SingleWords(r: Relationship)
  {
    && ' ' !in r.member1FirstName && ' ' !in r.member1LastName
    && ' ' !in r.relationshipTypeName
    && ' ' !in r.member2FirstName && ' ' !in r.member2LastName
  }

  /** For single-word names, the sentence splits into member 1's names, "is the", the type, "of", member 2's names. */
  lemma SentenceParts(r: Relationship)
    requires SingleWords(r)
    ensures Split(Sentence(r), ' ') ==
      [r.member1FirstName, r.member1LastName, "is", "the", r.relationshipTypeName, "of",
       r.member2FirstName, r.member2LastName + "."]
  {
    var parts := [r.member1FirstName, r.member1LastName, "is", "the", r.relationshipTypeName, "of",
                  r.member2FirstName, r.member2LastName + "."];
    assert parts[7..] == [parts[7]];
    JoinFrom(parts, 6, ' ');
    JoinFrom(parts, 5, ' ');
    JoinFrom(parts, 4, ' ');
    JoinFrom(parts, 3, ' ');
    JoinFrom(parts, 2, ' ');
    JoinFrom(parts, 1, ' ');
    JoinFrom(parts, 0, ' ');
    assert parts[0..] == parts;
    assert Sentence(r) == Join(parts, ' ');
    SplitJoin(parts, ' ');
  }

  /**
   * The sentence is directed: for single-word names, two relationships read
   * the same only when member 1, the type and member 2 all show the same names,
   * so swapping the members changes the sentence unless their names coincide.
   */
  lemma SentenceDetermined(a: Relationship, b: Relationship)
    requires SingleWords(a) && SingleWords(b)
    requires Sentence(a) == Sentence(b)
    ensures a.member1FirstName == b.member1FirstName && a.member1LastName == b.member1LastName
    ensures a.relationshipTypeName == b.relationshipTypeName
    ensures a.member2FirstName == b.member2FirstName && a.member2LastName == b.member2LastName
  {
    SentenceParts(a);
    SentenceParts(b);
    var x, y := a.member2LastName + ".", b.member2LastName + ".";
    assert x[..|x| - 1] == a.member2LastName;
    assert y[..|y| - 1] == b.member2LastName;
  }

  /** What the component's body shows below the feedback banner. */
  datatype Body = EditingRelationship(relationship: Relationship) | NoRelationships | RelationshipItems(items: seq<string>)

  datatype Screen = LoadingScreen | ErrorScreen(text: string) | Page(banner: Option<Feedback.Banner>, body: Body)

  const Updated := "Relationship updated successfully!"
  const DeleteFailed := "Failed to delete relationship."
  const DeleteUnreachable := "Network error or server unreachable during deletion."

  /** The start of the error thrown when the relationship list request answers with a non-ok status. */
  const FetchStatusPrefix := "Failed to fetch relationships: "

  class View {
    var relationships: seq<Relationship>
    var loading: bool
    var error: Option<string>
    var message: string
    var isError: bool
    var editingRelationship: Option<Relationship>

    constructor ()
      ensures relationships == [] && loading && error == None
      ensures message == "" && !isError && editingRelationship == None
    {
      relationships := [];
      loading := true;
      error := None;
      message := "";
      isError := false;
      editingRelationship := None;
    }

    /** The synchronous part of the fetch effect (run on mount and whenever the trigger or the edited relationship changes). */
    method BeginFetch()
      modifies this
      ensures message == "" && !isError
      ensures relationships == old(relationships) && loading == old(loading) && error == old(error)
      ensures editingRelationship == old(editingRelationship)
    {
      message := "";
      isError := false;
    }

    method FetchOk(data: seq<Relationship>)
      modifies this
      ensures relationships == data && !loading
      ensures error == old(error) && message == old(message) && isError == old(isError)
      ensures editingRelationship == old(editingRelationship)
    {
      relationships := data;
      loading := false;
    }

    /** The fetch failed with `reason` (a network error, or `StatusError(FetchStatusPrefix, status)`). */
    method FetchFailed(reason: string)
      modifies this
      ensures error == Some(reason) && !loading
      ensures message == "Error fetching relationships: " + reason && isError
      ensures relationships == old(relationships) && editingRelationship == old(editingRelationship)
    {
      error := Some(reason);
      loading := false;
      message := "Error fetching relationships: " + reason;
      isError := true;
    }

    /** The request answered with a non-ok status: the thrown error's text is recorded and reported. */
    method FetchNotOk(status: int)
      modifies this
      ensures error == Some(StatusError(FetchStatusPrefix, status)) && !loading
      ensures message == "Error fetching relationships: " + StatusError(FetchStatusPrefix, status) && isError
      ensures relationships == old(relationships) && editingRelationship == old(editingRelationship)
    {
      FetchFailed(StatusError(FetchStatusPrefix, status));
    }

    /**
     * The synchronous part of `handleDelete`: the feedback is cleared first,
     * whether or not the user confirms; `sent` says whether the DELETE goes out.
     */
    method BeginDelete(confirmed: bool) returns (sent: bool)
      modifies this
      ensures sent == confirmed
      ensures message == "" && !isError
      ensures relationships == old(relationships) && loading == old(loading) && error == old(error)
      ensures editingRelationship == old(editingRelationship)
    {
      message := "";
      isError := false;
      sent := confirmed;
    }

    /** The delete succeeded with the server's confirmation text; the caller then bumps the refresh trigger. */
    method DeleteOk(serverMessage: string)
      modifies this
      ensures message == "Relationship deleted: " + serverMessage && !isError
      ensures relationships == old(relationships) && loading == old(loading) && error == old(error)
      ensures editingRelationship == old(editingRelationship)
    {
      message := "Relationship deleted: " + serverMessage;
      isError := false;
    }

    method DeleteError(serverError: Option<string>)
      modifies this
      ensures message == Feedback.ErrorText(serverError, DeleteFailed) && isError
      ensures relationships == old(relationships) && loading == old(loading) && error == old(error)
      ensures editingRelationship == old(editingRelationship)
    {
      message := Feedback.ErrorText(serverError, DeleteFailed);
      isError := true;
    }

    method DeleteNetworkError()
      modifies this
      ensures message == DeleteUnreachable && isError
      ensures relationships == old(relationships) && loading == old(loading) && error == old(error)
      ensures editingRelationship == old(editingRelationship)
    {
      message := DeleteUnreachable;
      isError := true;
    }

    method HandleEdit(r: Relationship)
      modifies this
      ensures editingRelationship == Some(r)
      ensures relationships == old(relationships) && loading == old(loading) && error == old(error)
      ensures message == old(message) && isError == old(isError)
    {
      editingRelationship := Some(r);
    }

    /** The edit form reported success: close it and report success; the caller then bumps the refresh trigger. */
    method HandleRelationshipUpdated()
      modifies this
      ensures editingRelationship == None
      ensures message == Updated && !isError
      ensures relationships == old(relationships) && loading == old(loading) && error == old(error)
    {
      editingRelationship := None;
      message := Updated;
      isError := false;
    }

    method HandleCancelEdit()
      modifies this
      ensures editingRelationship == None
      ensures message == "" && !isError
      ensures relationships == old(relationships) && loading == old(loading) && error == old(error)
    {
      editingRelationship := None;
      message := "";
      isError := false;
    }

    /** What the component renders in its current state. */
    function Render(): (s: Screen)
      reads this
      ensures loading <==> s == LoadingScreen
      ensures !loading && Truthy(error) <==> s.ErrorScreen?
      ensures s.ErrorScreen? ==> s.text == "Error: " + error.value
      ensures s.Page? ==> s.banner == Feedback.BannerOf(message, isError)
      ensures s.Page? ==> (s.body.EditingRelationship? <==> editingRelationship.Some?)
      ensures s.Page? && editingRelationship.Some? ==> s.body.relationship == editingRelationship.value
      ensures s.Page? && editingRelationship.None? ==> (s.body.NoRelationships? <==> |relationships| == 0)
      ensures s.Page? && s.body.RelationshipItems? ==>
        |s.body.items| == |relationships| && forall i :: 0 <= i < |relationships| ==> s.body.items[i] == Sentence(relationships[i])
    {
      if loading then LoadingScreen
      else if Truthy(error) then ErrorScreen("Error: " + error.value)
      else
        var body :=
          if editingRelationship.Some? then EditingRelationship(editingRelationship.value)
          else if |relationships| == 0 then NoRelationships
          else RelationshipItems(seq(|relationships|, i requires 0 <= i < |relationships| reads this => Sentence(relationships[i])));
        Page(Feedback.BannerOf(message, isError), body)
    }
  }
}
