/**
 * The member list: whole-year age from calendar dates, the name and
 * year-range lines of each list item, and the list's state (the loaded
 * members, loading and error flags, the delete feedback and the member
 * being edited) with the writes its handlers make.
 *
 * Dates are abstract year/month/day triples numbered as JavaScript's
 * `getFullYear`, `getMonth` and `getDate` return them; turning a stored date
 * string into one is the parameter `parse`, and the current date is the
 * parameter `today`.
 */
module MemberList {
  import opened Js
  import opened Members
  import Feedback

  datatype Date = Date(year: int, month: int, day: int)

  /** `new Date(null)` is the epoch, 1 January 1970 (month 0 in JavaScript's numbering). */
  const Epoch: Date := Date(1970, 0, 1)

  /** Calendar order: year, then month, then day. */
  predicate OnOrBefore(a: Date, b: Date)
  {
    a.year < b.year || (a.year == b.year && (a.month < b.month || (a.month == b.month && a.day <= b.day)))
  }

  /** The day and month of `birth` have not yet come round in the year of `end`. */
  predicate BirthdayPending(birth: Date, end: Date)
  {
    end.month < birth.month || (end.month == birth.month && end.day < birth.day)
  }

  /** The date `n` years after `birth`. */
  function Anniversary(birth: Date, n: int): Date
  {
    Date(birth.year + n, birth.month, birth.day)
  }

  /** Whole years from `birth` to `end`: the year difference, one less while the birthday is still to come. */
  function Age(birth: Date, end: Date): (age: int)
    ensures age == end.year - birth.year || age == end.year - birth.year - 1
    ensures age == end.year - birth.year - 1 <==> BirthdayPending(birth, end)
  {
    var years := end.year - birth.year;
    if BirthdayPending(birth, end) then years - 1 else years
  }

  /** The age counts exactly the anniversaries that fall on or before the end date. */
  lemma AgeCountsAnniversaries(birth: Date, end: Date, n: int)
    ensures OnOrBefore(Anniversary(birth, n), end) <==> n <= Age(birth, end)
  {
  }

  /** In the birthday month, from the birthday on, the age is the plain year difference. */
  lemma AgeOnAnniversary(birth: Date, end: Date)
    requires end.month == birth.month && end.day >= birth.day
    ensures Age(birth, end) == end.year - birth.year
  {
  }

  /** An end date on or after the birth date gives an age of at least zero. */
  lemma AgeNonNegative(birth: Date, end: Date)
    requires OnOrBefore(birth, end)
    ensures Age(birth, end) >= 0
  {
    AgeCountsAnniversaries(birth, end, 0);
  }

  lemma OnOrBeforeTransitive(a: Date, b: Date, c: Date)
    requires OnOrBefore(a, b) && OnOrBefore(b, c)
    ensures OnOrBefore(a, c)
  {
  }

  /** A later end date never gives a smaller age. */
  lemma AgeMonotone(birth: Date, end1: Date, end2: Date)
    requires OnOrBefore(end1, end2)
    ensures Age(birth, end1) <= Age(birth, end2)
  {
    var n := Age(birth, end1);
    AgeCountsAnniversaries(birth, end1, n);
    OnOrBeforeTransitive(Anniversary(birth, n), end1, end2);
    AgeCountsAnniversaries(birth, end2, n);
  }

  /** Born 15 June 2000: 23 on 14 June 2024 and 24 on 15 June 2024; born 1 January 1990 and died 31 December 2020: 30. */
  lemma AgeExamples()
    ensures Age(Date(2000, 5, 15), Date(2024, 5, 14)) == 23
    ensures Age(Date(2000, 5, 15), Date(2024, 5, 15)) == 24
    ensures Age(Date(1990, 0, 1), Date(2020, 11, 31)) == 30
  {
  }

  /** `new Date(s)` for a possibly-null date string. */
  function DateOf(s: Option<string>, parse: string -> Date): (d: Date)
    ensures s.None? ==> d == Epoch
    ensures s.Some? ==> d == parse(s.value)
  {
    if s.Some? then parse(s.value) else Epoch
  }

  /** `calculateAge(dob, dod)`: the end date is the date of death when one is given (non-empty), else today. */
  function CalculateAge(dob: Option<string>, dod: Option<string>, parse: string -> Date, today: Date): (age: int)
    ensures Truthy(dod) ==> age == Age(DateOf(dob, parse), parse(dod.value))
    ensures !Truthy(dod) ==> age == Age(DateOf(dob, parse), today)
  {
    var end := if Truthy(dod) then parse(dod.value) else today;
    Age(DateOf(dob, parse), end)
  }

  /** With a date of death, the current date plays no part. */
  lemma CalculateAgeIgnoresTodayAfterDeath(dob: Option<string>, dod: Option<string>, parse: string -> Date, today1: Date, today2: Date)
    requires Truthy(dod)
    ensures CalculateAge(dob, dod, parse, today1) == CalculateAge(dob, dod, parse, today2)
  {
  }

  /** One entry of the list. */
  datatype MemberItem = MemberItem(name: string, years: string, age: int)

  /** The name line: first name, the middle name when there is one, last name, separated by single spaces. */
  function FullName(m: Member): (s: string)
    ensures OrElse(m.firstName, "") + " " <= s
    ensures |s| == |OrElse(m.firstName, "")| + |OrElse(m.lastName, "")|
      + (if Truthy(m.middleName) then |m.middleName.value| + 2 else 1)
    ensures s[|s| - |OrElse(m.lastName, "")|..] == OrElse(m.lastName, "")
  {
    OrElse(m.firstName, "") + " " + (if Truthy(m.middleName) then m.middleName.value + " " else "") + OrElse(m.lastName, "")
  }

  /** For names without spaces, splitting the name line on spaces gives back exactly the names shown. */
  lemma FullNameParts(m: Member)
    requires ' ' !in OrElse(m.firstName, "") && ' ' !in OrElse(m.middleName, "") && ' ' !in OrElse(m.lastName, "")
    ensures Split(FullName(m), ' ') ==
      if Truthy(m.middleName) then [OrElse(m.firstName, ""), m.middleName.value, OrElse(m.lastName, "")]
      else [OrElse(m.firstName, ""), OrElse(m.lastName, "")]
  {
    var first, last := OrElse(m.firstName, ""), OrElse(m.lastName, "");
    if Truthy(m.middleName) {
      var middle := m.middleName.value;
      JoinCons(middle, [last], ' ');
      JoinCons(first, [middle, last], ' ');
      assert [first] + [middle, last] == [first, middle, last];
      assert FullName(m) == Join([first, middle, last], ' ');
      SplitJoin([first, middle, last], ' ');
    } else {
      JoinCons(first, [last], ' ');
      assert [first] + [last] == [first, last];
      assert FullName(m) == Join([first, last], ' ');
      SplitJoin([first, last], ' ');
    }
  }

  /** The text of a year never contains a space. */
  lemma NoSpaceInNumber(n: int)
    ensures ' ' !in NumberToString(n)
  {
    var digits := NatToString(if n < 0 then -n else n);
    assert forall i :: 0 <= i < |digits| ==> digits[i] != ' ';
    if n < 0 {
      assert NumberToString(n) == "-" + digits;
    }
  }

  /** The year line: the birth year, then "Present" for a living member or the year of death. */
  function YearRange(m: Member, parse: string -> Date): (s: string)
    ensures NumberToString(DateOf(m.dob, parse).year) + " - " <= s
    ensures m.isAlive <==> !IsDigit(s[|s| - 1])
  {
    NumberToString(DateOf(m.dob, parse).year) + " - "
      + (if m.isAlive then "Present" else NumberToString(DateOf(m.dod, parse).year))
  }

  /** The year line reads "<birth year> - Present" or "<birth year> - <death year>". */
  lemma YearRangeParts(m: Member, parse: string -> Date)
    ensures Split(YearRange(m, parse), ' ') ==
      [NumberToString(DateOf(m.dob, parse).year), "-",
       if m.isAlive then "Present" else NumberToString(DateOf(m.dod, parse).year)]
  {
    var birth := NumberToString(DateOf(m.dob, parse).year);
    var end := if m.isAlive then "Present" else NumberToString(DateOf(m.dod, parse).year);
    NoSpaceInNumber(DateOf(m.dob, parse).year);
    NoSpaceInNumber(DateOf(m.dod, parse).year);
    JoinCons("-", [end], ' ');
    JoinCons(birth, ["-", end], ' ');
    assert [birth] + ["-", end] == [birth, "-", end];
    assert YearRange(m, parse) == Join([birth, "-", end], ' ');
    SplitJoin([birth, "-", end], ' ');
  }

  /** The list item for one member; the age passes the date of death only for a member who is not alive. */
  function ItemOf(m: Member, parse: string -> Date, today: Date): (item: MemberItem)
    ensures item.name == FullName(m) && item.years == YearRange(m, parse)
    ensures m.isAlive ==> item.age == Age(DateOf(m.dob, parse), today)
    ensures !m.isAlive && Truthy(m.dod) ==> item.age == Age(DateOf(m.dob, parse), parse(m.dod.value))
    ensures !m.isAlive && !Truthy(m.dod) ==> item.age == Age(DateOf(m.dob, parse), today)
  {
    MemberItem(FullName(m), YearRange(m, parse), CalculateAge(m.dob, if m.isAlive then None else m.dod, parse, today))
  }

  /** What the component's body shows below the feedback banner. */
  datatype Body = EditingMember(member: Member) | NoMembers | MemberItems(items: seq<MemberItem>)

  datatype Screen = LoadingScreen | ErrorScreen(text: string) | Page(banner: Option<Feedback.Banner>, body: Body)

  const Deleted := "Member deleted successfully!"
  const DeleteFailed := "Failed to delete member."
  const DeleteUnreachable := "Network error or server unreachable during delete."

  /** The start of the error thrown when the member list request answers with a non-ok status. */
  const HttpStatusPrefix := "HTTP error! status: "

  class View {
    var members: seq<Member>
    var loading: bool
    var error: Option<string>
    var deleteMessage: string
    var isDeleteError: bool
    var editingMember: Option<Member>

    constructor ()
      ensures members == [] && loading && error == None
      ensures deleteMessage == "" && !isDeleteError && editingMember == None
    {
      members := [];
      loading := true;
      error := None;
      deleteMessage := "";
      isDeleteError := false;
      editingMember := None;
    }

    /** The synchronous part of `refreshMembers`: loading, with the error and the delete feedback cleared. */
    method BeginRefresh()
      modifies this
      ensures loading && error == None && deleteMessage == "" && !isDeleteError
      ensures members == old(members) && editingMember == old(editingMember)
    {
      loading := true;
      error := None;
      deleteMessage := "";
      isDeleteError := false;
    }

    /** The member list arrived. */
    method RefreshOk(data: seq<Member>)
      modifies this
      ensures members == data && !loading
      ensures error == old(error) && deleteMessage == old(deleteMessage)
      ensures isDeleteError == old(isDeleteError) && editingMember == old(editingMember)
    {
      members := data;
      loading := false;
    }

    /** The request failed with `reason` (a network error, or `StatusError(HttpStatusPrefix, status)`). */
    method RefreshFailed(reason: string)
      modifies this
      ensures error == Some(reason) && !loading
      ensures members == old(members) && deleteMessage == old(deleteMessage)
      ensures isDeleteError == old(isDeleteError) && editingMember == old(editingMember)
    {
      error := Some(reason);
      loading := false;
    }

    /** The request answered with a non-ok status: the thrown error's text is recorded. */
    method RefreshNotOk(status: int)
      modifies this
      ensures error == Some(StatusError(HttpStatusPrefix, status)) && !loading
      ensures members == old(members) && deleteMessage == old(deleteMessage)
      ensures isDeleteError == old(isDeleteError) && editingMember == old(editingMember)
    {
      RefreshFailed(StatusError(HttpStatusPrefix, status));
    }

    /**
     * The synchronous part of `handleDelete`: nothing happens unless the user
     * confirmed; otherwise the delete feedback is cleared and `sent` is true.
     */
    method BeginDelete(confirmed: bool) returns (sent: bool)
      modifies this
      ensures sent == confirmed
      ensures sent ==> deleteMessage == "" && !isDeleteError
      ensures !sent ==> deleteMessage == old(deleteMessage) && isDeleteError == old(isDeleteError)
      ensures members == old(members) && loading == old(loading) && error == old(error)
      ensures editingMember == old(editingMember)
    {
      sent := confirmed;
      if confirmed {
        deleteMessage := "";
        isDeleteError := false;
      }
    }

    /** The delete succeeded; the awaited refresh has already run, so its clearing comes before this message. */
    method DeleteOk()
      modifies this
      ensures deleteMessage == Deleted && !isDeleteError
      ensures members == old(members) && loading == old(loading) && error == old(error)
      ensures editingMember == old(editingMember)
    {
      deleteMessage := Deleted;
      isDeleteError := false;
    }

    method DeleteError(serverError: Option<string>)
      modifies this
      ensures deleteMessage == Feedback.ErrorText(serverError, DeleteFailed) && isDeleteError
      ensures members == old(members) && loading == old(loading) && error == old(error)
      ensures editingMember == old(editingMember)
    {
      deleteMessage := Feedback.ErrorText(serverError, DeleteFailed);
      isDeleteError := true;
    }

    method DeleteNetworkError()
      modifies this
      ensures deleteMessage == DeleteUnreachable && isDeleteError
      ensures members == old(members) && loading == old(loading) && error == old(error)
      ensures editingMember == old(editingMember)
    {
      deleteMessage := DeleteUnreachable;
      isDeleteError := true;
    }

    method HandleEdit(member: Member)
      modifies this
      ensures editingMember == Some(member)
      ensures members == old(members) && loading == old(loading) && error == old(error)
      ensures deleteMessage == old(deleteMessage) && isDeleteError == old(isDeleteError)
    {
      editingMember := Some(member);
    }

    method HandleEditCancel()
      modifies this
      ensures editingMember == None
      ensures members == old(members) && loading == old(loading) && error == old(error)
      ensures deleteMessage == old(deleteMessage) && isDeleteError == old(isDeleteError)
    {
      editingMember := None;
    }

    /** Close the edit form and start a refresh (not awaited, so only its synchronous writes happen here). */
    method HandleEditSuccess()
      modifies this
      ensures editingMember == None
      ensures loading && error == None && deleteMessage == "" && !isDeleteError
      ensures members == old(members)
    {
      editingMember := None;
      BeginRefresh();
    }

    /** What the component renders in its current state. */
    function Render(parse: string -> Date, today: Date): (s: Screen)
      reads this
      ensures loading <==> s == LoadingScreen
      ensures !loading && Truthy(error) <==> s.ErrorScreen?
      ensures s.ErrorScreen? ==> s.text == "Error: " + error.value
      ensures s.Page? ==> s.banner == Feedback.BannerOf(deleteMessage, isDeleteError)
      ensures s.Page? ==> (s.body.EditingMember? <==> editingMember.Some?)
      ensures s.Page? && editingMember.Some? ==> s.body.member == editingMember.value
      ensures s.Page? && editingMember.None? ==> (s.body.NoMembers? <==> |members| == 0)
      ensures s.Page? && s.body.MemberItems? ==>
        |s.body.items| == |members| && forall i :: 0 <= i < |members| ==> s.body.items[i] == ItemOf(members[i], parse, today)
    {
      if loading then LoadingScreen
      else if Truthy(error) then ErrorScreen("Error: " + error.value)
      else
        var body :=
          if editingMember.Some? then EditingMember(editingMember.value)
          else if |members| == 0 then NoMembers
          else MemberItems(seq(|members|, i requires 0 <= i < |members| reads this => ItemOf(members[i], parse, today)));
        Page(Feedback.BannerOf(deleteMessage, isDeleteError), body)
    }
  }
}
