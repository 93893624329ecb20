# Family tree front end: form and list state, in Dafny

This project models the client-side logic of the family-tree front end in
`src/components/`. The app has two forms for members (add, edit), two forms
for relationships (add, edit), and two lists (members, relationships).

- **Member forms.** Both keep a record `{first_name, middle_name, last_name, dob, dod, is_alive}`.
  A per-field `handleChange` updates one field. An `is_alive` toggle clears `dod` once the member is alive.
  Submission clears the feedback, and the response then resets the form (add form) or reports the result.
- **Relationship forms.** Both keep `{member_id_1, member_id_2, relationship_type_id}` and have a per-field updater.
  A guard refuses to submit when both member ids are equal.
- **Member list.** It shows each member's full name, a "YYYY - Present" or "YYYY - YYYY" year range, and a whole-year age.
  It switches between the edit form, the empty view and the list of items. It also keeps the delete feedback.
- **Relationship list.** It shows "A B is the T of C D." for each relationship, switches between the edit form,
  the empty view and the items, and keeps its own feedback message.

Each component whose state changes over time is a class (`Form` or `View`) with the fields its `useState` hooks hold.
Each handler is a method whose `ensures` gives the entire new state.
A `handleSubmit` with an `await` is split in two:
- `BeginSubmit`, `BeginDelete`, `BeginRefresh` and `BeginFetch` are the writes made before the request goes out.
- `ResponseOk` / `ResponseError` / `NetworkError` (and the `Delete…` and `Fetch…` variants) are the writes made when it settles.

Record construction and view selection are pure functions, and the properties worth proving about them are lemmas.

Shared modules:
- `Js`: `null` as `Option`; values that are a number or a string; truthiness; `a || b`; `String(n)` for integers, with its inverse;
  `split`/`join`, with the lemmas that they invert each other.
- `Feedback`: the `Error: ${errorData.error || fallback}` text and the message banner.
- `Members` and `Relationships`: the record and updaters that the two forms of each kind define identically.

Inputs the model takes as parameters instead of computing:
- the current date, `today`;
- JavaScript's date parsing, `parse: string -> Date`, and the text of `new Date(s).toISOString()`, `iso: string -> string`;
- the user's answer to `window.confirm`, a `confirmed` flag;
- every server response: its status, its `error` text, or the data it carries.

These files contain no back end: the data is stored, validated and deleted by the server they call. The
client never checks that `dod` is on or after `dob`, or that a referenced id exists, so the model does not either.

## Model

| member | source | states |
|---|---|---|
| `MemberList.Age` | src/components/MemberList.jsx:11-20 | the age is the year difference or one less, and exactly one less when (end month, end day) comes before (birth month, birth day) |
| `MemberList.AgeCountsAnniversaries` | src/components/MemberList.jsx:11-20 | independent characterisation: the n-th birthday falls on or before the end date exactly when n is at most the age, so the age is the number of completed years |
| `MemberList.AgeOnAnniversary` | src/components/MemberList.jsx:15-18 | in the birth month, from the birth day on, there is no decrement: age = year difference |
| `MemberList.AgeNonNegative` | src/components/MemberList.jsx:7-22 | an end date on or after the birth date gives a non-negative age |
| `MemberList.AgeMonotone` | src/components/MemberList.jsx:7-22 | a later end date never gives a smaller age |
| `MemberList.AgeExamples` | src/components/MemberList.jsx:7-22 | born 2000-06-15: 23 on 2024-06-14 and 24 on 2024-06-15; born 1990-01-01, died 2020-12-31: 30 |
| `MemberList.DateOf` | src/components/MemberList.jsx:8-9 | `new Date(null)` is the epoch, 1 January 1970; a date string is read with the given parser |
| `MemberList.CalculateAge` | src/components/MemberList.jsx:7-22 | the end date is the date of death when one is given (null and "" count as not given); otherwise it is today |
| `MemberList.CalculateAgeIgnoresTodayAfterDeath` | src/components/MemberList.jsx:9 | with a date of death given, the result does not depend on today |
| `MemberList.FullName` | src/components/MemberList.jsx:168-170 | the name line starts with the first name and a space and ends with the last name; its length adds the middle name and a second space exactly when the middle name is truthy |
| `MemberList.FullNameParts` | src/components/MemberList.jsx:168-170 | for names without spaces, splitting the name line on spaces gives [first, middle, last], or [first, last] when there is no middle name: one single space between parts |
| `MemberList.YearRange` | src/components/MemberList.jsx:173-177 | the year line starts with the birth year and " - ", and ends in a digit (the death year) exactly when the member is not alive; otherwise it ends in "Present" |
| `MemberList.YearRangeParts` | src/components/MemberList.jsx:173-177 | the year line splits into [birth year, "-", "Present"] for a living member, or [birth year, "-", death year] otherwise |
| `MemberList.ItemOf` | src/components/MemberList.jsx:166-184 | an item shows the full name and the year line; its age uses the date of death only for a member who is not alive, and uses today for a living one even if a date is recorded |
| `MemberList.View.constructor` | src/components/MemberList.jsx:25-30 | initial state: no members, loading, no error, no delete feedback, not editing |
| `MemberList.View.BeginRefresh` | src/components/MemberList.jsx:33-37 | refreshing sets loading, clears the error, and clears `deleteMessage`/`isDeleteError`; members and the edited member are untouched |
| `MemberList.View.RefreshOk` | src/components/MemberList.jsx:44-51 | the fetched members replace the list and loading ends; nothing else changes |
| `MemberList.View.RefreshFailed` | src/components/MemberList.jsx:41-50 | the error text is recorded and loading ends; the list is kept |
| `Js.StatusError` | src/components/MemberList.jsx:41-43 | the error thrown for a non-ok answer is a fixed prefix followed by the status ("HTTP error! status: " here, "Failed to fetch relationships: " in RelationshipList.jsx:20-22) |
| `Js.StatusErrorDeterminesStatus` | src/components/MemberList.jsx:41-43 | under one prefix, two statuses give the same error text only when they are equal |
| `MemberList.View.RefreshNotOk` | src/components/MemberList.jsx:41-50 | a non-ok answer records "HTTP error! status: " followed by the status as the error and ends loading; the list is kept |
| `MemberList.View.BeginDelete` | src/components/MemberList.jsx:59-65 | an unconfirmed delete changes nothing and sends nothing; a confirmed one clears the delete feedback first |
| `MemberList.View.DeleteOk` | src/components/MemberList.jsx:75-81 | after the awaited refresh, the message is "Member deleted successfully!" and is not an error |
| `MemberList.View.DeleteError` | src/components/MemberList.jsx:82-89 | the message is the server's error text, or "Failed to delete member."; it is an error |
| `MemberList.View.DeleteNetworkError` | src/components/MemberList.jsx:90-94 | the network-failure message is set and it is an error |
| `MemberList.View.HandleEdit` | src/components/MemberList.jsx:99-101 | the given member becomes the edited member; nothing else changes |
| `MemberList.View.HandleEditCancel` | src/components/MemberList.jsx:104-106 | `editingMember` becomes null; nothing else changes |
| `MemberList.View.HandleEditSuccess` | src/components/MemberList.jsx:109-113 | `editingMember` becomes null, and the refresh has started: loading, no error, no delete feedback |
| `MemberList.View.Render` | src/components/MemberList.jsx:116-207 | loading shows the loading view; an error shows "Error: …"; otherwise the banner shows iff `deleteMessage` is non-empty, the edit form shows iff a member is being edited, the empty view shows iff not editing and there are no members, and otherwise there is one item per member, in order |
| `Members.Blank` | src/components/AddMemberForm.jsx:7-14 | the initial record: three empty names, an empty `dob`, a null `dod`, and alive |
| `Members.Shown` | src/components/AddMemberForm.jsx:197-215 | the rendering rule: the `dod` input exists only while not alive; every other input always does |
| `Members.BlankKeepsInvariant` | src/components/AddMemberForm.jsx:7-14 | the initial record is alive with a null `dod`, so "alive implies dod null" holds |
| `Members.SameFieldsSameRecord` | src/components/AddMemberForm.jsx:20-26 | the five text inputs and the flag determine the record, so the updaters' field-by-field `ensures` pin down the whole new record |
| `Members.WithField` | src/components/AddMemberForm.jsx:20-26 | `handleChange` sets the named field to the typed value and leaves every other field and the checkbox unchanged |
| `Members.WithIsAlive` | src/components/AddMemberForm.jsx:29-36 | the flag takes the new value; `dod` becomes null when alive and is kept when not; names and `dob` are unchanged; the result always satisfies "alive implies dod null" |
| `Members.ChangeKeepsInvariant` | src/components/AddMemberForm.jsx:197-215 | editing an input that is on screen (the `dod` input only while not alive) keeps "alive implies dod null" |
| `Members.HiddenDodChangeBreaksInvariant` | src/components/AddMemberForm.jsx:197-215 | without that rendering rule, `handleChange` on `dod` would break the invariant |
| `Members.RunKeepsInvariant` | src/components/AddMemberForm.jsx:20-36 | any sequence of edits and toggles offered by the rendered form keeps "alive implies dod null" |
| `AddMemberForm.Form.constructor` | src/components/AddMemberForm.jsx:7-17 | starts from the initial record, with no message and no error |
| `AddMemberForm.Form.HandleChange` | src/components/AddMemberForm.jsx:20-26 | record updated as in `Members.WithField`; feedback untouched; the invariant is kept when the input is on screen |
| `AddMemberForm.Form.HandleIsAliveChange` | src/components/AddMemberForm.jsx:29-36 | record updated as in `Members.WithIsAlive`; the invariant holds afterwards |
| `AddMemberForm.Form.BeginSubmit` | src/components/AddMemberForm.jsx:39-53 | clears the message and `isError`; the body posted is the current record |
| `AddMemberForm.Form.ResponseOk` | src/components/AddMemberForm.jsx:55-68 | success message, `isError` false, and the record reset to exactly the initial record |
| `AddMemberForm.Form.ResponseError` | src/components/AddMemberForm.jsx:69-74 | `isError` true with the server's text, or "Failed to add member."; the record is unchanged |
| `AddMemberForm.Form.NetworkError` | src/components/AddMemberForm.jsx:75-79 | the network-failure message with `isError` true; the record is unchanged |
| `EditMemberForm.DatePart` | src/components/EditMemberForm.jsx:26 | `split("T")[0]` is the longest prefix of the timestamp without a "T": it is followed by "T" or ends the string, and a string without "T" is kept whole |
| `EditMemberForm.DatePartOfTimestamp` | src/components/EditMemberForm.jsx:26 | the date part of `date + "T" + time` is `date` |
| `EditMemberForm.Populated` | src/components/EditMemberForm.jsx:21-32 | missing names become ""; `dob` is "" when absent and otherwise exactly the date part of its `toISOString` text; `dod` is null when absent and otherwise exactly the date part of its text; `is_alive` is copied |
| `EditMemberForm.DatePartOfIso` | src/components/EditMemberForm.jsx:26 | the date part of a well-formed `toISOString` text "YYYY-MM-DDTHH:mm:ss.sssZ" is its first ten characters |
| `EditMemberForm.PopulatedKeepsInvariantIff` | src/components/EditMemberForm.jsx:28-31 | populating does not enforce "alive implies dod null": the filled record keeps it exactly when the server's record does |
| `EditMemberForm.PopulatedBirthDate` | src/components/EditMemberForm.jsx:25-27 | a birth date whose ISO text is well formed fills the `dob` input with its "YYYY-MM-DD" part, whatever else the member has recorded |
| `EditMemberForm.PopulatedDeathDate` | src/components/EditMemberForm.jsx:28-30 | a date of death whose ISO text is well formed fills `dod` with its "YYYY-MM-DD" part |
| `EditMemberForm.Form.constructor` | src/components/EditMemberForm.jsx:6-16 | keeps the `memberToEdit` prop and starts from the blank record, with no message and no error |
| `EditMemberForm.Form.Load` | src/components/EditMemberForm.jsx:19-36 | the prop is recorded; with a member to edit, the record is the populated one and the message and `isError` are cleared; without one, nothing else changes |
| `EditMemberForm.Form.HandleChange` | src/components/EditMemberForm.jsx:38-44 | only the named field changes; the invariant is kept when the input is on screen |
| `EditMemberForm.Form.HandleIsAliveChange` | src/components/EditMemberForm.jsx:46-53 | `dod` is nulled when alive and kept otherwise; the invariant holds afterwards |
| `EditMemberForm.Form.BeginSubmit` | src/components/EditMemberForm.jsx:55-70 | clears the feedback and sends the current record to the edited member's id; with no member, the id lookup throws inside the `try` and the network-failure message is shown, with nothing sent |
| `EditMemberForm.Form.ResponseOk` | src/components/EditMemberForm.jsx:72-77 | success message with `isError` false; the record is unchanged |
| `EditMemberForm.Form.ResponseError` | src/components/EditMemberForm.jsx:78-83 | `isError` true with the server's text, or "Failed to update member." |
| `EditMemberForm.Form.NetworkError` | src/components/EditMemberForm.jsx:84-88 | the network-failure message with `isError` true |
| `Feedback.ErrorText` | src/components/AddMemberForm.jsx:72 | the failure text is "Error: " followed by the server's error when it is non-empty, else by the fallback |
| `Feedback.BannerOf` | src/components/AddMemberForm.jsx:89-97 | a banner is shown exactly when the message is non-empty, and it carries the message and the error flag |
| `Relationships.Blank` | src/components/AddRelationshipForm.jsx:8-12 | the add form's initial and reset record: all three selections "" |
| `Relationships.SameFieldsSameRecord` | src/components/AddRelationshipForm.jsx:54-60 | the three selections determine the record, so the updater's field-by-field `ensures` pin down the whole new record |
| `Relationships.WithField` | src/components/AddRelationshipForm.jsx:54-60 | `handleChange` sets the named selection to the chosen string and leaves the other two unchanged |
| `Relationships.FromRelationship` | src/components/EditRelationshipForm.jsx:11-15 | each field is taken from the relationship, with a falsy or missing id replaced by "" |
| `Relationships.FromRelationshipFields` | src/components/EditRelationshipForm.jsx:11-15 | every initial field is either "" or the relationship's own truthy id |
| `Relationships.SameMemberStrict` | src/components/AddRelationshipForm.jsx:68 | the guard as written: `member_id_1 === member_id_2`, which is false between a number and a string |
| `Relationships.SameMember` | src/components/EditRelationshipForm.jsx:65 | the guard as intended: both selections show the same text, whatever type holds the id |
| `Relationships.GuardsAgreeOnText` | src/components/AddRelationshipForm.jsx:68 | when every selection is a string, as always in the add form, the source's `===` guard and the text comparison agree |
| `Relationships.StrictGuardImpliesGuard` | src/components/EditRelationshipForm.jsx:65 | the text comparison refuses everything the `===` guard refuses |
| `Relationships.SameMemberOnNumbers` | src/components/EditRelationshipForm.jsx:65-71 | on two numeric ids, the text comparison is numeric equality (`String(n)` is injective) |
| `Relationships.SameMemberNumberAndText` | src/components/EditRelationshipForm.jsx:65-71 | a numeric id and a selected string name the same member exactly when the string is the number's text |
| `Relationships.StrictGuardMissesNumericId` | src/components/EditRelationshipForm.jsx:65-71 | counterexample: ids 3 and 5 from the server, then member 2 re-selected as "3"; `===` lets it through, and the text comparison refuses it |
| `AddRelationshipForm.Form.constructor` | src/components/AddRelationshipForm.jsx:8-16 | all three selections are "", with no message and no error |
| `AddRelationshipForm.Form.HandleChange` | src/components/AddRelationshipForm.jsx:54-60 | only the named selection changes; feedback untouched |
| `AddRelationshipForm.Form.BeginSubmit` | src/components/AddRelationshipForm.jsx:62-83 | clears the feedback; when `member_id_1 === member_id_2` (two "" included), the fixed error is set, `isError` is true and no request is made; otherwise the record is posted with the feedback clear |
| `AddRelationshipForm.Form.ResponseOk` | src/components/AddRelationshipForm.jsx:85-94 | all three fields are "", `isError` is false, and the success message is set |
| `AddRelationshipForm.Form.ResponseError` | src/components/AddRelationshipForm.jsx:98-105 | record unchanged; `isError` true with the server's text, or "Failed to add relationship." |
| `AddRelationshipForm.Form.NetworkError` | src/components/AddRelationshipForm.jsx:106-112 | record unchanged; network-failure message with `isError` true |
| `EditRelationshipForm.Form.constructor` | src/components/EditRelationshipForm.jsx:4-19 | the record is `FromRelationship` of the relationship being edited, with no message and no error |
| `EditRelationshipForm.Form.HandleChange` | src/components/EditRelationshipForm.jsx:51-57 | only the named selection changes |
| `EditRelationshipForm.Form.BeginSubmit` | src/components/EditRelationshipForm.jsx:59-83 | clears the feedback; when both selections name the same member, the fixed error is set and no request is made; otherwise the record is sent. Uses the corrected guard; see Findings |
| `EditRelationshipForm.Form.ResponseOk` | src/components/EditRelationshipForm.jsx:85-91 | success message, `isError` false; the record is unchanged |
| `EditRelationshipForm.Form.ResponseError` | src/components/EditRelationshipForm.jsx:92-99 | `isError` true with the server's text, or "Failed to update relationship." |
| `EditRelationshipForm.Form.NetworkError` | src/components/EditRelationshipForm.jsx:100-106 | network-failure message with `isError` true |
| `RelationshipList.Sentence` | src/components/RelationshipList.jsx:142-155 | the sentence begins with member 1's first name and a space and ends with "." |
| `RelationshipList.SentenceParts` | src/components/RelationshipList.jsx:142-155 | for single-word names, the sentence splits into member 1's names, "is", "the", the type, "of", then member 2's names with the final "." |
| `RelationshipList.SentenceDetermined` | src/components/RelationshipList.jsx:142-155 | for names and type labels without spaces, the sentence is directed: two relationships read the same only if member 1, the type and member 2 show the same names, so member 1 is always the one named first |
| `RelationshipList.View.constructor` | src/components/RelationshipList.jsx:7-12 | initial state: no relationships, loading, no error, no message, not editing |
| `RelationshipList.View.BeginFetch` | src/components/RelationshipList.jsx:14-17 | the fetch effect first clears the message and `isError` |
| `RelationshipList.View.FetchOk` | src/components/RelationshipList.jsx:18-25 | the fetched relationships replace the list and loading ends |
| `RelationshipList.View.FetchFailed` | src/components/RelationshipList.jsx:20-32 | the error is recorded, loading ends, and the message "Error fetching relationships: …" is set as an error |
| `RelationshipList.View.FetchNotOk` | src/components/RelationshipList.jsx:20-31 | a non-ok answer records "Failed to fetch relationships: " followed by the status as the error, ends loading, and reports "Error fetching relationships: " with that text as an error |
| `RelationshipList.View.BeginDelete` | src/components/RelationshipList.jsx:38-41 | the message and `isError` are cleared before the confirmation; the request goes out exactly when confirmed |
| `RelationshipList.View.DeleteOk` | src/components/RelationshipList.jsx:50-57 | "Relationship deleted: " followed by the server's text, as a non-error |
| `RelationshipList.View.DeleteError` | src/components/RelationshipList.jsx:58-65 | `isError` true with the server's text, or "Failed to delete relationship." |
| `RelationshipList.View.DeleteNetworkError` | src/components/RelationshipList.jsx:66-73 | network-failure message with `isError` true |
| `RelationshipList.View.HandleEdit` | src/components/RelationshipList.jsx:78-80 | the relationship becomes `editingRelationship`; nothing else changes |
| `RelationshipList.View.HandleRelationshipUpdated` | src/components/RelationshipList.jsx:83-92 | `editingRelationship` becomes null, with the success message and `isError` false |
| `RelationshipList.View.HandleCancelEdit` | src/components/RelationshipList.jsx:95-99 | `editingRelationship` becomes null, and the message and `isError` are cleared |
| `RelationshipList.View.Render` | src/components/RelationshipList.jsx:101-175 | loading, then error, take precedence; otherwise the banner shows iff the message is non-empty, the edit form shows iff a relationship is being edited, the empty view shows iff not editing and the list is empty, and otherwise there is one sentence per relationship, in order |

## Left out

- Network and async. `fetch`, `response.json()`, `await` and the callbacks to the parent (`onSuccess`, `onRelationshipAdded`, `onRelationshipUpdated`, `onRelationshipDeleted`) are not modelled.
  Each response is a separate method. The caller runs them in the order the source awaits.
  A failure while reading the body of an ok response, which lands in the `catch`, is not modelled.
- Effect scheduling. The relationship list re-runs its fetch when `editingRelationship` changes. The model exposes that fetch as `BeginFetch` and leaves the call order to the caller.
  As a result, the model does not show that the message written by `HandleRelationshipUpdated` is cleared again by the next `BeginFetch` run.
- The dropdown data of the relationship forms: the `members`, `relationshipTypes`, `loading` and `error` state, and their fetch.
  Because the options are not modelled, `HandleChange` accepts any string.
- JavaScript `Date`: parsing, `toISOString` and local time against UTC. Dates are abstract triples, and `parse`, `iso` and `today` are parameters.
  `new Date(null)` is taken as 1 January 1970 without the time-zone shift.
  An invalid date, which would give `NaN`, is not modelled.
- EditMemberForm.Populated: the text of `new Date(s).toISOString()` is the parameter `iso`, so the model does not say what that text is for a given server string.
  - A date-time without an offset is read as local time, so its ISO (UTC) date can differ from the date written by a day. The model does not capture this.
  - An unparseable string makes `toISOString` throw a `RangeError` inside the effect, and the form is never filled. The model instead fills in whatever `iso` returns.
  - Years outside 0 to 9999, which `toISOString` writes with six digits and a sign, are outside `IsoTimestamp`.
- MemberList.DateOf: a missing value stands for `null`, which gives the epoch. A field absent from the server's record (`undefined`) would instead give an invalid date, shown as "NaN"; this is not modelled.
- `window.confirm` is the `confirmed` parameter. `console.log` and `console.error` are left out.
- JSX markup, styling, and the HTML `required` attributes. A browser would block submitting the add-relationship form with nothing selected; the model does not, so its guard fires on two empty selections.
  The markup is modelled only where it decides which inputs exist: the `dod` input is rendered only while not alive (`Members.Shown`).
- The checkbox branch of `handleChange` (`type === "checkbox" ? checked : value`). No checkbox is wired to `handleChange`, so only the text branch is modelled.
- `RelationshipList.View.DeleteOk` takes the server's confirmation text as a string. A missing `result.message`, which JavaScript would print as "undefined", is not modelled.
- `src/App.jsx` holds the refresh counters used as React keys. It has no logic of its own.
- The server (storage, validation, cascading delete, the relationship-type list) is not part of these files. The client-side checks here are the only ones modelled.

## Findings

| source | as written | input that shows it | evidently intended | confidence | as-written member | corrected member |
|---|---|---|---|---|---|---|
| src/components/EditRelationshipForm.jsx:65 | `formData.member_id_1 === formData.member_id_2`. The form starts from the relationship's ids (lines 12-13), which the list endpoint may send as numbers. A re-selected `<select>` writes a string (line 55). | Open the edit form on a relationship between members 3 and 5, then re-select member 2 as member 3. `3 === "3"` is false, so the guard passes and the PUT is sent for a self-relationship. | Refuse whenever both selections name the same member, whatever type holds the id (done here by comparing `String()` of both). | medium: not executed; relies on the list endpoint returning numeric ids | `Relationships.StrictGuardMissesNumericId` | `Relationships.SameMemberNumberAndText` |
