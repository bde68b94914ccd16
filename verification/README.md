# Doctor directory form controller, modelled in Dafny

This project models the doctor-directory screen of a clinic front end: the
React component that keeps a five-field doctor draft (`doctorName`,
`contact`, `address`, `timing`, `availableDays`), a per-field error map, an
optional id of the record being edited, a pending-deletion slot with its
confirmation flag, and the local list of doctors. Every event handler is a
pure function from the component state to the next state and the request
it sends to the backend. The backend is abstracted. Each request comes back
only as accepted or refused, and the list a re-fetch returns is an opaque
input.

Modules:

- `Text` (Text.dfy): JavaScript `trim` (with an `IsWs` predicate for the
  characters it removes), the `\d` digit class, `replace(/\D/g, '')` and
  the `^\d{10,}$` test.
- `Directory` (Directory.dfy): ids, the doctor record, the draft, field
  access and the `filter` by id used after a deletion.
- `Validator` (Validator.dfy): `validateForm`, split into the six tests it
  runs (`Inspect`) and the order in which it writes the messages
  (`Collect`), with the per-field characterisation proved.
- `Form` (Form.dfy): `handleChange`, `resetForm`, `handleEdit`,
  `handleCancel`, `handleSubmit`, `handleDelete`, `cancelDelete`,
  `confirmDelete`, and the mount-time fetch.
- `Session` (Session.dfy): events dispatched to the handlers, runs of
  events, and the invariant every handler preserves.

Modelling choices:

- An id is `Absent` (the property is `undefined`) or a number. Falsy means
  `Absent` or `0`, as in the guard `!doctorToDelete.id`.
- `editDoctorId` is `Mode = Create | Edit(id)`. `handleEdit` copies the
  record's id as it is, so a record without an id gives `Edit(Absent)`. A
  later submit then sends a PUT, because `undefined !== null`.
- `fetchDoctors` catches its own errors. So the re-fetch after a save is an
  `Option`. On `None` the list is kept, but the form is still reset and edit
  mode is still left.
- Whitespace-only contact: it gets the format message, not the required
  one, because the format check (HomePage.js line 98) tests the untrimmed
  contact and overwrites the required message (`WhitespaceContact`).
- Refused save: `validateForm` (line 102) has already replaced the error
  map by the empty map before the request is sent, so a refused save
  leaves everything unchanged except the error map, which is now empty.
- Falsy ids in a PUT: the delete guard (line 227) refuses a falsy id, but
  nothing guards the PUT. Editing a record whose id is `undefined` or `0`
  and submitting a valid draft sends a PUT to that id
  (`EditFalsyIdSendsPut`). The invariant below therefore promises truthy
  ids for DELETE requests only.

## Model

| member | source | states |
|---|---|---|
| Text.TrimSpec | src/components/HomePage/HomePage.js:77-95 | `value.trim()` is empty exactly when every character is JavaScript whitespace; a non-empty result neither starts nor ends with whitespace |
| Text.StripNonDigits | src/components/HomePage/HomePage.js:98 | `replace(/\D/g, '')` leaves only ASCII digits, as many as the input holds, each digit with its multiplicity |
| Text.StripNonDigitsAppend | src/components/HomePage/HomePage.js:98 | stripping distributes over concatenation, so the digits keep their input order |
| Text.HasPhoneFormat | src/components/HomePage/HomePage.js:98 | `^\d{10,}$` on the stripped contact holds exactly when the contact holds at least ten digits, wherever they sit |
| Directory.Set | src/components/HomePage/HomePage.js:114 | `{ ...prev, [name]: value }` sets the named field and keeps every other field |
| Directory.DraftOf | src/components/HomePage/HomePage.js:202-208 | the draft taken from a record holds exactly the record's five fields |
| Directory.RemoveById | src/components/HomePage/HomePage.js:243 | after `filter(d => d.id !== id)` no record with that id is left, and the list does not grow |
| Directory.RemoveByIdCount | src/components/HomePage/HomePage.js:243 | every record with another id survives the filter as often as it occurred; every record with that id is gone |
| Directory.RemoveByIdAppend | src/components/HomePage/HomePage.js:243 | the filter distributes over concatenation, so the surviving records keep their order |
| Directory.RemoveByIdIdempotent | src/components/HomePage/HomePage.js:243 | filtering twice by one id is filtering once |
| Validator.Inspect | src/components/HomePage/HomePage.js:77-98 | each required test fails exactly on a blank field; the format test fails exactly on a non-empty contact with fewer than ten digits |
| Validator.CollectEntry | src/components/HomePage/HomePage.js:74-100 | one field of the built map has an entry exactly when one of its tests failed, and the entry is the format message for a malformed contact, else the required message |
| Validator.CollectFields | src/components/HomePage/HomePage.js:74-100 | the error map has an entry for a field exactly when one of its tests failed; the format message overwrites the contact's required message; other entries are required messages |
| Validator.ValidateFields | src/components/HomePage/HomePage.js:73-100 | every field is checked on its own and every failure is collected; the contact entry is the required message only for the empty contact, else the format message |
| Validator.ValidIffAcceptable | src/components/HomePage/HomePage.js:103 | the error map has no keys exactly when all five fields are acceptable (non-blank, contact with at least ten digits) |
| Validator.FilledDraftIsValid | src/components/HomePage/HomePage.js:77-103 | a draft with every field non-blank and at least ten contact digits gets an empty error map |
| Validator.BlankFieldIsRequired | src/components/HomePage/HomePage.js:77-95 | a blank field other than the contact gets exactly its "… is required" message |
| Validator.ShortContactGetsFormatMessage | src/components/HomePage/HomePage.js:98-100 | a non-empty contact with fewer than ten digits gets the format message, never the required one |
| Validator.EmptyContactIsRequired | src/components/HomePage/HomePage.js:81-83 | the empty contact gets the required message |
| Validator.EmptyDraftErrors | src/components/HomePage/HomePage.js:74-95 | the all-empty draft gets exactly five errors, one required message per field |
| Validator.SevenDigitContact | src/components/HomePage/HomePage.js:98-100 | "555-1234" gets the format message |
| Validator.WhitespaceContact | src/components/HomePage/HomePage.js:81-100 | "   " gets the format message, not the required one |
| Form.Mount | src/components/HomePage/HomePage.js:17-64 | the initial state: empty draft, no errors, create mode, nothing pending, confirmation hidden; the list is what the mount fetch returned, or `[]` when it failed |
| Form.SaveRequest | src/components/HomePage/HomePage.js:139-161 | a save is a PUT of the draft to `editDoctorId` when that is not `null`, and a POST of the draft otherwise |
| Form.HandleChange | src/components/HomePage/HomePage.js:112-120 | only the named field changes; its error, if truthy, becomes `''`; the set of error keys and every other error and state part are unchanged |
| Form.ResetForm | src/components/HomePage/HomePage.js:184-193 | every field empty and no errors, with edit id, deletion slot and list untouched |
| Form.HandleEdit | src/components/HomePage/HomePage.js:200-210 | the draft is exactly the record's five fields, the edit id is the record's id, and the errors are untouched |
| Form.HandleCancel | src/components/HomePage/HomePage.js:272-275 | empty draft, no errors, create mode; the deletion slot and list are untouched |
| Form.HandleSubmit | src/components/HomePage/HomePage.js:127-179 | no request exactly when validation fails, and then only the errors change; an accepted save installs the re-fetched list, empties the form and leaves edit mode; a refused one changes only the (now empty) errors |
| Form.HandleDelete | src/components/HomePage/HomePage.js:217-220 | the record becomes the pending one and the confirmation is shown; nothing else changes |
| Form.CancelDelete | src/components/HomePage/HomePage.js:263-266 | the confirmation is hidden and the pending record dropped; nothing else changes |
| Form.ConfirmDelete | src/components/HomePage/HomePage.js:226-258 | no request exactly when nothing is pending or the id is falsy; on acceptance the id leaves the list and the form resets only if that id was being edited; every path ends hidden with nothing pending |
| Form.CancelIsResetThenExit | src/components/HomePage/HomePage.js:272-275 | `handleCancel` is `resetForm` followed by leaving edit mode, and `resetForm` alone keeps the mode |
| Form.ChangeThenSubmit | src/components/HomePage/HomePage.js:112-132 | after typing into a field, a submit leaves exactly the errors validation of the new draft reports, so no stale entry survives |
| Form.CorrectedFieldSubmits | src/components/HomePage/HomePage.js:112-132 | correcting the one unacceptable field of an otherwise acceptable draft (a blank field, or a contact with too few digits) makes the next submit send its request with no errors left |
| Form.RefusedSubmitCanBeRetried | src/components/HomePage/HomePage.js:130-178 | after a refused save, or a submit that failed validation, submitting again sends the same request (or again none) |
| Form.EditFalsyIdSendsPut | src/components/HomePage/HomePage.js:139-149 | a valid record whose id is `undefined` or `0` is still sent as a PUT to that id after `handleEdit` |
| Form.EditThenSubmit | src/components/HomePage/HomePage.js:139-149 | submitting right after `handleEdit` sends a PUT of the record's fields to its id when they validate, and nothing otherwise |
| Form.CancelThenSubmit | src/components/HomePage/HomePage.js:127-132 | submitting right after a cancel sends nothing and reports all five fields as required |
| Form.ScenarioDraftIsValid | src/components/HomePage/HomePage.js:77-100 | the draft {A, 1234567890, B, 9-5, Mon-Fri} validates |
| Form.CreateScenario | src/components/HomePage/HomePage.js:150-174 | in create mode that draft is POSTed, and once accepted the list is the re-fetched one and the mode is create |
| Form.DismissDeleteHasNoEffect | src/components/HomePage/HomePage.js:263-266 | choosing a record for deletion and then cancelling has no effect beyond clearing the deletion slot |
| Form.DeleteReplacesPending | src/components/HomePage/HomePage.js:217-220 | a second delete click replaces the pending record |
| Form.DeleteEditedRecord | src/components/HomePage/HomePage.js:243-249 | an accepted delete of the record being edited leaves create mode with an empty draft, and removes exactly the records with its id |
| Form.ZeroIdIsNotDeleted | src/components/HomePage/HomePage.js:227-231 | a record with id `0` is never sent for deletion and only the deletion slot is cleared |
| Session.ValidateWellFormed | src/components/HomePage/HomePage.js:76-100 | the validator writes only required messages and, for the contact, the format message |
| Session.MountInv | src/components/HomePage/HomePage.js:17-64 | the initial state satisfies the invariant |
| Session.ApplyPreservesInv | src/components/HomePage/HomePage.js:112-275 | every handler keeps "confirmation shown exactly while a record is pending" and well-formed errors; a POST or PUT it sends carries a validated draft (a PUT's id is not checked) and a DELETE a truthy id |
| Session.SubmitPreservesInv | src/components/HomePage/HomePage.js:127-179 | a submit keeps the invariant, and a request it sends carries a draft that validates |
| Session.ConfirmPreservesInv | src/components/HomePage/HomePage.js:226-266 | a confirmed deletion keeps the invariant, and a request it sends carries a truthy id |
| Session.RunPreservesInv | src/components/HomePage/HomePage.js:127-266 | along any run of events the invariant holds, no invalid draft ever reaches the backend, and no DELETE carries a falsy id |
| Session.Run | src/components/HomePage/HomePage.js:112-275 | a run sends at most one request per event, and every entry of the sent list is a real request |
| Session.RunFromMount | src/components/HomePage/HomePage.js:48-50 | every run from the mounted component keeps the invariant and sends only admissible requests (validated saves, DELETEs with truthy ids) |

## Left out

- HTTP transport, URLs, headers, JSON encoding and the parsing of error bodies: each request is a `Request` value and its outcome is a boolean parameter.
- What the backend does with a request: that a created record appears once, with a fresh id, in the next list is the backend's promise. The model takes the re-fetched list as an opaque input.
- `alert` and `console` calls, and the `localStorage` user name with its "Guest" fallback: these are side effects and ambient state that none of the handlers' results depend on.
- JSX rendering, CSS classes, icons and the count badge: presentation only.
- Overlapping asynchronous calls, such as a double submit or a delete completing during an edit: the component defines no behaviour for them, so every handler is one atomic step.
- `null` field values from the backend are not modelled. `handleEdit` would copy them and `trim` would then throw. Every field here is a string.
- Ids that are strings or other JSON values: ids are numbers or absent.
- Form.HandleChange: `name` is one of the five input names of the form; an event from any other input is not modelled.
- src/components/LoginFrom/LoginForm.js (a login POST with storage writes and navigation) and src/App.js (routing) are not part of this model. Neither is the older copy of the screen under "Projects Full Stack app".
