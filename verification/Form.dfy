/** The doctor-directory form controller: the component state and one pure
    transition per event handler. The backend is abstracted: each request
    is returned as a `Request` value, and its outcome (accepted or not) and
    the list a re-fetch returns are passed in as parameters. */
module Form {
  import opened Text
  import opened Directory
  import opened Validator

  /** `editDoctorId`: `null` is `Create`; anything else is `Edit` of that
      value, which `handleEdit` copies from the record (possibly `Absent`). */
  datatype Mode = Create | Edit(id: IdValue)

  /** The component state: `formData`, `errors`, `editDoctorId`,
      `doctorToDelete`, `showDeleteConfirm` and `doctors`. */
  datatype State = State(
    draft: Draft,
    errors: map<Field, string>,
    mode: Mode,
    pending: Option<Doctor>,
    confirmVisible: bool,
    doctors: seq<Doctor>)

  /** The request a handler sends to the backend, if any. */
  datatype Request =
    | NoRequest
    | Post(body: Draft)
    | Put(id: IdValue, body: Draft)
    | Delete(id: IdValue)

  /** The state after a handler together with the request it sent. */
  datatype Step = Step(state: State, request: Request)

  /** `errors[name]` is truthy: present and not the empty string. */
  predicate HasError(errors: map<Field, string>, f: Field) {
    f in errors && errors[f] != ""
  }

  /** The state right after mounting: the initial `useState` values, with
      the list the mount-time fetch returned, or the empty list when that
      fetch failed. */
  function Mount(loaded: Option<seq<Doctor>>): (s: State)
    ensures s.draft == EmptyDraft && s.errors == map[] && s.mode == Create
    ensures s.pending == None && !s.confirmVisible
    ensures loaded.Some? ==> s.doctors == loaded.value
    ensures loaded.None? ==> s.doctors == []
  {
    State(EmptyDraft, map[], Create, None, false, if loaded.Some? then loaded.value else [])
  }

  /** `handleChange`: the named field takes the value, and its error, if
      truthy, becomes the empty string. Nothing else changes. */
  function HandleChange(s: State, name: Field, value: string): (r: State)
    ensures Get(r.draft, name) == value
    ensures forall f :: f != name ==> Get(r.draft, f) == Get(s.draft, f)
    ensures !HasError(r.errors, name)
    ensures r.errors.Keys == s.errors.Keys
    ensures forall f :: f in s.errors && f != name ==> r.errors[f] == s.errors[f]
    ensures !HasError(s.errors, name) ==> r.errors == s.errors
    ensures r.mode == s.mode && r.pending == s.pending
    ensures r.confirmVisible == s.confirmVisible && r.doctors == s.doctors
  {
    var updated := s.(draft := Set(s.draft, name, value));
    if HasError(s.errors, name) then updated.(errors := s.errors[name := ""]) else updated
  }

  /** `resetForm`: every field empty and no errors; the edit id, the
      deletion slot and the list are left alone. */
  function ResetForm(s: State): (r: State)
    ensures forall f :: Get(r.draft, f) == ""
    ensures r.errors == map[]
    ensures r.mode == s.mode && r.pending == s.pending
    ensures r.confirmVisible == s.confirmVisible && r.doctors == s.doctors
  {
    s.(draft := EmptyDraft, errors := map[])
  }

  /** `handleEdit`: the draft becomes exactly the record's five fields and
      the edit id becomes the record's id; the errors are kept. */
  function HandleEdit(s: State, doc: Doctor): (r: State)
    ensures forall f :: Get(r.draft, f) == FieldOf(doc, f)
    ensures r.mode == Edit(doc.id)
    ensures r.errors == s.errors && r.pending == s.pending
    ensures r.confirmVisible == s.confirmVisible && r.doctors == s.doctors
  {
    s.(draft := DraftOf(doc), mode := Edit(doc.id))
  }

  /** `handleCancel`: reset the form, then leave edit mode. */
  function HandleCancel(s: State): (r: State)
    ensures forall f :: Get(r.draft, f) == ""
    ensures r.errors == map[] && r.mode == Create
    ensures r.pending == s.pending && r.confirmVisible == s.confirmVisible
    ensures r.doctors == s.doctors
  {
    ResetForm(s).(mode := Create)
  }

  /** The request a valid submit sends: PUT to the edit id in edit mode,
      POST otherwise, with the draft as body. */
  function SaveRequest(s: State): (req: Request)
    ensures s.mode == Create ==> req == Post(s.draft)
    ensures s.mode.Edit? ==> req == Put(s.mode.id, s.draft)
  {
    match s.mode
    case Create => Post(s.draft)
    case Edit(id) => Put(id, s.draft)
  }

  /** `handleSubmit`. Validation always replaces the error map. An invalid
      draft sends nothing. A valid one sends the save request; when the
      backend accepts it the list becomes the re-fetched one (kept as it was
      if the re-fetch failed), the form is reset and edit mode is left; when
      it refuses, only the (now empty) error map has changed. */
  function HandleSubmit(s: State, accepted: bool, refetched: Option<seq<Doctor>>): (r: Step)
    ensures r.request == NoRequest <==> !IsValid(s.draft)
    ensures !IsValid(s.draft) ==> r.state == s.(errors := Validate(s.draft))
    ensures IsValid(s.draft) && s.mode == Create ==> r.request == Post(s.draft)
    ensures IsValid(s.draft) && s.mode.Edit? ==> r.request == Put(s.mode.id, s.draft)
    ensures IsValid(s.draft) && accepted ==>
      && r.state.draft == EmptyDraft && r.state.errors == map[] && r.state.mode == Create
      && r.state.doctors == (if refetched.Some? then refetched.value else s.doctors)
    ensures IsValid(s.draft) && !accepted ==> r.state == s.(errors := map[])
    ensures r.state.pending == s.pending && r.state.confirmVisible == s.confirmVisible
  {
    var errs := Validate(s.draft);
    var validated := s.(errors := errs);
    if errs != map[] then
      Step(validated, NoRequest)
    else if !accepted then
      Step(validated, SaveRequest(s))
    else
      var listed := if refetched.Some? then validated.(doctors := refetched.value) else validated;
      Step(ResetForm(listed).(mode := Create), SaveRequest(s))
  }

  /** `handleDelete`: the record becomes the pending one, replacing any
      other, and the confirmation is shown. */
  function HandleDelete(s: State, doc: Doctor): (r: State)
    ensures r.pending == Some(doc) && r.confirmVisible
    ensures r.draft == s.draft && r.errors == s.errors && r.mode == s.mode
    ensures r.doctors == s.doctors
  {
    s.(pending := Some(doc), confirmVisible := true)
  }

  /** `cancelDelete`: the confirmation is hidden and the pending record
      dropped; nothing else changes. */
  function CancelDelete(s: State): (r: State)
    ensures r.pending == None && !r.confirmVisible
    ensures r.draft == s.draft && r.errors == s.errors && r.mode == s.mode
    ensures r.doctors == s.doctors
  {
    s.(pending := None, confirmVisible := false)
  }

  /** Whether `confirmDelete` gets past its guard: a pending record whose
      id is truthy. */
  predicate CanDelete(s: State) {
    s.pending.Some? && !IsFalsyId(s.pending.value.id)
  }

  /** `confirmDelete`. Without a pending record or with a falsy id nothing
      is sent. Otherwise DELETE is sent for the id; when the backend accepts
      it every record with that id leaves the list, and if that id was
      being edited the form is reset and edit mode left. On every path the
      confirmation ends hidden and the pending record dropped. */
  function ConfirmDelete(s: State, accepted: bool): (r: Step)
    ensures !r.state.confirmVisible && r.state.pending == None
    ensures r.request == NoRequest <==> !CanDelete(s)
    ensures CanDelete(s) ==> r.request == Delete(s.pending.value.id)
    ensures !CanDelete(s) || !accepted ==> r.state == CancelDelete(s)
    ensures CanDelete(s) && accepted ==>
      && r.state.doctors == RemoveById(s.doctors, s.pending.value.id)
      && (s.mode == Edit(s.pending.value.id) ==>
            r.state.draft == EmptyDraft && r.state.errors == map[] && r.state.mode == Create)
      && (s.mode != Edit(s.pending.value.id) ==>
            r.state.draft == s.draft && r.state.errors == s.errors && r.state.mode == s.mode)
  {
    if !CanDelete(s) then
      Step(CancelDelete(s), NoRequest)
    else
      var id := s.pending.value.id;
      if !accepted then
        Step(CancelDelete(s), Delete(id))
      else
        var filtered := s.(doctors := RemoveById(s.doctors, id));
        var reset := if s.mode == Edit(id) then ResetForm(filtered).(mode := Create) else filtered;
        Step(CancelDelete(reset), Delete(id))
  }

  /** `handleCancel` is `resetForm` followed by leaving edit mode, and
      `resetForm` by itself never leaves edit mode. */
  lemma CancelIsResetThenExit(s: State)
    ensures HandleCancel(s) == ResetForm(s).(mode := Create)
    ensures ResetForm(s).mode == s.mode
  {
  }

  /** Typing into a field that carried an error, then submitting a draft
      whose other fields are acceptable, leaves no stale error for it: the
      error map is exactly what validation of the new draft reports. */
  lemma ChangeThenSubmit(s: State, name: Field, value: string, accepted: bool, refetched: Option<seq<Doctor>>)
    ensures HandleSubmit(HandleChange(s, name, value), accepted, refetched).request == NoRequest ==>
      HandleSubmit(HandleChange(s, name, value), accepted, refetched).state.errors
        == Validate(Set(s.draft, name, value))
    ensures HandleSubmit(HandleChange(s, name, value), accepted, refetched).request != NoRequest ==>
      HandleSubmit(HandleChange(s, name, value), accepted, refetched).state.errors == map[]
  {
    var t := HandleChange(s, name, value);
    DraftExtensionality(t.draft, Set(s.draft, name, value));
  }

  /** Correcting the one unacceptable field of a draft makes the next
      submit send its request and clear every error. */
  lemma CorrectedFieldSubmits(s: State, name: Field, value: string, accepted: bool, refetched: Option<seq<Doctor>>)
    requires FieldAcceptable(Set(s.draft, name, value), name)
    requires forall f :: f != name ==> FieldAcceptable(s.draft, f)
    ensures HandleSubmit(HandleChange(s, name, value), accepted, refetched).request != NoRequest
    ensures HandleSubmit(HandleChange(s, name, value), accepted, refetched).state.errors == map[]
  {
    var t := HandleChange(s, name, value);
    DraftExtensionality(t.draft, Set(s.draft, name, value));
    assert forall f :: FieldAcceptable(t.draft, f) by {
      forall f ensures FieldAcceptable(t.draft, f) {
        if f != name {
          assert FieldAcceptable(s.draft, f);
          assert Get(t.draft, f) == Get(s.draft, f);
          assert f == Contact ==> t.draft.contact == s.draft.contact;
        }
      }
    }
    ValidIffAcceptable(t.draft);
  }

  /** A refused save (or a draft that did not validate) leaves the user
      where they were: submitting again sends the very same request. */
  lemma RefusedSubmitCanBeRetried(s: State, accepted: bool, refetched: Option<seq<Doctor>>)
    ensures HandleSubmit(HandleSubmit(s, false, None).state, accepted, refetched).request
      == HandleSubmit(s, false, None).request
  {
  }

  /** Nothing guards the PUT: a valid record whose id is `undefined` or
      `0` is still sent to that id once it is being edited. */
  lemma EditFalsyIdSendsPut(s: State, doc: Doctor, accepted: bool, refetched: Option<seq<Doctor>>)
    requires IsFalsyId(doc.id)
    ensures IsValid(DraftOf(doc)) ==>
      && HandleSubmit(HandleEdit(s, doc), accepted, refetched).request == Put(doc.id, DraftOf(doc))
      && IsFalsyId(HandleSubmit(HandleEdit(s, doc), accepted, refetched).request.id)
  {
    EditThenSubmit(s, doc, accepted, refetched);
  }

  /** Submitting right after choosing a record for editing sends a PUT of
      that record's fields to its id, provided they validate. */
  lemma EditThenSubmit(s: State, doc: Doctor, accepted: bool, refetched: Option<seq<Doctor>>)
    ensures IsValid(DraftOf(doc)) ==>
      HandleSubmit(HandleEdit(s, doc), accepted, refetched).request == Put(doc.id, DraftOf(doc))
    ensures !IsValid(DraftOf(doc)) ==>
      HandleSubmit(HandleEdit(s, doc), accepted, refetched).request == NoRequest
  {
  }

  /** Submitting right after a cancel sends nothing and reports every
      field as required. */
  lemma CancelThenSubmit(s: State, accepted: bool, refetched: Option<seq<Doctor>>)
    ensures HandleSubmit(HandleCancel(s), accepted, refetched).request == NoRequest
    ensures forall f :: f in HandleSubmit(HandleCancel(s), accepted, refetched).state.errors
    ensures |HandleSubmit(HandleCancel(s), accepted, refetched).state.errors| == 5
  {
    EmptyDraftErrors();
    DraftExtensionality(HandleCancel(s).draft, EmptyDraft);
  }

  /** The draft {A, 1234567890, B, 9-5, Mon-Fri} validates. */
  lemma ScenarioDraftIsValid(d: Draft)
    requires d == Draft("A", "1234567890", "B", "9-5", "Mon-Fri")
    ensures IsValid(d)
  {
    StartsNonBlank(d.doctorName);
    StartsNonBlank(d.address);
    StartsNonBlank(d.timing);
    StartsNonBlank(d.availableDays);
    AllDigitsCount(d.contact);
    FilledDraftIsValid(d);
  }

  /** Submitting that draft in create mode sends a POST of it, and once
      accepted the list is the re-fetched one and the form is back in
      create mode. */
  lemma CreateScenario(s: State, list: seq<Doctor>)
    requires s.mode == Create
    requires s.draft == Draft("A", "1234567890", "B", "9-5", "Mon-Fri")
    ensures HandleSubmit(s, true, Some(list)).request == Post(s.draft)
    ensures HandleSubmit(s, true, Some(list)).state.doctors == list
    ensures HandleSubmit(s, true, Some(list)).state.mode == Create
  {
    ScenarioDraftIsValid(s.draft);
  }

  /** Choosing a record for deletion and then dismissing the confirmation
      has no effect beyond clearing the deletion slot. */
  lemma DismissDeleteHasNoEffect(s: State, doc: Doctor)
    ensures CancelDelete(HandleDelete(s, doc)) == CancelDelete(s)
  {
  }

  /** A second delete request replaces the first pending record. */
  lemma DeleteReplacesPending(s: State, a: Doctor, b: Doctor)
    ensures HandleDelete(HandleDelete(s, a), b) == HandleDelete(s, b)
  {
  }

  /** Deleting the record being edited, once the backend accepts it, leaves
      edit mode with an empty form, and the record's id is gone from the
      list while every other record keeps its multiplicity. */
  lemma DeleteEditedRecord(s: State, doc: Doctor, d: Doctor)
    requires !IsFalsyId(doc.id) && s.mode == Edit(doc.id)
    ensures ConfirmDelete(HandleDelete(s, doc), true).state.mode == Create
    ensures ConfirmDelete(HandleDelete(s, doc), true).state.draft == EmptyDraft
    ensures ConfirmDelete(HandleDelete(s, doc), true).request == Delete(doc.id)
    ensures multiset(ConfirmDelete(HandleDelete(s, doc), true).state.doctors)[d]
      == if d.id == doc.id then 0 else multiset(s.doctors)[d]
  {
    RemoveByIdCount(s.doctors, doc.id, d);
  }

  /** A record whose id is `0` is never sent for deletion. */
  lemma ZeroIdIsNotDeleted(s: State, doc: Doctor, accepted: bool)
    requires doc.id == Num(0)
    ensures ConfirmDelete(HandleDelete(s, doc), accepted).request == NoRequest
    ensures ConfirmDelete(HandleDelete(s, doc), accepted).state == CancelDelete(s)
  {
  }
}
