/** The form controller as an event-driven machine: each user event (with
    the backend's outcome where it sends a request) is dispatched to its
    handler, and a run folds a sequence of events from a state. */
module Session {
  import opened Text
  import opened Directory
  import opened Validator
  import opened Form

  /** A user event, with the backend's answer where the handler sends a
      request: whether the request was accepted and, for a save, what the
      re-fetch of the list returned (`None` when it failed). */
  datatype Event =
    | Change(name: Field, value: string)
    | Submit(accepted: bool, refetched: Option<seq<Doctor>>)
    | EditClicked(doc: Doctor)
    | CancelClicked
    | DeleteClicked(doc: Doctor)
    | DeleteConfirmed(accepted: bool)
    | DeleteDismissed

  /** Dispatches one event to its handler. */
  function Apply(s: State, e: Event): Step
  {
    match e
    case Change(name, value) => Step(HandleChange(s, name, value), NoRequest)
    case Submit(accepted, refetched) => HandleSubmit(s, accepted, refetched)
    case EditClicked(doc) => Step(HandleEdit(s, doc), NoRequest)
    case CancelClicked => Step(HandleCancel(s), NoRequest)
    case DeleteClicked(doc) => Step(HandleDelete(s, doc), NoRequest)
    case DeleteConfirmed(accepted) => ConfirmDelete(s, accepted)
    case DeleteDismissed => Step(CancelDelete(s), NoRequest)
  }

  /** The final state of a run and the requests it sent, in order. */
  datatype Trace = Trace(state: State, sent: seq<Request>)

  /** Runs the events one after another from `s`: at most one request per
      event is sent, and the sent list holds only real requests. */
  function Run(s: State, events: seq<Event>): (t: Trace)
    ensures |t.sent| <= |events|
    ensures forall i :: 0 <= i < |t.sent| ==> t.sent[i] != NoRequest
    decreases |events|
  {
    if events == [] then Trace(s, [])
    else
      var step := Apply(s, events[0]);
      var rest := Run(step.state, events[1..]);
      Trace(rest.state, (if step.request == NoRequest then [] else [step.request]) + rest.sent)
  }

  /** Every error entry is the empty string a keystroke left, the field's
      required message, or, for the contact, the format message. */
  predicate ErrorsWellFormed(errors: map<Field, string>) {
    forall f :: f in errors ==>
      errors[f] == "" || errors[f] == RequiredMessage(f) || (f == Contact && errors[f] == ContactFormat)
  }

  /** The invariant of the component: the confirmation is shown exactly
      while a record is pending, and the error map is well formed. */
  predicate Inv(s: State) {
    && (s.confirmVisible <==> s.pending.Some?)
    && ErrorsWellFormed(s.errors)
  }

  /** A request the backend may see: saves carry a draft that validates,
      and deletions carry a truthy id. The id of a PUT is not constrained:
      it is whatever `handleEdit` copied from the record. */
  predicate Admissible(req: Request) {
    match req
    case NoRequest => false
    case Post(body) => IsValid(body)
    case Put(_, body) => IsValid(body)
    case Delete(id) => !IsFalsyId(id)
  }

  /** The validator only writes well-formed entries. */
  lemma ValidateWellFormed(d: Draft)
    ensures ErrorsWellFormed(Validate(d))
  {
    ValidateFields(d);
  }

  /** The state after mounting satisfies the invariant. */
  lemma MountInv(loaded: Option<seq<Doctor>>)
    ensures Inv(Mount(loaded))
  {
  }

  /** A submit keeps the invariant and sends only a validated draft. */
  lemma SubmitPreservesInv(s: State, accepted: bool, refetched: Option<seq<Doctor>>)
    requires Inv(s)
    ensures Inv(HandleSubmit(s, accepted, refetched).state)
    ensures HandleSubmit(s, accepted, refetched).request != NoRequest ==>
      Admissible(HandleSubmit(s, accepted, refetched).request)
  {
    ValidateWellFormed(s.draft);
  }

  /** A confirmed deletion keeps the invariant and sends only a truthy id. */
  lemma ConfirmPreservesInv(s: State, accepted: bool)
    requires Inv(s)
    ensures Inv(ConfirmDelete(s, accepted).state)
    ensures ConfirmDelete(s, accepted).request != NoRequest ==>
      Admissible(ConfirmDelete(s, accepted).request)
  {
  }

  /** Every handler preserves the invariant, and whatever it sends is
      admissible: a validated draft, or a DELETE of a truthy id. */
  lemma ApplyPreservesInv(s: State, e: Event)
    requires Inv(s)
    ensures Inv(Apply(s, e).state)
    ensures Apply(s, e).request != NoRequest ==> Admissible(Apply(s, e).request)
  {
    match e
    case Submit(accepted, refetched) =>
      SubmitPreservesInv(s, accepted, refetched);
    case DeleteConfirmed(accepted) =>
      ConfirmPreservesInv(s, accepted);
    case _ =>
  }

  /** Along any run from a state satisfying the invariant, the invariant
      holds at the end and every request sent is admissible: a draft that
      fails validation never reaches the backend, and no DELETE carries a
      falsy id. */
  lemma {:induction false} RunPreservesInv(s: State, events: seq<Event>)
    requires Inv(s)
    ensures Inv(Run(s, events).state)
    ensures forall i :: 0 <= i < |Run(s, events).sent| ==> Admissible(Run(s, events).sent[i])
    decreases |events|
  {
    if events != [] {
      var step := Apply(s, events[0]);
      ApplyPreservesInv(s, events[0]);
      RunPreservesInv(step.state, events[1..]);
    }
  }

  /** The properties of every run from mounting. */
  lemma RunFromMount(loaded: Option<seq<Doctor>>, events: seq<Event>)
    ensures Inv(Run(Mount(loaded), events).state)
    ensures forall i :: 0 <= i < |Run(Mount(loaded), events).sent| ==>
      Admissible(Run(Mount(loaded), events).sent[i])
  {
    MountInv(loaded);
    RunPreservesInv(Mount(loaded), events);
  }
}
