/** The form validator `validateForm`: one required-check per field and a
    separate phone-format check that overwrites the contact entry. */
module Validator {
  import opened Text
  import opened Directory

  const NameRequired := "Doctor name is required"
  const ContactRequired := "Contact number is required"
  const AddressRequired := "Address is required"
  const TimingRequired := "Timing is required"
  const DaysRequired := "Available days are required"
  const ContactFormat := "Please enter a valid phone number (at least 10 digits)"

  /** The "… is required" message of a field. */
  function RequiredMessage(f: Field): string {
    match f
    case DoctorName => NameRequired
    case Contact => ContactRequired
    case Address => AddressRequired
    case Timing => TimingRequired
    case AvailableDays => DaysRequired
  }

  /** `!value.trim()`: the field is empty once trimmed. */
  predicate TrimsToEmpty(value: string) {
    Trim(value) == ""
  }

  /** One `if (failed) newErrors[f] = msg` step: the entry for `f` is set
      (or replaced) when the check failed; no other entry changes. */
  function Check(e: map<Field, string>, f: Field, failed: bool, msg: string): map<Field, string>
  {
    if failed then e[f := msg] else e
  }

  /** The outcome of the six tests `validateForm` runs on a draft. */
  datatype Outcomes = Outcomes(
    nameEmpty: bool,
    contactEmpty: bool,
    addressEmpty: bool,
    timingEmpty: bool,
    daysEmpty: bool,
    contactMalformed: bool)

  /** Runs the tests: `!value.trim()` for each field, and for the contact
      also `contact && !/^\d{10,}$/.test(contact.replace(/\D/g, ''))`. */
  function Inspect(d: Draft): (o: Outcomes)
    ensures o.nameEmpty <==> IsBlank(d.doctorName)
    ensures o.contactEmpty <==> IsBlank(d.contact)
    ensures o.addressEmpty <==> IsBlank(d.address)
    ensures o.timingEmpty <==> IsBlank(d.timing)
    ensures o.daysEmpty <==> IsBlank(d.availableDays)
    ensures o.contactMalformed <==> d.contact != "" && DigitCount(d.contact) < 10
  {
    TrimSpec(d.doctorName);
    TrimSpec(d.contact);
    TrimSpec(d.address);
    TrimSpec(d.timing);
    TrimSpec(d.availableDays);
    Outcomes(
      TrimsToEmpty(d.doctorName),
      TrimsToEmpty(d.contact),
      TrimsToEmpty(d.address),
      TrimsToEmpty(d.timing),
      TrimsToEmpty(d.availableDays),
      d.contact != "" && !HasPhoneFormat(d.contact))
  }

  /** Builds `newErrors` from the outcomes in the order `validateForm` does:
      the five required-checks, then the format check, which replaces
      whatever the contact entry held. */
  function Collect(o: Outcomes): (errs: map<Field, string>)
  {
    var required :=
      Check(Check(Check(Check(Check(map[],
        DoctorName, o.nameEmpty, NameRequired),
        Contact, o.contactEmpty, ContactRequired),
        Address, o.addressEmpty, AddressRequired),
        Timing, o.timingEmpty, TimingRequired),
        AvailableDays, o.daysEmpty, DaysRequired);
    Check(required, Contact, o.contactMalformed, ContactFormat)
  }

  /** Whether the outcomes put an entry for `f` in the map. */
  predicate Fails(o: Outcomes, f: Field) {
    match f
    case DoctorName => o.nameEmpty
    case Contact => o.contactEmpty || o.contactMalformed
    case Address => o.addressEmpty
    case Timing => o.timingEmpty
    case AvailableDays => o.daysEmpty
  }

  /** The message the outcomes leave for a failing field: the format
      message for a malformed contact, otherwise the required message. */
  function Message(o: Outcomes, f: Field): string {
    if f == Contact && o.contactMalformed then ContactFormat else RequiredMessage(f)
  }

  /** A field has an entry in the collected map exactly when one of its
      tests failed. */
  lemma CollectHas(o: Outcomes, f: Field)
    ensures f in Collect(o) <==> Fails(o, f)
  {
  }

  /** The entry of a field in the collected map is that field's message. */
  lemma CollectMessage(o: Outcomes, f: Field)
    requires f in Collect(o)
    ensures Collect(o)[f] == Message(o, f)
  {
  }

  /** One field of the collected map: it has an entry exactly when one of
      its tests failed, and the entry is that field's message. */
  lemma CollectEntry(o: Outcomes, f: Field)
    ensures f in Collect(o) <==> Fails(o, f)
    ensures f in Collect(o) ==> Collect(o)[f] == Message(o, f)
  {
    CollectHas(o, f);
    if f in Collect(o) {
      CollectMessage(o, f);
    }
  }

  /** Collecting checks every field on its own: a field has an entry
      exactly when one of its tests failed, the format message wins over
      the required one, and every other entry is the required message. */
  lemma CollectFields(o: Outcomes)
    ensures forall f :: f in Collect(o) <==> Fails(o, f)
    ensures Contact in Collect(o) ==>
      Collect(o)[Contact] == if o.contactMalformed then ContactFormat else ContactRequired
    ensures forall f :: f != Contact && f in Collect(o) ==> Collect(o)[f] == RequiredMessage(f)
  {
    forall f ensures f in Collect(o) <==> Fails(o, f)
      ensures f in Collect(o) ==> Collect(o)[f] == Message(o, f)
    {
      CollectEntry(o, f);
    }
  }

  /** The error map `validateForm` builds. */
  function Validate(d: Draft): (errs: map<Field, string>)
  {
    Collect(Inspect(d))
  }

  /** `Object.keys(newErrors).length === 0`. */
  predicate IsValid(d: Draft) {
    Validate(d) == map[]
  }

  /** A field the validator accepts, stated without the validator: a
      non-blank value, and at least ten digits for the contact. */
  predicate FieldAcceptable(d: Draft, f: Field) {
    if f == Contact then DigitCount(d.contact) >= 10 else !IsBlank(Get(d, f))
  }

  /** One field has an entry exactly when it is unacceptable. */
  lemma ValidateEntry(d: Draft, f: Field)
    ensures f in Validate(d) <==> !FieldAcceptable(d, f)
  {
    CollectHas(Inspect(d), f);
    if f == Contact && IsBlank(d.contact) {
      BlankHasNoDigits(d.contact);
    }
  }

  /** A field has an entry exactly when it is unacceptable. */
  lemma ValidateKeys(d: Draft)
    ensures forall f :: f in Validate(d) <==> !FieldAcceptable(d, f)
  {
    forall f ensures f in Validate(d) <==> !FieldAcceptable(d, f) {
      ValidateEntry(d, f);
    }
  }

  /** The contact entry is the format message unless the contact is the
      empty string. */
  lemma ValidateContactMessage(d: Draft)
    ensures Contact in Validate(d) ==>
      Validate(d)[Contact] == if d.contact == "" then ContactRequired else ContactFormat
  {
    CollectEntry(Inspect(d), Contact);
    if IsBlank(d.contact) {
      BlankHasNoDigits(d.contact);
    }
  }

  /** Every field is checked on its own and every failure is collected:
      a field has an entry exactly when it is unacceptable. The contact
      entry is the format message unless the contact is the empty string,
      and every other entry is that field's required message. */
  lemma ValidateFields(d: Draft)
    ensures forall f :: f in Validate(d) <==> !FieldAcceptable(d, f)
    ensures Contact in Validate(d) ==>
      Validate(d)[Contact] == if d.contact == "" then ContactRequired else ContactFormat
    ensures forall f :: f != Contact && f in Validate(d) ==> Validate(d)[f] == RequiredMessage(f)
  {
    ValidateKeys(d);
    ValidateContactMessage(d);
    CollectFields(Inspect(d));
  }

  /** The draft is valid exactly when all five fields are acceptable. */
  lemma ValidIffAcceptable(d: Draft)
    ensures IsValid(d) <==> forall f :: FieldAcceptable(d, f)
  {
    ValidateFields(d);
    if forall f :: FieldAcceptable(d, f) {
      assert Validate(d).Keys == {};
    } else {
      var f :| !FieldAcceptable(d, f);
      assert f in Validate(d);
    }
  }

  /** A draft with every field non-blank and a contact with at least ten
      digits, such as "1234567890", passes. */
  lemma FilledDraftIsValid(d: Draft)
    requires !IsBlank(d.doctorName) && !IsBlank(d.address)
    requires !IsBlank(d.timing) && !IsBlank(d.availableDays)
    requires DigitCount(d.contact) >= 10
    ensures Validate(d) == map[]
  {
    ValidIffAcceptable(d);
  }

  /** A blank field other than the contact yields exactly its required
      message. */
  lemma BlankFieldIsRequired(d: Draft, f: Field)
    requires f != Contact && IsBlank(Get(d, f))
    ensures f in Validate(d) && Validate(d)[f] == RequiredMessage(f)
  {
    ValidateFields(d);
  }

  /** A non-empty contact with fewer than ten digits gets the format
      message, never the required one, even when it is all whitespace. */
  lemma ShortContactGetsFormatMessage(d: Draft)
    requires d.contact != "" && DigitCount(d.contact) < 10
    ensures Contact in Validate(d) && Validate(d)[Contact] == ContactFormat
  {
    ValidateFields(d);
  }

  /** The empty contact gets the required message. */
  lemma EmptyContactIsRequired(d: Draft)
    requires d.contact == ""
    ensures Contact in Validate(d) && Validate(d)[Contact] == ContactRequired
  {
    ValidateFields(d);
  }

  /** When every required test fails and the format test passes, every
      field gets its required message. */
  lemma CollectAllRequired(o: Outcomes)
    requires o.nameEmpty && o.contactEmpty && o.addressEmpty && o.timingEmpty && o.daysEmpty
    requires !o.contactMalformed
    ensures forall f :: f in Collect(o) && Collect(o)[f] == RequiredMessage(f)
  {
    CollectFields(o);
  }

  /** The all-empty draft gets five errors, one required message per field. */
  lemma EmptyDraftErrors()
    ensures forall f :: f in Validate(EmptyDraft) && Validate(EmptyDraft)[f] == RequiredMessage(f)
    ensures |Validate(EmptyDraft)| == 5
  {
    CollectAllRequired(Inspect(EmptyDraft));
    EveryFieldHasEntry(Validate(EmptyDraft));
  }

  /** A map with an entry for every field has five entries. */
  lemma EveryFieldHasEntry(m: map<Field, string>)
    requires forall f :: f in m
    ensures |m| == 5
  {
    var all := {DoctorName, Contact, Address, Timing, AvailableDays};
    forall f ensures f in all {
      match f
      case DoctorName =>
      case Contact =>
      case Address =>
      case Timing =>
      case AvailableDays =>
    }
    assert m.Keys == all;
  }

  /** "555-1234" holds seven digits: the contact entry is the format message. */
  lemma SevenDigitContact(d: Draft)
    requires d.contact == "555-1234"
    ensures Contact in Validate(d) && Validate(d)[Contact] == ContactFormat
  {
    SevenDigits(d.contact);
    ShortContactGetsFormatMessage(d);
  }

  /** "   " is blank but not empty: it also gets the format message. */
  lemma WhitespaceContact(d: Draft)
    requires d.contact == "   "
    ensures Contact in Validate(d) && Validate(d)[Contact] == ContactFormat
  {
    assert IsBlank(d.contact);
    BlankHasNoDigits(d.contact);
    ShortContactGetsFormatMessage(d);
  }
}
