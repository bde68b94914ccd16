/** The records of the doctor directory: a doctor as the backend returns it,
    the five-field draft the form edits, and the local list filter used
    after a deletion. */
module Directory {

  datatype Option<T> = None | Some(value: T)

  /** The value of a record's `id` property. The backend assigns a number;
      `Absent` stands for a record without one (`undefined`). */
  datatype IdValue = Absent | Num(n: int)

  /** JavaScript falsiness of an id: `undefined` or the number `0`. */
  predicate IsFalsyId(id: IdValue) {
    id == Absent || id == Num(0)
  }

  /** The five input names of the form. */
  datatype Field = DoctorName | Contact | Address | Timing | AvailableDays

  /** The form's `formData` object. */
  datatype Draft = Draft(
    doctorName: string,
    contact: string,
    address: string,
    timing: string,
    availableDays: string)

  /** A doctor record of the list. */
  datatype Doctor = Doctor(
    id: IdValue,
    doctorName: string,
    contact: string,
    address: string,
    timing: string,
    availableDays: string)

  /** `draft[name]`. */
  function Get(d: Draft, f: Field): string {
    match f
    case DoctorName => d.doctorName
    case Contact => d.contact
    case Address => d.address
    case Timing => d.timing
    case AvailableDays => d.availableDays
  }

  /** `{ ...draft, [name]: value }`: the named field takes the value and
      every other field keeps its own. */
  function Set(d: Draft, f: Field, v: string): (r: Draft)
    ensures Get(r, f) == v
    ensures forall g :: g != f ==> Get(r, g) == Get(d, g)
  {
    match f
    case DoctorName => d.(doctorName := v)
    case Contact => d.(contact := v)
    case Address => d.(address := v)
    case Timing => d.(timing := v)
    case AvailableDays => d.(availableDays := v)
  }

  /** Two drafts that agree on every field are the same draft. */
  lemma DraftExtensionality(a: Draft, b: Draft)
    requires forall f :: Get(a, f) == Get(b, f)
    ensures a == b
  {
    assert Get(a, DoctorName) == Get(b, DoctorName);
    assert Get(a, Contact) == Get(b, Contact);
    assert Get(a, Address) == Get(b, Address);
    assert Get(a, Timing) == Get(b, Timing);
    assert Get(a, AvailableDays) == Get(b, AvailableDays);
  }

  /** The draft the form starts with and returns to on reset. */
  const EmptyDraft := Draft("", "", "", "", "")

  /** The five editable fields of a record, its id left behind. */
  function DraftOf(doc: Doctor): (r: Draft)
    ensures forall f :: Get(r, f) == FieldOf(doc, f)
  {
    Draft(doc.doctorName, doc.contact, doc.address, doc.timing, doc.availableDays)
  }

  /** `doctor[name]` for one of the five editable fields. */
  function FieldOf(doc: Doctor, f: Field): string {
    match f
    case DoctorName => doc.doctorName
    case Contact => doc.contact
    case Address => doc.address
    case Timing => doc.timing
    case AvailableDays => doc.availableDays
  }

  /** `list.filter(d => d.id !== id)`: no record with that id is left. */
  function RemoveById(list: seq<Doctor>, id: IdValue): (r: seq<Doctor>)
    ensures forall i :: 0 <= i < |r| ==> r[i].id != id
    ensures |r| <= |list|
  {
    if list == [] then []
    else (if list[0].id != id then [list[0]] else []) + RemoveById(list[1..], id)
  }

  /** Every record with another id survives the filter as often as it
      occurred, and every record with that id is gone. */
  lemma {:induction false} RemoveByIdCount(list: seq<Doctor>, id: IdValue, d: Doctor)
    ensures multiset(RemoveById(list, id))[d] == if d.id == id then 0 else multiset(list)[d]
  {
    if list != [] {
      assert list == [list[0]] + list[1..];
      RemoveByIdCount(list[1..], id, d);
    }
  }

  /** The filter distributes over concatenation: the surviving records keep
      their relative order. */
  lemma {:induction false} RemoveByIdAppend(a: seq<Doctor>, b: seq<Doctor>, id: IdValue)
    ensures RemoveById(a + b, id) == RemoveById(a, id) + RemoveById(b, id)
  {
    if a == [] {
      assert a + b == b;
    } else {
      var head := if a[0].id != id then [a[0]] else [];
      assert (a + b)[0] == a[0];
      assert (a + b)[1..] == a[1..] + b;
      RemoveByIdAppend(a[1..], b, id);
      calc {
        RemoveById(a + b, id);
        head + RemoveById(a[1..] + b, id);
        head + (RemoveById(a[1..], id) + RemoveById(b, id));
        (head + RemoveById(a[1..], id)) + RemoveById(b, id);
        RemoveById(a, id) + RemoveById(b, id);
      }
    }
  }

  /** A list that holds no record with the id is left as it is. */
  lemma {:induction false} RemoveByIdAbsent(list: seq<Doctor>, id: IdValue)
    requires forall i :: 0 <= i < |list| ==> list[i].id != id
    ensures RemoveById(list, id) == list
  {
    if list != [] {
      RemoveByIdAbsent(list[1..], id);
    }
  }

  /** Filtering twice by the same id is filtering once. */
  lemma RemoveByIdIdempotent(list: seq<Doctor>, id: IdValue)
    ensures RemoveById(RemoveById(list, id), id) == RemoveById(list, id)
  {
    RemoveByIdAbsent(RemoveById(list, id), id);
  }
}
