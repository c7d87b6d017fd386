/**
 * The behaviour-carrying part of the healthcare-records data models:
 *  - the doctor-patient connection status choices and their default,
 *  - the (patient, doctor) uniqueness rule of the connection table,
 *  - the protect-on-delete rule between medications and prescription items,
 *  - the end-date derivation a prescription item performs when it is saved.
 * Calendar dates and timestamps are day numbers.
 */
module Models {
  import opened Wrappers

  type Date = nat
  type Timestamp = nat
  type PatientId = nat
  type DoctorId = nat
  type MedicationId = nat

  // ---------------------------------------------------------------------
  // Users
  // ---------------------------------------------------------------------

  /** The stored codes of the role choices. */
  const PatientRole: string := "patient"
  const DoctorRole: string := "doctor"
  const AdminRole: string := "admin"

  /** A user account; `role` is the stored character column, so it may hold any text. */
  datatype User = User(email: string, role: string)

  // ---------------------------------------------------------------------
  // Doctor-patient connections
  // ---------------------------------------------------------------------

  /** The five status choices of a connection. */
  datatype ConnectionStatus =
    | PendingApprovalByDoctor
    | Approved
    | RejectedByDoctor
    | TerminatedByPatient
    | TerminatedByDoctor
  {
    /** The code stored in the status column, which holds at most 50 characters. */
    function Code(): (c: string)
      ensures 0 < |c| <= 50
    {
      match this
      case PendingApprovalByDoctor => "pending_approval_by_doctor"
      case Approved => "approved"
      case RejectedByDoctor => "rejected_by_doctor"
      case TerminatedByPatient => "terminated_by_patient"
      case TerminatedByDoctor => "terminated_by_doctor"
    }
  }

  /** Reads a stored status code back; a code outside the choices reads as `None`. */
  function StatusFromCode(c: string): (r: Option<ConnectionStatus>)
    ensures r.Some? ==> r.value.Code() == c
  {
    if c == "pending_approval_by_doctor" then Some(PendingApprovalByDoctor)
    else if c == "approved" then Some(Approved)
    else if c == "rejected_by_doctor" then Some(RejectedByDoctor)
    else if c == "terminated_by_patient" then Some(TerminatedByPatient)
    else if c == "terminated_by_doctor" then Some(TerminatedByDoctor)
    else None
  }

  /** Every status is stored under its own code: distinct statuses never share one. */
  lemma StatusCodeRoundTrip(s: ConnectionStatus)
    ensures StatusFromCode(s.Code()) == Some(s)
  {
    match s
    case PendingApprovalByDoctor =>
    case Approved =>
    case RejectedByDoctor =>
    case TerminatedByPatient =>
    case TerminatedByDoctor =>
  }

  /** The status a newly requested connection starts in. */
  const DefaultStatus: ConnectionStatus := PendingApprovalByDoctor

  /** A row of the connection table. */
  datatype Connection = Connection(
    patient: PatientId,
    doctor: DoctorId,
    status: ConnectionStatus,
    requestDate: Timestamp,
    responseDate: Option<Timestamp>,
    lastInteractionDate: Option<Timestamp>)

  /** Some row of `rows` links `patient` to `doctor`. */
  predicate HasPair(rows: seq<Connection>, patient: PatientId, doctor: DoctorId) {
    exists i :: 0 <= i < |rows| && rows[i].patient == patient && rows[i].doctor == doctor
  }

  /** The unique-together constraint on (patient, doctor). */
  predicate UniquePairs(rows: seq<Connection>) {
    forall i, j :: 0 <= i < j < |rows| ==>
      rows[i].patient != rows[j].patient || rows[i].doctor != rows[j].doctor
  }

  /** The lookup behind the unique index: the position of the row linking `patient`
      to `doctor`, or `None` when no row does. */
  method FindPair(rows: seq<Connection>, patient: PatientId, doctor: DoctorId) returns (k: Option<nat>)
    ensures k.Some? ==> k.value < |rows| && rows[k.value].patient == patient && rows[k.value].doctor == doctor
    ensures k.None? <==> !HasPair(rows, patient, doctor)
  {
    var i := 0;
    while i < |rows|
      invariant 0 <= i <= |rows|
      invariant forall j :: 0 <= j < i ==> rows[j].patient != patient || rows[j].doctor != doctor
    {
      if rows[i].patient == patient && rows[i].doctor == doctor {
        return Some(i);
      }
      i := i + 1;
    }
    return None;
  }

  // ---------------------------------------------------------------------
  // Prescription items: end-date derivation
  // ---------------------------------------------------------------------

  /** The stored codes of the duration-unit choices. */
  const Days: string := "days"
  const Weeks: string := "weeks"
  const Months: string := "months"
  const Indefinite: string := "indefinite"

  /** Python truthiness of a nullable non-negative integer column: NULL and 0 are false. */
  predicate CountIsSet(v: Option<nat>) {
    v.Some? && v.value != 0
  }

  /** Python truthiness of a nullable character column: NULL and "" are false. */
  predicate TextIsSet(s: Option<string>) {
    s.Some? && s.value != ""
  }

  /**
   * The end date a prescription item holds after `save`: when a start date, a
   * non-zero duration and a non-empty unit are present and no end date is set,
   * the start date plus the duration in days, weeks, or 30-day months; in every
   * other case the end date as it was.
   */
  function DerivedEndDate(start: Option<Date>, value: Option<nat>, unit: Option<string>, end: Option<Date>): (r: Option<Date>)
    ensures end.Some? ==> r == end
    ensures r != end ==> end.None? && r.Some? && start.Some? && r.value > start.value
    ensures r != end ==> CountIsSet(value) && unit.Some? && unit.value in {Days, Weeks, Months}
  {
    if start.Some? && CountIsSet(value) && TextIsSet(unit) && end.None? then
      if unit.value == Days then Some(start.value + value.value)
      else if unit.value == Weeks then Some(start.value + 7 * value.value)
      else if unit.value == Months then Some(start.value + value.value * 30)
      else end
    else end
  }

  /** With unit `days` and no end date, the end date is the start plus the value in days. */
  lemma DaysRule(start: Date, v: nat)
    requires v > 0
    ensures DerivedEndDate(Some(start), Some(v), Some(Days), None) == Some(start + v)
  {
  }

  /** With unit `weeks`, the end date is the start plus seven days per week. */
  lemma WeeksRule(start: Date, v: nat)
    requires v > 0
    ensures DerivedEndDate(Some(start), Some(v), Some(Weeks), None) == Some(start + 7 * v)
  {
  }

  /** With unit `months`, a month is approximated by 30 days. */
  lemma MonthsRule(start: Date, v: nat)
    requires v > 0
    ensures DerivedEndDate(Some(start), Some(v), Some(Months), None) == Some(start + 30 * v)
  {
  }

  /** A unit other than days, weeks or months (`indefinite`, empty, absent, or any
      other text), an absent or zero duration, or an absent start date: no end date
      is derived. */
  lemma NoDerivation(start: Option<Date>, value: Option<nat>, unit: Option<string>)
    requires unit.None? || unit.value !in {Days, Weeks, Months} || !CountIsSet(value) || start.None?
    ensures DerivedEndDate(start, value, unit, None) == None
  {
  }

  /** A zero duration is falsy: it derives no end date, not the start date itself. */
  lemma ZeroDurationDerivesNothing(start: Date, unit: string)
    ensures DerivedEndDate(Some(start), Some(0), Some(unit), None) == None
  {
  }

  /** Saving twice leaves the same end date as saving once. */
  lemma DerivedEndDateIdempotent(start: Option<Date>, value: Option<nat>, unit: Option<string>, end: Option<Date>)
    ensures var once := DerivedEndDate(start, value, unit, end);
            DerivedEndDate(start, value, unit, once) == once
  {
  }

  /** A longer course never ends earlier. */
  lemma DerivedEndDateMonotone(start: Date, v: nat, w: nat, unit: string)
    requires 0 < v <= w
    requires unit in {Days, Weeks, Months}
    ensures DerivedEndDate(Some(start), Some(v), Some(unit), None).value
         <= DerivedEndDate(Some(start), Some(w), Some(unit), None).value
  {
  }

  /** A prescription item, whose `save` fills in the end date in place. */
  class PrescriptionItem {
    const medication: MedicationId
    var startDate: Option<Date>
    var durationValue: Option<nat>
    var durationUnit: Option<string>
    var endDate: Option<Date>

    constructor (medication: MedicationId, startDate: Option<Date>, durationValue: Option<nat>,
                 durationUnit: Option<string>, endDate: Option<Date>)
      ensures this.medication == medication && this.startDate == startDate
      ensures this.durationValue == durationValue && this.durationUnit == durationUnit
      ensures this.endDate == endDate
    {
      this.medication := medication;
      this.startDate := startDate;
      this.durationValue := durationValue;
      this.durationUnit := durationUnit;
      this.endDate := endDate;
    }

    /** The in-memory part of `save`: derive the end date when it is unset. */
    method Save()
      modifies this
      ensures endDate == DerivedEndDate(old(startDate), old(durationValue), old(durationUnit), old(endDate))
      ensures startDate == old(startDate) && durationValue == old(durationValue)
      ensures durationUnit == old(durationUnit)
    {
      if startDate.Some? && CountIsSet(durationValue) && TextIsSet(durationUnit) && endDate.None? {
        if durationUnit.value == Days {
          endDate := Some(startDate.value + durationValue.value);
        } else if durationUnit.value == Weeks {
          endDate := Some(startDate.value + 7 * durationValue.value);
        } else if durationUnit.value == Months {
          endDate := Some(startDate.value + durationValue.value * 30);
        }
      }
    }
  }

  // ---------------------------------------------------------------------
  // Medications
  // ---------------------------------------------------------------------

  /** A row of the medication table: its primary key and its unique name. */
  datatype Medication = Medication(id: MedicationId, name: string)

  /** Primary keys and names are unique in the medication table. */
  predicate WellKeyed(ms: seq<Medication>) {
    forall i, j :: 0 <= i < j < |ms| ==> ms[i].id != ms[j].id && ms[i].name != ms[j].name
  }

  predicate HasMedication(ms: seq<Medication>, id: MedicationId) {
    exists i :: 0 <= i < |ms| && ms[i].id == id
  }

  predicate HasName(ms: seq<Medication>, name: string) {
    exists i :: 0 <= i < |ms| && ms[i].name == name
  }

  /** Some prescription item refers to medication `id`. */
  predicate Referenced(items: seq<PrescriptionItem>, id: MedicationId) {
    exists i :: 0 <= i < |items| && items[i].medication == id
  }

  /** The item table without `item`, the others in the same order. */
  function RemoveItem(items: seq<PrescriptionItem>, item: PrescriptionItem): (r: seq<PrescriptionItem>)
    ensures forall k :: 0 <= k < |r| ==> r[k] in items && r[k] != item
    ensures forall k :: 0 <= k < |items| && items[k] != item ==> items[k] in r
    ensures |r| <= |items|
  {
    if items == [] then []
    else if items[0] == item then RemoveItem(items[1..], item)
    else [items[0]] + RemoveItem(items[1..], item)
  }

  /** Once the last item referring to medication `id` is deleted, nothing refers to it. */
  lemma LastReferenceRemoved(items: seq<PrescriptionItem>, item: PrescriptionItem, id: MedicationId)
    requires forall i :: 0 <= i < |items| && items[i].medication == id ==> items[i] == item
    ensures !Referenced(RemoveItem(items, item), id)
  {
  }

  /** The medication table without the row(s) whose key is `id`, in the same order. */
  function RemoveMedication(ms: seq<Medication>, id: MedicationId): (r: seq<Medication>)
    ensures forall m :: m in r <==> m in ms && m.id != id
    ensures !HasMedication(r, id)
    ensures WellKeyed(ms) ==> WellKeyed(r)
  {
    if ms == [] then []
    else if ms[0].id == id then RemoveMedication(ms[1..], id)
    else
      var rest := RemoveMedication(ms[1..], id);
      assert forall k :: 0 <= k < |rest| ==> rest[k] in ms[1..];
      [ms[0]] + rest
  }

  // ---------------------------------------------------------------------
  // The store
  // ---------------------------------------------------------------------

  /** The errors the database raises on the rules modelled here. */
  datatype StoreError =
    | UniqueViolation      // a unique or unique-together constraint is broken
    | ForeignKeyViolation  // a row refers to a medication that does not exist
    | Protected            // a protected row is still referred to

  /** The connection, medication and prescription-item tables. */
  class Store {
    var connections: seq<Connection>
    var medications: seq<Medication>
    var nextMedicationId: MedicationId
    var items: seq<PrescriptionItem>

    ghost predicate Valid()
      reads this
    {
      && UniquePairs(connections)
      && WellKeyed(medications)
      && (forall i :: 0 <= i < |medications| ==> medications[i].id < nextMedicationId)
      && (forall i :: 0 <= i < |items| ==> HasMedication(medications, items[i].medication))
    }

    constructor ()
      ensures Valid()
      ensures connections == [] && medications == [] && items == []
    {
      connections, medications, nextMedicationId, items := [], [], 0, [];
    }

    /** A patient asks `doctor` for a connection. The row is refused when the pair is
        already linked; otherwise it is added in the default status. */
    method RequestConnection(patient: PatientId, doctor: DoctorId, now: Timestamp)
      returns (r: Result<Connection, StoreError>)
      requires Valid()
      modifies this
      ensures Valid()
      ensures medications == old(medications) && nextMedicationId == old(nextMedicationId) && items == old(items)
      ensures old(HasPair(connections, patient, doctor)) ==>
                r == Failure(UniqueViolation) && connections == old(connections)
      ensures !old(HasPair(connections, patient, doctor)) ==>
                && r == Success(Connection(patient, doctor, DefaultStatus, now, None, None))
                && connections == old(connections) + [r.value]
    {
      var k := FindPair(connections, patient, doctor);
      if k.Some? {
        return Failure(UniqueViolation);
      }
      var c := Connection(patient, doctor, DefaultStatus, now, None, None);
      connections := connections + [c];
      r := Success(c);
    }

    /** Adds a medication under the next primary key; a name already present is refused. */
    method AddMedication(name: string) returns (r: Result<Medication, StoreError>)
      requires Valid()
      modifies this
      ensures Valid()
      ensures connections == old(connections) && items == old(items)
      ensures old(HasName(medications, name)) ==>
                r == Failure(UniqueViolation) && medications == old(medications)
                && nextMedicationId == old(nextMedicationId)
      ensures !old(HasName(medications, name)) ==>
                && r == Success(Medication(old(nextMedicationId), name))
                && medications == old(medications) + [r.value]
                && nextMedicationId == old(nextMedicationId) + 1
    {
      if exists i | 0 <= i < |medications| :: medications[i].name == name {
        return Failure(UniqueViolation);
      }
      var m := Medication(nextMedicationId, name);
      ghost var before := medications;
      medications := medications + [m];
      forall i | 0 <= i < |items|
        ensures HasMedication(medications, items[i].medication)
      {
        var j :| 0 <= j < |before| && before[j].id == items[i].medication;
        assert medications[j] == before[j];
      }
      nextMedicationId := nextMedicationId + 1;
      r := Success(m);
    }

    /** Saves `item`: the end date is derived first, then the row is written, which
        the database refuses when its medication does not exist. */
    method SaveItem(item: PrescriptionItem) returns (r: Result<PrescriptionItem, StoreError>)
      requires Valid()
      modifies this, item
      ensures Valid()
      ensures connections == old(connections) && medications == old(medications)
      ensures nextMedicationId == old(nextMedicationId)
      ensures item.endDate == DerivedEndDate(old(item.startDate), old(item.durationValue),
                                             old(item.durationUnit), old(item.endDate))
      ensures item.startDate == old(item.startDate) && item.durationValue == old(item.durationValue)
      ensures item.durationUnit == old(item.durationUnit)
      ensures !HasMedication(medications, item.medication) ==>
                r == Failure(ForeignKeyViolation) && items == old(items)
      ensures HasMedication(medications, item.medication) ==>
                && r == Success(item)
                && items == if item in old(items) then old(items) else old(items) + [item]
    {
      item.Save();
      if !exists i | 0 <= i < |medications| :: medications[i].id == item.medication {
        return Failure(ForeignKeyViolation);
      }
      if item !in items {
        items := items + [item];
      }
      r := Success(item);
    }

    /** Deletes medication `id`; refused while any prescription item refers to it. */
    method DeleteMedication(id: MedicationId) returns (r: Result<MedicationId, StoreError>)
      requires Valid()
      modifies this
      ensures Valid()
      ensures connections == old(connections) && items == old(items)
      ensures nextMedicationId == old(nextMedicationId)
      ensures Referenced(items, id) ==> r == Failure(Protected) && medications == old(medications)
      ensures !Referenced(items, id) ==>
                r == Success(id) && medications == RemoveMedication(old(medications), id)
    {
      if exists i | 0 <= i < |items| :: items[i].medication == id {
        return Failure(Protected);
      }
      ghost var before := medications;
      medications := RemoveMedication(medications, id);
      forall i | 0 <= i < |items|
        ensures HasMedication(medications, items[i].medication)
      {
        DeleteKeepsOthers(before, id, items[i].medication);
      }
      forall i | 0 <= i < |medications|
        ensures medications[i].id < nextMedicationId
      {
        assert medications[i] in before;
      }
      r := Success(id);
    }

    /** Deletes prescription item `item`; a row that is not stored is left alone. */
    method DeleteItem(item: PrescriptionItem)
      requires Valid()
      modifies this
      ensures Valid()
      ensures connections == old(connections) && medications == old(medications)
      ensures nextMedicationId == old(nextMedicationId)
      ensures items == RemoveItem(old(items), item)
    {
      ghost var before := items;
      items := RemoveItem(items, item);
      forall i | 0 <= i < |items|
        ensures HasMedication(medications, items[i].medication)
      {
        assert items[i] in before;
        var j :| 0 <= j < |before| && before[j] == items[i];
      }
    }
  }

  /** A medication can be deleted once the prescription items referring to it are
      deleted, and not before. */
  method ProtectScenario(start: Date) {
    var store := new Store();
    var added := store.AddMedication("Amoxicillin");
    var med := added.value;
    assert store.medications == [med] && store.medications[0].id == med.id;
    var item := new PrescriptionItem(med.id, Some(start), Some(7), Some(Days), None);
    var saved := store.SaveItem(item);
    assert saved == Success(item) && item.endDate == Some(start + 7);
    assert store.items == [item];
    var refused := store.DeleteMedication(med.id);
    assert refused == Failure(Protected);
    store.DeleteItem(item);
    LastReferenceRemoved([item], item, med.id);
    var deleted := store.DeleteMedication(med.id);
    assert deleted == Success(med.id);
    assert !HasMedication(store.medications, med.id);
  }

  /** The rows that survive a permitted delete are exactly the others, so every
      remaining prescription item still finds its medication. */
  lemma DeleteKeepsOthers(ms: seq<Medication>, id: MedicationId, other: MedicationId)
    requires other != id
    ensures HasMedication(RemoveMedication(ms, id), other) <==> HasMedication(ms, other)
  {
    var r := RemoveMedication(ms, id);
    if HasMedication(ms, other) {
      var j :| 0 <= j < |ms| && ms[j].id == other;
      assert ms[j] in r;
    }
    if HasMedication(r, other) {
      var j :| 0 <= j < |r| && r[j].id == other;
      assert r[j] in ms;
    }
  }
}
