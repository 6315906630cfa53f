/**
  The production entry form: its field values, the validation that decides
  whether a record may be submitted, the process selector that fills in the
  process name, and what a submission sends and leaves in the form.
 */
module EntryForm {
  import opened Wrappers
  import opened Types

  /** The form's values; an empty date input is `None`. */
  datatype FormData = FormData(
    date: Option<Day>,
    productId: string,
    processId: string,
    processName: string,
    actualQuantity: int,
    defectCount: int,
    workMinutes: int,
    workerName: string,
    notes: string)

  /** The form the page opens with: today's date and every other field empty or zero. */
  function DefaultForm(today: Day): FormData {
    FormData(Some(today), "", "", "", 0, 0, 0, "", "")
  }

  /** A validation message: a required field is empty, a count is negative, or defects exceed the output. */
  datatype ErrorKind = Missing | Negative | ExceedsActual

  /** The form's messages, at most one per field that can carry one (`errors`). */
  datatype Messages = Messages(
    date: Option<ErrorKind>,
    productId: Option<ErrorKind>,
    processId: Option<ErrorKind>,
    actualQuantity: Option<ErrorKind>,
    defectCount: Option<ErrorKind>,
    workMinutes: Option<ErrorKind>,
    workerName: Option<ErrorKind>)

  /** No field carries a message (`Object.keys(newErrors).length === 0`). */
  predicate NoMessages(m: Messages) {
    && m.date.None? && m.productId.None? && m.processId.None? && m.actualQuantity.None?
    && m.defectCount.None? && m.workMinutes.None? && m.workerName.None?
  }

  /**
    `validateForm`: the messages of the form, checked in order, a later
    message on the same field replacing an earlier one (so "exceeds the
    actual quantity" wins over "negative" on the defect count).
   */
  function Validate(f: FormData): (errs: Messages)
    ensures errs.date == if f.date.None? then Some(Missing) else None
    ensures errs.productId == if |f.productId| == 0 then Some(Missing) else None
    ensures errs.processId == if |f.processId| == 0 then Some(Missing) else None
    ensures errs.actualQuantity == if f.actualQuantity < 0 then Some(Negative) else None
    ensures errs.defectCount ==
      if f.defectCount > f.actualQuantity then Some(ExceedsActual)
      else if f.defectCount < 0 then Some(Negative)
      else None
    ensures errs.workMinutes == if f.workMinutes < 0 then Some(Negative) else None
    ensures errs.workerName == if |f.workerName| == 0 then Some(Missing) else None
  {
    var e0 := Messages(None, None, None, None, None, None, None);
    var e1 := e0.(date := if f.date.None? then Some(Missing) else e0.date);
    var e2 := e1.(productId := if |f.productId| == 0 then Some(Missing) else e1.productId);
    var e3 := e2.(processId := if |f.processId| == 0 then Some(Missing) else e2.processId);
    var e4 := e3.(actualQuantity := if f.actualQuantity < 0 then Some(Negative) else e3.actualQuantity);
    var e5 := e4.(defectCount := if f.defectCount < 0 then Some(Negative) else e4.defectCount);
    var e6 := e5.(defectCount := if f.defectCount > f.actualQuantity then Some(ExceedsActual) else e5.defectCount);
    var e7 := e6.(workMinutes := if f.workMinutes < 0 then Some(Negative) else e6.workMinutes);
    e7.(workerName := if |f.workerName| == 0 then Some(Missing) else e7.workerName)
  }

  /** Every required field is filled and every count is within its bounds. */
  predicate Acceptable(f: FormData) {
    && f.date.Some?
    && |f.productId| > 0 && |f.processId| > 0 && |f.workerName| > 0
    && 0 <= f.defectCount <= f.actualQuantity
    && f.workMinutes >= 0
  }

  /** The form validates exactly when it is acceptable; then defects lie between 0 and the output. */
  lemma ValidateIffAcceptable(f: FormData)
    ensures NoMessages(Validate(f)) <==> Acceptable(f)
    ensures NoMessages(Validate(f)) ==> 0 <= f.defectCount <= f.actualQuantity && f.workMinutes >= 0
  {
  }

  /** A defect count above a negative output is reported as exceeding it, not as negative. */
  lemma ExceedsOverridesNegative(f: FormData)
    requires f.defectCount < 0 && f.defectCount > f.actualQuantity
    ensures Validate(f).defectCount == Some(ExceedsActual)
  {
  }

  /** The position of the first entry with the id (`Array.prototype.find`). */
  function FindEntry(entries: seq<Entry>, id: string): (k: Option<nat>)
    ensures k.Some? ==> k.value < |entries| && entries[k.value].id == id
    ensures k.Some? ==> forall j :: 0 <= j < k.value ==> entries[j].id != id
    ensures k.None? ==> forall j :: 0 <= j < |entries| ==> entries[j].id != id
    decreases |entries|
  {
    if |entries| == 0 then None
    else if entries[0].id == id then Some(0)
    else match FindEntry(entries[1..], id)
      case None => None
      case Some(k) => Some(k + 1)
  }

  /** Position `j` holds the first entry whose id is `id`. */
  ghost predicate IsFirstEntry(entries: seq<Entry>, id: string, j: int) {
    0 <= j < |entries| && entries[j].id == id && forall i :: 0 <= i < j ==> entries[i].id != id
  }

  /**
    The `processId` branch of `handleChange`: the chosen id is stored and the
    process name becomes the name of the first process with that id, or the
    empty string when there is none. Nothing else in the form changes.
   */
  function SelectProcess(f: FormData, processes: seq<Entry>, value: string): (r: FormData)
    ensures r == f.(processId := value, processName := r.processName)
    ensures forall j :: IsFirstEntry(processes, value, j) ==> r.processName == processes[j].name
    ensures (forall j :: 0 <= j < |processes| ==> processes[j].id != value) ==> r.processName == ""
  {
    var name := match FindEntry(processes, value) case Some(k) => processes[k].name case None => "";
    f.(processId := value, processName := name)
  }

  /** The form as a record; fields the form does not have take their empty values. */
  function RecordOf(id: string, f: FormData): (r: Record)
    requires f.date.Some?
  {
    Record(id, f.date.value, f.productId, "", f.processId, f.processName, None,
           f.actualQuantity, f.defectCount, f.workMinutes, 0.0, 0, f.workerName, f.notes)
  }

  /** What the form shows for a record being edited (the effect on `initialData`). */
  function LoadForm(r: Record): (f: FormData)
    ensures f.date == Some(r.date)
    ensures f.productId == r.productId && f.processId == r.processId && f.processName == r.processName
    ensures f.actualQuantity == r.actualQuantity && f.defectCount == r.defectCount
    ensures f.workMinutes == r.workMinutes
    ensures f.workerName == r.workerName && f.notes == r.notes
  {
    FormData(Some(r.date), r.productId, r.processId, r.processName,
             r.actualQuantity, r.defectCount, r.workMinutes, r.workerName, r.notes)
  }

  /** The result of pressing "save": the record handed on, the form afterwards, the messages shown. */
  datatype SubmitOutcome = SubmitOutcome(submitted: Option<Record>, form: FormData, errors: Messages)

  /**
    `handleSubmit`: an invalid form submits nothing and stays as it is. A
    valid form submits a record under the initial record's id when that id is
    non-empty and under the fresh id otherwise, and is reset to the default
    form unless it is editing.
   */
  function Submit(f: FormData, initialId: Option<string>, freshId: string, isEditing: bool, today: Day): (o: SubmitOutcome)
    ensures o.errors == Validate(f)
    ensures o.submitted.Some? <==> Acceptable(f)
    ensures o.submitted.Some? ==> ValidRecord(o.submitted.value)
    ensures o.submitted.Some? ==>
      o.submitted.value.id == if initialId.Some? && |initialId.value| > 0 then initialId.value else freshId
    ensures o.submitted.None? || isEditing ==> o.form == f
    ensures o.submitted.Some? && !isEditing ==> o.form == DefaultForm(today)
  {
    ValidateIffAcceptable(f);
    var errs := Validate(f);
    if !NoMessages(errs) then SubmitOutcome(None, f, errs)
    else
      var id := if initialId.Some? && |initialId.value| > 0 then initialId.value else freshId;
      SubmitOutcome(Some(RecordOf(id, f)), if isEditing then f else DefaultForm(today), errs)
  }

  /** A record the form wrote, loaded for editing and saved unchanged, comes back as it was. */
  lemma EditRoundTrip(r: Record, freshId: string, today: Day)
    requires |r.id| > 0 && r.productName == "" && r.plannedQuantity.None? && r.workHours == 0.0 && r.workers == 0
    requires Acceptable(LoadForm(r))
    ensures Submit(LoadForm(r), Some(r.id), freshId, true, today).submitted == Some(r)
    ensures Submit(LoadForm(r), Some(r.id), freshId, true, today).form == LoadForm(r)
  {
  }

  /** A new entry is saved under the fresh id and clears the form for the next one. */
  lemma NewEntryUsesFreshId(f: FormData, freshId: string, today: Day)
    requires Acceptable(f)
    ensures Submit(f, None, freshId, false, today).submitted.value.id == freshId
    ensures Submit(f, None, freshId, false, today).form == DefaultForm(today)
  {
  }
}
