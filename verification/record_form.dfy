/** The record form: a declarative schema of inclusive ranges plus a
    required date, the default values the form opens with, and the
    construction of a record from accepted values. Values arrive already
    numeric (string-to-number coercion is not modelled). */
module RecordForm {
  import opened Wrappers
  import opened HealthRecords
  import Js

  /** What the form holds; `notes` is `None` when left undefined. */
  datatype FormValues = FormValues(
    date: string,
    heartRate: real,
    bloodPressureSystolic: real,
    bloodPressureDiastolic: real,
    glucose: real,
    weight: real,
    height: real,
    notes: Option<string>)

  /** The range-checked fields. */
  datatype NumericField = HeartRate | Systolic | Diastolic | Glucose | Weight | Height

  /** An inclusive range. */
  datatype Range = Range(min: real, max: real)

  function RangeOf(f: NumericField): (r: Range)
    ensures 0.0 <= r.min < r.max
  {
    match f
    case HeartRate => Range(40.0, 200.0)
    case Systolic => Range(70.0, 200.0)
    case Diastolic => Range(40.0, 130.0)
    case Glucose => Range(50.0, 300.0)
    case Weight => Range(30.0, 300.0)
    case Height => Range(100.0, 250.0)
  }

  function ValueOf(v: FormValues, f: NumericField): real {
    match f
    case HeartRate => v.heartRate
    case Systolic => v.bloodPressureSystolic
    case Diastolic => v.bloodPressureDiastolic
    case Glucose => v.glucose
    case Weight => v.weight
    case Height => v.height
  }

  /** The decimal digits of `n`, most significant first. */
  function Decimal(n: nat): (d: string)
    ensures |d| >= 1
  {
    var digit := ['0' + (n % 10) as char];
    if n < 10 then digit else Decimal(n / 10) + digit
  }

  /** A validation failure, scoped to one field. */
  datatype Issue =
    | DateRequired
    | TooSmall(field: NumericField)
    | TooLarge(field: NumericField)

  /** The message shown next to the offending field: the date's own
      message, or the violated bound of a numeric field in decimal. */
  function Message(issue: Issue): (m: string)
    ensures issue.DateRequired? <==> m == "Date is required"
    ensures issue.TooSmall? ==> m == "Must be at least " + Decimal(RangeOf(issue.field).min.Floor)
    ensures issue.TooLarge? ==> m == "Must be at most " + Decimal(RangeOf(issue.field).max.Floor)
  {
    BoundTexts();
    match issue
    case DateRequired => "Date is required"
    case TooSmall(f) =>
      "Must be at least " +
      (match f
      case HeartRate => "40"
      case Systolic => "70"
      case Diastolic => "40"
      case Glucose => "50"
      case Weight => "30"
      case Height => "100")
    case TooLarge(f) =>
      "Must be at most " +
      (match f
      case HeartRate => "200"
      case Systolic => "200"
      case Diastolic => "130"
      case Glucose => "300"
      case Weight => "300"
      case Height => "250")
  }

  /** The decimal texts of the schema's bounds. */
  lemma BoundTexts()
    ensures Decimal(30) == "30" && Decimal(40) == "40" && Decimal(50) == "50"
    ensures Decimal(70) == "70" && Decimal(100) == "100" && Decimal(130) == "130"
    ensures Decimal(200) == "200" && Decimal(250) == "250" && Decimal(300) == "300"
  {
  }

  /** The issues of one field get different messages. */
  lemma FieldMessagesDiffer(f: NumericField)
    ensures Message(TooSmall(f)) != Message(TooLarge(f))
    ensures Message(TooSmall(f)) != Message(DateRequired) && Message(TooLarge(f)) != Message(DateRequired)
  {
    assert Message(TooSmall(f))[13] != Message(TooLarge(f))[13];
  }

  /** The acceptance condition written out field by field. */
  predicate Acceptable(v: FormValues) {
    && |v.date| >= 1
    && 40.0 <= v.heartRate <= 200.0
    && 70.0 <= v.bloodPressureSystolic <= 200.0
    && 40.0 <= v.bloodPressureDiastolic <= 130.0
    && 50.0 <= v.glucose <= 300.0
    && 30.0 <= v.weight <= 300.0
    && 100.0 <= v.height <= 250.0
  }

  /** The value of field `f` lies within its inclusive range. */
  predicate InRange(v: FormValues, f: NumericField) {
    RangeOf(f).min <= ValueOf(v, f) <= RangeOf(f).max
  }

  /** The issues of one numeric field: its min check, then its max check. */
  function FieldIssues(v: FormValues, f: NumericField): (issues: seq<Issue>)
    ensures |issues| <= 1
    ensures |issues| == 0 <==> InRange(v, f)
    ensures issues == [TooSmall(f)] <==> ValueOf(v, f) < RangeOf(f).min
    ensures issues == [TooLarge(f)] <==> ValueOf(v, f) > RangeOf(f).max
    ensures forall i :: 0 <= i < |issues| ==> !issues[i].DateRequired? && issues[i].field == f
  {
    var x := ValueOf(v, f);
    var r := RangeOf(f);
    var low := if x < r.min then [TooSmall(f)] else [];
    var high := if x > r.max then [TooLarge(f)] else [];
    assert x < r.min ==> low + high == [TooSmall(f)];
    assert x > r.max ==> low + high == [TooLarge(f)];
    assert [TooLarge(f)] != [TooSmall(f)] by { assert [TooLarge(f)][0] != [TooSmall(f)][0]; }
    low + high
  }

  /** The issue of the date field. */
  function DateIssues(v: FormValues): (issues: seq<Issue>)
    ensures |issues| == 0 <==> v.date != ""
    ensures |issues| != 0 ==> issues == [DateRequired]
  {
    if |v.date| < 1 then [DateRequired] else []
  }

  /** The issues of the six numeric fields, in schema order. */
  function NumericIssues(v: FormValues): seq<Issue> {
    FieldIssues(v, HeartRate)
    + FieldIssues(v, Systolic)
    + FieldIssues(v, Diastolic)
    + FieldIssues(v, Glucose)
    + FieldIssues(v, Weight)
    + FieldIssues(v, Height)
  }

  /** The schema check: every failing check of every field, in schema order. */
  function Validate(v: FormValues): (issues: seq<Issue>)
    ensures |issues| == 0 <==> Acceptable(v)
    ensures DateRequired in issues <==> v.date == ""
    ensures forall f :: TooSmall(f) in issues <==> ValueOf(v, f) < RangeOf(f).min
    ensures forall f :: TooLarge(f) in issues <==> ValueOf(v, f) > RangeOf(f).max
  {
    var numeric := NumericIssues(v);
    NumericIssuesEmpty(v);
    forall f
      ensures TooSmall(f) in numeric <==> ValueOf(v, f) < RangeOf(f).min
      ensures TooLarge(f) in numeric <==> ValueOf(v, f) > RangeOf(f).max
    {
      NumericIssueOwnField(v, TooSmall(f));
      NumericIssueOwnField(v, TooLarge(f));
    }
    NumericIssueOwnField(v, DateRequired);
    DateIssues(v) + numeric
  }

  /** A numeric issue is reported exactly when its own field reports it,
      and the date issue is never reported by a numeric field. */
  lemma NumericIssueOwnField(v: FormValues, issue: Issue)
    ensures issue.DateRequired? ==> issue !in NumericIssues(v)
    ensures !issue.DateRequired? ==> (issue in NumericIssues(v) <==> issue in FieldIssues(v, issue.field))
  {
    forall g | issue.DateRequired? || g != issue.field
      ensures issue !in FieldIssues(v, g)
    {
    }
  }

  /** The numeric fields report nothing exactly when all six are in range. */
  lemma NumericIssuesEmpty(v: FormValues)
    ensures |NumericIssues(v)| == 0 <==> forall f :: InRange(v, f)
    ensures |NumericIssues(v)| == 0 <==> Acceptable(v.(date := "x"))
  {
  }

  /** The values a record would fill the form with. */
  function ValuesOf(r: HealthRecord): FormValues {
    FormValues(r.date, r.heartRate, r.bloodPressureSystolic, r.bloodPressureDiastolic,
               r.glucose, r.weight, r.height, r.notes)
  }

  /** Every field of a stored record lies within the schema. */
  predicate RecordAcceptable(r: HealthRecord) {
    Acceptable(ValuesOf(r))
  }

  const DefaultHeartRate: real := 72.0
  const DefaultSystolic: real := 120.0
  const DefaultDiastolic: real := 80.0
  const DefaultGlucose: real := 95.0
  const DefaultWeight: real := 70.0
  const DefaultHeight: real := 175.0

  /** The reading a new record starts with. */
  function DefaultOf(f: NumericField): real {
    match f
    case HeartRate => DefaultHeartRate
    case Systolic => DefaultSystolic
    case Diastolic => DefaultDiastolic
    case Glucose => DefaultGlucose
    case Weight => DefaultWeight
    case Height => DefaultHeight
  }

  /** `record?.field || fallback` for a numeric field. */
  function FieldOr(editing: Option<HealthRecord>, f: NumericField): real {
    if editing.Some? then Js.OrNumber(ValueOf(ValuesOf(editing.value), f), DefaultOf(f)) else DefaultOf(f)
  }

  /** The values the form opens with: the edited record's values where they
      are truthy, otherwise today's date and fixed readings. */
  function DefaultValues(editing: Option<HealthRecord>, today: string): (v: FormValues)
    ensures editing.None? ==>
      v == FormValues(today, DefaultHeartRate, DefaultSystolic, DefaultDiastolic,
                      DefaultGlucose, DefaultWeight, DefaultHeight, Some(""))
    ensures editing.None? && today != "" ==> Acceptable(v)
    ensures editing.Some? ==> v.date == (if editing.value.date != "" then editing.value.date else today)
    ensures forall f :: editing.Some? && ValueOf(ValuesOf(editing.value), f) != 0.0 ==>
      ValueOf(v, f) == ValueOf(ValuesOf(editing.value), f)
    ensures forall f :: editing.Some? && ValueOf(ValuesOf(editing.value), f) == 0.0 ==>
      ValueOf(v, f) == DefaultOf(f)
    ensures forall f :: editing.None? || ValueOf(ValuesOf(editing.value), f) == 0.0 ==> InRange(v, f)
    ensures v.notes == Some(if editing.Some? then editing.value.notes.GetOr("") else "")
    ensures editing.Some? && RecordAcceptable(editing.value) ==>
      v == ValuesOf(editing.value).(notes := Some(editing.value.notes.GetOr("")))
  {
    FormValues(
      if editing.Some? then Js.OrString(editing.value.date, today) else today,
      FieldOr(editing, HeartRate),
      FieldOr(editing, Systolic),
      FieldOr(editing, Diastolic),
      FieldOr(editing, Glucose),
      FieldOr(editing, Weight),
      FieldOr(editing, Height),
      Some(if editing.Some? && editing.value.notes.Some? then Js.OrString(editing.value.notes.value, "") else ""))
  }

  /** The record handed to the page: every value copied, the edited
      record's id kept when it is non-empty, otherwise `freshId` (the
      timestamp id) used. */
  function BuildRecord(editing: Option<HealthRecord>, values: FormValues, freshId: string): (r: HealthRecord)
    ensures ValuesOf(r) == values
    ensures editing.Some? && editing.value.id != "" ==> r.id == editing.value.id
    ensures editing.None? || editing.value.id == "" ==> r.id == freshId
  {
    HealthRecord(
      if editing.Some? then Js.OrString(editing.value.id, freshId) else freshId,
      values.date, values.heartRate, values.bloodPressureSystolic, values.bloodPressureDiastolic,
      values.glucose, values.weight, values.height, values.notes)
  }

  /** Submitting the form: the record is built only when validation passes;
      otherwise the issues are reported and nothing is built. */
  function Submit(editing: Option<HealthRecord>, values: FormValues, freshId: string): (result: Result<HealthRecord, seq<Issue>>)
    ensures result.Success? <==> Acceptable(values)
    ensures result.Success? ==> result.value == BuildRecord(editing, values, freshId) && RecordAcceptable(result.value)
    ensures result.Failure? ==> |result.error| > 0 && result.error == Validate(values)
  {
    var issues := Validate(values);
    if |issues| == 0 then Success(BuildRecord(editing, values, freshId)) else Failure(issues)
  }

  // ---------------------------------------------------------------------
  // Lemmas about the form

  /** Range bounds are inclusive: 40 and 200 pass for the heart rate, 39 and 201 fail. */
  lemma HeartRateBoundsInclusive(v: FormValues)
    requires Acceptable(v)
    ensures Acceptable(v.(heartRate := 40.0)) && Acceptable(v.(heartRate := 200.0))
    ensures !Acceptable(v.(heartRate := 39.0)) && !Acceptable(v.(heartRate := 201.0))
    ensures Validate(v.(heartRate := 39.0)) == [TooSmall(HeartRate)]
    ensures Validate(v.(heartRate := 201.0)) == [TooLarge(HeartRate)]
  {
  }

  /** Notes never decide validation. */
  lemma NotesNeverFailValidation(v: FormValues, notes: Option<string>)
    ensures Validate(v.(notes := notes)) == Validate(v)
  {
  }

  /** Opening the form on a stored, in-range record and saving it unchanged
      gives the record back, except that undefined notes become "". */
  lemma EditUnchangedRoundTrip(r: HealthRecord, today: string, freshId: string)
    requires RecordAcceptable(r) && r.id != ""
    ensures Submit(Some(r), DefaultValues(Some(r), today), freshId)
         == Success(r.(notes := Some(r.notes.GetOr(""))))
  {
  }

  /** Every seeded record passes the schema. */
  lemma SeededRecordsAcceptable()
    ensures forall i :: 0 <= i < |InitialState().records| ==> RecordAcceptable(InitialState().records[i])
  {
  }
}
