/** The dashboard: four status classifiers over fixed clinical thresholds and
    the four metric cards derived from the latest record (the head of the
    store's list), with a fixed display when the store is empty. */
module Dashboard {
  import opened Wrappers
  import opened HealthRecords
  import Js

  /** A three-level severity tag. */
  datatype Status = Normal | Warning | Danger

  /** The order of severity: normal below warning below danger. */
  function Severity(s: Status): nat {
    match s
    case Normal => 0
    case Warning => 1
    case Danger => 2
  }

  /** `getBMIStatus`: normal on [18.5, 25), danger from 30 on, warning
      below 18.5 and on [25, 30). */
  function BmiStatus(bmi: real): (s: Status)
    ensures s == Normal <==> 18.5 <= bmi < 25.0
    ensures s == Danger <==> 30.0 <= bmi
    ensures s == Warning <==> bmi < 18.5 || (25.0 <= bmi < 30.0)
  {
    if bmi < 18.5 then Warning
    else if bmi >= 18.5 && bmi < 25.0 then Normal
    else if bmi >= 25.0 && bmi < 30.0 then Warning
    else Danger
  }

  /** `getHeartRateStatus`: normal exactly on [60, 100]; never danger. */
  function HeartRateStatus(hr: real): (s: Status)
    ensures s != Danger
    ensures s == Normal <==> 60.0 <= hr <= 100.0
  {
    if hr < 60.0 || hr > 100.0 then Warning else Normal
  }

  /** `getBloodPressureStatus`: danger above 140/90, warning above 130/80,
      normal when both readings are at or below 130 and 80. */
  function BloodPressureStatus(sys: real, dia: real): (s: Status)
    ensures s == Normal <==> sys <= 130.0 && dia <= 80.0
    ensures s == Danger <==> sys > 140.0 || dia > 90.0
    ensures s == Warning <==> (sys > 130.0 || dia > 80.0) && sys <= 140.0 && dia <= 90.0
  {
    if sys > 140.0 || dia > 90.0 then Danger
    else if sys > 130.0 || dia > 80.0 then Warning
    else Normal
  }

  /** `getGlucoseStatus`: normal on [70, 100], warning on (100, 140],
      danger outside [70, 140]. */
  function GlucoseStatus(glucose: real): (s: Status)
    ensures s == Normal <==> 70.0 <= glucose <= 100.0
    ensures s == Warning <==> 100.0 < glucose <= 140.0
    ensures s == Danger <==> glucose < 70.0 || glucose > 140.0
  {
    if glucose < 70.0 || glucose > 140.0 then Danger
    else if glucose > 100.0 then Warning
    else Normal
  }

  /** Raising either blood-pressure reading never lowers the severity. */
  lemma BloodPressureMonotone(sys: real, dia: real, sys': real, dia': real)
    requires sys <= sys' && dia <= dia'
    ensures Severity(BloodPressureStatus(sys, dia)) <= Severity(BloodPressureStatus(sys', dia'))
  {
  }

  /** Sample readings on both sides of the thresholds. */
  lemma ThresholdExamples()
    ensures BmiStatus(24.9) == Normal && BmiStatus(18.4) == Warning && BmiStatus(30.0) == Danger
    ensures BloodPressureStatus(141.0, 70.0) == Danger
    ensures BloodPressureStatus(131.0, 70.0) == Warning
    ensures BloodPressureStatus(120.0, 80.0) == Normal
    ensures HeartRateStatus(59.0) == Warning && HeartRateStatus(60.0) == Normal && HeartRateStatus(101.0) == Warning
    ensures GlucoseStatus(100.0) == Normal && GlucoseStatus(140.0) == Warning && GlucoseStatus(69.0) == Danger
  {
  }

  /** The latest record is the head of the list: the one added last, whatever its date. */
  function LatestRecord(records: seq<HealthRecord>): (latest: Option<HealthRecord>)
    ensures latest.None? <==> |records| == 0
    ensures latest.Some? ==> latest.value == records[0]
  {
    if |records| > 0 then Some(records[0]) else None
  }

  /** One metric card: the text shown and its status. */
  datatype Card = Card(value: string, status: Status)

  /** The four cards of the dashboard. */
  datatype View = View(heartRate: Card, bloodPressure: Card, glucose: Card, bmi: Card)

  /** The cards for the given store. Number formatting and the BMI are not
      modelled: `show` stands for `Number.prototype.toString`, `bmiText(r)`
      for the one-decimal BMI text of `r` and `bmiValue(r)` for that text
      read back as a number. */
  function DashboardView(
    records: seq<HealthRecord>,
    show: real -> string,
    bmiText: HealthRecord -> string,
    bmiValue: HealthRecord -> real): (v: View)
    ensures |records| == 0 ==>
      v == View(Card("0", Normal), Card("0/0", Normal), Card("0", Normal), Card("0.0", Warning))
    ensures |records| > 0 ==>
      && v.heartRate.status == HeartRateStatus(records[0].heartRate)
      && v.bloodPressure.status == BloodPressureStatus(records[0].bloodPressureSystolic, records[0].bloodPressureDiastolic)
      && v.glucose.status == GlucoseStatus(records[0].glucose)
      && v.bmi == Card(bmiText(records[0]), BmiStatus(bmiValue(records[0])))
      && v.bloodPressure.value == show(records[0].bloodPressureSystolic) + "/" + show(records[0].bloodPressureDiastolic)
      && v.heartRate.value == Js.OrString(show(records[0].heartRate), "0")
      && v.glucose.value == Js.OrString(show(records[0].glucose), "0")
  {
    match LatestRecord(records)
    case None =>
      // `parseFloat('0.0')` is 0, which the BMI classifier calls a warning.
      View(Card(Js.OrString("", "0"), Normal),
           Card("0/0", Normal),
           Card(Js.OrString("", "0"), Normal),
           Card("0.0", BmiStatus(0.0)))
    case Some(r) =>
      View(Card(Js.OrString(show(r.heartRate), "0"), HeartRateStatus(r.heartRate)),
           Card(show(r.bloodPressureSystolic) + "/" + show(r.bloodPressureDiastolic),
                BloodPressureStatus(r.bloodPressureSystolic, r.bloodPressureDiastolic)),
           Card(Js.OrString(show(r.glucose), "0"), GlucoseStatus(r.glucose)),
           Card(bmiText(r), BmiStatus(bmiValue(r))))
  }

  /** The dashboard depends on the head of the list only. */
  lemma ViewDependsOnHeadOnly(
    records: seq<HealthRecord>, others: seq<HealthRecord>,
    show: real -> string, bmiText: HealthRecord -> string, bmiValue: HealthRecord -> real)
    requires |records| > 0 && |others| > 0 && records[0] == others[0]
    ensures DashboardView(records, show, bmiText, bmiValue) == DashboardView(others, show, bmiText, bmiValue)
  {
  }

  /** After a record is added, the dashboard shows that record. */
  lemma ViewShowsLastAdded(
    records: seq<HealthRecord>, record: HealthRecord,
    show: real -> string, bmiText: HealthRecord -> string, bmiValue: HealthRecord -> real)
    ensures DashboardView(AddRecord(records, record), show, bmiText, bmiValue)
         == DashboardView([record], show, bmiText, bmiValue)
  {
  }

  /** With the seeded store, "latest" is record "1" dated 2025-01-01,
      although record "3" is dated 2025-01-10: recency is insertion order,
      not date. */
  lemma SeededLatestIsNotNewestDate()
    ensures LatestRecord(InitialState().records) == Some(InitialState().records[0])
    ensures InitialState().records[0].date == "2025-01-01"
    ensures InitialState().records[2].date == "2025-01-10"
  {
  }

  /** The seeded head record is all-normal on the dashboard. */
  lemma SeededStatusesNormal()
    ensures HeartRateStatus(InitialState().records[0].heartRate) == Normal
    ensures BloodPressureStatus(InitialState().records[0].bloodPressureSystolic,
                                InitialState().records[0].bloodPressureDiastolic) == Normal
    ensures GlucoseStatus(InitialState().records[0].glucose) == Normal
  {
  }
}
