/** The trend charts: the store's list is copied and reversed, so the oldest
    record comes first, and each record is projected onto the chosen metric.
    The BMI value of a point (a floating-point division rounded to one
    decimal) is a parameter. */
module HealthChart {
  import opened HealthRecords

  datatype Metric = HeartRateMetric | BloodPressureMetric | GlucoseMetric | BmiMetric

  /** One chart point: a single value, or the two blood-pressure readings. */
  datatype Point =
    | ValuePoint(date: string, value: real)
    | PressurePoint(date: string, systolic: real, diastolic: real)

  /** The list in the opposite order. */
  function Reversed<T>(s: seq<T>): (r: seq<T>)
    ensures |r| == |s|
    ensures forall i :: 0 <= i < |s| ==> r[i] == s[|s| - 1 - i]
  {
    if |s| == 0 then [] else Reversed(s[1..]) + [s[0]]
  }

  /** The point a record contributes to the chart of `metric`. */
  function Project(record: HealthRecord, metric: Metric, bmi: HealthRecord -> real): (p: Point)
    ensures p.date == record.date
    ensures p.PressurePoint? <==> metric == BloodPressureMetric
  {
    match metric
    case HeartRateMetric => ValuePoint(record.date, record.heartRate)
    case BloodPressureMetric => PressurePoint(record.date, record.bloodPressureSystolic, record.bloodPressureDiastolic)
    case GlucoseMetric => ValuePoint(record.date, record.glucose)
    case BmiMetric => ValuePoint(record.date, bmi(record))
  }

  /** `chartData`: one point per record, oldest first. */
  function ChartData(records: seq<HealthRecord>, metric: Metric, bmi: HealthRecord -> real): (points: seq<Point>)
    ensures |points| == |records|
    ensures forall i :: 0 <= i < |records| ==> points[i] == Project(records[|records| - 1 - i], metric, bmi)
    ensures forall i :: 0 <= i < |records| ==> points[i].date == records[|records| - 1 - i].date
  {
    var oldestFirst := Reversed(records);
    seq(|oldestFirst|, i requires 0 <= i < |oldestFirst| => Project(oldestFirst[i], metric, bmi))
  }

  /** Each metric reads the fields it is named after. */
  lemma MetricFields(records: seq<HealthRecord>, bmi: HealthRecord -> real, i: nat)
    requires i < |records|
    ensures var r := records[|records| - 1 - i];
      && ChartData(records, HeartRateMetric, bmi)[i] == ValuePoint(r.date, r.heartRate)
      && ChartData(records, GlucoseMetric, bmi)[i] == ValuePoint(r.date, r.glucose)
      && ChartData(records, BloodPressureMetric, bmi)[i] == PressurePoint(r.date, r.bloodPressureSystolic, r.bloodPressureDiastolic)
      && ChartData(records, BmiMetric, bmi)[i] == ValuePoint(r.date, bmi(r))
  {
  }

  /** Reversing twice gives the list back. */
  lemma ReversedInvolution<T>(s: seq<T>)
    ensures Reversed(Reversed(s)) == s
  {
  }

  /** A newly added record appears as the last point of every chart. */
  lemma AddedRecordPlotsLast(records: seq<HealthRecord>, record: HealthRecord, metric: Metric, bmi: HealthRecord -> real)
    ensures ChartData(AddRecord(records, record), metric, bmi)
         == ChartData(records, metric, bmi) + [Project(record, metric, bmi)]
  {
  }

  /** The seeded store plots its dates newest first, because its head
      record carries the oldest date. */
  lemma SeededChartDates(metric: Metric, bmi: HealthRecord -> real)
    ensures var points := ChartData(InitialState().records, metric, bmi);
      && points[0].date == "2025-01-10"
      && points[1].date == "2025-01-05"
      && points[2].date == "2025-01-01"
  {
  }
}
