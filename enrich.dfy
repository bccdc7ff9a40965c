/**
  The column each script adds to the hourly table: `Period` (`process.py`,
  "Day" from 07:00 to 18:59, "Night" otherwise) or `Meters` (`new_process.py`,
  revolutions times the wheel circumference of 0.060198 m).
*/
module Enrich {

  import opened Calendar
  import opened Hourly
  import opened Reshape
  import Arith

  /** `label_period`: "Day" when the clock hour is 7 to 18, "Night" otherwise. */
  function LabelPeriod(t: int): (period: string)
    ensures period == "Day" || period == "Night"
    ensures period == "Day" <==> 7 <= HourOfDay(t) < 19
  {
    if 7 <= HourOfDay(t) < 19 then "Day" else "Night"
  }

  /** The label of a parsed value depends on its written hour field only. */
  lemma PeriodOfDateTime(dt: DateTime)
    requires Valid(dt)
    ensures LabelPeriod(ToSeconds(dt)) == (if 7 <= dt.hour < 19 then "Day" else "Night")
  {
    ClockFields(dt);
  }

  /** Cutting a timestamp down to its hour keeps its clock hour. */
  lemma HourOfHourStart(t: int)
    ensures HourOfDay(HourStart(t)) == HourOfDay(t)
  {
    var q, r := t / SecondsPerDay, t % SecondsPerDay;
    var h, m := r / Hour, r % Hour;
    assert t == (24 * q + h) * Hour + m;
    Arith.DivMod(t, Hour, 24 * q + h, m);
    assert HourStart(t) == q * SecondsPerDay + h * Hour;
    Arith.DivMod(HourStart(t), SecondsPerDay, q, h * Hour);
    Arith.DivMod(h * Hour, Hour, h, 0);
  }

  /**
    Labelling the hourly buckets gives each of them the label of every
    reading it holds.
  */
  lemma PeriodWithinHour(t: int)
    ensures LabelPeriod(HourStart(t)) == LabelPeriod(t)
  {
    HourOfHourStart(t);
  }

  /** Metres per wheel revolution. */
  const MetersPerRevolution: real := 0.060198

  /** `Revolutions * 0.060198`, in exact arithmetic. */
  function Meters(revs: nat): (m: real)
    ensures m >= 0.0
    ensures m == 0.0 <==> revs == 0
  {
    revs as real * MetersPerRevolution
  }

  /** Which script's column is added. */
  datatype Column = PeriodColumn | MetersColumn

  /** The value of the added column. */
  datatype Derived = Period(name: string) | Distance(meters: real)

  /** One row of a script's hourly output: the bucket and the added column. */
  datatype Row = Row(bucket: Bucket, derived: Derived)

  /** The added cell of one bucket: its day or night label, or the distance run in it. */
  function Derive(b: Bucket, c: Column): (d: Derived)
    ensures c == PeriodColumn ==> d.Period? && (d.name == "Day" <==> 7 <= HourOfDay(b.start) < 19)
    ensures c == PeriodColumn ==> d.name == "Day" || d.name == "Night"
    ensures c == MetersColumn ==> d.Distance? && d.meters >= 0.0 && (d.meters == 0.0 <==> b.revolutions == 0)
  {
    match c
    case PeriodColumn => Period(LabelPeriod(b.start))
    case MetersColumn => Distance(Meters(b.revolutions))
  }

  /** The hourly table with the column added; the bucket columns are left as they are. */
  function AddColumn(b: seq<Bucket>, c: Column): (rows: seq<Row>)
    ensures |rows| == |b|
    ensures forall k :: 0 <= k < |rows| ==> rows[k].bucket == b[k] && rows[k].derived == Derive(b[k], c)
  {
    seq(|b|, k requires 0 <= k < |b| => Row(b[k], Derive(b[k], c)))
  }

  /** The rows of one subject, in table order: one `groupby("MouseID")` group. */
  function RowsOf(rows: seq<Row>, s: string): (g: seq<Row>)
    ensures forall k :: 0 <= k < |g| ==> g[k].bucket.subject == s
    ensures forall x :: x in g <==> x in rows && x.bucket.subject == s
  {
    if rows == [] then []
    else if rows[0].bucket.subject == s then [rows[0]] + RowsOf(rows[1..], s)
    else RowsOf(rows[1..], s)
  }

  /** The column added to a non-empty table: its first row, then the rest. */
  lemma AddColumnCons(b: seq<Bucket>, c: Column)
    requires b != []
    ensures AddColumn(b, c) == [Row(b[0], Derive(b[0], c))] + AddColumn(b[1..], c)
  {
  }

  /** Adding the column and then taking one subject's rows is taking its buckets and then adding the column. */
  lemma {:induction false} RowsOfAddColumn(b: seq<Bucket>, c: Column, s: string)
    ensures RowsOf(AddColumn(b, c), s) == AddColumn(BucketsOf(b, s), c)
  {
    if b != [] {
      var rows := AddColumn(b, c);
      AddColumnCons(b, c);
      assert rows[0] == Row(b[0], Derive(b[0], c)) && rows[1..] == AddColumn(b[1..], c);
      RowsOfAddColumn(b[1..], c, s);
      if b[0].subject == s {
        AddColumnCons(BucketsOf(b, s), c);
      }
    }
  }

  /**
    The group of subject s in a script's output: its hourly series, from the
    hour of its first reading to the hour of its last, with the added column.
  */
  lemma SubjectGroup(obs: seq<Observation>, c: Column, s: string)
    ensures RowsOf(AddColumn(Aggregate(obs), c), s) ==
      if HasSubject(obs, s) then AddColumn(Resample(obs, s), c) else []
  {
    RowsOfAddColumn(Aggregate(obs), c, s);
    SubjectRows(obs, s);
  }

  /** Every reading lies in a row labelled with the period of the reading's own clock hour. */
  lemma ReadingLabelled(obs: seq<Observation>, i: nat)
    requires i < |obs|
    ensures var rows := AddColumn(Aggregate(obs), PeriodColumn);
      exists k :: 0 <= k < |rows| &&
        rows[k].bucket.subject == obs[i].subject &&
        rows[k].bucket.start == HourStart(obs[i].time) &&
        rows[k].derived == Period(LabelPeriod(obs[i].time))
  {
    var r := Aggregate(obs);
    ObservationBucketed(obs, i);
    var j :| 0 <= j < |r| && r[j].subject == obs[i].subject && r[j].start == HourStart(obs[i].time);
    PeriodWithinHour(obs[i].time);
    assert AddColumn(r, PeriodColumn)[j].derived == Period(LabelPeriod(obs[i].time));
  }

  /** The bucket part of each row. */
  function BucketsOfRows(rows: seq<Row>): (b: seq<Bucket>)
    ensures |b| == |rows|
    ensures forall k :: 0 <= k < |b| ==> b[k] == rows[k].bucket
  {
    seq(|rows|, k requires 0 <= k < |rows| => rows[k].bucket)
  }

  /** Adding a column leaves the hourly table recoverable as it was. */
  lemma DropColumn(b: seq<Bucket>, c: Column)
    ensures BucketsOfRows(AddColumn(b, c)) == b
  {
  }

  /** The metres of a table, summed from the front. */
  function SumMeters(rows: seq<Row>): real {
    if rows == [] then 0.0
    else SumMeters(rows[..|rows| - 1]) + (match rows[|rows| - 1].derived
      case Distance(m) => m
      case Period(_) => 0.0)
  }

  /** Meters grows with the revolutions. */
  lemma MetersMonotone(a: nat, b: nat)
    requires a <= b
    ensures Meters(a) <= Meters(b)
  {
  }

  /** The metres column adds up to the metres of the summed revolutions. */
  lemma {:induction false} MetersOfSum(b: seq<Bucket>)
    ensures SumMeters(AddColumn(b, MetersColumn)) == Meters(SumRevolutions(b))
  {
    if b != [] {
      var rows := AddColumn(b, MetersColumn);
      assert rows[..|rows| - 1] == AddColumn(b[..|b| - 1], MetersColumn);
      MetersOfSum(b[..|b| - 1]);
    }
  }

  /** A subject's metres in the hourly output are the metres of all its readings. */
  lemma MetersConserved(obs: seq<Observation>, s: string)
    ensures SumMeters(RowsOf(AddColumn(Aggregate(obs), MetersColumn), s)) == Meters(Total(obs, s))
  {
    RowsOfAddColumn(Aggregate(obs), MetersColumn, s);
    MetersOfSum(BucketsOf(Aggregate(obs), s));
    SubjectTotalConserved(obs, s);
  }
}
