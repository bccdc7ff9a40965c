/**
  What the two scripts guarantee end to end: clean column labels, the date
  conversion chain, the per-subject files as a partition of the combined
  table, and every count of the export carried into the output once.
*/
module RunProperties {

  import opened Wrappers
  import opened Text
  import opened DateParse
  import opened Calendar
  import opened Ordering
  import opened Reshape
  import opened Hourly
  import opened Enrich
  import opened Pipeline

  // ----- Column labels -----

  /**
    After `process.py`'s cleanup every label is free of surrounding
    whitespace, the first is "Datetime", and any other is its stripped
    original unless that equals the first one's stripped label.
  */
  lemma ProcessColumnsClean(header: seq<string>)
    requires |header| >= 1
    ensures var cols := ProcessColumns(header);
      |cols| == |header| && cols[0] == DatetimeLabel
      && (forall k :: 0 <= k < |cols| ==> Trimmed(cols[k]))
      && (forall k :: 0 <= k < |cols| ==>
            cols[k] == (if Strip(header[k]) == Strip(header[0]) then DatetimeLabel else Strip(header[k])))
  {
    var stripped := StripAll(header);
    var cols := ProcessColumns(header);
    forall k | 0 <= k < |cols|
      ensures Trimmed(cols[k])
      ensures cols[k] == (if Strip(header[k]) == Strip(header[0]) then DatetimeLabel else Strip(header[k]))
    {
      assert stripped[k] == Strip(header[k]) && stripped[0] == Strip(header[0]);
      if stripped[k] == stripped[0] {
        DatetimeLabelTrimmed();
        assert cols[k] == DatetimeLabel;
      } else {
        assert cols[k] == stripped[k];
      }
    }
  }

  lemma DatetimeLabelTrimmed()
    ensures Trimmed(DatetimeLabel)
  {
  }

  /**
    `process.py` always has a "Datetime" column; it is the only one unless
    another label strips to the first one's label or to "Datetime".
  */
  lemma ProcessDatetimePlacement(header: seq<string>)
    requires |header| >= 1
    ensures !NoDatetime(ProcessColumns(header))
    ensures DatetimeFirstOnly(ProcessColumns(header)) <==>
      forall k :: 0 < k < |header| ==> Strip(header[k]) != Strip(header[0]) && Strip(header[k]) != DatetimeLabel
  {
    var cols := ProcessColumns(header);
    assert cols[0] == DatetimeLabel;
    if DatetimeFirstOnly(cols) {
      forall k | 0 < k < |header|
        ensures Strip(header[k]) != Strip(header[0]) && Strip(header[k]) != DatetimeLabel
      {
        assert cols[k] != DatetimeLabel;
      }
    }
  }

  /** `new_process.py` only relabels columns literally named "Time". */
  lemma NewProcessDatetimePlacement(header: seq<string>)
    ensures NoDatetime(NewProcessColumns(header)) <==>
      forall k :: 0 <= k < |header| ==> header[k] != "Time" && header[k] != DatetimeLabel
    ensures DatetimeFirstOnly(NewProcessColumns(header)) <==>
      |header| >= 1 && (header[0] == "Time" || header[0] == DatetimeLabel)
      && forall k :: 0 < k < |header| ==> header[k] != "Time" && header[k] != DatetimeLabel
  {
    var cols := NewProcessColumns(header);
    if NoDatetime(cols) {
      forall k | 0 <= k < |header| ensures header[k] != "Time" && header[k] != DatetimeLabel {
        assert cols[k] != DatetimeLabel;
      }
    }
    if DatetimeFirstOnly(cols) {
      forall k | 0 < k < |header| ensures header[k] != "Time" && header[k] != DatetimeLabel {
        assert cols[k] != DatetimeLabel;
      }
    }
  }

  // ----- The date conversion -----

  /** With a single "Datetime" column first, the conversion succeeds or fails with the column's values. */
  lemma ConvertChain(cols: seq<string>, stamps: seq<string>, fallback: string -> Option<int>)
    requires DatetimeFirstOnly(cols)
    ensures var conv := ConvertOutcome(cols, stamps, StrictThenFallback(fallback));
      (conv.Failure? <==>
        (exists i :: 0 <= i < |stamps| && StrictSeconds(stamps[i]).None?) &&
        (exists j :: 0 <= j < |stamps| && fallback(stamps[j]).None?))
      && (conv.Failure? ==> conv.error == DateParseError)
      && ((forall i :: 0 <= i < |stamps| ==> StrictSeconds(stamps[i]).Some?) ==>
            conv.Success? && forall i :: 0 <= i < |stamps| ==> conv.value[i] == StrictSeconds(stamps[i]).value)
  {
    assert !NoDatetime(cols) by {
      assert cols[0] == DatetimeLabel;
    }
  }

  /**
    `process.py`: the strict pattern first, the fallback only if a value
    fails it; the run stops with a date error exactly when both fail. The
    timestamps are the strict readings of the values whenever all of them
    parse, and the fallback's otherwise.
  */
  lemma ProcessDateChain(raw: RawTable, fallback: string -> Option<int>)
    requires WellFormed(raw) && DatetimeFirstOnly(ProcessColumns(raw.header))
    ensures var stamps := raw.stamps;
      ProcessOutcome(raw, fallback) == Failure(DateParseError) <==>
        (exists i :: 0 <= i < |stamps| && StrictSeconds(stamps[i]).None?) &&
        (exists j :: 0 <= j < |stamps| && fallback(stamps[j]).None?)
    ensures ProcessOutcome(raw, fallback).Failure? && ProcessOutcome(raw, fallback).error != DateParseError ==>
      ProcessOutcome(raw, fallback).error == ValueNameInUse
    ensures var conv := ConvertOutcome(ProcessColumns(raw.header), raw.stamps, StrictThenFallback(fallback));
      (forall i :: 0 <= i < |raw.stamps| ==> StrictSeconds(raw.stamps[i]).Some?) ==>
        conv.Success? && forall i :: 0 <= i < |raw.stamps| ==> conv.value[i] == ToSeconds(ParseStrict(raw.stamps[i]).value)
    ensures var conv := ConvertOutcome(ProcessColumns(raw.header), raw.stamps, StrictThenFallback(fallback));
      (exists i :: 0 <= i < |raw.stamps| && StrictSeconds(raw.stamps[i]).None?) && conv.Success? ==>
        forall i :: 0 <= i < |raw.stamps| ==> conv.value[i] == fallback(raw.stamps[i]).value
  {
    ConvertChain(ProcessColumns(raw.header), raw.stamps, fallback);
  }

  /**
    `new_process.py`: the strict pattern only; one value that does not match
    stops the run, and otherwise each timestamp is the instant written in its
    value.
  */
  lemma NewProcessStrictOnly(raw: RawTable)
    requires WellFormed(raw) && DatetimeFirstOnly(NewProcessColumns(raw.header))
    ensures NewProcessOutcome(raw) == Failure(DateParseError) <==>
      exists i :: 0 <= i < |raw.stamps| && StrictSeconds(raw.stamps[i]).None?
    ensures NewProcessOutcome(raw).Success? <==>
      (forall i :: 0 <= i < |raw.stamps| ==> StrictSeconds(raw.stamps[i]).Some?) && ValueLabel !in raw.header
    ensures var conv := ConvertOutcome(NewProcessColumns(raw.header), raw.stamps, StrictOnly);
      conv.Success? ==> forall i :: 0 <= i < |raw.stamps| ==> conv.value[i] == ToSeconds(ParseStrict(raw.stamps[i]).value)
  {
    var cols := NewProcessColumns(raw.header);
    assert ValueLabel in cols <==> ValueLabel in raw.header by {
      if ValueLabel in raw.header {
        var k :| 0 <= k < |raw.header| && raw.header[k] == ValueLabel;
        assert cols[k] == ValueLabel;
      }
      if ValueLabel in cols {
        var k :| 0 <= k < |cols| && cols[k] == ValueLabel;
        assert raw.header[k] == ValueLabel;
      }
    }
  }

  /** `new_process.py` without a "Time" or "Datetime" column stops at `df["Datetime"]`. */
  lemma NewProcessMissingColumn(raw: RawTable)
    requires WellFormed(raw)
    ensures NewProcessOutcome(raw) == Failure(MissingDatetimeColumn) <==>
      forall k :: 0 <= k < |raw.header| ==> raw.header[k] != "Time" && raw.header[k] != DatetimeLabel
  {
    NewProcessDatetimePlacement(raw.header);
  }

  // ----- The per-subject groups -----

  /** Rows over all the files. */
  function TotalRows(files: seq<SubjectFile>): nat {
    if files == [] then 0 else |files[0].rows| + TotalRows(files[1..])
  }

  /** How often x appears in keys. */
  function Occurrences(keys: seq<string>, x: string): nat {
    if keys == [] then 0 else (if keys[0] == x then 1 else 0) + Occurrences(keys[1..], x)
  }

  lemma {:induction false} OccurrencesAbsent(keys: seq<string>, x: string)
    requires x !in keys
    ensures Occurrences(keys, x) == 0
  {
    if keys != [] {
      OccurrencesAbsent(keys[1..], x);
    }
  }

  lemma {:induction false} OccurrencesOnce(keys: seq<string>, x: string)
    requires StrictlyIncreasing(keys) && x in keys
    ensures Occurrences(keys, x) == 1
  {
    if keys[0] == x {
      if x in keys[1..] {
        var j :| 0 <= j < |keys[1..]| && keys[1..][j] == x;
        assert StrLt(keys[0], keys[j + 1]);
        StrLtIrreflexive(x);
      }
      OccurrencesAbsent(keys[1..], x);
    } else {
      OccurrencesOnce(keys[1..], x);
    }
  }

  lemma {:induction false} TotalRowsNone(keys: seq<string>)
    ensures TotalRows(GroupsOf([], keys)) == 0
  {
    if keys != [] {
      assert GroupsOf([], keys)[1..] == GroupsOf([], keys[1..]);
      TotalRowsNone(keys[1..]);
    }
  }

  /** The first row lands in as many files as its subject has keys. */
  lemma {:induction false} TotalRowsStep(rows: seq<Row>, keys: seq<string>)
    requires rows != []
    ensures TotalRows(GroupsOf(rows, keys)) ==
      Occurrences(keys, rows[0].bucket.subject) + TotalRows(GroupsOf(rows[1..], keys))
  {
    if keys != [] {
      assert GroupsOf(rows, keys)[1..] == GroupsOf(rows, keys[1..]);
      assert GroupsOf(rows[1..], keys)[1..] == GroupsOf(rows[1..], keys[1..]);
      TotalRowsStep(rows, keys[1..]);
    }
  }

  lemma {:induction false} TotalRowsAll(rows: seq<Row>, keys: seq<string>)
    requires StrictlyIncreasing(keys)
    requires forall i :: 0 <= i < |rows| ==> rows[i].bucket.subject in keys
    ensures TotalRows(GroupsOf(rows, keys)) == |rows|
  {
    if rows == [] {
      TotalRowsNone(keys);
    } else {
      TotalRowsStep(rows, keys);
      OccurrencesOnce(keys, rows[0].bucket.subject);
      TotalRowsAll(rows[1..], keys);
    }
  }

  lemma FileNameInjective(a: string, b: string)
    requires FileName(a) == FileName(b)
    ensures a == b
  {
    assert a == FileName(a)[..|a|];
    assert b == FileName(b)[..|b|];
  }

  /** Different groups have different subjects and different file names. */
  lemma GroupsDistinct(rows: seq<Row>)
    ensures var files := Groups(rows);
      forall k, l :: 0 <= k < l < |files| ==>
        files[k].subject != files[l].subject && files[k].name != files[l].name
  {
    var keys := SortedDistinct(Subjects(rows));
    var files := Groups(rows);
    forall k, l | 0 <= k < l < |files|
      ensures files[k].subject != files[l].subject && files[k].name != files[l].name
    {
      assert StrLt(keys[k], keys[l]);
      StrLtIrreflexive(keys[k]);
      if files[k].name == files[l].name {
        FileNameInjective(keys[k], keys[l]);
      }
    }
  }

  /** The subject of row i has a group. */
  lemma GroupOfRow(rows: seq<Row>, i: nat)
    requires i < |rows|
    ensures exists k :: 0 <= k < |Groups(rows)| && Groups(rows)[k].subject == rows[i].bucket.subject
  {
    var subjects := Subjects(rows);
    var keys := SortedDistinct(subjects);
    assert subjects[i] in keys;
    var k :| 0 <= k < |keys| && keys[k] == subjects[i];
    assert Groups(rows)[k].subject == rows[i].bucket.subject;
  }

  /** Group k belongs to the subject of some row. */
  lemma RowOfGroup(rows: seq<Row>, k: nat)
    requires k < |Groups(rows)|
    ensures exists i :: 0 <= i < |rows| && rows[i].bucket.subject == Groups(rows)[k].subject
  {
    var subjects := Subjects(rows);
    var keys := SortedDistinct(subjects);
    assert keys[k] in subjects;
    var i :| 0 <= i < |subjects| && subjects[i] == keys[k];
    assert rows[i].bucket.subject == Groups(rows)[k].subject;
  }

  /** There is a group for a subject exactly when some row has that subject. */
  lemma GroupsCover(rows: seq<Row>)
    ensures var files := Groups(rows);
      (forall k :: 0 <= k < |files| ==> exists i :: 0 <= i < |rows| && rows[i].bucket.subject == files[k].subject)
      && (forall i :: 0 <= i < |rows| ==> exists k :: 0 <= k < |files| && files[k].subject == rows[i].bucket.subject)
  {
    forall i | 0 <= i < |rows|
      ensures exists k :: 0 <= k < |Groups(rows)| && Groups(rows)[k].subject == rows[i].bucket.subject
    {
      GroupOfRow(rows, i);
    }
    forall k | 0 <= k < |Groups(rows)|
      ensures exists i :: 0 <= i < |rows| && rows[i].bucket.subject == Groups(rows)[k].subject
    {
      RowOfGroup(rows, k);
    }
  }

  /** Together the groups hold as many rows as the table. */
  lemma GroupsSize(rows: seq<Row>)
    ensures TotalRows(Groups(rows)) == |rows|
  {
    var subjects := Subjects(rows);
    var keys := SortedDistinct(subjects);
    forall i | 0 <= i < |rows| ensures rows[i].bucket.subject in keys {
      assert subjects[i] == rows[i].bucket.subject;
    }
    TotalRowsAll(rows, keys);
  }

  /** Each group is named after its subject and holds exactly the rows of that subject. */
  lemma GroupsContents(rows: seq<Row>)
    ensures var files := Groups(rows);
      forall k :: 0 <= k < |files| ==>
        files[k].name == FileName(files[k].subject)
        && (forall x :: x in files[k].rows <==> x in rows && x.bucket.subject == files[k].subject)
  {
    var files := Groups(rows);
    forall k | 0 <= k < |files|
      ensures files[k].name == FileName(files[k].subject)
      ensures forall x :: x in files[k].rows <==> x in rows && x.bucket.subject == files[k].subject
    {
      assert files[k].rows == RowsOf(rows, files[k].subject);
    }
  }

  /**
    The groups partition the combined table: one per distinct subject, with
    distinct subjects and file names, each holding exactly the rows of its
    subject, and together holding as many rows as the table.
  */
  lemma GroupsPartition(rows: seq<Row>)
    ensures var files := Groups(rows);
      (forall k, l :: 0 <= k < l < |files| ==>
         files[k].subject != files[l].subject && files[k].name != files[l].name)
      && (forall k :: 0 <= k < |files| ==> exists i :: 0 <= i < |rows| && rows[i].bucket.subject == files[k].subject)
      && (forall i :: 0 <= i < |rows| ==> exists k :: 0 <= k < |files| && files[k].subject == rows[i].bucket.subject)
      && (forall k :: 0 <= k < |files| ==>
            files[k].name == FileName(files[k].subject)
            && (forall x :: x in files[k].rows <==> x in rows && x.bucket.subject == files[k].subject))
      && TotalRows(files) == |rows|
  {
    GroupsDistinct(rows);
    GroupsCover(rows);
    GroupsContents(rows);
    GroupsSize(rows);
  }

  // ----- From the export to the output -----

  /** A column's counts, summed over the rows. */
  function ColumnTotal(cells: seq<seq<Cell>>, j: nat): nat
    requires forall i :: 0 <= i < |cells| ==> j < |cells[i]|
  {
    if cells == [] then 0 else Value(cells[0][j]) + ColumnTotal(cells[1..], j)
  }

  /** The counts of the first n subject columns. */
  function WideTotal(cells: seq<seq<Cell>>, n: nat): nat
    requires forall i :: 0 <= i < |cells| ==> n <= |cells[i]|
  {
    if n == 0 then 0 else WideTotal(cells, n - 1) + ColumnTotal(cells, n - 1)
  }

  lemma {:induction false} SumAllConcat(a: seq<Observation>, b: seq<Observation>)
    ensures SumAll(a + b) == SumAll(a) + SumAll(b)
  {
    if a == [] {
      assert a + b == b;
    } else {
      assert (a + b)[1..] == a[1..] + b;
      SumAllConcat(a[1..], b);
    }
  }

  lemma {:induction false} MeltColumnTotal(times: seq<int>, subjects: seq<string>, cells: seq<seq<Cell>>, j: nat)
    requires j < |subjects| && Rectangular(|times|, |subjects|, cells)
    ensures SumAll(MeltColumn(times, subjects, cells, j)) == ColumnTotal(cells, j)
  {
    if times != [] {
      assert MeltColumn(times, subjects, cells, j)[1..] == MeltColumn(times[1..], subjects, cells[1..], j);
      MeltColumnTotal(times[1..], subjects, cells[1..], j);
    }
  }

  lemma {:induction false} MeltColumnsTotal(times: seq<int>, subjects: seq<string>, cells: seq<seq<Cell>>, n: nat)
    requires n <= |subjects| && Rectangular(|times|, |subjects|, cells)
    ensures SumAll(MeltColumns(times, subjects, cells, n)) == WideTotal(cells, n)
  {
    if n > 0 {
      MeltColumnsTotal(times, subjects, cells, n - 1);
      MeltColumnTotal(times, subjects, cells, n - 1);
      SumAllConcat(MeltColumns(times, subjects, cells, n - 1), MeltColumn(times, subjects, cells, n - 1));
    }
  }

  /** The long table holds every count of the wide table once. */
  lemma MeltTotal(times: seq<int>, subjects: seq<string>, cells: seq<seq<Cell>>)
    requires Rectangular(|times|, |subjects|, cells)
    ensures SumAll(Melt(times, subjects, cells)) == WideTotal(cells, |subjects|)
  {
    MeltColumnsTotal(times, subjects, cells, |subjects|);
  }

  /** The combined table of a successful run, and its groups. */
  lemma RunValue(cols: seq<string>, stamps: seq<string>, counts: seq<seq<Cell>>, mode: DateMode, c: Column)
    requires |cols| >= 1 && Rectangular(|stamps|, |cols| - 1, counts)
    requires ConvertOutcome(cols, stamps, mode).Success? && ValueLabel !in cols
    ensures var combined := AddColumn(Aggregate(Melt(ConvertOutcome(cols, stamps, mode).value, cols[1..], counts)), c);
      Run(cols, stamps, counts, mode, c) == Success(Output(combined, Groups(combined)))
  {
  }

  /** Each group of an hourly table is its subject's hourly series. */
  lemma GroupsAreSeries(long: seq<Observation>, c: Column)
    ensures var files := Groups(AddColumn(Aggregate(long), c));
      forall k :: 0 <= k < |files| ==>
        HasSubject(long, files[k].subject) && files[k].rows == AddColumn(Resample(long, files[k].subject), c)
  {
    var combined := AddColumn(Aggregate(long), c);
    var files := Groups(combined);
    var keys := SortedDistinct(Subjects(combined));
    forall k | 0 <= k < |files|
      ensures HasSubject(long, files[k].subject)
      ensures files[k].rows == AddColumn(Resample(long, files[k].subject), c)
    {
      var s := keys[k];
      assert s in Subjects(combined);
      var i :| 0 <= i < |combined| && Subjects(combined)[i] == s;
      assert Aggregate(long)[i].subject == s;
      SubjectGroup(long, c, s);
    }
  }

  /**
    A successful run: the combined table is the hourly table of the long
    table (the sort does not change it), and each subject's file is that
    subject's hourly series from its first reading's hour to its last.
  */
  lemma RunSeries(cols: seq<string>, stamps: seq<string>, counts: seq<seq<Cell>>, mode: DateMode, c: Column)
    requires |cols| >= 1 && Rectangular(|stamps|, |cols| - 1, counts)
    requires Run(cols, stamps, counts, mode, c).Success?
    ensures var long := Melt(ConvertOutcome(cols, stamps, mode).value, cols[1..], counts);
      var out := Run(cols, stamps, counts, mode, c).value;
      out.combined == AddColumn(Aggregate(long), c)
      && forall k :: 0 <= k < |out.files| ==>
           HasSubject(long, out.files[k].subject)
           && out.files[k].rows == AddColumn(Resample(long, out.files[k].subject), c)
  {
    var long := Melt(ConvertOutcome(cols, stamps, mode).value, cols[1..], counts);
    RunValue(cols, stamps, counts, mode, c);
    GroupsAreSeries(long, c);
  }

  /** The hourly table and each of its groups sum to the readings they come from. */
  lemma GroupsConserve(long: seq<Observation>, c: Column)
    ensures var combined := AddColumn(Aggregate(long), c);
      var files := Groups(combined);
      SumRevolutions(BucketsOfRows(combined)) == SumAll(long)
      && forall k :: 0 <= k < |files| ==>
           SumRevolutions(BucketsOfRows(files[k].rows)) == Total(long, files[k].subject)
  {
    var files := Groups(AddColumn(Aggregate(long), c));
    DropColumn(Aggregate(long), c);
    TotalConserved(long);
    GroupsAreSeries(long, c);
    forall k | 0 <= k < |files|
      ensures SumRevolutions(BucketsOfRows(files[k].rows)) == Total(long, files[k].subject)
    {
      var s := files[k].subject;
      DropColumn(Resample(long, s), c);
      ResampleConserves(long, s);
    }
  }

  /** The hourly table of a melted export carries all its counts, and each group its subject's. */
  lemma TableConservesCounts(times: seq<int>, subjects: seq<string>, counts: seq<seq<Cell>>, c: Column)
    requires Rectangular(|times|, |subjects|, counts)
    ensures var long := Melt(times, subjects, counts);
      var combined := AddColumn(Aggregate(long), c);
      var files := Groups(combined);
      SumRevolutions(BucketsOfRows(combined)) == WideTotal(counts, |subjects|)
      && forall k :: 0 <= k < |files| ==>
           SumRevolutions(BucketsOfRows(files[k].rows)) == Total(long, files[k].subject)
  {
    GroupsConserve(Melt(times, subjects, counts), c);
    MeltTotal(times, subjects, counts);
  }

  /**
    A successful run carries every count of the export into the combined
    table once, and each subject's file sums to that subject's readings.
  */
  lemma RunConservesCounts(cols: seq<string>, stamps: seq<string>, counts: seq<seq<Cell>>, mode: DateMode, c: Column)
    requires |cols| >= 1 && Rectangular(|stamps|, |cols| - 1, counts)
    requires Run(cols, stamps, counts, mode, c).Success?
    ensures var long := Melt(ConvertOutcome(cols, stamps, mode).value, cols[1..], counts);
      var out := Run(cols, stamps, counts, mode, c).value;
      SumRevolutions(BucketsOfRows(out.combined)) == WideTotal(counts, |cols| - 1)
      && forall k :: 0 <= k < |out.files| ==>
           SumRevolutions(BucketsOfRows(out.files[k].rows)) == Total(long, out.files[k].subject)
  {
    RunValue(cols, stamps, counts, mode, c);
    TableConservesCounts(ConvertOutcome(cols, stamps, mode).value, cols[1..], counts, c);
  }

  /** The Meters column of a melted export's hourly table adds up to the metres of all its counts. */
  lemma TableMetersTotal(times: seq<int>, subjects: seq<string>, counts: seq<seq<Cell>>)
    requires Rectangular(|times|, |subjects|, counts)
    ensures SumMeters(AddColumn(Aggregate(Melt(times, subjects, counts)), MetersColumn)) == Meters(WideTotal(counts, |subjects|))
  {
    var long := Melt(times, subjects, counts);
    MetersOfSum(Aggregate(long));
    TotalConserved(long);
    MeltTotal(times, subjects, counts);
  }

  /** `new_process.py`: the Meters column adds up to the metres of all the export's counts. */
  lemma NewProcessMetersTotal(raw: RawTable)
    requires WellFormed(raw) && NewProcessOutcome(raw).Success?
    ensures SumMeters(NewProcessOutcome(raw).value.combined) == Meters(WideTotal(raw.counts, |raw.header| - 1))
  {
    var cols := NewProcessColumns(raw.header);
    RunValue(cols, raw.stamps, raw.counts, StrictOnly, MetersColumn);
    TableMetersTotal(ConvertOutcome(cols, raw.stamps, StrictOnly).value, cols[1..], raw.counts);
  }

  /**
    `process.py`: every row of the output is labelled with the period of
    its hour, and every reading lies in a row of its own hour's label.
  */
  lemma ProcessPeriods(raw: RawTable, fallback: string -> Option<int>)
    requires WellFormed(raw) && ProcessOutcome(raw, fallback).Success?
    ensures var out := ProcessOutcome(raw, fallback).value;
      forall k :: 0 <= k < |out.combined| ==>
        out.combined[k].derived == Period(LabelPeriod(out.combined[k].bucket.start))
  {
  }
}
