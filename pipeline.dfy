/**
  The two scripts end to end: the wide table as read, the in-place column
  cleanup, rename and date conversion, then melt, sort, hourly resample-sum,
  the added column and one group per subject.

  `process.py` strips every column label, renames the first column to
  "Datetime", converts it with the strict pattern and falls back to a
  day-first parser, and adds `Period`. `new_process.py` renames only a column
  labelled "Time", converts with the strict pattern only, and adds `Meters`.
*/
module Pipeline {

  import opened Wrappers
  import opened Text
  import opened DateParse
  import opened Ordering
  import opened Reshape
  import opened Hourly
  import opened Enrich

  const DatetimeLabel := "Datetime"

  /** The `value_name` of the melt. */
  const ValueLabel := "Revolutions"

  /**
    A wide table as read from the export: the column labels, the text of
    the first column and the counts of the other columns, row by row.
  */
  datatype RawTable = RawTable(header: seq<string>, stamps: seq<string>, counts: seq<seq<Cell>>)

  /** One label per column, and as many counts in each row as there are columns after the first. */
  predicate WellFormed(raw: RawTable) {
    |raw.header| >= 1 && Rectangular(|raw.stamps|, |raw.header| - 1, raw.counts)
  }

  /**
    Why a run stops: `df["Datetime"]` with no such column (a `KeyError`), a
    date conversion that fails, or a melt whose `value_name` is already a
    column label (a `ValueError` in pandas 2).
  */
  datatype Error = MissingDatetimeColumn | DateParseError | ValueNameInUse

  /** How the "Datetime" column is converted. */
  datatype DateMode = StrictOnly | StrictThenFallback(fallback: string -> Option<int>)

  /** One `{mouse}.csv`: the subject and its rows of the combined table. */
  datatype SubjectFile = SubjectFile(subject: string, name: string, rows: seq<Row>)

  /** The combined hourly table and the per-subject files. */
  datatype Output = Output(combined: seq<Row>, files: seq<SubjectFile>)

  function ConvertStamps(stamps: seq<string>, mode: DateMode): (r: Option<seq<int>>)
    ensures r.Some? ==> |r.value| == |stamps|
  {
    match mode
    case StrictOnly => ConvertColumn(stamps, StrictSeconds)
    case StrictThenFallback(fallback) => ConvertWithFallback(stamps, fallback)
  }

  predicate NoDatetime(cols: seq<string>) {
    forall k :: 0 <= k < |cols| ==> cols[k] != DatetimeLabel
  }

  /** The first column, and no other, is labelled "Datetime". */
  predicate DatetimeFirstOnly(cols: seq<string>) {
    |cols| >= 1 && cols[0] == DatetimeLabel && forall k :: 0 < k < |cols| ==> cols[k] != DatetimeLabel
  }

  /**
    `df["Datetime"] = pd.to_datetime(df["Datetime"], ...)`: a missing column
    is a `KeyError`; two columns with that label give a frame that cannot be
    converted; a single one that is not the first holds counts, not dates.
  */
  function ConvertOutcome(cols: seq<string>, stamps: seq<string>, mode: DateMode): (r: Result<seq<int>, Error>)
    ensures r.Success? <==> DatetimeFirstOnly(cols) && ConvertStamps(stamps, mode).Some?
    ensures r.Success? ==> r.value == ConvertStamps(stamps, mode).value && |r.value| == |stamps|
    ensures r == Failure(MissingDatetimeColumn) <==> NoDatetime(cols)
    ensures r == Failure(DateParseError) <==>
      !NoDatetime(cols) && (!DatetimeFirstOnly(cols) || ConvertStamps(stamps, mode).None?)
  {
    if NoDatetime(cols) then Failure(MissingDatetimeColumn)
    else if !DatetimeFirstOnly(cols) then Failure(DateParseError)
    else
      match ConvertStamps(stamps, mode)
      case None => Failure(DateParseError)
      case Some(times) => Success(times)
  }

  /** The long table, sorted, resampled to hours, with the script's column added. */
  function HourlyTable(times: seq<int>, subjects: seq<string>, counts: seq<seq<Cell>>, c: Column): (rows: seq<Row>)
    requires Rectangular(|times|, |subjects|, counts)
    ensures rows == AddColumn(Aggregate(Melt(times, subjects, counts)), c)
  {
    var long := Melt(times, subjects, counts);
    AggregateIgnoresOrder(SortObs(long), long);
    AddColumn(Aggregate(SortObs(long)), c)
  }

  // ----- The per-subject groups -----

  function Subjects(rows: seq<Row>): seq<string> {
    seq(|rows|, k requires 0 <= k < |rows| => rows[k].bucket.subject)
  }

  /** `f"{mouse}.csv"`. */
  function FileName(subject: string): (name: string)
    ensures |name| == |subject| + 4
    ensures name[..|subject|] == subject && name[|subject|..] == ".csv"
  {
    subject + ".csv"
  }

  function FileFor(rows: seq<Row>, subject: string): SubjectFile {
    SubjectFile(subject, FileName(subject), RowsOf(rows, subject))
  }

  function GroupsOf(rows: seq<Row>, keys: seq<string>): (files: seq<SubjectFile>)
    ensures |files| == |keys|
    ensures forall k :: 0 <= k < |keys| ==> files[k] == FileFor(rows, keys[k])
  {
    seq(|keys|, k requires 0 <= k < |keys| => FileFor(rows, keys[k]))
  }

  /** `df_long.groupby("MouseID")`: one group per distinct subject, in increasing order. */
  function Groups(rows: seq<Row>): (files: seq<SubjectFile>)
    ensures forall k :: 0 <= k < |files| ==>
      files[k].name == FileName(files[k].subject) && files[k].rows == RowsOf(rows, files[k].subject)
    ensures forall k, l :: 0 <= k < l < |files| ==> StrLt(files[k].subject, files[l].subject)
  {
    GroupsOf(rows, SortedDistinct(Subjects(rows)))
  }

  /** The whole run, given the labels after cleanup and rename. */
  function Run(cols: seq<string>, stamps: seq<string>, counts: seq<seq<Cell>>, mode: DateMode, c: Column): (r: Result<Output, Error>)
    requires |cols| >= 1 && Rectangular(|stamps|, |cols| - 1, counts)
    ensures r.Failure? <==> ConvertOutcome(cols, stamps, mode).Failure? || ValueLabel in cols
    ensures ConvertOutcome(cols, stamps, mode).Failure? ==> r == Failure(ConvertOutcome(cols, stamps, mode).error)
    ensures ConvertOutcome(cols, stamps, mode).Success? && ValueLabel in cols ==> r == Failure(ValueNameInUse)
  {
    match ConvertOutcome(cols, stamps, mode)
    case Failure(e) => Failure(e)
    case Success(times) =>
      if ValueLabel in cols then Failure(ValueNameInUse)
      else
        var combined := HourlyTable(times, cols[1..], counts, c);
        Success(Output(combined, Groups(combined)))
  }

  /** The labels `process.py` ends up with: stripped, and the first one's label renamed. */
  function ProcessColumns(header: seq<string>): (cols: seq<string>)
    requires |header| >= 1
    ensures |cols| == |header| && cols[0] == DatetimeLabel
  {
    var stripped := StripAll(header);
    RenameLabel(stripped, stripped[0], DatetimeLabel)
  }

  function ProcessOutcome(raw: RawTable, fallback: string -> Option<int>): Result<Output, Error>
    requires WellFormed(raw)
  {
    Run(ProcessColumns(raw.header), raw.stamps, raw.counts, StrictThenFallback(fallback), PeriodColumn)
  }

  /** The labels `new_process.py` ends up with: "Time" renamed. */
  function NewProcessColumns(header: seq<string>): (cols: seq<string>)
    ensures |cols| == |header|
    ensures forall k :: 0 <= k < |cols| ==> (cols[k] == DatetimeLabel <==> header[k] == "Time" || header[k] == DatetimeLabel)
    ensures forall k :: 0 <= k < |cols| && header[k] != "Time" ==> cols[k] == header[k]
  {
    RenameLabel(header, "Time", DatetimeLabel)
  }

  function NewProcessOutcome(raw: RawTable): Result<Output, Error>
    requires WellFormed(raw)
  {
    Run(NewProcessColumns(raw.header), raw.stamps, raw.counts, StrictOnly, MetersColumn)
  }

  // ----- The data frame the scripts change in place -----

  /** The wide `df`, before it is melted. */
  class WideFrame {
    var columns: seq<string>
    var stamps: seq<string>
    var counts: seq<seq<Cell>>
    var times: seq<int>

    ghost predicate Valid()
      reads this
    {
      |columns| >= 1 && Rectangular(|stamps|, |columns| - 1, counts)
    }

    constructor (raw: RawTable)
      requires WellFormed(raw)
      ensures Valid()
      ensures columns == raw.header && stamps == raw.stamps && counts == raw.counts && times == []
    {
      columns := raw.header;
      stamps := raw.stamps;
      counts := raw.counts;
      times := [];
    }

    /** `df.columns = df.columns.str.strip()`. */
    method StripColumnNames()
      requires Valid()
      modifies this
      ensures Valid()
      ensures columns == StripAll(old(columns))
      ensures stamps == old(stamps) && counts == old(counts) && times == old(times)
    {
      columns := StripAll(columns);
    }

    /** `df.rename(columns={from: to}, inplace=True)`. */
    method RenameColumns(from: string, to: string)
      requires Valid()
      modifies this
      ensures Valid()
      ensures columns == RenameLabel(old(columns), from, to)
      ensures stamps == old(stamps) && counts == old(counts) && times == old(times)
    {
      columns := RenameLabel(columns, from, to);
    }

    /** `df["Datetime"] = pd.to_datetime(df["Datetime"], ...)`, or the error it raises. */
    method ConvertDatetime(mode: DateMode) returns (err: Option<Error>)
      requires Valid()
      modifies this
      ensures Valid()
      ensures columns == old(columns) && stamps == old(stamps) && counts == old(counts)
      ensures match ConvertOutcome(columns, stamps, mode)
        case Failure(e) => err == Some(e) && times == old(times)
        case Success(ts) => err == None && times == ts
    {
      match ConvertOutcome(columns, stamps, mode)
      case Failure(e) =>
        err := Some(e);
      case Success(ts) =>
        times := ts;
        err := None;
    }
  }

  /** `for mouse, group in df_long.groupby("MouseID")`: one file per group. */
  method WriteSubjectFiles(combined: seq<Row>) returns (files: seq<SubjectFile>)
    ensures files == Groups(combined)
  {
    var keys := SortedDistinct(Subjects(combined));
    files := [];
    var i := 0;
    while i < |keys|
      invariant 0 <= i <= |keys|
      invariant |files| == i
      invariant forall k :: 0 <= k < i ==> files[k] == FileFor(combined, keys[k])
    {
      var group := RowsOf(combined, keys[i]);
      files := files + [SubjectFile(keys[i], FileName(keys[i]), group)];
      i := i + 1;
    }
  }

  /** `process.py` from the read table to the files it writes. */
  method RunProcess(raw: RawTable, fallback: string -> Option<int>) returns (result: Result<Output, Error>)
    requires WellFormed(raw)
    ensures result == ProcessOutcome(raw, fallback)
  {
    var df := new WideFrame(raw);
    df.StripColumnNames();
    var first := df.columns[0];
    df.RenameColumns(first, DatetimeLabel);
    assert df.columns == ProcessColumns(raw.header);
    var err := df.ConvertDatetime(StrictThenFallback(fallback));
    if err.Some? {
      return Failure(err.value);
    }
    if ValueLabel in df.columns {
      return Failure(ValueNameInUse);
    }
    var combined := HourlyTable(df.times, df.columns[1..], df.counts, PeriodColumn);
    var files := WriteSubjectFiles(combined);
    result := Success(Output(combined, files));
  }

  /** `new_process.py` from the read table to the files it writes. */
  method RunNewProcess(raw: RawTable) returns (result: Result<Output, Error>)
    requires WellFormed(raw)
    ensures result == NewProcessOutcome(raw)
  {
    var df := new WideFrame(raw);
    df.RenameColumns("Time", DatetimeLabel);
    var err := df.ConvertDatetime(StrictOnly);
    if err.Some? {
      return Failure(err.value);
    }
    if ValueLabel in df.columns {
      return Failure(ValueNameInUse);
    }
    var combined := HourlyTable(df.times, df.columns[1..], df.counts, MetersColumn);
    var files := WriteSubjectFiles(combined);
    result := Success(Output(combined, files));
  }
}
