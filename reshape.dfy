/**
  Wide to long: `melt(id_vars="Datetime", var_name="MouseID",
  value_name="Revolutions")` followed by `sort_values(["MouseID", "Datetime"])`.
*/
module Reshape {

  import opened Ordering
  import Arith

  /** A count cell of the wide table; an empty cell counts as 0 in every sum. */
  datatype Cell = Missing | Count(n: nat)

  function Value(c: Cell): nat {
    match c
    case Missing => 0
    case Count(n) => n
  }

  /** One row of the long table: (Datetime, MouseID, Revolutions). */
  datatype Observation = Observation(time: int, subject: string, revolutions: Cell)

  /** The count block of a wide table: one row per timestamp, one cell per subject column. */
  predicate Rectangular(rows: nat, width: nat, cells: seq<seq<Cell>>) {
    |cells| == rows && forall i :: 0 <= i < |cells| ==> |cells[i]| == width
  }

  /** The observations of subject column j, in row order. */
  function MeltColumn(times: seq<int>, subjects: seq<string>, cells: seq<seq<Cell>>, j: nat): (r: seq<Observation>)
    requires j < |subjects| && Rectangular(|times|, |subjects|, cells)
  {
    seq(|times|, i requires 0 <= i < |times| => Observation(times[i], subjects[j], cells[i][j]))
  }

  /** The first n subject columns, melted column after column. */
  function MeltColumns(times: seq<int>, subjects: seq<string>, cells: seq<seq<Cell>>, n: nat): seq<Observation>
    requires n <= |subjects| && Rectangular(|times|, |subjects|, cells)
  {
    if n == 0 then [] else MeltColumns(times, subjects, cells, n - 1) + MeltColumn(times, subjects, cells, n - 1)
  }

  lemma {:induction false} MeltColumnsAt(times: seq<int>, subjects: seq<string>, cells: seq<seq<Cell>>, n: nat)
    requires n <= |subjects| && Rectangular(|times|, |subjects|, cells)
    ensures |MeltColumns(times, subjects, cells, n)| == n * |times|
    ensures forall k :: 0 <= k < n * |times| ==>
      k / |times| < n &&
      MeltColumns(times, subjects, cells, n)[k] ==
        Observation(times[k % |times|], subjects[k / |times|], cells[k % |times|][k / |times|])
  {
    var rows := |times|;
    if n > 0 {
      MeltColumnsAt(times, subjects, cells, n - 1);
      var prev := MeltColumns(times, subjects, cells, n - 1);
      var r := MeltColumns(times, subjects, cells, n);
      assert (n - 1) * rows + rows == n * rows;
      forall k | 0 <= k < n * rows
        ensures k / rows < n
        ensures r[k] == Observation(times[k % rows], subjects[k / rows], cells[k % rows][k / rows])
      {
        if k >= (n - 1) * rows {
          var i := k - (n - 1) * rows;
          Arith.DivMod(k, rows, n - 1, i);
        }
      }
    }
  }

  /**
    The long table of a wide one: one observation for each (row, subject
    column), column after column, pairing the row's timestamp with the
    column's name and the cell's value.
  */
  function Melt(times: seq<int>, subjects: seq<string>, cells: seq<seq<Cell>>): (r: seq<Observation>)
    requires Rectangular(|times|, |subjects|, cells)
    ensures |r| == |subjects| * |times|
    ensures forall k :: 0 <= k < |r| ==>
      k / |times| < |subjects| &&
      r[k] == Observation(times[k % |times|], subjects[k / |times|], cells[k % |times|][k / |times|])
  {
    MeltColumnsAt(times, subjects, cells, |subjects|);
    MeltColumns(times, subjects, cells, |subjects|)
  }

  /** Every cell of the wide table appears in the long table. */
  lemma MeltHasEveryCell(times: seq<int>, subjects: seq<string>, cells: seq<seq<Cell>>, i: nat, j: nat)
    requires Rectangular(|times|, |subjects|, cells)
    requires i < |times| && j < |subjects|
    ensures j * |times| + i < |Melt(times, subjects, cells)|
    ensures Melt(times, subjects, cells)[j * |times| + i] == Observation(times[i], subjects[j], cells[i][j])
  {
    var rows := |times|;
    var k := j * rows + i;
    Arith.DivMod(k, rows, j, i);
    if j + 1 < |subjects| {
      Arith.MulAtLeast(|subjects| - (j + 1), rows);
    }
    assert |subjects| * rows == (j + 1) * rows + (|subjects| - (j + 1)) * rows;
  }

  // ----- Sorting by (MouseID, Datetime) -----

  /** The order of `sort_values(["MouseID", "Datetime"])`. */
  predicate ObsLe(a: Observation, b: Observation) {
    StrLt(a.subject, b.subject) || (a.subject == b.subject && a.time <= b.time)
  }

  predicate SortedObs(s: seq<Observation>) {
    forall i, j :: 0 <= i < j < |s| ==> ObsLe(s[i], s[j])
  }

  lemma ObsLeTransitive(a: Observation, b: Observation, c: Observation)
    requires ObsLe(a, b) && ObsLe(b, c)
    ensures ObsLe(a, c)
  {
    if StrLt(a.subject, b.subject) && StrLt(b.subject, c.subject) {
      StrLtTransitive(a.subject, b.subject, c.subject);
    }
  }

  lemma ObsLeTotal(a: Observation, b: Observation)
    ensures ObsLe(a, b) || ObsLe(b, a)
  {
    StrLtTotal(a.subject, b.subject);
  }

  /** x placed in front of a sorted table whose first element it does not exceed. */
  lemma InsertFront(x: Observation, s: seq<Observation>)
    requires SortedObs(s) && s != [] && ObsLe(x, s[0])
    ensures SortedObs([x] + s)
  {
    forall j | 0 < j < |s| ensures ObsLe(x, s[j]) {
      ObsLeTransitive(x, s[0], s[j]);
    }
  }

  /** s[0] placed in front of the insertion of x into the rest, when x does not belong first. */
  lemma InsertBehind(x: Observation, s: seq<Observation>, rest: seq<Observation>)
    requires SortedObs(s) && s != [] && !ObsLe(x, s[0])
    requires SortedObs(rest) && multiset(rest) == multiset(s[1..]) + multiset{x}
    ensures SortedObs([s[0]] + rest)
    ensures multiset([s[0]] + rest) == multiset(s) + multiset{x}
  {
    forall j | 0 <= j < |rest| ensures ObsLe(s[0], rest[j]) {
      assert rest[j] in multiset(rest);
      if rest[j] == x {
        ObsLeTotal(x, s[0]);
      } else {
        assert rest[j] in s[1..];
      }
    }
    assert s == [s[0]] + s[1..];
  }

  function InsertObs(x: Observation, s: seq<Observation>): (r: seq<Observation>)
    requires SortedObs(s)
    ensures SortedObs(r)
    ensures multiset(r) == multiset(s) + multiset{x}
  {
    if s == [] then [x]
    else if ObsLe(x, s[0]) then
      InsertFront(x, s);
      [x] + s
    else
      var rest := InsertObs(x, s[1..]);
      InsertBehind(x, s, rest);
      [s[0]] + rest
  }

  /**
    The long table ordered by subject, then by time: ascending in
    (MouseID, Datetime) and a permutation of its input.
  */
  function SortObs(s: seq<Observation>): (r: seq<Observation>)
    ensures SortedObs(r)
    ensures multiset(r) == multiset(s)
  {
    if s == [] then []
    else
      assert s == [s[0]] + s[1..];
      InsertObs(s[0], SortObs(s[1..]))
  }
}
