/**
  `groupby("MouseID").resample("1H")["Revolutions"].sum()`: per subject,
  contiguous one-hour buckets aligned to clock hours, from the hour of the
  subject's first observation to the hour of its last, each holding the sum
  of the subject's observations inside it (0 for an hour without any).
*/
module Hourly {

  import opened Ordering
  import opened Reshape
  import Arith

  const Hour := 3600

  /** The start of the clock hour holding t (a floor, also before 1970). */
  function HourStart(t: int): (b: int)
    ensures b % Hour == 0
    ensures b <= t < b + Hour
  {
    t - t % Hour
  }

  /** One row of the aggregated table: (MouseID, Datetime, Revolutions). */
  datatype Bucket = Bucket(subject: string, start: int, revolutions: nat)

  predicate HasSubject(obs: seq<Observation>, s: string) {
    exists i :: 0 <= i < |obs| && obs[i].subject == s
  }

  /** The subject's revolutions over the whole table. */
  function Total(obs: seq<Observation>, s: string): nat {
    if obs == [] then 0
    else (if obs[0].subject == s then Value(obs[0].revolutions) else 0) + Total(obs[1..], s)
  }

  /** The subject's revolutions with timestamp in [lo, hi). */
  function SumIn(obs: seq<Observation>, s: string, lo: int, hi: int): nat {
    if obs == [] then 0
    else
      (if obs[0].subject == s && lo <= obs[0].time < hi then Value(obs[0].revolutions) else 0)
        + SumIn(obs[1..], s, lo, hi)
  }

  /** Revolutions of every observation. */
  function SumAll(obs: seq<Observation>): nat {
    if obs == [] then 0 else Value(obs[0].revolutions) + SumAll(obs[1..])
  }

  /** The subject's earliest timestamp. */
  function Earliest(obs: seq<Observation>, s: string): (t: int)
    requires HasSubject(obs, s)
    ensures exists i :: 0 <= i < |obs| && obs[i].subject == s && obs[i].time == t
    ensures forall i :: 0 <= i < |obs| && obs[i].subject == s ==> t <= obs[i].time
  {
    if obs[0].subject == s && !HasSubject(obs[1..], s) then
      assert forall i :: 0 < i < |obs| ==> obs[1..][i - 1] == obs[i];
      obs[0].time
    else if obs[0].subject != s then
      assert forall i :: 0 < i < |obs| ==> obs[1..][i - 1] == obs[i];
      var t := Earliest(obs[1..], s);
      var i :| 0 <= i < |obs[1..]| && obs[1..][i].subject == s && obs[1..][i].time == t;
      assert obs[i + 1].time == t;
      t
    else
      assert forall i :: 0 < i < |obs| ==> obs[1..][i - 1] == obs[i];
      var t := Earliest(obs[1..], s);
      var i :| 0 <= i < |obs[1..]| && obs[1..][i].subject == s && obs[1..][i].time == t;
      assert obs[i + 1].time == t;
      if obs[0].time <= t then obs[0].time else t
  }

  /** The subject's latest timestamp. */
  function Latest(obs: seq<Observation>, s: string): (t: int)
    requires HasSubject(obs, s)
    ensures exists i :: 0 <= i < |obs| && obs[i].subject == s && obs[i].time == t
    ensures forall i :: 0 <= i < |obs| && obs[i].subject == s ==> obs[i].time <= t
  {
    if obs[0].subject == s && !HasSubject(obs[1..], s) then
      assert forall i :: 0 < i < |obs| ==> obs[1..][i - 1] == obs[i];
      obs[0].time
    else if obs[0].subject != s then
      assert forall i :: 0 < i < |obs| ==> obs[1..][i - 1] == obs[i];
      var t := Latest(obs[1..], s);
      var i :| 0 <= i < |obs[1..]| && obs[1..][i].subject == s && obs[1..][i].time == t;
      assert obs[i + 1].time == t;
      t
    else
      assert forall i :: 0 < i < |obs| ==> obs[1..][i - 1] == obs[i];
      var t := Latest(obs[1..], s);
      var i :| 0 <= i < |obs[1..]| && obs[1..][i].subject == s && obs[1..][i].time == t;
      assert obs[i + 1].time == t;
      if obs[0].time >= t then obs[0].time else t
  }

  /** count consecutive hours of the subject from the hour starting at first. */
  function Buckets(obs: seq<Observation>, s: string, first: int, count: nat): (r: seq<Bucket>)
    ensures |r| == count
    ensures forall k :: 0 <= k < count ==>
      r[k].subject == s && r[k].start == first + Hour * k &&
      r[k].revolutions == SumIn(obs, s, r[k].start, r[k].start + Hour)
  {
    seq(count, k requires 0 <= k < count =>
      Bucket(s, first + Hour * k, SumIn(obs, s, first + Hour * k, first + Hour * k + Hour)))
  }

  lemma HourStartMonotone(t1: int, t2: int)
    requires t1 <= t2
    ensures HourStart(t1) <= HourStart(t2)
  {
  }

  /** A time inside the hour starting at b belongs to that hour. */
  lemma HourStartWithin(t: int, b: int)
    requires b % Hour == 0 && b <= t < b + Hour
    ensures HourStart(t) == b
  {
    Arith.DivMod(b, Hour, b / Hour, 0);
    Arith.DivMod(t, Hour, b / Hour, t - b);
  }

  /** Two clock-hour starts are a whole number of hours apart. */
  lemma HoursApart(a: int, b: int)
    requires a % Hour == 0 && b % Hour == 0 && a <= b
    ensures a + Hour * ((b - a) / Hour) == b
  {
    Arith.DivMod(a, Hour, a / Hour, 0);
    Arith.DivMod(b, Hour, b / Hour, 0);
    Arith.DivMod(b - a, Hour, b / Hour - a / Hour, 0);
  }

  lemma EarliestNotAfterLatest(obs: seq<Observation>, s: string)
    requires HasSubject(obs, s)
    ensures Earliest(obs, s) <= Latest(obs, s)
  {
    var i :| 0 <= i < |obs| && obs[i].subject == s && obs[i].time == Earliest(obs, s);
  }

  /** The number of hours from the hour starting at first to the one starting at last, both included. */
  function HourCount(first: int, last: int): (n: nat)
    requires first % Hour == 0 && last % Hour == 0 && first <= last
    ensures n >= 1 && first + Hour * (n - 1) == last
  {
    HoursApart(first, last);
    (last - first) / Hour + 1
  }

  /**
    One subject's resampled series: consecutive hours, with no gap and no
    repeat, from the hour of its earliest observation to the hour of its
    latest, each holding the sum of the subject's observations in that hour.
  */
  function Resample(obs: seq<Observation>, s: string): (r: seq<Bucket>)
    requires HasSubject(obs, s)
    ensures |r| >= 1
    ensures r[0].start == HourStart(Earliest(obs, s))
    ensures r[|r| - 1].start == HourStart(Latest(obs, s))
    ensures forall k :: 0 <= k < |r| ==> r[k].subject == s && r[k].start == r[0].start + Hour * k
    ensures forall k :: 0 <= k < |r| ==> r[k].revolutions == SumIn(obs, s, r[k].start, r[k].start + Hour)
  {
    EarliestNotAfterLatest(obs, s);
    HourStartMonotone(Earliest(obs, s), Latest(obs, s));
    Buckets(obs, s, HourStart(Earliest(obs, s)), HourCount(HourStart(Earliest(obs, s)), HourStart(Latest(obs, s))))
  }

  /** The distinct subjects, in increasing order: the groups of `groupby("MouseID")`. */
  function Keys(obs: seq<Observation>): (keys: seq<string>)
    ensures StrictlyIncreasing(keys)
    ensures forall s :: s in keys <==> HasSubject(obs, s)
  {
    var subjects := seq(|obs|, i requires 0 <= i < |obs| => obs[i].subject);
    assert forall s :: s in subjects <==> HasSubject(obs, s) by {
      forall s ensures s in subjects <==> HasSubject(obs, s) {
        if HasSubject(obs, s) {
          var i :| 0 <= i < |obs| && obs[i].subject == s;
          assert subjects[i] == s;
        }
      }
    }
    SortedDistinct(subjects)
  }

  function AggregateKeys(obs: seq<Observation>, keys: seq<string>): (r: seq<Bucket>)
    requires forall s :: s in keys ==> HasSubject(obs, s)
    ensures forall i :: 0 <= i < |r| ==> r[i].subject in keys && r[i].start % Hour == 0
  {
    if keys == [] then []
    else
      var head := Resample(obs, keys[0]);
      assert forall k :: 0 <= k < |head| ==> head[k].start % Hour == 0 by {
        forall k | 0 <= k < |head| ensures head[k].start % Hour == 0 {
          Arith.DivMod(head[k].start, Hour, head[0].start / Hour + k, 0);
        }
      }
      head + AggregateKeys(obs, keys[1..])
  }

  /**
    The hourly table: every subject's resampled series, subjects in
    increasing order; every bucket starts on a clock hour.
  */
  function Aggregate(obs: seq<Observation>): (r: seq<Bucket>)
    ensures forall i :: 0 <= i < |r| ==> r[i].start % Hour == 0 && HasSubject(obs, r[i].subject)
  {
    AggregateKeys(obs, Keys(obs))
  }

  // ----- The rows of one subject -----

  function BucketsOf(r: seq<Bucket>, s: string): (q: seq<Bucket>)
    ensures forall k :: 0 <= k < |q| ==> q[k].subject == s
  {
    if r == [] then []
    else if r[0].subject == s then [r[0]] + BucketsOf(r[1..], s)
    else BucketsOf(r[1..], s)
  }

  lemma {:induction false} BucketsOfConcat(a: seq<Bucket>, b: seq<Bucket>, s: string)
    ensures BucketsOf(a + b, s) == BucketsOf(a, s) + BucketsOf(b, s)
  {
    if a != [] {
      assert (a + b)[0] == a[0];
      assert (a + b)[1..] == a[1..] + b;
      BucketsOfConcat(a[1..], b, s);
    } else {
      assert a + b == b;
    }
  }

  lemma {:induction false} BucketsOfSame(a: seq<Bucket>, s: string, t: string)
    requires forall k :: 0 <= k < |a| ==> a[k].subject == t
    ensures BucketsOf(a, s) == if s == t then a else []
  {
    if a != [] {
      BucketsOfSame(a[1..], s, t);
      assert a == [a[0]] + a[1..];
    }
  }

  lemma {:induction false} AggregateKeysOf(obs: seq<Observation>, keys: seq<string>, s: string)
    requires StrictlyIncreasing(keys)
    requires forall k :: k in keys ==> HasSubject(obs, k)
    ensures BucketsOf(AggregateKeys(obs, keys), s) == if s in keys then Resample(obs, s) else []
  {
    if keys != [] {
      var head := Resample(obs, keys[0]);
      AggregateKeysOf(obs, keys[1..], s);
      BucketsOfConcat(head, AggregateKeys(obs, keys[1..]), s);
      BucketsOfSame(head, s, keys[0]);
      if s == keys[0] {
        TailMembers(keys, s);
      }
    }
  }

  /**
    The rows of one subject in the hourly table are exactly its resampled
    series; a name that is no subject has no rows.
  */
  lemma SubjectRows(obs: seq<Observation>, s: string)
    ensures BucketsOf(Aggregate(obs), s) == if HasSubject(obs, s) then Resample(obs, s) else []
  {
    AggregateKeysOf(obs, Keys(obs), s);
  }

  // ----- No duplicate (subject, hour) pairs -----

  predicate BucketLt(a: Bucket, b: Bucket) {
    StrLt(a.subject, b.subject) || (a.subject == b.subject && a.start < b.start)
  }

  lemma {:induction false} AggregateKeysOrdered(obs: seq<Observation>, keys: seq<string>)
    requires StrictlyIncreasing(keys)
    requires forall k :: k in keys ==> HasSubject(obs, k)
    ensures forall i, j :: 0 <= i < j < |AggregateKeys(obs, keys)| ==>
      BucketLt(AggregateKeys(obs, keys)[i], AggregateKeys(obs, keys)[j])
  {
    if keys != [] {
      var head := Resample(obs, keys[0]);
      var tail := AggregateKeys(obs, keys[1..]);
      AggregateKeysOrdered(obs, keys[1..]);
      var r := head + tail;
      assert r == AggregateKeys(obs, keys);
      forall i, j | 0 <= i < j < |r| ensures BucketLt(r[i], r[j]) {
        if j < |head| {
          assert r[i] == head[i] && r[j] == head[j];
          assert head[i].subject == head[j].subject;
          assert head[i].start == head[0].start + Hour * i;
          assert head[j].start == head[0].start + Hour * j;
        } else if i < |head| {
          assert r[i] == head[i] && r[j] == tail[j - |head|];
          assert tail[j - |head|].subject in keys[1..];
          var k :| 0 <= k < |keys[1..]| && keys[1..][k] == tail[j - |head|].subject;
          assert StrLt(keys[0], keys[k + 1]);
        } else {
          assert r[i] == tail[i - |head|] && r[j] == tail[j - |head|];
        }
      }
    }
  }

  /**
    The hourly table is strictly increasing in (MouseID, Datetime): ordered by
    subject, then by hour, and no (subject, hour) pair appears twice.
  */
  lemma AggregateOrdered(obs: seq<Observation>)
    ensures var r := Aggregate(obs);
      forall i, j :: 0 <= i < j < |r| ==>
        BucketLt(r[i], r[j]) && (r[i].subject != r[j].subject || r[i].start != r[j].start)
  {
    var r := Aggregate(obs);
    AggregateKeysOrdered(obs, Keys(obs));
    assert r == AggregateKeys(obs, Keys(obs));
    forall i, j | 0 <= i < j < |r|
      ensures r[i].subject != r[j].subject || r[i].start != r[j].start
    {
      assert BucketLt(r[i], r[j]);
      StrLtIrreflexive(r[i].subject);
    }
  }

  // ----- Every observation lands in exactly one bucket -----

  /**
    Every observation's clock hour has a row of its subject in the hourly
    table; AggregateOrdered shows that no subject and hour appear twice.
  */
  lemma ObservationBucketed(obs: seq<Observation>, i: nat)
    requires i < |obs|
    ensures var r := Aggregate(obs);
      exists j :: 0 <= j < |r| && r[j].subject == obs[i].subject && r[j].start == HourStart(obs[i].time)
  {
    var s, t := obs[i].subject, obs[i].time;
    var series := Resample(obs, s);
    HourStartMonotone(Earliest(obs, s), t);
    HourStartMonotone(t, Latest(obs, s));
    var first := series[0].start;
    var k := (HourStart(t) - first) / Hour;
    Arith.DivMod(HourStart(t) - first, Hour, HourStart(t) / Hour - first / Hour, 0);
    assert 0 <= k < |series|;
    assert series[k].start == HourStart(t);
    SubjectRows(obs, s);
    BucketOfRowIsRow(Aggregate(obs), s, k);
  }

  /** Each row picked out by BucketsOf is a row of the table. */
  lemma {:induction false} BucketOfRowIsRow(r: seq<Bucket>, s: string, k: nat)
    requires k < |BucketsOf(r, s)|
    ensures exists j :: 0 <= j < |r| && r[j] == BucketsOf(r, s)[k]
  {
    if r[0].subject == s && k == 0 {
      assert r[0] == BucketsOf(r, s)[0];
    } else {
      var k' := if r[0].subject == s then k - 1 else k;
      BucketOfRowIsRow(r[1..], s, k');
      var j :| 0 <= j < |r[1..]| && r[1..][j] == BucketsOf(r[1..], s)[k'];
      assert r[j + 1] == BucketsOf(r, s)[k];
    }
  }

  // ----- Sums -----

  function SumRevolutions(r: seq<Bucket>): nat {
    if r == [] then 0 else SumRevolutions(r[..|r| - 1]) + r[|r| - 1].revolutions
  }

  lemma {:induction false} SumRevolutionsConcat(a: seq<Bucket>, b: seq<Bucket>)
    ensures SumRevolutions(a + b) == SumRevolutions(a) + SumRevolutions(b)
  {
    if b != [] {
      assert (a + b)[..|a + b| - 1] == a + b[..|b| - 1];
      assert (a + b)[|a + b| - 1] == b[|b| - 1];
      SumRevolutionsConcat(a, b[..|b| - 1]);
    } else {
      assert a + b == a;
    }
  }

  /** Adjacent intervals add up. */
  lemma {:induction false} SumInSplit(obs: seq<Observation>, s: string, lo: int, mid: int, hi: int)
    requires lo <= mid <= hi
    ensures SumIn(obs, s, lo, hi) == SumIn(obs, s, lo, mid) + SumIn(obs, s, mid, hi)
  {
    if obs != [] {
      SumInSplit(obs[1..], s, lo, mid, hi);
    }
  }

  /** An interval holding all of the subject's observations holds its total. */
  lemma {:induction false} SumInCovering(obs: seq<Observation>, s: string, lo: int, hi: int)
    requires forall i :: 0 <= i < |obs| && obs[i].subject == s ==> lo <= obs[i].time < hi
    ensures SumIn(obs, s, lo, hi) == Total(obs, s)
  {
    if obs != [] {
      assert forall i :: 0 < i < |obs| ==> obs[1..][i - 1] == obs[i];
      SumInCovering(obs[1..], s, lo, hi);
    }
  }

  /** An interval holding none of the subject's observations sums to 0. */
  lemma {:induction false} SumInEmpty(obs: seq<Observation>, s: string, lo: int, hi: int)
    requires forall i :: 0 <= i < |obs| && obs[i].subject == s ==> !(lo <= obs[i].time < hi)
    ensures SumIn(obs, s, lo, hi) == 0
  {
    if obs != [] {
      assert forall i :: 0 < i < |obs| ==> obs[1..][i - 1] == obs[i];
      SumInEmpty(obs[1..], s, lo, hi);
    }
  }

  lemma {:induction false} BucketsSum(obs: seq<Observation>, s: string, first: int, count: nat)
    ensures SumRevolutions(Buckets(obs, s, first, count)) == SumIn(obs, s, first, first + Hour * count)
  {
    if count > 0 {
      var r := Buckets(obs, s, first, count);
      assert r[..count - 1] == Buckets(obs, s, first, count - 1);
      assert SumRevolutions(r) == SumRevolutions(r[..count - 1]) + r[count - 1].revolutions;
      BucketsSum(obs, s, first, count - 1);
      var mid := first + Hour * (count - 1);
      assert mid + Hour == first + Hour * count;
      assert r[count - 1].revolutions == SumIn(obs, s, mid, mid + Hour);
      SumInSplit(obs, s, first, mid, mid + Hour);
      assert SumRevolutions(r[..count - 1]) == SumIn(obs, s, first, mid);
    } else {
      SumInEmpty(obs, s, first, first);
    }
  }

  /** Every observation of the subject falls inside the span of its resampled series. */
  lemma ResampleSpan(obs: seq<Observation>, s: string)
    requires HasSubject(obs, s)
    ensures var r := Resample(obs, s);
      forall i :: 0 <= i < |obs| && obs[i].subject == s ==>
        r[0].start <= obs[i].time < r[0].start + Hour * |r|
  {
    var r := Resample(obs, s);
    var n := |r|;
    assert r[n - 1].start == r[0].start + Hour * (n - 1);
    assert r[0].start + Hour * n == r[n - 1].start + Hour;
  }

  /** Buckets covering every observation of the subject sum to its total. */
  lemma CoveringBuckets(obs: seq<Observation>, s: string, first: int, count: nat)
    requires forall i :: 0 <= i < |obs| && obs[i].subject == s ==> first <= obs[i].time < first + Hour * count
    ensures SumRevolutions(Buckets(obs, s, first, count)) == Total(obs, s)
  {
    BucketsSum(obs, s, first, count);
    SumInCovering(obs, s, first, first + Hour * count);
  }

  /** Resampling conserves the subject's total. */
  lemma ResampleConserves(obs: seq<Observation>, s: string)
    requires HasSubject(obs, s)
    ensures SumRevolutions(Resample(obs, s)) == Total(obs, s)
  {
    var r := Resample(obs, s);
    ResampleSpan(obs, s);
    assert r == Buckets(obs, s, r[0].start, |r|);
    CoveringBuckets(obs, s, r[0].start, |r|);
  }

  /**
    Per subject, the hourly table's revolutions add up to the subject's raw
    total: hours are neither lost nor counted twice.
  */
  lemma SubjectTotalConserved(obs: seq<Observation>, s: string)
    ensures SumRevolutions(BucketsOf(Aggregate(obs), s)) == Total(obs, s)
  {
    SubjectRows(obs, s);
    if HasSubject(obs, s) {
      ResampleConserves(obs, s);
    } else {
      NoSubjectNoTotal(obs, s);
    }
  }

  lemma {:induction false} NoSubjectNoTotal(obs: seq<Observation>, s: string)
    requires !HasSubject(obs, s)
    ensures Total(obs, s) == 0
  {
    if obs != [] {
      assert forall i :: 0 < i < |obs| ==> obs[1..][i - 1] == obs[i];
      NoSubjectNoTotal(obs[1..], s);
    }
  }

  /** An hour of the series that holds none of the subject's observations is 0. */
  lemma ResampleEmptyHour(obs: seq<Observation>, s: string, k: nat)
    requires HasSubject(obs, s) && k < |Resample(obs, s)|
    requires forall i :: 0 <= i < |obs| && obs[i].subject == s ==>
      HourStart(obs[i].time) != Resample(obs, s)[k].start
    ensures Resample(obs, s)[k].revolutions == 0
  {
    var b := Resample(obs, s)[k];
    forall i | 0 <= i < |obs| && obs[i].subject == s ensures !(b.start <= obs[i].time < b.start + Hour) {
      if b.start <= obs[i].time < b.start + Hour {
        assert b.start % Hour == 0 by {
          Arith.DivMod(b.start, Hour, Resample(obs, s)[0].start / Hour + k, 0);
        }
        HourStartWithin(obs[i].time, b.start);
      }
    }
    SumInEmpty(obs, s, b.start, b.start + Hour);
  }

  /** A bucket whose hour holds none of the subject's observations is 0. */
  lemma EmptyHourIsZero(obs: seq<Observation>, j: nat)
    requires j < |Aggregate(obs)|
    requires forall i :: 0 <= i < |obs| && obs[i].subject == Aggregate(obs)[j].subject ==>
      HourStart(obs[i].time) != Aggregate(obs)[j].start
    ensures Aggregate(obs)[j].revolutions == 0
  {
    var r := Aggregate(obs);
    var b := r[j];
    var s := b.subject;
    assert HasSubject(obs, s);
    BucketsOfContains(r, j);
    SubjectRows(obs, s);
    var series := Resample(obs, s);
    assert b in series;
    var k :| 0 <= k < |series| && series[k] == b;
    ResampleEmptyHour(obs, s, k);
  }

  /** Each row of a table is among the rows of its own subject. */
  lemma {:induction false} BucketsOfContains(r: seq<Bucket>, j: nat)
    requires j < |r|
    ensures r[j] in BucketsOf(r, r[j].subject)
  {
    if j > 0 {
      BucketsOfContains(r[1..], j - 1);
    }
  }

  // ----- Total over all subjects -----

  /** Revolutions of the observations whose subject is among keys. */
  function TotalAmong(obs: seq<Observation>, keys: seq<string>): nat {
    if obs == [] then 0
    else (if obs[0].subject in keys then Value(obs[0].revolutions) else 0) + TotalAmong(obs[1..], keys)
  }

  lemma {:induction false} TotalAmongSplit(obs: seq<Observation>, keys: seq<string>)
    requires keys != [] && keys[0] !in keys[1..]
    ensures TotalAmong(obs, keys) == Total(obs, keys[0]) + TotalAmong(obs, keys[1..])
  {
    if obs != [] {
      TotalAmongSplit(obs[1..], keys);
      assert forall x :: x in keys <==> x == keys[0] || x in keys[1..] by {
        assert keys == [keys[0]] + keys[1..];
      }
    }
  }

  lemma {:induction false} TotalAmongAll(obs: seq<Observation>, keys: seq<string>)
    requires forall i :: 0 <= i < |obs| ==> obs[i].subject in keys
    ensures TotalAmong(obs, keys) == SumAll(obs)
  {
    if obs != [] {
      assert forall i :: 0 < i < |obs| ==> obs[1..][i - 1] == obs[i];
      TotalAmongAll(obs[1..], keys);
    }
  }

  lemma {:induction false} AggregateKeysSum(obs: seq<Observation>, keys: seq<string>)
    requires StrictlyIncreasing(keys)
    requires forall k :: k in keys ==> HasSubject(obs, k)
    ensures SumRevolutions(AggregateKeys(obs, keys)) == TotalAmong(obs, keys)
  {
    if keys == [] {
      TotalAmongNone(obs);
    } else {
      AggregateKeysSum(obs, keys[1..]);
      SumRevolutionsConcat(Resample(obs, keys[0]), AggregateKeys(obs, keys[1..]));
      ResampleConserves(obs, keys[0]);
      TailMembers(keys, keys[0]);
      TotalAmongSplit(obs, keys);
    }
  }

  lemma {:induction false} TotalAmongNone(obs: seq<Observation>)
    ensures TotalAmong(obs, []) == 0
  {
    if obs != [] {
      TotalAmongNone(obs[1..]);
    }
  }

  /** The hourly table's revolutions add up to the long table's. */
  lemma TotalConserved(obs: seq<Observation>)
    ensures SumRevolutions(Aggregate(obs)) == SumAll(obs)
  {
    var keys := Keys(obs);
    AggregateKeysSum(obs, keys);
    forall i | 0 <= i < |obs| ensures obs[i].subject in keys {
      assert HasSubject(obs, obs[i].subject);
    }
    TotalAmongAll(obs, keys);
  }

  // ----- The order of the long table does not matter -----

  lemma {:induction false} SumInConcat(a: seq<Observation>, b: seq<Observation>, s: string, lo: int, hi: int)
    ensures SumIn(a + b, s, lo, hi) == SumIn(a, s, lo, hi) + SumIn(b, s, lo, hi)
  {
    if a == [] {
      assert a + b == b;
    } else {
      assert (a + b)[0] == a[0];
      assert (a + b)[1..] == a[1..] + b;
      SumInConcat(a[1..], b, s, lo, hi);
    }
  }

  lemma RemoveAt(b: seq<Observation>, i: nat)
    requires i < |b|
    ensures multiset(b[..i] + b[i + 1..]) == multiset(b) - multiset{b[i]}
  {
    assert b == b[..i] + [b[i]] + b[i + 1..];
  }

  /** Taking out element i takes its part out of every window sum. */
  lemma SumInRemove(b: seq<Observation>, i: nat, s: string, lo: int, hi: int)
    requires i < |b|
    ensures SumIn(b, s, lo, hi) == SumIn([b[i]], s, lo, hi) + SumIn(b[..i] + b[i + 1..], s, lo, hi)
  {
    assert b == b[..i] + ([b[i]] + b[i + 1..]);
    SumInConcat(b[..i], [b[i]] + b[i + 1..], s, lo, hi);
    SumInConcat([b[i]], b[i + 1..], s, lo, hi);
    SumInConcat(b[..i], b[i + 1..], s, lo, hi);
  }

  /** The first element of a can be found in any permutation b; the rests are permutations too. */
  lemma PermutationTail(a: seq<Observation>, b: seq<Observation>) returns (i: nat)
    requires multiset(a) == multiset(b) && a != []
    ensures i < |b| && b[i] == a[0]
    ensures multiset(a[1..]) == multiset(b[..i] + b[i + 1..])
  {
    assert a[0] in multiset(b);
    i :| 0 <= i < |b| && b[i] == a[0];
    RemoveAt(b, i);
    assert multiset(a[1..]) == multiset(a) - multiset{a[0]} by {
      assert a == [a[0]] + a[1..];
    }
  }

  lemma {:induction false} SumInPermutation(a: seq<Observation>, b: seq<Observation>, s: string, lo: int, hi: int)
    requires multiset(a) == multiset(b)
    ensures SumIn(a, s, lo, hi) == SumIn(b, s, lo, hi)
    decreases |a|
  {
    if a == [] {
      assert |b| == |multiset(b)| == 0;
    } else {
      var i := PermutationTail(a, b);
      SumInPermutation(a[1..], b[..i] + b[i + 1..], s, lo, hi);
      SumInRemove(b, i, s, lo, hi);
      SumInRemove(a, 0, s, lo, hi);
      assert a[..0] + a[1..] == a[1..];
    }
  }

  lemma PeriodWithin(a: seq<Observation>, b: seq<Observation>, s: string)
    requires forall x :: x in a ==> x in b
    requires HasSubject(a, s)
    ensures HasSubject(b, s)
    ensures Earliest(b, s) <= Earliest(a, s) && Latest(a, s) <= Latest(b, s)
  {
    var i :| 0 <= i < |a| && a[i].subject == s && a[i].time == Earliest(a, s);
    assert a[i] in b;
    var k :| 0 <= k < |a| && a[k].subject == s && a[k].time == Latest(a, s);
    assert a[k] in b;
  }

  lemma SamePeriod(a: seq<Observation>, b: seq<Observation>, s: string)
    requires multiset(a) == multiset(b)
    ensures HasSubject(a, s) <==> HasSubject(b, s)
    ensures HasSubject(a, s) ==> Earliest(a, s) == Earliest(b, s) && Latest(a, s) == Latest(b, s)
  {
    assert forall x :: x in a <==> x in b by {
      forall x ensures x in a <==> x in b {
        assert x in a <==> x in multiset(a);
        assert x in b <==> x in multiset(b);
      }
    }
    if HasSubject(a, s) {
      PeriodWithin(a, b, s);
      PeriodWithin(b, a, s);
    } else if HasSubject(b, s) {
      PeriodWithin(b, a, s);
    }
  }

  /** Buckets over the same hours hold the same sums for any permutation of the observations. */
  lemma BucketsIgnoreOrder(a: seq<Observation>, b: seq<Observation>, s: string, first: int, count: nat)
    requires multiset(a) == multiset(b)
    ensures Buckets(a, s, first, count) == Buckets(b, s, first, count)
  {
    var ra, rb := Buckets(a, s, first, count), Buckets(b, s, first, count);
    forall k | 0 <= k < count ensures ra[k] == rb[k] {
      SumInPermutation(a, b, s, ra[k].start, ra[k].start + Hour);
    }
  }

  lemma ResampleIgnoresOrder(a: seq<Observation>, b: seq<Observation>, s: string)
    requires multiset(a) == multiset(b) && HasSubject(a, s)
    ensures HasSubject(b, s) && Resample(a, s) == Resample(b, s)
  {
    SamePeriod(a, b, s);
    EarliestNotAfterLatest(a, s);
    HourStartMonotone(Earliest(a, s), Latest(a, s));
    var first, last := HourStart(Earliest(a, s)), HourStart(Latest(a, s));
    BucketsIgnoreOrder(a, b, s, first, HourCount(first, last));
  }

  lemma {:induction false} AggregateKeysIgnoresOrder(a: seq<Observation>, b: seq<Observation>, keys: seq<string>)
    requires multiset(a) == multiset(b)
    requires forall k :: k in keys ==> HasSubject(a, k) && HasSubject(b, k)
    ensures AggregateKeys(a, keys) == AggregateKeys(b, keys)
  {
    if keys != [] {
      ResampleIgnoresOrder(a, b, keys[0]);
      AggregateKeysIgnoresOrder(a, b, keys[1..]);
    }
  }

  /**
    The hourly table depends only on which observations there are, not on
    their order: sorting the long table before resampling changes nothing.
  */
  lemma AggregateIgnoresOrder(a: seq<Observation>, b: seq<Observation>)
    requires multiset(a) == multiset(b)
    ensures Aggregate(a) == Aggregate(b)
  {
    forall s ensures HasSubject(a, s) <==> HasSubject(b, s) {
      SamePeriod(a, b, s);
    }
    IncreasingUnique(Keys(a), Keys(b));
    AggregateKeysIgnoresOrder(a, b, Keys(a));
  }
}
