/**
  The strict `%d/%m/%Y %H:%M:%S` date conversion and the column-wise
  conversion with an optional fallback parser.

  The strict pattern follows the field patterns of Python's `strptime`, which
  pandas uses for an explicit format: day, month, hour, minute and second are
  one or two digits, the year is exactly four digits, and the separators `/`,
  ` ` and `:` must appear as written. The text must be consumed completely,
  the fields must form an existing date and a 24-hour time, and the instant
  must fit pandas' nanosecond timestamp range.
*/
module DateParse {

  import opened Wrappers
  import opened Calendar
  import Arith

  /** Whole seconds on either side of 1970 that a nanosecond int64 timestamp can hold. */
  const MaxSeconds := 9223372036

  predicate Representable(t: int) {
    -MaxSeconds <= t <= MaxSeconds
  }

  predicate IsDigit(c: char) {
    '0' <= c <= '9'
  }

  predicate AllDigits(s: string) {
    forall i :: 0 <= i < |s| ==> IsDigit(s[i])
  }

  function DigitValue(c: char): (n: nat)
    requires IsDigit(c)
    ensures n < 10
  {
    c as int - '0' as int
  }

  function DigitChar(n: nat): (c: char)
    requires n < 10
    ensures IsDigit(c) && DigitValue(c) == n
  {
    ('0' as int + n) as char
  }

  /** The number of digits at the front of s. */
  function DigitRun(s: string): (n: nat)
    ensures n <= |s|
    ensures AllDigits(s[..n])
    ensures n < |s| ==> !IsDigit(s[n])
  {
    if s == [] || !IsDigit(s[0]) then 0 else 1 + DigitRun(s[1..])
  }

  /** The value of a decimal numeral. */
  function Decimal(s: string): nat
    requires AllDigits(s)
  {
    if s == [] then 0 else Decimal(s[..|s| - 1]) * 10 + DigitValue(s[|s| - 1])
  }

  datatype Scan = Scan(value: nat, rest: string)

  /** 10 to the power w: the first number that needs more than w digits. */
  function Pow10(w: nat): (p: nat)
    ensures p >= 1
  {
    if w == 0 then 1 else 10 * Pow10(w - 1)
  }

  lemma {:induction false} Pow10Monotone(a: nat, b: nat)
    requires a <= b
    ensures Pow10(a) <= Pow10(b)
  {
    if a < b {
      Pow10Monotone(a, b - 1);
    }
  }

  /** A numeral of w digits is worth less than 10 to the power w. */
  lemma {:induction false} DecimalBound(s: string)
    requires AllDigits(s)
    ensures Decimal(s) < Pow10(|s|)
  {
    if s != [] {
      var p := s[..|s| - 1];
      DecimalBound(p);
      assert Decimal(p) * 10 <= (Pow10(|p|) - 1) * 10;
    }
  }

  /**
    A numeral of lo to hi digits at the front of s, followed by a non-digit or
    the end, and its value.
  */
  function Number(s: string, lo: nat, hi: nat): (r: Option<Scan>)
    ensures r.Some? <==> lo <= DigitRun(s) <= hi
    ensures r.Some? ==> s == s[..DigitRun(s)] + r.value.rest
    ensures r.Some? ==> r.value.value == Decimal(s[..DigitRun(s)]) && r.value.value < Pow10(hi)
  {
    var n := DigitRun(s);
    if lo <= n <= hi then
      DecimalBound(s[..n]);
      Pow10Monotone(n, hi);
      Some(Scan(Decimal(s[..n]), s[n..]))
    else None
  }

  /** The separator c at the front of s. */
  function Literal(s: string, c: char): (r: Option<string>)
    ensures r.Some? <==> |s| > 0 && s[0] == c
    ensures r.Some? ==> s == [c] + r.value
  {
    if |s| > 0 && s[0] == c then Some(s[1..]) else None
  }

  /** The day, month and year read from the front of a value, and the text after them. */
  datatype DatePart = DatePart(day: nat, month: nat, year: nat, rest: string)

  /** The hour, minute and second read from a value, and the text after them. */
  datatype ClockPart = ClockPart(hour: nat, minute: nat, second: nat, rest: string)

  /** Matches `%d/%m/%Y` at the front of s. */
  function MatchDate(s: string): (r: Option<DatePart>)
    ensures r.Some? ==> r.value.day < 100 && r.value.month < 100 && r.value.year < 10000
  {
    var d :- Number(s, 1, 2);
    var s1 :- Literal(d.rest, '/');
    var m :- Number(s1, 1, 2);
    var s2 :- Literal(m.rest, '/');
    var y :- Number(s2, 4, 4);
    Some(DatePart(d.value, m.value, y.value, y.rest))
  }

  /** Matches `%H:%M:%S` at the front of s. */
  function MatchClock(s: string): (r: Option<ClockPart>)
    ensures r.Some? ==> r.value.hour < 100 && r.value.minute < 100 && r.value.second < 100
  {
    var h :- Number(s, 1, 2);
    var s1 :- Literal(h.rest, ':');
    var mi :- Number(s1, 1, 2);
    var s2 :- Literal(mi.rest, ':');
    var sec :- Number(s2, 1, 2);
    Some(ClockPart(h.value, mi.value, sec.value, sec.rest))
  }

  /** Matches the pattern and reads the six fields, without range checks. */
  function MatchFields(s: string): (r: Option<DateTime>)
    ensures r.Some? ==> Writable(r.value)
  {
    var date :- MatchDate(s);
    var s1 :- Literal(date.rest, ' ');
    var clock :- MatchClock(s1);
    if clock.rest == [] then Some(DateTime(date.year, date.month, date.day, clock.hour, clock.minute, clock.second))
    else None
  }

  /** The strict parse: the pattern matches and the fields are an existing date and time. */
  function ParseStrict(s: string): (r: Option<DateTime>)
    ensures r.Some? <==> MatchFields(s).Some? && Valid(MatchFields(s).value)
    ensures r.Some? ==> Valid(r.value)
    ensures r.Some? ==> MatchFields(s) == r
  {
    match MatchFields(s)
    case Some(dt) => if Valid(dt) then Some(dt) else None
    case None => None
  }

  /** The strict conversion of one value to a timestamp. */
  function StrictSeconds(s: string): (r: Option<int>)
    ensures r.Some? <==> ParseStrict(s).Some? && Representable(ToSeconds(ParseStrict(s).value))
    ensures r.Some? ==> r.value == ToSeconds(ParseStrict(s).value)
    ensures r.Some? ==> Representable(r.value)
  {
    match ParseStrict(s)
    case Some(dt) => if Representable(ToSeconds(dt)) then Some(ToSeconds(dt)) else None
    case None => None
  }

  /** A converted value keeps the clock fields written in the text. */
  lemma StrictSecondsClock(s: string)
    requires StrictSeconds(s).Some?
    ensures HourOfDay(StrictSeconds(s).value) == ParseStrict(s).value.hour
    ensures MinuteOfHour(StrictSeconds(s).value) == ParseStrict(s).value.minute
    ensures SecondOfMinute(StrictSeconds(s).value) == ParseStrict(s).value.second
  {
    ClockFields(ParseStrict(s).value);
  }

  /** Converted values are ordered as the dates and times written in the texts. */
  lemma StrictSecondsOrdered(a: string, b: string)
    requires StrictSeconds(a).Some? && StrictSeconds(b).Some?
    ensures StrictSeconds(a).value < StrictSeconds(b).value <==> Before(ParseStrict(a).value, ParseStrict(b).value)
    ensures StrictSeconds(a).value == StrictSeconds(b).value <==> ParseStrict(a).value == ParseStrict(b).value
  {
    ToSecondsOrdered(ParseStrict(a).value, ParseStrict(b).value);
  }

  // ----- Writing dates in the pattern -----

  /** n written with exactly w digits: zero-padded on the left, or cut to its last w digits. */
  function Numeral(n: nat, w: nat): (s: string)
    ensures |s| == w && AllDigits(s)
  {
    if w == 0 then [] else Numeral(n / 10, w - 1) + [DigitChar(n % 10)]
  }

  /** A number with at most w digits reads back from its w-digit numeral. */
  lemma {:induction false} NumeralValue(n: nat, w: nat)
    requires n < Pow10(w)
    ensures Decimal(Numeral(n, w)) == n
  {
    if w > 0 {
      var s := Numeral(n, w);
      assert s[..|s| - 1] == Numeral(n / 10, w - 1);
      assert n / 10 < Pow10(w - 1);
      NumeralValue(n / 10, w - 1);
    }
  }

  /** Every numeral is the rendering of its own value with its own length. */
  lemma {:induction false} NumeralOfDecimal(s: string)
    requires AllDigits(s)
    ensures Numeral(Decimal(s), |s|) == s
  {
    if s != [] {
      var p := s[..|s| - 1];
      var c := s[|s| - 1];
      assert s == p + [c];
      NumeralOfDecimal(p);
      Arith.DivMod(Decimal(s), 10, Decimal(p), DigitValue(c));
      assert DigitChar(DigitValue(c)) == c;
      assert Numeral(Decimal(s), |s|) == Numeral(Decimal(p), |p|) + [c];
    }
  }

  lemma {:induction false} DigitRunOfNumeral(p: string, rest: string)
    requires AllDigits(p)
    requires rest == [] || !IsDigit(rest[0])
    ensures DigitRun(p + rest) == |p|
  {
    if p != [] {
      assert (p + rest)[1..] == p[1..] + rest;
      DigitRunOfNumeral(p[1..], rest);
    }
  }

  lemma NumberOfNumeral(n: nat, w: nat, lo: nat, hi: nat, rest: string)
    requires lo <= w <= hi && n < Pow10(w)
    requires rest == [] || !IsDigit(rest[0])
    ensures Number(Numeral(n, w) + rest, lo, hi) == Some(Scan(n, rest))
  {
    var s := Numeral(n, w) + rest;
    DigitRunOfNumeral(Numeral(n, w), rest);
    assert s[..w] == Numeral(n, w);
    assert s[w..] == rest;
    NumeralValue(n, w);
  }

  lemma NumberIsNumeral(s: string, lo: nat, hi: nat)
    requires Number(s, lo, hi).Some?
    ensures Number(s, lo, hi).value.value < Pow10(DigitRun(s))
    ensures s == Numeral(Number(s, lo, hi).value.value, DigitRun(s)) + Number(s, lo, hi).value.rest
  {
    DecimalBound(s[..DigitRun(s)]);
    NumeralOfDecimal(s[..DigitRun(s)]);
  }

  /** The digit count of each one-or-two-digit field as written; the year always takes four. */
  datatype Widths = Widths(day: nat, month: nat, hour: nat, minute: nat, second: nat)

  predicate WidthsOk(w: Widths) {
    1 <= w.day <= 2 && 1 <= w.month <= 2 && 1 <= w.hour <= 2 && 1 <= w.minute <= 2 && 1 <= w.second <= 2
  }

  /** Every field is a natural number with no more digits than its width. */
  predicate Fits(dt: DateTime, w: Widths) {
    0 <= dt.day < Pow10(w.day) && 0 <= dt.month < Pow10(w.month) && 0 <= dt.year < Pow10(4)
    && 0 <= dt.hour < Pow10(w.hour) && 0 <= dt.minute < Pow10(w.minute) && 0 <= dt.second < Pow10(w.second)
  }

  /** The zero-padded layout: two digits per field and four for the year. */
  const Padded := Widths(2, 2, 2, 2, 2)

  /** Fields below 100, and a year below 10000. */
  predicate Writable(dt: DateTime) {
    0 <= dt.day < 100 && 0 <= dt.month < 100 && 0 <= dt.year < 10000
    && 0 <= dt.hour < 100 && 0 <= dt.minute < 100 && 0 <= dt.second < 100
  }

  /** The fields written in the pattern with the given widths. */
  function Render(dt: DateTime, w: Widths): (s: string)
    requires Fits(dt, w)
    ensures |s| == w.day + w.month + w.hour + w.minute + w.second + 9
  {
    Numeral(dt.day, w.day) + ("/" + (Numeral(dt.month, w.month) + ("/" + (Numeral(dt.year, 4) + (" " + (
      Numeral(dt.hour, w.hour) + (":" + (Numeral(dt.minute, w.minute) + (":" + Numeral(dt.second, w.second))))))))))
  }

  /** `DD/MM/YYYY HH:MM:SS` with every field zero-padded. */
  function Format(dt: DateTime): string
    requires Writable(dt)
  {
    Render(dt, Padded)
  }

  /** Reading a rendering gives back exactly its six fields, whatever the widths. */
  lemma RenderMatches(dt: DateTime, w: Widths)
    requires WidthsOk(w) && Fits(dt, w)
    ensures MatchFields(Render(dt, w)) == Some(dt)
  {
    var s5 := Numeral(dt.second, w.second);
    var s4 := Numeral(dt.minute, w.minute) + (":" + s5);
    var s3 := Numeral(dt.hour, w.hour) + (":" + s4);
    var s2 := Numeral(dt.year, 4) + (" " + s3);
    var s1 := Numeral(dt.month, w.month) + ("/" + s2);
    NumberOfNumeral(dt.second, w.second, 1, 2, []);
    assert s5 == s5 + [];
    NumberOfNumeral(dt.minute, w.minute, 1, 2, ":" + s5);
    NumberOfNumeral(dt.hour, w.hour, 1, 2, ":" + s4);
    NumberOfNumeral(dt.year, 4, 4, 4, " " + s3);
    NumberOfNumeral(dt.month, w.month, 1, 2, "/" + s2);
    NumberOfNumeral(dt.day, w.day, 1, 2, "/" + s1);
  }

  lemma DateWidths(s: string) returns (wd: nat, wm: nat)
    requires MatchDate(s).Some?
    ensures 1 <= wd <= 2 && 1 <= wm <= 2
    ensures MatchDate(s).value.day < Pow10(wd) && MatchDate(s).value.month < Pow10(wm)
    ensures s == Numeral(MatchDate(s).value.day, wd) + ("/" + (Numeral(MatchDate(s).value.month, wm)
      + ("/" + (Numeral(MatchDate(s).value.year, 4) + MatchDate(s).value.rest))))
  {
    var d := Number(s, 1, 2).value;
    var s1 := Literal(d.rest, '/').value;
    var m := Number(s1, 1, 2).value;
    var s2 := Literal(m.rest, '/').value;
    var y := Number(s2, 4, 4).value;
    assert MatchDate(s).value == DatePart(d.value, m.value, y.value, y.rest);
    NumberIsNumeral(s, 1, 2);
    NumberIsNumeral(s1, 1, 2);
    NumberIsNumeral(s2, 4, 4);
    wd := DigitRun(s);
    wm := DigitRun(s1);
  }

  lemma ClockWidths(s: string) returns (wh: nat, wmi: nat, ws: nat)
    requires MatchClock(s).Some?
    ensures 1 <= wh <= 2 && 1 <= wmi <= 2 && 1 <= ws <= 2
    ensures MatchClock(s).value.hour < Pow10(wh) && MatchClock(s).value.minute < Pow10(wmi)
      && MatchClock(s).value.second < Pow10(ws)
    ensures s == Numeral(MatchClock(s).value.hour, wh) + (":" + (Numeral(MatchClock(s).value.minute, wmi)
      + (":" + (Numeral(MatchClock(s).value.second, ws) + MatchClock(s).value.rest))))
  {
    var h := Number(s, 1, 2).value;
    var s1 := Literal(h.rest, ':').value;
    var mi := Number(s1, 1, 2).value;
    var s2 := Literal(mi.rest, ':').value;
    var sec := Number(s2, 1, 2).value;
    assert MatchClock(s).value == ClockPart(h.value, mi.value, sec.value, sec.rest);
    NumberIsNumeral(s, 1, 2);
    NumberIsNumeral(s1, 1, 2);
    NumberIsNumeral(s2, 1, 2);
    wh := DigitRun(s);
    wmi := DigitRun(s1);
    ws := DigitRun(s2);
  }

  /** Text the pattern accepts is a rendering of the fields read, with the widths found in it. */
  lemma MatchedWidths(s: string) returns (w: Widths)
    requires MatchFields(s).Some?
    ensures WidthsOk(w) && Fits(MatchFields(s).value, w)
    ensures s == Render(MatchFields(s).value, w)
  {
    var date := MatchDate(s).value;
    var s1 := Literal(date.rest, ' ').value;
    var clock := MatchClock(s1).value;
    assert clock.rest == [];
    assert MatchFields(s).value == DateTime(date.year, date.month, date.day, clock.hour, clock.minute, clock.second);
    var wd, wm := DateWidths(s);
    var wh, wmi, ws := ClockWidths(s1);
    var sec := Numeral(clock.second, ws);
    assert sec + clock.rest == sec;
    assert date.rest == " " + s1;
    w := Widths(wd, wm, wh, wmi, ws);
  }

  /**
    The pattern reads dt from s exactly when s is dt written with one or two
    digits per field and four for the year.
  */
  lemma MatchFieldsIff(s: string, dt: DateTime)
    ensures MatchFields(s) == Some(dt) <==> exists w :: WidthsOk(w) && Fits(dt, w) && s == Render(dt, w)
  {
    if MatchFields(s) == Some(dt) {
      var w := MatchedWidths(s);
      assert WidthsOk(w) && Fits(dt, w) && s == Render(dt, w);
    }
    if exists w :: WidthsOk(w) && Fits(dt, w) && s == Render(dt, w) {
      var w :| WidthsOk(w) && Fits(dt, w) && s == Render(dt, w);
      RenderMatches(dt, w);
    }
  }

  /**
    The strict parser accepts a zero-padded value exactly when its fields form
    an existing date and time, and then returns those fields.
  */
  lemma ParseFormat(dt: DateTime)
    requires Writable(dt)
    ensures ParseStrict(Format(dt)) == (if Valid(dt) then Some(dt) else None)
  {
    RenderMatches(dt, Padded);
  }

  /** A 19-character value the strict parser accepts is the zero-padded text of its fields. */
  lemma ParsedIsFormat(s: string)
    requires ParseStrict(s).Some? && |s| == 19
    ensures Writable(ParseStrict(s).value) && s == Format(ParseStrict(s).value)
  {
    var w := MatchedWidths(s);
    assert w == Padded;
  }

  // ----- Column conversion -----

  /**
    Converts every value of a column with parse; like `pd.to_datetime` with
    errors raised, one failing value fails the whole column.
  */
  function ConvertColumn(ss: seq<string>, parse: string -> Option<int>): (r: Option<seq<int>>)
    ensures r.Some? <==> forall i :: 0 <= i < |ss| ==> parse(ss[i]).Some?
    ensures r.Some? ==> |r.value| == |ss|
    ensures r.Some? ==> forall i :: 0 <= i < |ss| ==> r.value[i] == parse(ss[i]).value
  {
    if ss == [] then Some([])
    else
      match parse(ss[0])
      case None => None
      case Some(t) =>
        match ConvertColumn(ss[1..], parse)
        case None => None
        case Some(ts) => Some([t] + ts)
  }

  /**
    The strict pattern first; the fallback parser only when the strict
    conversion of the column fails.
  */
  function ConvertWithFallback(ss: seq<string>, fallback: string -> Option<int>): (r: Option<seq<int>>)
    ensures r.None? <==>
      (exists i :: 0 <= i < |ss| && StrictSeconds(ss[i]).None?) &&
      (exists j :: 0 <= j < |ss| && fallback(ss[j]).None?)
    ensures r.Some? ==> |r.value| == |ss|
    ensures (forall i :: 0 <= i < |ss| ==> StrictSeconds(ss[i]).Some?) ==>
      r.Some? && forall i :: 0 <= i < |ss| ==> r.value[i] == StrictSeconds(ss[i]).value
    ensures (exists i :: 0 <= i < |ss| && StrictSeconds(ss[i]).None?) && r.Some? ==>
      forall i :: 0 <= i < |ss| ==> r.value[i] == fallback(ss[i]).value
  {
    match ConvertColumn(ss, StrictSeconds)
    case Some(ts) => Some(ts)
    case None => ConvertColumn(ss, fallback)
  }
}
