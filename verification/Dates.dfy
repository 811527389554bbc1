/**
  Dates of posts: Python's naive `datetime` values, `datetime.strptime(text,
  '%Y-%m-%d')`, the display format `'%B %d, %Y'`, and the normalisation of the
  frontmatter `date` field in `parse_markdown_file`.
*/
module Dates {
  import opened Common
  import opened Text

  datatype Date = Date(year: nat, month: nat, day: nat)

  /** A naive datetime: a calendar date and the time of day in microseconds. */
  datatype DateTime = DateTime(date: Date, micros: nat)

  predicate IsLeapYear(y: nat) {
    y % 4 == 0 && (y % 100 != 0 || y % 400 == 0)
  }

  function DaysInMonth(y: nat, m: nat): nat
    requires 1 <= m <= 12
  {
    if m == 2 then (if IsLeapYear(y) then 29 else 28)
    else if m == 4 || m == 6 || m == 9 || m == 11 then 30
    else 31
  }

  /** The dates Python's `date` type admits. */
  predicate ValidDate(d: Date) {
    1 <= d.year <= 9999 && 1 <= d.month <= 12 && 1 <= d.day <= DaysInMonth(d.year, d.month)
  }

  type PyDate = d: Date | ValidDate(d) witness Date(1, 1, 1)

  const MicrosPerDay: nat := 86_400_000_000

  type PyDateTime = dt: DateTime | ValidDate(dt.date) && dt.micros < MicrosPerDay
    witness DateTime(Date(1, 1, 1), 0)

  /** Midnight at the start of a date, as `strptime` returns for a date-only format. */
  function Midnight(d: PyDate): PyDateTime {
    DateTime(d, 0)
  }

  /** Python's `a < b` on naive datetimes. */
  predicate Earlier(a: DateTime, b: DateTime) {
    || a.date.year < b.date.year
    || (a.date.year == b.date.year && a.date.month < b.date.month)
    || (a.date.year == b.date.year && a.date.month == b.date.month && a.date.day < b.date.day)
    || (a.date == b.date && a.micros < b.micros)
  }

  /** `Earlier` is a strict total order, so sorting by it is well defined. */
  lemma {:induction false} EarlierIsStrictTotalOrder(a: DateTime, b: DateTime, c: DateTime)
    ensures !Earlier(a, a)
    ensures Earlier(a, b) ==> !Earlier(b, a)
    ensures Earlier(a, b) && Earlier(b, c) ==> Earlier(a, c)
    ensures a == b || Earlier(a, b) || Earlier(b, a)
  {
  }

  // ---------------------------------------------------------------------
  // datetime.strptime(text, '%Y-%m-%d')
  // ---------------------------------------------------------------------

  /** The `ValueError`s `strptime` raises for this format. */
  datatype DateError =
    | NoMatch           // the text does not match the format's pattern
    | UnconvertedData   // the pattern matched a proper prefix only
    | YearOutOfRange    // year 0
    | DayOutOfRange     // a day the month does not have

  predicate InRange(c: char, lo: char, hi: char) {
    lo <= c <= hi
  }

  /** The `%m` field, `1[0-2]|0[1-9]|[1-9]`, tried in that order at `i`:
      its value and the index after it. */
  function MonthField(s: string, i: nat): (r: Option<(nat, nat)>)
    ensures r.Some? ==> 1 <= r.value.0 <= 12 && i < r.value.1 <= |s|
  {
    if i + 1 < |s| && s[i] == '1' && InRange(s[i + 1], '0', '2') then Some((10 + DigitValue(s[i + 1]), i + 2))
    else if i + 1 < |s| && s[i] == '0' && InRange(s[i + 1], '1', '9') then Some((DigitValue(s[i + 1]), i + 2))
    else if i < |s| && InRange(s[i], '1', '9') then Some((DigitValue(s[i]), i + 1))
    else None
  }

  /** The `%d` field, `3[01]|[12]\d|0[1-9]|[1-9]| [1-9]`, tried in that order at
      `i`: its value and the index after it. */
  function DayField(s: string, i: nat): (r: Option<(nat, nat)>)
    ensures r.Some? ==> 1 <= r.value.0 <= 31 && i < r.value.1 <= |s|
  {
    if i + 1 < |s| && s[i] == '3' && InRange(s[i + 1], '0', '1') then Some((30 + DigitValue(s[i + 1]), i + 2))
    else if i + 1 < |s| && InRange(s[i], '1', '2') && IsDigit(s[i + 1]) then Some((10 * DigitValue(s[i]) + DigitValue(s[i + 1]), i + 2))
    else if i + 1 < |s| && s[i] == '0' && InRange(s[i + 1], '1', '9') then Some((DigitValue(s[i + 1]), i + 2))
    else if i < |s| && InRange(s[i], '1', '9') then Some((DigitValue(s[i]), i + 1))
    else if i + 1 < |s| && s[i] == ' ' && InRange(s[i + 1], '1', '9') then Some((DigitValue(s[i + 1]), i + 2))
    else None
  }

  /** The spellings `%m` admits for month `v`: two digits `01` to `12`, or
      one digit `1` to `9`. */
  predicate MonthText(t: string, v: nat) {
    || (|t| == 2 && AllDigits(t) && 1 <= DigitsValue(t) <= 12 && v == DigitsValue(t))
    || (|t| == 1 && InRange(t[0], '1', '9') && v == DigitValue(t[0]))
  }

  /** The spellings `%d` admits for day `v`: two digits `01` to `31`, one
      digit `1` to `9`, or a space and one digit `1` to `9`. */
  predicate DayText(t: string, v: nat) {
    || (|t| == 2 && AllDigits(t) && 1 <= DigitsValue(t) <= 31 && v == DigitsValue(t))
    || (|t| == 1 && InRange(t[0], '1', '9') && v == DigitValue(t[0]))
    || (|t| == 2 && t[0] == ' ' && InRange(t[1], '1', '9') && v == DigitValue(t[1]))
  }

  /** `s` is four year digits, a dash, a month spelling ending before `i`, a
      dash at `i` and a day spelling running to the end, denoting `d`. */
  predicate FieldsSplitAt(s: string, i: nat, d: Date)
    requires |s| >= 5
  {
    && AllDigits(s[..4]) && DigitsValue(s[..4]) == d.year && s[4] == '-'
    && 5 <= i < |s| && s[i] == '-' && MonthText(s[5..i], d.month) && DayText(s[i + 1..], d.day)
  }

  /** The texts `'%Y-%m-%d'` matches in full, with the date they denote. */
  predicate IsoSpelling(s: string, d: Date) {
    |s| >= 5 && (FieldsSplitAt(s, 6, d) || FieldsSplitAt(s, 7, d))
  }

  lemma {:induction false} TwoDigitsValue(t: string)
    requires |t| == 2 && AllDigits(t)
    ensures DigitsValue(t) == 10 * DigitValue(t[0]) + DigitValue(t[1])
  {
    assert t[..|t| - 1] == t[..1] && t[..1][..0] == [];
    assert DigitsValue(t[..1]) == DigitValue(t[0]);
  }

  /** What `MonthField` reads is a month spelling; a month spelling followed by
      a dash is read in full. */
  lemma {:induction false} MonthFieldExact(s: string, i: nat, j: nat, v: nat)
    ensures MonthField(s, i) == Some((v, j)) ==> MonthText(s[i..j], v)
    ensures i <= j < |s| && s[j] == '-' && MonthText(s[i..j], v) ==> MonthField(s, i) == Some((v, j))
  {
    if i + 2 <= |s| && AllDigits(s[i..i + 2]) {
      TwoDigitsValue(s[i..i + 2]);
    }
    if i + 1 <= |s| {
      assert s[i..i + 1][0] == s[i];
    }
  }

  /** What `DayField` reads up to the end is a day spelling; a day spelling
      running to the end is read in full. */
  lemma {:induction false} DayFieldExact(s: string, i: nat, v: nat)
    ensures DayField(s, i) == Some((v, |s|)) ==> DayText(s[i..], v)
    ensures i <= |s| && DayText(s[i..], v) ==> DayField(s, i) == Some((v, |s|))
  {
    if i + 2 == |s| && AllDigits(s[i..]) {
      TwoDigitsValue(s[i..]);
    }
    if i + 1 <= |s| {
      assert s[i..][0] == s[i];
    }
  }

  /** `datetime.strptime(text, '%Y-%m-%d')`, with `%Y` four decimal digits. */
  function ParseIsoDate(s: string): (r: Result<PyDate, DateError>)
    ensures r.Ok? ==> IsoSpelling(s, r.value)
  {
    if !(|s| >= 5 && AllDigits(s[..4]) && s[4] == '-') then Err(NoMatch)
    else
      var year := DigitsValue(s[..4]);
      DigitsValueBound(s[..4]);
      assert Pow10(4) == 10000;
      match MonthField(s, 5)
      case None => Err(NoMatch)
      case Some((month, i)) =>
        if !(i < |s| && s[i] == '-') then Err(NoMatch)
        else match DayField(s, i + 1)
          case None => Err(NoMatch)
          case Some((day, j)) =>
            if j < |s| then Err(UnconvertedData)
            else if year < 1 then Err(YearOutOfRange)
            else if day > DaysInMonth(year, month) then Err(DayOutOfRange)
            else
              MonthFieldExact(s, 5, i, month);
              DayFieldExact(s, i + 1, day);
              Ok(Date(year, month, day))
  }

  /** Every spelling of a valid date is accepted and gives that date: with the
      postcondition of `ParseIsoDate`, `ParseIsoDate(s) == Ok(d)` exactly when
      `s` spells the valid date `d`. */
  lemma {:induction false} IsoSpellingParses(s: string, d: Date)
    requires ValidDate(d) && IsoSpelling(s, d)
    ensures ParseIsoDate(s) == Ok(d)
  {
    var i := if FieldsSplitAt(s, 6, d) then 6 else 7;
    MonthFieldExact(s, 5, i, d.month);
    DayFieldExact(s, i + 1, d.day);
  }

  /** The canonical `YYYY-MM-DD` text of a date. */
  function IsoText(d: PyDate): string {
    Pad4(d.year) + "-" + Pad2(d.month) + "-" + Pad2(d.day)
  }

  function Pad4(n: nat): (s: string)
    requires n < 10000
    ensures |s| == 4 && AllDigits(s) && DigitsValue(s) == n
  {
    var hi, lo := Pad2(n / 100), Pad2(n % 100);
    DigitsAppendTwo(hi, lo);
    hi + lo
  }

  function Pow10(k: nat): (p: nat)
    ensures p >= 1
  {
    if k == 0 then 1 else 10 * Pow10(k - 1)
  }

  lemma {:induction false} DigitsValueBound(s: string)
    requires AllDigits(s)
    ensures DigitsValue(s) < Pow10(|s|)
    decreases |s|
  {
    if |s| > 0 {
      DigitsValueBound(s[..|s| - 1]);
    }
  }

  lemma {:induction false} DigitsAppendTwo(a: string, b: string)
    requires AllDigits(a) && AllDigits(b) && |b| == 2
    ensures AllDigits(a + b) && DigitsValue(a + b) == 100 * DigitsValue(a) + DigitsValue(b)
  {
    var s := a + b;
    var t := a + b[..1];
    assert s[..|s| - 1] == t;
    assert t[..|t| - 1] == a;
    assert b[..1][..0] == [];
    assert DigitsValue(b[..1]) == DigitValue(b[0]);
    assert DigitsValue(t) == 10 * DigitsValue(a) + DigitValue(b[0]);
    assert DigitsValue(s) == 10 * DigitsValue(t) + DigitValue(b[1]);
  }

  /** A two-digit month field in the canonical form is read by `MonthField`. */
  lemma {:induction false} MonthFieldOfPad2(s: string, i: nat, m: nat)
    requires 1 <= m <= 12 && i + 2 <= |s| && s[i..i + 2] == Pad2(m)
    ensures MonthField(s, i) == Some((m, i + 2))
  {
    var p := Pad2(m);
    assert s[i] == p[0] && s[i + 1] == p[1];
    assert p[..1][..0] == [];
    assert m == 10 * DigitValue(p[0]) + DigitValue(p[1]);
  }

  /** A two-digit day field in the canonical form is read by `DayField`. */
  lemma {:induction false} DayFieldOfPad2(s: string, i: nat, d: nat)
    requires 1 <= d <= 31 && i + 2 <= |s| && s[i..i + 2] == Pad2(d)
    ensures DayField(s, i) == Some((d, i + 2))
  {
    var p := Pad2(d);
    assert s[i] == p[0] && s[i + 1] == p[1];
    assert p[..1][..0] == [];
    assert d == 10 * DigitValue(p[0]) + DigitValue(p[1]);
  }

  /** Parsing the canonical text of a valid date gives the date back. */
  lemma {:induction false} IsoRoundTrip(d: PyDate)
    ensures ParseIsoDate(IsoText(d)) == Ok(d)
  {
    var s := IsoText(d);
    var y, m, dd := Pad4(d.year), Pad2(d.month), Pad2(d.day);
    assert s[..4] == y;
    assert s[4] == '-' && s[7] == '-' && |s| == 10;
    assert s[5..7] == m && s[8..10] == dd;
    MonthFieldOfPad2(s, 5, d.month);
    DayFieldOfPad2(s, 8, d.day);
  }

  /** `strptime` accepts single-digit months and days and a space-padded day. */
  lemma {:induction false} LenientForms()
    ensures ParseIsoDate("2026-2-4") == Ok(Date(2026, 2, 4))
    ensures ParseIsoDate("2026-02- 4") == Ok(Date(2026, 2, 4))
  {
    var a := "2026-2-4";
    assert a[..4] == "2026";
    assert DigitsValue("2026") == 2026 by {
      assert "2026"[..3] == "202" && "202"[..2] == "20" && "20"[..1] == "2" && "2"[..0] == "";
    }
    var b := "2026-02- 4";
    assert b[..4] == "2026";
  }

  /** Text that fails to parse: a day the month does not have, and data after
      the day. */
  lemma {:induction false} RejectedForms()
    ensures ParseIsoDate("2026-02-30") == Err(DayOutOfRange)
    ensures ParseIsoDate("2026-02-241") == Err(UnconvertedData)
    ensures ParseIsoDate("26-02-24") == Err(NoMatch)
  {
    var a := "2026-02-30";
    assert a[..4] == "2026";
    assert DigitsValue("2026") == 2026 by {
      assert "2026"[..3] == "202" && "202"[..2] == "20" && "20"[..1] == "2" && "2"[..0] == "";
    }
    var b := "2026-02-241";
    assert b[..4] == "2026";
    var c := "26-02-24";
    assert c[2] == '-';
  }

  // ---------------------------------------------------------------------
  // date.strftime('%B %d, %Y')
  // ---------------------------------------------------------------------

  /** `%B` in the C locale. */
  function MonthName(m: nat): string
    requires 1 <= m <= 12
  {
    ["January", "February", "March", "April", "May", "June", "July",
     "August", "September", "October", "November", "December"][m - 1]
  }

  /** The month a full English month name denotes. */
  function MonthNumber(name: string): (r: Option<nat>)
    ensures r.Some? ==> 1 <= r.value <= 12 && MonthName(r.value) == name
  {
    if name == "January" then Some(1) else if name == "February" then Some(2)
    else if name == "March" then Some(3) else if name == "April" then Some(4)
    else if name == "May" then Some(5) else if name == "June" then Some(6)
    else if name == "July" then Some(7) else if name == "August" then Some(8)
    else if name == "September" then Some(9) else if name == "October" then Some(10)
    else if name == "November" then Some(11) else if name == "December" then Some(12)
    else None
  }

  lemma {:induction false} MonthNameFacts(m: nat)
    requires 1 <= m <= 12
    ensures MonthNumber(MonthName(m)) == Some(m)
    ensures |MonthName(m)| > 0 && ' ' !in MonthName(m)
  {
  }

  /** `'%B %d, %Y'`: month name, space, two-digit day, comma and space, year.
      The year is written in decimal without padding, as glibc's `strftime`
      writes `%Y`. */
  function Display(d: PyDate): string {
    MonthName(d.month) + " " + Pad2(d.day) + ", " + NatToString(d.year)
  }

  /** Reads a `'%B %d, %Y'` text back into its date fields. */
  function ParseDisplay(s: string): Option<Date> {
    var i := IndexOf(s, ' ');
    if i == |s| then None
    else
      var rest := s[i + 1..];
      match MonthNumber(s[..i])
      case None => None
      case Some(month) =>
        if |rest| > 4 && AllDigits(rest[..2]) && rest[2] == ',' && rest[3] == ' ' && AllDigits(rest[4..]) then
          Some(Date(DigitsValue(rest[4..]), month, DigitsValue(rest[..2])))
        else None
  }

  /** The display text determines the date: reading it back gives the date. */
  lemma {:induction false} DisplayRoundTrip(d: PyDate)
    ensures ParseDisplay(Display(d)) == Some(d)
  {
    MonthNameFacts(d.month);
    NatToStringRoundTrip(d.year);
    ReadDisplayParts(MonthName(d.month), d.month, Pad2(d.day), NatToString(d.year));
  }

  lemma {:induction false} ReadDisplayParts(name: string, m: nat, dd: string, yy: string)
    requires MonthNumber(name) == Some(m) && ' ' !in name
    requires |dd| == 2 && AllDigits(dd) && |yy| > 0 && AllDigits(yy)
    ensures ParseDisplay(name + " " + dd + ", " + yy) == Some(Date(DigitsValue(yy), m, DigitsValue(dd)))
  {
    var rest := dd + (", " + yy);
    DisplayShape(name, dd, yy);
    IndexAfterWord(name, rest);
    AfterWord(name, rest);
    DayThenYear(dd, yy);
  }

  lemma DisplayShape(name: string, dd: string, yy: string)
    ensures name + " " + dd + ", " + yy == name + (" " + (dd + (", " + yy)))
  {
  }

  lemma AfterWord(w: string, rest: string)
    ensures (w + (" " + rest))[..|w|] == w && (w + (" " + rest))[|w| + 1..] == rest
  {
  }

  lemma DayThenYear(dd: string, yy: string)
    requires |dd| == 2
    ensures var r := dd + (", " + yy);
      |r| == 4 + |yy| && r[..2] == dd && r[2] == ',' && r[3] == ' ' && r[4..] == yy
  {
  }

  lemma {:induction false} IndexAfterWord(w: string, rest: string)
    requires ' ' !in w
    ensures IndexOf(w + (" " + rest), ' ') == |w|
  {
    var s := w + (" " + rest);
    assert forall k | 0 <= k < |w| :: s[k] == w[k];
    assert s[|w|] == ' ';
  }

  /** Different dates are displayed differently. */
  lemma {:induction false} DisplayInjective(a: PyDate, b: PyDate)
    requires Display(a) == Display(b)
    ensures a == b
  {
    DisplayRoundTrip(a);
    DisplayRoundTrip(b);
  }

  lemma {:induction false} DisplayExamples()
    ensures Display(Date(2026, 2, 24)) == "February 24, 2026"
    ensures Display(Date(2026, 2, 4)) == "February 04, 2026"
  {
    YearText();
    assert Pad2(24) == "24";
    assert Pad2(4) == "04";
  }

  lemma {:induction false} YearText()
    ensures NatToString(2026) == "2026"
  {
    assert NatToString(2) == "2";
    assert NatToString(20) == "20";
    assert NatToString(202) == "202";
  }

  // ---------------------------------------------------------------------
  // The frontmatter `date` field
  // ---------------------------------------------------------------------

  /** What YAML loading yields for the `date` key: a string (a quoted date), a
      `datetime` (a timestamp with a time), a `date` (an unquoted
      `YYYY-MM-DD`), nothing, or any other value. */
  datatype DateField =
    | DateText(text: string)
    | DateTimeValue(dt: PyDateTime)
    | DateValue(d: PyDate)
    | NoDate
    | OtherValue

  /** The date handling as written: a string is parsed, a `datetime` kept, and
      everything else, including a YAML `date`, becomes the clock reading `now`. */
  function NormaliseDateAsWritten(field: DateField, now: PyDateTime): (r: Result<PyDateTime, DateError>)
    ensures r.Err? ==> field.DateText? && ParseIsoDate(field.text).Err?
    ensures field.DateText? && ParseIsoDate(field.text).Ok? ==> r == Ok(Midnight(ParseIsoDate(field.text).value))
    ensures field.DateTimeValue? ==> r == Ok(field.dt)
    ensures !field.DateText? && !field.DateTimeValue? ==> r == Ok(now)
  {
    match field
    case DateText(t) =>
      (match ParseIsoDate(t)
       case Ok(d) => Ok(Midnight(d))
       case Err(e) => Err(e))
    case DateTimeValue(dt) => Ok(dt)
    case _ => Ok(now)
  }

  /** An unquoted date in the frontmatter is replaced by the clock reading, so
      the post shows the day the generator ran. */
  lemma {:induction false} UnquotedDateIgnoredAsWritten(d: PyDate, now: PyDateTime)
    requires now.date != d
    ensures NormaliseDateAsWritten(DateValue(d), now).Ok?
    ensures Display(NormaliseDateAsWritten(DateValue(d), now).value.date) != Display(d)
  {
    if Display(now.date) == Display(d) {
      DisplayInjective(now.date, d);
    }
  }

  /** The date handling with the unquoted-date case corrected: a YAML `date`
      stands for midnight of that date, like the same date written as a
      string. */
  function NormaliseDate(field: DateField, now: PyDateTime): (r: Result<PyDateTime, DateError>)
    ensures r.Err? ==> field.DateText? && ParseIsoDate(field.text).Err?
    ensures field.DateValue? ==> r == Ok(Midnight(field.d))
    ensures field.DateTimeValue? ==> r == Ok(field.dt)
    ensures field.NoDate? || field.OtherValue? ==> r == Ok(now)
  {
    match field
    case DateValue(d) => Ok(Midnight(d))
    case _ => NormaliseDateAsWritten(field, now)
  }

  /** With the correction, a quoted and an unquoted date give the same instant,
      whatever the clock says. */
  lemma {:induction false} QuotedAndUnquotedAgree(d: PyDate, now: PyDateTime)
    ensures NormaliseDate(DateText(IsoText(d)), now) == NormaliseDate(DateValue(d), now) == Ok(Midnight(d))
  {
    IsoRoundTrip(d);
  }
}
