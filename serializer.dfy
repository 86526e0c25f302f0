/** `model_to_dict` (app/utils/serializer.py): a row becomes a dictionary of its columns,
    in column order, without the password, without any excluded column, restricted to the
    included columns when an inclusion list is given, with datetime, date and time values
    written in ISO format. */
module Serializer {
  import opened Common
  import opened Responses

  // ---------------------------------------------------------------------------
  // ISO 8601 formatting of timestamps (`datetime.isoformat()` without microseconds)
  // ---------------------------------------------------------------------------

  datatype Civil = Civil(year: int, month: int, day: int)

  /** The Gregorian leap-year rule. */
  predicate IsLeap(year: int) {
    year % 4 == 0 && (year % 100 != 0 || year % 400 == 0)
  }

  /** The number of days in a month. */
  function MonthLength(month: int, leap: bool): int {
    if month == 2 then (if leap then 29 else 28)
    else if month in {4, 6, 9, 11} then 30
    else 31
  }

  /** The days of a year that come before the first of a month. */
  function DaysBeforeMonth(month: int, leap: bool): int
    requires 1 <= month <= 12
  {
    var f := if leap then 1 else 0;
    if month == 1 then 0 else if month == 2 then 31 else if month == 3 then 59 + f
    else if month == 4 then 90 + f else if month == 5 then 120 + f else if month == 6 then 151 + f
    else if month == 7 then 181 + f else if month == 8 then 212 + f else if month == 9 then 243 + f
    else if month == 10 then 273 + f else if month == 11 then 304 + f else 334 + f
  }

  /** Consecutive months follow each other: a month starts where the previous one ends. */
  lemma MonthsAdjoin(month: int, leap: bool)
    requires 2 <= month <= 12
    ensures DaysBeforeMonth(month, leap) == DaysBeforeMonth(month - 1, leap) + MonthLength(month - 1, leap)
    ensures DaysBeforeMonth(12, leap) + MonthLength(12, leap) == if leap then 366 else 365
  {
  }

  /** The days from 0001-01-01 to the first of January of `year`. */
  function DaysBeforeYear(year: int): int
    requires year >= 1
  {
    var p := year - 1;
    365 * p + p / 4 - p / 100 + p / 400
  }

  /** A date that exists in the proleptic Gregorian calendar, in years 1 to 9999. */
  predicate ValidCivil(c: Civil) {
    1 <= c.year <= 9999 && 1 <= c.month <= 12 && 1 <= c.day <= MonthLength(c.month, IsLeap(c.year))
  }

  /** The number of days from 0001-01-01 to a date: the reference the conversion below
      is proved against. */
  function OrdinalFromCivil(c: Civil): int
    requires ValidCivil(c)
  {
    DaysBeforeYear(c.year) + DaysBeforeMonth(c.month, IsLeap(c.year)) + c.day - 1
  }

  /** Month and day of the `doy`-th day (from 0) of a year. */
  function MonthDay(doy: int, leap: bool): (r: (int, int))
    requires 0 <= doy < (if leap then 366 else 365)
    ensures 1 <= r.0 <= 12 && 1 <= r.1 <= MonthLength(r.0, leap)
    ensures DaysBeforeMonth(r.0, leap) + r.1 - 1 == doy
  {
    var f := if leap then 1 else 0;
    if doy < 31 then (1, doy + 1)
    else if doy < 59 + f then (2, doy - 31 + 1)
    else if doy < 90 + f then (3, doy - 59 - f + 1)
    else if doy < 120 + f then (4, doy - 90 - f + 1)
    else if doy < 151 + f then (5, doy - 120 - f + 1)
    else if doy < 181 + f then (6, doy - 151 - f + 1)
    else if doy < 212 + f then (7, doy - 181 - f + 1)
    else if doy < 243 + f then (8, doy - 212 - f + 1)
    else if doy < 273 + f then (9, doy - 243 - f + 1)
    else if doy < 304 + f then (10, doy - 273 - f + 1)
    else if doy < 334 + f then (11, doy - 304 - f + 1)
    else (12, doy - 334 - f + 1)
  }

  /** Euclidean division is determined by its quotient and remainder. */
  lemma DivUnique(a: int, d: int, q: int, r: int)
    requires d > 0 && 0 <= r < d && a == q * d + r
    ensures a / d == q && a % d == r
  {
    var q', r' := a / d, a % d;
    assert (q - q') * d == r' - r;
    if q > q' {
      MulGrows(q - q', d);
      assert false;
    } else if q < q' {
      MulGrows(q' - q, d);
      assert false;
    }
  }

  lemma {:induction false} MulGrows(x: int, d: int)
    requires x >= 1 && d > 0
    ensures x * d >= d
  {
    if x > 1 {
      MulGrows(x - 1, d);
      assert x * d == (x - 1) * d + d;
    }
  }

  /** The year `400 * n400 + 100 * n100 + 4 * n4 + n1 + 1` starts `146097 * n400 +
      36524 * n100 + 1461 * n4 + 365 * n1` days after 0001-01-01. */
  lemma {:induction false} DaysBeforeCycles(n400: int, n100: int, n4: int, n1: int)
    requires 0 <= n400 && 0 <= n100 <= 3 && 0 <= n4 <= 24 && 0 <= n1 <= 3
    ensures DaysBeforeYear(400 * n400 + 100 * n100 + 4 * n4 + n1 + 1)
         == 146097 * n400 + 36524 * n100 + 1461 * n4 + 365 * n1
  {
    var p := 400 * n400 + 100 * n100 + 4 * n4 + n1;
    DivUnique(p, 4, 100 * n400 + 25 * n100 + n4, n1);
    DivUnique(p, 100, 4 * n400 + n100, 4 * n4 + n1);
    DivUnique(p, 400, n400, 100 * n100 + 4 * n4 + n1);
  }

  /** That year is a leap year exactly when it closes a 4-year cycle that is not a century,
      or closes a 400-year cycle. */
  lemma {:induction false} LeapOfCycles(n400: int, n100: int, n4: int, n1: int)
    requires 0 <= n400 && 0 <= n100 <= 3 && 0 <= n4 <= 24 && 0 <= n1 <= 3
    ensures IsLeap(400 * n400 + 100 * n100 + 4 * n4 + n1 + 1) <==> n1 == 3 && (n4 != 24 || n100 == 3)
  {
    var year := 400 * n400 + 100 * n100 + 4 * n4 + n1 + 1;
    var q4 := 100 * n400 + 25 * n100 + n4;
    if n1 == 3 { DivUnique(year, 4, q4 + 1, 0); } else { DivUnique(year, 4, q4, n1 + 1); }
    var r100 := 4 * n4 + n1 + 1;
    if r100 == 100 { DivUnique(year, 100, 4 * n400 + n100 + 1, 0); } else { DivUnique(year, 100, 4 * n400 + n100, r100); }
    var r400 := 100 * n100 + r100;
    if r400 == 400 { DivUnique(year, 400, n400 + 1, 0); } else { DivUnique(year, 400, n400, r400); }
  }

  /** The proleptic Gregorian date `n` days after 0001-01-01, split into 400-, 100-, 4- and
      1-year cycles as Python's datetime module does; it is the date whose ordinal is `n`. */
  function CivilFromOrdinal(n: int): (c: Civil)
    requires 0 <= n <= 3652058
    ensures ValidCivil(c) && OrdinalFromCivil(c) == n
  {
    var n400, r400 := n / 146097, n % 146097;
    var n100, r100 := if r400 / 36524 == 4 then 3 else r400 / 36524,
                      if r400 / 36524 == 4 then 36524 else r400 % 36524;
    var n4, r4 := r100 / 1461, r100 % 1461;
    var n1, doy := if r4 / 365 == 4 then 3 else r4 / 365,
                   if r4 / 365 == 4 then 365 else r4 % 365;
    var leap := n1 == 3 && (n4 != 24 || n100 == 3);
    assert doy == 365 ==> leap;
    var md := MonthDay(doy, leap);
    var c := Civil(400 * n400 + 100 * n100 + 4 * n4 + n1 + 1, md.0, md.1);
    DaysBeforeCycles(n400, n100, n4, n1);
    LeapOfCycles(n400, n100, n4, n1);
    assert n == 146097 * n400 + 36524 * n100 + 1461 * n4 + 365 * n1 + doy;
    c
  }

  function Two(n: nat): (s: string)
    requires n < 100
    ensures |s| == 2 && IsDigit(s[0]) && IsDigit(s[1])
    ensures DigitValue(s[0]) * 10 + DigitValue(s[1]) == n
  {
    [DigitChar(n / 10), DigitChar(n % 10)]
  }

  function Four(n: nat): (s: string)
    requires n < 10000
    ensures |s| == 4 && forall i :: 0 <= i < 4 ==> IsDigit(s[i])
    ensures DigitValue(s[0]) * 1000 + DigitValue(s[1]) * 100 + DigitValue(s[2]) * 10 + DigitValue(s[3]) == n
  {
    var hi, lo := Two(n / 100), Two(n % 100);
    var s := hi + lo;
    assert s[0] == hi[0] && s[1] == hi[1] && s[2] == lo[0] && s[3] == lo[1];
    s
  }

  /** The date a `YYYY-MM-DD` string names. */
  function DateValue(s: string): Civil
    requires |s| == 10 && forall i :: 0 <= i < 10 && i != 4 && i != 7 ==> IsDigit(s[i])
  {
    Civil(DigitValue(s[0]) * 1000 + DigitValue(s[1]) * 100 + DigitValue(s[2]) * 10 + DigitValue(s[3]),
          DigitValue(s[5]) * 10 + DigitValue(s[6]),
          DigitValue(s[8]) * 10 + DigitValue(s[9]))
  }

  /** The value of an `HH:MM:SS` string in seconds. */
  function ClockValue(s: string): int
    requires |s| == 8 && forall i :: 0 <= i < 8 && i != 2 && i != 5 ==> IsDigit(s[i])
  {
    (DigitValue(s[0]) * 10 + DigitValue(s[1])) * 3600
      + (DigitValue(s[3]) * 10 + DigitValue(s[4])) * 60
      + DigitValue(s[6]) * 10 + DigitValue(s[7])
  }

  /** `HH:MM:SS` for a second of the day; it reads back as that second. */
  function Clock(secs: int): (s: string)
    requires 0 <= secs < 86400
    ensures |s| == 8 && s[2] == ':' && s[5] == ':'
    ensures forall i :: 0 <= i < 8 && i != 2 && i != 5 ==> IsDigit(s[i])
    ensures ClockValue(s) == secs
  {
    var rest := secs % 3600;
    assert secs == secs / 3600 * 3600 + rest && rest == rest / 60 * 60 + rest % 60;
    var h, m, x := Two(secs / 3600), Two(rest / 60), Two(rest % 60);
    var s := h + ":" + m + ":" + x;
    assert s[0] == h[0] && s[1] == h[1] && s[3] == m[0] && s[4] == m[1] && s[6] == x[0] && s[7] == x[1];
    s
  }

  function YearLength(year: int): int {
    if IsLeap(year) then 366 else 365
  }

  /** A year lasts 366 days when it is a leap year and 365 otherwise. */
  lemma {:induction false} YearsAdjoin(year: int)
    requires 1 <= year <= 9999
    ensures DaysBeforeYear(year + 1) == DaysBeforeYear(year) + YearLength(year)
  {
    var p := year - 1;
    if year % 4 == 0 { DivUnique(p, 4, year / 4 - 1, 3); } else { DivUnique(p, 4, year / 4, year % 4 - 1); }
    if year % 100 == 0 {
      DivUnique(p, 100, year / 100 - 1, 99);
      DivUnique(year, 4, 25 * (year / 100), 0);
    } else {
      DivUnique(p, 100, year / 100, year % 100 - 1);
    }
    if year % 400 == 0 {
      DivUnique(p, 400, year / 400 - 1, 399);
      DivUnique(year, 100, 4 * (year / 400), 0);
    } else {
      DivUnique(p, 400, year / 400, year % 400 - 1);
    }
  }

  /** Later years start later: no earlier year reaches past the start of a later one. */
  lemma {:induction false} YearsInOrder(y1: int, y2: int)
    requires 1 <= y1 < y2 <= 10000
    ensures DaysBeforeYear(y1) + YearLength(y1) <= DaysBeforeYear(y2)
    decreases y2 - y1
  {
    YearsAdjoin(y1);
    if y1 + 1 < y2 {
      YearsInOrder(y1 + 1, y2);
    }
  }

  /** Two real dates with the same day count are the same date, so a day count names
      exactly one date. */
  lemma {:induction false} OrdinalInjective(c1: Civil, c2: Civil)
    requires ValidCivil(c1) && ValidCivil(c2)
    requires OrdinalFromCivil(c1) == OrdinalFromCivil(c2)
    ensures c1 == c2
  {
    if c1.year < c2.year {
      YearsInOrder(c1.year, c2.year);
      assert false;
    } else if c2.year < c1.year {
      YearsInOrder(c2.year, c1.year);
      assert false;
    }
  }

  /** Converting a date to its day count and back gives the date. */
  lemma {:induction false} CivilRoundTrip(c: Civil)
    requires ValidCivil(c)
    ensures 0 <= OrdinalFromCivil(c) <= 3652058 && CivilFromOrdinal(OrdinalFromCivil(c)) == c
  {
    if c.year < 10000 - 1 {
      YearsInOrder(c.year, 10000 - 1);
    }
    YearsAdjoin(9999);
    OrdinalInjective(CivilFromOrdinal(OrdinalFromCivil(c)), c);
  }

  /** `YYYY-MM-DD` for a date; it reads back as that date. */
  function IsoDate(c: Civil): (s: string)
    requires ValidCivil(c)
    ensures |s| == 10 && s[4] == '-' && s[7] == '-'
    ensures forall i :: 0 <= i < 10 && i != 4 && i != 7 ==> IsDigit(s[i])
    ensures DateValue(s) == c
  {
    var y, m, d := Four(c.year), Two(c.month), Two(c.day);
    var s := y + "-" + m + "-" + d;
    assert s[0] == y[0] && s[1] == y[1] && s[2] == y[2] && s[3] == y[3];
    assert s[5] == m[0] && s[6] == m[1] && s[8] == d[0] && s[9] == d[1];
    s
  }

  /** `isoformat()` of a datetime with whole seconds: `YYYY-MM-DDTHH:MM:SS`; its clock part
      reads back as the instant's second of the day (its date part is `IsoFormatDate`). */
  function IsoFormat(seconds: int): (s: string)
    requires InDatetimeRange(seconds)
    ensures |s| == 19
    ensures s[4] == '-' && s[7] == '-' && s[10] == 'T' && s[13] == ':' && s[16] == ':'
    ensures forall i :: 0 <= i < 19 && i !in {4, 7, 10, 13, 16} ==> IsDigit(s[i])
    ensures ClockValue(s[11..]) == seconds % 86400
  {
    var date := IsoDate(CivilFromOrdinal((seconds - MinDatetime) / 86400));
    var clock := Clock(seconds % 86400);
    var s := date + "T" + clock;
    assert s[..10] == date && s[11..] == clock;
    s
  }

  /** The date part of `isoformat()` reads back as the one real date whose day count is
      the instant's day. */
  lemma IsoFormatDate(seconds: int)
    requires InDatetimeRange(seconds)
    ensures var date := DateValue(IsoFormat(seconds)[..10]);
            ValidCivil(date) && OrdinalFromCivil(date) == (seconds - MinDatetime) / 86400
  {
    var c := CivilFromOrdinal((seconds - MinDatetime) / 86400);
    assert IsoFormat(seconds)[..10] == IsoDate(c);
  }

  // ---------------------------------------------------------------------------
  // Columns and the serialiser
  // ---------------------------------------------------------------------------

  /** A column value. `datetime`, `date` and `time` values have `isoformat`: a datetime is
      held as seconds (see `IsoFormat`), a date as its day count from 0001-01-01 and a time
      of day as seconds since midnight. Any other value is plain JSON. */
  datatype ColumnValue = Plain(json: Json) | Timestamp(seconds: int) | Date(days: int) | Time(secs: int)

  datatype Column = Column(name: string, value: ColumnValue)

  /** The columns of a table have distinct names. */
  predicate DistinctNames(cols: seq<Column>) {
    forall i, j :: 0 <= i < j < |cols| ==> cols[i].name != cols[j].name
  }

  /** A value Python can hold: a datetime or date in years 1 to 9999, a time of day in whole seconds. */
  predicate Convertible(v: ColumnValue) {
    match v
    case Plain(_) => true
    case Timestamp(seconds) => InDatetimeRange(seconds)
    case Date(days) => 0 <= days <= 3652058
    case Time(secs) => 0 <= secs < 86400
  }

  /** Every date/time value is one Python can hold. */
  predicate Representable(cols: seq<Column>) {
    forall i :: 0 <= i < |cols| ==> Convertible(cols[i].value)
  }

  /** `hasattr(value, "isoformat")`: a datetime becomes its 19-character ISO string, a date
      its 10-character `YYYY-MM-DD` and a time its 8-character `HH:MM:SS`; other values
      stay. `ConvertNamesSameDay` and `ConvertNamesSameSecond` state what the strings read
      back as. */
  function Convert(v: ColumnValue): (j: Json)
    requires Convertible(v)
    ensures v.Plain? ==> j == v.json
    ensures v.Timestamp? ==> j.JStr? && |j.s| == 19
    ensures v.Date? ==> j.JStr? && |j.s| == 10 && j.s[4] == '-' && j.s[7] == '-'
    ensures v.Time? ==> j.JStr? && |j.s| == 8 && j.s[2] == ':' && j.s[5] == ':'
  {
    match v
    case Plain(json) => json
    case Timestamp(seconds) => JStr(IsoFormat(seconds))
    case Date(days) => JStr(IsoDate(CivilFromOrdinal(days)))
    case Time(secs) => JStr(Clock(secs))
  }

  /** A converted date is digits around its dashes and names the date's own day. */
  lemma ConvertNamesSameDay(days: int)
    requires 0 <= days <= 3652058
    ensures var s := Convert(Date(days)).s;
            && (forall i :: 0 <= i < 10 && i != 4 && i != 7 ==> IsDigit(s[i]))
            && ValidCivil(DateValue(s)) && OrdinalFromCivil(DateValue(s)) == days
  {
  }

  /** A converted time of day is digits around its colons and names the same second. */
  lemma ConvertNamesSameSecond(secs: int)
    requires 0 <= secs < 86400
    ensures var s := Convert(Time(secs)).s;
            && (forall i :: 0 <= i < 8 && i != 2 && i != 5 ==> IsDigit(s[i]))
            && ClockValue(s) == secs
  {
  }

  const DefaultExclude: seq<string> := ["_sa_instance_state", "password"]

  /** `default_exclude` after it is extended with a truthy `exclude_fields`. */
  function Exclusions(excludeFields: Option<seq<string>>): (r: seq<string>)
    ensures "password" in r && "_sa_instance_state" in r
    ensures excludeFields.Some? ==> forall k :: k in excludeFields.value ==> k in r
    ensures forall k :: k in r ==> k in DefaultExclude || (excludeFields.Some? && k in excludeFields.value)
  {
    if excludeFields.Some? && excludeFields.value != [] then DefaultExclude + excludeFields.value else DefaultExclude
  }

  /** Whether a column survives both filters; an empty or absent inclusion list does not filter. */
  predicate Kept(name: string, excludeFields: Option<seq<string>>, includeFields: Option<seq<string>>) {
    && name !in Exclusions(excludeFields)
    && (includeFields.Some? && includeFields.value != [] ==> name in includeFields.value)
  }

  /** The dictionary `model_to_dict` builds for a row with these columns. */
  function Serialize(cols: seq<Column>, excludeFields: Option<seq<string>>, includeFields: Option<seq<string>>): (r: Dict)
    requires Representable(cols)
    ensures |r| <= |cols|
  {
    if cols == [] then []
    else
      var init, last := cols[..|cols| - 1], cols[|cols| - 1];
      Serialize(init, excludeFields, includeFields)
        + (if Kept(last.name, excludeFields, includeFields) then [(last.name, Convert(last.value))] else [])
  }

  /** A key is in the output exactly when it names a column that survives both filters. */
  lemma {:induction false} SerializeKeys(cols: seq<Column>, excludeFields: Option<seq<string>>, includeFields: Option<seq<string>>, k: string)
    requires Representable(cols)
    ensures HasKey(Serialize(cols, excludeFields, includeFields), k)
        <==> Kept(k, excludeFields, includeFields) && exists j :: 0 <= j < |cols| && cols[j].name == k
  {
    if cols != [] {
      var init, last := cols[..|cols| - 1], cols[|cols| - 1];
      var rest := Serialize(init, excludeFields, includeFields);
      var tail: Dict := if Kept(last.name, excludeFields, includeFields) then [(last.name, Convert(last.value))] else [];
      SerializeKeys(init, excludeFields, includeFields, k);
      HasKeyAppend(rest, tail, k);
      assert HasKey(tail, k) <==> Kept(last.name, excludeFields, includeFields) && last.name == k by {
        if tail != [] {
          assert tail[0].0 == last.name;
        }
      }
      assert (exists j :: 0 <= j < |cols| && cols[j].name == k)
         <==> (exists j :: 0 <= j < |init| && init[j].name == k) || last.name == k by {
        assert forall j :: 0 <= j < |init| ==> init[j] == cols[j];
        if exists j :: 0 <= j < |cols| && cols[j].name == k {
          var j :| 0 <= j < |cols| && cols[j].name == k;
          if j < |init| {
            assert init[j].name == k;
          }
        }
        if last.name == k {
          assert cols[|cols| - 1].name == k;
        }
      }
    }
  }

  /** Keys of a concatenation. */
  lemma HasKeyAppend(a: Dict, b: Dict, k: string)
    ensures HasKey(a + b, k) <==> HasKey(a, k) || HasKey(b, k)
  {
    if HasKey(a + b, k) {
      var i :| 0 <= i < |a + b| && (a + b)[i].0 == k;
      if i >= |a| {
        assert b[i - |a|].0 == k;
      }
    }
    if HasKey(a, k) {
      var i :| 0 <= i < |a| && a[i].0 == k;
      assert (a + b)[i].0 == k;
    }
    if HasKey(b, k) {
      var i :| 0 <= i < |b| && b[i].0 == k;
      assert (a + b)[|a| + i].0 == k;
    }
  }

  /** The password and the ORM's instance state never leave the serialiser, whatever the
      inclusion list says. */
  lemma SerializeHidesPassword(cols: seq<Column>, excludeFields: Option<seq<string>>, includeFields: Option<seq<string>>)
    requires Representable(cols)
    ensures !HasKey(Serialize(cols, excludeFields, includeFields), "password")
    ensures !HasKey(Serialize(cols, excludeFields, includeFields), "_sa_instance_state")
  {
    SerializeKeys(cols, excludeFields, includeFields, "password");
    SerializeKeys(cols, excludeFields, includeFields, "_sa_instance_state");
  }

  /** No excluded column is in the output. */
  lemma SerializeHonoursExclude(cols: seq<Column>, excludeFields: seq<string>, includeFields: Option<seq<string>>, k: string)
    requires Representable(cols)
    requires k in excludeFields
    ensures !HasKey(Serialize(cols, Some(excludeFields), includeFields), k)
  {
    SerializeKeys(cols, Some(excludeFields), includeFields, k);
  }

  /** With a non-empty inclusion list, every output key is on it. */
  lemma SerializeHonoursInclude(cols: seq<Column>, excludeFields: Option<seq<string>>, includeFields: seq<string>, k: string)
    requires Representable(cols)
    requires includeFields != []
    requires HasKey(Serialize(cols, excludeFields, Some(includeFields)), k)
    ensures k in includeFields
  {
    SerializeKeys(cols, excludeFields, Some(includeFields), k);
  }

  /** The column filter of `model_to_dict`. */
  function KeepColumn(excludeFields: Option<seq<string>>, includeFields: Option<seq<string>>): Column -> bool {
    (c: Column) => Kept(c.name, excludeFields, includeFields)
  }

  /** The kept columns, in column order. */
  function KeptColumns(cols: seq<Column>, excludeFields: Option<seq<string>>, includeFields: Option<seq<string>>): (r: seq<Column>)
    ensures forall c :: c in r <==> c in cols && Kept(c.name, excludeFields, includeFields)
  {
    FilterMembers(cols, KeepColumn(excludeFields, includeFields));
    Filter(cols, KeepColumn(excludeFields, includeFields))
  }

  /** Dropping the last column keeps the others representable. */
  lemma RepresentableInit(cols: seq<Column>)
    requires Representable(cols) && cols != []
    ensures Representable(cols[..|cols| - 1])
  {
    assert forall i :: 0 <= i < |cols| - 1 ==> cols[..|cols| - 1][i] == cols[i];
  }

  /** The kept columns of a table grow by its last column exactly when that one is kept. */
  lemma KeptColumnsSnoc(cols: seq<Column>, excludeFields: Option<seq<string>>, includeFields: Option<seq<string>>)
    requires cols != []
    ensures KeptColumns(cols, excludeFields, includeFields)
         == KeptColumns(cols[..|cols| - 1], excludeFields, includeFields)
            + (if Kept(cols[|cols| - 1].name, excludeFields, includeFields) then [cols[|cols| - 1]] else [])
  {
    assert cols == cols[..|cols| - 1] + [cols[|cols| - 1]];
    FilterAppend(cols[..|cols| - 1], cols[|cols| - 1], KeepColumn(excludeFields, includeFields));
  }

  /** Every kept column appears once, in column order, under its own name, with its
      value converted. */
  lemma {:induction false} SerializeIsKeptColumns(cols: seq<Column>, excludeFields: Option<seq<string>>, includeFields: Option<seq<string>>)
    requires Representable(cols)
    ensures var kept := KeptColumns(cols, excludeFields, includeFields);
            var r := Serialize(cols, excludeFields, includeFields);
            && |r| == |kept|
            && forall i :: 0 <= i < |r| ==> r[i] == (kept[i].name, Convert(kept[i].value))
  {
    if cols != [] {
      var init, last := cols[..|cols| - 1], cols[|cols| - 1];
      RepresentableInit(cols);
      SerializeIsKeptColumns(init, excludeFields, includeFields);
      KeptColumnsSnoc(cols, excludeFields, includeFields);
      var kept0, r0 := KeptColumns(init, excludeFields, includeFields), Serialize(init, excludeFields, includeFields);
      var kept, r := KeptColumns(cols, excludeFields, includeFields), Serialize(cols, excludeFields, includeFields);
      if Kept(last.name, excludeFields, includeFields) {
        assert kept == kept0 + [last];
        assert r == r0 + [(last.name, Convert(last.value))];
        forall i | 0 <= i < |r| ensures r[i] == (kept[i].name, Convert(kept[i].value)) {
          if i < |r0| {
            assert r[i] == r0[i] && kept[i] == kept0[i];
          }
        }
      } else {
        assert kept == kept0 && r == r0;
      }
    }
  }

  /** With distinct column names, a kept column's key holds its converted value. */
  lemma {:induction false} SerializeValue(cols: seq<Column>, excludeFields: Option<seq<string>>, includeFields: Option<seq<string>>, j: nat)
    requires Representable(cols) && DistinctNames(cols)
    requires j < |cols| && Kept(cols[j].name, excludeFields, includeFields)
    ensures Get(Serialize(cols, excludeFields, includeFields), cols[j].name) == Some(Convert(cols[j].value))
  {
    var init, last := cols[..|cols| - 1], cols[|cols| - 1];
    var rest := Serialize(init, excludeFields, includeFields);
    var tail: Dict := if Kept(last.name, excludeFields, includeFields) then [(last.name, Convert(last.value))] else [];
    assert forall i :: 0 <= i < |init| ==> init[i] == cols[i];
    GetAppend(rest, tail, cols[j].name);
    if j < |init| {
      SerializeValue(init, excludeFields, includeFields, j);
    } else {
      SerializeKeys(init, excludeFields, includeFields, last.name);
    }
  }

  /** Looking a key up in a concatenation: the first part wins. */
  lemma {:induction false} GetAppend(a: Dict, b: Dict, k: string)
    ensures Get(a + b, k) == if HasKey(a, k) then Get(a, k) else Get(b, k)
  {
    if a == [] {
      assert a + b == b;
    } else {
      assert (a + b)[0] == a[0];
      GetAppend(a[1..], b, k);
      assert (a + b)[1..] == a[1..] + b;
      HasKeyCons(a[0], a[1..], k);
      assert [a[0]] + a[1..] == a;
    }
  }

  /** One step of the serialiser's loop: a kept column is put under a fresh key. */
  lemma SerializeStep(cols: seq<Column>, excludeFields: Option<seq<string>>, includeFields: Option<seq<string>>, i: nat)
    requires Representable(cols) && DistinctNames(cols) && i < |cols|
    ensures Representable(cols[..i]) && Representable(cols[..i + 1])
    ensures var d := Serialize(cols[..i], excludeFields, includeFields);
            Serialize(cols[..i + 1], excludeFields, includeFields)
            == if Kept(cols[i].name, excludeFields, includeFields) then Put(d, cols[i].name, Convert(cols[i].value)) else d
  {
    assert forall j :: 0 <= j < i + 1 ==> cols[..i + 1][j] == cols[j];
    assert cols[..i + 1][..i] == cols[..i];
    var key := cols[i].name;
    assert !HasKey(Serialize(cols[..i], excludeFields, includeFields), key) by {
      forall j | 0 <= j < i ensures cols[..i][j].name != key {
        assert cols[..i][j] == cols[j];
      }
      SerializeKeys(cols[..i], excludeFields, includeFields, key);
    }
    PutFresh(Serialize(cols[..i], excludeFields, includeFields), key, Convert(cols[i].value));
  }

  /** `model_to_dict`: None for a missing row; otherwise the row's columns are visited in
      order, skipping excluded and non-included ones, and each kept value is stored under
      its name. */
  method ModelToDict(instance: Option<seq<Column>>, excludeFields: Option<seq<string>>, includeFields: Option<seq<string>>)
    returns (data: Option<Dict>)
    requires instance.Some? ==> DistinctNames(instance.value) && Representable(instance.value)
    ensures data.None? <==> instance.None?
    ensures data.Some? ==> data.value == Serialize(instance.value, excludeFields, includeFields)
    ensures data.Some? ==> !HasKey(data.value, "password") && !HasKey(data.value, "_sa_instance_state")
  {
    if instance.None? {
      return None;
    }
    var cols := instance.value;
    var excluded := DefaultExclude;
    if excludeFields.Some? && excludeFields.value != [] {
      excluded := excluded + excludeFields.value;
    }
    var d: Dict := [];
    for i := 0 to |cols|
      invariant Representable(cols[..i])
      invariant d == Serialize(cols[..i], excludeFields, includeFields)
    {
      SerializeStep(cols, excludeFields, includeFields, i);
      var key := cols[i].name;
      if key in excluded {
        continue;
      }
      if includeFields.Some? && includeFields.value != [] && key !in includeFields.value {
        continue;
      }
      var value := Convert(cols[i].value);
      d := Put(d, key, value);
    }
    assert cols[..|cols|] == cols;
    SerializeHidesPassword(cols, excludeFields, includeFields);
    return Some(d);
  }
}
