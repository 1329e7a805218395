/** Race dates in rank.py: the date key at the front of a file name
    (rank.py:109), the `datetime(int(y), int(m), int(d))` built from it
    (rank.py:267-268, 275-276), and the contest time in seconds since the
    first race (rank.py:272-279). Dates follow the proleptic Gregorian
    calendar of Python's `datetime`, years 1 to 9999. */
module Calendar {
  import opened Wrappers
  import opened Seqs
  import opened Text

  datatype Date = Date(year: int, month: int, day: int)

  const MinYear: int := 1
  const MaxYear: int := 9999
  const SecondsPerDay: int := 86400

  predicate IsLeap(y: int) {
    y % 4 == 0 && (y % 100 != 0 || y % 400 == 0)
  }

  function DaysInYear(y: int): int {
    if IsLeap(y) then 366 else 365
  }

  function DaysInMonth(y: int, m: int): int
    requires 1 <= m <= 12
  {
    if m == 2 then (if IsLeap(y) then 29 else 28)
    else if m == 4 || m == 6 || m == 9 || m == 11 then 30
    else 31
  }

  /** Days in the months of year `y` before month `m`. */
  function DaysBeforeMonth(y: int, m: int): int
    requires 1 <= m <= 12
  {
    [-1, 0, 31, 59, 90, 120, 151, 181, 212, 243, 273, 304, 334][m]
      + if m > 2 && IsLeap(y) then 1 else 0
  }

  /** Days in the years before year `y`, counted from year 1. */
  function DaysBeforeYear(y: int): int
    requires y >= 1
  {
    var z := y - 1;
    z * 365 + z / 4 - z / 100 + z / 400
  }

  /** What `datetime(year, month, day)` accepts; anything else is a ValueError. */
  predicate ValidDate(d: Date) {
    && MinYear <= d.year <= MaxYear
    && 1 <= d.month <= 12
    && 1 <= d.day <= DaysInMonth(d.year, d.month)
  }

  /** The day number of a date, 1 for 0001-01-01 (`date.toordinal()`). */
  function Ordinal(d: Date): int
    requires ValidDate(d)
  {
    DaysBeforeYear(d.year) + DaysBeforeMonth(d.year, d.month) + d.day
  }

  /** `file.split('_')[0]` */
  function DateKey(file: string): (key: string)
    ensures key <= file && '_' !in key
    ensures |key| < |file| ==> file[|key|] == '_'
  {
    SplitHead(file, '_')
  }

  /** `day = key.split('-')` then `datetime(int(day[0]), int(day[1]),
      int(day[2]))`: `None` where that raises (fewer than three pieces, a
      piece `int` refuses, or no such date). Pieces after the third are
      ignored. */
  function ParseDate(key: string): (r: Option<Date>)
    ensures r.Some? ==> ValidDate(r.value)
  {
    var day := Split(key, '-');
    if |day| < 3 then None
    else
      match (ParseInt(day[0]), ParseInt(day[1]), ParseInt(day[2]))
      case (Some(y), Some(m), Some(d)) =>
        if ValidDate(Date(y, m, d)) then Some(Date(y, m, d)) else None
      case _ => None
  }

  /** `date.strftime('%Y-%m-%d')`: the form the date keys take. */
  function FormatDate(d: Date): (s: string)
    requires ValidDate(d)
    ensures |s| == 10
  {
    PadDigits(d.year, 4) + (['-'] + (PadDigits(d.month, 2) + (['-'] + PadDigits(d.day, 2))))
  }

  /** The contest time of a race whose key reads as `date`: whole seconds
      from the first race's day `origin` to its own (`round((tmp_date -
      first_date).total_seconds())`), or, when its key is not a date, one day
      after the previous race (`contest_time += 86400`). */
  function NextTime(date: Option<Date>, origin: int, prev: int): int
    requires date.Some? ==> ValidDate(date.value)
  {
    match date
    case Some(d) => SecondsPerDay * (Ordinal(d) - origin)
    case None => prev + SecondsPerDay
  }

  /** The keys, each read as a date where it is one. */
  function ParseDates(keys: seq<string>): (ds: seq<Option<Date>>)
    ensures |ds| == |keys|
    ensures forall i :: 0 <= i < |keys| ==> ds[i] == ParseDate(keys[i])
  {
    seq(|keys|, i requires 0 <= i < |keys| => ParseDate(keys[i]))
  }

  predicate AllValid(ds: seq<Option<Date>>) {
    forall i :: 0 <= i < |ds| && ds[i].Some? ==> ValidDate(ds[i].value)
  }

  /** The contest times of races whose first key is a date, `origin` being
      that date's day number. */
  function Times(ds: seq<Option<Date>>, origin: int): (ts: seq<int>)
    requires |ds| >= 1 && ds[0].Some? && AllValid(ds)
    ensures |ts| == |ds|
    ensures ts[0] == SecondsPerDay * (Ordinal(ds[0].value) - origin)
    ensures forall i :: 0 < i < |ds| ==> ts[i] == NextTime(ds[i], origin, ts[i - 1])
    decreases |ds|
  {
    var last := ds[|ds| - 1];
    if |ds| == 1 then [NextTime(last, origin, 0)]
    else
      var front := ds[..|ds| - 1];
      assert front[0] == ds[0];
      var prev := Times(front, origin);
      var ts := prev + [NextTime(last, origin, prev[|prev| - 1])];
      assert forall i :: 0 <= i < |front| ==> ts[i] == prev[i] && ds[i] == front[i];
      ts
  }

  /** The contest times of the races in file order, or `None` when the loop
      of `Ranker.rank` fails: the first key is not a date, so that
      `contest_time` is read before it is ever set. The fallback first date
      (2022-12-22) therefore never reaches a contest time. */
  function ContestTimes(keys: seq<string>): (r: Option<seq<int>>)
    ensures r.None? <==> keys != [] && ParseDate(keys[0]).None?
    ensures r.Some? ==> |r.value| == |keys|
    ensures r.Some? && keys != [] ==> r.value[0] == 0
  {
    if keys == [] then Some([])
    else
      var ds := ParseDates(keys);
      match ds[0]
      case None => None
      case Some(first) => Some(Times(ds, Ordinal(first)))
  }

  /** The first race's key is a date, and each later race's time follows
      from the one before it. */
  lemma ContestTimesStep(keys: seq<string>, i: nat)
    requires ContestTimes(keys).Some? && 0 < i < |keys|
    ensures ParseDate(keys[0]).Some?
    ensures ContestTimes(keys).value[i]
         == NextTime(ParseDate(keys[i]), Ordinal(ParseDate(keys[0]).value), ContestTimes(keys).value[i - 1])
  {
  }

  // ----- the calendar -----

  lemma DaysBeforeYearStep(y: int)
    requires y >= 1
    ensures DaysBeforeYear(y + 1) == DaysBeforeYear(y) + DaysInYear(y)
  {
    assert y / 4 - (y - 1) / 4 == if y % 4 == 0 then 1 else 0;
    assert y / 100 - (y - 1) / 100 == if y % 100 == 0 then 1 else 0;
    assert y / 400 - (y - 1) / 400 == if y % 400 == 0 then 1 else 0;
  }

  lemma {:induction false} DaysBeforeYearMonotone(y: int, y': int)
    requires 1 <= y <= y'
    ensures DaysBeforeYear(y) + (y' - y) * 365 <= DaysBeforeYear(y')
    decreases y' - y
  {
    if y < y' {
      DaysBeforeYearMonotone(y, y' - 1);
      DaysBeforeYearStep(y' - 1);
    }
  }

  lemma DaysBeforeMonthStep(y: int, m: int)
    requires 1 <= m < 12
    ensures DaysBeforeMonth(y, m + 1) == DaysBeforeMonth(y, m) + DaysInMonth(y, m)
  {
  }

  /** The last month ends where the year ends. */
  lemma DaysBeforeDecember(y: int)
    ensures DaysBeforeMonth(y, 12) + DaysInMonth(y, 12) == DaysInYear(y)
  {
  }

  lemma {:induction false} DaysBeforeMonthMonotone(y: int, m: int, m': int)
    requires 1 <= m <= m' <= 12
    ensures DaysBeforeMonth(y, m) + (m' - m) * 28 <= DaysBeforeMonth(y, m')
    decreases m' - m
  {
    if m < m' {
      DaysBeforeMonthMonotone(y, m, m' - 1);
      DaysBeforeMonthStep(y, m' - 1);
    }
  }

  /** Every day of a year lies before the next year begins. */
  lemma OrdinalWithinYear(d: Date)
    requires ValidDate(d)
    ensures DaysBeforeYear(d.year) < Ordinal(d) <= DaysBeforeYear(d.year + 1)
  {
    DaysBeforeYearStep(d.year);
    DaysBeforeMonthMonotone(d.year, d.month, 12);
    DaysBeforeMonthMonotone(d.year, 1, d.month);
    DaysBeforeDecember(d.year);
    if d.month < 12 {
      DaysBeforeMonthStep(d.year, d.month);
      DaysBeforeMonthMonotone(d.year, d.month + 1, 12);
    }
  }

  /** Year, then month, then day. */
  predicate DateBefore(a: Date, b: Date) {
    a.year < b.year
    || (a.year == b.year && a.month < b.month)
    || (a.year == b.year && a.month == b.month && a.day < b.day)
  }

  /** Later dates have larger day numbers. */
  lemma OrdinalMonotone(a: Date, b: Date)
    requires ValidDate(a) && ValidDate(b)
    requires DateBefore(a, b)
    ensures Ordinal(a) < Ordinal(b)
  {
    if a.year < b.year {
      OrdinalWithinYear(a);
      OrdinalWithinYear(b);
      DaysBeforeYearMonotone(a.year + 1, b.year);
    } else if a.month < b.month {
      DaysBeforeMonthStep(a.year, a.month);
      DaysBeforeMonthMonotone(a.year, a.month + 1, b.month);
    }
  }

  // ----- keys written as dates -----

  /** A date written `YYYY-MM-DD` is read back as that date. */
  lemma ParseFormatDate(d: Date)
    requires ValidDate(d)
    ensures ParseDate(FormatDate(d)) == Some(d)
  {
    FormatDateFields(d);
    ParseDigits(PadDigits(d.year, 4));
    ParseDigits(PadDigits(d.month, 2));
    ParseDigits(PadDigits(d.day, 2));
  }

  /** The three fields of a formatted date, split at '-'. */
  lemma FormatDateFields(d: Date)
    requires ValidDate(d)
    ensures Split(FormatDate(d), '-') == [PadDigits(d.year, 4), PadDigits(d.month, 2), PadDigits(d.day, 2)]
  {
    var y, m, dd := PadDigits(d.year, 4), PadDigits(d.month, 2), PadDigits(d.day, 2);
    assert '-' !in y && '-' !in m && '-' !in dd;
    SplitThree(y, m, dd, '-');
  }

  /** Keys written `YYYY-MM-DD` sort like their dates. */
  lemma FormatDateOrder(a: Date, b: Date)
    requires ValidDate(a) && ValidDate(b)
    requires LexLt(FormatDate(a), FormatDate(b))
    ensures DateBefore(a, b)
  {
    var ya, ma, da := PadDigits(a.year, 4), PadDigits(a.month, 2), PadDigits(a.day, 2);
    var yb, mb, db := PadDigits(b.year, 4), PadDigits(b.month, 2), PadDigits(b.day, 2);
    LexLtConcat(ya, ['-'] + (ma + (['-'] + da)), yb, ['-'] + (mb + (['-'] + db)));
    if LexLt(ya, yb) {
      LexLtDigits(ya, yb);
    } else {
      LexLtConcat(['-'], ma + (['-'] + da), ['-'], mb + (['-'] + db));
      LexLtIrreflexive(['-']);
      LexLtConcat(ma, ['-'] + da, mb, ['-'] + db);
      if LexLt(ma, mb) {
        LexLtDigits(ma, mb);
      } else {
        LexLtConcat(['-'], da, ['-'], db);
        LexLtDigits(da, db);
      }
    }
  }

  /** When the files are named `YYYY-MM-DD_...` with real dates and listed
      in sorted order, as `get_data` lists them, the contest times are
      the days since the first race, in seconds, and never decrease. */
  lemma SortedFilesChronological(files: seq<string>, dates: seq<Date>)
    requires |files| == |dates| >= 1
    requires StrictlySorted(files)
    requires forall i :: 0 <= i < |files| ==> ValidDate(dates[i]) && DateKey(files[i]) == FormatDate(dates[i])
    ensures ContestTimes(KeysOf(files)).Some?
    ensures forall i :: 0 <= i < |files| ==>
      ContestTimes(KeysOf(files)).value[i] == SecondsPerDay * (Ordinal(dates[i]) - Ordinal(dates[0]))
    ensures forall i, j :: 0 <= i <= j < |files| ==>
      ContestTimes(KeysOf(files)).value[i] <= ContestTimes(KeysOf(files)).value[j]
  {
    FileTimes(files, dates);
    DatesInFileOrder(files, dates);
  }

  /** Files whose keys are dates have those dates' contest times. */
  lemma FileTimes(files: seq<string>, dates: seq<Date>)
    requires |files| == |dates| >= 1
    requires forall i :: 0 <= i < |files| ==> ValidDate(dates[i]) && DateKey(files[i]) == FormatDate(dates[i])
    ensures ContestTimes(KeysOf(files)).Some?
    ensures forall i :: 0 <= i < |files| ==>
      ContestTimes(KeysOf(files)).value[i] == SecondsPerDay * (Ordinal(dates[i]) - Ordinal(dates[0]))
  {
    var keys := KeysOf(files);
    var ds := ParseDates(keys);
    KeysReadAsDates(files, dates);
    var origin := Ordinal(dates[0]);
    assert ContestTimes(keys) == Some(Times(ds, origin));
    TimesOfDates(ds, origin, dates);
  }

  lemma KeysReadAsDates(files: seq<string>, dates: seq<Date>)
    requires |files| == |dates|
    requires forall i :: 0 <= i < |files| ==> ValidDate(dates[i]) && DateKey(files[i]) == FormatDate(dates[i])
    ensures forall i :: 0 <= i < |files| ==> ParseDates(KeysOf(files))[i] == Some(dates[i])
  {
    forall i | 0 <= i < |files| ensures ParseDates(KeysOf(files))[i] == Some(dates[i]) {
      ParseFormatDate(dates[i]);
    }
  }

  lemma DatesInFileOrder(files: seq<string>, dates: seq<Date>)
    requires |files| == |dates|
    requires StrictlySorted(files)
    requires forall i :: 0 <= i < |files| ==> ValidDate(dates[i]) && DateKey(files[i]) == FormatDate(dates[i])
    ensures forall i, j :: 0 <= i <= j < |files| ==> Ordinal(dates[i]) <= Ordinal(dates[j])
  {
    forall i, j | 0 <= i < j < |files| ensures Ordinal(dates[i]) <= Ordinal(dates[j]) {
      KeyOrder(files[i], files[j], dates[i], dates[j]);
    }
  }

  /** When every key is a date, each contest time is that date's distance
      from the origin, in seconds. */
  lemma TimesOfDates(ds: seq<Option<Date>>, origin: int, dates: seq<Date>)
    requires |ds| == |dates| >= 1
    requires forall i :: 0 <= i < |ds| ==> ValidDate(dates[i]) && ds[i] == Some(dates[i])
    ensures forall i :: 0 <= i < |ds| ==> Times(ds, origin)[i] == SecondsPerDay * (Ordinal(dates[i]) - origin)
  {
    var ts := Times(ds, origin);
    forall i | 0 <= i < |ds| ensures ts[i] == SecondsPerDay * (Ordinal(dates[i]) - origin) {
      if i > 0 {
        assert ts[i] == NextTime(ds[i], origin, ts[i - 1]);
      }
    }
  }

  /** The date keys of the files, in order. */
  function KeysOf(files: seq<string>): (keys: seq<string>)
    ensures |keys| == |files|
    ensures forall i :: 0 <= i < |files| ==> keys[i] == DateKey(files[i])
  {
    seq(|files|, i requires 0 <= i < |files| => DateKey(files[i]))
  }

  /** Of two files named `YYYY-MM-DD_...`, the one that sorts first is not
      later. */
  lemma KeyOrder(f: string, g: string, a: Date, b: Date)
    requires LexLt(f, g)
    requires ValidDate(a) && ValidDate(b)
    requires DateKey(f) == FormatDate(a) && DateKey(g) == FormatDate(b)
    ensures Ordinal(a) <= Ordinal(b)
  {
    var ka, kb := DateKey(f), DateKey(g);
    assert f == ka + f[|ka|..] && g == kb + g[|kb|..];
    LexLtConcat(ka, f[|ka|..], kb, g[|kb|..]);
    if LexLt(ka, kb) {
      FormatDateOrder(a, b);
      OrdinalMonotone(a, b);
    } else {
      ParseFormatDate(a);
      ParseFormatDate(b);
    }
  }
}
