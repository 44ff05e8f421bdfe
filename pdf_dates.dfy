/**
 * Calendar datetimes and the two PDF date forms the retention sweeps parse.
 *
 * A datetime is naive (no time zone), as `datetime.datetime.strptime` returns
 * it for a format without %z and as `dt.replace(tzinfo=None)` leaves it. Time
 * is integer seconds since 0001-01-01 00:00:00, so `(now - dt).days` is the
 * floor of the difference divided by 86400.
 */
module PdfDates {
  import opened Wrappers
  import opened PyStr

  datatype DateTime = DateTime(year: int, month: int, day: int, hour: int, minute: int, second: int)

  predicate IsLeap(y: int) {
    y % 4 == 0 && (y % 100 != 0 || y % 400 == 0)
  }

  function DaysInMonth(y: int, m: int): (r: int)
    requires 1 <= m <= 12
    ensures 28 <= r <= 31
  {
    if m == 2 then (if IsLeap(y) then 29 else 28)
    else if m == 4 || m == 6 || m == 9 || m == 11 then 30
    else 31
  }

  /** What `datetime` accepts: years 1..9999 and real calendar days. */
  predicate Valid(dt: DateTime) {
    && 1 <= dt.year <= 9999
    && 1 <= dt.month <= 12
    && 1 <= dt.day <= DaysInMonth(dt.year, dt.month)
    && 0 <= dt.hour < 24 && 0 <= dt.minute < 60 && 0 <= dt.second < 60
  }

  /** Days from 0001-01-01 to January 1st of year y (proleptic Gregorian). */
  function DaysBeforeYear(y: int): int
    requires y >= 1
  {
    var p := y - 1;
    365 * p + p / 4 - p / 100 + p / 400
  }

  /** Days from January 1st to the first of month m. */
  function DaysBeforeMonth(y: int, m: int): (r: int)
    requires 1 <= m <= 12
    ensures 0 <= r <= 31 * (m - 1)
  {
    if m == 1 then 0 else DaysBeforeMonth(y, m - 1) + DaysInMonth(y, m - 1)
  }

  /** Days from 0001-01-01 to the date of dt. */
  function DayNumber(dt: DateTime): int
    requires Valid(dt)
  {
    DaysBeforeYear(dt.year) + DaysBeforeMonth(dt.year, dt.month) + dt.day - 1
  }

  function SecondOfDay(dt: DateTime): (r: int)
    requires Valid(dt)
    ensures 0 <= r < 86400
  {
    dt.hour * 3600 + dt.minute * 60 + dt.second
  }

  function ToSeconds(dt: DateTime): int
    requires Valid(dt)
  {
    DayNumber(dt) * 86400 + SecondOfDay(dt)
  }

  /** The seconds count gives back the day and the time of day. */
  lemma ToSecondsDecomposes(dt: DateTime)
    requires Valid(dt)
    ensures ToSeconds(dt) / 86400 == DayNumber(dt)
    ensures ToSeconds(dt) % 86400 == dt.hour * 3600 + dt.minute * 60 + dt.second
    ensures ToSeconds(dt) % 86400 / 3600 == dt.hour
    ensures ToSeconds(dt) % 3600 / 60 == dt.minute
    ensures ToSeconds(dt) % 60 == dt.second
  {
    var d := DayNumber(dt);
    var t := SecondOfDay(dt);
    assert ToSeconds(dt) == d * 86400 + t;
    DivModUnique(ToSeconds(dt), 86400, d, t);
    DivModUnique(t, 3600, dt.hour, dt.minute * 60 + dt.second);
    DivModUnique(ToSeconds(dt), 3600, d * 24 + dt.hour, dt.minute * 60 + dt.second);
    DivModUnique(dt.minute * 60 + dt.second, 60, dt.minute, dt.second);
    DivModUnique(ToSeconds(dt), 60, d * 1440 + dt.hour * 60 + dt.minute, dt.second);
  }

  lemma DivModUnique(x: int, m: int, q: int, r: int)
    requires m > 0 && 0 <= r < m && x == q * m + r
    ensures x / m == q && x % m == r
  {
    var q', r' := x / m, x % m;
    assert x == q' * m + r';
    if q' > q {
      assert q' * m >= (q + 1) * m by { MulMonotone(q + 1, q', m); }
    } else if q' < q {
      assert q * m >= (q' + 1) * m by { MulMonotone(q' + 1, q, m); }
    }
  }

  lemma MulMonotone(a: int, b: int, m: int)
    requires a <= b && m > 0
    ensures a * m <= b * m
  {
    assert b * m - a * m == (b - a) * m;
  }

  /** `(now - dt).days`: whole days elapsed, rounded down. */
  function AgeDays(now: int, dt: DateTime): int
    requires Valid(dt)
  {
    (now - ToSeconds(dt)) / 86400
  }

  /** An age of more than maxAge whole days means at least maxAge + 1 full days have passed. */
  lemma AgeExceeds(now: int, dt: DateTime, maxAge: int)
    requires Valid(dt)
    ensures AgeDays(now, dt) > maxAge <==> now - ToSeconds(dt) >= (maxAge + 1) * 86400
  {
    var x := now - ToSeconds(dt);
    DivModUnique(x, 86400, x / 86400, x % 86400);
  }

  // ---------------------------------------------------------------------------
  // "%Y%m%d%H%M%S" on fourteen characters

  /** The w-digit, zero-padded decimal form of n < 10^w. */
  function Pad(n: nat, w: nat): (r: string)
    ensures |r| == w && AllDigits(r)
  {
    if w == 0 then [] else Pad(n / 10, w - 1) + [DigitChar(n % 10)]
  }

  lemma {:induction false} PadValue(n: nat, w: nat)
    requires n < Pow10(w)
    ensures DigitsValue(Pad(n, w)) == n
  {
    if w > 0 {
      var p := Pad(n, w);
      assert p[..|p| - 1] == Pad(n / 10, w - 1);
      PadValue(n / 10, w - 1);
    }
  }

  lemma {:induction false} PadOfDigits(s: string)
    requires AllDigits(s)
    ensures DigitsValue(s) < Pow10(|s|)
    ensures Pad(DigitsValue(s), |s|) == s
  {
    if |s| > 0 {
      var init := s[..|s| - 1];
      var d := s[|s| - 1] as int - '0' as int;
      PadOfDigits(init);
      var v := DigitsValue(s);
      assert v == DigitsValue(init) * 10 + d;
      DivModUnique(v, 10, DigitsValue(init), d);
      assert s == init + [s[|s| - 1]];
    }
  }

  /** The datetime named by fourteen digits, when it is a real date and time. */
  function ParseCompact(s: string): Option<DateTime> {
    if |s| == 14 && AllDigits(s) then
      var dt := DateTime(DigitsValue(s[0..4]), DigitsValue(s[4..6]), DigitsValue(s[6..8]),
                         DigitsValue(s[8..10]), DigitsValue(s[10..12]), DigitsValue(s[12..14]));
      if Valid(dt) then Some(dt) else None
    else None
  }

  function FormatCompact(dt: DateTime): (r: string)
    requires Valid(dt)
    ensures |r| == 14
  {
    Pad(dt.year, 4) + Pad(dt.month, 2) + Pad(dt.day, 2) + Pad(dt.hour, 2) + Pad(dt.minute, 2) + Pad(dt.second, 2)
  }

  /** Every valid datetime is read back from its fourteen-digit form. */
  lemma CompactRoundTrip(dt: DateTime)
    requires Valid(dt)
    ensures ParseCompact(FormatCompact(dt)) == Some(dt)
  {
    var s := FormatCompact(dt);
    assert s[0..4] == Pad(dt.year, 4);
    assert s[4..6] == Pad(dt.month, 2);
    assert s[6..8] == Pad(dt.day, 2);
    assert s[8..10] == Pad(dt.hour, 2);
    assert s[10..12] == Pad(dt.minute, 2);
    assert s[12..14] == Pad(dt.second, 2);
    PadValue(dt.year, 4);
    PadValue(dt.month, 2);
    PadValue(dt.day, 2);
    PadValue(dt.hour, 2);
    PadValue(dt.minute, 2);
    PadValue(dt.second, 2);
  }

  /** A string that parses is the canonical form of what it parses to: the parse is injective. */
  lemma CompactCanonical(s: string)
    requires ParseCompact(s).Some?
    ensures FormatCompact(ParseCompact(s).value) == s
  {
    DigitsSlice(s, 0, 4);
    DigitsSlice(s, 4, 6);
    DigitsSlice(s, 6, 8);
    DigitsSlice(s, 8, 10);
    DigitsSlice(s, 10, 12);
    DigitsSlice(s, 12, 14);
    PadJoin(s[0..4], s[4..6], s[6..8], s[8..10], s[10..12], s[12..14]);
    SplitSix(s);
  }

  /** A digit string re-padded from its value, to its own width. */
  function Repad(a: string): string
    requires AllDigits(a)
  {
    Pad(DigitsValue(a), |a|)
  }

  /** Digit strings are the padded forms of their values, whatever they are joined to. */
  lemma PadJoin(a: string, b: string, c: string, d: string, e: string, f: string)
    requires AllDigits(a) && AllDigits(b) && AllDigits(c) && AllDigits(d) && AllDigits(e) && AllDigits(f)
    ensures Repad(a) + Repad(b) + Repad(c) + Repad(d) + Repad(e) + Repad(f) == a + b + c + d + e + f
  {
    PadOfDigits(a);
    PadOfDigits(b);
    PadOfDigits(c);
    PadOfDigits(d);
    PadOfDigits(e);
    PadOfDigits(f);
  }

  lemma DigitsSlice(s: string, i: nat, j: nat)
    requires i <= j <= |s| && AllDigits(s)
    ensures AllDigits(s[i..j])
  {
    forall k | 0 <= k < j - i ensures IsDigit(s[i..j][k]) {
      assert s[i..j][k] == s[i + k];
    }
  }

  lemma SplitSix(s: string)
    requires |s| == 14
    ensures s[0..4] + s[4..6] + s[6..8] + s[8..10] + s[10..12] + s[12..14] == s
  {
    assert s[0..4] + s[4..6] == s[..6];
    assert s[..6] + s[6..8] == s[..8];
    assert s[..8] + s[8..10] == s[..10];
    assert s[..10] + s[10..12] == s[..12];
    assert s[..12] + s[12..14] == s;
  }

  // ---------------------------------------------------------------------------
  // "%a %d %b %Y %I:%M:%S %p %z", for example "Fri 12 Oct 2018 05:53:59 PM +05:30"

  const Weekdays: seq<string> := ["mon", "tue", "wed", "thu", "fri", "sat", "sun"]
  const Months: seq<string> := ["jan", "feb", "mar", "apr", "may", "jun", "jul", "aug", "sep", "oct", "nov", "dec"]

  /** The 1-based month of a lower-case abbreviation, or 0. */
  function MonthNumber(abbr: string): (r: nat)
    ensures r <= 12
    ensures r > 0 <==> abbr in Months
    ensures r > 0 ==> Months[r - 1] == abbr
  {
    if abbr == "jan" then 1 else if abbr == "feb" then 2 else if abbr == "mar" then 3
    else if abbr == "apr" then 4 else if abbr == "may" then 5 else if abbr == "jun" then 6
    else if abbr == "jul" then 7 else if abbr == "aug" then 8 else if abbr == "sep" then 9
    else if abbr == "oct" then 10 else if abbr == "nov" then 11 else if abbr == "dec" then 12
    else 0
  }

  /** %I with %p: the 24-hour clock hour of a 12-hour clock hour. */
  function To24(h12: int, pm: bool): (r: int)
    requires 1 <= h12 <= 12
    ensures 0 <= r < 24
    ensures pm <==> r >= 12
  {
    if pm then (if h12 == 12 then 12 else h12 + 12) else (if h12 == 12 then 0 else h12)
  }

  /** The 12-hour clock reading of a 24-hour clock hour. */
  function To12(h: int): (r: (int, bool))
    requires 0 <= h < 24
  {
    (if h % 12 == 0 then 12 else h % 12, h >= 12)
  }

  /** The two clocks correspond one to one. */
  lemma ClockRoundTrip(h12: int, pm: bool, h: int)
    requires 1 <= h12 <= 12 && 0 <= h < 24
    ensures To12(To24(h12, pm)) == (h12, pm)
    ensures To24(To12(h).0, To12(h).1) == h
  {
  }

  /** %z: "Z", or a sign, two hour digits, an optional ':' and two minute digits, under 24 hours. */
  predicate ValidZone(z: string) {
    || z == "Z"
    || (|z| == 5 && (z[0] == '+' || z[0] == '-') && AllDigits(z[1..3]) && AllDigits(z[3..5]) && z[3] <= '5'
        && DigitsValue(z[1..3]) * 60 + DigitsValue(z[3..5]) < 1440)
    || (|z| == 6 && (z[0] == '+' || z[0] == '-') && AllDigits(z[1..3]) && z[3] == ':' && AllDigits(z[4..6]) && z[4] <= '5'
        && DigitsValue(z[1..3]) * 60 + DigitsValue(z[4..6]) < 1440)
  }

  /** The fixed-width fields of the locale form, before the zone. */
  predicate LocaleLayout(s: string) {
    && |s| >= 29
    && s[3] == ' ' && s[6] == ' ' && s[10] == ' ' && s[15] == ' '
    && s[18] == ':' && s[21] == ':' && s[24] == ' ' && s[27] == ' '
    && AllDigits(s[4..6]) && AllDigits(s[11..15]) && AllDigits(s[16..18])
    && AllDigits(s[19..21]) && AllDigits(s[22..24])
  }

  /**
   * The locale form with the zone discarded (`dt.replace(tzinfo=None)`): the
   * clock time as written. Names and AM/PM are read case-insensitively; the
   * weekday name must be one, but is not checked against the date.
   */
  function ParseLocale(s: string): Option<DateTime> {
    if !LocaleLayout(s) then None
    else
      var month := MonthNumber(Lower(s[7..10]));
      var h12 := DigitsValue(s[16..18]);
      var ampm := Lower(s[25..27]);
      if Lower(s[0..3]) !in Weekdays || month == 0 || !(1 <= h12 <= 12) || !(ampm == "am" || ampm == "pm")
         || !ValidZone(s[28..])
      then None
      else
        var dt := DateTime(DigitsValue(s[11..15]), month, DigitsValue(s[4..6]), To24(h12, ampm == "pm"),
                           DigitsValue(s[19..21]), DigitsValue(s[22..24]));
        if Valid(dt) then Some(dt) else None
  }

  /** A string in the locale layout whose fields name a real datetime reads as that datetime. */
  lemma ParseLocaleOf(s: string, day: int, month: int, year: int, h12: int, pm: bool, minute: int, second: int)
    requires LocaleLayout(s) && Lower(s[0..3]) in Weekdays && ValidZone(s[28..])
    requires 1 <= month <= 12 && MonthNumber(Lower(s[7..10])) == month
    requires 1 <= h12 <= 12 && DigitsValue(s[16..18]) == h12
    requires Lower(s[25..27]) == if pm then "pm" else "am"
    requires DigitsValue(s[4..6]) == day && DigitsValue(s[11..15]) == year
    requires DigitsValue(s[19..21]) == minute && DigitsValue(s[22..24]) == second
    requires Valid(DateTime(year, month, day, To24(h12, pm), minute, second))
    ensures ParseLocale(s) == Some(DateTime(year, month, day, To24(h12, pm), minute, second))
  {
  }

  const LocaleSample: string := "Fri 12 Oct 2018 05:53:59 PM +05:30"

  /** "Fri 12 Oct 2018 05:53:59 PM +05:30" reads as 2018-10-12 17:53:59, its offset dropped. */
  lemma LocaleExample()
    ensures ParseLocale(LocaleSample) == Some(DateTime(2018, 10, 12, 17, 53, 59))
  {
    var s := LocaleSample;
    LocaleSampleLayout();
    LocaleSampleNames();
    LocaleSampleNumbers();
    ParseLocaleOf(s, 12, 10, 2018, 5, true, 53, 59);
  }

  lemma LocaleSampleHead()
    ensures var s := LocaleSample;
            |s| == 34 && s[0] == 'F' && s[1] == 'r' && s[2] == 'i' && s[3] == ' ' && s[4] == '1' && s[5] == '2' && s[6] == ' ' && s[7] == 'O' && s[8] == 'c' && s[9] == 't' && s[10] == ' ' && s[11] == '2' && s[12] == '0' && s[13] == '1' && s[14] == '8' && s[15] == ' ' && s[16] == '0'
  {
    LocaleSampleFirst();
    LocaleSampleSecond();
    LocaleSampleThird();
  }

  lemma LocaleSampleFirst()
    ensures var s := LocaleSample; s[0] == 'F' && s[1] == 'r' && s[2] == 'i' && s[3] == ' ' && s[4] == '1' && s[5] == '2'
  {
  }

  lemma LocaleSampleSecond()
    ensures var s := LocaleSample; s[6] == ' ' && s[7] == 'O' && s[8] == 'c' && s[9] == 't' && s[10] == ' ' && s[11] == '2'
  {
  }

  lemma LocaleSampleThird()
    ensures var s := LocaleSample; s[12] == '0' && s[13] == '1' && s[14] == '8' && s[15] == ' ' && s[16] == '0'
  {
  }

  lemma LocaleSampleTail()
    ensures var s := LocaleSample;
            |s| == 34 && s[17] == '5' && s[18] == ':' && s[19] == '5' && s[20] == '3' && s[21] == ':' && s[22] == '5' && s[23] == '9' && s[24] == ' ' && s[25] == 'P' && s[26] == 'M' && s[27] == ' ' && s[28] == '+' && s[29] == '0' && s[30] == '5' && s[31] == ':' && s[32] == '3' && s[33] == '0'
  {
  }

  /** The characters i..j-1 of s are digits. */
  lemma DigitsAt(s: string, i: nat, j: nat)
    requires i <= j <= |s| && forall k :: i <= k < j ==> IsDigit(s[k])
    ensures AllDigits(s[i..j])
  {
    forall k | 0 <= k < j - i ensures IsDigit(s[i..j][k]) {
      assert s[i..j][k] == s[i + k];
    }
  }

  lemma LocaleSampleLayout()
    ensures LocaleLayout(LocaleSample) && ValidZone(LocaleSample[28..])
  {
    var s := LocaleSample;
    LocaleSampleHead();
    LocaleSampleTail();
    DigitsAt(s, 4, 6);
    DigitsAt(s, 11, 15);
    DigitsAt(s, 16, 18);
    DigitsAt(s, 19, 21);
    DigitsAt(s, 22, 24);
    LocaleSampleZone();
  }

  lemma LocaleSampleZone()
    ensures ValidZone(LocaleSample[28..])
  {
    LocaleSampleTail();
    var z := LocaleSample[28..];
    assert |z| == 6 && z[0] == '+' && z[1] == '0' && z[2] == '5' && z[3] == ':' && z[4] == '3' && z[5] == '0';
    DigitsAt(z, 1, 3);
    DigitsAt(z, 4, 6);
    TwoDigits(z[1..3]);
    TwoDigits(z[4..6]);
  }

  lemma LocaleSampleNumbers()
    requires LocaleLayout(LocaleSample)
    ensures var s := LocaleSample;
            && DigitsValue(s[4..6]) == 12 && DigitsValue(s[11..15]) == 2018 && DigitsValue(s[16..18]) == 5
            && DigitsValue(s[19..21]) == 53 && DigitsValue(s[22..24]) == 59
  {
    var s := LocaleSample;
    LocaleSampleHead();
    LocaleSampleTail();
    TwoDigits(s[4..6]);
    FourDigits(s[11..15]);
    TwoDigits(s[16..18]);
    TwoDigits(s[19..21]);
    TwoDigits(s[22..24]);
  }

  lemma LocaleSampleNames()
    ensures Lower(LocaleSample[0..3]) in Weekdays
    ensures MonthNumber(Lower(LocaleSample[7..10])) == 10
    ensures Lower(LocaleSample[25..27]) == "pm"
  {
    var s := LocaleSample;
    LocaleSampleHead();
    LocaleSampleTail();
    assert Lower(s[0..3]) == "fri" by {
      var l := Lower(s[0..3]);
      assert l[0] == 'f' && l[1] == 'r' && l[2] == 'i';
    }
    assert Weekdays[4] == "fri";
    assert Lower(s[7..10]) == "oct" by {
      var l := Lower(s[7..10]);
      assert l[0] == 'o' && l[1] == 'c' && l[2] == 't';
    }
    assert Lower(s[25..27]) == "pm" by {
      var l := Lower(s[25..27]);
      assert l[0] == 'p' && l[1] == 'm';
    }
  }

  lemma TwoDigits(s: string)
    requires |s| == 2 && AllDigits(s)
    ensures DigitsValue(s) == (s[0] as int - '0' as int) * 10 + (s[1] as int - '0' as int)
  {
    assert DigitsValue(s[..1]) == s[0] as int - '0' as int by {
      assert s[..1][..0] == [];
    }
  }

  lemma FourDigits(s: string)
    requires |s| == 4 && AllDigits(s)
    ensures DigitsValue(s) == (s[0] as int - '0' as int) * 1000 + (s[1] as int - '0' as int) * 100
                              + (s[2] as int - '0' as int) * 10 + (s[3] as int - '0' as int)
  {
    assert DigitsValue(s[..1]) == s[0] as int - '0' as int by {
      assert s[..1][..0] == [];
    }
    assert DigitsValue(s[..2]) == DigitsValue(s[..1]) * 10 + (s[1] as int - '0' as int) by {
      assert s[..2][..1] == s[..1];
    }
    assert DigitsValue(s[..3]) == DigitsValue(s[..2]) * 10 + (s[2] as int - '0' as int) by {
      assert s[..3][..2] == s[..2];
    }
    assert s[..4] == s;
  }
}
