/**
 Instants in UTC with four-digit years, the two texts they are stored and compared as, and the byte order of
 those texts. Expiry columns hold the format of section 5.6 of RFC 3339 ("2026-03-01T09:30:00Z"); SQLite's
 CURRENT_TIMESTAMP is written with a space and without a zone ("2026-03-01 09:30:00").
 */
module Timestamps {

  datatype Stamp = Stamp(year: int, month: int, day: int, hour: int, minute: int, second: int) {
    predicate Valid() {
      && 0 <= year <= 9999 && 1 <= month <= 12 && 1 <= day <= DaysIn(year, month)
      && 0 <= hour < 24 && 0 <= minute < 60 && 0 <= second < 60
    }
  }

  type Instant = s: Stamp | s.Valid() witness Stamp(2026, 1, 1, 0, 0, 0)

  /** The clock stops a year before four digits end, so that every expiry computed from it has four digits too. */
  type Clock = s: Stamp | s.Valid() && s.year < 9999 witness Stamp(2026, 1, 1, 0, 0, 0)

  predicate Leap(year: int) {
    year % 4 == 0 && (year % 100 != 0 || year % 400 == 0)
  }

  function DaysIn(year: int, month: int): (days: int)
    ensures 28 <= days <= 31
  {
    if month == 2 then (if Leap(year) then 29 else 28)
    else if month in {4, 6, 9, 11} then 30
    else 31
  }

  // ---- Chronological order -----------------------------------------------------------------------------------

  predicate DateBefore(a: Stamp, b: Stamp) {
    || a.year < b.year
    || (a.year == b.year && a.month < b.month)
    || (a.year == b.year && a.month == b.month && a.day < b.day)
  }

  predicate SameDate(a: Stamp, b: Stamp) {
    a.year == b.year && a.month == b.month && a.day == b.day
  }

  function SecondOfDay(a: Stamp): int {
    a.hour * 3600 + a.minute * 60 + a.second
  }

  predicate Before(a: Stamp, b: Stamp) {
    DateBefore(a, b) || (SameDate(a, b) && SecondOfDay(a) < SecondOfDay(b))
  }

  predicate AtOrBefore(a: Stamp, b: Stamp) {
    !Before(b, a)
  }

  /** The day after; the last day of year 9999 is where four digits end. */
  function NextDay(s: Stamp): (r: Stamp)
    requires s.Valid() && s.year < 9999
    ensures r.Valid() && DateBefore(s, r)
  {
    if s.day < DaysIn(s.year, s.month) then s.(day := s.day + 1)
    else if s.month < 12 then s.(month := s.month + 1, day := 1)
    else s.(year := s.year + 1, month := 1, day := 1)
  }

  /** At most a day later. */
  function PlusMinutes(s: Stamp, minutes: int): (r: Stamp)
    requires s.Valid() && s.year < 9999 && 0 <= minutes <= 1440
    ensures r.Valid() && r.second == s.second
    ensures minutes > 0 ==> Before(s, r)
    ensures SecondOfDay(r) + (if SameDate(s, r) then 0 else 86400) == SecondOfDay(s) + minutes * 60
    ensures SameDate(s, r) || SameDate(NextDay(s), r)
  {
    var total := s.hour * 60 + s.minute + minutes;
    if total < 1440 then s.(hour := total / 60, minute := total % 60)
    else NextDay(s).(hour := (total - 1440) / 60, minute := (total - 1440) % 60)
  }

  // ---- Texts ---------------------------------------------------------------------------------------------------

  function Digit(n: int): (c: char)
    requires 0 <= n <= 9
    ensures c as int == '0' as int + n
  {
    ('0' as int + n) as char
  }

  function Two(n: int): (t: string)
    requires 0 <= n <= 99
    ensures |t| == 2
  {
    [Digit(n / 10), Digit(n % 10)]
  }

  function Four(n: int): (t: string)
    requires 0 <= n <= 9999
    ensures |t| == 4
  {
    Two(n / 100) + Two(n % 100)
  }

  function DateText(s: Stamp): (t: string)
    requires s.Valid()
    ensures |t| == 10
  {
    Four(s.year) + "-" + Two(s.month) + "-" + Two(s.day)
  }

  function ClockText(s: Stamp): (t: string)
    requires s.Valid()
    ensures |t| == 8
  {
    Two(s.hour) + ":" + Two(s.minute) + ":" + Two(s.second)
  }

  function Rfc3339(s: Stamp): (t: string)
    requires s.Valid()
    ensures |t| == 20
  {
    DateText(s) + "T" + ClockText(s) + "Z"
  }

  function Sqlite(s: Stamp): (t: string)
    requires s.Valid()
    ensures |t| == 19
  {
    DateText(s) + " " + ClockText(s)
  }

  // ---- Byte order ------------------------------------------------------------------------------------------------

  /** SQLite's default collation: byte by byte, a proper prefix first. */
  predicate TextLess(a: string, b: string) {
    if b == "" then false
    else if a == "" then true
    else if a[0] != b[0] then a[0] < b[0]
    else TextLess(a[1..], b[1..])
  }

  lemma {:induction false} TextTotal(a: string, b: string)
    ensures TextLess(a, b) || TextLess(b, a) || a == b
    ensures !(TextLess(a, b) && TextLess(b, a))
    ensures !TextLess(a, a)
  {
    if a != "" {
      TextTotal(a[1..], a[1..]);
      if b != "" {
        TextTotal(a[1..], b[1..]);
        assert a == [a[0]] + a[1..] && b == [b[0]] + b[1..];
      }
    }
  }

  lemma {:induction false} TextTransitive(a: string, b: string, c: string)
    requires TextLess(a, b) && TextLess(b, c)
    ensures TextLess(a, c)
  {
    if a != "" && a[0] == b[0] == c[0] {
      TextTransitive(a[1..], b[1..], c[1..]);
    }
  }

  lemma TextNotAfter(a: string, b: string, c: string)
    requires !TextLess(b, a) && TextLess(b, c)
    ensures TextLess(a, c)
  {
    TextTotal(a, b);
    if a != b {
      TextTransitive(a, b, c);
    }
  }

  /** Texts of equal-width parts compare part by part. */
  lemma {:induction false} TextByParts(a: string, a': string, b: string, b': string)
    requires |a| == |b|
    ensures TextLess(a + a', b + b') <==> (if a == b then TextLess(a', b') else TextLess(a, b))
  {
    if a == "" {
      assert a + a' == a' && b + b' == b';
    } else {
      TextByParts(a[1..], a', b[1..], b');
      assert (a + a')[1..] == a[1..] + a' && (b + b')[1..] == b[1..] + b';
      assert a == [a[0]] + a[1..] && b == [b[0]] + b[1..];
    }
  }

  lemma TwoOrder(m: int, n: int)
    requires 0 <= m <= 99 && 0 <= n <= 99
    ensures TextLess(Two(m), Two(n)) <==> m < n
    ensures Two(m) == Two(n) <==> m == n
  {
    assert Two(m)[1..] == [Digit(m % 10)] && Two(n)[1..] == [Digit(n % 10)];
    assert Two(m)[0] == Digit(m / 10) && Two(n)[0] == Digit(n / 10);
    assert Two(m)[1] == Digit(m % 10) && Two(n)[1] == Digit(n % 10);
    assert Digit(m / 10) < Digit(n / 10) <==> m / 10 < n / 10;
    assert TextLess([Digit(m % 10)], [Digit(n % 10)]) <==> m % 10 < n % 10;
  }

  lemma FourOrder(m: int, n: int)
    requires 0 <= m <= 9999 && 0 <= n <= 9999
    ensures TextLess(Four(m), Four(n)) <==> m < n
    ensures Four(m) == Four(n) <==> m == n
  {
    TextByParts(Two(m / 100), Two(m % 100), Two(n / 100), Two(n % 100));
    TwoOrder(m / 100, n / 100);
    TwoOrder(m % 100, n % 100);
    assert Four(m)[..2] == Two(m / 100) && Four(n)[..2] == Two(n / 100);
    assert Four(m)[2..] == Two(m % 100) && Four(n)[2..] == Two(n % 100);
  }

  /** A field and a separator in front of the rest of a text. */
  lemma FieldByParts(x: string, rest: string, y: string, rest': string, sep: string)
    requires |x| == |y|
    ensures TextLess(x + sep + rest, y + sep + rest') <==> (if x == y then TextLess(rest, rest') else TextLess(x, y))
    ensures x + sep + rest == y + sep + rest' <==> x == y && rest == rest'
  {
    TextByParts(x, sep + rest, y, sep + rest');
    TextByParts(sep, rest, sep, rest');
    assert x + sep + rest == x + (sep + rest) && y + sep + rest' == y + (sep + rest');
    assert (x + sep + rest)[..|x|] == x && (y + sep + rest')[..|x|] == y;
    assert (x + sep + rest)[|x| + |sep|..] == rest && (y + sep + rest')[|x| + |sep|..] == rest';
  }

  lemma DateOrder(a: Stamp, b: Stamp)
    requires a.Valid() && b.Valid()
    ensures TextLess(DateText(a), DateText(b)) <==> DateBefore(a, b)
    ensures DateText(a) == DateText(b) <==> SameDate(a, b)
  {
    FourOrder(a.year, b.year);
    TwoOrder(a.month, b.month);
    TwoOrder(a.day, b.day);
    var md, md' := Two(a.month) + "-" + Two(a.day), Two(b.month) + "-" + Two(b.day);
    FieldByParts(Two(a.month), Two(a.day), Two(b.month), Two(b.day), "-");
    FieldByParts(Four(a.year), md, Four(b.year), md', "-");
    assert DateText(a) == Four(a.year) + "-" + md && DateText(b) == Four(b.year) + "-" + md';
  }

  lemma ClockOrder(a: Stamp, b: Stamp)
    requires a.Valid() && b.Valid()
    ensures TextLess(ClockText(a), ClockText(b)) <==> SecondOfDay(a) < SecondOfDay(b)
    ensures ClockText(a) == ClockText(b) <==> SecondOfDay(a) == SecondOfDay(b)
  {
    TwoOrder(a.hour, b.hour);
    TwoOrder(a.minute, b.minute);
    TwoOrder(a.second, b.second);
    var ms, ms' := Two(a.minute) + ":" + Two(a.second), Two(b.minute) + ":" + Two(b.second);
    FieldByParts(Two(a.minute), Two(a.second), Two(b.minute), Two(b.second), ":");
    FieldByParts(Two(a.hour), ms, Two(b.hour), ms', ":");
    assert ClockText(a) == Two(a.hour) + ":" + ms && ClockText(b) == Two(b.hour) + ":" + ms';
  }

  /** Texts of one format are ordered like the instants they stand for. */
  lemma SameFormatOrder(a: Stamp, b: Stamp)
    requires a.Valid() && b.Valid()
    ensures TextLess(Rfc3339(a), Rfc3339(b)) <==> Before(a, b)
    ensures TextLess(Sqlite(a), Sqlite(b)) <==> Before(a, b)
  {
    DateOrder(a, b);
    ClockOrder(a, b);
    FieldByParts(DateText(a), ClockText(a), DateText(b), ClockText(b), " ");
    FieldByParts(DateText(a), ClockText(a) + "Z", DateText(b), ClockText(b) + "Z", "T");
    TextByParts(ClockText(a), "Z", ClockText(b), "Z");
    TextTotal("Z", "Z");
    assert Rfc3339(a) == DateText(a) + "T" + (ClockText(a) + "Z");
    assert Rfc3339(b) == DateText(b) + "T" + (ClockText(b) + "Z");
  }

  // ---- The expiry filter --------------------------------------------------------------------------------------------

  /** The filter `expires_at > CURRENT_TIMESTAMP` on whatever text the column holds. */
  predicate Unexpired(expiresAt: string, now: Stamp)
    requires now.Valid()
  {
    TextLess(Sqlite(now), expiresAt)
  }

  /** The filter `expires_at <= CURRENT_TIMESTAMP`. */
  predicate Overdue(expiresAt: string, now: Stamp)
    requires now.Valid()
  {
    TextLess(expiresAt, Sqlite(now)) || expiresAt == Sqlite(now)
  }

  /** The two filters are exact complements, for every stored text. */
  lemma OverdueIsComplement(expiresAt: string, now: Stamp)
    requires now.Valid()
    ensures Overdue(expiresAt, now) <==> !Unexpired(expiresAt, now)
  {
    TextTotal(expiresAt, Sqlite(now));
  }

  /** Once a text has stopped passing the filter it never passes again. */
  lemma UnexpiredAntitone(expiresAt: string, now: Stamp, later: Stamp)
    requires now.Valid() && later.Valid() && AtOrBefore(now, later) && Unexpired(expiresAt, later)
    ensures Unexpired(expiresAt, now)
  {
    SameFormatOrder(later, now);
    TextNotAfter(Sqlite(now), Sqlite(later), expiresAt);
  }

  /** 'T' sorts after the space, so within a day the stored text always wins: the filter compares dates. */
  lemma FilterComparesDates(expiry: Stamp, now: Stamp)
    requires expiry.Valid() && now.Valid()
    ensures Unexpired(Rfc3339(expiry), now) <==> !DateBefore(expiry, now)
  {
    DateOrder(now, expiry);
    var rest, rest' := " " + ClockText(now), "T" + ClockText(expiry) + "Z";
    TextByParts(DateText(now), rest, DateText(expiry), rest');
    assert Sqlite(now) == DateText(now) + rest && Rfc3339(expiry) == DateText(expiry) + rest';
    assert rest[0] == ' ' && rest'[0] == 'T';
  }

  /** The filter means "expires later than now" except on the expiry date, from the instant of expiry on. */
  lemma FilterIsExact(expiry: Stamp, now: Stamp)
    requires expiry.Valid() && now.Valid()
    ensures (Unexpired(Rfc3339(expiry), now) <==> Before(now, expiry))
            <==> !(SameDate(expiry, now) && SecondOfDay(expiry) <= SecondOfDay(now))
  {
    FilterComparesDates(expiry, now);
  }

  /** A session of a quarter of an hour, asked about half a day later. */
  lemma FilterOutlivesExpiry()
    ensures var now, asked := Stamp(2026, 3, 1, 9, 0, 0), Stamp(2026, 3, 1, 21, 0, 0);
            var expiry := PlusMinutes(now, 15);
            Before(expiry, asked) && Unexpired(Rfc3339(expiry), asked)
  {
    var now, asked := Stamp(2026, 3, 1, 9, 0, 0), Stamp(2026, 3, 1, 21, 0, 0);
    FilterComparesDates(PlusMinutes(now, 15), asked);
  }

  // ---- The calendar ------------------------------------------------------------------------------------------------

  /** The days of a common year before each month. */
  function DaysBefore(month: int): int {
    if month == 1 then 0 else if month == 2 then 31 else if month == 3 then 59 else if month == 4 then 90
    else if month == 5 then 120 else if month == 6 then 151 else if month == 7 then 181 else if month == 8 then 212
    else if month == 9 then 243 else if month == 10 then 273 else if month == 11 then 304 else 334
  }

  /** The leap years up to and including a year. */
  function LeapYears(year: int): int {
    year / 4 - year / 100 + year / 400
  }

  /** The day's number in the Gregorian calendar, counted from the beginning of year 0. */
  function DayNumber(s: Stamp): int {
    365 * s.year + LeapYears(s.year - 1) + DaysBefore(s.month) + s.day
      + (if s.month > 2 && LeapYears(s.year) > LeapYears(s.year - 1) then 1 else 0)
  }

  lemma LeapYearsStep(year: int)
    ensures LeapYears(year) == LeapYears(year - 1) + (if Leap(year) then 1 else 0)
  {
    Quotient(year, 4);
    Quotient(year, 100);
    Quotient(year, 400);
  }

  lemma Quotient(year: int, n: int)
    requires n in {4, 100, 400}
    ensures year / n == (year - 1) / n + (if year % n == 0 then 1 else 0)
  {
  }

  /** The next day is the next number: no day of the calendar is missing, and none is there twice. */
  lemma NextDayCounts(s: Stamp)
    requires s.Valid() && s.year < 9999
    ensures DayNumber(NextDay(s)) == DayNumber(s) + 1
  {
    LeapYearsStep(s.year);
    LeapYearsStep(s.year + 1);
  }

  function Minutes(s: Stamp): int {
    DayNumber(s) * 1440 + s.hour * 60 + s.minute
  }

  /** Main result: minutes that are added are minutes that pass, across days, months and leap years. */
  lemma MinutesPass(s: Stamp, minutes: int)
    requires s.Valid() && s.year < 9999 && 0 <= minutes <= 1440
    ensures Minutes(PlusMinutes(s, minutes)) == Minutes(s) + minutes && PlusMinutes(s, minutes).second == s.second
  {
    hide DayNumber, NextDay;
    var total := s.hour * 60 + s.minute + minutes;
    NextDayCounts(s);
    if total < 1440 {
      SameNumber(s, s.(hour := total / 60, minute := total % 60));
    } else {
      SameNumber(NextDay(s), NextDay(s).(hour := (total - 1440) / 60, minute := (total - 1440) % 60));
    }
  }

  lemma SameNumber(a: Stamp, b: Stamp)
    requires SameDate(a, b)
    ensures DayNumber(a) == DayNumber(b)
  {
  }

  /** The two formats, on one instant. */
  lemma TextsOfAnInstant()
    ensures var s := Stamp(2026, 3, 1, 9, 30, 5);
            Rfc3339(s) == "2026-03-01T09:30:05Z" && Sqlite(s) == "2026-03-01 09:30:05"
  {
    var s := Stamp(2026, 3, 1, 9, 30, 5);
    assert DateText(s) == "2026-03-01" && ClockText(s) == "09:30:05";
  }
}
