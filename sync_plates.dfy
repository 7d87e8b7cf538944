/** The serialisation of the sync-plates route (`src/app/api/sync-plates/route.ts`):
    each posted store row becomes a database row whose expiry is a "YYYY-MM-01" date
    and whose detection time is the instant the row's Jakarta wall-clock stamp names.
    The database call and the HTTP responses are not modelled. */
module SyncPlates {
  import opened Wrappers
  import opened Chars
  import opened Plate
  import Calendar

  // ---------------------------------------------------------------------------
  // parseExpiry

  /** The shape `/^(\d{2})-(\d{2})$/` accepts. */
  predicate MonthYearShape(s: string) {
    |s| == 5 && IsDigit(s[0]) && IsDigit(s[1]) && s[2] == '-' && IsDigit(s[3]) && IsDigit(s[4])
  }

  /** The month group of a token of that shape. */
  function MonthGroup(s: string): (g: string)
    requires MonthYearShape(s)
    ensures |g| == 2 && AllDigits(g) && g == [s[0], s[1]]
  {
    s[..2]
  }

  /** The year group of a token of that shape. */
  function YearGroup(s: string): (g: string)
    requires MonthYearShape(s)
    ensures |g| == 2 && AllDigits(g) && g == [s[3], s[4]]
  {
    s[3..]
  }

  /** `s.padStart(width, fill)` with a one-character fill. */
  function PadStart(s: string, width: nat, fill: char): string
    decreases width - |s|
  {
    if |s| >= width then s else PadStart([fill] + s, width, fill)
  }

  /** `parseExpiry`: "MM-YY" with a month 01..12 becomes "20YY-MM-01"; anything else,
      including a missing or empty value, becomes "". */
  function ParseExpiry(mmDashYY: Option<string>): (r: string)
    ensures r != "" <==> mmDashYY.Some? && MonthYearShape(mmDashYY.value)
                         && 1 <= DigitsValue(MonthGroup(mmDashYY.value)) <= 12
    ensures r != "" ==> var s := mmDashYY.value;
      r == ['2', '0', s[3], s[4], '-', s[0], s[1], '-', '0', '1']
  {
    if mmDashYY.None? || mmDashYY.value == "" then ""
    else if !MonthYearShape(mmDashYY.value) then ""
    else
      var s := mmDashYY.value;
      var month := DigitsValue(MonthGroup(s));
      var year := 2000 + DigitsValue(YearGroup(s));
      if month < 1 || month > 12 then ""
      else
        CenturyYear(YearGroup(s));
        var r := PadStart(NatToString(year), 4, '0') + "-" + MonthGroup(s) + "-01";
        assert r == ['2', '0', s[3], s[4], '-', s[0], s[1], '-', '0', '1'];
        r
  }

  /** A year 2000 + YY is written "20" followed by the two digits YY, and needs no
      padding. */
  lemma CenturyYear(yy: string)
    requires |yy| == 2 && AllDigits(yy)
    ensures NatToString(2000 + DigitsValue(yy)) == ['2', '0', yy[0], yy[1]]
    ensures PadStart(NatToString(2000 + DigitsValue(yy)), 4, '0') == NatToString(2000 + DigitsValue(yy))
  {
    var n := 2000 + DigitsValue(yy);
    TwoDigits(yy);
    NatToString4Digits(n);
    var twenty := "20";
    TwentyValue(twenty);
    DigitsValueAppend2(twenty, yy);
    DigitsInjective(NatToString(n), twenty + yy);
    assert twenty + yy == ['2', '0', yy[0], yy[1]];
  }

  lemma TwentyValue(twenty: string)
    requires twenty == "20"
    ensures AllDigits(twenty) && DigitsValue(twenty) == 20
  {
    TwoDigits(twenty);
  }

  /** Reading month and year back out of the date gives the input again. */
  lemma ParseExpiryReadBack(s: string)
    requires ParseExpiry(Some(s)) != ""
    ensures |ParseExpiry(Some(s))| == 10
    ensures ParseExpiry(Some(s))[5..7] + "-" + ParseExpiry(Some(s))[2..4] == s
  {
    var r := ParseExpiry(Some(s));
    var back := r[5..7] + "-" + r[2..4];
    assert |back| == 5 && back[0] == s[0] && back[1] == s[1] && back[2] == s[2] && back[3] == s[3] && back[4] == s[4];
  }

  /** Every month 1..12 of every two-digit year is accepted, written "MM-YY", and
      lands in the year 2000 + YY. */
  lemma ParseExpiryAcceptsAll(month: nat, yy: nat)
    requires 1 <= month <= 12 && yy < 100
    ensures ParseExpiry(Some(Pad2(month) + "-" + Pad2(yy))) != ""
    ensures ParseExpiry(Some(Pad2(month) + "-" + Pad2(yy)))[5..7] == Pad2(month)
    ensures ParseExpiry(Some(Pad2(month) + "-" + Pad2(yy)))[2..4] == Pad2(yy)
  {
    var m2, y2 := Pad2(month), Pad2(yy);
    var s := m2 + "-" + y2;
    assert s[..2] == m2 && s[3..] == y2 && s[2] == '-';
    assert MonthYearShape(s);
  }

  /** Rejections: a month outside 1..12 is not clamped, and one-digit months and the
      '/' separator are not accepted. */
  lemma ParseExpiryRejects(zero: string, thirteen: string, short: string, slash: string)
    requires zero == "00-25" && thirteen == "13-25" && short == "5-25" && slash == "05/25"
    ensures ParseExpiry(None) == "" && ParseExpiry(Some("")) == ""
    ensures ParseExpiry(Some(zero)) == "" && ParseExpiry(Some(thirteen)) == ""
    ensures ParseExpiry(Some(short)) == "" && ParseExpiry(Some(slash)) == ""
  {
    assert MonthGroup(zero) == "00" && MonthGroup(thirteen) == "13";
    TwoDigits("00");
    TwoDigits("13");
  }

  /** A date the route stores names the same month as the day count the pages show:
      whatever `parseExpiry` accepts, `daysRemainingFromExpiry` accepts too, and counts
      to the last day of that month of year 2000 + YY. */
  lemma ParseExpiryAgrees(s: string, today: Calendar.Date)
    requires Calendar.Valid(today) && ParseExpiry(Some(s)) != ""
    ensures DaysRemainingFromExpiry(Some(s), today).Some?
    ensures ExpiryEnd(s) == Calendar.LastDayOfMonth(2000 + DigitsValue(YearGroup(s)), DigitsValue(MonthGroup(s)))
  {
    assert ExpiryShape(s);
    assert ExpiryGroups(s) == (MonthGroup(s), YearGroup(s));
  }

  // ---------------------------------------------------------------------------
  // parseDetectedAt

  /** `\s*\|\s*`: the leading whitespace is followed by a bar, and only whitespace
      comes after it. */
  predicate BarShape(s: string) {
    var k := LeadingSpaces(s);
    k < |s| && s[k] == '|' && AllJsSpace(s[k + 1..])
  }

  /** The whole pattern `^(\d{2})-(\d{2})-(\d{4})\s*\|\s*(\d{2}):(\d{2}):(\d{2})$`. */
  predicate DetectedAtShape(s: string) {
    |s| >= 18 && DateShape(s[..10]) && BarShape(s[10..|s| - 8]) && ClockShape(s[|s| - 8..])
  }

  /** `Date.UTC(y, m, d, h, mi, s)` in seconds: a year 0..99 means 1900 + y, the
      month index may overflow into the year, and day, hour, minute and second
      overflow into the day count. */
  function UtcSeconds(y: int, m: int, d: int, h: int, mi: int, s: int): int {
    var yr := Calendar.JsYear(y);
    var ym := yr + m / 12;
    var mn := m % 12;
    (Calendar.DaysBeforeYear(ym) + Calendar.DaysBeforeMonth(ym, mn + 1) + d - 1) * 86400
    + h * 3600 + mi * 60 + s
  }

  /** The six numbers of a stamp: day, month, four-digit year, hour, minute, second. */
  datatype Stamp = Stamp(day: nat, month: nat, year: nat, hour: nat, minute: nat, second: nat)

  /** The regular-expression match of `parseDetectedAt` and its groups as numbers. */
  function MatchStamp(s: string): (r: Option<Stamp>)
    ensures r.Some? <==> DetectedAtShape(s)
    ensures r.Some? ==> r.value.day < 100 && r.value.month < 100 && r.value.year < 10000
                        && r.value.hour < 100 && r.value.minute < 100 && r.value.second < 100
  {
    if !DetectedAtShape(s) then None
    else Some(StampOf(s[..10], s[|s| - 8..]))
  }

  /** The groups of a date part and a clock part as numbers. */
  function StampOf(date: string, clock: string): Stamp
    requires DateShape(date) && ClockShape(clock)
  {
    Stamp(Num2(date[0], date[1]), Num2(date[3], date[4]),
          Num2(date[6], date[7]) * 100 + Num2(date[8], date[9]),
          Num2(clock[0], clock[1]), Num2(clock[3], clock[4]), Num2(clock[6], clock[7]))
  }

  /** `parseDetectedAt`: the instant, in seconds since 1970-01-01 UTC, of a
      "dd-MM-yyyy | HH:mm:ss" stamp read as UTC+7; anything else gives `current`,
      the instant the request is handled. */
  function ParseDetectedAt(stamp: string, current: int): (r: int)
    ensures !DetectedAtShape(stamp) ==> r == current
  {
    match MatchStamp(stamp)
    case None => current
    case Some(t) => UtcSeconds(t.year, t.month - 1, t.day, t.hour - 7, t.minute, t.second)
  }

  /** A bar with only whitespace around it. */
  predicate BarAt(s: string, k: int) {
    0 <= k < |s| && s[k] == '|' && AllJsSpace(s[..k]) && AllJsSpace(s[k + 1..])
  }

  /** The bar pattern: exactly one '|', and only whitespace on either side of it. */
  lemma BarShapeIff(s: string)
    ensures BarShape(s) <==> exists k :: BarAt(s, k)
  {
    if BarShape(s) {
      BarShapeSplit(s);
    }
    if exists k :: BarAt(s, k) {
      var k :| BarAt(s, k);
      BarShapeOf(s, k);
    }
  }

  lemma BarShapeSplit(s: string)
    requires BarShape(s)
    ensures exists k :: BarAt(s, k)
  {
    var k := LeadingSpaces(s);
    assert forall i :: 0 <= i < k ==> s[..k][i] == s[i];
    assert BarAt(s, k);
  }

  lemma BarShapeOf(s: string, k: int)
    requires BarAt(s, k)
    ensures BarShape(s)
  {
    var n := LeadingSpaces(s);
    assert !IsJsSpace('|');
    assert n == k;
  }

  lemma OnlyBarIsNotSpace(s: string, k: int)
    requires BarAt(s, k)
    ensures forall j :: 0 <= j < |s| && j != k ==> IsJsSpace(s[j])
  {
    forall j | 0 <= j < |s| && j != k ensures IsJsSpace(s[j]) {
      if j < k { assert s[..k][j] == s[j]; } else { assert s[k + 1..][j - k - 1] == s[j]; }
    }
  }

  /** The separator `nowTimestamp` writes matches `\s*\|\s*`. */
  lemma TimestampBar()
    ensures BarShape(" | ")
  {
    var bar := " | ";
    assert bar[..1] == " " && bar[2..] == " ";
    BarShapeOf(bar, 1);
  }

  /** The stamp `nowTimestamp` writes for a four-digit year matches, with the
      instant's fields as its groups. */
  lemma MatchNowTimestamp(now: Calendar.DateTime)
    requires Calendar.ValidDateTime(now) && 1000 <= now.date.year <= 9999
    ensures MatchStamp(NowTimestamp(now))
            == Some(Stamp(now.date.day, now.date.month, now.date.year, now.hour, now.minute, now.second))
  {
    DateTextFields(now);
    ClockTextFields(now);
    var date, clock, bar := DateText(now), ClockText(now), " | ";
    TimestampBar();
    MatchStampOfParts(date, bar, clock);
    assert NowTimestamp(now) == date + bar + clock;
    assert StampOf(date, clock) == Stamp(now.date.day, now.date.month, now.date.year, now.hour, now.minute, now.second);
  }

  /** A stamp whose groups are the fields of a wall-clock instant is read as that
      instant in UTC+7. */
  lemma ParseDetectedAtOfMatch(stamp: string, current: int, now: Calendar.DateTime)
    requires Calendar.ValidDateTime(now) && now.date.year >= 100
    requires MatchStamp(stamp) == Some(Stamp(now.date.day, now.date.month, now.date.year,
                                             now.hour, now.minute, now.second))
    ensures ParseDetectedAt(stamp, current) == Calendar.WallSeconds(now) - 7 * 3600
  {
    UtcOfWallClock(now);
    assert ParseDetectedAt(stamp, current)
        == UtcSeconds(now.date.year, now.date.month - 1, now.date.day, now.hour - 7, now.minute, now.second);
  }

  /** The stamp `nowTimestamp` writes for a four-digit year reads back as that
      wall-clock time in UTC+7: seven hours before the same wall clock in UTC. */
  lemma DetectedAtOfTimestamp(now: Calendar.DateTime, current: int)
    requires Calendar.ValidDateTime(now) && 1000 <= now.date.year <= 9999
    ensures ParseDetectedAt(NowTimestamp(now), current) == Calendar.WallSeconds(now) - 7 * 3600
  {
    MatchNowTimestamp(now);
    ParseDetectedAtOfMatch(NowTimestamp(now), current, now);
  }

  /** A date part, a bar part and a clock part of the right shapes match, and the
      groups are read from the date and clock parts. */
  lemma MatchStampOfParts(date: string, bar: string, clock: string)
    requires DateShape(date) && BarShape(bar) && ClockShape(clock)
    ensures MatchStamp(date + bar + clock) == Some(StampOf(date, clock))
  {
    var s := date + bar + clock;
    assert s[..10] == date;
    assert s[|s| - 8..] == clock;
    assert s[10..|s| - 8] == bar;
  }

  /** For a valid wall clock outside years 0..99, `Date.UTC` with the month made
      zero-based is the wall clock read as UTC. */
  lemma UtcOfWallClock(now: Calendar.DateTime)
    requires Calendar.ValidDateTime(now) && now.date.year >= 100
    ensures UtcSeconds(now.date.year, now.date.month - 1, now.date.day, now.hour - 7, now.minute, now.second)
            == Calendar.WallSeconds(now) - 7 * 3600
  {
    assert (now.date.month - 1) / 12 == 0 && (now.date.month - 1) % 12 == now.date.month - 1;
  }

  /** A stamp taken before 07:00 names the previous UTC day, one taken from 07:00 on
      the same day. */
  lemma DetectedAtDay(now: Calendar.DateTime, current: int)
    requires Calendar.ValidDateTime(now) && 1000 <= now.date.year <= 9999
    ensures ParseDetectedAt(NowTimestamp(now), current) / 86400 ==
      Calendar.DayNumber(now.date) - (if now.hour < 7 then 1 else 0)
  {
    DetectedAtOfTimestamp(now, current);
    var r := ParseDetectedAt(NowTimestamp(now), current);
    var q := Calendar.DayNumber(now.date) - (if now.hour < 7 then 1 else 0);
    var rest := r - q * 86400;
    assert 0 <= rest < 86400;
    assert r == q * 86400 + rest;
  }

  /** `Date.UTC` lets a month index of 12 or more run into the next year. */
  lemma UtcMonthOverflow(y: int, m: int, d: int, h: int, mi: int, s: int)
    requires y >= 100
    ensures UtcSeconds(y, m + 12, d, h, mi, s) == UtcSeconds(y + 1, m, d, h, mi, s)
  {
    assert (m + 12) / 12 == m / 12 + 1 && (m + 12) % 12 == m % 12;
  }

  /** A two-digit year (written with four digits, as "0025") lands in the 1900s. */
  lemma UtcTwoDigitYear(y: int, m: int, d: int, h: int, mi: int, s: int)
    requires 0 <= y <= 99
    ensures UtcSeconds(y, m, d, h, mi, s) == UtcSeconds(1900 + y, m, d, h, mi, s)
  {
  }

  // ---------------------------------------------------------------------------
  // The payload

  /** One posted entry (a store row as JSON); a `null` expiry is `None`. */
  datatype BodyEntry = BodyEntry(plateNumber: string, expiryDate: Option<string>, timestamp: string)

  /** One row of the database payload; `detectedAt` is an instant in seconds. */
  datatype SyncRow = SyncRow(plateNumber: string, expDate: string, detectedAt: int)

  function SyncRowOf(p: BodyEntry, current: int): (r: SyncRow)
    ensures TrimmedFrom(r.plateNumber, p.plateNumber)
    ensures r.plateNumber == [] || (!IsJsSpace(r.plateNumber[0]) && !IsJsSpace(r.plateNumber[|r.plateNumber| - 1]))
    ensures r.expDate == ParseExpiry(p.expiryDate) && r.detectedAt == ParseDetectedAt(p.timestamp, current)
  {
    SyncRow(Trim(p.plateNumber), ParseExpiry(p.expiryDate), ParseDetectedAt(p.timestamp, current))
  }

  /** `body.map(...)`: one payload row per entry, in order. */
  function SyncRows(body: seq<BodyEntry>, current: int): (rows: seq<SyncRow>)
    ensures |rows| == |body| && forall i :: 0 <= i < |body| ==> rows[i] == SyncRowOf(body[i], current)
  {
    seq(|body|, i requires 0 <= i < |body| => SyncRowOf(body[i], current))
  }

  /** A row the pages stored syncs to the instant it was stamped at, and an expiry
      the pages could not read ("—") syncs to "". */
  lemma StoredRowSyncs(row: PlateRow, now: Calendar.DateTime, current: int)
    requires Calendar.ValidDateTime(now) && 1000 <= now.date.year <= 9999
    requires row.timestamp == NowTimestamp(now)
    ensures SyncRowOf(BodyEntry(row.plateNumber, Some(row.expiryDate), row.timestamp), current).detectedAt
            == Calendar.WallSeconds(now) - 7 * 3600
    ensures row.expiryDate == "—" ==>
      SyncRowOf(BodyEntry(row.plateNumber, Some(row.expiryDate), row.timestamp), current).expDate == ""
  {
    DetectedAtOfTimestamp(now, current);
  }
}
