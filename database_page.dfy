/** The derivations of the database page (`src/app/database/page.tsx`): the days left
    and the status shown for a stored row, and the page arithmetic of the listing.
    The query itself and the rendering are not modelled. */
module DatabasePage {
  import opened Wrappers
  import opened Chars
  import opened Plate
  import opened SyncPlates
  import Calendar

  // ---------------------------------------------------------------------------
  // daysRemainingFromISO

  /** The date-only ISO form "YYYY-MM-DD". */
  predicate IsoDateShape(s: string) {
    |s| == 10 && IsDigit(s[0]) && IsDigit(s[1]) && IsDigit(s[2]) && IsDigit(s[3]) && s[4] == '-'
    && IsDigit(s[5]) && IsDigit(s[6]) && s[7] == '-' && IsDigit(s[8]) && IsDigit(s[9])
  }

  /** The calendar date an ISO date string names, if it names one. */
  function IsoDate(s: string): (d: Option<Calendar.Date>)
    ensures d.Some? ==> Calendar.Valid(d.value)
  {
    if !IsoDateShape(s) then None
    else
      var d := Calendar.Date(Num2(s[0], s[1]) * 100 + Num2(s[2], s[3]), Num2(s[5], s[6]), Num2(s[8], s[9]));
      if Calendar.Valid(d) then Some(d) else None
  }

  /** `daysRemainingFromISO`: days from the start of `today` to the last day of the
      stored date's month; `None` (null) for a missing, empty or unreadable value.
      `new Date` reads "YYYY-MM-DD" as midnight UTC, which is 07:00 of the same day
      in UTC+7, so the year and month read back are the stored ones; the month end
      is then built by `new Date(y, m + 1, 0)`, which reads a year 0 .. 99 as
      1900 .. 1999. */
  function DaysRemainingFromISO(expISO: Option<string>, today: Calendar.Date): (r: Option<int>)
    requires Calendar.Valid(today)
    ensures r.Some? <==> expISO.Some? && IsoDate(expISO.value).Some?
    ensures r.Some? ==> var d := IsoDate(expISO.value).value;
      r.value == Calendar.DayNumber(Calendar.LastDayOfMonth(Calendar.JsYear(d.year), d.month)) - Calendar.DayNumber(today)
  {
    if expISO.None? || expISO.value == "" then None
    else
      match IsoDate(expISO.value)
      case None => None
      case Some(d) =>
        var endOfMonth := Calendar.LastDayOfMonth(Calendar.JsYear(d.year), d.month);
        Some(Calendar.DayNumber(endOfMonth) - Calendar.DayNumber(today))
  }

  /** The database page counts the same days as the pages that took the reading:
      the date `parseExpiry` stores for an expiry text gives the count
      `daysRemainingFromExpiry` gives for that text. */
  lemma SameCountAsPages(human: string, today: Calendar.Date)
    requires Calendar.Valid(today) && ParseExpiry(Some(human)) != ""
    ensures DaysRemainingFromISO(Some(ParseExpiry(Some(human))), today) == DaysRemainingFromExpiry(Some(human), today)
  {
    var iso := ParseExpiry(Some(human));
    var mm, yy := MonthGroup(human), YearGroup(human);
    TwoDigits(mm);
    TwoDigits(yy);
    ParseExpiryAgrees(human, today);
    assert Num2(iso[0], iso[1]) == 20 && Num2(iso[2], iso[3]) == DigitsValue(yy);
    assert Num2(iso[5], iso[6]) == DigitsValue(mm) && Num2(iso[8], iso[9]) == 1;
    assert IsoDate(iso) == Some(Calendar.Date(2000 + DigitsValue(yy), DigitsValue(mm), 1));
    assert Calendar.JsYear(2000 + DigitsValue(yy)) == 2000 + DigitsValue(yy);
  }

  /** On the last day of the stored month the count is 0. */
  lemma LastDayCountsZero(s: string, today: Calendar.Date)
    requires Calendar.Valid(today) && IsoDate(s).Some?
    requires today == Calendar.LastDayOfMonth(Calendar.JsYear(IsoDate(s).value.year), IsoDate(s).value.month)
    ensures DaysRemainingFromISO(Some(s), today) == Some(0)
  {
  }

  /** A stored year 0000 .. 0099 counts to the month's end in 1900 .. 1999, and any
      later year to the month's end in that year. */
  lemma IsoYearOfMonthEnd(s: string, today: Calendar.Date)
    requires Calendar.Valid(today) && IsoDate(s).Some?
    ensures var d := IsoDate(s).value;
      var y := if d.year <= 99 then 1900 + d.year else d.year;
      DaysRemainingFromISO(Some(s), today)
      == Some(Calendar.DayNumber(Calendar.LastDayOfMonth(y, d.month)) - Calendar.DayNumber(today))
  {
  }

  /** "0025-05-01" counts to 31 May 1925. */
  lemma TwoDigitYearExample(today: Calendar.Date)
    requires Calendar.Valid(today)
    ensures DaysRemainingFromISO(Some("0025-05-01"), today)
            == Some(Calendar.DayNumber(Calendar.Date(1925, 5, 31)) - Calendar.DayNumber(today))
  {
    assert IsoDate("0025-05-01") == Some(Calendar.Date(25, 5, 1));
  }

  /** The count falls by one from one day to the next. */
  lemma IsoCountsDown(s: string, today: Calendar.Date)
    requires Calendar.Valid(today) && IsoDate(s).Some?
    ensures Calendar.Valid(Calendar.NextDay(today))
    ensures DaysRemainingFromISO(Some(s), Calendar.NextDay(today)).value
            == DaysRemainingFromISO(Some(s), today).value - 1
  {
    Calendar.NextDayNumber(today);
  }

  // ---------------------------------------------------------------------------
  // Status

  datatype Status = Unknown | Expired | Active

  /** The status rule: no stored date is "Unknown"; a known count of zero or less is
      "Expired"; everything else, an unreadable date included, is "Active". */
  function StatusOf(expISO: Option<string>, remaining: Option<int>): (s: Status)
    ensures s == Unknown <==> expISO.None?
    ensures s == Expired <==> expISO.Some? && remaining.Some? && remaining.value <= 0
    ensures s == Active <==> expISO.Some? && (remaining.None? || remaining.value > 0)
  {
    if expISO.None? then Unknown
    else if remaining.Some? && remaining.value <= 0 then Expired
    else Active
  }

  /** A stored row as the query returns it. */
  datatype DbRow = DbRow(id: int, plateNumber: string, expDate: Option<string>, detectedAt: string, createdAt: string)

  /** A row as the table shows it. */
  datatype DisplayRow = DisplayRow(id: string, plateNumber: string, expDate: Option<string>, detectedAt: string,
                                   createdAt: string, plateOrigin: string, remaining: Option<int>, status: Status)

  /** The `enriched` mapping of one row. */
  function Enrich(r: DbRow, today: Calendar.Date): (d: DisplayRow)
    requires Calendar.Valid(today)
    ensures d.plateNumber == r.plateNumber && d.expDate == r.expDate && d.id == IntToString(r.id)
    ensures d.plateOrigin == Origin(r.plateNumber)
    ensures d.remaining == DaysRemainingFromISO(r.expDate, today)
    ensures d.status == StatusOf(r.expDate, d.remaining)
  {
    var remaining := DaysRemainingFromISO(r.expDate, today);
    DisplayRow(IntToString(r.id), r.plateNumber, r.expDate, r.detectedAt, r.createdAt,
               Origin(r.plateNumber), remaining, StatusOf(r.expDate, remaining))
  }

  function EnrichAll(rows: seq<DbRow>, today: Calendar.Date): (ds: seq<DisplayRow>)
    requires Calendar.Valid(today)
    ensures |ds| == |rows| && forall i :: 0 <= i < |rows| ==> ds[i] == Enrich(rows[i], today)
  {
    seq(|rows|, i requires 0 <= i < |rows| => Enrich(rows[i], today))
  }

  /** A stored date is "Expired" from the last day of its month on, and "Active"
      before; a stored value that does not read as a date is "Active". */
  lemma StatusByDay(r: DbRow, today: Calendar.Date)
    requires Calendar.Valid(today) && r.expDate.Some?
    ensures IsoDate(r.expDate.value).None? ==> Enrich(r, today).status == Active
    ensures IsoDate(r.expDate.value).Some? ==>
      var d := IsoDate(r.expDate.value).value;
      var end := Calendar.LastDayOfMonth(Calendar.JsYear(d.year), d.month);
      (Enrich(r, today).status == Expired <==> !Calendar.Before(today, end))
  {
    if IsoDate(r.expDate.value).Some? {
      var d := IsoDate(r.expDate.value).value;
      var end := Calendar.LastDayOfMonth(Calendar.JsYear(d.year), d.month);
      Calendar.OnOrAfterIff(today, end);
    }
  }

  // ---------------------------------------------------------------------------
  // Paging

  const PageSize := 15

  /** `Math.max(1, Math.ceil(total / PAGE_SIZE))` for a row count. */
  function TotalPages(total: nat): (n: int)
    ensures n >= 1
    ensures (n - 1) * PageSize < total || n == 1
    ensures total <= n * PageSize
  {
    var pages := (total + PageSize - 1) / PageSize;
    if pages < 1 then 1 else pages
  }

  /** The page `fetchPage` asks for: the requested one, else the current one, at
      least 1. */
  function PageNumber(requested: Option<int>, current: int): (p: int)
    ensures p >= 1
    ensures Nullish(requested, Some(current)).value >= 1 ==> p == Nullish(requested, Some(current)).value
  {
    var p := Nullish(requested, Some(current)).value;
    if p < 1 then 1 else p
  }

  /** The inclusive row range `.range(from, to)` of page `p`. */
  function PageRange(p: int): (r: (int, int))
    requires p >= 1
  {
    var from := (p - 1) * PageSize;
    var to := from + PageSize - 1;
    (from, to)
  }

  /** Every page is 15 rows wide, and each page starts right after the previous one
      ends. */
  lemma PagesTile(p: int)
    requires p >= 1
    ensures PageRange(p).1 - PageRange(p).0 + 1 == PageSize
    ensures PageRange(p + 1).0 == PageRange(p).1 + 1
    ensures PageRange(1).0 == 0
  {
  }

  /** Each row position lies on exactly one page: page `i / 15 + 1`. */
  lemma EveryRowOnOnePage(i: nat, p: int)
    requires p >= 1
    ensures PageRange(p).0 <= i <= PageRange(p).1 <==> p == i / PageSize + 1
  {
    var q := i / PageSize;
    assert q * PageSize <= i < q * PageSize + PageSize;
  }

  /** The last page holds the last row and the pages before it are full. */
  lemma LastPageHoldsLastRow(total: nat)
    requires total > 0
    ensures PageRange(TotalPages(total)).0 <= total - 1 <= PageRange(TotalPages(total)).1
  {
  }

  // ---------------------------------------------------------------------------
  // Search

  /** The search text of `fetchPage`: the given one, else the current one, trimmed. */
  function SearchText(search: Option<string>, q: string): (s: string)
    ensures TrimmedFrom(s, if search.Some? then search.value else q)
    ensures s == [] || (!IsJsSpace(s[0]) && !IsJsSpace(s[|s| - 1]))
  {
    Trim(Nullish(search, Some(q)).value)
  }

  /** The `ilike` pattern the query is filtered with, if any. */
  function SearchPattern(search: string): (pat: Option<string>)
    ensures pat.None? <==> search == ""
    ensures pat.Some? ==> |pat.value| == |search| + 2 && pat.value[1..|search| + 1] == search
    ensures pat.Some? ==> pat.value[0] == '%' && pat.value[|search| + 1] == '%'
  {
    if search != "" then Some("%" + search + "%") else None
  }

  /** Searching again with the text already searched for searches for the same text:
      trimming a trimmed text leaves it as it is. */
  lemma SearchTextIdempotent(search: Option<string>, q: string, q2: string)
    ensures SearchText(Some(SearchText(search, q)), q2) == SearchText(search, q)
  {
    var t := SearchText(search, q);
    if t != [] {
      TrimKeepsTrimmed(t);
    } else {
      assert TrimmedFrom(Trim(t), t);
    }
  }

  /** A search of nothing but whitespace applies no filter. */
  lemma BlankSearchNoFilter(search: Option<string>, q: string)
    requires AllJsSpace(Nullish(search, Some(q)).value)
    ensures SearchPattern(SearchText(search, q)).None?
  {
  }
}
