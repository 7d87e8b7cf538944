/** The plate domain utilities of `src/lib/plate.ts`: the row the client keeps per
    plate, the origin lookup from the plate's prefix, the days left before the
    expiry month ends, and the display timestamp. "Today" and "now" are parameters. */
module Plate {
  import opened Wrappers
  import opened Chars
  import Calendar

  /** One client-side plate record. `remaining` is `None` where the source has NaN. */
  datatype PlateRow = PlateRow(
    plateNumber: string,
    plateOrigin: string,
    expiryDate: string,
    remaining: Option<int>,
    timestamp: string)

  /** The fixed prefix -> region table, looked up the way `ORIGIN_MAP[key]` is:
      `None` for a key the table lacks. Keys are one or two upper-case letters;
      the table is written out by the key's characters. */
  function Region(key: string): (r: Option<string>)
    ensures r.Some? ==> 1 <= |key| <= 2 && forall i :: 0 <= i < |key| ==> IsUpper(key[i])
  {
    if |key| == 1 then LetterRegion(key[0])
    else if |key| == 2 then PairRegion(key[0], key[1])
    else None
  }

  function LetterRegion(c: char): Option<string> {
    match c
    case 'A' => Some("Banten")
    case 'B' => Some("Jakarta (Greater Jakarta)")
    case 'D' => Some("Greater Bandung")
    case 'E' => Some("Cirebon")
    case 'F' => Some("Bogor / Sukabumi / Cianjur")
    case 'G' => Some("Pekalongan")
    case 'H' => Some("Semarang")
    case 'K' => Some("Rembang / Pati / Kudus (ex-Karesidenan Pati)")
    case 'L' => Some("Surabaya")
    case 'M' => Some("Madura")
    case 'N' => Some("Malang / Pasuruan")
    case 'P' => Some("Besuki / Jember / Bondowoso / Situbondo / Banyuwangi")
    case 'R' => Some("Banyumas")
    case _ => None
  }

  function PairRegion(a: char, b: char): Option<string> {
    match a
    case 'A' =>
      (match b
       case 'A' => Some("Kedu")
       case 'B' => Some("Yogyakarta")
       case 'D' => Some("Surakarta / Klaten / Sragen / Boyolali")
       case 'E' => Some("Madiun / Magetan / Ponorogo / Pacitan / Ngawi")
       case 'G' => Some("Kediri / Blitar / Trenggalek / Nganjuk")
       case _ => None)
    case 'B' =>
      (match b
       case 'A' => Some("West Sumatra")
       case 'B' => Some("Tapanuli")
       case 'D' => Some("Bengkulu")
       case 'E' => Some("Lampung")
       case 'G' => Some("Palembang (South Sumatra)")
       case 'H' => Some("Jambi")
       case 'K' => Some("Medan (North Sumatra / East Sumatra)")
       case 'L' => Some("Aceh")
       case 'M' => Some("Riau (mainland)")
       case 'N' => Some("Riau Islands")
       case 'P' => Some("Riau Islands (Batam/Tg. Pinang)")
       case 'R' => Some("West Kalimantan")
       case _ => None)
    case 'D' =>
      (match b
       case 'A' => Some("South Kalimantan")
       case 'B' => Some("Manado")
       case 'D' => Some("Sulawesi (SE/North Gorontalo legacy)")
       case 'E' => Some("Ambon (Maluku)")
       case 'G' => Some("Ternate (North Maluku)")
       case 'H' => Some("Timor (NTT)")
       case 'K' => Some("Bali")
       case _ => None)
    case _ => None
  }

  /** Every region label in the table is non-empty (so `ORIGIN_MAP[two]` is truthy
      exactly when the key is present) and differs from "Unknown". */
  lemma RegionValues(key: string)
    ensures Region(key).Some? ==> Region(key).value != "" && Region(key).value != "Unknown"
  {
  }

  /** The characters `/[^A-Za-z0-9 ]/g` leaves in place. */
  predicate Kept(c: char) { IsAlnum(c) || c == ' ' }

  /** `s.replace(/[^A-Za-z0-9 ]/g, "")`. */
  function Clean(s: string): (r: string)
    ensures forall i :: 0 <= i < |r| ==> Kept(r[i])
  {
    if s == [] then []
    else Clean(s[..|s| - 1]) + (if Kept(s[|s| - 1]) then [s[|s| - 1]] else [])
  }

  /** `s.split(/\s+/)[0]` for a string that does not start with whitespace:
      everything before the first whitespace character. */
  function FirstToken(s: string): (r: string)
    ensures r <= s
    ensures forall i :: 0 <= i < |r| ==> !IsJsSpace(r[i])
    ensures |r| < |s| ==> IsJsSpace(s[|r|])
  {
    if s == [] || IsJsSpace(s[0]) then [] else [s[0]] + FirstToken(s[1..])
  }

  /** The cleaned, trimmed plate text whose first token the lookup uses. */
  function Cleaned(s: string): string {
    Trim(Clean(s))
  }

  /** The upper-cased first token of the cleaned plate text. */
  function Token(s: string): string {
    UpperString(FirstToken(Cleaned(s)))
  }

  /** The table prefix of an upper-cased, non-empty first token: its first two
      characters when they are a key, else its first character. */
  function TokenPrefix(token: string): (r: string)
    requires token != ""
    ensures 1 <= |r| <= 2 && r <= token
    ensures |r| == 2 ==> Region(r).Some?
    ensures |token| >= 2 && Region(token[..2]).Some? ==> r == token[..2]
  {
    var two := if |token| < 2 then token else token[..2];
    if Region(two).Some? then two else token[..1]
  }

  /** `getPlatePrefix`: "" when nothing is left after cleaning, else the table
      prefix of the upper-cased first token. */
  function PlatePrefix(s: string): (r: string)
    ensures r == "" <==> Cleaned(s) == ""
    ensures |r| <= 2 && r <= Token(s)
    ensures |r| == 2 ==> Region(r).Some?
    ensures |Token(s)| >= 2 && Region(Token(s)[..2]).Some? ==> r == Token(s)[..2]
  {
    var cleaned := Cleaned(s);
    if cleaned == "" then ""
    else
      assert Token(s) != [] by {
        assert !IsJsSpace(cleaned[0]);
      }
      TokenPrefix(Token(s))
  }

  /** `getOriginFromPlate`: the region the prefix maps to, or "Unknown". */
  function Origin(s: string): (r: string)
    ensures r != ""
    ensures r == "Unknown" <==> Region(PlatePrefix(s)).None?
    ensures Region(PlatePrefix(s)).Some? ==> r == Region(PlatePrefix(s)).value
  {
    var prefix := PlatePrefix(s);
    RegionValues(prefix);
    Region(prefix).GetOr("Unknown")
  }

  /** The expiry-token separators `[-/]`. */
  predicate IsExpirySeparator(c: char) { c == '-' || c == '/' }

  /** The shape `/^(\d{1,2})[-/](\d{2})$/` accepts. */
  predicate ExpiryShape(s: string) {
    (|s| == 4 && IsDigit(s[0]) && IsExpirySeparator(s[1]) && IsDigit(s[2]) && IsDigit(s[3]))
    || (|s| == 5 && IsDigit(s[0]) && IsDigit(s[1]) && IsExpirySeparator(s[2])
        && IsDigit(s[3]) && IsDigit(s[4]))
  }

  /** The month and two-digit year groups of a token of that shape. */
  function ExpiryGroups(s: string): (r: (string, string))
    requires ExpiryShape(s)
    ensures 1 <= |r.0| <= 2 && AllDigits(r.0) && |r.1| == 2 && AllDigits(r.1)
    ensures s == r.0 + [s[|r.0|]] + r.1
  {
    (s[..|s| - 3], s[|s| - 2..])
  }

  /** `Math.max(1, Math.min(12, m))`. */
  function ClampMonth(m: int): (r: int)
    ensures 1 <= r <= 12
    ensures 1 <= m <= 12 ==> r == m
  {
    if m < 1 then 1 else if m > 12 then 12 else m
  }

  /** The last day of the month a token of expiry shape denotes, in year 2000 + YY. */
  function ExpiryEnd(s: string): (d: Calendar.Date)
    requires ExpiryShape(s)
    ensures Calendar.Valid(d) && 2000 <= d.year < 2100
    ensures d.year == 2000 + DigitsValue(ExpiryGroups(s).1)
    ensures d.month == ClampMonth(DigitsValue(ExpiryGroups(s).0))
    ensures !Calendar.Valid(Calendar.Date(d.year, d.month, d.day + 1))
  {
    var (mm, yy) := ExpiryGroups(s);
    TwoDigits(yy);
    Calendar.LastDayOfMonth(2000 + DigitsValue(yy), ClampMonth(DigitsValue(mm)))
  }

  /** `daysRemainingFromExpiry`: days from the start of `today` to the last day of
      the token's month; `None` (NaN) for a missing, empty or malformed token. */
  function DaysRemainingFromExpiry(human: Option<string>, today: Calendar.Date): (r: Option<int>)
    requires Calendar.Valid(today)
    ensures r.Some? <==> human.Some? && ExpiryShape(human.value)
    ensures r.Some? ==>
      r.value == Calendar.DayNumber(ExpiryEnd(human.value)) - Calendar.DayNumber(today)
  {
    if human.None? || human.value == "" then None
    else if !ExpiryShape(human.value) then None
    else
      var (mm, yy) := ExpiryGroups(human.value);
      var fullYear := 2000 + DigitsValue(yy);
      var endOfMonth := Calendar.LastDayOfMonth(fullYear, ClampMonth(DigitsValue(mm)));
      Some(Calendar.DayNumber(endOfMonth) - Calendar.DayNumber(today))
  }

  /** `String(n)` for a whole number. */
  function IntToString(n: int): string {
    if n < 0 then "-" + NatToString(-n) else NatToString(n)
  }

  // ---------------------------------------------------------------------------
  // nowTimestamp

  /** `\d{2}-\d{2}-\d{4}`. */
  predicate DateShape(s: string) {
    |s| == 10 && IsDigit(s[0]) && IsDigit(s[1]) && s[2] == '-' && IsDigit(s[3]) && IsDigit(s[4])
    && s[5] == '-' && IsDigit(s[6]) && IsDigit(s[7]) && IsDigit(s[8]) && IsDigit(s[9])
  }

  /** `\d{2}:\d{2}:\d{2}`. */
  predicate ClockShape(s: string) {
    |s| == 8 && IsDigit(s[0]) && IsDigit(s[1]) && s[2] == ':' && IsDigit(s[3]) && IsDigit(s[4])
    && s[5] == ':' && IsDigit(s[6]) && IsDigit(s[7])
  }

  /** `t` is "dd-MM-yyyy" and its digit groups read back the day, month and year of `now`. */
  predicate DateFields(t: string, now: Calendar.DateTime) {
    DateShape(t) && Num2(t[0], t[1]) == now.date.day && Num2(t[3], t[4]) == now.date.month
    && Num2(t[6], t[7]) * 100 + Num2(t[8], t[9]) == now.date.year
  }

  /** `t` is "HH:mm:ss" and its digit groups read back the hour, minute and second of `now`. */
  predicate ClockFields(t: string, now: Calendar.DateTime) {
    ClockShape(t) && Num2(t[0], t[1]) == now.hour && Num2(t[3], t[4]) == now.minute
    && Num2(t[6], t[7]) == now.second
  }

  /** The date part `nowTimestamp` writes: "dd-MM-yyyy". */
  function DateText(now: Calendar.DateTime): string
    requires Calendar.ValidDateTime(now)
  {
    Pad2(now.date.day) + "-" + Pad2(now.date.month) + "-" + IntToString(now.date.year)
  }

  /** The time part `nowTimestamp` writes: "HH:mm:ss". */
  function ClockText(now: Calendar.DateTime): string
    requires Calendar.ValidDateTime(now)
  {
    Pad2(now.hour) + ":" + Pad2(now.minute) + ":" + Pad2(now.second)
  }

  /** `nowTimestamp` for the given wall-clock instant: the date part, " | ", then the
      clock part, whose digit groups read back the instant's fields (the year as
      four digits when it has four). */
  function NowTimestamp(now: Calendar.DateTime): (r: string)
    requires Calendar.ValidDateTime(now)
    ensures |r| >= 18 && r[|r| - 11..|r| - 8] == " | " && ClockFields(r[|r| - 8..], now)
    ensures 1000 <= now.date.year <= 9999 ==> |r| == 21 && DateFields(r[..10], now)
  {
    DateTextFields(now);
    ClockTextFields(now);
    var date, clock := DateText(now), ClockText(now);
    var r := date + " | " + clock;
    assert r[|r| - 11..|r| - 8] == " | " && r[|r| - 8..] == clock && r[..|date|] == date;
    r
  }

  lemma TwoDigitGroup(n: nat)
    requires n < 100
    ensures |Pad2(n)| == 2 && AllDigits(Pad2(n)) && Num2(Pad2(n)[0], Pad2(n)[1]) == n
  {
    TwoDigits(Pad2(n));
  }

  lemma FourDigitGroup(t: string)
    requires |t| == 4 && AllDigits(t)
    ensures DigitsValue(t) == Num2(t[0], t[1]) * 100 + Num2(t[2], t[3])
  {
    var hi, lo := t[..2], t[2..];
    assert t == hi + lo;
    TwoDigits(hi);
    TwoDigits(lo);
    DigitsValueAppend2(hi, lo);
  }

  /** The date part is at least 7 characters long; with a four-digit year it is
      exactly "dd-MM-yyyy" for the instant's day, month and year. */
  lemma DateTextFields(now: Calendar.DateTime)
    requires Calendar.ValidDateTime(now)
    ensures |DateText(now)| >= 7
    ensures 1000 <= now.date.year <= 9999 ==> DateFields(DateText(now), now)
  {
    TwoDigitGroup(now.date.day);
    TwoDigitGroup(now.date.month);
    if 1000 <= now.date.year <= 9999 {
      var y := NatToString(now.date.year);
      NatToString4Digits(now.date.year);
      FourDigitGroup(y);
      var t := DateText(now);
      assert t[6..] == y;
      assert t[6] == y[0] && t[7] == y[1] && t[8] == y[2] && t[9] == y[3];
    }
  }

  /** The clock part is "HH:mm:ss" for the instant's hour, minute and second. */
  lemma ClockTextFields(now: Calendar.DateTime)
    requires Calendar.ValidDateTime(now)
    ensures ClockFields(ClockText(now), now)
  {
    TwoDigitGroup(now.hour);
    TwoDigitGroup(now.minute);
    TwoDigitGroup(now.second);
  }

  /** A row whose origin and remaining days are the ones its own plate text and
      expiry text give on day `today`, as every page builds them. */
  predicate RowDerived(row: PlateRow, today: Calendar.Date)
    requires Calendar.Valid(today)
  {
    row.plateOrigin == Origin(row.plateNumber)
    && row.remaining == DaysRemainingFromExpiry(Some(row.expiryDate), today)
  }

  // ---------------------------------------------------------------------------
  // Properties of the origin lookup

  /** A text made only of kept characters is left as it is by the cleaning step. */
  lemma {:induction false} CleanKeepsKept(s: string)
    requires forall i :: 0 <= i < |s| ==> Kept(s[i])
    ensures Clean(s) == s
  {
    if s != [] { CleanKeepsKept(s[..|s| - 1]); }
  }

  /** Cleaning removes exactly the characters outside the kept class: one character
      survives, unchanged, exactly when it is kept. */
  lemma CleanOne(c: char)
    ensures Clean([c]) == if Kept(c) then [c] else []
  {
    assert [c][..0] == [];
  }

  /** Cleaning works character by character, so it distributes over concatenation
      and keeps the order of the surviving characters. */
  lemma {:induction false} CleanAppend(a: string, b: string)
    ensures Clean(a + b) == Clean(a) + Clean(b)
    decreases |b|
  {
    if b != [] {
      var n := |b| - 1;
      CleanAppend(a, b[..n]);
      assert (a + b)[..|a + b| - 1] == a + b[..n];
      assert (a + b)[|a + b| - 1] == b[n];
      var tail := if Kept(b[n]) then [b[n]] else [];
      assert Clean(b) == Clean(b[..n]) + tail;
      assert Clean(a + b) == Clean(a) + Clean(b[..n]) + tail;
    } else {
      assert a + b == a;
    }
  }

  /** A text without whitespace at either end is left as it is by trimming. */
  lemma TrimKeepsTrimmed(s: string)
    requires s != [] && !IsJsSpace(s[0]) && !IsJsSpace(s[|s| - 1])
    ensures Trim(s) == s
  {
  }

  /** The first token ends at the first whitespace character. */
  lemma {:induction false} FirstTokenEndsAt(s: string, k: nat)
    requires k < |s| && IsJsSpace(s[k])
    requires forall i :: 0 <= i < k ==> !IsJsSpace(s[i])
    ensures FirstToken(s) == s[..k]
  {
    if k > 0 {
      FirstTokenEndsAt(s[1..], k - 1);
      assert s[..k] == [s[0]] + s[1..][..k - 1];
    }
  }

  /** The origin of a plate text that is already clean and trimmed and whose first
      token, ending at position `k`, is upper case. */
  lemma OriginOfCleanText(s: string, k: nat)
    requires 0 < k < |s| && s[k] == ' ' && !IsJsSpace(s[|s| - 1])
    requires forall i :: 0 <= i < |s| ==> Kept(s[i])
    requires forall i :: 0 <= i < k ==> IsUpper(s[i]) || IsDigit(s[i])
    ensures Cleaned(s) == s && Token(s) == s[..k]
  {
    CleanKeepsKept(s);
    TrimKeepsTrimmed(s);
    assert Cleaned(s) == s;
    FirstTokenEndsAt(s, k);
    UpperOfUpper(s[..k]);
  }

  lemma UpperOfUpper(t: string)
    requires forall i :: 0 <= i < |t| ==> IsUpper(t[i]) || IsDigit(t[i])
    ensures UpperString(t) == t
  {
  }

  /** The prefix of a text with something left after cleaning is its token's prefix. */
  lemma PrefixOfToken(s: string)
    requires Cleaned(s) != ""
    ensures Token(s) != "" && PlatePrefix(s) == TokenPrefix(Token(s))
  {
    assert !IsJsSpace(Cleaned(s)[0]);
  }

  /** Two-letter keys take priority over the one-letter key sharing their first
      letter: "AB" is Yogyakarta although "A" is Banten. */
  lemma OriginTwoLetterPriority(s: string)
    requires s == "AB 1234 XY"
    ensures Origin(s) == "Yogyakarta"
  {
    OriginOfCleanText(s, 2);
    PrefixOfToken(s);
    var t := "AB";
    assert s[..2] == t && t[..2] == t;
    assert TokenPrefix(t) == t;
  }

  lemma OriginOneLetter(s: string)
    requires s == "B 1970 SSW"
    ensures Origin(s) == "Jakarta (Greater Jakarta)"
  {
    OriginOfCleanText(s, 1);
    PrefixOfToken(s);
    var t := "B";
    assert s[..1] == t && t[..1] == t;
    assert TokenPrefix(t) == t;
  }

  /** An unknown two-letter start falls back to its first character, which need
      not be a key either. */
  lemma OriginUnknownLetters(s: string)
    requires s == "ZZ 999"
    ensures Origin(s) == "Unknown"
  {
    OriginOfCleanText(s, 2);
    PrefixOfToken(s);
    var t := "ZZ";
    assert s[..2] == t && t[..2] == t && t[..1] == "Z";
    assert TokenPrefix(t) == "Z";
  }

  /** A plate text starting with digits has a digit as its prefix, never a key. */
  lemma OriginUnknownDigits(s: string)
    requires s == "1234 AB"
    ensures Origin(s) == "Unknown"
  {
    OriginOfCleanText(s, 4);
    PrefixOfToken(s);
    var t := "1234";
    assert s[..4] == t && t[..2] == "12" && t[..1] == "1";
    assert TokenPrefix(t) == "1";
  }

  /** Nothing left after cleaning: the prefix is empty and the origin unknown. */
  lemma OriginOfNothing(s: string)
    requires Cleaned(s) == ""
    ensures PlatePrefix(s) == "" && Origin(s) == "Unknown"
  {
  }

  // ---------------------------------------------------------------------------
  // Properties of the days-remaining count

  /** Each passing day lowers the count by exactly one. */
  lemma ExpiryCountsDown(human: Option<string>, today: Calendar.Date)
    requires Calendar.Valid(today)
    requires DaysRemainingFromExpiry(human, today).Some?
    ensures Calendar.Valid(Calendar.NextDay(today))
    ensures DaysRemainingFromExpiry(human, Calendar.NextDay(today))
         == Some(DaysRemainingFromExpiry(human, today).value - 1)
  {
    Calendar.NextDayNumber(today);
  }

  /** The count is zero on the last day of the expiry month, negative exactly when
      that day has passed, and positive exactly when it is still ahead. */
  lemma ExpirySign(human: Option<string>, today: Calendar.Date)
    requires Calendar.Valid(today)
    requires DaysRemainingFromExpiry(human, today).Some?
    ensures var n := DaysRemainingFromExpiry(human, today).value;
            var end := ExpiryEnd(human.value);
            (n == 0 <==> today == end)
            && (n < 0 <==> Calendar.Before(end, today))
            && (n > 0 <==> Calendar.Before(today, end))
  {
    var end := ExpiryEnd(human.value);
    Calendar.OnOrAfterIff(today, end);
    Calendar.OnOrAfterIff(end, today);
  }

  /** Two tokens of expiry shape with the same two-digit year and months that
      clamp to the same value give the same count. */
  lemma ExpirySameMonth(h1: string, h2: string, today: Calendar.Date)
    requires Calendar.Valid(today) && ExpiryShape(h1) && ExpiryShape(h2)
    requires DigitsValue(ExpiryGroups(h1).1) == DigitsValue(ExpiryGroups(h2).1)
    requires ClampMonth(DigitsValue(ExpiryGroups(h1).0)) == ClampMonth(DigitsValue(ExpiryGroups(h2).0))
    ensures DaysRemainingFromExpiry(Some(h1), today) == DaysRemainingFromExpiry(Some(h2), today)
  {
  }

  /** Out-of-range months are clamped into 1..12: "00-25" reads as January. */
  lemma ExpiryClampsLow(today: Calendar.Date, h: string, jan: string)
    requires Calendar.Valid(today) && h == "00-25" && jan == "01-25"
    ensures DaysRemainingFromExpiry(Some(h), today) == DaysRemainingFromExpiry(Some(jan), today)
  {
    assert h[..2] == "00" && h[3..] == "25" && jan[..2] == "01" && jan[3..] == "25";
    ExpirySameMonth(h, jan, today);
  }

  /** ... and "13-25" reads as December. */
  lemma ExpiryClampsHigh(today: Calendar.Date, h: string, dec: string)
    requires Calendar.Valid(today) && h == "13-25" && dec == "12-25"
    ensures DaysRemainingFromExpiry(Some(h), today) == DaysRemainingFromExpiry(Some(dec), today)
  {
    assert h[..2] == "13" && h[3..] == "25" && dec[..2] == "12" && dec[3..] == "25";
    ExpirySameMonth(h, dec, today);
  }

  /** A one-digit month and either separator read the same. */
  lemma ExpiryOneDigitMonth(today: Calendar.Date, short: string, long: string)
    requires Calendar.Valid(today) && short == "5-26" && long == "05/26"
    ensures DaysRemainingFromExpiry(Some(short), today) == DaysRemainingFromExpiry(Some(long), today)
  {
    assert short[..1] == "5" && short[2..] == "26" && long[..2] == "05" && long[3..] == "26";
    ExpirySameMonth(short, long, today);
  }

  /** Missing, empty and malformed tokens give no count. */
  lemma ExpiryRejects(today: Calendar.Date)
    requires Calendar.Valid(today)
    ensures DaysRemainingFromExpiry(None, today).None?
    ensures DaysRemainingFromExpiry(Some(""), today).None?
    ensures DaysRemainingFromExpiry(Some("05-2026"), today).None?
    ensures DaysRemainingFromExpiry(Some("5.26"), today).None?
  {
  }

  /** A character mapping that the cleaning, trimming and splitting steps cannot
      tell apart from the identity, once the token is upper-cased. */
  predicate CaseMapping(f: char -> char) {
    forall c :: Kept(f(c)) == Kept(c) && IsJsSpace(f(c)) == IsJsSpace(c) && Upper(f(c)) == Upper(c)
  }

  lemma {:induction false} CleanMap(f: char -> char, s: string)
    requires CaseMapping(f)
    ensures Clean(MapChars(f, s)) == MapChars(f, Clean(s))
  {
    if s != [] {
      var n := |s| - 1;
      assert MapChars(f, s)[..n] == MapChars(f, s[..n]);
      CleanMap(f, s[..n]);
    }
  }

  lemma {:induction false} TrimStartMap(f: char -> char, s: string)
    requires CaseMapping(f)
    ensures TrimStart(MapChars(f, s)) == MapChars(f, TrimStart(s))
  {
    if s != [] {
      assert MapChars(f, s)[1..] == MapChars(f, s[1..]);
      TrimStartMap(f, s[1..]);
    }
  }

  lemma {:induction false} TrimEndMap(f: char -> char, s: string)
    requires CaseMapping(f)
    ensures TrimEnd(MapChars(f, s)) == MapChars(f, TrimEnd(s))
  {
    if s != [] {
      assert MapChars(f, s)[..|s| - 1] == MapChars(f, s[..|s| - 1]);
      TrimEndMap(f, s[..|s| - 1]);
    }
  }

  lemma {:induction false} FirstTokenMap(f: char -> char, s: string)
    requires CaseMapping(f)
    ensures FirstToken(MapChars(f, s)) == MapChars(f, FirstToken(s))
  {
    if s != [] {
      assert MapChars(f, s)[1..] == MapChars(f, s[1..]);
      FirstTokenMap(f, s[1..]);
    }
  }

  /** Cleaning, trimming and splitting commute with such a mapping. */
  lemma TokenUnderCaseMapping(f: char -> char, s: string)
    requires CaseMapping(f)
    ensures Cleaned(MapChars(f, s)) == MapChars(f, Cleaned(s))
    ensures Token(MapChars(f, s)) == Token(s)
  {
    CleanMap(f, s);
    TrimStartMap(f, Clean(s));
    TrimEndMap(f, TrimStart(Clean(s)));
    var c := Cleaned(s);
    FirstTokenMap(f, c);
    var t := FirstToken(c);
    assert UpperString(MapChars(f, t)) == UpperString(t);
  }

  /** The lookup only sees the cleaned text's emptiness and the upper-cased token. */
  lemma OriginUnderCaseMapping(f: char -> char, s: string)
    requires CaseMapping(f)
    ensures PlatePrefix(MapChars(f, s)) == PlatePrefix(s)
    ensures Origin(MapChars(f, s)) == Origin(s)
  {
    TokenUnderCaseMapping(f, s);
    assert Cleaned(MapChars(f, s)) == [] <==> Cleaned(s) == [];
  }

  /** The origin does not depend on the letter case of the plate text. */
  lemma OriginCaseInsensitive(s: string)
    ensures Origin(UpperString(s)) == Origin(s)
    ensures Origin(LowerString(s)) == Origin(s)
  {
    assert CaseMapping(Upper);
    assert CaseMapping(Lower);
    OriginUnderCaseMapping(Upper, s);
    OriginUnderCaseMapping(Lower, s);
  }
}
