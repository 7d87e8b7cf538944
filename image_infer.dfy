/** The post-processing of the still-image pipeline (`src/pipelines/image_infer.py`):
    the strict plate-text normaliser, the "MM-YY" search in the expiry reader's text,
    and the record built for each detection. The detector and both OCR engines are
    inputs: what they return for a crop is given as a `CropReads` value. The live
    pipeline (`src/pipelines/live_infer.py`) repeats `PLATE_RE`, `DIGIT_FIX` and
    `EXPIRY_RE` character for character and uses the definitions here. */
module ImageInfer {
  import opened Wrappers
  import opened Chars
  import SyncPlates
  import Plate
  import DetectionRow
  import Calendar

  // ---------------------------------------------------------------------------
  // Canonical form

  /** `re.sub(r'[^A-Za-z0-9]', '', raw).upper()`: the ASCII letters and digits of
      `raw`, upper-cased. */
  function Canonical(raw: string): (c: string)
    ensures |c| <= |raw|
    ensures forall i :: 0 <= i < |c| ==> IsUpper(c[i]) || IsDigit(c[i])
  {
    if raw == [] then []
    else
      var last := raw[|raw| - 1];
      Canonical(raw[..|raw| - 1]) + (if IsAlnum(last) then [Upper(last)] else [])
  }

  predicate IsCanonical(s: string) {
    forall i :: 0 <= i < |s| ==> IsUpper(s[i]) || IsDigit(s[i])
  }

  lemma {:induction false} CanonicalAppend(a: string, b: string)
    ensures Canonical(a + b) == Canonical(a) + Canonical(b)
    decreases |b|
  {
    if b != [] {
      var n := |b| - 1;
      CanonicalAppend(a, b[..n]);
      assert (a + b)[..|a + b| - 1] == a + b[..n];
      assert (a + b)[|a + b| - 1] == b[n];
      var tail := if IsAlnum(b[n]) then [Upper(b[n])] else [];
      assert Canonical(b) == Canonical(b[..n]) + tail;
      assert Canonical(a + b) == Canonical(a) + Canonical(b[..n]) + tail;
    } else {
      assert a + b == a;
    }
  }

  /** One character: an ASCII letter or digit survives as its capital, anything
      else is dropped. */
  lemma CanonicalOne(c: char)
    ensures Canonical([c]) == if IsAlnum(c) then [Upper(c)] else []
  {
    assert [c][..0] == [];
  }

  /** Canonical text is its own canonical form. */
  lemma {:induction false} CanonicalFixed(s: string)
    requires IsCanonical(s)
    ensures Canonical(s) == s
  {
    if s != [] {
      var n := |s| - 1;
      CanonicalFixed(s[..n]);
      assert s == s[..n] + [s[n]];
    }
  }

  /** The canonical form is empty exactly when `raw` holds no ASCII letter or digit. */
  lemma {:induction false} CanonicalEmpty(raw: string)
    ensures Canonical(raw) == [] <==> forall i :: 0 <= i < |raw| ==> !IsAlnum(raw[i])
  {
    if raw != [] {
      var n := |raw| - 1;
      CanonicalEmpty(raw[..n]);
      if forall i :: 0 <= i < |raw| ==> !IsAlnum(raw[i]) {
        assert forall i :: 0 <= i < n ==> !IsAlnum(raw[..n][i]);
      }
    }
  }

  // ---------------------------------------------------------------------------
  // PLATE_RE and DIGIT_FIX

  /** The length of the longest prefix of `s` whose characters satisfy `p`. */
  function RunLength(s: string, p: char -> bool): (n: nat)
    ensures n <= |s|
    ensures forall i :: 0 <= i < n ==> p(s[i])
    ensures n < |s| ==> !p(s[n])
  {
    if s == [] || !p(s[0]) then 0 else 1 + RunLength(s[1..], p)
  }

  /** A run is characterised by its end: the first position that breaks it. */
  lemma {:induction false} RunLengthAt(s: string, p: char -> bool, k: nat)
    requires k <= |s| && (forall i :: 0 <= i < k ==> p(s[i])) && (k < |s| ==> !p(s[k]))
    ensures RunLength(s, p) == k
  {
    if k > 0 {
      RunLengthAt(s[1..], p, k - 1);
    }
  }

  /** The three groups of a `PLATE_RE` match. */
  datatype Groups = Groups(prefix: string, digits: string, suffix: string)

  /** `([A-Z]{1,2})(\d{1,4})([A-Z]{1,3})`. */
  predicate PlateShape(g: Groups) {
    1 <= |g.prefix| <= 2 && AllUpper(g.prefix)
    && 1 <= |g.digits| <= 4 && AllDigits(g.digits)
    && 1 <= |g.suffix| <= 3 && AllUpper(g.suffix)
  }

  /** `PLATE_RE.match(canon)` for `^([A-Z]{1,2})(\d{1,4})([A-Z]{1,3})$`. Letters and
      digits are disjoint classes, so the only split the pattern can use is the
      leading letter run, the digit run after it and the rest. (On canonical text `\d`
      meets only ASCII digits.) */
  function PlateMatch(canon: string): (m: Option<Groups>)
    ensures m.Some? ==> PlateShape(m.value) && canon == m.value.prefix + m.value.digits + m.value.suffix
  {
    var a := RunLength(canon, IsUpper);
    var rest := canon[a..];
    var b := RunLength(rest, IsDigit);
    var g := Groups(canon[..a], rest[..b], rest[b..]);
    assert canon == g.prefix + g.digits + g.suffix;
    if PlateShape(g) then Some(g) else None
  }

  /** The pattern accepts every text of the plate shape and splits it into exactly
      the groups it was made of. */
  lemma PlateMatchComplete(g: Groups)
    requires PlateShape(g)
    ensures PlateMatch(g.prefix + g.digits + g.suffix) == Some(g)
  {
    var canon := g.prefix + g.digits + g.suffix;
    assert forall i :: 0 <= i < |g.prefix| ==> canon[i] == g.prefix[i];
    assert canon[|g.prefix|] == g.digits[0];
    RunLengthAt(canon, IsUpper, |g.prefix|);
    var rest := canon[|g.prefix|..];
    assert canon[..|g.prefix|] == g.prefix;
    assert rest == g.digits + g.suffix;
    assert forall i :: 0 <= i < |g.digits| ==> rest[i] == g.digits[i];
    assert rest[|g.digits|] == g.suffix[0];
    RunLengthAt(rest, IsDigit, |g.digits|);
    assert rest[..|g.digits|] == g.digits && rest[|g.digits|..] == g.suffix;
  }

  /** `DIGIT_FIX`: letters OCR confuses with digits, mapped to those digits. */
  function DigitFix(c: char): char {
    match c
    case 'O' => '0'
    case 'I' => '1'
    case 'Z' => '2'
    case 'S' => '5'
    case 'B' => '8'
    case 'G' => '6'
    case 'Q' => '0'
    case _ => c
  }

  /** `digits.translate(DIGIT_FIX)`. */
  function FixDigits(digits: string): string {
    MapChars(DigitFix, digits)
  }

  /** The translation never changes a digit group: the table maps only letters. */
  lemma FixDigitsNoOp(digits: string)
    requires AllDigits(digits)
    ensures FixDigits(digits) == digits
  {
  }

  // ---------------------------------------------------------------------------
  // The strict _normalize

  /** The number of blanks in `s`. */
  function SpaceCount(s: string): nat {
    if s == [] then 0 else SpaceCount(s[..|s| - 1]) + (if s[|s| - 1] == ' ' then 1 else 0)
  }

  /** `s` with its blanks deleted. */
  function RemoveSpaces(s: string): string {
    if s == [] then [] else RemoveSpaces(s[..|s| - 1]) + (if s[|s| - 1] == ' ' then [] else [s[|s| - 1]])
  }

  /** Every blank of `s` stands alone between two other characters: there is none at
      either end and no two are side by side. */
  predicate SingleSpaced(s: string) {
    && (|s| > 0 ==> s[0] != ' ' && s[|s| - 1] != ' ')
    && forall i, j :: 0 <= i < j < |s| && s[i] == ' ' && s[j] == ' ' ==> i + 1 < j
  }

  lemma {:induction false} SpacesAppend(a: string, b: string)
    ensures SpaceCount(a + b) == SpaceCount(a) + SpaceCount(b)
    ensures RemoveSpaces(a + b) == RemoveSpaces(a) + RemoveSpaces(b)
    decreases |b|
  {
    if b != [] {
      var n := |b| - 1;
      SpacesAppend(a, b[..n]);
      assert (a + b)[..|a + b| - 1] == a + b[..n];
      assert (a + b)[|a + b| - 1] == b[n];
      var tail := if b[n] == ' ' then [] else [b[n]];
      assert RemoveSpaces(b) == RemoveSpaces(b[..n]) + tail;
      assert RemoveSpaces(a + b) == RemoveSpaces(a) + RemoveSpaces(b[..n]) + tail;
    } else {
      assert a + b == a;
    }
  }

  lemma {:induction false} NoSpaces(s: string)
    requires IsCanonical(s)
    ensures SpaceCount(s) == 0 && RemoveSpaces(s) == s
  {
    if s != [] {
      var n := |s| - 1;
      NoSpaces(s[..n]);
      assert s == s[..n] + [s[n]];
    }
  }

  /** The spaced form `f"{prefix} {digits} {suffix}"` after the digit translation. */
  function Spaced(g: Groups): string {
    g.prefix + " " + FixDigits(g.digits) + " " + g.suffix
  }

  /** Joining canonical pieces with blanks: the blanks are counted and deleted, and
      the canonical form drops them. */
  lemma Joined3(p: string, d: string, x: string)
    requires IsCanonical(p) && IsCanonical(d) && IsCanonical(x)
    ensures SpaceCount(p + " " + d + " " + x) == 2
    ensures RemoveSpaces(p + " " + d + " " + x) == p + d + x
    ensures Canonical(p + " " + d + " " + x) == p + d + x
  {
    Joined3Spaces(p, d, x);
    Joined3Canonical(p, d, x);
  }

  lemma Joined3Spaces(p: string, d: string, x: string)
    requires IsCanonical(p) && IsCanonical(d) && IsCanonical(x)
    ensures SpaceCount(p + " " + d + " " + x) == 2
    ensures RemoveSpaces(p + " " + d + " " + x) == p + d + x
  {
    var a1 := p + " ";
    var a2 := a1 + d;
    var a3 := a2 + " ";
    SpacesBlank();
    NoSpaces(p);
    SpacesAppend(p, " ");
    assert SpaceCount(a1) == 1 && RemoveSpaces(a1) == p;
    NoSpaces(d);
    SpacesAppend(a1, d);
    assert SpaceCount(a2) == 1 && RemoveSpaces(a2) == p + d;
    SpacesAppend(a2, " ");
    assert SpaceCount(a3) == 2 && RemoveSpaces(a3) == p + d;
    NoSpaces(x);
    SpacesAppend(a3, x);
  }

  lemma SpacesBlank()
    ensures SpaceCount(" ") == 1 && RemoveSpaces(" ") == []
  {
    assert " "[..0] == [];
  }

  lemma Joined3Canonical(p: string, d: string, x: string)
    requires IsCanonical(p) && IsCanonical(d) && IsCanonical(x)
    ensures Canonical(p + " " + d + " " + x) == p + d + x
  {
    var a1 := p + " ";
    var a2 := a1 + d;
    var a3 := a2 + " ";
    CanonicalBlank();
    CanonicalFixed(p);
    CanonicalAppend(p, " ");
    assert Canonical(a1) == p;
    CanonicalFixed(d);
    CanonicalAppend(a1, d);
    assert Canonical(a2) == p + d;
    CanonicalAppend(a2, " ");
    assert Canonical(a3) == p + d;
    CanonicalFixed(x);
    CanonicalAppend(a3, x);
  }

  lemma CanonicalBlank()
    ensures Canonical(" ") == []
  {
    assert " "[..0] == [];
  }

  /** Non-empty canonical pieces joined with blanks have no blank at an end and no
      two blanks side by side. */
  lemma Joined3SingleSpaced(p: string, d: string, x: string)
    requires IsCanonical(p) && IsCanonical(d) && IsCanonical(x) && p != [] && d != [] && x != []
    ensures SingleSpaced(p + " " + d + " " + x)
  {
    var s := p + " " + d + " " + x;
    var b1, b2 := |p|, |p| + 1 + |d|;
    assert forall k :: 0 <= k < |s| && s[k] == ' ' ==> k == b1 || k == b2;
    assert s[0] == p[0] && s[|s| - 1] == x[|x| - 1];
  }

  /** The spaced form of a match holds two single blanks and 5 to 11 characters, and
      deleting the blanks, or taking its canonical form, gives back the match. */
  lemma SpacedProps(g: Groups)
    requires PlateShape(g)
    ensures 5 <= |Spaced(g)| <= 11 && SpaceCount(Spaced(g)) == 2 && SingleSpaced(Spaced(g))
    ensures RemoveSpaces(Spaced(g)) == g.prefix + g.digits + g.suffix
    ensures Canonical(Spaced(g)) == g.prefix + g.digits + g.suffix
  {
    FixDigitsNoOp(g.digits);
    Joined3(g.prefix, g.digits, g.suffix);
    Joined3SingleSpaced(g.prefix, g.digits, g.suffix);
  }

  /** `_normalize` of `image_infer.py`: nothing for a missing or empty text, the spaced
      form when the canonical text matches `PLATE_RE`, nothing otherwise. */
  function StrictNormalize(raw: Option<string>): (r: Option<string>)
    ensures r.Some? <==> raw.Some? && PlateMatch(Canonical(raw.value)).Some?
    ensures r.Some? ==>
      5 <= |r.value| <= 11 && SpaceCount(r.value) == 2 && SingleSpaced(r.value)
      && RemoveSpaces(r.value) == Canonical(raw.value)
  {
    if raw.None? || raw.value == "" then None
    else
      match PlateMatch(Canonical(raw.value))
      case None => None
      case Some(g) =>
        SpacedProps(g);
        Some(Spaced(g))
  }

  /** Normalising a normalised plate gives it back. */
  lemma StrictNormalizeIdempotent(raw: Option<string>)
    requires StrictNormalize(raw).Some?
    ensures StrictNormalize(StrictNormalize(raw)) == StrictNormalize(raw)
  {
    var g := PlateMatch(Canonical(raw.value)).value;
    SpacedProps(g);
  }

  /** Every text of the plate shape is accepted, whatever separates or surrounds its
      letters and digits, and comes out as its groups joined by single blanks. */
  lemma StrictNormalizeAccepts(g: Groups, raw: string)
    requires PlateShape(g) && Canonical(raw) == g.prefix + g.digits + g.suffix
    ensures StrictNormalize(Some(raw)) == Some(g.prefix + " " + g.digits + " " + g.suffix)
  {
    PlateMatchComplete(g);
    FixDigitsNoOp(g.digits);
  }

  // ---------------------------------------------------------------------------
  // The expiry text step of _expiry_from_crop

  /** `" ".join(texts)`. */
  function Join(texts: seq<string>): string {
    if texts == [] then ""
    else if |texts| == 1 then texts[0]
    else Join(texts[..|texts| - 1]) + " " + texts[|texts| - 1]
  }

  /** `s.replace(from, to)` for one-character `from` and `to`. */
  function ReplaceChar(s: string, from: char, to: char): (r: string)
    ensures |r| == |s| && forall i :: 0 <= i < |s| ==> r[i] == (if s[i] == from then to else s[i])
  {
    seq(|s|, i requires 0 <= i < |s| => if s[i] == from then to else s[i])
  }

  /** The digit each OCR look-alike stands for. */
  function OcrDigit(c: char): char {
    if c == 'O' || c == 'o' then '0' else if c == 'S' then '5' else if c == 'I' then '1' else c
  }

  /** `.replace("O","0").replace("o","0").replace("S","5").replace("I","1")`: since
      no replacement brings in a character a later one replaces, the chain maps each
      character on its own. */
  function FixBlob(blob: string): (r: string)
    ensures |r| == |blob| && forall i :: 0 <= i < |blob| ==> r[i] == OcrDigit(blob[i])
  {
    ReplaceChar(ReplaceChar(ReplaceChar(ReplaceChar(blob, 'O', '0'), 'o', '0'), 'S', '5'), 'I', '1')
  }

  /** The separator class `[-./Â·:_,| ]` of `EXPIRY_RE` as the source file spells it:
      it holds both `Â` (U+00C2) and `·` (U+00B7). */
  predicate ExpirySep(c: char) {
    c == '-' || c == '.' || c == '/' || c == '\U{00C2}' || c == '\U{00B7}' || c == ':'
    || c == '_' || c == ',' || c == '|' || c == ' '
  }

  /** The month group `(0[1-9]|1[0-2])` at position `i`. */
  predicate MonthAt(s: string, i: nat) {
    i + 2 <= |s| && ((s[i] == '0' && '1' <= s[i + 1] <= '9') || (s[i] == '1' && '0' <= s[i + 1] <= '2'))
  }

  /** The year group `([0-9]{2})` at position `k`. */
  predicate YearAt(s: string, k: nat) {
    k + 2 <= |s| && IsDigit(s[k]) && IsDigit(s[k + 1])
  }

  predicate AllPySpace(s: string, a: nat, b: nat)
    requires a <= b <= |s|
  {
    forall k :: a <= k < b ==> IsPySpace(s[k])
  }

  /** `EXPIRY_RE` matches at `i` with its separator at `j` and its year group at `k`. */
  predicate MatchesWith(s: string, i: nat, j: nat, k: nat) {
    MonthAt(s, i) && i + 2 <= j < k <= |s| && AllPySpace(s, i + 2, j) && ExpirySep(s[j])
    && AllPySpace(s, j + 1, k) && YearAt(s, k)
  }

  /** The end of the run of `\s` characters starting at `j`. */
  function SpacesFrom(s: string, j: nat): (e: nat)
    requires j <= |s|
    ensures j <= e <= |s| && AllPySpace(s, j, e) && (e < |s| ==> !IsPySpace(s[e]))
    decreases |s| - j
  {
    if j == |s| || !IsPySpace(s[j]) then j else SpacesFrom(s, j + 1)
  }

  /** Whether a blank lies in `s[a..b]`. */
  predicate BlankIn(s: string, a: nat, b: nat)
    requires a <= b <= |s|
  {
    exists j :: a <= j < b && s[j] == ' '
  }

  /** The match of `EXPIRY_RE` at `i`, as month and year numbers. The greedy `\s*`
      first runs to the end `e` of the whitespace after the month: if a non-blank
      separator stands there, the year must follow the whitespace after it; otherwise
      one of the blanks before `e` must serve as the separator and the year must
      start at `e`. */
  function MatchAt(s: string, i: nat): (m: Option<(nat, nat)>)
  {
    if !MonthAt(s, i) then None
    else
      var month := Num2(s[i], s[i + 1]);
      var e := SpacesFrom(s, i + 2);
      if e < |s| && ExpirySep(s[e]) then
        var k := SpacesFrom(s, e + 1);
        if YearAt(s, k) then Some((month, Num2(s[k], s[k + 1]))) else None
      else if BlankIn(s, i + 2, e) && YearAt(s, e) then Some((month, Num2(s[e], s[e + 1])))
      else None
  }

  /** `MatchAt` finds a match exactly when the pattern matches at `i`, and then its
      numbers are those of the month group and of the year group, which is the same
      for every way the pattern can match there. */
  lemma MatchAtSound(s: string, i: nat)
    requires MatchAt(s, i).Some?
    ensures exists j: nat, k: nat :: MatchesWith(s, i, j, k) && MatchAt(s, i) == Some((Num2(s[i], s[i + 1]), Num2(s[k], s[k + 1])))
  {
    var e := SpacesFrom(s, i + 2);
    if e < |s| && ExpirySep(s[e]) {
      var k := SpacesFrom(s, e + 1);
      assert MatchesWith(s, i, e, k);
    } else {
      var j :| i + 2 <= j < e && s[j] == ' ';
      assert AllPySpace(s, j + 1, e);
      assert MatchesWith(s, i, j, e);
    }
  }

  lemma MatchAtComplete(s: string, i: nat, j: nat, k: nat)
    requires MatchesWith(s, i, j, k)
    ensures MatchAt(s, i) == Some((Num2(s[i], s[i + 1]), Num2(s[k], s[k + 1])))
  {
    var e := SpacesFrom(s, i + 2);
    assert j <= e;
    if j == e {
      var k' := SpacesFrom(s, e + 1);
      assert k' == k;
    } else {
      assert s[j] == ' ';
      assert k == e;
      assert BlankIn(s, i + 2, e);
    }
  }

  /** `EXPIRY_RE.search(s)` from position `i` on: the leftmost match. */
  function SearchFrom(s: string, i: nat): (m: Option<(nat, nat)>)
    decreases |s| - i
  {
    if i >= |s| then None
    else if MatchAt(s, i).Some? then MatchAt(s, i)
    else SearchFrom(s, i + 1)
  }

  function Search(s: string): Option<(nat, nat)> {
    SearchFrom(s, 0)
  }

  /** The search returns the match at the leftmost position where there is one, and
      nothing when there is none. */
  lemma {:induction false} SearchFromLeftmost(s: string, i: nat)
    ensures SearchFrom(s, i).None? <==> forall p :: i <= p < |s| ==> MatchAt(s, p).None?
    ensures SearchFrom(s, i).Some? ==>
      exists p :: i <= p < |s| && SearchFrom(s, i) == MatchAt(s, p)
                  && forall q :: i <= q < p ==> MatchAt(s, q).None?
    decreases |s| - i
  {
    if i < |s| && MatchAt(s, i).None? {
      SearchFromLeftmost(s, i + 1);
      if SearchFrom(s, i).Some? {
        var p :| i + 1 <= p < |s| && SearchFrom(s, i + 1) == MatchAt(s, p)
                 && forall q :: i + 1 <= q < p ==> MatchAt(s, q).None?;
        assert forall q :: i <= q < p ==> MatchAt(s, q).None?;
      }
    }
  }

  /** A month/year reading of the expiry band. */
  datatype Expiry = Expiry(month: nat, year: nat, human: string)

  /** The text step of `_expiry_from_crop` for one OCR attempt: join the texts, fix
      the look-alike letters, search `EXPIRY_RE`, and write the match as "MM-YY". */
  function ExpiryFromTexts(texts: seq<string>): (r: Option<Expiry>)
  {
    var blob := FixBlob(Join(texts));
    match Search(blob)
    case None => None
    case Some((mm, yy)) => Some(Expiry(mm, yy, Pad2(mm) + "-" + Pad2(yy)))
  }

  /** A reading comes from the leftmost match in the fixed blob; its month is 1..12
      and its year 0..99, and its text is the "MM-YY" of both, which `parseExpiry`
      stores as that month of 20YY and `daysRemainingFromExpiry` counts down to the
      end of that month. */
  lemma ExpiryFromTextsProps(texts: seq<string>, today: Calendar.Date)
    requires Calendar.Valid(today)
    ensures var blob := FixBlob(Join(texts));
      ExpiryFromTexts(texts).None? <==> forall p :: 0 <= p < |blob| ==> MatchAt(blob, p).None?
    ensures ExpiryFromTexts(texts).Some? ==>
      var x := ExpiryFromTexts(texts).value;
      1 <= x.month <= 12 && x.year < 100
      && x.human == Pad2(x.month) + "-" + Pad2(x.year)
      && SyncPlates.ParseExpiry(Some(x.human)) != ""
      && Plate.DaysRemainingFromExpiry(Some(x.human), today).Some?
      && Plate.ExpiryEnd(x.human) == Calendar.LastDayOfMonth(2000 + x.year, x.month)
  {
    var blob := FixBlob(Join(texts));
    SearchBounds(blob);
    if ExpiryFromTexts(texts).Some? {
      var x := ExpiryFromTexts(texts).value;
      HumanAccepted(x.month, x.year, today);
    }
  }

  /** The search finds nothing only when no position matches, and its month is
      1..12 and its year 0..99. */
  lemma SearchBounds(blob: string)
    ensures Search(blob).None? <==> forall p :: 0 <= p < |blob| ==> MatchAt(blob, p).None?
    ensures Search(blob).Some? ==> 1 <= Search(blob).value.0 <= 12 && Search(blob).value.1 < 100
  {
    SearchFromLeftmost(blob, 0);
    if Search(blob).Some? {
      var p :| 0 <= p < |blob| && Search(blob) == MatchAt(blob, p);
      MatchAtSound(blob, p);
    }
  }

  /** "MM-YY" of a month 1..12 and a year 0..99 is stored as that month of 20YY and
      counted down to the end of that month. */
  lemma HumanAccepted(month: nat, year: nat, today: Calendar.Date)
    requires 1 <= month <= 12 && year < 100 && Calendar.Valid(today)
    ensures var human := Pad2(month) + "-" + Pad2(year);
      SyncPlates.ParseExpiry(Some(human)) != ""
      && Plate.DaysRemainingFromExpiry(Some(human), today).Some?
      && Plate.ExpiryEnd(human) == Calendar.LastDayOfMonth(2000 + year, month)
  {
    var human := Pad2(month) + "-" + Pad2(year);
    SyncPlates.ParseExpiryAcceptsAll(month, year);
    SyncPlates.ParseExpiryAgrees(human, today);
    assert human[..2] == Pad2(month) && human[3..] == Pad2(year);
    assert SyncPlates.MonthGroup(human) == Pad2(month) && SyncPlates.YearGroup(human) == Pad2(year);
  }

  /** The expiry the sweep of `_expiry_from_crop` reports: the reading of the first
      OCR attempt that did not raise and whose text holds a match. `attempts` lists the
      attempts in the order of the bands and configurations; `None` is an attempt
      whose reader raised. */
  function FirstExpiry(attempts: seq<Option<seq<string>>>): (r: Option<Expiry>)
  {
    if attempts == [] then None
    else if attempts[0].Some? && ExpiryFromTexts(attempts[0].value).Some? then ExpiryFromTexts(attempts[0].value)
    else FirstExpiry(attempts[1..])
  }

  /** The sweep reports the reading of an attempt, and every earlier attempt raised
      or found nothing; it reports nothing only when no attempt found anything. */
  lemma {:induction false} FirstExpiryFirst(attempts: seq<Option<seq<string>>>)
    ensures FirstExpiry(attempts).None? <==>
      forall a :: 0 <= a < |attempts| && attempts[a].Some? ==> ExpiryFromTexts(attempts[a].value).None?
    ensures FirstExpiry(attempts).Some? ==>
      exists a :: 0 <= a < |attempts| && attempts[a].Some? && FirstExpiry(attempts) == ExpiryFromTexts(attempts[a].value)
        && forall b :: 0 <= b < a && attempts[b].Some? ==> ExpiryFromTexts(attempts[b].value).None?
  {
    if attempts != [] && !(attempts[0].Some? && ExpiryFromTexts(attempts[0].value).Some?) {
      var tail := attempts[1..];
      FirstExpiryFirst(tail);
      if FirstExpiry(tail).Some? {
        var a :| 0 <= a < |tail| && tail[a].Some? && FirstExpiry(tail) == ExpiryFromTexts(tail[a].value)
          && forall b :: 0 <= b < a && tail[b].Some? ==> ExpiryFromTexts(tail[b].value).None?;
        assert attempts[a + 1] == tail[a];
        forall b | 0 <= b < a + 1 && attempts[b].Some? ensures ExpiryFromTexts(attempts[b].value).None? {
          if b > 0 { assert attempts[b] == tail[b - 1]; }
        }
      } else {
        forall b | 0 <= b < |attempts| && attempts[b].Some? ensures ExpiryFromTexts(attempts[b].value).None? {
          if b > 0 { assert attempts[b] == tail[b - 1]; }
        }
      }
    }
  }

  /** The loop of `_expiry_from_crop` over the OCR attempts: an attempt that raises
      is skipped, and the first reading found is returned. */
  method ExpiryFromCrop(attempts: seq<Option<seq<string>>>) returns (r: Option<Expiry>)
    ensures r == FirstExpiry(attempts)
  {
    var a := 0;
    while a < |attempts|
      invariant 0 <= a <= |attempts|
      invariant FirstExpiry(attempts) == FirstExpiry(attempts[a..])
    {
      assert attempts[a..][1..] == attempts[a + 1..];
      if attempts[a].Some? {
        var found := ExpiryFromTexts(attempts[a].value);
        if found.Some? {
          return found;
        }
      }
      a := a + 1;
    }
    return None;
  }

  // ---------------------------------------------------------------------------
  // Records of run_image_pipeline

  /** The detector fields a record copies through unchanged. */
  datatype Box = Box(xyxy: seq<real>, conf: Option<real>, cls: Option<int>, clsName: Option<string>)

  /** What the OCR engines return for one crop: the plate reader's texts, and the
      expiry reader's texts for each band and configuration in the order they are
      tried (`None` where the reader raised). */
  datatype CropReads = CropReads(plateTexts: seq<string>, expiryReads: seq<Option<seq<string>>>)

  /** One detection record: `ocr.raw`, `ocr.plate_spaced`, `ocr.plate_plain` and the
      `expiry` month, year and text (all three present or all three `None`). */
  datatype ImageRecord = ImageRecord(box: Box, raw: Option<string>, plateSpaced: Option<string>,
                                     platePlain: Option<string>, expiry: Option<Expiry>)

  /** The first plate text the reader returns, if any. */
  function RawText(crop: CropReads): Option<string> {
    if |crop.plateTexts| > 0 then Some(crop.plateTexts[0]) else None
  }

  /** The record of one detection and its crop. */
  function ImageRecordOf(det: Box, crop: CropReads): (rec: ImageRecord)
    ensures rec.box == det
    ensures rec.plateSpaced == StrictNormalize(RawText(crop))
    ensures rec.platePlain.Some? <==> rec.plateSpaced.Some?
    ensures rec.platePlain.Some? ==> rec.platePlain.value == RemoveSpaces(rec.plateSpaced.value)
    ensures rec.expiry.Some? ==> rec.plateSpaced.Some? && rec.expiry == FirstExpiry(crop.expiryReads)
    ensures rec.plateSpaced.Some? ==> rec.expiry == FirstExpiry(crop.expiryReads)
    ensures rec.raw == if RawText(crop).Some? && RawText(crop).value != "" then RawText(crop) else None
  {
    var raw := RawText(crop);
    var spaced := StrictNormalize(raw);
    var matched := spaced.Some?;
    var canon := if raw.Some? && raw.value != "" && matched then Some(Canonical(raw.value)) else None;
    var expiry := if matched then FirstExpiry(crop.expiryReads) else None;
    ImageRecord(det, Truthy(raw, None), spaced, canon, expiry)
  }

  /** The body of the loop of `run_image_pipeline` for a detection with a crop. */
  method ImageRecordFor(det: Box, crop: CropReads) returns (rec: ImageRecord)
    ensures rec == ImageRecordOf(det, crop)
  {
    var raw := RawText(crop);
    var spaced := StrictNormalize(raw);
    var matched := spaced.Some?;
    var canon := if raw.Some? && raw.value != "" && matched then Some(Canonical(raw.value)) else None;
    var expiry := None;
    if matched {
      expiry := ExpiryFromCrop(crop.expiryReads);
    }
    rec := ImageRecord(det, Truthy(raw, None), spaced, canon, expiry);
  }

  /** The loop of `run_image_pipeline`: detections without a crop are skipped, and
      every other detection gets its record, in order. */
  method RunImagePipeline(dets: seq<Box>, crops: seq<CropReads>) returns (out: seq<ImageRecord>)
    ensures |out| == if |dets| <= |crops| then |dets| else |crops|
    ensures forall i :: 0 <= i < |out| ==> out[i] == ImageRecordOf(dets[i], crops[i])
  {
    out := [];
    for i := 0 to |dets|
      invariant |out| == if i <= |crops| then i else |crops|
      invariant forall k :: 0 <= k < |out| ==> out[k] == ImageRecordOf(dets[k], crops[k])
    {
      if i < |crops| {
        var rec := ImageRecordFor(dets[i], crops[i]);
        out := out + [rec];
      }
    }
  }

  /** The record as the web pages read it. */
  function ImageDetection(rec: ImageRecord): DetectionRow.Detection {
    DetectionRow.Detection(rec.plateSpaced, rec.platePlain, None, None, None,
                           if rec.expiry.Some? then Some(rec.expiry.value.human) else None, None)
  }

  /** The video page keeps the row of an image record exactly when its plate matched;
      the row shows the record's expiry text, and a record with an expiry always gets
      a count of days. */
  lemma ImageRecordRow(det: Box, crop: CropReads, now: Calendar.DateTime)
    requires Calendar.ValidDateTime(now)
    ensures var rec := ImageRecordOf(det, crop);
      var row := DetectionRow.DetToPlateRow(ImageDetection(rec), now);
      (row.Some? <==> rec.plateSpaced.Some?)
      && (row.Some? ==> row.value.plateNumber == rec.plateSpaced.value)
      && (rec.expiry.Some? ==> row.Some? && row.value.expiryDate == rec.expiry.value.human
                               && row.value.remaining.Some?)
  {
    var rec := ImageRecordOf(det, crop);
    var d := ImageDetection(rec);
    assert DetectionRow.PlateText(d) == rec.plateSpaced;
    if rec.expiry.Some? {
      assert DetectionRow.ExpiryText(d) == Some(rec.expiry.value.human);
      var attempts := crop.expiryReads;
      FirstExpiryFirst(attempts);
      var a :| 0 <= a < |attempts| && attempts[a].Some? && FirstExpiry(attempts) == ExpiryFromTexts(attempts[a].value);
      ExpiryFromTextsProps(attempts[a].value, now.date);
    }
  }
}
