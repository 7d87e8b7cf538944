# Indonesian licence-plate recognition: the plate-record pipeline

This project models the path a plate reading takes through the app. It starts with the
text the OCR engines return for a detected plate and ends with the rows the database
page shows. Along the way it covers:

- **Python post-processing** (`src/pipelines/*_infer.py`):
  - the strict and lenient plate-text normalisers (`PLATE_RE`, `DIGIT_FIX`);
  - the `MM-YY` search in the expiry OCR text (`EXPIRY_RE`);
  - the record built for each detection;
  - the video pipeline's sampling schedule and its `seen`/`counts` summary.
- **Client code**:
  - `detToPlateRow` and the per-batch loops of the video, live and image pages;
  - the session store's de-duplicating `addMany` and `clear`.
- **Shared helpers** in `src/lib/plate.ts`:
  - the origin lookup;
  - the day count to the end of the expiry month;
  - the timestamp format.
- **Server and database derivations**:
  - the sync route's serialisation (`parseExpiry`, `parseDetectedAt`, the body mapping);
  - the database page's day count, status rule and paging.

The files:

- `wrappers.dfy`: `Option` and the two JavaScript/Python fallbacks. `Nullish` is `??`; `Truthy` is `||` / `or`.
- `chars.dfy`: ASCII character classes, JavaScript and Python whitespace, JavaScript `trim`, decimal rendering.
- `calendar.dfy`: proleptic Gregorian dates as day numbers, with 1970-01-01 as day 0.
- `plate.dfy`: `src/lib/plate.ts`.
- `detect_store.dfy`: `src/lib/detectStore.ts`. `Store` is a class whose `results` field is replaced by `AddMany` and `Clear`.
- `detection_row.dfy`: `detToPlateRow`, which the video and live pages define identically.
- `video_page.dfy`, `live_page.dfy`, `image_page.dfy`: the batch building of the three pages.
- `sync_plates.dfy`: `src/app/api/sync-plates/route.ts`.
- `database_page.dfy`: `src/app/database/page.tsx`.
- `image_infer.dfy`, `live_infer.dfy`, `video_infer.dfy`: the three Python pipelines.

Conventions:

- "Today" and "now" are parameters. They are local wall-clock values in Asia/Jakarta, which has no daylight saving.
- A JavaScript `NaN` or `null` result is `None`.
- The OCR engines and the detector are inputs:
  - each crop carries the plate-OCR texts;
  - each expiry sweep attempt carries the texts one EasyOCR configuration returned, or `None` when that call raised.
- Confidence values are `real`.

`addMany` never replaces a stored row, not even with a later row for the same plate that has an expiry (`DetectStore.StoreNeverUpgrades`). The only upgrade in the code is the `chooseBetter` fold within one video batch (`VideoPage`).

## Model

| member | source | states |
|---|---|---|
| Plate.Region | src/lib/plate.ts:12-50 | the table is keyed by one or two capital letters |
| Plate.RegionValues | src/lib/plate.ts:12-50 | every value of the origin table is non-empty and differs from "Unknown" |
| Plate.Clean | src/lib/plate.ts:54 | the cleaned text holds only ASCII letters, digits and spaces |
| Plate.CleanOne | src/lib/plate.ts:54 | a single character survives, unchanged, exactly when it is an ASCII letter, digit or space |
| Plate.CleanAppend | src/lib/plate.ts:54 | cleaning distributes over concatenation, so the kept characters stay in order |
| Plate.FirstToken | src/lib/plate.ts:57 | the first token is a prefix of the text, holds no whitespace, and is followed by whitespace or the end |
| Plate.TokenPrefix | src/lib/plate.ts:59-62 | the prefix is 1 or 2 characters of the token; a 2-character prefix is a table key; when the token's first two characters are a key, they are the prefix |
| Plate.PlatePrefix | src/lib/plate.ts:52-63 | "" exactly when the cleaned, trimmed text is empty; otherwise at most 2 characters, a prefix of the upper-cased first token, with two-letter keys winning |
| Plate.Origin | src/lib/plate.ts:65-68 | never ""; "Unknown" exactly when the prefix is not a table key, otherwise the table value |
| Plate.CleanKeepsKept | src/lib/plate.ts:54 | cleaning text that has only kept characters returns it unchanged |
| Plate.TrimKeepsTrimmed | src/lib/plate.ts:54 | trimming text that has no whitespace at either end returns it unchanged |
| Plate.FirstTokenEndsAt | src/lib/plate.ts:57 | the first token ends at the first whitespace character |
| Plate.OriginOfCleanText | src/lib/plate.ts:54-57 | for a plate-shaped text the cleaned form is the text itself and the token is everything before the first space |
| Plate.UpperOfUpper | src/lib/plate.ts:57 | upper-casing text of capitals and digits returns it unchanged |
| Plate.PrefixOfToken | src/lib/plate.ts:55-62 | a non-empty cleaned text has a non-empty token, and the prefix is that token's table prefix |
| Plate.OriginTwoLetterPriority | src/lib/plate.ts:52-68 | "AB 1234 XY" gives "Yogyakarta", not the "A" value |
| Plate.OriginOneLetter | src/lib/plate.ts:52-68 | "B 1970 SSW" gives "Jakarta (Greater Jakarta)" |
| Plate.OriginUnknownLetters | src/lib/plate.ts:52-68 | "ZZ 999" gives "Unknown" |
| Plate.OriginUnknownDigits | src/lib/plate.ts:52-68 | a digit-leading "1234 AB" gives "Unknown" |
| Plate.OriginOfNothing | src/lib/plate.ts:54-67 | text that cleans to nothing has prefix "" and origin "Unknown" |
| Plate.CleanMap | src/lib/plate.ts:54 | cleaning commutes with a case mapping |
| Plate.TrimStartMap | src/lib/plate.ts:54 | trimming the start commutes with a case mapping |
| Plate.TrimEndMap | src/lib/plate.ts:54 | trimming the end commutes with a case mapping |
| Plate.FirstTokenMap | src/lib/plate.ts:57 | taking the first token commutes with a case mapping |
| Plate.TokenUnderCaseMapping | src/lib/plate.ts:54-57 | the upper-cased token is the same for a text and its case-mapped form |
| Plate.OriginUnderCaseMapping | src/lib/plate.ts:52-68 | prefix and origin are unchanged by any ASCII case mapping |
| Plate.OriginCaseInsensitive | src/lib/plate.ts:52-68 | the origin of the upper-cased and of the lower-cased text is the origin of the text |
| Plate.ExpiryGroups | src/lib/plate.ts:73 | the regex groups: 1-2 digits, the separator, then exactly 2 digits, which together rebuild the text |
| Plate.ClampMonth | src/lib/plate.ts:75 | the month lies in 1..12 and an in-range month is unchanged |
| Plate.ExpiryEnd | src/lib/plate.ts:75-81 | a valid date in year 2000+YY and in the clamped month, whose next day number is not a day of that month |
| Plate.DaysRemainingFromExpiry | src/lib/plate.ts:70-85 | a count exactly for a present "M(M)[-/]YY" text; the count is the last day of that month minus today, in days |
| Plate.ExpiryCountsDown | src/lib/plate.ts:80-84 | the count drops by exactly one from one day to the next |
| Plate.ExpirySign | src/lib/plate.ts:80-84 | the count is 0 on the last day of the month, negative after it and positive before it |
| Plate.ExpirySameMonth | src/lib/plate.ts:73-78 | two texts with the same year and the same clamped month give the same count |
| Plate.ExpiryClampsLow | src/lib/plate.ts:75 | "00-25" counts like "01-25" |
| Plate.ExpiryClampsHigh | src/lib/plate.ts:75 | "13-25" counts like "12-25" |
| Plate.ExpiryOneDigitMonth | src/lib/plate.ts:73 | "5-26" and "05/26" give the same count |
| Plate.ExpiryRejects | src/lib/plate.ts:72-74 | a missing or empty text, a 4-digit year and a '.' separator give no count |
| Plate.NowTimestamp | src/lib/plate.ts:90-96 | the timestamp ends with " \| " and an "HH:mm:ss" clock part that reads back the hour, minute and second; for a four-digit year it is 21 characters and starts with a "dd-MM-yyyy" date part that reads back the day, month and year |
| Plate.DateTextFields | src/lib/plate.ts:94 | the date part of a timestamp has the date shape and reads back as the day, month and four-digit year |
| Plate.ClockTextFields | src/lib/plate.ts:94-96 | the clock part has the clock shape and reads back as hour, minute and second |
| Chars.Trim | src/lib/plate.ts:54 | JavaScript `trim`: the result is a slice of the text with only whitespace cut on either side, and it starts and ends with a non-space |
| Chars.Pad2 | src/lib/plate.ts:92 | `padStart(2, "0")`: the digits of the number, two of them below 100 |
| Calendar.LastDayOfMonth | src/lib/plate.ts:81 | `new Date(y, m, 0)` is a valid date in year y and month m, and the day after it is not in that month |
| DetectStore.Lookup | src/lib/detectStore.ts:15-19 | found exactly when the plate number is in the list; the row found has that number and no earlier row does |
| DetectStore.Store.constructor | src/lib/detectStore.ts:12 | the store starts empty |
| DetectStore.Store.AddMany | src/lib/detectStore.ts:13-28 | the new list is the batch rows kept by the `seen` filter, followed by the old list |
| DetectStore.Store.Clear | src/lib/detectStore.ts:29 | the list is empty afterwards |
| DetectStore.AdmittedKeys | src/lib/detectStore.ts:15-23 | the kept rows have distinct plate numbers: those of the batch that were not already stored |
| DetectStore.UniqueCount | src/lib/detectStore.ts:15-23 | a list without duplicates has as many rows as plate numbers |
| DetectStore.AdmittedFromBatch | src/lib/detectStore.ts:18-20 | every kept row comes from the batch |
| DetectStore.AdmittedProps | src/lib/detectStore.ts:15-23 | the kept rows are distinct, cover exactly the new plate numbers, number as many as those, and come from the batch |
| DetectStore.AdmittedLookup | src/lib/detectStore.ts:18-22 | a kept row for a plate is the first batch row for it, unless the plate was already stored: the first occurrence wins |
| DetectStore.AdmittedNothingNew | src/lib/detectStore.ts:18-22 | a batch of plates all already stored adds nothing |
| DetectStore.LookupAppend | src/lib/detectStore.ts:26 | looking a plate up in a concatenation finds it in the front part first |
| DetectStore.AddManyKeepsUnique | src/lib/detectStore.ts:15-27 | a list without duplicate plate numbers stays without them |
| DetectStore.AddManyLookup | src/lib/detectStore.ts:18-26 | a stored plate keeps its stored row; a new plate gets its first batch row |
| DetectStore.AddManyGrowth | src/lib/detectStore.ts:14-27 | the plate numbers are the old ones plus the batch's; the length grows by the number of new plate numbers; an empty batch changes nothing |
| DetectStore.AddManyIdempotent | src/lib/detectStore.ts:15-27 | adding the same batch twice in a row leaves the list as after the first time |
| DetectStore.StoreNeverUpgrades | src/lib/detectStore.ts:18-26 | a stored row without expiry is kept even when a later row for the plate has one |
| DetectionRow.FirstPresentIndex | src/app/video/page.tsx:34-35 | the `??` chain yields the first present value and skips only missing ones |
| DetectionRow.DetToPlateRow | src/app/video/page.tsx:33-48 | a row exactly when the chosen plate text is present and non-empty; its plate number is that text, its expiry is `expiry.human ?? expiry_human` or "—", its origin and day count come from those, and its timestamp is now |
| DetectionRow.DetRows | src/app/live/page.tsx:142-143 | one conversion per detection, in order |
| DetectionRow.PlateTextFirstPresent | src/app/video/page.tsx:34-35 | the plate text is the first present of the five fields in the order of the chain |
| DetectionRow.FirstPresentCons | src/app/video/page.tsx:35 | the chain is a right fold of `??` |
| DetectionRow.EmptyStopsChain | src/app/video/page.tsx:35-37 | an empty `ocr.plate_spaced` rejects the detection and does not fall through to later fields |
| DetectionRow.AcceptedIff | src/app/live/page.tsx:10-12 | a row exactly when some field is present and non-empty and every earlier field is missing |
| DetectionRow.AcceptedRowsExact | src/app/live/page.tsx:142-144 | the accepted rows are exactly the conversions that gave a row |
| DetectionRow.AcceptedRowsDerived | src/app/live/page.tsx:14-20 | every accepted row has a non-empty plate number with its origin and day count derived from it |
| DetectionRow.AcceptedRowsSnoc | src/app/live/page.tsx:142-144 | one more detection adds its row exactly when it converts |
| VideoPage.ChooseBetter | src/app/video/page.tsx:51-57 | no earlier row gives the new one; otherwise the new row only when it has expiry and the earlier does not; the result has expiry iff either does |
| VideoPage.ChooseBetterIdempotent | src/app/video/page.tsx:53-57 | offering the same row a second time leaves the choice unchanged |
| VideoPage.SummaryRow | src/app/video/page.tsx:114-124 | a row exactly for a non-empty `plate_spaced`; its expiry is `expiry_human` when non-empty, else "—" |
| VideoPage.SummaryRows | src/app/video/page.tsx:114-124 | one conversion per summary entry, in order |
| VideoPage.MergeAll | src/app/video/page.tsx:101-129 | the fold keeps a key order without duplicates that matches the map's keys |
| VideoPage.Values | src/app/video/page.tsx:131 | `byPlate.values()` in insertion order |
| VideoPage.PlateNumbers | src/app/video/page.tsx:107 | the plate number of each row, in order |
| VideoPage.FirstWithExpiry | src/app/video/page.tsx:51-55 | a row found is for the plate, has expiry, and no earlier row of the plate has expiry; none is found exactly when no row of the plate has expiry |
| VideoPage.MergeInto | src/app/video/page.tsx:104-128 | one pass of the loop equals the fold over the accepted rows |
| VideoPage.BuildBatch | src/app/video/page.tsx:101-131 | the batch is the values of the fold over the frame rows, then the summary rows |
| VideoPage.HandleUpload | src/app/video/page.tsx:101-132 | the store ends as `addMany` of that batch; an empty batch leaves it unchanged |
| VideoPage.MergeSnoc | src/app/video/page.tsx:107-108 | one more row is one `chooseBetter` update |
| VideoPage.MergeAllKeys | src/app/video/page.tsx:102-128 | the map holds a row for exactly the plate numbers seen |
| VideoPage.MergeAllOrder | src/app/video/page.tsx:108-131 | the key order is the order of first appearance |
| VideoPage.MergeAllBest | src/app/video/page.tsx:53-57 | each plate's row is its first row with expiry, else its first row |
| VideoPage.BestHasExpiry | src/app/video/page.tsx:51-57 | a plate has a row iff it was seen; that row has expiry iff some row for it had one |
| VideoPage.ExpiryNeverLost | src/app/video/page.tsx:102-128 | once a plate's row has expiry, later frame or summary rows never replace it |
| VideoPage.FirstWithExpiryPrefix | src/app/video/page.tsx:55 | the first row with expiry is unchanged by appending rows |
| VideoPage.BatchOnePerPlate | src/app/video/page.tsx:131 | the batch has one row per plate, in order of first appearance |
| LivePage.FrameBatch | src/app/live/page.tsx:139-148 | the loop builds the de-duplicated list of the frame's accepted rows |
| LivePage.Tick | src/app/live/page.tsx:139-149 | the store ends as `addMany` of that batch; an empty batch leaves it unchanged |
| LivePage.FrameRowsProps | src/app/live/page.tsx:140-147 | the batch has distinct plate numbers, covers every accepted plate, and keeps the first detection for each |
| LivePage.FrameRowsFromDetections | src/app/live/page.tsx:142-147 | every batch row comes from an accepted detection |
| LivePage.AdmittedTwice | src/app/live/page.tsx:145-149 | de-duplicating the batch before `addMany` filters it again without changing the outcome |
| LivePage.TickSameAsAllRows | src/app/live/page.tsx:139-149 | the store ends as if every accepted row had been passed to `addMany` |
| ImagePage.ImageRow | src/app/image/page.tsx:50-59 | the plate number is `plate_spaced ?? canon`, or "—" when that is empty; the expiry is `expiry.human ?? "—"`; the day count is the finite one or none |
| ImagePage.ImageRows | src/app/image/page.tsx:50 | exactly one row per detection, in order |
| ImagePage.Predict | src/app/image/page.tsx:50-61 | the store ends as `addMany` of all the rows, the empty list included |
| ImagePage.DashIsUnreadable | src/app/image/page.tsx:54-55 | "—" and "" both have origin "Unknown" |
| ImagePage.AdmittedSameKey | src/app/image/page.tsx:61 | a batch whose rows all share one plate number keeps only its first row, or none if that plate is stored |
| ImagePage.UnreadableCollapse | src/app/image/page.tsx:54-61 | several unreadable plates become one "—" row in the store |
| ImagePage.ImageRowsDerived | src/app/image/page.tsx:54-55 | an unreadable plate gives the row "—" with origin "Unknown" |
| SyncPlates.MonthGroup | src/app/api/sync-plates/route.ts:8-10 | the first regex group: the two month digits |
| SyncPlates.YearGroup | src/app/api/sync-plates/route.ts:8-11 | the second regex group: the two year digits |
| SyncPlates.ParseExpiry | src/app/api/sync-plates/route.ts:6-15 | non-empty exactly for a present "DD-DD" text with month 1..12; then "20YY-MM-01" built from the digits |
| SyncPlates.CenturyYear | src/app/api/sync-plates/route.ts:11-14 | 2000+YY renders as "20YY" and padding to four digits changes nothing |
| SyncPlates.ParseExpiryReadBack | src/app/api/sync-plates/route.ts:11-14 | reading month and year back from the stored date gives the input text |
| SyncPlates.ParseExpiryAcceptsAll | src/app/api/sync-plates/route.ts:8-14 | every zero-padded month 1..12 with a two-digit year is accepted and stored with those digits |
| SyncPlates.ParseExpiryRejects | src/app/api/sync-plates/route.ts:7-12 | a missing or empty text, "00-25", "13-25", "5-25" and "05/25" all give "" |
| SyncPlates.ParseExpiryAgrees | src/app/api/sync-plates/route.ts:8-14 | a text the route accepts also gets a day count on the pages, for the same month and year |
| SyncPlates.MatchStamp | src/app/api/sync-plates/route.ts:20 | a match exactly for "dd-MM-yyyy", optional whitespace, "\|", optional whitespace, "HH:mm:ss" |
| SyncPlates.ParseDetectedAt | src/app/api/sync-plates/route.ts:18-35 | text of any other shape falls back to the current instant |
| SyncPlates.BarShapeIff | src/app/api/sync-plates/route.ts:20 | `\s*\|\s*` matches exactly the texts with one bar and whitespace around it |
| SyncPlates.OnlyBarIsNotSpace | src/app/api/sync-plates/route.ts:20 | in such a text every character but the bar is whitespace |
| SyncPlates.DetectedAtOfTimestamp | src/app/api/sync-plates/route.ts:20-33 | every timestamp `nowTimestamp` writes for a four-digit year parses to that wall-clock time minus 7 hours |
| SyncPlates.MatchNowTimestamp | src/app/api/sync-plates/route.ts:20-33 | every timestamp `nowTimestamp` writes for a four-digit year matches the pattern, with the instant's six fields as its groups |
| SyncPlates.MatchStampOfParts | src/app/api/sync-plates/route.ts:20-22 | a date, a bar and a clock part match and give back their fields |
| SyncPlates.UtcOfWallClock | src/app/api/sync-plates/route.ts:24-33 | `Date.UTC` of the fields with the hour minus 7 is the wall-clock instant minus 7 hours |
| SyncPlates.DetectedAtDay | src/app/api/sync-plates/route.ts:29 | the UTC day is the local day, or the day before when the hour is below 7 |
| SyncPlates.UtcMonthOverflow | src/app/api/sync-plates/route.ts:25-28 | a month 12 past the end rolls over into the next year |
| SyncPlates.UtcTwoDigitYear | src/app/api/sync-plates/route.ts:26 | `Date.UTC` reads years 0..99 as 1900..1999 |
| SyncPlates.SyncRowOf | src/app/api/sync-plates/route.ts:46-50 | the payload plate number is the entry's with only whitespace cut from both ends, so it is empty or starts and ends with a non-space; the expiry and the instant are `parseExpiry` and `parseDetectedAt` of the entry's fields |
| SyncPlates.SyncRows | src/app/api/sync-plates/route.ts:46-50 | one row per body entry, in order |
| SyncPlates.StoredRowSyncs | src/app/api/sync-plates/route.ts:46-50 | a store row's timestamp parses to its wall-clock time minus 7 hours, and an expiry of "—" is sent as "" |
| DatabasePage.IsoDate | src/app/database/page.tsx:18-19 | a "YYYY-MM-DD" text names a valid date or none |
| DatabasePage.DaysRemainingFromISO | src/app/database/page.tsx:16-26 | null for a missing, empty or unreadable value; otherwise the last day of the stored month minus today, in days, with the month end built by `new Date(y, m + 1, 0)` (a year 0..99 read as 1900..1999) |
| DatabasePage.IsoYearOfMonthEnd | src/app/database/page.tsx:21-23 | a stored year 0000..0099 counts to that month's end in 1900..1999; a later year counts to its own month end |
| DatabasePage.TwoDigitYearExample | src/app/database/page.tsx:21-23 | "0025-05-01" counts to 31 May 1925 |
| DatabasePage.SameCountAsPages | src/app/database/page.tsx:20-25 | the stored date of an expiry text gives the count the pages gave for that text |
| DatabasePage.LastDayCountsZero | src/app/database/page.tsx:22-25 | on the last day of the month the count is 0 (the month as `new Date(y, m + 1, 0)` places it) |
| DatabasePage.IsoCountsDown | src/app/database/page.tsx:23-25 | the count drops by one per day |
| DatabasePage.StatusOf | src/app/database/page.tsx:66-67 | "Unknown" iff there is no date; "Expired" iff a known count is at most 0; "Active" otherwise, an unreadable date included |
| DatabasePage.Enrich | src/app/database/page.tsx:62-78 | the displayed row keeps the stored fields and adds the origin, the count and the status |
| DatabasePage.EnrichAll | src/app/database/page.tsx:62 | one displayed row per stored row, in order |
| DatabasePage.StatusByDay | src/app/database/page.tsx:64-67 | a readable date is "Expired" exactly from the last day of its month on (a year 0..99 read as 1900..1999); an unreadable one is "Active" |
| DatabasePage.TotalPages | src/app/database/page.tsx:35 | at least 1, and the smallest page count whose pages hold every row |
| DatabasePage.PageNumber | src/app/database/page.tsx:39 | the requested page, else the current one, clamped to at least 1 |
| DatabasePage.PagesTile | src/app/database/page.tsx:40-41 | every page is 15 rows wide and begins right after the previous one |
| DatabasePage.EveryRowOnOnePage | src/app/database/page.tsx:40-41 | row i lies on page i / 15 + 1 and on no other |
| DatabasePage.LastPageHoldsLastRow | src/app/database/page.tsx:35-41 | the last page holds the last row |
| DatabasePage.SearchText | src/app/database/page.tsx:38 | the given search text, else the current one, with only whitespace cut from both ends, which leaves it empty or starting and ending with a non-space |
| DatabasePage.SearchTextIdempotent | src/app/database/page.tsx:38 | searching again for the text already searched for searches for the same text |
| DatabasePage.SearchPattern | src/app/database/page.tsx:53 | no filter exactly for an empty search; otherwise '%', the text, '%' |
| DatabasePage.BlankSearchNoFilter | src/app/database/page.tsx:38-53 | a search of only whitespace applies no filter |
| ImageInfer.Canonical | src/pipelines/image_infer.py:51 | the canonical text holds only capitals and digits and is no longer than the input |
| ImageInfer.CanonicalOne | src/pipelines/image_infer.py:51 | a single ASCII letter or digit becomes its capital, and any other character is dropped |
| ImageInfer.CanonicalAppend | src/pipelines/image_infer.py:51 | canonicalising distributes over concatenation |
| ImageInfer.CanonicalFixed | src/pipelines/image_infer.py:51 | a canonical text is its own canonical form |
| ImageInfer.CanonicalEmpty | src/pipelines/image_infer.py:51 | the canonical form is empty exactly when the text has no ASCII letter or digit |
| ImageInfer.RunLength | src/pipelines/image_infer.py:44 | the length of the longest run of the class at the front |
| ImageInfer.PlateMatch | src/pipelines/image_infer.py:44 | a match splits the text into 1-2 capitals, 1-4 digits and 1-3 capitals |
| ImageInfer.PlateMatchComplete | src/pipelines/image_infer.py:44 | every such split is found, with those groups |
| ImageInfer.FixDigitsNoOp | src/pipelines/image_infer.py:45 | `DIGIT_FIX` leaves a digit group unchanged |
| ImageInfer.SpacedProps | src/pipelines/image_infer.py:55-57 | the spaced form is 5 to 11 characters with two single spaces, and removing them gives the canonical text |
| ImageInfer.StrictNormalize | src/pipelines/image_infer.py:47-57 | a value exactly when the text is present and its canonical form matches; then two single spaces, 5 to 11 characters, and the canonical form once the spaces are removed |
| ImageInfer.StrictNormalizeIdempotent | src/pipelines/image_infer.py:47-57 | normalising an output gives it back |
| ImageInfer.StrictNormalizeAccepts | src/pipelines/image_infer.py:52-57 | every text whose canonical form has the plate shape normalises to its three groups joined by spaces |
| ImageInfer.ReplaceChar | src/pipelines/image_infer.py:90 | `str.replace` of one character changes exactly its occurrences |
| ImageInfer.FixBlob | src/pipelines/image_infer.py:88-90 | each character is mapped by O, o to 0, S to 5, I to 1, and every other character is kept |
| ImageInfer.SpacesFrom | src/pipelines/image_infer.py:62 | the end of the greedy `\s*` run |
| ImageInfer.MatchAtSound | src/pipelines/image_infer.py:62 | a match found at a position is a real `EXPIRY_RE` match there, with its two groups |
| ImageInfer.MatchAtComplete | src/pipelines/image_infer.py:62 | every `EXPIRY_RE` match at a position is found there, with the same groups |
| ImageInfer.SearchFromLeftmost | src/pipelines/image_infer.py:91 | `search` returns the leftmost match, and none only when no position matches |
| ImageInfer.SearchBounds | src/pipelines/image_infer.py:91-94 | a found month lies in 1..12 and a found year below 100 |
| ImageInfer.ExpiryFromTextsProps | src/pipelines/image_infer.py:88-94 | no reading exactly when the fixed blob has no match; a reading has month 1..12, human "MM-YY" zero-padded, accepted by `parseExpiry` and counted by `daysRemainingFromExpiry` |
| ImageInfer.HumanAccepted | src/pipelines/image_infer.py:94 | every "MM-YY" the pipeline writes is accepted downstream for the same month |
| ImageInfer.FirstExpiryFirst | src/pipelines/image_infer.py:77-95 | the sweep returns the reading of the first attempt that has one, skipping attempts that raised, and none when no attempt has one |
| ImageInfer.ExpiryFromCrop | src/pipelines/image_infer.py:70-95 | the loop returns that first reading |
| ImageInfer.ImageRecordOf | src/pipelines/image_infer.py:116-153 | the spaced plate is the strict normalisation of the first text; the plain plate is present iff it is, with its spaces removed; expiry is read only for a matched plate; `raw` is the first text when that is non-empty, else absent |
| ImageInfer.ImageRecordFor | src/pipelines/image_infer.py:116-153 | the loop body builds that record |
| ImageInfer.RunImagePipeline | src/pipelines/image_infer.py:110-138 | one record per detection that has a crop, in order |
| ImageInfer.ImageRecordRow | src/pipelines/image_infer.py:143-152 | the video page keeps a record's row exactly when its plate matched; the row shows its expiry and gets a count |
| LiveInfer.LenientNormalize | src/pipelines/live_infer.py:24-33 | none exactly when the text has no ASCII letter or digit; the spaced form when the plate matches, else the canonical text |
| LiveInfer.LenientNormalizeIdempotent | src/pipelines/live_infer.py:24-33 | normalising an output gives it back |
| LiveInfer.LiveRecordOf | src/pipelines/live_infer.py:73-101 | the record keeps the detection's box and the first plate text; `canon` and `plate_plain` are equal; the expiry is the first reading of the sweep |
| LiveInfer.LiveRecordProps | src/pipelines/live_infer.py:73-101 | `canon` and `plate_plain` are equal; the spaced plate is empty exactly when `canon` is, and is the normaliser's value otherwise; the expiry is read for every detection |
| LiveInfer.LiveRecordFor | src/pipelines/live_infer.py:73-101 | the loop body builds that record |
| LiveInfer.LiveRecordsIndex | src/pipelines/live_infer.py:72-101 | the frame's records number as many as its detections, and record i is built from detection i and crop i |
| LiveInfer.RunLiveFrame | src/pipelines/live_infer.py:69-101 | the loop produces that record list, one record per detection in order |
| LiveInfer.LiveRecordRow | src/pipelines/live_infer.py:76-100 | the live page keeps a live record's row exactly when its text had an ASCII letter or digit; its expiry gets a count |
| VideoInfer.Samples | src/pipelines/video_infer.py:51 | as many times as `range(0, end_sec + 1, step)` yields |
| VideoInfer.SamplesProps | src/pipelines/video_infer.py:51 | the times are 0, step, 2·step, ... up to `end_sec`, strictly increasing, and the next multiple would pass `end_sec` |
| VideoInfer.FrameOf | src/pipelines/video_infer.py:53-76 | an unreadable frame leaves no record, a failed one has no detections and its error, an inferred one has its detections |
| VideoInfer.FramesTimes | src/pipelines/video_infer.py:57-76 | every frame record has a sample time, and there are no more records than samples |
| VideoInfer.FramesIncreasing | src/pipelines/video_infer.py:51-76 | the frame list is in increasing time order |
| VideoInfer.Key | src/pipelines/video_infer.py:81-85 | "" exactly when both `plate_spaced` and `plate_plain` are missing or empty; otherwise `plate_spaced` when it is non-empty, else `plate_plain` |
| VideoInfer.KeyOfImageRecord | src/pipelines/video_infer.py:81-85 | the key of a record from the image pipeline is its spaced plate, or "" |
| VideoInfer.DetSighting | src/pipelines/video_infer.py:81-88 | one sighting exactly for a non-empty key |
| VideoInfer.DetSightings | src/pipelines/video_infer.py:80-88 | every sighting of a frame has a non-empty key and the frame's time |
| VideoInfer.FrameSightings | src/pipelines/video_infer.py:65-80 | a frame that was not inferred, or any frame with `dedupe` off, adds no sighting |
| VideoInfer.SightingsOf | src/pipelines/video_infer.py:51-88 | every sighting has a non-empty key |
| VideoInfer.NoDedupeNoSightings | src/pipelines/video_infer.py:79 | with `dedupe` off there are no sightings |
| VideoInfer.FailedFrame | src/pipelines/video_infer.py:65-72 | a failed frame adds its record with no detections and its error, and no sighting |
| VideoInfer.SightingsSorted | src/pipelines/video_infer.py:51-99 | sightings come in time order |
| VideoInfer.Observe | src/pipelines/video_infer.py:89-101 | one update keeps the key order without duplicates and in step with the two dicts |
| VideoInfer.ObserveKnown | src/pipelines/video_infer.py:97-101 | a known key counts one more, moves its last sighting to now and keeps the larger confidence, the earlier one on a tie |
| VideoInfer.ObserveNew | src/pipelines/video_infer.py:89-96 | a new key starts with this confidence, this time as first and last sighting, and a count of 1 |
| VideoInfer.Aggregate | src/pipelines/video_infer.py:79-101 | the state after the sightings satisfies the same invariant |
| VideoInfer.Plates | src/pipelines/video_infer.py:105-107 | one summary item per key in the order |
| VideoInfer.AggregateKeys | src/pipelines/video_infer.py:89-96 | the summary has an entry for exactly the keys sighted, in the order of their first sightings |
| VideoInfer.AggregateEntry | src/pipelines/video_infer.py:89-99 | each entry counts the sightings of its key, and holds the times of its first and last sightings |
| VideoInfer.AggregateBest | src/pipelines/video_infer.py:88-101 | each entry's confidence is the largest its key was sighted with |
| VideoInfer.BestStep | src/pipelines/video_infer.py:100-101 | keeping the larger confidence keeps the maximum |
| VideoInfer.BestFirst | src/pipelines/video_infer.py:92 | the first sighting's confidence is the maximum so far |
| VideoInfer.ObserveOne | src/pipelines/video_infer.py:89-101 | the in-place dict updates give the same state as `Observe` |
| VideoInfer.ObserveDetection | src/pipelines/video_infer.py:81-101 | one detection updates the state as the summary of one more sighting, or not at all for an empty key |
| VideoInfer.ObserveDetections | src/pipelines/video_infer.py:80-101 | the inner loop leaves the summary of the earlier sightings and this frame's |
| VideoInfer.ObserveFrame | src/pipelines/video_infer.py:79-101 | one sample time updates the summary by its sightings only |
| VideoInfer.RunVideoPipeline | src/pipelines/video_infer.py:46-111 | the frames are the records of the readable samples, the plates are the summary of all sightings, and `unique_count` is their number |
| VideoInfer.SummaryItems | src/pipelines/video_infer.py:89-107 | each item is for a sighted key; its occurrences are the number of sightings (at least 1), its first and last times are those sightings' times with first at most last, and its confidence is the maximum |
| VideoInfer.SummaryKeys | src/pipelines/video_infer.py:89-111 | one item per sighted key and never two for one key, so `unique_count` counts the distinct keys |
| VideoInfer.NoDedupeEmptySummary | src/pipelines/video_infer.py:79-107 | with `dedupe` off the summary is empty |
| VideoInfer.PipelineSightingsSorted | src/pipelines/video_infer.py:51-99 | the pipeline's sightings and frames are in time order |
| VideoInfer.SummaryRowsWithoutExpiry | src/pipelines/video_infer.py:90-107 | every summary item becomes a page row that shows no expiry |

## Left out

- Reading files, images and video, the YOLO detector, the `fast_plate_ocr` and EasyOCR engines, and the band cropping and resizing are outside the model. Their results are inputs: the boxes, the plate texts and the expiry sweep attempts of each crop, and each sample time's frame outcome.
- WebP/JPEG encoding, base64 previews and the annotated image are not modelled.
- The frame rate, duration and `end_sec` computation and the step formula `max(1, int(1 / max(1e-9, fps_target)))` use floating point. `RunVideoPipeline` takes the step and `end_sec` as integers.
- VideoInfer.Conf reads a missing `conf` as 0.0. In the source, `float(None)` would raise for a detection whose `conf` is null.
- LiveInfer.RunLiveFrame requires at least as many crops as detections. The source would raise `IndexError` otherwise.
- The clock, timers, camera capture, in-flight flags, HTTP requests and database queries are outside the model. Today and now are parameters, and `parseDetectedAt`'s fallback to the current instant is a parameter too.
- The ISO-string rendering of `parseDetectedAt` is not modelled. The result is seconds since 1970-01-01 UTC, and millisecond precision is not modelled.
- DatabasePage.DaysRemainingFromISO reads only the date-only "YYYY-MM-DD" form the sync route stores. Other formats that JavaScript's `Date` parser accepts give `None` here.
- The `ilike` matching the database performs is not modelled. `SearchPattern` only builds the pattern.
- Dates assume a time zone without daylight saving (Asia/Jakarta), so every day lasts 86 400 seconds and `Math.ceil` over whole days is exact.
- React rendering, state setters and the display components are not modelled.
