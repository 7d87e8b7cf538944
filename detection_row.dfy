/** `detToPlateRow`, which the video page (`src/app/video/page.tsx`) and the live page
    (`src/app/live/page.tsx`) define identically: one detection record of the inference
    service becomes a plate row, or nothing when it carries no plate text. */
module DetectionRow {
  import opened Wrappers
  import opened Plate
  import Calendar

  /** The fields of a detection record the pages read; a missing field or a JSON
      `null` is `None`, and a missing `ocr` or `expiry` object makes its fields `None`. */
  datatype Detection = Detection(
    ocrPlateSpaced: Option<string>,   // ocr.plate_spaced
    ocrPlatePlain: Option<string>,    // ocr.plate_plain
    ocrCanon: Option<string>,         // ocr.canon
    plateSpaced: Option<string>,      // plate_spaced
    plate: Option<string>,            // plate
    expiryHuman: Option<string>,      // expiry.human
    flatExpiryHuman: Option<string>)  // expiry_human

  /** The first present value of a list of optional values. */
  function FirstPresent(xs: seq<Option<string>>): Option<string> {
    if xs == [] then None
    else if xs[0].Some? then xs[0]
    else FirstPresent(xs[1..])
  }

  /** `FirstPresent` is the value at the first index holding one. */
  lemma {:induction false} FirstPresentIndex(xs: seq<Option<string>>)
    ensures FirstPresent(xs).Some? <==> exists i :: 0 <= i < |xs| && xs[i].Some?
    ensures FirstPresent(xs).Some? ==>
      exists i :: 0 <= i < |xs| && xs[i] == FirstPresent(xs) && forall j :: 0 <= j < i ==> xs[j].None?
  {
    if xs != [] && xs[0].None? {
      var tail := xs[1..];
      FirstPresentIndex(tail);
      if FirstPresent(tail).Some? {
        var i :| 0 <= i < |tail| && tail[i] == FirstPresent(tail) && forall j :: 0 <= j < i ==> tail[j].None?;
        assert xs[i + 1] == tail[i];
        assert forall j :: 0 <= j < i + 1 ==> xs[j].None? by {
          forall j | 0 < j < i + 1 ensures xs[j].None? { assert xs[j] == tail[j - 1]; }
        }
      }
      if exists i :: 0 <= i < |xs| && xs[i].Some? {
        var i :| 0 <= i < |xs| && xs[i].Some?;
        assert tail[i - 1] == xs[i];
      }
    }
  }

  /** The plate-text fields in the order the fallback chain tries them. */
  function PlateFields(d: Detection): seq<Option<string>> {
    [d.ocrPlateSpaced, d.ocrPlatePlain, d.ocrCanon, d.plateSpaced, d.plate]
  }

  /** `ocr.plate_spaced ?? ocr.plate_plain ?? ocr.canon ?? plate_spaced ?? plate`. */
  function PlateText(d: Detection): Option<string> {
    Nullish(d.ocrPlateSpaced, Nullish(d.ocrPlatePlain, Nullish(d.ocrCanon, Nullish(d.plateSpaced, d.plate))))
  }

  /** `expiry.human ?? expiry_human`. */
  function ExpiryText(d: Detection): Option<string> {
    Nullish(d.expiryHuman, d.flatExpiryHuman)
  }

  /** `detToPlateRow` at wall-clock instant `now`: rejected when the chosen plate text
      is missing or empty, otherwise a row of that text, its origin, the expiry text
      (or "—") and the days left from it. */
  function DetToPlateRow(d: Detection, now: Calendar.DateTime): (r: Option<PlateRow>)
    requires Calendar.ValidDateTime(now)
    ensures r.Some? <==> PlateText(d).Some? && PlateText(d).value != ""
    ensures r.Some? ==> r.value.plateNumber == PlateText(d).value
    ensures r.Some? ==> r.value.expiryDate == ExpiryText(d).GetOr("—")
    ensures r.Some? ==> r.value.timestamp == NowTimestamp(now)
    ensures r.Some? ==> RowDerived(r.value, now.date)
  {
    var spaced := PlateText(d);
    if spaced.None? || spaced.value == "" then None
    else
      var human := ExpiryText(d);
      var row := PlateRow(spaced.value, Origin(spaced.value), human.GetOr("—"),
                          DaysRemainingFromExpiry(human, now.date), NowTimestamp(now));
      assert human.None? ==> DaysRemainingFromExpiry(Some("—"), now.date).None?;
      Some(row)
  }

  /** The present values of a list, in order. */
  function Somes<T>(xs: seq<Option<T>>): seq<T> {
    if xs == [] then []
    else
      var earlier := Somes(xs[..|xs| - 1]);
      if xs[|xs| - 1].Some? then earlier + [xs[|xs| - 1].value] else earlier
  }

  /** `detToPlateRow` of every detection, in order. */
  function DetRows(dets: seq<Detection>, now: Calendar.DateTime): (rs: seq<Option<PlateRow>>)
    requires Calendar.ValidDateTime(now)
    ensures |rs| == |dets| && forall i :: 0 <= i < |dets| ==> rs[i] == DetToPlateRow(dets[i], now)
  {
    seq(|dets|, i requires 0 <= i < |dets| => DetToPlateRow(dets[i], now))
  }

  /** The rows of the detections `detToPlateRow` accepts, in order. */
  function AcceptedRows(dets: seq<Detection>, now: Calendar.DateTime): seq<PlateRow>
    requires Calendar.ValidDateTime(now)
  {
    Somes(DetRows(dets, now))
  }

  // ---------------------------------------------------------------------------
  // Properties

  /** The `??` chain picks the first field that is not null or undefined. */
  lemma PlateTextFirstPresent(d: Detection)
    ensures PlateText(d) == FirstPresent(PlateFields(d))
  {
    FirstPresentCons(d.plate, []);
    FirstPresentCons(d.plateSpaced, [d.plate]);
    FirstPresentCons(d.ocrCanon, [d.plateSpaced, d.plate]);
    FirstPresentCons(d.ocrPlatePlain, [d.ocrCanon, d.plateSpaced, d.plate]);
    FirstPresentCons(d.ocrPlateSpaced, [d.ocrPlatePlain, d.ocrCanon, d.plateSpaced, d.plate]);
  }

  lemma FirstPresentCons(x: Option<string>, rest: seq<Option<string>>)
    ensures FirstPresent([x] + rest) == Nullish(x, FirstPresent(rest))
  {
    assert ([x] + rest)[1..] == rest;
  }

  /** An empty earlier field stops the chain: a detection whose `ocr.plate_spaced`
      is "" is rejected whatever the later fields hold. */
  lemma EmptyStopsChain(d: Detection, now: Calendar.DateTime)
    requires Calendar.ValidDateTime(now)
    requires d.ocrPlateSpaced == Some("")
    ensures DetToPlateRow(d, now).None?
  {
  }

  /** A row is accepted exactly when some plate field is present and the first
      present one is not empty. */
  lemma AcceptedIff(d: Detection, now: Calendar.DateTime)
    requires Calendar.ValidDateTime(now)
    ensures DetToPlateRow(d, now).Some? <==>
      exists i :: 0 <= i < 5 && PlateFields(d)[i].Some? && PlateFields(d)[i].value != ""
                  && forall j :: 0 <= j < i ==> PlateFields(d)[j].None?
  {
    PlateTextFirstPresent(d);
    var xs := PlateFields(d);
    FirstPresentIndex(xs);
    if DetToPlateRow(d, now).Some? {
      var i :| 0 <= i < |xs| && xs[i] == PlateText(d) && forall j :: 0 <= j < i ==> xs[j].None?;
      assert xs[i].value != "";
    }
    if exists i :: 0 <= i < 5 && xs[i].Some? && xs[i].value != ""
                  && forall j :: 0 <= j < i ==> xs[j].None? {
      var i :| 0 <= i < 5 && xs[i].Some? && xs[i].value != "" && forall j :: 0 <= j < i ==> xs[j].None?;
      var k :| 0 <= k < |xs| && xs[k] == PlateText(d) && forall j :: 0 <= j < k ==> xs[j].None?;
      assert k == i;
    }
  }

  /** `Somes` keeps exactly the present values: each one comes from some index,
      and each present value is kept. */
  lemma {:induction false} SomesExact<T>(xs: seq<Option<T>>)
    ensures |Somes(xs)| <= |xs|
    ensures forall v :: v in Somes(xs) <==> Some(v) in xs
  {
    if xs != [] {
      var n := |xs| - 1;
      SomesExact(xs[..n]);
      assert xs == xs[..n] + [xs[n]];
      forall v ensures v in Somes(xs) <==> Some(v) in xs {
        assert Some(v) in xs <==> Some(v) in xs[..n] || xs[n] == Some(v);
      }
    }
  }

  /** Every accepted row is the row of one of the detections, every detection
      `detToPlateRow` accepts contributes its row, and there are at most as many rows
      as detections. */
  lemma AcceptedRowsExact(dets: seq<Detection>, now: Calendar.DateTime)
    requires Calendar.ValidDateTime(now)
    ensures |AcceptedRows(dets, now)| <= |dets|
    ensures forall r :: r in AcceptedRows(dets, now) <==> Some(r) in DetRows(dets, now)
  {
    SomesExact(DetRows(dets, now));
  }

  /** Accepted rows carry a non-empty plate number, and their origin and remaining
      days are derived from their own fields. */
  lemma AcceptedRowsDerived(dets: seq<Detection>, now: Calendar.DateTime)
    requires Calendar.ValidDateTime(now)
    ensures forall r :: r in AcceptedRows(dets, now) ==> r.plateNumber != "" && RowDerived(r, now.date)
  {
    AcceptedRowsExact(dets, now);
    var xs := DetRows(dets, now);
    forall r | r in AcceptedRows(dets, now) ensures r.plateNumber != "" && RowDerived(r, now.date) {
      var i :| 0 <= i < |xs| && xs[i] == Some(r);
    }
  }

  /** Accepting one more detection appends its row, if any. */
  lemma AcceptedRowsSnoc(dets: seq<Detection>, i: nat, now: Calendar.DateTime)
    requires Calendar.ValidDateTime(now) && i < |dets|
    ensures AcceptedRows(dets[..i + 1], now) ==
      AcceptedRows(dets[..i], now)
      + (if DetToPlateRow(dets[i], now).Some? then [DetToPlateRow(dets[i], now).value] else [])
  {
    var xs := DetRows(dets[..i + 1], now);
    assert xs[..|xs| - 1] == DetRows(dets[..i], now);
    assert xs[|xs| - 1] == DetToPlateRow(dets[i], now);
  }
}
