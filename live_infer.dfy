/** The post-processing of the live-frame pipeline (`src/pipelines/live_infer.py`):
    the lenient plate-text normaliser, which falls back to the canonical text, and the
    record built for each detection. The pattern, the digit table and the expiry
    search are those of the image pipeline. */
module LiveInfer {
  import opened Wrappers
  import opened Chars
  import opened ImageInfer
  import DetectionRow
  import Calendar

  /** `_normalize` of `live_infer.py`: the spaced form when the canonical text matches
      `PLATE_RE`, otherwise the canonical text itself, and nothing when that is empty. */
  function LenientNormalize(raw: string): (r: Option<string>)
    ensures r.None? <==> forall i :: 0 <= i < |raw| ==> !IsAlnum(raw[i])
    ensures PlateMatch(Canonical(raw)).Some? ==> r == StrictNormalize(Some(raw))
    ensures PlateMatch(Canonical(raw)).None? && r.Some? ==> r.value == Canonical(raw)
    ensures r.Some? ==> r.value != "" && RemoveSpaces(r.value) == Canonical(raw)
  {
    CanonicalEmpty(raw);
    if raw == "" then None
    else
      var canon := Canonical(raw);
      match PlateMatch(canon)
      case None =>
        if canon != "" then
          NoSpaces(canon);
          Some(canon)
        else None
      case Some(g) =>
        SpacedProps(g);
        Some(Spaced(g))
  }

  /** Normalising an output of the normaliser gives it back, whether it was the
      spaced form or the canonical fallback. */
  lemma LenientNormalizeIdempotent(raw: string)
    requires LenientNormalize(raw).Some?
    ensures LenientNormalize(LenientNormalize(raw).value) == LenientNormalize(raw)
  {
    var canon := Canonical(raw);
    var out := LenientNormalize(raw).value;
    match PlateMatch(canon)
    case None =>
      CanonicalFixed(canon);
      CanonicalEmpty(out);
    case Some(g) =>
      SpacedProps(g);
      CanonicalEmpty(out);
  }

  /** One detection record: `ocr.raw`, `ocr.canon`, `ocr.plate_plain`,
      `ocr.plate_spaced` and the expiry reading. */
  datatype LiveRecord = LiveRecord(box: Box, raw: string, canon: string, platePlain: string,
                                   plateSpaced: string, expiry: Option<Expiry>)

  /** The record of one detection and its crop. */
  function LiveRecordOf(det: Box, crop: CropReads): (rec: LiveRecord)
    ensures rec.box == det && rec.raw == RawText(crop).GetOr("")
    ensures rec.canon == rec.platePlain && rec.expiry == FirstExpiry(crop.expiryReads)
  {
    var raw := RawText(crop).GetOr("");
    var canon := if raw != "" then Canonical(raw) else "";
    var spaced := Truthy(LenientNormalize(raw), Some(canon)).value;
    LiveRecord(det, raw, canon, canon, spaced, FirstExpiry(crop.expiryReads))
  }

  /** What a live record holds: the first plate text, its canonical form as both
      `canon` and `plate_plain`, the normaliser's value as the spaced plate (empty
      exactly when `canon` is) and the first expiry reading of the sweep. */
  lemma LiveRecordProps(det: Box, crop: CropReads)
    ensures var rec := LiveRecordOf(det, crop);
      && rec.box == det
      && rec.raw == RawText(crop).GetOr("")
      && rec.canon == rec.platePlain == Canonical(rec.raw)
      && (rec.plateSpaced == "" <==> rec.canon == "")
      && (rec.plateSpaced != "" ==> Some(rec.plateSpaced) == LenientNormalize(rec.raw))
      && RemoveSpaces(rec.plateSpaced) == rec.canon
      && rec.expiry == FirstExpiry(crop.expiryReads)
  {
    var raw := RawText(crop).GetOr("");
    CanonicalEmpty(raw);
    NoSpaces(Canonical(raw));
  }

  /** The body of the loop of `run_live_frame` for one detection and its crop. */
  method LiveRecordFor(det: Box, crop: CropReads) returns (rec: LiveRecord)
    ensures rec == LiveRecordOf(det, crop)
  {
    var raw := RawText(crop).GetOr("");
    var canon := if raw != "" then Canonical(raw) else "";
    var spaced := Truthy(LenientNormalize(raw), Some(canon)).value;
    var expiry := ExpiryFromCrop(crop.expiryReads);
    rec := LiveRecord(det, raw, canon, canon, spaced, expiry);
  }

  /** The records of a frame's detections, in order: detection `i` is read with crop `i`. */
  function LiveRecords(dets: seq<Box>, crops: seq<CropReads>): seq<LiveRecord>
    requires |dets| <= |crops|
  {
    if dets == [] then []
    else LiveRecords(dets[..|dets| - 1], crops) + [LiveRecordOf(dets[|dets| - 1], crops[|dets| - 1])]
  }

  /** One record per detection, each built from that detection and its crop. */
  lemma {:induction false} LiveRecordsIndex(dets: seq<Box>, crops: seq<CropReads>)
    requires |dets| <= |crops|
    ensures |LiveRecords(dets, crops)| == |dets|
    ensures forall i :: 0 <= i < |dets| ==> LiveRecords(dets, crops)[i] == LiveRecordOf(dets[i], crops[i])
  {
    if dets != [] {
      var n := |dets| - 1;
      var init := dets[..n];
      LiveRecordsIndex(init, crops);
      var last := LiveRecordOf(dets[n], crops[n]);
      assert LiveRecords(dets, crops) == LiveRecords(init, crops) + [last];
      forall i | 0 <= i < |dets|
        ensures LiveRecords(dets, crops)[i] == LiveRecordOf(dets[i], crops[i])
      {
        if i < n {
          calc {
            LiveRecords(dets, crops)[i];
            LiveRecords(init, crops)[i];
            LiveRecordOf(init[i], crops[i]);
            { assert init[i] == dets[i]; }
            LiveRecordOf(dets[i], crops[i]);
          }
        } else {
          assert i == n;
          assert LiveRecords(dets, crops)[n] == last;
        }
      }
    }
  }

  /** The loop of `run_live_frame`: one record per detection, in order. The source
      indexes `crops` with each detection's position, so every detection needs a crop. */
  method RunLiveFrame(dets: seq<Box>, crops: seq<CropReads>) returns (out: seq<LiveRecord>)
    requires |dets| <= |crops|
    ensures out == LiveRecords(dets, crops)
  {
    out := [];
    for i := 0 to |dets|
      invariant out == LiveRecords(dets[..i], crops)
    {
      var rec := LiveRecordFor(dets[i], crops[i]);
      assert dets[..i + 1][..i] == dets[..i] && dets[..i + 1][i] == dets[i];
      assert LiveRecords(dets[..i + 1], crops) == LiveRecords(dets[..i], crops) + [rec];
      out := out + [rec];
    }
    assert dets[..|dets|] == dets;
  }

  /** The record as the live page reads it. */
  function LiveDetection(rec: LiveRecord): DetectionRow.Detection {
    DetectionRow.Detection(Some(rec.plateSpaced), Some(rec.platePlain), Some(rec.canon), None, None,
                           if rec.expiry.Some? then Some(rec.expiry.value.human) else None, None)
  }

  /** The live page keeps the row of a live record exactly when the plate text held
      an ASCII letter or digit, whether or not it had the plate shape; its expiry,
      when read, always gets a count of days. */
  lemma LiveRecordRow(det: Box, crop: CropReads, now: Calendar.DateTime)
    requires Calendar.ValidDateTime(now)
    ensures var rec := LiveRecordOf(det, crop);
      var row := DetectionRow.DetToPlateRow(LiveDetection(rec), now);
      (row.Some? <==> exists i :: 0 <= i < |rec.raw| && IsAlnum(rec.raw[i]))
      && (row.Some? ==> row.value.plateNumber == rec.plateSpaced)
      && (rec.expiry.Some? ==> row.Some? ==> row.value.expiryDate == rec.expiry.value.human
                                              && row.value.remaining.Some?)
  {
    var rec := LiveRecordOf(det, crop);
    LiveRecordProps(det, crop);
    CanonicalEmpty(rec.raw);
    var d := LiveDetection(rec);
    assert DetectionRow.PlateText(d) == Some(rec.plateSpaced);
    if rec.expiry.Some? {
      assert DetectionRow.ExpiryText(d) == Some(rec.expiry.value.human);
      var attempts := crop.expiryReads;
      FirstExpiryFirst(attempts);
      var a :| 0 <= a < |attempts| && attempts[a].Some? && FirstExpiry(attempts) == ExpiryFromTexts(attempts[a].value);
      ExpiryFromTextsProps(attempts[a].value, now.date);
    }
  }
}
