/** The image-upload page (`src/app/image/page.tsx`): every detection of the uploaded
    image becomes one row, and the whole list goes to the store. */
module ImagePage {
  import opened Wrappers
  import opened Plate
  import opened DetectStore
  import opened DetectionRow
  import Calendar

  /** `ocr.plate_spaced ?? ocr.canon ?? ""`. */
  function ImagePlateText(d: Detection): string {
    Nullish(d.ocrPlateSpaced, Nullish(d.ocrCanon, Some(""))).value
  }

  /** The row the page builds for one detection: "—" stands in for a missing or
      empty plate text, and the expiry comes from `expiry.human` alone. */
  function ImageRow(d: Detection, now: Calendar.DateTime): (r: PlateRow)
    requires Calendar.ValidDateTime(now)
    ensures r.plateNumber == if ImagePlateText(d) == "" then "—" else ImagePlateText(d)
    ensures r.expiryDate == d.expiryHuman.GetOr("—")
    ensures r.timestamp == NowTimestamp(now)
    ensures RowDerived(r, now.date)
  {
    var plateSpaced := ImagePlateText(d);
    var row := PlateRow(
      Truthy(Some(plateSpaced), Some("—")).value,
      Origin(Truthy(Some(plateSpaced), Some("")).value),
      d.expiryHuman.GetOr("—"),
      DaysRemainingFromExpiry(d.expiryHuman, now.date),
      NowTimestamp(now));
    assert plateSpaced == "" ==> Origin("—") == Origin("") by {
      if plateSpaced == "" { DashIsUnreadable(); }
    }
    assert d.expiryHuman.None? ==> DaysRemainingFromExpiry(Some("—"), now.date).None?;
    row
  }

  /** `detections.map(...)`: one row per detection, in order. */
  function ImageRows(dets: seq<Detection>, now: Calendar.DateTime): (rows: seq<PlateRow>)
    requires Calendar.ValidDateTime(now)
    ensures |rows| == |dets| && forall i :: 0 <= i < |dets| ==> rows[i] == ImageRow(dets[i], now)
  {
    seq(|dets|, i requires 0 <= i < |dets| => ImageRow(dets[i], now))
  }

  /** `predict` after a successful request: the rows go to the store even when there
      are none. */
  method Predict(store: Store, dets: seq<Detection>, now: Calendar.DateTime)
    requires Calendar.ValidDateTime(now)
    modifies store
    ensures store.results == AddManyResult(old(store.results), ImageRows(dets, now))
  {
    store.AddMany(ImageRows(dets, now));
  }

  // ---------------------------------------------------------------------------
  // Properties

  /** The placeholder "—" has nothing left after cleaning, so its origin is the one
      of the empty text: "Unknown". */
  lemma DashIsUnreadable()
    ensures Cleaned("—") == "" && Origin("—") == "Unknown" && Origin("") == "Unknown"
  {
    var dash := "—";
    assert dash[..0] == [];
    assert Clean(dash) == [];
  }

  /** A batch in which every row has the same plate number keeps its first row,
      unless that number was already seen. */
  lemma {:induction false} AdmittedSameKey(rows: seq<PlateRow>, seen: set<string>, key: string)
    requires forall i :: 0 <= i < |rows| ==> rows[i].plateNumber == key
    ensures Admitted(rows, seen) == if rows == [] || key in seen then [] else [rows[0]]
  {
    if rows != [] {
      var earlier := rows[..|rows| - 1];
      AdmittedSameKey(earlier, seen, key);
      if earlier != [] {
        assert earlier[0].plateNumber in Keys(earlier);
        assert earlier[0] == rows[0];
      }
    }
  }

  /** Several unreadable plates collapse into a single "—" row in the store, and none
      is added once a "—" row is there. */
  lemma UnreadableCollapse(current: seq<PlateRow>, dets: seq<Detection>, now: Calendar.DateTime)
    requires Calendar.ValidDateTime(now)
    requires |dets| > 0 && forall i :: 0 <= i < |dets| ==> ImagePlateText(dets[i]) == ""
    ensures AddManyResult(current, ImageRows(dets, now)) ==
      if "—" in Keys(current) then current else [ImageRow(dets[0], now)] + current
  {
    var rows := ImageRows(dets, now);
    forall i | 0 <= i < |rows| ensures rows[i].plateNumber == "—" {
      assert rows[i] == ImageRow(dets[i], now);
    }
    AdmittedSameKey(rows, Keys(current), "—");
    assert rows != [] && rows[0] == ImageRow(dets[0], now);
    if "—" in Keys(current) {
      assert Admitted(rows, Keys(current)) == [];
      assert AddManyResult(current, rows) == [] + current == current;
    } else {
      assert AddManyResult(current, rows) == [rows[0]] + current;
    }
  }

  /** Every row the page builds has its origin and remaining days derived from its
      own fields, and an unreadable plate's origin is "Unknown". */
  lemma ImageRowsDerived(dets: seq<Detection>, now: Calendar.DateTime)
    requires Calendar.ValidDateTime(now)
    ensures forall i :: 0 <= i < |dets| && ImagePlateText(dets[i]) == "" ==>
      ImageRows(dets, now)[i].plateNumber == "—" && ImageRows(dets, now)[i].plateOrigin == "Unknown"
  {
    DashIsUnreadable();
  }
}
