/** One tick of the live-camera page (`src/app/live/page.tsx`): the detections of a
    frame become a batch with one row per plate number, which goes to the store when
    it is not empty. Camera, canvas, timer and request handling are not modelled. */
module LivePage {
  import opened Wrappers
  import opened Plate
  import opened DetectStore
  import opened DetectionRow
  import Calendar

  /** The rows the frame loop keeps: the accepted rows, first row per plate number. */
  function FrameRows(dets: seq<Detection>, now: Calendar.DateTime): seq<PlateRow>
    requires Calendar.ValidDateTime(now)
  {
    Admitted(AcceptedRows(dets, now), {})
  }

  /** One more accepted row: the batch gains it exactly when its plate number is new,
      and the plate numbers seen gain that number. */
  lemma AdmitOne(prev: seq<PlateRow>, r: PlateRow)
    ensures Admitted(prev + [r], {}) ==
      if r.plateNumber in Keys(prev) then Admitted(prev, {}) else Admitted(prev, {}) + [r]
    ensures Keys(prev + [r]) == Keys(prev) + {r.plateNumber}
  {
    var next := prev + [r];
    assert next[..|next| - 1] == prev && next[|next| - 1] == r;
    KeysAppend(prev, [r]);
    KeysSingle(r);
  }

  /** The loop of `tick` over one frame's detections: rejected detections and plate
      numbers already in the batch are skipped. */
  method FrameBatch(dets: seq<Detection>, now: Calendar.DateTime) returns (batch: seq<PlateRow>)
    requires Calendar.ValidDateTime(now)
    ensures batch == FrameRows(dets, now)
  {
    batch := [];
    var seen: set<string> := {};
    ghost var done: seq<PlateRow> := [];
    for i := 0 to |dets|
      invariant done == AcceptedRows(dets[..i], now)
      invariant seen == Keys(done)
      invariant batch == Admitted(done, {})
    {
      AcceptedRowsSnoc(dets, i, now);
      var row := DetToPlateRow(dets[i], now);
      if row.Some? {
        AdmitOne(done, row.value);
        if row.value.plateNumber !in seen {
          seen := seen + {row.value.plateNumber};
          batch := batch + [row.value];
        }
        done := done + [row.value];
      }
    }
    assert dets[..|dets|] == dets;
  }

  /** `tick` after a successful request: the batch goes to the store only when it
      holds a row. */
  method Tick(store: Store, dets: seq<Detection>, now: Calendar.DateTime)
    requires Calendar.ValidDateTime(now)
    modifies store
    ensures store.results == AddManyResult(old(store.results), FrameRows(dets, now))
  {
    var batch := FrameBatch(dets, now);
    if |batch| > 0 {
      store.AddMany(batch);
    } else {
      AddManyGrowth(store.results, batch);
    }
  }

  // ---------------------------------------------------------------------------
  // Properties

  /** A frame's batch never holds two rows for one plate number; it holds one row
      for each accepted plate number, and that row is the one of the first detection
      carrying it. */
  lemma FrameRowsProps(dets: seq<Detection>, now: Calendar.DateTime, key: string)
    requires Calendar.ValidDateTime(now)
    ensures Unique(FrameRows(dets, now))
    ensures Keys(FrameRows(dets, now)) == Keys(AcceptedRows(dets, now))
    ensures Lookup(FrameRows(dets, now), key) == Lookup(AcceptedRows(dets, now), key)
  {
    AdmittedProps(AcceptedRows(dets, now), {});
    AdmittedLookup(AcceptedRows(dets, now), {}, key);
  }

  /** Every batch row is the row of an accepted detection. */
  lemma FrameRowsFromDetections(dets: seq<Detection>, now: Calendar.DateTime)
    requires Calendar.ValidDateTime(now)
    ensures forall r :: r in FrameRows(dets, now) ==> Some(r) in DetRows(dets, now)
  {
    AdmittedProps(AcceptedRows(dets, now), {});
    AcceptedRowsExact(dets, now);
  }

  /** Deduplicating the frame before `addMany` gives the same store as handing it
      every accepted row: the store keeps the first row per plate number either way. */
  lemma {:induction false} AdmittedTwice(rows: seq<PlateRow>, seen: set<string>)
    ensures Admitted(Admitted(rows, {}), seen) == Admitted(rows, seen)
  {
    if rows != [] {
      var earlier := rows[..|rows| - 1];
      var r := rows[|rows| - 1];
      AdmittedTwice(earlier, seen);
      var once := Admitted(earlier, {});
      AdmittedProps(earlier, {});
      if r.plateNumber !in Keys(earlier) {
        var next := once + [r];
        assert next[..|next| - 1] == once;
      }
    }
  }

  lemma TickSameAsAllRows(current: seq<PlateRow>, dets: seq<Detection>, now: Calendar.DateTime)
    requires Calendar.ValidDateTime(now)
    ensures AddManyResult(current, FrameRows(dets, now)) == AddManyResult(current, AcceptedRows(dets, now))
  {
    AdmittedTwice(AcceptedRows(dets, now), Keys(current));
  }
}
