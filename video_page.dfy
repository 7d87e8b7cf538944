/** The video-upload page (`src/app/video/page.tsx`): the rows of every frame's
    detections and of the service's per-plate summary are merged into one row per
    plate number, preferring a row that carries an expiry, and the merged batch goes
    to the store. */
module VideoPage {
  import opened Wrappers
  import opened Plate
  import opened DetectStore
  import opened DetectionRow
  import Calendar

  /** `hasExpiry`: a row is present and its expiry text is neither empty nor "—". */
  predicate HasExpiry(row: Option<PlateRow>) {
    row.Some? && row.value.expiryDate != "" && row.value.expiryDate != "—"
  }

  /** `chooseBetter`: the new row `b` replaces the current one `a` only when `b`
      has an expiry and `a` does not. */
  function ChooseBetter(a: Option<PlateRow>, b: PlateRow): (r: PlateRow)
    ensures HasExpiry(Some(r)) <==> HasExpiry(a) || HasExpiry(Some(b))
    ensures a.None? ==> r == b
    ensures a.Some? && HasExpiry(a) ==> r == a.value
    ensures a.Some? && HasExpiry(a) == HasExpiry(Some(b)) ==> r == a.value
    ensures a.Some? && !HasExpiry(a) && HasExpiry(Some(b)) ==> r == b
  {
    if a.None? then b
    else if HasExpiry(Some(b)) && !HasExpiry(a) then b
    else a.value
  }

  /** Offering the same row again changes nothing. */
  lemma ChooseBetterIdempotent(a: Option<PlateRow>, b: PlateRow)
    ensures ChooseBetter(Some(ChooseBetter(a, b)), b) == ChooseBetter(a, b)
  {
  }

  /** One entry of the service's summary as the page reads it. */
  datatype SummaryEntry = SummaryEntry(plateSpaced: Option<string>, expiryHuman: Option<string>)

  /** The row built for a summary entry; entries without plate text are skipped.
      The expiry falls back to "—" with `||`, so an empty one does too. */
  function SummaryRow(p: SummaryEntry, now: Calendar.DateTime): (r: Option<PlateRow>)
    requires Calendar.ValidDateTime(now)
    ensures r.Some? <==> p.plateSpaced.Some? && p.plateSpaced.value != ""
    ensures r.Some? ==> r.value.plateNumber == p.plateSpaced.value
    ensures r.Some? ==> r.value.expiryDate ==
                        (if p.expiryHuman.Some? && p.expiryHuman.value != "" then p.expiryHuman.value else "—")
    ensures r.Some? ==> r.value.timestamp == NowTimestamp(now) && RowDerived(r.value, now.date)
  {
    if Truthy(p.plateSpaced, None).None? then None
    else
      var spaced := p.plateSpaced.value;
      var human := Truthy(p.expiryHuman, None);
      assert human.None? ==> DaysRemainingFromExpiry(Some("—"), now.date).None?;
      Some(PlateRow(spaced, Origin(spaced), Truthy(p.expiryHuman, Some("—")).value,
                    DaysRemainingFromExpiry(human, now.date), NowTimestamp(now)))
  }

  function SummaryRows(summary: seq<SummaryEntry>, now: Calendar.DateTime): (rs: seq<Option<PlateRow>>)
    requires Calendar.ValidDateTime(now)
    ensures |rs| == |summary| && forall i :: 0 <= i < |summary| ==> rs[i] == SummaryRow(summary[i], now)
  {
    seq(|summary|, i requires 0 <= i < |summary| => SummaryRow(summary[i], now))
  }

  /** The accepted rows of all frames, frame after frame. */
  function FramesRows(frames: seq<seq<Detection>>, now: Calendar.DateTime): seq<PlateRow>
    requires Calendar.ValidDateTime(now)
  {
    if frames == [] then []
    else FramesRows(frames[..|frames| - 1], now) + AcceptedRows(frames[|frames| - 1], now)
  }

  /** Every row the page merges, in the order it merges them. */
  function VideoRows(frames: seq<seq<Detection>>, summary: seq<SummaryEntry>, now: Calendar.DateTime): seq<PlateRow>
    requires Calendar.ValidDateTime(now)
  {
    FramesRows(frames, now) + Somes(SummaryRows(summary, now))
  }

  // ---------------------------------------------------------------------------
  // The byPlate map: a JavaScript Map, which keeps its keys in first-insertion order

  datatype PlateMap = PlateMap(order: seq<string>, rows: map<string, PlateRow>)

  const EmptyMap := PlateMap([], map[])

  /** The keys in `order` are distinct and are exactly the keys of `rows`. */
  ghost predicate Valid(m: PlateMap) {
    (forall i, j :: 0 <= i < j < |m.order| ==> m.order[i] != m.order[j])
    && (forall k :: k in m.rows <==> k in m.order)
  }

  /** `byPlate.get(key)`. */
  function Get(m: PlateMap, key: string): Option<PlateRow> {
    if key in m.rows then Some(m.rows[key]) else None
  }

  /** `byPlate.set(row.plateNumber, chooseBetter(byPlate.get(row.plateNumber), row))`. */
  function Upsert(m: PlateMap, row: PlateRow): PlateMap {
    var key := row.plateNumber;
    PlateMap(if key in m.rows then m.order else m.order + [key],
             m.rows[key := ChooseBetter(Get(m, key), row)])
  }

  /** The map after upserting every row, in order; it stays well formed. */
  function MergeAll(rows: seq<PlateRow>): (m: PlateMap)
    ensures Valid(m)
  {
    if rows == [] then EmptyMap
    else Upsert(MergeAll(rows[..|rows| - 1]), rows[|rows| - 1])
  }

  /** `Array.from(byPlate.values())`. */
  function Values(m: PlateMap): (vs: seq<PlateRow>)
    requires Valid(m)
    ensures |vs| == |m.order| && forall i :: 0 <= i < |vs| ==> vs[i] == m.rows[m.order[i]]
  {
    seq(|m.order|, i requires 0 <= i < |m.order| => m.rows[m.order[i]])
  }

  function PlateNumbers(rows: seq<PlateRow>): (ks: seq<string>)
    ensures |ks| == |rows| && forall i :: 0 <= i < |rows| ==> ks[i] == rows[i].plateNumber
  {
    seq(|rows|, i requires 0 <= i < |rows| => rows[i].plateNumber)
  }

  // ---------------------------------------------------------------------------
  // The reference the merge is proved against

  /** The first row for `key` that has an expiry. */
  function FirstWithExpiry(rows: seq<PlateRow>, key: string): (r: Option<PlateRow>)
    ensures r.Some? ==> r.value in rows && r.value.plateNumber == key && HasExpiry(r)
    ensures r.Some? ==> exists i :: 0 <= i < |rows| && rows[i] == r.value
                                   && forall j :: 0 <= j < i ==> !KeyWithExpiry(rows[j], key)
    ensures r.None? <==> forall i :: 0 <= i < |rows| ==> !KeyWithExpiry(rows[i], key)
  {
    if rows == [] then None
    else
      var n := |rows| - 1;
      var earlier := rows[..n];
      var first := FirstWithExpiry(earlier, key);
      var last := rows[n];
      assert forall i :: 0 <= i < n ==> earlier[i] == rows[i];
      if first.Some? then first
      else if KeyWithExpiry(last, key) then Some(last)
      else None
  }

  /** A row for `key` that has an expiry. */
  predicate KeyWithExpiry(row: PlateRow, key: string) {
    row.plateNumber == key && HasExpiry(Some(row))
  }

  /** The row the merge settles on for `key`: its first row with an expiry, else its
      first row. */
  function Best(rows: seq<PlateRow>, key: string): Option<PlateRow> {
    if FirstWithExpiry(rows, key).Some? then FirstWithExpiry(rows, key) else Lookup(rows, key)
  }

  // ---------------------------------------------------------------------------
  // The page

  /** The loop body of `handleUpload` over a list of candidate rows: each present
      row is upserted into `byPlate` (a new plate number also goes to the end of
      `order`, as a Map's insertion order does). */
  method MergeInto(order: seq<string>, byPlate: map<string, PlateRow>, ghost done: seq<PlateRow>,
                   rows: seq<Option<PlateRow>>)
    returns (order': seq<string>, byPlate': map<string, PlateRow>)
    requires PlateMap(order, byPlate) == MergeAll(done)
    ensures PlateMap(order', byPlate') == MergeAll(done + Somes(rows))
  {
    order', byPlate' := order, byPlate;
    assert rows[..0] == [] && done + [] == done;
    for i := 0 to |rows|
      invariant PlateMap(order', byPlate') == MergeAll(done + Somes(rows[..i]))
    {
      var before := done + Somes(rows[..i]);
      SomesSnoc(rows, i);
      if rows[i].Some? {
        var row := rows[i].value;
        MergeSnoc(before, row);
        assert done + Somes(rows[..i + 1]) == before + [row];
        var key := row.plateNumber;
        ghost var m := PlateMap(order', byPlate');
        var prev := if key in byPlate' then Some(byPlate'[key]) else None;
        if key !in byPlate' {
          order' := order' + [key];
        }
        byPlate' := byPlate'[key := ChooseBetter(prev, row)];
        assert PlateMap(order', byPlate') == Upsert(m, row);
      } else {
        assert done + Somes(rows[..i + 1]) == before;
      }
    }
    assert rows[..|rows|] == rows;
  }

  /** The frame loop and the summary loop of `handleUpload`, then the map's values. */
  method BuildBatch(frames: seq<seq<Detection>>, summary: seq<SummaryEntry>, now: Calendar.DateTime)
    returns (batch: seq<PlateRow>)
    requires Calendar.ValidDateTime(now)
    ensures batch == Values(MergeAll(VideoRows(frames, summary, now)))
  {
    var order: seq<string> := [];
    var byPlate: map<string, PlateRow> := map[];
    assert frames[..0] == [];
    for f := 0 to |frames|
      invariant PlateMap(order, byPlate) == MergeAll(FramesRows(frames[..f], now))
    {
      order, byPlate := MergeInto(order, byPlate, FramesRows(frames[..f], now), DetRows(frames[f], now));
      assert frames[..f + 1][..f] == frames[..f];
    }
    assert frames[..|frames|] == frames;
    order, byPlate := MergeInto(order, byPlate, FramesRows(frames, now), SummaryRows(summary, now));
    batch := Values(PlateMap(order, byPlate));
  }

  /** `handleUpload` after a successful request: the batch goes to the store only
      when it holds a row. */
  method HandleUpload(store: Store, frames: seq<seq<Detection>>, summary: seq<SummaryEntry>,
                      now: Calendar.DateTime)
    requires Calendar.ValidDateTime(now)
    modifies store
    ensures store.results ==
      AddManyResult(old(store.results), Values(MergeAll(VideoRows(frames, summary, now))))
  {
    var batch := BuildBatch(frames, summary, now);
    if |batch| > 0 {
      store.AddMany(batch);
    } else {
      AddManyGrowth(store.results, batch);
    }
  }

  // ---------------------------------------------------------------------------
  // Properties

  /** Merging one more row is one more upsert. */
  lemma MergeSnoc(rows: seq<PlateRow>, row: PlateRow)
    ensures MergeAll(rows + [row]) == Upsert(MergeAll(rows), row)
  {
    assert (rows + [row])[..|rows|] == rows;
  }

  lemma SomesSnoc<T>(xs: seq<Option<T>>, i: nat)
    requires i < |xs|
    ensures Somes(xs[..i + 1]) == Somes(xs[..i]) + (if xs[i].Some? then [xs[i].value] else [])
  {
    assert xs[..i + 1][..i] == xs[..i];
  }

  lemma PlateNumbersSnoc(rows: seq<PlateRow>, r: PlateRow)
    ensures PlateNumbers(rows + [r]) == PlateNumbers(rows) + [r.plateNumber]
  {
  }

  /** The map's keys are the plate numbers of the merged rows. */
  lemma {:induction false} MergeAllKeys(rows: seq<PlateRow>)
    ensures MergeAll(rows).rows.Keys == Keys(rows)
  {
    if rows != [] {
      var earlier := rows[..|rows| - 1];
      var r := rows[|rows| - 1];
      MergeAllKeys(earlier);
      assert rows == earlier + [r];
      KeysAppend(earlier, [r]);
      KeysSingle(r);
    }
  }

  /** The map's order lists the plate numbers in order of first appearance: exactly
      the plate numbers of the rows `addMany` would keep. */
  lemma {:induction false} MergeAllOrder(rows: seq<PlateRow>)
    ensures MergeAll(rows).order == PlateNumbers(Admitted(rows, {}))
  {
    if rows != [] {
      var earlier := rows[..|rows| - 1];
      var r := rows[|rows| - 1];
      MergeAllOrder(earlier);
      MergeAllKeys(earlier);
      if r.plateNumber !in Keys(earlier) {
        PlateNumbersSnoc(Admitted(earlier, {}), r);
      }
    }
  }

  /** The merged row for each plate number is its first row with an expiry, or
      its first row when none has one. */
  lemma {:induction false} MergeAllBest(rows: seq<PlateRow>, key: string)
    ensures Get(MergeAll(rows), key) == Best(rows, key)
  {
    if rows != [] {
      var earlier := rows[..|rows| - 1];
      var r := rows[|rows| - 1];
      MergeAllBest(earlier, key);
      MergeAllKeys(earlier);
      assert rows == earlier + [r];
      KeysAppend(earlier, [r]);
      KeysSingle(r);
      BestHasExpiry(earlier, key);
    }
  }

  /** The settled row has an expiry exactly when some row for the key has one. */
  lemma BestHasExpiry(rows: seq<PlateRow>, key: string)
    ensures Best(rows, key).Some? <==> key in Keys(rows)
    ensures HasExpiry(Best(rows, key)) <==> FirstWithExpiry(rows, key).Some?
  {
  }

  /** A row with an expiry, once merged, is never replaced by a later frame or
      summary row. */
  lemma ExpiryNeverLost(rows: seq<PlateRow>, more: seq<PlateRow>, key: string)
    requires HasExpiry(Get(MergeAll(rows), key))
    ensures Get(MergeAll(rows + more), key) == Get(MergeAll(rows), key)
  {
    MergeAllBest(rows, key);
    MergeAllBest(rows + more, key);
    BestHasExpiry(rows, key);
    FirstWithExpiryPrefix(rows, more, key);
  }

  lemma {:induction false} FirstWithExpiryPrefix(rows: seq<PlateRow>, more: seq<PlateRow>, key: string)
    requires FirstWithExpiry(rows, key).Some?
    ensures FirstWithExpiry(rows + more, key) == FirstWithExpiry(rows, key)
  {
    if more == [] {
      assert rows + more == rows;
    } else {
      var m := more[..|more| - 1];
      FirstWithExpiryPrefix(rows, m, key);
      assert (rows + more)[..|rows + more| - 1] == rows + m;
    }
  }

  /** The submitted batch holds one row per distinct plate number of the merged rows,
      in order of first appearance. */
  lemma BatchOnePerPlate(rows: seq<PlateRow>)
    ensures Unique(Values(MergeAll(rows)))
    ensures PlateNumbers(Values(MergeAll(rows))) == PlateNumbers(Admitted(rows, {}))
  {
    MergeAllOrder(rows);
    var m := MergeAll(rows);
    var vs := Values(m);
    forall k | k in m.rows ensures m.rows[k].plateNumber == k {
      MergeAllBest(rows, k);
      BestHasExpiry(rows, k);
    }
    assert PlateNumbers(vs) == m.order;
  }
}
