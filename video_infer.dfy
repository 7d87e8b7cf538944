/** The video pipeline (`src/pipelines/video_infer.py`): the sampling schedule, the
    frame list, and the `seen`/`counts` summary that keeps one entry per plate text
    with its first and last sighting, its best confidence and its number of
    sightings. Reading a frame and running the image pipeline on it are inputs: each
    sample time comes with its `FrameOutcome`. */
module VideoInfer {
  import opened Wrappers
  import opened ImageInfer
  import VideoPage
  import Plate
  import Calendar

  // ---------------------------------------------------------------------------
  // Sampling

  /** The number of times `range(0, end_sec + 1, step)` yields. */
  function SampleCount(endSec: int, step: nat): nat
    requires step >= 1
  {
    if endSec < 0 then 0 else endSec / step + 1
  }

  /** The sample times `range(0, end_sec + 1, step)`. */
  function Samples(endSec: int, step: nat): (ts: seq<nat>)
    requires step >= 1
    ensures |ts| == SampleCount(endSec, step)
  {
    seq(SampleCount(endSec, step), n requires 0 <= n => (n as nat) * step)
  }

  lemma MulMonotone(a: nat, b: nat, step: nat)
    requires a < b && step >= 1
    ensures a * step < b * step
  {
    assert b * step == a * step + (b - a) * step;
    assert (b - a) * step >= step by {
      assert (b - a) * step == (b - a - 1) * step + step;
    }
  }

  /** The samples are 0, step, 2 * step, ..., in increasing order, all at most
      `end_sec`, and the next multiple of the step would pass it. */
  lemma SamplesProps(endSec: int, step: nat)
    requires step >= 1
    ensures var ts := Samples(endSec, step);
      (forall n :: 0 <= n < |ts| ==> ts[n] == n * step && ts[n] <= endSec)
      && (forall i, j :: 0 <= i < j < |ts| ==> ts[i] < ts[j])
      && |ts| * step > endSec
      && (endSec >= 0 ==> |ts| > 0 && ts[0] == 0)
  {
    var ts := Samples(endSec, step);
    if endSec >= 0 {
      var q := endSec / step;
      assert endSec == q * step + endSec % step;
      forall n | 0 <= n < |ts| ensures ts[n] <= endSec {
        if n < q { MulMonotone(n, q, step); }
      }
      assert |ts| * step == q * step + step;
    }
    forall i, j | 0 <= i < j < |ts| ensures ts[i] < ts[j] {
      MulMonotone(i, j, step);
    }
  }

  // ---------------------------------------------------------------------------
  // Frames

  /** What happens at one sample time: the frame cannot be read, the image pipeline
      raises with a message, or it returns its detection records. */
  datatype FrameOutcome = Unreadable | Failed(error: string) | Inferred(dets: seq<ImageRecord>)

  /** A frame record: `t_sec`, `detections` and, for a failed frame, `error`. */
  datatype FrameRec = FrameRec(t: nat, dets: seq<ImageRecord>, error: Option<string>)

  /** The record a sample time leaves in `frames`, if any. */
  function FrameOf(t: nat, o: FrameOutcome): (f: Option<FrameRec>)
    ensures f.None? <==> o.Unreadable?
    ensures f.Some? ==> f.value.t == t
    ensures o.Failed? ==> f == Some(FrameRec(t, [], Some(o.error)))
    ensures o.Inferred? ==> f == Some(FrameRec(t, o.dets, None))
  {
    match o
    case Unreadable => None
    case Failed(e) => Some(FrameRec(t, [], Some(e)))
    case Inferred(ds) => Some(FrameRec(t, ds, None))
  }

  /** The frame list after the sample times `ts` with outcomes `os`. */
  function FramesOf(ts: seq<nat>, os: seq<FrameOutcome>): seq<FrameRec>
    requires |ts| == |os|
  {
    if ts == [] then []
    else
      var n := |ts| - 1;
      var f := FrameOf(ts[n], os[n]);
      FramesOf(ts[..n], os[..n]) + (if f.Some? then [f.value] else [])
  }

  predicate Increasing(ts: seq<nat>) {
    forall i, j :: 0 <= i < j < |ts| ==> ts[i] < ts[j]
  }

  /** Every frame record carries one of the sample times, and the list has one
      record per readable frame. */
  lemma {:induction false} FramesTimes(ts: seq<nat>, os: seq<FrameOutcome>, bound: int)
    requires |ts| == |os| && forall i :: 0 <= i < |ts| ==> ts[i] < bound
    ensures forall k :: 0 <= k < |FramesOf(ts, os)| ==> FramesOf(ts, os)[k].t < bound
    ensures |FramesOf(ts, os)| <= |ts|
  {
    if ts != [] {
      var n := |ts| - 1;
      FramesTimes(ts[..n], os[..n], bound);
    }
  }

  /** The frame list is in increasing time order. */
  lemma {:induction false} FramesIncreasing(ts: seq<nat>, os: seq<FrameOutcome>)
    requires |ts| == |os| && Increasing(ts)
    ensures forall i, j :: 0 <= i < j < |FramesOf(ts, os)| ==> FramesOf(ts, os)[i].t < FramesOf(ts, os)[j].t
  {
    if ts != [] {
      var n := |ts| - 1;
      FramesIncreasing(ts[..n], os[..n]);
      FramesTimes(ts[..n], os[..n], ts[n]);
    }
  }

  // ---------------------------------------------------------------------------
  // Sightings

  /** The summary key of a detection: `ocr.plate_spaced`, else `ocr.plate_plain`,
      else "" (`or` skips missing and empty values alike). */
  function Key(d: ImageRecord): (k: string)
    ensures k == "" <==> (d.plateSpaced.None? || d.plateSpaced.value == "")
                         && (d.platePlain.None? || d.platePlain.value == "")
    ensures k != "" ==> Some(k) == d.plateSpaced
                        || (Some(k) == d.platePlain && (d.plateSpaced.None? || d.plateSpaced.value == ""))
  {
    Truthy(d.plateSpaced, Truthy(d.platePlain, Some(""))).value
  }

  /** `float(d.get("conf", 0.0))`. */
  function Conf(d: ImageRecord): real {
    d.box.conf.GetOr(0.0)
  }

  /** For an image-pipeline record the key is its spaced plate, or "" when the plate
      did not match. */
  lemma KeyOfImageRecord(det: Box, crop: CropReads)
    ensures Key(ImageRecordOf(det, crop)) == ImageRecordOf(det, crop).plateSpaced.GetOr("")
  {
  }

  /** One detection with a non-empty key, seen at time `t` with confidence `conf`. */
  datatype Sighting = Sighting(key: string, t: nat, conf: real)

  /** The sighting of one detection at time `t`: none when its key is empty. */
  function DetSighting(d: ImageRecord, t: nat): (xs: seq<Sighting>)
    ensures |xs| <= 1
    ensures |xs| == 1 <==> Key(d) != ""
    ensures forall i :: 0 <= i < |xs| ==> xs[i] == Sighting(Key(d), t, Conf(d))
  {
    if Key(d) != "" then [Sighting(Key(d), t, Conf(d))] else []
  }

  /** The sightings of one frame's detections; a detection with an empty key
      contributes nothing. */
  function DetSightings(ds: seq<ImageRecord>, t: nat): (xs: seq<Sighting>)
    ensures forall i :: 0 <= i < |xs| ==> xs[i].key != "" && xs[i].t == t
  {
    if ds == [] then []
    else DetSightings(ds[..|ds| - 1], t) + DetSighting(ds[|ds| - 1], t)
  }

  lemma DetSightingsSnoc(done: seq<Sighting>, ds: seq<ImageRecord>, i: nat, t: nat)
    requires i < |ds|
    ensures done + DetSightings(ds[..i + 1], t) == (done + DetSightings(ds[..i], t)) + DetSighting(ds[i], t)
  {
    assert ds[..i + 1][..i] == ds[..i];
  }

  /** The sightings one sample time contributes: the detections of an inferred frame
      when `dedupe` is on, and nothing otherwise. */
  function FrameSightings(t: nat, o: FrameOutcome, dedupe: bool): (xs: seq<Sighting>)
    ensures !dedupe || !o.Inferred? ==> xs == []
    ensures forall i :: 0 <= i < |xs| ==> xs[i].key != "" && xs[i].t == t
  {
    if dedupe && o.Inferred? then DetSightings(o.dets, t) else []
  }

  /** The sightings the summary loop goes through: those of every frame the image
      pipeline read, when `dedupe` is on, and none otherwise. */
  function SightingsOf(ts: seq<nat>, os: seq<FrameOutcome>, dedupe: bool): (xs: seq<Sighting>)
    requires |ts| == |os|
    ensures forall i :: 0 <= i < |xs| ==> xs[i].key != ""
  {
    if ts == [] then []
    else
      var n := |ts| - 1;
      SightingsOf(ts[..n], os[..n], dedupe) + FrameSightings(ts[n], os[n], dedupe)
  }

  lemma SightingsOfSnoc(ts: seq<nat>, os: seq<FrameOutcome>, dedupe: bool, n: nat)
    requires |ts| == |os| && n < |ts|
    ensures SightingsOf(ts[..n + 1], os[..n + 1], dedupe)
            == SightingsOf(ts[..n], os[..n], dedupe) + FrameSightings(ts[n], os[n], dedupe)
    ensures var f := FrameOf(ts[n], os[n]);
      FramesOf(ts[..n + 1], os[..n + 1]) == FramesOf(ts[..n], os[..n]) + (if f.Some? then [f.value] else [])
  {
    assert ts[..n + 1][..n] == ts[..n] && os[..n + 1][..n] == os[..n];
  }

  /** With `dedupe` off there are no sightings. */
  lemma {:induction false} NoDedupeNoSightings(ts: seq<nat>, os: seq<FrameOutcome>)
    requires |ts| == |os|
    ensures SightingsOf(ts, os, false) == []
  {
    if ts != [] {
      var n := |ts| - 1;
      NoDedupeNoSightings(ts[..n], os[..n]);
    }
  }

  /** A failed frame adds its record, with no detections and its message, and adds
      no sighting. */
  lemma FailedFrame(ts: seq<nat>, os: seq<FrameOutcome>, dedupe: bool, n: nat)
    requires |ts| == |os| && n < |ts| && os[n].Failed?
    ensures SightingsOf(ts[..n + 1], os[..n + 1], dedupe) == SightingsOf(ts[..n], os[..n], dedupe)
    ensures FramesOf(ts[..n + 1], os[..n + 1]) == FramesOf(ts[..n], os[..n]) + [FrameRec(ts[n], [], Some(os[n].error))]
  {
    assert ts[..n + 1][..n] == ts[..n] && os[..n + 1][..n] == os[..n];
  }

  predicate TimesSorted(xs: seq<Sighting>) {
    forall i, j :: 0 <= i < j < |xs| ==> xs[i].t <= xs[j].t
  }

  lemma {:induction false} SightingsTimes(ts: seq<nat>, os: seq<FrameOutcome>, dedupe: bool, bound: int)
    requires |ts| == |os| && forall i :: 0 <= i < |ts| ==> ts[i] <= bound
    ensures forall k :: 0 <= k < |SightingsOf(ts, os, dedupe)| ==> SightingsOf(ts, os, dedupe)[k].t <= bound
  {
    if ts != [] {
      var n := |ts| - 1;
      SightingsTimes(ts[..n], os[..n], dedupe, bound);
    }
  }

  /** Sightings come in time order. */
  lemma {:induction false} SightingsSorted(ts: seq<nat>, os: seq<FrameOutcome>, dedupe: bool)
    requires |ts| == |os| && Increasing(ts)
    ensures TimesSorted(SightingsOf(ts, os, dedupe))
  {
    if ts != [] {
      var n := |ts| - 1;
      SightingsSorted(ts[..n], os[..n], dedupe);
      SightingsTimes(ts[..n], os[..n], dedupe, ts[n]);
    }
  }

  // ---------------------------------------------------------------------------
  // The summary

  /** An entry of `seen`. */
  datatype Seen = Seen(plateSpaced: string, bestConf: real, firstSeen: nat, lastSeen: nat)

  /** The loop state: the keys of `seen` in insertion order (the order a Python dict
      iterates in), `seen` and `counts`. */
  datatype Summary = Summary(order: seq<string>, seen: map<string, Seen>, counts: map<string, nat>)

  function Distinct(ks: seq<string>): bool {
    forall i, j :: 0 <= i < j < |ks| ==> ks[i] != ks[j]
  }

  /** The elements of a list of keys. */
  function Elems(ks: seq<string>): (e: set<string>)
    ensures forall i :: 0 <= i < |ks| ==> ks[i] in e
  {
    if ks == [] then {} else Elems(ks[..|ks| - 1]) + {ks[|ks| - 1]}
  }

  lemma {:induction false} ElemsIndex(ks: seq<string>, k: string)
    requires k in Elems(ks)
    ensures exists i :: 0 <= i < |ks| && ks[i] == k
  {
    var n := |ks| - 1;
    if ks[n] != k {
      ElemsIndex(ks[..n], k);
      var i :| 0 <= i < n && ks[..n][i] == k;
      assert ks[i] == k;
    }
  }

  lemma ElemsSnoc(ks: seq<string>, k: string)
    ensures Elems(ks + [k]) == Elems(ks) + {k}
  {
    assert (ks + [k])[..|ks|] == ks;
  }

  /** The two dicts have the same keys, and the order lists each of them once. */
  ghost predicate Valid(s: Summary) {
    Distinct(s.order) && Elems(s.order) == s.seen.Keys && s.seen.Keys == s.counts.Keys
  }

  /** One sighting: a new key gets an entry with this time as first and last sighting,
      this confidence as the best and a count of 1; a known key counts one more, moves
      its last sighting to this time and keeps the larger confidence (an equal one
      keeps the earlier). */
  function Observe(s: Summary, x: Sighting): (r: Summary)
    requires Valid(s)
    ensures Valid(r)
  {
    if x.key !in s.seen then
      ElemsSnoc(s.order, x.key);
      assert forall i :: 0 <= i < |s.order| ==> s.order[i] != x.key;
      Summary(s.order + [x.key], s.seen[x.key := Seen(x.key, x.conf, x.t, x.t)], s.counts[x.key := 1])
    else
      var e := s.seen[x.key];
      var best := if x.conf > e.bestConf then x.conf else e.bestConf;
      Summary(s.order, s.seen[x.key := Seen(e.plateSpaced, best, e.firstSeen, x.t)],
              s.counts[x.key := s.counts[x.key] + 1])
  }

  /** The entry and count of a known key after one more sighting. */
  lemma ObserveKnown(s: Summary, x: Sighting, k: string)
    requires Valid(s) && k in s.seen
    ensures k in Observe(s, x).seen && k in Observe(s, x).counts
    ensures Observe(s, x).seen[k] ==
      if x.key == k then
        Seen(s.seen[k].plateSpaced, if x.conf > s.seen[k].bestConf then x.conf else s.seen[k].bestConf,
             s.seen[k].firstSeen, x.t)
      else s.seen[k]
    ensures Observe(s, x).counts[k] == s.counts[k] + (if x.key == k then 1 else 0)
  {
  }

  /** The entry and count of a new key after its first sighting. */
  lemma ObserveNew(s: Summary, x: Sighting)
    requires Valid(s) && x.key !in s.seen
    ensures x.key in Observe(s, x).seen && x.key in Observe(s, x).counts
    ensures Observe(s, x).seen[x.key] == Seen(x.key, x.conf, x.t, x.t)
    ensures Observe(s, x).counts[x.key] == 1
  {
  }

  /** The summary state after a list of sightings. */
  function Aggregate(xs: seq<Sighting>): (s: Summary)
    ensures Valid(s)
  {
    if xs == [] then Summary([], map[], map[])
    else Observe(Aggregate(xs[..|xs| - 1]), xs[|xs| - 1])
  }

  lemma AggregateSnoc(xs: seq<Sighting>, x: Sighting)
    ensures Aggregate(xs + [x]) == Observe(Aggregate(xs), x)
  {
    assert (xs + [x])[..|xs|] == xs;
  }

  /** A summary item: the entry of `seen` with `occurrences` added. */
  datatype SummaryItem = SummaryItem(plateSpaced: string, bestConf: real, firstSeen: nat, lastSeen: nat,
                                     occurrences: nat)

  /** `[{**v, "occurrences": counts.get(k, 1)} for k, v in seen.items()]`. */
  function Plates(s: Summary): (ps: seq<SummaryItem>)
    requires Valid(s)
    ensures |ps| == |s.order|
  {
    seq(|s.order|, i requires 0 <= i < |s.order| =>
      var k := s.order[i];
      var v := s.seen[k];
      SummaryItem(v.plateSpaced, v.bestConf, v.firstSeen, v.lastSeen, if k in s.counts then s.counts[k] else 1))
  }

  // ---------------------------------------------------------------------------
  // Reference definitions of what the summary holds

  /** The keys of a list of sightings. */
  function KeysOf(xs: seq<Sighting>): (ks: set<string>)
    ensures forall i :: 0 <= i < |xs| ==> xs[i].key in ks
  {
    if xs == [] then {} else KeysOf(xs[..|xs| - 1]) + {xs[|xs| - 1].key}
  }

  /** The number of sightings of `k`. */
  function Count(xs: seq<Sighting>, k: string): nat {
    if xs == [] then 0 else Count(xs[..|xs| - 1], k) + (if xs[|xs| - 1].key == k then 1 else 0)
  }

  /** The position of the first sighting of `k`. */
  function First(xs: seq<Sighting>, k: string): (p: nat)
    requires k in KeysOf(xs)
    ensures p < |xs| && xs[p].key == k && forall i :: 0 <= i < p ==> xs[i].key != k
  {
    var n := |xs| - 1;
    if k in KeysOf(xs[..n]) then First(xs[..n], k) else n
  }

  /** The position of the last sighting of `k`. */
  function Last(xs: seq<Sighting>, k: string): (p: nat)
    requires k in KeysOf(xs)
    ensures p < |xs| && xs[p].key == k && forall i :: p < i < |xs| ==> xs[i].key != k
  {
    var n := |xs| - 1;
    if xs[n].key == k then n else Last(xs[..n], k)
  }

  /** The summary has an entry exactly for the keys sighted, listed in the order of
      their first sightings. */
  lemma {:induction false} AggregateKeys(xs: seq<Sighting>)
    ensures Aggregate(xs).seen.Keys == KeysOf(xs)
    ensures forall i, j :: 0 <= i < j < |Aggregate(xs).order| ==>
      First(xs, Aggregate(xs).order[i]) < First(xs, Aggregate(xs).order[j])
  {
    if xs != [] {
      var n := |xs| - 1;
      var prev := xs[..n];
      AggregateKeys(prev);
      var s := Aggregate(prev);
      assert Aggregate(xs) == Observe(s, xs[n]);
      var o := Aggregate(xs).order;
      forall k | k in KeysOf(prev) ensures First(xs, k) == First(prev, k) { }
      forall i, j | 0 <= i < j < |o| ensures First(xs, o[i]) < First(xs, o[j]) {
        assert o[i] in s.seen;
        if j < |s.order| {
          assert o[j] == s.order[j];
        } else {
          assert o[j] == xs[n].key && o[j] !in KeysOf(prev);
        }
      }
    }
  }

  /** Each entry counts the sightings of its key, and holds the times of its first
      and last sightings. */
  lemma {:induction false} AggregateEntry(xs: seq<Sighting>, k: string)
    requires k in KeysOf(xs)
    ensures k in Aggregate(xs).seen
    ensures Aggregate(xs).seen[k].plateSpaced == k
    ensures Aggregate(xs).counts[k] == Count(xs, k)
    ensures Aggregate(xs).seen[k].firstSeen == xs[First(xs, k)].t
    ensures Aggregate(xs).seen[k].lastSeen == xs[Last(xs, k)].t
  {
    var n := |xs| - 1;
    var prev, x := xs[..n], xs[n];
    var s := Aggregate(prev);
    assert Aggregate(xs) == Observe(s, x);
    AggregateKeys(prev);
    if k in KeysOf(prev) {
      AggregateEntry(prev, k);
      ObserveKnown(s, x, k);
      assert xs[First(prev, k)] == prev[First(prev, k)];
      if x.key != k {
        assert xs[Last(prev, k)] == prev[Last(prev, k)];
      }
    } else {
      CountAbsent(prev, k);
      ObserveNew(s, x);
    }
  }

  lemma {:induction false} CountAbsent(xs: seq<Sighting>, k: string)
    requires k !in KeysOf(xs)
    ensures Count(xs, k) == 0
  {
    if xs != [] {
      CountAbsent(xs[..|xs| - 1], k);
    }
  }

  /** `b` is the largest confidence `k` was sighted with in `xs`. */
  ghost predicate IsBest(xs: seq<Sighting>, k: string, b: real) {
    (forall i :: 0 <= i < |xs| && xs[i].key == k ==> xs[i].conf <= b)
    && (exists i :: 0 <= i < |xs| && xs[i].key == k && xs[i].conf == b)
  }

  /** Each entry's confidence is the largest confidence its key was sighted with. */
  lemma {:induction false} AggregateBest(xs: seq<Sighting>, k: string)
    requires k in KeysOf(xs)
    ensures k in Aggregate(xs).seen
    ensures forall i :: 0 <= i < |xs| && xs[i].key == k ==> xs[i].conf <= Aggregate(xs).seen[k].bestConf
    ensures exists i :: 0 <= i < |xs| && xs[i].key == k && xs[i].conf == Aggregate(xs).seen[k].bestConf
  {
    var n := |xs| - 1;
    var prev, x := xs[..n], xs[n];
    assert xs == prev + [x];
    var s := Aggregate(prev);
    assert Aggregate(xs) == Observe(s, x);
    AggregateKeys(prev);
    if k in KeysOf(prev) {
      AggregateBest(prev, k);
      ObserveKnown(s, x, k);
      BestStep(prev, x, k, s.seen[k].bestConf);
    } else {
      ObserveNew(s, x);
      BestFirst(prev, x);
    }
  }

  /** A known key keeps its best confidence unless the new sighting beats it. */
  lemma BestStep(prev: seq<Sighting>, x: Sighting, k: string, before: real)
    requires IsBest(prev, k, before)
    ensures IsBest(prev + [x], k, if x.key == k && x.conf > before then x.conf else before)
  {
    var xs := prev + [x];
    var best := if x.key == k && x.conf > before then x.conf else before;
    var i :| 0 <= i < |prev| && prev[i].key == k && prev[i].conf == before;
    forall j | 0 <= j < |xs| && xs[j].key == k ensures xs[j].conf <= best {
      if j < |prev| { assert xs[j] == prev[j]; }
    }
    if x.key == k && x.conf > before {
      assert xs[|prev|].conf == best;
    } else {
      assert xs[i] == prev[i];
    }
  }

  /** A new key starts with the confidence of its first sighting, which no earlier
      sighting of it can beat since there is none. */
  lemma BestFirst(prev: seq<Sighting>, x: Sighting)
    requires x.key !in KeysOf(prev)
    ensures IsBest(prev + [x], x.key, x.conf)
  {
    var xs := prev + [x];
    assert forall j :: 0 <= j < |prev| ==> xs[j] == prev[j];
    assert xs[|prev|] == x;
  }

  // ---------------------------------------------------------------------------
  // The loop

  /** The update of `seen` and `counts` for one detection with a non-empty key. */
  method ObserveOne(order: seq<string>, seen: map<string, Seen>, counts: map<string, nat>, x: Sighting)
    returns (order': seq<string>, seen': map<string, Seen>, counts': map<string, nat>)
    requires Valid(Summary(order, seen, counts))
    ensures Summary(order', seen', counts') == Observe(Summary(order, seen, counts), x)
  {
    order', seen', counts' := order, seen, counts;
    if x.key !in seen' {
      seen' := seen'[x.key := Seen(x.key, x.conf, x.t, x.t)];
      counts' := counts'[x.key := 1];
      order' := order' + [x.key];
    } else {
      counts' := counts'[x.key := counts'[x.key] + 1];
      var e := seen'[x.key];
      seen' := seen'[x.key := e.(lastSeen := x.t)];
      if x.conf > e.bestConf {
        seen' := seen'[x.key := seen'[x.key].(bestConf := x.conf)];
      }
    }
  }

  /** The inner loop of `run_video_pipeline` over one frame's detections. */
  method ObserveDetections(order: seq<string>, seen: map<string, Seen>, counts: map<string, nat>,
                           ghost done: seq<Sighting>, ds: seq<ImageRecord>, t: nat)
    returns (order': seq<string>, seen': map<string, Seen>, counts': map<string, nat>)
    requires Summary(order, seen, counts) == Aggregate(done)
    ensures Summary(order', seen', counts') == Aggregate(done + DetSightings(ds, t))
  {
    order', seen', counts' := order, seen, counts;
    assert ds[..0] == [] && done + [] == done;
    for i := 0 to |ds|
      invariant Summary(order', seen', counts') == Aggregate(done + DetSightings(ds[..i], t))
    {
      DetSightingsSnoc(done, ds, i, t);
      order', seen', counts' := ObserveDetection(order', seen', counts', done + DetSightings(ds[..i], t), ds[i], t);
    }
    assert ds[..|ds|] == ds;
  }

  /** The body of the inner loop: a detection with a non-empty key is one sighting. */
  method ObserveDetection(order: seq<string>, seen: map<string, Seen>, counts: map<string, nat>,
                          ghost done: seq<Sighting>, d: ImageRecord, t: nat)
    returns (order': seq<string>, seen': map<string, Seen>, counts': map<string, nat>)
    requires Summary(order, seen, counts) == Aggregate(done)
    ensures Summary(order', seen', counts') == Aggregate(done + DetSighting(d, t))
  {
    var key := Key(d);
    if key != "" {
      var conf := Conf(d);
      AggregateSnoc(done, Sighting(key, t, conf));
      order', seen', counts' := ObserveOne(order, seen, counts, Sighting(key, t, conf));
    } else {
      assert done + DetSighting(d, t) == done;
      order', seen', counts' := order, seen, counts;
    }
  }

  /** The summary step of one sample time of `run_video_pipeline`. */
  method ObserveFrame(order: seq<string>, seen: map<string, Seen>, counts: map<string, nat>,
                      ghost done: seq<Sighting>, t: nat, o: FrameOutcome, dedupe: bool)
    returns (order': seq<string>, seen': map<string, Seen>, counts': map<string, nat>)
    requires Summary(order, seen, counts) == Aggregate(done)
    ensures Summary(order', seen', counts') == Aggregate(done + FrameSightings(t, o, dedupe))
  {
    if dedupe && o.Inferred? {
      order', seen', counts' := ObserveDetections(order, seen, counts, done, o.dets, t);
    } else {
      assert done + FrameSightings(t, o, dedupe) == done;
      order', seen', counts' := order, seen, counts;
    }
  }

  /** `run_video_pipeline` once the video is open: visit every sample time, keep a
      record of every frame that could be read, and fold the detections of every
      successfully inferred frame into the summary when `dedupe` is on. `step` is
      `max(1, int(1 / max(1e-9, fps_target)))` and `endSec` the last second to
      sample; `outcomes` holds what reading and inferring gives at each sample. */
  method RunVideoPipeline(endSec: int, step: nat, outcomes: seq<FrameOutcome>, dedupe: bool)
    returns (frames: seq<FrameRec>, uniqueCount: nat, plates: seq<SummaryItem>)
    requires step >= 1 && |outcomes| == SampleCount(endSec, step)
    ensures frames == FramesOf(Samples(endSec, step), outcomes)
    ensures plates == Plates(Aggregate(SightingsOf(Samples(endSec, step), outcomes, dedupe)))
    ensures uniqueCount == |plates|
  {
    var ts := Samples(endSec, step);
    frames := [];
    var order: seq<string> := [];
    var seen: map<string, Seen> := map[];
    var counts: map<string, nat> := map[];
    ghost var done: seq<Sighting> := [];
    assert ts[..0] == [] && outcomes[..0] == [];
    for n := 0 to |ts|
      invariant frames == FramesOf(ts[..n], outcomes[..n])
      invariant done == SightingsOf(ts[..n], outcomes[..n], dedupe)
      invariant Summary(order, seen, counts) == Aggregate(done)
    {
      var t := ts[n];
      SightingsOfSnoc(ts, outcomes, dedupe, n);
      match outcomes[n]
      case Unreadable =>
      case Failed(e) =>
        frames := frames + [FrameRec(t, [], Some(e))];
      case Inferred(ds) =>
        frames := frames + [FrameRec(t, ds, None)];
      order, seen, counts := ObserveFrame(order, seen, counts, done, t, outcomes[n], dedupe);
      done := done + FrameSightings(t, outcomes[n], dedupe);
    }
    assert ts[..|ts|] == ts && outcomes[..|outcomes|] == outcomes;
    plates := Plates(Summary(order, seen, counts));
    uniqueCount := |plates|;
  }

  // ---------------------------------------------------------------------------
  // Properties of the summary

  /** The summary lists each sighted key once, in the order of first sighting; each
      item counts the sightings of its key, holds the best confidence it was seen
      with and the times of its first and last sightings, and the first comes no
      later than the last. */
  lemma SummaryItems(xs: seq<Sighting>, i: nat)
    requires TimesSorted(xs)
    requires i < |Plates(Aggregate(xs))|
    ensures var ps := Plates(Aggregate(xs));
      var k := ps[i].plateSpaced;
      k in KeysOf(xs) && k == Aggregate(xs).order[i]
      && ps[i].occurrences == Count(xs, k) && ps[i].occurrences >= 1
      && ps[i].firstSeen == xs[First(xs, k)].t && ps[i].lastSeen == xs[Last(xs, k)].t
      && ps[i].firstSeen <= ps[i].lastSeen
      && (forall j :: 0 <= j < |xs| && xs[j].key == k ==> xs[j].conf <= ps[i].bestConf)
      && (exists j :: 0 <= j < |xs| && xs[j].key == k && xs[j].conf == ps[i].bestConf)
  {
    var s := Aggregate(xs);
    var k := s.order[i];
    AggregateKeys(xs);
    assert k in KeysOf(xs);
    AggregateEntry(xs, k);
    AggregateBest(xs, k);
    var f, l := First(xs, k), Last(xs, k);
    CountPositive(xs, k, f);
    assert f <= l;
    assert xs[f].t <= xs[l].t;
  }

  lemma {:induction false} CountPositive(xs: seq<Sighting>, k: string, p: nat)
    requires p < |xs| && xs[p].key == k
    ensures Count(xs, k) >= 1
  {
    var n := |xs| - 1;
    if p < n {
      CountPositive(xs[..n], k, p);
    }
  }

  /** The summary has one item per sighted key and no two items for one key;
      `unique_count` is therefore the number of distinct keys. */
  lemma SummaryKeys(xs: seq<Sighting>)
    ensures var ps := Plates(Aggregate(xs));
      (forall i, j :: 0 <= i < j < |ps| ==> ps[i].plateSpaced != ps[j].plateSpaced)
      && (forall k :: k in KeysOf(xs) <==> exists i :: 0 <= i < |ps| && ps[i].plateSpaced == k)
  {
    var s := Aggregate(xs);
    var ps := Plates(s);
    forall i | 0 <= i < |ps| ensures ps[i].plateSpaced == s.order[i] {
      ItemKey(xs, i);
    }
    forall k | k in KeysOf(xs) ensures exists i :: 0 <= i < |s.order| && s.order[i] == k {
      KeyListed(xs, k);
    }
    AggregateKeys(xs);
  }

  /** The item at position `i` is that of the `i`-th key of the order. */
  lemma ItemKey(xs: seq<Sighting>, i: nat)
    requires i < |Aggregate(xs).order|
    ensures Plates(Aggregate(xs))[i].plateSpaced == Aggregate(xs).order[i]
  {
    var s := Aggregate(xs);
    AggregateKeys(xs);
    AggregateEntry(xs, s.order[i]);
  }

  /** Every sighted key has a place in the order. */
  lemma KeyListed(xs: seq<Sighting>, k: string)
    requires k in KeysOf(xs)
    ensures exists i :: 0 <= i < |Aggregate(xs).order| && Aggregate(xs).order[i] == k
  {
    AggregateKeys(xs);
    ElemsIndex(Aggregate(xs).order, k);
  }

  /** With `dedupe` off the summary is empty. */
  lemma NoDedupeEmptySummary(endSec: int, step: nat, outcomes: seq<FrameOutcome>)
    requires step >= 1 && |outcomes| == SampleCount(endSec, step)
    ensures Plates(Aggregate(SightingsOf(Samples(endSec, step), outcomes, false))) == []
  {
    NoDedupeNoSightings(Samples(endSec, step), outcomes);
  }

  /** The pipeline's sightings are in time order, so every item's first sighting
      comes no later than its last. */
  lemma PipelineSightingsSorted(endSec: int, step: nat, outcomes: seq<FrameOutcome>, dedupe: bool)
    requires step >= 1 && |outcomes| == SampleCount(endSec, step)
    ensures TimesSorted(SightingsOf(Samples(endSec, step), outcomes, dedupe))
    ensures var fs := FramesOf(Samples(endSec, step), outcomes);
      forall i, j :: 0 <= i < j < |fs| ==> fs[i].t < fs[j].t
  {
    SamplesProps(endSec, step);
    SightingsSorted(Samples(endSec, step), outcomes, dedupe);
    FramesIncreasing(Samples(endSec, step), outcomes);
  }

  /** The summary as the video page reads it: plate text and no expiry. */
  function PageEntry(p: SummaryItem): VideoPage.SummaryEntry {
    VideoPage.SummaryEntry(Some(p.plateSpaced), None)
  }

  /** Every summary item becomes a page row, and that row shows no expiry: the expiry
      of a plate on the video page can only come from its frame detections. */
  lemma SummaryRowsWithoutExpiry(xs: seq<Sighting>, i: nat, now: Calendar.DateTime)
    requires Calendar.ValidDateTime(now) && i < |Plates(Aggregate(xs))|
    requires forall j :: 0 <= j < |xs| ==> xs[j].key != ""
    ensures var row := VideoPage.SummaryRow(PageEntry(Plates(Aggregate(xs))[i]), now);
      row.Some? && row.value.expiryDate == "—" && row.value.remaining.None?
  {
    var s := Aggregate(xs);
    AggregateKeys(xs);
    var k := s.order[i];
    AggregateEntry(xs, k);
    assert xs[First(xs, k)].key == k;
  }
}
