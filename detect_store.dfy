/** The client-side session store of `src/lib/detectStore.ts`: a list of plate rows,
    newest first, into which `addMany` inserts only plate numbers it has not seen. */
module DetectStore {
  import opened Wrappers
  import opened Plate

  /** The plate numbers of a list of rows. */
  function Keys(rows: seq<PlateRow>): set<string> {
    set i | 0 <= i < |rows| :: rows[i].plateNumber
  }

  /** No two rows share a plate number. */
  predicate Unique(rows: seq<PlateRow>) {
    forall i, j :: 0 <= i < j < |rows| ==> rows[i].plateNumber != rows[j].plateNumber
  }

  /** The rows of a batch that `addMany` keeps when `seen` holds the plate numbers
      already present: each row whose plate number is neither in `seen` nor on an
      earlier row of the batch, in batch order. */
  function Admitted(rows: seq<PlateRow>, seen: set<string>): seq<PlateRow> {
    if rows == [] then []
    else
      var earlier := rows[..|rows| - 1];
      var r := rows[|rows| - 1];
      if r.plateNumber in seen || r.plateNumber in Keys(earlier) then Admitted(earlier, seen)
      else Admitted(earlier, seen) + [r]
  }

  /** The first row carrying plate number `key`. */
  function Lookup(rows: seq<PlateRow>, key: string): (r: Option<PlateRow>)
    ensures r.Some? <==> key in Keys(rows)
    ensures r.Some? ==> r.value in rows && r.value.plateNumber == key
    ensures r.Some? ==> exists i :: 0 <= i < |rows| && rows[i] == r.value
                                   && forall j :: 0 <= j < i ==> rows[j].plateNumber != key
  {
    if rows == [] then None
    else
      var n := |rows| - 1;
      var earlier := rows[..n];
      var first := Lookup(earlier, key);
      assert Keys(rows) == Keys(earlier) + {rows[n].plateNumber};
      if first.Some? then
        assert forall i :: 0 <= i < n ==> earlier[i] == rows[i];
        first
      else if rows[n].plateNumber == key then
        assert forall j :: 0 <= j < n ==> rows[j].plateNumber == earlier[j].plateNumber && earlier[j].plateNumber in Keys(earlier);
        Some(rows[n])
      else None
  }

  /** The list `addMany(rows)` leaves behind when the store held `current`: the kept
      rows of the batch, then every row that was there. */
  function AddManyResult(current: seq<PlateRow>, rows: seq<PlateRow>): seq<PlateRow> {
    Admitted(rows, Keys(current)) + current
  }

  /** The store (`useDetectStore`); `results` starts empty. */
  class Store {
    var results: seq<PlateRow>

    constructor()
      ensures results == []
    {
      results := [];
    }

    /** `addMany`: a `seen` set seeded with the present plate numbers filters the batch,
        and the kept rows are put in front of the existing ones. */
    method AddMany(rows: seq<PlateRow>)
      modifies this
      ensures results == AddManyResult(old(results), rows)
    {
      var current := results;
      var seen := Keys(current);
      var deduped: seq<PlateRow> := [];
      for i := 0 to |rows|
        invariant seen == Keys(current) + Keys(rows[..i])
        invariant deduped == Admitted(rows[..i], Keys(current))
      {
        var r := rows[i];
        assert rows[..i + 1][..i] == rows[..i];
        assert Keys(rows[..i + 1]) == Keys(rows[..i]) + {r.plateNumber};
        if r.plateNumber !in seen {
          deduped := deduped + [r];
          seen := seen + {r.plateNumber};
        }
      }
      assert rows[..|rows|] == rows;
      results := deduped + current;
    }

    /** `clear`. */
    method Clear()
      modifies this
      ensures results == []
    {
      results := [];
    }
  }

  // ---------------------------------------------------------------------------
  // Properties of the kept rows

  lemma KeysAppend(a: seq<PlateRow>, b: seq<PlateRow>)
    ensures Keys(a + b) == Keys(a) + Keys(b)
  {
    var ab := a + b;
    forall k | k in Keys(a) + Keys(b) ensures k in Keys(ab) {
      if k in Keys(a) {
        var i :| 0 <= i < |a| && a[i].plateNumber == k;
        assert ab[i] == a[i];
      } else {
        var i :| 0 <= i < |b| && b[i].plateNumber == k;
        assert ab[|a| + i] == b[i];
      }
    }
  }

  lemma KeysSingle(r: PlateRow)
    ensures Keys([r]) == {r.plateNumber}
  {
    assert [r][0] == r;
  }

  /** The kept rows have distinct plate numbers, and these are exactly the batch's
      plate numbers not already seen. */
  lemma {:induction false} AdmittedKeys(rows: seq<PlateRow>, seen: set<string>)
    ensures Unique(Admitted(rows, seen))
    ensures Keys(Admitted(rows, seen)) == Keys(rows) - seen
  {
    if rows != [] {
      var earlier := rows[..|rows| - 1];
      var r := rows[|rows| - 1];
      AdmittedKeys(earlier, seen);
      var prev := Admitted(earlier, seen);
      assert rows == earlier + [r];
      KeysAppend(earlier, [r]);
      assert Keys([r]) == {r.plateNumber};
      if !(r.plateNumber in seen || r.plateNumber in Keys(earlier)) {
        KeysAppend(prev, [r]);
      }
    }
  }

  /** A list without duplicate plate numbers has as many rows as plate numbers. */
  lemma {:induction false} UniqueCount(rows: seq<PlateRow>)
    requires Unique(rows)
    ensures |Keys(rows)| == |rows|
  {
    if rows != [] {
      var earlier := rows[..|rows| - 1];
      var r := rows[|rows| - 1];
      UniqueCount(earlier);
      assert rows == earlier + [r];
      KeysAppend(earlier, [r]);
      assert Keys([r]) == {r.plateNumber};
      assert r.plateNumber !in Keys(earlier);
    }
  }

  lemma {:induction false} AdmittedFromBatch(rows: seq<PlateRow>, seen: set<string>)
    ensures forall r :: r in Admitted(rows, seen) ==> r in rows
  {
    if rows != [] {
      AdmittedFromBatch(rows[..|rows| - 1], seen);
    }
  }

  /** One kept row per new plate number, each taken from the batch. */
  lemma AdmittedProps(rows: seq<PlateRow>, seen: set<string>)
    ensures Unique(Admitted(rows, seen))
    ensures Keys(Admitted(rows, seen)) == Keys(rows) - seen
    ensures |Admitted(rows, seen)| == |Keys(rows) - seen|
    ensures forall r :: r in Admitted(rows, seen) ==> r in rows
  {
    AdmittedKeys(rows, seen);
    UniqueCount(Admitted(rows, seen));
    AdmittedFromBatch(rows, seen);
  }

  /** The kept row for a plate number is the batch's first row with it, unless the
      number was already seen: the first occurrence wins. */
  lemma {:induction false} AdmittedLookup(rows: seq<PlateRow>, seen: set<string>, key: string)
    ensures Lookup(Admitted(rows, seen), key) == if key in seen then None else Lookup(rows, key)
  {
    if rows != [] {
      var earlier := rows[..|rows| - 1];
      var r := rows[|rows| - 1];
      AdmittedLookup(earlier, seen, key);
      AdmittedProps(earlier, seen);
      var prev := Admitted(earlier, seen);
      if !(r.plateNumber in seen || r.plateNumber in Keys(earlier)) {
        assert (prev + [r])[..|prev + [r]| - 1] == prev;
      }
    }
  }

  /** A batch whose plate numbers were all seen keeps nothing. */
  lemma AdmittedNothingNew(rows: seq<PlateRow>, seen: set<string>)
    requires Keys(rows) <= seen
    ensures Admitted(rows, seen) == []
  {
    AdmittedProps(rows, seen);
  }

  // ---------------------------------------------------------------------------
  // Properties of addMany

  lemma {:induction false} LookupAppend(a: seq<PlateRow>, b: seq<PlateRow>, key: string)
    ensures Lookup(a + b, key) == if Lookup(a, key).Some? then Lookup(a, key) else Lookup(b, key)
  {
    if b == [] {
      assert a + b == a;
    } else {
      var bs := b[..|b| - 1];
      LookupAppend(a, bs, key);
      assert (a + b)[..|a + b| - 1] == a + bs;
    }
  }

  /** A store without duplicate plate numbers keeps none. */
  lemma AddManyKeepsUnique(current: seq<PlateRow>, rows: seq<PlateRow>)
    requires Unique(current)
    ensures Unique(AddManyResult(current, rows))
  {
    var added := Admitted(rows, Keys(current));
    AdmittedProps(rows, Keys(current));
    var next := added + current;
    forall i, j | 0 <= i < j < |next| ensures next[i].plateNumber != next[j].plateNumber {
      if i < |added| && j >= |added| {
        assert next[i].plateNumber in Keys(added);
        assert next[j] == current[j - |added|];
      }
    }
  }

  /** Existing rows are never replaced: looking a plate number up after `addMany`
      finds the row that was there, and a new number finds its first batch row. */
  lemma AddManyLookup(current: seq<PlateRow>, rows: seq<PlateRow>, key: string)
    ensures Lookup(AddManyResult(current, rows), key) ==
      if key in Keys(current) then Lookup(current, key) else Lookup(rows, key)
  {
    var added := Admitted(rows, Keys(current));
    LookupAppend(added, current, key);
    AdmittedLookup(rows, Keys(current), key);
  }

  /** The plate numbers afterwards are the old ones and the batch's, and the list
      grows by the number of distinct new plate numbers. */
  lemma AddManyGrowth(current: seq<PlateRow>, rows: seq<PlateRow>)
    ensures Keys(AddManyResult(current, rows)) == Keys(current) + Keys(rows)
    ensures |AddManyResult(current, rows)| == |current| + |Keys(rows) - Keys(current)|
    ensures rows == [] ==> AddManyResult(current, rows) == current
  {
    AdmittedProps(rows, Keys(current));
    KeysAppend(Admitted(rows, Keys(current)), current);
  }

  /** A second `addMany` of the same batch changes nothing. */
  lemma AddManyIdempotent(current: seq<PlateRow>, rows: seq<PlateRow>)
    ensures AddManyResult(AddManyResult(current, rows), rows) == AddManyResult(current, rows)
  {
    var next := AddManyResult(current, rows);
    AddManyGrowth(current, rows);
    AdmittedNothingNew(rows, Keys(next));
  }

  /** A later row for a stored plate is dropped even when it carries an expiry and
      the stored row does not. */
  lemma StoreNeverUpgrades(stored: PlateRow, later: PlateRow)
    requires stored.plateNumber == later.plateNumber
    requires stored.expiryDate == "—" && later.expiryDate != "—"
    ensures AddManyResult([stored], [later]) == [stored]
  {
    KeysSingle(later);
    KeysSingle(stored);
    AdmittedNothingNew([later], Keys([stored]));
  }
}
