/**
 * Loading the readings (app.py: load_data): readings at or below the sentinel
 * value are first overwritten with "missing" in place, then every row whose
 * reading is missing is dropped.
 */
module Loader {

  import opened Records

  datatype Option<T> = None | Some(value: T)

  /** A row as read from the CSV file; `None` is an empty or NA cell. */
  datatype RawRow = RawRow(area: string, date: Date, temp: Option<real>)

  /** Readings at or below this value are placeholders for a missing measurement. */
  const SentinelThreshold: real := -900.0

  predicate IsSentinel(t: real)
  {
    t <= SentinelThreshold
  }

  /** A row survives loading when it has a reading that is not a sentinel. */
  predicate Survives(r: RawRow)
  {
    r.temp.Some? && !IsSentinel(r.temp.value)
  }

  function ToObservation(r: RawRow): Observation
    requires r.temp.Some?
  {
    Observation(r.area, r.date, r.temp.value)
  }

  /** The reference definition of the cleaned table: the surviving rows, in input order. */
  function Clean(rows: seq<RawRow>): (obs: seq<Observation>)
    ensures |obs| <= |rows|
    ensures forall i :: 0 <= i < |obs| ==> obs[i].temp > SentinelThreshold
  {
    if |rows| == 0 then []
    else (if Survives(rows[0]) then [ToObservation(rows[0])] else []) + Clean(rows[1..])
  }

  /** One row after `df.loc[df["Temperature_C"] <= -900, "Temperature_C"] = pd.NA`. */
  function Mask(r: RawRow): RawRow
  {
    if r.temp.Some? && IsSentinel(r.temp.value) then r.(temp := None) else r
  }

  function MaskAll(rows: seq<RawRow>): seq<RawRow>
  {
    seq(|rows|, i requires 0 <= i < |rows| => Mask(rows[i]))
  }

  /** `dropna(subset=["Temperature_C"])`: the rows that have a reading, in order. */
  function DropMissing(rows: seq<RawRow>): seq<Observation>
  {
    if |rows| == 0 then []
    else (if rows[0].temp.Some? then [ToObservation(rows[0])] else []) + DropMissing(rows[1..])
  }

  /** The sentinel mask, applied to the table in place. */
  method MaskSentinels(a: array<RawRow>)
    modifies a
    ensures a[..] == MaskAll(old(a[..]))
  {
    var i := 0;
    while i < a.Length
      invariant 0 <= i <= a.Length
      invariant forall k :: 0 <= k < i ==> a[k] == Mask(old(a[k]))
      invariant forall k :: i <= k < a.Length ==> a[k] == old(a[k])
    {
      if a[i].temp.Some? && a[i].temp.value <= SentinelThreshold {
        a[i] := a[i].(temp := None);
      }
      i := i + 1;
    }
  }

  /** The rows of `a` that have a reading, copied out in order. */
  method DropMissingRows(a: array<RawRow>) returns (obs: seq<Observation>)
    ensures obs == DropMissing(a[..])
  {
    obs := [];
    var i := 0;
    while i < a.Length
      invariant 0 <= i <= a.Length
      invariant obs == DropMissing(a[..i])
    {
      DropMissingAppend(a[..i], [a[i]]);
      assert a[..i + 1] == a[..i] + [a[i]];
      if a[i].temp.Some? {
        obs := obs + [ToObservation(a[i])];
      }
      i := i + 1;
    }
    assert a[..a.Length] == a[..];
  }

  /** `load_data`: masks the sentinels in place and returns the table without missing readings. */
  method LoadData(a: array<RawRow>) returns (obs: seq<Observation>)
    modifies a
    ensures a[..] == MaskAll(old(a[..]))
    ensures obs == Clean(old(a[..]))
  {
    MaskSentinels(a);
    obs := DropMissingRows(a);
    MaskThenDropIsClean(old(a[..]));
  }

  lemma {:induction false} DropMissingAppend(a: seq<RawRow>, b: seq<RawRow>)
    ensures DropMissing(a + b) == DropMissing(a) + DropMissing(b)
  {
    if |a| == 0 {
      assert a + b == b;
    } else {
      var head := if a[0].temp.Some? then [ToObservation(a[0])] else [];
      assert (a + b)[0] == a[0];
      assert (a + b)[1..] == a[1..] + b;
      assert DropMissing(a + b) == head + DropMissing(a[1..] + b);
      DropMissingAppend(a[1..], b);
      assert head + (DropMissing(a[1..]) + DropMissing(b)) == (head + DropMissing(a[1..])) + DropMissing(b);
    }
  }

  /** Masking the sentinels and then dropping missing readings is exactly Clean. */
  lemma {:induction false} MaskThenDropIsClean(rows: seq<RawRow>)
    ensures DropMissing(MaskAll(rows)) == Clean(rows)
  {
    if |rows| > 0 {
      assert MaskAll(rows)[1..] == MaskAll(rows[1..]);
      MaskThenDropIsClean(rows[1..]);
    }
  }

  /** Clean distributes over concatenation, so it keeps the input order. */
  lemma {:induction false} CleanAppend(a: seq<RawRow>, b: seq<RawRow>)
    ensures Clean(a + b) == Clean(a) + Clean(b)
  {
    if |a| == 0 {
      assert a + b == b;
    } else {
      var head := if Survives(a[0]) then [ToObservation(a[0])] else [];
      assert (a + b)[0] == a[0];
      assert (a + b)[1..] == a[1..] + b;
      assert Clean(a + b) == head + Clean(a[1..] + b);
      CleanAppend(a[1..], b);
      assert head + (Clean(a[1..]) + Clean(b)) == (head + Clean(a[1..])) + Clean(b);
    }
  }

  /** A sentinel or missing reading leaves no trace in the cleaned table. */
  lemma DroppedRowLeavesNoTrace(before: seq<RawRow>, r: RawRow, after: seq<RawRow>)
    requires !Survives(r)
    ensures Clean(before + [r] + after) == Clean(before) + Clean(after)
  {
    CleanAppend(before + [r], after);
    CleanAppend(before, [r]);
    assert Clean([r]) == [] by {
      assert [r][1..] == [];
    }
  }

  /** The cleaned table holds exactly the observations of the surviving input rows. */
  lemma {:induction false} CleanMembers(rows: seq<RawRow>, o: Observation)
    ensures o in Clean(rows) <==> exists i :: 0 <= i < |rows| && Survives(rows[i]) && ToObservation(rows[i]) == o
  {
    if |rows| > 0 {
      CleanMembers(rows[1..], o);
      if exists i :: 0 <= i < |rows| && Survives(rows[i]) && ToObservation(rows[i]) == o {
        var i :| 0 <= i < |rows| && Survives(rows[i]) && ToObservation(rows[i]) == o;
        if i > 0 {
          assert rows[1..][i - 1] == rows[i];
        }
      }
      if o in Clean(rows[1..]) {
        var j :| 0 <= j < |rows[1..]| && Survives(rows[1..][j]) && ToObservation(rows[1..][j]) == o;
        assert rows[j + 1] == rows[1..][j];
      }
    }
  }
}
