/**
 * The heat ranking table (app.py, TAB 4): `avg_temp` sorted by mean
 * temperature, hottest first, numbered from 1.
 */
module Ranking {

  import opened Aggregates

  /** One row of the ranking table: its position (the frame's index) and the city's row of `avg_temp`. */
  datatype RankRow = RankRow(position: int, city: CityAvg)

  /** Hottest first: no row has a lower mean than a row below it. */
  predicate SortedByMeanDescending(s: seq<CityAvg>)
  {
    forall i, j :: 0 <= i < j < |s| ==> s[i].mean >= s[j].mean
  }

  /** The `avg_temp` rows of a ranking table, top to bottom. */
  function Cities(ranking: seq<RankRow>): seq<CityAvg>
  {
    seq(|ranking|, i requires 0 <= i < |ranking| => ranking[i].city)
  }

  /** Exchanges two rows of the table being sorted. */
  method Swap(a: array<CityAvg>, i: int, j: int)
    requires 0 <= i < a.Length && 0 <= j < a.Length
    modifies a
    ensures a[i] == old(a[j]) && a[j] == old(a[i])
    ensures forall k :: 0 <= k < a.Length && k != i && k != j ==> a[k] == old(a[k])
    ensures multiset(a[..]) == old(multiset(a[..]))
  {
    a[i], a[j] := a[j], a[i];
  }

  /** The index of a row with the largest mean among `a[from..]`. */
  method MaxFrom(a: array<CityAvg>, from: int) returns (m: int)
    requires 0 <= from < a.Length
    ensures from <= m < a.Length
    ensures forall k :: from <= k < a.Length ==> a[k].mean <= a[m].mean
  {
    m := from;
    var j := from + 1;
    while j < a.Length
      invariant from <= m < j <= a.Length
      invariant forall k :: from <= k < j ==> a[k].mean <= a[m].mean
    {
      if a[j].mean > a[m].mean {
        m := j;
      }
      j := j + 1;
    }
  }

  /**
   * `sort_values("Temperature_C", ascending=False)`, in place. Like the
   * library's default sort it is not stable: tied cities may come out in any
   * order, and the contract promises nothing about them.
   */
  method SortByMeanDescending(a: array<CityAvg>)
    modifies a
    ensures SortedByMeanDescending(a[..])
    ensures multiset(a[..]) == old(multiset(a[..]))
  {
    var i := 0;
    while i < a.Length
      invariant 0 <= i <= a.Length
      invariant forall p, q :: 0 <= p < q < i ==> a[p].mean >= a[q].mean
      invariant forall p, q :: 0 <= p < i <= q < a.Length ==> a[p].mean >= a[q].mean
      invariant multiset(a[..]) == old(multiset(a[..]))
    {
      var m := MaxFrom(a, i);
      Swap(a, i, m);
      i := i + 1;
    }
  }

  /** Adds one to every position, in place: `ranking.index += 1`. */
  method IncrementPositions(index: array<int>)
    modifies index
    ensures forall k :: 0 <= k < index.Length ==> index[k] == old(index[k]) + 1
  {
    var k := 0;
    while k < index.Length
      invariant 0 <= k <= index.Length
      invariant forall p :: 0 <= p < k ==> index[p] == old(index[p]) + 1
      invariant forall p :: k <= p < index.Length ==> index[p] == old(index[p])
    {
      index[k] := index[k] + 1;
      k := k + 1;
    }
  }

  /**
   * The ranking table: every row of `avg_temp` once, hottest first, the
   * positions running 1, 2, …, n from the top.
   */
  method Rank(avg: seq<CityAvg>) returns (ranking: seq<RankRow>)
    ensures |ranking| == |avg|
    ensures forall i :: 0 <= i < |ranking| ==> ranking[i].position == i + 1
    ensures SortedByMeanDescending(Cities(ranking))
    ensures multiset(Cities(ranking)) == multiset(avg)
  {
    var table := new CityAvg[|avg|](i requires 0 <= i < |avg| => avg[i]);
    assert table[..] == avg;
    SortByMeanDescending(table);
    // reset_index(drop=True) numbers the sorted rows 0, 1, …
    var index := new int[table.Length](i => i);
    IncrementPositions(index);
    ranking := seq(table.Length, i requires 0 <= i < table.Length reads table, index => RankRow(index[i], table[i]));
    assert Cities(ranking) == table[..];
  }
}
