/**
 * The dashboard's summary figures (app.py, METRICS, the map markers and the
 * seasonal pie): per-city means, their unweighted mean, the hottest and the
 * coolest city, the marker colour of each city and the per-season sums of a view.
 */
module Aggregates {

  import opened Stats
  import opened Records
  import opened Features
  import opened CityOrder

  /** One row of `avg_temp`: a city and the mean of all its readings. */
  datatype CityAvg = CityAvg(area: string, mean: real)

  /**
   * `df.groupby("Area")["Temperature_C"].mean().reset_index()`: one row per
   * distinct city of the whole cleaned table, cities in ascending name order.
   */
  function AvgTemp(obs: seq<Observation>): (avg: seq<CityAvg>)
    ensures forall i, j :: 0 <= i < j < |avg| ==> Less(avg[i].area, avg[j].area)
    ensures forall a :: a in Areas(obs) <==> exists i :: 0 <= i < |avg| && avg[i].area == a
    ensures forall i :: 0 <= i < |avg| ==> avg[i].area in Areas(obs) && avg[i].mean == CityMean(obs, avg[i].area)
  {
    var areas := SortedAreas(obs);
    var avg := seq(|areas|, i requires 0 <= i < |areas| => CityAvg(areas[i], CityMean(obs, areas[i])));
    assert forall a :: a in areas ==> exists i :: 0 <= i < |avg| && avg[i].area == a by {
      forall a | a in areas
        ensures exists i :: 0 <= i < |avg| && avg[i].area == a
      {
        var i :| 0 <= i < |areas| && areas[i] == a;
        assert avg[i].area == a;
      }
    }
    avg
  }

  /** `avg_temp` has exactly one row per city, and at least one when the table has rows. */
  lemma AvgTempOneRowPerCity(obs: seq<Observation>)
    ensures forall i, j :: 0 <= i < |AvgTemp(obs)| && 0 <= j < |AvgTemp(obs)| && AvgTemp(obs)[i].area == AvgTemp(obs)[j].area ==> i == j
    ensures |obs| > 0 ==> |AvgTemp(obs)| > 0
  {
    var avg := AvgTemp(obs);
    forall i, j | 0 <= i < |avg| && 0 <= j < |avg| && avg[i].area == avg[j].area
      ensures i == j
    {
      LessIrreflexive(avg[i].area);
    }
    if |obs| > 0 {
      assert obs[0].area in Areas(obs);
    }
  }

  /** The `Temperature_C` column of `avg_temp`. */
  function MeanColumn(avg: seq<CityAvg>): seq<real>
  {
    seq(|avg|, i requires 0 <= i < |avg| => avg[i].mean)
  }

  /**
   * `global_avg`: the mean of the city means, every city weighing the same. It
   * times the number of cities is the total of the city means, and it lies
   * between the smallest and the largest of them.
   */
  function GlobalAvg(avg: seq<CityAvg>): (g: real)
    requires |avg| > 0
    ensures (|avg| as real) * g == Sum(MeanColumn(avg))
    ensures avg[IdxMin(avg)].mean <= g <= avg[IdxMax(avg)].mean
  {
    var col := MeanColumn(avg);
    MeanBetween(col, avg[IdxMin(avg)].mean, avg[IdxMax(avg)].mean);
    assert (|col| as real) * (Sum(col) / (|col| as real)) == Sum(col);
    Mean(col)
  }

  /** `idxmax`: the first row holding the largest mean. */
  function IdxMax(avg: seq<CityAvg>): (k: nat)
    requires |avg| > 0
    ensures k < |avg|
    ensures forall j :: 0 <= j < |avg| ==> avg[j].mean <= avg[k].mean
    ensures forall j :: 0 <= j < k ==> avg[j].mean < avg[k].mean
  {
    if |avg| == 1 then 0
    else
      var k := IdxMax(avg[..|avg| - 1]);
      if avg[|avg| - 1].mean > avg[k].mean then |avg| - 1 else k
  }

  /** `idxmin`: the first row holding the smallest mean. */
  function IdxMin(avg: seq<CityAvg>): (k: nat)
    requires |avg| > 0
    ensures k < |avg|
    ensures forall j :: 0 <= j < |avg| ==> avg[k].mean <= avg[j].mean
    ensures forall j :: 0 <= j < k ==> avg[k].mean < avg[j].mean
  {
    if |avg| == 1 then 0
    else
      var k := IdxMin(avg[..|avg| - 1]);
      if avg[|avg| - 1].mean < avg[k].mean then |avg| - 1 else k
  }

  /** The "Hottest City" metric: a city of `avg` whose mean no other row exceeds. */
  function Hottest(avg: seq<CityAvg>): (h: string)
    requires |avg| > 0
    ensures exists i :: 0 <= i < |avg| && avg[i].area == h && (forall j :: 0 <= j < |avg| ==> avg[j].mean <= avg[i].mean)
  {
    avg[IdxMax(avg)].area
  }

  /** The "Coolest City" metric: a city of `avg` whose mean no other row falls below. */
  function Coolest(avg: seq<CityAvg>): (c: string)
    requires |avg| > 0
    ensures exists i :: 0 <= i < |avg| && avg[i].area == c && (forall j :: 0 <= j < |avg| ==> avg[i].mean <= avg[j].mean)
  {
    avg[IdxMin(avg)].area
  }

  /**
   * On `avg_temp`, a tie for hottest or coolest goes to the tied city that
   * comes first in Python string order.
   */
  lemma TiesGoToFirstName(obs: seq<Observation>)
    requires |obs| > 0
    ensures |AvgTemp(obs)| > 0
    ensures forall j :: 0 <= j < |AvgTemp(obs)| && AvgTemp(obs)[j].mean == AvgTemp(obs)[IdxMax(AvgTemp(obs))].mean
              ==> AvgTemp(obs)[j].area == Hottest(AvgTemp(obs)) || Less(Hottest(AvgTemp(obs)), AvgTemp(obs)[j].area)
    ensures forall j :: 0 <= j < |AvgTemp(obs)| && AvgTemp(obs)[j].mean == AvgTemp(obs)[IdxMin(AvgTemp(obs))].mean
              ==> AvgTemp(obs)[j].area == Coolest(AvgTemp(obs)) || Less(Coolest(AvgTemp(obs)), AvgTemp(obs)[j].area)
  {
    AvgTempOneRowPerCity(obs);
    var avg := AvgTemp(obs);
    var hi, lo := IdxMax(avg), IdxMin(avg);
    forall j | 0 <= j < |avg| && avg[j].mean == avg[hi].mean
      ensures avg[j].area == avg[hi].area || Less(avg[hi].area, avg[j].area)
    {
      if hi < j {
        assert Less(avg[hi].area, avg[j].area);
      }
    }
    forall j | 0 <= j < |avg| && avg[j].mean == avg[lo].mean
      ensures avg[j].area == avg[lo].area || Less(avg[lo].area, avg[j].area)
    {
      if lo < j {
        assert Less(avg[lo].area, avg[j].area);
      }
    }
  }

  /**
   * The global average lies between the coolest and the hottest city mean,
   * strictly between them when those two differ.
   */
  lemma GlobalAvgBetweenExtremes(avg: seq<CityAvg>)
    requires |avg| > 0
    ensures avg[IdxMin(avg)].mean <= GlobalAvg(avg) <= avg[IdxMax(avg)].mean
    ensures avg[IdxMin(avg)].mean < avg[IdxMax(avg)].mean ==>
              avg[IdxMin(avg)].mean < GlobalAvg(avg) < avg[IdxMax(avg)].mean
  {
    var col := MeanColumn(avg);
    var lo, hi := avg[IdxMin(avg)].mean, avg[IdxMax(avg)].mean;
    MeanBetween(col, lo, hi);
    if lo < hi {
      assert col[IdxMin(avg)] < hi;
      assert lo < col[IdxMax(avg)];
    }
  }

  /** The map marker colour of a city: red above the global average, blue otherwise. */
  function MarkerColour(mean: real, globalAvg: real): (colour: string)
    ensures colour == "red" <==> mean > globalAvg
    ensures colour == "blue" <==> mean <= globalAvg
  {
    var deviation := mean - globalAvg;
    if deviation > 0.0 then "red" else "blue"
  }

  /** The marker colours of the map, one per row of `avg_temp`, in row order. */
  method MarkerColours(avg: seq<CityAvg>, globalAvg: real) returns (colours: seq<string>)
    ensures |colours| == |avg|
    ensures forall i :: 0 <= i < |avg| ==> (colours[i] == "red" <==> avg[i].mean > globalAvg)
    ensures forall i :: 0 <= i < |avg| ==> (colours[i] == "blue" <==> avg[i].mean <= globalAvg)
  {
    colours := [];
    var i := 0;
    while i < |avg|
      invariant 0 <= i <= |avg|
      invariant |colours| == i
      invariant forall k :: 0 <= k < i ==> colours[k] == MarkerColour(avg[k].mean, globalAvg)
    {
      colours := colours + [MarkerColour(avg[i].mean, globalAvg)];
      i := i + 1;
    }
  }

  /**
   * The coolest city's marker is always blue; the hottest city's marker is red
   * exactly when the city means are not all equal.
   */
  lemma ExtremeMarkers(avg: seq<CityAvg>)
    requires |avg| > 0
    ensures MarkerColour(avg[IdxMin(avg)].mean, GlobalAvg(avg)) == "blue"
    ensures (MarkerColour(avg[IdxMax(avg)].mean, GlobalAvg(avg)) == "red")
        <==> (avg[IdxMin(avg)].mean < avg[IdxMax(avg)].mean)
  {
    GlobalAvgBetweenExtremes(avg);
  }

  /** The `Temperature_C` column of a view. */
  function Temps(rows: seq<Enriched>): seq<real>
  {
    if |rows| == 0 then [] else [rows[0].temp] + Temps(rows[1..])
  }

  /** The readings of the rows of a view in one season. */
  function SeasonTemps(rows: seq<Enriched>, s: Season): seq<real>
  {
    if |rows| == 0 then []
    else (if rows[0].season == s then [rows[0].temp] else []) + SeasonTemps(rows[1..], s)
  }

  function SeasonsIn(rows: seq<Enriched>): set<Season>
  {
    set r | r in rows :: r.season
  }

  /** `filtered_df.groupby("Season")["Temperature_C"].sum()`: one sum per season present. */
  function SeasonalSums(view: seq<Enriched>): (sums: map<Season, real>)
    ensures sums.Keys == SeasonsIn(view)
  {
    map s | s in SeasonsIn(view) :: Sum(SeasonTemps(view, s))
  }

  /** A season's slice of the pie, zero when it has no group. */
  function Slice(sums: map<Season, real>, s: Season): real
  {
    if s in sums then sums[s] else 0.0
  }

  lemma {:induction false} SeasonTempsAbsent(rows: seq<Enriched>, s: Season)
    requires s !in SeasonsIn(rows)
    ensures SeasonTemps(rows, s) == []
  {
    if |rows| > 0 {
      assert rows[0] in rows;
      assert SeasonsIn(rows[1..]) <= SeasonsIn(rows) by {
        assert forall r :: r in rows[1..] ==> r in rows;
      }
      SeasonTempsAbsent(rows[1..], s);
    }
  }

  lemma {:induction false} SeasonTempsSplitTotal(rows: seq<Enriched>)
    ensures Sum(SeasonTemps(rows, Summer)) + Sum(SeasonTemps(rows, Winter)) + Sum(SeasonTemps(rows, Transition))
         == Sum(Temps(rows))
  {
    if |rows| > 0 {
      SeasonTempsSplitTotal(rows[1..]);
      var r := rows[0];
      var x: seq<real> := [r.temp];
      var e: seq<real> := [];
      SumAppend(if r.season == Summer then x else e, SeasonTemps(rows[1..], Summer));
      SumAppend(if r.season == Winter then x else e, SeasonTemps(rows[1..], Winter));
      SumAppend(if r.season == Transition then x else e, SeasonTemps(rows[1..], Transition));
      SumAppend(x, Temps(rows[1..]));
    }
  }

  /** The seasonal slices of a view add up to the total of its readings. */
  lemma SeasonalSumsAddUp(view: seq<Enriched>)
    ensures Slice(SeasonalSums(view), Summer) + Slice(SeasonalSums(view), Winter)
            + Slice(SeasonalSums(view), Transition) == Sum(Temps(view))
    ensures forall s :: s in SeasonalSums(view) ==> SeasonalSums(view)[s] == Sum(SeasonTemps(view, s))
  {
    SeasonTempsSplitTotal(view);
    var sums := SeasonalSums(view);
    forall s: Season
      ensures Slice(sums, s) == Sum(SeasonTemps(view, s))
    {
      if s !in sums {
        SeasonTempsAbsent(view, s);
      }
    }
  }
}
