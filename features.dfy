/**
 * Feature engineering on the cleaned table: the `Month`, `Season` and
 * `Heat_Exposure_Index` columns added to every row.
 */
module Features {

  import opened Stats
  import opened Records

  datatype Season = Summer | Winter | Transition

  /** The season label of a month (June to August, December to February, the rest). */
  function SeasonOf(month: int): (s: Season)
    ensures s == Summer <==> 6 <= month <= 8
    ensures s == Winter <==> month == 12 || 1 <= month <= 2
    ensures s == Transition <==> !(6 <= month <= 8 || month == 12 || 1 <= month <= 2)
  {
    if month in [6, 7, 8] then Summer
    else if month in [12, 1, 2] then Winter
    else Transition
  }

  /** The text stored in the `Season` column. */
  function SeasonName(s: Season): string
  {
    match s
    case Summer => "Summer"
    case Winter => "Winter"
    case Transition => "Transition"
  }

  /** The months each season label stands for, written out as a table. */
  function MonthsOf(s: Season): set<int>
  {
    match s
    case Summer => {6, 7, 8}
    case Winter => {12, 1, 2}
    case Transition => {3, 4, 5, 9, 10, 11}
  }

  /** The three labels split the calendar months 1..12 without overlap, as the month table says. */
  lemma SeasonPartitionsMonths(m: MonthNum)
    ensures m in MonthsOf(SeasonOf(m))
    ensures forall s: Season :: m in MonthsOf(s) <==> s == SeasonOf(m)
  {
  }

  /** Distinct labels are stored as distinct texts. */
  lemma SeasonNamesDistinct(s: Season, t: Season)
    ensures SeasonName(s) == SeasonName(t) <==> s == t
  {
    if s != t {
      assert SeasonName(s)[0] != SeasonName(t)[0] || |SeasonName(s)| != |SeasonName(t)|;
    }
  }

  /** A row of the enriched table: the cleaned row plus the three derived columns. */
  datatype Enriched = Enriched(area: string, date: Date, temp: real, month: MonthNum, season: Season, index: real)

  /** One row enriched against `cityMean`, the mean reading of its own city. */
  function EnrichRow(o: Observation, cityMean: real): Enriched
  {
    Enriched(o.area, o.date, o.temp, o.date.month, SeasonOf(o.date.month), o.temp - cityMean)
  }

  /** `rows` enriched with the city means of `table`. */
  function EnrichRows(rows: seq<Observation>, table: seq<Observation>): (r: seq<Enriched>)
    requires forall o :: o in rows ==> o.area in Areas(table)
    ensures |r| == |rows|
  {
    if |rows| == 0 then []
    else [EnrichRow(rows[0], CityMean(table, rows[0].area))] + EnrichRows(rows[1..], table)
  }

  /** The enriched table: every row enriched with the mean of its city over the whole table. */
  function Enrich(obs: seq<Observation>): (r: seq<Enriched>)
    ensures |r| == |obs|
    ensures forall i :: 0 <= i < |obs| ==>
              r[i].area == obs[i].area && r[i].date == obs[i].date && r[i].temp == obs[i].temp
              && r[i].month == obs[i].date.month && r[i].season == SeasonOf(obs[i].date.month)
  {
    EnrichRowsKeepColumns(obs, obs);
    EnrichRows(obs, obs)
  }

  /** Enriching keeps a row's own columns and derives its month and season from its date. */
  lemma EnrichRowsKeepColumns(rows: seq<Observation>, table: seq<Observation>)
    requires forall o :: o in rows ==> o.area in Areas(table)
    ensures forall i :: 0 <= i < |rows| ==>
              EnrichRows(rows, table)[i].area == rows[i].area && EnrichRows(rows, table)[i].date == rows[i].date
              && EnrichRows(rows, table)[i].temp == rows[i].temp && EnrichRows(rows, table)[i].month == rows[i].date.month
              && EnrichRows(rows, table)[i].season == SeasonOf(rows[i].date.month)
  {
    forall i | 0 <= i < |rows|
      ensures EnrichRows(rows, table)[i] == EnrichRow(rows[i], CityMean(table, rows[i].area))
    {
      EnrichRowsAt(rows, table, i);
    }
  }

  /** Row `i` of the enriched table, column by column. */
  lemma EnrichAt(obs: seq<Observation>, i: int)
    requires 0 <= i < |obs|
    ensures |Enrich(obs)| == |obs|
    ensures Enrich(obs)[i].area == obs[i].area && Enrich(obs)[i].date == obs[i].date
    ensures Enrich(obs)[i].temp == obs[i].temp
    ensures Enrich(obs)[i].month == obs[i].date.month
    ensures Enrich(obs)[i].season == SeasonOf(obs[i].date.month)
    ensures Enrich(obs)[i].index == obs[i].temp - CityMean(obs, obs[i].area)
  {
    EnrichRowsAt(obs, obs, i);
  }

  lemma {:induction false} EnrichRowsAt(rows: seq<Observation>, table: seq<Observation>, i: int)
    requires forall o :: o in rows ==> o.area in Areas(table)
    requires 0 <= i < |rows|
    ensures |EnrichRows(rows, table)| == |rows|
    ensures EnrichRows(rows, table)[i] == EnrichRow(rows[i], CityMean(table, rows[i].area))
  {
    if i > 0 {
      EnrichRowsAt(rows[1..], table, i - 1);
    } else if |rows| > 1 {
      EnrichRowsAt(rows[1..], table, 0);
    }
  }

  /**
   * The feature-engineering step: fills a fresh table with the rows of `obs`
   * and their `Month`, `Season` and `Heat_Exposure_Index`.
   */
  method DeriveFeatures(obs: seq<Observation>) returns (table: array<Enriched>)
    ensures fresh(table)
    ensures table[..] == Enrich(obs)
  {
    table := new Enriched[|obs|](i requires 0 <= i < |obs| => EnrichRow(obs[i], 0.0));
    var i := 0;
    while i < table.Length
      invariant 0 <= i <= table.Length == |obs|
      invariant forall k :: 0 <= k < i ==> table[k] == EnrichRow(obs[k], CityMean(obs, obs[k].area))
    {
      var month := obs[i].date.month;
      var season := SeasonOf(month);
      var index := obs[i].temp - CityMean(obs, obs[i].area);
      table[i] := Enriched(obs[i].area, obs[i].date, obs[i].temp, month, season, index);
      i := i + 1;
    }
    EnrichByRows(obs, table[..]);
  }

  /** A table that agrees with Enrich row by row is the enriched table. */
  lemma EnrichByRows(obs: seq<Observation>, s: seq<Enriched>)
    requires |s| == |obs|
    requires forall k :: 0 <= k < |obs| ==> s[k] == EnrichRow(obs[k], CityMean(obs, obs[k].area))
    ensures s == Enrich(obs)
  {
    forall k | 0 <= k < |obs|
      ensures s[k] == Enrich(obs)[k]
    {
      EnrichRowsAt(obs, obs, k);
    }
  }

  /** The `Heat_Exposure_Index` column of the rows of `area`, in table order. */
  function CityIndices(rows: seq<Enriched>, area: string): seq<real>
  {
    if |rows| == 0 then []
    else (if rows[0].area == area then [rows[0].index] else []) + CityIndices(rows[1..], area)
  }

  /** Enriching against a fixed table shifts each city's readings by that city's mean. */
  lemma {:induction false} CityIndicesOfEnrichRows(rows: seq<Observation>, table: seq<Observation>, area: string)
    requires forall o :: o in rows ==> o.area in Areas(table)
    requires area in Areas(table)
    ensures CityIndices(EnrichRows(rows, table), area) == Shift(CityTemps(rows, area), CityMean(table, area))
  {
    if |rows| > 0 {
      var rest := rows[1..];
      assert forall o :: o in rest ==> o in rows;
      var e := EnrichRow(rows[0], CityMean(table, rows[0].area));
      var er := EnrichRows(rest, table);
      assert EnrichRows(rows, table) == [e] + er;
      CityIndicesCons(e, er, area);
      CityIndicesOfEnrichRows(rest, table, area);
      if rows[0].area == area {
        ShiftCons(rows[0].temp, CityTemps(rest, area), CityMean(table, area));
      }
    }
  }

  lemma CityIndicesCons(e: Enriched, rows: seq<Enriched>, area: string)
    ensures CityIndices([e] + rows, area) == (if e.area == area then [e.index] else []) + CityIndices(rows, area)
  {
    assert ([e] + rows)[0] == e;
    assert ([e] + rows)[1..] == rows;
  }

  /** A city that is not in the table has no index values at all. */
  lemma {:induction false} CityIndicesAbsent(rows: seq<Observation>, table: seq<Observation>, area: string)
    requires forall o :: o in rows ==> o.area in Areas(table)
    requires area !in Areas(table)
    ensures CityIndices(EnrichRows(rows, table), area) == []
  {
    if |rows| > 0 {
      assert rows[0] in rows;
      CityIndicesAbsent(rows[1..], table, area);
    }
  }

  /**
   * The heat exposure index is a per-city anomaly: over every city's rows it
   * sums to zero, so its mean is zero, and the city has one index per reading.
   */
  lemma HeatIndexSumsToZero(obs: seq<Observation>, area: string)
    ensures |CityIndices(Enrich(obs), area)| == |CityTemps(obs, area)|
    ensures Sum(CityIndices(Enrich(obs), area)) == 0.0
    ensures |CityIndices(Enrich(obs), area)| > 0 ==> Mean(CityIndices(Enrich(obs), area)) == 0.0
  {
    CityTempsNonEmpty(obs, area);
    if area in Areas(obs) {
      CityIndicesOfEnrichRows(obs, obs, area);
      DeviationsFromMeanSumToZero(CityTemps(obs, area));
    } else {
      CityIndicesAbsent(obs, obs, area);
    }
  }

  /** The reading of row `i` is among the readings of its city. */
  lemma {:induction false} RowInCityTemps(obs: seq<Observation>, i: int)
    requires 0 <= i < |obs|
    ensures obs[i].temp in CityTemps(obs, obs[i].area)
  {
    if i > 0 {
      RowInCityTemps(obs[1..], i - 1);
    }
  }

  /** A city with a single reading gets index 0 on it. */
  lemma SingleReadingHasIndexZero(obs: seq<Observation>, i: int)
    requires 0 <= i < |obs|
    requires |CityTemps(obs, obs[i].area)| == 1
    ensures Enrich(obs)[i].index == 0.0
  {
    EnrichAt(obs, i);
    RowInCityTemps(obs, i);
    var t := CityTemps(obs, obs[i].area);
    assert t == [obs[i].temp];
    assert Sum(t) == obs[i].temp;
  }
}
