/**
 * The dashboard script's data flow, top to bottom: load and clean, derive the
 * features, filter the view for the sidebar selection, and compute the
 * metrics, the marker colours, the seasonal sums and the ranking.
 */
module Dashboard {

  import opened Stats
  import opened Records
  import opened Loader
  import opened Features
  import opened ViewFilter
  import opened Aggregates
  import opened Ranking

  /**
   * What the script computes for one sidebar selection. `ranking` is `None`
   * when the pie chart of the seasonal sums raises, which stops the script
   * before the ranking tab is reached.
   */
  datatype Page =
    | NoRows  // an empty cleaned table: `idxmax` raises, so the metrics and everything after them are not shown
    | Shown(view: seq<Enriched>, avg: seq<CityAvg>, globalAvg: real, hottest: string, coolest: string,
            colours: seq<string>, seasonalSums: map<Season, real>, ranking: Option<seq<RankRow>>)

  /** `ax.pie` refuses a negative wedge size, such as the sum of sub-zero winter readings. */
  predicate PieRejects(sums: map<Season, real>)
  {
    exists s :: s in sums && sums[s] < 0.0
  }

  method Run(raw: array<RawRow>, city: string, period: string) returns (table: array<Enriched>, page: Page)
    modifies raw
    ensures fresh(table)
    ensures raw[..] == MaskAll(old(raw[..]))
    ensures table[..] == Enrich(Clean(old(raw[..])))
    ensures Clean(old(raw[..])) == [] <==> page == NoRows
    ensures page.Shown? ==>
      var obs := Clean(old(raw[..]));
      && page.view == Filter(table[..], city, period)
      && page.avg == AvgTemp(obs)
      && |page.avg| > 0
      && page.globalAvg == GlobalAvg(page.avg)
      && page.hottest == Hottest(page.avg)
      && page.coolest == Coolest(page.avg)
      && |page.colours| == |page.avg|
      && (forall i :: 0 <= i < |page.avg| ==> (page.colours[i] == "red" <==> page.avg[i].mean > page.globalAvg))
      && (forall i :: 0 <= i < |page.avg| ==> (page.colours[i] == "blue" <==> page.avg[i].mean <= page.globalAvg))
      && page.seasonalSums == SeasonalSums(page.view)
      && (page.ranking.None? <==> PieRejects(page.seasonalSums))
      && (page.ranking.Some? ==>
            && |page.ranking.value| == |page.avg|
            && SortedByMeanDescending(Cities(page.ranking.value))
            && multiset(Cities(page.ranking.value)) == multiset(page.avg)
            && (forall i :: 0 <= i < |page.ranking.value| ==> page.ranking.value[i].position == i + 1))
  {
    var obs := LoadData(raw);
    table := DeriveFeatures(obs);
    var view := Filter(table[..], city, period);
    var avg := AvgTemp(obs);
    AvgTempOneRowPerCity(obs);
    if |obs| == 0 {
      page := NoRows;
    } else {
      var globalAvg := GlobalAvg(avg);
      var colours := MarkerColours(avg, globalAvg);
      var sums := SeasonalSums(view);
      var ranking: Option<seq<RankRow>> := None;
      if !PieRejects(sums) {
        var rows := Rank(avg);
        ranking := Some(rows);
      }
      page := Shown(view, avg, globalAvg, Hottest(avg), Coolest(avg), colours, sums, ranking);
    }
  }

  // A worked example: two Mumbai days and one Dubai day, plus a Dubai
  // reading that holds the sentinel and is dropped.

  const June := Date(2024, 6, 15)
  const January := Date(2024, 1, 15)

  function ExampleRaw(): seq<RawRow>
  {
    [RawRow("Mumbai", June, Some(32.0)), RawRow("Mumbai", January, Some(18.0)),
     RawRow("Dubai", June, Some(-999.0)), RawRow("Dubai", June, Some(40.0))]
  }

  function ExampleTable(): seq<Observation>
  {
    [Observation("Mumbai", June, 32.0), Observation("Mumbai", January, 18.0), Observation("Dubai", June, 40.0)]
  }

  lemma ExampleCleaning()
    ensures Clean(ExampleRaw()) == ExampleTable()
  {
    var raw := ExampleRaw();
    assert raw[3..][1..] == [];
    assert raw[2..][1..] == raw[3..] && raw[1..][1..] == raw[2..];
    assert Clean(raw[3..]) == [ExampleTable()[2]];
    assert Clean(raw[2..]) == [ExampleTable()[2]];
    assert Clean(raw[1..]) == ExampleTable()[1..];
  }

  lemma ExampleCityMeans()
    ensures Areas(ExampleTable()) == {"Mumbai", "Dubai"}
    ensures CityMean(ExampleTable(), "Mumbai") == 25.0
    ensures CityMean(ExampleTable(), "Dubai") == 40.0
  {
    ExampleMumbai();
    ExampleDubai();
  }

  lemma ExampleMumbai()
    ensures CityTemps(ExampleTable(), "Mumbai") == [32.0, 18.0]
    ensures Sum(CityTemps(ExampleTable(), "Mumbai")) == 50.0
  {
    var obs := ExampleTable();
    assert obs[2..][1..] == [] && obs[1..][1..] == obs[2..];
    assert "Dubai" != "Mumbai" by {
      assert "Dubai"[0] != "Mumbai"[0];
    }
    assert CityTemps(obs[2..], "Mumbai") == [];
    assert CityTemps(obs[1..], "Mumbai") == [18.0];
    var t := [32.0, 18.0];
    assert t[1..] == [18.0] && t[1..][1..] == [];
    assert Sum(t[1..][1..]) == 0.0;
    assert Sum(t[1..]) == 18.0;
  }

  lemma ExampleDubai()
    ensures CityTemps(ExampleTable(), "Dubai") == [40.0]
  {
    var obs := ExampleTable();
    assert obs[2..][1..] == [] && obs[1..][1..] == obs[2..];
    assert "Mumbai" != "Dubai" by {
      assert "Mumbai"[0] != "Dubai"[0];
    }
    assert CityTemps(obs[2..], "Dubai") == [40.0];
    assert CityTemps(obs[1..], "Dubai") == [40.0];
  }

  lemma ExampleAvgTemp()
    ensures AvgTemp(ExampleTable()) == [CityAvg("Dubai", 40.0), CityAvg("Mumbai", 25.0)]
  {
    var obs := ExampleTable();
    ExampleCityMeans();
    ExampleAreas();
    var avg := AvgTemp(obs);
    assert |avg| == 2;
    assert avg[0] == CityAvg("Dubai", 40.0);
    assert avg[1] == CityAvg("Mumbai", 25.0);
  }

  lemma ExampleAreas()
    ensures CityOrder.SortedAreas(ExampleTable()) == ["Dubai", "Mumbai"]
  {
    var obs := ExampleTable();
    ExampleCityMeans();
    var areas := CityOrder.SortedAreas(obs);
    assert CityOrder.Less("Dubai", "Mumbai");
    assert "Dubai" in areas && "Mumbai" in areas;
    assert |areas| == 2;
  }

  /** The metrics of the example: Dubai is hottest, Mumbai coolest, the global average 32.5. */
  lemma ExampleMetrics()
    ensures GlobalAvg(AvgTemp(ExampleTable())) == 32.5
    ensures Hottest(AvgTemp(ExampleTable())) == "Dubai"
    ensures Coolest(AvgTemp(ExampleTable())) == "Mumbai"
  {
    ExampleAvgTemp();
    ExampleGlobalAvg();
    ExampleExtremes();
  }

  /** The `avg_temp` of the example. */
  function ExampleAvg(): seq<CityAvg>
  {
    [CityAvg("Dubai", 40.0), CityAvg("Mumbai", 25.0)]
  }

  lemma ExampleGlobalAvg()
    ensures GlobalAvg(ExampleAvg()) == 32.5
  {
    var avg := ExampleAvg();
    var col := MeanColumn(avg);
    assert col == [40.0, 25.0];
    assert col[1..] == [25.0] && col[1..][1..] == [];
    assert Sum(col[1..][1..]) == 0.0;
    assert Sum(col[1..]) == 25.0;
    assert Sum(col) == 65.0;
  }

  lemma ExampleExtremes()
    ensures IdxMax(ExampleAvg()) == 0 && IdxMin(ExampleAvg()) == 1
  {
    var avg := ExampleAvg();
    assert avg[..1] == [avg[0]];
    assert IdxMax(avg[..1]) == 0 && IdxMin(avg[..1]) == 0;
  }

  /** The heat exposure index of the example: +7 and -7 for Mumbai, 0 for Dubai's single day. */
  lemma ExampleIndex()
    ensures Enrich(ExampleTable())[0].index == 7.0
    ensures Enrich(ExampleTable())[1].index == -7.0
    ensures Enrich(ExampleTable())[2].index == 0.0
  {
    ExampleCityMeans();
    EnrichAt(ExampleTable(), 0);
    EnrichAt(ExampleTable(), 1);
    EnrichAt(ExampleTable(), 2);
  }
}
