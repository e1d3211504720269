/**
 * The per-request view (app.py, FILTER DATA): the rows of the selected city,
 * narrowed to the selected season unless the period is "Full Year".
 */
module ViewFilter {

  import opened Records
  import opened Features
  import CityOrder

  /** The period choice that disables the season filter. */
  const FullYear: string := "Full Year"

  /** `df[df["Area"] == city]`. */
  function CityRows(rows: seq<Enriched>, city: string): (v: seq<Enriched>)
    ensures |v| <= |rows|
    ensures forall r :: r in v ==> r in rows && r.area == city
  {
    if |rows| == 0 then []
    else (if rows[0].area == city then [rows[0]] else []) + CityRows(rows[1..], city)
  }

  /** `view[view["Season"] == period]`: the rows whose season label reads `period`. */
  function SeasonRows(rows: seq<Enriched>, period: string): (v: seq<Enriched>)
    ensures |v| <= |rows|
    ensures forall r :: r in v ==> r in rows && SeasonName(r.season) == period
  {
    if |rows| == 0 then []
    else (if SeasonName(rows[0].season) == period then [rows[0]] else []) + SeasonRows(rows[1..], period)
  }

  /** `filtered_df` for the sidebar's `city` and `period`. */
  function Filter(rows: seq<Enriched>, city: string, period: string): (v: seq<Enriched>)
    ensures |v| <= |rows|
    ensures forall r :: r in v ==> r in rows && InView(r, city, period)
  {
    var byCity := CityRows(rows, city);
    if period != FullYear then SeasonRows(byCity, period) else byCity
  }

  /** A row belongs to the view of (city, period). */
  predicate InView(r: Enriched, city: string, period: string)
  {
    r.area == city && (period == FullYear || SeasonName(r.season) == period)
  }

  lemma {:induction false} CityRowsAppend(a: seq<Enriched>, b: seq<Enriched>, city: string)
    ensures CityRows(a + b, city) == CityRows(a, city) + CityRows(b, city)
  {
    if |a| == 0 {
      assert a + b == b;
    } else {
      var head := if a[0].area == city then [a[0]] else [];
      assert (a + b)[0] == a[0];
      assert (a + b)[1..] == a[1..] + b;
      assert CityRows(a + b, city) == head + CityRows(a[1..] + b, city);
      CityRowsAppend(a[1..], b, city);
      assert head + (CityRows(a[1..], city) + CityRows(b, city)) == (head + CityRows(a[1..], city)) + CityRows(b, city);
    }
  }

  lemma {:induction false} SeasonRowsAppend(a: seq<Enriched>, b: seq<Enriched>, period: string)
    ensures SeasonRows(a + b, period) == SeasonRows(a, period) + SeasonRows(b, period)
  {
    if |a| == 0 {
      assert a + b == b;
    } else {
      var head := if SeasonName(a[0].season) == period then [a[0]] else [];
      assert (a + b)[0] == a[0];
      assert (a + b)[1..] == a[1..] + b;
      assert SeasonRows(a + b, period) == head + SeasonRows(a[1..] + b, period);
      SeasonRowsAppend(a[1..], b, period);
      assert head + (SeasonRows(a[1..], period) + SeasonRows(b, period)) == (head + SeasonRows(a[1..], period)) + SeasonRows(b, period);
    }
  }

  /**
   * The view of a concatenation is the concatenation of the views: with
   * FilterSingle, the view is the subsequence of the table picked by InView,
   * in table order.
   */
  lemma FilterAppend(a: seq<Enriched>, b: seq<Enriched>, city: string, period: string)
    ensures Filter(a + b, city, period) == Filter(a, city, period) + Filter(b, city, period)
  {
    CityRowsAppend(a, b, city);
    SeasonRowsAppend(CityRows(a, city), CityRows(b, city), period);
  }

  /** A one-row table keeps its row exactly when the row is in the view. */
  lemma FilterSingle(r: Enriched, city: string, period: string)
    ensures Filter([r], city, period) == if InView(r, city, period) then [r] else []
  {
    assert [r][1..] == [];
    var byCity := if r.area == city then [r] else [];
    assert CityRows([r], city) == byCity;
    if r.area == city {
      assert SeasonRows(byCity, period) == if SeasonName(r.season) == period then [r] else [];
    } else {
      assert SeasonRows(byCity, period) == [];
    }
  }

  /** The rows of the view are exactly the rows of the table that are in the view. */
  lemma {:induction false} FilterMembers(rows: seq<Enriched>, city: string, period: string, r: Enriched)
    ensures r in Filter(rows, city, period) <==> r in rows && InView(r, city, period)
  {
    CityRowsMembers(rows, city, r);
    SeasonRowsMembers(CityRows(rows, city), period, r);
  }

  lemma {:induction false} CityRowsMembers(rows: seq<Enriched>, city: string, r: Enriched)
    ensures r in CityRows(rows, city) <==> r in rows && r.area == city
  {
    if |rows| > 0 {
      CityRowsMembers(rows[1..], city, r);
      assert r in rows <==> r == rows[0] || r in rows[1..];
    }
  }

  lemma {:induction false} SeasonRowsMembers(rows: seq<Enriched>, period: string, r: Enriched)
    ensures r in SeasonRows(rows, period) <==> r in rows && SeasonName(r.season) == period
  {
    if |rows| > 0 {
      SeasonRowsMembers(rows[1..], period, r);
      assert r in rows <==> r == rows[0] || r in rows[1..];
    }
  }

  /** Choosing a season as the period keeps the rows of that city in that season and no others. */
  lemma SeasonViewMembers(rows: seq<Enriched>, city: string, s: Season, r: Enriched)
    ensures r in Filter(rows, city, SeasonName(s)) <==> r in rows && r.area == city && r.season == s
  {
    FilterMembers(rows, city, SeasonName(s), r);
    SeasonNamesDistinct(r.season, s);
    assert SeasonName(s) != FullYear by {
      assert |SeasonName(s)| != |FullYear|;
    }
  }

  /**
   * The view is empty exactly when no row of the table is in it; in particular
   * a city without rows, such as one not in the data at all, gives an empty view.
   */
  lemma UnknownCityGivesEmptyView(rows: seq<Enriched>, city: string, period: string)
    ensures Filter(rows, city, period) == [] <==> forall i :: 0 <= i < |rows| ==> !InView(rows[i], city, period)
    ensures (forall i :: 0 <= i < |rows| ==> rows[i].area != city) ==> Filter(rows, city, period) == []
  {
    if Filter(rows, city, period) == [] {
      forall i | 0 <= i < |rows|
        ensures !InView(rows[i], city, period)
      {
        FilterMembers(rows, city, period, rows[i]);
      }
    } else {
      var r := Filter(rows, city, period)[0];
      assert r in Filter(rows, city, period);
      var i :| 0 <= i < |rows| && rows[i] == r;
      assert InView(rows[i], city, period);
    }
  }

  /** Every city offered by the sidebar has a non-empty full-year view. */
  lemma OfferedCityHasRows(obs: seq<Observation>, city: string)
    requires city in CityOrder.SortedAreas(obs)
    ensures Filter(Enrich(obs), city, FullYear) != []
  {
    var o :| o in obs && o.area == city;
    var i :| 0 <= i < |obs| && obs[i] == o;
    EnrichAt(obs, i);
    FilterMembers(Enrich(obs), city, FullYear, Enrich(obs)[i]);
  }

  /**
   * The index shown in a view is the one of the whole table: the reading
   * minus the mean of the city over every cleaned row, not over the view.
   */
  lemma ViewIndexUsesWholeTable(obs: seq<Observation>, city: string, period: string)
    ensures forall r :: r in Filter(Enrich(obs), city, period) ==>
              r.area == city && r.area in Areas(obs) && r.index == r.temp - CityMean(obs, r.area)
  {
    forall r | r in Filter(Enrich(obs), city, period)
      ensures r.area == city && r.area in Areas(obs) && r.index == r.temp - CityMean(obs, r.area)
    {
      FilterMembers(Enrich(obs), city, period, r);
      var i :| 0 <= i < |Enrich(obs)| && Enrich(obs)[i] == r;
      EnrichAt(obs, i);
      assert obs[i] in obs;
    }
  }
}
