/**
 * The records of the daily temperature table: one reading per city per day,
 * with `Date` already parsed into its calendar parts.
 */
module Records {

  import Stats

  /** A calendar month number, January = 1 … December = 12. */
  type MonthNum = m: int | 1 <= m <= 12 witness 1

  datatype Date = Date(year: int, month: MonthNum, day: int)

  /** A cleaned row: `Area`, `Date` and a valid `Temperature_C`. */
  datatype Observation = Observation(area: string, date: Date, temp: real)

  /** The distinct `Area` values of a table. */
  function Areas(obs: seq<Observation>): set<string>
  {
    set o | o in obs :: o.area
  }

  /** The `Temperature_C` column of the rows whose `Area` is `area`, in table order. */
  function CityTemps(obs: seq<Observation>, area: string): seq<real>
  {
    if |obs| == 0 then []
    else (if obs[0].area == area then [obs[0].temp] else []) + CityTemps(obs[1..], area)
  }

  /**
   * `df.groupby("Area")["Temperature_C"].mean()` at one city: the mean of that
   * city's readings over the whole table.
   */
  function CityMean(obs: seq<Observation>, area: string): (m: real)
    requires area in Areas(obs)
    ensures |CityTemps(obs, area)| > 0
    ensures (|CityTemps(obs, area)| as real) * m == Stats.Sum(CityTemps(obs, area))
  {
    var t := CityTemps(obs, area);
    CityTempsNonEmpty(obs, area);
    assert (|t| as real) * (Stats.Sum(t) / (|t| as real)) == Stats.Sum(t);
    Stats.Mean(t)
  }

  /** A city has readings exactly when it occurs in the table. */
  lemma {:induction false} CityTempsNonEmpty(obs: seq<Observation>, area: string)
    ensures |CityTemps(obs, area)| > 0 <==> area in Areas(obs)
  {
    if |obs| > 0 {
      CityTempsNonEmpty(obs[1..], area);
      assert Areas(obs) == {obs[0].area} + Areas(obs[1..]) by {
        assert forall o :: o in obs <==> o == obs[0] || o in obs[1..];
      }
    }
  }

  /** CityTemps distributes over concatenation. */
  lemma {:induction false} CityTempsAppend(a: seq<Observation>, b: seq<Observation>, area: string)
    ensures CityTemps(a + b, area) == CityTemps(a, area) + CityTemps(b, area)
  {
    if |a| == 0 {
      assert a + b == b;
    } else {
      var head := if a[0].area == area then [a[0].temp] else [];
      assert (a + b)[0] == a[0];
      assert (a + b)[1..] == a[1..] + b;
      assert CityTemps(a + b, area) == head + CityTemps(a[1..] + b, area);
      CityTempsAppend(a[1..], b, area);
      assert head + (CityTemps(a[1..], area) + CityTemps(b, area))
          == (head + CityTemps(a[1..], area)) + CityTemps(b, area);
    }
  }
}
