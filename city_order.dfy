/**
 * The order in which cities come out of `groupby("Area")` and
 * `sorted(df["Area"].unique())`: distinct names in ascending string order.
 */
module CityOrder {

  import opened Records

  /** Python's `<` on strings: code-point order, a proper prefix first. */
  predicate Less(a: string, b: string)
  {
    if |a| == 0 then |b| > 0
    else |b| > 0 && (a[0] < b[0] || (a[0] == b[0] && Less(a[1..], b[1..])))
  }

  lemma {:induction false} LessIrreflexive(a: string)
    ensures !Less(a, a)
  {
    if |a| > 0 {
      LessIrreflexive(a[1..]);
    }
  }

  lemma {:induction false} LessTransitive(a: string, b: string, c: string)
    requires Less(a, b) && Less(b, c)
    ensures Less(a, c)
  {
    if |a| > 0 && a[0] == b[0] && b[0] == c[0] {
      LessTransitive(a[1..], b[1..], c[1..]);
    }
  }

  lemma {:induction false} LessTotal(a: string, b: string)
    ensures a == b || Less(a, b) || Less(b, a)
  {
    if |a| > 0 && |b| > 0 && a[0] == b[0] {
      LessTotal(a[1..], b[1..]);
      if a[1..] == b[1..] {
        assert a == [a[0]] + a[1..] && b == [b[0]] + b[1..];
      }
    }
  }

  /** Ascending without repetition. */
  predicate StrictlySorted(s: seq<string>)
  {
    forall i, j :: 0 <= i < j < |s| ==> Less(s[i], s[j])
  }

  /** A strictly sorted list names each city at most once. */
  lemma StrictlySortedDistinct(s: seq<string>, i: int, j: int)
    requires StrictlySorted(s)
    requires 0 <= i < |s| && 0 <= j < |s| && s[i] == s[j]
    ensures i == j
  {
    if i < j || j < i {
      LessIrreflexive(s[i]);
    }
  }

  /** Adds `x` to a strictly sorted list of names unless it is there already. */
  function Insert(x: string, s: seq<string>): seq<string>
  {
    if |s| == 0 then [x]
    else if x == s[0] then s
    else if Less(x, s[0]) then [x] + s
    else [s[0]] + Insert(x, s[1..])
  }

  lemma {:induction false} InsertSorted(x: string, s: seq<string>)
    requires StrictlySorted(s)
    ensures StrictlySorted(Insert(x, s))
    ensures forall y :: y in Insert(x, s) <==> y == x || y in s
  {
    if |s| == 0 {
    } else if x == s[0] {
    } else if Less(x, s[0]) {
      forall j | 0 < j < |s|
        ensures Less(x, s[j])
      {
        LessTransitive(x, s[0], s[j]);
      }
    } else {
      LessTotal(x, s[0]);
      var rest := s[1..];
      InsertSorted(x, rest);
      var r := Insert(x, rest);
      forall j | 0 <= j < |r|
        ensures Less(s[0], r[j])
      {
        if r[j] != x {
          assert r[j] in rest;
          var k :| 0 <= k < |rest| && rest[k] == r[j];
          assert s[k + 1] == r[j];
        }
      }
      assert Insert(x, s) == [s[0]] + r;
      assert forall y :: y in s <==> y == s[0] || y in rest;
    }
  }

  lemma {:induction false} AreasCons(obs: seq<Observation>)
    requires |obs| > 0
    ensures Areas(obs) == {obs[0].area} + Areas(obs[1..])
  {
    assert forall o :: o in obs <==> o == obs[0] || o in obs[1..];
  }

  /** The distinct cities of the table in ascending order: the city choices and the group keys. */
  function SortedAreas(obs: seq<Observation>): (areas: seq<string>)
    ensures StrictlySorted(areas)
    ensures forall a :: a in areas <==> a in Areas(obs)
  {
    if |obs| == 0 then []
    else
      var rest := SortedAreas(obs[1..]);
      InsertSorted(obs[0].area, rest);
      AreasCons(obs);
      Insert(obs[0].area, rest)
  }
}
