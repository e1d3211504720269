/**
 * Exact sums and means over real numbers. They stand in for the floating-point
 * reductions (`sum`, `mean`) that the dashboard asks pandas for.
 */
module Stats {

  /** The sum of a column of readings. */
  function Sum(s: seq<real>): real
  {
    if |s| == 0 then 0.0 else s[0] + Sum(s[1..])
  }

  /** The arithmetic mean of a non-empty column. */
  function Mean(s: seq<real>): real
    requires |s| > 0
  {
    Sum(s) / (|s| as real)
  }

  /** Every element of `s` minus the constant `c`. */
  function Shift(s: seq<real>, c: real): seq<real>
  {
    seq(|s|, i requires 0 <= i < |s| => s[i] - c)
  }

  lemma ShiftCons(x: real, s: seq<real>, c: real)
    ensures Shift([x] + s, c) == [x - c] + Shift(s, c)
  {
    assert forall i :: 0 < i <= |s| ==> ([x] + s)[i] == s[i - 1];
  }

  lemma {:induction false} SumAppend(a: seq<real>, b: seq<real>)
    ensures Sum(a + b) == Sum(a) + Sum(b)
  {
    if |a| == 0 {
      assert a + b == b;
    } else {
      assert (a + b)[1..] == a[1..] + b;
      SumAppend(a[1..], b);
    }
  }

  /** Subtracting a constant from n readings lowers their sum by n times it. */
  lemma {:induction false} SumShift(s: seq<real>, c: real)
    ensures Sum(Shift(s, c)) == Sum(s) - (|s| as real) * c
  {
    if |s| > 0 {
      assert Shift(s, c)[1..] == Shift(s[1..], c);
      SumShift(s[1..], c);
    }
  }

  /** Readings minus their own mean sum to zero. */
  lemma DeviationsFromMeanSumToZero(s: seq<real>)
    requires |s| > 0
    ensures Sum(Shift(s, Mean(s))) == 0.0
  {
    SumShift(s, Mean(s));
    var n := |s| as real;
    assert n * (Sum(s) / n) == Sum(s);
  }

  /** Readings that are all at most zero sum to at most zero, strictly below when one of them is. */
  lemma {:induction false} SumNonPositive(s: seq<real>)
    requires forall i :: 0 <= i < |s| ==> s[i] <= 0.0
    ensures Sum(s) <= 0.0
    ensures (exists i :: 0 <= i < |s| && s[i] < 0.0) ==> Sum(s) < 0.0
  {
    if |s| > 0 {
      SumNonPositive(s[1..]);
      if exists i :: 0 <= i < |s| && s[i] < 0.0 {
        var i :| 0 <= i < |s| && s[i] < 0.0;
        if i > 0 {
          assert s[1..][i - 1] < 0.0;
        }
      }
    }
  }

  /** A sum of readings that are all at most `hi` is at most n * hi, strictly below when one reading is. */
  lemma SumAtMost(s: seq<real>, hi: real)
    requires forall i :: 0 <= i < |s| ==> s[i] <= hi
    ensures Sum(s) <= (|s| as real) * hi
    ensures (exists i :: 0 <= i < |s| && s[i] < hi) ==> Sum(s) < (|s| as real) * hi
  {
    SumShift(s, hi);
    SumNonPositive(Shift(s, hi));
    if exists i :: 0 <= i < |s| && s[i] < hi {
      var i :| 0 <= i < |s| && s[i] < hi;
      assert Shift(s, hi)[i] < 0.0;
    }
  }

  /** Symmetric to SumAtMost. */
  lemma SumAtLeast(s: seq<real>, lo: real)
    requires forall i :: 0 <= i < |s| ==> lo <= s[i]
    ensures (|s| as real) * lo <= Sum(s)
    ensures (exists i :: 0 <= i < |s| && lo < s[i]) ==> (|s| as real) * lo < Sum(s)
  {
    var neg := seq(|s|, i requires 0 <= i < |s| => lo - s[i]);
    SumShift(s, lo);
    NegatedSum(s, lo);
    SumNonPositive(neg);
    if exists i :: 0 <= i < |s| && lo < s[i] {
      var i :| 0 <= i < |s| && lo < s[i];
      assert neg[i] < 0.0;
    }
  }

  lemma {:induction false} NegatedSum(s: seq<real>, c: real)
    ensures Sum(seq(|s|, i requires 0 <= i < |s| => c - s[i])) == -Sum(Shift(s, c))
  {
    if |s| > 0 {
      assert seq(|s|, i requires 0 <= i < |s| => c - s[i])[1..] == seq(|s[1..]|, i requires 0 <= i < |s[1..]| => c - s[1..][i]);
      assert Shift(s, c)[1..] == Shift(s[1..], c);
      NegatedSum(s[1..], c);
    }
  }

  /** Dividing by a positive count keeps a bound: from x <= n * c follows x / n <= c, and likewise for < and >=. */
  lemma DivideBound(x: real, n: real, c: real)
    requires n > 0.0
    ensures x <= n * c ==> x / n <= c
    ensures x < n * c ==> x / n < c
    ensures n * c <= x ==> c <= x / n
    ensures n * c < x ==> c < x / n
  {
    var q := x / n;
    assert x == n * q;
    assert x - n * c == n * (q - c);
  }

  /** The mean lies between any lower and upper bound of the readings, strictly when some reading does. */
  lemma MeanBetween(s: seq<real>, lo: real, hi: real)
    requires |s| > 0
    requires forall i :: 0 <= i < |s| ==> lo <= s[i] <= hi
    ensures lo <= Mean(s) <= hi
    ensures (exists i :: 0 <= i < |s| && s[i] < hi) ==> Mean(s) < hi
    ensures (exists i :: 0 <= i < |s| && lo < s[i]) ==> lo < Mean(s)
  {
    SumAtMost(s, hi);
    SumAtLeast(s, lo);
    DivideBound(Sum(s), |s| as real, hi);
    DivideBound(Sum(s), |s| as real, lo);
  }
}
