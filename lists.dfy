/** Sequence helpers: iteration over a Python `set` built from a list, and sums of reals. */
module Lists {

  /**
   * The distinct elements of `s` in first-occurrence order. Python iterates a `set` in an
   * unspecified order; every loop over such a set in the detector computes a maximum, a count
   * or a sum, none of which depends on the order, so this order stands for it.
   */
  function Distinct(s: seq<string>): (r: seq<string>)
    ensures forall x :: x in r <==> x in s
    ensures forall i, j :: 0 <= i < j < |r| ==> r[i] != r[j]
    ensures |r| <= |s|
    ensures s != [] ==> r != []
  {
    if s == [] then []
    else
      var rest := Distinct(s[..|s| - 1]);
      if s[|s| - 1] in rest then rest else rest + [s[|s| - 1]]
  }

  /** `sum(xs)`. */
  function Sum(xs: seq<real>): real {
    if xs == [] then 0.0 else xs[0] + Sum(xs[1..])
  }

  /** A sum of values in `[lo, hi]` lies between `|xs| * lo` and `|xs| * hi`. */
  lemma {:induction false} SumBounds(xs: seq<real>, lo: real, hi: real)
    requires forall i :: 0 <= i < |xs| ==> lo <= xs[i] <= hi
    ensures |xs| as real * lo <= Sum(xs) <= |xs| as real * hi
  {
    if xs != [] {
      SumBounds(xs[1..], lo, hi);
    }
  }

  /** `sum(xs) / len(xs)`. */
  function Mean(xs: seq<real>): real
    requires xs != []
  {
    Sum(xs) / |xs| as real
  }

  /** The mean of values in `[0, 1]` is in `[0, 1]`. */
  lemma MeanUnit(xs: seq<real>)
    requires xs != [] && forall i :: 0 <= i < |xs| ==> 0.0 <= xs[i] <= 1.0
    ensures 0.0 <= Mean(xs) <= 1.0
  {
    SumBounds(xs, 0.0, 1.0);
    var n := |xs| as real;
    assert 0.0 <= Sum(xs) <= n;
    DivideUnit(Sum(xs), n);
  }

  lemma DivideUnit(x: real, n: real)
    requires 0.0 <= x <= n && n > 0.0
    ensures 0.0 <= x / n <= 1.0
  {
  }

  lemma SumAppend(xs: seq<real>, x: real)
    ensures Sum(xs + [x]) == Sum(xs) + x
  {
    if xs != [] {
      assert (xs + [x])[1..] == xs[1..] + [x];
      SumAppend(xs[1..], x);
    } else {
      assert [x][1..] == [];
    }
  }

  /** `sum(1 for x in xs if x >= t)`. */
  function CountAtLeast(xs: seq<real>, t: real): (n: nat)
    ensures n <= |xs|
  {
    if xs == [] then 0 else (if xs[0] >= t then 1 else 0) + CountAtLeast(xs[1..], t)
  }

  lemma CountAtLeastAppend(xs: seq<real>, x: real, t: real)
    ensures CountAtLeast(xs + [x], t) == CountAtLeast(xs, t) + (if x >= t then 1 else 0)
  {
    if xs != [] {
      assert (xs + [x])[1..] == xs[1..] + [x];
      CountAtLeastAppend(xs[1..], x, t);
    } else {
      assert [x][1..] == [];
    }
  }
}
