/**
 * Levenshtein edit distance and the similarity ratio `1 - distance / max(len)` that every
 * matcher of the detector computes.
 */
module Levenshtein {

  function Min3(x: nat, y: nat, z: nat): (m: nat)
    ensures m <= x && m <= y && m <= z
    ensures m == x || m == y || m == z
  {
    if x <= y && x <= z then x else if y <= z then y else z
  }

  function Max(x: nat, y: nat): nat { if x >= y then x else y }

  /** Edit distance: the fewest single-character insertions, deletions and substitutions turning `a` into `b`. */
  function Distance(a: string, b: string): (d: nat)
    ensures d <= Max(|a|, |b|)
    ensures |a| <= d + |b| && |b| <= d + |a|
    decreases |a| + |b|
  {
    if a == [] then |b|
    else if b == [] then |a|
    else Min3(Distance(a[1..], b) + 1,
              Distance(a, b[1..]) + 1,
              Distance(a[1..], b[1..]) + (if a[0] == b[0] then 0 else 1))
  }

  /** The distance is zero exactly for equal strings. */
  lemma {:induction false} DistanceZero(a: string, b: string)
    ensures Distance(a, b) == 0 <==> a == b
    decreases |a| + |b|
  {
    if a != [] && b != [] {
      DistanceZero(a[1..], b[1..]);
      if a == b {
        assert a[1..] == b[1..];
      }
      if Distance(a, b) == 0 {
        assert a[0] == b[0] && Distance(a[1..], b[1..]) == 0;
        assert a == [a[0]] + a[1..] && b == [b[0]] + b[1..];
      }
    }
  }

  /** The distance does not depend on the order of its arguments. */
  lemma {:induction false} DistanceSymmetric(a: string, b: string)
    ensures Distance(a, b) == Distance(b, a)
    decreases |a| + |b|
  {
    if a != [] && b != [] {
      DistanceSymmetric(a[1..], b);
      DistanceSymmetric(a, b[1..]);
      DistanceSymmetric(a[1..], b[1..]);
    }
  }

  /** `1 - distance / max(len(a), len(b))`, defined when at least one string is non-empty. */
  function Ratio(a: string, b: string): (r: real)
    requires a != [] || b != []
    ensures 0.0 <= r <= 1.0
  {
    FractionBounds(Distance(a, b) as real, Max(|a|, |b|) as real);
    1.0 - Distance(a, b) as real / Max(|a|, |b|) as real
  }

  lemma FractionBounds(x: real, y: real)
    requires 0.0 <= x <= y && 0.0 < y
    ensures 0.0 <= x / y <= 1.0
  {
  }

  /** The ratio is 1.0 exactly for equal strings. */
  lemma RatioOne(a: string, b: string)
    requires a != [] || b != []
    ensures Ratio(a, b) == 1.0 <==> a == b
  {
    DistanceZero(a, b);
  }

  lemma RatioSymmetric(a: string, b: string)
    requires a != [] || b != []
    ensures Ratio(a, b) == Ratio(b, a)
  {
    DistanceSymmetric(a, b);
  }

  /** The highest ratio of `token` against any of `others` (each as the first argument), 0.0 when there is none. */
  function BestRatio(token: string, others: seq<string>): (b: real)
    ensures 0.0 <= b <= 1.0
    ensures forall t :: t in others && (t != [] || token != []) ==> Ratio(t, token) <= b
    ensures b == 0.0 || exists t :: t in others && (t != [] || token != []) && Ratio(t, token) == b
  {
    if others == [] then 0.0
    else
      var rest := others[..|others| - 1];
      var t := others[|others| - 1];
      assert others == rest + [t];
      var b := BestRatio(token, rest);
      if t == [] && token == [] then b
      else
        var sim := Ratio(t, token);
        if sim > b then sim else b
  }
}
