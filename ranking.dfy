/**
 * The common tail of both fuzzy matchers: `{m['match']: m for m in matches}` (one entry per
 * target, the last value winning, keys in first-insertion order), then
 * `sorted(..., key=similarity, reverse=True)` (a stable sort), then the first five.
 */
module Ranking {
  import opened Wrappers

  datatype Match = Match(target: string, similarity: real)

  predicate DistinctTargets(ms: seq<Match>) {
    forall i, j :: 0 <= i < j < |ms| ==> ms[i].target != ms[j].target
  }

  /** Non-increasing similarity. */
  predicate SortedDesc(ms: seq<Match>) {
    forall i, j :: 0 <= i < j < |ms| ==> ms[i].similarity >= ms[j].similarity
  }

  /** Position of the entry with target `t`, if any. */
  function FindTarget(ms: seq<Match>, t: string): (r: Option<nat>)
    ensures r.Some? ==> r.value < |ms| && ms[r.value].target == t
    ensures r.Some? ==> forall i :: 0 <= i < r.value ==> ms[i].target != t
    ensures r.None? ==> forall i :: 0 <= i < |ms| ==> ms[i].target != t
  {
    if ms == [] then None
    else if ms[0].target == t then Some(0)
    else match FindTarget(ms[1..], t)
      case None => None
      case Some(i) => Some(i + 1)
  }

  /** `d[m['match']] = m` on an insertion-ordered dictionary: an existing key keeps its place and takes the new value, a new key goes last. */
  function Put(d: seq<Match>, m: Match): (r: seq<Match>)
    requires DistinctTargets(d)
    ensures DistinctTargets(r)
    ensures m in r
    ensures forall x :: x in r ==> x == m || (x in d && x.target != m.target)
    ensures forall x :: x in d && x.target != m.target ==> x in r
  {
    match FindTarget(d, m.target)
      case Some(i) =>
        var r := d[i := m];
        assert r[i] == m;
        assert forall k :: 0 <= k < |d| && k != i ==> r[k] == d[k];
        r
      case None => d + [m]
  }

  /** The dictionary comprehension, one insertion per match, in order. */
  function Dedup(ms: seq<Match>): (r: seq<Match>)
    ensures DistinctTargets(r)
    ensures forall x :: x in r ==> x in ms
    ensures forall i :: 0 <= i < |ms| && (forall j :: i < j < |ms| ==> ms[j].target != ms[i].target) ==> ms[i] in r
  {
    if ms == [] then []
    else
      var d := Dedup(ms[..|ms| - 1]);
      var r := Put(d, ms[|ms| - 1]);
      assert forall i :: 0 <= i < |ms| - 1 ==> ms[..|ms| - 1][i] == ms[i];
      r
  }

  /** Every target of the input keeps an entry. */
  lemma DedupCovers(ms: seq<Match>, i: nat)
    requires i < |ms|
    ensures exists x :: x in Dedup(ms) && x.target == ms[i].target
  {
    var k := LastWithTarget(ms, ms[i].target, i);
    assert ms[k] in Dedup(ms);
  }

  /** The index of the last match with target `t`, given that `ms[i]` has it. */
  function LastWithTarget(ms: seq<Match>, t: string, i: nat): (k: nat)
    requires i < |ms| && ms[i].target == t
    ensures i <= k < |ms| && ms[k].target == t
    ensures forall j :: k < j < |ms| ==> ms[j].target != t
    decreases |ms| - i
  {
    if exists j :: i < j < |ms| && ms[j].target == t then
      var j :| i < j < |ms| && ms[j].target == t;
      LastWithTarget(ms, t, j)
    else i
  }

  /** Target `a` first occurs in `ms` before target `b` does. */
  predicate FirstBefore(ms: seq<Match>, a: string, b: string) {
    FindTarget(ms, a).Some? && FindTarget(ms, b).Some? && FindTarget(ms, a).value < FindTarget(ms, b).value
  }

  lemma {:induction false} FindTargetExtend(p: seq<Match>, m: Match, t: string)
    ensures FindTarget(p, t).Some? ==> FindTarget(p + [m], t) == FindTarget(p, t)
    ensures FindTarget(p, t).None? && m.target == t ==> FindTarget(p + [m], t) == Some(|p|)
  {
    if p != [] {
      assert (p + [m])[1..] == p[1..] + [m];
      FindTargetExtend(p[1..], m, t);
    }
  }

  /** The dictionary keeps its keys in the order in which they were first inserted. */
  lemma {:induction false} DedupKeyOrder(ms: seq<Match>)
    ensures forall i, j :: 0 <= i < j < |Dedup(ms)| ==> FirstBefore(ms, Dedup(ms)[i].target, Dedup(ms)[j].target)
  {
    if ms != [] {
      var p, m := ms[..|ms| - 1], ms[|ms| - 1];
      assert ms == p + [m];
      DedupKeyOrder(p);
      var d := Dedup(p);
      KeyOrderExtend(p, m, d);
      assert Dedup(ms) == Put(d, m);
      match FindTarget(d, m.target)
      case Some(k) =>
        ReplaceKeepsOrder(ms, d, k, m);
      case None =>
        NewKeyLast(p, m, d);
        AppendKeepsOrder(ms, d, m);
    }
  }

  /** The entries of `d` come in the order in which their targets first occur in `ms`. */
  predicate KeyOrdered(ms: seq<Match>, d: seq<Match>) {
    forall i, j :: 0 <= i < j < |d| ==> FirstBefore(ms, d[i].target, d[j].target)
  }

  /** Giving an existing key a new value keeps the key order. */
  lemma ReplaceKeepsOrder(ms: seq<Match>, d: seq<Match>, k: nat, m: Match)
    requires KeyOrdered(ms, d) && k < |d| && d[k].target == m.target
    ensures KeyOrdered(ms, d[k := m])
  {
    forall i | 0 <= i < |d| ensures d[k := m][i].target == d[i].target { }
  }

  /** A key that first occurs after all others may go last. */
  lemma AppendKeepsOrder(ms: seq<Match>, d: seq<Match>, m: Match)
    requires KeyOrdered(ms, d)
    requires forall i :: 0 <= i < |d| ==> FirstBefore(ms, d[i].target, m.target)
    ensures KeyOrdered(ms, d + [m])
  {
    forall i | 0 <= i < |d| ensures (d + [m])[i] == d[i] { }
  }

  lemma KeyOrderExtend(p: seq<Match>, m: Match, d: seq<Match>)
    requires forall i, j :: 0 <= i < j < |d| ==> FirstBefore(p, d[i].target, d[j].target)
    ensures forall i, j :: 0 <= i < j < |d| ==> FirstBefore(p + [m], d[i].target, d[j].target)
  {
    forall i, j | 0 <= i < j < |d| ensures FirstBefore(p + [m], d[i].target, d[j].target) {
      FindTargetExtend(p, m, d[i].target);
      FindTargetExtend(p, m, d[j].target);
    }
  }

  lemma NewKeyLast(p: seq<Match>, m: Match, d: seq<Match>)
    requires d == Dedup(p) && FindTarget(d, m.target).None?
    ensures forall i :: 0 <= i < |d| ==> FirstBefore(p + [m], d[i].target, m.target)
  {
    forall k | 0 <= k < |p| ensures p[k].target != m.target {
      DedupCovers(p, k);
    }
    FindTargetExtend(p, m, m.target);
    forall i | 0 <= i < |d| ensures FirstBefore(p + [m], d[i].target, m.target) {
      var x := d[i];
      assert x in p;
      var k :| 0 <= k < |p| && p[k] == x;
      FindTargetExtend(p, m, x.target);
    }
  }

  /** Places `m` before the first entry whose similarity is not above its own. */
  function Insert(m: Match, s: seq<Match>): (r: seq<Match>)
    ensures multiset(r) == multiset(s) + multiset{m}
    ensures forall x :: x in r <==> x in s || x == m
  {
    if s == [] || s[0].similarity <= m.similarity then [m] + s
    else
      assert s == [s[0]] + s[1..];
      [s[0]] + Insert(m, s[1..])
  }

  lemma {:induction false} InsertSorted(m: Match, s: seq<Match>)
    requires SortedDesc(s)
    ensures SortedDesc(Insert(m, s))
  {
    if !(s == [] || s[0].similarity <= m.similarity) {
      InsertSorted(m, s[1..]);
      var t := Insert(m, s[1..]);
      assert forall x :: x in t ==> x.similarity <= s[0].similarity;
      assert Insert(m, s) == [s[0]] + t;
    }
  }

  lemma {:induction false} InsertDistinct(m: Match, s: seq<Match>)
    requires DistinctTargets(s) && forall x :: x in s ==> x.target != m.target
    ensures DistinctTargets(Insert(m, s))
  {
    if !(s == [] || s[0].similarity <= m.similarity) {
      InsertDistinct(m, s[1..]);
      var t := Insert(m, s[1..]);
      assert forall x :: x in t ==> x.target != s[0].target;
      assert Insert(m, s) == [s[0]] + t;
    }
  }

  /** `sorted(ms, key=similarity, reverse=True)`. */
  function SortDesc(ms: seq<Match>): (r: seq<Match>)
    ensures SortedDesc(r)
    ensures multiset(r) == multiset(ms)
    ensures forall x :: x in r <==> x in ms
  {
    if ms == [] then []
    else
      assert ms == [ms[0]] + ms[1..];
      var t := SortDesc(ms[1..]);
      InsertSorted(ms[0], t);
      Insert(ms[0], t)
  }

  /** Sorting keeps targets distinct. */
  lemma {:induction false} SortDistinct(ms: seq<Match>)
    requires DistinctTargets(ms)
    ensures DistinctTargets(SortDesc(ms))
  {
    if ms != [] {
      SortDistinct(ms[1..]);
      InsertDistinct(ms[0], SortDesc(ms[1..]));
    }
  }

  /** The entries with similarity `v`, in order. */
  function WithSimilarity(ms: seq<Match>, v: real): seq<Match> {
    if ms == [] then []
    else (if ms[0].similarity == v then [ms[0]] else []) + WithSimilarity(ms[1..], v)
  }

  lemma {:induction false} InsertStable(m: Match, s: seq<Match>, v: real)
    ensures WithSimilarity(Insert(m, s), v)
         == (if m.similarity == v then [m] else []) + WithSimilarity(s, v)
  {
    if s == [] || s[0].similarity <= m.similarity {
      if s != [] && s[0].similarity == v && m.similarity != v {
      }
      assert ([m] + s)[1..] == s;
    } else {
      InsertStable(m, s[1..], v);
      assert ([s[0]] + Insert(m, s[1..]))[1..] == Insert(m, s[1..]);
    }
  }

  /** The sort is stable: entries of equal similarity keep their relative order. */
  lemma {:induction false} SortStable(ms: seq<Match>, v: real)
    ensures WithSimilarity(SortDesc(ms), v) == WithSimilarity(ms, v)
  {
    if ms != [] {
      SortStable(ms[1..], v);
      InsertStable(ms[0], SortDesc(ms[1..]), v);
    }
  }

  /** `ranked[:5]`. */
  function Top5(ms: seq<Match>): (r: seq<Match>)
    ensures |r| <= 5 && |r| <= |ms| && r == ms[..|r|]
    ensures |ms| <= 5 ==> r == ms
  {
    if |ms| <= 5 then ms else ms[..5]
  }

  /** Deduplicate, sort, keep five: the matcher's result list. */
  function Rank(ms: seq<Match>): (r: seq<Match>)
    ensures |r| <= 5
    ensures DistinctTargets(r)
    ensures SortedDesc(r)
    ensures forall x :: x in r ==> x in ms
  {
    var d := Dedup(ms);
    var s := SortDesc(d);
    SortDistinct(d);
    var r := Top5(s);
    assert forall x :: x in r ==> x in s;
    r
  }
}
