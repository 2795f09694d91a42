/**
 * The best-single-match matcher of the live pipeline: both sides normalised to lower case and
 * single spaces; the first target that contains or is contained in the text wins with 1.0;
 * otherwise the short pair with the strictly highest Levenshtein ratio at or above the
 * threshold wins. Country codes, country names and cities are matched against the
 * jurisdictions of the offshore table.
 */
module SimpleMatcher {
  import opened Wrappers
  import opened Chars
  import opened Levenshtein
  import opened Prompts

  /** The default and only threshold used by the field matchers. */
  const Threshold: real := 0.8

  /** A match: the target as given and its score. */
  datatype Signal = Signal(value: string, score: real)

  /** `normalize_string`: "" for a falsy input; otherwise lower-case, with whitespace runs made single spaces and the ends trimmed. */
  function NormalizeString(s: Option<string>): string {
    if !Truthy(s) then [] else Join(" ", Split(Strip(Lower(s.value))))
  }

  /** Lower case, no whitespace at either end, and words separated by exactly one space. */
  predicate Canonical(r: string) {
    (forall i :: 0 <= i < |r| ==> !IsUpper(r[i]))
    && (r == [] || (!IsSpace(r[0]) && !IsSpace(r[|r| - 1])))
    && Join(" ", Split(r)) == r
  }

  lemma NormalizeCanonical(s: Option<string>)
    ensures Canonical(NormalizeString(s))
  {
    if Truthy(s) {
      StrippedLowerNoUpper(s.value);
      CanonicalJoin(Strip(Lower(s.value)));
    }
  }

  /** Joining the tokens of a string without upper-case letters by single spaces gives a canonical string. */
  lemma CanonicalJoin(x: string)
    requires forall i :: 0 <= i < |x| ==> !IsUpper(x[i])
    ensures Canonical(Join(" ", Split(x)))
  {
    var r := Join(" ", Split(x));
    JoinSplitNoUpper(x, r);
    JoinSplitEdges(x, r);
    JoinSplitOfJoin(x, r);
  }

  lemma JoinSplitOfJoin(x: string, r: string)
    requires r == Join(" ", Split(x))
    ensures Join(" ", Split(r)) == r
  {
    JoinSplitFixed(x);
  }

  lemma JoinSplitFixed(x: string)
    ensures Split(Join(" ", Split(x))) == Split(x)
  {
    var ts := Split(x);
    forall i | 0 <= i < |ts| ensures ts[i] != [] && NoSpace(ts[i]) {
      assert ts[i] in ts;
    }
    SplitJoin(ts);
  }

  lemma StrippedLowerNoUpper(v: string)
    ensures forall i :: 0 <= i < |Strip(Lower(v))| ==> !IsUpper(Strip(Lower(v))[i])
  {
    var l := Lower(v);
    StripSubset(l);
    forall i | 0 <= i < |Strip(l)| ensures !IsUpper(Strip(l)[i]) {
      assert Strip(l)[i] in Strip(l);
    }
  }

  lemma JoinSplitNoUpper(x: string, r: string)
    requires forall i :: 0 <= i < |x| ==> !IsUpper(x[i])
    requires r == Join(" ", Split(x))
    ensures forall i :: 0 <= i < |r| ==> !IsUpper(r[i])
  {
    SplitNoUpper(x);
    JoinNoUpper(Split(x), r);
  }

  lemma SplitNoUpper(x: string)
    requires forall i :: 0 <= i < |x| ==> !IsUpper(x[i])
    ensures forall t :: t in Split(x) ==> forall i :: 0 <= i < |t| ==> !IsUpper(t[i])
  {
    var p := (c: char) => !IsUpper(c);
    assert AllChars(x, p);
    SplitKeeps(x, p);
  }

  lemma JoinNoUpper(ts: seq<string>, r: string)
    requires forall t :: t in ts ==> forall i :: 0 <= i < |t| ==> !IsUpper(t[i])
    requires r == Join(" ", ts)
    ensures forall i :: 0 <= i < |r| ==> !IsUpper(r[i])
  {
    var p := (c: char) => !IsUpper(c);
    JoinKeeps(" ", ts, p);
  }

  lemma JoinSplitEdges(x: string, r: string)
    requires r == Join(" ", Split(x))
    ensures r == [] || (!IsSpace(r[0]) && !IsSpace(r[|r| - 1]))
  {
    var ts := Split(x);
    if ts != [] {
      assert ts[0] in ts && ts[|ts| - 1] in ts;
      JoinFirst(ts);
      JoinLast(ts);
    }
  }

  lemma LowerNoUpper(r: string)
    requires forall i :: 0 <= i < |r| ==> !IsUpper(r[i])
    ensures Lower(r) == r
  {
  }

  lemma LowerStripFixed(r: string)
    requires forall i :: 0 <= i < |r| ==> !IsUpper(r[i])
    requires r == [] || (!IsSpace(r[0]) && !IsSpace(r[|r| - 1]))
    ensures Strip(Lower(r)) == r
  {
    LowerNoUpper(r);
    StripNoEdges(r);
  }

  /** A canonical string is its own normal form. */
  lemma CanonicalFixed(r: string)
    requires Canonical(r)
    ensures NormalizeString(Some(r)) == r
  {
    if r != [] {
      LowerStripFixed(r);
    }
  }

  /** Normalising twice is normalising once. */
  lemma NormalizeIdempotent(s: Option<string>)
    ensures NormalizeString(Some(NormalizeString(s))) == NormalizeString(s)
  {
    NormalizeCanonical(s);
    CanonicalFixed(NormalizeString(s));
  }

  /** The normal form of a target. */
  function Norm(t: string): string {
    NormalizeString(Some(t))
  }

  /** What the target loop does with one target: skip it, return it as a substring hit, or compare it by ratio. */
  datatype Outcome = Skip | Hit | Fuzzy(sim: real)

  /** The outcome for target `t` against the normalised text `tn`. */
  function OutcomeOf(tn: string, t: string): Outcome {
    var n := Norm(t);
    if n == [] then Skip
    else if Contains(tn, n) || Contains(n, tn) then Hit
    else if |tn| < 20 || |n| < 20 then Fuzzy(Ratio(tn, n))
    else Skip
  }

  /** The outcomes of all targets, in order. */
  function Outcomes(tn: string, ts: seq<string>): (os: seq<Outcome>)
    ensures |os| == |ts|
  {
    if ts == [] then [] else [OutcomeOf(tn, ts[0])] + Outcomes(tn, ts[1..])
  }

  lemma {:induction false} OutcomesAt(tn: string, ts: seq<string>, i: nat)
    requires i < |ts|
    ensures Outcomes(tn, ts)[i] == OutcomeOf(tn, ts[i])
  {
    if i > 0 {
      OutcomesAt(tn, ts[1..], i - 1);
    }
  }

  lemma OutcomesAll(tn: string, ts: seq<string>)
    ensures forall i :: 0 <= i < |ts| ==> Outcomes(tn, ts)[i] == OutcomeOf(tn, ts[i])
  {
    forall i | 0 <= i < |ts| ensures Outcomes(tn, ts)[i] == OutcomeOf(tn, ts[i]) {
      OutcomesAt(tn, ts, i);
    }
  }

  /** A target that can become the best match: compared by ratio, at or above the threshold, and above the initial best score of 0.0. */
  predicate Qualifies(o: Outcome, threshold: real) {
    o.Fuzzy? && o.sim >= threshold && o.sim > 0.0
  }

  /** The loop state of `simple_fuzzy_match`: returned early with a substring match, or still running with the best so far. */
  datatype Scan = Returned(signal: Signal) | Running(best: Option<string>, bestScore: real)

  /** One iteration of the target loop. */
  function StepTarget(best: Option<string>, bestScore: real, t: string, o: Outcome, threshold: real): Scan {
    match o
    case Skip => Running(best, bestScore)
    case Hit => Returned(Signal(t, 1.0))
    case Fuzzy(sim) => if sim >= threshold && sim > bestScore then Running(Some(t), sim) else Running(best, bestScore)
  }

  /** The loop state after the given targets and their outcomes, in order. */
  function ScanAll(ts: seq<string>, os: seq<Outcome>, threshold: real): Scan
    requires |os| == |ts|
  {
    if ts == [] then Running(None, 0.0)
    else Advance(ScanAll(ts[..|ts| - 1], os[..|ts| - 1], threshold), ts[|ts| - 1], os[|ts| - 1], threshold)
  }

  /** A returned loop stays returned; a running one takes the next step. */
  function Advance(st: Scan, t: string, o: Outcome, threshold: real): Scan {
    match st
    case Returned(s) => Returned(s)
    case Running(b, s) => StepTarget(b, s, t, o, threshold)
  }

  /** `simple_fuzzy_match`. */
  function SimpleFuzzyMatchSpec(text: Option<string>, targets: seq<string>, threshold: real): Option<Signal> {
    if !Truthy(text) || targets == [] then None
    else
      var tn := NormalizeString(text);
      if tn == [] then None
      else
        match ScanAll(targets, Outcomes(tn, targets), threshold)
        case Returned(s) => Some(s)
        case Running(b, s) => if Truthy(b) then Some(Signal(b.value, s)) else None
  }

  /** Once the loop has returned, later targets change nothing. */
  lemma {:induction false} ReturnedStays(ts: seq<string>, os: seq<Outcome>, i: nat, threshold: real)
    requires |os| == |ts| && i <= |ts| && ScanAll(ts[..i], os[..i], threshold).Returned?
    ensures ScanAll(ts, os, threshold) == ScanAll(ts[..i], os[..i], threshold)
    decreases |ts| - i
  {
    if i < |ts| {
      assert ts[..i + 1][..i] == ts[..i];
      assert os[..i + 1][..i] == os[..i];
      ReturnedStays(ts, os, i + 1, threshold);
    } else {
      assert ts[..i] == ts;
      assert os[..i] == os;
    }
  }

  /** Target `k` qualifies, beats every earlier qualifying target strictly and is not beaten by a later one. */
  predicate IsBest(os: seq<Outcome>, threshold: real, k: nat) {
    k < |os| && Qualifies(os[k], threshold)
    && (forall j :: 0 <= j < k && Qualifies(os[j], threshold) ==> os[j].sim < os[k].sim)
    && (forall j :: k < j < |os| && Qualifies(os[j], threshold) ==> os[j].sim <= os[k].sim)
  }

  /** Without a substring hit, the loop keeps the earliest target of strictly highest qualifying score. */
  lemma {:induction false} RunningBest(ts: seq<string>, os: seq<Outcome>, threshold: real)
    requires |os| == |ts| && forall j :: 0 <= j < |os| ==> os[j] != Hit
    ensures ScanAll(ts, os, threshold).Running?
    ensures var st := ScanAll(ts, os, threshold);
      st.best.None? ==> st.bestScore == 0.0 && forall j :: 0 <= j < |os| ==> !Qualifies(os[j], threshold)
    ensures var st := ScanAll(ts, os, threshold);
      st.best.Some? ==> exists k: nat :: IsBest(os, threshold, k) && st.best.value == ts[k] && st.bestScore == os[k].sim
  {
    if ts != [] {
      var n := |ts| - 1;
      var pre, opre := ts[..n], os[..n];
      assert forall j :: 0 <= j < n ==> opre[j] == os[j];
      RunningBest(pre, opre, threshold);
      var st := ScanAll(pre, opre, threshold);
      if st.best.None? {
        if Qualifies(os[n], threshold) {
          assert IsBest(os, threshold, n);
        }
      } else {
        var k: nat :| IsBest(opre, threshold, k) && st.best.value == pre[k] && st.bestScore == opre[k].sim;
        if Qualifies(os[n], threshold) && os[n].sim > st.bestScore {
          assert IsBest(os, threshold, n);
        } else {
          assert IsBest(os, threshold, k);
        }
      }
    }
  }

  /** The first substring hit decides: its target is returned with 1.0 whatever follows. */
  lemma FirstHitWins(ts: seq<string>, os: seq<Outcome>, threshold: real, k: nat)
    requires |os| == |ts| && k < |ts| && os[k] == Hit
    requires forall j :: 0 <= j < k ==> os[j] != Hit
    ensures ScanAll(ts, os, threshold) == Returned(Signal(ts[k], 1.0))
  {
    assert ts[..k + 1][..k] == ts[..k];
    assert os[..k + 1][..k] == os[..k];
    RunningBest(ts[..k], os[..k], threshold);
    ReturnedStays(ts, os, k + 1, threshold);
  }

  /** Every score the loop keeps comes from a qualifying outcome, so it is positive, at least the threshold and at most 1.0. */
  lemma {:induction false} ScanBounds(ts: seq<string>, os: seq<Outcome>, threshold: real)
    requires |os| == |ts| && forall j :: 0 <= j < |os| ==> os[j].Fuzzy? ==> os[j].sim <= 1.0
    ensures var st := ScanAll(ts, os, threshold);
      st.Returned? ==> st.signal.value in ts && st.signal.score == 1.0
    ensures var st := ScanAll(ts, os, threshold);
      st.Running? && st.best.Some? ==> st.best.value in ts && 0.0 < st.bestScore <= 1.0 && st.bestScore >= threshold
    ensures var st := ScanAll(ts, os, threshold);
      st.Running? && st.best.None? ==> st.bestScore == 0.0
  {
    if ts != [] {
      var n := |ts| - 1;
      assert forall j :: 0 <= j < n ==> os[..n][j] == os[j];
      ScanBounds(ts[..n], os[..n], threshold);
      assert forall x :: x in ts[..n] ==> x in ts;
    }
  }

  /** A non-empty outcome needs a non-empty normal form, hence a non-empty target. */
  lemma OutcomeNonEmpty(tn: string, t: string)
    requires OutcomeOf(tn, t) != Skip
    ensures t != [] && Norm(t) != []
  {
  }

  /** Ratios are at most 1.0. */
  lemma OutcomesBounded(tn: string, ts: seq<string>)
    ensures forall j :: 0 <= j < |ts| ==> Outcomes(tn, ts)[j].Fuzzy? ==> Outcomes(tn, ts)[j].sim <= 1.0
  {
    OutcomesAll(tn, ts);
  }

  /** A target whose normal form contains, or is contained in, the text, and no earlier such target: it is the result, with 1.0. */
  lemma SubstringFirst(text: Option<string>, targets: seq<string>, threshold: real, k: nat)
    requires Truthy(text) && NormalizeString(text) != []
    requires k < |targets| && OutcomeOf(NormalizeString(text), targets[k]) == Hit
    requires forall j :: 0 <= j < k ==> OutcomeOf(NormalizeString(text), targets[j]) != Hit
    ensures SimpleFuzzyMatchSpec(text, targets, threshold) == Some(Signal(targets[k], 1.0))
  {
    OutcomesAll(NormalizeString(text), targets);
    FirstHitWins(targets, Outcomes(NormalizeString(text), targets), threshold, k);
  }

  /**
   * With no substring hit, there is a result exactly when some target qualifies, and then it is
   * the earliest target of strictly highest ratio, with that ratio as its score.
   */
  lemma BestRatioWins(text: Option<string>, targets: seq<string>, threshold: real)
    requires Truthy(text) && NormalizeString(text) != []
    requires forall j :: 0 <= j < |targets| ==> OutcomeOf(NormalizeString(text), targets[j]) != Hit
    ensures var os := Outcomes(NormalizeString(text), targets);
      SimpleFuzzyMatchSpec(text, targets, threshold).Some? <==> exists j :: 0 <= j < |os| && Qualifies(os[j], threshold)
    ensures var os := Outcomes(NormalizeString(text), targets); var r := SimpleFuzzyMatchSpec(text, targets, threshold);
      r.Some? ==> exists k: nat :: IsBest(os, threshold, k) && r.value == Signal(targets[k], os[k].sim)
  {
    var tn := NormalizeString(text);
    var os := Outcomes(tn, targets);
    forall j | 0 <= j < |os| ensures os[j] != Hit {
      OutcomesAt(tn, targets, j);
    }
    RunningBest(targets, os, threshold);
    var st := ScanAll(targets, os, threshold);
    var r := SimpleFuzzyMatchSpec(text, targets, threshold);
    if st.best.Some? {
      var k: nat :| IsBest(os, threshold, k) && st.best.value == targets[k] && st.bestScore == os[k].sim;
      OutcomesAt(tn, targets, k);
      OutcomeNonEmpty(tn, targets[k]);
      assert r == Some(Signal(targets[k], os[k].sim));
    } else {
      assert r.None?;
    }
  }

  /** Pairs where both normal forms have at least 20 characters can only match by substring. */
  lemma LongPairsSubstringOnly(tn: string, t: string)
    requires |tn| >= 20 && |Norm(t)| >= 20
    ensures OutcomeOf(tn, t) == Hit || OutcomeOf(tn, t) == Skip
  {
  }

  /** Any result names one of the targets, scores at most 1.0, and scores 1.0 or at least the threshold. */
  lemma SimpleFuzzyMatchBounds(text: Option<string>, targets: seq<string>, threshold: real)
    ensures var r := SimpleFuzzyMatchSpec(text, targets, threshold);
      r.Some? ==> r.value.value in targets && 0.0 < r.value.score <= 1.0 && (r.value.score == 1.0 || r.value.score >= threshold)
  {
    if Truthy(text) && targets != [] && NormalizeString(text) != [] {
      var tn := NormalizeString(text);
      OutcomesBounded(tn, targets);
      ScanBounds(targets, Outcomes(tn, targets), threshold);
    }
  }

  lemma ScanNext(ts: seq<string>, os: seq<Outcome>, threshold: real, i: nat)
    requires |os| == |ts| && i < |ts|
    ensures ScanAll(ts[..i + 1], os[..i + 1], threshold) == Advance(ScanAll(ts[..i], os[..i], threshold), ts[i], os[i], threshold)
  {
    assert ts[..i + 1][..i] == ts[..i];
    assert os[..i + 1][..i] == os[..i];
  }

  lemma ScanWhole(ts: seq<string>, os: seq<Outcome>, threshold: real)
    requires |os| == |ts|
    ensures ScanAll(ts[..|ts|], os[..|ts|], threshold) == ScanAll(ts, os, threshold)
  {
    assert ts[..|ts|] == ts;
    assert os[..|ts|] == os;
  }

  /** The per-target body of the loop of `simple_fuzzy_match`: normalise, test substrings, then compare short pairs. */
  method AssessTarget(tn: string, target: string) returns (o: Outcome)
    ensures o == OutcomeOf(tn, target)
  {
    var targetNorm := NormalizeString(Some(target));
    if |targetNorm| == 0 {
      return Skip;
    }
    if Contains(tn, targetNorm) || Contains(targetNorm, tn) {
      return Hit;
    }
    if |tn| < 20 || |targetNorm| < 20 {
      var similarity := Ratio(tn, targetNorm);
      return Fuzzy(similarity);
    }
    return Skip;
  }

  /** One pass of the target loop of `simple_fuzzy_match`: assess the target, then return it or update the running best. */
  method ScanStep(tn: string, targets: seq<string>, i: nat, bestMatch: Option<string>, bestScore: real, threshold: real)
    returns (st: Scan)
    requires i < |targets|
    ensures st == Advance(Running(bestMatch, bestScore), targets[i], Outcomes(tn, targets)[i], threshold)
  {
    var o := AssessTarget(tn, targets[i]);
    OutcomesAt(tn, targets, i);
    match o {
      case Skip =>
        return Running(bestMatch, bestScore);
      case Hit =>
        return Returned(Signal(targets[i], 1.0));
      case Fuzzy(similarity) =>
        if similarity >= threshold && similarity > bestScore {
          return Running(Some(targets[i]), similarity);
        }
        return Running(bestMatch, bestScore);
    }
  }

  /** The target loop of `simple_fuzzy_match`: returns early on a substring hit, otherwise keeps the running best. */
  method ScanTargets(tn: string, targets: seq<string>, threshold: real) returns (st: Scan)
    ensures st == ScanAll(targets, Outcomes(tn, targets), threshold)
  {
    ghost var os := Outcomes(tn, targets);
    var bestMatch: Option<string> := None;
    var bestScore := 0.0;
    assert ScanAll(targets[..0], os[..0], threshold) == Running(None, 0.0);
    for i := 0 to |targets|
      invariant ScanAll(targets[..i], os[..i], threshold) == Running(bestMatch, bestScore)
    {
      ScanNext(targets, os, threshold, i);
      var next := ScanStep(tn, targets, i, bestMatch, bestScore, threshold);
      if next.Returned? {
        ReturnedStays(targets, os, i + 1, threshold);
        return next;
      }
      bestMatch, bestScore := next.best, next.bestScore;
    }
    ScanWhole(targets, os, threshold);
    return Running(bestMatch, bestScore);
  }

  /** `simple_fuzzy_match` as written. */
  method SimpleFuzzyMatch(text: Option<string>, targets: seq<string>, threshold: real) returns (r: Option<Signal>)
    ensures r == SimpleFuzzyMatchSpec(text, targets, threshold)
  {
    if !Truthy(text) || |targets| == 0 {
      return None;
    }
    var tn := NormalizeString(text);
    if |tn| == 0 {
      return None;
    }
    var st := ScanTargets(tn, targets, threshold);
    match st {
      case Returned(signal) =>
        return Some(signal);
      case Running(bestMatch, bestScore) =>
        if Truthy(bestMatch) {
          return Some(Signal(bestMatch.value, bestScore));
        }
        return None;
    }
  }

  /** The codes compared by `match_country_code`: each jurisdiction's code2 then code3, when non-empty. */
  function CodeList(js: seq<Jurisdiction>): seq<string> {
    if js == [] then []
    else
      var j := js[|js| - 1];
      CodeList(js[..|js| - 1]) + (if j.code2 != [] then [j.code2] else []) + (if j.code3 != [] then [j.code3] else [])
  }

  /** Exactly the non-empty codes of the jurisdictions are compared. */
  lemma {:induction false} CodeListMembers(js: seq<Jurisdiction>)
    ensures forall t :: t in CodeList(js) <==> t != [] && exists j :: j in js && (t == j.code2 || t == j.code3)
  {
    if js != [] {
      var pre := js[..|js| - 1];
      CodeListMembers(pre);
      assert js == pre + [js[|js| - 1]];
    }
  }

  /** The loop of `match_country_code` that collects the codes. */
  method CodeTargets(js: seq<Jurisdiction>) returns (codes: seq<string>)
    ensures codes == CodeList(js)
  {
    codes := [];
    for i := 0 to |js|
      invariant codes == CodeList(js[..i])
    {
      assert js[..i + 1][..i] == js[..i];
      if |js[i].code2| > 0 {
        codes := codes + [js[i].code2];
      }
      if |js[i].code3| > 0 {
        codes := codes + [js[i].code3];
      }
    }
    assert js[..|js|] == js;
  }

  /** `[j['name'] for j in jurisdictions if j.get('name')]`. */
  function NameList(js: seq<Jurisdiction>): (names: seq<string>)
    ensures |names| <= |js|
  {
    if js == [] then [] else (if js[0].name != [] then [js[0].name] else []) + NameList(js[1..])
  }

  /** Exactly the non-empty names of the jurisdictions are compared. */
  lemma {:induction false} NameListMembers(js: seq<Jurisdiction>)
    ensures forall t :: t in NameList(js) <==> t != [] && exists j :: j in js && t == j.name
  {
    if js != [] {
      NameListMembers(js[1..]);
      assert js == [js[0]] + js[1..];
    }
  }

  /** `match_country_code` against the given jurisdictions. */
  function MatchCountryCode(code: Option<string>, js: seq<Jurisdiction>): Option<Signal> {
    if !Truthy(code) then None else SimpleFuzzyMatchSpec(code, CodeList(js), Threshold)
  }

  /** `match_country_name` against the given jurisdictions. */
  function MatchCountryName(name: Option<string>, js: seq<Jurisdiction>): Option<Signal> {
    if !Truthy(name) then None else SimpleFuzzyMatchSpec(name, NameList(js), Threshold)
  }

  /** `match_city`: a city is compared with the jurisdiction names. */
  function MatchCity(city: Option<string>, js: seq<Jurisdiction>): Option<Signal> {
    if !Truthy(city) then None else SimpleFuzzyMatchSpec(city, NameList(js), Threshold)
  }

  /** A country code matches only a code2 or code3 of some jurisdiction, with a score in (0, 1]. */
  lemma CountryCodeSource(code: Option<string>, js: seq<Jurisdiction>)
    ensures var r := MatchCountryCode(code, js);
      r.Some? ==> (Truthy(code) && 0.0 < r.value.score <= 1.0
        && exists j :: j in js && (r.value.value == j.code2 || r.value.value == j.code3))
  {
    SimpleFuzzyMatchBounds(code, CodeList(js), Threshold);
    CodeListMembers(js);
  }

  /** A country name or a city matches only the name of some jurisdiction, with a score in (0, 1]. */
  lemma NameSource(name: Option<string>, js: seq<Jurisdiction>)
    ensures var r := MatchCountryName(name, js);
      r.Some? ==> (Truthy(name) && 0.0 < r.value.score <= 1.0 && exists j :: j in js && r.value.value == j.name)
    ensures var r := MatchCity(name, js);
      r.Some? ==> (Truthy(name) && 0.0 < r.value.score <= 1.0 && exists j :: j in js && r.value.value == j.name)
  {
    SimpleFuzzyMatchBounds(name, NameList(js), Threshold);
    NameListMembers(js);
  }

  /** The three signals of `get_all_matches`. */
  datatype AllMatches = AllMatches(countryCodeMatch: Option<Signal>, countryNameMatch: Option<Signal>, cityMatch: Option<Signal>)

  /** `get_all_matches`: each key is None when its field is falsy, otherwise the field's match. */
  function GetAllMatches(code: Option<string>, name: Option<string>, city: Option<string>, js: seq<Jurisdiction>): (r: AllMatches)
    ensures !Truthy(code) ==> r.countryCodeMatch.None?
    ensures !Truthy(name) ==> r.countryNameMatch.None?
    ensures !Truthy(city) ==> r.cityMatch.None?
  {
    AllMatches(
      if Truthy(code) then MatchCountryCode(code, js) else None,
      if Truthy(name) then MatchCountryName(name, js) else None,
      if Truthy(city) then MatchCity(city, js) else None)
  }

  /** The module-level jurisdiction list of the matcher, loaded from the table on first use. */
  class JurisdictionCache {
    var cached: Option<seq<Jurisdiction>>

    constructor ()
      ensures cached == None
    {
      cached := None;
    }

    /** `_get_offshore_jurisdictions`: loads once, then returns the cached list. */
    method Get(tableLines: seq<string>) returns (js: seq<Jurisdiction>)
      modifies this
      ensures old(cached).Some? ==> js == old(cached).value
      ensures old(cached).None? ==> js == Load(tableLines)
      ensures cached == Some(js)
    {
      if cached.None? {
        var loaded := LoadJurisdictions(tableLines);
        cached := Some(loaded);
      }
      js := cached.value;
    }

    /** `match_country_code`: a falsy code returns None without touching the cache. */
    method MatchCode(code: Option<string>, tableLines: seq<string>) returns (r: Option<Signal>)
      modifies this
      ensures !Truthy(code) ==> r == None && cached == old(cached)
      ensures Truthy(code) ==> cached.Some? && r == MatchCountryCode(code, cached.value)
      ensures old(cached).Some? ==> cached == old(cached)
      ensures old(cached).None? && cached.Some? ==> cached.value == Load(tableLines)
    {
      if !Truthy(code) {
        return None;
      }
      var js := Get(tableLines);
      var codes := CodeTargets(js);
      r := SimpleFuzzyMatch(code, codes, Threshold);
    }

    /** `match_country_name`. */
    method MatchName(name: Option<string>, tableLines: seq<string>) returns (r: Option<Signal>)
      modifies this
      ensures !Truthy(name) ==> r == None && cached == old(cached)
      ensures Truthy(name) ==> cached.Some? && r == MatchCountryName(name, cached.value)
      ensures old(cached).Some? ==> cached == old(cached)
      ensures old(cached).None? && cached.Some? ==> cached.value == Load(tableLines)
    {
      if !Truthy(name) {
        return None;
      }
      var js := Get(tableLines);
      r := SimpleFuzzyMatch(name, NameList(js), Threshold);
    }

    /** `match_city`. */
    method MatchCityName(city: Option<string>, tableLines: seq<string>) returns (r: Option<Signal>)
      modifies this
      ensures !Truthy(city) ==> r == None && cached == old(cached)
      ensures Truthy(city) ==> cached.Some? && r == MatchCity(city, cached.value)
      ensures old(cached).Some? ==> cached == old(cached)
      ensures old(cached).None? && cached.Some? ==> cached.value == Load(tableLines)
    {
      if !Truthy(city) {
        return None;
      }
      var js := Get(tableLines);
      r := SimpleFuzzyMatch(city, NameList(js), Threshold);
    }
  }
}
