/**
 * The earlier, looser jurisdiction matcher: no stopwords, no minimum length for the substring
 * test, any shared token is enough, and long strings are compared by their best token pair.
 */
module FuzzyMatcher {
  import opened Wrappers
  import opened Chars
  import opened Levenshtein
  import opened Ranking
  import opened Lists

  /** `normalize_text`: "" for a non-string; otherwise lower-case, punctuation removed, stripped (inner whitespace kept). */
  function Normalize(text: Option<string>): (r: string)
    ensures text.None? ==> r == []
    ensures forall c :: c in r ==> !IsUpper(c) && (IsWordChar(c) || IsSpace(c))
    ensures r == [] || (!IsSpace(r[0]) && !IsSpace(r[|r| - 1]))
  {
    match text
    case None => []
    case Some(t) =>
      var kept := KeepWordSpace(Lower(t));
      StripSubset(kept);
      Strip(kept)
  }

  /** Normalising twice is normalising once. */
  lemma NormalizeIdempotent(text: Option<string>)
    ensures Normalize(Some(Normalize(text))) == Normalize(text)
  {
    var r := Normalize(text);
    forall i | 0 <= i < |r|
      ensures !IsUpper(r[i]) && (IsWordChar(r[i]) || IsSpace(r[i]))
    {
      assert r[i] in r;
    }
    assert Lower(r) == r;
    assert KeepWordSpace(r) == r;
    StripNoEdges(r);
  }

  /** The best ratio over all pairs of a text token and a target token, 0.0 when there is none. */
  function PairMax(textTokens: seq<string>, targetTokens: seq<string>): (m: real)
    ensures 0.0 <= m <= 1.0
    ensures forall a, b :: a in textTokens && b in targetTokens && (a != [] || b != []) ==> Ratio(a, b) <= m
    ensures m == 0.0 || exists a, b :: a in textTokens && b in targetTokens && (a != [] || b != []) && Ratio(a, b) == m
  {
    if textTokens == [] then 0.0
    else
      var rest := textTokens[..|textTokens| - 1];
      var a := textTokens[|textTokens| - 1];
      assert textTokens == rest + [a];
      var p := PairMax(rest, targetTokens);
      var q := BestRatio(a, targetTokens);
      BestRatioFlipped(a, targetTokens);
      if q > p then q else p
  }

  /** `BestRatio` read with the token as the first argument of each ratio. */
  lemma BestRatioFlipped(a: string, others: seq<string>)
    ensures forall b :: b in others && (a != [] || b != []) ==> Ratio(a, b) <= BestRatio(a, others)
    ensures BestRatio(a, others) == 0.0 || exists b :: b in others && (a != [] || b != []) && Ratio(a, b) == BestRatio(a, others)
  {
    var q := BestRatio(a, others);
    forall b | b in others && (a != [] || b != []) ensures Ratio(a, b) <= q {
      RatioSymmetric(a, b);
    }
    if q != 0.0 {
      var b :| b in others && (b != [] || a != []) && Ratio(b, a) == q;
      RatioSymmetric(a, b);
    }
  }

  /** One target: substring (1.0), then a shared token (0.95), then Levenshtein on short strings or on the best token pair. */
  function MatchTarget(text: string, target: string, threshold: real): (r: Option<Match>)
    ensures r.Some? ==> r.value.target == target && 0.0 <= r.value.similarity <= 1.0
  {
    var nt := Normalize(Some(target));
    if nt == [] then None
    else if Contains(text, nt) then Some(Match(target, 1.0))
    else if SharesToken(Split(nt), Split(text)) then Some(Match(target, 0.95))
    else LevenshteinMatch(text, nt, target, threshold)
  }

  /** `any(token in b for token in a)`. */
  predicate SharesToken(a: seq<string>, b: seq<string>) {
    exists tok :: tok in a && tok in b
  }

  /** The Levenshtein step: the whole strings when either is short, otherwise the best token pair. */
  function LevenshteinMatch(text: string, nt: string, target: string, threshold: real): (r: Option<Match>)
    ensures r.Some? ==> r.value.target == target && 0.0 <= r.value.similarity <= 1.0
  {
    if |text| < 20 || |nt| < 20 then
      if text == [] && nt == [] then None
      else
        var sim := Ratio(text, nt);
        if sim >= threshold then Some(Match(target, sim)) else None
    else
      var textTokens := Distinct(Split(text));
      var targetTokens := Distinct(Split(nt));
      if textTokens == [] || targetTokens == [] then None
      else
        var maxSim := PairMax(textTokens, targetTokens);
        if maxSim >= threshold then Some(Match(target, maxSim)) else None
  }

  /** The accepted matches, in target order. */
  function Collect(text: string, targets: seq<string>, threshold: real): (ms: seq<Match>)
    ensures forall m :: m in ms ==> m.target in targets && 0.0 <= m.similarity <= 1.0
  {
    if targets == [] then []
    else
      var prefix := targets[..|targets| - 1];
      var ms := Collect(text, prefix, threshold);
      assert forall t :: t in prefix ==> t in targets;
      match MatchTarget(text, targets[|targets| - 1], threshold)
      case None => ms
      case Some(m) =>
        assert forall x :: x in ms + [m] ==> x in ms || x == m;
        ms + [m]
  }

  /** `fuzzy_match`: nothing for text that normalises to ""; otherwise the ranked accepted matches. */
  function FuzzyMatchSpec(text: Option<string>, targets: seq<string>, threshold: real): seq<Match> {
    var nt := Normalize(text);
    if nt == [] then [] else Rank(Collect(nt, targets, threshold))
  }

  /** A normalised target inside the normalised text scores 1.0, however short it is. */
  lemma SubstringWins(text: string, target: string, threshold: real)
    requires Normalize(Some(target)) != [] && Contains(text, Normalize(Some(target)))
    ensures MatchTarget(text, target, threshold) == Some(Match(target, 1.0))
  {
  }

  /** Otherwise one shared token, stopword or not, scores 0.95. */
  lemma SharedTokenWins(text: string, target: string, threshold: real, tok: string)
    requires Normalize(Some(target)) != [] && !Contains(text, Normalize(Some(target)))
    requires tok in Split(Normalize(Some(target))) && tok in Split(text)
    ensures MatchTarget(text, target, threshold) == Some(Match(target, 0.95))
  {
    assert SharesToken(Split(Normalize(Some(target))), Split(text));
  }

  /** Long strings with no substring or shared token: accepted exactly when the best token pair reaches the threshold, which is the score. */
  lemma LongRule(text: string, nt: string, target: string, threshold: real)
    requires |text| >= 20 && |nt| >= 20
    ensures LevenshteinMatch(text, nt, target, threshold).Some? <==>
      Split(text) != [] && Split(nt) != [] && PairMax(Distinct(Split(text)), Distinct(Split(nt))) >= threshold
  {
  }

  /** Short strings: accepted exactly when the whole-string ratio reaches the threshold, which is the score. */
  lemma ShortRule(text: string, nt: string, target: string, threshold: real)
    requires |text| < 20 || |nt| < 20
    requires text != [] || nt != []
    ensures LevenshteinMatch(text, nt, target, threshold).Some? <==> Ratio(text, nt) >= threshold
    ensures LevenshteinMatch(text, nt, target, threshold).Some? ==>
      LevenshteinMatch(text, nt, target, threshold).value.similarity == Ratio(text, nt)
  {
  }

  /** At most five matches, one per target, each drawn from `targets` with a similarity in [0, 1], best first. */
  lemma FuzzyMatchResult(text: Option<string>, targets: seq<string>, threshold: real)
    ensures var r := FuzzyMatchSpec(text, targets, threshold);
      |r| <= 5 && DistinctTargets(r) && SortedDesc(r)
      && forall m :: m in r ==> m.target in targets && 0.0 <= m.similarity <= 1.0
    ensures Normalize(text) == [] ==> FuzzyMatchSpec(text, targets, threshold) == []
  {
  }

  /** One more target token for the inner loop. */
  lemma BestRatioStep(a: string, targetTokens: seq<string>, j: nat)
    requires j < |targetTokens|
    ensures var b, prev := targetTokens[j], BestRatio(a, targetTokens[..j]);
      BestRatio(a, targetTokens[..j + 1]) ==
        if b == [] && a == [] then prev else if Ratio(b, a) > prev then Ratio(b, a) else prev
  {
    assert targetTokens[..j + 1][..j] == targetTokens[..j];
  }

  /** One more text token for the outer loop. */
  lemma PairMaxStep(textTokens: seq<string>, targetTokens: seq<string>, i: nat)
    requires i < |textTokens|
    ensures var q, p := BestRatio(textTokens[i], targetTokens), PairMax(textTokens[..i], targetTokens);
      PairMax(textTokens[..i + 1], targetTokens) == if q > p then q else p
  {
    assert textTokens[..i + 1][..i] == textTokens[..i];
  }

  /** The nested token loop of `fuzzy_match`: a running maximum over all token pairs. */
  method MaxPairSimilarity(textTokens: seq<string>, targetTokens: seq<string>) returns (maxSim: real)
    ensures maxSim == PairMax(textTokens, targetTokens)
  {
    maxSim := 0.0;
    for i := 0 to |textTokens|
      invariant maxSim == PairMax(textTokens[..i], targetTokens)
    {
      PairMaxStep(textTokens, targetTokens, i);
      maxSim := MaxAgainst(textTokens[i], targetTokens, maxSim);
    }
    assert textTokens[..|textTokens|] == textTokens;
  }

  /** The inner loop for one text token: the running maximum raised by its ratios against every target token. */
  method MaxAgainst(a: string, targetTokens: seq<string>, p: real) returns (maxSim: real)
    requires p >= 0.0
    ensures maxSim == if BestRatio(a, targetTokens) > p then BestRatio(a, targetTokens) else p
  {
    maxSim := p;
    for j := 0 to |targetTokens|
      invariant maxSim == (if BestRatio(a, targetTokens[..j]) > p then BestRatio(a, targetTokens[..j]) else p)
    {
      var b := targetTokens[j];
      BestRatioStep(a, targetTokens, j);
      if |a| == 0 && |b| == 0 {
        continue;
      }
      var sim := Ratio(a, b);
      RatioSymmetric(a, b);
      if sim > maxSim {
        maxSim := sim;
      }
    }
    assert targetTokens[..|targetTokens|] == targetTokens;
  }

  /** The body of the target loop of `fuzzy_match`. */
  method MatchOne(text: string, textTokens: seq<string>, target: string, threshold: real) returns (result: Option<Match>)
    requires textTokens == Split(text)
    ensures result == MatchTarget(text, target, threshold)
  {
    var nt := Normalize(Some(target));
    if |nt| == 0 {
      return None;
    }
    if Contains(text, nt) {
      return Some(Match(target, 1.0));
    }
    var targetSplit := Split(nt);
    if exists tok :: tok in targetSplit && tok in textTokens {
      return Some(Match(target, 0.95));
    }
    result := LevenshteinStep(text, textTokens, nt, target, threshold);
  }

  /** The Levenshtein step of the target loop. */
  method LevenshteinStep(text: string, textTokens: seq<string>, nt: string, target: string, threshold: real)
    returns (result: Option<Match>)
    requires textTokens == Split(text)
    ensures result == LevenshteinMatch(text, nt, target, threshold)
  {
    if |text| < 20 || |nt| < 20 {
      ShortPair(text, nt, target, threshold);
      if |text| == 0 && |nt| == 0 {
        return None;
      }
      var sim := Ratio(text, nt);
      if sim >= threshold {
        return Some(Match(target, sim));
      }
      return None;
    }
    LongPair(text, nt, target, threshold);
    var textSet := Distinct(textTokens);
    var targetSet := Distinct(Split(nt));
    if |textSet| == 0 || |targetSet| == 0 {
      return None;
    }
    var maxSim := MaxPairSimilarity(textSet, targetSet);
    if maxSim >= threshold {
      return Some(Match(target, maxSim));
    }
    return None;
  }

  /** Short texts or targets are compared whole. */
  lemma ShortPair(text: string, nt: string, target: string, threshold: real)
    requires |text| < 20 || |nt| < 20
    ensures LevenshteinMatch(text, nt, target, threshold) ==
      if text == [] && nt == [] then None
      else if Ratio(text, nt) >= threshold then Some(Match(target, Ratio(text, nt))) else None
  {
  }

  /** Long texts and targets are compared token by token. */
  lemma LongPair(text: string, nt: string, target: string, threshold: real)
    requires |text| >= 20 && |nt| >= 20
    ensures var a, b := Distinct(Split(text)), Distinct(Split(nt));
      LevenshteinMatch(text, nt, target, threshold) ==
        if a == [] || b == [] then None
        else if PairMax(a, b) >= threshold then Some(Match(target, PairMax(a, b))) else None
  {
  }

  /** The target loop of `fuzzy_match`, appending each accepted match. */
  method CollectMatches(text: string, targets: seq<string>, threshold: real) returns (matches: seq<Match>)
    ensures matches == Collect(text, targets, threshold)
  {
    var textTokens := Split(text);
    matches := [];
    for i := 0 to |targets|
      invariant matches == Collect(text, targets[..i], threshold)
    {
      assert targets[..i + 1][..i] == targets[..i];
      assert targets[..i + 1][i] == targets[i];
      var result := MatchOne(text, textTokens, targets[i], threshold);
      if result.Some? {
        matches := matches + [result.value];
      }
    }
    assert targets[..|targets|] == targets;
  }

  /** `fuzzy_match` as written. */
  method FuzzyMatch(text: Option<string>, targets: seq<string>, threshold: real) returns (r: seq<Match>)
    ensures r == FuzzyMatchSpec(text, targets, threshold)
    ensures |r| <= 5 && DistinctTargets(r) && SortedDesc(r)
    ensures forall m :: m in r ==> m.target in targets && 0.0 <= m.similarity <= 1.0
  {
    FuzzyMatchResult(text, targets, threshold);
    var nt := Normalize(text);
    if |nt| == 0 {
      return [];
    }
    var matches := CollectMatches(nt, targets, threshold);
    r := Rank(matches);
  }
}
