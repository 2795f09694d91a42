/**
 * The hardened jurisdiction matcher: normalises both sides, ignores stopwords and tokens shorter
 * than three characters, and tries an exact substring test (1.0), a token-overlap test (0.95)
 * and a Levenshtein test, in that order, for each target; the accepted matches are then
 * deduplicated by target, sorted by similarity and cut to five.
 */
module LegacyFuzzyMatcher {
  import opened Wrappers
  import opened Chars
  import opened Levenshtein
  import opened Ranking
  import opened Lists

  /** Words too common in company and place names to count as evidence. */
  const Stopwords: set<string> := {
    "and", "the", "of", "company", "co", "ltd", "limited", "bank", "trust", "inc", "corp", "saint", "st",
    "islands", "island", "llc", "plc", "spa", "pt", "a", "an", "hk", "uae", "u.a.e", "ua", "us", "usa"
  }

  /** Replaces every maximal run of whitespace by one space. */
  function Collapse(s: string): (r: string)
    ensures forall c :: c in r ==> c == ' ' || (c in s && !IsSpace(c))
    ensures forall i :: 0 <= i < |r| - 1 && r[i] == ' ' ==> r[i + 1] != ' '
    ensures s != [] ==> r != [] && (IsSpace(s[0]) <==> r[0] == ' ')
    decreases |s|
  {
    if s == [] then []
    else if IsSpace(s[0]) then
      var t := LStrip(s);
      assert |t| < |s|;
      " " + Collapse(t)
    else [s[0]] + Collapse(s[1..])
  }

  /** Lower-case word characters separated by single spaces, with no space at either end. */
  predicate Canonical(s: string) {
    (forall i :: 0 <= i < |s| ==> s[i] == ' ' || (IsWordChar(s[i]) && !IsUpper(s[i])))
    && (forall i :: 0 <= i < |s| - 1 && s[i] == ' ' ==> s[i + 1] != ' ')
    && (s == [] || (s[0] != ' ' && s[|s| - 1] != ' '))
  }

  /** `normalize_text`: "" for a non-string; otherwise lower-case, punctuation removed, whitespace collapsed, stripped. */
  function Normalize(text: Option<string>): (r: string)
    ensures Canonical(r)
    ensures text.None? ==> r == []
  {
    match text
    case None => []
    case Some(t) =>
      var collapsed := Collapse(KeepWordSpace(Lower(t)));
      CollapsedWords(t);
      StripCanonical(collapsed);
      Strip(collapsed)
  }

  lemma CollapsedWords(t: string)
    ensures forall i :: 0 <= i < |Collapse(KeepWordSpace(Lower(t)))| ==>
      var c := Collapse(KeepWordSpace(Lower(t)))[i]; c == ' ' || (IsWordChar(c) && !IsUpper(c))
  {
    var collapsed := Collapse(KeepWordSpace(Lower(t)));
    forall i | 0 <= i < |collapsed| ensures collapsed[i] == ' ' || (IsWordChar(collapsed[i]) && !IsUpper(collapsed[i])) {
      assert collapsed[i] in collapsed;
    }
  }

  lemma StripCanonical(c: string)
    requires forall i :: 0 <= i < |c| ==> c[i] == ' ' || (IsWordChar(c[i]) && !IsUpper(c[i]))
    requires forall i :: 0 <= i < |c| - 1 && c[i] == ' ' ==> c[i + 1] != ' '
    ensures Canonical(Strip(c))
  {
    SliceCanonical(c, |c| - |LStrip(c)|, Strip(c));
  }

  /** A slice without whitespace at either end of a lower-case, single-spaced string of word
      characters and spaces is canonical. */
  lemma SliceCanonical(c: string, lo: int, r: string)
    requires 0 <= lo <= lo + |r| <= |c| && r == c[lo..lo + |r|]
    requires forall i :: 0 <= i < |c| ==> c[i] == ' ' || (IsWordChar(c[i]) && !IsUpper(c[i]))
    requires forall i :: 0 <= i < |c| - 1 && c[i] == ' ' ==> c[i + 1] != ' '
    requires r == [] || (!IsSpace(r[0]) && !IsSpace(r[|r| - 1]))
    ensures Canonical(r)
  {
    forall i | 0 <= i < |r| - 1 && r[i] == ' '
      ensures r[i + 1] != ' '
    {
      assert r[i] == c[lo + i] && r[i + 1] == c[lo + i + 1];
    }
    assert IsSpace(' ');
  }

  /** Whitespace is only single spaces. */
  predicate SingleSpaced(s: string) {
    (forall i :: 0 <= i < |s| && IsSpace(s[i]) ==> s[i] == ' ')
    && (forall i :: 0 <= i < |s| - 1 && s[i] == ' ' ==> s[i + 1] != ' ')
  }

  lemma {:induction false} CollapseSingleSpaced(s: string)
    requires SingleSpaced(s)
    ensures Collapse(s) == s
    decreases |s|
  {
    if s != [] {
      assert Collapse(s[1..]) == s[1..] by {
        SingleSpacedTail(s);
        CollapseSingleSpaced(s[1..]);
      }
      assert Collapse(s) == [s[0]] + Collapse(s[1..]) by {
        SingleSpacedTail(s);
        CollapseHead(s);
      }
      assert [s[0]] + s[1..] == s;
    }
  }

  /** On single-spaced text the collapse copies the first character and goes on with the rest. */
  lemma CollapseHead(s: string)
    requires s != [] && (IsSpace(s[0]) ==> s[0] == ' ' && (|s| == 1 || !IsSpace(s[1])))
    ensures Collapse(s) == [s[0]] + Collapse(s[1..])
  {
    if IsSpace(s[0]) {
      LStripOne(s);
    }
  }

  lemma SingleSpacedTail(s: string)
    requires s != [] && SingleSpaced(s)
    ensures SingleSpaced(s[1..])
    ensures IsSpace(s[0]) ==> s[0] == ' ' && (|s| == 1 || !IsSpace(s[1]))
  {
    assert forall i :: 0 <= i < |s| - 1 ==> s[1..][i] == s[i + 1];
  }

  lemma LStripOne(s: string)
    requires s != [] && IsSpace(s[0]) && (|s| == 1 || !IsSpace(s[1]))
    ensures LStrip(s) == s[1..]
  {
  }

  /** A canonical string is its own normal form. */
  lemma CanonicalFixed(s: string)
    requires Canonical(s)
    ensures Normalize(Some(s)) == s
  {
    assert Lower(s) == s;
    assert KeepWordSpace(s) == s by {
      assert forall i :: 0 <= i < |s| ==> IsWordChar(s[i]) || IsSpace(s[i]);
    }
    assert Collapse(s) == s by {
      CanonicalSingleSpaced(s);
      CollapseSingleSpaced(s);
    }
    assert Strip(s) == s by {
      StripNoEdges(s);
    }
    NormalizeSome(s);
  }

  lemma CanonicalSingleSpaced(s: string)
    requires Canonical(s)
    ensures SingleSpaced(s)
  {
    forall i | 0 <= i < |s| && IsSpace(s[i])
      ensures s[i] == ' '
    {
      if s[i] != ' ' {
        WordCharNotSpace(s[i]);
      }
    }
  }

  lemma WordCharNotSpace(c: char)
    requires IsWordChar(c)
    ensures !IsSpace(c)
  {
  }

  /** The three steps of the normal form of a string. */
  lemma NormalizeSome(t: string)
    ensures Normalize(Some(t)) == Strip(Collapse(KeepWordSpace(Lower(t))))
  {
  }

  /** Normalising twice is normalising once. */
  lemma NormalizeIdempotent(text: Option<string>)
    ensures Normalize(Some(Normalize(text))) == Normalize(text)
  {
    CanonicalFixed(Normalize(text));
  }

  /** The tokens that count as evidence: not a stopword and at least three characters long. */
  function Significant(tokens: seq<string>): (r: seq<string>)
    ensures |r| <= |tokens|
  {
    if tokens == [] then []
    else (if tokens[0] !in Stopwords && |tokens[0]| >= 3 then [tokens[0]] else []) + Significant(tokens[1..])
  }

  /** Exactly the tokens that are not stopwords and have at least three characters survive, in order. */
  lemma {:induction false} SignificantMembers(tokens: seq<string>)
    ensures forall t :: t in Significant(tokens) <==> t in tokens && t !in Stopwords && |t| >= 3
  {
    if tokens != [] {
      SignificantMembers(tokens[1..]);
      assert tokens == [tokens[0]] + tokens[1..];
    }
  }

  function TokenSet(tokens: seq<string>): set<string> {
    set t | t in tokens
  }

  /** `_try_exact_match`: the normalised target occurs in the normalised text and has at least three characters. */
  function TryExact(text: string, target: string, original: string): Option<Match> {
    if Contains(text, target) && |target| >= 3 then Some(Match(original, 1.0)) else None
  }

  /** The acceptance rule of `_try_token_match`: one hit for a target with one significant token, two for a target with more. */
  predicate TokenRule(targetTokens: seq<string>, textTokenSet: set<string>) {
    var hits := |TokenSet(targetTokens) * textTokenSet|;
    (|targetTokens| == 1 && hits >= 1) || (|targetTokens| > 1 && hits >= 2)
  }

  /** `_try_token_match`. */
  function TryToken(textTokenSet: set<string>, target: string, original: string): Option<Match> {
    var targetTokens := Significant(Split(target));
    if targetTokens != [] && TokenRule(targetTokens, textTokenSet) then Some(Match(original, 0.95)) else None
  }

  /** The per-target-token bests of the long-string strategy, one per distinct target token. */
  function Sims(targetTokens: seq<string>, textTokens: seq<string>): (sims: seq<real>)
    ensures |sims| == |targetTokens|
    ensures forall i :: 0 <= i < |sims| ==> sims[i] == BestRatio(targetTokens[i], textTokens)
  {
    if targetTokens == [] then []
    else
      var init := targetTokens[..|targetTokens| - 1];
      var sims := Sims(init, textTokens) + [BestRatio(targetTokens[|targetTokens| - 1], textTokens)];
      assert forall i :: 0 <= i < |init| ==> init[i] == targetTokens[i];
      sims
  }

  /** `_try_fuzzy_match`. */
  function TryFuzzy(text: string, target: string, textTokens: seq<string>, original: string, threshold: real): (r: Option<Match>)
    ensures r.Some? ==> r.value.target == original && 0.0 <= r.value.similarity <= 1.0
  {
    if |text| < 20 || |target| < 20 then
      if text == [] && target == [] then None
      else
        var sim := Ratio(text, target);
        if sim >= threshold then Some(Match(original, sim)) else None
    else
      var targetTokens := Significant(Split(target));
      if textTokens == [] || targetTokens == [] then None
      else
        var sims := Sims(Distinct(targetTokens), Distinct(textTokens));
        var strong := CountAtLeast(sims, threshold);
        if (|targetTokens| == 1 && strong >= 1) || (|targetTokens| > 1 && strong >= 2) then
          MeanUnit(sims);
          Some(Match(original, Mean(sims)))
        else None
  }

  /** The first strategy that accepts decides: exact, then token, then Levenshtein. */
  function MatchTarget(text: string, textTokens: seq<string>, target: string, threshold: real): (r: Option<Match>)
    ensures r.Some? ==> r.value.target == target && 0.0 <= r.value.similarity <= 1.0
  {
    var nt := Normalize(Some(target));
    if nt == [] then None
    else
      var exact := TryExact(text, nt, target);
      if exact.Some? then exact
      else
        var token := TryToken(TokenSet(textTokens), nt, target);
        if token.Some? then token
        else TryFuzzy(text, nt, textTokens, target, threshold)
  }

  /** The accepted matches, in target order. */
  function Collect(text: string, textTokens: seq<string>, targets: seq<string>, threshold: real): (ms: seq<Match>)
    ensures forall m :: m in ms ==> m.target in targets && 0.0 <= m.similarity <= 1.0
  {
    if targets == [] then []
    else
      var prefix := targets[..|targets| - 1];
      var last := targets[|targets| - 1];
      var ms := Collect(text, textTokens, prefix, threshold);
      assert forall t :: t in prefix ==> t in targets;
      match MatchTarget(text, textTokens, last, threshold)
      case None => ms
      case Some(m) =>
        assert forall x :: x in ms + [m] ==> x in ms || x == m;
        ms + [m]
  }

  /** `fuzzy_match`: nothing for text that normalises to ""; otherwise the ranked accepted matches. */
  function FuzzyMatchSpec(text: Option<string>, targets: seq<string>, threshold: real): seq<Match> {
    var nt := Normalize(text);
    if nt == [] then []
    else Rank(Collect(nt, Significant(Split(nt)), targets, threshold))
  }

  /** At most five matches, one per target, each drawn from `targets` with a similarity in [0, 1], best first. */
  lemma FuzzyMatchResult(text: Option<string>, targets: seq<string>, threshold: real)
    ensures var r := FuzzyMatchSpec(text, targets, threshold);
      |r| <= 5 && DistinctTargets(r) && SortedDesc(r)
      && forall m :: m in r ==> m.target in targets && 0.0 <= m.similarity <= 1.0
    ensures Normalize(text) == [] ==> FuzzyMatchSpec(text, targets, threshold) == []
  {
    var nt := Normalize(text);
    if nt != [] {
      var ms := Collect(nt, Significant(Split(nt)), targets, threshold);
      assert FuzzyMatchSpec(text, targets, threshold) == Rank(ms);
    }
  }

  /** A normalised target of at least three characters inside the normalised text scores 1.0, whatever the other strategies say. */
  lemma ExactWins(text: string, textTokens: seq<string>, target: string, threshold: real)
    requires Contains(text, Normalize(Some(target))) && |Normalize(Some(target))| >= 3
    ensures MatchTarget(text, textTokens, target, threshold) == Some(Match(target, 1.0))
  {
  }

  /** A target with a single significant token is accepted exactly when that token is a text token. */
  lemma TokenSingle(targetTokens: seq<string>, textTokenSet: set<string>)
    requires |targetTokens| == 1
    ensures TokenRule(targetTokens, textTokenSet) <==> targetTokens[0] in textTokenSet
  {
    assert TokenSet(targetTokens) == {targetTokens[0]};
    if targetTokens[0] in textTokenSet {
      assert TokenSet(targetTokens) * textTokenSet == {targetTokens[0]};
    } else {
      assert TokenSet(targetTokens) * textTokenSet == {};
    }
  }

  /** A target with several significant tokens needs two different ones among the text tokens. */
  lemma TokenSeveral(targetTokens: seq<string>, textTokenSet: set<string>)
    requires |targetTokens| > 1
    ensures TokenRule(targetTokens, textTokenSet) <==>
      exists a, b :: a != b && a in targetTokens && b in targetTokens && a in textTokenSet && b in textTokenSet
  {
    var inter := TokenSet(targetTokens) * textTokenSet;
    if |inter| >= 2 {
      var a :| a in inter;
      assert |inter - {a}| >= 1;
      var b :| b in inter - {a};
      assert a != b && a in targetTokens && b in targetTokens && a in textTokenSet && b in textTokenSet;
    }
    if exists a, b :: a != b && a in targetTokens && b in targetTokens && a in textTokenSet && b in textTokenSet {
      var a, b :| a != b && a in targetTokens && b in targetTokens && a in textTokenSet && b in textTokenSet;
      assert {a, b} <= inter;
      assert |{a, b}| == 2;
      SubsetCard({a, b}, inter);
    }
  }

  lemma SubsetCard(a: set<string>, b: set<string>)
    requires a <= b
    ensures |a| <= |b|
  {
    assert b == a + (b - a);
  }

  /** Short strings: accepted exactly when the whole-string ratio reaches the threshold, which is then the score. */
  lemma ShortRule(text: string, target: string, textTokens: seq<string>, original: string, threshold: real)
    requires |text| < 20 || |target| < 20
    requires text != [] || target != []
    ensures TryFuzzy(text, target, textTokens, original, threshold).Some? <==> Ratio(text, target) >= threshold
    ensures TryFuzzy(text, target, textTokens, original, threshold).Some? ==>
      TryFuzzy(text, target, textTokens, original, threshold).value.similarity == Ratio(text, target)
  {
  }

  /** `_best_token_similarity` as written: a running maximum over the text tokens. */
  method BestTokenSimilarity(token: string, textTokens: seq<string>) returns (best: real)
    ensures best == BestRatio(token, textTokens)
  {
    best := 0.0;
    for i := 0 to |textTokens|
      invariant best == BestRatio(token, textTokens[..i])
    {
      var t := textTokens[i];
      assert textTokens[..i + 1][..i] == textTokens[..i];
      if |t| == 0 && |token| == 0 {
        continue;
      }
      var sim := Ratio(t, token);
      if sim > best {
        best := sim;
      }
    }
    assert textTokens[..|textTokens|] == textTokens;
  }

  /** The loop of `_try_fuzzy_match` that gathers one best similarity per target token. */
  method TokenSims(targetTokens: seq<string>, textTokens: seq<string>) returns (sims: seq<real>)
    ensures sims == Sims(targetTokens, textTokens)
  {
    sims := [];
    for i := 0 to |targetTokens|
      invariant sims == Sims(targetTokens[..i], textTokens)
    {
      var best := BestTokenSimilarity(targetTokens[i], textTokens);
      assert targetTokens[..i + 1][..i] == targetTokens[..i];
      sims := sims + [best];
    }
    assert targetTokens[..|targetTokens|] == targetTokens;
  }

  /** `_try_fuzzy_match` as written: the per-token bests are gathered in a loop. */
  method TryFuzzyMatch(text: string, target: string, textTokens: seq<string>, original: string, threshold: real)
    returns (r: Option<Match>)
    ensures r == TryFuzzy(text, target, textTokens, original, threshold)
  {
    if |text| < 20 || |target| < 20 {
      if |text| == 0 && |target| == 0 {
        return None;
      }
      var sim := Ratio(text, target);
      if sim >= threshold {
        return Some(Match(original, sim));
      }
      return None;
    }
    var targetTokens := Significant(Split(target));
    if |textTokens| == 0 || |targetTokens| == 0 {
      return None;
    }
    var sims := TokenSims(Distinct(targetTokens), Distinct(textTokens));
    var strong := CountAtLeast(sims, threshold);
    if (|targetTokens| == 1 && strong >= 1) || (|targetTokens| > 1 && strong >= 2) {
      return Some(Match(original, Mean(sims)));
    }
    return None;
  }

  /** The body of the target loop of `fuzzy_match`. */
  method MatchOne(text: string, textTokens: seq<string>, textTokenSet: set<string>, target: string, threshold: real)
    returns (result: Option<Match>)
    requires textTokenSet == TokenSet(textTokens)
    ensures result == MatchTarget(text, textTokens, target, threshold)
  {
    var ntarget := Normalize(Some(target));
    if |ntarget| == 0 {
      return None;
    }
    result := TryExact(text, ntarget, target);
    if result.None? {
      result := TryToken(textTokenSet, ntarget, target);
    }
    if result.None? {
      result := TryFuzzyMatch(text, ntarget, textTokens, target, threshold);
    }
  }

  /** The target loop of `fuzzy_match`, appending each accepted match. */
  method CollectMatches(text: string, textTokens: seq<string>, targets: seq<string>, threshold: real)
    returns (matches: seq<Match>)
    ensures matches == Collect(text, textTokens, targets, threshold)
  {
    var textTokenSet := TokenSet(textTokens);
    matches := [];
    for i := 0 to |targets|
      invariant matches == Collect(text, textTokens, targets[..i], threshold)
    {
      assert targets[..i + 1][..i] == targets[..i];
      assert targets[..i + 1][i] == targets[i];
      var result := MatchOne(text, textTokens, textTokenSet, targets[i], threshold);
      if result.Some? {
        matches := matches + [result.value];
      }
    }
    assert targets[..|targets|] == targets;
  }

  /** `fuzzy_match` as written: one pass over the targets, then dedup, sort and top five. */
  method FuzzyMatch(text: Option<string>, targets: seq<string>, threshold: real) returns (r: seq<Match>)
    ensures r == FuzzyMatchSpec(text, targets, threshold)
    ensures |r| <= 5 && DistinctTargets(r) && SortedDesc(r)
    ensures forall m :: m in r ==> m.target in targets && 0.0 <= m.similarity <= 1.0
  {
    FuzzyMatchResult(text, targets, threshold);
    var nt := Normalize(text);
    if |nt| == 0 {
      return [];
    }
    var matches := CollectMatches(nt, Significant(Split(nt)), targets, threshold);
    r := Rank(matches);
  }
}
