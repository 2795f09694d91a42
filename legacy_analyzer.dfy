/**
 * The earlier analyzer generation: the same preliminary analysis over the hardened matcher, a
 * SWIFT extraction that also checks the country pair is alphabetic, the confidence score written
 * with `sum(...)` generators, and a helper for the error record. Its `classify_scenario` is the
 * same code as the current one and is modelled by `Analyzer.ClassifyScenario`.
 */
module LegacyAnalyzer {
  import opened Wrappers
  import opened Chars
  import opened Ranking
  import opened Lists
  import opened Analyzer
  import SwiftHandler
  import LegacyFuzzyMatcher

  // ---------------------------------------------------------------------------------------------
  // extract_country_from_swift

  /** `extract_country_from_swift`: empty strings, wrong lengths and non-alphabetic country pairs give None. */
  function ExtractCountryFromSwift(swift: Cell, cfg: Config): Result<Option<string>, string> {
    if !swift.Text? || swift.s == [] then Ok(None)
    else
      var clean := SwiftHandler.Clean(swift.s);
      if |clean| != 8 && |clean| != 11 then Ok(None)
      else if !IsAlphaStr(clean[4..6]) then Ok(None)
      else OffshoreName(cfg, clean[4..6])
  }

  /** A name is returned only for a well-formed code whose country maps to an English offshore name. */
  lemma ExtractCountryCases(swift: Cell, cfg: Config)
    ensures var r := ExtractCountryFromSwift(swift, cfg);
      r.Ok? && r.value.Some? ==>
        (swift.Text? && SwiftHandler.WellFormed(SwiftHandler.Clean(swift.s))
         && EnglishNames(cfg).Some? && r.value.value in EnglishNames(cfg).value && r.value.value != [])
    ensures !swift.Text? || swift.s == [] ==> ExtractCountryFromSwift(swift, cfg) == Ok(None)
    ensures swift.Text? && !SwiftHandler.WellFormed(SwiftHandler.Clean(swift.s)) ==> ExtractCountryFromSwift(swift, cfg) == Ok(None)
  {
    if swift.Text? && swift.s != [] {
      var clean := SwiftHandler.Clean(swift.s);
      if (|clean| == 8 || |clean| == 11) && IsAlphaStr(clean[4..6]) {
        OffshoreNameCases(cfg, clean[4..6]);
      }
    }
  }

  /** A payer SWIFT value that is not a string: a truthy one is kept by the `or` and then rejected as
      not a string; a falsy one (0, False) gives way to the payee's code. */
  lemma SwiftNumericPayer(row: Row, cfg: Config)
    requires Get(row, "SWIFT Банка плательщика").Other?
    ensures Get(row, "SWIFT Банка плательщика").truthy ==> ExtractCountryFromSwift(SwiftCell(row), cfg) == Ok(None)
    ensures !Get(row, "SWIFT Банка плательщика").truthy ==>
      ExtractCountryFromSwift(SwiftCell(row), cfg) == ExtractCountryFromSwift(Get(row, "SWIFT Банка получателя"), cfg)
  {
  }

  /** The two generations agree except on a code whose country pair is not alphabetic, which only the
      current one looks up. */
  lemma ExtractAgreesWithCurrent(swift: Cell, cfg: Config)
    ensures swift.Text? && SwiftHandler.WellFormed(SwiftHandler.Clean(swift.s)) ==>
      ExtractCountryFromSwift(swift, cfg) == Analyzer.ExtractCountryFromSwift(swift, cfg)
    ensures !swift.Text? ==> ExtractCountryFromSwift(swift, cfg) == Analyzer.ExtractCountryFromSwift(swift, cfg)
  {
  }

  // ---------------------------------------------------------------------------------------------
  // calculate_confidence

  /** `sum(field_weights.get(field, 0.0) for field in matched_fields)`. */
  function WeightSum(fields: seq<string>, ws: seq<(string, real)>): real {
    if fields == [] then 0.0 else WeightOf(ws, fields[0]) + WeightSum(fields[1..], ws)
  }

  /** The generator sum adds the same weights as the running `+=` of the current analyzer. */
  lemma {:induction false} WeightSumIsFieldScore(fields: seq<string>, ws: seq<(string, real)>)
    ensures WeightSum(fields, ws) == FieldScore(fields, ws)
  {
    if fields != [] {
      WeightSumIsFieldScore(fields[1..], ws);
      FieldScoreCons(fields[0], fields[1..], ws);
      assert [fields[0]] + fields[1..] == fields;
    }
  }

  lemma {:induction false} FieldScoreCons(f: string, rest: seq<string>, ws: seq<(string, real)>)
    ensures FieldScore([f] + rest, ws) == WeightOf(ws, f) + FieldScore(rest, ws)
  {
    if rest != [] {
      var pre := rest[..|rest| - 1];
      FieldScoreCons(f, pre, ws);
      assert ([f] + rest)[..|[f] + rest| - 1] == [f] + pre;
    } else {
      assert [f] + rest == [f];
      assert [f][..0] == [];
    }
  }

  /** `calculate_confidence` of this generation: the same additive capped score as the current one. */
  function CalculateConfidence(hits: seq<string>, swift: Option<string>, fields: seq<string>, details: seq<Match>,
                               ws: seq<(string, real)>): (c: real)
    ensures c == Confidence(hits, swift, fields, details, ws)
  {
    var base := (if hits != [] then 0.3 else 0.0) + (if Truthy(swift) then 0.2 else 0.0);
    var fieldScore := WeightSum(fields, ws);
    WeightSumIsFieldScore(fields, ws);
    var withFields := base + Min(fieldScore, 1.0) * 0.3;
    var withBonus := withFields + (if |hits| > 1 then 0.05 else 0.0) + (if |fields| > 2 then 0.05 else 0.0);
    var total := if details == [] then withBonus else withBonus + Sum(Similarities(details)) / |details| as real * 0.1;
    Min(total, 1.0)
  }

  // ---------------------------------------------------------------------------------------------
  // run_preliminary_analysis

  /** This generation's matcher: the hardened `fuzzy_match` at its default threshold. */
  function LegacyMatcher(text: string, targets: seq<string>): seq<Match> {
    LegacyFuzzyMatcher.FuzzyMatchSpec(Some(text), targets, 0.8)
  }

  function LegacyPreliminary(row: Row, cfg: Config): Result<Preliminary, string> {
    PreliminarySpec(row, cfg, LegacyMatcher, ExtractCountryFromSwift(SwiftCell(row), cfg))
  }

  /** The call `fuzzy_match(text_to_check, jurisdictions)` for the `k`-th language. */
  method MatchLanguage(text: string, langs: seq<(string, seq<string>)>, k: nat) returns (matches: seq<Match>)
    requires k < |langs|
    ensures matches == LegacyMatcher(text, langs[k].1)
  {
    matches := LegacyFuzzyMatcher.FuzzyMatch(Some(text), langs[k].1, 0.8);
  }

  /** The inner loop over the languages for one field. */
  method MatchField(field: string, text: string, langs: seq<(string, seq<string>)>,
                    dictHits0: seq<string>, matchedFields0: seq<string>, matchDetails0: seq<Match>)
    returns (dictHits: seq<string>, matchedFields: seq<string>, matchDetails: seq<Match>)
    requires dictHits0 == Targets(matchDetails0)
    ensures dictHits == Targets(matchDetails)
    ensures matchDetails == matchDetails0 + LangMatches(text, langs, LegacyMatcher)
    ensures matchedFields ==
      if LangMatches(text, langs, LegacyMatcher) != [] && field !in matchedFields0
      then matchedFields0 + [field] else matchedFields0
  {
    ghost var rs := LangResults(text, langs, LegacyMatcher);
    forall j | 0 <= j < |langs| ensures rs[j] == LegacyMatcher(text, langs[j].1) {
      LangResultsAt(text, langs, LegacyMatcher, j);
    }
    dictHits, matchedFields, matchDetails := MatchLanguages(field, text, langs, rs, dictHits0, matchedFields0, matchDetails0);
  }

  /** The loop itself, over the results `rs` of the matcher for each language. */
  method MatchLanguages(field: string, text: string, langs: seq<(string, seq<string>)>, ghost rs: seq<seq<Match>>,
                        dictHits0: seq<string>, matchedFields0: seq<string>, matchDetails0: seq<Match>)
    returns (dictHits: seq<string>, matchedFields: seq<string>, matchDetails: seq<Match>)
    requires |rs| == |langs| && forall j :: 0 <= j < |langs| ==> rs[j] == LegacyMatcher(text, langs[j].1)
    requires dictHits0 == Targets(matchDetails0)
    ensures Recorded(field, matchedFields0, matchDetails0, Concat(rs), dictHits, matchedFields, matchDetails)
  {
    dictHits, matchedFields, matchDetails := dictHits0, matchedFields0, matchDetails0;
    for k := 0 to |langs|
      invariant Recorded(field, matchedFields0, matchDetails0, Concat(rs[..k]), dictHits, matchedFields, matchDetails)
    {
      dictHits, matchedFields, matchDetails :=
        MatchFieldStep(field, text, langs, k, rs, matchedFields0, matchDetails0, dictHits, matchedFields, matchDetails);
    }
    assert rs[..|langs|] == rs;
  }

  /** One language of the inner loop: its matches are found and recorded. */
  method MatchFieldStep(field: string, text: string, langs: seq<(string, seq<string>)>, k: nat,
                        ghost rs: seq<seq<Match>>, matchedFields0: seq<string>, matchDetails0: seq<Match>,
                        dictHits0: seq<string>, matchedFields1: seq<string>, matchDetails1: seq<Match>)
    returns (dictHits: seq<string>, matchedFields: seq<string>, matchDetails: seq<Match>)
    requires k < |langs| == |rs| && rs[k] == LegacyMatcher(text, langs[k].1)
    requires Recorded(field, matchedFields0, matchDetails0, Concat(rs[..k]), dictHits0, matchedFields1, matchDetails1)
    ensures Recorded(field, matchedFields0, matchDetails0, Concat(rs[..k + 1]), dictHits, matchedFields, matchDetails)
  {
    var matches := MatchLanguage(text, langs, k);
    RecordStep(field, matchedFields0, matchDetails0, rs, k, matchedFields1, matchDetails1, matches);
    dictHits, matchedFields, matchDetails := RecordMatches(field, matches, dictHits0, matchedFields1, matchDetails1);
  }

  /** `run_preliminary_analysis` of this generation. */
  method RunPreliminaryAnalysis(row: Row, cfg: Config) returns (r: Result<Preliminary, string>)
    ensures r == LegacyPreliminary(row, cfg)
  {
    if "direction" !in row {
      return Err("'direction'");
    }
    var dictHits: seq<string> := [];
    var matchedFields: seq<string> := [];
    var matchDetails: seq<Match> := [];
    var ws := FieldWeights(row["direction"], cfg);
    for i := 0 to |ws|
      invariant Gathered(matchedFields, matchDetails) == Gather(row, ws[..i], cfg.jurisdictions, LegacyMatcher)
      invariant dictHits == Targets(matchDetails)
    {
      assert ws[..i + 1][..i] == ws[..i];
      var field := ws[i].0;
      var cell := Get(row, field);
      if NotNA(cell) {
        dictHits, matchedFields, matchDetails :=
          MatchField(field, Str(cell), cfg.jurisdictions, dictHits, matchedFields, matchDetails);
      }
    }
    assert ws[..|ws|] == ws;
    var swiftCountryMatch := ExtractCountryFromSwift(SwiftCell(row), cfg);
    if swiftCountryMatch.Err? {
      return Err(swiftCountryMatch.error);
    }
    var country := swiftCountryMatch.value;
    var confidence := CalculateConfidence(dictHits, country, matchedFields, matchDetails, ws);
    var scenario := ClassifyScenario(row["direction"], dictHits, country);
    r := Ok(Preliminary(Distinct(dictHits), country, confidence, scenario, matchedFields, matchDetails));
  }

  // ---------------------------------------------------------------------------------------------
  // analyze_transaction and _create_error_classification

  /** `_create_error_classification`: the same record the current analyzer builds inline. */
  function CreateErrorClassification(message: string): (e: ErrorClassification)
    ensures e == ErrorRecord(message)
  {
    ErrorClassification("ОШИБКА", None, 0.0, [], map[], [], ErrorPrefix + message)
  }

  /** The decision part of this generation's `analyze_transaction`: web research is always requested. */
  function AnalyzeTransaction(row: Row, cfg: Config): Decision {
    match LegacyPreliminary(row, cfg)
    case Err(e) => Failed(CreateErrorClassification(e))
    case Ok(p) => Research(p)
  }

  /** Unlike the current analyzer there is no confidence gate: every successful analysis is researched. */
  lemma AlwaysResearch(row: Row, cfg: Config)
    ensures !AnalyzeTransaction(row, cfg).NoResearch?
    ensures AnalyzeTransaction(row, cfg).Research? <==> LegacyPreliminary(row, cfg).Ok?
    ensures AnalyzeTransaction(row, cfg).Failed? ==>
      AnalyzeTransaction(row, cfg).error.classification == "ОШИБКА" && AnalyzeTransaction(row, cfg).error.confidence == 0.0
  {
  }
}
