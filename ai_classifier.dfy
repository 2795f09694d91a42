/**
 * The rule-based fallback of the first-generation GPT classifier: when no API key is configured,
 * or the model call fails, the preliminary analysis alone decides the Russian label by two
 * confidence thresholds. The model call itself is not part of this model; its outcome is a parameter.
 */
module AiClassifier {
  import opened Wrappers
  import Schema
  import Analyzer

  /** The preliminary-analysis dict as `fallback_classification` reads it with `.get`: any key may
      be missing (`None` here), and a missing `scenario` or `swift_country_match` reads as None. */
  datatype Analysis = Analysis(
    confidence: Option<real>,
    scenario: Option<nat>,
    matchedFields: Option<seq<string>>,
    swiftCountryMatch: Option<string>,
    dictHits: Option<seq<string>>)

  /** The dict `run_preliminary_analysis` returns has every key. */
  function FromPreliminary(p: Analyzer.Preliminary): Analysis {
    Analysis(Some(p.confidence), p.scenario, Some(p.matchedFields), p.swiftCountryMatch, Some(p.dictHits))
  }

  /** The fallback result dict. */
  datatype Fallback = Fallback(
    classification: string,
    scenario: Option<nat>,
    confidence: real,
    matchedFields: seq<string>,
    swiftCountry: Option<string>,
    dictHits: seq<string>,
    sources: seq<string>,
    explanationRu: string)

  const FallbackExplanation: string := "Классификация на основе предварительного анализа (GPT недоступен)."

  function GetOr<T>(o: Option<T>, default: T): T {
    if o.Some? then o.value else default
  }

  /** The two thresholds: above 0.7 is offshore, above 0.3 is suspect, the rest is not offshore. */
  function Band(confidence: real): (ru: string)
    ensures Schema.IsLabelRu(ru)
  {
    if confidence > 0.7 then Schema.LabelYesRu
    else if confidence > 0.3 then Schema.LabelSuspectRu
    else Schema.LabelNoRu
  }

  /** Each Russian label is given on exactly one confidence interval. */
  lemma BandCases(confidence: real)
    ensures Band(confidence) == Schema.LabelYesRu <==> confidence > 0.7
    ensures Band(confidence) == Schema.LabelSuspectRu <==> 0.3 < confidence <= 0.7
    ensures Band(confidence) == Schema.LabelNoRu <==> confidence <= 0.3
  {
  }

  /** How alarming a Russian label is: 0 for not offshore, 1 for suspect, 2 for offshore. */
  function Severity(ru: string): nat {
    if ru == Schema.LabelYesRu then 2 else if ru == Schema.LabelSuspectRu then 1 else 0
  }

  /** A higher confidence never gives a milder label. */
  lemma BandMonotone(c1: real, c2: real)
    requires c1 <= c2
    ensures Severity(Band(c1)) <= Severity(Band(c2))
  {
  }

  /** `fallback_classification`. */
  function FallbackClassification(a: Analysis): (f: Fallback)
    ensures f.sources == []
    ensures Schema.IsLabelRu(f.classification)
  {
    var confidence := GetOr(a.confidence, 0.0);
    Fallback(Band(confidence), a.scenario, confidence, GetOr(a.matchedFields, []), a.swiftCountryMatch,
      GetOr(a.dictHits, []), [], FallbackExplanation)
  }

  /** A missing confidence counts as 0.0 and so gives the not-offshore label; missing lists are empty. */
  lemma FallbackDefaults(a: Analysis)
    requires a.confidence.None?
    ensures FallbackClassification(a).classification == Schema.LabelNoRu
    ensures FallbackClassification(a).confidence == 0.0
    ensures a.dictHits.None? ==> FallbackClassification(a).dictHits == []
    ensures a.matchedFields.None? ==> FallbackClassification(a).matchedFields == []
  {
  }

  /** On the analyzer's own result the fallback copies the scenario, confidence, fields, SWIFT match
      and hits, and labels by the confidence bands. */
  lemma FallbackOfPreliminary(p: Analyzer.Preliminary)
    ensures var f := FallbackClassification(FromPreliminary(p));
      && f.scenario == p.scenario && f.confidence == p.confidence
      && f.matchedFields == p.matchedFields && f.swiftCountry == p.swiftCountryMatch
      && f.dictHits == p.dictHits && f.sources == []
      && (f.classification == Schema.LabelNoRu <==> p.confidence <= 0.3)
      && (f.classification == Schema.LabelYesRu <==> p.confidence > 0.7)
  {
  }

  /** What `classify_with_gpt4` returns: the model's parsed answer or the fallback. */
  datatype Outcome<J> = FromModel(answer: J) | FromFallback(fallback: Fallback)

  /** `classify_with_gpt4` with the model call as a parameter: `reply` is the parsed answer, or None
      when the call or the parsing raised. Without a key the model is never asked. */
  function ClassifyWithGpt4<J>(hasApiKey: bool, a: Analysis, reply: Option<J>): (o: Outcome<J>)
    ensures !hasApiKey ==> o == FromFallback(FallbackClassification(a))
    ensures o.FromModel? <==> hasApiKey && reply.Some?
  {
    if !hasApiKey || reply.None? then FromFallback(FallbackClassification(a))
    else FromModel(reply.value)
  }
}
