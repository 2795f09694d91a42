/**
 * The rule-based first pass over one transaction row: dictionary matching of the weighted fields
 * against the per-language offshore name lists, the country behind the SWIFT/BIC code, the additive
 * capped confidence score, the three-way scenario rule, and the confidence gate and error record of
 * `analyze_transaction`. The configuration constants are inputs.
 */
module Analyzer {
  import opened Wrappers
  import opened Chars
  import opened Ranking
  import opened Lists
  import SwiftHandler
  import FuzzyMatcher

  /** A value of a pandas row: None, NaN, a string, or any other value (a number, a boolean) given by
      its `str()` text and its Python truthiness. */
  datatype Cell = Null | NaN | Text(s: string) | Other(shown: string, truthy: bool)

  /** A transaction row: column name to value. */
  type Row = map<string, Cell>

  /** `row.get(key)`. */
  function Get(row: Row, key: string): Cell {
    if key in row then row[key] else Null
  }

  /** Python truthiness of a cell: NaN is truthy, None and "" are not, and 0 and False are not. */
  predicate CellTruthy(c: Cell) {
    c.NaN? || (c.Text? && c.s != []) || (c.Other? && c.truthy)
  }

  /** `pd.notna(c)`: anything but None and NaN. */
  predicate NotNA(c: Cell) {
    c.Text? || c.Other?
  }

  /** `str(c)` of a value that is not None or NaN. */
  function Str(c: Cell): string
    requires NotNA(c)
  {
    if c.Text? then c.s else c.shown
  }

  /** `a or b`. */
  function Or(a: Cell, b: Cell): Cell {
    if CellTruthy(a) then a else b
  }

  /**
   * The configuration constants the analyzers import: the offshore names per language and the
   * two field-weight tables, each a dict given by its items in order, and the SWIFT country map.
   */
  datatype Config = Config(
    jurisdictions: seq<(string, seq<string>)>,
    swiftCountryMap: map<string, string>,
    weightsIncoming: seq<(string, real)>,
    weightsOutgoing: seq<(string, real)>)

  /** `d.get(key)` on a dict given by its items; a later item with the same key wins. */
  function Lookup<V>(items: seq<(string, V)>, key: string): (r: Option<V>)
    ensures r.Some? <==> exists i :: 0 <= i < |items| && items[i].0 == key
  {
    if items == [] then None
    else if items[|items| - 1].0 == key then Some(items[|items| - 1].1)
    else Lookup(items[..|items| - 1], key)
  }

  /** `OFFSHORE_JURISDICTIONS['en']`, absent when the dict has no English list. */
  function EnglishNames(cfg: Config): Option<seq<string>> {
    Lookup(cfg.jurisdictions, "en")
  }

  /** The weight of a field, 0.0 when the table has none. */
  function WeightOf(ws: seq<(string, real)>, field: string): real {
    match Lookup(ws, field)
    case None => 0.0
    case Some(w) => w
  }

  /** `FIELD_WEIGHTS_INCOMING if row['direction'] == 'incoming' else FIELD_WEIGHTS_OUTGOING`. */
  function FieldWeights(direction: Cell, cfg: Config): seq<(string, real)> {
    if direction == Text("incoming") then cfg.weightsIncoming else cfg.weightsOutgoing
  }

  function Min(a: real, b: real): real {
    if a <= b then a else b
  }

  // ---------------------------------------------------------------------------------------------
  // calculate_confidence

  /** The summed weights of the matched fields, in iteration order. */
  function FieldScore(fields: seq<string>, ws: seq<(string, real)>): real {
    if fields == [] then 0.0 else FieldScore(fields[..|fields| - 1], ws) + WeightOf(ws, fields[|fields| - 1])
  }

  function Similarities(details: seq<Match>): (sims: seq<real>)
    ensures |sims| == |details| && forall i :: 0 <= i < |details| ==> sims[i] == details[i].similarity
  {
    seq(|details|, i requires 0 <= i < |details| => details[i].similarity)
  }

  /**
   * The score of `calculate_confidence`: 0.3 for any dictionary hit, 0.2 for a SWIFT country,
   * 0.3 times the field weight sum capped at 1, 0.05 each for more than one hit and more than
   * two fields, 0.1 times the mean similarity, and the total capped at 1.
   */
  function Confidence(hits: seq<string>, swift: Option<string>, fields: seq<string>, details: seq<Match>,
                      ws: seq<(string, real)>): real
  {
    var base := (if hits != [] then 0.3 else 0.0) + (if Truthy(swift) then 0.2 else 0.0);
    var fieldPart := Min(FieldScore(fields, ws), 1.0) * 0.3;
    var bonus := (if |hits| > 1 then 0.05 else 0.0) + (if |fields| > 2 then 0.05 else 0.0);
    var quality := if details == [] then 0.0 else Mean(Similarities(details)) * 0.1;
    Min(base + fieldPart + bonus + quality, 1.0)
  }

  /** `calculate_confidence` as written: running `+=` on the score and on the field sum. */
  method CalculateConfidence(hits: seq<string>, swift: Option<string>, fields: seq<string>, details: seq<Match>,
                             ws: seq<(string, real)>) returns (confidence: real)
    ensures confidence == Confidence(hits, swift, fields, details, ws)
  {
    confidence := 0.0;
    if hits != [] {
      confidence := confidence + 0.3;
    }
    if Truthy(swift) {
      confidence := confidence + 0.2;
    }
    var fieldScore := 0.0;
    for i := 0 to |fields|
      invariant fieldScore == FieldScore(fields[..i], ws)
    {
      assert fields[..i + 1][..i] == fields[..i];
      var w := Lookup(ws, fields[i]);
      if w.Some? {
        fieldScore := fieldScore + w.value;
      }
    }
    assert fields[..|fields|] == fields;
    confidence := confidence + Min(fieldScore, 1.0) * 0.3;
    if |hits| > 1 {
      confidence := confidence + 0.05;
    }
    if |fields| > 2 {
      confidence := confidence + 0.05;
    }
    if details != [] {
      var avgSimilarity := Sum(Similarities(details)) / |details| as real;
      confidence := confidence + avgSimilarity * 0.1;
    }
    confidence := Min(confidence, 1.0);
  }

  predicate NonNegativeWeights(ws: seq<(string, real)>) {
    forall i :: 0 <= i < |ws| ==> ws[i].1 >= 0.0
  }

  predicate UnitSimilarities(details: seq<Match>) {
    forall i :: 0 <= i < |details| ==> 0.0 <= details[i].similarity <= 1.0
  }

  lemma {:induction false} WeightOfNonNegative(ws: seq<(string, real)>, field: string)
    requires NonNegativeWeights(ws)
    ensures WeightOf(ws, field) >= 0.0
  {
    if ws != [] && ws[|ws| - 1].0 != field {
      WeightOfNonNegative(ws[..|ws| - 1], field);
    }
  }

  lemma {:induction false} FieldScoreNonNegative(fields: seq<string>, ws: seq<(string, real)>)
    requires NonNegativeWeights(ws)
    ensures FieldScore(fields, ws) >= 0.0
  {
    if fields != [] {
      FieldScoreNonNegative(fields[..|fields| - 1], ws);
      WeightOfNonNegative(ws, fields[|fields| - 1]);
    }
  }

  /** With non-negative weights and similarities in [0, 1] the score lies in [0, 1]. */
  lemma ConfidenceUnit(hits: seq<string>, swift: Option<string>, fields: seq<string>, details: seq<Match>,
                       ws: seq<(string, real)>)
    requires NonNegativeWeights(ws) && UnitSimilarities(details)
    ensures 0.0 <= Confidence(hits, swift, fields, details, ws) <= 1.0
  {
    FieldScoreNonNegative(fields, ws);
    if details != [] {
      MeanUnit(Similarities(details));
    }
  }

  /** One hit, a SWIFT country, one matched field of weight 0.3 and one exact detail give 0.69. */
  lemma ConfidenceWorked()
    ensures Confidence(["Cayman Islands"], Some("Cayman Islands"), ["f"], [Match("Cayman Islands", 1.0)], [("f", 0.3)]) == 0.69
    ensures Confidence([], None, [], [], [("f", 0.3)]) == 0.0
  {
    assert Similarities([Match("Cayman Islands", 1.0)]) == [1.0];
    assert Sum([1.0]) == 1.0 + Sum([]);
  }

  /** Another hit never lowers the score. */
  lemma ConfidenceMoreHits(hits: seq<string>, h: string, swift: Option<string>, fields: seq<string>,
                           details: seq<Match>, ws: seq<(string, real)>)
    ensures Confidence(hits + [h], swift, fields, details, ws) >= Confidence(hits, swift, fields, details, ws)
  {
  }

  /** A SWIFT country never lowers the score. */
  lemma ConfidenceSwift(hits: seq<string>, name: string, fields: seq<string>, details: seq<Match>,
                        ws: seq<(string, real)>)
    requires name != []
    ensures Confidence(hits, Some(name), fields, details, ws) >= Confidence(hits, None, fields, details, ws)
  {
  }

  /** Another matched field of non-negative weight never lowers the score. */
  lemma ConfidenceMoreFields(hits: seq<string>, swift: Option<string>, fields: seq<string>, f: string,
                             details: seq<Match>, ws: seq<(string, real)>)
    requires WeightOf(ws, f) >= 0.0
    ensures Confidence(hits, swift, fields + [f], details, ws) >= Confidence(hits, swift, fields, details, ws)
  {
    assert (fields + [f])[..|fields|] == fields;
  }

  // ---------------------------------------------------------------------------------------------
  // classify_scenario

  /** Scenario 1 (incoming), 2 (outgoing) or 3 (other direction) when there is any signal. */
  function ClassifyScenario(direction: Cell, hits: seq<string>, swift: Option<string>): Option<nat> {
    var signal := hits != [] || Truthy(swift);
    if direction == Text("incoming") && signal then Some(1)
    else if direction == Text("outgoing") && signal then Some(2)
    else if signal then Some(3)
    else None
  }

  /** No scenario exactly when there is no signal; otherwise the direction alone picks it. */
  lemma ScenarioCases(direction: Cell, hits: seq<string>, swift: Option<string>)
    ensures ClassifyScenario(direction, hits, swift).None? <==> hits == [] && !Truthy(swift)
    ensures ClassifyScenario(direction, hits, swift) == Some(1) <==>
      (hits != [] || Truthy(swift)) && direction == Text("incoming")
    ensures ClassifyScenario(direction, hits, swift) == Some(2) <==>
      (hits != [] || Truthy(swift)) && direction == Text("outgoing")
    ensures ClassifyScenario(direction, hits, swift) == Some(3) <==>
      (hits != [] || Truthy(swift)) && direction != Text("incoming") && direction != Text("outgoing")
  {
  }

  // ---------------------------------------------------------------------------------------------
  // extract_country_from_swift

  /** `SWIFT_COUNTRY_MAP.get(code)`. */
  function CountryOf(cfg: Config, code: string): Option<string> {
    if code in cfg.swiftCountryMap then Some(cfg.swiftCountryMap[code]) else None
  }

  /** A truthy country name kept only when it is an English offshore name; a missing English list raises. */
  function OffshoreName(cfg: Config, code: string): Result<Option<string>, string> {
    var name := CountryOf(cfg, code);
    if !Truthy(name) then Ok(None)
    else match EnglishNames(cfg)
      case None => Err("'en'")
      case Some(en) => if name.value in en then Ok(name) else Ok(None)
  }

  /** `extract_country_from_swift`: no alphabetic check on the country pair. */
  function ExtractCountryFromSwift(swift: Cell, cfg: Config): Result<Option<string>, string> {
    if !swift.Text? then Ok(None)
    else
      var clean := SwiftHandler.Clean(swift.s);
      if |clean| != 8 && |clean| != 11 then Ok(None)
      else OffshoreName(cfg, clean[4..6])
  }

  /** A name is returned only for a string of cleaned length 8 or 11 whose characters 4-5 map to an
      English offshore name; an error only when that lookup needs a missing English list. */
  lemma ExtractCountryCases(swift: Cell, cfg: Config)
    ensures var r := ExtractCountryFromSwift(swift, cfg);
      r.Ok? && r.value.Some? ==>
        (swift.Text? && (|SwiftHandler.Clean(swift.s)| == 8 || |SwiftHandler.Clean(swift.s)| == 11)
         && (var code := SwiftHandler.Clean(swift.s)[4..6];
             code in cfg.swiftCountryMap && r.value.value == cfg.swiftCountryMap[code] && r.value.value != []
             && EnglishNames(cfg).Some? && r.value.value in EnglishNames(cfg).value))
    ensures var r := ExtractCountryFromSwift(swift, cfg);
      r.Err? ==> swift.Text? && EnglishNames(cfg).None?
    ensures !swift.Text? ==> ExtractCountryFromSwift(swift, cfg) == Ok(None)
  {
    if swift.Text? {
      var clean := SwiftHandler.Clean(swift.s);
      if |clean| == 8 || |clean| == 11 {
        OffshoreNameCases(cfg, clean[4..6]);
      }
    }
  }

  /** The lookup gives a name only for a mapped code whose name is in the English list, and fails
      only when that list is missing. */
  lemma OffshoreNameCases(cfg: Config, code: string)
    ensures var r := OffshoreName(cfg, code);
      r.Ok? && r.value.Some? ==>
        code in cfg.swiftCountryMap && r.value.value == cfg.swiftCountryMap[code] && r.value.value != []
        && EnglishNames(cfg).Some? && r.value.value in EnglishNames(cfg).value
    ensures OffshoreName(cfg, code).Err? ==> EnglishNames(cfg).None?
  {
  }

  // ---------------------------------------------------------------------------------------------
  // run_preliminary_analysis

  /** `[m['match'] for m in matches]`. */
  function Targets(ms: seq<Match>): (ts: seq<string>)
    ensures |ts| == |ms| && forall i :: 0 <= i < |ms| ==> ts[i] == ms[i].target
  {
    seq(|ms|, i requires 0 <= i < |ms| => ms[i].target)
  }

  lemma TargetsAppend(a: seq<Match>, b: seq<Match>)
    ensures Targets(a + b) == Targets(a) + Targets(b)
  {
  }

  /** The result of the matcher for each language, in language order. */
  function LangResults(text: string, langs: seq<(string, seq<string>)>,
                       matcher: (string, seq<string>) -> seq<Match>): (rs: seq<seq<Match>>)
    ensures |rs| == |langs|
  {
    if langs == [] then []
    else LangResults(text, langs[..|langs| - 1], matcher) + [matcher(text, langs[|langs| - 1].1)]
  }

  lemma {:induction false} LangResultsAt(text: string, langs: seq<(string, seq<string>)>,
                                         matcher: (string, seq<string>) -> seq<Match>, k: nat)
    requires k < |langs|
    ensures LangResults(text, langs, matcher)[k] == matcher(text, langs[k].1)
  {
    if k < |langs| - 1 {
      LangResultsAt(text, langs[..|langs| - 1], matcher, k);
    }
  }

  /** The concatenation of a list of lists (`extend` in a loop). */
  function Concat(rs: seq<seq<Match>>): seq<Match> {
    if rs == [] then [] else Concat(rs[..|rs| - 1]) + rs[|rs| - 1]
  }

  lemma ConcatStep(rs: seq<seq<Match>>, k: nat)
    requires k < |rs|
    ensures Concat(rs[..k + 1]) == Concat(rs[..k]) + rs[k]
  {
    assert rs[..k + 1][..k] == rs[..k];
  }

  lemma {:induction false} ConcatNonEmpty(rs: seq<seq<Match>>)
    ensures Concat(rs) != [] <==> exists k :: 0 <= k < |rs| && rs[k] != []
  {
    if rs != [] {
      ConcatNonEmpty(rs[..|rs| - 1]);
      assert forall k :: 0 <= k < |rs| - 1 ==> rs[..|rs| - 1][k] == rs[k];
    }
  }

  /** The matches of one text against every language's name list, in language order. */
  function LangMatches(text: string, langs: seq<(string, seq<string>)>, matcher: (string, seq<string>) -> seq<Match>): seq<Match> {
    Concat(LangResults(text, langs, matcher))
  }

  /** A text has matches exactly when some language's list gives it one. */
  lemma LangMatchesNonEmpty(text: string, langs: seq<(string, seq<string>)>,
                            matcher: (string, seq<string>) -> seq<Match>)
    ensures LangMatches(text, langs, matcher) != [] <==> exists k :: 0 <= k < |langs| && matcher(text, langs[k].1) != []
  {
    var rs := LangResults(text, langs, matcher);
    ConcatNonEmpty(rs);
    forall k | 0 <= k < |langs| ensures rs[k] == matcher(text, langs[k].1) {
      LangResultsAt(text, langs, matcher, k);
    }
  }

  /** The matches of one field: none unless the row holds a non-null value for it. */
  function FieldMatches(row: Row, field: string, langs: seq<(string, seq<string>)>,
                        matcher: (string, seq<string>) -> seq<Match>): seq<Match>
  {
    var c := Get(row, field);
    if NotNA(c) then LangMatches(Str(c), langs, matcher) else []
  }

  /** The matched fields (a set, here in insertion order) and the match details, after the loops. */
  datatype Gathered = Gathered(fields: seq<string>, details: seq<Match>)

  function Gather(row: Row, ws: seq<(string, real)>, langs: seq<(string, seq<string>)>,
                  matcher: (string, seq<string>) -> seq<Match>): Gathered
  {
    if ws == [] then Gathered([], [])
    else
      var g := Gather(row, ws[..|ws| - 1], langs, matcher);
      var field := ws[|ws| - 1].0;
      var ms := FieldMatches(row, field, langs, matcher);
      Gathered(if ms != [] && field !in g.fields then g.fields + [field] else g.fields, g.details + ms)
  }

  /** A field is matched exactly when it is in the weight table and the matcher found it in some list;
      each appears once. */
  lemma {:induction false} GatherFields(row: Row, ws: seq<(string, real)>, langs: seq<(string, seq<string>)>,
                                        matcher: (string, seq<string>) -> seq<Match>)
    ensures var g := Gather(row, ws, langs, matcher);
      forall f :: f in g.fields <==>
        (exists i :: 0 <= i < |ws| && ws[i].0 == f) && FieldMatches(row, f, langs, matcher) != []
    ensures var fs := Gather(row, ws, langs, matcher).fields;
      forall i, j :: 0 <= i < j < |fs| ==> fs[i] != fs[j]
  {
    if ws != [] {
      var pre := ws[..|ws| - 1];
      GatherFields(row, pre, langs, matcher);
      assert forall i :: 0 <= i < |pre| ==> pre[i] == ws[i];
    }
  }

  /** The dict returned by `run_preliminary_analysis`; `dictHits` and `matchedFields` come from sets. */
  datatype Preliminary = Preliminary(
    dictHits: seq<string>,
    swiftCountryMatch: Option<string>,
    confidence: real,
    scenario: Option<nat>,
    matchedFields: seq<string>,
    matchDetails: seq<Match>)

  /**
   * `run_preliminary_analysis` for a given matcher and SWIFT result: a row without a direction
   * raises, as does the SWIFT lookup when it needs a missing English list.
   */
  function PreliminarySpec(row: Row, cfg: Config, matcher: (string, seq<string>) -> seq<Match>,
                           swift: Result<Option<string>, string>): Result<Preliminary, string>
  {
    if "direction" !in row then Err("'direction'")
    else
      var ws := FieldWeights(row["direction"], cfg);
      var g := Gather(row, ws, cfg.jurisdictions, matcher);
      var hits := Targets(g.details);
      match swift
      case Err(e) => Err(e)
      case Ok(country) =>
        Ok(Preliminary(Distinct(hits), country, Confidence(hits, country, g.fields, g.details, ws),
          ClassifyScenario(row["direction"], hits, country), g.fields, g.details))
  }

  /** What the preliminary analysis reports: deduplicated hits, which are the targets of the details,
      and exactly the fields of the direction's weight table that the matcher found. */
  lemma PreliminaryFacts(row: Row, cfg: Config, matcher: (string, seq<string>) -> seq<Match>,
                         swift: Result<Option<string>, string>)
    ensures var r := PreliminarySpec(row, cfg, matcher, swift);
      r.Ok? ==>
        ((forall i, j :: 0 <= i < j < |r.value.dictHits| ==> r.value.dictHits[i] != r.value.dictHits[j])
         && (forall h :: h in r.value.dictHits <==> exists m :: m in r.value.matchDetails && m.target == h))
    ensures var r := PreliminarySpec(row, cfg, matcher, swift);
      r.Ok? ==> forall f :: f in r.value.matchedFields <==>
        (exists i :: 0 <= i < |FieldWeights(row["direction"], cfg)| && FieldWeights(row["direction"], cfg)[i].0 == f)
        && NotNA(Get(row, f))
        && exists k :: 0 <= k < |cfg.jurisdictions| && matcher(Str(Get(row, f)), cfg.jurisdictions[k].1) != []
    ensures PreliminarySpec(row, cfg, matcher, swift).Err? <==> "direction" !in row || swift.Err?
  {
    if "direction" in row && swift.Ok? {
      var ws := FieldWeights(row["direction"], cfg);
      GatherFields(row, ws, cfg.jurisdictions, matcher);
      forall f ensures NotNA(Get(row, f)) ==>
        (LangMatches(Str(Get(row, f)), cfg.jurisdictions, matcher) != [] <==>
          exists k :: 0 <= k < |cfg.jurisdictions| && matcher(Str(Get(row, f)), cfg.jurisdictions[k].1) != [])
      {
        if NotNA(Get(row, f)) {
          LangMatchesNonEmpty(Str(Get(row, f)), cfg.jurisdictions, matcher);
        }
      }
      var details := Gather(row, ws, cfg.jurisdictions, matcher).details;
      forall h ensures h in Targets(details) <==> exists m :: m in details && m.target == h {
        if h in Targets(details) {
          var i :| 0 <= i < |details| && Targets(details)[i] == h;
          assert details[i] in details;
        }
      }
    }
  }

  /** The current analyzer's matcher: `fuzzy_matcher.fuzzy_match` at its default threshold. */
  function CurrentMatcher(text: string, targets: seq<string>): seq<Match> {
    FuzzyMatcher.FuzzyMatchSpec(Some(text), targets, 0.8)
  }

  /** `row.get('SWIFT Банка плательщика') or row.get('SWIFT Банка получателя')`. */
  function SwiftCell(row: Row): Cell {
    Or(Get(row, "SWIFT Банка плательщика"), Get(row, "SWIFT Банка получателя"))
  }

  /** A payer SWIFT value that is not a string: a truthy one (a non-zero number) is kept by the `or`
      and then rejected as not a string; a falsy one (0, False) gives way to the payee's code. */
  lemma SwiftNumericPayer(row: Row, cfg: Config)
    requires Get(row, "SWIFT Банка плательщика").Other?
    ensures Get(row, "SWIFT Банка плательщика").truthy ==> ExtractCountryFromSwift(SwiftCell(row), cfg) == Ok(None)
    ensures !Get(row, "SWIFT Банка плательщика").truthy ==>
      ExtractCountryFromSwift(SwiftCell(row), cfg) == ExtractCountryFromSwift(Get(row, "SWIFT Банка получателя"), cfg)
  {
  }

  function CurrentPreliminary(row: Row, cfg: Config): Result<Preliminary, string> {
    PreliminarySpec(row, cfg, CurrentMatcher, ExtractCountryFromSwift(SwiftCell(row), cfg))
  }

  /** The call `fuzzy_match(text_to_check, jurisdictions)` for the `k`-th language. */
  method MatchLanguage(text: string, langs: seq<(string, seq<string>)>, k: nat) returns (matches: seq<Match>)
    requires k < |langs|
    ensures matches == CurrentMatcher(text, langs[k].1)
  {
    matches := FuzzyMatcher.FuzzyMatch(Some(text), langs[k].1, 0.8);
  }

  lemma AppendAssoc(a: seq<Match>, b: seq<Match>, c: seq<Match>)
    ensures (a + b) + c == a + (b + c)
  {
  }

  /** The state of the inner loop after the matches `found`: every hit and detail recorded, and the
      field added once when there is any. */
  predicate Recorded(field: string, matchedFields0: seq<string>, matchDetails0: seq<Match>, found: seq<Match>,
                     dictHits: seq<string>, matchedFields: seq<string>, matchDetails: seq<Match>) {
    && dictHits == Targets(matchDetails)
    && matchDetails == matchDetails0 + found
    && matchedFields == if found != [] && field !in matchedFields0 then matchedFields0 + [field] else matchedFields0
  }

  /** One more language result recorded: the details grow by its matches and the field is added
      once, when the first match arrives. */
  lemma RecordStep(field: string, matchedFields0: seq<string>, matchDetails0: seq<Match>,
                   rs: seq<seq<Match>>, k: nat, mf: seq<string>, md: seq<Match>, matches: seq<Match>)
    requires k < |rs| && matches == rs[k]
    requires md == matchDetails0 + Concat(rs[..k])
    requires mf == if Concat(rs[..k]) != [] && field !in matchedFields0 then matchedFields0 + [field] else matchedFields0
    ensures md + matches == matchDetails0 + Concat(rs[..k + 1])
    ensures (if matches != [] && field !in mf then mf + [field] else mf) ==
      if Concat(rs[..k + 1]) != [] && field !in matchedFields0 then matchedFields0 + [field] else matchedFields0
  {
    ConcatStep(rs, k);
    AppendAssoc(matchDetails0, Concat(rs[..k]), matches);
  }

  /** The `if matches:` block: the hits, the field (a set insertion) and the details are recorded. */
  method RecordMatches(field: string, matches: seq<Match>,
                       dictHits0: seq<string>, matchedFields0: seq<string>, matchDetails0: seq<Match>)
    returns (dictHits: seq<string>, matchedFields: seq<string>, matchDetails: seq<Match>)
    requires dictHits0 == Targets(matchDetails0)
    ensures dictHits == Targets(matchDetails)
    ensures matchDetails == matchDetails0 + matches
    ensures matchedFields ==
      if matches != [] && field !in matchedFields0 then matchedFields0 + [field] else matchedFields0
  {
    dictHits, matchedFields, matchDetails := dictHits0, matchedFields0, matchDetails0;
    if matches != [] {
      TargetsAppend(matchDetails, matches);
      dictHits := dictHits + Targets(matches);
      if field !in matchedFields {
        matchedFields := matchedFields + [field];
      }
      matchDetails := matchDetails + matches;
    } else {
      assert matchDetails0 + matches == matchDetails0;
    }
  }

  /** The inner loop of `run_preliminary_analysis`: one field's text against every language. */
  method MatchField(field: string, text: string, langs: seq<(string, seq<string>)>,
                    dictHits0: seq<string>, matchedFields0: seq<string>, matchDetails0: seq<Match>)
    returns (dictHits: seq<string>, matchedFields: seq<string>, matchDetails: seq<Match>)
    requires dictHits0 == Targets(matchDetails0)
    ensures dictHits == Targets(matchDetails)
    ensures matchDetails == matchDetails0 + LangMatches(text, langs, CurrentMatcher)
    ensures matchedFields ==
      if LangMatches(text, langs, CurrentMatcher) != [] && field !in matchedFields0
      then matchedFields0 + [field] else matchedFields0
  {
    ghost var rs := LangResults(text, langs, CurrentMatcher);
    forall j | 0 <= j < |langs| ensures rs[j] == CurrentMatcher(text, langs[j].1) {
      LangResultsAt(text, langs, CurrentMatcher, j);
    }
    dictHits, matchedFields, matchDetails := MatchLanguages(field, text, langs, rs, dictHits0, matchedFields0, matchDetails0);
  }

  /** The loop itself, over the results `rs` of the matcher for each language. */
  method MatchLanguages(field: string, text: string, langs: seq<(string, seq<string>)>, ghost rs: seq<seq<Match>>,
                        dictHits0: seq<string>, matchedFields0: seq<string>, matchDetails0: seq<Match>)
    returns (dictHits: seq<string>, matchedFields: seq<string>, matchDetails: seq<Match>)
    requires |rs| == |langs| && forall j :: 0 <= j < |langs| ==> rs[j] == CurrentMatcher(text, langs[j].1)
    requires dictHits0 == Targets(matchDetails0)
    ensures Recorded(field, matchedFields0, matchDetails0, Concat(rs), dictHits, matchedFields, matchDetails)
  {
    dictHits, matchedFields, matchDetails := dictHits0, matchedFields0, matchDetails0;
    for k := 0 to |langs|
      invariant Recorded(field, matchedFields0, matchDetails0, Concat(rs[..k]), dictHits, matchedFields, matchDetails)
    {
      dictHits, matchedFields, matchDetails :=
        MatchFieldStep(field, text, langs, k, rs, matchedFields0, matchDetails0, dictHits, matchedFields, matchDetails);
    }
    assert rs[..|langs|] == rs;
  }

  /** One language of the inner loop: its matches are found and recorded. */
  method MatchFieldStep(field: string, text: string, langs: seq<(string, seq<string>)>, k: nat,
                        ghost rs: seq<seq<Match>>, matchedFields0: seq<string>, matchDetails0: seq<Match>,
                        dictHits0: seq<string>, matchedFields1: seq<string>, matchDetails1: seq<Match>)
    returns (dictHits: seq<string>, matchedFields: seq<string>, matchDetails: seq<Match>)
    requires k < |langs| == |rs| && rs[k] == CurrentMatcher(text, langs[k].1)
    requires Recorded(field, matchedFields0, matchDetails0, Concat(rs[..k]), dictHits0, matchedFields1, matchDetails1)
    ensures Recorded(field, matchedFields0, matchDetails0, Concat(rs[..k + 1]), dictHits, matchedFields, matchDetails)
  {
    var matches := MatchLanguage(text, langs, k);
    RecordStep(field, matchedFields0, matchDetails0, rs, k, matchedFields1, matchDetails1, matches);
    dictHits, matchedFields, matchDetails := RecordMatches(field, matches, dictHits0, matchedFields1, matchDetails1);
  }

  /** `run_preliminary_analysis` as written: loops over the weighted fields and the languages. */
  method RunPreliminaryAnalysis(row: Row, cfg: Config) returns (r: Result<Preliminary, string>)
    ensures r == CurrentPreliminary(row, cfg)
  {
    if "direction" !in row {
      return Err("'direction'");
    }
    var dictHits: seq<string> := [];
    var matchedFields: seq<string> := [];
    var matchDetails: seq<Match> := [];
    var ws := FieldWeights(row["direction"], cfg);
    for i := 0 to |ws|
      invariant Gathered(matchedFields, matchDetails) == Gather(row, ws[..i], cfg.jurisdictions, CurrentMatcher)
      invariant dictHits == Targets(matchDetails)
    {
      assert ws[..i + 1][..i] == ws[..i];
      var field := ws[i].0;
      var cell := Get(row, field);
      if NotNA(cell) {
        dictHits, matchedFields, matchDetails :=
          MatchField(field, Str(cell), cfg.jurisdictions, dictHits, matchedFields, matchDetails);
      }
    }
    assert ws[..|ws|] == ws;
    var swiftCountryMatch := ExtractCountryFromSwift(SwiftCell(row), cfg);
    if swiftCountryMatch.Err? {
      return Err(swiftCountryMatch.error);
    }
    var country := swiftCountryMatch.value;
    var confidence := CalculateConfidence(dictHits, country, matchedFields, matchDetails, ws);
    var scenario := ClassifyScenario(row["direction"], dictHits, country);
    r := Ok(Preliminary(Distinct(dictHits), country, confidence, scenario, matchedFields, matchDetails));
  }

  // ---------------------------------------------------------------------------------------------
  // analyze_transaction

  /** The record returned when the analysis raises. */
  datatype ErrorClassification = ErrorClassification(
    classification: string,
    scenario: Option<nat>,
    confidence: real,
    matchedFields: seq<string>,
    signals: map<string, string>,
    sources: seq<string>,
    explanationRu: string)

  const ErrorPrefix: string := "Ошибка обработки: "

  function ErrorRecord(message: string): (e: ErrorClassification)
    ensures e.classification == "ОШИБКА" && e.scenario.None? && e.confidence == 0.0
    ensures e.matchedFields == [] && e.signals == map[] && e.sources == []
    ensures |e.explanationRu| == |ErrorPrefix| + |message|
    ensures e.explanationRu[..|ErrorPrefix|] == ErrorPrefix && e.explanationRu[|ErrorPrefix|..] == message
  {
    ErrorClassification("ОШИБКА", None, 0.0, [], map[], [], ErrorPrefix + message)
  }

  /** The part of `analyze_transaction` before the external calls: whether web research is requested. */
  datatype Decision = Research(prelim: Preliminary) | NoResearch(prelim: Preliminary) | Failed(error: ErrorClassification)

  function AnalyzeTransaction(row: Row, cfg: Config): Decision {
    match CurrentPreliminary(row, cfg)
    case Err(e) => Failed(ErrorRecord(e))
    case Ok(p) => if p.confidence > 0.2 then Research(p) else NoResearch(p)
  }

  /** Web research is requested exactly when the analysis succeeds with confidence above 0.2; a raised
      error becomes the error record with confidence 0.0. */
  lemma AnalyzeGate(row: Row, cfg: Config)
    ensures AnalyzeTransaction(row, cfg).Research? <==> CurrentPreliminary(row, cfg).Ok? && CurrentPreliminary(row, cfg).value.confidence > 0.2
    ensures AnalyzeTransaction(row, cfg).Failed? <==> "direction" !in row || ExtractCountryFromSwift(SwiftCell(row), cfg).Err?
    ensures AnalyzeTransaction(row, cfg).Failed? ==>
      AnalyzeTransaction(row, cfg).error.classification == "ОШИБКА" && AnalyzeTransaction(row, cfg).error.confidence == 0.0
  {
    PreliminaryFacts(row, cfg, CurrentMatcher, ExtractCountryFromSwift(SwiftCell(row), cfg));
  }
}
