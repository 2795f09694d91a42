# offshore_detector — a verified model of the local signal logic

offshore_detector flags bank transactions that may involve an offshore jurisdiction. For each
transaction row it gathers local signals and combines them into a label:

- fuzzy matches of the row's text fields against a table of offshore jurisdictions;
- the country encoded in the SWIFT/BIC code;
- a confidence score and a scenario.

Three further steps complete the pipeline:

- a language model, or a rule-based fallback when the model is unavailable, turns the signals into the label;
- geocoding of the bank adds supporting evidence;
- the result is written into a fixed-layout "Результат" column.

This project models the part of that pipeline that does not depend on the network, the model or
the spreadsheet library, and proves properties of it in Dafny.

Modules, one per source file (two for `web_research.py`):

- `Levenshtein`, `Lists`, `Ranking`, `Chars`, `Wrappers`: shared pieces.
  - `Levenshtein`: the edit distance and the similarity ratio.
  - `Lists`: Python set iteration and sums of reals.
  - `Ranking`: the dedup, stable sort and top-5 tail of both fuzzy matchers.
  - `Chars`: the `str` primitives used, over ASCII and the basic Cyrillic alphabet.
  - `Wrappers`: Option and Result.
- `LegacyFuzzyMatcher` (`_legacy/fuzzy_matcher.py`), `FuzzyMatcher` (`fuzzy_matcher.py`) and
  `SimpleMatcher` (`simple_matcher.py`): the three generations of the jurisdiction matcher.
  - Each keeps its loops as methods.
  - Each method is proved equal to a specification function.
  - Each function has its properties as lemmas.
- `SwiftHandler` (`swift_handler.py`): BIC country extraction and the lazily built code → name map, as a class.
- `Analyzer` (`analyzer.py`) and `LegacyAnalyzer` (`_legacy/analyzer.py`): the preliminary analysis, the confidence score, the scenario rule and the error record.
- `WebResearch` and `BankQuery` (`web_research.py`):
  - input and country-code validation;
  - the bank-name query normaliser;
  - the per-service rate limiter, as a class;
  - the first-in-first-out geocoding cache, as a class;
  - the cache/limiter logic of `geocode_bank_async` and `run_web_research`.
- `Amounts` (`processor.py` and `offshore_detector.py`): amount parsing.
  - `normalize_amount` and `_parse_amount` are the same code line for line.
  - Both are modelled by the single function `Amounts.NormalizeAmount`, so they agree on every input by construction.
- `AiClassifier` (`ai_classifier.py`): the threshold fallback of the first-generation classifier.
- `LlmClient` (`llm_client.py`): code-fence extraction, the fallback record and the result column.
- `Prompts` (`prompts.py`):
  - the markdown jurisdiction-table parser, as a loop;
  - the jurisdiction lines of system prompt A;
  - the prompt cache, as a class.
- `Schema` (`schema.py`): the field constraints, `validate_sources` and `LABEL_MAP_RU`.
- `Logger` (`logger.py`): account-number redaction.

Conventions:

- A cell of a transaction row is an `Analyzer.Cell`: None, NaN, a string, or any other value (a number, a boolean) as `Other`, carrying its `str()` text and its Python truthiness. So the analyzers' `str(row[field])`, the `isinstance(..., str)` checks and the `or` between the payer and payee SWIFT cells all see what the source sees.
- Elsewhere an input that may not be a string is an `Option<string>`, and `None` stands for every non-string. The one place outside the analyzers where the source turns such a value into text, `validate_input`, is listed under "## Left out".
- Python floats are `real`.
- Configuration constants are parameters of the functions that read them:
  - the jurisdiction lists, the field weights and the offshore table;
  - the geocoding limits and the cache capacity.
- Clock readings, the geocoding reply and the model's reply are parameters too.

## Model

| member | source | states |
|---|---|---|
| Levenshtein.Distance | offshore_detector/fuzzy_matcher.py:49 | the edit distance behind `distance`: at most the longer length, at least the difference of the lengths |
| Levenshtein.DistanceZero | offshore_detector/fuzzy_matcher.py:49 | the distance is 0 exactly when the two strings are equal |
| Levenshtein.DistanceSymmetric | offshore_detector/fuzzy_matcher.py:49 | the distance does not depend on the order of its arguments |
| Levenshtein.Ratio | offshore_detector/fuzzy_matcher.py:46-50 | `1 - distance / max_len`, defined when one string is non-empty, lies in [0, 1] |
| Levenshtein.RatioOne | offshore_detector/fuzzy_matcher.py:50-51 | the ratio is 1.0 exactly for equal strings |
| Levenshtein.RatioSymmetric | offshore_detector/simple_matcher.py:89-94 | the ratio of a pair is the same whichever string comes first |
| Levenshtein.BestRatio | offshore_detector/_legacy/fuzzy_matcher.py:118-130 | the best ratio of a token against a list: in [0, 1], no other ratio above it, and it is 0.0 or attained by some token |
| Lists.Distinct | offshore_detector/_legacy/fuzzy_matcher.py:105 | a Python `set` of tokens: the same members, no repeats, no longer, and non-empty when the list is |
| Lists.SumBounds | offshore_detector/_legacy/fuzzy_matcher.py:112 | a sum of values in [lo, hi] lies between `n * lo` and `n * hi` |
| Lists.MeanUnit | offshore_detector/_legacy/fuzzy_matcher.py:112 | the average of similarities in [0, 1] is in [0, 1] |
| Lists.SumAppend | offshore_detector/_legacy/fuzzy_matcher.py:112 | `sum` grows by exactly the appended value |
| Lists.CountAtLeast | offshore_detector/_legacy/fuzzy_matcher.py:110 | the number of strong hits is at most the number of similarities |
| Lists.CountAtLeastAppend | offshore_detector/_legacy/fuzzy_matcher.py:110 | an appended similarity adds one strong hit exactly when it reaches the threshold |
| Ranking.FindTarget | offshore_detector/fuzzy_matcher.py:75 | the dictionary lookup by `match`: the first entry with that target, or none when no entry has it |
| Ranking.Put | offshore_detector/fuzzy_matcher.py:75 | `d[m['match']] = m` keeps the keys distinct, holds the new match, drops only the old entry of the same key and keeps every other |
| Ranking.Dedup | offshore_detector/fuzzy_matcher.py:75 | the comprehension keeps one entry per target, each taken from the input, and the last match of every target survives |
| Ranking.DedupCovers | offshore_detector/fuzzy_matcher.py:75 | every target of the input keeps an entry |
| Ranking.DedupKeyOrder | offshore_detector/fuzzy_matcher.py:75 | the entries come in the order in which their targets first appeared |
| Ranking.Insert | offshore_detector/fuzzy_matcher.py:76 | one insertion step of the sort adds exactly the new match (a permutation of input plus it) |
| Ranking.InsertSorted | offshore_detector/fuzzy_matcher.py:76 | inserting into a descending list keeps it descending |
| Ranking.SortDesc | offshore_detector/fuzzy_matcher.py:76 | `sorted(..., reverse=True)` by similarity: descending and a permutation of its input |
| Ranking.SortDistinct | offshore_detector/fuzzy_matcher.py:76 | sorting keeps the targets distinct |
| Ranking.SortStable | offshore_detector/fuzzy_matcher.py:76 | the sort is stable: matches of equal similarity keep their order |
| Ranking.Top5 | offshore_detector/fuzzy_matcher.py:78 | `[:5]`: a prefix of at most five entries, the whole list when it is that short |
| Ranking.Rank | offshore_detector/fuzzy_matcher.py:74-78 | the returned list: at most five matches, distinct targets, best first, all from the accepted matches |
| FuzzyMatcher.Normalize | offshore_detector/fuzzy_matcher.py:8-16 | "" for a non-string; otherwise only lower-case word characters and whitespace, with no whitespace at either end |
| FuzzyMatcher.NormalizeIdempotent | offshore_detector/fuzzy_matcher.py:8-16 | normalising a normalised text changes nothing |
| FuzzyMatcher.PairMax | offshore_detector/fuzzy_matcher.py:60-69 | the best ratio over all token pairs: in [0, 1], above every pair's ratio, 0.0 or attained by a pair |
| FuzzyMatcher.MatchTarget | offshore_detector/fuzzy_matcher.py:28-72 | a match for one target names that target with a similarity in [0, 1] |
| FuzzyMatcher.LevenshteinMatch | offshore_detector/fuzzy_matcher.py:43-72 | the Levenshtein step names the target with a similarity in [0, 1] |
| FuzzyMatcher.Collect | offshore_detector/fuzzy_matcher.py:26-72 | every accepted match names one of the targets and scores in [0, 1] |
| FuzzyMatcher.SubstringWins | offshore_detector/fuzzy_matcher.py:33-36 | a normalised target inside the normalised text scores 1.0, however short it is |
| FuzzyMatcher.SharedTokenWins | offshore_detector/fuzzy_matcher.py:38-41 | otherwise one shared token, with no stopword filter, scores 0.95 |
| FuzzyMatcher.LongRule | offshore_detector/fuzzy_matcher.py:53-72 | two strings of 20 characters or more are accepted exactly when their best token pair reaches the threshold, which is then the score |
| FuzzyMatcher.ShortRule | offshore_detector/fuzzy_matcher.py:45-52 | when either string is shorter than 20, accepted exactly when the whole-string ratio reaches the threshold, which is then the score |
| FuzzyMatcher.FuzzyMatchResult | offshore_detector/fuzzy_matcher.py:18-78 | at most five matches, distinct targets drawn from the list, similarities in [0, 1], best first; none for text that normalises to "" |
| FuzzyMatcher.MaxPairSimilarity | offshore_detector/fuzzy_matcher.py:60-69 | the nested token loop computes exactly the best pair ratio |
| FuzzyMatcher.MaxAgainst | offshore_detector/fuzzy_matcher.py:62-69 | the inner loop over target tokens raises the running maximum to the text token's best ratio, and otherwise leaves it as it was |
| FuzzyMatcher.MatchOne | offshore_detector/fuzzy_matcher.py:29-72 | the loop body decides one target as the strategy table says |
| FuzzyMatcher.LevenshteinStep | offshore_detector/fuzzy_matcher.py:43-72 | the Levenshtein step of the loop body decides as the specification function says |
| FuzzyMatcher.CollectMatches | offshore_detector/fuzzy_matcher.py:26-72 | the target loop appends exactly the accepted matches, in target order |
| FuzzyMatcher.FuzzyMatch | offshore_detector/fuzzy_matcher.py:18-78 | `fuzzy_match` returns the ranked accepted matches: at most five, distinct, best first, from the targets |
| LegacyFuzzyMatcher.Collapse | offshore_detector/_legacy/fuzzy_matcher.py:22-23 | `re.sub(r'\s+', ' ')`: only single spaces remain as whitespace, nothing else is added, a leading run stays a space |
| LegacyFuzzyMatcher.Normalize | offshore_detector/_legacy/fuzzy_matcher.py:14-24 | "" for a non-string; otherwise lower-case word characters separated by single spaces, trimmed |
| LegacyFuzzyMatcher.CanonicalFixed | offshore_detector/_legacy/fuzzy_matcher.py:14-24 | a text already in that form is its own normal form |
| LegacyFuzzyMatcher.NormalizeIdempotent | offshore_detector/_legacy/fuzzy_matcher.py:14-24 | normalising a normalised text changes nothing |
| LegacyFuzzyMatcher.Significant | offshore_detector/_legacy/fuzzy_matcher.py:36 | the filtered token list is no longer than the token list |
| LegacyFuzzyMatcher.SignificantMembers | offshore_detector/_legacy/fuzzy_matcher.py:9-12 | exactly the tokens that are not stopwords and have at least three characters are kept |
| LegacyFuzzyMatcher.Sims | offshore_detector/_legacy/fuzzy_matcher.py:103-107 | one best similarity per distinct target token, each the best ratio against the text tokens |
| LegacyFuzzyMatcher.TryFuzzy | offshore_detector/_legacy/fuzzy_matcher.py:85-115 | a fuzzy match names the original target with a similarity in [0, 1] |
| LegacyFuzzyMatcher.MatchTarget | offshore_detector/_legacy/fuzzy_matcher.py:47-51 | the first accepting strategy decides; a match names the target with a similarity in [0, 1] |
| LegacyFuzzyMatcher.Collect | offshore_detector/_legacy/fuzzy_matcher.py:41-54 | every accepted match names one of the targets and scores in [0, 1] |
| LegacyFuzzyMatcher.FuzzyMatchResult | offshore_detector/_legacy/fuzzy_matcher.py:26-60 | at most five matches, distinct targets from the list, similarities in [0, 1], best first; none for text that normalises to "" |
| LegacyFuzzyMatcher.ExactWins | offshore_detector/_legacy/fuzzy_matcher.py:63-67 | a normalised target of three or more characters inside the text scores 1.0 |
| LegacyFuzzyMatcher.TokenSingle | offshore_detector/_legacy/fuzzy_matcher.py:79-80 | a target with one significant token is accepted exactly when that token is a text token |
| LegacyFuzzyMatcher.TokenSeveral | offshore_detector/_legacy/fuzzy_matcher.py:79-80 | a target with several significant tokens needs two distinct ones among the text tokens |
| LegacyFuzzyMatcher.ShortRule | offshore_detector/_legacy/fuzzy_matcher.py:88-96 | short strings are accepted exactly when the whole-string ratio reaches the threshold, which is then the score |
| LegacyFuzzyMatcher.BestTokenSimilarity | offshore_detector/_legacy/fuzzy_matcher.py:118-130 | the running-maximum loop computes exactly the best ratio |
| LegacyFuzzyMatcher.TokenSims | offshore_detector/_legacy/fuzzy_matcher.py:104-107 | the loop gathers exactly the per-token bests |
| LegacyFuzzyMatcher.TryFuzzyMatch | offshore_detector/_legacy/fuzzy_matcher.py:85-115 | `_try_fuzzy_match` as written computes the specified decision |
| LegacyFuzzyMatcher.MatchOne | offshore_detector/_legacy/fuzzy_matcher.py:42-54 | the loop body decides one target as the strategy order says |
| LegacyFuzzyMatcher.CollectMatches | offshore_detector/_legacy/fuzzy_matcher.py:39-54 | the target loop appends exactly the accepted matches, in order |
| LegacyFuzzyMatcher.FuzzyMatch | offshore_detector/_legacy/fuzzy_matcher.py:26-60 | the ranked accepted matches: at most five, distinct, best first, from the targets |
| SimpleMatcher.NormalizeCanonical | offshore_detector/simple_matcher.py:27-46 | `normalize_string` gives lower case, no whitespace at either end and words separated by exactly one space |
| SimpleMatcher.CanonicalFixed | offshore_detector/simple_matcher.py:27-46 | a string already in that form is its own normal form |
| SimpleMatcher.NormalizeIdempotent | offshore_detector/simple_matcher.py:27-46 | normalising twice is normalising once |
| SimpleMatcher.Outcomes | offshore_detector/simple_matcher.py:78-98 | one outcome (skip, substring hit or ratio) per target |
| SimpleMatcher.ReturnedStays | offshore_detector/simple_matcher.py:84-85 | once the loop has returned, later targets change nothing |
| SimpleMatcher.RunningBest | offshore_detector/simple_matcher.py:75-98 | without a substring hit the loop keeps the earliest target of strictly highest qualifying ratio, or nothing and 0.0 when none qualifies |
| SimpleMatcher.FirstHitWins | offshore_detector/simple_matcher.py:83-85 | the first substring hit is returned with 1.0 whatever follows |
| SimpleMatcher.ScanBounds | offshore_detector/simple_matcher.py:96-98 | a kept score comes from a qualifying ratio: positive, at least the threshold, at most 1.0 |
| SimpleMatcher.SubstringFirst | offshore_detector/simple_matcher.py:68-85 | the first target whose normal form contains, or lies inside, the normalised text is the result, scored 1.0 |
| SimpleMatcher.BestRatioWins | offshore_detector/simple_matcher.py:87-103 | with no substring hit, a result exists exactly when some target qualifies, and it is the earliest of strictly highest ratio with that ratio |
| SimpleMatcher.LongPairsSubstringOnly | offshore_detector/simple_matcher.py:87-88 | two normal forms of 20 characters or more can only match as substrings |
| SimpleMatcher.SimpleFuzzyMatchBounds | offshore_detector/simple_matcher.py:49-103 | a result names one of the targets and scores in (0, 1], either 1.0 or at least the threshold |
| SimpleMatcher.AssessTarget | offshore_detector/simple_matcher.py:79-94 | the loop body's tests give the specified outcome for one target |
| SimpleMatcher.ScanStep | offshore_detector/simple_matcher.py:78-98 | one iteration returns on a hit or updates the running best as specified |
| SimpleMatcher.ScanTargets | offshore_detector/simple_matcher.py:75-98 | the target loop ends in the specified state |
| SimpleMatcher.SimpleFuzzyMatch | offshore_detector/simple_matcher.py:49-103 | `simple_fuzzy_match` as written returns the specified result |
| SimpleMatcher.CodeListMembers | offshore_detector/simple_matcher.py:121-127 | exactly the non-empty code2 and code3 values of the jurisdictions are compared |
| SimpleMatcher.CodeTargets | offshore_detector/simple_matcher.py:122-127 | the collecting loop builds exactly that list, code2 before code3 |
| SimpleMatcher.NameList | offshore_detector/simple_matcher.py:146 | at most one name per jurisdiction |
| SimpleMatcher.NameListMembers | offshore_detector/simple_matcher.py:146 | exactly the non-empty names are compared |
| SimpleMatcher.CountryCodeSource | offshore_detector/simple_matcher.py:106-129 | a country code matches only a code2 or code3 of some jurisdiction, with a score in (0, 1] |
| SimpleMatcher.NameSource | offshore_detector/simple_matcher.py:132-171 | a country name or a city matches only the name of some jurisdiction, with a score in (0, 1] |
| SimpleMatcher.GetAllMatches | offshore_detector/simple_matcher.py:174-194 | each signal is None when its field is falsy |
| SimpleMatcher.JurisdictionCache.constructor | offshore_detector/simple_matcher.py:12-13 | the cache starts empty |
| SimpleMatcher.JurisdictionCache.Get | offshore_detector/simple_matcher.py:16-24 | loads the table on first use, afterwards returns the cached list unchanged |
| SimpleMatcher.JurisdictionCache.MatchCode | offshore_detector/simple_matcher.py:106-129 | a falsy code returns None without loading; otherwise the match against the cached list, which a first call loads from the table |
| SimpleMatcher.JurisdictionCache.MatchName | offshore_detector/simple_matcher.py:132-148 | a falsy name returns None without loading; otherwise the match against the cached names, which a first call loads from the table |
| SimpleMatcher.JurisdictionCache.MatchCityName | offshore_detector/simple_matcher.py:151-171 | a falsy city returns None without loading; otherwise the match against the cached names, which a first call loads from the table |
| SwiftHandler.OffshoreMapLastWins | offshore_detector/swift_handler.py:25 | the map's keys are exactly the code2 values, and each maps to the name of the last jurisdiction with that code |
| SwiftHandler.ExtractSwiftCountryCases | offshore_detector/swift_handler.py:31-84 | None exactly for a falsy input or a cleaned code that is not 8 or 11 long with letters at 4-5; otherwise those two letters, offshore with the map's name exactly when the map gives a non-empty name |
| SwiftHandler.ExtractIgnoresPadding | offshore_detector/swift_handler.py:51 | whitespace around the code does not change the result |
| SwiftHandler.ExtractIgnoresCase | offshore_detector/swift_handler.py:51 | the letter case of the code does not change the result |
| SwiftHandler.SameClean | offshore_detector/swift_handler.py:47-84 | two inputs with the same cleaned form give the same result |
| SwiftHandler.IsOffshoreSwiftIff | offshore_detector/swift_handler.py:87-98 | offshore exactly when well formed and its country has a non-empty name in the map |
| SwiftHandler.OffshoreMapCache.constructor | offshore_detector/swift_handler.py:10-11 | the cache starts empty |
| SwiftHandler.OffshoreMapCache.Get | offshore_detector/swift_handler.py:14-28 | builds the map from the table on first use, afterwards returns the cached map |
| SwiftHandler.OffshoreMapCache.Extract | offshore_detector/swift_handler.py:31-84 | a falsy or malformed code returns None without loading; otherwise the specified result against the cached map, which a first call builds from the table |
| SwiftHandler.OffshoreMapCache.IsOffshore | offshore_detector/swift_handler.py:87-98 | the specified test against the cached map, which a first call builds from the table; false when nothing was loaded |
| Prompts.StripAll | offshore_detector/prompts.py:67 | `[p.strip() for p in ...]`: one stripped piece per piece, in order |
| Prompts.NonEmpty | offshore_detector/prompts.py:70 | exactly the non-empty cells are kept |
| Prompts.CellsValid | offshore_detector/prompts.py:67-70 | every cell of a row is non-empty, stripped and free of bars |
| Prompts.Kinds | offshore_detector/prompts.py:52-65 | each stripped line is classified once: header, separator, row or other |
| Prompts.LoadFromValid | offshore_detector/prompts.py:52-87 | every entry the loop emits, from any point of the table, has a non-empty code2 and name |
| Prompts.LoadValid | offshore_detector/prompts.py:79-84 | every loaded jurisdiction has a non-empty, stripped code2 and name |
| Prompts.RowEntryValid | offshore_detector/prompts.py:72-84 | a row gives an entry only with a non-empty code2 and name |
| Prompts.ParseLine | offshore_detector/prompts.py:53-84 | one pass of the loop body: the table flag and the entry as the classification of the line says |
| Prompts.ParseRow | offshore_detector/prompts.py:65-84 | one data row gives the specified entry, or none when it has fewer than four cells or an empty code2 or name |
| Prompts.LoadJurisdictions | offshore_detector/prompts.py:45-90 | the loop over the lines emits exactly the specified entries, each with a non-empty code2 and name |
| Prompts.KindsAppend | offshore_detector/prompts.py:52-53 | lines are classified independently of their neighbours |
| Prompts.SkipToHeader | offshore_detector/prompts.py:51-58 | lines before the header contribute nothing, and the header switches table mode on |
| Prompts.BeforeHeader | offshore_detector/prompts.py:51-58 | the entries of a file are exactly those of the lines after its first header, which is not a row itself |
| Prompts.TableKindsConcat | offshore_detector/prompts.py:56-65 | once in table mode the loop never leaves it: the table is parsed line by line and entries keep file order |
| Prompts.TableConcat | offshore_detector/prompts.py:56-84 | the entries of two consecutive blocks of table lines are those of the first block followed by those of the second |
| Prompts.ClassifyRow | offshore_detector/prompts.py:61-65 | a stripped line that starts and ends with a bar and is neither header nor separator is a data row |
| Prompts.RowEntryOf | offshore_detector/prompts.py:67-77 | a row of four or more non-empty cells gives code3, code2 and name from the second, third and fourth cells |
| Prompts.RowFields | offshore_detector/prompts.py:53-77 | a bar-delimited line of non-empty cells that is not a header or separator is a row with those fields |
| Prompts.RowLine | offshore_detector/prompts.py:53-65 | a bar-delimited line whose second character is not ':' is stripped, a row and not the separator |
| Prompts.NonEmptyAppend | offshore_detector/prompts.py:70 | dropping empty cells works cell by cell |
| Prompts.JurisdictionLines | offshore_detector/prompts.py:104-107 | one "  - CODE2 – NAME" line per jurisdiction, in load order |
| Prompts.BuildJurisdictionLines | offshore_detector/prompts.py:104-107 | the appending loop builds exactly those lines |
| Prompts.JurisdictionTextLines | offshore_detector/prompts.py:109 | the newline-joined list splits back into the same lines when no field holds a newline |
| Prompts.JurisdictionLineFields | offshore_detector/prompts.py:107 | each line splits at the dash back into its code2 and its name |
| Prompts.BuildSystemPromptA | offshore_detector/prompts.py:93-150 | the prompt is the fixed wording around the jurisdiction list loaded from the table |
| Prompts.SystemPrompts.constructor | offshore_detector/prompts.py:222-224 | both cached prompts start empty |
| Prompts.SystemPrompts.Get | offshore_detector/prompts.py:227-242 | each prompt is built at most once; a cached prompt is returned unchanged and not rebuilt |
| Analyzer.Lookup | offshore_detector/analyzer.py:91 | `dict.get` on the configured items: a value exactly when some item has the key |
| Analyzer.CalculateConfidence | offshore_detector/analyzer.py:96-126 | the running `+=` computes 0.3 for hits, 0.2 for a SWIFT country, 0.3 times the capped field-weight sum, the two 0.05 bonuses and 0.1 times the mean similarity, capped at 1.0 |
| Analyzer.FieldScoreNonNegative | offshore_detector/analyzer.py:109-112 | with non-negative weights the field sum is non-negative |
| Analyzer.ConfidenceUnit | offshore_detector/analyzer.py:100-126 | with non-negative weights and similarities in [0, 1] the confidence lies in [0, 1] |
| Analyzer.ConfidenceWorked | offshore_detector/analyzer.py:100-126 | one hit, a SWIFT match, one field of weight 0.3 and one detail of similarity 1.0 give 0.69; no signals give 0.0 |
| Analyzer.ConfidenceMoreHits | offshore_detector/analyzer.py:103-117 | another dictionary hit never lowers the confidence |
| Analyzer.ConfidenceSwift | offshore_detector/analyzer.py:105-106 | a SWIFT country never lowers the confidence |
| Analyzer.ConfidenceMoreFields | offshore_detector/analyzer.py:108-119 | another matched field of non-negative weight never lowers the confidence |
| Analyzer.ScenarioCases | offshore_detector/analyzer.py:128-138 | None exactly without hits and SWIFT country; otherwise 1 for 'incoming', 2 for 'outgoing', 3 for any other direction |
| Analyzer.ExtractCountryCases | offshore_detector/analyzer.py:77-94 | a name only for a string (any other value, a number included, gives None) whose cleaned form has length 8 or 11 and whose characters 4-5 map to a name in the English offshore list, with no alphabetic check; an error only when that list is missing |
| Analyzer.OffshoreNameCases | offshore_detector/analyzer.py:90-94 | the lookup gives a name only for a mapped country code whose non-empty name is in the English offshore list, and fails only when that list is missing from the configuration |
| Analyzer.SwiftNumericPayer | offshore_detector/analyzer.py:61-62 | a payer SWIFT value that is a number or boolean: when truthy the `or` keeps it and the string check rejects it, giving no country; when 0 or False the payee's code decides |
| Analyzer.Targets | offshore_detector/analyzer.py:57 | `[m['match'] for m in matches]`, in order |
| Analyzer.LangResults | offshore_detector/analyzer.py:54-55 | one matcher result per language list |
| Analyzer.ConcatNonEmpty | offshore_detector/analyzer.py:56-59 | the gathered matches are non-empty exactly when some language gave matches |
| Analyzer.LangMatchesNonEmpty | offshore_detector/analyzer.py:54-58 | a field is matched exactly when the matcher found something in some language list |
| Analyzer.GatherFields | offshore_detector/analyzer.py:49-59 | a field is matched exactly when it is in the weight table, present in the row and found by the matcher; each field once |
| Analyzer.PreliminaryFacts | offshore_detector/analyzer.py:41-75 | dictionary hits are deduplicated and are exactly the targets of the match details; matched fields are exactly the found fields of the direction's weight table; the analysis raises exactly without a direction or when the SWIFT lookup raises |
| Analyzer.MatchLanguage | offshore_detector/analyzer.py:55 | the call for language k gives exactly the matcher's result for that language's jurisdiction list |
| Analyzer.RecordMatches | offshore_detector/analyzer.py:56-59 | extending the lists keeps the hits equal to the targets of the details and adds the field exactly when there were matches |
| Analyzer.MatchField | offshore_detector/analyzer.py:52-59 | the inner language loop appends exactly the field's matches and records the field exactly when some language matched |
| Analyzer.MatchLanguages | offshore_detector/analyzer.py:54-59 | given the matcher's result for every language, the loop appends their concatenation to the details, keeps the hits equal to the details' targets, and adds the field once when anything matched |
| Analyzer.MatchFieldStep | offshore_detector/analyzer.py:55-59 | one language more: the details grow by that language's matches, the hits follow, and the field is added only on its first match |
| Analyzer.RunPreliminaryAnalysis | offshore_detector/analyzer.py:41-75 | the nested loops and the final record compute the specified analysis, including its errors; a field's value is matched as its `str()` text whenever it is not None or NaN, and the SWIFT code is the payer's cell when it is truthy, else the payee's |
| Analyzer.ErrorRecord | offshore_detector/analyzer.py:29-39 | the error record: 'ОШИБКА', no scenario, confidence 0.0, empty lists and signals, the message after the fixed prefix |
| Analyzer.AnalyzeGate | offshore_detector/analyzer.py:12-39 | web research is requested exactly when the analysis succeeds with confidence above 0.2; a raised error gives the error record with confidence 0.0 |
| LegacyAnalyzer.ExtractCountryCases | offshore_detector/_legacy/analyzer.py:134-172 | None for a falsy input or a value that is not a string (a number included), a wrong length or a non-alphabetic pair; a returned name is a non-empty member of the English offshore list |
| LegacyAnalyzer.SwiftNumericPayer | offshore_detector/_legacy/analyzer.py:118-119 | a payer SWIFT value that is a number or boolean: when truthy the `or` keeps it and the legacy check rejects it, giving no country; when 0 or False the payee's code decides |
| LegacyAnalyzer.ExtractAgreesWithCurrent | offshore_detector/_legacy/analyzer.py:150-172 | on non-strings and on well-formed codes the two generations agree; they differ only where the legacy one rejects a non-alphabetic pair |
| LegacyAnalyzer.WeightSumIsFieldScore | offshore_detector/_legacy/analyzer.py:204 | the generator sum, with 0.0 for unknown fields, equals the running sum of the current analyzer |
| LegacyAnalyzer.FieldScoreCons | offshore_detector/_legacy/analyzer.py:204 | the field sum splits at its first field |
| LegacyAnalyzer.CalculateConfidence | offshore_detector/_legacy/analyzer.py:174-218 | the legacy score equals the current analyzer's additive, capped formula |
| LegacyAnalyzer.MatchLanguage | offshore_detector/_legacy/analyzer.py:112 | the call for language k gives exactly the legacy matcher's result for that language's jurisdiction list |
| LegacyAnalyzer.MatchField | offshore_detector/_legacy/analyzer.py:109-116 | the inner loop appends exactly the field's matches and records the field exactly when some language matched |
| LegacyAnalyzer.MatchLanguages | offshore_detector/_legacy/analyzer.py:111-116 | given the legacy matcher's result for every language, the loop appends their concatenation to the details, keeps the hits equal to the details' targets, and adds the field once when anything matched |
| LegacyAnalyzer.MatchFieldStep | offshore_detector/_legacy/analyzer.py:112-116 | one language more: the details grow by that language's matches, the hits follow, and the field is added only on its first match |
| LegacyAnalyzer.RunPreliminaryAnalysis | offshore_detector/_legacy/analyzer.py:98-132 | the nested loops compute the specified analysis with the legacy matcher and the alphabetic SWIFT check; field values are matched as their `str()` text, and the SWIFT code is the payer's cell when it is truthy, else the payee's |
| LegacyAnalyzer.CreateErrorClassification | offshore_detector/_legacy/analyzer.py:84-96 | the same record as the current analyzer's: 'ОШИБКА', no scenario, 0.0, empty lists |
| LegacyAnalyzer.AlwaysResearch | offshore_detector/_legacy/analyzer.py:15-54 | there is no confidence gate: every successful analysis goes to web research, and an error gives the error record with 0.0 |
| WebResearch.DropControl | offshore_detector/web_research.py:71 | the control characters other than tab, LF and CR are deleted; nothing else changes, and text without them is kept as it is |
| WebResearch.DropControlAllSpace | offshore_detector/web_research.py:71-76 | deleting them leaves only whitespace exactly when the text was whitespace and control characters |
| WebResearch.Cleaned | offshore_detector/web_research.py:71-74 | the deleted and stripped text has no control character and does not start with whitespace |
| WebResearch.CleanedEmpty | offshore_detector/web_research.py:71-76 | it is empty exactly when the text was only whitespace and control characters |
| WebResearch.CleanedClean | offshore_detector/web_research.py:71-74 | a stripped text without control characters is left as it is |
| WebResearch.ValidateInput | offshore_detector/web_research.py:58-76 | a result is non-empty, free of control characters, not led by whitespace, at most `max_length` long, and a prefix of the cleaned input |
| WebResearch.ValidateInputNone | offshore_detector/web_research.py:64-76 | None exactly for a falsy value or one that is only whitespace and control characters (for a positive limit); always None for limit 0 |
| WebResearch.ValidateInputClean | offshore_detector/web_research.py:58-76 | a clean value within the limit is returned unchanged |
| WebResearch.ValidateInputTwice | offshore_detector/web_research.py:58-76 | validating a validated value only strips the trailing whitespace the cut may have left |
| WebResearch.ValidateInputCut | offshore_detector/web_research.py:74 | a clean value is cut to the limit |
| WebResearch.ValidateInputTrailingSpace | offshore_detector/web_research.py:74 | the cut comes after the strip, so a clean value cut just after a space keeps that trailing space ("ab cd" with limit 3 gives "ab ") |
| WebResearch.ValidateInputNotIdempotent | offshore_detector/web_research.py:74 | validating such a result again strips that space and so changes it ("ab " becomes "ab"): the validator is not idempotent |
| WebResearch.ValidateInputStrip | offshore_detector/web_research.py:71-76 | a value without control characters whose stripped form fits is returned stripped |
| WebResearch.ValidateCountryCode | offshore_detector/web_research.py:79-97 | a result is exactly two upper-case letters |
| WebResearch.ValidateCountryCodeIff | offshore_detector/web_research.py:85-97 | a result exactly when the stripped, upper-cased string is two letters, and then it is that string |
| WebResearch.CountryCodeFixed | offshore_detector/web_research.py:91-95 | a valid code validates to itself |
| WebResearch.ValidateCountryCodeIdempotent | offshore_detector/web_research.py:79-97 | validating twice is validating once |
| WebResearch.ExtractSwiftCountryCode | offshore_detector/web_research.py:188-213 | a result is a valid two-letter upper-case country code |
| WebResearch.ExtractAgreesWithHandler | offshore_detector/web_research.py:200-213 | on a well-formed code without control characters it gives the same country code as the SWIFT handler |
| WebResearch.ExtractAcceptsLonger | offshore_detector/web_research.py:200-207 | a code longer than 11 characters is cut to 11 before the length check and accepted, where the SWIFT handler rejects it |
| WebResearch.Wait | offshore_detector/web_research.py:107-111 | the sleep is non-negative, reaches the interval after the last request, and is zero or exactly enough |
| WebResearch.WaitLeast | offshore_detector/web_research.py:107-111 | no shorter sleep would reach the interval, and none is needed once the interval has passed |
| WebResearch.RateLimiter.constructor | offshore_detector/web_research.py:53-54 | no service has a recorded request |
| WebResearch.RateLimiter.Acquire | offshore_detector/web_research.py:100-113 | records the dispatch time for the service only; each recorded dispatch of a service is at least the interval after its previous one |
| WebResearch.StoredOrderFacts | offshore_detector/web_research.py:332-339 | storing keeps keys distinct and within capacity; the new key is present, and so is every earlier key except the oldest when the cache was full |
| WebResearch.GeocodeCache.constructor | offshore_detector/web_research.py:49-50 | the cache starts empty |
| WebResearch.GeocodeCache.Get | offshore_detector/web_research.py:249-251 | a lookup answers exactly for the stored keys |
| WebResearch.GeocodeCache.Store | offshore_detector/web_research.py:332-339 | at capacity the oldest key is deleted first; the size never exceeds the capacity; reads never reorder; with capacity 0 taking the oldest key raises and nothing is stored |
| WebResearch.CacheKey | offshore_detector/web_research.py:238-247 | the key is a query of 1 to 100 characters and the validated country code |
| WebResearch.CacheKeyQuery | offshore_detector/web_research.py:241-244 | the normalised query is the key unless the name is only whitespace and slashes, which keeps its first 80 characters |
| WebResearch.GeocodeBank | offshore_detector/web_research.py:216-348 | an invalid name returns None with no state change; a cached key is answered from the cache with no wait and no request; otherwise the rate limiter records the dispatch, and only an accepted reply is stored and returned; failures are not cached and not retried |
| WebResearch.FetchAndStore | offshore_detector/web_research.py:254-348 | on a cache miss the rate limiter records the dispatch at the later clock reading, at least the minimum interval after the previous one; an accepted reply is stored (evicting the oldest key at capacity) and returned, anything else leaves the cache as it was and returns None |
| WebResearch.RunWebResearch | offshore_detector/web_research.py:381-428 | an invalid bank name gives no geocoding and no state change; otherwise, under the key from the validated name and the country of the validated SWIFT code, a cached key is answered with no wait, and a miss records the dispatch in the rate limiter; an accepted reply is stored in FIFO order and returned, anything else returns None and leaves the cache as it was |
| WebResearch.ResearchKey | offshore_detector/web_research.py:398-410 | the second validation of the name only strips trailing whitespace left by the cut, and the country code survives its second validation unchanged |
| BankQuery.SafeSlice | offshore_detector/web_research.py:185 | a slice of a text free of path separators and line breaks is free of them too |
| BankQuery.SplitLines | offshore_detector/web_research.py:132 | `splitlines`: at least one piece, and no piece holds a line break |
| BankQuery.SplitLinesSafe | offshore_detector/web_research.py:129-132 | after the separators are replaced, every line is free of separators and line breaks |
| BankQuery.SplitLinesSpace | offshore_detector/web_research.py:132 | the text is all whitespace exactly when every line is |
| BankQuery.NonBlank | offshore_detector/web_research.py:132 | the kept lines are non-empty and stripped; none is kept exactly when every line strips to nothing |
| BankQuery.NonBlankSafe | offshore_detector/web_research.py:132 | stripping and dropping blank lines keeps them free of separators and line breaks |
| BankQuery.LinesFacts | offshore_detector/web_research.py:132-135 | the lines are non-empty and stripped, there are none exactly when the text is all whitespace, and they hold no separator when the text holds none |
| BankQuery.FirstMatch | offshore_detector/web_research.py:138 | the leftmost index where one of the words occurs as a whole word in any letter case, or none when no index has one |
| BankQuery.HasKeywordIff | offshore_detector/web_research.py:138 | the keyword search succeeds exactly when `bank`, `банк`, `банка`, `credit` or `union` occurs somewhere as a whole word, ignoring case |
| BankQuery.KeywordLineFrom | offshore_detector/web_research.py:141-145 | the first line holding a keyword, and no earlier line holds one; none when no line holds one |
| BankQuery.Letters | offshore_detector/web_research.py:149 | the letter count is at most the length |
| BankQuery.AlphaRatio | offshore_detector/web_research.py:148-151 | the letter ratio lies in [0, 1] |
| BankQuery.MaxRatioLine | offshore_detector/web_research.py:154 | `max(lines, key=alpha_ratio)`: no line has a higher ratio, and every earlier line has a strictly lower one (the first maximum) |
| BankQuery.Candidate | offshore_detector/web_research.py:141-154 | the chosen line is one of the lines |
| BankQuery.FindKeywordLine | offshore_detector/web_research.py:140-145 | the loop finds a line exactly when some line holds a keyword, and it is the first such line |
| BankQuery.BeforeComma | offshore_detector/web_research.py:160 | the part before the first comma, stripped: no comma, no edge whitespace, no new separators |
| BankQuery.CutAddress | offshore_detector/web_research.py:163-164 | everything from the first whole-word address term on is removed and the rest stripped; without a term the text is only stripped |
| BankQuery.StripSafe | offshore_detector/web_research.py:164 | stripping leaves no edge whitespace and adds no separator |
| BankQuery.ParenFrom | offshore_detector/web_research.py:167 | the first `(` whose group runs without `)` up to the final `)`, or none |
| BankQuery.CutParen | offshore_detector/web_research.py:167-169 | removing the final bracket group never lengthens the text and keeps it stripped and free of separators |
| BankQuery.CutParenGroup | offshore_detector/web_research.py:167-169 | a final bracket group is kept when it holds a bank keyword and removed, with the text stripped, when it does not |
| BankQuery.TrailingDigits | offshore_detector/web_research.py:172 | the length of the trailing run of digits, exactly |
| BankQuery.TrailingSpaces | offshore_detector/web_research.py:172 | the length of the trailing run of whitespace, exactly |
| BankQuery.NumberCut | offshore_detector/web_research.py:172 | the cut point lies within the text |
| BankQuery.CutNumber | offshore_detector/web_research.py:172 | the result is stripped and adds no separator |
| BankQuery.CutNumberTail | offshore_detector/web_research.py:172 | a trailing number preceded by whitespace is removed and the rest stripped |
| BankQuery.CutNumberKeeps | offshore_detector/web_research.py:172 | a text not ending in a digit is only stripped |
| BankQuery.CollapseSpaces | offshore_detector/web_research.py:175 | collapsing never lengthens the text |
| BankQuery.CollapseSingle | offshore_detector/web_research.py:175 | after collapsing, the only whitespace is single spaces |
| BankQuery.CollapseStart | offshore_detector/web_research.py:175 | collapsing keeps whether the text starts with whitespace, and empties only the empty text |
| BankQuery.CollapseSafe | offshore_detector/web_research.py:175 | collapsing adds no separator or line break |
| BankQuery.CollapseKeepsWords | offshore_detector/web_research.py:175 | collapsing keeps the words: the whitespace split is unchanged |
| BankQuery.CollapseWord | offshore_detector/web_research.py:175 | the word split is unchanged when the text starts with a word |
| BankQuery.CollapsePrefix | offshore_detector/web_research.py:175 | a leading word without whitespace is copied as it is |
| BankQuery.DropLeadingNonAlnum | offshore_detector/web_research.py:178 | the result is a suffix of the text that starts with a letter or digit, and everything dropped is neither |
| BankQuery.Core | offshore_detector/web_research.py:157-178 | the cut-down line is empty or starts with a letter or digit |
| BankQuery.CoreNoComma | offshore_detector/web_research.py:160-178 | the cut-down line holds no comma |
| BankQuery.CoreSafe | offshore_detector/web_research.py:160-178 | the cut-down line of a separator-free line is separator-free |
| BankQuery.CutAddressNoComma | offshore_detector/web_research.py:163-164 | removing the address adds no comma |
| BankQuery.CutParenNoComma | offshore_detector/web_research.py:167-169 | removing the bracket group adds no comma |
| BankQuery.CutNumberNoComma | offshore_detector/web_research.py:172 | removing the trailing number adds no comma |
| BankQuery.NoCommaStrip | offshore_detector/web_research.py:160 | stripping adds no comma |
| BankQuery.NoCommaCollapse | offshore_detector/web_research.py:175 | collapsing whitespace adds no comma |
| BankQuery.Unslash | offshore_detector/web_research.py:129 | no `/` or `\` remains, and the text is all whitespace exactly when the input held only whitespace and separators |
| BankQuery.FinishShape | offshore_detector/web_research.py:181-185 | from a non-blank stripped first line the query is non-empty, stripped and at most 100 characters |
| BankQuery.QueryShape | offshore_detector/web_research.py:132-185 | from non-blank stripped lines the query is non-empty, stripped, at most 100 characters and free of separators when the lines are |
| BankQuery.NormalizeIsQuery | offshore_detector/web_research.py:125-135 | past the guards the result is the query built from the non-blank lines |
| BankQuery.NormalizeShape | offshore_detector/web_research.py:116-185 | the query is stripped, at most 100 characters, and free of `/`, `\` and line breaks |
| BankQuery.NormalizeEmpty | offshore_detector/web_research.py:125-135 | the query is empty exactly when the input is not a string or holds only whitespace and path separators |
| BankQuery.FinishFallback | offshore_detector/web_research.py:181-185 | with nothing left of the line, the query is the first line cut to 80 characters and stripped |
| BankQuery.NormalizeFallback | offshore_detector/web_research.py:181-182 | when the cut-down line is empty the query falls back to the first line, cut to 80 characters |
| BankQuery.NormalizeBank | offshore_detector/web_research.py:116-185 | the loop-based `normalize_bank_query` returns exactly the specified query |
| Amounts.CountAppend | offshore_detector/processor.py:44 | counting a separator distributes over concatenation |
| Amounts.RemoveAppend | offshore_detector/processor.py:45 | deleting a character distributes over concatenation |
| Amounts.RemoveAbsent | offshore_detector/processor.py:56 | deleting a character that does not occur changes nothing |
| Amounts.ReplaceAppend | offshore_detector/processor.py:63 | replacing a character distributes over concatenation |
| Amounts.ReplaceAbsent | offshore_detector/processor.py:53 | replacing a character that does not occur changes nothing |
| Amounts.CountOnce | offshore_detector/processor.py:49-51 | a separator occurring once is absent on both sides of its index |
| Amounts.Compact | offshore_detector/processor.py:36-37 | the cleaned text holds no space and no no-break space |
| Amounts.LastIndex | offshore_detector/processor.py:51 | `rindex`: the index holds the character and none occurs after it |
| Amounts.RemoveSeps | offshore_detector/processor.py:45 | with every separator deleted no comma or period is left |
| Amounts.DecimalAt | offshore_detector/processor.py:49-66 | keeping only the chosen separator, as a period, leaves no comma and exactly one period |
| Amounts.DecimalPoint | offshore_detector/processor.py:44-66 | the separator read as the decimal point, when there is one, is a comma or period of the text |
| Amounts.SplitOnce | offshore_detector/processor.py:60 | `split(',')` of a text with one comma gives the two parts around it |
| Amounts.CommaLater | offshore_detector/processor.py:51-53 | with one period before one comma, deleting the period and turning the comma into a period keeps only the comma as the decimal point |
| Amounts.PeriodLater | offshore_detector/offshore_detector.py:104-106 | with one comma before one period, deleting the comma keeps the period as the decimal point |
| Amounts.LoneComma | offshore_detector/offshore_detector.py:109-113 | a lone comma with no period, turned into a period, is the decimal point |
| Amounts.LoneCommaParts | offshore_detector/processor.py:61-63 | a comma between separator-free parts, turned into a period, is the decimal point |
| Amounts.NoPeriod | offshore_detector/processor.py:66 | without a period, deleting the commas deletes every separator |
| Amounts.LonePeriod | offshore_detector/processor.py:68 | a text with one period and no comma already has its decimal point |
| Amounts.SeparateSpec | offshore_detector/processor.py:44-66 | the rewrite deletes every separator except the decimal point, which becomes a period; with no decimal point it deletes them all |
| Amounts.SeparateShape | offshore_detector/offshore_detector.py:93-116 | the rewritten text has no comma and at most one period |
| Amounts.Pow10 | offshore_detector/processor.py:68 | a power of ten is at least 1 |
| Amounts.PointIndex | offshore_detector/processor.py:68 | the whole part ends at the only period, or at the end when there is none |
| Amounts.Magnitude | offshore_detector/processor.py:68 | `whole.frac` is at least the whole part |
| Amounts.ParseUnsigned | offshore_detector/processor.py:68 | an unsigned decimal reads as a non-negative number |
| Amounts.ShowNat | offshore_detector/processor.py:68 | the decimal spelling of a number is a non-empty digit string |
| Amounts.DigitsShow | offshore_detector/processor.py:68 | reading the spelling of a number gives the number back |
| Amounts.ParseWhole | offshore_detector/processor.py:68 | digits alone read as the whole number they spell |
| Amounts.ParseShow | offshore_detector/processor.py:68 | a number spelt in decimal, with or without a minus sign, reads back as itself |
| Amounts.LastIndexAt | offshore_detector/processor.py:51 | an occurrence with none after it is the `rindex` |
| Amounts.ParsePoint | offshore_detector/processor.py:68 | digits, a period and digits read as the whole part plus the fraction |
| Amounts.AmountCases | offshore_detector/processor.py:28-40 | missing is 0.0, a number is returned unchanged, and text of whitespace only is 0.0 |
| Amounts.AmountWithPoint | offshore_detector/offshore_detector.py:93-119 | with a decimal point the amount is the digits before it plus the digits after it as a fraction, other separators and spaces ignored |
| Amounts.AmountWithoutPoint | offshore_detector/offshore_detector.py:93-119 | without a decimal point the amount is the whole number its digits spell, every separator and space ignored |
| LlmClient.SplitStr | offshore_detector/llm_client.py:46-49 | `str.split`: at least one piece, and a single piece equal to the text exactly when the separator does not occur |
| LlmClient.ContainsSlice | offshore_detector/llm_client.py:46 | what a slice contains, the whole text contains |
| LlmClient.PrefixOfPrefix | offshore_detector/llm_client.py:47 | a separator found in a prefix is found at the same place in the text |
| LlmClient.IndexOfPrefix | offshore_detector/llm_client.py:47 | the first occurrence found is an occurrence |
| LlmClient.BeforeFirst | offshore_detector/llm_client.py:47 | the text before the first occurrence holds no occurrence |
| LlmClient.SplitPieces | offshore_detector/llm_client.py:47-49 | no piece of a split holds the separator |
| LlmClient.ExtractJsonText | offshore_detector/llm_client.py:39-53 | an error exactly for an empty reply |
| LlmClient.StripFree | offshore_detector/llm_client.py:47 | stripping never makes a fence appear |
| LlmClient.FencedPieceFree | offshore_detector/llm_client.py:47-49 | the piece cut out between the opening fence and the next fence holds no fence |
| LlmClient.ExtractFenceFree | offshore_detector/llm_client.py:43-49 | whatever is handed to the JSON parser holds no code fence |
| LlmClient.ExtractUnfenced | offshore_detector/llm_client.py:43-53 | a reply without a fence is handed over stripped and otherwise unchanged |
| LlmClient.JsonFenceHasFence | offshore_detector/llm_client.py:46-48 | a text holding the JSON fence holds a plain fence |
| LlmClient.FenceInside | offshore_detector/llm_client.py:47 | a fence found in a text followed by a fence lies in the text or straddles a trailing backtick |
| LlmClient.JsonFenceInside | offshore_detector/llm_client.py:46-47 | a JSON fence in a text followed by a fence lies in the text |
| LlmClient.OuterSplit | offshore_detector/llm_client.py:47 | splitting a fenced block on the JSON fence gives the body and the closing fence as the second piece |
| LlmClient.InnerSplit | offshore_detector/llm_client.py:47 | splitting the body and closing fence on the fence gives the body first |
| LlmClient.ExtractFenced | offshore_detector/llm_client.py:43-47 | a body between a JSON fence and a closing fence is handed over stripped |
| LlmClient.ToMatchSignal | offshore_detector/llm_client.py:231-233 | `MatchSignal(**(m or {}))` is the empty signal exactly when there is no match |
| LlmClient.CreateFallbackClassification | offshore_detector/llm_client.py:183-245 | a fallback record that is built satisfies every field constraint of the schema |
| LlmClient.FallbackDecision | offshore_detector/llm_client.py:202-224 | an offshore SWIFT gives suspect at 0.6, else any fuzzy match gives suspect at 0.5, else not offshore at 0.7; never offshore |
| LlmClient.FallbackRecord | offshore_detector/llm_client.py:236-245 | the record is built exactly when the direction is missing or a known literal and the scores are in range; it then carries the error, no sources, direction default incoming, amount default 0.0 and the transaction id |
| LlmClient.Percent | offshore_detector/llm_client.py:265 | `int(confidence * 100)` truncates toward zero, and lies in [0, 100] for a valid confidence |
| LlmClient.ShowInt | offshore_detector/llm_client.py:284 | the decimal spelling of the percentage holds no `|` |
| LlmClient.SignalParts | offshore_detector/llm_client.py:268-274 | at most three signal parts |
| LlmClient.SplitBar | offshore_detector/llm_client.py:282-288 | splitting on " \| " takes off a leading segment that holds no `|` |
| LlmClient.ReadBack | offshore_detector/llm_client.py:248-288 | for a valid classification the label and the percentage can be read back from the first two segments of the column |
| LlmClient.ErrorNote | offshore_detector/llm_client.py:291-292 | the error note ends the column exactly when `llm_error` is non-empty; otherwise the column is as without an error |
| LlmClient.SignalsNothing | offshore_detector/llm_client.py:276 | the matches segment says "нет" exactly when no SWIFT name, country value or city value is present |
| Schema.ValidateSources | offshore_detector/schema.py:46-52 | the validator keeps at most as many entries as it gets, each stripped |
| Schema.Wrap | offshore_detector/schema.py:43 | the list of strings as the validator receives it, entry for entry |
| Schema.SourcesAppend | offshore_detector/schema.py:52 | the validator works entry by entry: it distributes over concatenation |
| Schema.SourcesMember | offshore_detector/schema.py:52 | a URL is kept exactly when it is the stripped form of a non-empty string entry |
| Schema.SourcesFixed | offshore_detector/schema.py:52 | stripped non-empty URLs pass through unchanged |
| Schema.SourcesSettle | offshore_detector/schema.py:46-52 | validating a validated list a second time changes nothing more |
| Schema.Construct | offshore_detector/schema.py:32-52 | a record is built exactly when the direction, the scores, the label, the confidence and the reasoning length meet their constraints, and the built record meets them |
| Schema.LabelRu | offshore_detector/schema.py:64-68 | `LABEL_MAP_RU.get(label, label)`: a known label gets a Russian label, an unknown one is returned as it is |
| Schema.LabelFromRu | offshore_detector/schema.py:64-68 | reading a Russian label back succeeds exactly for the three Russian labels, and gives a known label |
| Schema.LabelMapFacts | offshore_detector/schema.py:64-68 | the map's keys are exactly the three labels, its values exactly the three Russian labels, and a label is recovered from its Russian form |
| AiClassifier.Band | offshore_detector/ai_classifier.py:96-101 | the confidence bands always give one of the three Russian labels |
| AiClassifier.BandCases | offshore_detector/ai_classifier.py:96-101 | offshore exactly above 0.7, suspect exactly in (0.3, 0.7], not offshore exactly at or below 0.3 |
| AiClassifier.BandMonotone | offshore_detector/ai_classifier.py:96-101 | a higher confidence never gives a milder label |
| AiClassifier.FallbackClassification | offshore_detector/ai_classifier.py:91-114 | the fallback has no sources and one of the three Russian labels |
| AiClassifier.FallbackDefaults | offshore_detector/ai_classifier.py:95-110 | a missing confidence counts as 0.0 and gives not offshore; missing lists are empty |
| AiClassifier.FallbackOfPreliminary | offshore_detector/ai_classifier.py:103-113 | on the analyzer's result the fallback copies scenario, confidence, fields, SWIFT match and hits, and labels by the bands |
| AiClassifier.ClassifyWithGpt4 | offshore_detector/ai_classifier.py:12-89 | without a key the fallback is returned and the model is not asked; the model's answer is used exactly when there is a key and the call succeeded |
| Logger.DigitRun | offshore_detector/logger.py:22 | the length of the leading run of digits, exactly |
| Logger.RedactFrom | offshore_detector/logger.py:22-23 | the substitution never lengthens the text |
| Logger.RedactAccountNumber | offshore_detector/logger.py:11-23 | redaction never lengthens the text |
| Logger.RunStep | offshore_detector/logger.py:22-23 | a whole digit run is masked exactly when it starts after a non-word character, has at least ten digits and ends before a non-word character |
| Logger.RedactRun | offshore_detector/logger.py:22-23 | a standalone run of ten or more digits becomes `****` and its last four digits |
| Logger.KeepRun | offshore_detector/logger.py:22 | a run shorter than ten digits, or touching a word character, is kept |
| Logger.RedactNoDigits | offshore_detector/logger.py:23 | text without digits is unchanged |
| Logger.RedactAppend | offshore_detector/logger.py:23 | a text that does not end inside a digit run is redacted independently of what follows |
| Logger.RedactIdempotent | offshore_detector/logger.py:22-23 | redacting a redacted text changes nothing |
| Logger.RedactAccountNumberIdempotent | offshore_detector/logger.py:11-23 | `redact_account_number` applied twice equals applied once |
| Logger.RedactAccount | offshore_detector/logger.py:11-23 | an account number between non-word characters shows only its last four digits, and the text before it is redacted on its own |

## Left out

- HTTP and web layers (`web_app.py`, `app.py`, `main.py`): framework routes, the job store and file upload and download. These are I/O.
- Spreadsheet handling (`excel_handler.py`, `filter_and_enrich`, `process_dataframe`, `process_transactions`, `filter_transactions`, `detect_offshore`, `export_results`): pandas and openpyxl I/O.
- The language-model calls (`_call_openai_api`, `classify_transaction`, the request in `classify_with_gpt4`) are foreign network calls. Their parsed outcome is a parameter (`AiClassifier.ClassifyWithGpt4`).
- `build_user_prompt` (pandas and JSON serialisation) and `json.loads` are foreign libraries. Only the fence extraction before `json.loads` is modelled.
- The fence clean-up inside `classify_with_gpt4`, which deletes every fence with `replace`, feeds only `json.loads`. It is not modelled.
- The fixed wording of the system prompts is a parameter. So is the whole text of prompt B. Only the jurisdiction lines built from the table are modelled.
- Reading the jurisdiction file and finding it on disk (`prompts.py`, before the parsing loop) is file I/O. The parser takes the file's lines.
- The geocoding request is network I/O. This covers the aiohttp call, the requests fallback, `raise_for_status`, timeouts and the JSON body. Its outcome is the `Reply` parameter of `WebResearch.GeocodeBank`. The size check uses the reply's announced length only.
- `asyncio` locks, `geocode_bank_sync` and `parallel_web_research` exist for concurrency. The model is sequential.
- In `web_research.py` the tenacity retry decorator is imported but applied to no function, so geocoding is never retried. The three-attempt exponential-backoff retry in `llm_client.py:60-64` wraps the language-model call, which is not part of this model. A failed lookup is not cached. The cache key is the normalised query and the validated country code.
- `WebResearch.ValidateInput`: `str(value)` of a truthy non-string is not modelled; every non-string input is `None` and is rejected. The source instead validates its text, so a NaN cell becomes the string "nan" and a number its decimal spelling.
- `WebResearch.RunWebResearch`: a bank name that is NaN or a number does not reach the geocoder here. In the source it does: an empty payer-bank cell is NaN, NaN is truthy, and the `or` in `analyze_transaction` (`analyzer.py:20-22`) passes it on, so the source geocodes the query "nan".
- The field-weight tables are Python dicts and are modelled as lists of items. The model does not require their keys to be distinct. With a repeated key, `Analyzer.Gather` visits the field twice while `Analyzer.Lookup` takes the last weight; a dict cannot hold such a list.
- `time.time` and `asyncio.sleep` are real time. The two clock readings around the sleep are parameters of `WebResearch.RateLimiter.Acquire`. The model constrains them only by the sleep between them.
- `WebResearch.RateLimiter.Acquire`: each limiter has one `min_interval`, fixed when the limiter is built. The source takes it per call, but its only caller always passes the same constant.
- Logging (every `logging` call, the handler setup in `logger.py`, `_log_transaction_summary` of the legacy analyzer) is output only. `run_web_research` only logs the counterparty name, so that name is not a parameter.
- `test_connection.py` and `test_path.py` are ad hoc scripts. `config.py` reads environment variables. The constants it does not define (jurisdiction lists, SWIFT map, field weights, geocoding limits) are parameters.
- Floating point: similarities, confidence sums and `int(conf * 100)` are exact `real` arithmetic. IEEE rounding and the C Levenshtein extension are not modelled.
- Unicode: character classes, case mapping and `\w`/`\d` cover ASCII and the basic Cyrillic alphabet. Other scripts are out of scope.
- `Amounts.NormalizeAmount`: `float()` is modelled on `[+|-] digits [. digits]` only. Exponents, `inf`, `nan`, underscores and other inner whitespace read as a failure, which gives 0.0. Python's `float` accepts some of these.
- `pydantic` coercion of values of the wrong type is modelled only as the listed field constraints. A violated constraint is an error result.
