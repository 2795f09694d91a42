/**
 * The local logic of the structured LLM client: cutting the JSON out of a reply wrapped in
 * markdown code fences, the rule-based record used when the model cannot be reached, and the
 * fixed layout of the "Результат" column. The model call and `json.loads` are not part of this model.
 */
module LlmClient {
  import opened Wrappers
  import opened Chars
  import Schema
  import SwiftHandler
  import SimpleMatcher
  import Amounts

  // ---------------------------------------------------------------------------------------------
  // str.split with a separator

  /** Python's `s.split(sep)` for a non-empty separator: the pieces between the occurrences of `sep`,
      found left to right without overlap. */
  function SplitStr(s: string, sep: string): (r: seq<string>)
    requires sep != []
    ensures |r| >= 1
    ensures Contains(s, sep) <==> |r| >= 2
    ensures !Contains(s, sep) ==> r == [s]
    decreases |s|
  {
    var found := IndexOf(s, sep);
    if found.None? then [s]
    else [s[..found.value]] + SplitStr(s[found.value + |sep|..], sep)
  }

  /** `sub` occurring in a piece `t` of `s` occurs in `s`. */
  lemma ContainsSlice(s: string, a: nat, t: string, sub: string)
    requires a + |t| <= |s| && s[a..a + |t|] == t
    ensures Contains(t, sub) ==> Contains(s, sub)
  {
    if Contains(t, sub) {
      var k := IndexOf(t, sub).value;
      SliceOfSlice(s, a, a + |t|, k, k + |sub|);
      ContainsAt(s, sub, a + k);
    }
  }

  /** A slice of a slice is a slice of the whole. */
  lemma SliceOfSlice(s: string, a: nat, b: nat, i: nat, j: nat)
    requires a <= b <= |s| && i <= j <= b - a
    ensures s[a..b][i..j] == s[a + i..a + j]
  {
    forall x | 0 <= x < j - i
      ensures s[a..b][i..j][x] == s[a + i..a + j][x]
    {
      assert s[a..b][i..j][x] == s[a..b][i + x] == s[a + i + x];
    }
  }

  /** An occurrence inside a prefix of `s` is an occurrence in `s` at the same index. */
  lemma PrefixOfPrefix(sep: string, s: string, i: nat, j: nat)
    requires j <= i <= |s|
    ensures IsPrefix(sep, s[..i][j..]) ==> IsPrefix(sep, s[j..])
  {
    if IsPrefix(sep, s[..i][j..]) {
      assert s[..i][j..][..|sep|] == s[j..][..|sep|];
    }
  }

  /** The index `find` reports is one where `sub` is a prefix of the rest. */
  lemma IndexOfPrefix(s: string, sub: string)
    ensures IndexOf(s, sub).Some? ==> IsPrefix(sub, s[IndexOf(s, sub).value..])
  {
    if IndexOf(s, sub).Some? {
      var k := IndexOf(s, sub).value;
      assert s[k..][..|sub|] == s[k..k + |sub|];
    }
  }

  /** An occurrence with none before it is the one `find` reports. */
  lemma FirstAt(s: string, sub: string, k: nat)
    requires k <= |s| && IsPrefix(sub, s[k..])
    requires forall j :: 0 <= j < k ==> !IsPrefix(sub, s[j..])
    ensures IndexOf(s, sub).Some? && IndexOf(s, sub).value == k
  {
    var r := IndexOf(s, sub);
    if r.Some? {
      assert s[r.value..][..|sub|] == s[r.value..r.value + |sub|];
    }
  }

  /** The text before the first occurrence of a separator does not contain it. */
  lemma BeforeFirst(s: string, sep: string)
    requires sep != [] && IndexOf(s, sep).Some?
    ensures !Contains(s[..IndexOf(s, sep).value], sep)
  {
    var i := IndexOf(s, sep).value;
    forall j | 0 <= j <= i
      ensures !IsPrefix(sep, s[..i][j..])
    {
      PrefixOfPrefix(sep, s, i, j);
    }
    IndexOfPrefix(s[..i], sep);
  }

  /** No piece of a split contains the separator. */
  lemma SplitPieces(s: string, sep: string)
    requires sep != []
    ensures forall k :: 0 <= k < |SplitStr(s, sep)| ==> !Contains(SplitStr(s, sep)[k], sep)
  {
    forall k | 0 <= k < |SplitStr(s, sep)|
      ensures !Contains(SplitStr(s, sep)[k], sep)
    {
      PieceFree(s, sep, k);
    }
  }

  /** The piece at index `k` of a split does not contain the separator. */
  lemma {:induction false} PieceFree(s: string, sep: string, k: nat)
    requires sep != [] && k < |SplitStr(s, sep)|
    ensures !Contains(SplitStr(s, sep)[k], sep)
    decreases |s|
  {
    if IndexOf(s, sep).None? {
      SplitNone(s, sep);
    } else {
      var i := IndexOf(s, sep).value;
      var rest := s[i + |sep|..];
      SplitSome(s, sep);
      if k == 0 {
        BeforeFirst(s, sep);
      } else {
        PieceFree(rest, sep, k - 1);
      }
    }
  }

  /** Without an occurrence the split is the text alone. */
  lemma SplitNone(s: string, sep: string)
    requires sep != [] && IndexOf(s, sep).None?
    ensures SplitStr(s, sep) == [s] && !Contains(s, sep)
  {
  }

  /** The split starts with the text before the first occurrence and goes on after it. */
  lemma SplitSome(s: string, sep: string)
    requires sep != [] && IndexOf(s, sep).Some?
    ensures var i := IndexOf(s, sep).value;
      SplitStr(s, sep) == [s[..i]] + SplitStr(s[i + |sep|..], sep)
  {
  }

  // ---------------------------------------------------------------------------------------------
  // _parse_json_response: the fence extraction before json.loads

  const JsonFence: string := "```json"
  const Fence: string := "```"

  /** The text `_parse_json_response` hands to `json.loads`, or the error it raises on empty input. */
  function ExtractJsonText(text: string): (r: Result<string, string>)
    ensures r.Err? <==> text == []
  {
    if text == [] then Err("Empty response text")
    else
      var t := Strip(text);
      if Contains(t, JsonFence) then Ok(Strip(SplitStr(SplitStr(t, JsonFence)[1], Fence)[0]))
      else if Contains(t, Fence) then Ok(Strip(SplitStr(SplitStr(t, Fence)[1], Fence)[0]))
      else Ok(t)
  }

  /** Stripping keeps a text free of `sub`. */
  lemma StripFree(p: string, sub: string)
    ensures Contains(Strip(p), sub) ==> Contains(p, sub)
  {
    ContainsSlice(p, |p| - |LStrip(p)|, Strip(p), sub);
  }

  /** The text kept after the first `open` and before the next fence holds no fence. */
  lemma FencedPieceFree(t: string, open: string)
    requires open != [] && Contains(t, open)
    ensures !Contains(Strip(SplitStr(SplitStr(t, open)[1], Fence)[0]), Fence)
  {
    var piece := SplitStr(SplitStr(t, open)[1], Fence)[0];
    SplitPieces(SplitStr(t, open)[1], Fence);
    StripFree(piece, Fence);
  }

  /** The text handed to the parser never contains a fence. */
  lemma ExtractFenceFree(text: string)
    ensures ExtractJsonText(text).Ok? ==> !Contains(ExtractJsonText(text).value, Fence)
  {
    if text != [] {
      var t := Strip(text);
      if Contains(t, JsonFence) {
        FencedPieceFree(t, JsonFence);
      } else if Contains(t, Fence) {
        FencedPieceFree(t, Fence);
      }
    }
  }

  /** A reply without fences is only stripped. */
  lemma ExtractUnfenced(text: string)
    requires text != [] && !Contains(Strip(text), Fence)
    ensures ExtractJsonText(text) == Ok(Strip(text))
  {
    JsonFenceHasFence(Strip(text));
  }

  /** A "```json" opener is itself a fence. */
  lemma JsonFenceHasFence(t: string)
    ensures Contains(t, JsonFence) ==> Contains(t, Fence)
  {
    if Contains(t, JsonFence) {
      var k := IndexOf(t, JsonFence).value;
      assert t[k..k + 7][..3] == t[k..k + 3];
      ContainsAt(t, Fence, k);
    }
  }

  /** A fence opening at `j` inside `b` either lies within `b` or runs over its last character. */
  lemma FenceInside(b: string, j: nat)
    requires j < |b|
    ensures IsPrefix(Fence, (b + Fence)[j..]) ==> Contains(b, Fence) || b[|b| - 1] == '`'
  {
    var s := b + Fence;
    if IsPrefix(Fence, s[j..]) {
      if j + 3 <= |b| {
        assert b[j..j + 3] == s[j..][..3];
        ContainsAt(b, Fence, j);
      } else {
        assert s[|b| - 1] == s[j..][|b| - 1 - j];
      }
    }
  }

  /** A "```json" in `b` followed by a fence would start with a fence inside `b`. */
  lemma JsonFenceInside(b: string)
    ensures Contains(b + Fence, JsonFence) ==> Contains(b, Fence)
  {
    var s := b + Fence;
    if Contains(s, JsonFence) {
      var k := IndexOf(s, JsonFence).value;
      assert b[k..k + 3] == s[k..k + 7][..3];
      ContainsAt(b, Fence, k);
    }
  }

  /** Splitting a "```json"-fenced body on "```json" leaves the body and the closing fence second. */
  lemma OuterSplit(b: string)
    requires !Contains(b, Fence)
    ensures Contains(JsonFence + b + Fence, JsonFence)
    ensures SplitStr(JsonFence + b + Fence, JsonFence)[1] == b + Fence
  {
    var text := JsonFence + b + Fence;
    assert text[0..][..7] == JsonFence;
    FirstAt(text, JsonFence, 0);
    SplitSome(text, JsonFence);
    assert text[7..] == b + Fence;
    JsonFenceInside(b);
    assert SplitStr(b + Fence, JsonFence) == [b + Fence];
  }

  /** Splitting a body and its closing fence on "```" leaves the body first. */
  lemma InnerSplit(b: string)
    requires !Contains(b, Fence) && (b == [] || b[|b| - 1] != '`')
    ensures SplitStr(b + Fence, Fence)[0] == b
  {
    var s := b + Fence;
    assert s[|b|..][..3] == Fence;
    forall j | 0 <= j < |b|
      ensures !IsPrefix(Fence, s[j..])
    {
      FenceInside(b, j);
    }
    FirstAt(s, Fence, |b|);
    SplitSome(s, Fence);
    assert s[..|b|] == b;
  }

  /** Wrapping a body in a "```json" fence and extracting it gives back the stripped body, when the body
      holds no fence and does not end with a backtick. */
  lemma ExtractFenced(b: string)
    requires !Contains(b, Fence) && (b == [] || b[|b| - 1] != '`')
    ensures ExtractJsonText(JsonFence + b + Fence) == Ok(Strip(b))
  {
    var text := JsonFence + b + Fence;
    assert text[0] == '`' && text[|text| - 1] == '`';
    StripNoEdges(text);
    OuterSplit(b);
    InnerSplit(b);
  }

  // ---------------------------------------------------------------------------------------------
  // _create_fallback_classification

  /** The fields of the transaction row the fallback reads with `.get`; None is a missing key. */
  datatype TransactionData = TransactionData(
    id: Option<Schema.TransactionId>,
    direction: Option<string>,
    amountKztNormalized: Option<real>)

  /** The local signals: the SWIFT dict (`{}` when there was none) and the three matcher results. */
  datatype LocalSignals = LocalSignals(swift: Option<SwiftHandler.SwiftCountry>, matches: SimpleMatcher.AllMatches)

  /** `MatchSignal(**(m or {}))`. */
  function ToMatchSignal(m: Option<SimpleMatcher.Signal>): (s: Schema.MatchSignal)
    ensures m.None? <==> s == Schema.NoSignal
  {
    if m.Some? then Schema.MatchSignal(Some(m.value.value), Some(m.value.score)) else Schema.NoSignal
  }

  const SwiftReason: string := "SWIFT код указывает на возможную офшорную юрисдикцию (автоматическая классификация)"
  const MatchReason: string := "Обнаружены совпадения с офшорными юрисдикциями (автоматическая классификация)"
  const NoSignsReason: string := "Офшорные признаки не обнаружены (автоматическая классификация)"

  predicate OffshoreSwift(local: LocalSignals) {
    local.swift.Some? && local.swift.value.isOffshore
  }

  predicate HasMatches(local: LocalSignals) {
    local.matches.countryCodeMatch.Some? || local.matches.countryNameMatch.Some? || local.matches.cityMatch.Some?
  }

  /** The scores the three matcher results carry are within [0, 1]. */
  predicate ScoresInRange(m: SimpleMatcher.AllMatches) {
    && (m.countryCodeMatch.Some? ==> 0.0 <= m.countryCodeMatch.value.score <= 1.0)
    && (m.countryNameMatch.Some? ==> 0.0 <= m.countryNameMatch.value.score <= 1.0)
    && (m.cityMatch.Some? ==> 0.0 <= m.cityMatch.value.score <= 1.0)
  }

  function GetOr<T>(o: Option<T>, default: T): T {
    if o.Some? then o.value else default
  }

  /** `_create_fallback_classification`: the record is built through the schema, so a direction
      other than the two literals or a score out of range is a validation error. */
  function CreateFallbackClassification(tx: TransactionData, local: LocalSignals, errorMsg: string)
    : (r: Result<Schema.TransactionClassification, string>)
    ensures r.Ok? ==> Schema.Valid(r.value)
  {
    var offshore := OffshoreSwift(local);
    var verdict := if offshore || HasMatches(local) then Schema.OffshoreSuspect else Schema.OffshoreNo;
    var confidence := if offshore then 0.6 else if HasMatches(local) then 0.5 else 0.7;
    var reasoning := if offshore then SwiftReason else if HasMatches(local) then MatchReason else NoSignsReason;
    var signals := Schema.TransactionSignals(
      if local.swift.Some? then Some(local.swift.value.code) else None,
      if local.swift.Some? then local.swift.value.name else None,
      Some(offshore),
      ToMatchSignal(local.matches.countryNameMatch),
      ToMatchSignal(local.matches.countryCodeMatch),
      ToMatchSignal(local.matches.cityMatch));
    Schema.Construct(Schema.TransactionClassification(
      tx.id, GetOr(tx.direction, Schema.Incoming), GetOr(tx.amountKztNormalized, 0.0), signals,
      Schema.Classification(verdict, confidence), reasoning, [], Some(errorMsg)))
  }

  /** The fallback's decision table: an offshore SWIFT gives suspect at 0.6, else any fuzzy match gives
      suspect at 0.5, else not offshore at 0.7; it never says offshore. */
  lemma FallbackDecision(tx: TransactionData, local: LocalSignals, errorMsg: string)
    ensures var r := CreateFallbackClassification(tx, local, errorMsg);
      r.Ok? ==> (r.value.classification ==
        if OffshoreSwift(local) then Schema.Classification(Schema.OffshoreSuspect, 0.6)
        else if HasMatches(local) then Schema.Classification(Schema.OffshoreSuspect, 0.5)
        else Schema.Classification(Schema.OffshoreNo, 0.7))
    ensures var r := CreateFallbackClassification(tx, local, errorMsg);
      r.Ok? ==> r.value.classification.verdict != Schema.OffshoreYes
  {
  }

  /** The fallback record is built exactly when the direction is missing or one of the two literals and
      the matcher scores are in range; it then carries the error, no sources, and the defaults. */
  lemma FallbackRecord(tx: TransactionData, local: LocalSignals, errorMsg: string)
    ensures var r := CreateFallbackClassification(tx, local, errorMsg);
      r.Ok? <==> (tx.direction.None? || tx.direction.value == Schema.Incoming || tx.direction.value == Schema.Outgoing)
                 && ScoresInRange(local.matches)
    ensures var r := CreateFallbackClassification(tx, local, errorMsg);
      r.Ok? ==> && r.value.llmError == Some(errorMsg) && r.value.sources == []
                && r.value.direction == GetOr(tx.direction, Schema.Incoming)
                && r.value.amountKzt == GetOr(tx.amountKztNormalized, 0.0)
                && r.value.transactionId == tx.id
  {
    assert 10 <= |SwiftReason| <= 500 && 10 <= |MatchReason| <= 500 && 10 <= |NoSignsReason| <= 500;
    assert Schema.Wrap([]) == [];
  }

  // ---------------------------------------------------------------------------------------------
  // format_result_column

  /** `int(confidence * 100)`: truncation toward zero. */
  function Percent(confidence: real): (p: int)
    ensures confidence >= 0.0 ==> 0 <= p && p as real <= confidence * 100.0 < p as real + 1.0
    ensures confidence < 0.0 ==> p <= 0 && p as real - 1.0 < confidence * 100.0 <= p as real
    ensures 0.0 <= confidence <= 1.0 ==> p <= 100
  {
    var x := confidence * 100.0;
    if x >= 0.0 then x.Floor else -((-x).Floor)
  }

  /** `str(n)` for an integer. */
  function ShowInt(n: int): (s: string)
    ensures '|' !in s
  {
    if n >= 0 then Amounts.ShowNat(n) else "-" + Amounts.ShowNat(-n)
  }

  /** The conditional appends to `signals_parts`, in the order SWIFT, country, city. */
  function SignalParts(s: Schema.TransactionSignals): (parts: seq<string>)
    ensures |parts| <= 3
  {
    (if Truthy(s.swiftCountryName) then ["SWIFT:" + s.swiftCountryName.value] else [])
    + (if Truthy(s.countryNameMatch.value) then ["Страна:" + s.countryNameMatch.value.value] else [])
    + (if Truthy(s.cityMatch.value) then ["Город:" + s.cityMatch.value.value] else [])
  }

  const Nothing: string := "нет"

  /** The signals segment: the parts joined by ", ", or "нет" when there are none. */
  function SignalsSummary(s: Schema.TransactionSignals): string {
    var parts := SignalParts(s);
    if parts == [] then Nothing else Join(", ", parts)
  }

  /** The sources segment: the URLs joined by "; ", or "нет" for an empty list. */
  function SourcesSummary(sources: seq<string>): string {
    if sources == [] then Nothing else Join("; ", sources)
  }

  const Bar: string := " | "

  function LabelSegment(c: Schema.TransactionClassification): string {
    "Итог: " + Schema.LabelRu(c.classification.verdict)
  }

  function ConfidenceSegment(c: Schema.TransactionClassification): string {
    "Уверенность: " + ShowInt(Percent(c.classification.confidence)) + "%"
  }

  /** The explanation, matches and sources segments. */
  function RestSegments(c: Schema.TransactionClassification): string {
    "Объяснение: " + c.reasoningShortRu + Bar + "Совпадения: " + SignalsSummary(c.signals) + Bar
    + "Источники: " + SourcesSummary(c.sources)
  }

  /** The note appended when `llm_error` is non-empty. */
  function ErrorSegment(llmError: Option<string>): string {
    if Truthy(llmError) then Bar + "ОШИБКА: " + llmError.value else []
  }

  /** The five segments of the column, before any error note. */
  function BaseColumn(c: Schema.TransactionClassification): string {
    LabelSegment(c) + Bar + ConfidenceSegment(c) + Bar + RestSegments(c)
  }

  /** `format_result_column`. */
  function FormatResultColumn(c: Schema.TransactionClassification): string {
    BaseColumn(c) + ErrorSegment(c.llmError)
  }

  /** The label read back from the first segment of a result column. */
  function ReadLabel(column: string): Option<string> {
    var first := SplitStr(column, Bar)[0];
    if |first| >= 6 && first[..6] == "Итог: " then Schema.LabelFromRu(first[6..]) else None
  }

  /** The percentage read back from the second segment of a result column. */
  function ReadPercent(column: string): Option<real> {
    var segments := SplitStr(column, Bar);
    if |segments| < 2 then None
    else
      var second := segments[1];
      if |second| >= 14 && second[..13] == "Уверенность: " && second[|second| - 1] == '%'
      then Amounts.ParseDecimal(second[13..|second| - 1])
      else None
  }

  /** Splitting on " | " takes off a leading piece that holds no '|'. */
  lemma SplitBar(a: string, b: string)
    requires '|' !in a
    ensures SplitStr(a + Bar + b, Bar) == [a] + SplitStr(b, Bar)
  {
    var s := a + Bar + b;
    assert s[|a|..][..3] == Bar;
    forall j | 0 <= j < |a|
      ensures !IsPrefix(Bar, s[j..])
    {
      if j + 1 < |a| {
        assert s[j..][1] == a[j + 1];
      } else {
        assert s[j..][1] == ' ';
      }
    }
    FirstAt(s, Bar, |a|);
    SplitSome(s, Bar);
    assert s[..|a|] == a && s[|a| + 3..] == b;
  }

  /** For a valid classification the label and the percentage can be read back from the column. */
  lemma ReadBack(c: Schema.TransactionClassification)
    requires Schema.ValidClassification(c.classification)
    ensures ReadLabel(FormatResultColumn(c)) == Some(c.classification.verdict)
    ensures ReadPercent(FormatResultColumn(c)) == Some(Percent(c.classification.confidence) as real)
  {
    ColumnSegments(c);
    var a := LabelSegment(c);
    var ru := Schema.LabelRu(c.classification.verdict);
    assert a[..6] == "Итог: " && a[6..] == ru;
    Schema.LabelMapFacts(c.classification.verdict, ru);
    var b := ConfidenceSegment(c);
    var n := Percent(c.classification.confidence);
    assert b[..13] == "Уверенность: " && b[13..|b| - 1] == Amounts.ShowNat(n);
    Amounts.ParseShow(n);
  }

  /** The first two pieces of the column split on " | " are the label and the confidence segments. */
  lemma ColumnSegments(c: Schema.TransactionClassification)
    requires Schema.ValidClassification(c.classification)
    ensures var segments := SplitStr(FormatResultColumn(c), Bar);
      |segments| >= 2 && segments[0] == LabelSegment(c) && segments[1] == ConfidenceSegment(c)
  {
    var a := LabelSegment(c);
    var b := ConfidenceSegment(c);
    var r := RestSegments(c);
    var e := ErrorSegment(c.llmError);
    LabelSegmentNoBar(c);
    ConfidenceSegmentNoBar(c);
    calc {
      FormatResultColumn(c);
      a + Bar + b + Bar + r + e;
      { Regroup(a, b, r, e); }
      a + Bar + (b + Bar + (r + e));
    }
    SplitBar(a, b + Bar + (r + e));
    SplitBar(b, r + e);
  }

  /** The column regrouped so that each split on " | " takes off one leading segment. */
  lemma Regroup(a: string, b: string, r: string, e: string)
    ensures a + Bar + b + Bar + r + e == a + Bar + (b + Bar + (r + e))
  {
  }

  /** The confidence segment holds no '|'. */
  lemma ConfidenceSegmentNoBar(c: Schema.TransactionClassification)
    ensures '|' !in ConfidenceSegment(c)
  {
    var n := ShowInt(Percent(c.classification.confidence));
    assert ConfidenceSegment(c) == "Уверенность: " + n + "%";
  }

  /** The label segment of a valid classification holds no '|'. */
  lemma LabelSegmentNoBar(c: Schema.TransactionClassification)
    requires Schema.ValidClassification(c.classification)
    ensures '|' !in LabelSegment(c)
  {
    var ru := Schema.LabelRu(c.classification.verdict);
    assert '|' !in ru;
  }

  /** " | ОШИБКА: " and the message end the column exactly when `llm_error` is non-empty; an empty or
      missing error leaves the column as if there were none. */
  lemma ErrorNote(c: Schema.TransactionClassification)
    ensures Truthy(c.llmError) ==>
      FormatResultColumn(c) == FormatResultColumn(c.(llmError := None)) + Bar + "ОШИБКА: " + c.llmError.value
    ensures !Truthy(c.llmError) ==> FormatResultColumn(c) == FormatResultColumn(c.(llmError := None))
  {
    var c0 := c.(llmError := None);
    assert BaseColumn(c0) == BaseColumn(c);
    assert ErrorSegment(c0.llmError) == [];
    assert FormatResultColumn(c0) == BaseColumn(c);
  }

  /** The signals segment says "нет" exactly when no SWIFT name, country value or city value is present. */
  lemma SignalsNothing(s: Schema.TransactionSignals)
    ensures SignalsSummary(s) == Nothing <==>
      !Truthy(s.swiftCountryName) && !Truthy(s.countryNameMatch.value) && !Truthy(s.cityMatch.value)
  {
    var parts := SignalParts(s);
    if parts != [] {
      assert parts[0][0] == 'S' || parts[0][0] == 'С' || parts[0][0] == 'Г';
      if |parts| == 1 {
        assert Join(", ", parts) == parts[0];
      } else {
        assert Join(", ", parts) == parts[0] + ", " + Join(", ", parts[1..]);
      }
    }
  }
}
