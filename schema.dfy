/**
 * The records of the structured classifier output: the fields, the value constraints that are
 * checked when a record is built, the validator that cleans the list of source URLs, and the
 * table of Russian labels used in the result column.
 */
module Schema {
  import opened Wrappers
  import opened Chars

  // ---------------------------------------------------------------------------------------------
  // MatchSignal and TransactionSignals

  /** `MatchSignal`: a matched value and its score, both optional. */
  datatype MatchSignal = MatchSignal(value: Option<string>, score: Option<real>)

  /** The default `MatchSignal()`, also what `MatchSignal(**{})` builds. */
  const NoSignal := MatchSignal(None, None)

  /** A score, when present, lies in [0, 1]. */
  predicate ValidSignal(m: MatchSignal) {
    m.score.None? || 0.0 <= m.score.value <= 1.0
  }

  /** `TransactionSignals`: the SWIFT facts and the three fuzzy-match signals. */
  datatype TransactionSignals = TransactionSignals(
    swiftCountryCode: Option<string>,
    swiftCountryName: Option<string>,
    isOffshoreBySwift: Option<bool>,
    countryNameMatch: MatchSignal,
    countryCodeMatch: MatchSignal,
    cityMatch: MatchSignal)

  predicate ValidSignals(s: TransactionSignals) {
    ValidSignal(s.countryNameMatch) && ValidSignal(s.countryCodeMatch) && ValidSignal(s.cityMatch)
  }

  // ---------------------------------------------------------------------------------------------
  // Classification and TransactionClassification

  const OffshoreYes: string := "OFFSHORE_YES"
  const OffshoreSuspect: string := "OFFSHORE_SUSPECT"
  const OffshoreNo: string := "OFFSHORE_NO"

  /** The three literals a classification label may take. */
  predicate IsLabel(verdict: string) {
    verdict == OffshoreYes || verdict == OffshoreSuspect || verdict == OffshoreNo
  }

  /** `Classification`: the `label` (called `verdict` here, as `label` is a Dafny keyword) and a confidence. */
  datatype Classification = Classification(verdict: string, confidence: real)

  predicate ValidClassification(c: Classification) {
    IsLabel(c.verdict) && 0.0 <= c.confidence <= 1.0
  }

  const Incoming: string := "incoming"
  const Outgoing: string := "outgoing"

  /** `transaction_id` is a string, an integer or absent. */
  datatype TransactionId = TextId(text: string) | NumberId(number: int)

  /** `TransactionClassification`: the complete record for one transaction. */
  datatype TransactionClassification = TransactionClassification(
    transactionId: Option<TransactionId>,
    direction: string,
    amountKzt: real,
    signals: TransactionSignals,
    classification: Classification,
    reasoningShortRu: string,
    sources: seq<string>,
    llmError: Option<string>)

  /** The field constraints of the record: a direction literal, valid scores and classification,
      and a short reasoning of 10 to 500 characters. */
  predicate Valid(t: TransactionClassification) {
    && (t.direction == Incoming || t.direction == Outgoing)
    && ValidSignals(t.signals)
    && ValidClassification(t.classification)
    && 10 <= |t.reasoningShortRu| <= 500
  }

  // ---------------------------------------------------------------------------------------------
  // validate_sources

  /**
   * `validate_sources`: the list comprehension keeping, in order, the stripped form of every
   * entry that is a non-empty string; `None` stands for an entry that is not a string.
   */
  function ValidateSources(v: seq<Option<string>>): (r: seq<string>)
    ensures |r| <= |v|
    ensures forall i :: 0 <= i < |r| ==> Trimmed(r[i])
  {
    if v == [] then []
    else if Truthy(v[0]) then [Strip(v[0].value)] + ValidateSources(v[1..])
    else ValidateSources(v[1..])
  }

  /** No whitespace at either end: what `strip` leaves. */
  predicate Trimmed(s: string) {
    s == [] || (!IsSpace(s[0]) && !IsSpace(s[|s| - 1]))
  }

  /** The list of strings as the validator receives it. */
  function Wrap(s: seq<string>): (w: seq<Option<string>>)
    ensures |w| == |s|
    ensures forall i :: 0 <= i < |s| ==> w[i] == Some(s[i])
  {
    if s == [] then [] else [Some(s[0])] + Wrap(s[1..])
  }

  /** The validator works entry by entry: it distributes over concatenation. */
  lemma {:induction false} SourcesAppend(a: seq<Option<string>>, b: seq<Option<string>>)
    ensures ValidateSources(a + b) == ValidateSources(a) + ValidateSources(b)
  {
    if a != [] {
      assert (a + b)[1..] == a[1..] + b;
      SourcesAppend(a[1..], b);
    } else {
      assert a + b == b;
    }
  }

  /** Exactly the stripped non-empty string entries are kept. */
  lemma {:induction false} SourcesMember(v: seq<Option<string>>, x: string)
    ensures x in ValidateSources(v) <==> exists i :: 0 <= i < |v| && Truthy(v[i]) && Strip(v[i].value) == x
  {
    if v != [] {
      SourcesMember(v[1..], x);
      if exists i :: 1 <= i < |v| && Truthy(v[i]) && Strip(v[i].value) == x {
        var i :| 1 <= i < |v| && Truthy(v[i]) && Strip(v[i].value) == x;
        assert v[1..][i - 1] == v[i];
      }
      if exists j :: 0 <= j < |v| - 1 && Truthy(v[1..][j]) && Strip(v[1..][j].value) == x {
        var j :| 0 <= j < |v| - 1 && Truthy(v[1..][j]) && Strip(v[1..][j].value) == x;
        assert v[1..][j] == v[j + 1];
      }
    }
  }

  /** Entries that are already stripped and non-empty pass through unchanged. */
  lemma {:induction false} SourcesFixed(s: seq<string>)
    requires forall i :: 0 <= i < |s| ==> s[i] != [] && Trimmed(s[i])
    ensures ValidateSources(Wrap(s)) == s
  {
    if s != [] {
      assert Wrap(s)[1..] == Wrap(s[1..]);
      StripNoEdges(s[0]);
      SourcesFixed(s[1..]);
      assert [s[0]] + s[1..] == s;
    }
  }

  /** A list the validator produced, once its empty entries are gone, is left as it is. */
  lemma SourcesSettle(v: seq<Option<string>>)
    ensures var once := ValidateSources(Wrap(ValidateSources(v)));
      ValidateSources(Wrap(once)) == once
  {
    var r := ValidateSources(v);
    var once := ValidateSources(Wrap(r));
    forall i | 0 <= i < |once|
      ensures once[i] != []
    {
      SourcesMember(Wrap(r), once[i]);
    }
    SourcesFixed(once);
  }

  // ---------------------------------------------------------------------------------------------
  // Construction and LABEL_MAP_RU

  /** Building a `TransactionClassification`: the constraints are checked and the validator
      cleans the sources; a violated constraint is a validation error. */
  function Construct(t: TransactionClassification): (r: Result<TransactionClassification, string>)
    ensures r.Ok? <==> Valid(t)
    ensures r.Ok? ==> Valid(r.value) && |r.value.sources| <= |t.sources|
  {
    if Valid(t) then Ok(t.(sources := ValidateSources(Wrap(t.sources))))
    else Err("validation error")
  }

  const LabelYesRu: string := "ОФШОР: ДА"
  const LabelSuspectRu: string := "ОФШОР: ПОДОЗРЕНИЕ"
  const LabelNoRu: string := "ОФШОР: НЕТ"

  /** The three Russian labels. */
  predicate IsLabelRu(ru: string) {
    ru == LabelYesRu || ru == LabelSuspectRu || ru == LabelNoRu
  }

  /** `LABEL_MAP_RU`. */
  const LabelMapRu: map<string, string> :=
    map[OffshoreYes := LabelYesRu, OffshoreSuspect := LabelSuspectRu, OffshoreNo := LabelNoRu]

  /** `LABEL_MAP_RU.get(label, label)`: the Russian label, or the label itself when unknown. */
  function LabelRu(verdict: string): (ru: string)
    ensures IsLabel(verdict) ==> IsLabelRu(ru)
    ensures !IsLabel(verdict) ==> ru == verdict
  {
    if verdict in LabelMapRu then LabelMapRu[verdict] else verdict
  }

  /** The reverse lookup of the Russian label. */
  function LabelFromRu(ru: string): (verdict: Option<string>)
    ensures verdict.Some? <==> IsLabelRu(ru)
    ensures verdict.Some? ==> IsLabel(verdict.value)
  {
    if ru == LabelYesRu then Some(OffshoreYes)
    else if ru == LabelSuspectRu then Some(OffshoreSuspect)
    else if ru == LabelNoRu then Some(OffshoreNo)
    else None
  }

  /** The map has exactly the three labels as keys, and distinct labels get distinct Russian labels,
      so a known verdict can be read back from its Russian form. */
  lemma LabelMapFacts(verdict: string, ru: string)
    ensures verdict in LabelMapRu <==> IsLabel(verdict)
    ensures ru in LabelMapRu.Values <==> IsLabelRu(ru)
    ensures IsLabel(verdict) ==> LabelFromRu(LabelRu(verdict)) == Some(verdict)
  {
    if IsLabelRu(ru) {
      assert LabelMapRu[LabelFromRu(ru).value] == ru;
    }
  }
}
