/**
 * The offshore jurisdiction table and the system prompts built from it: the markdown table
 * parser of `load_offshore_jurisdictions`, the jurisdiction list embedded in system prompt A,
 * and the module-level cache of both prompts. Reading the markdown file and the fixed prompt
 * wording are inputs.
 */
module Prompts {
  import opened Wrappers
  import opened Chars

  datatype Jurisdiction = Jurisdiction(code3: string, code2: string, name: string)

  /** The table header: starts with a bar and names the LONGNAME column. */
  predicate IsHeader(line: string) { IsPrefix("|", line) && Contains(line, "LONGNAME") }

  /** The alignment row under the header. */
  predicate IsSeparator(line: string) { IsPrefix("|:", line) }

  /** A data row: starts and ends with a bar. */
  predicate IsRow(line: string) { line != [] && line[0] == '|' && line[|line| - 1] == '|' }

  /** Stripped, no bar, non-empty. */
  predicate IsCell(s: string) { s != [] && '|' !in s && Strip(s) == s }

  /** `[p.strip() for p in pieces]`. */
  function StripAll(pieces: seq<string>): (r: seq<string>)
    ensures |r| == |pieces| && forall i :: 0 <= i < |r| ==> r[i] == Strip(pieces[i])
  {
    seq(|pieces|, i requires 0 <= i < |pieces| => Strip(pieces[i]))
  }

  /** `[p for p in parts if p]`. */
  function NonEmpty(parts: seq<string>): (r: seq<string>)
    ensures forall x :: x in r <==> x in parts && x != []
  {
    if parts == [] then [] else (if parts[0] != [] then [parts[0]] else []) + NonEmpty(parts[1..])
  }

  /** The cells of a row: split on bars, strip each piece, drop the empty ones. */
  function Cells(line: string): seq<string> {
    NonEmpty(StripAll(SplitOn(line, '|')))
  }

  lemma CellsValid(line: string)
    ensures forall x :: x in Cells(line) ==> IsCell(x)
  {
    StrippedPieces(SplitOn(line, '|'));
  }

  lemma StrippedPieces(pieces: seq<string>)
    requires forall p :: p in pieces ==> '|' !in p
    ensures forall x :: x in StripAll(pieces) ==> '|' !in x && Strip(x) == x
  {
    var stripped := StripAll(pieces);
    forall x | x in stripped ensures '|' !in x && Strip(x) == x {
      var i :| 0 <= i < |stripped| && stripped[i] == x;
      assert pieces[i] in pieces;
      StripSubset(pieces[i]);
      StripNoEdges(x);
    }
  }

  /** The entry a data row yields: cells 1, 2 and 3 of at least four, when code2 and the name are non-empty. */
  function RowEntry(line: string): Option<Jurisdiction> {
    var parts := Cells(line);
    if |parts| >= 4 then
      var code3, code2, name := Strip(parts[1]), Strip(parts[2]), Strip(parts[3]);
      if code2 != [] && name != [] then Some(Jurisdiction(code3, code2, name)) else None
    else None
  }

  /** What a stripped line of the file is, as the table loop tells it apart. */
  datatype LineKind = Header | Separator | Row(entry: Option<Jurisdiction>) | Other

  function Classify(raw: string): LineKind {
    var line := Strip(raw);
    if IsHeader(line) then Header
    else if IsSeparator(line) then Separator
    else if IsRow(line) then Row(RowEntry(line))
    else Other
  }

  /** One iteration of the table loop: the new `in_table` flag and the entry appended, if any. */
  function Step(inTable: bool, kind: LineKind): (bool, Option<Jurisdiction>) {
    match kind
    case Header => (true, None)
    case Row(e) => (inTable, if inTable then e else None)
    case _ => (inTable, None)
  }

  predicate ValidEntry(j: Jurisdiction) {
    IsCell(j.code2) && IsCell(j.name) && '|' !in j.code3 && Strip(j.code3) == j.code3
  }

  function EntryList(e: Option<Jurisdiction>): seq<Jurisdiction> {
    match e
    case None => []
    case Some(j) => [j]
  }

  /** The entries parsed from lines of the given kinds, starting with the given `in_table` flag. */
  function LoadFrom(inTable: bool, kinds: seq<LineKind>): (js: seq<Jurisdiction>)
    decreases |kinds|
  {
    if kinds == [] then []
    else
      var (t, e) := Step(inTable, kinds[0]);
      EntryList(e) + LoadFrom(t, kinds[1..])
  }

  function Kinds(lines: seq<string>): (kinds: seq<LineKind>)
    ensures |kinds| == |lines| && forall i :: 0 <= i < |lines| ==> kinds[i] == Classify(lines[i])
  {
    seq(|lines|, i requires 0 <= i < |lines| => Classify(lines[i]))
  }

  /** `load_offshore_jurisdictions` on the lines of the file. */
  function Load(lines: seq<string>): seq<Jurisdiction> {
    LoadFrom(false, Kinds(lines))
  }

  /** The entry a line of each kind can yield is well formed. */
  predicate KindValid(k: LineKind) {
    k.Row? && k.entry.Some? ==> ValidEntry(k.entry.value)
  }

  lemma {:induction false} LoadFromValid(inTable: bool, kinds: seq<LineKind>)
    requires forall i :: 0 <= i < |kinds| ==> KindValid(kinds[i])
    ensures forall j :: j in LoadFrom(inTable, kinds) ==> ValidEntry(j)
    decreases |kinds|
  {
    if kinds != [] {
      LoadFromValid(Step(inTable, kinds[0]).0, kinds[1..]);
    }
  }

  /** Every entry has a non-empty, bar-free, stripped code2 and name. */
  lemma LoadValid(lines: seq<string>)
    ensures forall j :: j in Load(lines) ==> ValidEntry(j)
  {
    var kinds := Kinds(lines);
    forall i | 0 <= i < |kinds| ensures KindValid(kinds[i]) {
      RowEntryValid(Strip(lines[i]));
    }
    LoadFromValid(false, kinds);
  }

  lemma RowEntryValid(line: string)
    ensures RowEntry(line).Some? ==> ValidEntry(RowEntry(line).value)
  {
    var parts := Cells(line);
    CellsValid(line);
    if |parts| >= 4 {
      assert IsCell(parts[1]) && IsCell(parts[2]) && IsCell(parts[3]) by {
        assert parts[1] in parts && parts[2] in parts && parts[3] in parts;
      }
    }
  }

  /** The body of the table loop: header, separator, data row or other line. */
  method ParseLine(inTable: bool, raw: string) returns (nowInTable: bool, entry: Option<Jurisdiction>)
    ensures (nowInTable, entry) == Step(inTable, Classify(raw))
  {
    var line := Strip(raw);
    if IsHeader(line) {
      return true, None;
    }
    if inTable && IsSeparator(line) {
      return true, None;
    }
    assert !IsHeader(line) && (!inTable || !IsSeparator(line));
    nowInTable, entry := inTable, None;
    if inTable && IsRow(line) {
      entry := ParseRow(line);
    }
  }

  /** A data row: at least four cells, and non-empty code2 and name. */
  method ParseRow(line: string) returns (entry: Option<Jurisdiction>)
    ensures entry == RowEntry(line)
  {
    var parts := Cells(line);
    if |parts| < 4 {
      return None;
    }
    var code3, code2, name := Strip(parts[1]), Strip(parts[2]), Strip(parts[3]);
    if |code2| > 0 && |name| > 0 {
      return Some(Jurisdiction(code3, code2, name));
    }
    return None;
  }

  /** The table loop of `load_offshore_jurisdictions` over the lines of the file. */
  method LoadJurisdictions(lines: seq<string>) returns (jurisdictions: seq<Jurisdiction>)
    ensures jurisdictions == Load(lines)
    ensures forall j :: j in jurisdictions ==> j.code2 != [] && j.name != []
  {
    ghost var kinds := Kinds(lines);
    ghost var all := Load(lines);
    var inTable := false;
    jurisdictions := [];
    for i := 0 to |lines|
      invariant jurisdictions + LoadFrom(inTable, kinds[i..]) == all
    {
      var nowInTable, entry := ParseLine(inTable, lines[i]);
      LoadStep(jurisdictions, inTable, kinds, i, all, nowInTable, entry);
      inTable := nowInTable;
      if entry.Some? {
        jurisdictions := jurisdictions + [entry.value];
      }
    }
    assert kinds[|lines|..] == [];
    LoadNonEmpty(lines);
  }

  /** One iteration of the table loop keeps the entries found so far plus those still to come. */
  lemma LoadStep(js: seq<Jurisdiction>, inTable: bool, kinds: seq<LineKind>, i: nat, all: seq<Jurisdiction>,
                 t: bool, e: Option<Jurisdiction>)
    requires i < |kinds| && js + LoadFrom(inTable, kinds[i..]) == all
    requires (t, e) == Step(inTable, kinds[i])
    ensures (if e.Some? then js + [e.value] else js) + LoadFrom(t, kinds[i + 1..]) == all
  {
    LoadFromAt(inTable, kinds, i);
    AppendEntry(js, e, LoadFrom(t, kinds[i + 1..]));
  }

  /** Every entry has a non-empty code2 and name. */
  lemma LoadNonEmpty(lines: seq<string>)
    ensures forall j :: j in Load(lines) ==> j.code2 != [] && j.name != []
  {
    LoadValid(lines);
  }

  lemma LoadFromAt(inTable: bool, kinds: seq<LineKind>, i: nat)
    requires i < |kinds|
    ensures LoadFrom(inTable, kinds[i..])
         == EntryList(Step(inTable, kinds[i]).1) + LoadFrom(Step(inTable, kinds[i]).0, kinds[i + 1..])
  {
    assert kinds[i..][1..] == kinds[i + 1..];
  }

  lemma AppendEntry(js: seq<Jurisdiction>, e: Option<Jurisdiction>, rest: seq<Jurisdiction>)
    ensures js + (EntryList(e) + rest) == (if e.Some? then js + [e.value] else js) + rest
  {
  }

  lemma KindsAppend(a: seq<string>, b: seq<string>)
    ensures Kinds(a + b) == Kinds(a) + Kinds(b)
  {
    assert forall i :: 0 <= i < |a + b| ==> (a + b)[i] == if i < |a| then a[i] else b[i - |a|];
  }

  lemma {:induction false} SkipToHeader(pre: seq<LineKind>, rest: seq<LineKind>)
    requires forall i :: 0 <= i < |pre| ==> pre[i] != Header
    ensures LoadFrom(false, pre + [Header] + rest) == LoadFrom(true, rest)
  {
    if pre != [] {
      assert (pre + [Header] + rest)[1..] == pre[1..] + [Header] + rest;
      SkipToHeader(pre[1..], rest);
    } else {
      assert (pre + [Header] + rest)[1..] == rest;
    }
  }

  lemma NoHeaderKinds(pre: seq<string>)
    requires forall l :: l in pre ==> !IsHeader(Strip(l))
    ensures forall i :: 0 <= i < |pre| ==> Kinds(pre)[i] != Header
  {
    forall i | 0 <= i < |pre| ensures Kinds(pre)[i] != Header {
      assert pre[i] in pre;
    }
  }

  /** Lines before the first header contribute nothing, and the header itself is not a row. */
  lemma BeforeHeader(pre: seq<string>, header: string, rest: seq<string>)
    requires forall l :: l in pre ==> !IsHeader(Strip(l))
    requires IsHeader(Strip(header))
    ensures Load(pre + [header] + rest) == LoadFrom(true, Kinds(rest))
  {
    KindsAppend(pre + [header], rest);
    KindsAppend(pre, [header]);
    assert Kinds([header]) == [Header];
    NoHeaderKinds(pre);
    SkipToHeader(Kinds(pre), Kinds(rest));
  }

  lemma {:induction false} TableKindsConcat(a: seq<LineKind>, b: seq<LineKind>)
    ensures LoadFrom(true, a + b) == LoadFrom(true, a) + LoadFrom(true, b)
  {
    if a != [] {
      assert (a + b)[1..] == a[1..] + b;
      assert Step(true, a[0]).0;
      TableKindsConcat(a[1..], b);
    } else {
      assert a + b == b;
    }
  }

  /** Once in the table, every line is read in table mode and entries keep file order. */
  lemma TableConcat(a: seq<string>, b: seq<string>)
    ensures LoadFrom(true, Kinds(a + b)) == LoadFrom(true, Kinds(a)) + LoadFrom(true, Kinds(b))
  {
    KindsAppend(a, b);
    TableKindsConcat(Kinds(a), Kinds(b));
  }

  lemma StripAllCells(ps: seq<string>)
    requires forall i :: 0 <= i < |ps| ==> Strip(ps[i]) != []
    ensures NonEmpty(StripAll(ps)) == StripAll(ps)
  {
    NonEmptyFixed(StripAll(ps));
  }

  /** A list without empty strings is left as it is by the filter. */
  lemma {:induction false} NonEmptyFixed(xs: seq<string>)
    requires forall i :: 0 <= i < |xs| ==> xs[i] != []
    ensures NonEmpty(xs) == xs
  {
    if xs != [] {
      NonEmptyFixed(xs[1..]);
      assert [xs[0]] + xs[1..] == xs;
    }
  }

  lemma {:induction false} JoinSnoc(sep: string, ps: seq<string>, x: string)
    requires |ps| >= 1
    ensures Join(sep, ps + [x]) == Join(sep, ps) + sep + x
  {
    if |ps| > 1 {
      assert (ps + [x])[1..] == ps[1..] + [x];
      JoinSnoc(sep, ps[1..], x);
    }
  }

  /** The line `|p0|p1|...|` splits on bars back into its pieces, with an empty piece at each end. */
  lemma {:induction false} RowPieces(ps: seq<string>)
    requires |ps| >= 1 && forall i :: 0 <= i < |ps| ==> '|' !in ps[i]
    ensures SplitOn("|" + Join("|", ps) + "|", '|') == [[]] + ps + [[]]
  {
    var pieces := [[]] + ps + [[]];
    JoinSnoc("|", [[]] + ps, []);
    assert ([[]] + ps)[1..] == ps;
    assert Join("|", pieces) == "|" + Join("|", ps) + "|";
    forall p | p in pieces ensures '|' !in p {
      if p != [] {
        var i :| 0 <= i < |ps| && ps[i] == p;
      }
    }
    SplitOnJoin(pieces, '|');
  }

  lemma {:induction false} StripAllAppend(a: seq<string>, b: seq<string>)
    ensures StripAll(a + b) == StripAll(a) + StripAll(b)
  {
    if a != [] {
      assert (a + b)[1..] == a[1..] + b;
      StripAllAppend(a[1..], b);
    } else {
      assert a + b == b;
    }
  }

  /** Its cells are its pieces, stripped, when no piece is blank. */
  lemma RowCells(ps: seq<string>)
    requires |ps| >= 1 && forall i :: 0 <= i < |ps| ==> '|' !in ps[i] && Strip(ps[i]) != []
    ensures Cells("|" + Join("|", ps) + "|") == StripAll(ps)
  {
    RowPieces(ps);
    var e: seq<string> := [[]];
    assert StripAll(e) == e by {
      assert Strip([]) == [];
    }
    StripAllAppend(e + ps, e);
    StripAllAppend(e, ps);
    StripAllCells(ps);
    NonEmptyEdges(StripAll(ps));
  }

  /** A stripped line that is neither header nor separator but starts and ends with a bar is a data row. */
  lemma ClassifyRow(line: string)
    requires Strip(line) == line && !IsHeader(line) && !IsSeparator(line) && IsRow(line)
    ensures Classify(line) == Row(RowEntry(line))
  {
  }

  /** The row's entry is cells 1, 2 and 3, when there are at least four non-blank pieces. */
  lemma RowEntryOf(ps: seq<string>)
    requires |ps| >= 4
    requires forall i :: 0 <= i < |ps| ==> '|' !in ps[i] && Strip(ps[i]) != []
    ensures RowEntry("|" + Join("|", ps) + "|") == Some(Jurisdiction(Strip(ps[1]), Strip(ps[2]), Strip(ps[3])))
  {
    RowCells(ps);
    StripTwice(ps[1]);
    StripTwice(ps[2]);
    StripTwice(ps[3]);
  }

  lemma StripTwice(s: string)
    ensures Strip(Strip(s)) == Strip(s)
  {
    StripNoEdges(Strip(s));
  }

  /**
   * A row `| c0 | c1 | c2 | c3 ... |` whose pieces are all non-blank and bar-free, that is
   * neither a header nor a separator, yields code3 = c1, code2 = c2 and name = c3, stripped.
   */
  lemma RowFields(ps: seq<string>)
    requires |ps| >= 4
    requires forall i :: 0 <= i < |ps| ==> '|' !in ps[i] && Strip(ps[i]) != []
    requires !Contains("|" + Join("|", ps) + "|", "LONGNAME")
    requires ps[0] != [] && ps[0][0] != ':'
    ensures Classify("|" + Join("|", ps) + "|") == Row(Some(Jurisdiction(Strip(ps[1]), Strip(ps[2]), Strip(ps[3]))))
  {
    var line := "|" + Join("|", ps) + "|";
    assert Classify(line) == Row(RowEntry(line)) by {
      RowLine(ps);
      ClassifyRow(line);
    }
    assert RowEntry(line) == Some(Jurisdiction(Strip(ps[1]), Strip(ps[2]), Strip(ps[3]))) by {
      RowEntryOf(ps);
    }
  }

  /** The line is already stripped, is bar-delimited and is not the separator. */
  lemma RowLine(ps: seq<string>)
    requires |ps| >= 1 && ps[0] != [] && ps[0][0] != ':'
    ensures var line := "|" + Join("|", ps) + "|";
      Strip(line) == line && IsRow(line) && !IsSeparator(line)
  {
    var line := "|" + Join("|", ps) + "|";
    assert |line| >= 2 && line[0] == '|' && line[1] != ':' && line[|line| - 1] == '|';
    BarLine(line);
  }

  lemma BarLine(line: string)
    requires |line| >= 2 && line[0] == '|' && line[1] != ':' && line[|line| - 1] == '|'
    ensures Strip(line) == line && IsRow(line) && !IsSeparator(line)
  {
    NotSeparator(line);
    StripNoEdges(line);
  }

  lemma NotSeparator(line: string)
    requires |line| >= 2 && line[1] != ':'
    ensures !IsSeparator(line)
  {
    assert line[..2][1] == line[1];
  }

  lemma NonEmptyEdges(xs: seq<string>)
    requires NonEmpty(xs) == xs
    ensures NonEmpty([[]] + xs + [[]]) == xs
  {
    NonEmptyAppend([[]] + xs, [[]]);
    assert ([[]] + xs)[1..] == xs;
    assert NonEmpty([[]]) == [];
    assert xs + [] == xs;
  }

  lemma {:induction false} NonEmptyAppend(a: seq<string>, b: seq<string>)
    ensures NonEmpty(a + b) == NonEmpty(a) + NonEmpty(b)
  {
    if a != [] {
      assert (a + b)[1..] == a[1..] + b;
      NonEmptyAppend(a[1..], b);
    } else {
      assert a + b == b;
    }
  }

  /** The en dash between code and name in the prompt's jurisdiction list. */
  const Dash: char := '\U{2013}'

  /** `f"  - {code2} – {name}"`. */
  function JurisdictionLine(j: Jurisdiction): string {
    "  - " + j.code2 + " " + [Dash] + " " + j.name
  }

  /** The list lines, one per jurisdiction, in load order. */
  function JurisdictionLines(js: seq<Jurisdiction>): (lines: seq<string>)
    ensures |lines| == |js| && forall i :: 0 <= i < |js| ==> lines[i] == JurisdictionLine(js[i])
  {
    if js == [] then [] else JurisdictionLines(js[..|js| - 1]) + [JurisdictionLine(js[|js| - 1])]
  }

  /** The loop of `build_system_prompt_a` that appends one line per jurisdiction. */
  method BuildJurisdictionLines(js: seq<Jurisdiction>) returns (lines: seq<string>)
    ensures lines == JurisdictionLines(js)
  {
    lines := [];
    for i := 0 to |js|
      invariant lines == JurisdictionLines(js[..i])
    {
      assert js[..i + 1][..i] == js[..i];
      lines := lines + [JurisdictionLine(js[i])];
    }
    assert js[..|js|] == js;
  }

  /** `"\n".join(jurisdiction_lines)`. */
  function JurisdictionText(js: seq<Jurisdiction>): string {
    Join("\n", JurisdictionLines(js))
  }

  /** When no code or name holds a line break, the text splits back into exactly one line per jurisdiction. */
  lemma JurisdictionTextLines(js: seq<Jurisdiction>)
    requires js != []
    requires forall j :: j in js ==> '\n' !in j.code2 && '\n' !in j.name
    ensures SplitOn(JurisdictionText(js), '\n') == JurisdictionLines(js)
  {
    var lines := JurisdictionLines(js);
    forall i | 0 <= i < |lines| ensures '\n' !in lines[i] {
      assert js[i] in js;
    }
    SplitOnJoin(lines, '\n');
  }

  /** Each line gives back its code2 and name, when neither holds the dash. */
  lemma JurisdictionLineFields(j: Jurisdiction)
    requires Dash !in j.code2 && Dash !in j.name
    ensures SplitOn(JurisdictionLine(j), Dash) == ["  - " + j.code2 + " ", " " + j.name]
  {
    var a, b := "  - " + j.code2 + " ", " " + j.name;
    assert JurisdictionLine(j) == Join([Dash], [a, b]);
    assert Dash !in a && Dash !in b;
    SplitOnJoin([a, b], Dash);
  }

  /** The fixed wording of system prompt A, around the jurisdiction list. */
  datatype PromptWording = PromptWording(before: string, after: string)

  /** System prompt A: the wording with the jurisdiction list loaded from the table in between. */
  function PromptA(wording: PromptWording, tableLines: seq<string>): string {
    wording.before + JurisdictionText(Load(tableLines)) + wording.after
  }

  /** `build_system_prompt_a`, with the table file given as its lines. */
  method BuildSystemPromptA(wording: PromptWording, tableLines: seq<string>) returns (prompt: string)
    ensures prompt == PromptA(wording, tableLines)
  {
    var jurisdictions := LoadJurisdictions(tableLines);
    var lines := BuildJurisdictionLines(jurisdictions);
    prompt := wording.before + Join("\n", lines) + wording.after;
  }

  /**
   * The module-level cache of `get_system_prompts`: each prompt is built on the first call
   * and returned from the cache afterwards. `buildsA` and `buildsB` count the builds.
   */
  class SystemPrompts {
    var promptA: Option<string>
    var promptB: Option<string>
    ghost var buildsA: nat
    ghost var buildsB: nat

    /** Each prompt is built at most once, and is cached exactly when it has been built. */
    ghost predicate Valid()
      reads this
    {
      buildsA <= 1 && buildsB <= 1 && (promptA.Some? <==> buildsA == 1) && (promptB.Some? <==> buildsB == 1)
    }

    constructor ()
      ensures Valid() && promptA == None && promptB == None
    {
      promptA, promptB := None, None;
      buildsA, buildsB := 0, 0;
    }

    /** Returns both prompts, building each one only if it is not cached yet. */
    method Get(wording: PromptWording, tableLines: seq<string>, textB: string) returns (a: string, b: string)
      requires Valid()
      modifies this
      ensures Valid()
      ensures old(promptA).Some? ==> a == old(promptA).value && buildsA == old(buildsA)
      ensures old(promptA).None? ==> a == PromptA(wording, tableLines)
      ensures old(promptB).Some? ==> b == old(promptB).value && buildsB == old(buildsB)
      ensures old(promptB).None? ==> b == textB
      ensures promptA == Some(a) && promptB == Some(b)
    {
      if promptA.None? {
        var built := BuildSystemPromptA(wording, tableLines);
        promptA := Some(built);
        buildsA := buildsA + 1;
      }
      if promptB.None? {
        promptB := Some(textB);
        buildsB := buildsB + 1;
      }
      a, b := promptA.value, promptB.value;
    }
  }
}
