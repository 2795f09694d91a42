/**
 * `normalize_bank_query` of the geocoding helpers: from a free-text bank field, pick the line that
 * names the bank and cut it down to a short search query. The regular expressions of the source are
 * written out as functions over the text (word boundaries `\b`, case-insensitive keyword search,
 * anchored suffix removals).
 */
module BankQuery {
  import opened Wrappers
  import opened Chars

  // ---------------------------------------------------------------------------------------------
  // Lines

  /** The characters `str.splitlines` breaks at: LF, VT, FF, CR, the separators 0x1C-0x1E and NEL. */
  predicate IsLineBreak(c: char) {
    (10 <= c as int <= 13) || (28 <= c as int <= 30) || c as int == 0x85
  }

  /** No path separator in the text. */
  predicate NoSeparator(s: string) {
    forall i :: 0 <= i < |s| ==> s[i] != '/' && s[i] != '\\'
  }

  /** Neither a path separator nor a line break. */
  predicate SafeChar(c: char) {
    c != '/' && c != '\\' && !IsLineBreak(c)
  }

  /** Neither a path separator nor a line break in the text. */
  predicate Safe(s: string) {
    forall i :: 0 <= i < |s| ==> SafeChar(s[i])
  }

  /** No whitespace at either end. */
  predicate Stripped(s: string) {
    s == [] || (!IsSpace(s[0]) && !IsSpace(s[|s| - 1]))
  }

  lemma SafeSlice(s: string, a: nat, b: nat)
    requires a <= b <= |s|
    ensures Safe(s) ==> Safe(s[a..b])
  {
    assert forall i :: 0 <= i < b - a ==> s[a..b][i] == s[a + i];
  }

  /** The pieces of `s` between line breaks. Python's `splitlines` treats CR LF as one break and adds no
      piece after a final break; both differences are empty pieces, which `Lines` drops. */
  function SplitLines(s: string): (r: seq<string>)
    ensures |r| >= 1
    ensures forall p :: p in r ==> forall i :: 0 <= i < |p| ==> !IsLineBreak(p[i])
  {
    if s == [] then [[]]
    else
      var rest := SplitLines(s[1..]);
      if IsLineBreak(s[0]) then [[]] + rest
      else [[s[0]] + rest[0]] + rest[1..]
  }

  /** Text without path separators splits into pieces with neither separators nor line breaks. */
  lemma {:induction false} SplitLinesSafe(s: string)
    requires NoSeparator(s)
    ensures forall p :: p in SplitLines(s) ==> Safe(p)
  {
    if s != [] {
      assert NoSeparator(s[1..]);
      SplitLinesSafe(s[1..]);
    }
  }

  /** Text is all whitespace exactly when every piece is: line breaks are whitespace. */
  lemma {:induction false} SplitLinesSpace(s: string)
    ensures AllSpace(s) <==> forall p :: p in SplitLines(s) ==> AllSpace(p)
  {
    if s != [] {
      SplitLinesSpace(s[1..]);
      var rest := SplitLines(s[1..]);
      if !IsLineBreak(s[0]) {
        var r := SplitLines(s);
        assert r == [[s[0]] + rest[0]] + rest[1..];
        assert forall p :: p in rest <==> p == rest[0] || p in rest[1..];
        AllSpaceCons(s[0], rest[0]);
        AllSpaceCons(s[0], s[1..]);
        assert [s[0]] + s[1..] == s;
      } else {
        AllSpaceCons(s[0], s[1..]);
        assert [s[0]] + s[1..] == s;
      }
    }
  }

  /** `[ln.strip() for ln in pieces if ln.strip()]`. */
  function NonBlank(ps: seq<string>): (r: seq<string>)
    ensures forall l :: l in r ==> l != [] && Stripped(l)
    ensures r == [] <==> forall p :: p in ps ==> Strip(p) == []
  {
    if ps == [] then []
    else
      var rest := NonBlank(ps[1..]);
      assert forall p :: p in ps <==> p == ps[0] || p in ps[1..];
      (if Strip(ps[0]) == [] then [] else [Strip(ps[0])]) + rest
  }

  /** Stripped pieces of safe text are safe. */
  lemma {:induction false} NonBlankSafe(ps: seq<string>)
    requires forall p :: p in ps ==> Safe(p)
    ensures forall l :: l in NonBlank(ps) ==> Safe(l)
  {
    if ps != [] {
      NonBlankSafe(ps[1..]);
      var s := ps[0];
      SafeSlice(s, |s| - |LStrip(s)|, |s| - |LStrip(s)| + |Strip(s)|);
    }
  }

  /** The non-blank, stripped lines of the separator-free text. */
  function Lines(raw: string): seq<string> {
    NonBlank(SplitLines(raw))
  }

  /** Every line is non-empty and stripped, no line is blank, and there are none exactly when the text
      is all whitespace. */
  lemma LinesFacts(raw: string)
    ensures forall l :: l in Lines(raw) ==> l != [] && Stripped(l)
    ensures Lines(raw) == [] <==> AllSpace(raw)
    ensures NoSeparator(raw) ==> forall l :: l in Lines(raw) ==> Safe(l)
  {
    SplitLinesSpace(raw);
    forall p | p in SplitLines(raw) ensures Strip(p) == [] <==> AllSpace(p) {
      StripEmpty(p);
    }
    if NoSeparator(raw) {
      SplitLinesSafe(raw);
      NonBlankSafe(SplitLines(raw));
    }
  }

  // ---------------------------------------------------------------------------------------------
  // Whole-word, case-insensitive search

  /** The alternatives of `keyword_re`. */
  const BankKeywords: seq<string> := ["bank", "банк", "банка", "credit", "union"]

  /** The alternatives of the address pattern. `no\.?` matches exactly where `no` does as a whole word,
      because the dot is not a word character, so it is listed as `no`. */
  const AddressWords: seq<string> :=
    ["floor", "fl", "avenue", "ave", "road", "rd", "street", "st", "bldg", "building", "no", "№", "suite", "ste", "unit"]

  /** Regex `\b` at index `i`: a word character on exactly one side. */
  predicate Boundary(s: string, i: nat)
    requires i <= |s|
  {
    (i > 0 && IsWordChar(s[i - 1])) != (i < |s| && IsWordChar(s[i]))
  }

  /** The lower-case word `w` occurs at index `i` of `s`, ignoring case, between word boundaries. */
  predicate WordAt(s: string, i: nat, w: string) {
    i + |w| <= |s| && Lower(s[i..i + |w|]) == w && Boundary(s, i) && Boundary(s, i + |w|)
  }

  /** One of `words` occurs as a whole word at index `i`. */
  predicate MatchesAt(s: string, i: nat, words: seq<string>) {
    exists w :: w in words && WordAt(s, i, w)
  }

  /** The leftmost index at or after `i` where one of `words` occurs as a whole word. */
  function FirstMatch(s: string, i: nat, words: seq<string>): (r: Option<nat>)
    requires i <= |s|
    ensures r.Some? ==> i <= r.value <= |s| && MatchesAt(s, r.value, words)
    ensures r.Some? ==> forall j :: i <= j < r.value ==> !MatchesAt(s, j, words)
    ensures r.None? ==> forall j :: i <= j <= |s| ==> !MatchesAt(s, j, words)
    decreases |s| - i
  {
    if MatchesAt(s, i, words) then Some(i)
    else if i == |s| then None
    else FirstMatch(s, i + 1, words)
  }

  /** `keyword_re.search(s)`. */
  predicate HasKeyword(s: string) {
    FirstMatch(s, 0, BankKeywords).Some?
  }

  /** A keyword is found exactly when one occurs somewhere as a whole word, in any letter case. */
  lemma HasKeywordIff(s: string)
    ensures HasKeyword(s) <==> exists i: nat, w :: i <= |s| && w in BankKeywords && WordAt(s, i, w)
  {
    if HasKeyword(s) {
      var i := FirstMatch(s, 0, BankKeywords).value;
      var w :| w in BankKeywords && WordAt(s, i, w);
    } else {
      forall i: nat, w | i <= |s| && w in BankKeywords
        ensures !WordAt(s, i, w)
      {
        assert !MatchesAt(s, i, BankKeywords);
      }
    }
  }

  // ---------------------------------------------------------------------------------------------
  // Line selection

  /** The first line, from index `i` on, that contains a bank keyword. */
  function KeywordLineFrom(lines: seq<string>, i: nat): (r: Option<nat>)
    requires i <= |lines|
    ensures r.Some? ==> i <= r.value < |lines| && HasKeyword(lines[r.value])
    ensures r.Some? ==> forall j :: i <= j < r.value ==> !HasKeyword(lines[j])
    ensures r.None? ==> forall j :: i <= j < |lines| ==> !HasKeyword(lines[j])
    decreases |lines| - i
  {
    if i == |lines| then None
    else if HasKeyword(lines[i]) then Some(i)
    else KeywordLineFrom(lines, i + 1)
  }

  /** Number of letters in `s`. */
  function Letters(s: string): (n: nat)
    ensures n <= |s|
  {
    if s == [] then 0 else (if IsAlpha(s[0]) then 1 else 0) + Letters(s[1..])
  }

  /** `alpha_ratio`: letters over `max(1, len(s))`. */
  function AlphaRatio(s: string): (q: real)
    ensures 0.0 <= q <= 1.0
  {
    var total := if |s| > 1 then |s| else 1;
    Letters(s) as real / total as real
  }

  /** `max(lines, key=alpha_ratio)`: the first line of highest ratio. */
  function MaxRatioLine(lines: seq<string>): (k: nat)
    requires lines != []
    ensures k < |lines|
    ensures forall j :: 0 <= j < |lines| ==> AlphaRatio(lines[j]) <= AlphaRatio(lines[k])
    ensures forall j :: 0 <= j < k ==> AlphaRatio(lines[j]) < AlphaRatio(lines[k])
  {
    if |lines| == 1 then 0
    else
      var pre := lines[..|lines| - 1];
      var b := MaxRatioLine(pre);
      assert forall j :: 0 <= j < |pre| ==> pre[j] == lines[j];
      if AlphaRatio(lines[|lines| - 1]) > AlphaRatio(lines[b]) then |lines| - 1 else b
  }

  /** The chosen line: the first with a bank keyword, else the first of highest letter ratio. */
  function Candidate(lines: seq<string>): (c: string)
    requires lines != []
    ensures c in lines
  {
    match KeywordLineFrom(lines, 0)
    case Some(k) => lines[k]
    case None => lines[MaxRatioLine(lines)]
  }

  /** The preference loop of `normalize_bank_query`: the first line with a bank keyword, if any. */
  method FindKeywordLine(lines: seq<string>) returns (candidate: Option<string>)
    ensures candidate.Some? <==> exists j :: 0 <= j < |lines| && HasKeyword(lines[j])
    ensures candidate.Some? ==>
              exists k :: 0 <= k < |lines| && candidate.value == lines[k] && HasKeyword(lines[k])
                          && forall j :: 0 <= j < k ==> !HasKeyword(lines[j])
    ensures KeywordLineFrom(lines, 0).Some? ==> candidate == Some(lines[KeywordLineFrom(lines, 0).value])
    ensures KeywordLineFrom(lines, 0).None? ==> candidate == None
  {
    candidate := None;
    var i := 0;
    while i < |lines|
      invariant 0 <= i <= |lines|
      invariant candidate.None?
      invariant forall j :: 0 <= j < i ==> !HasKeyword(lines[j])
    {
      if HasKeyword(lines[i]) {
        candidate := Some(lines[i]);
        return;
      }
      i := i + 1;
    }
  }

  // ---------------------------------------------------------------------------------------------
  // Cutting the chosen line down

  /** `s.split(',')[0].strip()`: the text before the first comma. */
  function BeforeComma(s: string): (r: string)
    ensures ',' !in r
    ensures Stripped(r)
    ensures Safe(s) ==> Safe(r)
  {
    var p := SplitOn(s, ',')[0];
    SafeSlice(s, 0, |p|);
    StripSafe(p);
    NoCommaStrip(p);
    Strip(p)
  }

  /** The address step: everything from the first address word (a whole word, any case) to the end is
      removed, then the rest is stripped. */
  function CutAddress(s: string): (r: string)
    ensures Stripped(r)
    ensures Safe(s) ==> Safe(r)
    ensures FirstMatch(s, 0, AddressWords).None? ==> r == Strip(s)
    ensures FirstMatch(s, 0, AddressWords).Some? ==> r == Strip(s[..FirstMatch(s, 0, AddressWords).value])
  {
    var k := match FirstMatch(s, 0, AddressWords) case None => |s| case Some(k) => k;
    assert s[..|s|] == s;
    StripSafe(s[..k]);
    SafeSlice(s, 0, k);
    Strip(s[..k])
  }

  /** Stripping keeps text safe. */
  lemma StripSafe(s: string)
    ensures Stripped(Strip(s))
    ensures Safe(s) ==> Safe(Strip(s))
  {
    var a := |s| - |LStrip(s)|;
    SafeSlice(s, a, a + |Strip(s)|);
  }

  /** The opening parenthesis of `\(([^)]*)\)$` in `s`, searching from `i`: `s` ends with ')' and this is
      the leftmost '(' with no ')' between it and that end. */
  function ParenFrom(s: string, i: nat): (r: Option<nat>)
    requires |s| > 0 && s[|s| - 1] == ')' && i < |s|
    ensures r.Some? ==> i <= r.value < |s| - 1 && s[r.value] == '(' && ')' !in s[r.value + 1..|s| - 1]
    ensures r.Some? ==> forall j :: i <= j < r.value ==> !(s[j] == '(' && ')' !in s[j + 1..|s| - 1])
    ensures r.None? ==> forall j :: i <= j < |s| - 1 ==> !(s[j] == '(' && ')' !in s[j + 1..|s| - 1])
    decreases |s| - i
  {
    if i == |s| - 1 then None
    else if s[i] == '(' && ')' !in s[i + 1..|s| - 1] then Some(i)
    else ParenFrom(s, i + 1)
  }

  /** The parenthesis step: a final parenthesised group is removed, and the rest stripped, unless the
      group holds a bank keyword. */
  function CutParen(s: string): (r: string)
    ensures Stripped(s) ==> Stripped(r)
    ensures Safe(s) ==> Safe(r)
    ensures |r| <= |s|
  {
    if s == [] || s[|s| - 1] != ')' then s
    else match ParenFrom(s, 0)
      case None => s
      case Some(k) =>
        if HasKeyword(s[k + 1..|s| - 1]) then s
        else
          StripSafe(s[..k]);
          SafeSlice(s, 0, k);
          Strip(s[..k])
  }

  /** A final group without a keyword is cut when it is the only parenthesis opening in the text. */
  lemma CutParenGroup(t: string, g: string)
    requires '(' !in t && ')' !in g
    ensures CutParen(t + "(" + g + ")") == if HasKeyword(g) then t + "(" + g + ")" else Strip(t)
  {
    var s := t + "(" + g + ")";
    assert s[|t|] == '(' && s[|s| - 1] == ')';
    assert s[|t| + 1..|s| - 1] == g;
    assert s[..|t|] == t;
    var r := ParenFrom(s, 0);
    assert forall j :: 0 <= j < |t| ==> s[j] == t[j];
    assert r == Some(|t|);
  }

  /** Length of the final run of digits. */
  function TrailingDigits(s: string): (n: nat)
    ensures n <= |s|
    ensures forall i :: |s| - n <= i < |s| ==> IsDigit(s[i])
    ensures n < |s| ==> !IsDigit(s[|s| - n - 1])
  {
    if s != [] && IsDigit(s[|s| - 1]) then
      var n := TrailingDigits(s[..|s| - 1]);
      assert forall i :: |s| - 1 - n <= i < |s| - 1 ==> s[i] == s[..|s| - 1][i];
      1 + n
    else 0
  }

  /** Length of the final run of whitespace. */
  function TrailingSpaces(s: string): (n: nat)
    ensures n <= |s|
    ensures forall i :: |s| - n <= i < |s| ==> IsSpace(s[i])
    ensures n < |s| ==> !IsSpace(s[|s| - n - 1])
  {
    if s != [] && IsSpace(s[|s| - 1]) then
      var n := TrailingSpaces(s[..|s| - 1]);
      assert forall i :: |s| - 1 - n <= i < |s| - 1 ==> s[i] == s[..|s| - 1][i];
      1 + n
    else 0
  }

  /** Where `\s+\d+$` starts in `s`: before the whitespace run that precedes a final run of digits, or
      the end of `s` when there is no such pair of runs. */
  function NumberCut(s: string): (k: nat)
    ensures k <= |s|
  {
    var d := TrailingDigits(s);
    var w := TrailingSpaces(s[..|s| - d]);
    if d == 0 || w == 0 then |s| else |s| - d - w
  }

  /** The trailing-number step `re.sub(r"\s+\d+$", "", s).strip()`: a final run of digits preceded by
      whitespace is removed together with that whitespace; the rest is stripped. */
  function CutNumber(s: string): (r: string)
    ensures Stripped(r)
    ensures Safe(s) ==> Safe(r)
  {
    var k := NumberCut(s);
    SafeSlice(s, 0, k);
    StripSafe(s[..k]);
    Strip(s[..k])
  }

  /** A whitespace-separated final number is cut off. */
  lemma CutNumberTail(t: string, ws: string, ds: string)
    requires t == [] || !IsSpace(t[|t| - 1])
    requires ws != [] && AllSpace(ws)
    requires ds != [] && forall i :: 0 <= i < |ds| ==> IsDigit(ds[i])
    ensures CutNumber(t + ws + ds) == Strip(t)
  {
    var s := t + ws + ds;
    var d := TrailingDigits(s);
    assert d == |ds| by {
      assert forall i :: |t| + |ws| <= i < |s| ==> s[i] == ds[i - |t| - |ws|];
      assert !IsDigit(s[|s| - |ds| - 1]);
    }
    assert s[..|s| - d] == t + ws;
    var u := t + ws;
    var w := TrailingSpaces(u);
    assert w == |ws| by {
      assert forall i :: |t| <= i < |u| ==> u[i] == ws[i - |t|];
      assert t != [] ==> u[|t| - 1] == t[|t| - 1];
    }
    assert NumberCut(s) == |t|;
    assert s[..|t|] == t;
  }

  /** Text that does not end in a digit has no number to cut: the step only strips. */
  lemma CutNumberKeeps(s: string)
    requires s == [] || !IsDigit(s[|s| - 1])
    ensures CutNumber(s) == Strip(s)
  {
    assert NumberCut(s) == |s|;
    assert s[..|s|] == s;
  }

  /** `re.sub(r"\s+", " ", s)`: each maximal run of whitespace becomes one space. */
  function CollapseSpaces(s: string): (r: string)
    ensures |r| <= |s|
    decreases |s|
  {
    if s == [] then []
    else if IsSpace(s[0]) then " " + CollapseSpaces(LStrip(s))
    else [s[0]] + CollapseSpaces(s[1..])
  }

  /** The collapsed text holds no whitespace but single spaces. */
  lemma {:induction false} CollapseSingle(s: string)
    ensures var r := CollapseSpaces(s);
      (forall i :: 0 <= i < |r| && IsSpace(r[i]) ==> r[i] == ' ')
      && (forall i :: 0 <= i < |r| - 1 ==> !(IsSpace(r[i]) && IsSpace(r[i + 1])))
    decreases |s|
  {
    if s != [] {
      var t := if IsSpace(s[0]) then LStrip(s) else s[1..];
      CollapseSingle(t);
      CollapseStart(t);
      var rest := CollapseSpaces(t);
      var r := CollapseSpaces(s);
      assert r == [if IsSpace(s[0]) then ' ' else s[0]] + rest;
      assert forall i :: 1 <= i < |r| ==> r[i] == rest[i - 1];
      assert IsSpace(s[0]) ==> t == [] || !IsSpace(t[0]);
    }
  }

  /** The collapsed text starts with whitespace exactly when the input does. */
  lemma CollapseStart(s: string)
    ensures CollapseSpaces(s) != [] ==> (IsSpace(CollapseSpaces(s)[0]) <==> IsSpace(s[0]))
    ensures CollapseSpaces(s) == [] <==> s == []
  {
  }

  /** Collapsing keeps safe text safe. */
  lemma {:induction false} CollapseSafe(s: string)
    ensures Safe(s) ==> Safe(CollapseSpaces(s))
    decreases |s|
  {
    if s != [] && Safe(s) {
      var h := if IsSpace(s[0]) then ' ' else s[0];
      var t := if IsSpace(s[0]) then LStrip(s) else s[1..];
      SafeSlice(s, |s| - |t|, |s|);
      CollapseSafe(t);
      assert CollapseSpaces(s) == [h] + CollapseSpaces(t);
      assert SafeChar(h) by {
        assert SafeChar(s[0]);
      }
      SafeCons(h, CollapseSpaces(t));
    }
  }

  lemma SafeCons(c: char, s: string)
    requires SafeChar(c) && Safe(s)
    ensures Safe([c] + s)
  {
    assert forall i :: 1 <= i < |s| + 1 ==> ([c] + s)[i] == s[i - 1];
  }

  /** Collapsing whitespace keeps the words: the same tokens come out of `str.split()`. */
  lemma {:induction false} CollapseKeepsWords(s: string)
    ensures Split(CollapseSpaces(s)) == Split(s)
    decreases |s|
  {
    if s != [] {
      if IsSpace(s[0]) {
        var t := LStrip(s);
        CollapseKeepsWords(t);
        SplitSpace(CollapseSpaces(t));
        assert LStrip(t) == t;
        assert Split(s) == Split(t);
      } else {
        var k := WordEnd(s);
        CollapseWord(s, k);
      }
    }
  }

  /** Collapsing passes a leading word through unchanged. */
  lemma {:induction false} CollapseWord(s: string, k: nat)
    requires 0 < k == WordEnd(s)
    ensures Split(CollapseSpaces(s)) == Split(s)
    decreases |s|, 0
  {
    var rest := s[k..];
    var w := s[..k];
    assert s == w + rest;
    CollapsePrefix(w, rest);
    CollapseKeepsWords(rest);
    var cr := CollapseSpaces(rest);
    assert cr == [] || IsSpace(cr[0]) by {
      if cr != [] { assert rest != [] && IsSpace(rest[0]); }
    }
    SplitCons(w, cr);
    SplitCons(w, rest);
  }

  /** A leading whitespace-free word is copied by the collapse. */
  lemma {:induction false} CollapsePrefix(w: string, rest: string)
    requires NoSpace(w)
    ensures CollapseSpaces(w + rest) == w + CollapseSpaces(rest)
  {
    if w != [] {
      var x := w + rest;
      assert x[0] == w[0] && !IsSpace(x[0]);
      assert x[1..] == w[1..] + rest;
      CollapsePrefix(w[1..], rest);
      calc {
        CollapseSpaces(x);
        [w[0]] + CollapseSpaces(w[1..] + rest);
        [w[0]] + (w[1..] + CollapseSpaces(rest));
        { assert [w[0]] + w[1..] == w; }
        w + CollapseSpaces(rest);
      }
    } else {
      assert w + rest == rest;
    }
  }

  /** `str.isalnum` for one character: neither `\W` nor `_`. */
  predicate IsAlnum(c: char) { IsAlpha(c) || IsDigit(c) }

  /** `re.sub(r"^[\W_]+", "", s)`: the leading characters that are neither letters nor digits are dropped. */
  function DropLeadingNonAlnum(s: string): (r: string)
    ensures |r| <= |s| && r == s[|s| - |r|..]
    ensures r == [] || IsAlnum(r[0])
    ensures forall i :: 0 <= i < |s| - |r| ==> !IsAlnum(s[i])
  {
    if s != [] && !IsAlnum(s[0]) then
      var r := DropLeadingNonAlnum(s[1..]);
      assert s[1..][|s| - 1 - |r|..] == s[|s| - |r|..];
      assert forall i :: 1 <= i < |s| - |r| ==> s[i] == s[1..][i - 1];
      r
    else s
  }

  /** The chosen line cut down: before the first comma, without address, parenthesised or numeric tail,
      single-spaced and starting at a letter or digit. */
  function Core(candidate: string): (r: string)
    ensures r == [] || IsAlnum(r[0])
  {
    DropLeadingNonAlnum(CollapseSpaces(CutNumber(CutParen(CutAddress(BeforeComma(candidate))))))
  }

  /** The cut-down line holds no comma. */
  lemma CoreNoComma(candidate: string)
    ensures ',' !in Core(candidate)
  {
    var a := BeforeComma(candidate);
    var b := CutAddress(a);
    CutAddressNoComma(a);
    var c := CutParen(b);
    CutParenNoComma(b);
    var d := CutNumber(c);
    CutNumberNoComma(c);
    NoCommaCollapse(d);
    var e := CollapseSpaces(d);
    var f := DropLeadingNonAlnum(e);
    assert f == e[|e| - |f|..];
  }

  /** A line without separators and line breaks stays without them. */
  lemma CoreSafe(candidate: string)
    requires Safe(candidate)
    ensures Safe(Core(candidate))
  {
    var d := CutNumber(CutParen(CutAddress(BeforeComma(candidate))));
    CollapseSafe(d);
    var e := CollapseSpaces(d);
    var f := DropLeadingNonAlnum(e);
    SafeSlice(e, |e| - |f|, |e|);
  }

  lemma CutAddressNoComma(s: string)
    requires ',' !in s
    ensures ',' !in CutAddress(s)
  {
    var k := match FirstMatch(s, 0, AddressWords) case None => |s| case Some(k) => k;
    assert s[..|s|] == s;
    assert ',' !in s[..k];
    NoCommaStrip(s[..k]);
  }

  lemma CutParenNoComma(s: string)
    requires ',' !in s
    ensures ',' !in CutParen(s)
  {
    if CutParen(s) != s {
      var j := ParenFrom(s, 0).value;
      assert ',' !in s[..j];
      NoCommaStrip(s[..j]);
    }
  }

  lemma CutNumberNoComma(s: string)
    requires ',' !in s
    ensures ',' !in CutNumber(s)
  {
    var k := NumberCut(s);
    assert ',' !in s[..k];
    NoCommaStrip(s[..k]);
  }

  lemma NoCommaStrip(s: string)
    requires ',' !in s
    ensures ',' !in Strip(s)
  {
    var a := |s| - |LStrip(s)|;
    assert Strip(s) == s[a..a + |Strip(s)|];
  }

  lemma {:induction false} NoCommaCollapse(s: string)
    requires ',' !in s
    ensures ',' !in CollapseSpaces(s)
    decreases |s|
  {
    if s != [] {
      if IsSpace(s[0]) {
        var t := LStrip(s);
        assert t == s[|s| - |t|..];
        NoCommaCollapse(t);
      } else {
        assert s == [s[0]] + s[1..];
        NoCommaCollapse(s[1..]);
      }
    }
  }

  // ---------------------------------------------------------------------------------------------
  // normalize_bank_query

  /** Whitespace or a path separator: what `normalize_bank_query` treats as blank. */
  predicate Blank(c: char) {
    IsSpace(c) || c == '/' || c == '\\'
  }

  /** `name.replace("/", " ").replace("\\", " ")`. */
  function Unslash(name: string): (r: string)
    ensures NoSeparator(r)
    ensures AllSpace(r) <==> forall i :: 0 <= i < |name| ==> Blank(name[i])
  {
    var r := Replace(Replace(name, '/', ' '), '\\', ' ');
    assert forall i :: 0 <= i < |name| ==> (IsSpace(r[i]) <==> Blank(name[i]));
    r
  }

  /** The last steps: the cut-down line, or the first line cut to 80 characters when nothing is left
      of it, then cut to 100 characters and stripped. */
  function Finish(s: string, first: string): string {
    Strip(Take(if s == [] then Take(first, 80) else s, 100))
  }

  /** From a non-blank stripped first line the query is never empty, is stripped, has at most 100
      characters, and has no separator or line break when its sources have none. */
  lemma FinishShape(s: string, first: string)
    requires s == [] || IsAlnum(s[0])
    requires first != [] && Stripped(first)
    ensures var q := Finish(s, first);
      q != [] && Stripped(q) && |q| <= 100
    ensures Safe(s) && Safe(first) ==> Safe(Finish(s, first))
  {
    var t := if s == [] then Take(first, 80) else s;
    assert t != [] && !IsSpace(t[0]);
    var u := Take(t, 100);
    assert u[0] == t[0];
    StripEmpty(u);
    StripSafe(u);
    SafeSlice(first, 0, SliceEnd(|first|, 80));
    SafeSlice(t, 0, SliceEnd(|t|, 100));
  }

  /** The query built from the non-blank lines. */
  function Query(lines: seq<string>): string
    requires lines != []
  {
    Finish(Core(Candidate(lines)), lines[0])
  }

  /** From non-blank stripped lines the query is never empty, is stripped, has at most 100 characters,
      and has no separator or line break when the lines have none. */
  lemma QueryShape(lines: seq<string>)
    requires lines != []
    requires forall l :: l in lines ==> l != [] && Stripped(l)
    ensures var q := Query(lines);
      q != [] && Stripped(q) && |q| <= 100
    ensures (forall l :: l in lines ==> Safe(l)) ==> Safe(Query(lines))
  {
    var cand := Candidate(lines);
    assert lines[0] in lines;
    FinishShape(Core(cand), lines[0]);
    if forall l :: l in lines ==> Safe(l) {
      CoreSafe(cand);
    }
  }

  /** `normalize_bank_query`; `None` stands for a value that is not a string. */
  function NormalizeBankQuery(name: Option<string>): string {
    if name.None? || Strip(name.value) == [] then []
    else
      var lines := Lines(Unslash(name.value));
      if lines == [] then [] else Query(lines)
  }

  /** The query of a string whose non-blank lines are `lines`. */
  lemma NormalizeIsQuery(name: Option<string>, lines: seq<string>)
    requires name.Some? && Strip(name.value) != []
    requires lines == Lines(Unslash(name.value)) && lines != []
    ensures NormalizeBankQuery(name) == Query(lines)
  {
  }

  /** The query is stripped, at most 100 characters long, and free of path separators and line breaks. */
  lemma NormalizeShape(name: Option<string>)
    ensures var q := NormalizeBankQuery(name);
      Stripped(q) && |q| <= 100 && Safe(q)
  {
    if name.Some? && Strip(name.value) != [] {
      var raw := Unslash(name.value);
      var lines := Lines(raw);
      LinesFacts(raw);
      if lines != [] {
        QueryShape(lines);
        NormalizeIsQuery(name, lines);
      }
    }
  }

  /** The query is empty exactly when the input is not a string or holds nothing but whitespace and
      path separators. */
  lemma NormalizeEmpty(name: Option<string>)
    ensures NormalizeBankQuery(name) == [] <==>
              name.None? || forall i :: 0 <= i < |name.value| ==> Blank(name.value[i])
  {
    if name.Some? {
      var raw := Unslash(name.value);
      LinesFacts(raw);
      StripEmpty(name.value);
      if Lines(raw) != [] {
        QueryShape(Lines(raw));
      }
    }
  }

  /** With nothing left of the cut-down line, the first line cut to 80 characters is the query. */
  lemma FinishFallback(first: string)
    requires first != [] && Stripped(first)
    ensures Finish([], first) == Strip(first[..if |first| < 80 then |first| else 80])
  {
    var t := Take(first, 80);
    assert Take(t, 100) == t;
  }

  /** When the cut-down line is empty the query falls back to the first line, cut to 80 characters. */
  lemma NormalizeFallback(name: Option<string>)
    requires name.Some?
    requires var lines := Lines(Unslash(name.value)); lines != [] && Core(Candidate(lines)) == []
    ensures var lines := Lines(Unslash(name.value));
              NormalizeBankQuery(name) == Strip(lines[0][..if |lines[0]| < 80 then |lines[0]| else 80])
  {
    var raw := Unslash(name.value);
    var lines := Lines(raw);
    LinesFacts(raw);
    StripEmpty(name.value);
    assert lines[0] in lines;
    FinishFallback(lines[0]);
    NormalizeIsQuery(name, lines);
  }

  /** `normalize_bank_query` with its keyword search loop. */
  method NormalizeBank(name: Option<string>) returns (q: string)
    ensures q == NormalizeBankQuery(name)
  {
    if name.None? || Strip(name.value) == [] {
      return [];
    }
    var lines := Lines(Unslash(name.value));
    if lines == [] {
      return [];
    }
    var found := FindKeywordLine(lines);
    var candidate := if found.Some? then found.value else lines[MaxRatioLine(lines)];
    var s := Core(candidate);
    if s == [] {
      s := Take(lines[0], 80);
    }
    q := Strip(Take(s, 100));
  }
}
