/**
 * Python `str` primitives the detector relies on, restricted to ASCII plus the basic Cyrillic
 * alphabet: character classes (`isspace`, `isalpha`, `isdigit`, the regex class `\w`), case
 * mapping (`lower`, `upper`), `strip`, argument-less `split`, `join`, substring search,
 * `count` and `replace` of one character.
 */
module Chars {
  import opened Wrappers

  /** `str.isspace` / regex `\s`: tab to carriage return, the four separators 0x1C-0x1F,
      space, NEL and no-break space. */
  predicate IsSpace(c: char) {
    c == ' ' || (9 <= c as int <= 13) || (28 <= c as int <= 31) || c as int == 0x85 || c as int == 0xA0
  }

  predicate IsAsciiUpper(c: char) { 'A' <= c <= 'Z' }
  predicate IsAsciiLower(c: char) { 'a' <= c <= 'z' }
  predicate IsCyrillicUpper(c: char) { (0x410 <= c as int <= 0x42F) || c as int == 0x401 }
  predicate IsCyrillicLower(c: char) { (0x430 <= c as int <= 0x44F) || c as int == 0x451 }

  predicate IsUpper(c: char) { IsAsciiUpper(c) || IsCyrillicUpper(c) }
  predicate IsLower(c: char) { IsAsciiLower(c) || IsCyrillicLower(c) }

  /** `str.isalpha` for one character. */
  predicate IsAlpha(c: char) { IsUpper(c) || IsLower(c) }

  /** `str.isdigit` / regex `\d`. */
  predicate IsDigit(c: char) { '0' <= c <= '9' }

  /** Regex `\w`: letters, digits and underscore. */
  predicate IsWordChar(c: char) { IsAlpha(c) || IsDigit(c) || c == '_' }

  function LowerChar(c: char): (d: char)
    ensures !IsUpper(d)
    ensures IsSpace(d) <==> IsSpace(c)
    ensures IsWordChar(d) <==> IsWordChar(c)
    ensures IsAlpha(d) <==> IsAlpha(c)
    ensures !IsUpper(c) ==> d == c
  {
    if IsAsciiUpper(c) then (c as int + 32) as char
    else if c as int == 0x401 then 0x451 as char
    else if IsCyrillicUpper(c) then (c as int + 32) as char
    else c
  }

  function UpperChar(c: char): (d: char)
    ensures !IsLower(d)
    ensures IsSpace(d) <==> IsSpace(c)
    ensures IsAlpha(d) <==> IsAlpha(c)
    ensures !IsLower(c) ==> d == c
  {
    if IsAsciiLower(c) then (c as int - 32) as char
    else if c as int == 0x451 then 0x401 as char
    else if IsCyrillicLower(c) then (c as int - 32) as char
    else c
  }

  /** `str.lower`. */
  function Lower(s: string): (r: string)
    ensures |r| == |s|
    ensures forall i :: 0 <= i < |s| ==> r[i] == LowerChar(s[i])
    ensures forall c :: c in r ==> !IsUpper(c)
  {
    seq(|s|, i requires 0 <= i < |s| => LowerChar(s[i]))
  }

  /** `str.upper`. */
  function Upper(s: string): (r: string)
    ensures |r| == |s|
    ensures forall i :: 0 <= i < |s| ==> r[i] == UpperChar(s[i])
  {
    seq(|s|, i requires 0 <= i < |s| => UpperChar(s[i]))
  }

  /** `re.sub(r'[^\w\s]', '', s)`: drops every character that is neither a word character nor whitespace. */
  function KeepWordSpace(s: string): (r: string)
    ensures |r| <= |s|
    ensures forall c :: c in r <==> c in s && (IsWordChar(c) || IsSpace(c))
    ensures (forall i :: 0 <= i < |s| ==> IsWordChar(s[i]) || IsSpace(s[i])) ==> r == s
  {
    if s == [] then []
    else (if IsWordChar(s[0]) || IsSpace(s[0]) then [s[0]] else []) + KeepWordSpace(s[1..])
  }

  predicate AllSpace(s: string) { forall i :: 0 <= i < |s| ==> IsSpace(s[i]) }
  predicate NoSpace(s: string) { forall i :: 0 <= i < |s| ==> !IsSpace(s[i]) }

  /** `str.isalpha`: non-empty and every character a letter. */
  predicate IsAlphaStr(s: string) { s != [] && forall i :: 0 <= i < |s| ==> IsAlpha(s[i]) }

  /** `str.lstrip()`: the suffix left after dropping the leading whitespace. */
  function LStrip(s: string): (r: string)
    ensures |r| <= |s| && r == s[|s| - |r|..]
    ensures r == [] || !IsSpace(r[0])
  {
    if s != [] && IsSpace(s[0]) then
      var r := LStrip(s[1..]);
      assert s[1..][|s| - 1 - |r|..] == s[|s| - |r|..];
      r
    else
      s
  }

  /** What `lstrip` drops is whitespace. */
  lemma {:induction false} LStripDropped(s: string)
    ensures AllSpace(s[..|s| - |LStrip(s)|])
    decreases |s|
  {
    if s != [] && IsSpace(s[0]) {
      var r := LStrip(s[1..]);
      LStripDropped(s[1..]);
      AllSpaceCons(s[0], s[1..][..|s| - 1 - |r|]);
      assert [s[0]] + s[1..][..|s| - 1 - |r|] == s[..|s| - |r|];
    } else {
      assert s[..0] == [];
    }
  }

  /** A text is all whitespace exactly when its first character is and the rest is. */
  lemma AllSpaceCons(c: char, t: string)
    ensures AllSpace([c] + t) <==> IsSpace(c) && AllSpace(t)
  {
    assert ([c] + t)[0] == c;
    assert forall i :: 0 <= i < |t| ==> ([c] + t)[i + 1] == t[i];
  }

  /** A text is all whitespace exactly when its last character is and the rest is. */
  lemma AllSpaceSnoc(t: string, c: char)
    ensures AllSpace(t + [c]) <==> AllSpace(t) && IsSpace(c)
  {
    var u := t + [c];
    assert u[|t|] == c;
    if AllSpace(u) {
      forall i | 0 <= i < |t| ensures IsSpace(t[i]) {
        assert u[i] == t[i];
      }
    }
    if AllSpace(t) && IsSpace(c) {
      forall i | 0 <= i < |u| ensures IsSpace(u[i]) {
        if i < |t| {
          assert u[i] == t[i];
        }
      }
    }
  }

  /** `str.rstrip()`: the prefix left after dropping the trailing whitespace. */
  function RStrip(s: string): (r: string)
    ensures |r| <= |s| && r == s[..|r|]
    ensures r == [] || !IsSpace(r[|r| - 1])
  {
    if s != [] && IsSpace(s[|s| - 1]) then
      var t := s[..|s| - 1];
      var r := RStrip(t);
      assert t[..|r|] == s[..|r|];
      r
    else
      s
  }

  /** What `rstrip` drops is whitespace. */
  lemma {:induction false} RStripDropped(s: string)
    ensures AllSpace(s[|RStrip(s)|..])
    decreases |s|
  {
    if s != [] && IsSpace(s[|s| - 1]) {
      var t := s[..|s| - 1];
      var r := RStrip(t);
      RStripDropped(t);
      AllSpaceSnoc(t[|r|..], s[|s| - 1]);
      assert t[|r|..] + [s[|s| - 1]] == s[|r|..];
    } else {
      assert s[|s|..] == [];
    }
  }

  /** `str.strip()`. */
  function Strip(s: string): (r: string)
    ensures |r| <= |LStrip(s)| <= |s|
    ensures r == s[|s| - |LStrip(s)|..|s| - |LStrip(s)| + |r|]
    ensures r == [] || (!IsSpace(r[0]) && !IsSpace(r[|r| - 1]))
  {
    StripFacts(s, LStrip(s), RStrip(LStrip(s)));
    RStrip(LStrip(s))
  }

  /** What `strip` leaves is a slice of the text without whitespace at either end. */
  lemma StripFacts(s: string, l: string, r: string)
    requires l == LStrip(s) && r == RStrip(l)
    ensures |r| <= |l| <= |s|
    ensures r == s[|s| - |l|..|s| - |l| + |r|]
    ensures r == [] || (!IsSpace(r[0]) && !IsSpace(r[|r| - 1]))
  {
    PrefixOfSuffix(s, l, r);
    assert r == [] || r[0] == l[0];
  }

  /** `strip` is `rstrip` after `lstrip`. */
  lemma StripIsRL(s: string)
    ensures Strip(s) == RStrip(LStrip(s))
  {
  }

  /** A prefix of a suffix of `s` is a slice of `s`. */
  lemma PrefixOfSuffix(s: string, l: string, r: string)
    requires |r| <= |l| <= |s| && l == s[|s| - |l|..] && r == l[..|r|]
    ensures r == s[|s| - |l|..|s| - |l| + |r|]
  {
  }

  /** Stripping ignores whitespace added around the text. */
  lemma {:induction false} StripPadded(pre: string, s: string, post: string)
    requires AllSpace(pre) && AllSpace(post)
    ensures Strip(pre + s + post) == Strip(s)
  {
    calc {
      Strip(pre + s + post);
      { StripIsRL(pre + s + post); }
      RStrip(LStrip(pre + s + post));
      { assert pre + s + post == pre + (s + post); LStripPadded(pre, s + post); }
      RStrip(LStrip(s + post));
      { LStripAppend(s, post); }
      RStrip(LStrip(s) + post);
      { RStripPadded(LStrip(s), post); }
      RStrip(LStrip(s));
      { StripIsRL(s); }
      Strip(s);
    }
  }

  lemma {:induction false} LStripPadded(pre: string, s: string)
    requires AllSpace(pre)
    ensures LStrip(pre + s) == LStrip(s)
  {
    if pre != [] {
      assert (pre + s)[0] == pre[0];
      assert (pre + s)[1..] == pre[1..] + s;
      LStripPadded(pre[1..], s);
    } else {
      assert pre + s == s;
    }
  }

  lemma {:induction false} RStripPadded(s: string, post: string)
    requires AllSpace(post)
    ensures RStrip(s + post) == RStrip(s)
  {
    if post != [] {
      assert (s + post)[|s + post| - 1] == post[|post| - 1];
      assert IsSpace(post[|post| - 1]);
      assert AllSpace(post[..|post| - 1]);
      assert (s + post)[..|s + post| - 1] == s + post[..|post| - 1];
      RStripPadded(s, post[..|post| - 1]);
    } else {
      assert s + post == s;
    }
  }

  /** Leading whitespace of `s + post` is that of `s`, unless `s` is all whitespace. */
  lemma {:induction false} LStripAppend(s: string, post: string)
    requires AllSpace(post)
    ensures RStrip(LStrip(s + post)) == RStrip(LStrip(s) + post)
  {
    if s != [] && IsSpace(s[0]) {
      assert (s + post)[1..] == s[1..] + post;
      LStripAppend(s[1..], post);
    } else if s == [] {
      LStripAllSpace(post);
      RStripAllSpace(post);
    }
  }

  lemma {:induction false} LStripAllSpace(s: string)
    requires AllSpace(s)
    ensures LStrip(s) == []
  {
    if s != [] { LStripAllSpace(s[1..]); }
  }

  lemma {:induction false} RStripAllSpace(s: string)
    requires AllSpace(s)
    ensures RStrip(s) == []
  {
    if s != [] { RStripAllSpace(s[..|s| - 1]); }
  }

  /** Every character of the stripped text occurs in the text. */
  lemma StripSubset(s: string)
    ensures forall c :: c in Strip(s) ==> c in s
  {
    var r := Strip(s);
    var a := |s| - |LStrip(s)|;
    forall c | c in r
      ensures c in s
    {
      var i :| 0 <= i < |r| && r[i] == c;
      assert s[a + i] == c;
    }
  }

  /** Text without edge whitespace is its own strip. */
  lemma StripNoEdges(s: string)
    requires s == [] || (!IsSpace(s[0]) && !IsSpace(s[|s| - 1]))
    ensures Strip(s) == s
  {
  }

  /** Length of the leading run of non-whitespace characters. */
  function WordEnd(s: string): (k: nat)
    ensures k <= |s|
    ensures NoSpace(s[..k])
    ensures k == |s| || IsSpace(s[k])
  {
    if s == [] || IsSpace(s[0]) then 0 else 1 + WordEnd(s[1..])
  }

  /** `str.split()` with no argument: the maximal runs of non-whitespace characters, in order. */
  function Split(s: string): (r: seq<string>)
    ensures forall t :: t in r ==> t != [] && NoSpace(t)
    decreases |s|
  {
    var t := LStrip(s);
    if t == [] then [] else
      var k := WordEnd(t);
      assert k > 0;
      var rest := Split(t[k..]);
      assert forall u :: u in [t[..k]] + rest ==> u == t[..k] || u in rest;
      [t[..k]] + rest
  }

  /** `sep.join(parts)`. */
  function Join(sep: string, parts: seq<string>): (r: string)
  {
    if parts == [] then []
    else if |parts| == 1 then parts[0]
    else parts[0] + sep + Join(sep, parts[1..])
  }

  lemma {:induction false} JoinFirst(parts: seq<string>)
    requires |parts| > 0 && parts[0] != []
    ensures Join(" ", parts) != [] && Join(" ", parts)[0] == parts[0][0]
  {
  }

  lemma {:induction false} JoinLast(parts: seq<string>)
    requires |parts| > 0 && parts[|parts| - 1] != []
    ensures var j := Join(" ", parts); j != [] && j[|j| - 1] == parts[|parts| - 1][|parts[|parts| - 1]| - 1]
  {
    if |parts| > 1 {
      JoinLast(parts[1..]);
    }
  }

  lemma {:induction false} WordEndPrefix(t: string, u: string)
    requires NoSpace(t)
    requires u == [] || IsSpace(u[0])
    ensures WordEnd(t + u) == |t|
  {
    if t != [] {
      assert (t + u)[1..] == t[1..] + u;
      WordEndPrefix(t[1..], u);
    } else {
      assert t + u == u;
    }
  }

  /** A whitespace-free word followed by whitespace (or nothing) is split off as the first token. */
  lemma {:induction false} SplitCons(t: string, u: string)
    requires t != [] && NoSpace(t)
    requires u == [] || IsSpace(u[0])
    ensures Split(t + u) == [t] + Split(u)
  {
    assert (t + u)[0] == t[0];
    assert LStrip(t + u) == t + u;
    WordEndPrefix(t, u);
    assert (t + u)[..|t|] == t;
    assert (t + u)[|t|..] == u;
  }

  /** A leading space does not change the tokens. */
  lemma SplitSpace(x: string)
    ensures Split(" " + x) == Split(x)
  {
    assert (" " + x)[1..] == x;
    assert LStrip(" " + x) == LStrip(x);
  }

  /** Splitting a space-joined list of non-empty, whitespace-free tokens gives the tokens back. */
  lemma {:induction false} SplitJoin(ts: seq<string>)
    requires forall i :: 0 <= i < |ts| ==> ts[i] != [] && NoSpace(ts[i])
    ensures Split(Join(" ", ts)) == ts
  {
    if |ts| == 1 {
      SplitCons(ts[0], []);
      assert ts[0] + [] == ts[0];
    } else if |ts| > 1 {
      SplitJoin(ts[1..]);
      SplitJoinStep(ts[0], Join(" ", ts[1..]), ts[1..]);
      ConsSlice(ts);
    }
  }

  lemma SplitJoinStep(t: string, j: string, rest: seq<string>)
    requires t != [] && NoSpace(t)
    requires Split(j) == rest
    ensures Split(t + " " + j) == [t] + rest
  {
    assert t + " " + j == t + (" " + j);
    SplitCons(t, " " + j);
    SplitSpace(j);
  }

  lemma ConsSlice<T>(s: seq<T>)
    requires |s| > 0
    ensures [s[0]] + s[1..] == s
  {
  }

  predicate AllChars(s: string, p: char -> bool) {
    forall i :: 0 <= i < |s| ==> p(s[i])
  }

  lemma AllCharsSlice(s: string, p: char -> bool, a: nat, b: nat)
    requires a <= b <= |s| && AllChars(s, p)
    ensures AllChars(s[a..b], p)
  {
    assert forall i :: 0 <= i < b - a ==> s[a..b][i] == s[a + i];
  }

  /** A character property held by every character of `s` holds in every token of `Split(s)`. */
  lemma {:induction false} SplitKeeps(s: string, p: char -> bool)
    requires AllChars(s, p)
    ensures forall t :: t in Split(s) ==> AllChars(t, p)
    decreases |s|
  {
    var t := LStrip(s);
    AllCharsSlice(s, p, |s| - |t|, |s|);
    if t != [] {
      var k := WordEnd(t);
      AllCharsSlice(t, p, 0, k);
      AllCharsSlice(t, p, k, |t|);
      SplitKeeps(t[k..], p);
      assert Split(s) == [t[..k]] + Split(t[k..]);
    }
  }

  /** A character property held by the separator and by every part holds in their join. */
  lemma {:induction false} JoinKeeps(sep: string, parts: seq<string>, p: char -> bool)
    requires forall i :: 0 <= i < |sep| ==> p(sep[i])
    requires forall t :: t in parts ==> forall i :: 0 <= i < |t| ==> p(t[i])
    ensures forall i :: 0 <= i < |Join(sep, parts)| ==> p(Join(sep, parts)[i])
  {
    if |parts| > 1 {
      JoinKeeps(sep, parts[1..], p);
      var j := Join(sep, parts[1..]);
      assert Join(sep, parts) == parts[0] + sep + j;
      forall i | 0 <= i < |parts[0] + sep + j| ensures p((parts[0] + sep + j)[i]) {
        if i < |parts[0]| {
        } else if i < |parts[0]| + |sep| {
          assert (parts[0] + sep + j)[i] == sep[i - |parts[0]|];
        } else {
          assert (parts[0] + sep + j)[i] == j[i - |parts[0]| - |sep|];
        }
      }
    }
  }

  predicate IsPrefix(p: string, s: string) {
    |p| <= |s| && s[..|p|] == p
  }

  /** `s.find(sub)` as an option: the leftmost index where `sub` occurs in `s`. */
  function IndexOf(s: string, sub: string): (r: Option<nat>)
    ensures r.Some? ==> r.value + |sub| <= |s| && s[r.value..r.value + |sub|] == sub
    ensures r.Some? ==> forall j :: 0 <= j < r.value ==> !IsPrefix(sub, s[j..])
    ensures r.None? ==> forall j :: 0 <= j <= |s| ==> !IsPrefix(sub, s[j..])
    decreases |s|
  {
    if IsPrefix(sub, s) then Some(0)
    else if s == [] then None
    else match IndexOf(s[1..], sub)
      case None =>
        assert forall j :: 1 <= j <= |s| ==> s[j..] == s[1..][j - 1..];
        None
      case Some(i) =>
        assert forall j :: 1 <= j <= i ==> s[j..] == s[1..][j - 1..];
        TailSlice(s, i, i + |sub|);
        Some(i + 1)
  }

  /** A slice of the tail is a slice of the text, one further on. */
  lemma TailSlice(s: string, a: nat, b: nat)
    requires s != [] && a <= b <= |s| - 1
    ensures s[1..][a..b] == s[a + 1..b + 1]
  {
  }

  /** Python's `sub in s`. */
  predicate Contains(s: string, sub: string) {
    IndexOf(s, sub).Some?
  }

  /** `sub in s` holds exactly when `sub` occurs at some index of `s`. */
  lemma ContainsAt(s: string, sub: string, j: nat)
    requires j + |sub| <= |s| && s[j..j + |sub|] == sub
    ensures Contains(s, sub)
  {
    assert IsPrefix(sub, s[j..]);
  }

  /** `s.count(c)`. */
  function Count(s: string, c: char): (n: nat)
    ensures n <= |s|
    ensures n == 0 <==> c !in s
  {
    if s == [] then 0 else (if s[0] == c then 1 else 0) + Count(s[1..], c)
  }

  /** `s.replace(c, "")`. */
  function Remove(s: string, c: char): (r: string)
    ensures c !in r
    ensures |r| == |s| - Count(s, c)
    ensures forall d :: d != c ==> (d in r <==> d in s)
  {
    if s == [] then [] else (if s[0] == c then [] else [s[0]]) + Remove(s[1..], c)
  }

  /** `s.replace(c, d)` for single characters. */
  function Replace(s: string, c: char, d: char): (r: string)
    ensures |r| == |s|
    ensures forall i :: 0 <= i < |s| ==> r[i] == if s[i] == c then d else s[i]
  {
    seq(|s|, i requires 0 <= i < |s| => if s[i] == c then d else s[i])
  }

  /** `s.split(c)`: the pieces between occurrences of `c`, empty pieces included. */
  function SplitOn(s: string, c: char): (r: seq<string>)
    ensures |r| >= 1
    ensures forall p :: p in r ==> c !in p
    ensures |r[0]| <= |s| && r[0] == s[..|r[0]|]
  {
    if s == [] then [[]]
    else
      var rest := SplitOn(s[1..], c);
      if s[0] == c then [[]] + rest
      else
        assert c !in rest[0];
        [[s[0]] + rest[0]] + rest[1..]
  }

  lemma {:induction false} SplitOnPrefix(p: string, c: char, t: string)
    requires c !in p
    ensures SplitOn(p + t, c) == [p + SplitOn(t, c)[0]] + SplitOn(t, c)[1..]
  {
    if p != [] {
      assert (p + t)[1..] == p[1..] + t;
      assert (p + t)[0] == p[0] != c;
      SplitOnPrefix(p[1..], c, t);
      assert [p[0]] + (p[1..] + SplitOn(t, c)[0]) == p + SplitOn(t, c)[0];
    } else {
      assert p + t == t;
      assert p + SplitOn(t, c)[0] == SplitOn(t, c)[0];
      ConsSlice(SplitOn(t, c));
    }
  }

  /** Splitting on a separator undoes joining with it, when no piece contains the separator. */
  lemma {:induction false} SplitOnJoin(ps: seq<string>, c: char)
    requires |ps| >= 1
    requires forall i :: 0 <= i < |ps| ==> c !in ps[i]
    ensures SplitOn(Join([c], ps), c) == ps
  {
    if |ps| == 1 {
      SplitOnPrefix(ps[0], c, []);
      assert ps[0] + [] == ps[0];
    } else {
      var j := Join([c], ps[1..]);
      SplitOnJoin(ps[1..], c);
      assert Join([c], ps) == ps[0] + ([c] + j);
      SplitOnPrefix(ps[0], c, [c] + j);
      assert ([c] + j)[1..] == j;
      assert ps[0] + [] == ps[0];
      ConsSlice(ps);
    }
  }

  /** Stripping leaves nothing exactly when the text is all whitespace. */
  lemma StripEmpty(s: string)
    ensures Strip(s) == [] <==> AllSpace(s)
  {
    if AllSpace(s) {
      LStripAllSpace(s);
    }
    var l := LStrip(s);
    if RStrip(l) == [] {
      assert l == [] by {
        RStripDropped(l);
        assert l[0..] == l;
      }
      LStripDropped(s);
      assert s[..|s|] == s;
    }
  }

  /** The end index of Python's slice `s[:n]` on a string of length `len`: a negative `n` counts from the end. */
  function SliceEnd(len: nat, n: int): (k: nat)
    ensures k <= len
    ensures 0 <= n <= len ==> k == n
    ensures n > len ==> k == len
  {
    if n >= 0 then (if n < len then n else len)
    else if len + n > 0 then len + n else 0
  }

  /** `s[:n]`. */
  function Take(s: string, n: int): string {
    s[..SliceEnd(|s|, n)]
  }

  /** Two strings with whitespace at the same positions. */
  predicate SameSpaces(s: string, t: string) {
    |s| == |t| && forall i :: 0 <= i < |s| ==> (IsSpace(s[i]) <==> IsSpace(t[i]))
  }

  lemma {:induction false} LStripSameSpaces(s: string, t: string)
    requires SameSpaces(s, t)
    ensures |LStrip(s)| == |LStrip(t)|
  {
    if s != [] && IsSpace(s[0]) {
      LStripSameSpaces(s[1..], t[1..]);
    }
  }

  lemma {:induction false} RStripSameSpaces(s: string, t: string)
    requires SameSpaces(s, t)
    ensures |RStrip(s)| == |RStrip(t)|
  {
    if s != [] && IsSpace(s[|s| - 1]) {
      RStripSameSpaces(s[..|s| - 1], t[..|t| - 1]);
    }
  }

  /** Stripping depends only on where the whitespace is: it cuts the same slice from both strings. */
  lemma StripSameSpaces(s: string, t: string)
    requires SameSpaces(s, t)
    ensures |Strip(s)| == |Strip(t)| && |LStrip(s)| == |LStrip(t)|
  {
    LStripSameSpaces(s, t);
    var a := |s| - |LStrip(s)|;
    assert SameSpaces(LStrip(s), LStrip(t)) by {
      assert LStrip(s) == s[a..] && LStrip(t) == t[a..];
    }
    RStripSameSpaces(LStrip(s), LStrip(t));
  }

  /** `s.lower().strip() == s.strip().lower()`. */
  lemma StripLower(s: string)
    ensures Strip(Lower(s)) == Lower(Strip(s))
  {
    StripSameSpaces(Lower(s), s);
  }

  /** `s.upper().strip() == s.strip().upper()`. */
  lemma StripUpper(s: string)
    ensures Strip(Upper(s)) == Upper(Strip(s))
  {
    StripSameSpaces(Upper(s), s);
  }

  /** Upper-casing forgets any earlier change of case. */
  lemma UpperCaseFold(s: string)
    ensures Upper(Lower(s)) == Upper(s)
    ensures Upper(Upper(s)) == Upper(s)
  {
  }
}
