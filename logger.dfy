/**
 * The redaction applied to every log line: a run of ten or more digits that stands alone as a word is
 * replaced by four stars and its last four digits. The logging handlers themselves are not modelled.
 */
module Logger {
  import opened Chars

  /** The length of the run of digits that `s` starts with. */
  function DigitRun(s: string): (k: nat)
    ensures k <= |s|
    ensures forall i :: 0 <= i < k ==> IsDigit(s[i])
    ensures k < |s| ==> !IsDigit(s[k])
  {
    if s != [] && IsDigit(s[0]) then 1 + DigitRun(s[1..]) else 0
  }

  const Mask: string := "****"

  /**
   * The substitution of `\b(\d{6,})(\d{4})\b` by `****\2`, scanning `s` left to right; `afterWord` says
   * whether the character before `s` is a word character. A match can only start where a digit run
   * starts after a non-word character, and can only end where the run ends before a non-word
   * character or the end of the text, so it is always a whole run of at least ten digits.
   */
  function RedactFrom(afterWord: bool, s: string): (r: string)
    ensures |r| <= |s|
    decreases |s|
  {
    if s == [] then []
    else if IsDigit(s[0]) then
      var k := DigitRun(s);
      var rest := s[k..];
      if !afterWord && k >= 10 && (rest == [] || !IsWordChar(rest[0])) then Mask + s[k - 4..k] + RedactFrom(true, rest)
      else s[..k] + RedactFrom(true, rest)
    else [s[0]] + RedactFrom(IsWordChar(s[0]), s[1..])
  }

  /** `redact_account_number`. */
  function RedactAccountNumber(text: string): (r: string)
    ensures |r| <= |text|
  {
    RedactFrom(false, text)
  }

  /** Whether the scan is after a word character once it has passed `a`. */
  function AfterWord(afterWord: bool, a: string): bool {
    if a == [] then afterWord else IsWordChar(a[|a| - 1])
  }

  /** A run of digits followed by a non-digit is measured exactly. */
  lemma {:induction false} DigitRunOf(d: string, b: string)
    requires forall i :: 0 <= i < |d| ==> IsDigit(d[i])
    requires b == [] || !IsDigit(b[0])
    ensures DigitRun(d + b) == |d|
  {
    if d != [] {
      assert (d + b)[1..] == d[1..] + b;
      DigitRunOf(d[1..], b);
    }
  }

  /** One whole digit run: it is masked exactly when it starts after a non-word character, has at
      least ten digits and ends before a non-word character or the end of the text. */
  lemma RunStep(afterWord: bool, d: string, b: string)
    requires d != [] && forall i :: 0 <= i < |d| ==> IsDigit(d[i])
    requires b == [] || !IsDigit(b[0])
    ensures RedactFrom(afterWord, d + b) ==
      (if !afterWord && |d| >= 10 && (b == [] || !IsWordChar(b[0])) then Mask + d[|d| - 4..] else d)
      + RedactFrom(true, b)
  {
    DigitRunOf(d, b);
    assert (d + b)[|d|..] == b && (d + b)[..|d|] == d;
    if |d| >= 10 {
      assert (d + b)[|d| - 4..|d|] == d[|d| - 4..];
    }
  }

  /** A non-digit is copied, and the scan continues after it. */
  lemma CharStep(afterWord: bool, c: char, z: string)
    requires !IsDigit(c)
    ensures RedactFrom(afterWord, [c] + z) == [c] + RedactFrom(IsWordChar(c), z)
  {
    assert ([c] + z)[1..] == z;
  }

  /** A run that stands alone and has at least ten digits becomes the mask and its last four digits. */
  lemma RedactRun(d: string, b: string)
    requires |d| >= 10 && forall i :: 0 <= i < |d| ==> IsDigit(d[i])
    requires b == [] || !IsWordChar(b[0])
    ensures RedactFrom(false, d + b) == Mask + d[|d| - 4..] + RedactFrom(true, b)
  {
    RunStep(false, d, b);
  }

  /** A run shorter than ten digits, or one touching a letter or underscore, is left as it is. */
  lemma KeepRun(afterWord: bool, d: string, b: string)
    requires d != [] && forall i :: 0 <= i < |d| ==> IsDigit(d[i])
    requires b == [] || !IsDigit(b[0])
    requires afterWord || |d| < 10 || (b != [] && IsWordChar(b[0]))
    ensures RedactFrom(afterWord, d + b) == d + RedactFrom(true, b)
  {
    RunStep(afterWord, d, b);
  }

  /** Text without digits is left as it is. */
  lemma {:induction false} RedactNoDigits(afterWord: bool, s: string)
    requires forall i :: 0 <= i < |s| ==> !IsDigit(s[i])
    ensures RedactFrom(afterWord, s) == s
    decreases |s|
  {
    if s != [] {
      RedactNoDigits(IsWordChar(s[0]), s[1..]);
    }
  }

  /** The digit run `a` starts with, and the rest of `a`. */
  lemma SplitRun(a: string)
    requires a != [] && IsDigit(a[0]) && !IsDigit(a[|a| - 1])
    ensures var k := DigitRun(a);
      0 < k < |a| && a == a[..k] + a[k..] && !IsDigit(a[k..][0]) && |a[k..]| < |a|
      && a[k..][|a[k..]| - 1] == a[|a| - 1]
  {
  }

  /** The step of `RedactAppend` over a leading digit run. */
  lemma AppendAfterRun(afterWord: bool, d: string, a: string, x: string)
    requires d != [] && forall i :: 0 <= i < |d| ==> IsDigit(d[i])
    requires a != [] && !IsDigit(a[0])
    requires RedactFrom(true, a + x) == RedactFrom(true, a) + RedactFrom(AfterWord(true, a), x)
    ensures RedactFrom(afterWord, d + (a + x)) == RedactFrom(afterWord, d + a) + RedactFrom(AfterWord(true, a), x)
  {
    var head := if !afterWord && |d| >= 10 && !IsWordChar(a[0]) then Mask + d[|d| - 4..] else d;
    assert RedactFrom(afterWord, d + (a + x)) == head + RedactFrom(true, a + x) by {
      assert (a + x)[0] == a[0];
      RunStep(afterWord, d, a + x);
    }
    assert RedactFrom(afterWord, d + a) == head + RedactFrom(true, a) by {
      RunStep(afterWord, d, a);
    }
    Assoc(head, RedactFrom(true, a), RedactFrom(AfterWord(true, a), x));
  }

  /** The step of `RedactAppend` over a leading non-digit. */
  lemma AppendAfterChar(afterWord: bool, c: char, a: string, x: string)
    requires !IsDigit(c)
    requires RedactFrom(IsWordChar(c), a + x) == RedactFrom(IsWordChar(c), a) + RedactFrom(AfterWord(IsWordChar(c), a), x)
    ensures RedactFrom(afterWord, [c] + (a + x)) == RedactFrom(afterWord, [c] + a) + RedactFrom(AfterWord(IsWordChar(c), a), x)
  {
    assert RedactFrom(afterWord, [c] + (a + x)) == [c] + RedactFrom(IsWordChar(c), a + x) by {
      CharStep(afterWord, c, a + x);
    }
    assert RedactFrom(afterWord, [c] + a) == [c] + RedactFrom(IsWordChar(c), a) by {
      CharStep(afterWord, c, a);
    }
    Assoc([c], RedactFrom(IsWordChar(c), a), RedactFrom(AfterWord(IsWordChar(c), a), x));
  }

  lemma Assoc(p: string, q: string, r: string)
    ensures p + (q + r) == p + q + r
  {
  }

  /** A text that does not end inside a digit run is redacted on its own. */
  lemma {:induction false} RedactAppend(afterWord: bool, a: string, x: string)
    requires a == [] || !IsDigit(a[|a| - 1])
    ensures RedactFrom(afterWord, a + x) == RedactFrom(afterWord, a) + RedactFrom(AfterWord(afterWord, a), x)
    decreases |a|
  {
    if a == [] {
      assert a + x == x;
    } else if IsDigit(a[0]) {
      var k := DigitRun(a);
      SplitRun(a);
      var d, a' := a[..k], a[k..];
      RedactAppend(true, a', x);
      AppendAfterRun(afterWord, d, a', x);
      assert a + x == d + (a' + x) by {
        Assoc(d, a', x);
      }
      assert AfterWord(afterWord, a) == AfterWord(true, a');
    } else {
      var c, a1 := a[0], a[1..];
      RedactAppend(IsWordChar(c), a1, x);
      AppendAfterChar(afterWord, c, a1, x);
      assert a == [c] + a1;
      assert a + x == [c] + (a1 + x) by {
        Assoc([c], a1, x);
      }
      assert AfterWord(afterWord, a) == AfterWord(IsWordChar(c), a1);
    }
  }

  /** A non-digit at the front is copied. */
  lemma FirstKept(afterWord: bool, s: string)
    requires s != [] && !IsDigit(s[0])
    ensures RedactFrom(afterWord, s) != [] && RedactFrom(afterWord, s)[0] == s[0]
  {
  }

  /** The mask is copied and leaves the scan after a non-word character. */
  lemma MaskKept(afterWord: bool, z: string)
    ensures RedactFrom(afterWord, Mask + z) == Mask + RedactFrom(false, z)
  {
    assert Mask + z == ['*'] + (['*'] + (['*'] + (['*'] + z)));
    CharStep(afterWord, '*', ['*'] + (['*'] + (['*'] + z)));
    CharStep(false, '*', ['*'] + (['*'] + z));
    CharStep(false, '*', ['*'] + z);
    CharStep(false, '*', z);
  }

  /** Redaction is idempotent: a redacted text has nothing left to redact. */
  lemma {:induction false} RedactIdempotent(afterWord: bool, s: string)
    ensures RedactFrom(afterWord, RedactFrom(afterWord, s)) == RedactFrom(afterWord, s)
    decreases |s|
  {
    if s != [] {
      if IsDigit(s[0]) {
        RedactIdempotent(true, s[DigitRun(s)..]);
        IdempotentRun(afterWord, s);
      } else {
        RedactIdempotent(IsWordChar(s[0]), s[1..]);
        IdempotentChar(afterWord, s);
      }
    }
  }

  /** The step of `RedactIdempotent` over a leading digit run. */
  lemma IdempotentRun(afterWord: bool, s: string)
    requires s != [] && IsDigit(s[0])
    requires var rest := s[DigitRun(s)..];
      RedactFrom(true, RedactFrom(true, rest)) == RedactFrom(true, rest)
    ensures RedactFrom(afterWord, RedactFrom(afterWord, s)) == RedactFrom(afterWord, s)
  {
    var k := DigitRun(s);
    var d, rest := s[..k], s[k..];
    assert s == d + rest;
    RunStep(afterWord, d, rest);
    var y := RedactFrom(true, rest);
    if rest != [] {
      FirstKept(true, rest);
    }
    if !afterWord && k >= 10 && (rest == [] || !IsWordChar(rest[0])) {
      MaskedFixed(d[k - 4..], y);
    } else {
      RunStep(afterWord, d, y);
    }
  }

  /** A mask and four digits before a text with nothing left to redact are left as they are. */
  lemma MaskedFixed(d4: string, y: string)
    requires |d4| == 4 && forall i :: 0 <= i < 4 ==> IsDigit(d4[i])
    requires y == [] || !IsDigit(y[0])
    requires RedactFrom(true, y) == y
    ensures RedactFrom(false, Mask + d4 + y) == Mask + d4 + y
  {
    MaskKept(false, d4 + y);
    RunStep(false, d4, y);
    assert Mask + d4 + y == Mask + (d4 + y);
  }

  /** The step of `RedactIdempotent` over a leading non-digit. */
  lemma IdempotentChar(afterWord: bool, s: string)
    requires s != [] && !IsDigit(s[0])
    requires RedactFrom(IsWordChar(s[0]), RedactFrom(IsWordChar(s[0]), s[1..])) == RedactFrom(IsWordChar(s[0]), s[1..])
    ensures RedactFrom(afterWord, RedactFrom(afterWord, s)) == RedactFrom(afterWord, s)
  {
    assert s == [s[0]] + s[1..];
    CharStep(afterWord, s[0], s[1..]);
    CharStep(afterWord, s[0], RedactFrom(IsWordChar(s[0]), s[1..]));
  }

  /** `redact_account_number` applied twice is applied once. */
  lemma RedactAccountNumberIdempotent(text: string)
    ensures RedactAccountNumber(RedactAccountNumber(text)) == RedactAccountNumber(text)
  {
    RedactIdempotent(false, text);
  }

  /** An account number standing between non-word characters shows only its last four digits, and the
      text around it is redacted as if the number were not there. */
  lemma RedactAccount(a: string, d: string, b: string)
    requires a == [] || !IsWordChar(a[|a| - 1])
    requires |d| >= 10 && forall i :: 0 <= i < |d| ==> IsDigit(d[i])
    requires b == [] || !IsWordChar(b[0])
    ensures RedactAccountNumber(a + d + b) ==
      RedactAccountNumber(a) + Mask + d[|d| - 4..] + RedactFrom(true, b)
  {
    var d4 := d[|d| - 4..];
    calc {
      RedactAccountNumber(a + d + b);
      { Assoc(a, d, b); }
      RedactFrom(false, a + (d + b));
      { RedactAppend(false, a, d + b); }
      RedactFrom(false, a) + RedactFrom(false, d + b);
      { RedactRun(d, b); }
      RedactFrom(false, a) + (Mask + d4 + RedactFrom(true, b));
      RedactFrom(false, a) + Mask + d4 + RedactFrom(true, b);
    }
  }
}
