/**
 * Amount parsing: a cell value that is missing, a number, or text such as "1 234,56" or
 * "1,234.56". Spaces are removed, the comma and period separators are disambiguated into at most
 * one decimal point, and the rest is read as a decimal number; anything unreadable is 0.0.
 */
module Amounts {
  import opened Wrappers
  import opened Chars

  /** A spreadsheet cell: missing (NaN or None), a number, or text. */
  datatype AmountValue = Missing | Number(x: real) | Text(s: string)

  /** The no-break space U+00A0. */
  const Nbsp: char := 0xA0 as char

  // ---------------------------------------------------------------------------------------------
  // Sequence facts about counting, removing and replacing characters

  lemma {:induction false} CountAppend(a: string, b: string, c: char)
    ensures Count(a + b, c) == Count(a, c) + Count(b, c)
  {
    if a != [] {
      CountAppend(a[1..], b, c);
      assert (a + b)[1..] == a[1..] + b;
    } else {
      assert a + b == b;
    }
  }

  lemma {:induction false} RemoveAppend(a: string, b: string, c: char)
    ensures Remove(a + b, c) == Remove(a, c) + Remove(b, c)
  {
    if a != [] {
      var h := if a[0] == c then [] else [a[0]];
      assert (a + b)[1..] == a[1..] + b;
      assert Remove(a + b, c) == h + Remove(a[1..] + b, c);
      assert Remove(a, c) == h + Remove(a[1..], c);
      RemoveAppend(a[1..], b, c);
    } else {
      assert a + b == b;
    }
  }

  lemma {:induction false} RemoveAbsent(s: string, c: char)
    requires c !in s
    ensures Remove(s, c) == s
  {
    if s != [] {
      RemoveAbsent(s[1..], c);
    }
  }

  lemma ReplaceAppend(a: string, b: string, c: char, d: char)
    ensures Replace(a + b, c, d) == Replace(a, c, d) + Replace(b, c, d)
  {
    var l := Replace(a + b, c, d);
    var r := Replace(a, c, d) + Replace(b, c, d);
    forall i | 0 <= i < |l| ensures l[i] == r[i] {
      if i < |a| {
        assert (a + b)[i] == a[i];
      } else {
        assert (a + b)[i] == b[i - |a|];
      }
    }
  }

  lemma ReplaceAbsent(s: string, c: char, d: char)
    requires c !in s
    ensures Replace(s, c, d) == s
  {
  }

  /** A character that occurs once is absent on both sides of its occurrence. */
  lemma CountOnce(s: string, c: char, k: nat)
    requires k < |s| && s[k] == c && Count(s, c) == 1
    ensures c !in s[..k] && c !in s[k + 1..]
    ensures s == s[..k] + [c] + s[k + 1..]
  {
    assert s == s[..k] + ([c] + s[k + 1..]);
    CountAppend(s[..k], [c] + s[k + 1..], c);
    CountAppend([c], s[k + 1..], c);
  }

  // ---------------------------------------------------------------------------------------------
  // Cleaning and the separator rewrite

  /** `str(value).strip()` with the spaces and no-break spaces removed. */
  function Compact(t: string): (s: string)
    ensures ' ' !in s && Nbsp !in s
  {
    Remove(Remove(Strip(t), ' '), Nbsp)
  }

  /** `s.rindex(c)`: the last index holding `c`. */
  function LastIndex(s: string, c: char): (k: nat)
    requires c in s
    ensures k < |s| && s[k] == c && c !in s[k + 1..]
  {
    if s[|s| - 1] == c then |s| - 1
    else
      assert s == s[..|s| - 1] + [s[|s| - 1]];
      LastIndex(s[..|s| - 1], c)
  }

  /** Every comma and period deleted. */
  function RemoveSeps(s: string): (r: string)
    ensures ',' !in r && '.' !in r
  {
    Remove(Remove(s, ','), '.')
  }

  /** The separator rewrite before `float()`: repeated separators are all deleted; of one comma and
      one period the later is the decimal point; a lone comma is the decimal point when at most two
      characters follow it, and a thousands separator otherwise. */
  function Separate(s: string): string {
    if Count(s, ',') > 1 || Count(s, '.') > 1 then RemoveSeps(s)
    else if ',' in s && '.' in s then
      if LastIndex(s, ',') > LastIndex(s, '.') then Replace(Remove(s, '.'), ',', '.') else Remove(s, ',')
    else if ',' in s then
      var parts := SplitOn(s, ',');
      if |parts| == 2 && |parts[1]| <= 2 then Replace(s, ',', '.') else Remove(s, ',')
    else s
  }

  /** The text with every separator deleted except the one at `k`, which becomes a period. */
  function DecimalAt(s: string, k: nat): (r: string)
    requires k < |s|
    ensures ',' !in r && Count(r, '.') == 1
  {
    var r := RemoveSeps(s[..k]) + "." + RemoveSeps(s[k + 1..]);
    CountAppend(RemoveSeps(s[..k]) + ".", RemoveSeps(s[k + 1..]), '.');
    CountAppend(RemoveSeps(s[..k]), ".", '.');
    r
  }

  /** The index of the separator read as the decimal point: none when a separator repeats; the later
      of a single comma and a single period; a single comma with at most two characters after it; a
      single period. */
  function DecimalPoint(s: string): (p: Option<nat>)
    ensures p.Some? ==> p.value < |s| && (s[p.value] == ',' || s[p.value] == '.')
  {
    if Count(s, ',') > 1 || Count(s, '.') > 1 then None
    else if ',' in s && '.' in s then
      Some(if LastIndex(s, ',') > LastIndex(s, '.') then LastIndex(s, ',') else LastIndex(s, '.'))
    else if ',' in s then
      if |s| - LastIndex(s, ',') - 1 <= 2 then Some(LastIndex(s, ',')) else None
    else if '.' in s then Some(LastIndex(s, '.'))
    else None
  }

  /** `s.split(',')` of a text with one comma at `k`: the parts before and after it. */
  lemma SplitOnce(s: string, k: nat)
    requires k < |s| && s[k] == ',' && Count(s, ',') == 1
    ensures SplitOn(s, ',') == [s[..k], s[k + 1..]]
  {
    CountOnce(s, ',', k);
    var rest := s[k + 1..];
    SplitOnPrefix(rest, ',', []);
    assert rest + [] == rest;
    assert SplitOn(rest, ',') == [rest];
    assert ([','] + rest)[1..] == rest;
    SplitOnPrefix(s[..k], ',', [','] + rest);
    assert s[..k] + ([','] + rest) == s;
  }

  /** Deleting a character that is absent after a separator only affects the text before it. */
  lemma RemoveAround(pre: string, sep: char, post: string, x: char)
    requires sep != x && x !in post
    ensures Remove(pre + [sep] + post, x) == Remove(pre, x) + [sep] + post
  {
    RemoveAppend(pre + [sep], post, x);
    RemoveAppend(pre, [sep], x);
    RemoveAbsent(post, x);
    RemoveAbsent([sep], x);
  }

  /** Turning the one comma between comma-free parts into a period. */
  lemma ReplaceAround(m: string, post: string)
    requires ',' !in m && ',' !in post
    ensures Replace(m + [','] + post, ',', '.') == m + "." + post
  {
    ReplaceAppend(m + [','], post, ',', '.');
    ReplaceAppend(m, [','], ',', '.');
    ReplaceAbsent(m, ',', '.');
    ReplaceAbsent(post, ',', '.');
  }

  /** The decimal point at `k` when no comma precedes it and no separator follows it. */
  lemma DecimalAtClean(s: string, k: nat)
    requires k < |s| && ',' !in s[..k] && ',' !in s[k + 1..] && '.' !in s[k + 1..]
    ensures DecimalAt(s, k) == Remove(s[..k], '.') + "." + s[k + 1..]
  {
    RemoveAbsent(s[..k], ',');
    RemoveAbsent(s[k + 1..], ',');
    RemoveAbsent(s[k + 1..], '.');
  }

  /** The comma at `i` is the decimal point and the period before it is deleted. */
  lemma CommaLater(s: string, i: nat, j: nat)
    requires i < |s| && j < i && s[i] == ',' && s[j] == '.' && Count(s, ',') == 1 && Count(s, '.') == 1
    ensures Replace(Remove(s, '.'), ',', '.') == DecimalAt(s, i)
  {
    CountOnce(s, ',', i);
    CountOnce(s, '.', j);
    var pre, post := s[..i], s[i + 1..];
    assert '.' !in post by {
      assert post == s[j + 1..][i - j..];
    }
    var m := Remove(pre, '.');
    calc {
      Replace(Remove(s, '.'), ',', '.');
      { RemoveAround(pre, ',', post, '.'); }
      Replace(m + [','] + post, ',', '.');
      { ReplaceAround(m, post); }
      m + "." + post;
      { DecimalAtClean(s, i); }
      DecimalAt(s, i);
    }
  }

  /** The period at `j` is the decimal point and the comma before it is deleted. */
  lemma PeriodLater(s: string, i: nat, j: nat)
    requires j < |s| && i < j && s[i] == ',' && s[j] == '.' && Count(s, ',') == 1 && Count(s, '.') == 1
    ensures Remove(s, ',') == DecimalAt(s, j)
  {
    CountOnce(s, ',', i);
    CountOnce(s, '.', j);
    var pre, post := s[..j], s[j + 1..];
    assert ',' !in post by {
      assert post == s[i + 1..][j - i..];
    }
    RemoveAppend(pre + ['.'], post, ',');
    RemoveAppend(pre, ['.'], ',');
    RemoveAbsent(post, ',');
    RemoveAbsent(post, '.');
    assert Remove(['.'], ',') == ['.'];
    RemoveAbsent(Remove(pre, ','), '.');
  }

  /** A single comma at `k` with no period, read as the decimal point. */
  lemma LoneComma(s: string, k: nat)
    requires k < |s| && s[k] == ',' && Count(s, ',') == 1 && '.' !in s
    ensures Replace(s, ',', '.') == DecimalAt(s, k)
  {
    var pre, post := s[..k], s[k + 1..];
    assert ',' !in pre && ',' !in post by {
      CountOnce(s, ',', k);
    }
    assert '.' !in pre && '.' !in post;
    LoneCommaParts(s, k, pre, post);
  }

  lemma LoneCommaParts(s: string, k: nat, pre: string, post: string)
    requires k < |s| && s[k] == ',' && pre == s[..k] && post == s[k + 1..]
    requires ',' !in pre && ',' !in post && '.' !in pre && '.' !in post
    ensures Replace(s, ',', '.') == DecimalAt(s, k)
  {
    var r := pre + "." + post;
    assert DecimalAt(s, k) == r by {
      RemoveAbsent(pre, ',');
      RemoveAbsent(post, ',');
      RemoveAbsent(pre, '.');
      RemoveAbsent(post, '.');
    }
    assert Replace(s, ',', '.') == r by {
      forall i | 0 <= i < |s| ensures Replace(s, ',', '.')[i] == r[i] {
        if i < k {
          assert s[i] == pre[i] && r[i] == pre[i];
        } else if i > k {
          assert s[i] == post[i - k - 1] && r[i] == post[i - k - 1];
        }
      }
    }
  }

  /** Without a period, deleting the commas deletes every separator. */
  lemma NoPeriod(s: string)
    requires '.' !in s
    ensures Remove(s, ',') == RemoveSeps(s)
  {
    RemoveAbsent(Remove(s, ','), '.');
  }

  /** A single period at `k` with no comma: the text already has its decimal point. */
  lemma LonePeriod(s: string, k: nat)
    requires k < |s| && s[k] == '.' && Count(s, '.') == 1 && ',' !in s
    ensures s == DecimalAt(s, k)
  {
    CountOnce(s, '.', k);
    var pre, post := s[..k], s[k + 1..];
    RemoveAbsent(pre, ',');
    RemoveAbsent(post, ',');
    RemoveAbsent(pre, '.');
    RemoveAbsent(post, '.');
  }

  /** The rewrite deletes every separator except the decimal point, which becomes a period. */
  lemma SeparateSpec(s: string)
    ensures Separate(s) == if DecimalPoint(s).None? then RemoveSeps(s) else DecimalAt(s, DecimalPoint(s).value)
  {
    if Count(s, ',') > 1 || Count(s, '.') > 1 {
    } else if ',' in s && '.' in s {
      var i, j := LastIndex(s, ','), LastIndex(s, '.');
      if i > j {
        CommaLater(s, i, j);
      } else {
        PeriodLater(s, i, j);
      }
    } else if ',' in s {
      var k := LastIndex(s, ',');
      SplitOnce(s, k);
      LoneComma(s, k);
      NoPeriod(s);
    } else if '.' in s {
      LonePeriod(s, LastIndex(s, '.'));
    } else {
      RemoveAbsent(s, ',');
      RemoveAbsent(s, '.');
    }
  }

  /** The rewritten text has no comma and at most one period. */
  lemma SeparateShape(s: string)
    ensures ',' !in Separate(s) && Count(Separate(s), '.') <= 1
  {
    SeparateSpec(s);
  }

  // ---------------------------------------------------------------------------------------------
  // float() on a restricted grammar

  predicate AllDigits(s: string) {
    forall i :: 0 <= i < |s| ==> IsDigit(s[i])
  }

  /** The number a string of decimal digits denotes. */
  function DigitsValue(s: string): nat
    requires AllDigits(s)
  {
    if s == [] then 0 else DigitsValue(s[..|s| - 1]) * 10 + (s[|s| - 1] as int - '0' as int)
  }

  function Pow10(n: nat): (p: nat)
    ensures p >= 1
  {
    if n == 0 then 1 else 10 * Pow10(n - 1)
  }

  /** Where the whole part ends: the index of the period, or the length when there is none. */
  function PointIndex(body: string): (k: nat)
    ensures k <= |body|
    ensures k < |body| ==> body[k] == '.' && '.' !in body[k + 1..]
    ensures k == |body| ==> '.' !in body
  {
    if '.' in body then LastIndex(body, '.') else |body|
  }

  /** The value of a whole part and a fraction part: `whole.frac`. */
  function Magnitude(whole: string, frac: string): (x: real)
    requires AllDigits(whole) && AllDigits(frac)
    ensures x >= DigitsValue(whole) as real
  {
    DigitsValue(whole) as real + DigitsValue(frac) as real / Pow10(|frac|) as real
  }

  /** An unsigned `digits [. digits]` with at least one digit. */
  function ParseUnsigned(body: string): (r: Option<real>)
    ensures r.Some? ==> r.value >= 0.0
  {
    var k := PointIndex(body);
    var whole := body[..k];
    var frac := if k < |body| then body[k + 1..] else [];
    if AllDigits(whole) && AllDigits(frac) && |whole| + |frac| > 0 then Some(Magnitude(whole, frac)) else None
  }

  /** `float()` on `[+|-] digits [. digits]` with at least one digit; anything else is rejected. */
  function ParseDecimal(s: string): (r: Option<real>)
  {
    if s != [] && s[0] == '-' then
      match ParseUnsigned(s[1..])
      case None => None
      case Some(x) => Some(-x)
    else if s != [] && s[0] == '+' then ParseUnsigned(s[1..])
    else ParseUnsigned(s)
  }

  /** The decimal digits of `n`, without leading zeros (a single "0" for zero). */
  function ShowNat(n: nat): (s: string)
    ensures s != [] && AllDigits(s)
  {
    if n < 10 then [('0' as int + n) as char] else ShowNat(n / 10) + [('0' as int + n % 10) as char]
  }

  lemma {:induction false} DigitsShow(n: nat)
    ensures DigitsValue(ShowNat(n)) == n
  {
    if n >= 10 {
      DigitsShow(n / 10);
      var s := ShowNat(n);
      assert s[..|s| - 1] == ShowNat(n / 10);
    }
  }

  /** Digits alone read as a whole number. */
  lemma ParseWhole(a: string)
    requires AllDigits(a) && a != []
    ensures ParseDecimal(a) == Some(DigitsValue(a) as real)
  {
    assert '.' !in a;
    assert a[..|a|] == a;
    assert IsDigit(a[0]);
    assert Magnitude(a, []) == DigitsValue(a) as real;
  }

  /** Reading the digits of a whole number, signed or not, gives the number back. */
  lemma ParseShow(n: nat)
    ensures ParseDecimal(ShowNat(n)) == Some(n as real)
    ensures ParseDecimal("-" + ShowNat(n)) == Some(-(n as real))
  {
    var s := ShowNat(n);
    DigitsShow(n);
    ParseWhole(s);
    assert ("-" + s)[1..] == s;
  }

  /** The last occurrence is the one with none after it. */
  lemma LastIndexAt(s: string, c: char, k: nat)
    requires k < |s| && s[k] == c && c !in s[k + 1..]
    ensures LastIndex(s, c) == k
  {
  }

  /** Digits, a period and digits read as the whole part plus the fraction. */
  lemma ParsePoint(a: string, b: string)
    requires AllDigits(a) && AllDigits(b) && |a| + |b| > 0
    ensures ParseDecimal(a + "." + b) == Some(Magnitude(a, b))
  {
    var s := a + "." + b;
    assert s[..|a|] == a && s[|a| + 1..] == b && s[|a|] == '.';
    assert PointIndex(s) == |a| by {
      assert '.' !in b;
      LastIndexAt(s, '.', |a|);
    }
    assert ParseUnsigned(s) == Some(Magnitude(a, b));
    assert s[0] != '+' && s[0] != '-' by {
      if |a| > 0 {
        assert s[0] == a[0] && IsDigit(a[0]);
      }
    }
  }

  // ---------------------------------------------------------------------------------------------
  // normalize_amount

  /** `normalize_amount` (and `_parse_amount`, the same code): missing is 0.0, a number is itself,
      text is cleaned, rewritten and read, with 0.0 when it cannot be read. */
  function NormalizeAmount(v: AmountValue): real {
    match v
    case Missing => 0.0
    case Number(x) => x
    case Text(t) =>
      var s := Compact(t);
      if s == [] then 0.0
      else
        match ParseDecimal(Separate(s))
        case None => 0.0
        case Some(x) => x
  }

  /** Missing is 0.0, a number is unchanged, and text of spaces only is 0.0. */
  lemma AmountCases(v: AmountValue)
    ensures v.Missing? ==> NormalizeAmount(v) == 0.0
    ensures v.Number? ==> NormalizeAmount(v) == v.x
    ensures v.Text? && AllSpace(v.s) ==> NormalizeAmount(v) == 0.0
  {
    if v.Text? && AllSpace(v.s) {
      StripEmpty(v.s);
    }
  }

  /** With a decimal point the amount is the digits before it plus the digits after it as a fraction,
      every other separator and space ignored. */
  lemma AmountWithPoint(t: string)
    requires var s := Compact(t);
      DecimalPoint(s).Some?
      && AllDigits(RemoveSeps(s[..DecimalPoint(s).value]))
      && AllDigits(RemoveSeps(s[DecimalPoint(s).value + 1..]))
      && |RemoveSeps(s[..DecimalPoint(s).value])| + |RemoveSeps(s[DecimalPoint(s).value + 1..])| > 0
    ensures var s := Compact(t); var k := DecimalPoint(s).value;
      var a, b := RemoveSeps(s[..k]), RemoveSeps(s[k + 1..]);
      NormalizeAmount(Text(t)) == Magnitude(a, b)
  {
    var s := Compact(t);
    var k := DecimalPoint(s).value;
    SeparateSpec(s);
    ParsePoint(RemoveSeps(s[..k]), RemoveSeps(s[k + 1..]));
  }

  /** Without a decimal point the amount is the whole number its digits spell, every separator and
      space ignored. */
  lemma AmountWithoutPoint(t: string)
    requires var s := Compact(t);
      DecimalPoint(s).None? && AllDigits(RemoveSeps(s)) && RemoveSeps(s) != []
    ensures NormalizeAmount(Text(t)) == DigitsValue(RemoveSeps(Compact(t))) as real
  {
    var s := Compact(t);
    SeparateSpec(s);
    ParseWhole(RemoveSeps(s));
  }
}
