/**
 * The geocoding helpers: input validation, country-code validation, the country taken from a
 * SWIFT/BIC code, the per-service rate limiter and the geocoding result cache. The HTTP request is
 * not modelled: its reply is a parameter, and so are the clock readings.
 */
module WebResearch {
  import opened Wrappers
  import opened Chars
  import BankQuery
  import SwiftHandler

  // ---------------------------------------------------------------------------------------------
  // validate_input

  /** The characters the control filter deletes: U+0000-U+0008, U+000B, U+000C, U+000E-U+001F and
      U+007F. Tab, line feed and carriage return are kept. */
  predicate IsControl(c: char) {
    c as int <= 8 || c as int == 11 || c as int == 12 || (14 <= c as int <= 31) || c as int == 127
  }

  predicate NoControl(s: string) {
    forall i :: 0 <= i < |s| ==> !IsControl(s[i])
  }

  /** The substitution that deletes every control character. */
  function DropControl(s: string): (r: string)
    ensures |r| <= |s|
    ensures NoControl(r)
    ensures NoControl(s) ==> r == s
  {
    if s == [] then []
    else (if IsControl(s[0]) then [] else [s[0]]) + DropControl(s[1..])
  }

  /** Every character is whitespace or a control character. */
  predicate SpaceOrControl(s: string) {
    forall i :: 0 <= i < |s| ==> IsSpace(s[i]) || IsControl(s[i])
  }

  lemma SpaceOrControlCons(s: string)
    requires s != []
    ensures SpaceOrControl(s) <==> (IsSpace(s[0]) || IsControl(s[0])) && SpaceOrControl(s[1..])
  {
    if SpaceOrControl(s) {
      forall i | 0 <= i < |s| - 1 ensures IsSpace(s[1..][i]) || IsControl(s[1..][i]) {
        assert s[1..][i] == s[i + 1];
      }
    }
    if (IsSpace(s[0]) || IsControl(s[0])) && SpaceOrControl(s[1..]) {
      forall i | 1 <= i < |s| ensures IsSpace(s[i]) || IsControl(s[i]) {
        assert s[i] == s[1..][i - 1];
      }
    }
  }

  /** What is left after deleting the control characters is whitespace exactly when every character
      was whitespace or a control character. */
  lemma {:induction false} DropControlAllSpace(s: string)
    ensures AllSpace(DropControl(s)) <==> SpaceOrControl(s)
  {
    if s != [] {
      DropControlAllSpace(s[1..]);
      var d := DropControl(s[1..]);
      if IsControl(s[0]) {
        assert DropControl(s) == d;
      } else {
        assert DropControl(s) == [s[0]] + d;
        AllSpaceCons(s[0], d);
      }
      SpaceOrControlCons(s);
    }
  }

  /** A slice of a string without control characters has none either. */
  lemma NoControlSlice(s: string, a: nat, b: nat)
    requires a <= b <= |s|
    ensures NoControl(s) ==> NoControl(s[a..b])
  {
    if NoControl(s) {
      forall i | 0 <= i < b - a ensures !IsControl(s[a..b][i]) {
        assert s[a..b][i] == s[a + i];
      }
    }
  }

  /** The value with its control characters deleted, then stripped. */
  function Cleaned(s: string): (r: string)
    ensures r == [] || !IsSpace(r[0])
    ensures NoControl(r)
  {
    var d := DropControl(s);
    NoControlSlice(d, |d| - |LStrip(d)|, |d| - |LStrip(d)| + |Strip(d)|);
    Strip(d)
  }

  /** Cleaning leaves nothing exactly when the value holds only whitespace and control characters. */
  lemma CleanedEmpty(s: string)
    ensures Cleaned(s) == [] <==> forall i :: 0 <= i < |s| ==> IsSpace(s[i]) || IsControl(s[i])
  {
    DropControlAllSpace(s);
    StripEmpty(DropControl(s));
  }

  /** A value without control characters or edge whitespace is already clean. */
  lemma CleanedClean(s: string)
    requires NoControl(s) && BankQuery.Stripped(s)
    ensures Cleaned(s) == s
  {
    assert DropControl(s) == s;
    StripNoEdges(s);
  }

  /** A cut of a string to at least its length leaves it whole. */
  lemma TakeAll(s: string, n: int)
    requires |s| <= n
    ensures Take(s, n) == s
  {
  }

  /** `validate_input` on a string value; `None` stands for a falsy one. */
  function ValidateInput(value: Option<string>, maxLength: int): (r: Option<string>)
    ensures r.Some? ==> r.value != [] && !IsSpace(r.value[0]) && NoControl(r.value)
    ensures r.Some? && maxLength >= 0 ==> |r.value| <= maxLength
    ensures r.Some? ==> value.Some? && IsPrefix(r.value, Cleaned(value.value))
  {
    if !Truthy(value) then None
    else
      var s := Cleaned(value.value);
      NoControlSlice(s, 0, SliceEnd(|s|, maxLength));
      var v := Take(s, maxLength);
      if v == [] then None else Some(v)
  }

  /** For a positive limit the value is rejected exactly when it is falsy or holds nothing but
      whitespace and control characters; a zero limit rejects everything. */
  lemma ValidateInputNone(value: Option<string>, maxLength: int)
    ensures maxLength > 0 ==>
      (ValidateInput(value, maxLength).None? <==>
         !Truthy(value) || forall i :: 0 <= i < |value.value| ==> IsSpace(value.value[i]) || IsControl(value.value[i]))
    ensures maxLength == 0 ==> ValidateInput(value, maxLength).None?
  {
    if Truthy(value) {
      var c := Cleaned(value.value);
      CleanedEmpty(value.value);
      TakeEmpty(c, maxLength);
      ValidateInputSome(value.value, maxLength);
    }
  }

  /** A cut to a positive length is empty only for an empty string; a cut to zero is always empty. */
  lemma TakeEmpty(s: string, n: int)
    ensures n > 0 ==> (Take(s, n) == [] <==> s == [])
    ensures n == 0 ==> Take(s, n) == []
  {
    if n > 0 && s != [] {
      assert |Take(s, n)| == SliceEnd(|s|, n) > 0;
    }
  }

  /** A non-empty string is validated by cutting its cleaned form. */
  lemma ValidateInputSome(s: string, maxLength: int)
    requires s != []
    ensures var v := Take(Cleaned(s), maxLength);
      ValidateInput(Some(s), maxLength) == if v == [] then None else Some(v)
  {
  }

  /** A clean value (no control characters, no edge whitespace, within the limit) passes unchanged. */
  lemma ValidateInputClean(s: string, maxLength: int)
    requires s != [] && NoControl(s) && BankQuery.Stripped(s) && |s| <= maxLength
    ensures ValidateInput(Some(s), maxLength) == Some(s)
  {
    CleanedClean(s);
    TakeAll(s, maxLength);
  }

  /** A string with a non-space first character strips to its right strip, which is not empty. */
  lemma StripFromWord(v: string)
    requires v != [] && !IsSpace(v[0])
    ensures Strip(v) == RStrip(v) && RStrip(v) != []
  {
    assert LStrip(v) == v;
  }

  /** Validating twice with the same limit strips the trailing whitespace the first cut may leave:
      `validate_input` is not idempotent. */
  lemma ValidateInputTwice(value: Option<string>, maxLength: int)
    requires maxLength >= 0
    ensures var r := ValidateInput(value, maxLength);
      ValidateInput(r, maxLength) == if r.None? then None else Some(RStrip(r.value))
  {
    var r := ValidateInput(value, maxLength);
    if r.Some? {
      var v := r.value;
      assert DropControl(v) == v;
      StripFromWord(v);
      assert Cleaned(v) == RStrip(v);
      TakeAll(RStrip(v), maxLength);
    }
  }

  /** A clean value is only cut to the limit. */
  lemma ValidateInputCut(s: string, maxLength: int)
    requires s != [] && NoControl(s) && BankQuery.Stripped(s) && maxLength > 0
    ensures ValidateInput(Some(s), maxLength) == Some(Take(s, maxLength))
  {
    CleanedClean(s);
    TakeEmpty(s, maxLength);
    ValidateInputSome(s, maxLength);
  }

  /** The cut comes after the strip, so it can leave a trailing space: "ab cd" within 3 characters
      is "ab ". */
  lemma ValidateInputTrailingSpace(s: string, maxLength: int)
    requires NoControl(s) && BankQuery.Stripped(s) && 0 < maxLength < |s| && IsSpace(s[maxLength - 1])
    ensures ValidateInput(Some(s), maxLength) == Some(s[..maxLength])
    ensures IsSpace(ValidateInput(Some(s), maxLength).value[maxLength - 1])
  {
    ValidateInputCut(s, maxLength);
  }

  /** ... and a second validation of such a result strips that space ("ab cd" within 3 characters
      gives "ab " and then "ab"), so `validate_input` is not idempotent. */
  lemma ValidateInputNotIdempotent(s: string, maxLength: int)
    requires NoControl(s) && BankQuery.Stripped(s) && 0 < maxLength < |s| && IsSpace(s[maxLength - 1])
    ensures ValidateInput(ValidateInput(Some(s), maxLength), maxLength) == Some(RStrip(s[..maxLength]))
    ensures RStrip(s[..maxLength]) != s[..maxLength]
  {
    assert RStrip(s[..maxLength]) != s[..maxLength] by {
      assert s[..maxLength][maxLength - 1] == s[maxLength - 1];
      EndsInSpaceRStrip(s[..maxLength]);
    }
    ValidateInputTrailingSpace(s, maxLength);
    RevalidateCut(s, maxLength);
    ValidateTwice(s, maxLength, s[..maxLength], RStrip(s[..maxLength]));
  }

  lemma ValidateTwice(s: string, maxLength: int, t: string, u: string)
    requires ValidateInput(Some(s), maxLength) == Some(t) && ValidateInput(Some(t), maxLength) == Some(u)
    ensures ValidateInput(ValidateInput(Some(s), maxLength), maxLength) == Some(u)
  {
  }

  /** Validating the cut prefix again strips its trailing whitespace. */
  lemma RevalidateCut(s: string, maxLength: int)
    requires NoControl(s) && BankQuery.Stripped(s) && 0 < maxLength < |s|
    ensures ValidateInput(Some(s[..maxLength]), maxLength) == Some(RStrip(s[..maxLength]))
  {
    var t := s[..maxLength];
    NoControlSlice(s, 0, maxLength);
    assert t[0] == s[0];
    StripFromWord(t);
    ValidateInputStrip(t, maxLength);
  }

  /** A text that ends in whitespace is changed by `rstrip`. */
  lemma EndsInSpaceRStrip(t: string)
    requires t != [] && IsSpace(t[|t| - 1])
    ensures RStrip(t) != t
  {
  }

  // ---------------------------------------------------------------------------------------------
  // validate_country_code

  /** Two upper-case letters. */
  predicate CountryCode(c: string) {
    |c| == 2 && IsUpper(c[0]) && IsUpper(c[1])
  }

  /** `validate_country_code`: the stripped, upper-cased code when it is exactly two letters. */
  function ValidateCountryCode(code: Option<string>): (r: Option<string>)
    ensures r.Some? ==> CountryCode(r.value)
  {
    if !Truthy(code) then None
    else
      var c := Upper(Strip(code.value));
      if |c| == 2 && IsAlphaStr(c) then Some(c) else None
  }

  /** A code is accepted exactly when it strips to two letters, and the result is those letters upper-cased. */
  lemma ValidateCountryCodeIff(code: Option<string>)
    ensures ValidateCountryCode(code).Some? <==>
      Truthy(code) && |Strip(code.value)| == 2 && IsAlphaStr(Strip(code.value))
    ensures ValidateCountryCode(code).Some? ==> ValidateCountryCode(code).value == Upper(Strip(code.value))
  {
    if Truthy(code) {
      var s := Strip(code.value);
      var c := Upper(s);
      if |s| == 2 {
        assert IsAlpha(c[0]) == IsAlpha(s[0]) && IsAlpha(c[1]) == IsAlpha(s[1]);
        assert IsAlphaStr(c) <==> IsAlpha(c[0]) && IsAlpha(c[1]);
        assert IsAlphaStr(s) <==> IsAlpha(s[0]) && IsAlpha(s[1]);
      }
    }
  }

  /** An upper-case two-letter code is letters, has no edge whitespace and is its own upper case. */
  lemma CountryCodeShape(c: string)
    requires CountryCode(c)
    ensures IsAlphaStr(c) && Upper(c) == c && !IsSpace(c[0]) && !IsSpace(c[1])
  {
    assert forall i :: 0 <= i < 2 ==> IsAlpha(c[i]);
    assert Upper(c)[0] == c[0] && Upper(c)[1] == c[1];
  }

  /** An upper-case two-letter code is its own validation. */
  lemma CountryCodeFixed(c: string)
    requires CountryCode(c)
    ensures ValidateCountryCode(Some(c)) == Some(c)
  {
    CountryCodeShape(c);
    StripNoEdges(c);
  }

  /** Validation is idempotent. */
  lemma ValidateCountryCodeIdempotent(code: Option<string>)
    ensures var r := ValidateCountryCode(code);
      ValidateCountryCode(r) == r
  {
    var r := ValidateCountryCode(code);
    if r.Some? {
      CountryCodeFixed(r.value);
    }
  }

  // ---------------------------------------------------------------------------------------------
  // extract_swift_country_code

  /** `extract_swift_country_code`: the input is validated and cut to 11 characters before the 8/11
      length check, then characters 4-5 are validated as a country code. */
  function ExtractSwiftCountryCode(swift: Option<string>): (r: Option<string>)
    ensures r.Some? ==> CountryCode(r.value)
  {
    var v := ValidateInput(swift, 11);
    if v.None? then None
    else
      var u := Upper(v.value);
      if |u| != 8 && |u| != 11 then None
      else ValidateCountryCode(Some(u[4..6]))
  }

  /** A letter pair, upper-cased, is a country code. */
  lemma UpperPair(s: string)
    requires |s| == 2 && IsAlpha(s[0]) && IsAlpha(s[1])
    ensures CountryCode(Upper(s))
  {
    assert Upper(s)[0] == UpperChar(s[0]) && Upper(s)[1] == UpperChar(s[1]);
  }

  /** Upper-casing commutes with slicing. */
  lemma UpperSlice(s: string, a: nat, b: nat)
    requires a <= b <= |s|
    ensures Upper(s)[a..b] == Upper(s[a..b])
  {
    var u, t := Upper(s), s[a..b];
    var v := Upper(t);
    forall i | 0 <= i < b - a
      ensures u[a..b][i] == v[i]
    {
      assert u[a..b][i] == u[a + i] == UpperChar(s[a + i]);
      assert v[i] == UpperChar(t[i]) && t[i] == s[a + i];
    }
    assert u[a..b] == v;
  }

  /** Characters 4-5 of an upper-cased code, when they are letters, are a country code. */
  lemma UpperPairAt(s: string)
    requires |s| >= 6 && IsAlphaStr(Upper(s)[4..6])
    ensures CountryCode(Upper(s)[4..6])
  {
    var u := Upper(s);
    var q := u[4..6];
    assert q[0] == u[4] && q[1] == u[5];
    UpperLetterAt(s, 4);
    UpperLetterAt(s, 5);
  }

  /** A letter of an upper-cased text is an upper-case letter. */
  lemma UpperLetterAt(s: string, i: nat)
    requires i < |s| && IsAlpha(Upper(s)[i])
    ensures IsUpper(Upper(s)[i])
  {
    assert Upper(s)[i] == UpperChar(s[i]);
  }

  /** A value without control characters whose strip fits the limit validates to its strip. */
  lemma ValidateInputStrip(v: string, maxLength: int)
    requires NoControl(v) && Strip(v) != [] && |Strip(v)| <= maxLength
    ensures ValidateInput(Some(v), maxLength) == Some(Strip(v))
  {
    assert DropControl(v) == v;
    assert Cleaned(v) == Strip(v);
    TakeAll(Strip(v), maxLength);
  }

  /** On a well-formed code without control characters this agrees with the SWIFT handler: the
      result is characters 4-5 of the stripped, upper-cased code. */
  lemma ExtractAgreesWithHandler(swift: Option<string>, offshore: map<string, string>)
    requires Truthy(swift) && NoControl(swift.value)
    requires SwiftHandler.WellFormed(SwiftHandler.Clean(swift.value))
    ensures ExtractSwiftCountryCode(swift) == Some(SwiftHandler.Clean(swift.value)[4..6])
    ensures SwiftHandler.ExtractSwiftCountry(swift, offshore).Some?
    ensures ExtractSwiftCountryCode(swift) == Some(SwiftHandler.ExtractSwiftCountry(swift, offshore).value.code)
  {
    var s := Strip(swift.value);
    var u := Upper(s);
    assert u == SwiftHandler.Clean(swift.value);
    assert ExtractSwiftCountryCode(swift) == Some(u[4..6]) by {
      assert |u| == |s|;
      ValidateInputStrip(swift.value, 11);
      UpperPairAt(s);
      CountryCodeFixed(u[4..6]);
    }
    SwiftHandler.ExtractSwiftCountryCases(swift, offshore);
  }

  /** Unlike the SWIFT handler, a code longer than 11 characters is cut to 11 and accepted. */
  lemma ExtractAcceptsLonger(s: string, offshore: map<string, string>)
    requires |s| > 11 && NoControl(s) && NoSpace(s) && IsAlpha(s[4]) && IsAlpha(s[5])
    ensures ExtractSwiftCountryCode(Some(s)) == Some(Upper(s[4..6]))
    ensures SwiftHandler.ExtractSwiftCountry(Some(s), offshore) == None
  {
    LongerCut(s);
    assert Strip(s) == s by {
      StripNoEdges(s);
    }
    assert |SwiftHandler.Clean(s)| == |s|;
  }

  /** The code cut to 11 characters keeps its country pair. */
  lemma LongerCut(s: string)
    requires |s| > 11 && NoControl(s) && NoSpace(s) && IsAlpha(s[4]) && IsAlpha(s[5])
    ensures ExtractSwiftCountryCode(Some(s)) == Some(Upper(s[4..6]))
  {
    assert BankQuery.Stripped(s);
    ValidateInputCut(s, 11);
    CutPair(s);
    PairValid(s);
    ExtractThrough(s, s[..11], Upper(s[4..6]));
  }

  /** Cutting to 11 characters keeps characters 4 and 5. */
  lemma CutPair(s: string)
    requires |s| > 11
    ensures Upper(s[..11])[4..6] == Upper(s[4..6])
  {
    assert s[..11][4..6] == s[4..6];
    UpperSlice(s[..11], 4, 6);
  }

  /** Two letters at 4 and 5 give a valid country code once upper-cased. */
  lemma PairValid(s: string)
    requires |s| >= 6 && IsAlpha(s[4]) && IsAlpha(s[5])
    ensures ValidateCountryCode(Some(Upper(s[4..6]))) == Some(Upper(s[4..6]))
  {
    assert s[4..6][0] == s[4] && s[4..6][1] == s[5];
    UpperPair(s[4..6]);
    CountryCodeFixed(Upper(s[4..6]));
  }

  /** The code extracted from a value is the country pair of its validated form. */
  lemma ExtractThrough(s: string, v: string, c: string)
    requires ValidateInput(Some(s), 11) == Some(v) && |v| == 11
    requires Upper(v)[4..6] == c && ValidateCountryCode(Some(c)) == Some(c)
    ensures ExtractSwiftCountryCode(Some(s)) == Some(c)
  {
  }

  // ---------------------------------------------------------------------------------------------
  // async_rate_limit

  /** The sleep before a request: the part of the minimum interval not yet elapsed since the last one. */
  function Wait(last: real, now: real, minInterval: real): (d: real)
    ensures d >= 0.0
    ensures now + d >= last + minInterval
    ensures d == 0.0 || now + d == last + minInterval
  {
    var elapsed := now - last;
    if elapsed < minInterval then minInterval - elapsed else 0.0
  }

  /** The sleep is the shortest one that keeps the interval, and none at all once it has elapsed. */
  lemma WaitLeast(last: real, now: real, minInterval: real, e: real)
    requires e >= 0.0 && now + e >= last + minInterval
    ensures Wait(last, now, minInterval) <= e
    ensures now - last >= minInterval ==> Wait(last, now, minInterval) == 0.0
  {
  }

  /** Dispatch times each at least `gap` after the one before, the first `gap` after time zero. */
  predicate Spaced(ts: seq<real>, gap: real) {
    (ts != [] ==> ts[0] >= gap) && forall i :: 1 <= i < |ts| ==> ts[i - 1] + gap <= ts[i]
  }

  /** `_last_request_time`, with the dispatch times it has recorded per service. */
  class RateLimiter {
    /** The interval every request of this limiter waits for. */
    const minInterval: real
    var lastRequest: map<string, real>
    ghost var dispatches: map<string, seq<real>>

    ghost predicate Valid()
      reads this
    {
      dispatches.Keys == lastRequest.Keys
      && forall s :: s in dispatches ==>
           dispatches[s] != [] && dispatches[s][|dispatches[s]| - 1] == lastRequest[s] && Spaced(dispatches[s], minInterval)
    }

    constructor (minInterval: real)
      ensures Valid() && this.minInterval == minInterval && lastRequest == map[]
    {
      this.minInterval := minInterval;
      lastRequest := map[];
      dispatches := map[];
    }

    /** `_last_request_time.get(service, 0.0)`. */
    function LastTime(service: string): real
      reads this
    {
      if service in lastRequest then lastRequest[service] else 0.0
    }

    ghost function History(service: string): seq<real>
      reads this
    {
      if service in dispatches then dispatches[service] else []
    }

    /** `async_rate_limit`: `now` is the clock read before the sleep and `later` the one after it, so
        `later` is at least `now` plus the sleep. Records `later` as the service's dispatch time. */
    method Acquire(service: string, now: real, later: real) returns (sleep: real)
      requires Valid()
      requires later >= now + Wait(LastTime(service), now, minInterval)
      modifies this
      ensures Valid()
      ensures sleep == Wait(old(LastTime(service)), now, minInterval)
      ensures lastRequest == old(lastRequest)[service := later]
      ensures later >= old(LastTime(service)) + minInterval
      ensures dispatches == old(dispatches)[service := old(History(service)) + [later]]
    {
      var last := if service in lastRequest then lastRequest[service] else 0.0;
      var elapsed := now - last;
      sleep := 0.0;
      if elapsed < minInterval {
        sleep := minInterval - elapsed;
      }
      var h := History(service);
      lastRequest := lastRequest[service := later];
      dispatches := dispatches[service := h + [later]];
    }
  }

  // ---------------------------------------------------------------------------------------------
  // The geocoding cache

  /** `(normalised query, validated country code)`. */
  type Key = (string, Option<string>)

  predicate DistinctKeys(order: seq<Key>) {
    forall i, j :: 0 <= i < j < |order| ==> order[i] != order[j]
  }

  /** Whether storing into a cache holding `order` first deletes its oldest key. */
  predicate Evicts(order: seq<Key>, capacity: int) {
    |order| >= capacity && order != []
  }

  /** Whether storing fails: the cache is at capacity with nothing to delete, so taking the oldest
      key raises. */
  predicate StoreFails(order: seq<Key>, capacity: int) {
    |order| >= capacity && order == []
  }

  /** The insertion order after storing `key`. */
  function StoredOrder(order: seq<Key>, capacity: int, key: Key): seq<Key> {
    var kept := if Evicts(order, capacity) then order[1..] else order;
    if key in kept then kept else kept + [key]
  }

  /** Storing keeps the keys distinct and within capacity; the stored key is present, and so is every
      earlier key except the oldest when the cache was full. */
  lemma StoredOrderFacts(order: seq<Key>, capacity: int, key: Key)
    requires DistinctKeys(order) && |order| <= capacity && capacity >= 1
    ensures var r := StoredOrder(order, capacity, key);
      DistinctKeys(r) && |r| <= capacity && key in r
      && forall k :: k in r <==> k == key || (k in order && !(Evicts(order, capacity) && k == order[0]))
  {
    var kept := if Evicts(order, capacity) then order[1..] else order;
    assert forall k :: k in kept <==> k in order && !(Evicts(order, capacity) && k == order[0]) by {
      if Evicts(order, capacity) {
        forall k | k in order && k != order[0] ensures k in kept {
          var i :| 0 <= i < |order| && order[i] == k;
          assert kept[i - 1] == k;
        }
        forall k | k in kept ensures k != order[0] {
          var i :| 0 <= i < |kept| && kept[i] == k;
          assert order[i + 1] == k;
        }
      }
    }
    assert DistinctKeys(kept) by {
      if Evicts(order, capacity) {
        forall i, j | 0 <= i < j < |kept| ensures kept[i] != kept[j] {
          assert kept[i] == order[i + 1] && kept[j] == order[j + 1];
        }
      }
    }
  }

  /** `_geocoding_cache`: a dictionary from key to result whose iteration order is insertion order. */
  class GeocodeCache<R> {
    /** The configured maximum number of entries. */
    const capacity: int
    var entries: map<Key, R>
    /** The keys in insertion order, oldest first. */
    var order: seq<Key>

    ghost predicate Valid()
      reads this
    {
      (forall k :: k in entries <==> k in order) && DistinctKeys(order) && (|order| <= capacity || order == [])
    }

    constructor (capacity: int)
      ensures Valid() && this.capacity == capacity && entries == map[] && order == []
    {
      this.capacity := capacity;
      entries := map[];
      order := [];
    }

    /** A cache lookup; it changes nothing, so reads never reorder the keys. */
    function Get(key: Key): (r: Option<R>)
      reads this
      ensures r.Some? <==> key in entries
    {
      if key in entries then Some(entries[key]) else None
    }

    /** The store of `geocode_bank_async`: at capacity the oldest key is deleted first; with nothing to
        delete the store fails and the cache is unchanged. */
    method Store(key: Key, value: R) returns (ok: bool)
      requires Valid()
      modifies this
      ensures Valid()
      ensures ok <==> !StoreFails(old(order), capacity)
      ensures ok <==> capacity >= 1
      ensures !ok ==> entries == old(entries) && order == old(order)
      ensures ok ==> order == StoredOrder(old(order), capacity, key)
      ensures ok ==>
                entries == (if Evicts(old(order), capacity) then old(entries) - {old(order)[0]} else old(entries))[key := value]
      ensures ok ==> Get(key) == Some(value) && |order| <= capacity
    {
      if |order| >= capacity {
        if order == [] {
          return false;
        }
        entries := entries - {order[0]};
        StoredOrderFacts(order, capacity, key);
        order := order[1..];
      } else {
        StoredOrderFacts(order, capacity, key);
      }
      if key !in order {
        order := order + [key];
      }
      entries := entries[key := value];
      ok := true;
    }
  }

  // ---------------------------------------------------------------------------------------------
  // geocode_bank_async

  /** The reply to the geocoding request: a body with its announced length, if any, or an HTTP error,
      timeout or other failure. */
  datatype Reply<R> = Reply(contentLength: Option<nat>, body: R) | Failure

  /** The reply is used unless it failed or announces a non-zero length above the maximum. */
  predicate Accepted<R>(reply: Reply<R>, maxResponseSize: int) {
    reply.Reply? && !(reply.contentLength.Some? && reply.contentLength.value != 0 && reply.contentLength.value > maxResponseSize)
  }

  /** The rate-limiter service name of the geocoding requests. */
  const Geocode := "geocode"

  /** The cache key of a validated bank name: its normalised query, or its first 80 characters when
      that is empty, with the validated country code. */
  function CacheKey(name: string, swiftCountryCode: Option<string>): (k: Key)
    requires name != [] && !IsSpace(name[0])
    ensures 0 < |k.0| <= 100
    ensures k.1 == ValidateCountryCode(swiftCountryCode)
  {
    BankQuery.NormalizeShape(Some(name));
    var q := BankQuery.NormalizeBankQuery(Some(name));
    (if q == [] then Take(name, 80) else q, ValidateCountryCode(swiftCountryCode))
  }

  /** The normalised query is the key unless the name is nothing but whitespace and slashes, which
      keeps its own first 80 characters. */
  lemma CacheKeyQuery(name: string, swiftCountryCode: Option<string>)
    requires name != [] && !IsSpace(name[0])
    ensures (forall i :: 0 <= i < |name| ==> BankQuery.Blank(name[i])) ==> CacheKey(name, swiftCountryCode).0 == Take(name, 80)
    ensures !(forall i :: 0 <= i < |name| ==> BankQuery.Blank(name[i])) ==>
      CacheKey(name, swiftCountryCode).0 == BankQuery.NormalizeBankQuery(Some(name))
      && BankQuery.Safe(CacheKey(name, swiftCountryCode).0)
  {
    BankQuery.NormalizeEmpty(Some(name));
    BankQuery.NormalizeShape(Some(name));
  }

  /** The key `geocode_bank_async` uses, or None when the bank name does not pass validation. */
  function GeocodeKey(bankName: Option<string>, swiftCountryCode: Option<string>): Option<Key> {
    var name := ValidateInput(bankName, 500);
    if name.None? then None else Some(CacheKey(name.value, swiftCountryCode))
  }

  /** `geocode_bank_async` without the HTTP call: `reply` is what the request produced, `now` and
      `later` are the clock readings around the rate-limit sleep. */
  method GeocodeBank<R>(cache: GeocodeCache<R>, limiter: RateLimiter, bankName: Option<string>,
                        swiftCountryCode: Option<string>, now: real, later: real, reply: Reply<R>,
                        maxResponseSize: int)
    returns (result: Option<R>)
    requires cache.Valid() && limiter.Valid()
    requires later >= now + Wait(limiter.LastTime(Geocode), now, limiter.minInterval)
    modifies cache, limiter
    ensures cache.Valid() && limiter.Valid()
    ensures GeocodeKey(bankName, swiftCountryCode).None? ==>
      result.None? && unchanged(cache) && unchanged(limiter)
    ensures var key := GeocodeKey(bankName, swiftCountryCode);
      key.Some? && key.value in old(cache.entries) ==>
        result == Some(old(cache.entries)[key.value]) && unchanged(cache) && unchanged(limiter)
    ensures var key := GeocodeKey(bankName, swiftCountryCode);
      key.Some? && key.value !in old(cache.entries) ==>
        limiter.lastRequest == old(limiter.lastRequest)[Geocode := later]
        && later >= old(limiter.LastTime(Geocode)) + limiter.minInterval
    ensures var key := GeocodeKey(bankName, swiftCountryCode);
      key.Some? && key.value !in old(cache.entries) && Accepted(reply, maxResponseSize) && cache.capacity >= 1 ==>
        result == Some(reply.body) && cache.order == StoredOrder(old(cache.order), cache.capacity, key.value)
        && cache.Get(key.value) == Some(reply.body)
    ensures var key := GeocodeKey(bankName, swiftCountryCode);
      key.Some? && key.value !in old(cache.entries) && !(Accepted(reply, maxResponseSize) && cache.capacity >= 1) ==>
        result.None? && cache.entries == old(cache.entries) && cache.order == old(cache.order)
  {
    var name := ValidateInput(bankName, 500);
    if name.None? {
      return None;
    }
    var key := CacheKey(name.value, swiftCountryCode);
    var cached := cache.Get(key);
    if cached.Some? {
      return cached;
    }
    result := FetchAndStore(cache, limiter, key, now, later, reply, maxResponseSize);
  }

  /** The cache-miss path of `geocode_bank_async`: wait for the rate limiter, then keep an accepted
      reply in the cache. */
  method FetchAndStore<R>(cache: GeocodeCache<R>, limiter: RateLimiter, key: Key, now: real, later: real,
                          reply: Reply<R>, maxResponseSize: int)
    returns (result: Option<R>)
    requires cache.Valid() && limiter.Valid()
    requires later >= now + Wait(limiter.LastTime(Geocode), now, limiter.minInterval)
    modifies cache, limiter
    ensures cache.Valid() && limiter.Valid()
    ensures limiter.lastRequest == old(limiter.lastRequest)[Geocode := later]
    ensures later >= old(limiter.LastTime(Geocode)) + limiter.minInterval
    ensures Accepted(reply, maxResponseSize) && cache.capacity >= 1 ==>
      result == Some(reply.body) && cache.order == StoredOrder(old(cache.order), cache.capacity, key)
      && cache.Get(key) == Some(reply.body)
    ensures !(Accepted(reply, maxResponseSize) && cache.capacity >= 1) ==>
      result.None? && cache.entries == old(cache.entries) && cache.order == old(cache.order)
  {
    var _ := limiter.Acquire(Geocode, now, later);
    if !Accepted(reply, maxResponseSize) {
      return None;
    }
    var ok := cache.Store(key, reply.body);
    if !ok {
      return None;
    }
    result := Some(reply.body);
  }

  // ---------------------------------------------------------------------------------------------
  // run_web_research

  /** `run_web_research`: validates the bank name and the SWIFT code, takes the country from the code
      and geocodes the bank, which validates both again. The counterparty name is only logged. */
  method RunWebResearch<R>(cache: GeocodeCache<R>, limiter: RateLimiter, bankName: Option<string>,
                           swiftCode: Option<string>, now: real, later: real, reply: Reply<R>,
                           maxResponseSize: int)
    returns (geocoding: Option<R>)
    requires cache.Valid() && limiter.Valid()
    requires later >= now + Wait(limiter.LastTime(Geocode), now, limiter.minInterval)
    modifies cache, limiter
    ensures cache.Valid() && limiter.Valid()
    ensures ValidateInput(bankName, 500).None? ==> geocoding.None? && unchanged(cache) && unchanged(limiter)
    ensures var key := GeocodeKey(ValidateInput(bankName, 500), ExtractSwiftCountryCode(ValidateInput(swiftCode, 11)));
      key.Some? && key.value in old(cache.entries) ==>
        geocoding == Some(old(cache.entries)[key.value]) && unchanged(cache) && unchanged(limiter)
    ensures var key := GeocodeKey(ValidateInput(bankName, 500), ExtractSwiftCountryCode(ValidateInput(swiftCode, 11)));
      key.Some? && key.value !in old(cache.entries) ==>
        limiter.lastRequest == old(limiter.lastRequest)[Geocode := later]
        && later >= old(limiter.LastTime(Geocode)) + limiter.minInterval
    ensures var key := GeocodeKey(ValidateInput(bankName, 500), ExtractSwiftCountryCode(ValidateInput(swiftCode, 11)));
      key.Some? && key.value !in old(cache.entries) && Accepted(reply, maxResponseSize) && cache.capacity >= 1 ==>
        geocoding == Some(reply.body) && cache.order == StoredOrder(old(cache.order), cache.capacity, key.value)
        && cache.Get(key.value) == Some(reply.body)
    ensures var key := GeocodeKey(ValidateInput(bankName, 500), ExtractSwiftCountryCode(ValidateInput(swiftCode, 11)));
      key.Some? && key.value !in old(cache.entries) && !(Accepted(reply, maxResponseSize) && cache.capacity >= 1) ==>
        geocoding.None? && cache.entries == old(cache.entries) && cache.order == old(cache.order)
  {
    var name := ValidateInput(bankName, 500);
    var swift := ValidateInput(swiftCode, 11);
    if name.None? {
      return None;
    }
    var countryCode := ExtractSwiftCountryCode(swift);
    geocoding := GeocodeBank(cache, limiter, name, countryCode, now, later, reply, maxResponseSize);
  }

  /** The second validation of the bank name only strips the trailing whitespace a cut at 500
      characters may leave, and the country code passes its second validation unchanged. */
  lemma ResearchKey(bankName: Option<string>, swiftCode: Option<string>)
    ensures var name := ValidateInput(bankName, 500);
      name.Some? ==> ValidateInput(name, 500) == Some(RStrip(name.value))
    ensures var cc := ExtractSwiftCountryCode(ValidateInput(swiftCode, 11));
      ValidateCountryCode(cc) == cc
  {
    ValidateInputTwice(bankName, 500);
    var cc := ExtractSwiftCountryCode(ValidateInput(swiftCode, 11));
    if cc.Some? {
      CountryCodeFixed(cc.value);
    }
  }
}
