/**
 * Country extraction from SWIFT/BIC codes (ISO 9362): characters 4-5 of an 8- or 11-character
 * code are the ISO 3166-1 alpha-2 country, looked up in the code2 -> name map of the offshore
 * jurisdiction table, which is built once and cached.
 */
module SwiftHandler {
  import opened Wrappers
  import opened Chars
  import opened Prompts

  /** `{j['code2']: j['name'] for j in jurisdictions}`: insertion in table order, later rows win. */
  function OffshoreMap(js: seq<Jurisdiction>): map<string, string> {
    if js == [] then map[]
    else
      var j := js[|js| - 1];
      OffshoreMap(js[..|js| - 1])[j.code2 := j.name]
  }

  /** The keys are the code2 values of the table, and each maps to the name of the LAST row carrying it. */
  lemma {:induction false} OffshoreMapLastWins(js: seq<Jurisdiction>)
    ensures forall c :: c in OffshoreMap(js) <==> exists j :: j in js && j.code2 == c
    ensures forall c :: c in OffshoreMap(js) ==>
      exists k :: 0 <= k < |js| && js[k].code2 == c && OffshoreMap(js)[c] == js[k].name
        && forall l :: k < l < |js| ==> js[l].code2 != c
  {
    if js != [] {
      var pre := js[..|js| - 1];
      var last := js[|js| - 1];
      OffshoreMapLastWins(pre);
      assert js == pre + [last];
      var m := OffshoreMap(js);
      forall c | c in m
        ensures exists k ::
                  0 <= k < |js| && js[k].code2 == c && m[c] == js[k].name
                  && forall l :: k < l < |js| ==> js[l].code2 != c
      {
        if c == last.code2 {
          assert js[|js| - 1].code2 == c && m[c] == js[|js| - 1].name;
        } else {
          var k :| 0 <= k < |pre| && pre[k].code2 == c && OffshoreMap(pre)[c] == pre[k].name
            && forall l :: k < l < |pre| ==> pre[l].code2 != c;
          assert js[k] == pre[k];
          assert forall l :: k < l < |js| ==> js[l].code2 != c by {
            forall l | k < l < |js| ensures js[l].code2 != c {
              if l < |pre| { assert js[l] == pre[l]; }
            }
          }
        }
      }
    }
  }

  /** `swift_code.strip().upper()`. */
  function Clean(swift: string): string {
    Upper(Strip(swift))
  }

  /** A cleaned code has a valid length and an alphabetic country pair. */
  predicate WellFormed(clean: string) {
    (|clean| == 8 || |clean| == 11) && IsAlphaStr(clean[4..6])
  }

  /** The dict returned for a well-formed code. */
  datatype SwiftCountry = SwiftCountry(code: string, name: Option<string>, isOffshore: bool)

  /** `extract_swift_country`, against the given offshore map. */
  function ExtractSwiftCountry(swift: Option<string>, offshore: map<string, string>): Option<SwiftCountry> {
    if !Truthy(swift) then None else ExtractClean(Clean(swift.value), offshore)
  }

  /** The checks and the lookup of `extract_swift_country` on the cleaned code. */
  function ExtractClean(clean: string, offshore: map<string, string>): Option<SwiftCountry> {
    if |clean| != 8 && |clean| != 11 then None
    else
      var cc := clean[4..6];
      if !IsAlphaStr(cc) then None
      else if cc in offshore && offshore[cc] != [] then Some(SwiftCountry(cc, Some(offshore[cc]), true))
      else Some(SwiftCountry(cc, None, false))
  }

  /** None exactly for a falsy input or a malformed code; otherwise the code is characters 4-5 of the
      cleaned input, and it is offshore, with the map's name, exactly when the map gives it a non-empty name. */
  lemma ExtractSwiftCountryCases(swift: Option<string>, offshore: map<string, string>)
    ensures var r := ExtractSwiftCountry(swift, offshore);
      r.None? <==> !Truthy(swift) || !WellFormed(Clean(swift.value))
    ensures var r := ExtractSwiftCountry(swift, offshore);
      r.Some? ==> (var cc := Clean(swift.value)[4..6];
        r.value.code == cc && |cc| == 2 && (forall i :: 0 <= i < 2 ==> IsUpper(cc[i]) || IsLower(cc[i]))
        && (r.value.isOffshore <==> cc in offshore && offshore[cc] != [])
        && (r.value.isOffshore ==> r.value.name == Some(offshore[cc]))
        && (!r.value.isOffshore ==> r.value.name == None))
  {
  }

  /** Whitespace around the code does not change the result. */
  lemma ExtractIgnoresPadding(pre: string, s: string, post: string, offshore: map<string, string>)
    requires AllSpace(pre) && AllSpace(post)
    ensures ExtractSwiftCountry(Some(pre + s + post), offshore) == ExtractSwiftCountry(Some(s), offshore)
  {
    StripPadded(pre, s, post);
  }

  /** The letter case of the code does not change the result. */
  lemma ExtractIgnoresCase(s: string, offshore: map<string, string>)
    ensures ExtractSwiftCountry(Some(Lower(s)), offshore) == ExtractSwiftCountry(Some(s), offshore)
    ensures ExtractSwiftCountry(Some(Upper(s)), offshore) == ExtractSwiftCountry(Some(s), offshore)
  {
    assert Clean(Lower(s)) == Clean(s) by {
      StripLower(s);
      UpperCaseFold(Strip(s));
    }
    assert Clean(Upper(s)) == Clean(s) by {
      StripUpper(s);
      UpperCaseFold(Strip(s));
    }
    SameClean(Lower(s), s, offshore);
    SameClean(Upper(s), s, offshore);
  }

  lemma SameClean(s: string, t: string, offshore: map<string, string>)
    requires Clean(s) == Clean(t)
    ensures ExtractSwiftCountry(Some(s), offshore) == ExtractSwiftCountry(Some(t), offshore)
  {
    assert s == [] ==> |Clean(s)| == 0;
    assert t == [] ==> |Clean(t)| == 0;
  }

  /** `is_offshore_swift`. */
  function IsOffshoreSwift(swift: Option<string>, offshore: map<string, string>): bool {
    var r := ExtractSwiftCountry(swift, offshore);
    r.Some? && r.value.isOffshore
  }

  /** A code is offshore exactly when it is well formed and its country has a non-empty name in the map. */
  lemma IsOffshoreSwiftIff(swift: Option<string>, offshore: map<string, string>)
    ensures IsOffshoreSwift(swift, offshore) <==>
      Truthy(swift) && WellFormed(Clean(swift.value))
      && Clean(swift.value)[4..6] in offshore && offshore[Clean(swift.value)[4..6]] != []
  {
  }

  /** The module-level offshore map, built from the jurisdiction table on first use. */
  class OffshoreMapCache {
    var cached: Option<map<string, string>>

    constructor ()
      ensures cached == None
    {
      cached := None;
    }

    /** `_get_offshore_map`. */
    method Get(tableLines: seq<string>) returns (m: map<string, string>)
      modifies this
      ensures old(cached).Some? ==> m == old(cached).value
      ensures old(cached).None? ==> m == OffshoreMap(Load(tableLines))
      ensures cached == Some(m)
    {
      if cached.None? {
        var js := LoadJurisdictions(tableLines);
        cached := Some(OffshoreMap(js));
      }
      m := cached.value;
    }

    /** `extract_swift_country`: the map is only loaded once a code passes validation. */
    method Extract(swift: Option<string>, tableLines: seq<string>) returns (r: Option<SwiftCountry>)
      modifies this
      ensures Truthy(swift) && WellFormed(Clean(swift.value)) ==>
        cached.Some? && r == ExtractSwiftCountry(swift, cached.value)
      ensures !(Truthy(swift) && WellFormed(Clean(swift.value))) ==> r == None && cached == old(cached)
      ensures old(cached).Some? ==> cached == old(cached)
      ensures old(cached).None? && cached.Some? ==> cached.value == OffshoreMap(Load(tableLines))
    {
      if !Truthy(swift) {
        return None;
      }
      var clean := Clean(swift.value);
      if |clean| != 8 && |clean| != 11 {
        return None;
      }
      var cc := clean[4..6];
      if !IsAlphaStr(cc) {
        return None;
      }
      var offshore := Get(tableLines);
      if cc in offshore && offshore[cc] != [] {
        r := Some(SwiftCountry(cc, Some(offshore[cc]), true));
      } else {
        r := Some(SwiftCountry(cc, None, false));
      }
    }

    /** `is_offshore_swift`. */
    method IsOffshore(swift: Option<string>, tableLines: seq<string>) returns (b: bool)
      modifies this
      ensures cached.Some? ==> b == IsOffshoreSwift(swift, cached.value)
      ensures cached.None? ==> !b
      ensures old(cached).Some? ==> cached == old(cached)
      ensures old(cached).None? && cached.Some? ==> cached.value == OffshoreMap(Load(tableLines))
    {
      var r := Extract(swift, tableLines);
      b := r.Some? && r.value.isOffshore;
    }
  }
}
