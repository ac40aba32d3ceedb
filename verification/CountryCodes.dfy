/**
 Interned country codes (topolib/country_codes.go): a table of names and a map back to their indices,
 filled once from a map that Go iterates in any order. Strings are ASCII.
 */
module CountryCodes {
  type Code = n: nat | n < 256

  type Ascii = s: string | forall i :: 0 <= i < |s| ==> s[i] < 128 as char

  datatype Tables = Tables(names: seq<Ascii>, codes: map<Ascii, Code>)

  function Upper(c: char): char {
    if 'a' <= c <= 'z' then (c as int - 32) as char else c
  }

  function ToUpper(s: Ascii): (r: Ascii)
    ensures |r| == |s| && forall i :: 0 <= i < |s| ==> r[i] == Upper(s[i])
  {
    seq(|s|, i requires 0 <= i < |s| => Upper(s[i]))
  }

  function NormalizeAlpha2Code(alpha2: Ascii): Ascii {
    var a := ToUpper(alpha2);
    if |a| != 2 then ""
    else if a == "ZZ" || a == "AP" || a == "EU" then ""
    else if a == "YU" then "CS"
    else if a == "FX" then "FR"
    else if a == "UK" then "GB"
    else a
  }

  /** Go's map lookup: the zero code for an absent name. */
  function Stored(t: Tables, name: Ascii): Code {
    if name in t.codes then t.codes[name] else 0
  }

  function Alpha2ToCountryCode(t: Tables, alpha2: Ascii): Code {
    Stored(t, NormalizeAlpha2Code(alpha2))
  }

  predicate Known(c: Code) {
    c > 0
  }

  function CodeName(t: Tables, c: Code): Ascii
    requires c < |t.names|
  {
    t.names[c]
  }

  predicate Normalized(s: Ascii) {
    |s| == 2 && ToUpper(s) == s && s !in {"ZZ", "AP", "EU", "YU", "FX", "UK"}
  }

  /** The non-empty normalized codes of the countries. */
  function Wanted(countries: set<Ascii>): set<Ascii> {
    (set k | k in countries :: NormalizeAlpha2Code(k)) - {""}
  }

  /** Normalizing ends in the empty string or in a code that normalizing leaves alone. */
  lemma NormalForms(s: Ascii)
    ensures NormalizeAlpha2Code(s) == "" || Normalized(NormalizeAlpha2Code(s))
    ensures Normalized(s) <==> s != "" && NormalizeAlpha2Code(s) == s
    ensures NormalizeAlpha2Code(NormalizeAlpha2Code(s)) == NormalizeAlpha2Code(s)
  {
    var a := ToUpper(s);
    assert ToUpper(a) == a;
    assert ToUpper("CS") == "CS" && ToUpper("FR") == "FR" && ToUpper("GB") == "GB";
    assert ToUpper("") == "";
  }

  /** Two letters in any case. */
  predicate Spells(s: Ascii, upper: string, lower: string)
    requires |upper| == |lower| == 2
  {
    |s| == 2 && (s[0] == upper[0] || s[0] == lower[0]) && (s[1] == upper[1] || s[1] == lower[1])
  }

  predicate Special(s: Ascii) {
    || Spells(s, "ZZ", "zz") || Spells(s, "AP", "ap") || Spells(s, "EU", "eu")
    || Spells(s, "YU", "yu") || Spells(s, "FX", "fx") || Spells(s, "UK", "uk")
  }

  /** The letters a..z become A..Z one by one, and nothing else changes. */
  lemma UpperCase(k: nat)
    requires k < 128
    ensures 97 <= k <= 122 ==> Upper(k as char) == (k - 97 + 65) as char
    ensures !(97 <= k <= 122) ==> Upper(k as char) == k as char
  {
  }

  /**
   The replacements, in any case: the placeholders ZZ, AP and EU are unknown, YU is CS, FX is FR, UK is GB. Any
   other two characters are upper-cased, and a string of another length is unknown.
   */
  lemma Replacements(s: Ascii)
    ensures |s| != 2 ==> NormalizeAlpha2Code(s) == ""
    ensures Spells(s, "ZZ", "zz") || Spells(s, "AP", "ap") || Spells(s, "EU", "eu") ==> NormalizeAlpha2Code(s) == ""
    ensures Spells(s, "YU", "yu") ==> NormalizeAlpha2Code(s) == "CS"
    ensures Spells(s, "FX", "fx") ==> NormalizeAlpha2Code(s) == "FR"
    ensures Spells(s, "UK", "uk") ==> NormalizeAlpha2Code(s) == "GB"
    ensures |s| == 2 && !Special(s) ==> NormalizeAlpha2Code(s) == [Upper(s[0]), Upper(s[1])]
  {
    if Special(s) {
      SpecialReplacements(s);
    } else if |s| == 2 {
      assert ToUpper(s) == [Upper(s[0]), Upper(s[1])];
    }
  }

  lemma SpelledUpper(s: Ascii, upper: Ascii, lower: Ascii)
    requires |upper| == |lower| == 2 && Spells(s, upper, lower)
    requires forall i :: 0 <= i < 2 ==> Upper(upper[i]) == Upper(lower[i]) == upper[i]
    ensures ToUpper(s) == upper
  {
  }

  lemma SpecialReplacements(s: Ascii)
    requires Special(s)
    ensures NormalizeAlpha2Code(s) ==
      if Spells(s, "YU", "yu") then "CS" else if Spells(s, "FX", "fx") then "FR" else if Spells(s, "UK", "uk") then "GB" else ""
  {
    if Spells(s, "YU", "yu") {
      SpelledUpper(s, "YU", "yu");
    } else if Spells(s, "FX", "fx") {
      SpelledUpper(s, "FX", "fx");
    } else if Spells(s, "UK", "uk") {
      SpelledUpper(s, "UK", "uk");
    } else if Spells(s, "ZZ", "zz") {
      SpelledUpper(s, "ZZ", "zz");
    } else if Spells(s, "AP", "ap") {
      SpelledUpper(s, "AP", "ap");
    } else {
      SpelledUpper(s, "EU", "eu");
    }
  }

  /** What init leaves: every wanted code once, each at the index its code names, modulo the uint8. */
  ghost predicate Interned(t: Tables, wanted: set<Ascii>) {
    && |t.names| == |wanted| + 1 && t.names[0] == ""
    && (forall s :: s in t.names <==> s == "" || s in wanted)
    && (forall s :: s in t.codes <==> s == "" || s in wanted)
    && (forall i :: 0 <= i < |t.names| ==> t.codes[t.names[i]] == i % 256)
  }

  /** The loop of init over the countries, in any order. */
  method Init(countries: set<Ascii>) returns (t: Tables)
    ensures Interned(t, Wanted(countries))
  {
    t := Tables([""], map["" := 0]);
    var left := countries;
    InternNone(countries);
    while left != {}
      invariant left <= countries
      invariant Interned(t, Wanted(countries - left))
      decreases left
    {
      var key :| key in left;
      Widened(countries, left - {key}, key);
      assert left - {key} + {key} == left;
      t := Intern(t, Wanted(countries - left), NormalizeAlpha2Code(key));
      left := left - {key};
    }
    assert countries - left == countries;
  }

  /** The body of that loop. */
  method Intern(t: Tables, ghost wanted: set<Ascii>, k: Ascii) returns (r: Tables)
    requires Interned(t, wanted)
    ensures Interned(r, wanted + ({k} - {""}))
  {
    InternOne(t, wanted, k);
    if k == "" || k in t.codes {
      return t;
    }
    var names := t.names + [k];
    r := Tables(names, t.codes[k := (|names| - 1) % 256]);
  }

  lemma InternNone(countries: set<Ascii>)
    ensures Interned(Tables([""], map["" := 0]), Wanted(countries - countries))
  {
    assert Wanted(countries - countries) == {};
  }

  lemma Widened(countries: set<Ascii>, left: set<Ascii>, key: Ascii)
    requires left <= countries && key in countries && key !in left
    ensures Wanted(countries - left) == Wanted(countries - (left + {key})) + ({NormalizeAlpha2Code(key)} - {""})
  {
    assert countries - left == countries - (left + {key}) + {key};
  }

  lemma InternOne(t: Tables, wanted: set<Ascii>, k: Ascii)
    requires Interned(t, wanted)
    ensures Interned(if k == "" || k in t.codes then t else Tables(t.names + [k], t.codes[k := |t.names| % 256]),
                     wanted + ({k} - {""}))
  {
    if k == "" || k in t.codes {
      assert wanted + ({k} - {""}) == wanted;
    } else {
      var names := t.names + [k];
      assert forall s :: s in names <==> s in t.names || s == k;
      forall i | 0 <= i < |t.names|
        ensures names[i] == t.names[i] && names[i] != k
      {
        assert t.names[i] in t.names;
      }
    }
  }

  /** The tables are inverse to each other on what a lookup returns. */
  ghost predicate RoundTrips(t: Tables, wanted: set<Ascii>) {
    forall s: Ascii ::
      var c := Alpha2ToCountryCode(t, s);
      && c < |t.names|
      && CodeName(t, c) == if NormalizeAlpha2Code(s) in wanted then NormalizeAlpha2Code(s) else ""
  }

  lemma StoredName(t: Tables, wanted: set<Ascii>, name: Ascii)
    requires Interned(t, wanted) && "" !in wanted
    ensures Stored(t, name) < |t.names|
    ensures |wanted| <= 255 ==> t.names[Stored(t, name)] == if name in wanted then name else ""
  {
    if name in t.codes {
      assert name in t.names;
      var i :| 0 <= i < |t.names| && t.names[i] == name;
      assert t.codes[t.names[i]] == i % 256;
    }
  }

  /** Code 0 is shared by "" and by name 256. */
  lemma OneTooMany(t: Tables, wanted: set<Ascii>)
    requires Interned(t, wanted) && "" !in wanted && |wanted| > 255
    ensures t.names[256] in wanted && Stored(t, t.names[256]) == 0
  {
    assert t.names[256] in t.names && t.codes[t.names[256]] == 256 % 256;
    DistinctNames(t, wanted, 0, 256);
  }

  /** Up to 255 codes fit; with one more the tables stop being inverse, whatever the iteration order. */
  lemma RoundTripsIff(t: Tables, countries: set<Ascii>)
    requires Interned(t, Wanted(countries))
    ensures RoundTrips(t, Wanted(countries)) <==> |Wanted(countries)| <= 255
  {
    var wanted := Wanted(countries);
    if |wanted| <= 255 {
      forall s: Ascii
        ensures var c := Alpha2ToCountryCode(t, s);
                && c < |t.names|
                && CodeName(t, c) == if NormalizeAlpha2Code(s) in wanted then NormalizeAlpha2Code(s) else ""
      {
        StoredName(t, wanted, NormalizeAlpha2Code(s));
      }
    } else {
      OneTooMany(t, wanted);
      var s := t.names[256];
      WantedIsNormal(countries, s);
      assert CodeName(t, Alpha2ToCountryCode(t, s)) == "" != s;
    }
  }

  lemma WantedIsNormal(countries: set<Ascii>, s: Ascii)
    requires s in Wanted(countries)
    ensures s != "" && NormalizeAlpha2Code(s) == s
  {
    var k :| k in countries && NormalizeAlpha2Code(k) == s;
    NormalForms(k);
  }

  function Elements(names: seq<Ascii>): set<Ascii> {
    set s | s in names
  }

  lemma {:induction false} FewElements(names: seq<Ascii>, i: nat, j: nat)
    requires i < j < |names| && names[i] == names[j]
    ensures |Elements(names)| < |names|
  {
    ElementsBound(names[..j]);
    ElementsBound(names[j + 1..]);
    assert names[i] in names[..j];
    assert Elements(names) == Elements(names[..j]) + Elements(names[j + 1..]) by {
      assert names == names[..j] + [names[j]] + names[j + 1..];
    }
  }

  lemma {:induction false} ElementsBound(names: seq<Ascii>)
    ensures |Elements(names)| <= |names|
  {
    if names != [] {
      var n := |names| - 1;
      ElementsBound(names[..n]);
      assert Elements(names) == Elements(names[..n]) + {names[n]} by {
        assert names == names[..n] + [names[n]];
      }
    }
  }

  /** No name is stored twice. */
  lemma DistinctNames(t: Tables, wanted: set<Ascii>, i: nat, j: nat)
    requires Interned(t, wanted) && "" !in wanted && i < j < |t.names|
    ensures t.names[i] != t.names[j]
  {
    assert Elements(t.names) == wanted + {""};
    if t.names[i] == t.names[j] {
      FewElements(t.names, i, j);
      assert false;
    }
  }

  /** The order in which init met the countries does not show, within the bound. */
  lemma OrderInvisible(t: Tables, u: Tables, countries: set<Ascii>, s: Ascii)
    requires Interned(t, Wanted(countries)) && Interned(u, Wanted(countries)) && |Wanted(countries)| <= 255
    ensures Alpha2ToCountryCode(t, s) < |t.names| && Alpha2ToCountryCode(u, s) < |u.names|
    ensures CodeName(t, Alpha2ToCountryCode(t, s)) == CodeName(u, Alpha2ToCountryCode(u, s))
    ensures Known(Alpha2ToCountryCode(t, s)) <==> NormalizeAlpha2Code(s) in Wanted(countries)
  {
    var wanted, name := Wanted(countries), NormalizeAlpha2Code(s);
    StoredName(t, wanted, name);
    StoredName(u, wanted, name);
    assert t.names[0] in t.names && t.codes[t.names[0]] == 0;
  }
}
