/**
 The vote at the end of a resolve (`resolveIPMerge`, `resolveIPMergeCity` of topolib/topographer.go).
 Go iterates its maps in an order of its own choosing; the loops here take the keys in any order, and a
 ghost result records the order taken.
 */
module Vote {
  import opened Sums
  import opened ResolveTask

  // ----- what the vote means

  /** The answers that name country c, in arrival order. */
  function Voters(details: seq<Detail>, c: nat): seq<Detail> {
    if details == [] then []
    else
      var n := |details| - 1;
      Voters(details[..n], c) + (if details[n].country == c then [details[n]] else [])
  }

  function Votes(details: seq<Detail>, c: nat): nat {
    |Voters(details, c)|
  }

  /** The positions of the answers that name country c. */
  function CountryAt(details: seq<Detail>, c: nat): set<nat> {
    set i: nat | i < |details| && details[i].country == c
  }

  /** The positions of the answers that name country c and, in it, a city with this phonetic key. */
  function CityAt(details: seq<Detail>, c: nat, phonetic: string -> string, key: string): set<nat> {
    set i: nat | i < |details| && details[i].country == c && details[i].city != "" && phonetic(details[i].city) == key
  }

  /** A country nobody out-votes, or unknown (0) when nobody named a known one. */
  ghost predicate Plurality(details: seq<Detail>, c: nat) {
    && (c == 0 <==> forall i :: 0 <= i < |details| ==> details[i].country == 0)
    && (forall k :: k > 0 && c > 0 ==> |CountryAt(details, k)| <= |CountryAt(details, c)|)
    && (c > 0 ==> CountryAt(details, c) != {})
  }

  /**
   The city for country c: empty when no answer that names c names a city. Otherwise it stands at the last
   position of a phonetic class that no other class of c's answers out-numbers.
   */
  ghost predicate MajorityCity(details: seq<Detail>, c: nat, phonetic: string -> string, city: string) {
    && (city == "" <==> forall i :: 0 <= i < |details| && details[i].country == c ==> details[i].city == "")
    && (city != "" ==>
        && (exists i: nat :: i in CityAt(details, c, phonetic, phonetic(city)) && details[i].city == city
              && forall j: nat :: j in CityAt(details, c, phonetic, phonetic(city)) ==> j <= i)
        && (forall key ::
              |CityAt(details, c, phonetic, key)| <= |CityAt(details, c, phonetic, phonetic(city))|))
  }

  predicate InClass(d: Detail, phonetic: string -> string, key: string) {
    d.city != "" && phonetic(d.city) == key
  }

  /** Number of answers whose city has this phonetic key. */
  function ClassCount(details: seq<Detail>, phonetic: string -> string, key: string): nat {
    if details == [] then 0
    else
      var n := |details| - 1;
      ClassCount(details[..n], phonetic, key) + (if InClass(details[n], phonetic, key) then 1 else 0)
  }

  /** The spelling that arrived last in a phonetic class; empty when the class is. */
  function LastSpelling(details: seq<Detail>, phonetic: string -> string, key: string): string {
    if details == [] then ""
    else
      var n := |details| - 1;
      if InClass(details[n], phonetic, key) then details[n].city else LastSpelling(details[..n], phonetic, key)
  }

  /** The positions of a phonetic class among voters. */
  function ClassAt(voters: seq<Detail>, phonetic: string -> string, key: string): set<nat> {
    set i: nat | i < |voters| && voters[i].city != "" && phonetic(voters[i].city) == key
  }

  /**
   The city among these voters: empty when none names a city. Otherwise it stands at the last position of a
   phonetic class that no other class out-numbers.
   */
  ghost predicate CityChosen(voters: seq<Detail>, phonetic: string -> string, city: string) {
    && (city == "" <==> forall i :: 0 <= i < |voters| ==> voters[i].city == "")
    && (city != "" ==>
        && (exists i: nat :: i in ClassAt(voters, phonetic, phonetic(city)) && voters[i].city == city
              && forall j: nat :: j in ClassAt(voters, phonetic, phonetic(city)) ==> j <= i)
        && (forall key :: |ClassAt(voters, phonetic, key)| <= |ClassAt(voters, phonetic, phonetic(city))|))
  }

  /** The same as the loops compute it. */
  ghost predicate CityTallied(voters: seq<Detail>, phonetic: string -> string, city: string) {
    && (city == "" <==> forall d :: d in voters ==> d.city == "")
    && (city != "" ==>
        && city == LastSpelling(voters, phonetic, phonetic(city))
        && (exists d :: d in voters && d.city == city)
        && forall key :: ClassCount(voters, phonetic, key) <= ClassCount(voters, phonetic, phonetic(city)))
  }

  // ----- counting is counting positions

  lemma {:induction false} VotesArePositions(details: seq<Detail>, c: nat)
    ensures Votes(details, c) == |CountryAt(details, c)|
    decreases |details|
  {
    if details == [] {
      assert CountryAt(details, c) == {};
    } else {
      var n := |details| - 1;
      VotesArePositions(details[..n], c);
      var before, after := CountryAt(details[..n], c), CountryAt(details, c);
      assert n !in before;
      assert after == if details[n].country == c then before + {n} else before;
    }
  }

  /** The answers that name c and a city with this key, among all answers and among c's voters. */
  lemma {:induction false} ClassIsPositions(details: seq<Detail>, c: nat, phonetic: string -> string, key: string)
    ensures ClassCount(Voters(details, c), phonetic, key) == |CityAt(details, c, phonetic, key)|
    decreases |details|
  {
    if details == [] {
      assert CityAt(details, c, phonetic, key) == {};
    } else {
      var n := |details| - 1;
      ClassIsPositions(details[..n], c, phonetic, key);
      CityAtGrows(details, c, phonetic, key);
      if details[n].country == c {
        var v := Voters(details[..n], c);
        assert Voters(details, c) == v + [details[n]];
        assert (v + [details[n]])[..|v|] == v;
      } else {
        assert Voters(details, c) == Voters(details[..n], c);
      }
    }
  }

  lemma ClassAtGrows(voters: seq<Detail>, phonetic: string -> string, key: string)
    requires voters != []
    ensures var n := |voters| - 1;
      var before := ClassAt(voters[..n], phonetic, key);
      && n !in before
      && ClassAt(voters, phonetic, key) == (if InClass(voters[n], phonetic, key) then before + {n} else before)
  {
  }

  /** ClassCount is the number of positions of the class. */
  lemma {:induction false} ClassCountIsPositions(voters: seq<Detail>, phonetic: string -> string, key: string)
    ensures ClassCount(voters, phonetic, key) == |ClassAt(voters, phonetic, key)|
    decreases |voters|
  {
    if voters == [] {
      assert ClassAt(voters, phonetic, key) == {};
    } else {
      ClassCountIsPositions(voters[..|voters| - 1], phonetic, key);
      ClassAtGrows(voters, phonetic, key);
    }
  }

  /** LastSpelling stands at the last position of the class. */
  lemma {:induction false} LastSpellingIsLast(voters: seq<Detail>, phonetic: string -> string, key: string) returns (i: nat)
    requires ClassAt(voters, phonetic, key) != {}
    ensures i in ClassAt(voters, phonetic, key) && voters[i].city == LastSpelling(voters, phonetic, key)
    ensures forall j: nat :: j in ClassAt(voters, phonetic, key) ==> j <= i
    decreases |voters|
  {
    var some :| some in ClassAt(voters, phonetic, key);
    assert some < |voters|;
    ClassAtGrows(voters, phonetic, key);
    i := |voters| - 1;
    if !InClass(voters[i], phonetic, key) {
      i := LastSpellingIsLast(voters[..i], phonetic, key);
    }
  }

  lemma TalliedIsChosen(voters: seq<Detail>, phonetic: string -> string, city: string)
    requires CityTallied(voters, phonetic, city)
    ensures CityChosen(voters, phonetic, city)
  {
    if city != "" {
      forall key ensures ClassCount(voters, phonetic, key) == |ClassAt(voters, phonetic, key)| {
        ClassCountIsPositions(voters, phonetic, key);
      }
      var d :| d in voters && d.city == city;
      var k: nat :| k < |voters| && voters[k] == d;
      assert k in ClassAt(voters, phonetic, phonetic(city));
      var i := LastSpellingIsLast(voters, phonetic, phonetic(city));
    } else {
      assert forall i :: 0 <= i < |voters| ==> voters[i] in voters;
    }
  }

  predicate CityHere(d: Detail, c: nat, phonetic: string -> string, key: string) {
    d.country == c && d.city != "" && phonetic(d.city) == key
  }

  lemma CityAtGrows(details: seq<Detail>, c: nat, phonetic: string -> string, key: string)
    requires details != []
    ensures var n := |details| - 1;
      var before := CityAt(details[..n], c, phonetic, key);
      && n !in before
      && CityAt(details, c, phonetic, key) == (if CityHere(details[n], c, phonetic, key) then before + {n} else before)
  {
  }

  /** The last spelling of a class among c's voters stands at the last position of the class. */
  lemma {:induction false} LastIsLatest(details: seq<Detail>, c: nat, phonetic: string -> string, key: string)
    returns (i: nat)
    requires CityAt(details, c, phonetic, key) != {}
    ensures i in CityAt(details, c, phonetic, key)
    ensures forall j: nat :: j in CityAt(details, c, phonetic, key) ==> j <= i
    ensures details[i].city == LastSpelling(Voters(details, c), phonetic, key)
    decreases |details|
  {
    var some :| some in CityAt(details, c, phonetic, key);
    assert some < |details|;
    var n := |details| - 1;
    CityAtGrows(details, c, phonetic, key);
    var v := Voters(details[..n], c);
    assert (v + [details[n]])[..|v|] == v;
    if CityHere(details[n], c, phonetic, key) {
      i := n;
    } else {
      i := LastIsLatest(details[..n], c, phonetic, key);
      assert v + [] == v;
    }
  }

  // ----- the first loop: grouping by country

  predicate Groups(countries: map<nat, seq<Detail>>, details: seq<Detail>) {
    && (forall c :: c in countries ==> c > 0 && countries[c] != [] && countries[c] == Voters(details, c))
    && (forall d :: d in details && d.country > 0 ==> d.country in countries)
  }

  lemma {:induction false} NoVoters(details: seq<Detail>, c: nat)
    requires forall d :: d in details ==> d.country != c
    ensures Voters(details, c) == []
    decreases |details|
  {
    if details != [] {
      var n := |details| - 1;
      assert details[n] in details;
      assert forall d :: d in details[..n] ==> d in details;
      NoVoters(details[..n], c);
    }
  }

  lemma GroupsVotes(countries: map<nat, seq<Detail>>, details: seq<Detail>, c: nat)
    requires Groups(countries, details) && c > 0
    ensures Votes(details, c) == if c in countries then |countries[c]| else 0
  {
    if c !in countries {
      NoVoters(details, c);
    }
  }

  method GroupByCountry(details: seq<Detail>) returns (countries: map<nat, seq<Detail>>)
    ensures Groups(countries, details)
  {
    countries := map[];
    for i := 0 to |details|
      invariant Groups(countries, details[..i])
    {
      var current := details[i];
      assert details[..i + 1] == details[..i] + [current];
      assert details[..i + 1][..i] == details[..i];
      if current.country > 0 {
        var arr := if current.country in countries then countries[current.country] else [];
        if current.country !in countries {
          NoVoters(details[..i], current.country);
        }
        countries := countries[current.country := arr + [current]];
      }
    }
    assert details[..|details|] == details;
  }

  // ----- the second loop: the largest group, in map order

  ghost predicate Enumerates(order: seq<nat>, keys: set<nat>) {
    (forall k :: k in order <==> k in keys) && (forall i, j :: 0 <= i < j < |order| ==> order[i] != order[j])
  }

  /** What the loop selects when it meets the keys in this order: the first of the largest. */
  function Pick(order: seq<nat>, size: nat -> nat): nat {
    if order == [] then 0
    else
      var n := |order| - 1;
      var best := Pick(order[..n], size);
      if size(order[n]) > (if best == 0 then 0 else size(best)) then order[n] else best
  }

  lemma {:induction false} PickIsMax(order: seq<nat>, size: nat -> nat)
    requires forall k :: k in order ==> k > 0 && size(k) > 0
    ensures Pick(order, size) == 0 <==> order == []
    ensures order != [] ==> Pick(order, size) in order
    ensures forall k :: k in order ==> size(k) <= size(Pick(order, size))
    decreases |order|
  {
    if order != [] {
      var n := |order| - 1;
      assert forall k :: k in order[..n] ==> k in order;
      assert order[n] in order;
      PickIsMax(order[..n], size);
      assert forall k :: k in order ==> k in order[..n] || k == order[n];
    }
  }

  /** The first key met wins every tie. */
  lemma {:induction false} FirstWins(order: seq<nat>, size: nat -> nat)
    requires order != []
    requires forall k :: k in order ==> k > 0 && 0 < size(k) <= size(order[0])
    ensures Pick(order, size) == order[0]
    decreases |order|
  {
    var n := |order| - 1;
    assert order[n] in order;
    if n > 0 {
      assert forall k :: k in order[..n] ==> k in order;
      FirstWins(order[..n], size);
    }
  }

  function SizeOf(countries: map<nat, seq<Detail>>): nat -> nat {
    c => if c in countries then |countries[c]| else 0
  }

  lemma EnumerateMore(order: seq<nat>, keys: set<nat>, k: nat)
    requires Enumerates(order, keys) && k !in keys
    ensures Enumerates(order + [k], keys + {k})
    ensures (order + [k])[..|order|] == order
  {
  }

  method LargestGroup(countries: map<nat, seq<Detail>>)
    returns (selected: nat, voters: seq<Detail>, ghost order: seq<nat>)
    requires forall c :: c in countries ==> c > 0 && countries[c] != []
    ensures Enumerates(order, countries.Keys) && selected == Pick(order, SizeOf(countries))
    ensures selected == 0 <==> countries == map[]
    ensures selected != 0 ==> selected in countries && voters == countries[selected]
    ensures selected == 0 ==> voters == []
    ensures forall c :: c in countries ==> |countries[c]| <= |voters|
  {
    selected, voters, order := 0, [], [];
    var maxLen := 0;
    var rest := countries.Keys;
    while rest != {}
      invariant rest <= countries.Keys
      invariant Enumerates(order, countries.Keys - rest) && selected == Pick(order, SizeOf(countries))
      invariant maxLen == |voters|
      invariant selected == 0 ==> voters == [] && rest == countries.Keys
      invariant selected != 0 ==> selected in countries && voters == countries[selected]
      invariant forall c :: c in countries && c !in rest ==> |countries[c]| <= maxLen
    {
      var country :| country in rest;
      EnumerateMore(order, countries.Keys - rest, country);
      assert countries.Keys - (rest - {country}) == (countries.Keys - rest) + {country};
      order := order + [country];
      rest := rest - {country};
      if |countries[country]| > maxLen {
        voters, selected, maxLen := countries[country], country, |countries[country]|;
      }
    }
    assert countries.Keys - rest == countries.Keys;
  }

  // ----- the city

  ghost predicate Tally(voters: seq<Detail>, phonetic: string -> string, counters: map<string, nat>, names: map<string, string>) {
    && counters.Keys == names.Keys
    && (forall key :: ClassCount(voters, phonetic, key) == if key in counters then counters[key] else 0)
    && (forall key :: key in counters ==>
        counters[key] > 0 && names[key] == LastSpelling(voters, phonetic, key))
  }

  method TallyCities(voters: seq<Detail>, phonetic: string -> string)
    returns (counters: map<string, nat>, names: map<string, string>)
    ensures Tally(voters, phonetic, counters, names)
    ensures forall key :: |ClassAt(voters, phonetic, key)| == if key in counters then counters[key] else 0
  {
    counters, names := map[], map[];
    for i := 0 to |voters|
      invariant Tally(voters[..i], phonetic, counters, names)
    {
      var v := voters[i];
      assert voters[..i + 1] == voters[..i] + [v];
      assert voters[..i + 1][..i] == voters[..i];
      if v.city != "" {
        var key := phonetic(v.city);
        counters := counters[key := (if key in counters then counters[key] else 0) + 1];
        names := names[key := v.city];
      }
    }
    assert voters[..|voters|] == voters;
    forall key ensures |ClassAt(voters, phonetic, key)| == if key in counters then counters[key] else 0 {
      ClassCountIsPositions(voters, phonetic, key);
    }
  }

  lemma {:induction false} SpellingInClass(voters: seq<Detail>, phonetic: string -> string, key: string)
    requires ClassCount(voters, phonetic, key) > 0
    ensures exists d :: d in voters && d.city == LastSpelling(voters, phonetic, key) && InClass(d, phonetic, key)
    decreases |voters|
  {
    var n := |voters| - 1;
    if InClass(voters[n], phonetic, key) {
      assert voters[n] in voters;
    } else {
      SpellingInClass(voters[..n], phonetic, key);
      var d :| d in voters[..n] && d.city == LastSpelling(voters[..n], phonetic, key) && InClass(d, phonetic, key);
      assert d in voters;
    }
  }

  lemma {:induction false} MemberCounts(voters: seq<Detail>, phonetic: string -> string, i: nat)
    requires i < |voters| && voters[i].city != ""
    ensures ClassCount(voters, phonetic, phonetic(voters[i].city)) > 0
    decreases |voters|
  {
    var n := |voters| - 1;
    if i < n {
      assert voters[..n][i] == voters[i];
      MemberCounts(voters[..n], phonetic, i);
    }
  }

  method ResolveIPMergeCity(voters: seq<Detail>, phonetic: string -> string) returns (city: string)
    ensures CityChosen(voters, phonetic, city)
    ensures CityTallied(voters, phonetic, city)
  {
    var counters, names := TallyCities(voters, phonetic);
    var maxLen := 0;
    ghost var best := "";
    city := "";
    var rest := counters.Keys;
    while rest != {}
      invariant rest <= counters.Keys
      invariant maxLen == 0 ==> city == "" && rest == counters.Keys
      invariant maxLen > 0 ==> best in counters && counters[best] == maxLen && city == names[best]
      invariant forall key :: key in counters && key !in rest ==> counters[key] <= maxLen
    {
      var k :| k in rest;
      rest := rest - {k};
      if counters[k] > maxLen {
        city, maxLen, best := names[k], counters[k], k;
      }
    }
    if maxLen > 0 {
      SpellingInClass(voters, phonetic, best);
      assert phonetic(city) == best;
    } else {
      forall d | d in voters ensures d.city == "" {
        var i :| 0 <= i < |voters| && voters[i] == d;
        if d.city != "" {
          MemberCounts(voters, phonetic, i);
        }
      }
    }
    TalliedIsChosen(voters, phonetic, city);
  }

  /** A ResolveResult; `country` stands for the names of the country copied into it. */
  datatype Verdict = Verdict(ip: IP, details: seq<Detail>, country: nat, city: string)

  /** The whole merge; `phonetic` is Double Metaphone's primary key. The answers themselves are passed on untouched. */
  method ResolveIPMerge(ip: IP, details: seq<Detail>, phonetic: string -> string) returns (rv: Verdict)
    ensures rv.ip == ip && rv.details == details
    ensures Plurality(details, rv.country)
    ensures rv.country == 0 ==> rv.city == ""
    ensures rv.country > 0 ==> MajorityCity(details, rv.country, phonetic, rv.city)
  {
    var countries := GroupByCountry(details);
    var country, voters;
    ghost var order;
    country, voters, order := LargestGroup(countries);
    GroupWins(countries, details, country, voters);
    var city := ResolveIPMergeCity(voters, phonetic);
    if country > 0 {
      ChosenIsMajority(details, country, phonetic, city);
    }
    rv := Verdict(ip, details, country, city);
  }

  /** The same on the voters of each country. */
  ghost predicate MostVotes(details: seq<Detail>, c: nat) {
    && (c == 0 <==> forall k :: k > 0 ==> Votes(details, k) == 0)
    && (forall k :: k > 0 && c > 0 ==> Votes(details, k) <= Votes(details, c))
  }

  lemma PluralityIsMostVotes(details: seq<Detail>, c: nat)
    ensures Plurality(details, c) <==> MostVotes(details, c)
  {
    forall k ensures Votes(details, k) == |CountryAt(details, k)| {
      VotesArePositions(details, k);
    }
    if forall i :: 0 <= i < |details| ==> details[i].country == 0 {
      forall k | k > 0 ensures Votes(details, k) == 0 {
        assert CountryAt(details, k) == {};
      }
    } else {
      var i: nat :| i < |details| && details[i].country != 0;
      assert i in CountryAt(details, details[i].country);
      assert Votes(details, details[i].country) > 0;
    }
    assert CountryAt(details, c) == {} <==> |CountryAt(details, c)| == 0;
  }

  /** The largest group is a plurality. */
  lemma GroupWins(countries: map<nat, seq<Detail>>, details: seq<Detail>, country: nat, voters: seq<Detail>)
    requires Groups(countries, details)
    requires country == 0 <==> countries == map[]
    requires country != 0 ==> country in countries && voters == countries[country]
    requires forall c :: c in countries ==> |countries[c]| <= |voters|
    ensures Plurality(details, country)
    ensures country != 0 ==> voters == Voters(details, country)
  {
    if country > 0 {
      forall k | k > 0 ensures |CountryAt(details, k)| <= |CountryAt(details, country)| {
        GroupsVotes(countries, details, k);
        GroupsVotes(countries, details, country);
        VotesArePositions(details, k);
        VotesArePositions(details, country);
      }
      VotesArePositions(details, country);
      assert |CountryAt(details, country)| > 0;
      var i :| i in CountryAt(details, country);
      assert details[i].country != 0;
    } else {
      forall i | 0 <= i < |details| ensures details[i].country == 0 {
        assert details[i] in details;
      }
    }
  }

  /** The city chosen among c's voters, seen on the positions of the answers. */
  lemma ChosenIsMajority(details: seq<Detail>, c: nat, phonetic: string -> string, city: string)
    requires CityTallied(Voters(details, c), phonetic, city)
    ensures MajorityCity(details, c, phonetic, city)
  {
    var voters := Voters(details, c);
    VotersMembers(details, c);
    forall key ensures ClassCount(voters, phonetic, key) == |CityAt(details, c, phonetic, key)| {
      ClassIsPositions(details, c, phonetic, key);
    }
    if city != "" {
      var d :| d in voters && d.city == city;
      var k :| 0 <= k < |voters| && voters[k] == d;
      MemberCounts(voters, phonetic, k);
      assert |CityAt(details, c, phonetic, phonetic(city))| > 0;
      var i := LastIsLatest(details, c, phonetic, phonetic(city));
      assert details[i].city == city;
    } else {
      forall i | 0 <= i < |details| && details[i].country == c ensures details[i].city == "" {
        assert details[i] in voters;
      }
    }
  }

  lemma {:induction false} VotersMembers(details: seq<Detail>, c: nat)
    ensures forall d :: d in Voters(details, c) <==> d in details && d.country == c
    decreases |details|
  {
    if details != [] {
      var n := |details| - 1;
      VotersMembers(details[..n], c);
      assert details == details[..n] + [details[n]];
    }
  }

  // ----- independence of the arrival order

  lemma VotersConcat(a: seq<Detail>, b: seq<Detail>, c: nat)
    ensures Voters(a + b, c) == Voters(a, c) + Voters(b, c)
    decreases |b|
  {
    if b == [] {
      assert a + b == a;
    } else {
      var n := |b| - 1;
      assert (a + b)[..|a| + n] == a + b[..n];
      VotersConcat(a, b[..n], c);
    }
  }

  lemma {:induction false} VotesBag(a: seq<Detail>, b: seq<Detail>, c: nat)
    requires multiset(a) == multiset(b)
    ensures Votes(a, c) == Votes(b, c)
    decreases |a|
  {
    if a == [] {
      assert |multiset(b)| == 0;
    } else {
      var j := FindIn(a, 0, b);
      TakeOut(a, 0, b, j);
      VotesBag(Without(a, 0), Without(b, j), c);
      VotesWithout(a, 0, c);
      VotesWithout(b, j, c);
    }
  }

  lemma VotesWithout(a: seq<Detail>, i: nat, c: nat)
    requires i < |a|
    ensures Votes(a, c) == Votes(Without(a, i), c) + (if a[i].country == c then 1 else 0)
  {
    assert a == a[..i] + ([a[i]] + a[i + 1..]);
    VotersConcat(a[..i], [a[i]] + a[i + 1..], c);
    VotersConcat([a[i]], a[i + 1..], c);
    VotersConcat(a[..i], a[i + 1..], c);
    assert [a[i]][..0] == [];
  }

  ghost predicate StrictPlurality(details: seq<Detail>, c: nat) {
    c > 0 && Votes(details, c) > 0 && forall k :: k > 0 && k != c ==> Votes(details, k) < Votes(details, c)
  }

  /**
   The country does not depend on the arrival order, nor on map order, if and only if it is unknown or wins
   strictly; otherwise each tied country is a legal outcome.
   */
  lemma OrderFreeIffStrict(details: seq<Detail>, c: nat)
    requires Plurality(details, c)
    ensures (c == 0 || StrictPlurality(details, c)) <==>
      (forall other, d :: multiset(other) == multiset(details) && Plurality(other, d) ==> d == c)
  {
    PluralityIsMostVotes(details, c);
    if c == 0 || StrictPlurality(details, c) {
      forall other, d | multiset(other) == multiset(details) && Plurality(other, d) ensures d == c {
        PluralityIsMostVotes(other, d);
        VotesBag(other, details, c);
        VotesBag(other, details, d);
        forall k ensures Votes(other, k) == Votes(details, k) {
          VotesBag(other, details, k);
        }
      }
    } else {
      var k :| k > 0 && k != c && Votes(details, k) >= Votes(details, c);
      assert Votes(details, k) == Votes(details, c);
      PluralityIsMostVotes(details, k);
      assert Plurality(details, k);
    }
  }

  /** The loop can select exactly the countries nobody out-votes: each one, for some map order. */
  lemma SelectedIffPlurality(details: seq<Detail>, countries: map<nat, seq<Detail>>, c: nat)
    requires Groups(countries, details) && c > 0
    ensures Plurality(details, c) <==>
      exists order :: Enumerates(order, countries.Keys) && Pick(order, SizeOf(countries)) == c
  {
    forall k | k > 0 ensures Votes(details, k) == SizeOf(countries)(k) {
      GroupsVotes(countries, details, k);
    }
    PluralityIsMostVotes(details, c);
    if Plurality(details, c) {
      var rest := EnumerationOf(countries.Keys - {c});
      var order := [c] + rest;
      assert c in countries;
      assert Enumerates(order, countries.Keys);
      FirstWins(order, SizeOf(countries));
    }
    if order :| Enumerates(order, countries.Keys) && Pick(order, SizeOf(countries)) == c {
      PickIsMax(order, SizeOf(countries));
      assert Votes(details, c) > 0;
      forall k | k > 0 ensures Votes(details, k) <= Votes(details, c) {
        if k in countries {
          assert k in order;
        }
      }
    }
  }

  lemma {:induction false} EnumerationOf(keys: set<nat>) returns (order: seq<nat>)
    ensures Enumerates(order, keys)
    decreases |keys|
  {
    if keys == {} {
      order := [];
    } else {
      var k :| k in keys;
      var rest := EnumerationOf(keys - {k});
      EnumerateMore(rest, keys - {k}, k);
      assert keys - {k} + {k} == keys;
      order := rest + [k];
    }
  }
}
