/** The order of a batch answer: the `ipsToIndex` map and the final sort of `ResolveAll`. */
module ResolveOrder {
  import opened ResolveTask
  import opened Sums

  /** One merged answer: the address, and what the providers said about it. */
  datatype Result = Result(ip: IP, details: seq<Detail>)

  /** `ipsToIndex` after the addresses of `ips` have been scheduled: the last position of each. */
  function IndexOf(ips: seq<IP>): map<IP, nat> {
    if ips == [] then map[]
    else IndexOf(ips[..|ips| - 1])[ips[|ips| - 1] := |ips| - 1]
  }

  /** A lookup in a Go map: zero for a missing key. */
  function Key(index: map<IP, nat>, ip: IP): nat {
    if ip in index then index[ip] else 0
  }

  predicate Ordered(index: map<IP, nat>, ips: seq<IP>) {
    forall i, j :: 0 <= i < j < |ips| ==> Key(index, ips[i]) <= Key(index, ips[j])
  }

  function Addresses(results: seq<Result>): seq<IP> {
    seq(|results|, i requires 0 <= i < |results| => results[i].ip)
  }

  /** What sort.Slice may return: any permutation in the order of the index map. */
  ghost predicate SortOf(index: map<IP, nat>, rv: seq<Result>, out: seq<Result>) {
    multiset(out) == multiset(rv) && Ordered(index, Addresses(out))
  }

  // ----- a sorted permutation exists

  lemma OrderedFrom(index: map<IP, nat>, first: Result, rest: seq<Result>)
    requires Ordered(index, Addresses(rest))
    requires forall i :: 0 <= i < |rest| ==> Key(index, first.ip) <= Key(index, rest[i].ip)
    ensures Ordered(index, Addresses([first] + rest))
  {
    var o, q := Addresses([first] + rest), Addresses(rest);
    assert forall i :: 1 <= i < |o| ==> o[i] == q[i - 1];
  }

  lemma {:induction false} Insert(index: map<IP, nat>, sorted: seq<Result>, r: Result) returns (out: seq<Result>)
    requires Ordered(index, Addresses(sorted))
    ensures SortOf(index, [r] + sorted, out)
    ensures forall i :: 0 <= i < |out| ==> out[i] == r || out[i] in sorted
    decreases |sorted|
  {
    if sorted == [] || Key(index, r.ip) <= Key(index, sorted[0].ip) {
      out := [r] + sorted;
      var b := Addresses(sorted);
      assert forall i :: 0 <= i < |sorted| ==> b[i] == sorted[i].ip && Key(index, b[0]) <= Key(index, b[i]);
      OrderedFrom(index, r, sorted);
    } else {
      TailSorted(index, sorted);
      var rest := Insert(index, sorted[1..], r);
      out := [sorted[0]] + rest;
      SwapHead(sorted, r, rest);
      HeadFirst(index, sorted, r, rest);
      OrderedFrom(index, sorted[0], rest);
    }
  }

  lemma SwapHead(sorted: seq<Result>, r: Result, rest: seq<Result>)
    requires sorted != [] && multiset(rest) == multiset([r] + sorted[1..])
    ensures multiset([sorted[0]] + rest) == multiset([r] + sorted)
  {
    assert [r] + sorted == [r] + ([sorted[0]] + sorted[1..]);
  }

  lemma TailSorted(index: map<IP, nat>, sorted: seq<Result>)
    requires sorted != [] && Ordered(index, Addresses(sorted))
    ensures Ordered(index, Addresses(sorted[1..]))
  {
    var a, b := Addresses(sorted), Addresses(sorted[1..]);
    assert forall i :: 0 <= i < |b| ==> b[i] == a[i + 1];
  }

  /** The head of a sorted list comes before everything that is in its tail or is a new element not below it. */
  lemma HeadFirst(index: map<IP, nat>, sorted: seq<Result>, r: Result, rest: seq<Result>)
    requires sorted != [] && Ordered(index, Addresses(sorted)) && Key(index, sorted[0].ip) <= Key(index, r.ip)
    requires forall i :: 0 <= i < |rest| ==> rest[i] == r || rest[i] in sorted[1..]
    ensures forall i :: 0 <= i < |rest| ==> Key(index, sorted[0].ip) <= Key(index, rest[i].ip)
  {
    var a := Addresses(sorted);
    forall i | 0 <= i < |rest| ensures Key(index, sorted[0].ip) <= Key(index, rest[i].ip) {
      if rest[i] != r {
        var k :| 0 <= k < |sorted[1..]| && sorted[1..][k] == rest[i];
        assert a[0] == sorted[0].ip && a[k + 1] == rest[i].ip;
      }
    }
  }

  lemma {:induction false} SortExists(index: map<IP, nat>, rv: seq<Result>) returns (out: seq<Result>)
    ensures SortOf(index, rv, out)
    decreases |rv|
  {
    if rv == [] {
      out := [];
    } else {
      var rest := SortExists(index, rv[1..]);
      out := Insert(index, rest, rv[0]);
      assert rv == [rv[0]] + rv[1..];
      assert multiset([rv[0]] + rest) == multiset{rv[0]} + multiset(rest);
    }
  }

  // ----- the index map

  lemma {:induction false} IndexIsLast(ips: seq<IP>)
    ensures forall ip :: ip in IndexOf(ips) <==> ip in ips
    ensures forall ip :: ip in IndexOf(ips) ==> IndexOf(ips)[ip] < |ips| && ips[IndexOf(ips)[ip]] == ip
    ensures forall i :: 0 <= i < |ips| ==> ips[i] in IndexOf(ips) && i <= IndexOf(ips)[ips[i]]
    decreases |ips|
  {
    if ips != [] {
      var n := |ips| - 1;
      IndexIsLast(ips[..n]);
      assert ips == ips[..n] + [ips[n]];
    }
  }

  /** Different scheduled addresses have different keys. */
  lemma KeyInjective(ips: seq<IP>, a: IP, b: IP)
    requires a in ips && b in ips && Key(IndexOf(ips), a) == Key(IndexOf(ips), b)
    ensures a == b
  {
    IndexIsLast(ips);
  }

  /** Equal addresses stand next to each other. */
  predicate Contiguous(ips: seq<IP>) {
    forall i, j, k :: 0 <= i < j < k < |ips| && ips[i] == ips[k] ==> ips[j] == ips[i]
  }

  predicate Distinct(ips: seq<IP>) {
    forall i, j :: 0 <= i < j < |ips| ==> ips[i] != ips[j]
  }

  lemma OrderedMakesContiguous(ips: seq<IP>)
    requires Ordered(IndexOf(ips), ips)
    ensures Contiguous(ips)
  {
    forall i, j, k | 0 <= i < j < k < |ips| && ips[i] == ips[k] ensures ips[j] == ips[i] {
      assert Key(IndexOf(ips), ips[i]) <= Key(IndexOf(ips), ips[j]) <= Key(IndexOf(ips), ips[k]);
      KeyInjective(ips, ips[i], ips[j]);
    }
  }

  lemma ContiguousMakesOrdered(ips: seq<IP>)
    requires Contiguous(ips)
    ensures Ordered(IndexOf(ips), ips)
  {
    var index := IndexOf(ips);
    IndexIsLast(ips);
    forall i, j | 0 <= i < j < |ips| ensures Key(index, ips[i]) <= Key(index, ips[j]) {
      var k := index[ips[i]];
      if j < k {
        assert ips[i] == ips[k];
        assert ips[j] == ips[i];
      }
    }
  }

  lemma OrderedIffContiguous(ips: seq<IP>)
    ensures Ordered(IndexOf(ips), ips) <==> Contiguous(ips)
  {
    if Ordered(IndexOf(ips), ips) {
      OrderedMakesContiguous(ips);
    }
    if Contiguous(ips) {
      ContiguousMakesOrdered(ips);
    }
  }

  /** Two orderings of the same addresses are equal when keys tell addresses apart. */
  lemma {:induction false} OrderUnique(index: map<IP, nat>, a: seq<IP>, b: seq<IP>)
    requires multiset(a) == multiset(b) && Ordered(index, a) && Ordered(index, b)
    requires forall i, j :: 0 <= i < |a| && 0 <= j < |a| && Key(index, a[i]) == Key(index, a[j]) ==> a[i] == a[j]
    ensures a == b
    decreases |a|
  {
    assert |a| == |multiset(a)| == |multiset(b)| == |b|;
    if a != [] {
      HeadsAgree(index, a, b);
      TailsAgree(a, b);
      TailOrdered(index, a);
      TailOrdered(index, b);
      assert forall i :: 0 <= i < |a| - 1 ==> a[1..][i] == a[i + 1];
      OrderUnique(index, a[1..], b[1..]);
      assert a == [a[0]] + a[1..];
      assert b == [b[0]] + b[1..];
    }
  }

  lemma TailsAgree(a: seq<IP>, b: seq<IP>)
    requires a != [] && b != [] && a[0] == b[0] && multiset(a) == multiset(b)
    ensures multiset(a[1..]) == multiset(b[1..])
  {
    TakeOut(a, 0, b, 0);
    assert Without(a, 0) == a[1..] && Without(b, 0) == b[1..];
  }

  lemma TailOrdered(index: map<IP, nat>, a: seq<IP>)
    requires a != [] && Ordered(index, a)
    ensures Ordered(index, a[1..])
  {
    assert forall i :: 0 <= i < |a| - 1 ==> a[1..][i] == a[i + 1];
  }

  lemma HeadsAgree(index: map<IP, nat>, a: seq<IP>, b: seq<IP>)
    requires a != [] && b != [] && multiset(a) == multiset(b) && Ordered(index, a) && Ordered(index, b)
    requires forall i, j :: 0 <= i < |a| && 0 <= j < |a| && Key(index, a[i]) == Key(index, a[j]) ==> a[i] == a[j]
    ensures a[0] == b[0]
  {
    var i := FindIn(a, 0, b);
    var j := FindIn(b, 0, a);
    assert Key(index, a[0]) == Key(index, b[0]);
  }

  lemma AddressesWithout(b: seq<Result>, i: nat)
    requires i < |b|
    ensures Addresses(Without(b, i)) == Without(Addresses(b), i)
  {
  }

  lemma {:induction false} AddressesBag(a: seq<Result>, b: seq<Result>)
    requires multiset(a) == multiset(b)
    ensures multiset(Addresses(a)) == multiset(Addresses(b))
    decreases |a|
  {
    if a == [] {
      assert |multiset(b)| == 0;
    } else {
      var j := FindIn(a, 0, b);
      TakeOut(a, 0, b, j);
      AddressesBag(Without(a, 0), Without(b, j));
      AddressesWithout(a, 0);
      AddressesWithout(b, j);
      WithoutBag(Addresses(a), 0);
      WithoutBag(Addresses(b), j);
    }
  }

  /**
   When every address of the batch has been answered, the sorted answer is in input order
   if and only if equal addresses stand next to each other in the input.
   */
  lemma PositionalIffContiguous(ips: seq<IP>, rv: seq<Result>, out: seq<Result>)
    requires multiset(Addresses(rv)) == multiset(ips)
    requires SortOf(IndexOf(ips), rv, out)
    ensures Addresses(out) == ips <==> Contiguous(ips)
  {
    AddressesBag(rv, out);
    OrderedIffContiguous(ips);
    if Contiguous(ips) {
      forall i, j | 0 <= i < |ips| && 0 <= j < |ips| && Key(IndexOf(ips), ips[i]) == Key(IndexOf(ips), ips[j])
        ensures ips[i] == ips[j]
      {
        KeyInjective(ips, ips[i], ips[j]);
      }
      OrderUnique(IndexOf(ips), ips, Addresses(out));
    }
  }

  /** a is obtained from the positions pos of b, in order. */
  predicate Picks(a: seq<IP>, b: seq<IP>, pos: seq<nat>) {
    && |pos| == |a|
    && (forall i :: 0 <= i < |pos| ==> pos[i] < |b| && a[i] == b[pos[i]])
    && (forall i, j :: 0 <= i < j < |pos| ==> pos[i] < pos[j])
  }

  lemma AtMostOnce(a: seq<IP>, i: nat, j: nat)
    requires i < j < |a| && a[i] == a[j]
    ensures multiset(a)[a[i]] >= 2
  {
    assert a == a[..i] + ([a[i]] + (a[i + 1..j] + ([a[j]] + a[j + 1..])));
  }

  lemma {:induction false} DistinctOnce(ips: seq<IP>, ip: IP)
    requires Distinct(ips)
    ensures multiset(ips)[ip] <= 1
    decreases |ips|
  {
    if ips != [] {
      assert ips == [ips[0]] + ips[1..];
      DistinctOnce(ips[1..], ip);
      if ip == ips[0] {
        assert ip !in ips[1..];
      }
    }
  }

  /** Whatever part of a batch of distinct addresses was answered, it comes back as a subsequence in input order. */
  lemma PartialInOrder(ips: seq<IP>, rv: seq<Result>, out: seq<Result>) returns (pos: seq<nat>)
    requires Distinct(ips)
    requires multiset(Addresses(rv)) <= multiset(ips)
    requires SortOf(IndexOf(ips), rv, out)
    ensures Picks(Addresses(out), ips, pos)
  {
    AddressesBag(rv, out);
    IndexIsLast(ips);
    var a := Addresses(out);
    var index := IndexOf(ips);
    forall i | 0 <= i < |a| ensures a[i] in ips {
      assert a[i] in multiset(a);
      assert a[i] in multiset(ips);
    }
    pos := seq(|a|, i requires 0 <= i < |a| => Key(index, a[i]));
    forall i, j | 0 <= i < j < |a| ensures pos[i] < pos[j] {
      if pos[i] == pos[j] {
        KeyInjective(ips, a[i], a[j]);
        AtMostOnce(a, i, j);
        DistinctOnce(ips, a[i]);
      }
    }
  }
}
