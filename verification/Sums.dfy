/** Sums and bags over a sequence, and how one update changes them. */
module Sums {
  function Sum<T>(f: T -> nat, s: seq<T>): nat {
    if s == [] then 0 else f(s[0]) + Sum(f, s[1..])
  }

  ghost function Bag<T, U>(f: T -> multiset<U>, s: seq<T>): multiset<U> {
    if s == [] then multiset{} else f(s[0]) + Bag(f, s[1..])
  }

  lemma {:induction false} SumUpdate<T>(f: T -> nat, s: seq<T>, i: nat, x: T)
    requires i < |s|
    ensures Sum(f, s[i := x]) + f(s[i]) == Sum(f, s) + f(x)
    decreases |s|
  {
    var u := s[i := x];
    if i == 0 {
      assert u[1..] == s[1..];
    } else {
      assert u[1..] == s[1..][i - 1 := x];
      SumUpdate(f, s[1..], i - 1, x);
    }
  }

  lemma {:induction false} SumAppend<T>(f: T -> nat, s: seq<T>, x: T)
    ensures Sum(f, s + [x]) == Sum(f, s) + f(x)
    decreases |s|
  {
    if s == [] {
      assert [x][1..] == [];
      assert s + [x] == [x];
    } else {
      assert (s + [x])[1..] == s[1..] + [x];
      SumAppend(f, s[1..], x);
    }
  }

  lemma {:induction false} SumAtLeast<T>(f: T -> nat, s: seq<T>, i: nat)
    requires i < |s|
    ensures f(s[i]) <= Sum(f, s)
    decreases |s|
  {
    if i > 0 {
      SumAtLeast(f, s[1..], i - 1);
    }
  }

  lemma {:induction false} SumWitness<T>(f: T -> nat, s: seq<T>) returns (i: nat)
    requires Sum(f, s) > 0
    ensures i < |s| && f(s[i]) > 0
    decreases |s|
  {
    if f(s[0]) > 0 {
      i := 0;
    } else {
      i := SumWitness(f, s[1..]);
      i := i + 1;
    }
  }

  lemma {:induction false} SumZero<T>(f: T -> nat, s: seq<T>)
    requires forall i :: 0 <= i < |s| ==> f(s[i]) == 0
    ensures Sum(f, s) == 0
    decreases |s|
  {
    if s != [] {
      assert forall i :: 0 <= i < |s| - 1 ==> s[1..][i] == s[i + 1];
      SumZero(f, s[1..]);
    }
  }

  /** When every term is 0 or 1 the sum is at most the length, and less when some term is 0. */
  lemma {:induction false} SumCount<T>(f: T -> nat, s: seq<T>)
    requires forall i :: 0 <= i < |s| ==> f(s[i]) <= 1
    ensures Sum(f, s) <= |s|
    ensures (exists i :: 0 <= i < |s| && f(s[i]) == 0) ==> Sum(f, s) < |s|
    ensures (forall i :: 0 <= i < |s| ==> f(s[i]) == 1) ==> Sum(f, s) == |s|
    decreases |s|
  {
    if s != [] {
      assert forall i :: 0 <= i < |s| - 1 ==> s[1..][i] == s[i + 1];
      SumCount(f, s[1..]);
      if i :| 0 <= i < |s| && f(s[i]) == 0 {
        if i > 0 {
          assert f(s[1..][i - 1]) == 0;
        }
      }
    }
  }

  lemma {:induction false} BagUpdate<T, U>(f: T -> multiset<U>, s: seq<T>, i: nat, x: T)
    requires i < |s|
    ensures Bag(f, s[i := x]) + f(s[i]) == Bag(f, s) + f(x)
    decreases |s|
  {
    var u := s[i := x];
    if i == 0 {
      assert u[1..] == s[1..];
    } else {
      assert u[1..] == s[1..][i - 1 := x];
      BagUpdate(f, s[1..], i - 1, x);
      var head, tail := f(s[0]), Bag(f, s[1..][i - 1 := x]);
      assert Bag(f, u) == head + tail && Bag(f, s) == head + Bag(f, s[1..]);
      assert tail + f(s[i]) == Bag(f, s[1..]) + f(x);
      assert (head + tail) + f(s[i]) == head + (tail + f(s[i]));
    }
  }

  lemma {:induction false} BagAppend<T, U>(f: T -> multiset<U>, s: seq<T>, x: T)
    ensures Bag(f, s + [x]) == Bag(f, s) + f(x)
    decreases |s|
  {
    if s == [] {
      assert [x][1..] == [];
      assert s + [x] == [x];
    } else {
      assert (s + [x])[1..] == s[1..] + [x];
      BagAppend(f, s[1..], x);
    }
  }

  lemma {:induction false} BagMember<T, U>(f: T -> multiset<U>, s: seq<T>, u: U)
    ensures u in Bag(f, s) <==> exists i :: 0 <= i < |s| && u in f(s[i])
    decreases |s|
  {
    if s != [] {
      BagMember(f, s[1..], u);
      if u in Bag(f, s[1..]) {
        var i :| 0 <= i < |s[1..]| && u in f(s[1..][i]);
        assert u in f(s[i + 1]);
      }
      if i :| 0 <= i < |s| && u in f(s[i]) {
        if i > 0 {
          assert u in f(s[1..][i - 1]);
        }
      }
    }
  }

  /** Singleton bags: the bag has as many elements as there are terms counted. */
  lemma {:induction false} BagSize<T, U>(f: T -> multiset<U>, g: T -> nat, s: seq<T>)
    requires forall i :: 0 <= i < |s| ==> |f(s[i])| == g(s[i])
    ensures |Bag(f, s)| == Sum(g, s)
    decreases |s|
  {
    if s != [] {
      assert forall i :: 0 <= i < |s| - 1 ==> s[1..][i] == s[i + 1];
      BagSize(f, g, s[1..]);
    }
  }

  /** An update that adds `extra` to one term adds it to the bag. */
  lemma BagGrows<T, U>(f: T -> multiset<U>, s: seq<T>, i: nat, x: T, extra: multiset<U>)
    requires i < |s| && f(x) == f(s[i]) + extra
    ensures Bag(f, s[i := x]) == Bag(f, s) + extra
  {
    BagUpdate(f, s, i, x);
    var b, c, d := Bag(f, s[i := x]), Bag(f, s), f(s[i]);
    assert b + d == c + (d + extra) == (c + extra) + d;
    assert (b + d) - d == b && ((c + extra) + d) - d == c + extra;
  }

  lemma SameRest<T>(x: multiset<T>, a: multiset<T>, b: multiset<T>)
    requires x + a == x + b
    ensures a == b
  {
    assert (x + a) - x == a && (x + b) - x == b;
  }

  /** The sequence without its element at i. */
  function Without<T>(s: seq<T>, i: nat): seq<T>
    requires i < |s|
  {
    s[..i] + s[i + 1..]
  }

  lemma WithoutBag<T>(s: seq<T>, i: nat)
    requires i < |s|
    ensures multiset(s) == multiset{s[i]} + multiset(Without(s, i))
  {
    assert s == s[..i] + ([s[i]] + s[i + 1..]);
  }

  /** Equal bags stay equal when one common element is taken out of each. */
  lemma TakeOut<T>(a: seq<T>, i: nat, b: seq<T>, j: nat)
    requires multiset(a) == multiset(b) && i < |a| && j < |b| && a[i] == b[j]
    ensures multiset(Without(a, i)) == multiset(Without(b, j))
  {
    WithoutBag(a, i);
    WithoutBag(b, j);
    SameRest(multiset{a[i]}, multiset(Without(a, i)), multiset(Without(b, j)));
  }

  lemma FindIn<T>(a: seq<T>, i: nat, b: seq<T>) returns (j: nat)
    requires multiset(a) == multiset(b) && i < |a|
    ensures j < |b| && b[j] == a[i]
  {
    assert a[i] in multiset(b);
    j :| 0 <= j < |b| && b[j] == a[i];
  }
}
