/** The cover of an address range by aligned blocks (IPRangeToIPNets as AddIPv4Range uses it). */
module RangeSplits {
  import opened Bits

  function Prepend(bit: bool, blocks: seq<seq<bool>>): (r: seq<seq<bool>>)
    ensures |r| == |blocks| && forall i :: 0 <= i < |r| ==> r[i] == [bit] + blocks[i]
  {
    seq(|blocks|, i requires 0 <= i < |blocks| => [bit] + blocks[i])
  }

  function LowerEnd(half: nat, hi: nat): (r: nat)
    requires half > 0
    ensures r < half
  {
    if hi < half then hi else half - 1
  }

  function UpperStart(half: nat, lo: nat): nat {
    if lo >= half then lo - half else 0
  }

  /**
   The blocks of lo..hi among the addresses of n bits: the whole space when the range fills it,
   otherwise the blocks of its part in the lower half and of its part in the upper half.
   */
  function Split(n: nat, lo: nat, hi: nat): (blocks: seq<seq<bool>>)
    requires lo <= hi < Pow2(n)
    ensures forall b :: b in blocks ==> |b| <= n
    decreases n, 1
  {
    if lo == 0 && hi == Pow2(n) - 1 then [[]]
    else LowerSplit(n, lo, hi) + UpperSplit(n, lo, hi)
  }

  function LowerSplit(n: nat, lo: nat, hi: nat): (blocks: seq<seq<bool>>)
    requires n > 0 && lo <= hi < Pow2(n)
    ensures forall b :: b in blocks ==> |b| <= n
    decreases n, 0
  {
    var half := Pow2(n - 1);
    if lo < half then Prepend(false, Split(n - 1, lo, LowerEnd(half, hi))) else []
  }

  function UpperSplit(n: nat, lo: nat, hi: nat): (blocks: seq<seq<bool>>)
    requires n > 0 && lo <= hi < Pow2(n)
    ensures forall b :: b in blocks ==> |b| <= n
    decreases n, 0
  {
    var half := Pow2(n - 1);
    if hi >= half then Prepend(true, Split(n - 1, UpperStart(half, lo), hi - half)) else []
  }

  predicate Inside(n: nat, lo: nat, hi: nat, p: seq<bool>)
    requires |p| <= n
  {
    lo <= First(n, p) && Last(n, p) <= hi
  }

  /** `p` fits into the range and the block twice its size does not. */
  predicate Maximal(n: nat, lo: nat, hi: nat, p: seq<bool>)
    requires |p| <= n
  {
    Inside(n, lo, hi, p) && (p == [] || !Inside(n, lo, hi, p[..|p| - 1]))
  }

  lemma InPrepended(bit: bool, blocks: seq<seq<bool>>, p: seq<bool>)
    ensures p in Prepend(bit, blocks) <==> p != [] && p[0] == bit && p[1..] in blocks
  {
    if p != [] && p[0] == bit && p[1..] in blocks {
      var i :| 0 <= i < |blocks| && blocks[i] == p[1..];
      assert Prepend(bit, blocks)[i] == p;
    }
  }

  /** A block other than the whole space is maximal in a range when it is so in its half of the range. */
  lemma MaximalInHalf(n: nat, lo: nat, hi: nat, p: seq<bool>)
    requires lo <= hi < Pow2(n) && 0 < |p| <= n && !(lo == 0 && hi == Pow2(n) - 1)
    ensures var half := Pow2(n - 1);
            Maximal(n, lo, hi, p) <==>
            if p[0] then hi >= half && Maximal(n - 1, UpperStart(half, lo), hi - half, p[1..])
            else lo < half && Maximal(n - 1, lo, LowerEnd(half, hi), p[1..])
  {
    var t := p[1..];
    InsideHalf(n, lo, hi, p);
    if |p| > 1 {
      InsideHalf(n, lo, hi, p[..|p| - 1]);
      assert p[..|p| - 1][1..] == t[..|t| - 1];
    }
  }

  lemma InsideHalf(n: nat, lo: nat, hi: nat, p: seq<bool>)
    requires lo <= hi < Pow2(n) && 0 < |p| <= n
    ensures var half := Pow2(n - 1);
            Inside(n, lo, hi, p) <==>
            if p[0] then hi >= half && Inside(n - 1, UpperStart(half, lo), hi - half, p[1..])
            else lo < half && Inside(n - 1, lo, LowerEnd(half, hi), p[1..])
  {
    BlockBounds(n - 1, p[1..]);
  }

  lemma InLowerSplit(n: nat, lo: nat, hi: nat, p: seq<bool>)
    requires n > 0 && lo <= hi < Pow2(n)
    ensures p in LowerSplit(n, lo, hi) <==>
            lo < Pow2(n - 1) && p != [] && !p[0] && p[1..] in Split(n - 1, lo, LowerEnd(Pow2(n - 1), hi))
  {
    var half := Pow2(n - 1);
    if lo < half {
      var inner := Split(n - 1, lo, LowerEnd(half, hi));
      assert LowerSplit(n, lo, hi) == Prepend(false, inner);
      InPrepended(false, inner, p);
    }
  }

  lemma InUpperSplit(n: nat, lo: nat, hi: nat, p: seq<bool>)
    requires n > 0 && lo <= hi < Pow2(n)
    ensures p in UpperSplit(n, lo, hi) <==>
            hi >= Pow2(n - 1) && p != [] && p[0]
            && p[1..] in Split(n - 1, UpperStart(Pow2(n - 1), lo), hi - Pow2(n - 1))
  {
    var half := Pow2(n - 1);
    if hi >= half {
      var inner := Split(n - 1, UpperStart(half, lo), hi - half);
      assert UpperSplit(n, lo, hi) == Prepend(true, inner);
      InPrepended(true, inner, p);
    }
  }

  lemma MaximalInFull(n: nat, p: seq<bool>)
    requires |p| <= n
    ensures Maximal(n, 0, Pow2(n) - 1, p) <==> p == []
  {
    BlockBounds(n, p);
    if p != [] {
      BlockBounds(n, p[..|p| - 1]);
    }
  }

  /**
   The split is exactly the set of maximal blocks of the range: nothing outside, nothing missing
   and no block that could be merged with its neighbour.
   */
  lemma {:induction false} SplitExact(n: nat, lo: nat, hi: nat, p: seq<bool>)
    requires lo <= hi < Pow2(n) && |p| <= n
    ensures p in Split(n, lo, hi) <==> Maximal(n, lo, hi, p)
    decreases n, 1
  {
    if lo == 0 && hi == Pow2(n) - 1 {
      MaximalInFull(n, p);
    } else {
      InLowerSplit(n, lo, hi, p);
      InUpperSplit(n, lo, hi, p);
      if p != [] {
        MaximalInHalf(n, lo, hi, p);
        SplitExactInHalf(n, lo, hi, p);
      }
    }
  }

  lemma {:induction false} SplitExactInHalf(n: nat, lo: nat, hi: nat, p: seq<bool>)
    requires lo <= hi < Pow2(n) && 0 < |p| <= n
    ensures var half := Pow2(n - 1);
            if p[0] then
              hi >= half ==> (p[1..] in Split(n - 1, UpperStart(half, lo), hi - half)
                              <==> Maximal(n - 1, UpperStart(half, lo), hi - half, p[1..]))
            else
              lo < half ==> (p[1..] in Split(n - 1, lo, LowerEnd(half, hi))
                             <==> Maximal(n - 1, lo, LowerEnd(half, hi), p[1..]))
    decreases n, 0
  {
    var half := Pow2(n - 1);
    if p[0] && hi >= half {
      SplitExact(n - 1, UpperStart(half, lo), hi - half, p[1..]);
    } else if !p[0] && lo < half {
      SplitExact(n - 1, lo, LowerEnd(half, hi), p[1..]);
    }
  }

  /**
   The size of the largest aligned block around `ip` that stays in the range, as the length of its
   prefix.
   */
  function Depth(lo: nat, hi: nat, ip: seq<bool>, from: nat): (d: nat)
    requires from <= |ip| && lo <= Value(ip) <= hi
    ensures from <= d <= |ip| && Inside(|ip|, lo, hi, ip[..d])
    ensures forall k :: from <= k < d ==> !Inside(|ip|, lo, hi, ip[..k])
    decreases |ip| - from
  {
    if Inside(|ip|, lo, hi, ip[..from]) then from
    else
      WholeAddress(ip);
      assert ip[..|ip|] == ip;
      Depth(lo, hi, ip, from + 1)
  }

  /**
   Every address of the range lies in exactly one block, the one Depth measures; an address
   outside lies in none.
   */
  lemma CoveredOnce(lo: nat, hi: nat, ip: seq<bool>, p: seq<bool>)
    requires lo <= hi < Pow2(|ip|)
    ensures p in Split(|ip|, lo, hi) && p <= ip
            <==> lo <= Value(ip) <= hi && p == ip[..Depth(lo, hi, ip, 0)]
  {
    var n := |ip|;
    if p <= ip {
      SplitExact(n, lo, hi, p);
      PrefixIsBlock(p, ip);
      if lo <= Value(ip) <= hi {
        var d := Depth(lo, hi, ip, 0);
        assert p == ip[..|p|];
        if |p| > d {
          assert ip[..d] <= p[..|p| - 1];
          BlockGrows(n, ip[..d], p[..|p| - 1]);
        } else if |p| == d && d > 0 {
          assert p[..|p| - 1] == ip[..d - 1];
        }
      }
    }
  }

  /** The blocks of a range that is itself one block. */
  lemma OneBlock(n: nat, p: seq<bool>, ip: seq<bool>)
    requires |ip| == n && p <= ip
    ensures First(n, p) <= Value(ip) <= Last(n, p) && Depth(First(n, p), Last(n, p), ip, 0) == |p|
  {
    PrefixIsBlock(p, ip);
    var d := Depth(First(n, p), Last(n, p), ip, 0);
    assert p == ip[..|p|];
    assert Inside(n, First(n, p), Last(n, p), ip[..|p|]);
    if d < |p| {
      BlockGrows(n, ip[..d], p);
      StrictlyLarger(n, ip[..d], p);
      assert false;
    }
  }

  lemma {:induction false} StrictlyLarger(n: nat, p: seq<bool>, q: seq<bool>)
    requires p < q && |q| <= n
    ensures First(n, p) < First(n, q) || Last(n, q) < Last(n, p)
  {
    if p == [] {
      BlockBounds(n - 1, q[1..]);
    } else {
      StrictlyLarger(n - 1, p[1..], q[1..]);
    }
  }
}
