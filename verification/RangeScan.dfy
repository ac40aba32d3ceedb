/**
 What the software77 database is supposed to answer: a linear scan over the loaded ranges. The tree of
 blocks refines it, and for disjoint ranges it is simply "the range that holds the address".
 */
module RangeScans {
  import opened Options
  import opened Bits
  import opened RangeSplits
  import opened PrefixTrees

  /** The addresses lo..hi of one family; a CIDR block is the range of its addresses. */
  datatype Range = Range(v4: bool, lo: nat, hi: nat, code: nat)

  function Width(v4: bool): nat {
    if v4 then 32 else 128
  }

  predicate Proper(r: Range) {
    r.lo <= r.hi < Pow2(Width(r.v4))
  }

  predicate Holds(r: Range, v4: bool, ip: seq<bool>) {
    r.v4 == v4 && r.lo <= Value(ip) <= r.hi
  }

  /** Size class of the block of `r` around `ip`: longer prefix, smaller block. */
  function DepthIn(r: Range, v4: bool, ip: seq<bool>): nat
    requires Holds(r, v4, ip)
    ensures DepthIn(r, v4, ip) <= |ip|
  {
    Depth(r.lo, r.hi, ip, 0)
  }

  /** A later range takes over only when its block around `ip` is strictly smaller. */
  function Pick(best: Option<Entry>, r: Range, v4: bool, ip: seq<bool>): Option<Entry> {
    if Holds(r, v4, ip) && (best.None? || DepthIn(r, v4, ip) > |best.value.prefix|)
    then Some(Entry(ip[..DepthIn(r, v4, ip)], r.code))
    else best
  }

  function Winner(ranges: seq<Range>, v4: bool, ip: seq<bool>): Option<Entry> {
    if ranges == [] then None
    else
      var n := |ranges| - 1;
      Pick(Winner(ranges[..n], v4, ip), ranges[n], v4, ip)
  }

  /** The blocks a range is stored as. */
  function BlocksOf(r: Range): seq<Entry>
    requires Proper(r)
  {
    Tagged(Split(Width(r.v4), r.lo, r.hi), r.code)
  }

  /** Storing the blocks of one range moves the tree's answers as one step of the scan does. */
  lemma AddRange(t: Tree, r: Range, ip: seq<bool>)
    requires Proper(r) && |ip| == Width(r.v4)
    ensures FindDeepest(AddAll(t, BlocksOf(r)), ip) == Pick(FindDeepest(t, ip), r, r.v4, ip)
  {
    var blocks := Split(|ip|, r.lo, r.hi);
    if Holds(r, r.v4, ip) {
      var only := ip[..DepthIn(r, r.v4, ip)];
      forall b | b in blocks && b <= ip
        ensures b == only
      {
        CoveredOnce(r.lo, r.hi, ip, b);
      }
      CoveredOnce(r.lo, r.hi, ip, only);
      AddBlocksFind(t, blocks, r.code, ip, only);
    } else {
      forall b
        ensures !(b in blocks && b <= ip)
      {
        CoveredOnce(r.lo, r.hi, ip, b);
      }
      CoveredOnce(r.lo, r.hi, ip, []);
      AddBlocksFind(t, blocks, r.code, ip, []);
    }
  }

  /** The tree answers every address as the scan over the ranges does. */
  ghost predicate Refines(t: Tree, ranges: seq<Range>, v4: bool) {
    forall ip: seq<bool> :: |ip| == Width(v4) ==> FindDeepest(t, ip) == Winner(ranges, v4, ip)
  }

  lemma RefinesRange(t: Tree, ranges: seq<Range>, r: Range)
    requires Proper(r) && Refines(t, ranges, r.v4)
    ensures Refines(AddAll(t, BlocksOf(r)), ranges + [r], r.v4)
  {
    assert (ranges + [r])[..|ranges|] == ranges;
    forall ip: seq<bool> | |ip| == Width(r.v4)
      ensures FindDeepest(AddAll(t, BlocksOf(r)), ip) == Winner(ranges + [r], r.v4, ip)
    {
      AddRange(t, r, ip);
    }
  }

  /** The other family does not see a range. */
  lemma RefinesOther(t: Tree, ranges: seq<Range>, r: Range, v4: bool)
    requires r.v4 != v4 && Refines(t, ranges, v4)
    ensures Refines(t, ranges + [r], v4)
  {
    assert (ranges + [r])[..|ranges|] == ranges;
  }

  /** A CIDR block added as one entry counts as the range of its addresses. */
  lemma RefinesNetwork(t: Tree, ranges: seq<Range>, v4: bool, p: seq<bool>, code: nat)
    requires |p| <= Width(v4) && Refines(t, ranges, v4)
    ensures Refines(Add(t, p, code), ranges + [Range(v4, First(Width(v4), p), Last(Width(v4), p), code)], v4)
  {
    var r := Range(v4, First(Width(v4), p), Last(Width(v4), p), code);
    assert (ranges + [r])[..|ranges|] == ranges;
    forall ip: seq<bool> | |ip| == Width(v4)
      ensures FindDeepest(Add(t, p, code), ip) == Winner(ranges + [r], v4, ip)
    {
      AddFind(t, p, code, ip);
      PrefixIsBlock(p, ip);
      if p <= ip {
        OneBlock(|ip|, p, ip);
        assert ip[..|p|] == p;
      }
    }
  }

  /** Range i holds `ip` in a smaller block than every earlier range and in no larger one than any later range. */
  ghost predicate Wins(ranges: seq<Range>, v4: bool, ip: seq<bool>, i: nat)
    requires i < |ranges|
  {
    && Holds(ranges[i], v4, ip)
    && (forall j :: 0 <= j < |ranges| && Holds(ranges[j], v4, ip) ==>
          && DepthIn(ranges[j], v4, ip) <= DepthIn(ranges[i], v4, ip)
          && (j < i ==> DepthIn(ranges[j], v4, ip) < DepthIn(ranges[i], v4, ip)))
  }

  lemma {:induction false} WinnerWins(ranges: seq<Range>, v4: bool, ip: seq<bool>) returns (i: nat)
    ensures Winner(ranges, v4, ip) == None <==> forall j :: 0 <= j < |ranges| ==> !Holds(ranges[j], v4, ip)
    ensures Winner(ranges, v4, ip).Some? ==>
              && i < |ranges| && Wins(ranges, v4, ip, i)
              && Winner(ranges, v4, ip).value == Entry(ip[..DepthIn(ranges[i], v4, ip)], ranges[i].code)
  {
    i := 0;
    if ranges != [] {
      var n := |ranges| - 1;
      var rest := ranges[..n];
      assert forall j :: 0 <= j < n ==> rest[j] == ranges[j];
      i := WinnerWins(rest, v4, ip);
      var last := ranges[n];
      if Holds(last, v4, ip) && (Winner(rest, v4, ip).None? || DepthIn(last, v4, ip) > DepthIn(rest[i], v4, ip)) {
        i := n;
      }
    }
  }

  /** For any list of ranges: range i answers exactly when it holds `ip` in the smallest block, first among equals. */
  lemma WinnerExact(ranges: seq<Range>, v4: bool, ip: seq<bool>, i: nat)
    requires i < |ranges| && Wins(ranges, v4, ip, i)
    ensures Winner(ranges, v4, ip) == Some(Entry(ip[..DepthIn(ranges[i], v4, ip)], ranges[i].code))
  {
    var k := WinnerWins(ranges, v4, ip);
    assert Wins(ranges, v4, ip, k);
    assert i == k;
  }

  ghost predicate Disjoint(ranges: seq<Range>, v4: bool) {
    forall i, j :: 0 <= i < j < |ranges| && ranges[i].v4 == ranges[j].v4 == v4 ==>
      ranges[i].hi < ranges[j].lo || ranges[j].hi < ranges[i].lo
  }

  /** Disjoint ranges: the answer is the code of the one range that holds the address, in whatever order they came. */
  lemma DisjointAnswer(ranges: seq<Range>, v4: bool, ip: seq<bool>, code: nat)
    requires Disjoint(ranges, v4)
    ensures (Winner(ranges, v4, ip).Some? && Winner(ranges, v4, ip).value.tag == code)
            <==> exists i :: 0 <= i < |ranges| && Holds(ranges[i], v4, ip) && ranges[i].code == code
  {
    var k := WinnerWins(ranges, v4, ip);
    if i :| 0 <= i < |ranges| && Holds(ranges[i], v4, ip) && ranges[i].code == code {
      assert i == k;
    }
  }

  /** A range inside another one has no larger a block around any address it holds. */
  lemma NestedDepth(inner: Range, outer: Range, v4: bool, ip: seq<bool>)
    requires Holds(inner, v4, ip) && outer.v4 == v4 && outer.lo <= inner.lo && inner.hi <= outer.hi
    ensures DepthIn(outer, v4, ip) <= DepthIn(inner, v4, ip)
  {
    var d := DepthIn(inner, v4, ip);
    assert Inside(|ip|, outer.lo, outer.hi, ip[..d]);
  }

  /** Range j stores, around `ip`, the very block that range i stores there; i lies inside j. */
  predicate SameBlock(ranges: seq<Range>, v4: bool, ip: seq<bool>, j: nat, i: nat)
    requires j < |ranges| && i < |ranges| && Holds(ranges[j], v4, ip)
  {
    Inside(|ip|, ranges[i].lo, ranges[i].hi, ip[..DepthIn(ranges[j], v4, ip)])
  }

  /** Every range that holds `ip` contains range i. */
  ghost predicate Narrowest(ranges: seq<Range>, v4: bool, ip: seq<bool>, i: nat)
    requires i < |ranges|
  {
    forall j :: 0 <= j < |ranges| && Holds(ranges[j], v4, ip) ==>
                  ranges[j].lo <= ranges[i].lo && ranges[i].hi <= ranges[j].hi
  }

  /**
   Overlapping rows, with range i the narrowest around `ip`. The scan answers with some range k that stores the
   block of range i, the first one to do so: range i itself exactly when no earlier range stores that block.
   */
  lemma NarrowestAnswersIff(ranges: seq<Range>, v4: bool, ip: seq<bool>, i: nat) returns (k: nat)
    requires i < |ranges| && Holds(ranges[i], v4, ip) && Narrowest(ranges, v4, ip, i)
    ensures k <= i && Holds(ranges[k], v4, ip) && SameBlock(ranges, v4, ip, k, i)
    ensures Winner(ranges, v4, ip) == Some(Entry(ip[..DepthIn(ranges[i], v4, ip)], ranges[k].code))
    ensures forall j :: 0 <= j < k && Holds(ranges[j], v4, ip) ==> !SameBlock(ranges, v4, ip, j, i)
    ensures k == i <==> forall j :: 0 <= j < i && Holds(ranges[j], v4, ip) ==> !SameBlock(ranges, v4, ip, j, i)
  {
    SameBlockDepth(ranges, v4, ip, i);
    k := WinnerWins(ranges, v4, ip);
    assert DepthIn(ranges[i], v4, ip) <= DepthIn(ranges[k], v4, ip);
    if forall j :: 0 <= j < i && Holds(ranges[j], v4, ip) ==> !SameBlock(ranges, v4, ip, j, i) {
      assert Wins(ranges, v4, ip, i);
      WinnerExact(ranges, v4, ip, i);
      assert k == i;
    }
  }

  lemma SameBlockDepth(ranges: seq<Range>, v4: bool, ip: seq<bool>, i: nat)
    requires i < |ranges| && Holds(ranges[i], v4, ip) && Narrowest(ranges, v4, ip, i)
    ensures forall j :: 0 <= j < |ranges| && Holds(ranges[j], v4, ip) ==>
      && DepthIn(ranges[j], v4, ip) <= DepthIn(ranges[i], v4, ip)
      && (DepthIn(ranges[j], v4, ip) == DepthIn(ranges[i], v4, ip) <==> SameBlock(ranges, v4, ip, j, i))
  {
    forall j | 0 <= j < |ranges| && Holds(ranges[j], v4, ip)
      ensures DepthIn(ranges[j], v4, ip) <= DepthIn(ranges[i], v4, ip)
      ensures DepthIn(ranges[j], v4, ip) == DepthIn(ranges[i], v4, ip) <==> SameBlock(ranges, v4, ip, j, i)
    {
      NestedDepth(ranges[i], ranges[j], v4, ip);
    }
  }

  /** 0..2 before 0..1: both store the block 0..1, so address 0 is answered by the wider row. */
  lemma NarrowestMayLose(ip: seq<bool>)
    requires |ip| == 32 && Value(ip) == 0
    ensures var rows := [Range(true, 0, 2, 1), Range(true, 0, 1, 2)];
            && Winner(rows, true, ip).Some?
            && Winner(rows, true, ip).value.tag == 1
  {
    var rows := [Range(true, 0, 2, 1), Range(true, 0, 1, 2)];
    assert Holds(rows[0], true, ip) && Holds(rows[1], true, ip);
    var d := DepthIn(rows[0], true, ip);
    BlockIsEven(ip, d);
    var k := NarrowestAnswersIff(rows, true, ip, 1);
    assert SameBlock(rows, true, ip, 0, 1);
  }

  /** The block of 0..2 around 0 ends below 2: it is 0..0 or 0..1. */
  lemma BlockIsEven(ip: seq<bool>, d: nat)
    requires 0 < |ip| && Value(ip) == 0 && d <= |ip|
    ensures Last(|ip|, ip[..d]) != 2
    decreases d
  {
    if d > 0 {
      assert ip[..d][1..] == ip[1..][..d - 1];
      assert !ip[0];
      if |ip| == 1 {
        assert ip[1..][..d - 1] == [];
      } else {
        BlockIsEven(ip[1..], d - 1);
      }
    }
  }
}
