/**
 The tag tree that holds the blocks (TreeV4 and TreeV6 of the patricia library, as the database
 uses them): one node per prefix bit, tags kept in the order they were added.
 */
module PrefixTrees {
  import opened Options

  datatype Tree = Leaf | Node(tags: seq<nat>, zero: Tree, one: Tree)

  datatype Entry = Entry(prefix: seq<bool>, tag: nat)

  function Add(t: Tree, prefix: seq<bool>, tag: nat): Tree
    decreases prefix
  {
    var Node(tags, zero, one) := if t.Leaf? then Node([], Leaf, Leaf) else t;
    if prefix == [] then Node(tags + [tag], zero, one)
    else if prefix[0] then Node(tags, zero, Add(one, prefix[1..], tag))
    else Node(tags, Add(zero, prefix[1..], tag), one)
  }

  function Under(bit: bool, found: Option<Entry>): Option<Entry> {
    match found
    case None => None
    case Some(e) => Some(Entry([bit] + e.prefix, e.tag))
  }

  /** The first tag of the deepest tagged node on the path of `ip`, with the prefix it hangs on. */
  function FindDeepest(t: Tree, ip: seq<bool>): (found: Option<Entry>)
    ensures found.Some? ==> found.value.prefix <= ip
    decreases ip
  {
    if t.Leaf? then None
    else
      var below := if ip == [] then None
                   else Under(ip[0], FindDeepest(if ip[0] then t.one else t.zero, ip[1..]));
      if below.Some? then below
      else if t.tags != [] then Some(Entry([], t.tags[0]))
      else None
  }

  function AddAll(t: Tree, entries: seq<Entry>): Tree {
    if entries == [] then t
    else
      var n := |entries| - 1;
      Add(AddAll(t, entries[..n]), entries[n].prefix, entries[n].tag)
  }

  /**
   Longest match by linear scan: an entry replaces the best one so far only when it matches and is
   strictly longer, so among equal prefixes the first stays.
   */
  function Better(best: Option<Entry>, e: Entry, ip: seq<bool>): Option<Entry> {
    if e.prefix <= ip && (best.None? || |e.prefix| > |best.value.prefix|) then Some(e) else best
  }

  function Scan(entries: seq<Entry>, ip: seq<bool>): Option<Entry> {
    if entries == [] then None
    else
      var n := |entries| - 1;
      Better(Scan(entries[..n], ip), entries[n], ip)
  }

  lemma {:induction false} AddFind(t: Tree, prefix: seq<bool>, tag: nat, ip: seq<bool>)
    ensures FindDeepest(Add(t, prefix, tag), ip) == Better(FindDeepest(t, ip), Entry(prefix, tag), ip)
    decreases prefix
  {
    if prefix != [] && ip != [] && prefix[0] == ip[0] {
      var child := if t.Leaf? then Leaf else if ip[0] then t.one else t.zero;
      AddFind(child, prefix[1..], tag, ip[1..]);
      assert prefix == [ip[0]] + prefix[1..] && ip == [ip[0]] + ip[1..];
      assert prefix <= ip <==> prefix[1..] <= ip[1..];
    }
  }

  /** The tree answers as the scan over everything ever added does. */
  lemma {:induction false} TreeIsScan(entries: seq<Entry>, ip: seq<bool>)
    ensures FindDeepest(AddAll(Leaf, entries), ip) == Scan(entries, ip)
  {
    if entries != [] {
      var n := |entries| - 1;
      TreeIsScan(entries[..n], ip);
      AddFind(AddAll(Leaf, entries[..n]), entries[n].prefix, entries[n].tag, ip);
    }
  }

  /** What the scan finds: a longest matching prefix, and the earliest entry with that prefix. */
  ghost predicate Longest(entries: seq<Entry>, ip: seq<bool>, i: nat)
    requires i < |entries|
  {
    && entries[i].prefix <= ip
    && (forall j :: 0 <= j < |entries| && entries[j].prefix <= ip ==> |entries[j].prefix| <= |entries[i].prefix|)
    && (forall j :: 0 <= j < i ==> entries[j].prefix != entries[i].prefix)
  }

  lemma {:induction false} ScanFindsLongest(entries: seq<Entry>, ip: seq<bool>) returns (i: nat)
    ensures Scan(entries, ip) == None <==> forall j :: 0 <= j < |entries| ==> !(entries[j].prefix <= ip)
    ensures Scan(entries, ip).Some? ==>
              i < |entries| && Longest(entries, ip, i) && entries[i] == Scan(entries, ip).value
  {
    i := 0;
    if entries != [] {
      var n := |entries| - 1;
      var rest := entries[..n];
      assert forall j :: 0 <= j < n ==> rest[j] == entries[j];
      i := ScanFindsLongest(rest, ip);
      var last := entries[n];
      if last.prefix <= ip && (Scan(rest, ip).None? || |last.prefix| > |rest[i].prefix|) {
        i := n;
      }
    }
  }

  /** Blocks of which at most one matches `ip` count as that one block. */
  function Tagged(blocks: seq<seq<bool>>, tag: nat): (r: seq<Entry>)
    ensures |r| == |blocks| && forall i :: 0 <= i < |r| ==> r[i] == Entry(blocks[i], tag)
  {
    seq(|blocks|, i requires 0 <= i < |blocks| => Entry(blocks[i], tag))
  }

  lemma {:induction false} AddBlocksFind(t: Tree, blocks: seq<seq<bool>>, tag: nat, ip: seq<bool>, only: seq<bool>)
    requires forall b :: b in blocks && b <= ip ==> b == only
    ensures FindDeepest(AddAll(t, Tagged(blocks, tag)), ip)
            == if only in blocks then Better(FindDeepest(t, ip), Entry(only, tag), ip) else FindDeepest(t, ip)
  {
    if blocks != [] {
      var n := |blocks| - 1;
      assert Tagged(blocks, tag)[..n] == Tagged(blocks[..n], tag);
      assert blocks == blocks[..n] + [blocks[n]];
      assert forall b :: b in blocks[..n] ==> b in blocks;
      AddBlocksFind(t, blocks[..n], tag, ip, only);
      AddFind(AddAll(t, Tagged(blocks[..n], tag)), blocks[n], tag, ip);
      assert blocks[n] in blocks;
    }
  }
}
