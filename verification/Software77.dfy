/**
 The software77 provider (providers/software77.go, providers/software77_db.go): a database built row by
 row, swapped in when both files loaded, and searched under a lock.
 */
module Software77 {
  import opened Options
  import opened Bits
  import opened RangeSplits
  import opened PrefixTrees
  import opened RangeScans
  import opened CountryCodes
  import opened RowMeanings

  // ----- the database

  /** binary.BigEndian.PutUint32, in place. */
  method PutUint32(a: array<Byte>, v: nat)
    requires a.Length == 4 && v < 0x1_0000_0000
    modifies a
    ensures a[..] == Bytes4(v)
    ensures Value(AddressBits(a[..])) == v
  {
    a[0] := v / 0x100 / 0x100 / 0x100;
    a[1] := v / 0x100 / 0x100 % 0x100;
    a[2] := v / 0x100 % 0x100;
    a[3] := v % 0x100;
    assert a[..] == Bytes4(v);
    BigEndianRoundTrip(v);
  }

  /** The four bytes of a row's number; a number outside 32 bits loses its upper bits. */
  method AddressOf(n: int) returns (ip: seq<Byte>)
    ensures |ip| == 4 && Value(AddressBits(ip)) == Uint32(n)
  {
    var bytes := new Byte[4](_ => 0);
    PutUint32(bytes, Uint32(n));
    ip := bytes[..];
  }

  lemma RangeStored(t4: Tree, t6: Tree, ranges: seq<Range>, r: Range)
    requires Proper(r) && r.v4 && Refines(t4, ranges, true) && Refines(t6, ranges, false)
    ensures Refines(AddAll(t4, BlocksOf(r)), ranges + [r], true) && Refines(t6, ranges + [r], false)
  {
    RefinesRange(t4, ranges, r);
    RefinesOther(t6, ranges, r, false);
  }

  class Software77DB {
    const codeOf: Coding
    var v4Tree: Tree
    var v6Tree: Tree
    ghost var ranges: seq<Range>

    /** Both trees answer every address as the scan over the loaded ranges does. */
    ghost predicate Valid()
      reads this
    {
      Refines(v4Tree, ranges, true) && Refines(v6Tree, ranges, false)
    }

    function TreeOf(v4: bool): Tree
      reads this
    {
      if v4 then v4Tree else v6Tree
    }

    constructor (codeOf: Coding)
      ensures Valid() && this.codeOf == codeOf && ranges == []
    {
      this.codeOf := codeOf;
      v4Tree, v6Tree := Leaf, Leaf;
      ranges := [];
    }

    method Lookup(ip: seq<Byte>) returns (code: Option<nat>)
      requires Valid() && IsAddress(ip)
      ensures code == Answer(ranges, ip)
      ensures forall b :: |b| == 4 && ip == Mapped(b) ==> code == Answer(ranges, b)
    {
      forall b | |b| == 4 && ip == Mapped(b) ensures Answer(ranges, ip) == Answer(ranges, b) {
        FormsAgree(b);
      }
      var v4Addr := To4(ip);
      var found;
      if v4Addr.Some? {
        found := FindDeepest(v4Tree, AddressBits(v4Addr.value));
      } else {
        found := FindDeepest(v6Tree, AddressBits(ip));
      }
      match found
      case None => code := None;
      case Some(e) => code := Some(e.tag);
    }

    method AddNetwork(v4: bool, prefix: seq<bool>, code: nat)
      modifies this`v4Tree, this`v6Tree
      ensures v4Tree == if v4 then Add(old(v4Tree), prefix, code) else old(v4Tree)
      ensures v6Tree == if v4 then old(v6Tree) else Add(old(v6Tree), prefix, code)
      ensures forall ip :: FindDeepest(TreeOf(v4), ip) == Better(old(FindDeepest(TreeOf(v4), ip)), Entry(prefix, code), ip)
      ensures TreeOf(!v4) == old(TreeOf(!v4))
    {
      forall ip {
        AddFind(TreeOf(v4), prefix, code, ip);
      }
      if v4 {
        v4Tree := Add(v4Tree, prefix, code);
      } else {
        v6Tree := Add(v6Tree, prefix, code);
      }
    }

    method AddIPv4Range(row: RangeRow) returns (ok: bool)
      requires Valid()
      modifies this
      ensures Valid()
      ensures ok <==> Then(old(ranges), RangeMeaning(codeOf, row)).Some?
      ensures ranges == if ok then Then(old(ranges), RangeMeaning(codeOf, row)).value else old(ranges)
    {
      var code := codeOf(row.country);
      if !Known(code) {
        return true;
      }
      if row.start.None? || row.end.None? {
        return false;
      }
      var startIP := AddressOf(row.start.value);
      var endIP := AddressOf(row.end.value);
      ok := AddCover(startIP, endIP, code);
    }

    /** From the two addresses of a row on: the cover by blocks, or an error when they are out of order. */
    method AddCover(startIP: seq<Byte>, endIP: seq<Byte>, code: Code) returns (ok: bool)
      requires Valid() && |startIP| == |endIP| == 4
      modifies this
      ensures Valid()
      ensures ok <==> Value(AddressBits(startIP)) <= Value(AddressBits(endIP))
      ensures ranges == if ok
                        then old(ranges) + [Range(true, Value(AddressBits(startIP)), Value(AddressBits(endIP)), code)]
                        else old(ranges)
    {
      var lo, hi := Value(AddressBits(startIP)), Value(AddressBits(endIP));
      if lo > hi {
        return false;
      }
      AddBlocks(Split(32, lo, hi), code);
      ghost var range := Range(true, lo, hi, code);
      RangeStored(old(v4Tree), v6Tree, ranges, range);
      ranges := ranges + [range];
      ok := true;
    }

    /** The loop over the blocks of one IPv4 range. */
    method AddBlocks(ipnets: seq<seq<bool>>, code: Code)
      modifies this`v4Tree, this`v6Tree
      ensures v4Tree == AddAll(old(v4Tree), Tagged(ipnets, code)) && v6Tree == old(v6Tree)
    {
      ghost var entries := Tagged(ipnets, code);
      for i := 0 to |ipnets|
        invariant v4Tree == AddAll(old(v4Tree), entries[..i]) && v6Tree == old(v6Tree)
      {
        assert entries[..i + 1][..i] == entries[..i];
        AddNetwork(true, ipnets[i], code);
      }
      assert entries[..|ipnets|] == entries;
    }

    method AddIPv6CIDR(row: CidrRow) returns (ok: bool)
      requires Valid() && (row.cidr.Some? ==> ProperNetwork(row.cidr.value))
      modifies this
      ensures Valid()
      ensures ok <==> Then(old(ranges), CidrMeaning(codeOf, row)).Some?
      ensures ranges == if ok then Then(old(ranges), CidrMeaning(codeOf, row)).value else old(ranges)
    {
      var code := codeOf(row.country);
      if !Known(code) {
        return true;
      }
      if row.cidr.None? {
        return false;
      }
      var Network(v4, p) := row.cidr.value;
      ghost var range := CidrMeaning(codeOf, row).range;
      RefinesNetwork(if v4 then v4Tree else v6Tree, ranges, v4, p, code);
      RefinesOther(if v4 then v6Tree else v4Tree, ranges, range, !v4);
      AddNetwork(v4, p, code);
      ranges := ranges + [range];
      ok := true;
    }
  }

  // ----- the provider

  datatype LookupResult = Found(code: nat) | NotFound | NotReady

  class Software77Provider {
    const codeOf: Coding
    var db: Software77DB?

    ghost predicate Valid()
      reads this, db
    {
      db != null ==> db.Valid() && db.codeOf == codeOf
    }

    constructor (codeOf: Coding)
      ensures Valid() && db == null && this.codeOf == codeOf
    {
      this.codeOf := codeOf;
      db := null;
    }

    /** openV4: adds the rows on top of what the database holds. */
    method OpenV4(target: Software77DB, file: File<RangeRow>) returns (ok: bool)
      requires target.Valid() && target.codeOf == codeOf
      modifies target
      ensures target.Valid()
      ensures ok <==> file.File? && file.readable && Loaded(old(target.ranges), RangeMeanings(codeOf, file.rows)).Some?
      ensures ok ==> Loaded(old(target.ranges), RangeMeanings(codeOf, file.rows)) == Some(target.ranges)
    {
      if file.Missing? {
        return false;
      }
      ghost var start, ms := target.ranges, RangeMeanings(codeOf, file.rows);
      for i := 0 to |file.rows|
        invariant target.Valid() && Loaded(start, ms[..i]) == Some(target.ranges)
      {
        LoadOne(start, ms, i);
        var added := target.AddIPv4Range(file.rows[i]);
        if !added {
          return false;
        }
      }
      assert ms[..|file.rows|] == ms;
      ok := file.readable;
    }

    /** openV6, likewise. */
    method OpenV6(target: Software77DB, file: File<CidrRow>) returns (ok: bool)
      requires target.Valid() && target.codeOf == codeOf
      requires file.File? ==> ProperRows(file.rows)
      modifies target
      ensures target.Valid()
      ensures ok <==> file.File? && file.readable && Loaded(old(target.ranges), CidrMeanings(codeOf, file.rows)).Some?
      ensures ok ==> Loaded(old(target.ranges), CidrMeanings(codeOf, file.rows)) == Some(target.ranges)
    {
      if file.Missing? {
        return false;
      }
      ghost var start, ms := target.ranges, CidrMeanings(codeOf, file.rows);
      for i := 0 to |file.rows|
        invariant target.Valid() && Loaded(start, ms[..i]) == Some(target.ranges)
      {
        LoadOne(start, ms, i);
        var added := target.AddIPv6CIDR(file.rows[i]);
        if !added {
          return false;
        }
      }
      assert ms[..|file.rows|] == ms;
      ok := file.readable;
    }

    /** A directory that loads replaces the database; one that does not leaves the old one in place, untouched. */
    method Open(dir: Snapshot) returns (ok: bool)
      requires Valid() && ProperSnapshot(dir)
      modifies this`db
      ensures Valid()
      ensures ok <==> Loads(codeOf, dir)
      ensures ok <==> Contents(codeOf, dir).Some?
      ensures ok ==> db != null && fresh(db) && Contents(codeOf, dir) == Some(db.ranges)
      ensures !ok ==> db == old(db)
    {
      ContentsIff(codeOf, dir);
      var db := new Software77DB(codeOf);
      ok := OpenV4(db, dir.ipv4);
      if ok {
        ok := OpenV6(db, dir.ipv6);
      }
      if ok {
        this.db := db;
      }
    }

    method Lookup(ip: seq<Byte>) returns (r: LookupResult)
      requires Valid() && (db != null ==> IsAddress(ip))
      ensures r == if db == null then NotReady
                   else match Answer(db.ranges, ip) case None => NotFound case Some(code) => Found(code)
    {
      if db == null {
        return NotReady;
      }
      var code := db.Lookup(ip);
      match code
      case None => r := NotFound;
      case Some(c) => r := Found(c);
    }

    method Shutdown()
      modifies this`db
      ensures Valid() && db == null
    {
      db := null;
    }
  }
}
