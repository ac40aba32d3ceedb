/**
 What the rows of the software77 files mean (providers/software77_db.go, providers/software77.go): the
 ranges they load, the errors that stop a load, and the answer of the loaded ranges to an address.
 */
module RowMeanings {
  import opened Options
  import opened Bits
  import opened RangeSplits
  import opened PrefixTrees
  import opened RangeScans
  import opened CountryCodes

  /** How country names become codes: Alpha2ToCountryCode on the tables the process built at its start. */
  type Coding = Ascii -> Code

  /** A parsed network: the family of its address and the bits its mask keeps. */
  datatype Network = Network(v4: bool, prefix: seq<bool>)

  /** Two decimal columns, absent when strconv.Atoi fails, and the country. */
  datatype RangeRow = RangeRow(start: Option<int>, end: Option<int>, country: Ascii)

  /** The CIDR column, absent when net.ParseCIDR fails, and the country. */
  datatype CidrRow = CidrRow(cidr: Option<Network>, country: Ascii)

  /** A CSV file: missing, or records up to the end of file or up to the first reading error. */
  datatype File<Row> = Missing | File(rows: seq<Row>, readable: bool)

  /** What a row means: nothing, an error, or a range. */
  datatype Meaning = Skip | Fail | Cover(range: Range)

  /** Go's conversion of an int to uint32. */
  function Uint32(x: int): (r: nat)
    ensures r < 0x1_0000_0000 == Pow2(32) && (x - r) % 0x1_0000_0000 == 0
  {
    Powers();
    x % 0x1_0000_0000
  }

  predicate ProperNetwork(n: Network) {
    |n.prefix| <= Width(n.v4)
  }

  function RangeMeaning(codeOf: Coding, row: RangeRow): (m: Meaning)
    ensures m.Cover? ==> Proper(m.range)
  {
    var code := codeOf(row.country);
    if !Known(code) then Skip
    else if row.start.None? || row.end.None? then Fail
    else
      var lo, hi := Uint32(row.start.value), Uint32(row.end.value);
      if lo > hi then Fail else Cover(Range(true, lo, hi, code))
  }

  function CidrMeaning(codeOf: Coding, row: CidrRow): (m: Meaning)
    requires row.cidr.Some? ==> ProperNetwork(row.cidr.value)
    ensures m.Cover? ==> Proper(m.range)
  {
    var code := codeOf(row.country);
    if !Known(code) then Skip
    else if row.cidr.None? then Fail
    else
      var Network(v4, p) := row.cidr.value;
      BlockBounds(Width(v4), p);
      Cover(Range(v4, First(Width(v4), p), Last(Width(v4), p), code))
  }

  function Then(ranges: seq<Range>, m: Meaning): Option<seq<Range>> {
    match m
    case Skip => Some(ranges)
    case Fail => None
    case Cover(r) => Some(ranges + [r])
  }

  /** The ranges after a list of meanings is loaded on top of others; nothing when one of them is an error. */
  function Loaded(start: seq<Range>, meanings: seq<Meaning>): Option<seq<Range>> {
    if meanings == [] then Some(start)
    else
      var n := |meanings| - 1;
      match Loaded(start, meanings[..n])
      case None => None
      case Some(ranges) => Then(ranges, meanings[n])
  }

  function RangeMeanings(codeOf: Coding, rows: seq<RangeRow>): (ms: seq<Meaning>)
    ensures |ms| == |rows| && forall i :: 0 <= i < |rows| ==> ms[i] == RangeMeaning(codeOf, rows[i])
  {
    seq(|rows|, i requires 0 <= i < |rows| => RangeMeaning(codeOf, rows[i]))
  }

  predicate ProperRows(rows: seq<CidrRow>) {
    forall i :: 0 <= i < |rows| && rows[i].cidr.Some? ==> ProperNetwork(rows[i].cidr.value)
  }

  function CidrMeanings(codeOf: Coding, rows: seq<CidrRow>): (ms: seq<Meaning>)
    requires ProperRows(rows)
    ensures |ms| == |rows| && forall i :: 0 <= i < |rows| ==> ms[i] == CidrMeaning(codeOf, rows[i])
  {
    seq(|rows|, i requires 0 <= i < |rows| => CidrMeaning(codeOf, rows[i]))
  }

  /** An IP address as Go holds it: 4 bytes, or 16 of which the IPv4-mapped ones stand for the last 4. */
  predicate IsAddress(ip: seq<Byte>) {
    |ip| == 4 || |ip| == 16
  }

  function To4(ip: seq<Byte>): (r: Option<seq<Byte>>)
    requires IsAddress(ip)
    ensures r.Some? ==> |r.value| == 4
  {
    if |ip| == 4 then Some(ip)
    else if ip[..10] == [0, 0, 0, 0, 0, 0, 0, 0, 0, 0] && ip[10] == ip[11] == 255 then Some(ip[12..])
    else None
  }

  /** Family and bits under which an address is searched. */
  function Key(ip: seq<Byte>): (r: (bool, seq<bool>))
    requires IsAddress(ip)
    ensures |r.1| == Width(r.0)
  {
    match To4(ip)
    case Some(four) => (true, AddressBits(four))
    case None => (false, AddressBits(ip))
  }

  /** The number of a four-byte address. */
  function Number(b: seq<Byte>): nat
    requires |b| == 4
  {
    0x100_0000 * (b[0] as int) + 0x1_0000 * (b[1] as int) + 0x100 * (b[2] as int) + b[3] as int
  }

  /** The sixteen-byte form of a four-byte address. */
  function Mapped(b: seq<Byte>): seq<Byte>
    requires |b| == 4
  {
    [0, 0, 0, 0, 0, 0, 0, 0, 0, 0, 255, 255] + b
  }

  lemma NumberIsValue(b: seq<Byte>)
    requires |b| == 4
    ensures Value(AddressBits(b)) == Number(b)
  {
    assert [] + [b[0]] == [b[0]] && [b[0]] + [b[1]] == [b[0], b[1]];
    assert [b[0], b[1]] + [b[2]] == [b[0], b[1], b[2]] && [b[0], b[1], b[2]] + [b[3]] == b;
    LastByte([], b[0]);
    LastByte([b[0]], b[1]);
    LastByte([b[0], b[1]], b[2]);
    LastByte([b[0], b[1], b[2]], b[3]);
  }

  /** Both forms of an IPv4 address are searched as IPv4, at its number. */
  lemma FormsAgree(b: seq<Byte>)
    requires |b| == 4
    ensures Key(b) == Key(Mapped(b)) && Key(b).0 && Value(Key(b).1) == Number(b)
    ensures forall ranges :: Answer(ranges, Mapped(b)) == Answer(ranges, b)
  {
    NumberIsValue(b);
    var m := Mapped(b);
    assert m[..10] == [0, 0, 0, 0, 0, 0, 0, 0, 0, 0] && m[12..] == b;
  }

  /** Every other sixteen bytes are searched as IPv6, by all their bits. */
  lemma OtherwiseIPv6(ip: seq<Byte>)
    requires |ip| == 16 && forall b :: |b| == 4 ==> ip != Mapped(b)
    ensures Key(ip) == (false, AddressBits(ip))
  {
    MappedForm(ip);
  }

  lemma MappedForm(ip: seq<Byte>)
    requires |ip| == 16
    ensures To4(ip).Some? <==> exists b :: |b| == 4 && ip == Mapped(b)
  {
    if To4(ip).Some? {
      assert ip == Mapped(ip[12..]);
    }
    if b :| |b| == 4 && ip == Mapped(b) {
      FormsAgree(b);
    }
  }

  /** The scan's answer for an address. */
  function Answer(ranges: seq<Range>, ip: seq<Byte>): Option<nat>
    requires IsAddress(ip)
  {
    match Winner(ranges, Key(ip).0, Key(ip).1)
    case None => None
    case Some(e) => Some(e.tag)
  }

  /** Reading stops at the first bad row: what follows cannot repair it. */
  lemma {:induction false} BadPrefix(start: seq<Range>, ms: seq<Meaning>, k: nat)
    requires k <= |ms| && Loaded(start, ms[..k]) == None
    ensures Loaded(start, ms) == None
  {
    if k < |ms| {
      assert ms[..|ms| - 1][..k] == ms[..k];
      BadPrefix(start, ms[..|ms| - 1], k);
    } else {
      assert ms[..k] == ms;
    }
  }

  /** One more row. */
  lemma LoadOne(start: seq<Range>, ms: seq<Meaning>, k: nat)
    requires k < |ms| && Loaded(start, ms[..k]).Some?
    ensures Loaded(start, ms[..k + 1]) == Then(Loaded(start, ms[..k]).value, ms[k])
    ensures Then(Loaded(start, ms[..k]).value, ms[k]) == None ==> Loaded(start, ms) == None
  {
    assert ms[..k + 1][..k] == ms[..k];
    if Loaded(start, ms[..k + 1]) == None {
      BadPrefix(start, ms, k + 1);
    }
  }

  /** Both files as Open reads them. */
  datatype Snapshot = Snapshot(ipv4: File<RangeRow>, ipv6: File<CidrRow>)

  predicate ProperSnapshot(s: Snapshot) {
    s.ipv6.File? ==> ProperRows(s.ipv6.rows)
  }

  /** The ranges a directory holds, or nothing when Open must fail on it. */
  function Contents(codeOf: Coding, s: Snapshot): Option<seq<Range>>
    requires ProperSnapshot(s)
  {
    if s.ipv4.Missing? || s.ipv6.Missing? || !s.ipv4.readable || !s.ipv6.readable then None
    else
      match Loaded([], RangeMeanings(codeOf, s.ipv4.rows))
      case None => None
      case Some(ranges) => Loaded(ranges, CidrMeanings(codeOf, s.ipv6.rows))
  }

  // ----- which directories load

  /** A known country with a number that does not parse, or with numbers out of order once they are 32 bits wide. */
  predicate BadRangeRow(codeOf: Coding, row: RangeRow) {
    && codeOf(row.country) > 0
    && (row.start == None || row.end == None
        || row.start.value % 0x1_0000_0000 > row.end.value % 0x1_0000_0000)
  }

  /** A known country with a network that does not parse. */
  predicate BadCidrRow(codeOf: Coding, row: CidrRow) {
    codeOf(row.country) > 0 && row.cidr == None
  }

  /** Both files are there, can be read to their ends, and have no bad row. */
  predicate Loads(codeOf: Coding, s: Snapshot) {
    && s.ipv4.File? && s.ipv4.readable && (forall i :: 0 <= i < |s.ipv4.rows| ==> !BadRangeRow(codeOf, s.ipv4.rows[i]))
    && s.ipv6.File? && s.ipv6.readable && (forall i :: 0 <= i < |s.ipv6.rows| ==> !BadCidrRow(codeOf, s.ipv6.rows[i]))
  }

  lemma {:induction false} LoadedIff(start: seq<Range>, ms: seq<Meaning>)
    ensures Loaded(start, ms).Some? <==> forall i :: 0 <= i < |ms| ==> !ms[i].Fail?
    decreases |ms|
  {
    if ms != [] {
      var n := |ms| - 1;
      LoadedIff(start, ms[..n]);
      assert forall i :: 0 <= i < n ==> ms[..n][i] == ms[i];
    }
  }

  lemma ContentsIff(codeOf: Coding, s: Snapshot)
    requires ProperSnapshot(s)
    ensures Contents(codeOf, s).Some? <==> Loads(codeOf, s)
  {
    if s.ipv4.File? && s.ipv6.File? {
      var ms4, ms6 := RangeMeanings(codeOf, s.ipv4.rows), CidrMeanings(codeOf, s.ipv6.rows);
      assert forall i :: 0 <= i < |ms4| ==> (ms4[i].Fail? <==> BadRangeRow(codeOf, s.ipv4.rows[i]));
      assert forall i :: 0 <= i < |ms6| ==> (ms6[i].Fail? <==> BadCidrRow(codeOf, s.ipv6.rows[i]));
      LoadedIff([], ms4);
      if Loaded([], ms4).Some? {
        LoadedIff(Loaded([], ms4).value, ms6);
      }
    }
  }

  // ----- what a loaded directory answers

  predicate KnownRow(codeOf: Coding, row: RangeRow) {
    Known(codeOf(row.country))
  }

  /** The rows the format promises: numbers of an IPv4 address each, in order. */
  predicate ProperRow(row: RangeRow) {
    row.start.Some? && row.end.Some? && 0 <= row.start.value <= row.end.value < 0x1_0000_0000
  }

  predicate DisjointRows(rows: seq<RangeRow>) {
    forall i, j :: 0 <= i < j < |rows| && ProperRow(rows[i]) && ProperRow(rows[j]) ==>
      rows[i].end.value < rows[j].start.value || rows[j].end.value < rows[i].start.value
  }

  /** The row's country is known, it holds the address and its code is the given one. */
  predicate AnswersWith(codeOf: Coding, row: RangeRow, address: nat, code: nat)
    requires ProperRow(row)
  {
    KnownRow(codeOf, row) && row.start.value <= address <= row.end.value && code == codeOf(row.country)
  }

  /** Each range comes from a row with a known country, in order, and each such row gives one. */
  ghost predicate Origins(codeOf: Coding, rows: seq<RangeRow>, ranges: seq<Range>, origin: seq<nat>) {
    && |origin| == |ranges|
    && (forall k :: 0 <= k < |ranges| ==>
          origin[k] < |rows| && RangeMeaning(codeOf, rows[origin[k]]) == Cover(ranges[k]))
    && (forall k, l :: 0 <= k < l < |ranges| ==> origin[k] < origin[l])
    && (forall i :: 0 <= i < |rows| && KnownRow(codeOf, rows[i]) ==> i in origin)
  }

  lemma {:induction false} RowsLoad(codeOf: Coding, rows: seq<RangeRow>)
      returns (ranges: seq<Range>, origin: seq<nat>)
    requires forall i :: 0 <= i < |rows| ==> ProperRow(rows[i])
    ensures Loaded([], RangeMeanings(codeOf, rows)) == Some(ranges) && Origins(codeOf, rows, ranges, origin)
  {
    ranges, origin := [], [];
    if rows != [] {
      var n := |rows| - 1;
      assert RangeMeanings(codeOf, rows)[..n] == RangeMeanings(codeOf, rows[..n]);
      ranges, origin := RowsLoad(codeOf, rows[..n]);
      MeaningOfProper(codeOf, rows[n]);
      OriginsGrow(codeOf, rows, ranges, origin);
      if KnownRow(codeOf, rows[n]) {
        ranges, origin := ranges + [RangeMeaning(codeOf, rows[n]).range], origin + [n];
      }
    }
  }

  lemma OriginsGrow(codeOf: Coding, rows: seq<RangeRow>, ranges: seq<Range>, origin: seq<nat>)
    requires rows != [] && Origins(codeOf, rows[..|rows| - 1], ranges, origin)
    ensures !KnownRow(codeOf, rows[|rows| - 1]) ==> Origins(codeOf, rows, ranges, origin)
    ensures forall r :: RangeMeaning(codeOf, rows[|rows| - 1]) == Cover(r) ==>
      Origins(codeOf, rows, ranges + [r], origin + [|rows| - 1])
  {
    assert forall i :: 0 <= i < |rows| - 1 ==> rows[..|rows| - 1][i] == rows[i];
    forall r | RangeMeaning(codeOf, rows[|rows| - 1]) == Cover(r)
      ensures Origins(codeOf, rows, ranges + [r], origin + [|rows| - 1])
    {
      OneMoreOrigin(codeOf, rows, ranges, origin, r);
    }
  }

  lemma OneMoreOrigin(codeOf: Coding, rows: seq<RangeRow>, ranges: seq<Range>, origin: seq<nat>, r: Range)
    requires rows != [] && Origins(codeOf, rows[..|rows| - 1], ranges, origin)
    requires RangeMeaning(codeOf, rows[|rows| - 1]) == Cover(r)
    ensures Origins(codeOf, rows, ranges + [r], origin + [|rows| - 1])
  {
    var n := |rows| - 1;
    var more := origin + [n];
    assert forall i :: 0 <= i < n ==> rows[..n][i] == rows[i];
    assert forall k :: 0 <= k < |origin| ==> more[k] == origin[k] < n;
    forall i | 0 <= i < |rows| && KnownRow(codeOf, rows[i]) ensures i in more {
      if i < n {
        assert i in origin;
      } else {
        assert more[|origin|] == n;
      }
    }
  }

  lemma DisjointOrigins(codeOf: Coding, rows: seq<RangeRow>, ranges: seq<Range>, origin: seq<nat>)
    requires forall i :: 0 <= i < |rows| ==> ProperRow(rows[i])
    requires DisjointRows(rows) && Origins(codeOf, rows, ranges, origin)
    ensures Disjoint(ranges, true)
  {
    forall k, l | 0 <= k < l < |ranges|
      ensures ranges[k].hi < ranges[l].lo || ranges[l].hi < ranges[k].lo
    {
      var i, j := origin[k], origin[l];
      assert i < j;
      MeaningOfProper(codeOf, rows[i]);
      MeaningOfProper(codeOf, rows[j]);
    }
  }

  lemma MeaningOfProper(codeOf: Coding, row: RangeRow)
    requires ProperRow(row)
    ensures RangeMeaning(codeOf, row) ==
            if KnownRow(codeOf, row) then Cover(Range(true, row.start.value, row.end.value, codeOf(row.country)))
            else Skip
  {
  }

  /**
   A row of a known country is loaded as the addresses it names exactly when both numbers fit 32 bits
   and are in order; any other pair of numbers is an error or, truncated, loads other addresses.
   */
  lemma TakenLiterallyIff(codeOf: Coding, row: RangeRow)
    requires KnownRow(codeOf, row) && row.start.Some? && row.end.Some?
    ensures (var m := RangeMeaning(codeOf, row);
             m.Cover? && m.range.lo == row.start.value && m.range.hi == row.end.value) <==> ProperRow(row)
  {
  }

  /** 2^32 as both ends of a row is the address 0.0.0.0. */
  lemma BeyondThirtyTwoBits(codeOf: Coding, row: RangeRow)
    requires KnownRow(codeOf, row) && row.start == row.end == Some(0x1_0000_0000)
    ensures RangeMeaning(codeOf, row) == Cover(Range(true, 0, 0, codeOf(row.country)))
  {
  }

  lemma RowsHold(codeOf: Coding, rows: seq<RangeRow>, ranges: seq<Range>, origin: seq<nat>, bits: seq<bool>, code: nat)
    requires forall i :: 0 <= i < |rows| ==> ProperRow(rows[i])
    requires Origins(codeOf, rows, ranges, origin)
    ensures (exists k :: 0 <= k < |ranges| && Holds(ranges[k], true, bits) && ranges[k].code == code)
            <==> exists i :: 0 <= i < |rows| && AnswersWith(codeOf, rows[i], Value(bits), code)
  {
    if k :| 0 <= k < |ranges| && Holds(ranges[k], true, bits) && ranges[k].code == code {
      MeaningOfProper(codeOf, rows[origin[k]]);
      assert AnswersWith(codeOf, rows[origin[k]], Value(bits), code);
    }
    if i :| 0 <= i < |rows| && AnswersWith(codeOf, rows[i], Value(bits), code) {
      assert i in origin;
      var k :| 0 <= k < |origin| && origin[k] == i;
      MeaningOfProper(codeOf, rows[i]);
      assert Holds(ranges[k], true, bits);
    }
  }

  /** Ranges of the other family do not change an answer. */
  lemma {:induction false} OtherFamily(start: seq<Range>, ms: seq<Meaning>, v4: bool, bits: seq<bool>)
    requires Loaded(start, ms).Some?
    requires forall i :: 0 <= i < |ms| && ms[i].Cover? ==> ms[i].range.v4 != v4
    ensures Winner(Loaded(start, ms).value, v4, bits) == Winner(start, v4, bits)
  {
    if ms != [] {
      var n := |ms| - 1;
      OtherFamily(start, ms[..n], v4, bits);
      var before := Loaded(start, ms[..n]).value;
      if ms[n].Cover? {
        assert (before + [ms[n].range])[..|before|] == before;
      }
    }
  }

  /** CIDR rows of IPv6 networks, as the second file promises. */
  predicate V6Rows(rows: seq<CidrRow>) {
    forall i :: 0 <= i < |rows| && rows[i].cidr.Some? ==> !rows[i].cidr.value.v4
  }

  /**
   The promise of the database for IPv4. When a directory loads, its IPv4 rows are disjoint and in-range,
   and its IPv6 rows are IPv6, an IPv4 address, in its four-byte or its sixteen-byte form, is answered with a
   code exactly when a row of that code holds its number; with no such row, or one of an unknown country, it is
   not found.
   */
  lemma LookupIsRow(codeOf: Coding, s: Snapshot, b: seq<Byte>, ip: seq<Byte>, code: nat)
    requires |b| == 4 && (ip == b || ip == Mapped(b))
    requires ProperSnapshot(s) && Contents(codeOf, s).Some? && V6Rows(s.ipv6.rows)
    requires forall i :: 0 <= i < |s.ipv4.rows| ==> ProperRow(s.ipv4.rows[i])
    requires DisjointRows(s.ipv4.rows)
    ensures Answer(Contents(codeOf, s).value, ip) == Some(code) <==>
            exists i :: 0 <= i < |s.ipv4.rows| && AnswersWith(codeOf, s.ipv4.rows[i], Number(b), code)
  {
    FormsAgree(b);
    var rows, bits := s.ipv4.rows, Key(b).1;
    var ranges, origin := RowsLoad(codeOf, rows);
    DisjointOrigins(codeOf, rows, ranges, origin);
    DisjointAnswer(ranges, true, bits, code);
    RowsHold(codeOf, rows, ranges, origin, bits, code);
    OtherFamily(ranges, CidrMeanings(codeOf, s.ipv6.rows), true, bits);
  }

  /** In-range, ordered rows never fail to load, whatever they overlap. */
  lemma ProperRowsLoad(codeOf: Coding, rows: seq<RangeRow>)
    requires forall i :: 0 <= i < |rows| ==> ProperRow(rows[i])
    ensures Loaded([], RangeMeanings(codeOf, rows)).Some?
  {
    var _, _ := RowsLoad(codeOf, rows);
  }

  /** The networks of known countries, in file order. */
  function Networks(codeOf: Coding, rows: seq<CidrRow>): seq<Entry> {
    if rows == [] then []
    else
      var n := |rows| - 1;
      Networks(codeOf, rows[..n]) + NetworkOf(codeOf, rows[n])
  }

  function NetworkOf(codeOf: Coding, row: CidrRow): seq<Entry> {
    var code := codeOf(row.country);
    if Known(code) && row.cidr.Some? then [Entry(row.cidr.value.prefix, code)] else []
  }

  lemma NetworkPick(p: seq<bool>, code: nat, best: Option<Entry>, bits: seq<bool>)
    requires |p| <= 128 == |bits|
    ensures Pick(best, Range(false, First(128, p), Last(128, p), code), false, bits) == Better(best, Entry(p, code), bits)
  {
    PrefixIsBlock(p, bits);
    if p <= bits {
      OneBlock(128, p, bits);
      assert bits[..|p|] == p;
    }
  }

  lemma NetworkStep(codeOf: Coding, ranges: seq<Range>, nets: seq<Entry>, row: CidrRow, bits: seq<bool>)
    requires |bits| == 128 && Winner(ranges, false, bits) == Scan(nets, bits)
    requires row.cidr.Some? ==> ProperNetwork(row.cidr.value) && !row.cidr.value.v4
    requires Then(ranges, CidrMeaning(codeOf, row)).Some?
    ensures Winner(Then(ranges, CidrMeaning(codeOf, row)).value, false, bits) == Scan(nets + NetworkOf(codeOf, row), bits)
  {
    if Known(codeOf(row.country)) {
      var p, code := row.cidr.value.prefix, codeOf(row.country);
      var r := Range(false, First(128, p), Last(128, p), code);
      assert CidrMeaning(codeOf, row) == Cover(r);
      assert (ranges + [r])[..|ranges|] == ranges && (nets + [Entry(p, code)])[..|nets|] == nets;
      NetworkPick(p, code, Winner(ranges, false, bits), bits);
    } else {
      assert nets + [] == nets;
    }
  }

  lemma LoadedBefore(codeOf: Coding, start: seq<Range>, rows: seq<CidrRow>) returns (before: seq<Range>)
    requires ProperRows(rows) && rows != [] && Loaded(start, CidrMeanings(codeOf, rows)).Some?
    ensures Loaded(start, CidrMeanings(codeOf, rows[..|rows| - 1])) == Some(before)
    ensures Loaded(start, CidrMeanings(codeOf, rows)) == Then(before, CidrMeaning(codeOf, rows[|rows| - 1]))
  {
    var n := |rows| - 1;
    assert CidrMeanings(codeOf, rows)[..n] == CidrMeanings(codeOf, rows[..n]);
    before := Loaded(start, CidrMeanings(codeOf, rows[..n])).value;
  }

  /** For IPv6 the ranges answer as the longest matching network does, however the networks nest. */
  lemma {:induction false} NetworksAnswer(codeOf: Coding, start: seq<Range>, rows: seq<CidrRow>, bits: seq<bool>)
    requires ProperRows(rows) && V6Rows(rows) && |bits| == 128
    requires Winner(start, false, bits) == None
    requires Loaded(start, CidrMeanings(codeOf, rows)).Some?
    ensures Winner(Loaded(start, CidrMeanings(codeOf, rows)).value, false, bits) == Scan(Networks(codeOf, rows), bits)
  {
    if rows != [] {
      var n := |rows| - 1;
      var loaded := LoadedBefore(codeOf, start, rows);
      NetworksAnswer(codeOf, start, rows[..n], bits);
      NetworkStep(codeOf, loaded, Networks(codeOf, rows[..n]), rows[n], bits);
    }
  }

  /** The row names a known country and a network that holds the address. */
  predicate Matches(codeOf: Coding, row: CidrRow, bits: seq<bool>) {
    codeOf(row.country) > 0 && row.cidr.Some? && row.cidr.value.prefix <= bits
  }

  /** Row i matches with a longer prefix than every earlier matching row and no shorter one than any later one. */
  ghost predicate LongestRow(codeOf: Coding, rows: seq<CidrRow>, bits: seq<bool>, i: nat) {
    && i < |rows| && Matches(codeOf, rows[i], bits)
    && forall j :: 0 <= j < |rows| && Matches(codeOf, rows[j], bits) ==>
         && |rows[j].cidr.value.prefix| <= |rows[i].cidr.value.prefix|
         && (j < i ==> |rows[j].cidr.value.prefix| < |rows[i].cidr.value.prefix|)
  }

  /** `found` is what the longest matching row gives: row i, or nothing when none matches. */
  ghost predicate FoundAt(codeOf: Coding, rows: seq<CidrRow>, bits: seq<bool>, found: Option<Entry>, i: nat) {
    && (found == None <==> forall j :: 0 <= j < |rows| ==> !Matches(codeOf, rows[j], bits))
    && (found.Some? ==>
          && LongestRow(codeOf, rows, bits, i)
          && found.value == Entry(rows[i].cidr.value.prefix, codeOf(rows[i].country)))
  }

  predicate TakesOver(codeOf: Coding, row: CidrRow, bits: seq<bool>, rest: Option<Entry>) {
    Matches(codeOf, row, bits) && (rest.None? || |row.cidr.value.prefix| > |rest.value.prefix|)
  }

  lemma {:induction false} ScanOfRows(codeOf: Coding, rows: seq<CidrRow>, bits: seq<bool>) returns (i: nat)
    ensures FoundAt(codeOf, rows, bits, Scan(Networks(codeOf, rows), bits), i)
    decreases |rows|
  {
    i := 0;
    if rows != [] {
      var n := |rows| - 1;
      var rest := Scan(Networks(codeOf, rows[..n]), bits);
      i := ScanOfRows(codeOf, rows[..n], bits);
      ScanLastRow(codeOf, rows, bits);
      if TakesOver(codeOf, rows[n], bits, rest) {
        LastRowFound(codeOf, rows, bits, rest, i);
        i := n;
      } else {
        OldRowFound(codeOf, rows, bits, rest, i);
      }
    }
  }

  lemma LastRowFound(codeOf: Coding, rows: seq<CidrRow>, bits: seq<bool>, rest: Option<Entry>, i: nat)
    requires rows != [] && FoundAt(codeOf, rows[..|rows| - 1], bits, rest, i)
    requires TakesOver(codeOf, rows[|rows| - 1], bits, rest)
    ensures var last := rows[|rows| - 1];
      FoundAt(codeOf, rows, bits, Some(Entry(last.cidr.value.prefix, codeOf(last.country))), |rows| - 1)
  {
    var n := |rows| - 1;
    forall j | 0 <= j < n && Matches(codeOf, rows[j], bits)
      ensures |rows[j].cidr.value.prefix| < |rows[n].cidr.value.prefix|
    {
      assert rows[..n][j] == rows[j];
    }
  }

  lemma OldRowFound(codeOf: Coding, rows: seq<CidrRow>, bits: seq<bool>, rest: Option<Entry>, i: nat)
    requires rows != [] && FoundAt(codeOf, rows[..|rows| - 1], bits, rest, i)
    requires !TakesOver(codeOf, rows[|rows| - 1], bits, rest)
    ensures FoundAt(codeOf, rows, bits, rest, i)
  {
    var n := |rows| - 1;
    forall j | 0 <= j < n ensures rows[..n][j] == rows[j] {
    }
    if rest.Some? {
      assert rows[..n][i] == rows[i];
      forall j | 0 <= j < |rows| && Matches(codeOf, rows[j], bits)
        ensures |rows[j].cidr.value.prefix| <= |rows[i].cidr.value.prefix|
        ensures j < i ==> |rows[j].cidr.value.prefix| < |rows[i].cidr.value.prefix|
      {
        if j < n {
          assert rows[..n][j] == rows[j];
        }
      }
    }
  }

  lemma ScanLastRow(codeOf: Coding, rows: seq<CidrRow>, bits: seq<bool>)
    requires rows != []
    ensures var last := rows[|rows| - 1];
      var rest := Scan(Networks(codeOf, rows[..|rows| - 1]), bits);
      Scan(Networks(codeOf, rows), bits)
      == if TakesOver(codeOf, last, bits, rest) then Some(Entry(last.cidr.value.prefix, codeOf(last.country))) else rest
  {
    var n := |rows| - 1;
    ScanOneMore(Networks(codeOf, rows[..n]), NetworkOf(codeOf, rows[n]), bits);
  }

  lemma ScanOneMore(nets: seq<Entry>, more: seq<Entry>, bits: seq<bool>)
    requires |more| <= 1
    ensures Scan(nets + more, bits) == if more == [] then Scan(nets, bits) else Better(Scan(nets, bits), more[0], bits)
  {
    if more == [] {
      assert nets + more == nets;
    } else {
      assert (nets + more)[..|nets|] == nets;
    }
  }

  /**
   The promise of the database for IPv6: the row with the longest matching network answers, the first of its
   length, and with no matching row nothing is found.
   */
  lemma LookupIsLongestNetwork(codeOf: Coding, s: Snapshot, ip: seq<Byte>) returns (i: nat)
    requires |ip| == 16 && forall b :: |b| == 4 ==> ip != Mapped(b)
    requires ProperSnapshot(s) && Contents(codeOf, s).Some? && V6Rows(s.ipv6.rows)
    ensures var rows, bits := s.ipv6.rows, AddressBits(ip);
            var answer := Answer(Contents(codeOf, s).value, ip);
            && (answer == None <==> forall j :: 0 <= j < |rows| ==> !Matches(codeOf, rows[j], bits))
            && (answer.Some? ==> LongestRow(codeOf, rows, bits, i) && answer == Some(codeOf(rows[i].country)))
  {
    OtherwiseIPv6(ip);
    var bits := AddressBits(ip);
    var v4Ranges := Loaded([], RangeMeanings(codeOf, s.ipv4.rows)).value;
    OtherFamily([], RangeMeanings(codeOf, s.ipv4.rows), false, bits);
    NetworksAnswer(codeOf, v4Ranges, s.ipv6.rows, bits);
    i := ScanOfRows(codeOf, s.ipv6.rows, bits);
  }
}
