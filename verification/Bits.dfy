/**
 Addresses as bit strings, most significant bit first, and the aligned blocks that prefixes of
 them stand for (sections 3.1 and 5.1 of RFC 4632). Nothing here depends on the address width.
 */
module Bits {

  type Byte = n: nat | n < 256

  function Pow2(n: nat): (r: nat)
    ensures r > 0
  {
    if n == 0 then 1 else 2 * Pow2(n - 1)
  }

  function High(bit: bool, n: nat): nat {
    if bit then Pow2(n) else 0
  }

  function Value(bits: seq<bool>): (v: nat)
    ensures v < Pow2(|bits|)
  {
    if bits == [] then 0 else High(bits[0], |bits| - 1) + Value(bits[1..])
  }

  function ToBits(v: nat, n: nat): (bits: seq<bool>)
    requires v < Pow2(n)
    ensures |bits| == n && Value(bits) == v
  {
    if n == 0 then []
    else if v < Pow2(n - 1) then [false] + ToBits(v, n - 1)
    else [true] + ToBits(v - Pow2(n - 1), n - 1)
  }

  /** The bits of a network-order byte string. */
  function AddressBits(bytes: seq<Byte>): (bits: seq<bool>)
    ensures |bits| == 8 * |bytes|
  {
    if bytes == [] then []
    else
      assert Pow2(8) == 256;
      AddressBits(bytes[..|bytes| - 1]) + ToBits(bytes[|bytes| - 1], 8)
  }

  lemma Powers()
    ensures Pow2(8) == 0x100 && Pow2(16) == 0x1_0000 && Pow2(24) == 0x100_0000
    ensures Pow2(32) == 0x1_0000_0000
  {
    assert Pow2(12) == 0x1000;
    assert Pow2(20) == 0x10_0000;
    assert Pow2(28) == 0x1000_0000;
  }

  lemma {:induction false} PowAdds(m: nat, n: nat)
    ensures Pow2(m + n) == Pow2(m) * Pow2(n)
  {
    if m > 0 {
      PowAdds(m - 1, n);
      assert Pow2(m + n) == 2 * Pow2(m - 1 + n);
    }
  }

  lemma Distribute(x: nat, y: nat, z: nat)
    ensures (x + y) * z == x * z + y * z
  {
  }

  lemma {:induction false} ValueAppend(a: seq<bool>, b: seq<bool>)
    ensures Value(a + b) == Value(a) * Pow2(|b|) + Value(b)
  {
    if a == [] {
      assert a + b == b;
    } else {
      var high, rest := High(a[0], |a| - 1), Value(a[1..]);
      assert (a + b)[1..] == a[1..] + b;
      calc {
        Value(a + b);
        High(a[0], |a| - 1 + |b|) + Value(a[1..] + b);
        { PowAdds(|a| - 1, |b|); }
        high * Pow2(|b|) + Value(a[1..] + b);
        { ValueAppend(a[1..], b); }
        high * Pow2(|b|) + rest * Pow2(|b|) + Value(b);
        { Distribute(high, rest, Pow2(|b|)); }
        Value(a) * Pow2(|b|) + Value(b);
      }
    }
  }

  /** The four bytes of a 32-bit number, most significant first. */
  function Bytes4(v: nat): (b: seq<Byte>)
    requires v < 0x1_0000_0000
  {
    [v / 0x100 / 0x100 / 0x100, v / 0x100 / 0x100 % 0x100, v / 0x100 % 0x100, v % 0x100]
  }

  lemma LastByte(bytes: seq<Byte>, last: Byte)
    ensures Value(AddressBits(bytes + [last])) == 0x100 * Value(AddressBits(bytes)) + last as int
  {
    Powers();
    assert (bytes + [last])[..|bytes|] == bytes;
    ValueAppend(AddressBits(bytes), ToBits(last, 8));
  }

  /** A number survives its network-order bytes. */
  lemma BigEndianRoundTrip(v: nat)
    requires v < 0x1_0000_0000
    ensures Value(AddressBits(Bytes4(v))) == v
  {
    var b := Bytes4(v);
    assert [] + [b[0]] == [b[0]] && [b[0]] + [b[1]] == [b[0], b[1]];
    assert [b[0], b[1]] + [b[2]] == [b[0], b[1], b[2]] && [b[0], b[1], b[2]] + [b[3]] == b;
    LastByte([], b[0]);
    LastByte([b[0]], b[1]);
    LastByte([b[0], b[1]], b[2]);
    LastByte([b[0], b[1], b[2]], b[3]);
  }

  /** The lowest and the highest address of the block `p` among the addresses of n bits. */
  function First(n: nat, p: seq<bool>): nat
    requires |p| <= n
  {
    if p == [] then 0 else High(p[0], n - 1) + First(n - 1, p[1..])
  }

  function Last(n: nat, p: seq<bool>): nat
    requires |p| <= n
  {
    if p == [] then Pow2(n) - 1 else High(p[0], n - 1) + Last(n - 1, p[1..])
  }

  lemma {:induction false} BlockBounds(n: nat, p: seq<bool>)
    requires |p| <= n
    ensures First(n, p) <= Last(n, p) < Pow2(n)
  {
    if p != [] {
      BlockBounds(n - 1, p[1..]);
    }
  }

  lemma {:induction false} BlockGrows(n: nat, p: seq<bool>, q: seq<bool>)
    requires p <= q && |q| <= n
    ensures First(n, p) <= First(n, q) <= Last(n, q) <= Last(n, p)
  {
    BlockBounds(n, q);
    if p != [] {
      BlockGrows(n - 1, p[1..], q[1..]);
    }
  }

  /** A whole address is the block that holds only itself. */
  lemma {:induction false} WholeAddress(ip: seq<bool>)
    ensures First(|ip|, ip) == Value(ip) == Last(|ip|, ip)
  {
    if ip != [] {
      WholeAddress(ip[1..]);
    }
  }

  /** A prefix matches exactly the addresses of its block. */
  lemma {:induction false} PrefixIsBlock(p: seq<bool>, ip: seq<bool>)
    requires |p| <= |ip|
    ensures p <= ip <==> First(|ip|, p) <= Value(ip) <= Last(|ip|, p)
  {
    if p != [] {
      PrefixIsBlock(p[1..], ip[1..]);
      BlockBounds(|ip| - 1, p[1..]);
      assert p <= ip <==> p[0] == ip[0] && p[1..] <= ip[1..] by {
        assert p == [p[0]] + p[1..] && ip == [ip[0]] + ip[1..];
      }
    }
  }
}
