/**
 * Wire-level integers and socket addresses: the 16-bit port, the IPv4
 * address, and the Rust integer operations the codec applies to them
 * (`<<`, `>>`, `|` and the truncating `as u8` / `as u16` casts), written out
 * over unbounded naturals.
 */
module Wire {
  import opened Stream

  /** A `u16` port number. */
  type Port = p: int | 0 <= p < 0x1_0000

  /** `Ipv4Addr::new(a, b, c, d)`. */
  datatype Ipv4 = Ipv4(a: Byte, b: Byte, c: Byte, d: Byte) {
    /** `Ipv4Addr::octets`, most significant first. */
    function Octets(): (o: seq<Byte>)
      ensures |o| == 4
    {
      [a, b, c, d]
    }
  }

  /** The sixteen octets of an IPv6 address (`Ipv6Addr::octets`). */
  type Ipv6Octets = o: seq<Byte> | |o| == 16 witness Zeros(16)

  /** `SocketAddr`: the IPv6 variant is never decoded, only rejected. */
  datatype SocketAddr = V4(ip: Ipv4, port: Port) | V6(ip6: Ipv6Octets, port: Port)

  function Pow2(k: nat): (p: nat)
    ensures p >= 1
  {
    if k == 0 then 1 else 2 * Pow2(k - 1)
  }

  /** `x as u8`: keeps the low eight bits. */
  function AsU8(x: int): Byte {
    x % 256
  }

  /** `x as u16` after a `u16` operation: keeps the low sixteen bits. */
  function AsU16(x: nat): Port {
    x % 0x1_0000
  }

  /** `x << k` on a `u16`: bits shifted past bit 15 are lost. */
  function ShiftLeft16(x: Port, k: nat): Port {
    AsU16(x * Pow2(k))
  }

  /** `x >> k` (logical shift right). */
  function ShiftRight(x: nat, k: nat): int {
    x / Pow2(k)
  }

  /** Bitwise OR of two naturals, bit by bit from the least significant end. */
  function BitOr(x: nat, y: nat): nat
    decreases x + y
  {
    if x == 0 then y
    else if y == 0 then x
    else 2 * BitOr(x / 2, y / 2) + (if x % 2 == 1 || y % 2 == 1 then 1 else 0)
  }

  /** OR-ing a value whose low `k` bits are clear with one below `2^k` is addition. */
  lemma {:induction false} BitOrDisjoint(hi: nat, lo: nat, k: nat)
    requires lo < Pow2(k)
    ensures BitOr(hi * Pow2(k), lo) == hi * Pow2(k) + lo
  {
    if k == 0 {
      assert lo == 0;
    } else if hi == 0 || lo == 0 {
    } else {
      var x := hi * Pow2(k);
      assert x == 2 * (hi * Pow2(k - 1));
      assert x % 2 == 0 && x / 2 == hi * Pow2(k - 1);
      BitOrDisjoint(hi, lo / 2, k - 1);
      assert BitOr(x, lo) == 2 * BitOr(x / 2, lo / 2) + lo % 2;
    }
  }

  /**
   * `((hi as u16) << 8) | lo as u16`: the port assembled from two bytes in
   * network (big-endian) order.
   */
  function JoinPort(hi: Byte, lo: Byte): (p: Port)
    ensures p == hi * 256 + lo
  {
    assert Pow2(8) == 256;
    var shifted := ShiftLeft16(hi, 8);
    assert shifted == hi * 256;
    BitOrDisjoint(hi, lo, 8);
    AsU16(BitOr(shifted, lo))
  }

  /** `(port >> 8) as u8`: the high byte of the port. */
  function PortHigh(p: Port): (b: Byte)
    ensures b * 256 <= p < (b + 1) * 256
  {
    assert Pow2(8) == 256;
    AsU8(ShiftRight(p, 8))
  }

  /** `port as u8`: the low byte of the port. */
  function PortLow(p: Port): (b: Byte)
    ensures b == p - PortHigh(p) * 256
  {
    AsU8(p)
  }

  /** Splitting a port into its two bytes and joining them again gives the port back. */
  lemma PortRoundTrip(p: Port)
    ensures JoinPort(PortHigh(p), PortLow(p)) == p
  {
  }

  /** Joining two bytes and splitting the port again gives the bytes back. */
  lemma PortBytesRoundTrip(hi: Byte, lo: Byte)
    ensures PortHigh(JoinPort(hi, lo)) == hi
    ensures PortLow(JoinPort(hi, lo)) == lo
  {
  }
}
