/** An optional value, for parameters the driver receives as possibly-NULL pointers. */
module Wrappers {
  datatype Option<T> = None | Some(value: T)
}

/**
 * Byte-order helpers for the little-endian host the driver runs on.
 * A native 16-bit field is kept as the raw value a 16-bit load of its (big-endian)
 * memory image yields: `be16_to_cpu` and `cpu_to_be16` are then both `Swap16`.
 */
module Bytes {
  /** The memory image of an 8-byte extended (EUI-64) address. */
  type Ext = s: seq<bv8> | |s| == 8 witness [0, 0, 0, 0, 0, 0, 0, 0]

  function Lo(x: bv16): bv8 { (x & 0xFF) as bv8 }
  function Hi(x: bv16): bv8 { (x >> 8) as bv8 }

  /** A 16-bit load from two consecutive bytes. */
  function Load16(b0: bv8, b1: bv8): bv16 { (b0 as bv16) | ((b1 as bv16) << 8) }

  /** The two bytes a 16-bit store writes. */
  function Le16(x: bv16): (r: seq<bv8>)
    ensures |r| == 2 && Load16(r[0], r[1]) == x
  {
    [Lo(x), Hi(x)]
  }

  /** `be16_to_cpu` / `cpu_to_be16`. */
  function Swap16(x: bv16): bv16 { (x << 8) | (x >> 8) }

  /** `cpu_to_be32`. */
  function Swap32(x: bv32): bv32
  {
    (x << 24) | ((x << 8) & 0x00FF_0000) | ((x >> 8) & 0x0000_FF00) | (x >> 24)
  }

  /** An extended address with its bytes in the opposite order. */
  function Reversed8(e: Ext): Ext
  {
    [e[7], e[6], e[5], e[4], e[3], e[2], e[1], e[0]]
  }

  /** A 64-bit load from the 8-byte image `e` on the little-endian host. */
  function Load64(e: Ext): bv64
  {
    (e[0] as bv64) | ((e[1] as bv64) << 8) | ((e[2] as bv64) << 16) | ((e[3] as bv64) << 24)
    | ((e[4] as bv64) << 32) | ((e[5] as bv64) << 40) | ((e[6] as bv64) << 48) | ((e[7] as bv64) << 56)
  }

  /** The eight bytes a 64-bit store writes on the little-endian host. */
  function Store64(x: bv64): Ext
  {
    [(x & 0xFF) as bv8, ((x >> 8) & 0xFF) as bv8, ((x >> 16) & 0xFF) as bv8, ((x >> 24) & 0xFF) as bv8,
     ((x >> 32) & 0xFF) as bv8, ((x >> 40) & 0xFF) as bv8, ((x >> 48) & 0xFF) as bv8, (x >> 56) as bv8]
  }

  /** `be64_to_cpu` on the little-endian host: the kernel's `__swab64`. */
  function Swap64(x: bv64): bv64
  {
    ((x & 0xFF) << 56) | ((x & 0xFF00) << 40) | ((x & 0xFF_0000) << 24) | ((x & 0xFF00_0000) << 8)
    | ((x >> 8) & 0xFF00_0000) | ((x >> 24) & 0xFF_0000) | ((x >> 40) & 0xFF00) | (x >> 56)
  }

  /** What `*(u64*) p = be64_to_cpu(*(u64*) q)` leaves at `p` when `q` holds `e`. */
  function Be64Image(e: Ext): Ext
  {
    Store64(Swap64(Load64(e)))
  }

  /** The bytes of a 64-bit value the load assembled are the bytes it was loaded from. */
  lemma Load64Bytes(e: Ext)
    ensures var x := Load64(e);
      && (x & 0xFF) as bv8 == e[0] && ((x >> 8) & 0xFF) as bv8 == e[1]
      && ((x >> 16) & 0xFF) as bv8 == e[2] && ((x >> 24) & 0xFF) as bv8 == e[3]
      && ((x >> 32) & 0xFF) as bv8 == e[4] && ((x >> 40) & 0xFF) as bv8 == e[5]
      && ((x >> 48) & 0xFF) as bv8 == e[6] && (x >> 56) as bv8 == e[7]
  {
  }

  /** `__swab64` moves byte `k` of its argument to byte `7 - k`. */
  lemma Swap64Bytes(x: bv64)
    ensures var y := Swap64(x);
      && (y & 0xFF) == (x >> 56) && ((y >> 8) & 0xFF) == (x >> 48) & 0xFF
      && ((y >> 16) & 0xFF) == (x >> 40) & 0xFF && ((y >> 24) & 0xFF) == (x >> 32) & 0xFF
      && ((y >> 32) & 0xFF) == (x >> 24) & 0xFF && ((y >> 40) & 0xFF) == (x >> 16) & 0xFF
      && ((y >> 48) & 0xFF) == (x >> 8) & 0xFF && (y >> 56) == x & 0xFF
  {
  }

  /** That store leaves the bytes at `q` in reverse order: byte `i` is byte `7 - i` of `e`. */
  lemma Be64ImageReversed(e: Ext)
    ensures Be64Image(e) == Reversed8(e)
    ensures forall i :: 0 <= i < 8 ==> Be64Image(e)[i] == e[7 - i]
  {
    Load64Bytes(e);
    Swap64Bytes(Load64(e));
  }

  /**
   * What `memcpy(dst, src, n)` leaves in a buffer that held `buf`, where `data` are the `n`
   * bytes copied: they replace the buffer's first `n` bytes and the rest is kept. A copy
   * longer than the buffer leaves just the copied bytes. Stated byte by byte, front first.
   */
  function Overwritten(buf: seq<bv8>, data: seq<bv8>): seq<bv8>
    decreases |data|
  {
    if |data| == 0 then buf
    else [data[0]] + Overwritten(if |buf| == 0 then [] else buf[1..], data[1..])
  }

  /** The copied bytes come first; the buffer's bytes past them are kept. */
  lemma {:induction false} OverwrittenBytes(buf: seq<bv8>, data: seq<bv8>)
    decreases |data|
    ensures var r := Overwritten(buf, data);
      && |r| == (if |data| <= |buf| then |buf| else |data|)
      && r[..|data|] == data
      && (forall i :: |data| <= i < |buf| ==> r[i] == buf[i])
  {
    if |data| > 0 {
      var rest := if |buf| == 0 then [] else buf[1..];
      OverwrittenBytes(rest, data[1..]);
      var r := Overwritten(buf, data);
      assert r == [data[0]] + Overwritten(rest, data[1..]);
      assert r[..|data|] == [data[0]] + Overwritten(rest, data[1..])[..|data| - 1];
    }
  }

  lemma Swap16Involutive(x: bv16)
    ensures Swap16(Swap16(x)) == x
  {
  }

  lemma Load16OfBytes(x: bv16)
    ensures Load16(Lo(x), Hi(x)) == x
  {
  }
}

/** The Linux constants the driver uses (errno values, netdevice and IEEE 802.15.4 stack). */
module Kernel {
  import opened Bytes

  const EINTR := 4
  const EIO := 5
  const ENOMEM := 12
  const EINVAL := 22
  const EADDRNOTAVAIL := 99
  const ENETDOWN := 100
  const ETIMEDOUT := 110
  const ENOIOCTLCMD := 515
  const ENOTSUPP := 524

  const NET_XMIT_SUCCESS := 0
  const NET_XMIT_DROP := 1

  const SIOCGIFADDR := 0x8915
  const SIOCSIFADDR := 0x8916
  const AF_IEEE802154 := 36

  /** Addressing modes; they are also the values of the 2-bit mode fields of an MPDU. */
  const ADDR_NONE: bv8 := 0
  const ADDR_SHORT: bv8 := 2
  const ADDR_LONG: bv8 := 3

  const PANID_BROADCAST: bv16 := 0xFFFF
  const ADDR_BROADCAST: bv16 := 0xFFFF
  const ADDR_UNDEF: bv16 := 0xFFFE

  /** Frame type "data" of the frame control field (IEEE 802.15.4-2003 section 7.2.1.1.1). */
  const FC_TYPE_DATA: bv16 := 1

  /** A value of a C `int`. */
  predicate IsInt32(x: int) { -0x8000_0000 <= x < 0x8000_0000 }

  function Pow2(n: nat): (r: nat)
    ensures r >= 1
  {
    if n == 0 then 1 else 2 * Pow2(n - 1)
  }

  /** The bits of a C `int` as an unsigned 32-bit number (two's complement). */
  function Unsigned(x: int): nat { x % Pow2(32) }

  /** The C `int` with these 32 bits. */
  function Signed(u: nat): int { if u < Pow2(31) then u else u - Pow2(32) }

  /** The bitwise OR of the low `n` bits of `x` and `y`. */
  function OrBits(x: nat, y: nat, n: nat): nat
  {
    if n == 0 then 0
    else (if x % 2 == 1 || y % 2 == 1 then 1 else 0) + 2 * OrBits(x / 2, y / 2, n - 1)
  }

  /** `a | b` on C `int`s, as in `retval |= ...`. */
  function OrInt(a: int, b: int): int
  {
    Signed(OrBits(Unsigned(a), Unsigned(b), 32))
  }

  /** OR of numbers below 2^m stays below 2^m and is at least each operand. */
  lemma {:induction false} OrBitsBounds(x: nat, y: nat, n: nat, m: nat)
    requires m <= n && x < Pow2(m) && y < Pow2(m)
    ensures x <= OrBits(x, y, n) && y <= OrBits(x, y, n) < Pow2(m)
  {
    if n > 0 {
      if m == 0 {
        OrBitsZero(n);
      } else {
        OrBitsBounds(x / 2, y / 2, n - 1, m - 1);
      }
    }
  }

  lemma {:induction false} OrBitsZero(n: nat)
    ensures OrBits(0, 0, n) == 0
  {
    if n > 0 {
      OrBitsZero(n - 1);
    }
  }

  lemma {:induction false} SignedUnsigned(x: int)
    requires IsInt32(x)
    ensures Signed(Unsigned(x)) == x && Unsigned(x) < Pow2(32)
    ensures x < 0 <==> Unsigned(x) >= Pow2(31)
    ensures x == 0 <==> Unsigned(x) == 0
  {
    Pow2Word();
  }

  lemma {:induction false} Pow2Add(a: nat, b: nat)
    ensures Pow2(a + b) == Pow2(a) * Pow2(b)
  {
    if a > 0 {
      Pow2Add(a - 1, b);
    }
  }

  lemma Pow2Word()
    ensures Pow2(31) == 0x8000_0000 && Pow2(32) == 0x1_0000_0000
  {
    assert Pow2(4) == 16;
    Pow2Add(4, 4);
    Pow2Add(8, 8);
    Pow2Add(16, 16);
    Pow2Add(16, 15);
    Pow2Add(8, 7);
    Pow2Add(4, 3);
  }

  /**
   * OR-ing two results: zero exactly when both are zero, negative when either is, and
   * a zero operand leaves the other unchanged.
   */
  lemma {:induction false} OrIntErrors(a: int, b: int)
    requires IsInt32(a) && IsInt32(b)
    ensures OrInt(a, b) == 0 <==> a == 0 && b == 0
    ensures a < 0 || b < 0 ==> OrInt(a, b) < 0
    ensures a == 0 ==> OrInt(a, b) == b
    ensures b == 0 ==> OrInt(a, b) == a
  {
    SignedUnsigned(a);
    SignedUnsigned(b);
    var ua, ub := Unsigned(a), Unsigned(b);
    OrBitsBounds(ua, ub, 32, 32);
    if a == 0 {
      OrBitsWithZero(ub, 32);
    }
    if b == 0 {
      OrBitsCommutes(ua, 0, 32);
      OrBitsWithZero(ua, 32);
    }
    if a >= 0 && b >= 0 {
      OrBitsBounds(ua, ub, 32, 31);
    }
  }

  lemma {:induction false} OrBitsWithZero(y: nat, n: nat)
    requires y < Pow2(n)
    ensures OrBits(0, y, n) == y
  {
    if n > 0 {
      OrBitsWithZero(y / 2, n - 1);
    }
  }

  lemma {:induction false} OrBitsCommutes(x: nat, y: nat, n: nat)
    ensures OrBits(x, y, n) == OrBits(y, x, n)
  {
    if n > 0 {
      OrBitsCommutes(x / 2, y / 2, n - 1);
    }
  }

  /** `struct ieee802154_addr` of the Linux stack; `addr_type` is a C `int`. */
  datatype Ieee802154Addr = Ieee802154Addr(addrType: int, panId: bv16, shortAddr: bv16, hwaddr: Ext)

  /** `struct sockaddr_ieee802154` as carried by an address ioctl. */
  datatype SockAddr = SockAddr(family: int, addr: Ieee802154Addr)
}
