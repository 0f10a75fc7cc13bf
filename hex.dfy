/**
 * `nibble` and the parse of the MAC-address string descriptor in `jenusb_probe`: sixteen
 * hex digits, either case, become the eight bytes of the device's extended address.
 */
module Hex {
  import opened Wrappers

  /** IEEE802154_ADDR_LEN, the bytes of an extended address. */
  const ADDR_LEN := 8

  predicate IsDigit(c: bv8) { '0' as bv8 <= c <= '9' as bv8 }

  /** The kernel's `islower` for the Latin-1 table it uses. */
  predicate IsLower(c: bv8)
  {
    ('a' as bv8 <= c <= 'z' as bv8) || (0xDF <= c && c != 0xF7)
  }

  /** The kernel's `toupper`. */
  function ToUpper(c: bv8): bv8
  {
    if IsLower(c) then c - 0x20 else c
  }

  /** `nibble`: a hex digit's value, 0 for any other character. */
  function Nibble(c: bv8): (r: bv8)
    ensures r < 16
  {
    if IsDigit(c) then c - '0' as bv8
    else
      var u := ToUpper(c);
      if IsDigit(u) || ('A' as bv8 <= u <= 'F' as bv8) then 10 + u - 'A' as bv8
      else 0
  }

  /** The upper-case hex digit of a value below 16. */
  function HexDigit(v: bv8): (c: bv8)
    requires v < 16
  {
    if v < 10 then '0' as bv8 + v else 'A' as bv8 + (v - 10)
  }

  /** The ASCII lower-case form of a character. */
  function ToLowerAscii(c: bv8): bv8
  {
    if 'A' as bv8 <= c <= 'Z' as bv8 then c + 0x20 else c
  }

  /** `nibble` undoes `HexDigit`, in upper and in lower case. */
  lemma NibbleOfHexDigit(v: bv8)
    requires v < 16
    ensures Nibble(HexDigit(v)) == v
    ensures Nibble(ToLowerAscii(HexDigit(v))) == v
  {
    if v < 10 {
      NibbleOfDecimalDigit(v);
    } else {
      NibbleOfLetter(v);
    }
  }

  lemma NibbleOfDecimalDigit(v: bv8)
    requires v < 10
    ensures HexDigit(v) == '0' as bv8 + v && IsDigit(HexDigit(v))
    ensures ToLowerAscii(HexDigit(v)) == HexDigit(v)
    ensures Nibble(HexDigit(v)) == v
  {
  }

  lemma NibbleOfLetter(v: bv8)
    requires 10 <= v < 16
    ensures Nibble(HexDigit(v)) == v
    ensures Nibble(ToLowerAscii(HexDigit(v))) == v
  {
    var c := HexDigit(v);
    assert c == 'A' as bv8 + (v - 10);
    assert !IsDigit(c) && !IsLower(c) && ToUpper(c) == c;
    var l := ToLowerAscii(c);
    assert l == c + 0x20;
    assert !IsDigit(l) && IsLower(l) && ToUpper(l) == c;
  }

  /** `nibble` does not see the case of a letter. */
  lemma NibbleIgnoresCase(c: bv8)
    ensures Nibble(ToLowerAscii(c)) == Nibble(c)
  {
    if 'A' as bv8 <= c <= 'Z' as bv8 {
      var l := c + 0x20;
      assert ToLowerAscii(c) == l && !IsDigit(l) && !IsDigit(c);
      assert ToUpper(l) == c && ToUpper(c) == c;
    }
  }

  /** Characters that are not hex digits read as 0. */
  lemma NonDigitIsZero(c: bv8)
    requires !IsDigit(c) && !('A' as bv8 <= c <= 'F' as bv8) && !('a' as bv8 <= c <= 'f' as bv8)
    ensures Nibble(c) == 0
  {
    if 'a' as bv8 <= c <= 'z' as bv8 {
      assert 'G' as bv8 <= ToUpper(c) <= 'Z' as bv8;
    } else if IsLower(c) {
      assert 0xBF <= ToUpper(c);
    } else {
      assert ToUpper(c) == c;
    }
  }

  /** The byte two characters encode: `(nibble(hi) << 4) + nibble(lo)` stored in a `u8`. */
  function HexByte(hi: bv8, lo: bv8): bv8
  {
    (Nibble(hi) << 4) + Nibble(lo)
  }

  lemma HexByteIgnoresCase(hi: bv8, lo: bv8)
    ensures HexByte(ToLowerAscii(hi), ToLowerAscii(lo)) == HexByte(hi, lo)
  {
    NibbleIgnoresCase(hi);
    NibbleIgnoresCase(lo);
  }

  /** The address the parse produces from the first 16 characters of the string. */
  function MacFromHex(s: seq<bv8>): (a: seq<bv8>)
    requires |s| >= 2 * ADDR_LEN
    ensures |a| == ADDR_LEN
  {
    seq(ADDR_LEN, i requires 0 <= i < ADDR_LEN => HexByte(s[2 * i], s[2 * i + 1]))
  }

  /** An address written as upper-case hex, two digits per byte, most significant first. */
  function HexString(a: seq<bv8>): (s: seq<bv8>)
    ensures |s| == 2 * |a|
  {
    if a == [] then [] else [HexDigit(a[0] >> 4), HexDigit(a[0] & 0xF)] + HexString(a[1..])
  }

  /** The two digits of a byte give it back. */
  lemma HexByteOfDigits(b: bv8)
    ensures HexByte(HexDigit(b >> 4), HexDigit(b & 0xF)) == b
  {
    NibbleOfHexDigit(b >> 4);
    NibbleOfHexDigit(b & 0xF);
  }

  lemma {:induction false} HexStringDigits(a: seq<bv8>, i: nat)
    requires i < |a|
    ensures HexString(a)[2 * i] == HexDigit(a[i] >> 4)
    ensures HexString(a)[2 * i + 1] == HexDigit(a[i] & 0xF)
  {
    if i > 0 {
      HexStringDigits(a[1..], i - 1);
    }
  }

  /** The two characters of byte `i` in the hex form encode that byte. */
  lemma DigitPairOfByte(a: seq<bv8>, i: nat)
    requires i < |a|
    ensures HexByte(HexString(a)[2 * i], HexString(a)[2 * i + 1]) == a[i]
  {
    HexStringDigits(a, i);
    HexByteOfDigits(a[i]);
  }

  /** Parsing the hex form of an address gives the address back. */
  lemma {:induction false} ParseHexString(a: seq<bv8>)
    requires |a| == ADDR_LEN
    ensures MacFromHex(HexString(a)) == a
  {
    forall i | 0 <= i < ADDR_LEN
      ensures MacFromHex(HexString(a))[i] == a[i]
    {
      DigitPairOfByte(a, i);
    }
  }

  /** The parse does not see the case of the hex digits. */
  lemma {:induction false} ParseIgnoresCase(s: seq<bv8>)
    requires |s| >= 2 * ADDR_LEN
    ensures MacFromHex(seq(|s|, i requires 0 <= i < |s| => ToLowerAscii(s[i]))) == MacFromHex(s)
  {
    var t := seq(|s|, i requires 0 <= i < |s| => ToLowerAscii(s[i]));
    forall i | 0 <= i < ADDR_LEN
      ensures MacFromHex(t)[i] == MacFromHex(s)[i]
    {
      HexByteIgnoresCase(s[2 * i], s[2 * i + 1]);
    }
  }

  /**
   * The MAC-string parse: `len` is what `usb_string` returned into `buf`. Anything but
   * sixteen characters fails; otherwise each pair of characters becomes one address byte.
   */
  method ParseMacAddress(len: int, buf: seq<bv8>) returns (r: Option<seq<bv8>>)
    requires |buf| == 2 * ADDR_LEN + 1
    ensures len != 2 * ADDR_LEN ==> r == None
    ensures len == 2 * ADDR_LEN ==> r == Some(MacFromHex(buf))
  {
    if len != 2 * ADDR_LEN {
      return None;
    }
    var devAddr := new bv8[ADDR_LEN];
    var i, k := 0, 0;
    while i < ADDR_LEN
      invariant 0 <= i <= ADDR_LEN && k == 2 * i
      invariant devAddr[..i] == MacFromHex(buf)[..i]
    {
      devAddr[i] := (Nibble(buf[k]) << 4) + Nibble(buf[k + 1]);
      assert devAddr[i] == MacFromHex(buf)[i];
      assert devAddr[..i + 1] == devAddr[..i] + [devAddr[i]];
      i, k := i + 1, k + 2;
    }
    assert devAddr[..] == devAddr[..ADDR_LEN];
    assert MacFromHex(buf)[..ADDR_LEN] == MacFromHex(buf);
    return Some(devAddr[..]);
  }
}
