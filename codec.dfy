/**
 * The frame codec between the coprocessor's native frames and IEEE 802.15.4 data MPDUs:
 * `addr_len`, `struct fc`, `to_skb` (native indication to MPDU) and `from_skb`
 * (MPDU to native transmit request). MPDU fields are little-endian: a 16-bit value is
 * sent low byte first (IEEE 802.15.4-2003 section 7.2).
 */
module Codec {
  import opened Bytes
  import opened Kernel
  import opened Mac

  /** `addr_len`: the length of the address proper, without its PAN id. */
  function AddrLen(a: MacAddr): (r: int)
    ensures r == 0 || r == 2 || r == 8
    ensures r != 0 <==> a.mode == ADDR_SHORT || a.mode == ADDR_LONG
  {
    if a.mode == ADDR_SHORT then 2 else if a.mode == ADDR_LONG then 8 else 0
  }

  // ---------------------------------------------------------------------------
  // `struct fc`: the 16-bit frame control field, LSB first (IEEE 802.15.4-2003 section 7.2.1.1).
  // ---------------------------------------------------------------------------

  /** The bits `struct fc` leaves reserved: 7-9 and 12-13. */
  const FC_RESERVED: bv16 := 0x3380

  function FcType(fc: bv16): bv16 { fc & 0x0007 }
  function FcSecurity(fc: bv16): bool { fc & 0x0008 != 0 }
  function FcPending(fc: bv16): bool { fc & 0x0010 != 0 }
  function FcAckRequest(fc: bv16): bool { fc & 0x0020 != 0 }
  function FcIntraPan(fc: bv16): bool { fc & 0x0040 != 0 }
  function FcDstMode(fc: bv16): bv8 { ((fc >> 10) & 3) as bv8 }
  function FcSrcMode(fc: bv16): bv8 { ((fc >> 14) & 3) as bv8 }

  /** The frame control field as stored at the start of an MPDU. */
  function Fc(mpdu: seq<bv8>): bv16
    requires |mpdu| >= 2
  {
    Load16(mpdu[0], mpdu[1])
  }

  // ---------------------------------------------------------------------------
  // to_skb
  // ---------------------------------------------------------------------------

  /** to_skb's intra-PAN test: the raw PAN fields of both addresses are equal. */
  predicate IntraPan(f: RxFrame)
  {
    f.dst.panId == f.src.panId
  }

  /**
   * The frame control to_skb writes over the two stale bytes `stale` of the new buffer;
   * every field is a bit-field store, so the reserved bits keep their stale value.
   */
  function FrameControl(f: RxFrame, stale: bv16): (fc: bv16)
    ensures FcType(fc) == FC_TYPE_DATA
    ensures FcSecurity(fc) == (f.securityUse & 1 == 1)
    ensures !FcPending(fc) && !FcAckRequest(fc)
    ensures FcIntraPan(fc) == IntraPan(f)
    ensures FcDstMode(fc) == f.dst.mode & 3 && FcSrcMode(fc) == f.src.mode & 3
    ensures fc & FC_RESERVED == stale & FC_RESERVED
  {
    (stale & FC_RESERVED) | FC_TYPE_DATA | (((f.securityUse & 1) as bv16) << 3)
    | (if IntraPan(f) then 0x0040 else 0)
    | (((f.dst.mode & 3) as bv16) << 10) | (((f.src.mode & 3) as bv16) << 14)
  }

  /** A PAN id or short address as written to the MPDU from its raw native field. */
  function Field16(raw: bv16): seq<bv8> { Le16(Swap16(raw)) }

  /** The destination addressing fields to_skb writes. */
  function DstField(a: MacAddr): (r: seq<bv8>)
    ensures |r| == (if a.mode == ADDR_SHORT then 4 else if a.mode == ADDR_LONG then 10 else 0)
  {
    if a.mode == ADDR_SHORT then Field16(a.panId) + Field16(a.short)
    else if a.mode == ADDR_LONG then Field16(a.panId) + Reversed8(a.ext)
    else []
  }

  /** The source addressing fields to_skb writes: only a short source is PAN-compressed. */
  function SrcField(a: MacAddr, intraPan: bool): (r: seq<bv8>)
    ensures |r| == (if a.mode == ADDR_SHORT then (if intraPan then 2 else 4)
                    else if a.mode == ADDR_LONG then 10 else 0)
  {
    if a.mode == ADDR_SHORT then
      (if intraPan then Field16(a.short) else Field16(a.panId) + Field16(a.short))
    else if a.mode == ADDR_LONG then Field16(a.panId) + Reversed8(a.ext)
    else []
  }

  /** The SDU array holds at least the `u8SduLength` bytes to_skb copies. */
  predicate SduCovered(f: RxFrame)
  {
    f.sduLength as int <= |f.sdu|
  }

  /** The bytes to_skb writes: frame control, sequence number 0, addresses, SDU. */
  function Mpdu(f: RxFrame, stale: bv16): (r: seq<bv8>)
    requires SduCovered(f)
    ensures var d, s := |DstField(f.dst)|, |SrcField(f.src, IntraPan(f))|;
      && |r| == 3 + d + s + f.sduLength as int
      && Fc(r) == FrameControl(f, stale)
      && r[2] == 0
      && r[3..3 + d] == DstField(f.dst)
      && r[3 + d..3 + d + s] == SrcField(f.src, IntraPan(f))
      && r[3 + d + s..] == f.sdu[..f.sduLength]
  {
    var r := Le16(FrameControl(f, stale)) + [0] + DstField(f.dst) + SrcField(f.src, IntraPan(f))
             + f.sdu[..f.sduLength];
    assert r[..2] == Le16(FrameControl(f, stale));
    r
  }

  /** The length to_skb returns (and sizes the skb by). */
  function ToSkbLength(f: RxFrame): int
  {
    f.sduLength as int + 2 + 1 + AddrLen(f.dst) + AddrLen(f.src)
  }

  /** How many bytes to_skb's writes reach past the length it reserved. */
  function Overrun(f: RxFrame): nat
  {
    (if f.dst.mode == ADDR_SHORT || f.dst.mode == ADDR_LONG then 2 else 0)
    + (if f.src.mode == ADDR_LONG || (f.src.mode == ADDR_SHORT && !IntraPan(f)) then 2 else 0)
  }

  /**
   * The returned length undercounts the bytes written by the PAN id of each address,
   * except that a PAN-compressed short source is counted exactly.
   */
  lemma ToSkbLengthShortfall(f: RxFrame, stale: bv16)
    requires SduCovered(f)
    ensures |Mpdu(f, stale)| == ToSkbLength(f) + Overrun(f)
    ensures Overrun(f) <= 4
    ensures (f.dst.mode == ADDR_SHORT || f.dst.mode == ADDR_LONG) ==> |Mpdu(f, stale)| > ToSkbLength(f)
  {
  }

  /** The model's stand-in for `memcpy` (and for a multi-byte store) into a buffer. */
  method Put(buf: array<bv8>, at: nat, bytes: seq<bv8>)
    requires at + |bytes| <= buf.Length
    modifies buf
    ensures buf[..at + |bytes|] == old(buf[..at]) + bytes
  {
    var i := 0;
    while i < |bytes|
      invariant 0 <= i <= |bytes|
      invariant buf[..at + i] == old(buf[..at]) + bytes[..i]
    {
      buf[at + i] := bytes[i];
      assert buf[..at + i + 1] == buf[..at + i] + [bytes[i]];
      assert bytes[..i + 1] == bytes[..i] + [bytes[i]];
      i := i + 1;
    }
    assert bytes[..i] == bytes;
  }

  /** The bit-field stores of to_skb into the stale frame control bytes. */
  method BuildFc(frame: RxFrame, staleFc: bv16, isIntraPan: bool) returns (fc: bv16)
    requires isIntraPan == IntraPan(frame)
    ensures fc == FrameControl(frame, staleFc)
  {
    fc := staleFc;
    fc := (fc & !0x0007) | FC_TYPE_DATA;
    fc := (fc & !0x0008) | (((frame.securityUse & 1) as bv16) << 3);
    fc := fc & !0x0010;
    fc := (fc & !0x0040) | (if isIntraPan then 0x0040 else 0);
    fc := fc & !0x0020;
    fc := (fc & !0x0C00) | (((frame.dst.mode & 3) as bv16) << 10);
    fc := (fc & !0xC000) | (((frame.src.mode & 3) as bv16) << 14);
  }

  /** to_skb's switch over the destination mode, writing at the cursor `ptr`. */
  method PutDst(buf: array<bv8>, ptr: nat, a: MacAddr) returns (next: nat)
    requires ptr + |DstField(a)| <= buf.Length
    modifies buf
    ensures next == ptr + |DstField(a)|
    ensures buf[..next] == old(buf[..ptr]) + DstField(a)
  {
    next := ptr;
    if a.mode == ADDR_SHORT {
      Put(buf, next, Le16(Swap16(a.panId)));
      Put(buf, next + 2, Le16(Swap16(a.short)));
      next := next + 4;
    } else if a.mode == ADDR_LONG {
      Put(buf, next, Le16(Swap16(a.panId)));
      Put(buf, next + 2, Reversed8(a.ext));
      next := next + 10;
    }
  }

  /** to_skb's switch over the source mode, writing at the cursor `ptr`. */
  method PutSrc(buf: array<bv8>, ptr: nat, a: MacAddr, isIntraPan: bool) returns (next: nat)
    requires ptr + |SrcField(a, isIntraPan)| <= buf.Length
    modifies buf
    ensures next == ptr + |SrcField(a, isIntraPan)|
    ensures buf[..next] == old(buf[..ptr]) + SrcField(a, isIntraPan)
  {
    next := ptr;
    if a.mode == ADDR_SHORT {
      if isIntraPan {
        Put(buf, next, Le16(Swap16(a.short)));
        next := next + 2;
      } else {
        Put(buf, next, Le16(Swap16(a.panId)));
        Put(buf, next + 2, Le16(Swap16(a.short)));
        next := next + 4;
      }
    } else if a.mode == ADDR_LONG {
      Put(buf, next, Le16(Swap16(a.panId)));
      Put(buf, next + 2, Reversed8(a.ext));
      next := next + 10;
    }
  }

  /** The writes of to_skb behind `skb_put`, from the frame control to the SDU. */
  method PutFrame(buf: array<bv8>, frame: RxFrame, staleFc: bv16) returns (ptr: nat)
    requires SduCovered(frame)
    requires |Mpdu(frame, staleFc)| <= buf.Length
    modifies buf
    ensures ptr <= buf.Length && buf[..ptr] == Mpdu(frame, staleFc)
  {
    var isIntraPan := frame.dst.panId == frame.src.panId;
    var fc := BuildFc(frame, staleFc, isIntraPan);
    Put(buf, 0, Le16(fc));
    buf[2] := 0;
    ghost var written := Le16(fc) + [0];
    assert buf[..3] == written;
    ptr := 3;
    ptr := PutDst(buf, ptr, frame.dst);
    written := written + DstField(frame.dst);
    ptr := PutSrc(buf, ptr, frame.src, isIntraPan);
    written := written + SrcField(frame.src, isIntraPan);
    Put(buf, ptr, frame.sdu[..frame.sduLength]);
    ptr := ptr + frame.sduLength as int;
    written := written + frame.sdu[..frame.sduLength];
    assert buf[..ptr] == written;
  }

  /**
   * to_skb: rebuilds a data MPDU from a native data indication through an advancing
   * cursor. `allocOk` is the outcome of `dev_alloc_skb`; `staleFc` is what the buffer
   * held where the frame control goes. The skb reserves `len` bytes; the buffer here
   * also has the (at most four) bytes of tailroom the address writes spill into.
   */
  method ToSkb(frame: RxFrame, allocOk: bool, staleFc: bv16) returns (ret: int, skb: seq<bv8>)
    requires SduCovered(frame)
    ensures !allocOk ==> ret == -ENOMEM && skb == []
    ensures allocOk ==> ret == ToSkbLength(frame) && skb == Mpdu(frame, staleFc)
  {
    // addr_len is never negative, so the driver's -EINVAL test cannot fire.
    var len := frame.sduLength as int;
    len := len + 2;
    len := len + 1;
    len := len + AddrLen(frame.dst);
    len := len + AddrLen(frame.src);

    if !allocOk {
      return -ENOMEM, [];
    }
    var buf := new bv8[len + 4];
    ToSkbLengthShortfall(frame, staleFc);
    var ptr := PutFrame(buf, frame, staleFc);
    return len, buf[..ptr];
  }

  // ---------------------------------------------------------------------------
  // from_skb
  // ---------------------------------------------------------------------------

  /** The bytes of the addressing fields for a mode, in from_skb's layout (no compression). */
  function FieldLen(mode: bv8): nat
  {
    if mode == ADDR_SHORT then 4 else if mode == ADDR_LONG then 10 else 0
  }

  /** A raw native 16-bit field from the MPDU bytes at `p` (`cpu_to_be16` of the load). */
  function Raw16(mpdu: seq<bv8>, p: nat): bv16
    requires p + 2 <= |mpdu|
  {
    Swap16(Load16(mpdu[p], mpdu[p + 1]))
  }

  /** The native address from_skb fills from the bytes at `p`, laid out as `layout` dictates. */
  function ReadAddr(mpdu: seq<bv8>, p: nat, layout: bv8, a: MacAddr): MacAddr
    requires p + FieldLen(layout) <= |mpdu|
  {
    if layout == ADDR_SHORT then a.(panId := Raw16(mpdu, p), short := Raw16(mpdu, p + 2))
    else if layout == ADDR_LONG then a.(panId := Raw16(mpdu, p), ext := mpdu[p + 2..p + 10])
    else a
  }

  /** from_skb's transmit options: ACK iff ack-request, SECURITY iff security-enabled. */
  function TxOptions(fc: bv16): (r: bv8)
    ensures (r & TX_OPTION_ACK != 0) == FcAckRequest(fc)
    ensures (r & TX_OPTION_SECURITY != 0) == FcSecurity(fc)
    ensures r & !(TX_OPTION_ACK | TX_OPTION_SECURITY) == 0
  {
    (if FcAckRequest(fc) then TX_OPTION_ACK else 0) | (if FcSecurity(fc) then TX_OPTION_SECURITY else 0)
  }

  /** from_skb returns before parsing addresses: wrong type or no address at all. */
  predicate Rejected(fc: bv16)
  {
    FcType(fc) != FC_TYPE_DATA || (FcDstMode(fc) == ADDR_NONE && FcSrcMode(fc) == ADDR_NONE)
  }

  /** Where from_skb's SDU copy starts: the source layout is chosen by the destination mode. */
  function HeaderLen(fc: bv16): nat
  {
    3 + 2 * FieldLen(FcDstMode(fc))
  }

  /**
   * The MPDU covers every byte from_skb reads: the frame control, and on the parsing path
   * the addressing fields and `sduLength` bytes of SDU. The driver itself checks nothing.
   */
  predicate FromSkbReadable(mpdu: seq<bv8>, sduLength: bv8)
  {
    && |mpdu| >= 2
    && (!Rejected(Fc(mpdu)) && FcDstMode(Fc(mpdu)) != 1 ==>
          HeaderLen(Fc(mpdu)) + sduLength as int <= |mpdu|)
  }

  /** The outcome of from_skb: its return value and the native frame buffer afterwards. */
  datatype Encoded = Encoded(ret: int, frame: TxFrame)

  /** from_skb, stated on byte offsets of the MPDU. */
  function FromSkbSpec(mpdu: seq<bv8>, f: TxFrame): Encoded
    requires FromSkbReadable(mpdu, f.sduLength)
  {
    var fc := Fc(mpdu);
    if FcType(fc) != FC_TYPE_DATA then Encoded(-ENOTSUPP, f)
    else if FcDstMode(fc) == ADDR_NONE && FcSrcMode(fc) == ADDR_NONE then Encoded(-EINVAL, f)
    else FilledSpec(mpdu, FcDstMode(fc), FcSrcMode(fc), f.(txOptions := TxOptions(fc)))
  }

  /**
   * The part of from_skb after the frame control checks and the transmit options, for
   * destination mode `da` and source mode `sa`.
   */
  function FilledSpec(mpdu: seq<bv8>, da: bv8, sa: bv8, f: TxFrame): Encoded
    requires da != 1 ==> 3 + 2 * FieldLen(da) + f.sduLength as int <= |mpdu|
  {
    if da == 1 then Encoded(-EINVAL, f.(dst := f.dst.(mode := da)))
    else
      var h := 3 + 2 * FieldLen(da);
      Encoded(f.sduLength as int,
              f.(dst := ReadAddr(mpdu, 3, da, f.dst.(mode := da)),
                 src := ReadAddr(mpdu, 3 + FieldLen(da), da, f.src.(mode := sa)),
                 sdu := Overwritten(f.sdu, mpdu[h..h + f.sduLength as int])))
  }

  /** One of from_skb's switches: reads the addressing fields at the cursor `ptr`. */
  method ParseAddr(skb: seq<bv8>, ptr: nat, layout: bv8, a: MacAddr) returns (r: MacAddr, next: nat)
    requires ptr + FieldLen(layout) <= |skb|
    ensures r == ReadAddr(skb, ptr, layout, a) && next == ptr + FieldLen(layout)
  {
    r, next := a, ptr;
    if layout == ADDR_SHORT {
      r := r.(panId := Swap16(Load16(skb[next], skb[next + 1])));
      r := r.(short := Swap16(Load16(skb[next + 2], skb[next + 3])));
      next := next + 4;
    } else if layout == ADDR_LONG {
      r := r.(panId := Swap16(Load16(skb[next], skb[next + 1])));
      r := r.(ext := skb[next + 2..next + 10]);
      next := next + 10;
    }
  }

  /**
   * from_skb: parses an MPDU into the native frame buffer `frame` through an advancing
   * cursor. `u8SduLength` is never set here; the value already in the buffer is used.
   */
  method FromSkb(skb: seq<bv8>, frame: TxFrame) returns (ret: int, out: TxFrame)
    requires FromSkbReadable(skb, frame.sduLength)
    ensures Encoded(ret, out) == FromSkbSpec(skb, frame)
  {
    var fcf := Load16(skb[0], skb[1]);
    if FcType(fcf) != FC_TYPE_DATA {
      return -ENOTSUPP, frame;
    }
    if FcDstMode(fcf) == ADDR_NONE && FcSrcMode(fcf) == ADDR_NONE {
      return -EINVAL, frame;
    }
    out := frame;
    var options: bv8 := if FcAckRequest(fcf) then TX_OPTION_ACK else 0;
    options := options | (if FcSecurity(fcf) then TX_OPTION_SECURITY else 0);
    out := out.(txOptions := options);
    assert fcf == Fc(skb);
    ret, out := FillAddressing(skb, FcDstMode(fcf), FcSrcMode(fcf), out);
  }

  /** from_skb from the sequence number on: both address switches and the SDU copy. */
  method FillAddressing(skb: seq<bv8>, da: bv8, sa: bv8, frame: TxFrame) returns (ret: int, out: TxFrame)
    requires da != 1 ==> 3 + 2 * FieldLen(da) + frame.sduLength as int <= |skb|
    ensures Encoded(ret, out) == FilledSpec(skb, da, sa, frame)
  {
    out := frame;
    var ptr := 2;   // the sequence number is not taken over
    ptr := ptr + 1;
    out := out.(dst := out.dst.(mode := da));
    if da == 1 {
      // the switch's `default`: mode 1 is reserved
      return -EINVAL, out;
    }
    var dst;
    dst, ptr := ParseAddr(skb, ptr, da, out.dst);
    out := out.(dst := dst);

    out := out.(src := out.src.(mode := sa));
    var src;
    src, ptr := ParseAddr(skb, ptr, da, out.src);
    out := out.(src := src);

    out := out.(sdu := Overwritten(out.sdu, skb[ptr..ptr + out.sduLength as int]));
    return out.sduLength as int, out;
  }
}
