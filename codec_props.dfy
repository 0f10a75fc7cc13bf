/**
 * What to_skb and from_skb promise of each other: the return codes of from_skb, what
 * survives an MPDU built by to_skb and parsed back by from_skb, and where the two
 * disagree (extended address byte order, source layout chosen by the destination mode).
 */
module CodecProperties {
  import opened Bytes
  import opened Kernel
  import opened Mac
  import opened Codec

  /** A 16-bit field written by to_skb reads back as the same raw native value. */
  lemma {:induction false} Raw16OfField(m: seq<bv8>, p: nat, raw: bv16)
    requires p + 2 <= |m| && m[p..p + 2] == Field16(raw)
    ensures Raw16(m, p) == raw
  {
    assert m[p] == Field16(raw)[0] && m[p + 1] == Field16(raw)[1];
    Swap16Involutive(raw);
  }

  /** from_skb's return codes, and what it leaves in the frame buffer on each path. */
  lemma FromSkbReturnCodes(mpdu: seq<bv8>, t: TxFrame)
    requires FromSkbReadable(mpdu, t.sduLength)
    ensures var e, fc := FromSkbSpec(mpdu, t), Fc(mpdu);
      && (FcType(fc) != FC_TYPE_DATA ==> e == Encoded(-ENOTSUPP, t))
      && ((FcType(fc) == FC_TYPE_DATA && FcDstMode(fc) == ADDR_NONE && FcSrcMode(fc) == ADDR_NONE)
            ==> e == Encoded(-EINVAL, t))
      && (!Rejected(fc) ==>
            && e.frame.txOptions == TxOptions(fc)
            && e.frame.dst.mode == FcDstMode(fc)
            && (FcDstMode(fc) == 1 ==> e.ret == -EINVAL && e.frame == t.(txOptions := TxOptions(fc), dst := t.dst.(mode := 1)))
            && (FcDstMode(fc) != 1 ==> e.ret == t.sduLength as int && e.frame.src.mode == FcSrcMode(fc)
                                        && e.frame.sduLength == t.sduLength))
      && (e.ret < 0 <==> Rejected(fc) || FcDstMode(fc) == 1)
  {
  }

  /** A slice of a suffix is a slice of the whole sequence. */
  lemma SliceOfSuffix(m: seq<bv8>, p: nat, a: nat, b: nat)
    requires p <= a <= b <= |m|
    ensures m[p..][a - p..b - p] == m[a..b]
  {
    assert forall i :: 0 <= i < b - a ==> m[p..][a - p..b - p][i] == m[a..b][i];
  }

  /** Two adjacent slices make up a suffix. */
  lemma JoinSlices(m: seq<bv8>, p: nat, q: nat, front: seq<bv8>, back: seq<bv8>)
    requires p <= q <= |m| && m[p..q] == front && m[q..] == back
    ensures m[p..] == front + back
  {
    assert m[p..] == m[p..q] + m[q..];
  }

  /** Two MPDUs of one length that agree from offset `p` on. */
  predicate SameFrom(m1: seq<bv8>, m2: seq<bv8>, p: nat)
  {
    |m1| == |m2| && forall i :: p <= i < |m1| ==> m1[i] == m2[i]
  }

  /** Slices of two MPDUs that agree from offset `p` on, taken at or after `p`. */
  lemma SameSlices(m1: seq<bv8>, m2: seq<bv8>, p: nat, a: nat, b: nat)
    requires SameFrom(m1, m2, p) && p <= a <= b <= |m1|
    ensures m1[a..b] == m2[a..b]
  {
    assert forall i :: 0 <= i < b - a ==> m1[a..b][i] == m1[a + i] && m2[a..b][i] == m2[a + i];
  }

  /** ReadAddr looks at no byte before `p`. */
  lemma ReadAddrFrom(m1: seq<bv8>, m2: seq<bv8>, p: nat, layout: bv8, a: MacAddr)
    requires SameFrom(m1, m2, p) && p + FieldLen(layout) <= |m1|
    ensures ReadAddr(m1, p, layout, a) == ReadAddr(m2, p, layout, a)
  {
    if layout == ADDR_LONG {
      SameSlices(m1, m2, p, p + 2, p + 10);
    }
  }

  /** The address parse and SDU copy look at no byte before offset 3. */
  lemma {:induction false} FilledFrom3(m1: seq<bv8>, m2: seq<bv8>, da: bv8, sa: bv8, f: TxFrame)
    requires SameFrom(m1, m2, 3)
    requires da != 1 ==> 3 + 2 * FieldLen(da) + f.sduLength as int <= |m1|
    ensures FilledSpec(m1, da, sa, f) == FilledSpec(m2, da, sa, f)
  {
    if da != 1 {
      var n := FieldLen(da);
      var h := 3 + 2 * n;
      var d1, d2 := ReadAddr(m1, 3, da, f.dst.(mode := da)), ReadAddr(m2, 3, da, f.dst.(mode := da));
      var r1, r2 := ReadAddr(m1, 3 + n, da, f.src.(mode := sa)), ReadAddr(m2, 3 + n, da, f.src.(mode := sa));
      var u1, u2 := Overwritten(f.sdu, m1[h..h + f.sduLength as int]), Overwritten(f.sdu, m2[h..h + f.sduLength as int]);
      ReadAddrFrom(m1, m2, 3, da, f.dst.(mode := da));
      ReadAddrFrom(m1, m2, 3 + n, da, f.src.(mode := sa));
      SameSlices(m1, m2, 3, h, h + f.sduLength as int);
      FilledParts(m1, da, sa, f);
      FilledParts(m2, da, sa, f);
      assert d1 == d2 && r1 == r2 && u1 == u2;
    }
  }

  /** FilledSpec of a mode other than the reserved one, field by field. */
  lemma FilledParts(m: seq<bv8>, da: bv8, sa: bv8, f: TxFrame)
    requires da != 1 && 3 + 2 * FieldLen(da) + f.sduLength as int <= |m|
    ensures FilledSpec(m, da, sa, f).ret == f.sduLength as int
    ensures FilledSpec(m, da, sa, f).frame == f.(dst := ReadAddr(m, 3, da, f.dst.(mode := da)),
                                                 src := ReadAddr(m, 3 + FieldLen(da), da, f.src.(mode := sa)),
                                                 sdu := Overwritten(f.sdu, m[3 + 2 * FieldLen(da)..3 + 2 * FieldLen(da) + f.sduLength as int]))
  {
  }

  /** from_skb on the parsing path, field by field. */
  lemma FromSkbParts(m: seq<bv8>, t: TxFrame)
    requires FromSkbReadable(m, t.sduLength) && !Rejected(Fc(m)) && FcDstMode(Fc(m)) != 1
    ensures var fc := Fc(m);
      var da := FcDstMode(fc);
      var h := HeaderLen(fc);
      FromSkbSpec(m, t) == Encoded(t.sduLength as int,
        t.(txOptions := TxOptions(fc),
           dst := ReadAddr(m, 3, da, t.dst.(mode := da)),
           src := ReadAddr(m, 3 + FieldLen(da), da, t.src.(mode := FcSrcMode(fc))),
           sdu := Overwritten(t.sdu, m[h..h + t.sduLength as int])))
  {
    var fc := Fc(m);
    FilledParts(m, FcDstMode(fc), FcSrcMode(fc), t.(txOptions := TxOptions(fc)));
  }

  /** The sequence number is never taken over: from_skb does not look at byte 2. */
  lemma {:induction false} FromSkbIgnoresSequenceNumber(mpdu: seq<bv8>, t: TxFrame, dsn: bv8)
    requires |mpdu| >= 3 && FromSkbReadable(mpdu, t.sduLength)
    ensures FromSkbReadable(mpdu[2 := dsn], t.sduLength)
    ensures FromSkbSpec(mpdu[2 := dsn], t) == FromSkbSpec(mpdu, t)
  {
    var m := mpdu[2 := dsn];
    assert m[0] == mpdu[0] && m[1] == mpdu[1];
    var fc := Fc(mpdu);
    assert Fc(m) == fc;
    assert SameFrom(m, mpdu, 3);
    if !Rejected(fc) {
      FilledFrom3(m, mpdu, FcDstMode(fc), FcSrcMode(fc), t.(txOptions := TxOptions(fc)));
    }
  }

  /** to_skb sets no ack request, so from_skb's options carry at most the security bit. */
  lemma OptionsOfRebuiltFrame(f: RxFrame, stale: bv16)
    requires SduCovered(f)
    ensures TxOptions(Fc(Mpdu(f, stale))) == (if f.securityUse & 1 == 1 then TX_OPTION_SECURITY else 0)
  {
    var fc := Fc(Mpdu(f, stale));
    assert fc == FrameControl(f, stale);
    assert !FcAckRequest(fc);
  }

  /** What from_skb reads from an MPDU with a short destination: four fixed 16-bit fields. */
  lemma ShortLayoutReads(m: seq<bv8>, t: TxFrame)
    requires |m| >= 2 && FcType(Fc(m)) == FC_TYPE_DATA && FcDstMode(Fc(m)) == ADDR_SHORT
    requires 11 + t.sduLength as int <= |m|
    ensures FromSkbReadable(m, t.sduLength)
    ensures var e := FromSkbSpec(m, t);
      && e.ret == t.sduLength as int
      && e.frame.dst.panId == Raw16(m, 3) && e.frame.dst.short == Raw16(m, 5)
      && e.frame.src.panId == Raw16(m, 7) && e.frame.src.short == Raw16(m, 9)
      && e.frame.sdu == Overwritten(t.sdu, m[11..11 + t.sduLength as int])
  {
    FromSkbParts(m, t);
  }

  /**
   * Short destination and short source on different PANs (no compression): from_skb reads
   * back exactly the PAN ids and short addresses to_skb wrote, whatever `u8SduLength` the
   * frame slot held; as many SDU bytes come back as that stale length says.
   */
  lemma {:induction false} ShortAddressesRoundTrip(f: RxFrame, stale: bv16, t: TxFrame)
    requires SduCovered(f) && t.sduLength as int <= f.sduLength as int
    requires f.dst.mode == ADDR_SHORT && f.src.mode == ADDR_SHORT && !IntraPan(f)
    ensures FromSkbReadable(Mpdu(f, stale), t.sduLength)
    ensures var e := FromSkbSpec(Mpdu(f, stale), t);
      && e.ret == t.sduLength as int
      && e.frame.dst.mode == ADDR_SHORT && e.frame.src.mode == ADDR_SHORT
      && e.frame.dst.panId == f.dst.panId && e.frame.dst.short == f.dst.short
      && e.frame.src.panId == f.src.panId && e.frame.src.short == f.src.short
      && e.frame.sdu == Overwritten(t.sdu, f.sdu[..t.sduLength])
      && e.frame.txOptions == (if f.securityUse & 1 == 1 then TX_OPTION_SECURITY else 0)
  {
    var m := Mpdu(f, stale);
    OptionsOfRebuiltFrame(f, stale);
    ShortLayoutReads(m, t);
    MpduSduPrefix(f, stale, t.sduLength as int);
    assert m[3..7] == Field16(f.dst.panId) + Field16(f.dst.short);
    assert m[7..11] == Field16(f.src.panId) + Field16(f.src.short);
    Raw16OfField(m, 3, f.dst.panId);
    Raw16OfField(m, 5, f.dst.short);
    Raw16OfField(m, 7, f.src.panId);
    Raw16OfField(m, 9, f.src.short);
  }

  /** The first `n` SDU bytes to_skb writes, read from where the header ends. */
  lemma MpduSduPrefix(f: RxFrame, stale: bv16, n: int)
    requires SduCovered(f) && 0 <= n <= f.sduLength as int
    ensures var h := 3 + |DstField(f.dst)| + |SrcField(f.src, IntraPan(f))|;
      Mpdu(f, stale)[h..h + n] == f.sdu[..n]
  {
    var m := Mpdu(f, stale);
    var h := 3 + |DstField(f.dst)| + |SrcField(f.src, IntraPan(f))|;
    assert m[h..] == f.sdu[..f.sduLength];
    forall i | 0 <= i < n
      ensures m[h..h + n][i] == f.sdu[..n][i]
    {
      assert m[h..h + n][i] == m[h..][i];
    }
  }

  /** What from_skb reads from an MPDU with a long destination: two PAN ids and two 8-byte runs. */
  lemma LongLayoutReads(m: seq<bv8>, t: TxFrame)
    requires |m| >= 2 && FcType(Fc(m)) == FC_TYPE_DATA && FcDstMode(Fc(m)) == ADDR_LONG
    requires 23 + t.sduLength as int <= |m|
    ensures FromSkbReadable(m, t.sduLength)
    ensures var e := FromSkbSpec(m, t);
      && e.ret == t.sduLength as int
      && e.frame.dst.panId == Raw16(m, 3) && e.frame.dst.ext == m[5..13]
      && e.frame.src.panId == Raw16(m, 13) && e.frame.src.ext == m[15..23]
      && e.frame.sdu == Overwritten(t.sdu, m[23..23 + t.sduLength as int])
  {
    FromSkbParts(m, t);
  }

  /**
   * Long destination and long source: the PAN ids come back, but each extended address
   * comes back byte-reversed (to_skb swaps it, from_skb copies it as it is). As for short
   * addresses, this holds whatever `u8SduLength` the frame slot held.
   */
  lemma {:induction false} LongAddressesComeBackReversed(f: RxFrame, stale: bv16, t: TxFrame)
    requires SduCovered(f) && t.sduLength as int <= f.sduLength as int
    requires f.dst.mode == ADDR_LONG && f.src.mode == ADDR_LONG
    ensures FromSkbReadable(Mpdu(f, stale), t.sduLength)
    ensures var e := FromSkbSpec(Mpdu(f, stale), t);
      && e.ret == t.sduLength as int
      && e.frame.dst.mode == ADDR_LONG && e.frame.src.mode == ADDR_LONG
      && e.frame.dst.panId == f.dst.panId && e.frame.src.panId == f.src.panId
      && e.frame.dst.ext == Reversed8(f.dst.ext) && e.frame.src.ext == Reversed8(f.src.ext)
      && e.frame.sdu == Overwritten(t.sdu, f.sdu[..t.sduLength])
  {
    var m := Mpdu(f, stale);
    LongLayoutReads(m, t);
    MpduSduPrefix(f, stale, t.sduLength as int);
    assert m[3..13] == Field16(f.dst.panId) + Reversed8(f.dst.ext);
    assert m[13..23] == Field16(f.src.panId) + Reversed8(f.src.ext);
    assert m[5..13] == Reversed8(f.dst.ext);
    assert m[15..23] == Reversed8(f.src.ext);
    Raw16OfField(m, 3, f.dst.panId);
    Raw16OfField(m, 13, f.src.panId);
  }

  lemma TakeThenSlice(s: seq<bv8>, n: int, a: int, b: int)
    requires 0 <= a <= b <= n <= |s|
    ensures s[..n][a..b] == s[a..b]
  {
  }

  /** Bytes of a suffix, read at offsets past where it starts. */
  lemma {:induction false} SuffixBytes(m: seq<bv8>, p: nat, tail: seq<bv8>, k: nat)
    requires p <= |m| && m[p..] == tail && 2 + k <= |tail|
    ensures m[p] == tail[0] && m[p + 1] == tail[1]
    ensures m[p + 2..p + 2 + k] == tail[2..2 + k]
  {
    assert m[p..][0] == m[p] && m[p..][1] == m[p + 1];
    var lhs, rhs := m[p + 2..p + 2 + k], tail[2..2 + k];
    forall i | 0 <= i < k
      ensures lhs[i] == rhs[i]
    {
      assert lhs[i] == m[p + 2 + i] == m[p..][2 + i];
    }
    assert lhs == rhs;
  }

  /** The bytes to_skb writes for a short destination and a PAN-compressed short source. */
  lemma {:induction false} CompressedLayout(f: RxFrame, stale: bv16)
    requires SduCovered(f) && f.dst.mode == ADDR_SHORT && f.src.mode == ADDR_SHORT && IntraPan(f)
    ensures var m := Mpdu(f, stale);
      && |m| == 9 + f.sduLength as int
      && FcType(Fc(m)) == FC_TYPE_DATA && FcDstMode(Fc(m)) == ADDR_SHORT
      && m[3..5] == Field16(f.dst.panId) && m[5..7] == Field16(f.dst.short)
      && m[7..9] == Field16(f.src.short)
      && m[9..] == f.sdu[..f.sduLength]
  {
    var m := Mpdu(f, stale);
    assert Fc(m) == FrameControl(f, stale);
    assert m[3..7] == Field16(f.dst.panId) + Field16(f.dst.short);
    assert m[3..5] == m[3..7][..2] && m[5..7] == m[3..7][2..];
  }

  /** What from_skb makes of that layout when it reads the source uncompressed. */
  lemma {:induction false} CompressedLayoutReads(m: seq<bv8>, dp: bv16, ds: bv16, ss: bv16, sdu: seq<bv8>, t: TxFrame)
    requires |m| >= 9 && FcType(Fc(m)) == FC_TYPE_DATA && FcDstMode(Fc(m)) == ADDR_SHORT
    requires m[3..5] == Field16(dp) && m[5..7] == Field16(ds) && m[7..9] == Field16(ss)
    requires m[9..] == sdu && t.sduLength as int + 2 <= |sdu|
    ensures FromSkbReadable(m, t.sduLength)
    ensures var e := FromSkbSpec(m, t);
      && e.ret == t.sduLength as int
      && e.frame.dst.panId == dp && e.frame.dst.short == ds
      && e.frame.src.panId == ss
      && e.frame.src.short == Swap16(Load16(sdu[0], sdu[1]))
      && e.frame.sdu == Overwritten(t.sdu, sdu[2..2 + t.sduLength as int])
  {
    ShortLayoutReads(m, t);
    Raw16OfField(m, 3, dp);
    Raw16OfField(m, 5, ds);
    Raw16OfField(m, 7, ss);
    SuffixBytes(m, 9, sdu, t.sduLength as nat);
  }

  /**
   * Short destination and PAN-compressed short source: to_skb writes a 2-byte source, but
   * from_skb reads a 4-byte one, so the source PAN id it reports is the source short
   * address and its source short address is the first two SDU bytes.
   */
  lemma {:induction false} CompressedSourceIsMisread(f: RxFrame, stale: bv16, t: TxFrame)
    requires SduCovered(f) && t.sduLength as int + 2 <= f.sduLength as int
    requires f.dst.mode == ADDR_SHORT && f.src.mode == ADDR_SHORT && IntraPan(f)
    ensures FromSkbReadable(Mpdu(f, stale), t.sduLength)
    ensures var e := FromSkbSpec(Mpdu(f, stale), t);
      && e.ret == t.sduLength as int
      && e.frame.dst.panId == f.dst.panId && e.frame.dst.short == f.dst.short
      && e.frame.src.panId == f.src.short
      && e.frame.src.short == Swap16(Load16(f.sdu[0], f.sdu[1]))
      && e.frame.sdu == Overwritten(t.sdu, f.sdu[2..2 + t.sduLength as int])
  {
    CompressedLayout(f, stale);
    var sdu := f.sdu[..f.sduLength];
    CompressedLayoutReads(Mpdu(f, stale), f.dst.panId, f.dst.short, f.src.short, sdu, t);
    assert sdu[0] == f.sdu[0] && sdu[1] == f.sdu[1];
    TakeThenSlice(f.sdu, f.sduLength as int, 2, 2 + t.sduLength as int);
  }

  /** What from_skb reads from an MPDU with no destination: no addressing fields at all. */
  lemma NoneLayoutReads(m: seq<bv8>, t: TxFrame)
    requires |m| >= 2 && FcType(Fc(m)) == FC_TYPE_DATA && FcDstMode(Fc(m)) == ADDR_NONE
    requires FcSrcMode(Fc(m)) != ADDR_NONE && 3 + t.sduLength as int <= |m|
    ensures FromSkbReadable(m, t.sduLength)
    ensures var e := FromSkbSpec(m, t);
      && e.ret == t.sduLength as int
      && e.frame.src == t.src.(mode := FcSrcMode(Fc(m)))
      && e.frame.sdu == Overwritten(t.sdu, m[3..3 + t.sduLength as int])
  {
    FromSkbParts(m, t);
  }

  /** The bytes to_skb writes for no destination and a short source. */
  lemma {:induction false} NoDestinationLayout(f: RxFrame, stale: bv16)
    requires SduCovered(f) && f.dst.mode == ADDR_NONE && f.src.mode == ADDR_SHORT
    ensures var m := Mpdu(f, stale);
      && |m| >= 3
      && FcType(Fc(m)) == FC_TYPE_DATA && FcDstMode(Fc(m)) == ADDR_NONE && FcSrcMode(Fc(m)) == ADDR_SHORT
      && m[3..] == SrcField(f.src, IntraPan(f)) + f.sdu[..f.sduLength]
  {
    var m := Mpdu(f, stale);
    assert Fc(m) == FrameControl(f, stale);
    var s := |SrcField(f.src, IntraPan(f))|;
    JoinSlices(m, 3, 3 + s, SrcField(f.src, IntraPan(f)), f.sdu[..f.sduLength]);
  }

  /**
   * No destination: from_skb parses no source fields whatever the source mode, so the
   * source fields to_skb wrote end up at the start of the SDU.
   */
  lemma {:induction false} NoDestinationSkipsSource(f: RxFrame, stale: bv16, t: TxFrame)
    requires SduCovered(f) && f.dst.mode == ADDR_NONE && f.src.mode == ADDR_SHORT
    requires t.sduLength as int <= f.sduLength as int + |SrcField(f.src, IntraPan(f))|
    ensures FromSkbReadable(Mpdu(f, stale), t.sduLength)
    ensures var e := FromSkbSpec(Mpdu(f, stale), t);
      && e.ret == t.sduLength as int
      && e.frame.src == t.src.(mode := ADDR_SHORT)
      && e.frame.sdu == Overwritten(t.sdu, (SrcField(f.src, IntraPan(f)) + f.sdu[..f.sduLength])[..t.sduLength])
  {
    var m := Mpdu(f, stale);
    NoDestinationLayout(f, stale);
    NoneLayoutReads(m, t);
    SliceOfSuffix(m, 3, 3, 3 + t.sduLength as int);
  }

  /** A native frame with neither address is rebuilt into an MPDU that from_skb refuses. */
  lemma {:induction false} NoAddressesRefused(f: RxFrame, stale: bv16, t: TxFrame)
    requires SduCovered(f) && f.dst.mode & 3 == ADDR_NONE && f.src.mode & 3 == ADDR_NONE
    ensures FromSkbReadable(Mpdu(f, stale), t.sduLength)
    ensures FromSkbSpec(Mpdu(f, stale), t) == Encoded(-EINVAL, t)
  {
    assert Fc(Mpdu(f, stale)) == FrameControl(f, stale);
  }
}
