/**
 * What the device operations promise, stated on their specification functions: which
 * cached fields change and when, the order of requests, the lock quirks, the transmit
 * statistics, the address ioctl, and receive-work scheduling.
 */
module DeviceProperties {
  import opened Wrappers
  import opened Bytes
  import opened Kernel
  import opened Mac
  import opened Codec
  import opened Addr
  import opened Transaction
  import opened IndicationDispatch
  import opened DeviceSpec

  /** The post the PIB set makes, from the state that holds the lock. */
  function MlmePost(s: State, c: Call): Posted
    requires Supplied(c.x)
  {
    PostReqSpec(s.running, SAP_MLME, c.x, s.cfm)
  }

  /**
   * `jenusb_set_panid`: an interrupted wait sends nothing and changes nothing. Otherwise the
   * request goes out if the device runs, the cached PAN id becomes the requested one exactly
   * when the confirmation buffer afterwards is not an MLME error, whatever the post returned,
   * the mutex is released and nothing else changes.
   */
  lemma SetPanIdEffect(s: State, c: Call, v: bv16)
    requires Ready(s.lockHeld, c)
    ensures c.interrupted ==> SetPanIdSpec(s, c, v) == Step(s, -EINTR)
    ensures !c.interrupted ==>
      var p := MlmePost(s, c);
      SetPanIdSpec(s, c, v) == Step(
        s.(panid := if ChkErr(p.cfm) then s.panid else v,
           cfm := p.cfm, req := PibRequest(PIB_ATTR_PAN_ID, v),
           sent := if s.running then s.sent + [PibRequest(PIB_ATTR_PAN_ID, v)] else s.sent),
        p.ret)
  {
  }

  /** `jenusb_set_short_addr`, in the same terms as `jenusb_set_panid`. */
  lemma SetShortAddrEffect(s: State, c: Call, v: bv16)
    requires Ready(s.lockHeld, c)
    ensures c.interrupted ==> SetShortAddrSpec(s, c, v) == Step(s, -EINTR)
    ensures !c.interrupted ==>
      var p := MlmePost(s, c);
      SetShortAddrSpec(s, c, v) == Step(
        s.(shortaddr := if ChkErr(p.cfm) then s.shortaddr else v,
           cfm := p.cfm, req := PibRequest(PIB_ATTR_SHORT_ADDRESS, v),
           sent := if s.running then s.sent + [PibRequest(PIB_ATTR_SHORT_ADDRESS, v)] else s.sent),
        p.ret)
  {
  }

  /**
   * The cache follows a stale confirmation: on a stopped device nothing is sent and the
   * set fails with -ENETDOWN, yet the PAN id is taken over when the old buffer is no error.
   */
  lemma SetPanIdOnStoppedDevice(s: State, c: Call, v: bv16)
    requires Ready(s.lockHeld, c) && !c.interrupted && !s.running && !ChkErr(s.cfm)
    ensures SetPanIdSpec(s, c, v).ret == -ENETDOWN
    ensures SetPanIdSpec(s, c, v).s.panid == v
    ensures SetPanIdSpec(s, c, v).s.sent == s.sent
  {
  }

  /** Results of a C `int`: the transport only reports values a C `int` holds. */
  predicate IntResults(x: Exchange)
  {
    IsInt32(x.write) && forall j :: 0 <= j < |x.results| ==> IsInt32(x.results[j].status)
  }

  lemma PostReqIsInt(running: bool, sap: bv8, x: Exchange, cfm: Cfm)
    requires Supplied(x) && IntResults(x)
    ensures IsInt32(PostReqSpec(running, sap, x, cfm).ret)
  {
  }

  /**
   * `jenusb_assoc_req` and `jenusb_disassoc_req` cache nothing: the PAN id and short address
   * stay as they were, and the result is 0 exactly when the post succeeded with no MLME error.
   */
  lemma AssocReqEffect(s: State, c: Call, coord: Option<Ieee802154Addr>, slot: MacAddr, channel: bv8, cap: bv8)
    requires Ready(s.lockHeld, c)
    ensures var r, p := AssocReqSpec(s, c, coord, slot, channel, cap), MlmePost(s, c);
      && (c.interrupted ==> r == Step(s, -EINTR))
      && r.s.panid == s.panid && r.s.shortaddr == s.shortaddr
      && (!c.interrupted ==>
            && !r.s.lockHeld
            && r.s.sent == (if s.running then s.sent + [AssocRequest(coord, slot, channel, cap)] else s.sent)
            && (r.ret == 0 <==> p.ret == 0 && !ChkErr(p.cfm))
            && (p.ret == 0 && ChkErr(p.cfm) ==> r.ret == -EIO)
            && (p.ret != 0 ==> r.ret == p.ret))
  {
  }

  lemma DisassocReqEffect(s: State, c: Call, addr: Option<Ieee802154Addr>, slot: MacAddr, reason: bv8)
    requires Ready(s.lockHeld, c)
    ensures var r, p := DisassocReqSpec(s, c, addr, slot, reason), MlmePost(s, c);
      && (c.interrupted ==> r == Step(s, -EINTR))
      && r.s.panid == s.panid && r.s.shortaddr == s.shortaddr
      && (!c.interrupted ==>
            && !r.s.lockHeld
            && r.s.sent == (if s.running then s.sent + [DisassocRequest(addr, slot, reason)] else s.sent)
            && (r.ret == 0 <==> p.ret == 0 && !ChkErr(p.cfm))
            && (p.ret == 0 && ChkErr(p.cfm) ==> r.ret == -EIO)
            && (p.ret != 0 ==> r.ret == p.ret))
  {
  }

  /** A null coordinator goes out as the short undefined address on the broadcast PAN. */
  lemma AssocNullCoordinator(slot: MacAddr, channel: bv8, cap: bv8)
    ensures var m := AssocRequest(None, slot, channel, cap).mlme.coord;
      m.mode == ADDR_SHORT && m.panId == PANID_BROADCAST && Swap16(m.short) == ADDR_UNDEF
  {
    Swap16Involutive(ADDR_UNDEF);
  }

  /**
   * `jenusb_start_req` as coordinator on a running device: the PIB set of short address
   * 0x0000 goes out first. When it fails, no start request follows, its result is returned,
   * and the final unlock finds the mutex free.
   */
  lemma StartAsCoordinator(s: State, p: StartParams, pib: Call, start: Call)
    requires StartReady(s, p, pib, start) && p.panCoord != 0 && !pib.interrupted && s.running
    ensures var r := StartReqSpec(s, p, pib, start);
      && |r.s.sent| > |s.sent| && r.s.sent[|s.sent|] == PibRequest(PIB_ATTR_SHORT_ADDRESS, 0x0000)
      && (SetShortAddrSpec(s, pib, 0x0000).ret != 0 ==>
            && r.ret == SetShortAddrSpec(s, pib, 0x0000).ret
            && r.s.sent == s.sent + [PibRequest(PIB_ATTR_SHORT_ADDRESS, 0x0000)]
            && r.s.badUnlocks == s.badUnlocks + 1)
      && (SetShortAddrSpec(s, pib, 0x0000).ret == 0 && !start.interrupted ==>
            r.s.sent == s.sent + [PibRequest(PIB_ATTR_SHORT_ADDRESS, 0x0000), StartRequest(p)])
  {
    SetShortAddrEffect(s, pib, 0x0000);
    var first := SetShortAddrSpec(s, pib, 0x0000);
    assert first.s.sent == s.sent + [PibRequest(PIB_ATTR_SHORT_ADDRESS, 0x0000)];
    assert !first.s.lockHeld && first.s.running && first.s.badUnlocks == s.badUnlocks;
    if first.ret == 0 && !start.interrupted {
      var t := Transacted(first.s.(lockHeld := true), StartRequest(p), start.x);
      assert t.s.sent == first.s.sent + [StartRequest(p)];
    }
  }

  /**
   * `jenusb_start_req` as coordinator on a stopped device: the PIB set fails, so the start
   * itself fails and nothing at all is handed to the endpoint.
   */
  lemma StartCoordinatorOnStoppedDevice(s: State, p: StartParams, pib: Call, start: Call)
    requires StartReady(s, p, pib, start) && p.panCoord != 0 && !s.running
    ensures var r := StartReqSpec(s, p, pib, start);
      && r.ret == (if pib.interrupted then -EINTR else -ENETDOWN)
      && r.s.sent == s.sent
      && !r.s.running
  {
  }

  /**
   * An interrupted wait inside the coordinator's PIB set still reaches the final unlock:
   * nothing is sent, and the unlock releases a mutex held elsewhere or counts a bad unlock.
   */
  lemma StartInterruptedInPibSet(s: State, p: StartParams, pib: Call, start: Call)
    requires StartReady(s, p, pib, start) && p.panCoord != 0 && pib.interrupted
    ensures StartReqSpec(s, p, pib, start) == Step(Unlocked(s), -EINTR)
  {
  }

  /** `jenusb_start_req` not as coordinator: no PIB set, at most the start request goes out. */
  lemma StartNotCoordinator(s: State, p: StartParams, pib: Call, start: Call)
    requires StartReady(s, p, pib, start) && p.panCoord == 0
    ensures var r := StartReqSpec(s, p, pib, start);
      && (r.s.sent == s.sent || r.s.sent == s.sent + [StartRequest(p)])
      && r.s.shortaddr == s.shortaddr && r.s.panid == s.panid
      && r.s.badUnlocks == s.badUnlocks
  {
  }

  /**
   * `jenusb_scan_req` keeps the mutex exactly when the post succeeded and the confirmation
   * is an MLME error, and then returns -EIO.
   */
  lemma ScanLeaksLockOnError(s: State, c: Call, scanType: bv8, channels: bv32, duration: bv8)
    requires Ready(s.lockHeld, c) && !c.interrupted
    ensures var r, p := ScanReqSpec(s, c, scanType, channels, duration), MlmePost(s, c);
      && (r.s.lockHeld <==> p.ret == 0 && ChkErr(p.cfm))
      && (r.s.lockHeld ==> r.ret == -EIO)
      && r.s.badUnlocks == s.badUnlocks
  {
  }

  /** After the leak every locked operation can only end by a signal, with -EINTR. */
  lemma LeakedLockBlocksSetPanId(s: State, c: Call, v: bv16)
    requires Ready(s.lockHeld, c) && s.lockHeld
    ensures SetPanIdSpec(s, c, v) == Step(s, -EINTR)
  {
  }

  /**
   * `jenusb_net_open`: the reset always goes out (running is set first); the device is left
   * running exactly on success, which also starts the queue and queues one receive work item.
   */
  lemma NetOpenEffect(s: State, c: Call, allocOk: bool)
    requires Ready(s.lockHeld, c) && !c.interrupted
    ensures var r, p := NetOpenSpec(s, c, allocOk), PostReqSpec(true, SAP_MLME, c.x, s.cfm);
      && r.s.sent == s.sent + [ResetRequest]
      && (r.ret == 0 <==> r.s.running)
      && (r.ret == 0 <==> p.ret == 0 && !ChkErr(p.cfm) && allocOk)
      && (r.ret == 0 ==> !r.s.queueStopped && r.s.rxWorks == s.rxWorks + 1)
      && (r.ret != 0 ==> r.s.rxWorks == s.rxWorks && r.s.queueStopped == s.queueStopped)
      && (p.ret == 0 && !ChkErr(p.cfm) && !allocOk ==> r.ret == -ENOMEM)
      && !r.s.lockHeld
  {
  }

  /** After `jenusb_net_close` every transaction fails with -ENETDOWN (or -EINTR) and sends nothing. */
  lemma ClosedDeviceSendsNothing(s: State, c: Call, v: bv16)
    requires Ready(NetCloseSpec(s).s.lockHeld, c)
    ensures var t := NetCloseSpec(s).s;
      && !t.running && t.queueStopped && t.rxWorks == 0
      && SetPanIdSpec(t, c, v).s.sent == t.sent
      && (SetPanIdSpec(t, c, v).ret == -ENETDOWN || SetPanIdSpec(t, c, v).ret == -EINTR)
  {
  }

  /** The post `jenusb_net_xmit` makes for a parsed frame. */
  function DataPost(s: State, c: Call): Posted
    requires Supplied(c.x)
  {
    PostReqSpec(s.running, SAP_MCPS, c.x, s.cfm)
  }

  /**
   * `jenusb_net_xmit` once the mutex is taken: a `from_skb` error, a post error or an MCPS
   * error each count one drop and return NET_XMIT_DROP; success counts one packet of
   * `skb`'s length. The mutex is released either way.
   */
  lemma XmitAccounting(s: State, c: Call, skb: seq<bv8>)
    requires Ready(s.lockHeld, c) && FromSkbReadable(skb, s.txFrame.sduLength) && !c.interrupted
    ensures var r, e, p := XmitSpec(s, c, skb), FromSkbSpec(skb, s.txFrame), DataPost(s, c);
      && (r.ret == NET_XMIT_DROP <==> e.ret < 0 || p.ret != 0 || p.cfm.mcpsStatus == MCPS_CFM_ERROR)
      && (r.ret == NET_XMIT_DROP || r.ret == NET_XMIT_SUCCESS)
      && (r.ret == NET_XMIT_DROP ==>
            r.s.txDropped == s.txDropped + 1 && r.s.txPackets == s.txPackets && r.s.txBytes == s.txBytes)
      && (r.ret == NET_XMIT_SUCCESS ==>
            r.s.txDropped == s.txDropped && r.s.txPackets == s.txPackets + 1
            && r.s.txBytes == s.txBytes + |skb|)
      && (e.ret < 0 ==> r.s.sent == s.sent)
      && (e.ret >= 0 && s.running ==> r.s.sent == s.sent + [DataRequest(e.frame)])
      && !r.s.lockHeld && r.s.badUnlocks == s.badUnlocks
      && r.s.rxPackets == s.rxPackets && r.s.rxDropped == s.rxDropped
  {
  }

  /** The queue is stopped only for an MCPS error with a status other than TRANSACTION_OVERFLOW. */
  lemma XmitQueueStop(s: State, c: Call, skb: seq<bv8>)
    requires Ready(s.lockHeld, c) && FromSkbReadable(skb, s.txFrame.sduLength) && !c.interrupted
    ensures var r, e, p := XmitSpec(s, c, skb), FromSkbSpec(skb, s.txFrame), DataPost(s, c);
      r.s.queueStopped == (s.queueStopped || (e.ret >= 0 && p.ret == 0 && p.cfm.mcpsStatus == MCPS_CFM_ERROR
                                              && p.cfm.dataStatus != ENUM_TRANSACTION_OVERFLOW))
  {
  }

  /** An interrupted transmit returns -EINTR and counts nothing. */
  lemma XmitInterrupted(s: State, c: Call, skb: seq<bv8>)
    requires Ready(s.lockHeld, c) && FromSkbReadable(skb, s.txFrame.sduLength) && c.interrupted
    ensures XmitSpec(s, c, skb) == Step(s, -EINTR)
  {
  }

  /**
   * SIOCGIFADDR changes nothing and succeeds exactly when neither cached value is 0xFFFF;
   * it then reports a short address with the cached PAN id and short address.
   */
  lemma IoctlGet(s: State, sa: SockAddr, c1: Call, c2: Call)
    ensures var r := IoctlSpec(s, SIOCGIFADDR, sa, c1, c2);
      && r.s == s
      && (r.ret == 0 <==> s.panid != PANID_BROADCAST && s.shortaddr != ADDR_BROADCAST)
      && (r.ret != 0 ==> r.ret == -EADDRNOTAVAIL && r.sa == sa)
      && (r.ret == 0 ==> r.sa.family == AF_IEEE802154 && r.sa.addr.addrType == ADDR_SHORT as int
                         && r.sa.addr.panId == s.panid && r.sa.addr.shortAddr == s.shortaddr)
  {
  }

  /**
   * The get and set checks differ: a cached undefined short address (0xFFFE) is reported,
   * although SIOCSIFADDR refuses to set that value.
   */
  lemma IoctlGetReportsUndefined(s: State, sa: SockAddr, c1: Call, c2: Call)
    requires s.shortaddr == ADDR_UNDEF && s.panid != PANID_BROADCAST
    ensures IoctlSpec(s, SIOCGIFADDR, sa, c1, c2).ret == 0
    ensures !ValidSetAddr(IoctlSpec(s, SIOCGIFADDR, sa, c1, c2).sa)
  {
  }

  /** SIOCSIFADDR with a refused address, and an unknown command, change nothing. */
  lemma IoctlRefused(s: State, cmd: int, sa: SockAddr, c1: Call, c2: Call)
    requires IoctlReady(s, cmd, c1, c2)
    requires (cmd == SIOCSIFADDR && !ValidSetAddr(sa)) || (cmd != SIOCSIFADDR && cmd != SIOCGIFADDR)
    ensures var r := IoctlSpec(s, cmd, sa, c1, c2);
      r.s == s && r.sa == sa && r.ret == (if cmd == SIOCSIFADDR then -EINVAL else -ENOIOCTLCMD)
  {
  }

  /**
   * SIOCSIFADDR sets the PAN id, then the short address, and ORs their results: zero exactly
   * when both sets returned zero, negative when either failed.
   */
  lemma {:induction false} IoctlSetResult(s: State, sa: SockAddr, c1: Call, c2: Call)
    requires IoctlReady(s, SIOCSIFADDR, c1, c2) && ValidSetAddr(sa)
    requires IntResults(c1.x) && IntResults(c2.x)
    ensures var r, p := IoctlSpec(s, SIOCSIFADDR, sa, c1, c2), SetPanIdSpec(s, c1, sa.addr.panId);
      var q := SetShortAddrSpec(p.s, c2, sa.addr.shortAddr);
      && r.s == q.s
      && (r.ret == 0 <==> p.ret == 0 && q.ret == 0)
      && (p.ret < 0 || q.ret < 0 ==> r.ret < 0)
  {
    var p := SetPanIdSpec(s, c1, sa.addr.panId);
    var q := SetShortAddrSpec(p.s, c2, sa.addr.shortAddr);
    PostReqIsInt(s.running, SAP_MLME, c1.x, s.cfm);
    PostReqIsInt(p.s.running, SAP_MLME, c2.x, p.s.cfm);
    assert IsInt32(p.ret) && IsInt32(q.ret);
    OrIntErrors(p.ret, q.ret);
  }

  /**
   * Setting an address and reading it back: when neither wait is interrupted and neither
   * confirmation is an MLME error, SIOCGIFADDR then reports the address just set.
   */
  lemma {:induction false} IoctlSetThenGet(s: State, sa: SockAddr, c1: Call, c2: Call, d1: Call, d2: Call)
    requires IoctlReady(s, SIOCSIFADDR, c1, c2) && ValidSetAddr(sa)
    requires !c1.interrupted && !c2.interrupted
    requires !ChkErr(MlmePost(s, c1).cfm)
    requires !ChkErr(PostReqSpec(s.running, SAP_MLME, c2.x, MlmePost(s, c1).cfm).cfm)
    ensures var t := IoctlSpec(s, SIOCSIFADDR, sa, c1, c2).s;
      var g := IoctlSpec(t, SIOCGIFADDR, sa, d1, d2);
      g.ret == 0 && g.sa.addr.panId == sa.addr.panId && g.sa.addr.shortAddr == sa.addr.shortAddr
  {
    SetPanIdEffect(s, c1, sa.addr.panId);
    var p := SetPanIdSpec(s, c1, sa.addr.panId);
    SetShortAddrEffect(p.s, c2, sa.addr.shortAddr);
  }

  /**
   * A queued `jenusb_rx_work` stays queued exactly while the device runs and its read
   * succeeded or timed out; only a successful read is routed.
   */
  lemma RxWorkScheduling(s: State, status: int, ind: Indication, allocOk: bool, staleFc: bv16)
    requires s.rxWorks > 0 && Deliverable(ind)
    ensures var r := RxWorkSpec(s, status, ind, allocOk, staleFc);
      && (r.rxWorks == s.rxWorks <==> s.running && (status == 0 || status == -ETIMEDOUT))
      && (r.rxWorks != s.rxWorks ==> r.rxWorks == s.rxWorks - 1)
      && (status != 0 || !s.running ==> r.events == s.events && r.rxPackets == s.rxPackets
                                        && r.rxDropped == s.rxDropped)
  {
  }

  /**
   * A received data frame: with the skb allocated it counts one packet of `to_skb`'s length
   * and delivers the rebuilt MPDU, which is longer than that length whenever it has a
   * destination address; without it, it counts one drop and delivers nothing.
   */
  lemma {:induction false} RxDataFrame(s: State, ind: Indication, allocOk: bool, staleFc: bv16)
    requires s.rxWorks > 0 && s.running && ind.sap == SAP_MCPS && ind.mcps.indType == MCPS_IND_DATA
    requires SduCovered(ind.mcps.frame)
    ensures var r, f := RxWorkSpec(s, 0, ind, allocOk, staleFc), ind.mcps.frame;
      && (allocOk ==>
            && r.rxPackets == s.rxPackets + 1
            && r.rxBytes == s.rxBytes + ToSkbLength(f)
            && r.events == s.events + [Received(Mpdu(f, staleFc))]
            && (f.dst.mode == ADDR_SHORT || f.dst.mode == ADDR_LONG ==> ToSkbLength(f) < |Mpdu(f, staleFc)|))
      && (!allocOk ==> r.rxDropped == s.rxDropped + 1 && r.events == s.events && r.rxPackets == s.rxPackets)
      && r.rxWorks == s.rxWorks
  {
    ToSkbLengthShortfall(ind.mcps.frame, staleFc);
  }

  /** An MLME indication appends exactly the notification its type calls for. */
  lemma RxMlmeIndication(s: State, ind: Indication, allocOk: bool, staleFc: bv16)
    requires s.rxWorks > 0 && s.running && ind.sap == SAP_MLME
    ensures var r := RxWorkSpec(s, 0, ind, allocOk, staleFc);
      && (NotifiedMlme(ind.mlme.indType) ==> r.events == s.events + [MlmeDispatch(ind.mlme).event])
      && (!NotifiedMlme(ind.mlme.indType) ==> r.events == s.events)
      && r == s.(events := r.events)
  {
    MlmeClasses(ind.mlme);
  }
}
