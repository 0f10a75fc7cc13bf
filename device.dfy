/**
 * `struct jenusb` with the fields the driver's operations update, and the operations
 * themselves: each leaves the device in the state its specification function names.
 */
module Device {
  import opened Wrappers
  import opened Bytes
  import opened Kernel
  import opened Mac
  import opened Codec
  import opened Addr
  import opened Transaction
  import opened IndicationDispatch
  import opened DeviceSpec

  class Jenusb {
    var running: bool
    var panid: bv16
    var shortaddr: bv16
    var lockHeld: bool
    var badUnlocks: nat
    var req: Request
    var cfm: Cfm
    var txFrame: TxFrame
    var queueStopped: bool
    var rxWorks: nat
    var txPackets: nat
    var txBytes: nat
    var txDropped: nat
    var rxPackets: nat
    var rxBytes: nat
    var rxDropped: nat
    var sent: seq<Request>
    var events: seq<Event>

    /** The device as a value. */
    ghost function Snapshot(): State
      reads this
    {
      State(running, panid, shortaddr, lockHeld, badUnlocks, req, cfm, txFrame, queueStopped, rxWorks,
            txPackets, txBytes, txDropped, rxPackets, rxBytes, rxDropped, sent, events)
    }

    /** `jenusb_get_pan_id`. */
    function GetPanId(): bv16
      reads this
    {
      panid
    }

    /** `jenusb_get_short_addr`. */
    function GetShortAddr(): bv16
      reads this
    {
      shortaddr
    }

    /** `mutex_unlock(&dev->transaction)`. */
    method Unlock()
      modifies this
      ensures Snapshot() == Unlocked(old(Snapshot()))
    {
      if lockHeld {
        lockHeld := false;
      } else {
        badUnlocks := badUnlocks + 1;
      }
    }

    /** Fills the request buffer with `r` and posts it. */
    method Post(r: Request, x: Exchange) returns (ret: int)
      requires Supplied(x)
      modifies this
      ensures Step(Snapshot(), ret) == Transacted(old(Snapshot()), r, x)
    {
      req := r;
      var p := PostReq(running, Sap(r), x, cfm);
      cfm := p.cfm;
      if p.attempted {
        sent := sent + [r];
      }
      ret := p.ret;
    }

    /** `jenusb_set_panid`. */
    method SetPanId(c: Call, newPanId: bv16) returns (ret: int)
      requires Ready(lockHeld, c)
      modifies this
      ensures Step(Snapshot(), ret) == SetPanIdSpec(old(Snapshot()), c, newPanId)
      ensures !c.interrupted && !ChkErr(cfm) ==> GetPanId() == newPanId
      ensures ChkErr(cfm) ==> GetPanId() == old(GetPanId())
    {
      if c.interrupted {
        return -EINTR;
      }
      lockHeld := true;
      ret := Post(PibRequest(PIB_ATTR_PAN_ID, newPanId), c.x);
      if !ChkErr(cfm) {
        panid := newPanId;
      }
      Unlock();
    }

    /** `jenusb_set_short_addr`. */
    method SetShortAddr(c: Call, newShortAddr: bv16) returns (ret: int)
      requires Ready(lockHeld, c)
      modifies this
      ensures Step(Snapshot(), ret) == SetShortAddrSpec(old(Snapshot()), c, newShortAddr)
      ensures !c.interrupted && !ChkErr(cfm) ==> GetShortAddr() == newShortAddr
      ensures ChkErr(cfm) ==> GetShortAddr() == old(GetShortAddr())
    {
      if c.interrupted {
        return -EINTR;
      }
      lockHeld := true;
      ret := Post(PibRequest(PIB_ATTR_SHORT_ADDRESS, newShortAddr), c.x);
      if !ChkErr(cfm) {
        shortaddr := newShortAddr;
      }
      Unlock();
    }

    /** `jenusb_assoc_req`; the short address it computes is not kept anywhere. */
    method AssocReq(c: Call, coord: Option<Ieee802154Addr>, slot: MacAddr, channel: bv8, cap: bv8)
      returns (ret: int)
      requires Ready(lockHeld, c)
      modifies this
      ensures Step(Snapshot(), ret) == AssocReqSpec(old(Snapshot()), c, coord, slot, channel, cap)
    {
      if c.interrupted {
        return -EINTR;
      }
      lockHeld := true;
      ret := Post(AssocRequest(coord, slot, channel, cap), c.x);
      var assocShort: bv16;
      if ret != 0 {
        assocShort := ADDR_UNDEF;
      } else if ChkErr(cfm) {
        assocShort := ADDR_UNDEF;
        ret := -EIO;
      } else {
        assocShort := Swap16(cfm.assocShortAddr);
      }
      Unlock();
    }

    /** `jenusb_assoc_resp` returns success before it does anything. */
    method AssocResp(addr: Ieee802154Addr, shortAddr: bv16, status: bv8) returns (ret: int)
      ensures ret == 0
    {
      return 0;
    }

    /** `jenusb_disassoc_req`. */
    method DisassocReq(c: Call, addr: Option<Ieee802154Addr>, slot: MacAddr, reason: bv8) returns (ret: int)
      requires Ready(lockHeld, c)
      modifies this
      ensures Step(Snapshot(), ret) == DisassocReqSpec(old(Snapshot()), c, addr, slot, reason)
    {
      if c.interrupted {
        return -EINTR;
      }
      lockHeld := true;
      ret := Post(DisassocRequest(addr, slot, reason), c.x);
      if ret == 0 && ChkErr(cfm) {
        ret := -EIO;
      }
      Unlock();
    }

    /** `jenusb_start_req`. */
    method StartReq(p: StartParams, pib: Call, start: Call) returns (ret: int)
      requires StartReady(Snapshot(), p, pib, start)
      modifies this
      ensures Step(Snapshot(), ret) == StartReqSpec(old(Snapshot()), p, pib, start)
    {
      ret := 0;
      if p.panCoord != 0 {
        ret := SetShortAddr(pib, 0x0000);
      }
      if ret != 0 {
        Unlock();
        return;
      }
      if start.interrupted {
        return -EINTR;
      }
      lockHeld := true;
      ret := Post(StartRequest(p), start.x);
      if ret == 0 && ChkErr(cfm) {
        ret := -EIO;
      }
      Unlock();
    }

    /** `jenusb_scan_req`. */
    method ScanReq(c: Call, scanType: bv8, channels: bv32, duration: bv8) returns (ret: int)
      requires Ready(lockHeld, c)
      modifies this
      ensures Step(Snapshot(), ret) == ScanReqSpec(old(Snapshot()), c, scanType, channels, duration)
    {
      if c.interrupted {
        return -EINTR;
      }
      lockHeld := true;
      ret := Post(ScanRequest(scanType, channels, duration), c.x);
      if ret == 0 && ChkErr(cfm) {
        return -EIO;
      }
      Unlock();
    }

    /** `jenusb_net_open`. */
    method NetOpen(c: Call, allocOk: bool) returns (ret: int)
      requires Ready(lockHeld, c)
      modifies this
      ensures Step(Snapshot(), ret) == NetOpenSpec(old(Snapshot()), c, allocOk)
    {
      if c.interrupted {
        return -EINTR;
      }
      lockHeld := true;
      running := true;
      ret := Post(ResetRequest, c.x);
      ret := FinishOpen(ret, allocOk);
    }

    /** `jenusb_net_open` after the reset was posted with result `posted`. */
    method FinishOpen(posted: int, allocOk: bool) returns (ret: int)
      modifies this
      ensures Step(Snapshot(), ret) == Opened(Step(old(Snapshot()), posted), allocOk)
    {
      ret := posted;
      if ret == 0 {
        if ChkErr(cfm) {
          ret := -EIO;
        } else if !allocOk {
          running := false;
          ret := -ENOMEM;
        } else {
          queueStopped := false;
          rxWorks := rxWorks + 1;
        }
      }
      if ret != 0 {
        running := false;
      }
      Unlock();
    }

    /** `jenusb_net_close`. */
    method NetClose() returns (ret: int)
      modifies this
      ensures Step(Snapshot(), ret) == NetCloseSpec(old(Snapshot()))
    {
      running := false;
      queueStopped := true;
      rxWorks := 0;
      return 0;
    }

    /** The `drop:` label of `jenusb_net_xmit`. */
    method Drop() returns (ret: int)
      modifies this
      ensures Step(Snapshot(), ret) == Dropped(old(Snapshot()))
    {
      Unlock();
      txDropped := txDropped + 1;
      return NET_XMIT_DROP;
    }

    /** `jenusb_net_xmit`. */
    method Xmit(c: Call, skb: seq<bv8>) returns (ret: int)
      requires Ready(lockHeld, c) && FromSkbReadable(skb, txFrame.sduLength)
      modifies this
      ensures Step(Snapshot(), ret) == XmitSpec(old(Snapshot()), c, skb)
    {
      if c.interrupted {
        return -EINTR;
      }
      lockHeld := true;
      ret := Send(c.x, skb);
    }

    /** `jenusb_net_xmit` once the mutex is held. */
    method Send(x: Exchange, skb: seq<bv8>) returns (ret: int)
      requires Supplied(x) && FromSkbReadable(skb, txFrame.sduLength)
      modifies this
      ensures Step(Snapshot(), ret) == Transmitted(old(Snapshot()), x, skb)
    {
      var parsed, frame := FromSkb(skb, txFrame);
      req := DataRequest(frame);
      txFrame := frame;
      if parsed < 0 {
        ret := Drop();
        return;
      }
      ret := Post(DataRequest(frame), x);
      ret := Complete(ret, skb);
    }

    /** `jenusb_net_xmit` after the data request was posted with result `posted`. */
    method Complete(posted: int, skb: seq<bv8>) returns (ret: int)
      modifies this
      ensures Step(Snapshot(), ret) == Completed(Step(old(Snapshot()), posted), skb)
    {
      if posted != 0 {
        ret := Drop();
        return;
      }
      if cfm.mcpsStatus == MCPS_CFM_ERROR {
        if cfm.dataStatus != ENUM_TRANSACTION_OVERFLOW {
          queueStopped := true;
        }
        ret := Drop();
        return;
      }
      Unlock();
      txPackets := txPackets + 1;
      txBytes := txBytes + |skb|;
      return NET_XMIT_SUCCESS;
    }

    /** `jenusb_net_ioctl`; `out` is the socket address the request holds afterwards. */
    method Ioctl(cmd: int, sa: SockAddr, setPan: Call, setShort: Call) returns (ret: int, out: SockAddr)
      requires IoctlReady(Snapshot(), cmd, setPan, setShort)
      modifies this
      ensures IoctlStep(Snapshot(), ret, out) == IoctlSpec(old(Snapshot()), cmd, sa, setPan, setShort)
    {
      out := sa;
      if cmd == SIOCGIFADDR {
        var panId := GetPanId();
        var shortAddr := GetShortAddr();
        if panId == PANID_BROADCAST || shortAddr == ADDR_BROADCAST {
          return -EADDRNOTAVAIL, out;
        }
        out := SockAddr(AF_IEEE802154, out.addr.(addrType := ADDR_SHORT as int, panId := panId,
                                                 shortAddr := shortAddr));
        return 0, out;
      }
      if cmd == SIOCSIFADDR {
        if !ValidSetAddr(sa) {
          return -EINVAL, out;
        }
        var r1 := SetPanId(setPan, sa.addr.panId);
        var r2 := SetShortAddr(setShort, sa.addr.shortAddr);
        return OrInt(r1, r2), out;
      }
      return -ENOIOCTLCMD, out;
    }

    /** `jenusb_mcps_ind` for the device. */
    method McpsInd(ind: Mac.McpsInd, allocOk: bool, staleFc: bv16)
      requires ind.indType == MCPS_IND_DATA ==> SduCovered(ind.frame)
      modifies this
      ensures Snapshot() == McpsIndSpec(old(Snapshot()), ind, allocOk, staleFc)
    {
      if ind.indType == MCPS_DCFM_PURGE || ind.indType == MCPS_DCFM_DATA {
      } else if ind.indType == MCPS_IND_DATA {
        Receive(ind.frame, allocOk, staleFc);
      }
    }

    /** The data-indication case of `jenusb_mcps_ind`. */
    method Receive(f: RxFrame, allocOk: bool, staleFc: bv16)
      requires SduCovered(f)
      modifies this
      ensures Snapshot() == ReceivedSpec(old(Snapshot()), f, allocOk, staleFc)
    {
      var len, skb := ToSkb(f, allocOk, staleFc);
      if len < 0 {
        rxDropped := rxDropped + 1;
        return;
      }
      rxPackets := rxPackets + 1;
      rxBytes := rxBytes + len;
      events := events + [Received(skb)];
    }

    /** `jenusb_mlme_ind` for the device. */
    method MlmeInd(ind: Mac.MlmeInd)
      modifies this
      ensures Snapshot() == MlmeIndSpec(old(Snapshot()), ind)
    {
      var action := MlmeDispatch(ind);
      if action.Notify? {
        events := events + [action.event];
      }
    }

    /** One run of a queued `jenusb_rx_work`. */
    method RxWork(status: int, ind: Indication, allocOk: bool, staleFc: bv16)
      requires rxWorks > 0 && Deliverable(ind)
      modifies this
      ensures Snapshot() == RxWorkSpec(old(Snapshot()), status, ind, allocOk, staleFc)
    {
      if !running {
        rxWorks := rxWorks - 1;
        return;
      }
      if status == 0 {
        if ind.sap == SAP_MCPS {
          McpsInd(ind.mcps, allocOk, staleFc);
        } else if ind.sap == SAP_MLME {
          MlmeInd(ind.mlme);
        }
      } else if status != -ETIMEDOUT {
        rxWorks := rxWorks - 1;
      }
    }
  }
}
