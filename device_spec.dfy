/**
 * The state of one `struct jenusb` and its network device, and what each device operation
 * does to it. The operations are stated here on values; the class in module `Device`
 * implements them in place and is proved to agree.
 */
module DeviceSpec {
  import opened Wrappers
  import opened Bytes
  import opened Kernel
  import opened Mac
  import opened Codec
  import opened Addr
  import opened Transaction
  import opened IndicationDispatch

  /**
   * `running`, the cached `panid` and `shortaddr`, the transaction mutex, the persistent
   * request and confirmation buffers (and the request's frame slot `txFrame`), the transmit
   * queue, the queued receive work items, the interface statistics, and two logs: the
   * requests handed to `usb_bulk_msg` for the bulk-out endpoint (whether or not that write
   * succeeded) and the events delivered to the stack.
   * `badUnlocks` counts unlocks of a mutex that was not held.
   */
  datatype State = State(
    running: bool,
    panid: bv16, shortaddr: bv16,
    lockHeld: bool, badUnlocks: nat,
    req: Request, cfm: Cfm, txFrame: TxFrame,
    queueStopped: bool, rxWorks: nat,
    txPackets: nat, txBytes: nat, txDropped: nat,
    rxPackets: nat, rxBytes: nat, rxDropped: nat,
    sent: seq<Request>, events: seq<Event>)

  /** An operation's new state and return value. */
  datatype Step = Step(s: State, ret: int)

  /** What the environment does for one locked transaction: the lock wait, then the transport. */
  datatype Call = Call(interrupted: bool, x: Exchange)

  /**
   * The transport answers every read, and a wait on a mutex that is already held ends by a
   * signal (the model has no other thread that could release it).
   */
  predicate Ready(held: bool, c: Call)
  {
    Supplied(c.x) && (!held || c.interrupted)
  }

  /** `mutex_unlock`, keeping count of unlocks of a free mutex. */
  function Unlocked(s: State): State
  {
    if s.lockHeld then s.(lockHeld := false) else s.(badUnlocks := s.badUnlocks + 1)
  }

  /** Filling the request buffer with `r` and posting it with `__jenusb_post_req`. */
  function Transacted(s: State, r: Request, x: Exchange): Step
    requires Supplied(x)
  {
    var p := PostReqSpec(s.running, Sap(r), x, s.cfm);
    Step(s.(req := r, cfm := p.cfm, sent := if p.attempted then s.sent + [r] else s.sent), p.ret)
  }

  /** The PIB set request `jenusb_set_panid` and `jenusb_set_short_addr` build. */
  function PibRequest(attribute: bv8, value: bv16): Request
  {
    Mlme(SetPib(attribute, 0, value))
  }

  /** `jenusb_set_panid`. */
  function SetPanIdSpec(s: State, c: Call, panid: bv16): Step
    requires Ready(s.lockHeld, c)
  {
    if c.interrupted then Step(s, -EINTR)
    else
      var t := Transacted(s.(lockHeld := true), PibRequest(PIB_ATTR_PAN_ID, panid), c.x);
      var u := if !ChkErr(t.s.cfm) then t.s.(panid := panid) else t.s;
      Step(Unlocked(u), t.ret)
  }

  /** `jenusb_set_short_addr`. */
  function SetShortAddrSpec(s: State, c: Call, shortAddr: bv16): Step
    requires Ready(s.lockHeld, c)
  {
    if c.interrupted then Step(s, -EINTR)
    else
      var t := Transacted(s.(lockHeld := true), PibRequest(PIB_ATTR_SHORT_ADDRESS, shortAddr), c.x);
      var u := if !ChkErr(t.s.cfm) then t.s.(shortaddr := shortAddr) else t.s;
      Step(Unlocked(u), t.ret)
  }

  /** The return value of an MLME request whose confirmation is checked with `chk_err`. */
  function Checked(t: Step): int
  {
    if t.ret != 0 then t.ret else if ChkErr(t.s.cfm) then -EIO else 0
  }

  /** The associate request `jenusb_assoc_req` builds; `slot` is what the address slot held. */
  function AssocRequest(coord: Option<Ieee802154Addr>, slot: MacAddr, channel: bv8, cap: bv8): Request
  {
    Mlme(Associate(AddrToJenusb(coord, slot), channel, cap, false))
  }

  /** `jenusb_assoc_req`. */
  function AssocReqSpec(s: State, c: Call, coord: Option<Ieee802154Addr>, slot: MacAddr,
                        channel: bv8, cap: bv8): Step
    requires Ready(s.lockHeld, c)
  {
    if c.interrupted then Step(s, -EINTR)
    else
      var t := Transacted(s.(lockHeld := true), AssocRequest(coord, slot, channel, cap), c.x);
      Step(Unlocked(t.s), Checked(t))
  }

  /** The disassociate request `jenusb_disassoc_req` builds. */
  function DisassocRequest(addr: Option<Ieee802154Addr>, slot: MacAddr, reason: bv8): Request
  {
    Mlme(Disassociate(AddrToJenusb(addr, slot), reason, false))
  }

  /** `jenusb_disassoc_req`. */
  function DisassocReqSpec(s: State, c: Call, addr: Option<Ieee802154Addr>, slot: MacAddr, reason: bv8): Step
    requires Ready(s.lockHeld, c)
  {
    if c.interrupted then Step(s, -EINTR)
    else
      var t := Transacted(s.(lockHeld := true), DisassocRequest(addr, slot, reason), c.x);
      Step(Unlocked(t.s), Checked(t))
  }

  /** The parameters of `jenusb_start_req` after the device. */
  datatype StartParams = StartParams(addr: Ieee802154Addr, channel: bv8, beaconOrder: bv8,
                                     superframeOrder: bv8, panCoord: bv8, batteryLifeExt: bv8,
                                     realign: bv8)

  /** The start request `jenusb_start_req` builds. */
  function StartRequest(p: StartParams): Request
  {
    Mlme(Start(Swap16(p.addr.panId), p.channel, p.beaconOrder, p.superframeOrder, p.panCoord,
               p.batteryLifeExt, p.realign))
  }

  /** What `jenusb_start_req` demands: the PIB set's call when coordinator, else the start's. */
  predicate StartReady(s: State, p: StartParams, pib: Call, start: Call)
  {
    && Supplied(pib.x) && Supplied(start.x)
    && (p.panCoord != 0 ==> Ready(s.lockHeld, pib))
    && (p.panCoord == 0 ==> Ready(s.lockHeld, start))
  }

  /**
   * `jenusb_start_req`: as PAN coordinator it first sets the short address 0x0000; when
   * that fails it jumps to the final unlock without holding the mutex.
   */
  function StartReqSpec(s: State, p: StartParams, pib: Call, start: Call): Step
    requires StartReady(s, p, pib, start)
  {
    var first := if p.panCoord != 0 then SetShortAddrSpec(s, pib, 0x0000) else Step(s, 0);
    if first.ret != 0 then Step(Unlocked(first.s), first.ret)
    else if start.interrupted then Step(first.s, -EINTR)
    else
      var t := Transacted(first.s.(lockHeld := true), StartRequest(p), start.x);
      Step(Unlocked(t.s), Checked(t))
  }

  /** The scan request `jenusb_scan_req` builds; the channel mask goes out big-endian. */
  function ScanRequest(scanType: bv8, channels: bv32, duration: bv8): Request
  {
    Mlme(Scan(Swap32(channels), scanType, duration))
  }

  /** `jenusb_scan_req`: on an error confirmation it returns without unlocking. */
  function ScanReqSpec(s: State, c: Call, scanType: bv8, channels: bv32, duration: bv8): Step
    requires Ready(s.lockHeld, c)
  {
    if c.interrupted then Step(s, -EINTR)
    else
      var t := Transacted(s.(lockHeld := true), ScanRequest(scanType, channels, duration), c.x);
      if t.ret == 0 && ChkErr(t.s.cfm) then Step(t.s, -EIO)
      else Step(Unlocked(t.s), t.ret)
  }

  /** The reset request `jenusb_net_open` posts. */
  const ResetRequest: Request := Mlme(Reset(false))

  /**
   * `jenusb_net_open`: running is set before the reset is posted and cleared again on any
   * error; `allocOk` is whether allocating the receive work item succeeds.
   */
  function NetOpenSpec(s: State, c: Call, allocOk: bool): Step
    requires Ready(s.lockHeld, c)
  {
    if c.interrupted then Step(s, -EINTR)
    else Opened(Transacted(s.(lockHeld := true, running := true), ResetRequest, c.x), allocOk)
  }

  /** The part of `jenusb_net_open` after the reset was posted. */
  function Opened(t: Step, allocOk: bool): Step
  {
    var ret := Checked(t);
    if ret != 0 then Step(Unlocked(t.s.(running := false)), ret)
    else if !allocOk then Step(Unlocked(t.s.(running := false)), -ENOMEM)
    else Step(Unlocked(t.s.(queueStopped := false, rxWorks := t.s.rxWorks + 1)), 0)
  }

  /**
   * `jenusb_net_close`: clears running and stops the queue; the flush lets every queued
   * work item run, and each one, seeing the device stopped, does not reschedule itself.
   */
  function NetCloseSpec(s: State): Step
  {
    Step(s.(running := false, queueStopped := true, rxWorks := 0), 0)
  }

  /** The data request `jenusb_net_xmit` posts. */
  function DataRequest(frame: TxFrame): Request
  {
    McpsData(0, frame)
  }

  /** The drop path of `jenusb_net_xmit`. */
  function Dropped(s: State): Step
  {
    Step(Unlocked(s).(txDropped := s.txDropped + 1), NET_XMIT_DROP)
  }

  /** `jenusb_net_xmit` for an MPDU `skb`; `from_skb` fills the request's frame slot. */
  function XmitSpec(s: State, c: Call, skb: seq<bv8>): Step
    requires Ready(s.lockHeld, c) && FromSkbReadable(skb, s.txFrame.sduLength)
  {
    if c.interrupted then Step(s, -EINTR) else Transmitted(s.(lockHeld := true), c.x, skb)
  }

  /** `jenusb_net_xmit` once the mutex is held: `from_skb`, then the data request. */
  function Transmitted(s: State, x: Exchange, skb: seq<bv8>): Step
    requires Supplied(x) && FromSkbReadable(skb, s.txFrame.sduLength)
  {
    var e := FromSkbSpec(skb, s.txFrame);
    var s1 := s.(req := DataRequest(e.frame), txFrame := e.frame);
    if e.ret < 0 then Dropped(s1) else Completed(Transacted(s1, DataRequest(e.frame), x), skb)
  }

  /** `jenusb_net_xmit` after the data request was posted: the MCPS confirmation check. */
  function Completed(t: Step, skb: seq<bv8>): Step
  {
    if t.ret != 0 then Dropped(t.s)
    else if t.s.cfm.mcpsStatus == MCPS_CFM_ERROR then
      if t.s.cfm.dataStatus == ENUM_TRANSACTION_OVERFLOW then Dropped(t.s)
      else Dropped(t.s.(queueStopped := true))
    else Step(Unlocked(t.s).(txPackets := t.s.txPackets + 1, txBytes := t.s.txBytes + |skb|),
              NET_XMIT_SUCCESS)
  }

  /** An ioctl's new state, return value and the address it leaves in the request. */
  datatype IoctlStep = IoctlStep(s: State, ret: int, sa: SockAddr)

  /** The address checks of SIOCSIFADDR. */
  predicate ValidSetAddr(sa: SockAddr)
  {
    && sa.family == AF_IEEE802154
    && sa.addr.addrType == ADDR_SHORT as int
    && sa.addr.panId != PANID_BROADCAST
    && sa.addr.shortAddr != ADDR_BROADCAST
    && sa.addr.shortAddr != ADDR_UNDEF
  }

  /** What SIOCSIFADDR's two transactions demand. */
  predicate IoctlReady(s: State, cmd: int, setPan: Call, setShort: Call)
  {
    cmd == SIOCSIFADDR ==> Ready(s.lockHeld, setPan) && Ready(s.lockHeld, setShort)
  }

  /** `jenusb_net_ioctl`. */
  function IoctlSpec(s: State, cmd: int, sa: SockAddr, setPan: Call, setShort: Call): IoctlStep
    requires IoctlReady(s, cmd, setPan, setShort)
  {
    if cmd == SIOCGIFADDR then
      if s.panid == PANID_BROADCAST || s.shortaddr == ADDR_BROADCAST then IoctlStep(s, -EADDRNOTAVAIL, sa)
      else IoctlStep(s, 0, SockAddr(AF_IEEE802154,
                                    sa.addr.(addrType := ADDR_SHORT as int, panId := s.panid, shortAddr := s.shortaddr)))
    else if cmd == SIOCSIFADDR then
      if !ValidSetAddr(sa) then IoctlStep(s, -EINVAL, sa)
      else
        var p := SetPanIdSpec(s, setPan, sa.addr.panId);
        var q := SetShortAddrSpec(p.s, setShort, sa.addr.shortAddr);
        IoctlStep(q.s, OrInt(p.ret, q.ret), sa)
    else IoctlStep(s, -ENOIOCTLCMD, sa)
  }

  /** The frame of a data indication is covered by its SDU buffer. */
  predicate Deliverable(ind: Indication)
  {
    ind.sap == SAP_MCPS && ind.mcps.indType == MCPS_IND_DATA ==> SduCovered(ind.mcps.frame)
  }

  /** `jenusb_mcps_ind`; `allocOk` and `staleFc` are `to_skb`'s allocation and buffer. */
  function McpsIndSpec(s: State, ind: McpsInd, allocOk: bool, staleFc: bv16): State
    requires ind.indType == MCPS_IND_DATA ==> SduCovered(ind.frame)
  {
    match McpsDispatch(ind)
    case Deliver(f) => ReceivedSpec(s, f, allocOk, staleFc)
    case _ => s
  }

  /** A data indication's frame turned into an skb by `to_skb` and handed to the stack. */
  function ReceivedSpec(s: State, f: RxFrame, allocOk: bool, staleFc: bv16): State
    requires SduCovered(f)
  {
    if !allocOk then s.(rxDropped := s.rxDropped + 1)
    else s.(rxPackets := s.rxPackets + 1, rxBytes := s.rxBytes + ToSkbLength(f) as nat,
            events := s.events + [Received(Mpdu(f, staleFc))])
  }

  /** `jenusb_mlme_ind`. */
  function MlmeIndSpec(s: State, ind: MlmeInd): State
  {
    match MlmeDispatch(ind)
    case Notify(e) => s.(events := s.events + [e])
    case _ => s
  }

  /** One run of a queued `jenusb_rx_work`, whose read returned `status` and `ind`. */
  function RxWorkSpec(s: State, status: int, ind: Indication, allocOk: bool, staleFc: bv16): State
    requires s.rxWorks > 0 && Deliverable(ind)
  {
    match RxVerdict(s.running, status)
    case Idle => s.(rxWorks := s.rxWorks - 1)
    case Stop => s.(rxWorks := s.rxWorks - 1)
    case Again => s
    case Dispatch =>
      match RouteOf(ind.sap)
      case ToMcps => McpsIndSpec(s, ind.mcps, allocOk, staleFc)
      case ToMlme => MlmeIndSpec(s, ind.mlme)
      case Unrouted => s
  }
}
