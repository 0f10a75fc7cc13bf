/**
 * The indication path: `jenusb_rx_work` reads one indication buffer and routes it by SAP
 * to `jenusb_mcps_ind` or `jenusb_mlme_ind`, which turn it into a received frame or a
 * netlink notification. Notifications are events; their delivery is not modelled.
 */
module IndicationDispatch {
  import opened Wrappers
  import opened Bytes
  import opened Kernel
  import opened Mac

  /** What the driver hands to the stack: a netlink notification or a received frame. */
  datatype Event =
    | ScanConfirm(status: bv8, scanType: bv8, unscanned: bv32, page: bv8, energy: Option<seq<bv8>>)
    | AssocConfirm(shortAddr: bv16, status: bv8)
    | DisassocConfirm(status: bv8)
    | AssocIndication(addrType: bv8, hwaddr: Ext, capability: bv8)
    | DisassocIndication(addrType: bv8, hwaddr: Ext, reason: bv8)
    | BeaconIndication(panId: bv16, shortAddr: bv16)
    | Received(mpdu: seq<bv8>)

  /** What `jenusb_mlme_ind` does with an indication. */
  datatype MlmeAction = Notify(event: Event) | Unsupported | Unknown

  /** The seven MLME types the driver recognises but does not support. */
  predicate UnsupportedMlme(t: bv8)
  {
    t == MLME_DCFM_GTS || t == MLME_DCFM_POLL || t == MLME_DCFM_RX_ENABLE || t == MLME_IND_SYNC_LOSS
    || t == MLME_IND_GTS || t == MLME_IND_COMM_STATUS || t == MLME_IND_ORPHAN
  }

  /** The six MLME types that produce a notification. */
  predicate NotifiedMlme(t: bv8)
  {
    t == MLME_DCFM_SCAN || t == MLME_DCFM_ASSOCIATE || t == MLME_DCFM_DISASSOCIATE
    || t == MLME_IND_ASSOCIATE || t == MLME_IND_DISASSOCIATE || t == MLME_IND_BEACON_NOTIFY
  }

  /** `jenusb_mlme_ind`. */
  function MlmeDispatch(ind: MlmeInd): MlmeAction
  {
    var t := ind.indType;
    if t == MLME_DCFM_SCAN then
      Notify(ScanConfirm(ind.scan.status, ind.scan.scanType, ind.scan.unscannedChannels, 0,
                         if ind.scan.scanType == SCAN_TYPE_ENERGY_DETECT then Some(ind.scan.energyDetect) else None))
    else if t == MLME_DCFM_ASSOCIATE then Notify(AssocConfirm(Swap16(ind.assocShortAddr), ind.assocStatus))
    else if t == MLME_DCFM_DISASSOCIATE then Notify(DisassocConfirm(ind.disassocStatus))
    else if t == MLME_IND_ASSOCIATE then Notify(AssocIndication(ADDR_LONG, ind.assocDevice, ind.assocCapability))
    else if t == MLME_IND_DISASSOCIATE then Notify(DisassocIndication(ADDR_LONG, ind.disassocDevice, ind.disassocReason))
    else if t == MLME_IND_BEACON_NOTIFY then
      Notify(BeaconIndication(Swap16(ind.beaconCoord.panId), Swap16(ind.beaconCoord.short)))
    else if UnsupportedMlme(t) then Unsupported
    else Unknown
  }

  /** Every MLME type falls in exactly one class: notified, unsupported, or none of those thirteen. */
  lemma MlmeClasses(ind: MlmeInd)
    ensures MlmeDispatch(ind).Notify? <==> NotifiedMlme(ind.indType)
    ensures MlmeDispatch(ind).Unsupported? <==> UnsupportedMlme(ind.indType)
    ensures MlmeDispatch(ind).Unknown? <==> !NotifiedMlme(ind.indType) && !UnsupportedMlme(ind.indType)
    ensures !(NotifiedMlme(ind.indType) && UnsupportedMlme(ind.indType))
  {
  }

  /**
   * The notifications carry the indication's fields: the energy list exactly for an energy
   * scan, 16-bit addresses converted to host order, device addresses as long addresses.
   */
  lemma MlmeNotifications(ind: MlmeInd)
    ensures var a := MlmeDispatch(ind);
      && (ind.indType == MLME_DCFM_SCAN ==>
            a.event.ScanConfirm? && a.event.page == 0 && a.event.unscanned == ind.scan.unscannedChannels
            && a.event.status == ind.scan.status && a.event.scanType == ind.scan.scanType
            && (a.event.energy.Some? <==> ind.scan.scanType == SCAN_TYPE_ENERGY_DETECT)
            && (a.event.energy.Some? ==> a.event.energy.value == ind.scan.energyDetect))
      && (ind.indType == MLME_DCFM_ASSOCIATE ==>
            a.event.AssocConfirm? && Swap16(a.event.shortAddr) == ind.assocShortAddr
            && a.event.status == ind.assocStatus)
      && (ind.indType == MLME_DCFM_DISASSOCIATE ==> a.event == DisassocConfirm(ind.disassocStatus))
      && (ind.indType == MLME_IND_ASSOCIATE ==>
            a.event == AssocIndication(ADDR_LONG, ind.assocDevice, ind.assocCapability))
      && (ind.indType == MLME_IND_DISASSOCIATE ==>
            a.event == DisassocIndication(ADDR_LONG, ind.disassocDevice, ind.disassocReason))
      && (ind.indType == MLME_IND_BEACON_NOTIFY ==>
            a.event.BeaconIndication? && Swap16(a.event.panId) == ind.beaconCoord.panId
            && Swap16(a.event.shortAddr) == ind.beaconCoord.short)
  {
    Swap16Involutive(ind.assocShortAddr);
    Swap16Involutive(ind.beaconCoord.panId);
    Swap16Involutive(ind.beaconCoord.short);
  }

  /** What `jenusb_mcps_ind` does with an indication. */
  datatype McpsAction = Ignore | Deliver(frame: RxFrame) | UnknownMcps

  /** `jenusb_mcps_ind`'s switch. */
  function McpsDispatch(ind: McpsInd): McpsAction
  {
    if ind.indType == MCPS_DCFM_PURGE || ind.indType == MCPS_DCFM_DATA then Ignore
    else if ind.indType == MCPS_IND_DATA then Deliver(ind.frame)
    else UnknownMcps
  }

  /** Only a data indication delivers a frame, and it is the indication's own frame. */
  lemma McpsClasses(ind: McpsInd)
    ensures McpsDispatch(ind).Deliver? <==> ind.indType == MCPS_IND_DATA
    ensures McpsDispatch(ind).Deliver? ==> McpsDispatch(ind).frame == ind.frame
    ensures McpsDispatch(ind).Ignore? <==> ind.indType == MCPS_DCFM_DATA || ind.indType == MCPS_DCFM_PURGE
    ensures McpsDispatch(ind).UnknownMcps? <==>
      ind.indType != MCPS_DCFM_DATA && ind.indType != MCPS_DCFM_PURGE && ind.indType != MCPS_IND_DATA
  {
  }

  /** What one run of `jenusb_rx_work` does after its read. */
  datatype Verdict =
    | Idle       // the device is not running: return, not rescheduled
    | Dispatch   // a buffer was read: route it, then reschedule
    | Again      // the read timed out: reschedule without routing
    | Stop       // any other error: free the work item, not rescheduled

  /** `jenusb_rx_work`'s decision from the running flag and the read's result. */
  function RxVerdict(running: bool, status: int): Verdict
  {
    if !running then Idle
    else if status == 0 then Dispatch
    else if status == -ETIMEDOUT then Again
    else Stop
  }

  /** The work is only rescheduled while running and after a success or a timeout. */
  lemma RxVerdictReschedules(running: bool, status: int)
    ensures var v := RxVerdict(running, status);
      && ((v == Dispatch || v == Again) <==> running && (status == 0 || status == -ETIMEDOUT))
      && (v == Dispatch <==> running && status == 0)
      && (v == Idle <==> !running)
  {
  }

  /** Where `jenusb_rx_work` routes a buffer it has read. */
  datatype Route = ToMcps | ToMlme | Unrouted

  function RouteOf(sap: bv8): Route
  {
    if sap == SAP_MCPS then ToMcps else if sap == SAP_MLME then ToMlme else Unrouted
  }
}
