/**
 * The coprocessor's native structures (the Jennic MAC API as wrapped by the driver's
 * header) and their constants. Unions of the C layout become separate fields.
 */
module Mac {
  import opened Bytes

  /** Top-level tag (`type`) of a request, confirmation or indication buffer. */
  const SAP_MLME: bv8 := 0
  const SAP_MCPS: bv8 := 1

  /** MLME request types (`mlme.u8Type`). */
  const MLME_REQ_ASSOCIATE: bv8 := 0
  const MLME_REQ_DISASSOCIATE: bv8 := 1
  const MLME_REQ_RESET: bv8 := 4
  const MLME_REQ_SCAN: bv8 := 6
  const MLME_REQ_SET: bv8 := 7
  const MLME_REQ_START: bv8 := 8

  /** MCPS request type. */
  const MCPS_REQ_DATA: bv8 := 0

  /** Status of a synchronous confirmation (`mlme.u8Status`, `mcps.u8Status`). */
  const MLME_CFM_ERROR: bv8 := 1
  const MCPS_CFM_ERROR: bv8 := 1

  /** IEEE 802.15.4 status TRANSACTION_OVERFLOW. */
  const ENUM_TRANSACTION_OVERFLOW: bv8 := 0xF1

  /** Bits of `u8TxOptions`. */
  const TX_OPTION_ACK: bv8 := 1
  const TX_OPTION_SECURITY: bv8 := 8

  /** PIB attribute identifiers macPANId and macShortAddress. */
  const PIB_ATTR_PAN_ID: bv8 := 0x50
  const PIB_ATTR_SHORT_ADDRESS: bv8 := 0x53

  /** Deferred MLME confirmation and indication types (`mlme.u8Type` of an indication). */
  const MLME_DCFM_SCAN: bv8 := 0
  const MLME_DCFM_GTS: bv8 := 1
  const MLME_DCFM_ASSOCIATE: bv8 := 2
  const MLME_DCFM_DISASSOCIATE: bv8 := 3
  const MLME_DCFM_POLL: bv8 := 4
  const MLME_DCFM_RX_ENABLE: bv8 := 5
  const MLME_IND_ASSOCIATE: bv8 := 6
  const MLME_IND_DISASSOCIATE: bv8 := 7
  const MLME_IND_SYNC_LOSS: bv8 := 8
  const MLME_IND_GTS: bv8 := 9
  const MLME_IND_BEACON_NOTIFY: bv8 := 10
  const MLME_IND_COMM_STATUS: bv8 := 11
  const MLME_IND_ORPHAN: bv8 := 12

  /** Deferred MCPS confirmation and indication types. */
  const MCPS_DCFM_DATA: bv8 := 0
  const MCPS_DCFM_PURGE: bv8 := 1
  const MCPS_IND_DATA: bv8 := 2

  const SCAN_TYPE_ENERGY_DETECT: bv8 := 0

  /** `MAC_Addr_s`: mode, then PAN id and short address as raw big-endian fields. */
  datatype MacAddr = MacAddr(mode: bv8, panId: bv16, short: bv16, ext: Ext)

  /** `MAC_RxFrameData_s`, the payload of a data indication; `sdu` is `au8Sdu`. */
  datatype RxFrame = RxFrame(src: MacAddr, dst: MacAddr, linkQuality: bv8, securityUse: bv8,
                             aclEntry: bv8, sduLength: bv8, sdu: seq<bv8>)

  /** `MAC_TxFrameData_s`, the frame of a data request; `sdu` is `au8Sdu`. */
  datatype TxFrame = TxFrame(sduLength: bv8, src: MacAddr, dst: MacAddr, txOptions: bv8, sdu: seq<bv8>)

  /** The fields of a confirmation buffer (`jenusb_cfm`) the driver reads. */
  datatype Cfm = Cfm(sap: bv8, mlmeStatus: bv8, mcpsStatus: bv8, dataStatus: bv8, assocShortAddr: bv16)

  /** The MLME requests the driver builds, with their parameter blocks. */
  datatype MlmeReq =
    | Reset(setDefaultPib: bool)
    | SetPib(attribute: bv8, index: bv8, value: bv16)
    | Associate(coord: MacAddr, logicalChan: bv8, capability: bv8, securityEnable: bool)
    | Disassociate(addr: MacAddr, reason: bv8, securityEnable: bool)
    | Start(panId: bv16, channel: bv8, beaconOrder: bv8, superframeOrder: bv8,
            panCoordinator: bv8, batteryLifeExt: bv8, realignment: bv8)
    | Scan(scanChannels: bv32, scanType: bv8, scanDuration: bv8)

  /** A request buffer (`jenusb_req`). */
  datatype Request =
    | Mlme(mlme: MlmeReq)
    | McpsData(handle: bv8, frame: TxFrame)

  /** The top-level tag of a request. */
  function Sap(r: Request): bv8
  {
    if r.Mlme? then SAP_MLME else SAP_MCPS
  }

  /** The `u8Type` a request carries. */
  function ReqType(r: Request): bv8
  {
    match r
    case McpsData(_, _) => MCPS_REQ_DATA
    case Mlme(m) =>
      match m
      case Reset(_) => MLME_REQ_RESET
      case SetPib(_, _, _) => MLME_REQ_SET
      case Associate(_, _, _, _) => MLME_REQ_ASSOCIATE
      case Disassociate(_, _, _) => MLME_REQ_DISASSOCIATE
      case Start(_, _, _, _, _, _, _) => MLME_REQ_START
      case Scan(_, _, _) => MLME_REQ_SCAN
  }

  /** The deferred scan confirmation. */
  datatype ScanCfm = ScanCfm(status: bv8, scanType: bv8, unscannedChannels: bv32, energyDetect: seq<bv8>)

  /** An MLME indication (`MAC_MlmeDcfmInd_s`); each field group belongs to one `indType`. */
  datatype MlmeInd = MlmeInd(
    indType: bv8,
    scan: ScanCfm,
    assocShortAddr: bv16, assocStatus: bv8,
    disassocStatus: bv8,
    assocDevice: Ext, assocCapability: bv8,
    disassocDevice: Ext, disassocReason: bv8,
    beaconCoord: MacAddr)

  /** An MCPS indication (`MAC_McpsDcfmInd_s`). */
  datatype McpsInd = McpsInd(indType: bv8, frame: RxFrame)

  /** An indication buffer (`struct jenusb_ind`). */
  datatype Indication = Indication(sap: bv8, mcps: McpsInd, mlme: MlmeInd)
}
