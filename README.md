# jenusb: a Dafny model of the USB IEEE 802.15.4 coprocessor driver

`drivers/ieee802154/jenusb.c` drives a Jennic IEEE 802.15.4 MAC coprocessor attached over
USB. The Linux 802.15.4 stack calls the driver's MLME operations (PIB set, associate,
disassociate, start, scan) and its network-device operations (open, close, transmit, the
address ioctl). Each operation fills one persistent request buffer. It then posts the buffer
with `__jenusb_post_req`: one bulk-out write, then interrupt-in confirmation reads, retried
while they time out, then a check that the confirmation's SAP tag matches the request's.
Received data and MLME notifications arrive on a bulk-in endpoint and are polled by a
self-rescheduling work item, `jenusb_rx_work`. A data indication is rebuilt into an
IEEE 802.15.4 data MPDU (`to_skb`). A transmitted MPDU is parsed back into the
coprocessor's native frame (`from_skb`).

The model has these modules:

- `Bytes` (bytes.dfy): byte order on the little-endian host. `be16_to_cpu` and `cpu_to_be16`
  are both a byte swap of the raw field value. `Kernel` holds the Linux constants and a
  C `int`'s bitwise OR.
- `Mac` (mac.dfy): the coprocessor's native addresses, frames, requests, confirmations and
  indications, as datatypes.
- `Codec` (codec.dfy): `addr_len`, `struct fc`, and `to_skb` and `from_skb`. Both are
  imperative methods that move a cursor over a buffer. Each is proved equal to a
  specification function on byte offsets. `CodecProperties` (codec_props.dfy) states what
  the two promise of each other and where they disagree.
- `Addr` (addr.dfy): the two address converters and their round trips.
- `Transaction` (transaction.dfy): `__jenusb_post_req`, with its do-while retry loop, proved
  against a recursive count of attempts. The USB transport is an oracle: one write result,
  and a result plus the buffer contents for each read.
- `Hex` (hex.dfy): `nibble` and the MAC-string parse of `jenusb_probe`.
- `IndicationDispatch` (indication.dfy): the switches of `jenusb_mcps_ind`,
  `jenusb_mlme_ind` and `jenusb_rx_work`, as total classifiers.
- `DeviceSpec` (device_spec.dfy): the device state as a value, and each operation as a
  function from state to new state and return value.
- `Device` (device.dfy): `class Jenusb` holds the fields the driver updates. Its methods
  perform the operations in place, and each `ensures` equates the new state and return
  value with the `DeviceSpec` function of the old state. `DeviceProperties`
  (device_props.dfy) states what those functions promise.

Things the environment decides are parameters:

- the outcome of each `mutex_lock_interruptible` (`Call.interrupted`);
- the transport's results (`Exchange`);
- whether `dev_alloc_skb` or `kmalloc` succeeds (`allocOk`);
- the stale contents of buffers the driver reads before writing them:
  - `staleFc`: the skb bytes where the frame control goes;
  - `slot`: the request's address slot;
  - `txFrame`: the request's frame slot, whose `u8SduLength` `from_skb` never sets.

The lock is a `lockHeld` flag. A wait on a held lock can only end by a signal, because the
model has no other thread that could release it. Unlocks of a free mutex are counted in
`badUnlocks`. Notifications and received frames are appended to an event log, and requests
handed to `usb_bulk_msg` are appended to a log of sent requests, whether or not the
write succeeds.

The quirks of the source are kept, and lemmas state them:

- only a short source is PAN-compressed;
- `from_skb` picks the source layout from the destination mode;
- the extended address comes back byte-reversed;
- `to_skb` returns a length shorter than what it writes;
- the PAN id and short address caches follow the confirmation buffer even when the post
  failed;
- `jenusb_scan_req` returns -EIO with the mutex still held;
- `jenusb_start_req` unlocks a mutex it does not hold;
- SIOCGIFADDR reports an undefined short address that SIOCSIFADDR refuses to set.

## Model

| member | source | states |
|---|---|---|
| Bytes.Be64ImageReversed | drivers/ieee802154/jenusb.c:554 | on a little-endian host, an 8-byte load, `be64_to_cpu` (a 64-bit byte swap) and the store back leave byte `i` equal to source byte `7 - i`: the 8 bytes reversed |
| Bytes.OverwrittenBytes | drivers/ieee802154/jenusb.c:845 | after `memcpy` of `n` bytes into a buffer, its first `n` bytes are the copied ones and every later byte of the buffer is kept |
| Bytes.Swap16Involutive | drivers/ieee802154/jenusb.c:181 | `be16_to_cpu` undoes `cpu_to_be16` |
| Kernel.OrIntErrors | drivers/ieee802154/jenusb.c:939-941 | `retval \|= ...` on two C `int` results is 0 exactly when both are 0, negative when either is, and equals the other result when one is 0 |
| Addr.AddrToJenusb | drivers/ieee802154/jenusb.c:146-173 | `ieee802154_addr_to_jenusb`: a NULL address becomes short mode on the broadcast PAN with the byte-swapped UNDEF short address; otherwise the mode byte and the byte-swapped PAN id are stored, then the short address in short mode, the extended address in long mode, the byte-swapped UNDEF in mode none, and nothing more for another mode; its properties are the `Addr` lemmas below |
| Addr.JenusbToAddr | drivers/ieee802154/jenusb.c:175-195 | `jenusb_to_ieee802154_addr`: the mode and the byte-swapped PAN id are copied, then the short address in short mode, the extended address in long mode, the byte-swapped UNDEF in mode none, and nothing more for another mode; its properties are the `Addr` lemmas below |
| Addr.ModeByteInRange | drivers/ieee802154/jenusb.c:157 | an `addr_type` that fits a byte is stored unchanged in `u8AddrMode` |
| Addr.AddrRoundTrip | drivers/ieee802154/jenusb.c:145-195 | stack→native→stack keeps `addr_type` and `pan_id`, the short address in short mode and `hwaddr` in long mode; in mode none the short address comes back as 0xFEFF, the byte-swapped UNDEF |
| Addr.WideAddrTypeIsTruncated | drivers/ieee802154/jenusb.c:157-163 | `addr_type` 258 is stored as short mode, its short address is not copied, and the round trip does not give 258 back |
| Addr.NullAddress | drivers/ieee802154/jenusb.c:148-152 | a NULL stack address becomes short mode on the broadcast PAN with the UNDEF short address |
| Addr.NativeRoundTrip | drivers/ieee802154/jenusb.c:145-195 | native→stack→native keeps the mode, the PAN id, and the short or extended address of a short or long native address |
| Addr.UnknownNativeMode | drivers/ieee802154/jenusb.c:180-194 | a native mode outside none/short/long is copied as `addr_type`, and the stack address's short and extended fields are left as they were |
| Transaction.ChkErr | drivers/ieee802154/jenusb.c:89-98 | `__jenusb_chk_err`: the confirmation reports an error exactly when its MLME status is `MAC_MLME_CFM_ERROR`; the message it prints is left out |
| Transaction.Attempts | drivers/ieee802154/jenusb.c:118-122 | the read count lies between 1 and RETRIES+1; every read before the last timed out; when the count is at most RETRIES, the last read did not time out |
| Transaction.PostReq | drivers/ieee802154/jenusb.c:103-136 | the do-while loop with counter `i` computes `PostReqSpec`: the result, whether the request was handed to `usb_bulk_msg`, the number of reads and the buffer contents |
| Transaction.NotRunningNoTransfer | drivers/ieee802154/jenusb.c:108-109 | a stopped device gives -ENETDOWN with no write, no read, and the buffer untouched |
| Transaction.FailedWriteNoRead | drivers/ieee802154/jenusb.c:111-116 | a failed write returns its error, and no read follows |
| Transaction.ReadsBounded | drivers/ieee802154/jenusb.c:111-127 | at most RETRIES+1 reads, made exactly when running and the write succeeded; a re-read happens only after -ETIMEDOUT; the buffer holds what the last read left |
| Transaction.AllTimeouts | drivers/ieee802154/jenusb.c:118-127 | six timeouts in a row end the loop after six reads with -ETIMEDOUT |
| Transaction.SuccessIff | drivers/ieee802154/jenusb.c:124-135 | the result is 0 exactly when running, the write succeeded, the last read succeeded and the confirmation's SAP equals the request's; a mismatched SAP after a good read gives -EIO |
| Hex.Nibble | drivers/ieee802154/jenusb.c:991-999 | `nibble` yields a value below 16 |
| Hex.NibbleOfHexDigit | drivers/ieee802154/jenusb.c:991-999 | `nibble` decodes every hex digit, in upper and lower case |
| Hex.NibbleIgnoresCase | drivers/ieee802154/jenusb.c:995-997 | `nibble` gives the same value for a character and its lower-case form |
| Hex.NonDigitIsZero | drivers/ieee802154/jenusb.c:993-998 | a character that is not a hex digit reads as 0 |
| Hex.MacFromHex | drivers/ieee802154/jenusb.c:1091-1092 | the parse yields exactly IEEE802154_ADDR_LEN bytes |
| Hex.HexByteOfDigits | drivers/ieee802154/jenusb.c:1092 | `(nibble(hi) << 4) + nibble(lo)` gives back the byte whose two hex digits are `hi` and `lo` |
| Hex.ParseHexString | drivers/ieee802154/jenusb.c:1091-1092 | parsing the sixteen-digit hex form of an address gives the address back |
| Hex.ParseIgnoresCase | drivers/ieee802154/jenusb.c:1091-1092 | the parsed address does not depend on the case of the digits |
| Hex.ParseMacAddress | drivers/ieee802154/jenusb.c:1084-1092 | a string length other than 16 fails; otherwise the loop fills the address that `MacFromHex` defines |
| IndicationDispatch.MlmeDispatch | drivers/ieee802154/jenusb.c:624-675 | `jenusb_mlme_ind`'s switch: a notification for the six notified types, nothing for the seven unsupported ones, and the unknown-type path otherwise; `MlmeClasses` and `MlmeNotifications` state its classes and the notifications' fields |
| IndicationDispatch.MlmeClasses | drivers/ieee802154/jenusb.c:624-675 | each MLME type is handled in exactly one way: one of the six notified types, one of the seven unsupported types, or unknown (none of those thirteen) |
| IndicationDispatch.MlmeNotifications | drivers/ieee802154/jenusb.c:625-659 | each notification carries the indication's fields: the scan confirm its status, scan type, unscanned channels, page 0 and the energy list exactly for an energy scan; the associate confirm its status and the short address in host order; the disassociate confirm its status; the indications their device addresses in long mode and the beacon's 16-bit addresses in host order |
| IndicationDispatch.McpsDispatch | drivers/ieee802154/jenusb.c:589-616 | `jenusb_mcps_ind`'s switch: the two confirmations are ignored, a data indication delivers its frame, and any other type takes the unknown-type path; `McpsClasses` states the classes |
| IndicationDispatch.McpsClasses | drivers/ieee802154/jenusb.c:589-616 | only a data indication delivers a frame, and it delivers the indication's own frame; the two confirmations are ignored; every other type is unknown |
| IndicationDispatch.RxVerdict | drivers/ieee802154/jenusb.c:689-733 | `jenusb_rx_work`'s decision: return when stopped, route after a successful read, reschedule after a timeout, free the work item after any other error; `RxVerdictReschedules` states it |
| IndicationDispatch.RouteOf | drivers/ieee802154/jenusb.c:712-723 | the SAP tag routes a buffer to `jenusb_mcps_ind`, to `jenusb_mlme_ind`, or to neither |
| IndicationDispatch.RxVerdictReschedules | drivers/ieee802154/jenusb.c:689-733 | the work item is rescheduled exactly while running and after a success or a timeout; only a successful read is routed; a stopped device just returns |
| Codec.AddrLen | drivers/ieee802154/jenusb.c:491-504 | `addr_len` is 0, 2 or 8, and nonzero exactly for short and long modes, so `to_skb`'s -EINVAL branch cannot be taken |
| Codec.FrameControl | drivers/ieee802154/jenusb.c:532-538 | the frame control has type data, security from `u8SecurityUse`, no pending and no ack request, intra-PAN iff the two PAN ids are equal, and both address modes from the native frame; the reserved bits keep the buffer's old content |
| Codec.DstField | drivers/ieee802154/jenusb.c:544-557 | the destination field is 0, 4 or 10 bytes by mode |
| Codec.SrcField | drivers/ieee802154/jenusb.c:559-577 | the source field is 0 bytes, 2 bytes for a PAN-compressed short source, 4 bytes for another short source, and 10 bytes for a long one |
| Codec.Mpdu | drivers/ieee802154/jenusb.c:529-579 | the written bytes are, in order: the frame control, sequence number 0, the destination field, the source field, and the SDU verbatim |
| Codec.ToSkbLengthShortfall | drivers/ieee802154/jenusb.c:513-579 | the returned length undercounts the bytes written by at most 4; whenever a destination address is present it is strictly shorter |
| Codec.BuildFc | drivers/ieee802154/jenusb.c:532-538 | the bit-field stores produce `FrameControl` |
| Codec.PutDst | drivers/ieee802154/jenusb.c:544-557 | the destination switch writes `DstField` at the cursor and advances the cursor by its length; earlier bytes are kept |
| Codec.PutSrc | drivers/ieee802154/jenusb.c:559-577 | the source switch writes `SrcField` at the cursor and advances the cursor by its length; earlier bytes are kept |
| Codec.PutFrame | drivers/ieee802154/jenusb.c:531-579 | the writes behind `skb_put` leave the buffer's prefix equal to `Mpdu` |
| Codec.ToSkb | drivers/ieee802154/jenusb.c:508-581 | a failed allocation gives -ENOMEM; otherwise `to_skb` returns the length it reserved, and its buffer holds `Mpdu` |
| Codec.TxOptions | drivers/ieee802154/jenusb.c:801-802 | the transmit options have ACK iff ack-request and SECURITY iff security-enabled, and no other bit |
| Codec.ParseAddr | drivers/ieee802154/jenusb.c:810-825 | one address switch reads the layout's fields at the cursor and advances the cursor by the layout's length |
| Codec.FromSkb | drivers/ieee802154/jenusb.c:788-847 | the cursor-based parse computes `FromSkbSpec`: the return value and the frame buffer afterwards, whose SDU buffer has its first `u8SduLength` bytes overwritten and keeps the rest |
| Codec.FillAddressing | drivers/ieee802154/jenusb.c:804-846 | from the sequence number on, the parse computes `FilledSpec`: both address switches, and the SDU copy that overwrites the first `u8SduLength` bytes of `au8Sdu` and keeps the rest |
| CodecProperties.Raw16OfField | drivers/ieee802154/jenusb.c:814-815 | a 16-bit field written by `to_skb` reads back through `cpu_to_be16` as the same raw native value |
| CodecProperties.FromSkbReturnCodes | drivers/ieee802154/jenusb.c:793-846 | -ENOTSUPP for a non-data frame and -EINVAL when both modes are none, with the frame untouched; otherwise the options are set; a reserved destination mode gives -EINVAL; on the other paths the result is `u8SduLength` and the source mode is copied |
| CodecProperties.FromSkbIgnoresSequenceNumber | drivers/ieee802154/jenusb.c:804-805 | the result does not depend on the sequence-number byte |
| CodecProperties.OptionsOfRebuiltFrame | drivers/ieee802154/jenusb.c:533-536 | an MPDU built by `to_skb` parses to transmit options that carry at most the security bit |
| CodecProperties.ShortLayoutReads | drivers/ieee802154/jenusb.c:813-835 | with a short destination, the parse reads four 16-bit fields at offsets 3, 5, 7 and 9, and the SDU from offset 11 |
| CodecProperties.ShortAddressesRoundTrip | drivers/ieee802154/jenusb.c:813-834 | for every stale `u8SduLength` in the frame slot up to the frame's own, a short destination and an uncompressed short source built by `to_skb` are read back with exactly the PAN ids and short addresses written; the result is the stale length, and the first that many SDU bytes come back, the rest of `au8Sdu` kept |
| CodecProperties.LongAddressesComeBackReversed | drivers/ieee802154/jenusb.c:818-838 | for every stale `u8SduLength` in the frame slot up to the frame's own, long addresses built by `to_skb` keep their PAN ids, but each extended address comes back byte-reversed; the result is the stale length, and the first that many SDU bytes come back, the rest of `au8Sdu` kept |
| CodecProperties.CompressedLayout | drivers/ieee802154/jenusb.c:563-565 | a short destination with a PAN-compressed short source is written as 9 header bytes followed by the SDU |
| CodecProperties.CompressedLayoutReads | drivers/ieee802154/jenusb.c:828-835 | the parse of that layout reads a 4-byte source, taking its short address from the first two SDU bytes |
| CodecProperties.CompressedSourceIsMisread | drivers/ieee802154/jenusb.c:828-834 | after `to_skb` and `from_skb`, the reported source PAN id is the source short address and the source short address comes from the SDU |
| CodecProperties.NoneLayoutReads | drivers/ieee802154/jenusb.c:828-830 | with no destination, the parse reads no source fields whatever the source mode; the SDU starts at offset 3 |
| CodecProperties.NoDestinationLayout | drivers/ieee802154/jenusb.c:544-565 | with no destination and a short source, the source field follows the sequence number directly |
| CodecProperties.NoDestinationSkipsSource | drivers/ieee802154/jenusb.c:828-845 | with no destination, the source fields `to_skb` wrote become the first bytes of the parsed SDU |
| CodecProperties.NoAddressesRefused | drivers/ieee802154/jenusb.c:796-798 | a native frame without addresses is rebuilt into an MPDU that `from_skb` refuses with -EINVAL, leaving the frame as it was |
| Device.Jenusb.GetPanId | drivers/ieee802154/jenusb.c:197-203 | `jenusb_get_pan_id` reads the cached PAN id; `Device.Jenusb.SetPanId` ensures it is the requested id after a set whose confirmation shows no MLME error, and unchanged after one that shows an error |
| Device.Jenusb.GetShortAddr | drivers/ieee802154/jenusb.c:205-211 | `jenusb_get_short_addr` reads the cached short address; `Device.Jenusb.SetShortAddr` ensures the same of it |
| Device.Jenusb.Unlock | drivers/ieee802154/jenusb.c:431 | `mutex_unlock` frees a held mutex, or counts an unlock of a free one |
| Device.Jenusb.Post | drivers/ieee802154/jenusb.c:232 | filling the request buffer and posting it, as `Transacted` states |
| Device.Jenusb.SetPanId | drivers/ieee802154/jenusb.c:213-238 | `jenusb_set_panid` leaves the state and result of `SetPanIdSpec`; afterwards `GetPanId` gives the requested id unless the wait was interrupted or the confirmation shows an MLME error, and the old id when it shows one |
| Device.Jenusb.SetShortAddr | drivers/ieee802154/jenusb.c:240-265 | `jenusb_set_short_addr` leaves the state and result of `SetShortAddrSpec`; afterwards `GetShortAddr` gives the requested address unless the wait was interrupted or the confirmation shows an MLME error, and the old one when it shows one |
| Device.Jenusb.AssocReq | drivers/ieee802154/jenusb.c:285-318 | `jenusb_assoc_req` leaves the state and result of `AssocReqSpec`; the short address it computes is dropped |
| Device.Jenusb.AssocResp | drivers/ieee802154/jenusb.c:320-330 | `jenusb_assoc_resp` returns 0 and changes nothing |
| Device.Jenusb.DisassocReq | drivers/ieee802154/jenusb.c:361-390 | `jenusb_disassoc_req` leaves the state and result of `DisassocReqSpec` |
| Device.Jenusb.StartReq | drivers/ieee802154/jenusb.c:392-433 | `jenusb_start_req` leaves the state and result of `StartReqSpec` |
| Device.Jenusb.ScanReq | drivers/ieee802154/jenusb.c:435-464 | `jenusb_scan_req` leaves the state and result of `ScanReqSpec` |
| Device.Jenusb.NetOpen | drivers/ieee802154/jenusb.c:736-777 | `jenusb_net_open` leaves the state and result of `NetOpenSpec` |
| Device.Jenusb.FinishOpen | drivers/ieee802154/jenusb.c:754-776 | the tail of `jenusb_net_open` after the reset's post, as `Opened` states |
| Device.Jenusb.NetClose | drivers/ieee802154/jenusb.c:779-786 | `jenusb_net_close` leaves the state of `NetCloseSpec` and returns 0 |
| Device.Jenusb.Drop | drivers/ieee802154/jenusb.c:900-906 | the `drop:` path unlocks, counts one drop and returns NET_XMIT_DROP |
| Device.Jenusb.Xmit | drivers/ieee802154/jenusb.c:849-907 | `jenusb_net_xmit` leaves the state and result of `XmitSpec` |
| Device.Jenusb.Send | drivers/ieee802154/jenusb.c:862-907 | the transmit path once the mutex is held, as `Transmitted` states |
| Device.Jenusb.Complete | drivers/ieee802154/jenusb.c:874-907 | the transmit path after the data request's post, as `Completed` states |
| Device.Jenusb.Ioctl | drivers/ieee802154/jenusb.c:908-944 | `jenusb_net_ioctl` leaves the state, result and socket address of `IoctlSpec` |
| Device.Jenusb.McpsInd | drivers/ieee802154/jenusb.c:583-617 | `jenusb_mcps_ind` leaves the state of `McpsIndSpec` |
| Device.Jenusb.Receive | drivers/ieee802154/jenusb.c:594-611 | the data-indication case: a failed `to_skb` allocation counts one drop; otherwise one packet of `to_skb`'s length is counted and the rebuilt MPDU is delivered, as `ReceivedSpec` states |
| Device.Jenusb.MlmeInd | drivers/ieee802154/jenusb.c:619-680 | `jenusb_mlme_ind` leaves the state of `MlmeIndSpec` |
| Device.Jenusb.RxWork | drivers/ieee802154/jenusb.c:682-734 | one run of `jenusb_rx_work` leaves the state of `RxWorkSpec` |
| DeviceProperties.SetPanIdEffect | drivers/ieee802154/jenusb.c:213-238 | an interrupted wait sends nothing and changes nothing; otherwise the request goes out if running; the PAN id becomes the requested one exactly when the confirmation buffer afterwards is no MLME error, whatever the post returned; the short address and all else are untouched; the mutex is released |
| DeviceProperties.SetShortAddrEffect | drivers/ieee802154/jenusb.c:240-265 | the same for the short address, with the PAN id untouched |
| DeviceProperties.SetPanIdOnStoppedDevice | drivers/ieee802154/jenusb.c:232-234 | on a stopped device the set returns -ENETDOWN and sends nothing, yet takes over the PAN id when the old buffer shows no error |
| DeviceProperties.PostReqIsInt | drivers/ieee802154/jenusb.c:103-136 | when the transport reports C `int` values, so does the post |
| DeviceProperties.AssocReqEffect | drivers/ieee802154/jenusb.c:285-318 | no cached address changes; the result is 0 exactly when the post succeeded without an MLME error, -EIO on an MLME error, and otherwise the post's error; the mutex is released |
| DeviceProperties.DisassocReqEffect | drivers/ieee802154/jenusb.c:361-390 | no cached address changes; the result is 0 exactly when the post succeeded without an MLME error, -EIO on an MLME error, and otherwise the post's error; the mutex is released |
| DeviceProperties.AssocNullCoordinator | drivers/ieee802154/jenusb.c:300 | a NULL coordinator goes out as the UNDEF short address on the broadcast PAN |
| DeviceProperties.StartAsCoordinator | drivers/ieee802154/jenusb.c:402-431 | as PAN coordinator the PIB set of short address 0x0000 goes out first; if it fails, its result is returned, no start request follows, and the final unlock finds the mutex free; if it succeeds, the start request follows |
| DeviceProperties.StartCoordinatorOnStoppedDevice | drivers/ieee802154/jenusb.c:402-431 | as PAN coordinator on a stopped device the PIB set fails, so the start returns -ENETDOWN (or -EINTR after a signal) and nothing is sent |
| DeviceProperties.StartInterruptedInPibSet | drivers/ieee802154/jenusb.c:404-432 | a signal during the coordinator's PIB set still reaches the final unlock, and -EINTR is returned |
| DeviceProperties.StartNotCoordinator | drivers/ieee802154/jenusb.c:404-428 | without `pan_coord` no PIB set is issued: at most the start request is sent, and no cached address or unlock count changes |
| DeviceProperties.ScanLeaksLockOnError | drivers/ieee802154/jenusb.c:454-463 | the scan keeps the mutex exactly when the post succeeded with an MLME error, and then returns -EIO |
| DeviceProperties.LeakedLockBlocksSetPanId | drivers/ieee802154/jenusb.c:222-223 | with the mutex leaked, a PAN id set can only end by a signal, with -EINTR and no change |
| DeviceProperties.NetOpenEffect | drivers/ieee802154/jenusb.c:743-776 | the reset always goes out; the device is left running exactly on success, which starts the queue and queues one receive work item; a failed allocation gives -ENOMEM; the mutex is released |
| DeviceProperties.ClosedDeviceSendsNothing | drivers/ieee802154/jenusb.c:779-786 | after close the device is stopped, the queue stopped and no work is queued; a later PAN id set sends nothing and fails with -ENETDOWN or -EINTR |
| DeviceProperties.XmitAccounting | drivers/ieee802154/jenusb.c:859-906 | a `from_skb` error, a post error or an MCPS error each add one to `tx_dropped` and return NET_XMIT_DROP; success adds one packet and `skb->len` bytes; the parsed frame is sent when running; the mutex is released |
| DeviceProperties.XmitQueueStop | drivers/ieee802154/jenusb.c:877-891 | the queue is stopped only by an MCPS error whose data status is not TRANSACTION_OVERFLOW |
| DeviceProperties.XmitInterrupted | drivers/ieee802154/jenusb.c:859-860 | an interrupted wait returns -EINTR and counts nothing |
| DeviceProperties.IoctlGet | drivers/ieee802154/jenusb.c:918-930 | SIOCGIFADDR changes nothing; it succeeds exactly when neither cached value is 0xFFFF, and then reports a short address with the cached PAN id and short address; otherwise -EADDRNOTAVAIL |
| DeviceProperties.IoctlGetReportsUndefined | drivers/ieee802154/jenusb.c:922-936 | a cached UNDEF short address is reported by SIOCGIFADDR, although SIOCSIFADDR refuses it |
| DeviceSpec.ValidSetAddr | drivers/ieee802154/jenusb.c:932-937 | SIOCSIFADDR accepts only an IEEE 802.15.4 family, short mode, a PAN id other than broadcast, and a short address other than broadcast and UNDEF |
| DeviceProperties.IoctlRefused | drivers/ieee802154/jenusb.c:931-943 | an invalid address for SIOCSIFADDR gives -EINVAL and an unknown command -ENOIOCTLCMD, both with nothing changed |
| DeviceProperties.IoctlSetResult | drivers/ieee802154/jenusb.c:939-941 | SIOCSIFADDR sets the PAN id, then the short address, and returns 0 exactly when both sets returned 0, and a negative value when either failed |
| DeviceProperties.IoctlSetThenGet | drivers/ieee802154/jenusb.c:917-941 | after a set whose two confirmations show no MLME error, SIOCGIFADDR reports the address just set |
| DeviceProperties.RxWorkScheduling | drivers/ieee802154/jenusb.c:689-733 | a queued work item stays queued exactly while running and after a success or a timeout; otherwise it is gone; nothing is delivered unless the read succeeded |
| DeviceProperties.RxDataFrame | drivers/ieee802154/jenusb.c:594-611 | a received data frame with an allocated skb counts one packet of `to_skb`'s length and delivers the rebuilt MPDU; without an skb it counts one drop and delivers nothing |
| DeviceProperties.RxMlmeIndication | drivers/ieee802154/jenusb.c:716-717 | an MLME indication appends exactly the notification its type calls for, and changes nothing else |

## Left out

- I/O is replaced by parameters: the USB transfers, `usb_string`, jiffies timeouts, the workqueue's timing and `flush_workqueue`. `jenusb_net_close`'s flush is modelled as "no receive work stays queued".
- Concurrency is not modelled beyond the `lockHeld` flag. `Ready` demands that a wait on a held mutex is interrupted, so the hang of an uninterrupted wait (after `jenusb_scan_req`'s leak, say) is not modelled. Atomic reads are plain reads.
- The unions of the request and confirmation buffers are not modelled. They are separate fields and datatype variants, so overlapping bytes are not modelled. Neither is `u8ParamLength`.
- Netlink delivery results are not modelled: notifications are events appended to a log.
- The skb handling of `jenusb_mcps_ind` is left out. It passes the skb pointer by value and dereferences uninitialised `skb` and `frame`, which is undefined behaviour. The model delivers the bytes `to_skb` writes. It does not model the address conversion into `mac_cb`, which reads through the uninitialised `frame`.
- Codec.ToSkb writes past the reserved length. The model sizes its buffer to what is written and states the shortfall, instead of modelling memory corruption.
- Codec.FromSkb: its `requires` demands that the MPDU covers every byte the parse reads. The driver checks nothing, and out-of-bounds reads are not modelled.
- Codec.FromSkb and Codec.FillAddressing: a `u8SduLength` larger than `au8Sdu` overflows the array in the driver. The model lets the copy extend the SDU buffer instead of modelling the overflow.
- The address unions are not modelled: `MAC_Addr_s` overlays `u16Short` on `sExt`, and `struct ieee802154_addr` overlays `short_addr` on `hwaddr`. Both are separate fields here, so a write to one does not show in the other's bytes, and no lemma states what the other field holds after such a write.
- Device.Jenusb.Xmit has the same `requires` on the skb for its `from_skb` call.
- Codec.ToSkb (also Codec.Mpdu and Codec.PutFrame): its `requires SduCovered(frame)` demands that the SDU array covers `u8SduLength`. The driver checks nothing, and its over-read of `au8Sdu` is not modelled.
- Device.Jenusb.RxWork requires a queued work item and, for a data indication, an SDU buffer covering `u8SduLength`.
- Statistics counters are unbounded: their `unsigned long` wrap-around is not modelled.
- `jenusb_probe` is modelled only in its hex parse. Endpoint discovery, netdev allocation and registration, and kref release are foreign calls.
- `jenusb_get_dsn` and `jenusb_get_bsn` are left out: they return the constant 0.
- `jenusb_net_mac_addr` is left out: it returns -EBUSY.
- The suspend/resume stubs are left out.
- The code after the early return of `jenusb_assoc_resp` (jenusb.c:332-358) is unreachable and is not modelled.
- drivers/ide/legacy/ide-4drives.c is not part of this model: it only calls foreign IDE routines.
- jenusb.h is not part of this model. The Jennic MAC constants (SAP tags, MLME and MCPS type codes, status codes, transmit-option bits, PIB attribute ids) are chosen values. The type-code lemmas use only that the codes within each group differ.
