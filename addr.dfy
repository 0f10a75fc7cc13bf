/**
 * Conversion between the stack's `struct ieee802154_addr` and the coprocessor's
 * `MAC_Addr_s`: a field-by-field copy with the 16-bit fields byte-swapped.
 */
module Addr {
  import opened Wrappers
  import opened Bytes
  import opened Kernel
  import opened Mac

  /** The low byte of a C `int`, as the store into `u8AddrMode` keeps it. */
  function ModeByte(addrType: int): bv8
  {
    (addrType % 256) as bv8
  }

  lemma ModeByteInRange(addrType: int)
    requires 0 <= addrType < 256
    ensures ModeByte(addrType) as int == addrType
  {
  }

  /**
   * `ieee802154_addr_to_jenusb(a, b)`: the native address `b` holds afterwards, given what
   * it held before (`stale`). A null `a` gives the short broadcast-PAN undefined address.
   */
  function AddrToJenusb(a: Option<Ieee802154Addr>, stale: MacAddr): MacAddr
  {
    match a
    case None =>
      stale.(mode := ADDR_SHORT, panId := PANID_BROADCAST, short := Swap16(ADDR_UNDEF))
    case Some(x) =>
      var b := stale.(mode := ModeByte(x.addrType), panId := Swap16(x.panId));
      if x.addrType == ADDR_SHORT as int then b.(short := Swap16(x.shortAddr))
      else if x.addrType == ADDR_LONG as int then b.(ext := x.hwaddr)
      else if x.addrType == ADDR_NONE as int then b.(short := Swap16(ADDR_UNDEF))
      else b
  }

  /** `jenusb_to_ieee802154_addr(a, b)`: the stack address `b` holds afterwards. */
  function JenusbToAddr(a: MacAddr, stale: Ieee802154Addr): Ieee802154Addr
  {
    var b := stale.(addrType := a.mode as int, panId := Swap16(a.panId));
    if a.mode == ADDR_SHORT then b.(shortAddr := Swap16(a.short))
    else if a.mode == ADDR_LONG then b.(hwaddr := a.ext)
    else if a.mode == ADDR_NONE then b.(shortAddr := Swap16(ADDR_UNDEF))
    else b
  }

  /**
   * Stack to native and back: an address type that fits the mode byte and the PAN id
   * survive; so do the short address in short mode and the extended address in long mode.
   * In mode none the short address comes back as the byte-swapped undefined address,
   * because the reverse conversion swaps a constant that is already in host order.
   */
  lemma AddrRoundTrip(a: Ieee802154Addr, slot: MacAddr, b: Ieee802154Addr)
    requires 0 <= a.addrType < 256
    ensures var r := JenusbToAddr(AddrToJenusb(Some(a), slot), b);
      && r.addrType == a.addrType
      && r.panId == a.panId
      && (a.addrType == ADDR_SHORT as int ==> r.shortAddr == a.shortAddr)
      && (a.addrType == ADDR_LONG as int ==> r.hwaddr == a.hwaddr)
      && (a.addrType == ADDR_NONE as int ==> r.shortAddr == Swap16(ADDR_UNDEF) && r.shortAddr == 0xFEFF)
  {
    ModeByteInRange(a.addrType);
    var n := AddrToJenusb(Some(a), slot);
    assert n.mode as int == a.addrType && n.panId == Swap16(a.panId);
    Swap16Involutive(a.panId);
    Swap16Involutive(a.shortAddr);
    if a.addrType == ADDR_SHORT as int {
      assert n.mode == ADDR_SHORT && n.short == Swap16(a.shortAddr);
    } else if a.addrType == ADDR_LONG as int {
      assert n.mode == ADDR_LONG && n.ext == a.hwaddr;
    } else if a.addrType == ADDR_NONE as int {
      assert n.mode == ADDR_NONE;
    }
  }

  /** An address type outside the mode byte's range does not survive the round trip. */
  lemma WideAddrTypeIsTruncated(a: Ieee802154Addr, slot: MacAddr, b: Ieee802154Addr)
    requires a.addrType == 256 + ADDR_SHORT as int
    ensures AddrToJenusb(Some(a), slot).mode == ADDR_SHORT
    ensures AddrToJenusb(Some(a), slot).short == slot.short
    ensures JenusbToAddr(AddrToJenusb(Some(a), slot), b).addrType != a.addrType
  {
  }

  /** A null stack address becomes the short undefined address on the broadcast PAN. */
  lemma NullAddress(slot: MacAddr, b: Ieee802154Addr)
    ensures var n := AddrToJenusb(None, slot);
      && n.mode == ADDR_SHORT
      && JenusbToAddr(n, b).addrType == ADDR_SHORT as int
      && JenusbToAddr(n, b).panId == PANID_BROADCAST
      && JenusbToAddr(n, b).shortAddr == ADDR_UNDEF
  {
    Swap16Involutive(ADDR_UNDEF);
  }

  /** Native to stack and back: mode, PAN id and the mode's address survive. */
  lemma {:induction false} NativeRoundTrip(a: MacAddr, b: Ieee802154Addr)
    requires a.mode == ADDR_SHORT || a.mode == ADDR_LONG
    ensures var r := AddrToJenusb(Some(JenusbToAddr(a, b)), a);
      && r.mode == a.mode && r.panId == a.panId
      && (a.mode == ADDR_SHORT ==> r.short == a.short)
      && (a.mode == ADDR_LONG ==> r.ext == a.ext)
  {
    Swap16Involutive(a.panId);
    Swap16Involutive(a.short);
    assert ModeByte(a.mode as int) == a.mode;
  }

  /** A native address in a mode the stack does not know keeps the stack's other fields. */
  lemma UnknownNativeMode(a: MacAddr, b: Ieee802154Addr)
    requires a.mode != ADDR_SHORT && a.mode != ADDR_LONG && a.mode != ADDR_NONE
    ensures var r := JenusbToAddr(a, b);
      r.addrType == a.mode as int && r.shortAddr == b.shortAddr && r.hwaddr == b.hwaddr
  {
  }
}
