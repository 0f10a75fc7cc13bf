/**
 * `__jenusb_post_req`: one request written to the bulk-out endpoint, then confirmation
 * reads from the interrupt endpoint, retried while they time out, and a type check.
 * The USB transport is an oracle: the write's result and the results of successive reads.
 */
module Transaction {
  import opened Kernel
  import opened Mac

  /** Retries after the first confirmation read. */
  const RETRIES := 5

  /** `__jenusb_chk_err`: the confirmation reports an MLME error. */
  predicate ChkErr(cfm: Cfm)
  {
    cfm.mlmeStatus == MLME_CFM_ERROR
  }

  /** One confirmation read: its result and what the confirmation buffer holds afterwards. */
  datatype Read = Read(status: int, after: Cfm)

  /** What the transport does for one transaction: the write's result, then each read's. */
  datatype Exchange = Exchange(write: int, results: seq<Read>)

  /** There is a result for every read the retry loop can ask for. */
  predicate Supplied(x: Exchange)
  {
    |x.results| > RETRIES
  }

  /**
   * The result of a transaction: return value, whether the request was handed to
   * `usb_bulk_msg` (it may still have failed), reads done, buffer.
   */
  datatype Posted = Posted(ret: int, attempted: bool, readCount: nat, cfm: Cfm)

  /**
   * How many reads the loop makes when read `i` is the next one: it stops after the first
   * read that does not time out, and after read number RETRIES + 1 in any case.
   */
  function Attempts(rs: seq<Read>, i: nat): (n: nat)
    requires i <= RETRIES < |rs|
    ensures i < n <= RETRIES + 1
    ensures forall j :: i <= j < n - 1 ==> rs[j].status == -ETIMEDOUT
    ensures n <= RETRIES ==> rs[n - 1].status != -ETIMEDOUT
    decreases RETRIES - i
  {
    if rs[i].status != -ETIMEDOUT || i == RETRIES then i + 1 else Attempts(rs, i + 1)
  }

  /** `__jenusb_post_req` on a device whose running flag is `running`, for a request tagged `sap`. */
  function PostReqSpec(running: bool, sap: bv8, x: Exchange, cfm: Cfm): Posted
    requires Supplied(x)
  {
    if !running then Posted(-ENETDOWN, false, 0, cfm)
    else if x.write != 0 then Posted(x.write, true, 0, cfm)
    else
      var n := Attempts(x.results, 0);
      var last := x.results[n - 1];
      if last.status != 0 then Posted(last.status, true, n, last.after)
      else if last.after.sap != sap then Posted(-EIO, true, n, last.after)
      else Posted(0, true, n, last.after)
  }

  /** The retry loop as the driver writes it: `do read while (timed out && i++ < RETRIES)`. */
  method PostReq(running: bool, sap: bv8, x: Exchange, cfm: Cfm) returns (p: Posted)
    requires Supplied(x)
    ensures p == PostReqSpec(running, sap, x, cfm)
  {
    if !running {
      return Posted(-ENETDOWN, false, 0, cfm);
    }
    if x.write != 0 {
      return Posted(x.write, true, 0, cfm);
    }
    var i := 0;
    var n := 0;
    var buf := cfm;
    var retval: int;
    while true
      invariant 0 <= i <= RETRIES && n == i
      invariant Attempts(x.results, 0) == Attempts(x.results, i)
      decreases RETRIES - i
    {
      retval := x.results[n].status;
      buf := x.results[n].after;
      n := n + 1;
      if !(retval == -ETIMEDOUT && i < RETRIES) {
        break;
      }
      i := i + 1;
    }
    if retval != 0 {
      return Posted(retval, true, n, buf);
    }
    if buf.sap != sap {
      return Posted(-EIO, true, n, buf);
    }
    return Posted(retval, true, n, buf);
  }

  /** Not running: -ENETDOWN, nothing written or read, the buffer untouched. */
  lemma NotRunningNoTransfer(sap: bv8, x: Exchange, cfm: Cfm)
    requires Supplied(x)
    ensures PostReqSpec(false, sap, x, cfm) == Posted(-ENETDOWN, false, 0, cfm)
  {
  }

  /** A failed write is returned as it is, and nothing is read. */
  lemma FailedWriteNoRead(sap: bv8, x: Exchange, cfm: Cfm)
    requires Supplied(x) && x.write != 0
    ensures var p := PostReqSpec(true, sap, x, cfm);
      p.ret == x.write && p.attempted && p.readCount == 0 && p.cfm == cfm
  {
  }

  /**
   * At most RETRIES + 1 reads; every read but the last timed out, the last did not time out
   * unless it was the sixth; the buffer holds what the last read left in it.
   */
  lemma ReadsBounded(running: bool, sap: bv8, x: Exchange, cfm: Cfm)
    requires Supplied(x)
    ensures var p := PostReqSpec(running, sap, x, cfm);
      && p.readCount <= RETRIES + 1
      && (p.readCount > 0 <==> running && x.write == 0)
      && (forall j :: 0 <= j < p.readCount - 1 ==> x.results[j].status == -ETIMEDOUT)
      && (0 < p.readCount <= RETRIES ==> x.results[p.readCount - 1].status != -ETIMEDOUT)
      && (p.readCount > 0 ==> p.cfm == x.results[p.readCount - 1].after)
      && (p.attempted <==> running)
  {
  }

  /** Six timeouts in a row: the transaction gives up with -ETIMEDOUT. */
  lemma AllTimeouts(sap: bv8, x: Exchange, cfm: Cfm)
    requires Supplied(x) && x.write == 0
    requires forall j :: 0 <= j <= RETRIES ==> x.results[j].status == -ETIMEDOUT
    ensures PostReqSpec(true, sap, x, cfm).ret == -ETIMEDOUT
    ensures PostReqSpec(true, sap, x, cfm).readCount == RETRIES + 1
  {
  }

  /**
   * Success exactly when the device runs, the write went through, the last read succeeded
   * and the confirmation carries the request's tag; a successful read of another tag is -EIO.
   */
  lemma SuccessIff(running: bool, sap: bv8, x: Exchange, cfm: Cfm)
    requires Supplied(x)
    ensures var p := PostReqSpec(running, sap, x, cfm);
      && (p.ret == 0 <==>
            running && x.write == 0 && p.readCount > 0
            && x.results[p.readCount - 1].status == 0 && p.cfm.sap == sap)
      && ((running && x.write == 0 && x.results[p.readCount - 1].status == 0 && p.cfm.sap != sap)
            ==> p.ret == -EIO)
  {
  }
}
