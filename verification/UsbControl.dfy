/** Control transfers as the host means them: the SETUP packets in what was received,
    and what each of them is to be answered with. */
module UsbControl {
  import opened Bits
  import opened UsbShared

  // ---- the requests the driver answers itself ------------------------------

  datatype Request = GetStatus | SetAddress | GetDescriptor | GetConfiguration
    | SetConfiguration | GetInterface | SetInterface | OtherRequest

  function RequestOf(b: byte): Request {
    if b == 0 then GetStatus
    else if b == 5 then SetAddress
    else if b == 6 then GetDescriptor
    else if b == 8 then GetConfiguration
    else if b == 9 then SetConfiguration
    else if b == 10 then GetInterface
    else if b == 11 then SetInterface
    else OtherRequest
  }

  predicate Standard(requestType: byte) { requestType & 0x60 == 0 }
  predicate DeviceToHost(requestType: byte) { requestType & 0x80 != 0 }
  predicate IsZero(b: byte) { b == 0 }
  function Num(b: byte): (n: nat) ensures n < 256 { b as nat }

  const NO_MSG: nat := 255

  /** The descriptors in flash and the serial number string in RAM. */
  datatype Descriptors = Descriptors(device: seq<byte>, configuration: seq<byte>,
                                     strings: seq<seq<byte>>, hidReport: seq<byte>) {
    predicate Valid() {
      && |device| < NO_MSG && 27 <= |configuration| < NO_MSG && |hidReport| < NO_MSG
      && |strings| == 4 && forall i :: 0 <= i < 4 ==> |strings[i]| < NO_MSG
    }

    /** usbDriverDescriptor: the HID descriptor lies inside the configuration one. */
    function Find(kind: nat, index: nat): (r: seq<byte>)
      requires Valid()
      ensures |r| < NO_MSG
    {
      if kind == 1 then device
      else if kind == 2 then configuration
      else if kind == 3 then (if index < 4 then strings[index] else [])
      else if kind == 0x21 then configuration[18..27]
      else if kind == 0x22 then hidReport
      else []
    }
  }

  /** What USB 2.0, section 9.4, asks for, as far as this configuration goes. */
  function StandardReply(q: seq<byte>, d: Descriptors, configuration: byte): (r: seq<byte>)
    requires |q| == 8 && d.Valid()
    ensures |r| < NO_MSG
  {
    match RequestOf(q[1])
    case GetStatus => [0, 0]
    case GetDescriptor => d.Find(Num(q[3]), Num(q[2]))
    case GetConfiguration => [configuration]
    case GetInterface => [0]
    case _ => []
  }

  /** No more than wLength asks for. */
  function Limited<T>(reply: seq<T>, low: nat, highIsZero: bool): (r: seq<T>)
    ensures highIsZero ==> |r| <= low
    ensures |r| <= |reply|
  {
    if highIsZero && |reply| > low then reply[..low] else reply
  }

  // ---- SETUP packets among what was received -------------------------------

  predicate IsSetup8(p: Rx) { p.token == SetupToken && |p.data| == 8 }

  function Setups(rxs: seq<Rx>): nat {
    if rxs == [] then 0
    else Setups(rxs[..|rxs| - 1]) + if IsSetup8(rxs[|rxs| - 1]) then 1 else 0
  }

  lemma SetupsSnoc(rxs: seq<Rx>, p: Rx)
    ensures Setups(rxs + [p]) == Setups(rxs) + if IsSetup8(p) then 1 else 0
  {
    assert (rxs + [p])[..|rxs|] == rxs;
  }

  /** What had been received when the last 8-byte SETUP was, that SETUP last. */
  function UpToSetup(rxs: seq<Rx>): seq<Rx> {
    if rxs == [] || IsSetup8(rxs[|rxs| - 1]) then rxs else UpToSetup(rxs[..|rxs| - 1])
  }

  lemma {:induction false} SetupsGrow(begun: seq<Rx>, rxs: seq<Rx>)
    requires begun <= rxs
    ensures Setups(begun) <= Setups(rxs)
    decreases |rxs|
  {
    if begun != rxs { SetupsGrow(begun, rxs[..|rxs| - 1]); }
  }

  lemma {:induction false} LastSetup(begun: seq<Rx>, rxs: seq<Rx>)
    requires begun <= rxs && begun != [] && IsSetup8(begun[|begun| - 1]) && Setups(begun) == Setups(rxs)
    ensures UpToSetup(rxs) == begun
    decreases |rxs|
  {
    if begun != rxs {
      SetupsGrow(begun, rxs[..|rxs| - 1]);
      LastSetup(begun, rxs[..|rxs| - 1]);
    }
  }

  predicate IsStandard(p: Rx, request: Request) {
    IsSetup8(p) && Standard(p.data[0]) && RequestOf(p.data[1]) == request
  }

  /** The address and the configuration after a packet, from the ones before it. */
  function NextAddress(p: Rx, before: nat): nat {
    if IsStandard(p, SetAddress) then Num(p.data[2]) else before
  }

  function NextConfiguration(p: Rx, before: byte): byte {
    if IsStandard(p, SetConfiguration) then p.data[2] else before
  }

  /** The configuration that the last SET_CONFIGURATION selected. */
  function ConfigurationAfter(rxs: seq<Rx>): byte {
    if rxs == [] then 0 else NextConfiguration(rxs[|rxs| - 1], ConfigurationAfter(rxs[..|rxs| - 1]))
  }

  lemma ConfigurationSnoc(rxs: seq<Rx>, p: Rx)
    ensures ConfigurationAfter(rxs + [p]) == NextConfiguration(p, ConfigurationAfter(rxs))
  {
    hide NextConfiguration;
    assert (rxs + [p])[..|rxs|] == rxs;
  }

  /** The reply due to the standard request that ends `begun`: a function of the packets
      received up to it and of the descriptors. */
  function ReplyDue(d: Descriptors, begun: seq<Rx>): seq<byte>
    requires d.Valid() && begun != [] && IsSetup8(begun[|begun| - 1])
  {
    var q := begun[|begun| - 1].data;
    Limited(StandardReply(q, d, ConfigurationAfter(begun)), Num(q[6]), IsZero(q[7]))
  }

  // ---- transfers -----------------------------------------------------------

  /** Who supplies the data of a control transfer: the driver, from memory; the
      application, by usbFunctionRead; or the host, to usbFunctionWrite. */
  datatype Kind = Canned | UserRead | UserWrite

  /** `begun` is what had been received when the transfer began, its SETUP last, and the
      tag counts the 8-byte SETUPs in it. `reply` is what is to be sent, or, from
      usbFunctionRead, what has been given so far of at most `limit` bytes. `outs` counts
      the packets given to usbFunctionWrite, `built` the tokens used, and `dropped` those
      of them that were used for no packet, because the application reported an error. */
  datatype Transfer = Transfer(tag: nat, kind: Kind, begun: seq<Rx>, reply: seq<byte>, limit: nat,
                               outs: nat, built: nat, dropped: nat)

  /** The transfer is what its SETUP asks for. */
  ghost predicate Answers(d: Descriptors, tr: Transfer) {
    && d.Valid() && tr.begun != [] && IsSetup8(tr.begun[|tr.begun| - 1]) && Setups(tr.begun) == tr.tag
    && var q := tr.begun[|tr.begun| - 1].data;
       && (Standard(q[0]) ==> tr.kind.Canned? && tr.reply == ReplyDue(d, tr.begun))
       && (tr.kind.Canned? && IsZero(q[7]) ==> |tr.reply| <= Num(q[6]))
       && (tr.kind.UserRead? ==> DeviceToHost(q[0]) && tr.limit == Num(q[6]))
       && (tr.kind.UserWrite? ==> !DeviceToHost(q[0]))
  }
}
