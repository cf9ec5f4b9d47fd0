/** Control transfers as a host makes them, byte by byte and bit by bit: tokens, data
    packets and the answers on the line, and what the device makes of them. */
module ControlTransfers {
  import opened Bits
  import opened Crc16
  import opened LineCoding
  import opened LinePort
  import opened LineDriving
  import opened UsbControl
  import opened UsbShared
  import opened UsbHistory
  import opened UsbRequests
  import opened UsbDriver
  import opened UsbCodes
  import opened UsbTheorems
  import opened Transaction
  import LineTracking
  import Loopback

  // ---- one packet in the interrupt routine -----------------------------------

  lemma OneAnswer(s: Shared, r: Reception)
    requires Wellformed(s) && r.Valid() && Interrupt(s, r).accepted == []
    ensures var t := Interrupt(s, r).s;
      && Wellformed(t) && t.rxLen == s.rxLen && (s.rxLen > 0 ==> Waiting(t) == Waiting(s))
      && t.newDeviceAddr == s.newDeviceAddr
  {
    hide Interrupt, Bit4, Waiting;
    MailboxTurn(s, r);
    SteadyTurn(s, r);
  }

  /** SETUP is 0x2d and OUT 0xe1. */
  lemma TokenIsTaken(s: Shared, pid: byte, second: byte, third: byte)
    requires Wellformed(s) && (pid == 0x2d || pid == 0xe1) && 2 * (second as nat % 128) == s.deviceAddr
    ensures Whole([pid, second, third]).Valid()
    ensures var t := Interrupt(s, Whole([pid, second, third]));
      && t.reply == Silent && t.accepted == [] && t.s.currentTok == (if pid == 0x2d then SetupToken else OutToken)
      && t.s.txLen == s.txLen && t.s.txLen1 == s.txLen1 && t.s.deviceAddr == s.deviceAddr
  {
    hide Interrupt, Wellformed, Bit4, PidOf, ShiftedAddress, EndpointOf;
    var r := Whole([pid, second, third]);
    PidsAre();
    TokenInCodes(second, third);
    TokenTurn(s, r);
    SendingTurn(s, r);
    AddressTurn(s, r);
  }

  /** DATA0 is 0xc3 and DATA1 0x4b, ACK 0xd2 and NAK 0x5a. */
  lemma DataIsAnswered(s: Shared, pid: byte, q: seq<byte>)
    requires Wellformed(s) && (pid == 0xc3 || pid == 0x4b) && s.currentTok != NoToken && |q| <= 8
    ensures Whole([pid] + q + CheckBytes(q)).Valid()
    ensures var t := Interrupt(s, Whole([pid] + q + CheckBytes(q)));
      && Wellformed(t.s) && t.reply == Handshake(if s.rxLen > 0 then 0x5a else 0xd2)
      && t.s.txLen == s.txLen && t.s.txLen1 == s.txLen1 && t.s.deviceAddr == s.deviceAddr
      && if s.rxLen > 0 || q == [] then t.accepted == []
         else t.s.rxLen == |q| + 3 && Waiting(t.s) == Rx(s.currentTok, q)
  {
    hide Interrupt, Bit4, PidOf, CheckBytes, Waiting;
    CheckSize(q);
    var bytes := [pid] + q + CheckBytes(q);
    var r := Whole(bytes);
    PidsAre();
    AnswerToData(s, r);
    MailboxTurn(s, r);
    SendingTurn(s, r);
    AddressTurn(s, r);
    SteadyTurn(s, r);
    assert bytes[1..|bytes| - 2] == q;
    if s.rxLen == 0 && q != [] { WaitingSize(Interrupt(s, r).s); }
  }

  lemma HandshakeOnTheLine(out: byte, pid: nat)
    requires pid < 256
    ensures OnTheLine(out, Handshake(pid)) == DriveAll(out, PacketLevels([pid as byte]))
  {
  }

  lemma SilenceOnTheLine(out: byte)
    ensures OnTheLine(out, Silent) == []
  {
  }

  /** IN is 0x69. While a packet waits the answer is NAK; otherwise it is what is in the
      buffer or the handshake in its place, and a data packet assigns the address. */
  lemma InIsAnswered(s: Shared, second: byte, third: byte)
    requires Wellformed(s) && 2 * (second as nat) == s.deviceAddr < 256 && third as nat % 8 == 0
    ensures Whole([0x69, second, third]).Valid()
    ensures var t := Interrupt(s, Whole([0x69, second, third]));
      && t.accepted == []
      && if s.rxLen > 0 then t.reply == Handshake(0x5a)
         else if Bit4(s.txLen) then
           t.reply == Handshake(s.txLen) && t.s.txLen == s.txLen && t.s.deviceAddr == s.deviceAddr
         else
           && t.reply == DataPacket(0, s.txBuf[..s.txLen - 1]) && t.s.txLen == 0x5a
           && t.s.deviceAddr == s.newDeviceAddr * 2 % 256
  {
    hide Interrupt, Wellformed, Bit4, PidOf, ShiftedAddress, EndpointOf;
    var r := Whole([0x69, second, third]);
    PidsAre();
    TokenInCodes(second, third);
    TokenTurn(s, r);
    AnswerToIn(s, r);
    SendingTurn(s, r);
    AddressTurn(s, r);
  }

  lemma Pids(pid: byte)
    requires pid == 0x2d || pid == 0xe1 || pid == 0x69 || pid == 0xc3 || pid == 0x4b
    ensures LineTracking.ValidPid(pid)
  {
  }

  // ---- the host's side --------------------------------------------------------

  lemma HasAddress(device: Device)
    requires device.Valid()
    ensures Wellformed(device.S()) && device.usbDeviceAddr < 256 && device.usbDeviceAddr % 2 == 0
  {
    hide Inv, Wellformed;
    EvenAddress(device.W(), device.code);
  }

  /** A packet that fits the device's buffer. */
  method Sends(device: Device, sender: Loopback.Sender, hostOut: byte, own: seq<byte>, out: byte, bytes: seq<byte>)
    returns (answer: seq<byte>)
    requires device.Valid() && Masked(hostOut) == 0 && Masked(out) == 0
    requires 1 <= |bytes| <= BUFSIZE && LineTracking.ValidPid(bytes[0])
    modifies device.usbRxBuf, device`usbCurrentTok, device`usbRxLen, device`usbRxToken, device`usbInputBufOffset,
             device`usbTxLen, device`usbTxLen1, device`usbDeviceAddr, device`log
    ensures device.Valid() && Wellformed(old(device.S())) && Whole(bytes).Valid()
    ensures device.S() == Interrupt(old(device.S()), Whole(bytes)).s
    ensures var reply := Interrupt(old(device.S()), Whole(bytes)).reply;
      Sendable(reply) && answer == OnTheLine(out, reply)
  {
    hide Masked, Inv, Wellformed, Interrupt, Sendable, OnTheLine, ReceptionOf, LineTracking.ValidPid;
    var ram := bytes + [0];
    assert ram[0..|bytes|] == bytes;
    WholePacket(bytes);
    answer := HostSends(device, sender, hostOut, own, out, ram, 0, |bytes| + 1);
  }

  /** A SETUP or an OUT to the device's address and the data packet behind it. Nothing
      answers the token; the data packet is answered ACK, 0xd2, and then it is the one
      that waits, or, if one was waiting, NAK, 0x5a, and nothing has changed. An empty
      one is acknowledged and not kept. */
  method HostGives(device: Device, sender: Loopback.Sender, hostOut: byte, own: seq<byte>, out: byte,
                   pid: byte, second: byte, third: byte, dataPid: byte, q: seq<byte>)
    returns (silence: seq<byte>, answer: seq<byte>)
    requires device.Valid() && Masked(hostOut) == 0 && Masked(out) == 0
    requires (pid == 0x2d || pid == 0xe1) && 2 * (second as nat % 128) == device.usbDeviceAddr
    requires (dataPid == 0xc3 || dataPid == 0x4b) && |q| <= 8
    modifies device.usbRxBuf, device`usbCurrentTok, device`usbRxLen, device`usbRxToken, device`usbInputBufOffset,
             device`usbTxLen, device`usbTxLen1, device`usbDeviceAddr, device`log
    ensures device.Valid() && Wellformed(device.S()) && Wellformed(old(device.S())) && silence == []
    ensures device.usbTxLen == old(device.usbTxLen) && device.usbTxLen1 == old(device.usbTxLen1)
    ensures device.usbDeviceAddr == old(device.usbDeviceAddr)
    ensures if old(device.usbRxLen) > 0 then
        && answer == DriveAll(out, PacketLevels([0x5a]))
        && device.usbRxLen == old(device.usbRxLen) && Waiting(device.S()) == Waiting(old(device.S()))
      else
        && answer == DriveAll(out, PacketLevels([0xd2]))
        && if q == [] then device.usbRxLen == 0
           else
             && device.usbRxLen == |q| + 3
             && Waiting(device.S()) == Rx(if pid == 0x2d then SetupToken else OutToken, q)
  {
    hide Masked, Device.Valid, Device.S, Wellformed, Interrupt, Sendable, OnTheLine, LineTracking.ValidPid, Waiting,
      CheckBytes, PacketLevels, DriveAll;
    HasAddress(device);
    FieldsOf(device);
    ghost var s := device.S();
    Pids(pid);
    Pids(dataPid);
    CheckSize(q);
    var bytes := [dataPid] + q + CheckBytes(q);
    TokenIsTaken(s, pid, second, third);
    OneAnswer(s, Whole([pid, second, third]));
    silence := Sends(device, sender, hostOut, own, out, [pid, second, third]);
    SilenceOnTheLine(out);
    ghost var t := device.S();
    DataIsAnswered(t, dataPid, q);
    answer := Sends(device, sender, hostOut, own, out, bytes);
    HandshakeOnTheLine(out, 0xd2);
    HandshakeOnTheLine(out, 0x5a);
    FieldsOf(device);
    if t.rxLen > 0 || q == [] { OneAnswer(t, Whole(bytes)); }
  }

  lemma FieldsOf(device: Device)
    ensures var s := device.S();
      && s.rxLen == device.usbRxLen && s.txLen == device.usbTxLen && s.txLen1 == device.usbTxLen1
      && s.deviceAddr == device.usbDeviceAddr && s.newDeviceAddr == device.usbNewDeviceAddr
      && s.txBuf == device.usbTxBuf[..]
  {
  }

  lemma WholePacket(bytes: seq<byte>)
    requires |bytes| <= BUFSIZE
    ensures ReceptionOf(bytes) == Whole(bytes)
  {
  }

  /** An IN for endpoint 0. While a packet waits the answer is NAK; otherwise, from a
      buffer that holds a packet, the packet, which assigns the address, and from a free
      one the handshake there, NAK, 0x5a, or STALL, 0x1e. In any case the buffer is free
      behind it. */
  method HostAsks(device: Device, sender: Loopback.Sender, hostOut: byte, own: seq<byte>, out: byte,
                  second: byte, third: byte)
    returns (answer: seq<byte>)
    requires device.Valid() && Masked(hostOut) == 0 && Masked(out) == 0
    requires 2 * (second as nat) == device.usbDeviceAddr < 256 && third as nat % 8 == 0
    modifies device.usbRxBuf, device`usbCurrentTok, device`usbRxLen, device`usbRxToken, device`usbInputBufOffset,
             device`usbTxLen, device`usbTxLen1, device`usbDeviceAddr, device`log
    ensures device.Valid() && device.usbRxLen == old(device.usbRxLen)
    ensures old(device.usbRxLen) > 0 ==> answer == DriveAll(out, PacketLevels([0x5a]))
    ensures old(device.usbRxLen) == 0 ==> Bit4(device.usbTxLen)
    ensures old(device.usbRxLen) == 0 && Bit4(old(device.usbTxLen)) ==>
      && device.usbTxLen == old(device.usbTxLen) && device.usbDeviceAddr == old(device.usbDeviceAddr)
      && (device.usbTxLen == 0x5a ==> answer == DriveAll(out, PacketLevels([0x5a])))
      && (device.usbTxLen == 0x1e ==> answer == DriveAll(out, PacketLevels([0x1e])))
    ensures old(device.usbRxLen) == 0 && !Bit4(old(device.usbTxLen)) ==>
      && 4 <= old(device.usbTxLen) <= 12 && device.usbTxBuf.Length == 11
      && answer == DriveAll(out, PacketLevels(old(device.usbTxBuf[..device.usbTxLen - 1])))
      && device.usbTxLen == 0x5a && device.usbDeviceAddr == device.usbNewDeviceAddr * 2 % 256
  {
    hide Masked, Device.Valid, Device.S, Wellformed, Interrupt, Sendable, OnTheLine, LineTracking.ValidPid, Bit4,
      PacketLevels, DriveAll;
    HasAddress(device);
    FieldsOf(device);
    ghost var s := device.S();
    Lengths(s);
    Pids(0x69);
    InIsAnswered(s, second, third);
    OneAnswer(s, Whole([0x69, second, third]));
    HandshakesHaveBit4(0);
    HandshakeOnTheLine(out, 0x5a);
    HandshakeOnTheLine(out, 0x1e);
    answer := Sends(device, sender, hostOut, own, out, [0x69, second, third]);
    FieldsOf(device);
    if s.rxLen == 0 && !Bit4(s.txLen) { DataOnTheLine(out, 0, s.txBuf[..s.txLen - 1]); }
  }

  lemma Lengths(s: Shared)
    requires Wellformed(s)
    ensures |s.txBuf| == 11 && (!Bit4(s.txLen) ==> 4 <= s.txLen <= 12)
  {
  }

  lemma DataOnTheLine(out: byte, endpoint: nat, bytes: seq<byte>)
    requires 3 <= |bytes| <= BUFSIZE
    ensures OnTheLine(out, DataPacket(endpoint, bytes)) == DriveAll(out, PacketLevels(bytes))
  {
  }

  // ---- SETUP ------------------------------------------------------------------

  /** What is in the buffer when the first block of a reply is. */
  lemma FirstBlock(device: Device)
    requires device.Valid() && !device.code.writing0 && !Bit4(device.usbTxLen)
    requires device.code.tr.kind.Canned? && device.code.tr.built == 1
    ensures var reply := device.code.tr.reply; var part := reply[..if |reply| < 8 then |reply| else 8];
      && device.usbTxLen == |part| + 4 && device.usbTxBuf.Length == 11
      && device.usbTxBuf[..|part| + 3] == [0x4b] + part + CheckBytes(part)
  {
    hide Bit4, MailboxOk, Endpoint1Ok, AddressOk, RecordOk, GivenOk, SentOk, Follows, Answers, Setups, CheckBytes;
  }

  /** A SETUP or OUT with its data packet, acknowledged, and the usbPoll that hands it
      over, with anything else on the line around that. */
  method GivesAndPolls(device: Device, sender: Loopback.Sender, hostOut: byte, own: seq<byte>, out: byte,
                       pid: byte, second: byte, third: byte, dataPid: byte, q: seq<byte>)
    returns (answer: seq<byte>, ghost mid: Transfer, ghost left: nat, ghost more: bool, ghost reset: bool,
             ghost rval: nat, ghost app: AppReply)
    requires device.Valid() && device.Resting() && device.Answering() && !device.code.processing
    requires device.usbRxLen == 0 && Masked(hostOut) == 0 && Masked(out) == 0
    requires (pid == 0x2d || pid == 0xe1) && 2 * (second as nat % 128) == device.usbDeviceAddr
    requires (dataPid == 0xc3 || dataPid == 0x4b) && 1 <= |q| <= 8
    modifies device, device.usbTxBuf, device.usbTxBuf1, device.usbRxBuf
    ensures device.Valid() && device.Resting() && device.Answering() && !device.code.processing
    ensures answer == DriveAll(out, PacketLevels([0xd2]))
    ensures var p := Rx(if pid == 0x2d then SetupToken else OutToken, q);
      && device.code.delivered == old(device.code.delivered) + [p]
      && Processed(p, old(device.code.tr), mid, old(device.usbMsgLen), left, device.code.delivered,
                   device.descriptors, !Bit4(old(device.usbTxLen)), rval)
      && (IsSetup8(p) ==> Heeded(q, app, mid) && (more <==> left != 255))
      && device.code.epoch == old(device.code.epoch) + (if IsStandard(p, SetInterface) then 1 else 0)
      && (!reset ==> device.usbNewDeviceAddr == NextAddress(p, old(device.usbNewDeviceAddr)))
      && (IsForApp(p, old(device.code.tr)) && rval == 255 && left == 255 ==> device.usbTxLen == 0x1e)
    ensures Continues(mid, device.code.tr, more) && (!more ==> device.usbMsgLen == left) && (left == 255 ==> !more)
  {
    hide Masked, Device.Valid, Device.S, Device.W, Rested, Device.MsgBytes, UserRw, Answers, ConfigurationAfter,
      Continues, Processed, NextAddress, Wellformed, Waiting, Heeded, IsStandard, Bit4, PacketLevels, DriveAll,
      IsSetup8, IsForApp;
    var silence;
    silence, answer := HostGives(device, sender, hostOut, own, out, pid, second, third, dataPid, q);
    device.PreemptWaiting();
    ghost var free;
    mid, left, free, reset, rval, app := device.UsbPoll();
    more := free && left != NO_MSG;
  }

  /** An 8-byte SETUP is taken in and, with anything else on the line around it, a usbPoll
      later it has begun its transfer. A standard request is answered by the driver: the
      reply is the first of wLength bytes of what its code asks for, and a setting is
      made. Any other is answered as usbFunctionSetup says. `left` is what was then in
      usbMsgLen; the first block is built unless that is 255. */
  method HostSetsUp(device: Device, sender: Loopback.Sender, hostOut: byte, own: seq<byte>, out: byte,
                    second: byte, third: byte, q: seq<byte>)
    returns (answer: seq<byte>, ghost left: nat, ghost reset: bool, ghost app: AppReply)
    requires device.Valid() && device.Resting() && device.Answering() && !device.code.processing
    requires device.usbRxLen == 0 && Masked(hostOut) == 0 && Masked(out) == 0
    requires 2 * (second as nat % 128) == device.usbDeviceAddr && |q| == 8
    modifies device, device.usbTxBuf, device.usbTxBuf1, device.usbRxBuf
    ensures device.Valid() && device.Resting() && device.Answering() && !device.code.processing
    ensures answer == DriveAll(out, PacketLevels([0xd2]))
    ensures device.code.delivered == old(device.code.delivered) + [Rx(SetupToken, q)]
    ensures device.code.tr.begun == device.code.delivered && device.code.tr.tag == old(device.code.tr.tag) + 1
    ensures device.code.tr.built == if left == 255 then 0 else 1
    ensures left == 255 ==> device.usbMsgLen == 255
    ensures device.usbConfiguration ==
      if q[0] as nat / 32 % 4 == 0 && q[1] == 9 then q[2] else old(device.usbConfiguration)
    ensures reset || device.usbNewDeviceAddr ==
      if q[0] as nat / 32 % 4 == 0 && q[1] == 5 then q[2] as nat else old(device.usbNewDeviceAddr)
    ensures device.code.epoch == old(device.code.epoch) + if q[0] as nat / 32 % 4 == 0 && q[1] == 11 then 1 else 0
    ensures q[0] as nat / 32 % 4 == 0 ==>
      var d := device.descriptors;
      && d.Valid() && device.code.tr.kind == Canned && left < 255
      && var whole :=
           if q[1] == 0 then [0, 0]
           else if q[1] == 6 && q[3] == 1 then d.device
           else if q[1] == 6 && q[3] == 2 then d.configuration
           else if q[1] == 6 && q[3] == 3 && q[2] as nat < 4 then d.strings[q[2] as nat]
           else if q[1] == 6 && q[3] == 0x21 then d.configuration[18..27]
           else if q[1] == 6 && q[3] == 0x22 then d.hidReport
           else if q[1] == 8 then [device.usbConfiguration]
           else if q[1] == 10 then [0]
           else [];
         device.code.tr.reply == if q[7] as nat == 0 && |whole| > q[6] as nat then whole[..q[6] as nat] else whole
    ensures q[0] as nat / 32 % 4 != 0 ==>
      if app.Here? then
        && device.code.tr.kind == Canned && left < 255
        && device.code.tr.reply ==
             if q[7] as nat == 0 && |app.bytes| > q[6] as nat then app.bytes[..q[6] as nat] else app.bytes
      else if q[0] as nat >= 128 then
        device.code.tr.kind == UserRead && device.code.tr.limit == left == q[6] as nat
      else
        device.code.tr.kind == UserWrite && left == 255
  {
    hide Masked, Device.Valid, Device.Resting, Answers, ConfigurationAfter, Continues, Processed, NextAddress, Heeded,
      IsStandard, Bit4, PacketLevels, DriveAll, ReplyDue;
    ghost var before, was, addr, msgLen, pending := device.code.delivered, device.code.tr, device.usbNewDeviceAddr,
      device.usbMsgLen, !Bit4(device.usbTxLen);
    ghost var p := Rx(SetupToken, q);
    ghost var mid, more, rval;
    answer, mid, left, more, reset, rval, app :=
      GivesAndPolls(device, sender, hostOut, own, out, 0x2d, second, third, 0xc3, q);
    SetupInCodes(p, was, mid, msgLen, left, device.code.delivered, device.descriptors, pending, rval, app);
    ContinuesMeans(mid, device.code.tr, more);
    SettingsInCodes(before, p, addr);
    InterfaceInCodes(p);
    ReplyInCodes(device.descriptors, device.code.delivered);
  }

  lemma ContinuesMeans(before: Transfer, tr: Transfer, wanted: bool)
    requires Continues(before, tr, wanted)
    ensures tr.tag == before.tag && tr.kind == before.kind && tr.begun == before.begun && tr.limit == before.limit
    ensures tr.built == before.built + if wanted then 1 else 0
    ensures tr.kind.Canned? ==> tr.reply == before.reply
  {
  }

  /** The IN for the first block of a reply, with anything else on the line before it. */
  method AsksFirst(device: Device, sender: Loopback.Sender, hostOut: byte, own: seq<byte>, out: byte, third: byte)
    returns (first: seq<byte>, ghost pending: bool)
    requires device.Valid() && device.Resting() && Masked(hostOut) == 0 && Masked(out) == 0 && third as nat % 8 == 0
    requires device.code.tr.kind.Canned? ==> device.code.tr.built == 1
    modifies device.usbRxBuf, device`usbCurrentTok, device`usbRxLen, device`usbRxToken, device`usbInputBufOffset,
             device`usbTxLen, device`usbTxLen1, device`usbDeviceAddr, device`log
    ensures device.Valid() && device.Resting()
    ensures pending ==> device.usbDeviceAddr == device.usbNewDeviceAddr * 2 % 256
    ensures pending && device.code.tr.kind.Canned? ==>
      var reply := device.code.tr.reply; var part := reply[..if |reply| < 8 then |reply| else 8];
      first == DriveAll(out, PacketLevels([0x4b] + part + CheckBytes(part)))
  {
    hide Masked, Device.Valid, Device.S, Device.W, Rested, Device.MsgBytes, Bit4, PacketLevels, DriveAll, CheckBytes;
    device.Preempt();
    pending := device.usbRxLen == 0 && !Bit4(device.usbTxLen);
    HasAddress(device);
    var second := AddressByte(device.usbDeviceAddr / 2);
    ByteOf(device.usbDeviceAddr / 2);
    device.RestingClaimsNothing();
    if pending && device.code.tr.kind.Canned? { FirstBlock(device); }
    first := HostAsks(device, sender, hostOut, own, out, second, third);
  }

  /** ... and the IN behind it, if it is the first, gets the first eight bytes of the
      reply, or all of a shorter one, as DATA1; with that the device has the address that
      a SET_ADDRESS gave it, and not before. */
  method HostBegins(device: Device, sender: Loopback.Sender, hostOut: byte, own: seq<byte>, out: byte,
                    second: byte, third: byte, q: seq<byte>, last: byte)
    returns (answer: seq<byte>, first: seq<byte>, ghost pending: bool, ghost reset: bool, ghost app: AppReply)
    requires device.Valid() && device.Resting() && device.Answering() && !device.code.processing
    requires device.usbRxLen == 0 && Masked(hostOut) == 0 && Masked(out) == 0
    requires 2 * (second as nat % 128) == device.usbDeviceAddr && |q| == 8 && last as nat % 8 == 0
    modifies device, device.usbTxBuf, device.usbTxBuf1, device.usbRxBuf
    ensures device.Valid() && device.Resting() && device.Answering() && !device.code.processing
    ensures answer == DriveAll(out, PacketLevels([0xd2]))
    ensures device.code.delivered == old(device.code.delivered) + [Rx(SetupToken, q)]
    ensures pending && device.code.tr.kind.Canned? ==>
      var reply := device.code.tr.reply; var part := reply[..if |reply| < 8 then |reply| else 8];
      first == DriveAll(out, PacketLevels([0x4b] + part + CheckBytes(part)))
    ensures pending && !reset && q[0] as nat / 32 % 4 == 0 && q[1] == 5 ==>
      && device.usbDeviceAddr == 2 * (q[2] as nat) % 256
      && first == DriveAll(out, PacketLevels([0x4b, 0x00, 0x00]))
  {
    hide Masked, Device.Valid, Device.Resting, Device.Answering, PacketLevels, DriveAll, CheckBytes;
    ghost var left;
    answer, left, reset, app := HostSetsUp(device, sender, hostOut, own, out, second, third, q);
    first, pending := AsksFirst(device, sender, hostOut, own, out, last);
    NoBytes();
    if q[0] as nat / 32 % 4 == 0 && q[1] == 5 {
      assert device.code.tr.reply == [];
      assert [0x4b] + [] + CheckBytes([]) == [0x4b, 0x00, 0x00];
    }
  }

  lemma NoBytes()
    ensures CheckBytes([]) == [0x00, 0x00]
  {
  }

  // ---- other packets ------------------------------------------------------------

  /** A SETUP of another size has no effect; an OUT is for usbFunctionWrite, if the last
      SETUP said so, and for nobody otherwise. When that refuses it and nothing is left
      to be sent, the next IN is answered STALL, 0x1e. */
  method HostGoesOn(device: Device, sender: Loopback.Sender, hostOut: byte, own: seq<byte>, out: byte,
                    pid: byte, second: byte, third: byte, dataPid: byte, q: seq<byte>, last: byte)
    returns (answer: seq<byte>, next: seq<byte>, ghost left: nat, ghost rval: nat)
    requires device.Valid() && device.Resting() && device.Answering() && !device.code.processing
    requires device.usbRxLen == 0 && Masked(hostOut) == 0 && Masked(out) == 0
    requires 2 * (second as nat % 128) == device.usbDeviceAddr && last as nat % 8 == 0
    requires (dataPid == 0xc3 || dataPid == 0x4b) && 1 <= |q| <= 8
    requires pid == 0xe1 || (pid == 0x2d && |q| != 8)
    modifies device, device.usbTxBuf, device.usbTxBuf1, device.usbRxBuf
    ensures device.Valid() && device.Resting() && device.Answering() && !device.code.processing
    ensures answer == DriveAll(out, PacketLevels([0xd2]))
    ensures device.code.tr.tag == old(device.code.tr.tag) && device.code.tr.kind == old(device.code.tr.kind)
    ensures device.code.tr.built <= old(device.code.tr.built) + 1
    ensures left == 255 ==> device.code.tr.built == old(device.code.tr.built)
    ensures if pid == 0xe1 && old(device.code.tr.tag) > 0 && old(device.code.tr.kind) != Canned then
        && device.code.tr.outs == old(device.code.tr.outs) + 1
        && left == (if rval == 0 || rval == 255 then old(device.usbMsgLen) else 0)
        && (rval == 255 && left == 255 && device.usbRxLen == 0 ==> next == DriveAll(out, PacketLevels([0x1e])))
      else
        device.code.tr.outs == old(device.code.tr.outs) && left == old(device.usbMsgLen)
  {
    hide Masked, Device.Valid, Device.Resting, Device.Answering, Continues, Processed, NextAddress, Heeded, IsStandard,
      Bit4, PacketLevels, DriveAll, IsSetup8;
    ghost var was, msgLen, pending := device.code.tr, device.usbMsgLen, !Bit4(device.usbTxLen);
    ghost var p := Rx(if pid == 0x2d then SetupToken else OutToken, q);
    ghost var mid, more, reset, app;
    answer, mid, left, more, reset, rval, app :=
      GivesAndPolls(device, sender, hostOut, own, out, pid, second, third, dataPid, q);
    OutInCodes(p, was, mid, msgLen, left, device.code.delivered, device.descriptors, pending, rval);
    ContinuesOuts(mid, device.code.tr, more);
    HandshakesHaveBit4(0);
    device.PreemptIdle();
    HasAddress(device);
    var addr := AddressByte(device.usbDeviceAddr / 2);
    ByteOf(device.usbDeviceAddr / 2);
    next := HostAsks(device, sender, hostOut, own, out, addr, last);
  }

  lemma ContinuesOuts(before: Transfer, tr: Transfer, wanted: bool)
    requires Continues(before, tr, wanted)
    ensures tr.tag == before.tag && tr.kind == before.kind && tr.outs == before.outs
    ensures tr.built == before.built + if wanted then 1 else 0
  {
  }

  // ---- a whole control-read -------------------------------------------------

  lemma BuiltAlready(device: Device)
    requires device.Valid() && !Bit4(device.usbTxLen)
    ensures device.code.tr.built > 0
  {
    hide Bit4, Wellformed, MailboxOk, Endpoint1Ok, AddressOk, RecordOk, GivenOk, SentOk, Follows, GoodBlock, Setups,
      Ready0;
  }

  lemma LeftOf(device: Device)
    requires device.Resting() && device.code.tr.tag > 0 && device.code.tr.kind.Canned?
    ensures var tr := device.code.tr;
      if device.usbMsgLen == NO_MSG then tr.built == |tr.reply| / 8 + 1 else tr.built <= |tr.reply| / 8
  {
    hide Toggle, GivenFor, UserRw;
  }

  /** usbPoll and then an IN, with anything else on the line around them. Unless a packet
      is taken in, the buffer is free in the end, and one more block has been sent if the
      buffer was free before and something was left. */
  method PollAndAsk(device: Device, sender: Loopback.Sender, hostOut: byte, own: seq<byte>, out: byte, third: byte)
    returns (ghost more: bool)
    requires device.Valid() && device.Resting() && device.Answering() && !device.code.processing
    requires Masked(hostOut) == 0 && Masked(out) == 0 && third as nat % 8 == 0
    modifies device, device.usbTxBuf, device.usbTxBuf1, device.usbRxBuf
    ensures device.Valid() && device.Resting() && device.Answering() && !device.code.processing
    ensures old(device.code.delivered) <= device.code.delivered
    ensures old(device.usbRxLen) > 0 ==> |device.code.delivered| > |old(device.code.delivered)|
    ensures old(device.usbRxLen) == 0 ==> Continues(old(device.code.tr), device.code.tr, more)
    ensures old(device.usbRxLen) == 0 && device.usbRxLen == 0 ==>
      Bit4(device.usbTxLen) && (Bit4(old(device.usbTxLen)) && old(device.usbMsgLen) != NO_MSG ==> more)
  {
    hide Masked, Bit4, Device.Valid, Device.S, Device.W, Rested, Device.MsgBytes, UserRw, Answers, ConfigurationAfter,
      Continues, Processed, NextAddress, IsSetup8, Wellformed, Waiting;
    ghost var mid, left, free, reset, rval, app := device.UsbPoll();
    more := free && left != NO_MSG;
    device.Preempt();
    HasAddress(device);
    var second := AddressByte(device.usbDeviceAddr / 2);
    ByteOf(device.usbDeviceAddr / 2);
    ghost var answer := HostAsks(device, sender, hostOut, own, out, second, third);
    device.PreemptIdle();
  }

  /** How far a reply from memory has got: at least k of its blocks have been built, and
      sent, if the buffer is free. */
  ghost predicate Got(before: Transfer, tr: Transfer, free: bool, k: nat) {
    && tr.tag == before.tag && tr.kind == before.kind && tr.begun == before.begun && tr.reply == before.reply
    && (k > 0 ==> free) && (free || tr.built > 0) && tr.built >= if k <= |tr.reply| / 8 then k else |tr.reply| / 8 + 1
  }

  lemma GotMore(before: Transfer, was: Transfer, wasFree: bool, msgLen: nat, tr: Transfer, more: bool, k: nat)
    requires before.kind.Canned? && Got(before, was, wasFree, k) && Continues(was, tr, more)
    requires if msgLen == NO_MSG then was.built == |was.reply| / 8 + 1 else was.built <= |was.reply| / 8
    requires wasFree && msgLen != NO_MSG ==> more
    ensures Got(before, tr, true, k + 1)
  {
  }

  lemma InMailbox(device: Device)
    requires device.Valid() && !device.code.processing
    ensures Wellformed(device.S())
    ensures device.log.accepted ==
      device.code.delivered + if device.usbRxLen > 0 then [Waiting(device.S())] else []
  {
    hide Bit4, Endpoint0Ok, Endpoint1Ok, AddressOk, RecordOk, GivenOk, Waiting;
  }

  /** A host that polls gets its reply: after at least n / 8 + 1 INs for n bytes, with a
      usbPoll before each, the whole reply has been sent, whatever else is on the line
      meanwhile, unless another packet has been taken in. */
  method HostReads(device: Device, sender: Loopback.Sender, hostOut: byte, own: seq<byte>, out: byte, third: byte,
                   ins: nat)
    requires device.Valid() && device.Resting() && device.Answering() && !device.code.processing
    requires device.usbRxLen == 0 && device.code.tr.tag > 0 && device.code.tr.kind.Canned?
    requires Masked(hostOut) == 0 && Masked(out) == 0 && third as nat % 8 == 0
    requires ins > |device.code.tr.reply| / 8
    modifies device, device.usbTxBuf, device.usbTxBuf1, device.usbRxBuf
    ensures device.Valid() && device.Resting() && device.Answering() && !device.code.processing
    ensures device.log.accepted == old(device.log.accepted) ==>
      && device.code.tr.begun == old(device.code.tr.begun) && device.code.tr.reply == old(device.code.tr.reply)
      && ReplySent(device.log.sent, device.code.tr)
  {
    hide Masked, Bit4, Device.Valid, Device.S, Device.W, Rested, Device.MsgBytes, UserRw, Answers, ConfigurationAfter,
      Continues, Got, Wellformed, Waiting, ReplySent;
    ghost var tr := device.code.tr;
    InMailbox(device);
    if !Bit4(device.usbTxLen) { BuiltAlready(device); }
    assert Got(tr, tr, Bit4(device.usbTxLen), 0) by { GotNone(tr, Bit4(device.usbTxLen)); }
    var i := 0;
    while i < ins
      invariant i <= ins
      invariant device.Valid() && device.Resting() && device.Answering() && !device.code.processing
      invariant old(device.code.delivered) <= device.code.delivered
      invariant device.code.delivered == old(device.code.delivered) && device.usbRxLen == 0 ==>
        Got(tr, device.code.tr, Bit4(device.usbTxLen), i)
    {
      ghost var was, wasFree, msgLen, quiet := device.code.tr, Bit4(device.usbTxLen), device.usbMsgLen,
        device.code.delivered == old(device.code.delivered) && device.usbRxLen == 0;
      if quiet { StillCanned(tr, was, wasFree, i); LeftOf(device); }
      ghost var more := PollAndAsk(device, sender, hostOut, own, out, third);
      if quiet && device.usbRxLen == 0 { GotMore(tr, was, wasFree, msgLen, device.code.tr, more, i); }
      i := i + 1;
    }
    InMailbox(device);
    if device.log.accepted == old(device.log.accepted) {
      GotAll(tr, device.code.tr, Bit4(device.usbTxLen), ins);
      LeftOf(device);
      device.NothingIsLeft();
    }
  }

  lemma GotNone(tr: Transfer, free: bool)
    requires free || tr.built > 0
    ensures Got(tr, tr, free, 0)
  {
  }

  lemma StillCanned(before: Transfer, tr: Transfer, free: bool, k: nat)
    requires before.kind.Canned? && before.tag > 0 && Got(before, tr, free, k)
    ensures tr.kind.Canned? && tr.tag > 0
  {
  }

  lemma GotAll(before: Transfer, tr: Transfer, free: bool, k: nat)
    requires before.kind.Canned? && before.tag > 0 && Got(before, tr, free, k) && k > |before.reply| / 8
    ensures tr.kind.Canned? && tr.tag > 0 && free && tr.built > |tr.reply| / 8
    ensures tr.begun == before.begun && tr.reply == before.reply
  {
  }
}
