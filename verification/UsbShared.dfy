/** The memory the interrupt routine and the C code share, and what one run of the
    interrupt routine (asmcommon.inc) does to it: one received packet, one step. */
module UsbShared {
  import opened Bits

  // Handshakes are kept where lengths are kept, told apart by bit 4.
  const ACK: nat := 0xd2
  const NAK: nat := 0x5a
  const STALL: nat := 0x1e

  const BUFSIZE: nat := 11  // USB_BUFSIZE

  predicate Bit4(x: nat) { x / 16 % 2 == 1 }

  /** All handshake tokens have bit 4 set and no length of a data packet, counted
      with the sync byte, has. */
  lemma HandshakesHaveBit4(payload: nat)
    requires payload <= 8
    ensures Bit4(ACK) && Bit4(NAK) && Bit4(STALL) && !Bit4(payload + 4)
  {
  }

  /** usbCurrentTok and usbRxToken: zero, USBPID_SETUP or USBPID_OUT. */
  datatype Token = NoToken | SetupToken | OutToken

  datatype Shared = Shared(
    rxBuf: seq<byte>,        // two halves of BUFSIZE bytes
    inputBufOffset: nat,     // the half the receive loop writes to
    rxLen: nat,              // 0: no packet waiting for the C code
    currentTok: Token,       // last token addressed to this device
    rxToken: Token,
    txLen: nat, txBuf: seq<byte>,      // endpoint 0
    txLen1: nat, txBuf1: seq<byte>,    // endpoint 1
    deviceAddr: nat,         // shifted left by one
    newDeviceAddr: nat)

  /** What the receive loop hands over: the bytes it stored, and whether the packet
      ended by then or overran the buffer. */
  datatype Reception = Whole(bytes: seq<byte>) | Overrun(bytes: seq<byte>) {
    predicate Valid() { |bytes| <= BUFSIZE }
  }

  /** A data packet as usbProcessRx sees it: the token before it and its payload. */
  datatype Rx = Rx(token: Token, data: seq<byte>)

  datatype Reply = Silent | Handshake(pid: nat) | DataPacket(endpoint: nat, bytes: seq<byte>)

  datatype Turn = Turn(s: Shared, reply: Reply, accepted: seq<Rx>)

  predicate Length(x: nat) { (Bit4(x) && x < 256) || 4 <= x <= 12 }

  predicate Wellformed(s: Shared) {
    && |s.rxBuf| == 2 * BUFSIZE && |s.txBuf| == BUFSIZE && |s.txBuf1| == BUFSIZE
    && (s.inputBufOffset == 0 || s.inputBufOffset == BUFSIZE)
    && (s.rxLen == 0 || 4 <= s.rxLen <= BUFSIZE)
    && Length(s.txLen) && Length(s.txLen1)
  }

  // ---- reading a packet --------------------------------------------------

  datatype Pid = Data | In | Setup | Out | Other

  datatype Head = Head(pid: Pid, addr: nat, endpoint0: bool)

  function PidOf(b: byte): Pid {
    if b == 0xc3 || b == 0x4b then Data
    else if b == 0x69 then In
    else if b == 0x2d then Setup
    else if b == 0xe1 then Out
    else Other
  }

  /** `lsl`: the address, still shifted; the bit shifted out is the endpoint's lowest. */
  function ShiftedAddress(second: byte): nat { (second << 1) as nat }

  function EndpointOf(second: byte, third: byte): byte { ((third << 1) | (second >> 7)) & 0x0f }

  function HeadOf(first: byte, second: byte, third: byte): Head {
    Head(PidOf(first), ShiftedAddress(second), EndpointOf(second, third) == 0)
  }

  function HeadAt(buf: seq<byte>, off: nat): Head
    requires off + 2 < |buf|
  {
    HeadOf(buf[off], buf[off + 1], buf[off + 2])
  }

  function Stored<T>(buf: seq<T>, off: nat, bytes: seq<T>): (r: seq<T>)
    requires off + |bytes| <= |buf|
    ensures |r| == |buf|
  {
    buf[..off] + bytes + buf[off + |bytes|..]
  }

  lemma StoredThere<T>(buf: seq<T>, off: nat, bytes: seq<T>, i: nat, j: nat)
    requires off + |bytes| <= |buf| && i <= j <= |bytes|
    ensures Stored(buf, off, bytes)[off + i..off + j] == bytes[i..j]
  {
  }

  lemma StoredElsewhere<T>(buf: seq<T>, off: nat, bytes: seq<T>, i: nat, j: nat)
    requires off + |bytes| <= |buf| && i <= j <= |buf| && (j <= off || off + |bytes| <= i)
    ensures Stored(buf, off, bytes)[i..j] == buf[i..j]
  {
  }

  // ---- one packet --------------------------------------------------------

  function HandleData(s: Shared, cnt: nat): Turn
    requires Wellformed(s) && cnt <= BUFSIZE
  {
    if s.currentTok == NoToken then Turn(s, Silent, [])
    else if s.rxLen != 0 then Turn(s, Handshake(NAK), [])
    else if cnt < 4 then Turn(s, Handshake(ACK), [])
    else
      var off := s.inputBufOffset;
      Turn(s.(rxLen := cnt, rxToken := s.currentTok, inputBufOffset := BUFSIZE - off),
           Handshake(ACK), [Rx(s.currentTok, s.rxBuf[off + 1..off + cnt - 2])])
  }

  function HandleIn(s: Shared, endpoint0: bool): Turn
    requires Wellformed(s)
  {
    if s.rxLen >= 1 then Turn(s, Handshake(NAK), [])
    else if endpoint0 then
      if Bit4(s.txLen) then Turn(s, Handshake(s.txLen), [])
      else Turn(s.(txLen := NAK, deviceAddr := s.newDeviceAddr * 2 % 256),
                DataPacket(0, s.txBuf[..s.txLen - 1]), [])
    else
      if Bit4(s.txLen1) then Turn(s, Handshake(s.txLen1), [])
      else Turn(s.(txLen1 := NAK, deviceAddr := s.newDeviceAddr * 2 % 256),
                DataPacket(1, s.txBuf1[..s.txLen1 - 1]), [])
  }

  /** se0, once the packet is in the buffer and its head has been read. */
  function HandleWhole(s: Shared, cnt: nat, head: Head): Turn
    requires Wellformed(s) && cnt <= BUFSIZE
  {
    if head.pid == Data then HandleData(s, cnt)
    else if head.addr != s.deviceAddr then Turn(s.(currentTok := NoToken), Silent, [])
    else match head.pid
      case In => HandleIn(s, head.endpoint0)
      case Setup => Turn(s.(currentTok := SetupToken), Silent, [])
      case Out => Turn(s.(currentTok := OutToken), Silent, [])
      case _ => Turn(s.(currentTok := NoToken), Silent, [])
  }

  function Arrived(s: Shared, bytes: seq<byte>): (t: Shared)
    requires Wellformed(s) && |bytes| <= BUFSIZE
    ensures Wellformed(t)
  {
    s.(rxBuf := Stored(s.rxBuf, s.inputBufOffset, bytes))
  }

  /** A packet shorter than a token is judged by what an earlier packet left in the
      buffer behind it: the routine reads three bytes whatever `cnt` says. */
  function Interrupt(s: Shared, r: Reception): Turn
    requires Wellformed(s) && r.Valid()
  {
    var t := Arrived(s, r.bytes);
    if r.Overrun? then Turn(t.(currentTok := NoToken), Silent, [])
    else HandleWhole(t, |r.bytes|, HeadAt(t.rxBuf, t.inputBufOffset))
  }

  /** The packet waiting in the half that is not being received into. */
  function Waiting(s: Shared): Rx
    requires Wellformed(s) && s.rxLen > 0
  {
    Rx(s.rxToken, s.rxBuf[BUFSIZE - s.inputBufOffset + 1..BUFSIZE - s.inputBufOffset + s.rxLen - 2])
  }

  /** What the C code can rely on however many packets come in between: a waiting
      packet stays as it is, blocks all sending and freezes the length words; a length
      word with bit 4 set stays; the transmit buffers are only read. */
  ghost predicate Steady(s: Shared, t: Shared) {
    && Wellformed(s) && Wellformed(t)
    && (s.rxLen > 0 ==> t.rxLen == s.rxLen && Waiting(t) == Waiting(s) && t.rxToken == s.rxToken
                        && t.inputBufOffset == s.inputBufOffset && t.txLen == s.txLen && t.txLen1 == s.txLen1)
    && (Bit4(s.txLen) ==> t.txLen == s.txLen)
    && (Bit4(s.txLen1) ==> t.txLen1 == s.txLen1)
    && t.txBuf == s.txBuf && t.txBuf1 == s.txBuf1 && t.newDeviceAddr == s.newDeviceAddr
  }

  lemma SteadyTrans(s: Shared, t: Shared, u: Shared)
    requires Steady(s, t) && Steady(t, u)
    ensures Steady(s, u)
  {
    hide Bit4, Wellformed;
  }

  lemma ArrivingIsSteady(s: Shared, bytes: seq<byte>)
    requires Wellformed(s) && |bytes| <= BUFSIZE
    ensures Steady(s, Arrived(s, bytes))
  {
    hide Bit4, Stored;
    if s.rxLen > 0 {
      var half := BUFSIZE - s.inputBufOffset;
      StoredElsewhere(s.rxBuf, s.inputBufOffset, bytes, half + 1, half + s.rxLen - 2);
    }
  }

  lemma DataIsSteady(s: Shared, cnt: nat)
    requires Wellformed(s) && cnt <= BUFSIZE
    ensures Steady(s, HandleData(s, cnt).s)
  {
    hide Bit4, Length;
  }

  lemma InIsSteady(s: Shared, endpoint0: bool)
    requires Wellformed(s)
    ensures Steady(s, HandleIn(s, endpoint0).s)
  {
    hide Bit4;
    HandshakesHaveBit4(0);
  }

  lemma HandlingIsSteady(s: Shared, cnt: nat, head: Head)
    requires Wellformed(s) && cnt <= BUFSIZE
    ensures Steady(s, HandleWhole(s, cnt, head).s)
  {
    hide Bit4, HandleData, HandleIn, Length;
    DataIsSteady(s, cnt);
    InIsSteady(s, head.endpoint0);
  }

  /** No packet received disturbs what the C code relies on. */
  lemma SteadyTurn(s: Shared, r: Reception)
    requires Wellformed(s) && r.Valid()
    ensures Steady(s, Interrupt(s, r).s)
  {
    hide Bit4, Stored, HeadAt, HandleWhole;
    ArrivingIsSteady(s, r.bytes);
    var t := Arrived(s, r.bytes);
    if r.Whole? { HandlingIsSteady(t, |r.bytes|, HeadAt(t.rxBuf, t.inputBufOffset)); }
    SteadyTrans(s, t, Interrupt(s, r).s);
  }

  lemma LengthOfNak()
    ensures Length(NAK)
  {
  }

  /** The mailbox: a packet is taken in only when none is waiting; it is then the
      waiting one, exactly its payload, and it has been acknowledged. */
  lemma MailboxTurn(s: Shared, r: Reception)
    requires Wellformed(s) && r.Valid()
    ensures Wellformed(Interrupt(s, r).s)
    ensures var t := Interrupt(s, r);
      if s.rxLen == 0 && t.s.rxLen > 0 then
        && r.Whole? && t.reply == Handshake(ACK) && |r.bytes| >= 4
        && t.accepted == [Waiting(t.s)]
        && Waiting(t.s) == Rx(s.currentTok, r.bytes[1..|r.bytes| - 2])
      else t.accepted == []
  {
    hide Bit4, Stored, HeadAt, Length;
    HandshakesHaveBit4(0);
    assert Length(NAK) by { LengthOfNak(); }
    if |r.bytes| >= 4 { StoredThere(s.rxBuf, s.inputBufOffset, r.bytes, 1, |r.bytes| - 2); }
  }

  /** The answer to a data packet for this device: NAK exactly if one is waiting, and
      otherwise ACK, also to the empty ones that are not kept. */
  lemma AnswerToData(s: Shared, r: Reception)
    requires Wellformed(s) && r.Whole? && r.Valid() && r.bytes != [] && PidOf(r.bytes[0]) == Data
    ensures Interrupt(s, r).reply ==
      if s.currentTok == NoToken then Silent else if s.rxLen > 0 then Handshake(NAK) else Handshake(ACK)
    ensures Interrupt(s, r).accepted == [] <==> s.currentTok == NoToken || s.rxLen > 0 || |r.bytes| < 4
    ensures Interrupt(s, r).s.currentTok == s.currentTok
  {
    hide Bit4, Stored, PidOf, ShiftedAddress, EndpointOf;
    StoredThere(s.rxBuf, s.inputBufOffset, r.bytes, 0, 1);
    var buf := Stored(s.rxBuf, s.inputBufOffset, r.bytes);
    assert buf[s.inputBufOffset..s.inputBufOffset + 1][0] == r.bytes[0..1][0];
  }

  /** The address is assigned only by sending a data packet, and then it is the new
      one; no handshake and no packet received does it. */
  lemma AddressTurn(s: Shared, r: Reception)
    requires Wellformed(s) && r.Valid()
    ensures var t := Interrupt(s, r);
      && t.s.newDeviceAddr == s.newDeviceAddr
      && t.s.deviceAddr == if t.reply.DataPacket? then s.newDeviceAddr * 2 % 256 else s.deviceAddr
  {
    hide Bit4, Stored, HeadAt;
  }

  /** A data packet is sent only from a buffer whose length word is a length and while
      no received packet waits; it is the buffer's contents, and sending it turns the
      length word into NAK. Length words are not touched otherwise. */
  lemma SendingTurn(s: Shared, r: Reception)
    requires Wellformed(s) && r.Valid()
    ensures var t := Interrupt(s, r);
      match t.reply
      case DataPacket(endpoint, bytes) =>
        && s.rxLen == 0 && t.s.rxLen == 0
        && (endpoint == 0 ==>
             !Bit4(s.txLen) && bytes == s.txBuf[..s.txLen - 1] && t.s.txLen == NAK && t.s.txLen1 == s.txLen1)
        && (endpoint != 0 ==>
             !Bit4(s.txLen1) && bytes == s.txBuf1[..s.txLen1 - 1] && t.s.txLen1 == NAK && t.s.txLen == s.txLen)
      case _ => t.s.txLen == s.txLen && t.s.txLen1 == s.txLen1
  {
    hide Bit4, Stored, HeadAt;
  }

  /** Tokens for other addresses get no answer: only a data packet, whose token came
      before it, is answered without carrying the address. */
  lemma OnlyItsAddress(s: Shared, r: Reception)
    requires Wellformed(s) && r.Whole? && r.Valid() && |r.bytes| >= 3
    requires PidOf(r.bytes[0]) != Data && ShiftedAddress(r.bytes[1]) != s.deviceAddr
    ensures var t := Interrupt(s, r); t.reply == Silent && t.accepted == [] && t.s.currentTok == NoToken
  {
    hide Bit4, Stored, PidOf, ShiftedAddress, EndpointOf;
    StoredThere(s.rxBuf, s.inputBufOffset, r.bytes, 0, 2);
    var buf := Stored(s.rxBuf, s.inputBufOffset, r.bytes);
    var two := buf[s.inputBufOffset..s.inputBufOffset + 2];
    assert two[0] == r.bytes[0..2][0] && two[1] == r.bytes[0..2][1];
  }

  /** A token for this device says what the next data packet is; anything else but a
      data packet makes it nobody's. An IN leaves it as it was, and only an IN is
      answered. */
  lemma TokenTurn(s: Shared, r: Reception)
    requires Wellformed(s) && r.Whole? && r.Valid() && |r.bytes| >= 3
    requires PidOf(r.bytes[0]) != Data && ShiftedAddress(r.bytes[1]) == s.deviceAddr
    ensures Interrupt(s, r).s.currentTok ==
      match PidOf(r.bytes[0])
      case Setup => SetupToken
      case Out => OutToken
      case In => s.currentTok
      case _ => NoToken
    ensures Interrupt(s, r).accepted == [] && (PidOf(r.bytes[0]) != In ==> Interrupt(s, r).reply == Silent)
  {
    hide Bit4, Stored, PidOf, ShiftedAddress, EndpointOf;
    StoredThere(s.rxBuf, s.inputBufOffset, r.bytes, 0, 2);
    var buf := Stored(s.rxBuf, s.inputBufOffset, r.bytes);
    var two := buf[s.inputBufOffset..s.inputBufOffset + 2];
    assert two[0] == r.bytes[0..2][0] && two[1] == r.bytes[0..2][1];
  }

  /** An IN for this device is answered by NAK while a packet waits and otherwise from
      the buffer of its endpoint: the data if there are any, the handshake kept in their
      place if not. */
  lemma AnswerToIn(s: Shared, r: Reception)
    requires Wellformed(s) && r.Whole? && r.Valid() && |r.bytes| >= 3
    requires PidOf(r.bytes[0]) == In && ShiftedAddress(r.bytes[1]) == s.deviceAddr
    ensures Interrupt(s, r).reply ==
      if s.rxLen > 0 then Handshake(NAK)
      else if EndpointOf(r.bytes[1], r.bytes[2]) == 0 then
        if Bit4(s.txLen) then Handshake(s.txLen) else DataPacket(0, s.txBuf[..s.txLen - 1])
      else
        if Bit4(s.txLen1) then Handshake(s.txLen1) else DataPacket(1, s.txBuf1[..s.txLen1 - 1])
  {
    hide Bit4, Stored, PidOf, ShiftedAddress, EndpointOf;
    StoredThere(s.rxBuf, s.inputBufOffset, r.bytes, 0, 3);
    var buf := Stored(s.rxBuf, s.inputBufOffset, r.bytes);
    var three, same := buf[s.inputBufOffset..s.inputBufOffset + 3], r.bytes[0..3];
    assert three[0] == same[0] && three[1] == same[1] && three[2] == same[2];
  }
}
