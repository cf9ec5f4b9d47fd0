/** What the driver's C code and its interrupt routine work with: replies on the line
    and what is left of a transfer. */
module UsbRequests {
  import opened Bits
  import opened LineCoding
  import opened LinePort
  import opened LineDriving
  import opened UsbControl
  import opened UsbShared
  import opened UsbHistory
  import opened UsbSteps
  import Transmit16
  import Crc16

  // ---- what a reply looks like on the port -------------------------------

  function PidByte(pid: nat): byte
    requires pid < 256
  {
    pid as byte
  }

  predicate Sendable(reply: Reply) {
    match reply
    case Silent => true
    case Handshake(pid) => pid < 256
    case DataPacket(_, bytes) => 3 <= |bytes| <= BUFSIZE
  }

  ghost function OnTheLine(out: byte, reply: Reply): seq<byte>
    requires Sendable(reply)
  {
    match reply
    case Silent => []
    case Handshake(pid) => DriveAll(out, PacketLevels([PidByte(pid)]))
    case DataPacket(_, bytes) => DriveAll(out, PacketLevels(bytes))
  }

  lemma RepliesAreSendable(s: Shared, cnt: nat, head: Head)
    requires Wellformed(s) && cnt <= BUFSIZE
    ensures Sendable(HandleWhole(s, cnt, head).reply)
  {
    hide Bit4;
  }

  const RAM: nat := 0x60  // the lowest SRAM address; the registers are below

  /** usbSendAndReti, with the handshake in register 20 or the data in SRAM. */
  method SendReply(reply: Reply, out: byte) returns (trace: seq<byte>, assignAddress: bool)
    requires Sendable(reply) && Masked(out) == 0
    ensures trace == OnTheLine(out, reply) && (assignAddress <==> reply.DataPacket?)
  {
    hide Masked, PacketLevels, DriveAll, PidByte;
    match reply {
      case Silent => return [], false;
      case Handshake(pid) =>
        var ram := seq(20, i => 0) + [PidByte(pid), 0];
        assert ram[20..21] == [PidByte(pid)];
        trace, assignAddress := Transmit16.Send(out, ram, 20, 2, 0, false);
      case DataPacket(_, bytes) =>
        var ram := seq(RAM, i => 0) + bytes + [0];
        assert ram[RAM..RAM + |bytes|] == bytes;
        trace, assignAddress := Transmit16.Send(out, ram, RAM, |bytes| + 1, 0, false);
    }
  }

  ghost function ReceptionOf(bytes: seq<byte>): Reception {
    if |bytes| <= BUFSIZE then Whole(bytes) else Overrun(bytes[..BUFSIZE])
  }

  // ---- a transfer under way -------------------------------------------------

  /** usbMsgPtr: data that stays where it is, the end of usbTxBuf, usbConfiguration. */
  datatype Pointer = Fixed(bytes: seq<byte>) | Spare | Configuration

  /** What usbFunctionSetup answers: USB_NO_MSG, or data at usbMsgPtr. */
  datatype AppReply = UseReadWrite | Here(bytes: seq<byte>)

  /** What usbFunctionSetup answered has been heeded; standard requests do not reach it. */
  ghost predicate Heeded(q: seq<byte>, app: AppReply, tr: Transfer)
    requires |q| == 8
  {
    Standard(q[0]) ||
    match app
    case UseReadWrite => tr.kind == if DeviceToHost(q[0]) then UserRead else UserWrite
    case Here(bytes) =>
      |bytes| < NO_MSG && tr.kind == Canned && tr.reply == Limited(bytes, Num(q[6]), IsZero(q[7]))
  }

  predicate UserRw(flags: byte) { flags & 0x80 != 0 }

  lemma FlagValues()
    ensures !UserRw(0) && !UserRw(0x40) && UserRw(0x80)
  {
  }

  /** Through the work on one received packet that packet stays as it is. */
  ghost predicate SameMail(s: Shared, t: Shared) {
    && Wellformed(s) && Wellformed(t) && s.rxLen > 0 && t.rxLen == s.rxLen
    && Waiting(t) == Waiting(s) && t.rxToken == s.rxToken && t.inputBufOffset == s.inputBufOffset
  }

  lemma WaitingByte(s: Shared, k: nat)
    requires Wellformed(s) && s.rxLen > 0 && k < s.rxLen - 3
    ensures |Waiting(s).data| == s.rxLen - 3
    ensures s.rxBuf[BUFSIZE - s.inputBufOffset + 1 + k] == Waiting(s).data[k]
  {
  }

  lemma WaitingSize(s: Shared)
    requires Wellformed(s) && s.rxLen > 0
    ensures |Waiting(s).data| == s.rxLen - 3
  {
  }

  lemma ProcessedLast(w: World, c: Code)
    requires Inv(w, c) && c.processing
    ensures Wellformed(w.s) && w.s.rxLen > 0 && c.delivered != []
    ensures c.delivered[|c.delivered| - 1] == Waiting(w.s)
  {
  }

  lemma RxInBounds(s: Shared, k: nat)
    requires Wellformed(s) && s.rxLen > 0 && k < s.rxLen - 3
    ensures BUFSIZE - s.inputBufOffset + 1 + k < |s.rxBuf|
  {
  }

  lemma SteadyFrozen(s: Shared, t: Shared)
    requires Steady(s, t) && s.rxLen > 0
    ensures SameMail(s, t) && t.txLen == s.txLen && t.txLen1 == s.txLen1
  {
  }

  /** What is still to be sent of a transfer: the end of the reply, which usbMsgPtr
      points at, or the empty packet that confirms the host's data. */
  ghost predicate Left(tr: Transfer, msgLen: nat, bytes: seq<byte>, fixed: bool) {
    match tr.kind
    case Canned =>
      && 8 * tr.built <= |tr.reply| && msgLen == |tr.reply| - 8 * tr.built
      && msgLen <= |bytes| && bytes[..msgLen] == tr.reply[8 * tr.built..]
      && (!fixed ==> msgLen <= 2)
    case UserWrite => msgLen == 0 && tr.outs > 0
    case UserRead => msgLen + |tr.reply| <= tr.limit
  }

  lemma LeftAtStart(tr: Transfer, msgLen: nat, bytes: seq<byte>, fixed: bool)
    requires tr.built == 0 && !tr.kind.UserWrite?
    requires tr.kind.Canned? ==> msgLen <= |bytes| && bytes[..msgLen] == tr.reply && (!fixed ==> msgLen <= 2)
    requires tr.kind.UserRead? ==> tr.reply == [] && msgLen <= tr.limit
    ensures Left(tr, msgLen, bytes, fixed)
  {
    assert tr.reply[0..] == tr.reply;
  }

  lemma LeftToConfirm(before: Transfer, tr: Transfer, was: nat, msgLen: nat, bytes: seq<byte>, fixed: bool)
    requires tr.kind == before.kind && !tr.kind.Canned? && tr.outs > 0
    requires tr.reply == before.reply && tr.limit == before.limit && (tr.kind.UserRead? ==> |tr.reply| <= tr.limit)
    requires was != NO_MSG ==> Left(before, was, bytes, fixed)
    requires msgLen == was || msgLen == 0
    ensures msgLen != NO_MSG ==> Left(tr, msgLen, bytes, fixed)
  {
  }

  /** The tokens in the buffers are the ones last used, and usbMsgLen, the flags and
      usbMsgPtr say what is left of the transfer. */
  ghost predicate Rested(c: Code, token0: byte, token1: byte, msgLen: nat, rw: bool, bytes: seq<byte>, fixed: bool) {
    && !c.writing0 && !c.writing1 && token1 == Toggle(c.count1) && msgLen <= NO_MSG
    && (c.tr.tag == 0 ==> msgLen == NO_MSG && !rw)
    && (c.tr.tag > 0 ==> token0 == Toggle(c.tr.built + 1) && (rw <==> !c.tr.kind.Canned?))
    && (c.tr.tag > 0 && c.tr.kind.Canned? ==>
         c.tr.dropped == 0 && (msgLen == NO_MSG ==> c.tr.built == |c.tr.reply| / 8 + 1))
    && (c.tr.kind.UserRead? ==> |c.tr.reply| <= c.tr.limit && c.tr.reply == GivenFor(c.fetched, c.tr.tag))
    && (msgLen != NO_MSG ==> Left(c.tr, msgLen, bytes, fixed))
  }

  /** An OUT packet handed to usbFunctionWrite, counted, and if need be confirmed. */
  lemma RestedConfirmed(before: Code, c: Code, token0: byte, token1: byte, was: nat, msgLen: nat, bytes: seq<byte>,
                        fixed: bool, dropped: bool)
    requires Rested(before, token0, token1, was, true, bytes, fixed) && (msgLen == was || msgLen == 0)
    requires c == before.(tr := Stopped(before.tr.(outs := before.tr.outs + 1), dropped))
    ensures Rested(c, token0, token1, msgLen, true, bytes, fixed)
  {
    hide Left, Toggle, GivenFor;
    if msgLen != NO_MSG { LeftToConfirm(before.tr, c.tr, was, msgLen, bytes, fixed); }
  }

  lemma Asked(tr: Transfer, msgLen: nat, bytes: seq<byte>, fixed: bool)
    requires Left(tr, msgLen, bytes, fixed)
    ensures tr.kind.Canned? ==> msgLen <= |bytes| && (!fixed ==> msgLen <= 2)
    ensures tr.kind.UserWrite? ==> msgLen == 0
  {
  }

  /** One block further: it is the next slice of the reply, and what is left then is
      the rest of it. */
  lemma NextBlock(d: Descriptors, tr: Transfer, msgLen: nat, bytes: seq<byte>, fixed: bool, payload: seq<byte>)
    requires Left(tr, msgLen, bytes, fixed) && Answers(d, tr) && (tr.kind.Canned? ==> tr.dropped == 0)
    requires var want := if msgLen > 8 then 8 else msgLen;
      |payload| <= want && (tr.kind.Canned? ==> want <= |bytes| && payload == bytes[..want])
    ensures GoodBlock(d, Block(tr, payload))
    ensures |payload| == 8 ==> !tr.kind.UserWrite? && (tr.kind.Canned? ==> fixed && |bytes| >= 8)
    ensures |payload| == 8 ==>
      Left(Built(Block(tr, payload), tr.outs), msgLen - 8, if tr.kind.Canned? then bytes[8..] else bytes, fixed)
    ensures |payload| < 8 && tr.kind.Canned? ==> tr.built == |tr.reply| / 8
  {
    hide Answers;
    if tr.kind.Canned? {
      var n := |tr.reply| - 8 * tr.built;
      assert payload == bytes[..n][..|payload|];
      assert Slice(tr.reply, tr.built) == tr.reply[8 * tr.built..][..|payload|];
      if |payload| == 8 {
        assert bytes[8..][..n - 8] == bytes[..n][8..];
        assert tr.reply[8 * tr.built..][8..] == tr.reply[8 * tr.built + 8..];
      }
    }
  }

  lemma CheckSize(payload: seq<byte>)
    ensures |Crc16.CheckBytes(payload)| == 2
  {
  }

  /** `^= USBPID_DATA0 ^ USBPID_DATA1`. */
  function OtherToken(token: byte): byte { token ^ 0x88 }

  lemma ToggleFlips(n: nat)
    ensures OtherToken(Toggle(n + 1)) == Toggle(n) && Toggle(n + 2) == Toggle(n)
  {
  }

  lemma SteadyMail(s: Shared, t: Shared)
    requires Steady(s, t)
    ensures s.rxLen > 0 ==> SameMail(s, t)
  {
  }

  lemma InvWellformed(w: World, c: Code)
    requires Inv(w, c)
    ensures Wellformed(w.s)
  {
  }

  lemma GrownSelf(w: World)
    requires Wellformed(w.s)
    ensures Grown(w, w)
  {
    SteadySelf(w.s);
  }

  lemma SilenceIsSendable()
    ensures Sendable(Silent)
  {
  }

  lemma Spliced<T>(before: seq<T>, buf: seq<T>, off: nat, y: nat)
    requires off <= y <= |buf| == |before|
    requires forall k :: (0 <= k < off || y <= k < |buf|) ==> buf[k] == before[k]
    ensures buf == Stored(before, off, buf[off..y])
  {
  }

  lemma Prefix<T>(buf: seq<T>, off: nat, y: nat, bytes: seq<T>)
    requires off <= y <= |buf| && y - off <= |bytes|
    requires forall k :: 0 <= k < y - off ==> buf[off + k] == bytes[k]
    ensures buf[off..y] == bytes[..y - off]
  {
  }

  lemma MessageWaits(w: World, c: Code)
    requires Inv(w, c) && !Bit4(w.s.txLen1) && !c.writing1
    ensures c.count1 > 0
  {
  }

  lemma RepeatedMeansSplit(w: World, c: Code)
    requires Inv(w, c) && !Bit4(w.s.txLen1) && !c.writing1
    ensures w.log.message.repeated ==> c.split
  {
  }

  lemma PacketHead(token: byte, payload: seq<byte>)
    ensures PacketBytes(token, payload)[0] == token
  {
  }

  /** The block built is the next slice of the reply, ready to be sent, and the message
      is over exactly if it was a short one. */
  ghost predicate NextSlice(before: Transfer, b: Block, txLen: nat, msgLen: nat) {
    && 8 * before.built <= |before.reply| && b == Block(before, Slice(before.reply, before.built))
    && txLen == |b.payload| + 4 && (msgLen == NO_MSG <==> |b.payload| < 8)
  }

  lemma BlockLeaves(d: Descriptors, tr: Transfer, msgLen: nat, left: seq<byte>, fixed: bool, payload: seq<byte>,
                    bytes: seq<byte>, fixedNow: bool, txLen: nat)
    requires Left(tr, msgLen, left, fixed) && msgLen < NO_MSG && txLen == |payload| + 4
    requires Answers(d, tr) && (tr.kind.Canned? ==> tr.dropped == 0)
    requires var want := if msgLen > 8 then 8 else msgLen;
      |payload| <= want && (tr.kind.Canned? ==> want <= |left| && payload == left[..want])
    requires tr.kind.Canned? && |payload| == 8 ==> fixed == fixedNow && bytes == left[8..]
    ensures var next, now := if |payload| < 8 then NO_MSG else msgLen - 8, Built(Block(tr, payload), tr.outs);
      && (next != NO_MSG ==> Left(now, next, bytes, fixedNow))
      && (tr.kind.Canned? && next == NO_MSG ==> now.built == |now.reply| / 8 + 1)
      && (tr.kind.UserRead? ==> |now.reply| <= now.limit)
      && (tr.kind.Canned? ==> NextSlice(tr, Block(tr, payload), txLen, next))
  {
    hide Answers;
    NextBlock(d, tr, msgLen, left, fixed, payload);
  }

  lemma BuiltKeeps(b: Block, outs: nat)
    ensures var tr := Built(b, outs);
      && tr.tag == b.tr.tag && tr.kind == b.tr.kind && tr.begun == b.tr.begun && tr.limit == b.tr.limit
      && tr.outs == outs && tr.built == b.tr.built + 1 && tr.dropped == b.tr.dropped
      && (!b.tr.kind.UserRead? ==> tr.reply == b.tr.reply)
  {
  }

  /** One block further in a transfer: what is on offer is that block, or, if the
      application reported an error, a stall. */
  ghost predicate OneBlock(before: Transfer, tr: Transfer, block: Block, txLen: nat) {
    if txLen == STALL then before.kind.UserRead? && tr == Failed(before)
    else block.tr == before && tr == Built(block, before.outs)
  }

  /** What usbFunctionRead has given for the transfer under way since. */
  ghost predicate Fetched(before: Code, c: Code, given: seq<byte>) {
    && before.fetched <= c.fetched
    && GivenFor(c.fetched, before.tr.tag) == GivenFor(before.fetched, before.tr.tag) + given
  }

  /** What an 8-byte SETUP begins: a transfer that is what it asks for, of which nothing
      has been sent, and usbMsgLen is the length of the reply, or what a read by
      usbFunctionRead may give; a write has nothing to send yet. */
  ghost predicate Begun(before: Transfer, tr: Transfer, msgLen: nat, rxs: seq<Rx>, d: Descriptors) {
    && tr.tag == before.tag + 1 && tr.begun == rxs && Answers(d, tr)
    && tr.built == 0 && tr.outs == 0 && tr.dropped == 0
    && msgLen == match tr.kind
                 case Canned => |tr.reply|
                 case UserRead => tr.limit
                 case UserWrite => NO_MSG
  }

  /** The same transfer, at most one block further. */
  ghost predicate Continues(before: Transfer, tr: Transfer, wanted: bool) {
    && tr.tag == before.tag && tr.kind == before.kind && tr.begun == before.begun && tr.limit == before.limit
    && tr.outs == before.outs && (!before.kind.UserRead? ==> tr.reply == before.reply)
    && tr.built == before.built + (if wanted then 1 else 0)
    && (if before.kind.UserRead? && wanted then before.dropped <= tr.dropped <= before.dropped + 1
        else tr.dropped == before.dropped)
  }

  lemma OneBlockContinues(before: Transfer, tr: Transfer, block: Block, txLen: nat)
    requires OneBlock(before, tr, block, txLen)
    ensures Continues(before, tr, true)
  {
  }

  lemma ContinuesAnswers(d: Descriptors, before: Transfer, tr: Transfer, wanted: bool)
    requires Continues(before, tr, wanted)
    ensures Answers(d, before) ==> Answers(d, tr)
  {
    hide Answers;
    if Answers(d, before) { AnswersStill(d, before, tr); }
  }

  /** What an OUT packet does to a transfer served by usbFunctionWrite; `pending` says
      that a packet was yet to be sent. */
  ghost predicate Confirmed(before: Transfer, tr: Transfer, was: nat, msgLen: nat, rval: nat, pending: bool) {
    && tr == Stopped(before.(outs := before.outs + 1), pending && rval == 255)
    && msgLen == if rval == 0 || rval == 255 then was else 0
  }

  /** The packet is one for usbFunctionWrite. */
  ghost predicate IsForApp(p: Rx, before: Transfer) {
    p.token != SetupToken && before.tag > 0 && !before.kind.Canned?
  }

  /** What one packet handed to usbProcessRx does to the transfer under way; `rval` is
      what usbFunctionWrite returned for it, if it got it. */
  ghost predicate Processed(p: Rx, before: Transfer, tr: Transfer, was: nat, msgLen: nat, rxs: seq<Rx>,
                            d: Descriptors, pending: bool, rval: nat) {
    if IsSetup8(p) then Begun(before, tr, msgLen, rxs, d)
    else if IsForApp(p, before) then Confirmed(before, tr, was, msgLen, rval, pending)
    else tr == before && msgLen == was
  }

  /** A transfer settled as usbProcessRx does it is what its SETUP asks for. */
  lemma SetupAnswered(d: Descriptors, rxs: seq<Rx>, q: seq<byte>, configuration: byte, tr: Transfer)
    requires d.Valid() && |q| == 8 && rxs != [] && rxs[|rxs| - 1] == Rx(SetupToken, q) && tr.begun == rxs
    requires Setups(rxs) == tr.tag && configuration == ConfigurationAfter(rxs) && tr.limit == Num(q[6])
    requires Standard(q[0]) ==> tr.kind.Canned?
    requires tr.kind.Canned? ==> exists reply ::
      (Standard(q[0]) ==> reply == StandardReply(q, d, configuration))
      && tr.reply == Limited(reply, Num(q[6]), IsZero(q[7]))
    requires tr.kind.UserRead? ==> DeviceToHost(q[0])
    requires tr.kind.UserWrite? ==> !DeviceToHost(q[0])
    ensures Answers(d, tr)
  {
    hide Setups, ConfigurationAfter, Num, IsZero, Standard, DeviceToHost, Descriptors.Valid, StandardReply;
  }

  /** Later in the transfer it is still what its SETUP asks for. */
  lemma AnswersStill(d: Descriptors, tr: Transfer, now: Transfer)
    requires Answers(d, tr) && now.tag == tr.tag && now.kind == tr.kind && now.begun == tr.begun
    requires now.limit == tr.limit && (!tr.kind.UserRead? ==> now.reply == tr.reply)
    ensures Answers(d, now)
  {
    hide ReplyDue, Setups, Standard, DeviceToHost, IsZero;
  }

  lemma BegunTag(before: Transfer, tr: Transfer, msgLen: nat, rxs: seq<Rx>, d: Descriptors)
    requires Begun(before, tr, msgLen, rxs, d)
    ensures tr.tag == before.tag + 1 && Answers(d, tr)
  {
    hide Answers;
  }

  lemma ConfirmedTag(before: Transfer, tr: Transfer, was: nat, msgLen: nat, rval: nat, pending: bool)
    requires Confirmed(before, tr, was, msgLen, rval, pending)
    ensures tr.tag == before.tag && tr.kind == before.kind && tr.begun == before.begun && tr.limit == before.limit
    ensures tr.reply == before.reply && tr.built == before.built && tr.outs == before.outs + 1
  {
  }
}
