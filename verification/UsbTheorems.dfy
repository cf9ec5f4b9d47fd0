/** What the host sees: consequences of the invariants for whole runs. */
module UsbTheorems {
  import opened Bits
  import opened UsbControl
  import opened UsbShared
  import opened UsbWire
  import opened UsbHistory
  import opened UsbRequests
  import opened UsbSteps

  // ---- tokens ----------------------------------------------------------------

  /** An IN for the device that answers to `addr`. The endpoint is in the top bit of the
      second byte and the low bits of the third; the rest of that is the token's CRC,
      which the device does not look at. */
  function InToken(addr: nat, top: byte, third: byte): Reception
    requires addr < 256
  {
    Whole([0x69, top | AddressByte(addr / 2), third])
  }

  function InToken0(addr: nat, third: byte): Reception
    requires addr < 256
  {
    InToken(addr, 0x00, third)
  }

  function InToken1(addr: nat): Reception
    requires addr < 256
  {
    InToken(addr, 0x80, 0x00)
  }

  /** The byte that counts n. */
  function AddressByte(n: nat): byte { if n == 0 then 0 else AddressByte(n - 1) + 1 }

  lemma CountsOn(b: byte)
    requires b as nat < 255
    ensures (b + 1) as nat == b as nat + 1
  {
  }

  lemma {:induction false} ByteOf(n: nat)
    requires n < 256
    ensures AddressByte(n) as nat == n
  {
    if n > 0 {
      ByteOf(n - 1);
      CountsOn(AddressByte(n - 1));
    }
  }

  lemma TopBit(b: byte)
    requires b as nat < 128
    ensures b < 0x80
  {
  }

  lemma Doubled(b: byte)
    requires b < 0x80
    ensures (0x80 | b) << 1 == b + b && (0x00 | b) << 1 == b + b && (b + b) as nat == 2 * (b as nat)
  {
  }

  /** Every address the device may answer to is carried by some token. */
  lemma Addressed(addr: nat, top: byte)
    requires addr < 256 && addr % 2 == 0 && (top == 0x00 || top == 0x80)
    ensures ShiftedAddress(top | AddressByte(addr / 2)) == addr && AddressByte(addr / 2) < 0x80
  {
    hide AddressByte;
    ByteOf(addr / 2);
    TopBit(AddressByte(addr / 2));
    Doubled(AddressByte(addr / 2));
  }

  lemma EndpointOne(second: byte)
    ensures EndpointOf(0x80 | second, 0x00) != 0
  {
  }

  lemma EndpointZero(second: byte, third: byte)
    requires second < 0x80 && third & 0x07 == 0
    ensures EndpointOf(0x00 | second, third) == 0
  {
  }

  lemma InTokenHead(buf: seq<byte>, off: nat, addr: nat, top: byte, third: byte)
    requires addr < 256 && addr % 2 == 0 && (top == 0x00 || top == 0x80)
    requires off + 2 < |buf| && buf[off..off + 3] == InToken(addr, top, third).bytes
    ensures HeadAt(buf, off) == Head(In, addr, EndpointOf(top | AddressByte(addr / 2), third) == 0)
  {
    hide ShiftedAddress, EndpointOf, AddressByte;
    Addressed(addr, top);
    var three := buf[off..off + 3];
    assert three[0] == buf[off] && three[1] == buf[off + 1] && three[2] == buf[off + 2];
  }

  lemma InTokenTurn(s: Shared, top: byte, third: byte)
    requires Wellformed(s) && s.deviceAddr < 256 && s.deviceAddr % 2 == 0 && (top == 0x00 || top == 0x80)
    ensures var r := InToken(s.deviceAddr, top, third);
      && r.Valid()
      && Interrupt(s, r) ==
           HandleIn(Arrived(s, r.bytes), EndpointOf(top | AddressByte(s.deviceAddr / 2), third) == 0)
  {
    hide Bit4, HeadAt, Stored, AddressByte, HandleIn, EndpointOf;
    var r := InToken(s.deviceAddr, top, third);
    StoredThere(s.rxBuf, s.inputBufOffset, r.bytes, 0, 3);
    assert r.bytes[0..3] == r.bytes;
    InTokenHead(Arrived(s, r.bytes).rxBuf, s.inputBufOffset, s.deviceAddr, top, third);
  }

  lemma InToken1Turn(s: Shared)
    requires Wellformed(s) && s.rxLen == 0 && s.deviceAddr < 256 && s.deviceAddr % 2 == 0 && !Bit4(s.txLen1)
    ensures InToken1(s.deviceAddr).Valid()
    ensures var t := Interrupt(s, InToken1(s.deviceAddr));
      && t.reply == DataPacket(1, s.txBuf1[..s.txLen1 - 1]) && t.s.txLen1 == NAK
      && t.s.deviceAddr == s.newDeviceAddr * 2 % 256
  {
    hide Bit4, Stored, AddressByte, EndpointOf, Interrupt;
    InTokenTurn(s, 0x80, 0x00);
    EndpointOne(AddressByte(s.deviceAddr / 2));
  }

  /** While no packet waits: what is in the buffer of endpoint 0 is sent. */
  lemma InToken0Turn(s: Shared, third: byte)
    requires Wellformed(s) && s.rxLen == 0 && s.deviceAddr < 256 && s.deviceAddr % 2 == 0 && third & 0x07 == 0
    ensures InToken0(s.deviceAddr, third).Valid()
    ensures var t := Interrupt(s, InToken0(s.deviceAddr, third));
      && t.s.rxLen == 0
      && if Bit4(s.txLen) then t.reply == Handshake(s.txLen) && t.s.txLen == s.txLen
         else t.reply == DataPacket(0, s.txBuf[..s.txLen - 1]) && t.s.txLen == NAK
  {
    hide Bit4, Stored, AddressByte, EndpointOf, Interrupt, ShiftedAddress;
    InTokenTurn(s, 0x00, third);
    Addressed(s.deviceAddr, 0x00);
    EndpointZero(AddressByte(s.deviceAddr / 2), third);
  }

  lemma EvenAddress(w: World, c: Code)
    requires Inv(w, c)
    ensures Wellformed(w.s) && w.s.deviceAddr < 256 && w.s.deviceAddr % 2 == 0
  {
    hide Wellformed, MailboxOk, Endpoint0Ok, Endpoint1Ok, RecordOk;
  }

  // ---- endpoint 0 ----------------------------------------------------------

  lemma {:induction false} SentAt(d: Descriptors, sent: seq<Sent>, i: nat)
    requires SentOk(d, sent) && i < |sent|
    ensures GoodSent(d, sent[..i], sent[i]) && SentOk(d, sent[..i + 1])
    decreases |sent|
  {
    hide GoodSent;
    if i == |sent| - 1 {
      assert sent[..i + 1] == sent;
    } else {
      var init := sent[..|sent| - 1];
      SentAt(d, init, i);
      assert init[..i] == sent[..i] && init[..i + 1] == sent[..i + 1];
    }
  }

  /** The packet at i is the first one sent for its SETUP. */
  predicate First(sent: seq<Sent>, i: nat)
    requires i < |sent|
  {
    i == 0 || Setups(sent[i - 1].accepted) != Setups(sent[i].accepted)
  }

  /** What the log says of one packet and the one before it. */
  lemma InTheLog(d: Descriptors, sent: seq<Sent>, i: nat)
    requires SentOk(d, sent) && i < |sent|
    ensures sent[i].bytes == BlockBytes(sent[i].block) && GoodBlock(d, sent[i].block)
    ensures sent[i].block.tr.tag == Setups(sent[i].accepted) && sent[i].block.tr.begun <= sent[i].accepted
    ensures i > 0 ==> sent[i - 1].accepted <= sent[i].accepted
    ensures First(sent, i) ==>
      var tr := sent[i].block.tr; tr.built == tr.dropped && (tr.kind.UserRead? && tr.dropped == 0 ==> tr.reply == [])
    ensures !First(sent, i) ==>
      sent[i - 1].block.tr.tag == sent[i].block.tr.tag && GoesOn(sent[i - 1].block, sent[i].block.tr)
  {
    hide BlockBytes, GoodBlock, Setups;
    SentAt(d, sent, i);
    if i > 0 {
      SentAt(d, sent, i - 1);
      assert sent[..i][i - 1] == sent[i - 1];
    }
  }

  lemma Heads(a: nat, p: seq<byte>, b: nat, q: seq<byte>)
    ensures PacketBytes(Toggle(a), p)[0] == Toggle(a) && PacketBytes(Toggle(b), q)[0] == Toggle(b)
    ensures Toggle(a) == Toggle(b) <==> (a - b) % 2 == 0
    ensures (a % 2 == 0 ==> Toggle(a) == 0x4b) && (a % 2 == 1 ==> Toggle(a) == 0xc3)
  {
    hide Crc16.CheckBytes;
  }

  /** After a SETUP the first packet is DATA1, and the next ones alternate: exactly when
      the packets dropped for errors of the application were even in number. In a
      transfer that the driver serves from memory none is. */
  lemma TokensAlternate(d: Descriptors, sent: seq<Sent>, i: nat)
    requires SentOk(d, sent) && i < |sent|
    ensures sent[i].bytes != [] && (i > 0 ==> sent[i - 1].bytes != [])
    ensures First(sent, i) ==> (sent[i].bytes[0] == 0x4b <==> sent[i].block.tr.dropped % 2 == 0)
    ensures !First(sent, i) ==>
      (sent[i].bytes[0] != sent[i - 1].bytes[0] <==> (sent[i].block.tr.dropped - sent[i - 1].block.tr.dropped) % 2 == 0)
    ensures sent[i].block.tr.kind.Canned? ==> sent[i].block.tr.dropped == 0
  {
    hide PacketBytes, Toggle, SentOk, Answers, Setups;
    InTheLog(d, sent, i);
    if i > 0 { InTheLog(d, sent, i - 1); }
    var b, before := sent[i].block, sent[if i > 0 then i - 1 else i].block;
    Heads(b.tr.built, b.payload, before.tr.built, before.payload);
    Heads(b.tr.built, b.payload, 0, before.payload);
  }

  /** The empty packet that is built anew after usbFunctionWrite has reported an error. */
  function Anew(tr: Transfer): Block { Block(Stopped(tr, true), []) }

  ghost function Retried(w: World, c: Code): World
    requires Wellformed(w.s)
  {
    World(w.s.(rxLen := 0, txBuf := BlockBytes(Anew(c.tr)) + w.s.txBuf[3..], txLen := 4), w.log.(block := Anew(c.tr)))
  }

  /** That number can be odd. While one OUT is confirmed and the confirmation yet to be
      sent, a second one is confirmed, so usbMsgLen is 0 again, and a third one is
      refused. The stall takes the place of the waiting packet; as it leaves the buffer
      free, usbPoll builds the next one at once, with the other token, and an IN gets it:
      the first packet after the SETUP is DATA0, where the host expects DATA1. */
  lemma ErrorSkipsToken(w: World, c: Code, bytes: seq<byte>, fixed: bool, third: byte)
    requires Inv(w, c) && c.processing && c.tr.tag == Setups(c.delivered) && Answers(c.d, c.tr)
    requires c.tr.kind.UserWrite? && c.tr.outs > 0 && c.tr.built == 1 && c.tr.dropped == 0
    requires Rested(c, w.s.txBuf[0], w.s.txBuf1[0], 0, true, bytes, fixed) && c.tr.tag > 0
    requires !Bit4(w.s.txLen) && third & 0x07 == 0
    ensures Wellformed(w.s) && Wellformed(Retried(w, c).s) && w.s.deviceAddr < 256
    ensures Inv(Retried(w, c), c.(processing := false, tr := Built(Anew(c.tr), c.tr.outs)))
    ensures Retried(w, c).s.txBuf[0] == OtherToken(w.s.txBuf[0])
    ensures InToken0(w.s.deviceAddr, third).Valid()
    ensures var sent := Next(Retried(w, c), InToken0(w.s.deviceAddr, third)).log.sent;
      && |sent| == |w.log.sent| + 1 && First(sent, |sent| - 1)
      && sent[|sent| - 1].bytes != [] && sent[|sent| - 1].bytes[0] == 0xc3
  {
    hide Inv, Wellformed, Bit4, Interrupt, Setups, Answers, First, Rested, Retried, Anew, OtherToken, Built, Toggle,
      InToken0;
    EvenAddress(w, c);
    BufferSizes(w.s);
    RestingToken(c, w.s.txBuf[0], w.s.txBuf1[0], 0, true, bytes, fixed);
    BuiltAnew(w, c);
    RetriedIs(w, c);
    HandshakesHaveBit4(0);
    var v, d := Retried(w, c), c.(processing := false, tr := Built(Anew(c.tr), c.tr.outs));
    InvWellformed(v, d);
    ToggleFlips(1);
    InToken0Turn(v.s, third);
    NoneBefore(w, c);
    SentFirst(v, d, InToken0(w.s.deviceAddr, third));
  }

  lemma BufferSizes(s: Shared)
    requires Wellformed(s)
    ensures |s.txBuf| == BUFSIZE && |s.txBuf1| == BUFSIZE
  {
  }

  lemma RestingToken(c: Code, token0: byte, token1: byte, msgLen: nat, rw: bool, bytes: seq<byte>, fixed: bool)
    requires Rested(c, token0, token1, msgLen, rw, bytes, fixed) && c.tr.tag > 0
    ensures token0 == Toggle(c.tr.built + 1) && !c.writing0 && !c.writing1
  {
    hide Toggle, Left, GivenFor;
  }

  lemma RetriedIs(w: World, c: Code)
    requires Wellformed(w.s) && c.tr.built == 1 && c.tr.dropped == 0
    ensures var v := Retried(w, c);
      && v.s.rxLen == 0 && v.s.txLen == 4 && v.s.deviceAddr == w.s.deviceAddr && v.log == w.log.(block := v.log.block)
      && v.log.block.payload == [] && v.log.block.tr.built == 1 && v.log.block.tr.tag == c.tr.tag
      && |v.s.txBuf| == BUFSIZE && v.s.txBuf[..3] == BlockBytes(v.log.block) && v.s.txBuf[0] == Toggle(1)
  {
    hide Toggle, Crc16.CheckBytes;
    CheckSize([]);
    PacketHead(Toggle(1), []);
  }

  /** The stores of the C code from the stall to the next block. */
  lemma BuiltAnew(w: World, c: Code)
    requires Inv(w, c) && c.processing && !c.writing0 && !c.writing1 && c.tr.tag == Setups(c.delivered)
    requires c.tr.kind.UserWrite? && c.tr.outs > 0 && Answers(c.d, c.tr) && !Bit4(w.s.txLen)
    ensures Wellformed(w.s) && Inv(Retried(w, c), c.(processing := false, tr := Built(Anew(c.tr), c.tr.outs)))
  {
    hide Inv, Wellformed, Bit4, Interrupt, Setups, Answers, BlockBytes, GoodBlock, Built;
    InvWellformed(w, c);
    var b, buf := Anew(c.tr), BlockBytes(Anew(c.tr)) + w.s.txBuf[3..];
    HandshakesHaveBit4(0);
    Stalled(w, c);
    var w1, c1 := w.(s := w.s.(txLen := STALL)), c.(tr := b.tr);
    Release(w1, c1);
    var w2, c2 := w1.(s := w1.s.(rxLen := 0)), c1.(processing := false);
    Claim0(w2, c2);
    var c3 := c2.(writing0 := true);
    BufferFits(w.s, b);
    WriteTxBuf(w2, c3, buf);
    var w4 := w2.(s := w2.s.(txBuf := buf));
    AnswersStill(c.d, c.tr, b.tr);
    GoodWhenEmpty(c.d, b);
    Complete(w4, c3, []);
    assert Retried(w, c) == World(w4.s.(txLen := 4), w4.log.(block := b));
  }

  lemma BufferFits(s: Shared, b: Block)
    requires Wellformed(s) && b.payload == []
    ensures |BlockBytes(b)| == 3 && |BlockBytes(b) + s.txBuf[3..]| == BUFSIZE
    ensures (BlockBytes(b) + s.txBuf[3..])[..3] == BlockBytes(b)
  {
    hide Toggle;
  }

  lemma GoodWhenEmpty(d: Descriptors, b: Block)
    requires Answers(d, b.tr) && b.tr.kind.UserWrite? && b.tr.outs > 0 && b.payload == []
    ensures GoodBlock(d, b)
  {
    hide Answers;
  }

  /** With one packet built, not sent and none dropped, none has been sent. */
  lemma NoneBefore(w: World, c: Code)
    requires Inv(w, c) && !Bit4(w.s.txLen) && c.tr.built == 1 && c.tr.dropped == 0
    ensures w.log.sent != [] ==> w.log.sent[|w.log.sent| - 1].block.tr.tag < c.tr.tag
  {
    hide Wellformed, Bit4, MailboxOk, Endpoint1Ok, AddressOk, RecordOk, Setups, SentOk, Ready0, GoodBlock;
  }

  lemma SentFirst(v: World, d: Code, r: Reception)
    requires Wellformed(v.s) && v.s.txBuf[..3] == BlockBytes(v.log.block)
    requires Inv(v, d) && r.Valid() && v.s.txLen == 4 && v.log.block.payload == [] && v.log.block.tr.built == 1
    requires v.log.sent != [] ==> v.log.sent[|v.log.sent| - 1].block.tr.tag < v.log.block.tr.tag
    requires var reply := Interrupt(v.s, r).reply; reply.DataPacket? && reply.endpoint == 0
    ensures var sent := Next(v, r).log.sent;
      && |sent| == |v.log.sent| + 1 && First(sent, |sent| - 1)
      && sent[|sent| - 1].bytes != [] && sent[|sent| - 1].bytes[0] == 0xc3
  {
    hide Inv, Wellformed, Bit4, Interrupt, Setups, GoodBlock, SentOk, PacketBytes, Toggle;
    InvKept(v, d, [r]);
    assert [r][1..] == [];
    assert AfterAll(v, [r]) == Next(v, r);
    var w := Next(v, r);
    SentIsOk(w, d);
    SendingTurn(v.s, r);
    InTheLog(d.d, w.log.sent, |w.log.sent| - 1);
    if v.log.sent != [] { InTheLog(d.d, w.log.sent, |w.log.sent| - 2); }
    Heads(1, [], 0, []);
  }

  lemma SentIsOk(w: World, c: Code)
    requires Inv(w, c)
    ensures SentOk(c.d, w.log.sent)
  {
    hide Wellformed, Bit4, MailboxOk, Endpoint1Ok, AddressOk, RecordOk, Setups, SentOk, Ready0, Armed0, Follows;
  }

  /** Nothing of an earlier transfer is sent once a SETUP has been acknowledged: every
      packet belongs to the last 8-byte SETUP acknowledged before it, which its transfer
      answers, and is whole; for a write it is empty and never before the first OUT. */
  lemma SetupSupersedes(d: Descriptors, sent: seq<Sent>, i: nat)
    requires SentOk(d, sent) && i < |sent|
    ensures sent[i].block.tr.begun == UpToSetup(sent[i].accepted) && Answers(d, sent[i].block.tr)
    ensures sent[i].bytes ==
      [if sent[i].block.tr.built % 2 == 0 then 0x4b else 0xc3] + sent[i].block.payload
      + Crc16.CheckBytes(sent[i].block.payload)
    ensures |sent[i].block.payload| <= 8 && (i > 0 ==> sent[i - 1].accepted <= sent[i].accepted)
    ensures sent[i].block.tr.kind.UserWrite? ==> sent[i].block.payload == [] && sent[i].block.tr.outs > 0
  {
    hide SentOk, Setups, Crc16.CheckBytes, UpToSetup, ReplyDue, Standard, DeviceToHost, IsZero;
    InTheLog(d, sent, i);
    LastSetup(sent[i].block.tr.begun, sent[i].accepted);
  }

  /** What a data packet carries between its token and its CRC. */
  function Payload(bytes: seq<byte>): seq<byte> { if |bytes| < 3 then [] else bytes[1..|bytes| - 2] }

  function Payloads(sent: seq<Sent>): seq<byte> {
    if sent == [] then [] else Payloads(sent[..|sent| - 1]) + Payload(sent[|sent| - 1].bytes)
  }

  lemma PayloadOf(token: byte, payload: seq<byte>)
    ensures Payload(PacketBytes(token, payload)) == payload
  {
    hide Crc16.CheckBytes;
    CheckSize(payload);
    assert PacketBytes(token, payload)[1..|payload| + 1] == payload;
  }

  /** Packets i to i + n - 1 are the first n sent for one SETUP. */
  ghost predicate SentFor(sent: seq<Sent>, i: nat, n: nat) {
    && 0 < n && i + n <= |sent| && First(sent, i)
    && forall k :: i <= k < i + n ==> Setups(sent[k].accepted) == Setups(sent[i].accepted)
  }

  lemma OneMore(sent: seq<Sent>, i: nat, n: nat)
    requires 0 < n && i + n <= |sent|
    ensures Payloads(sent[i..i + n]) == Payloads(sent[i..i + n - 1]) + Payload(sent[i + n - 1].bytes)
    ensures n == 1 ==> Payloads(sent[i..i + n]) == Payload(sent[i].bytes)
  {
    hide Payload;
    assert sent[i..i + n][..n - 1] == sent[i..i + n - 1];
    if n == 1 { assert Payloads(sent[i..i]) == []; }
  }

  /** `got` is what the first n packets of a reply carry, `last` the n-th of them. */
  predicate CutUp(reply: seq<byte>, got: seq<byte>, last: seq<byte>, n: nat) {
    && 0 < n && 8 * (n - 1) <= |reply|
    && got == (if 8 * n <= |reply| then reply[..8 * n] else reply)
    && (|last| < 8 <==> n == |reply| / 8 + 1)
  }

  lemma CutUpFirst(reply: seq<byte>)
    ensures CutUp(reply, Slice(reply, 0), Slice(reply, 0), 1)
  {
    SliceSize(reply, 0);
  }

  lemma CutUpNext(reply: seq<byte>, got: seq<byte>, last: seq<byte>, n: nat)
    requires CutUp(reply, got, last, n) && 8 * n <= |reply|
    ensures CutUp(reply, got + Slice(reply, n), Slice(reply, n), n + 1)
  {
    SliceSize(reply, n);
    Join(reply, n);
  }

  lemma CannedInTheLog(d: Descriptors, sent: seq<Sent>, i: nat)
    requires SentOk(d, sent) && i < |sent|
    ensures !First(sent, i) ==> sent[i - 1].block.tr.kind == sent[i].block.tr.kind
    ensures var b := sent[i].block; b.tr.kind.Canned? ==>
      && Payload(sent[i].bytes) == b.payload && 8 * b.tr.built <= |b.tr.reply|
      && b.payload == Slice(b.tr.reply, b.tr.built)
      && if First(sent, i) then b.tr.built == 0
         else sent[i - 1].block.tr.reply == b.tr.reply && b.tr.built == sent[i - 1].block.tr.built + 1
  {
    hide SentOk, Payload, PacketBytes, Toggle, Answers, Setups, Slice;
    var b := sent[i].block;
    InTheLog(d, sent, i);
    if i > 0 { InTheLog(d, sent, i - 1); }
    PayloadOf(Toggle(b.tr.built), b.payload);
  }

  /** The packets of one transfer are consecutive blocks of one reply. */
  lemma {:induction false} CannedArrives(d: Descriptors, sent: seq<Sent>, i: nat, n: nat)
    requires SentOk(d, sent) && SentFor(sent, i, n) && sent[i].block.tr.kind.Canned?
    ensures var tr, last := sent[i].block.tr, sent[i + n - 1].block;
      && last.tr.kind.Canned? && last.tr.reply == tr.reply && last.tr.built == n - 1
      && CutUp(tr.reply, Payloads(sent[i..i + n]), last.payload, n)
    decreases n
  {
    hide SentOk, Payload, Payloads, CutUp, Setups, Slice;
    var b := sent[i + n - 1].block;
    CannedInTheLog(d, sent, i + n - 1);
    OneMore(sent, i, n);
    if n == 1 {
      CutUpFirst(b.tr.reply);
    } else {
      CannedArrives(d, sent, i, n - 1);
      CutUpNext(b.tr.reply, Payloads(sent[i..i + n - 1]), sent[i + n - 2].block.payload, n - 1);
    }
  }

  /** A control-read arrives intact: what the packets after a standard request carry is
      the reply due to it, given everything acknowledged before them, cut into packets
      of eight, and there are at most n / 8 + 1 of them for n bytes, the last one being
      shorter than eight and possibly empty. */
  lemma ReplyArrives(d: Descriptors, sent: seq<Sent>, i: nat, n: nat)
    requires SentOk(d, sent) && SentFor(sent, i, n)
    ensures d.Valid()
    ensures var begun := UpToSetup(sent[i].accepted);
      && begun != [] && IsSetup8(begun[|begun| - 1])
      && (Standard(begun[|begun| - 1].data[0]) ==>
           var reply := ReplyDue(d, begun);
           && 8 * (n - 1) <= |reply|
           && Payloads(sent[i..i + n]) == (if 8 * n <= |reply| then reply[..8 * n] else reply)
           && (|Payload(sent[i + n - 1].bytes)| < 8 <==> n == |reply| / 8 + 1))
  {
    hide SentOk, Payload, Payloads, CutUp, PacketBytes, Toggle, Setups, UpToSetup, ReplyDue, Standard,
      DeviceToHost, IsZero;
    SetupSupersedes(d, sent, i);
    if sent[i].block.tr.kind.Canned? {
      CannedArrives(d, sent, i, n);
      var b := sent[i + n - 1].block;
      InTheLog(d, sent, i + n - 1);
      PayloadOf(Toggle(b.tr.built), b.payload);
      CutUpMeans(b.tr.reply, Payloads(sent[i..i + n]), b.payload, n);
    }
  }

  lemma CutUpMeans(reply: seq<byte>, got: seq<byte>, last: seq<byte>, n: nat)
    requires CutUp(reply, got, last, n)
    ensures 0 < n && 8 * (n - 1) <= |reply|
    ensures got == if 8 * n <= |reply| then reply[..8 * n] else reply
    ensures |last| < 8 <==> n == |reply| / 8 + 1
  {
  }

  lemma {:induction false} GivenInOrder(d: Descriptors, sent: seq<Sent>, i: nat, n: nat)
    requires SentOk(d, sent) && SentFor(sent, i, n) && sent[i].block.tr.kind.UserRead?
    ensures var got, last := Payloads(sent[i..i + n]), sent[i + n - 1].block;
      && last.tr.kind.UserRead? && last.tr.limit == sent[i].block.tr.limit
      && (last.tr.dropped == 0 ==> got == last.tr.reply + last.payload)
      && |got| <= |last.tr.reply + last.payload| <= sent[i].block.tr.limit
    decreases n
  {
    hide SentOk, Payload, Payloads, PacketBytes, Toggle, Answers, Setups, Slice;
    var b := sent[i + n - 1].block;
    InTheLog(d, sent, i + n - 1);
    OneMore(sent, i, n);
    PayloadOf(Toggle(b.tr.built), b.payload);
    if n > 1 { GivenInOrder(d, sent, i, n - 1); }
  }

  lemma SameTags(d: Descriptors, sent: seq<Sent>, i: nat, n: nat)
    requires SentOk(d, sent) && SentFor(sent, i, n)
    ensures sent[i + n - 1].block.tr.tag == Setups(sent[i].accepted)
  {
    hide SentOk, Setups, GoodBlock, BlockBytes, GoesOn;
    InTheLog(d, sent, i + n - 1);
  }

  /** What usbFunctionRead returned for a SETUP arrives as it was given: while it reports
      no error, the packets sent after the SETUP carry the beginning of it. */
  lemma GivenArrives(d: Descriptors, sent: seq<Sent>, fetched: seq<Read>, i: nat, n: nat)
    requires SentOk(d, sent) && SentFor(sent, i, n) && SentGiven(sent, fetched)
    requires sent[i].block.tr.kind.UserRead? && sent[i + n - 1].block.tr.dropped == 0
    ensures Payloads(sent[i..i + n]) <= GivenFor(fetched, Setups(sent[i].accepted))
  {
    hide SentOk, Payloads, Setups, GivenFor;
    GivenInOrder(d, sent, i, n);
    SameTags(d, sent, i, n);
  }

  /** Together with what the SETUP asked for. */
  lemma ReadIsBounded(d: Descriptors, sent: seq<Sent>, i: nat, n: nat)
    requires SentOk(d, sent) && SentFor(sent, i, n)
    ensures var begun := UpToSetup(sent[i].accepted);
      && begun != [] && IsSetup8(begun[|begun| - 1])
      && var q := begun[|begun| - 1].data;
         (IsZero(q[7]) || sent[i].block.tr.kind.UserRead? ==> |Payloads(sent[i..i + n])| <= Num(q[6]))
  {
    hide SentOk, Payload, Payloads, CutUp, PacketBytes, Toggle, Setups, UpToSetup, ReplyDue, Standard,
      DeviceToHost, IsZero;
    SetupSupersedes(d, sent, i);
    match sent[i].block.tr.kind {
      case Canned =>
        CannedArrives(d, sent, i, n);
        CutUpFits(sent[i].block.tr.reply, Payloads(sent[i..i + n]), sent[i + n - 1].block.payload, n);
      case UserRead => GivenInOrder(d, sent, i, n);
      case UserWrite => WriteIsSilent(d, sent, i, n);
    }
  }

  lemma CutUpFits(reply: seq<byte>, got: seq<byte>, last: seq<byte>, n: nat)
    requires CutUp(reply, got, last, n)
    ensures |got| <= |reply|
  {
  }

  lemma {:induction false} WriteIsSilent(d: Descriptors, sent: seq<Sent>, i: nat, n: nat)
    requires SentOk(d, sent) && SentFor(sent, i, n) && sent[i].block.tr.kind.UserWrite?
    ensures Payloads(sent[i..i + n]) == [] && sent[i + n - 1].block.tr.kind.UserWrite?
    decreases n
  {
    hide SentOk, Payload, Payloads, PacketBytes, Toggle, Answers, Setups, Slice;
    var b := sent[i + n - 1].block;
    InTheLog(d, sent, i + n - 1);
    OneMore(sent, i, n);
    PayloadOf(Toggle(b.tr.built), b.payload);
    if n > 1 { WriteIsSilent(d, sent, i, n - 1); }
  }

  /** With none dropped, the last packet is the k-th after a first one, and all of them
      are in the log. */
  lemma {:induction false} RunOf(d: Descriptors, sent: seq<Sent>, k: nat)
    requires SentOk(d, sent) && sent != []
    requires var tr := sent[|sent| - 1].block.tr; tr.dropped == 0 && tr.built == k
    ensures k < |sent| && SentFor(sent, |sent| - 1 - k, k + 1)
    ensures sent[|sent| - 1 - k].block.tr.kind == sent[|sent| - 1].block.tr.kind
    decreases k
  {
    hide SentOk, PacketBytes, Toggle, Answers, Setups, Slice;
    var last := |sent| - 1;
    InTheLog(d, sent, last);
    if !First(sent, last) {
      var init := sent[..last];
      SentAt(d, sent, last - 1);
      InTheLog(d, sent, last - 1);
      RunOf(d, init, k - 1);
      assert init[|init| - 1 - (k - 1)] == sent[last - k];
      assert First(sent, last - k);
    }
  }

  /** The last packets sent are those of this transfer, from its first to the short one,
      and they carry its whole reply. */
  ghost predicate ReplySent(sent: seq<Sent>, tr: Transfer) {
    var n := |tr.reply| / 8 + 1;
    var i := |sent| - n;
    0 <= i && SentFor(sent, i, n) && Setups(sent[i].accepted) == tr.tag && Payloads(sent[i..]) == tr.reply
  }

  lemma SentInFull(d: Descriptors, sent: seq<Sent>, n: nat)
    requires SentOk(d, sent) && sent != []
    requires var tr := sent[|sent| - 1].block.tr; tr.kind.Canned? && tr.built + 1 == n == |tr.reply| / 8 + 1
    ensures ReplySent(sent, sent[|sent| - 1].block.tr)
  {
    hide Setups, SentOk, SentFor, CutUp, Payloads, Slice, GoodBlock, BlockBytes, GoesOn;
    var i := |sent| - n;
    InTheLog(d, sent, |sent| - 1);
    DropsNone(d, sent);
    RunOf(d, sent, n - 1);
    CannedArrives(d, sent, i, n);
    assert sent[i..i + n] == sent[i..];
    CutUpAll(sent[i].block.tr.reply, Payloads(sent[i..]), sent[|sent| - 1].block.payload, n);
    FirstOfRun(sent, i, n);
  }

  lemma SameReplySent(sent: seq<Sent>, tr: Transfer, now: Transfer)
    requires ReplySent(sent, tr) && now.tag == tr.tag && now.reply == tr.reply
    ensures ReplySent(sent, now)
  {
    hide SentFor, Setups, Payloads;
  }

  lemma DropsNone(d: Descriptors, sent: seq<Sent>)
    requires SentOk(d, sent) && sent != [] && sent[|sent| - 1].block.tr.kind.Canned?
    ensures sent[|sent| - 1].block.tr.dropped == 0
  {
    hide SentOk, Answers, GoesOn, BlockBytes, Setups;
    InTheLog(d, sent, |sent| - 1);
  }

  lemma AnswersDue(d: Descriptors, tr: Transfer)
    requires Answers(d, tr)
    ensures tr.begun != [] && IsSetup8(tr.begun[|tr.begun| - 1]) && Setups(tr.begun) == tr.tag
    ensures Standard(tr.begun[|tr.begun| - 1].data[0]) ==> tr.kind.Canned? && tr.reply == ReplyDue(d, tr.begun)
  {
    hide Setups, Standard, ReplyDue, DeviceToHost, IsZero;
  }

  /** ... and completely: once usbMsgLen says that nothing is left and the buffer is
      free, the reply has been sent in exactly n / 8 + 1 packets, of which the last is
      the only one shorter than eight. */
  lemma ReplyComplete(w: World, c: Code, token0: byte, token1: byte, bytes: seq<byte>, fixed: bool, rw: bool)
    requires Inv(w, c) && Rested(c, token0, token1, NO_MSG, rw, bytes, fixed) && Bit4(w.s.txLen)
    requires c.tr.tag > 0 && c.tr.kind.Canned? && Answers(c.d, c.tr)
    ensures ReplySent(w.log.sent, c.tr)
    ensures Standard(c.tr.begun[|c.tr.begun| - 1].data[0]) ==> c.tr.reply == ReplyDue(c.d, c.tr.begun)
    ensures !c.processing ==> c.tr.begun == UpToSetup(c.delivered)
  {
    hide Inv, Bit4, Rested, Setups, SentOk, ReplySent, UpToSetup, ReplyDue, Standard, Answers, GoodBlock,
      BlockBytes, GoesOn, IsSetup8;
    AllSent(w, c);
    NothingLeft(c, token0, token1, bytes, fixed, rw);
    DropsNone(c.d, w.log.sent);
    SentInFull(c.d, w.log.sent, |c.tr.reply| / 8 + 1);
    SameReplySent(w.log.sent, w.log.sent[|w.log.sent| - 1].block.tr, c.tr);
    AnswersDue(c.d, c.tr);
    if !c.processing { LastSetup(c.tr.begun, c.delivered); }
  }

  /** The last packets sent are all that were built for this transfer, and they carry
      what usbFunctionRead gave for it. */
  ghost predicate GivenSent(sent: seq<Sent>, tr: Transfer, fetched: seq<Read>) {
    var i := |sent| - tr.built;
    && 0 <= i && (tr.built > 0 ==> SentFor(sent, i, tr.built) && Setups(sent[i].accepted) == tr.tag)
    && Payloads(sent[i..]) == GivenFor(fetched, tr.tag)
  }

  /** Whenever the buffer is free all that usbFunctionRead has given so far has been
      sent, as long as no error was reported. */
  lemma GivenComplete(w: World, c: Code, token0: byte, token1: byte, msgLen: nat, bytes: seq<byte>, fixed: bool,
                      rw: bool)
    requires Inv(w, c) && Rested(c, token0, token1, msgLen, rw, bytes, fixed) && Bit4(w.s.txLen)
    requires c.tr.tag > 0 && c.tr.kind.UserRead? && c.tr.dropped == 0
    ensures GivenSent(w.log.sent, c.tr, c.fetched)
  {
    hide Inv, Bit4, Rested, Setups, SentOk, SentFor, Payloads, GoodBlock, BlockBytes, GivenFor, GoesOn;
    var sent, n := w.log.sent, c.tr.built;
    AllFetchedSent(w, c);
    AllFetched(c, token0, token1, msgLen, bytes, fixed, rw);
    if n > 0 {
      var i := |sent| - n;
      RunOf(c.d, sent, n - 1);
      GivenInOrder(c.d, sent, i, n);
      SameTags(c.d, sent, i, n);
      assert sent[i..i + n] == sent[i..];
    } else {
      assert Payloads(sent[|sent|..]) == [] by { NoPayloads(sent); }
    }
  }

  lemma NoPayloads(sent: seq<Sent>)
    ensures Payloads(sent[|sent|..]) == []
  {
  }

  lemma AllFetched(c: Code, token0: byte, token1: byte, msgLen: nat, bytes: seq<byte>, fixed: bool, rw: bool)
    requires Rested(c, token0, token1, msgLen, rw, bytes, fixed) && c.tr.kind.UserRead?
    ensures c.tr.reply == GivenFor(c.fetched, c.tr.tag)
  {
    hide Toggle, GivenFor, Left;
  }

  lemma AllFetchedSent(w: World, c: Code)
    requires Inv(w, c) && Bit4(w.s.txLen) && c.tr.kind.UserRead? && c.tr.dropped == 0
    ensures SentOk(c.d, w.log.sent)
    ensures c.tr.built == 0 ==> c.tr.reply == []
    ensures c.tr.built > 0 ==>
      && w.log.sent != []
      && var b := w.log.sent[|w.log.sent| - 1].block;
         && b.tr.tag == c.tr.tag && b.tr.kind.UserRead? && b.tr.dropped == 0 && b.tr.built == c.tr.built - 1
         && c.tr.reply == b.tr.reply + b.payload
  {
    hide Wellformed, Bit4, MailboxOk, Endpoint1Ok, AddressOk, RecordOk, Setups, SentOk, Ready0, GivenOk;
  }

  /** With the buffer free, what has been built and not been dropped has been sent. */
  lemma AllSent(w: World, c: Code)
    requires Inv(w, c) && Bit4(w.s.txLen)
    ensures SentOk(c.d, w.log.sent) && c.tr.begun <= c.delivered
    ensures !c.processing ==> c.tr.tag == Setups(c.delivered)
    ensures c.tr.kind.Canned? && c.tr.dropped < c.tr.built ==>
      && w.log.sent != []
      && var b := w.log.sent[|w.log.sent| - 1].block;
         b.tr.tag == c.tr.tag && b.tr.kind.Canned? && b.tr.reply == c.tr.reply
         && (b.tr.dropped == c.tr.dropped ==> b.tr.built == c.tr.built - 1)
  {
    hide Wellformed, Bit4, MailboxOk, Endpoint1Ok, AddressOk, RecordOk, Setups, SentOk, Ready0;
  }

  lemma NothingLeft(c: Code, token0: byte, token1: byte, bytes: seq<byte>, fixed: bool, rw: bool)
    requires Rested(c, token0, token1, NO_MSG, rw, bytes, fixed) && c.tr.tag > 0 && c.tr.kind.Canned?
    ensures c.tr.built == |c.tr.reply| / 8 + 1 && c.tr.dropped == 0
  {
    hide Toggle;
  }

  lemma FirstOfRun(sent: seq<Sent>, i: nat, n: nat)
    requires SentFor(sent, i, n)
    ensures Setups(sent[i].accepted) == Setups(sent[i + n - 1].accepted)
  {
    hide Setups;
  }

  lemma CutUpAll(reply: seq<byte>, got: seq<byte>, last: seq<byte>, n: nat)
    requires CutUp(reply, got, last, n) && n == |reply| / 8 + 1
    ensures got == reply
  {
  }

  lemma SliceSize(reply: seq<byte>, k: nat)
    ensures 8 * k <= |reply| ==> (|Slice(reply, k)| < 8 <==> k == |reply| / 8)
    ensures 8 * k <= |reply| && |Slice(reply, k)| == 8 ==> 8 * k + 8 <= |reply|
    ensures Slice(reply, 0) == if 8 <= |reply| then reply[..8] else reply
  {
  }

  lemma Join(reply: seq<byte>, k: nat)
    requires 8 * k <= |reply|
    ensures reply[..8 * k] + Slice(reply, k) == if 8 * k + 8 <= |reply| then reply[..8 * k + 8] else reply
  {
  }

  /** The interrupt routine never sends from a buffer the C code is part-way through. */
  lemma NeverWhileWriting(w: World, c: Code, r: Reception)
    requires Inv(w, c) && r.Valid()
    ensures var reply := Interrupt(w.s, r).reply;
      reply.DataPacket? ==> if reply.endpoint == 0 then !c.writing0 else !c.writing1
  {
    hide Interrupt, Bit4, SentOk, Sent1Ok, Armed0, Armed1, Follows, Ready0, OnRecord, Setups;
    SendingTurn(w.s, r);
  }

  // ---- check words ------------------------------------------------------------

  lemma IsPacket(n: nat, payload: seq<byte>)
    ensures PacketBytes(Toggle(n), payload) ==
      [if n % 2 == 0 then 0x4b else 0xc3] + payload + Crc16.CheckBytes(payload)
  {
  }

  /** A packet is complete with its check word: the receiver's test accepts what follows
      the token. */
  lemma PacketAccepted(token: byte, payload: seq<byte>)
    ensures PacketBytes(token, payload) != []
    ensures Crc16.Accepts(BytesBits(PacketBytes(token, payload)[1..]))
  {
    hide Crc16.CheckBytes, Crc16.Accepts, BytesBits;
    CheckSize(payload);
    var got := PacketBytes(token, payload)[1..];
    assert got == payload + Crc16.CheckBytes(payload);
    assert got[|got| - 2..] == Crc16.CheckBytes(payload) && got[..|got| - 2] == payload;
    Crc16.AcceptsExactly(got);
  }

  predicate Intact(bytes: seq<byte>) { bytes != [] && Crc16.Accepts(BytesBits(bytes[1..])) }

  /** In every run a host's CRC test accepts every data packet the device sends. */
  lemma AllAccepted(d: Descriptors, sent: seq<Sent>, i: nat)
    requires SentOk(d, sent) && i < |sent|
    ensures sent[i].bytes != [] && Crc16.Accepts(BytesBits(sent[i].bytes[1..]))
  {
    hide SentOk, Crc16.Accepts, BytesBits, PacketBytes, Toggle, GoodBlock, GoesOn, Setups;
    InTheLog(d, sent, i);
    PacketAccepted(Toggle(sent[i].block.tr.built), sent[i].block.payload);
  }

  lemma AllAccepted1(sent: seq<Sent1>, i: nat)
    requires Sent1Ok(sent) && i < |sent|
    ensures sent[i].bytes != [] && Crc16.Accepts(BytesBits(sent[i].bytes[1..]))
  {
    hide Sent1Ok, Crc16.Accepts, BytesBits, PacketBytes, Toggle;
    InTheLog1(sent, i);
    PacketAccepted(Toggle(sent[i].message.index + 1), sent[i].message.payload);
  }

  // ---- endpoint 1 ----------------------------------------------------------

  lemma {:induction false} Sent1At(sent: seq<Sent1>, i: nat)
    requires Sent1Ok(sent) && i < |sent|
    ensures GoodSent1(sent[..i], sent[i])
    decreases |sent|
  {
    hide GoodSent1;
    var init := sent[..|sent| - 1];
    if i < |sent| - 1 {
      Sent1At(init, i);
      assert init[..i] == sent[..i];
    }
  }

  lemma IsMessage(m: Message)
    ensures MessageBytes(m) ==
      [if m.index % 2 == 0 then 0xc3 else 0x4b] + m.payload + Crc16.CheckBytes(m.payload)
  {
    hide Crc16.CheckBytes;
  }

  /** In every run each packet of endpoint 1 is a whole message: a token, the payload set
      and the check bytes for it. */
  lemma MessageIsWhole(sent: seq<Sent1>, i: nat)
    requires Sent1Ok(sent) && i < |sent|
    ensures |sent[i].message.payload| <= 8
    ensures sent[i].bytes ==
      [if sent[i].message.index % 2 == 0 then 0xc3 else 0x4b] + sent[i].message.payload
      + Crc16.CheckBytes(sent[i].message.payload)
  {
    hide Sent1Ok, MessageBytes, Crc16.CheckBytes;
    Sent1At(sent, i);
    IsMessage(sent[i].message);
  }

  /** Between two SET_INTERFACE requests the tokens alternate, exactly except where the
      interrupt routine got between the test and the store of usbSetInterrupt; the
      first one is DATA0 unless a message was waiting at the SET_INTERFACE. */
  lemma MessagesAlternate(sent: seq<Sent1>, i: nat)
    requires Sent1Ok(sent) && i < |sent|
    ensures sent[i].bytes == PacketBytes(Toggle(sent[i].message.index + 1), sent[i].message.payload)
    ensures i > 0 ==> sent[i - 1].bytes != []
    ensures i > 0 && sent[i - 1].message.epoch == sent[i].message.epoch ==>
      (sent[i].bytes[0] != sent[i - 1].bytes[0] <==> !sent[i].message.repeated)
    ensures var m := sent[i].message;
      (i == 0 || sent[i - 1].message.epoch != m.epoch) && !m.repeated ==>
        (m.waiting ==> sent[i].bytes[0] == 0x4b) && (!m.waiting ==> sent[i].bytes[0] == 0xc3)
  {
    hide PacketBytes, Toggle, Sent1Ok;
    InTheLog1(sent, i);
    if i > 0 { InTheLog1(sent, i - 1); }
    var m, before := sent[i].message, sent[if i > 0 then i - 1 else i].message;
    Heads(m.index + 1, m.payload, before.index + 1, before.payload);
  }

  lemma InTheLog1(sent: seq<Sent1>, i: nat)
    requires Sent1Ok(sent) && i < |sent|
    ensures sent[i].bytes == MessageBytes(sent[i].message)
    ensures var m := sent[i].message;
      m.index + (if m.repeated then 1 else 0) ==
        if i > 0 && sent[i - 1].message.epoch == m.epoch then sent[i - 1].message.index + 1 else if m.waiting then 1 else 0
  {
    hide MessageBytes;
    Sent1At(sent, i);
    if i > 0 { assert sent[..i][i - 1] == sent[i - 1]; }
  }

  /** With the guard of the main loop there is no such gap: an idle buffer stays idle
      through any number of packets. */
  lemma IdleStaysIdle(w: World, c: Code, rs: seq<Reception>)
    requires Inv(w, c) && AllValid(rs) && Bit4(w.s.txLen1)
    ensures AfterAll(w, rs).s.txLen1 == w.s.txLen1
  {
    hide Inv, Bit4, AfterAll;
    InvKept(w, c, rs);
  }

  /** Without the guard the gap is real: wherever a message waits and no packet does,
      one packet sends it between the test and the store, and the message set then
      carries its token. */
  lemma TestThenStoreRaces(w: World, c: Code, payload: seq<byte>)
    requires Inv(w, c) && !c.writing1 && !Bit4(w.s.txLen1) && w.s.rxLen == 0
    ensures w.s.deviceAddr < 256 && InToken1(w.s.deviceAddr).Valid()
    ensures var v := Next(w, InToken1(w.s.deviceAddr));
      && v.s.txLen1 == NAK
      && v.log.sent1 == w.log.sent1 + [Sent1(MessageBytes(w.log.message), w.log.message, w.log.accepted)]
      && c.count1 > 0
      && MessageBytes(NextMessage(c.(split := true), true, payload))[0] == MessageBytes(w.log.message)[0]
  {
    hide Bit4, Interrupt, Toggle, Crc16.CheckBytes, Endpoint0Ok, MailboxOk, OnRecord, AddressByte;
    EvenAddress(w, c);
    InToken1Turn(w.s);
  }

  /** While a message waits it can be lost to the interrupt routine between the test and
      the store exactly if no received packet waits. */
  lemma RaceExactly(w: World, c: Code)
    requires Inv(w, c) && !c.writing1 && !Bit4(w.s.txLen1)
    ensures Wellformed(w.s)
    ensures (exists rs: seq<Reception> :: AllValid(rs) && Bit4(AfterAll(w, rs).s.txLen1)) <==> w.s.rxLen == 0
  {
    hide Bit4, Interrupt, Inv, Wellformed, AddressByte, Steady, Crc16.CheckBytes, Toggle;
    EvenAddress(w, c);
    if w.s.rxLen == 0 {
      TestThenStoreRaces(w, c, []);
      HandshakesHaveBit4(0);
      var rs := [InToken1(w.s.deviceAddr)];
      assert rs[1..] == [];
      assert AfterAll(w, rs) == Next(w, rs[0]);
      assert AllValid(rs) && Bit4(AfterAll(w, rs).s.txLen1);
    } else {
      forall rs: seq<Reception> | AllValid(rs) ensures !Bit4(AfterAll(w, rs).s.txLen1) {
        InvKept(w, c, rs);
        SteadyFrozen(w.s, AfterAll(w, rs).s);
      }
    }
  }

  // ---- the address ---------------------------------------------------------

  /** SET_ADDRESS takes effect with the next data packet and not before: through any
      number of packets received the device answers to the old address as long as no
      data packet has been sent, and to the new one once one has been. */
  lemma {:induction false} AddressFollowsData(w: World, rs: seq<Reception>)
    requires Wellformed(w.s) && AllValid(rs)
    ensures var v := AfterAll(w, rs);
      && v.s.newDeviceAddr == w.s.newDeviceAddr
      && |v.log.sent| >= |w.log.sent| && |v.log.sent1| >= |w.log.sent1|
      && v.s.deviceAddr ==
           (if |v.log.sent| + |v.log.sent1| == |w.log.sent| + |w.log.sent1| then w.s.deviceAddr
            else w.s.newDeviceAddr * 2 % 256)
    decreases rs
  {
    hide Interrupt, Wellformed;
    if rs != [] {
      AddressTurn(w.s, rs[0]);
      UsbHistory.InterruptIsWellformed(w.s, rs[0]);
      AddressFollowsData(Next(w, rs[0]), rs[1..]);
    }
  }

  /** USB 2.0, section 9.4.6, ties the change to the status stage of SET_ADDRESS; here
      any data packet makes it, one of endpoint 1 just as well, whatever the addresses. */
  lemma Endpoint1AssignsAddress(w: World, c: Code)
    requires Inv(w, c) && w.s.rxLen == 0 && !Bit4(w.s.txLen1)
    ensures w.s.deviceAddr < 256 && InToken1(w.s.deviceAddr).Valid()
    ensures var v := Next(w, InToken1(w.s.deviceAddr));
      v.log.sent == w.log.sent && v.s.deviceAddr == w.s.newDeviceAddr * 2 % 256
  {
    hide Bit4, Interrupt, AddressByte, Inv, Wellformed;
    EvenAddress(w, c);
    InToken1Turn(w.s);
  }
}
