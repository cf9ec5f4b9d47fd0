/** A ghost account of a run: what was acknowledged, what was handed to the C code and
    what was sent, and the invariants that tie it to the shared memory between any two
    instructions of the C code. */
module UsbHistory {
  import opened Bits
  import opened UsbControl
  import opened UsbShared
  import opened UsbWire
  import opened Crc16

  // ---- the packets sent on endpoint 0 --------------------------------------

  /** A packet built for the transfer as it was then. */
  datatype Block = Block(tr: Transfer, payload: seq<byte>)

  function Toggle(n: nat): byte { if n % 2 == 0 then 0x4b else 0xc3 }  // DATA1, DATA0, ...

  function PacketBytes(token: byte, payload: seq<byte>): (r: seq<byte>)
    ensures |r| == |payload| + 3
  {
    [token] + payload + CheckBytes(payload)
  }

  function BlockBytes(b: Block): seq<byte> { PacketBytes(Toggle(b.tr.built), b.payload) }

  /** The k-th block of a reply: eight bytes, or the rest if that is less. */
  function Slice(reply: seq<byte>, k: nat): (r: seq<byte>)
    requires 8 * k <= |reply|
    ensures |r| <= 8
  {
    reply[8 * k..if 8 * k + 8 <= |reply| then 8 * k + 8 else |reply|]
  }

  /** A block of a transfer that is what its SETUP asks for. */
  ghost predicate GoodBlock(d: Descriptors, b: Block) {
    && Answers(d, b.tr) && |b.payload| <= 8
    && match b.tr.kind
       case Canned =>
         b.tr.dropped == 0 && 8 * b.tr.built <= |b.tr.reply| && b.payload == Slice(b.tr.reply, b.tr.built)
       case UserWrite => b.payload == [] && b.tr.outs > 0
       case UserRead => |b.tr.reply| + |b.payload| <= b.tr.limit
  }

  /** The transfer once the block has been built; `outs` may have been counted on. */
  function Built(b: Block, outs: nat): Transfer {
    b.tr.(built := b.tr.built + 1, outs := outs,
          reply := if b.tr.kind.UserRead? then b.tr.reply + b.payload else b.tr.reply)
  }

  /** A packet sent on endpoint 0: the bytes on the line, the block they were meant to
      be, and what had been acknowledged by then. */
  datatype Sent = Sent(bytes: seq<byte>, block: Block, accepted: seq<Rx>)

  /** `b` was the last block of the transfer that was sent: every token used since is
      accounted for by a packet dropped. */
  ghost predicate GoesOn(b: Block, tr: Transfer) {
    && tr.kind == b.tr.kind && tr.begun == b.tr.begun && tr.limit == b.tr.limit && b.tr.dropped <= tr.dropped
    && tr.built == b.tr.built + 1 + (tr.dropped - b.tr.dropped)
    && (!tr.kind.UserRead? ==> tr.reply == b.tr.reply)
    && (tr.kind.UserRead? ==> b.tr.reply + b.payload <= tr.reply)
    && (tr.kind.UserRead? && tr.dropped == b.tr.dropped ==> tr.reply == b.tr.reply + b.payload)
  }

  /** `tr` goes on where the last packet sent for it left off, or has sent none. */
  ghost predicate Follows(sent: seq<Sent>, tr: Transfer) {
    if sent != [] && sent[|sent| - 1].block.tr.tag == tr.tag then
      GoesOn(sent[|sent| - 1].block, tr)
    else
      tr.built == tr.dropped && (tr.kind.UserRead? && tr.dropped == 0 ==> tr.reply == [])
  }

  ghost predicate GoodSent(d: Descriptors, before: seq<Sent>, e: Sent) {
    && e.bytes == BlockBytes(e.block) && GoodBlock(d, e.block)
    && e.block.tr.tag == Setups(e.accepted) && e.block.tr.begun <= e.accepted
    && (before != [] ==>
         var last := before[|before| - 1];
         last.accepted <= e.accepted && last.block.tr.tag <= e.block.tr.tag)
    && Follows(before, e.block.tr)
  }

  ghost predicate SentOk(d: Descriptors, sent: seq<Sent>) {
    sent == [] || (SentOk(d, sent[..|sent| - 1]) && GoodSent(d, sent[..|sent| - 1], sent[|sent| - 1]))
  }

  lemma SentSnoc(d: Descriptors, sent: seq<Sent>, e: Sent)
    requires SentOk(d, sent) && GoodSent(d, sent, e)
    ensures SentOk(d, sent + [e])
  {
    assert (sent + [e])[..|sent|] == sent;
  }

  // ---- what the application gave --------------------------------------------

  /** What one call of usbFunctionRead returned, and for which transfer. */
  datatype Read = Read(tag: nat, bytes: seq<byte>)

  /** All that was given for one transfer. */
  function GivenFor(fetched: seq<Read>, tag: nat): seq<byte> {
    if fetched == [] then []
    else
      var last := fetched[|fetched| - 1];
      GivenFor(fetched[..|fetched| - 1], tag) + if last.tag == tag then last.bytes else []
  }

  lemma GivenSnoc(fetched: seq<Read>, r: Read, tag: nat)
    ensures GivenFor(fetched + [r], tag) == GivenFor(fetched, tag) + if r.tag == tag then r.bytes else []
  {
    assert (fetched + [r])[..|fetched|] == fetched;
  }

  ghost predicate NoneLater(fetched: seq<Read>, tag: nat) { forall i :: 0 <= i < |fetched| ==> fetched[i].tag <= tag }

  lemma {:induction false} NoneGivenYet(fetched: seq<Read>, tag: nat)
    requires NoneLater(fetched, tag)
    ensures GivenFor(fetched, tag + 1) == []
    decreases |fetched|
  {
    if fetched != [] { NoneGivenYet(fetched[..|fetched| - 1], tag); }
  }

  /** Every packet sent that usbFunctionRead supplied carries what it gave next. */
  ghost predicate SentGiven(sent: seq<Sent>, fetched: seq<Read>) {
    forall i :: 0 <= i < |sent| && sent[i].block.tr.kind.UserRead? ==>
      sent[i].block.tr.reply + sent[i].block.payload <= GivenFor(fetched, sent[i].block.tr.tag)
  }

  ghost predicate GivenOk(sent: seq<Sent>, fetched: seq<Read>, tag: nat, kind: Kind, reply: seq<byte>) {
    && SentGiven(sent, fetched) && NoneLater(fetched, tag)
    && (kind.UserRead? ==> reply <= GivenFor(fetched, tag))
  }

  lemma MoreGiven(sent: seq<Sent>, fetched: seq<Read>, tag: nat, kind: Kind, reply: seq<byte>, bytes: seq<byte>)
    requires GivenOk(sent, fetched, tag, kind, reply)
    ensures GivenOk(sent, fetched + [Read(tag, bytes)], tag, kind, reply)
  {
    hide GivenFor;
    GivenSnoc(fetched, Read(tag, bytes), tag);
    forall i | 0 <= i < |sent|
      ensures GivenFor(fetched, sent[i].block.tr.tag) <= GivenFor(fetched + [Read(tag, bytes)], sent[i].block.tr.tag)
    {
      GivenSnoc(fetched, Read(tag, bytes), sent[i].block.tr.tag);
    }
  }

  // ---- messages on endpoint 1 ---------------------------------------------

  /** The epoch counts SET_INTERFACE requests, `index` the messages since the last one.
      If a message was waiting then, it counts as the second and `waiting` is set. A
      message that carries the token of the one sent before it is `repeated`. */
  datatype Message = Message(epoch: nat, index: nat, waiting: bool, repeated: bool, payload: seq<byte>)

  function MessageBytes(m: Message): seq<byte> { PacketBytes(Toggle(m.index + 1), m.payload) }

  datatype Sent1 = Sent1(bytes: seq<byte>, message: Message, accepted: seq<Rx>)

  function SentIn(sent: seq<Sent1>, epoch: nat, waiting: bool): nat {
    if sent != [] && sent[|sent| - 1].message.epoch == epoch then sent[|sent| - 1].message.index + 1
    else if waiting then 1 else 0
  }

  ghost predicate GoodSent1(before: seq<Sent1>, e: Sent1) {
    && e.bytes == MessageBytes(e.message) && |e.message.payload| <= 8
    && (before != [] ==> before[|before| - 1].message.epoch <= e.message.epoch)
    && e.message.index + (if e.message.repeated then 1 else 0) == SentIn(before, e.message.epoch, e.message.waiting)
  }

  ghost predicate Sent1Ok(sent: seq<Sent1>) {
    sent == [] || (Sent1Ok(sent[..|sent| - 1]) && GoodSent1(sent[..|sent| - 1], sent[|sent| - 1]))
  }

  ghost predicate NoneRepeated(sent: seq<Sent1>) {
    forall i :: 0 <= i < |sent| ==> !sent[i].message.repeated
  }

  lemma Sent1Snoc(sent: seq<Sent1>, e: Sent1)
    requires Sent1Ok(sent) && GoodSent1(sent, e)
    ensures Sent1Ok(sent + [e])
  {
    assert (sent + [e])[..|sent|] == sent;
  }

  // ---- the run so far ------------------------------------------------------

  /** Kept by the interrupt routine: the bus record, and what came of it. `block` and
      `message` are what the C code last completed; `addrPending` says that an address
      waits for a data packet. */
  datatype Log = Log(heard: seq<Heard>, accepted: seq<Rx>, sent: seq<Sent>, sent1: seq<Sent1>,
                     addrPending: bool, block: Block, message: Message)

  datatype World = World(s: Shared, log: Log)

  /** Kept by the C code. `writing0` and `writing1` hold while it is part-way through
      a transmit buffer, `processing` while it works on the last packet delivered.
      `split` records that a message was sent while another was about to replace it.
      `fetched` is what usbFunctionRead has given, and `d` what the descriptors are, which
      does not change. */
  datatype Code = Code(delivered: seq<Rx>, processing: bool, tr: Transfer, writing0: bool,
                       writing1: bool, epoch: nat, count1: nat, waiting: bool, split: bool, oldAddr: nat,
                       d: Descriptors, fetched: seq<Read>)

  ghost function Logged(log: Log, h: Heard, t: Turn): Log {
    var next := log.(heard := log.heard + [h], accepted := log.accepted + t.accepted);
    match t.reply
    case DataPacket(endpoint, bytes) =>
      if endpoint == 0 then
        next.(addrPending := false, sent := log.sent + [Sent(bytes, log.block, log.accepted)])
      else
        next.(addrPending := false, sent1 := log.sent1 + [Sent1(bytes, log.message, log.accepted)])
    case _ => next
  }

  ghost function Next(w: World, r: Reception): World
    requires Wellformed(w.s) && r.Valid()
  {
    var t := Interrupt(w.s, r);
    World(t.s, Logged(w.log, Entry(w.s, r), t))
  }

  /** What was sent, as the bus record has it. */
  function Bus0(sent: seq<Sent>): seq<OnBus> {
    seq(|sent|, i requires 0 <= i < |sent| => OnBus(sent[i].bytes, sent[i].accepted))
  }

  function Bus1(sent: seq<Sent1>): seq<OnBus> {
    seq(|sent|, i requires 0 <= i < |sent| => OnBus(sent[i].bytes, sent[i].accepted))
  }

  /** What the driver took in and sent is what is on the bus record. */
  ghost predicate RecordOk(w: World) {
    OnRecord(w.log.heard, w.log.accepted, Bus0(w.log.sent), Bus1(w.log.sent1), w.s.currentTok)
  }

  /** Exactly once, in order, intact: what was acknowledged is what was delivered, and
      behind it the packet that waits. */
  ghost predicate MailboxOk(w: World, c: Code)
    requires Wellformed(w.s)
  {
    && (c.processing ==> w.s.rxLen > 0)
    && w.log.accepted == c.delivered + (if w.s.rxLen > 0 && !c.processing then [Waiting(w.s)] else [])
    && (c.processing ==> c.delivered != [] && c.delivered[|c.delivered| - 1] == Waiting(w.s))
  }

  /** While a length is in usbTxLen the last block built is yet to be sent. */
  ghost predicate Armed0(w: World, c: Code) {
    var b := w.log.block;
    Follows(w.log.sent, b.tr) && c.tr == Built(b, c.tr.outs) && GoodBlock(c.d, b) && w.s.txLen == |b.payload| + 4
  }

  /** The buffer holds that block, unless the C code is writing to it again. */
  ghost predicate Ready0(w: World, c: Code)
    requires Wellformed(w.s)
  {
    !Bit4(w.s.txLen) && !c.writing0 ==>
      var b := w.log.block; |b.payload| <= 8 && w.s.txBuf[..|b.payload| + 3] == BlockBytes(b)
  }

  ghost predicate Endpoint0Ok(w: World, c: Code)
    requires Wellformed(w.s)
  {
    && (c.writing0 ==> w.s.rxLen > 0 || Bit4(w.s.txLen))
    && (!c.processing ==> c.tr.tag == Setups(c.delivered))
    && c.tr.begun <= c.delivered
    && SentOk(c.d, w.log.sent)
    && (w.log.sent != [] ==>
         var last := w.log.sent[|w.log.sent| - 1];
         last.block.tr.tag <= c.tr.tag && last.accepted <= w.log.accepted)
    && (if Bit4(w.s.txLen) then Follows(w.log.sent, c.tr) else Armed0(w, c))
    && Ready0(w, c)
  }

  ghost predicate Armed1(w: World, c: Code)
    requires Wellformed(w.s)
  {
    var m := w.log.message;
    && m.epoch == c.epoch && m.index + 1 == c.count1 && m.waiting == c.waiting && (m.repeated ==> c.split)
    && |m.payload| <= 8 && w.s.txLen1 == |m.payload| + 4 && w.s.txBuf1[..|m.payload| + 3] == MessageBytes(m)
  }

  ghost predicate Endpoint1Ok(w: World, c: Code)
    requires Wellformed(w.s)
  {
    && (c.writing1 ==> w.s.rxLen > 0 || Bit4(w.s.txLen1))
    && (!Bit4(w.s.txLen1) && !c.writing1 ==> Armed1(w, c))
    && Sent1Ok(w.log.sent1)
    && (w.log.sent1 != [] ==> w.log.sent1[|w.log.sent1| - 1].message.epoch <= c.epoch)
    && c.count1 == SentIn(w.log.sent1, c.epoch, c.waiting)
                   + (if Bit4(w.s.txLen1) || w.log.message.repeated then 0 else 1)
    && (!c.split ==> NoneRepeated(w.log.sent1))
  }

  /** The device answers to the address assigned last but one until a data packet has
      been sent, and to the one assigned last from then on. */
  ghost predicate AddressOk(w: World, c: Code) {
    w.s.deviceAddr == (if w.log.addrPending then c.oldAddr else w.s.newDeviceAddr) * 2 % 256
  }

  ghost predicate Inv(w: World, c: Code) {
    && Wellformed(w.s) && MailboxOk(w, c) && Endpoint0Ok(w, c) && Endpoint1Ok(w, c) && AddressOk(w, c)
    && RecordOk(w) && GivenOk(w.log.sent, c.fetched, c.tr.tag, c.tr.kind, c.tr.reply)
  }

  /** What interrupts leave of a run: nothing is forgotten, and while a packet waits
      nothing is taken in or sent. */
  ghost predicate Grown(w: World, v: World) {
    && Steady(w.s, v.s)
    && v.log.block == w.log.block && v.log.message == w.log.message
    && w.log.accepted <= v.log.accepted && w.log.sent <= v.log.sent && w.log.sent1 <= v.log.sent1
    && w.log.heard <= v.log.heard
    && (w.s.rxLen > 0 ==> v.log == w.log.(heard := v.log.heard))
  }

  lemma GrownTrans(u: World, v: World, w: World)
    requires Grown(u, v) && Grown(v, w)
    ensures Grown(u, w)
  {
    hide Steady;
    SteadyTrans(u.s, v.s, w.s);
    if u.s.rxLen > 0 { SteadyRx(u.s, v.s); }
  }

  lemma SteadyRx(s: Shared, t: Shared)
    requires Steady(s, t) && s.rxLen > 0
    ensures t.rxLen > 0
  {
  }

  // ---- what a step leaves alone -------------------------------------------

  lemma SameMailbox(w: World, c: Code, v: World, d: Code)
    requires Wellformed(w.s) && Wellformed(v.s) && MailboxOk(w, c)
    requires v.s.rxBuf == w.s.rxBuf && v.s.rxLen == w.s.rxLen && v.s.rxToken == w.s.rxToken
    requires v.s.inputBufOffset == w.s.inputBufOffset && v.log.accepted == w.log.accepted
    requires d.delivered == c.delivered && d.processing == c.processing
    ensures MailboxOk(v, d)
  {
    hide Bit4;
  }

  lemma SameEndpoint0(w: World, c: Code, v: World, d: Code)
    requires Wellformed(w.s) && Wellformed(v.s) && Endpoint0Ok(w, c)
    requires v.s.rxLen == w.s.rxLen && v.s.txLen == w.s.txLen && v.s.txBuf == w.s.txBuf
    requires v.log.block == w.log.block && v.log.sent == w.log.sent && v.log.accepted == w.log.accepted
    requires d.processing == c.processing && d.delivered == c.delivered && d.writing0 == c.writing0 && d.tr == c.tr
    requires d.d == c.d
    ensures Endpoint0Ok(v, d)
  {
    hide Bit4, SentOk, Follows, GoodBlock, BlockBytes, Setups, Built;
  }

  lemma SameEndpoint1(w: World, c: Code, v: World, d: Code)
    requires Wellformed(w.s) && Wellformed(v.s) && Endpoint1Ok(w, c)
    requires v.s.txLen1 == w.s.txLen1 && v.s.txBuf1 == w.s.txBuf1
    requires v.s.rxLen == w.s.rxLen || !c.writing1
    requires v.log.message == w.log.message && v.log.sent1 == w.log.sent1
    requires d.writing1 == c.writing1 && d.epoch == c.epoch && d.count1 == c.count1
    requires d.waiting == c.waiting && d.split == c.split
    ensures Endpoint1Ok(v, d)
  {
    hide Bit4, Sent1Ok, SentIn, MessageBytes;
  }

  // ---- one received packet -------------------------------------------------

  lemma MailboxKept(w: World, c: Code, r: Reception)
    requires Wellformed(w.s) && r.Valid() && MailboxOk(w, c)
    ensures Wellformed(Next(w, r).s) && MailboxOk(Next(w, r), c)
  {
    hide Interrupt, Wellformed, Bit4, Waiting;
    MailboxTurn(w.s, r);
    SteadyTurn(w.s, r);
    SteadyMeans(w.s, Interrupt(w.s, r).s);
  }

  lemma SteadyMeans(s: Shared, t: Shared)
    requires Steady(s, t)
    ensures Wellformed(s) && Wellformed(t)
    ensures s.rxLen > 0 ==> t.rxLen == s.rxLen && Waiting(t) == Waiting(s)
    ensures t.txBuf == s.txBuf && t.txBuf1 == s.txBuf1 && t.newDeviceAddr == s.newDeviceAddr
  {
    hide Bit4;
  }

  lemma Endpoint0Kept(w: World, c: Code, r: Reception)
    requires Wellformed(w.s) && r.Valid() && MailboxOk(w, c) && Endpoint0Ok(w, c)
    ensures Wellformed(Next(w, r).s) && Endpoint0Ok(Next(w, r), c)
  {
    hide Interrupt, Wellformed, Bit4, Waiting, Endpoint0Ok, MailboxOk, Setups;
    SendingTurn(w.s, r);
    SteadyTurn(w.s, r);
    SteadyMeans(w.s, Interrupt(w.s, r).s);
    var t := Interrupt(w.s, r);
    if t.reply.DataPacket? && t.reply.endpoint == 0 {
      MailboxTurn(w.s, r);
      assert w.log.accepted + [] == w.log.accepted;
      BlockSent(w, c, Next(w, r));
    } else {
      UnsentEndpoint0(w, c, Next(w, r));
    }
  }

  lemma UnsentEndpoint0(w: World, c: Code, v: World)
    requires Wellformed(w.s) && Wellformed(v.s) && Endpoint0Ok(w, c)
    requires v.s.txLen == w.s.txLen && v.s.txBuf == w.s.txBuf
    requires w.s.rxLen > 0 ==> v.s.rxLen > 0
    requires v.log.block == w.log.block && v.log.sent == w.log.sent && w.log.accepted <= v.log.accepted
    ensures Endpoint0Ok(v, c)
  {
    hide Bit4, SentOk, Follows, GoodBlock, BlockBytes, Setups, Built;
  }

  /** Nothing half-written is sent, and nothing of an earlier transfer. */
  lemma BlockSent(w: World, c: Code, v: World)
    requires Wellformed(w.s) && Wellformed(v.s) && MailboxOk(w, c) && Endpoint0Ok(w, c)
    requires w.s.rxLen == 0 && !Bit4(w.s.txLen) && v.s.txLen == NAK
    requires v.log.sent == w.log.sent + [Sent(w.s.txBuf[..w.s.txLen - 1], w.log.block, w.log.accepted)]
    requires v.log.accepted == w.log.accepted && v.log.block == w.log.block
    ensures Endpoint0Ok(v, c)
  {
    hide Bit4, BlockBytes, GoodBlock, Setups, SentOk, Follows, Built;
    HandshakesHaveBit4(0);
    assert c.delivered + [] == c.delivered;
    var e := Sent(w.s.txBuf[..w.s.txLen - 1], w.log.block, w.log.accepted);
    BuiltIs(w.log.block, c.tr.outs);
    SentSnoc(c.d, w.log.sent, e);
    FollowsSent(w.log.sent, e, c.tr.outs);
  }

  lemma BuiltIs(b: Block, outs: nat)
    ensures var tr := Built(b, outs); tr.tag == b.tr.tag && tr.begun == b.tr.begun && tr.outs == outs
  {
  }

  lemma FollowsSent(before: seq<Sent>, e: Sent, outs: nat)
    ensures Follows(before + [e], Built(e.block, outs))
  {
  }

  lemma Endpoint1Kept(w: World, c: Code, r: Reception)
    requires Wellformed(w.s) && r.Valid() && Endpoint1Ok(w, c)
    ensures Wellformed(Next(w, r).s) && Endpoint1Ok(Next(w, r), c)
  {
    hide Interrupt, Wellformed, Bit4, Waiting, Endpoint1Ok, Armed1;
    SendingTurn(w.s, r);
    SteadyTurn(w.s, r);
    SteadyMeans(w.s, Interrupt(w.s, r).s);
    var t := Interrupt(w.s, r);
    if t.reply.DataPacket? && t.reply.endpoint != 0 {
      MessageSent(w, c, Next(w, r));
    } else {
      assert c.writing1 && w.s.rxLen > 0 ==> t.s.rxLen == w.s.rxLen;
      UnsentEndpoint1(w, c, Next(w, r));
    }
  }

  lemma UnsentEndpoint1(w: World, c: Code, v: World)
    requires Wellformed(w.s) && Wellformed(v.s) && Endpoint1Ok(w, c)
    requires v.s.txLen1 == w.s.txLen1 && v.s.txBuf1 == w.s.txBuf1
    requires w.s.rxLen > 0 ==> v.s.rxLen > 0
    requires v.log.message == w.log.message && v.log.sent1 == w.log.sent1
    ensures Endpoint1Ok(v, c)
  {
    hide Bit4, Sent1Ok, SentIn, MessageBytes;
  }

  lemma MessageSent(w: World, c: Code, v: World)
    requires Wellformed(w.s) && Wellformed(v.s) && Endpoint1Ok(w, c)
    requires w.s.rxLen == 0 && !Bit4(w.s.txLen1) && v.s.txLen1 == NAK
    requires v.log.sent1 == w.log.sent1 + [Sent1(w.s.txBuf1[..w.s.txLen1 - 1], w.log.message, w.log.accepted)]
    ensures Endpoint1Ok(v, c)
  {
    hide Bit4, MessageBytes, Sent1Ok;
    HandshakesHaveBit4(0);
    Sent1Snoc(w.log.sent1, Sent1(w.s.txBuf1[..w.s.txLen1 - 1], w.log.message, w.log.accepted));
  }

  lemma RecordKept(w: World, r: Reception)
    requires Wellformed(w.s) && r.Valid() && RecordOk(w)
    ensures RecordOk(Next(w, r))
  {
    hide Interrupt, Wellformed, OnRecord, Entry;
    var h, t, v := Entry(w.s, r), Interrupt(w.s, r), Next(w, r);
    Recorded(w.s, r, w.log.heard, w.log.accepted, Bus0(w.log.sent), Bus1(w.log.sent1));
    assert h.reply == t.reply by { EntryIs(w.s, r); }
    if IsFrom(h, true) {
      assert Bus0(v.log.sent) == Bus0(w.log.sent) + [OnBus(t.reply.bytes, w.log.accepted)];
    } else if IsFrom(h, false) {
      assert Bus1(v.log.sent1) == Bus1(w.log.sent1) + [OnBus(t.reply.bytes, w.log.accepted)];
    }
  }

  lemma EntryIs(s: Shared, r: Reception)
    requires Wellformed(s) && r.Valid()
    ensures Entry(s, r).reply == Interrupt(s, r).reply
  {
  }

  lemma GivenKept(w: World, c: Code, r: Reception)
    requires Wellformed(w.s) && r.Valid() && Endpoint0Ok(w, c)
    requires GivenOk(w.log.sent, c.fetched, c.tr.tag, c.tr.kind, c.tr.reply)
    ensures GivenOk(Next(w, r).log.sent, c.fetched, c.tr.tag, c.tr.kind, c.tr.reply)
  {
    hide Interrupt, Wellformed, Bit4, SentOk, Follows, GoodBlock, Setups, Ready0, GivenFor;
    SendingTurn(w.s, r);
  }

  lemma AddressKept(w: World, c: Code, r: Reception)
    requires Wellformed(w.s) && r.Valid() && AddressOk(w, c)
    ensures AddressOk(Next(w, r), c)
  {
    hide Interrupt, Wellformed;
    AddressTurn(w.s, r);
  }

  lemma GrownOnce(w: World, r: Reception)
    requires Wellformed(w.s) && r.Valid()
    ensures Grown(w, Next(w, r))
  {
    hide Interrupt, Wellformed, Steady;
    SteadyTurn(w.s, r);
    MailboxTurn(w.s, r);
    SendingTurn(w.s, r);
    if w.s.rxLen > 0 { SilentWhileWaiting(w.s, r); }
  }

  lemma SilentWhileWaiting(s: Shared, r: Reception)
    requires Wellformed(s) && r.Valid() && s.rxLen > 0
    ensures !Interrupt(s, r).reply.DataPacket? && Interrupt(s, r).accepted == []
  {
    hide Interrupt, Wellformed;
    SendingTurn(s, r);
    MailboxTurn(s, r);
  }

  // ---- any number of packets -----------------------------------------------

  ghost predicate AllValid(rs: seq<Reception>) { forall i :: 0 <= i < |rs| ==> rs[i].Valid() }

  ghost function AfterAll(w: World, rs: seq<Reception>): World
    requires Wellformed(w.s) && AllValid(rs)
    decreases rs
  {
    if rs == [] then w
    else InterruptIsWellformed(w.s, rs[0]); AfterAll(Next(w, rs[0]), rs[1..])
  }

  lemma InterruptIsWellformed(s: Shared, r: Reception)
    requires Wellformed(s) && r.Valid()
    ensures Wellformed(Interrupt(s, r).s)
  {
    hide Interrupt, Wellformed;
    MailboxTurn(s, r);
  }

  /** Whatever arrives between two instructions of the C code, and however often. */
  lemma {:induction false} InvKept(w: World, c: Code, rs: seq<Reception>)
    requires Inv(w, c) && AllValid(rs)
    ensures Inv(AfterAll(w, rs), c) && Grown(w, AfterAll(w, rs))
    decreases rs
  {
    hide Next, Wellformed, MailboxOk, Endpoint0Ok, Endpoint1Ok, AddressOk, RecordOk, GivenOk, Steady;
    if rs == [] {
      assert Steady(w.s, w.s) by { SteadySelf(w.s); }
    } else {
      var v := Next(w, rs[0]);
      MailboxKept(w, c, rs[0]);
      Endpoint0Kept(w, c, rs[0]);
      Endpoint1Kept(w, c, rs[0]);
      AddressKept(w, c, rs[0]);
      RecordKept(w, rs[0]);
      GivenKept(w, c, rs[0]);
      GrownOnce(w, rs[0]);
      InvKept(v, c, rs[1..]);
      GrownTrans(w, v, AfterAll(w, rs));
    }
  }

  lemma SteadySelf(s: Shared)
    requires Wellformed(s)
    ensures Steady(s, s)
  {
  }

  /** Nothing received, nothing sent, nothing to send. */
  lemma PowerUp(w: World, c: Code)
    requires |w.s.rxBuf| == 2 * BUFSIZE && |w.s.txBuf| == BUFSIZE && |w.s.txBuf1| == BUFSIZE
    requires w.s.inputBufOffset == 0 && w.s.rxLen == 0 && w.s.txLen == NAK && w.s.txLen1 == NAK
    requires w.s.deviceAddr == 0 && w.s.newDeviceAddr == 0 && !w.log.addrPending
    requires w.log.heard == [] && w.log.accepted == [] && w.log.sent == [] && w.log.sent1 == []
    requires c.delivered == [] && !c.processing && c.tr == Transfer(0, Canned, [], [], 0, 0, 0, 0)
    requires !c.writing0 && !c.writing1 && c.count1 == 0 && !c.waiting && !c.split && c.fetched == []
    ensures Inv(w, c)
  {
    HandshakesHaveBit4(0);
  }
}
