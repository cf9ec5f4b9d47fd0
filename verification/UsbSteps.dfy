/** The single writes of the C code to the shared memory, and why each of them keeps
    the invariants: between any two of them the interrupt routine may run. */
module UsbSteps {
  import opened Bits
  import opened UsbShared
  import opened UsbControl
  import opened UsbHistory
  import opened UsbWire

  // ---- endpoint 0 ----------------------------------------------------------

  /** The transmit buffer may be written when the interrupt routine will not send it:
      while a received packet waits or the length word says so. */
  lemma Claim0(w: World, c: Code)
    requires Inv(w, c) && (w.s.rxLen > 0 || Bit4(w.s.txLen))
    ensures Inv(w, c.(writing0 := true))
  {
    hide Bit4, SentOk, Follows, Setups, BlockBytes, GoodBlock, Built, GivenOk, OnRecord, Bus0, Bus1, MailboxOk,
      Endpoint1Ok, Length;
    SameMailbox(w, c, w, c.(writing0 := true));
    SameEndpoint1(w, c, w, c.(writing0 := true));
  }

  lemma Unclaim0(w: World, c: Code)
    requires Inv(w, c) && Bit4(w.s.txLen)
    ensures Inv(w, c.(writing0 := false))
  {
    hide Bit4, SentOk, Follows, Setups, BlockBytes, GoodBlock, Built, GivenOk, OnRecord, Bus0, Bus1, MailboxOk,
      Endpoint1Ok, Length;
    SameMailbox(w, c, w, c.(writing0 := false));
    SameEndpoint1(w, c, w, c.(writing0 := false));
  }

  lemma WriteTxBuf(w: World, c: Code, buf: seq<byte>)
    requires Inv(w, c) && c.writing0 && |buf| == BUFSIZE
    ensures Inv(w.(s := w.s.(txBuf := buf)), c)
  {
    hide Bit4, SentOk, Follows, Setups, BlockBytes, GoodBlock, Built, GivenOk, OnRecord, Bus0, Bus1, MailboxOk,
      Endpoint1Ok, Length;
    var v := w.(s := w.s.(txBuf := buf));
    SameMailbox(w, c, v, c);
    SameEndpoint1(w, c, v, c);
  }

  /** The transfer an 8-byte SETUP begins, before it is known what it asks for. */
  function Fresh(c: Code): Transfer { Transfer(c.tr.tag + 1, Canned, c.delivered, [], 0, 0, 0, 0) }

  lemma StillGiven(sent: seq<Sent>, fetched: seq<Read>, tag: nat, kind: Kind, reply: seq<byte>, newTag: nat,
                   newKind: Kind, newReply: seq<byte>)
    requires GivenOk(sent, fetched, tag, kind, reply) && tag <= newTag
    requires newKind.UserRead? ==> newReply <= GivenFor(fetched, newTag)
    ensures GivenOk(sent, fetched, newTag, newKind, newReply)
  {
    hide GivenFor;
  }

  lemma GivenMeans(w: World, c: Code)
    requires Inv(w, c)
    ensures NoneLater(c.fetched, c.tr.tag) && SentGiven(w.log.sent, c.fetched)
  {
    hide Wellformed, MailboxOk, Endpoint0Ok, Endpoint1Ok, AddressOk, RecordOk, SentGiven, NoneLater, GivenFor;
  }

  /** usbFunctionRead has returned. */
  lemma Gave(w: World, c: Code, bytes: seq<byte>)
    requires Inv(w, c)
    ensures Inv(w, c.(fetched := c.fetched + [Read(c.tr.tag, bytes)]))
  {
    hide Bit4, MailboxOk, Endpoint0Ok, Endpoint1Ok, GivenOk, OnRecord, Bus0, Bus1, Length;
    var d := c.(fetched := c.fetched + [Read(c.tr.tag, bytes)]);
    MoreGiven(w.log.sent, c.fetched, c.tr.tag, c.tr.kind, c.tr.reply, bytes);
    SameMailbox(w, c, w, d);
    SameEndpoint0(w, c, w, d);
    SameEndpoint1(w, c, w, d);
  }

  /** usbTxLen = USBPID_NAK on an 8-byte SETUP: whatever was built before is gone. */
  lemma Abort(w: World, c: Code)
    requires Inv(w, c) && c.processing
    ensures Inv(w.(s := w.s.(txLen := NAK)), c.(tr := Fresh(c)))
  {
    hide Bit4, SentOk, Setups, BlockBytes, GoodBlock, Built, GivenOk, OnRecord, Bus0, Bus1, MailboxOk,
      Endpoint1Ok, Length;
    HandshakesHaveBit4(0);
    assert Length(NAK) by { LengthOfNak(); }
    var v := w.(s := w.s.(txLen := NAK));
    var d := c.(tr := Fresh(c));
    StillGiven(w.log.sent, c.fetched, c.tr.tag, c.tr.kind, c.tr.reply, d.tr.tag, Canned, []);
    SameMailbox(w, c, v, d);
    SameEndpoint1(w, c, v, d);
  }

  /** usbTxLen = len: the block becomes visible to the interrupt routine at once. */
  lemma Complete(w: World, c: Code, payload: seq<byte>)
    requires Inv(w, c) && c.writing0 && Bit4(w.s.txLen)
    requires var b := Block(c.tr, payload); GoodBlock(c.d, b) && w.s.txBuf[..|payload| + 3] == BlockBytes(b)
    requires c.tr.kind.UserRead? ==> c.tr.reply + payload <= GivenFor(c.fetched, c.tr.tag)
    ensures var b := Block(c.tr, payload);
      Inv(World(w.s.(txLen := |payload| + 4), w.log.(block := b)), c.(writing0 := false, tr := Built(b, c.tr.outs)))
  {
    hide Bit4, SentOk, Follows, Setups, BlockBytes, GoodBlock, Built, GivenOk, OnRecord, Bus0, Bus1, MailboxOk,
      Endpoint1Ok;
    var b := Block(c.tr, payload);
    GoodBlockFits(c.d, b);
    BuiltIs(b, c.tr.outs);
    BuiltGives(b, c.tr.outs);
    StillGiven(w.log.sent, c.fetched, c.tr.tag, c.tr.kind, c.tr.reply, c.tr.tag, c.tr.kind, Built(b, c.tr.outs).reply);
    HandshakesHaveBit4(|payload|);
    var v := World(w.s.(txLen := |payload| + 4), w.log.(block := b));
    var d := c.(writing0 := false, tr := Built(b, c.tr.outs));
    SameMailbox(w, c, v, d);
    SameEndpoint1(w, c, v, d);
  }

  lemma BuiltGives(b: Block, outs: nat)
    ensures Built(b, outs).kind == b.tr.kind
    ensures b.tr.kind.UserRead? ==> Built(b, outs).reply == b.tr.reply + b.payload
  {
  }

  lemma GoodBlockFits(d: Descriptors, b: Block)
    requires GoodBlock(d, b)
    ensures |b.payload| <= 8
  {
  }

  /** The transfer when usbFunctionWrite reports an error. If a packet was yet to be sent
      it is dropped, and with it its token. */
  function Stopped(tr: Transfer, pending: bool): Transfer {
    if pending then tr.(dropped := tr.dropped + 1) else tr
  }

  /** The transfer when usbFunctionRead reports an error: its token has been used. */
  function Failed(tr: Transfer): Transfer { tr.(built := tr.built + 1, dropped := tr.dropped + 1) }

  lemma FollowsStopped(sent: seq<Sent>, b: Block, outs: nat)
    requires Follows(sent, b.tr)
    ensures Follows(sent, Stopped(Built(b, outs), true))
  {
  }

  lemma FollowsFailed(sent: seq<Sent>, tr: Transfer)
    requires Follows(sent, tr)
    ensures Follows(sent, Failed(tr))
  {
  }

  /** usbTxLen = USBPID_STALL in usbProcessRx. */
  lemma Stalled(w: World, c: Code)
    requires Inv(w, c) && !c.writing0
    ensures Inv(w.(s := w.s.(txLen := STALL)), c.(tr := Stopped(c.tr, !Bit4(w.s.txLen))))
  {
    hide Bit4, SentOk, Follows, Setups, BlockBytes, GoodBlock, Built, GivenOk, OnRecord, Bus0, Bus1, MailboxOk,
      Endpoint1Ok;
    HandshakesHaveBit4(0);
    if !Bit4(w.s.txLen) { FollowsStopped(w.log.sent, w.log.block, c.tr.outs); }
    var v, d := w.(s := w.s.(txLen := STALL)), c.(tr := Stopped(c.tr, !Bit4(w.s.txLen)));
    SameMailbox(w, c, v, d);
    SameEndpoint1(w, c, v, d);
  }

  /** usbTxLen = USBPID_STALL in usbBuildTxBlock. */
  lemma StalledBuild(w: World, c: Code)
    requires Inv(w, c) && Bit4(w.s.txLen)
    ensures Inv(w.(s := w.s.(txLen := STALL)), c.(writing0 := false, tr := Failed(c.tr)))
  {
    hide Bit4, SentOk, Follows, Setups, BlockBytes, GoodBlock, Built, GivenOk, OnRecord, Bus0, Bus1, MailboxOk,
      Endpoint1Ok;
    HandshakesHaveBit4(0);
    FollowsFailed(w.log.sent, c.tr);
    var v, d := w.(s := w.s.(txLen := STALL)), c.(writing0 := false, tr := Failed(c.tr));
    SameMailbox(w, c, v, d);
    SameEndpoint1(w, c, v, d);
  }

  lemma FollowsCounted(sent: seq<Sent>, tr: Transfer, outs: nat)
    ensures Follows(sent, tr) ==> Follows(sent, tr.(outs := outs))
  {
  }

  lemma BuiltCounted(b: Block, outs: nat, more: nat)
    ensures Built(b, outs).(outs := more) == Built(b, more)
  {
  }

  /** An OUT packet counted for the transfer; nothing shared changes. */
  lemma Counted(w: World, c: Code)
    requires Inv(w, c)
    ensures Inv(w, c.(tr := c.tr.(outs := c.tr.outs + 1)))
  {
    hide Bit4, SentOk, Follows, Setups, BlockBytes, GoodBlock, Built, GivenOk, OnRecord, Bus0, Bus1, MailboxOk,
      Endpoint1Ok, Length;
    var d := c.(tr := c.tr.(outs := c.tr.outs + 1));
    FollowsCounted(w.log.sent, c.tr, d.tr.outs);
    BuiltCounted(w.log.block, c.tr.outs, d.tr.outs);
    SameMailbox(w, c, w, d);
    SameEndpoint1(w, c, w, d);
  }

  lemma FollowsSettled(sent: seq<Sent>, tr: Transfer, kind: Kind, reply: seq<byte>, limit: nat)
    requires Follows(sent, tr) && tr.built == 0 && tr.dropped == 0 && (kind.UserRead? ==> reply == [])
    ensures Follows(sent, tr.(kind := kind, reply := reply, limit := limit))
  {
  }

  /** What a new transfer is about is settled before anything is built for it. */
  lemma Settled(w: World, c: Code, kind: Kind, reply: seq<byte>, limit: nat)
    requires Inv(w, c) && c.tr.built == 0 && c.tr.dropped == 0 && Bit4(w.s.txLen)
    requires kind.UserRead? ==> reply == []
    ensures Inv(w, c.(tr := c.tr.(kind := kind, reply := reply, limit := limit)))
  {
    hide Bit4, SentOk, Follows, Setups, BlockBytes, GoodBlock, Built, GivenOk, OnRecord, Bus0, Bus1, MailboxOk,
      Endpoint1Ok, Length;
    var d := c.(tr := c.tr.(kind := kind, reply := reply, limit := limit));
    FollowsSettled(w.log.sent, c.tr, kind, reply, limit);
    StillGiven(w.log.sent, c.fetched, c.tr.tag, c.tr.kind, c.tr.reply, c.tr.tag, kind, reply);
    SameMailbox(w, c, w, d);
    SameEndpoint1(w, c, w, d);
  }

  /** usbProcessRx is called with the packet that waits. */
  lemma Deliver(w: World, c: Code)
    requires Inv(w, c) && w.s.rxLen > 0 && !c.processing
    ensures Inv(w, c.(delivered := c.delivered + [Waiting(w.s)], processing := true))
    ensures var p := Waiting(w.s);
      Setups(c.delivered + [p]) == c.tr.tag + if IsSetup8(p) then 1 else 0
  {
    hide Bit4, SentOk, Follows, Setups, BlockBytes, GoodBlock, Built, GivenOk, OnRecord, Bus0, Bus1, Endpoint1Ok,
      Length, Waiting;
    SetupsSnoc(c.delivered, Waiting(w.s));
    SameEndpoint1(w, c, w, c.(delivered := c.delivered + [Waiting(w.s)], processing := true));
  }

  /** usbRxLen = 0: the half of the buffer is free again. */
  lemma Release(w: World, c: Code)
    requires Inv(w, c) && c.processing && c.tr.tag == Setups(c.delivered)
    requires !c.writing0 && !c.writing1
    ensures Inv(w.(s := w.s.(rxLen := 0)), c.(processing := false))
  {
    hide Bit4, SentOk, Follows, Setups, BlockBytes, GoodBlock, Built, GivenOk, OnRecord, Bus0, Bus1, Endpoint1Ok,
      Length;
    assert c.delivered + [] == c.delivered;
    var v, d := w.(s := w.s.(rxLen := 0)), c.(processing := false);
    SameEndpoint1(w, c, v, d);
  }

  // ---- addresses ------------------------------------------------------------

  lemma SetAddress(w: World, c: Code, addr: nat)
    requires Inv(w, c)
    ensures var old_ := if w.log.addrPending then c.oldAddr else w.s.newDeviceAddr;
      Inv(World(w.s.(newDeviceAddr := addr), w.log.(addrPending := true)), c.(oldAddr := old_))
  {
    hide GivenOk, OnRecord, Bus0, Bus1, Bit4, MailboxOk, Endpoint0Ok, Endpoint1Ok, Length;
    var d := c.(oldAddr := if w.log.addrPending then c.oldAddr else w.s.newDeviceAddr);
    var v := World(w.s.(newDeviceAddr := addr), w.log.(addrPending := true));
    SameMailbox(w, c, v, d);
    SameEndpoint0(w, c, v, d);
    SameEndpoint1(w, c, v, d);
  }

  /** usbDeviceAddr = 0, after usbNewDeviceAddr = 0: the reset state. */
  lemma ResetAddress(w: World, c: Code)
    requires Inv(w, c) && w.s.newDeviceAddr == 0
    ensures Inv(World(w.s.(deviceAddr := 0), w.log.(addrPending := false)), c)
  {
    hide GivenOk, OnRecord, Bus0, Bus1, Bit4, MailboxOk, Endpoint0Ok, Endpoint1Ok, Length;
    var v := World(w.s.(deviceAddr := 0), w.log.(addrPending := false));
    SameMailbox(w, c, v, c);
    SameEndpoint0(w, c, v, c);
    SameEndpoint1(w, c, v, c);
  }

  // ---- endpoint 1 ----------------------------------------------------------

  /** usbTxBuf1[0] = USBPID_DATA1 on SET_INTERFACE. A message that waits is thereby
      renumbered: it is sent with DATA1 after all and DATA0 comes after it. */
  lemma ResetToggling(w: World, c: Code)
    requires Inv(w, c) && w.s.rxLen > 0 && !c.writing1
    ensures var waiting := !Bit4(w.s.txLen1);
      Inv(World(w.s.(txBuf1 := w.s.txBuf1[0 := Toggle(0)]),
                w.log.(message := Message(c.epoch + 1, 1, waiting, false, w.log.message.payload))),
          c.(epoch := c.epoch + 1, count1 := if waiting then 2 else 0, waiting := waiting))
  {
    hide GivenOk, OnRecord, Bus0, Bus1, Bit4, Sent1Ok, SentIn, PacketBytes, Toggle, MailboxOk, Endpoint0Ok, Length;
    var waiting, p := !Bit4(w.s.txLen1), w.log.message.payload;
    NoneSentInYet(w.log.sent1, c.epoch, waiting);
    if waiting {
      Relabel(w.s.txBuf1, Toggle(w.log.message.index + 1), Toggle(0), p);
      ToggleTwo();
    }
    var v := World(w.s.(txBuf1 := w.s.txBuf1[0 := Toggle(0)]),
                   w.log.(message := Message(c.epoch + 1, 1, waiting, false, p)));
    var d := c.(epoch := c.epoch + 1, count1 := if waiting then 2 else 0, waiting := waiting);
    SameMailbox(w, c, v, d);
    SameEndpoint0(w, c, v, d);
  }

  lemma NoneSentInYet(sent: seq<Sent1>, epoch: nat, waiting: bool)
    requires sent != [] ==> sent[|sent| - 1].message.epoch <= epoch
    ensures SentIn(sent, epoch + 1, waiting) == if waiting then 1 else 0
  {
  }

  lemma ToggleTwo()
    ensures Toggle(2) == Toggle(0)
  {
  }

  lemma Relabel(buf: seq<byte>, old_: byte, token: byte, payload: seq<byte>)
    requires |buf| == BUFSIZE && |payload| <= 8 && buf[..|payload| + 3] == PacketBytes(old_, payload)
    ensures buf[0 := token][..|payload| + 3] == PacketBytes(token, payload)
  {
    hide Crc16.CheckBytes;
    NewHead(old_, token, payload, Crc16.CheckBytes(payload), buf);
  }

  lemma NewHead<T>(a: T, b: T, payload: seq<T>, check: seq<T>, buf: seq<T>)
    requires |payload| + |check| < |buf| && buf[..|payload| + |check| + 1] == [a] + payload + check
    ensures buf[0 := b][..|payload| + |check| + 1] == [b] + payload + check
  {
    var n := |payload| + |check| + 1;
    forall i | 1 <= i < n ensures buf[i] == ([b] + payload + check)[i] {
      assert buf[i] == buf[..n][i];
    }
  }

  lemma Claim1(w: World, c: Code)
    requires Inv(w, c) && Bit4(w.s.txLen1)
    ensures Inv(w, c.(writing1 := true))
  {
    hide GivenOk, OnRecord, Bus0, Bus1, Bit4, Sent1Ok, SentIn, MessageBytes, MailboxOk, Endpoint0Ok, Length;
    SameMailbox(w, c, w, c.(writing1 := true));
    SameEndpoint0(w, c, w, c.(writing1 := true));
  }

  lemma WriteTxBuf1(w: World, c: Code, buf: seq<byte>)
    requires Inv(w, c) && c.writing1 && |buf| == BUFSIZE
    ensures Inv(w.(s := w.s.(txBuf1 := buf)), c)
  {
    hide GivenOk, OnRecord, Bus0, Bus1, Bit4, Sent1Ok, SentIn, MessageBytes, MailboxOk, Endpoint0Ok, Length;
    var v := w.(s := w.s.(txBuf1 := buf));
    SameMailbox(w, c, v, c);
    SameEndpoint0(w, c, v, c);
  }

  /** usbTxLen1 = USBPID_NAK in usbGenericSetInterrupt, when a message was waiting at
      the test before it: the message is withdrawn, unless it has been sent since. */
  lemma Withdraw(w: World, c: Code)
    requires Inv(w, c) && c.count1 > 0 && !c.writing1
    ensures Inv(w.(s := w.s.(txLen1 := NAK)),
                if Bit4(w.s.txLen1) then c.(split := true)
                else c.(count1 := c.count1 - if w.log.message.repeated then 0 else 1))
  {
    hide GivenOk, OnRecord, Bus0, Bus1, Bit4, Sent1Ok, SentIn, MessageBytes, MailboxOk, Endpoint0Ok, Length;
    HandshakesHaveBit4(0);
    assert Length(NAK) by { LengthOfNak(); }
    var v := w.(s := w.s.(txLen1 := NAK));
    var d := if Bit4(w.s.txLen1) then c.(split := true)
             else c.(count1 := c.count1 - if w.log.message.repeated then 0 else 1);
    SameMailbox(w, c, v, d);
    SameEndpoint0(w, c, v, d);
  }

  /** The next message: numbered on from the messages sent, or, when the token was not
      toggled although the last message has been sent, with its number again. */
  function NextMessage(c: Code, repeated: bool, payload: seq<byte>): Message
    requires repeated ==> c.count1 > 0
  {
    Message(c.epoch, if repeated then c.count1 - 1 else c.count1, c.waiting, repeated, payload)
  }

  /** usbTxLen1 = len + 4. */
  lemma Complete1(w: World, c: Code, repeated: bool, payload: seq<byte>)
    requires Inv(w, c) && c.writing1 && Bit4(w.s.txLen1) && |payload| <= 8
    requires repeated ==> c.split && c.count1 > 0
    requires w.s.txBuf1[..|payload| + 3] == MessageBytes(NextMessage(c, repeated, payload))
    ensures var m := NextMessage(c, repeated, payload);
      Inv(World(w.s.(txLen1 := |payload| + 4), w.log.(message := m)),
          c.(writing1 := false, count1 := m.index + 1))
  {
    hide GivenOk, OnRecord, Bus0, Bus1, Bit4, Sent1Ok, SentIn, MessageBytes, MailboxOk, Endpoint0Ok;
    HandshakesHaveBit4(|payload|);
    var m := NextMessage(c, repeated, payload);
    var v := World(w.s.(txLen1 := |payload| + 4), w.log.(message := m));
    var d := c.(writing1 := false, count1 := m.index + 1);
    SameMailbox(w, c, v, d);
    SameEndpoint0(w, c, v, d);
  }
}
