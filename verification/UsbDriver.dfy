/** The driver: usbdrv.c and asmcommon.inc as one object whose fields are their
    variables. Between any two accesses of the C code to memory that the interrupt
    routine writes, and behind every write to memory that it reads, stands a call of
    Preempt, which runs it any number of times on anything the line may show. */
module UsbDriver {
  import opened Bits
  import opened LinePort
  import opened UsbControl
  import opened UsbShared
  import opened UsbWire
  import opened UsbHistory
  import opened UsbRequests
  import opened UsbSteps
  import opened UsbTheorems
  import LineTracking
  import Receive16
  import CrcForms
  import Crc16

  class Device {
    const usbRxBuf: array<byte>
    const usbTxBuf: array<byte>
    const usbTxBuf1: array<byte>
    var usbInputBufOffset: nat
    var usbRxLen: nat
    var usbCurrentTok: Token
    var usbRxToken: Token
    var usbTxLen: nat
    var usbTxLen1: nat
    var usbDeviceAddr: nat
    var usbNewDeviceAddr: nat
    var usbConfiguration: byte
    var usbMsgPtr: Pointer
    var usbMsgLen: nat
    var usbMsgFlags: byte
    const descriptors: Descriptors
    ghost var log: Log
    ghost var code: Code

    ghost predicate Separate() {
      usbRxBuf != usbTxBuf && usbRxBuf != usbTxBuf1 && usbTxBuf != usbTxBuf1
    }

    ghost function S(): Shared
      reads `usbInputBufOffset, `usbRxLen, `usbCurrentTok, `usbRxToken, `usbTxLen, `usbTxLen1,
            `usbDeviceAddr, `usbNewDeviceAddr, usbRxBuf, usbTxBuf, usbTxBuf1
    {
      Shared(usbRxBuf[..], usbInputBufOffset, usbRxLen, usbCurrentTok, usbRxToken,
             usbTxLen, usbTxBuf[..], usbTxLen1, usbTxBuf1[..], usbDeviceAddr, usbNewDeviceAddr)
    }

    ghost function W(): World
      reads `log, `usbInputBufOffset, `usbRxLen, `usbCurrentTok, `usbRxToken, `usbTxLen, `usbTxLen1,
            `usbDeviceAddr, `usbNewDeviceAddr, usbRxBuf, usbTxBuf, usbTxBuf1
    {
      World(S(), log)
    }

    ghost predicate Valid()
      reads `log, `code, `usbInputBufOffset, `usbRxLen, `usbCurrentTok, `usbRxToken, `usbTxLen, `usbTxLen1,
            `usbDeviceAddr, `usbNewDeviceAddr, usbRxBuf, usbTxBuf, usbTxBuf1
    {
      Separate() && descriptors.Valid() && code.d == descriptors && Inv(W(), code)
    }

    // ---- the interrupt routine ---------------------------------------------

    /** se0 to the point where the reply is known. */
    method HandlePacket(cnt: nat) returns (reply: Reply)
      requires Separate() && Wellformed(S()) && cnt <= BUFSIZE
      modifies `usbCurrentTok, `usbRxLen, `usbRxToken, `usbInputBufOffset, `usbTxLen, `usbTxLen1
      ensures var t := HandleWhole(old(S()), cnt, HeadAt(old(usbRxBuf[..]), old(usbInputBufOffset)));
        reply == t.reply && S() == t.s.(deviceAddr := usbDeviceAddr)
    {
      hide HeadOf, Bit4, Length;
      var off := usbInputBufOffset;
      var head := HeadOf(usbRxBuf[off], usbRxBuf[off + 1], usbRxBuf[off + 2]);
      reply := Silent;
      if head.pid.Data? {                           // handleData
        if usbCurrentTok != NoToken {
          if usbRxLen != 0 {
            reply := Handshake(NAK);
          } else if cnt < 4 {
            reply := Handshake(ACK);
          } else {
            usbRxLen := cnt;
            usbRxToken := usbCurrentTok;
            usbInputBufOffset := BUFSIZE - usbInputBufOffset;
            reply := Handshake(ACK);
          }
        }
      } else if head.addr != usbDeviceAddr {       // ignorePacket
        usbCurrentTok := NoToken;
      } else if head.pid.In? {
        reply := HandleInToken(head.endpoint0);
      } else if head.pid.Setup? {                  // handleSetupOrOut
        usbCurrentTok := SetupToken;
      } else if head.pid.Out? {
        usbCurrentTok := OutToken;
      } else {
        usbCurrentTok := NoToken;
      }
    }

    method HandleInToken(endpoint0: bool) returns (reply: Reply)
      requires Separate() && Wellformed(S())
      modifies `usbTxLen, `usbTxLen1
      ensures var t := HandleIn(old(S()), endpoint0);
        reply == t.reply && S() == t.s.(deviceAddr := usbDeviceAddr)
    {
      hide Bit4;
      if usbRxLen >= 1 {
        reply := Handshake(NAK);
      } else if endpoint0 {
        var cnt := usbTxLen;
        if Bit4(cnt) {
          reply := Handshake(cnt);
        } else {
          usbTxLen := NAK;
          reply := DataPacket(0, usbTxBuf[..cnt - 1]);
        }
      } else {                                     // handleIn1
        var cnt := usbTxLen1;
        if Bit4(cnt) {
          reply := Handshake(cnt);
        } else {
          usbTxLen1 := NAK;
          reply := DataPacket(1, usbTxBuf1[..cnt - 1]);
        }
      }
    }

    method ReceivePacket(port: seq<byte>, start: nat, ghost bytes: seq<byte>)
      returns (outcome: LineTracking.Outcome, ghost r: Reception)
      requires Separate() && Wellformed(S())
      modifies usbRxBuf
      ensures r.Valid() && S() == Arrived(old(S()), r.bytes)
      ensures if outcome.Packet? then r.Whole? && outcome.n == |r.bytes| else r.Overrun?
      ensures LineTracking.Carries(port, start, bytes) ==> r == ReceptionOf(bytes)
    {
      hide Bit4, Length, LineTracking.Carries, Stored;
      var off := usbInputBufOffset;
      ghost var before := usbRxBuf[..];
      ghost var y;
      outcome, y := Receive16.Receive(port, start, usbRxBuf, off, bytes);
      ghost var stored := usbRxBuf[..][off..y];
      Spliced(before, usbRxBuf[..], off, y);
      r := if outcome.Packet? then Whole(stored) else Overrun(stored);
      if LineTracking.Carries(port, start, bytes) { Prefix(usbRxBuf[..], off, y, bytes); }
    }

    /** One packet, from its first bit on the line to the last bit of the answer. */
    method UsbInterrupt(port: seq<byte>, start: nat, out: byte, ghost bytes: seq<byte>)
      returns (trace: seq<byte>, ghost r: Reception)
      requires Separate() && Wellformed(S()) && Masked(out) == 0
      modifies usbRxBuf, `usbCurrentTok, `usbRxLen, `usbRxToken, `usbInputBufOffset,
               `usbTxLen, `usbTxLen1, `usbDeviceAddr, `log
      ensures r.Valid() && W() == Next(old(W()), r)
      ensures LineTracking.Carries(port, start, bytes) ==> r == ReceptionOf(bytes)
      ensures var reply := Interrupt(old(S()), r).reply;
        Sendable(reply) && trace == OnTheLine(out, reply)
    {
      hide Bit4, Length, HeadAt, HandleWhole, Masked, OnTheLine, Sendable, LineTracking.Carries, ReceptionOf;
      ghost var before := S();
      var outcome;
      outcome, r := ReceivePacket(port, start, bytes);
      var reply := Silent;
      if outcome.Packet? {
        RepliesAreSendable(S(), outcome.n, HeadAt(usbRxBuf[..], usbInputBufOffset));
        reply := HandlePacket(outcome.n);
      } else {
        usbCurrentTok := NoToken;
      }
      assert reply == Interrupt(before, r).reply;
      assert Sendable(reply) by { SilenceIsSendable(); }
      var assign;
      trace, assign := SendReply(reply, out);
      if assign { usbDeviceAddr := usbNewDeviceAddr * 2 % 256; }
      AddressTurn(before, r);
      log := Logged(log, Entry(before, r), Interrupt(before, r));
    }

    /** A point between two accesses of the C code to shared memory. */
    method Preempt()
      requires Valid()
      modifies usbRxBuf, `usbCurrentTok, `usbRxLen, `usbRxToken, `usbInputBufOffset,
               `usbTxLen, `usbTxLen1, `usbDeviceAddr, `log
      ensures Valid() && Grown(old(W()), W())
    {
      hide Inv, Wellformed, Steady, Bit4;
      InvWellformed(W(), code);
      GrownSelf(W());
      var packets: nat := *;
      while packets > 0
        invariant Valid() && Grown(old(W()), W())
      {
        var port: seq<byte>, start: nat, out: byte := *, *, *;
        if Masked(out) == 0 {
          ghost var w := W();
          InvWellformed(w, code);
          var trace;
          ghost var r;
          trace, r := UsbInterrupt(port, start, out, []);
          InvKept(w, code, [r]);
          assert [r][1..] == [];
          assert AfterAll(w, [r]) == W();
          GrownTrans(old(W()), w, W());
        }
        packets := packets - 1;
      }
    }

    // ---- usbTxBuf -----------------------------------------------------------

    /** usbTxBuf[i] = b. */
    method PokeTxBuf(i: nat, b: byte)
      requires Valid() && code.writing0 && i < usbTxBuf.Length
      modifies usbTxBuf, usbRxBuf, `usbCurrentTok, `usbRxLen, `usbRxToken, `usbInputBufOffset,
               `usbTxLen, `usbTxLen1, `usbDeviceAddr, `log
      ensures Valid() && usbTxBuf[..] == old(usbTxBuf[..])[i := b]
      ensures old(usbRxLen) > 0 ==> SameMail(old(S()), S())
      ensures Bit4(old(usbTxLen)) ==> usbTxLen == old(usbTxLen)
    {
      hide Inv, Wellformed, Bit4;
      InvWellformed(W(), code);
      ghost var buf := usbTxBuf[..][i := b];
      WriteTxBuf(W(), code, buf);
      ghost var w := W();
      usbTxBuf[i] := b;
      assert usbTxBuf[..] == buf;
      assert W() == w.(s := w.s.(txBuf := buf));
      Preempt();
      SteadyMail(w.s.(txBuf := buf), S());
    }

    /** What usbMsgPtr points at. */
    function MsgBytes(): seq<byte>
      reads `usbMsgPtr, `usbConfiguration, usbTxBuf
      requires usbTxBuf.Length == BUFSIZE
    {
      match usbMsgPtr
      case Fixed(bytes) => bytes
      case Spare => usbTxBuf[9..11]
      case Configuration => [usbConfiguration]
    }

    /** usbDeviceRead: up to eight bytes of the reply, or what usbFunctionRead gives
        for them (255 for an error), into usbTxBuf behind the token. */
    method UsbDeviceRead(len: nat) returns (r: nat, ghost given: seq<byte>)
      requires Valid() && code.writing0 && Bit4(usbTxLen) && len <= 8 && usbTxBuf.Length == BUFSIZE
      requires !UserRw(usbMsgFlags) ==> len <= |MsgBytes()| && (!usbMsgPtr.Fixed? ==> len <= 2)
      modifies `usbMsgPtr, `code, usbTxBuf, usbRxBuf, `usbCurrentTok, `usbRxLen, `usbRxToken, `usbInputBufOffset,
               `usbTxLen, `usbTxLen1, `usbDeviceAddr, `log
      ensures Valid() && usbTxBuf[0] == old(usbTxBuf[0]) && usbTxLen == old(usbTxLen)
      ensures r <= len || (r == 255 && UserRw(usbMsgFlags))
      ensures len == 0 ==> r == 0
      ensures r <= 8 ==> usbTxBuf[1..1 + r] == given
      ensures code == old(code).(fetched := code.fetched)
      ensures if UserRw(usbMsgFlags) then Fetched(old(code), code, if r <= 8 then given else [])
              else code == old(code)
      ensures !UserRw(usbMsgFlags) ==> r == len && given == old(MsgBytes())[..len]
      ensures !UserRw(usbMsgFlags) && old(usbMsgPtr.Fixed?) ==> usbMsgPtr == Fixed(old(MsgBytes())[len..])
    {
      hide Valid, S, W, Bit4, UserRw, GivenFor;
      if len == 0 { return 0, []; }
      if UserRw(usbMsgFlags) {
        r, given := UsbFunctionRead(len);
        GivenSnoc(old(code.fetched), Read(code.tr.tag, given), code.tr.tag);
      } else {
        given := CopyReply(len);
        r := len;
      }
    }

    /** The copy loops of usbDeviceRead. */
    method CopyReply(len: nat) returns (ghost given: seq<byte>)
      requires Valid() && code.writing0 && Bit4(usbTxLen) && len <= 8 && usbTxBuf.Length == BUFSIZE
      requires len <= |MsgBytes()| && (!usbMsgPtr.Fixed? ==> len <= 2)
      modifies `usbMsgPtr, usbTxBuf, usbRxBuf, `usbCurrentTok, `usbRxLen, `usbRxToken, `usbInputBufOffset,
               `usbTxLen, `usbTxLen1, `usbDeviceAddr, `log
      ensures Valid() && usbTxBuf[0] == old(usbTxBuf[0]) && usbTxLen == old(usbTxLen)
      ensures usbTxBuf[1..1 + len] == given == old(MsgBytes())[..len]
      ensures old(usbMsgPtr.Fixed?) ==> usbMsgPtr == Fixed(old(MsgBytes())[len..])
    {
      hide Inv, Wellformed, Bit4;
      InvWellformed(W(), code);
      ghost var source := MsgBytes();
      var i := 0;
      while i < len
        invariant 0 <= i <= len
        invariant Valid() && usbTxBuf[0] == old(usbTxBuf[0]) && usbTxLen == old(usbTxLen)
        invariant usbTxBuf[1..1 + i] == source[..i]
        invariant usbMsgPtr.Fixed? == old(usbMsgPtr.Fixed?)
        invariant if usbMsgPtr.Fixed? then usbMsgPtr.bytes == source[i..] else MsgBytes() == source
      {
        var c := if usbMsgPtr.Fixed? then usbMsgPtr.bytes[0] else MsgBytes()[i];
        PokeTxBuf(1 + i, c);
        if usbMsgPtr.Fixed? { usbMsgPtr := Fixed(usbMsgPtr.bytes[1..]); }
        i := i + 1;
      }
      given := source[..len];
    }

    /** usbFunctionRead of any application: it writes to the buffer behind the token as
        often as it likes and says how many of the bytes asked for there are, or reports
        an error; these bytes are what it has given. */
    method UsbFunctionRead(len: nat) returns (r: nat, ghost given: seq<byte>)
      requires Valid() && code.writing0 && Bit4(usbTxLen) && len <= 8 && usbTxBuf.Length == BUFSIZE
      modifies `code, usbTxBuf, usbRxBuf, `usbCurrentTok, `usbRxLen, `usbRxToken, `usbInputBufOffset,
               `usbTxLen, `usbTxLen1, `usbDeviceAddr, `log
      ensures Valid() && usbTxBuf[0] == old(usbTxBuf[0]) && usbTxLen == old(usbTxLen)
      ensures (r <= len && usbTxBuf[1..1 + r] == given) || (r == 255 && given == [])
      ensures code == old(code).(fetched := old(code.fetched) + [Read(old(code.tr.tag), given)])
    {
      hide Inv, Wellformed, Bit4;
      InvWellformed(W(), code);
      var writes: nat := *;
      while writes > 0
        invariant Valid() && usbTxBuf[0] == old(usbTxBuf[0]) && usbTxLen == old(usbTxLen) && code == old(code)
      {
        var i: nat, b: byte := *, *;
        if 1 <= i < BUFSIZE { PokeTxBuf(i, b); }
        writes := writes - 1;
      }
      var answer: int := *;
      r := if 0 <= answer <= len then answer else 255;
      given := if r == 255 then [] else usbTxBuf[1..1 + r];
      Gave(W(), code, given);
      code := code.(fetched := code.fetched + [Read(code.tr.tag, given)]);
    }

    // ---- between two packets ------------------------------------------------

    /** What the C code knows of its own variables whenever it is not in the middle
        of a packet or a block. */
    ghost predicate Resting()
      reads `code, `usbMsgPtr, `usbMsgLen, `usbMsgFlags, `usbConfiguration, usbTxBuf, usbTxBuf1
    {
      && Separate() && usbTxBuf.Length == BUFSIZE && usbTxBuf1.Length == BUFSIZE
      && Rested(code, usbTxBuf[0], usbTxBuf1[0], usbMsgLen, UserRw(usbMsgFlags), MsgBytes(), usbMsgPtr.Fixed?)
    }

    /** The transfer under way is what its SETUP asks for, and usbConfiguration is what
        the packets handed over so far have made it. */
    ghost predicate Answering()
      reads `code, `usbConfiguration
    {
      && usbConfiguration == ConfigurationAfter(code.delivered)
      && (code.tr.tag > 0 ==> Answers(descriptors, code.tr))
    }

    /** usbCrc16Append(&usbTxBuf[1], len). */
    method AppendCheck(len: nat)
      requires Valid() && code.writing0 && Bit4(usbTxLen) && len <= 8
      modifies usbTxBuf, usbRxBuf, `usbCurrentTok, `usbRxLen, `usbRxToken, `usbInputBufOffset,
               `usbTxLen, `usbTxLen1, `usbDeviceAddr, `log
      ensures Valid() && usbTxLen == old(usbTxLen)
      ensures usbTxBuf[..len + 3] == PacketBytes(old(usbTxBuf[0]), old(usbTxBuf[1..1 + len]))
    {
      hide Inv, Wellformed, Bit4, Crc16.CheckBytes;
      InvWellformed(W(), code);
      ghost var w, before := W(), usbTxBuf[..];
      CrcForms.UsbCrc16Append(usbTxBuf, 1, len);
      WriteTxBuf(w, code, usbTxBuf[..]);
      assert W() == w.(s := w.s.(txBuf := usbTxBuf[..]));
      CheckSize(before[1..1 + len]);
      assert usbTxBuf[..][..len + 3] == before[..len + 1] + Crc16.CheckBytes(before[1..1 + len]);
      assert before[..len + 1] == [before[0]] + before[1..1 + len];
      Preempt();
    }

    /** The end of usbBuildTxBlock: from here on the interrupt routine sends the block. */
    method CompleteBlock(len: nat)
      requires Valid() && code.writing0 && Bit4(usbTxLen) && len <= 8
      requires usbTxBuf[0] == Toggle(code.tr.built) && GoodBlock(descriptors, Block(code.tr, usbTxBuf[1..1 + len]))
      requires code.tr.kind.UserRead? ==>
        code.tr.reply + usbTxBuf[1..1 + len] <= GivenFor(code.fetched, code.tr.tag)
      modifies `code, usbTxBuf, usbRxBuf, `usbCurrentTok, `usbRxLen, `usbRxToken,
               `usbInputBufOffset, `usbTxLen, `usbTxLen1, `usbDeviceAddr, `log
      ensures Valid() && usbTxBuf[0] == old(usbTxBuf[0])
      ensures code == old(code).(writing0 := false, tr := Built(log.block, old(code.tr.outs)))
      ensures usbTxLen == len + 4 && log.block == Block(old(code.tr), old(usbTxBuf[1..1 + len]))
    {
      hide Inv, Wellformed, Bit4, Toggle, GoodBlock, Built, GivenFor, Crc16.CheckBytes;
      InvWellformed(W(), code);
      ghost var payload := usbTxBuf[1..1 + len];
      AppendCheck(len);
      assert usbTxBuf[0] == usbTxBuf[..len + 3][0];
      ghost var w := W();
      Complete(w, code, payload);
      log := log.(block := Block(code.tr, payload));
      code := code.(writing0 := false, tr := Built(log.block, code.tr.outs));
      usbTxLen := len + 4;
      assert W() == World(w.s.(txLen := len + 4), w.log.(block := log.block));
    }

    lemma FixedBytes()
      requires usbTxBuf.Length == BUFSIZE
      ensures usbMsgPtr.Fixed? ==> MsgBytes() == usbMsgPtr.bytes
    {
    }

    /** The first half of usbBuildTxBlock: toggle the token and fetch the data. */
    method FillBlock(wantLen: nat) returns (len: nat, ghost given: seq<byte>)
      requires Valid() && Resting() && Bit4(usbTxLen) && code.tr.tag > 0 && wantLen <= 8
      requires code.tr.kind.Canned? ==> wantLen <= |MsgBytes()| && (!usbMsgPtr.Fixed? ==> wantLen <= 2)
      modifies `usbMsgPtr, `code, usbTxBuf, usbRxBuf, `usbCurrentTok, `usbRxLen, `usbRxToken,
               `usbInputBufOffset, `usbTxLen, `usbTxLen1, `usbDeviceAddr, `log
      ensures Valid() && code == old(code).(writing0 := true, fetched := code.fetched) && usbTxLen == old(usbTxLen)
      ensures if code.tr.kind.Canned? then code.fetched == old(code.fetched)
              else Fetched(old(code), code, if len <= 8 then given else [])
      ensures usbTxBuf[0] == Toggle(code.tr.built)
      ensures len <= wantLen || (len == 255 && code.tr.kind != Canned)
      ensures wantLen == 0 ==> len == 0
      ensures len <= 8 ==> usbTxBuf[1..1 + len] == given
      ensures code.tr.kind.Canned? ==>
        && len == wantLen && given == old(MsgBytes())[..len]
        && (old(usbMsgPtr.Fixed?) ==> usbMsgPtr == Fixed(old(MsgBytes())[len..]))
    {
      hide Inv, Wellformed, Bit4, UserRw, Toggle, Left, OtherToken, GivenFor;
      Claim0(W(), code);
      code := code.(writing0 := true);
      ToggleFlips(code.tr.built);
      PokeTxBuf(0, OtherToken(usbTxBuf[0]));
      len, given := UsbDeviceRead(wantLen);
    }

    method StallEndpoint0()
      requires Valid() && Bit4(usbTxLen)
      modifies `usbTxLen, `code
      ensures Valid() && usbTxLen == STALL
      ensures code == old(code).(writing0 := false, tr := Failed(old(code.tr)))
    {
      hide Inv, Wellformed, Bit4;
      ghost var w := W();
      StalledBuild(w, code);
      code := code.(writing0 := false, tr := Failed(code.tr));
      usbTxLen := STALL;
      assert W() == w.(s := w.s.(txLen := STALL));
    }

    /** usbBuildTxBlock, which also drops the rest of the message when the block is
        short or the application reports an error. The block carries what was given for
        it, by the application or from memory. */
    method UsbBuildTxBlock() returns (ghost given: seq<byte>)
      requires Valid() && Resting() && Answering() && Bit4(usbTxLen) && usbMsgLen != NO_MSG
      modifies `usbMsgPtr, `usbMsgLen, `code, usbTxBuf, usbRxBuf, `usbCurrentTok, `usbRxLen, `usbRxToken,
               `usbInputBufOffset, `usbTxLen, `usbTxLen1, `usbDeviceAddr, `log
      ensures Valid() && Resting()
      ensures code == old(code).(tr := code.tr, fetched := code.fetched)
      ensures OneBlock(old(code.tr), code.tr, log.block, usbTxLen)
      ensures usbTxLen != STALL ==> log.block.payload == given
      ensures if old(code.tr.kind).Canned? then code.fetched == old(code.fetched)
              else Fetched(old(code), code, if usbTxLen != STALL then given else [])
      ensures old(code.tr.kind).Canned? ==> NextSlice(old(code.tr), log.block, usbTxLen, usbMsgLen)
    {
      hide Inv, Wellformed, Bit4, UserRw, Toggle, Left, GoodBlock, MsgBytes, Valid, S, W, NextSlice, Built, Answers,
        ConfigurationAfter, GivenFor;
      var wantLen := if usbMsgLen > 8 then 8 else usbMsgLen;
      ghost var tr, msgLen, left, fixed := code.tr, usbMsgLen, MsgBytes(), usbMsgPtr.Fixed?;
      Asked(tr, msgLen, left, fixed);
      ToggleFlips(tr.built);
      var len;
      len, given := FillBlock(wantLen);
      if len <= 8 {
        FinishBlock(len, wantLen, tr, msgLen, left, fixed);
        BuiltKeeps(log.block, tr.outs);
      } else {
        usbMsgLen := NO_MSG;
        StallEndpoint0();
      }
    }

    /** The block is complete; a short one is the last. */
    method FinishBlock(len: nat, wantLen: nat, ghost tr: Transfer, ghost msgLen: nat, ghost left: seq<byte>,
                       ghost fixed: bool)
      requires Valid() && code.writing0 && Bit4(usbTxLen) && len <= wantLen && code.tr == tr && usbMsgLen == msgLen
      requires wantLen == (if msgLen > 8 then 8 else msgLen) && msgLen < NO_MSG && Left(tr, msgLen, left, fixed)
      requires Answers(descriptors, tr) && (tr.kind.Canned? ==> tr.dropped == 0)
      requires tr.kind.UserRead? ==>
        usbTxBuf.Length == BUFSIZE && tr.reply + usbTxBuf[1..1 + len] == GivenFor(code.fetched, tr.tag)
      requires tr.kind.Canned? ==>
        && wantLen <= |left| && len == wantLen && usbTxBuf.Length == BUFSIZE && usbTxBuf[1..1 + len] == left[..len]
        && (fixed ==> usbMsgPtr == Fixed(left[len..]))
      requires usbTxBuf.Length == BUFSIZE && usbTxBuf[0] == Toggle(tr.built) && tr.tag > 0
      modifies `usbMsgLen, `code, usbTxBuf, usbRxBuf, `usbCurrentTok, `usbRxLen, `usbRxToken,
               `usbInputBufOffset, `usbTxLen, `usbTxLen1, `usbDeviceAddr, `log
      ensures Valid() && usbTxBuf[0] == old(usbTxBuf[0]) && usbMsgLen <= NO_MSG
      ensures code == old(code).(writing0 := false, tr := Built(log.block, tr.outs))
      ensures log.block == Block(tr, old(usbTxBuf[1..1 + len])) && usbTxLen == len + 4
      ensures usbMsgLen != NO_MSG ==> Left(code.tr, usbMsgLen, MsgBytes(), usbMsgPtr.Fixed?)
      ensures tr.kind.Canned? && usbMsgLen == NO_MSG ==> code.tr.built == |code.tr.reply| / 8 + 1
      ensures tr.kind.UserRead? ==>
        |code.tr.reply| <= code.tr.limit && code.tr.reply == GivenFor(code.fetched, tr.tag)
      ensures tr.kind.Canned? ==> NextSlice(tr, log.block, usbTxLen, usbMsgLen)
    {
      hide Inv, Wellformed, Bit4, UserRw, Toggle, Left, GoodBlock, MsgBytes, Valid, S, W, NextSlice, Built, Answers,
        GivenFor;
      ghost var payload := usbTxBuf[1..1 + len];
      NextBlock(descriptors, tr, msgLen, left, fixed, payload);
      CompleteBlock(len);
      usbMsgLen := if len + 4 < 12 then NO_MSG else usbMsgLen - wantLen;
      FixedBytes();
      BuiltKeeps(Block(tr, payload), tr.outs);
      BuiltGives(Block(tr, payload), tr.outs);
      BlockLeaves(descriptors, tr, msgLen, left, fixed, payload, MsgBytes(), usbMsgPtr.Fixed?, usbTxLen);
    }

    // ---- a received packet --------------------------------------------------

    /** usbProcessRx has been given the packet at `data`; its payload is q and stays so
        until usbRxLen is cleared. Nothing is sent meanwhile. */
    ghost predicate Reading(data: nat, q: seq<byte>)
      reads `log, `code, `usbInputBufOffset, `usbRxLen, `usbCurrentTok, `usbRxToken, `usbTxLen, `usbTxLen1,
            `usbDeviceAddr, `usbNewDeviceAddr, usbRxBuf, usbTxBuf, usbTxBuf1
    {
      && Valid() && code.processing && usbRxLen == |q| + 3
      && Waiting(S()).data == q && data == BUFSIZE + 1 - usbInputBufOffset
    }

    /** data[k], and an interrupt point. */
    method ReadRx(data: nat, k: nat, ghost q: seq<byte>) returns (b: byte)
      requires Reading(data, q) && k < |q|
      modifies usbRxBuf, `usbCurrentTok, `usbRxLen, `usbRxToken,
               `usbInputBufOffset, `usbTxLen, `usbTxLen1, `usbDeviceAddr, `log
      ensures b == q[k] && Reading(data, q)
      ensures usbTxLen == old(usbTxLen) && usbTxLen1 == old(usbTxLen1) && usbRxToken == old(usbRxToken)
    {
      hide Inv, Wellformed, Bit4;
      InvWellformed(W(), code);
      WaitingByte(S(), k);
      RxInBounds(S(), k);
      b := usbRxBuf[data + k];
      ghost var s := S();
      Preempt();
      SteadyFrozen(s, S());
    }

    method PokeWhileReading(i: nat, b: byte, data: nat, ghost q: seq<byte>)
      requires Reading(data, q) && code.writing0 && i < usbTxBuf.Length
      modifies usbTxBuf, usbRxBuf, `usbCurrentTok, `usbRxLen, `usbRxToken,
               `usbInputBufOffset, `usbTxLen, `usbTxLen1, `usbDeviceAddr, `log
      ensures Reading(data, q) && usbTxBuf[..] == old(usbTxBuf[..])[i := b]
      ensures Bit4(old(usbTxLen)) ==> usbTxLen == old(usbTxLen)
      ensures usbRxToken == old(usbRxToken)
    {
      hide Inv, Wellformed, Bit4;
      InvWellformed(W(), code);
      PokeTxBuf(i, b);
    }

    /** USBRQ_SET_ADDRESS: remembered until a data packet has been sent. */
    method AssignAddress(value: nat, data: nat, ghost q: seq<byte>)
      requires Reading(data, q)
      modifies `usbNewDeviceAddr, `code, `log
      ensures Reading(data, q) && usbNewDeviceAddr == value && code == old(code).(oldAddr := code.oldAddr)
    {
      hide Inv, Wellformed, Bit4;
      InvWellformed(W(), code);
      ghost var w := W();
      UsbSteps.SetAddress(w, code, value);
      code := code.(oldAddr := if log.addrPending then code.oldAddr else usbNewDeviceAddr);
      log := log.(addrPending := true);
      usbNewDeviceAddr := value;
      assert W() == World(w.s.(newDeviceAddr := value), w.log.(addrPending := true));
    }

    /** usbResetDataToggling. */
    method UsbResetDataToggling(data: nat, ghost q: seq<byte>)
      requires Reading(data, q) && !code.writing1
      modifies usbTxBuf1, `code, `log
      ensures Reading(data, q) && usbTxBuf1.Length > 0 && usbTxBuf1[0] == Toggle(code.count1)
      ensures code == old(code).(epoch := old(code.epoch) + 1, count1 := code.count1, waiting := code.waiting)
      ensures code.waiting <==> !Bit4(usbTxLen1)
      ensures code.count1 == if code.waiting then 2 else 0
    {
      hide Inv, Wellformed, Bit4, Toggle;
      InvWellformed(W(), code);
      ghost var w, waiting := W(), !Bit4(usbTxLen1);
      ghost var buf := usbTxBuf1[..][0 := Toggle(0)];
      ToggleTwo();
      ResetToggling(w, code);
      log := log.(message := Message(code.epoch + 1, 1, waiting, false, log.message.payload));
      code := code.(epoch := code.epoch + 1, count1 := if waiting then 2 else 0, waiting := waiting);
      usbTxBuf1[0] := Toggle(0);
      assert usbTxBuf1[..] == buf;
      assert W() == World(w.s.(txBuf1 := buf), w.log.(message := log.message));
    }

    method PreemptReading(data: nat, ghost q: seq<byte>)
      requires Reading(data, q)
      modifies usbRxBuf, `usbCurrentTok, `usbRxLen, `usbRxToken,
               `usbInputBufOffset, `usbTxLen, `usbTxLen1, `usbDeviceAddr, `log
      ensures Reading(data, q) && usbTxLen == old(usbTxLen) && usbTxLen1 == old(usbTxLen1)
      ensures usbRxToken == old(usbRxToken)
    {
      hide Inv, Wellformed, Bit4;
      InvWellformed(W(), code);
      ghost var s := S();
      Preempt();
      SteadyFrozen(s, S());
    }

    /** The default reply common to GET_STATUS and GET_INTERFACE. */
    method SpareReply(data: nat, ghost q: seq<byte>)
      requires Reading(data, q) && code.writing0 && Bit4(usbTxLen) && usbTxBuf.Length == BUFSIZE
      modifies usbTxBuf, usbRxBuf, `usbCurrentTok, `usbRxLen, `usbRxToken,
               `usbInputBufOffset, `usbTxLen, `usbTxLen1, `usbDeviceAddr, `log
      ensures Reading(data, q) && usbTxLen == old(usbTxLen) && usbRxToken == old(usbRxToken)
      ensures usbTxBuf[0] == old(usbTxBuf[0]) && usbTxBuf[9] == 0 && usbTxBuf[10] == old(usbTxBuf[10])
    {
      hide Reading, Valid, S, Bit4;
      PokeWhileReading(9, 0, data, q);
    }

    /** The requests that only change state; each has an empty reply. */
    method StandardCommand(request: Request, value: byte, data: nat, ghost q: seq<byte>)
      requires Reading(data, q) && !code.writing1 && Separate() && usbTxBuf1.Length == BUFSIZE
      requires usbTxBuf1[0] == Toggle(code.count1)
      modifies `usbConfiguration, `usbNewDeviceAddr, `code, usbTxBuf1, usbRxBuf, `usbCurrentTok, `usbRxLen, `usbRxToken,
               `usbInputBufOffset, `usbTxLen, `usbTxLen1, `usbDeviceAddr, `log
      ensures Reading(data, q) && usbTxLen == old(usbTxLen) && usbRxToken == old(usbRxToken)
      ensures usbTxBuf1[0] == Toggle(code.count1)
      ensures usbNewDeviceAddr == if request.SetAddress? then Num(value) else old(usbNewDeviceAddr)
      ensures usbConfiguration == if request.SetConfiguration? then value else old(usbConfiguration)
      ensures code == old(code).(oldAddr := code.oldAddr, epoch := code.epoch, count1 := code.count1,
                                 waiting := code.waiting)
      ensures code.epoch == old(code.epoch) + if request.SetInterface? then 1 else 0
    {
      hide Reading, Valid, S, Bit4, Toggle, Num;
      match request {
        case SetAddress => AssignAddress(Num(value), data, q);
        case SetConfiguration => usbConfiguration := value;
        case SetInterface => UsbResetDataToggling(data, q);
        case _ =>
      }
      PreemptReading(data, q);
    }

    /** The requests that only ask; the others leave an empty reply. */
    method StandardQuery(request: Request, value: byte, data: nat, ghost q: seq<byte>) returns (len: nat)
      requires Reading(data, q) && |q| == 8 && code.writing0 && Bit4(usbTxLen)
      requires Separate() && usbTxBuf.Length == BUFSIZE && descriptors.Valid() && usbTxBuf[9] == 0
      requires request == RequestOf(q[1]) && value == q[2] && !UserRw(usbMsgFlags)
      modifies `usbMsgPtr, `usbMsgFlags, usbTxBuf, usbRxBuf, `usbCurrentTok, `usbRxLen, `usbRxToken,
               `usbInputBufOffset, `usbTxLen, `usbTxLen1, `usbDeviceAddr, `log
      ensures Reading(data, q) && usbTxLen == old(usbTxLen) && usbRxToken == old(usbRxToken)
      ensures usbTxBuf[0] == old(usbTxBuf[0]) && !UserRw(usbMsgFlags)
      ensures len <= |MsgBytes()| && (!usbMsgPtr.Fixed? ==> len <= 2)
      ensures MsgBytes()[..len] == StandardReply(q, descriptors, usbConfiguration)
    {
      hide Reading, Valid, S, Bit4, Num, RequestOf, UserRw, Descriptors.Find, Descriptors.Valid;
      len := 0;
      usbMsgPtr := Spare;
      match request {
        case GetStatus =>
          PokeWhileReading(10, 0, data, q);
          len := 2;
        case GetDescriptor =>
          var kind := ReadRx(data, 3, q);
          var found := descriptors.Find(Num(kind), Num(value));
          usbMsgFlags := 0x40;
          FlagValues();
          usbMsgPtr := Fixed(found);
          len := |found|;
        case GetConfiguration =>
          usbMsgPtr := Configuration;
          len := 1;
        case GetInterface =>
          len := 1;
        case _ =>
      }
    }

    /** usbDriverSetup: standard requests. */
    method UsbDriverSetup(data: nat, ghost q: seq<byte>) returns (len: nat)
      requires Reading(data, q) && |q| == 8 && code.writing0 && Bit4(usbTxLen) && !code.writing1
      requires Separate() && usbTxBuf.Length == BUFSIZE && usbTxBuf1.Length == BUFSIZE && descriptors.Valid()
      requires usbTxBuf1[0] == Toggle(code.count1) && !UserRw(usbMsgFlags)
      modifies `usbMsgPtr, `usbMsgFlags, `usbConfiguration, `usbNewDeviceAddr, `code, usbTxBuf, usbTxBuf1,
               usbRxBuf, `usbCurrentTok, `usbRxLen, `usbRxToken,
               `usbInputBufOffset, `usbTxLen, `usbTxLen1, `usbDeviceAddr, `log
      ensures Reading(data, q) && usbTxLen == old(usbTxLen) && usbRxToken == old(usbRxToken)
      ensures usbTxBuf[0] == old(usbTxBuf[0]) && usbTxBuf1[0] == Toggle(code.count1) && !UserRw(usbMsgFlags)
      ensures len <= |MsgBytes()| && (!usbMsgPtr.Fixed? ==> len <= 2)
      ensures MsgBytes()[..len] == StandardReply(q, descriptors, usbConfiguration)
      ensures usbNewDeviceAddr == if RequestOf(q[1]).SetAddress? then Num(q[2]) else old(usbNewDeviceAddr)
      ensures usbConfiguration == if RequestOf(q[1]).SetConfiguration? then q[2] else old(usbConfiguration)
      ensures code == old(code).(oldAddr := code.oldAddr, epoch := code.epoch, count1 := code.count1,
                                 waiting := code.waiting)
      ensures code.epoch == old(code.epoch) + if RequestOf(q[1]).SetInterface? then 1 else 0
    {
      hide Reading, Valid, S, Bit4, Toggle, Num, RequestOf, UserRw, Descriptors.Find, Descriptors.Valid, MsgBytes,
        StandardReply;
      var value := ReadRx(data, 2, q);
      SpareReply(data, q);
      var b := ReadRx(data, 1, q);
      var request := RequestOf(b);
      StandardCommand(request, value, data, q);
      len := StandardQuery(request, value, data, q);
    }

    /** usbTxBuf[0] = USBPID_DATA0; usbTxLen = USBPID_NAK. */
    method BeginTransfer(data: nat, ghost q: seq<byte>)
      requires Reading(data, q) && usbTxBuf.Length == BUFSIZE
      modifies `code, usbTxBuf, usbRxBuf, `usbCurrentTok, `usbRxLen, `usbRxToken,
               `usbInputBufOffset, `usbTxLen, `usbTxLen1, `usbDeviceAddr, `log
      ensures Reading(data, q) && usbRxToken == old(usbRxToken) && usbTxLen == NAK
      ensures code == old(code).(writing0 := true, tr := Fresh(old(code))) && GivenFor(code.fetched, code.tr.tag) == []
      ensures usbTxBuf[0] == Toggle(1)
    {
      hide Inv, Wellformed, Bit4, Toggle, Setups;
      InvWellformed(W(), code);
      Claim0(W(), code);
      code := code.(writing0 := true);
      PokeWhileReading(0, Toggle(1), data, q);
      AbortTransmit(data, q);
      PreemptReading(data, q);
    }

    method AbortTransmit(data: nat, ghost q: seq<byte>)
      requires Reading(data, q)
      modifies `code, `usbTxLen
      ensures Reading(data, q) && usbTxLen == NAK
      ensures code == old(code).(tr := Fresh(old(code))) && GivenFor(code.fetched, code.tr.tag) == []
    {
      hide Inv, Wellformed, Bit4, Toggle;
      ghost var w := W();
      GivenMeans(w, code);
      NoneGivenYet(code.fetched, code.tr.tag);
      Abort(w, code);
      code := code.(tr := Fresh(code));
      usbTxLen := NAK;
      assert W() == w.(s := w.s.(txLen := NAK));
      InvWellformed(W(), code);
    }

    /** usbFunctionSetup of any application, for requests that are not standard. */
    method UsbFunctionSetup() returns (len: nat, ghost app: AppReply)
      requires Separate()
      modifies `usbMsgPtr
      ensures if app.Here? then usbMsgPtr == Fixed(app.bytes) && len == |app.bytes| < NO_MSG else len == NO_MSG
    {
      var reply: AppReply := *;
      app := UseReadWrite;
      if reply.Here? && |reply.bytes| < NO_MSG {
        usbMsgPtr := Fixed(reply.bytes);
        len := |reply.bytes|;
        app := reply;
      } else {
        len := NO_MSG;
      }
    }

    /** An 8-byte SETUP: whatever was going on is aborted and the new transfer begins. */
    method ProcessSetup(data: nat, ghost q: seq<byte>, ghost before: seq<Rx>) returns (ghost app: AppReply)
      requires Reading(data, q) && |q| == 8 && Resting() && descriptors.Valid()
      requires code.delivered == before + [Rx(SetupToken, q)] && usbConfiguration == ConfigurationAfter(before)
      requires code.tr.tag + 1 == Setups(code.delivered)
      modifies `usbMsgPtr, `usbMsgLen, `usbMsgFlags, `usbConfiguration, `usbNewDeviceAddr, `code, usbTxBuf, usbTxBuf1,
               usbRxBuf, `usbCurrentTok, `usbRxLen, `usbRxToken,
               `usbInputBufOffset, `usbTxLen, `usbTxLen1, `usbDeviceAddr, `log
      ensures Reading(data, q) && Resting() && Bit4(usbTxLen) && usbConfiguration == ConfigurationAfter(code.delivered)
      ensures code.delivered == old(code.delivered)
      ensures code.split == old(code.split) && code.fetched == old(code.fetched)
      ensures Begun(old(code.tr), code.tr, usbMsgLen, code.delivered, descriptors) && Heeded(q, app, code.tr)
      ensures usbNewDeviceAddr == NextAddress(Rx(SetupToken, q), old(usbNewDeviceAddr))
      ensures code.epoch == old(code.epoch) + if IsStandard(Rx(SetupToken, q), SetInterface) then 1 else 0
    {
      hide Reading, Valid, S, W, Bit4, Toggle, Num, RequestOf, UserRw, Descriptors.Find, Descriptors.Valid,
        StandardReply, Standard, DeviceToHost, IsZero, Setups, Left, MsgBytes, Limited, Answers, ConfigurationAfter,
        NextAddress, NextConfiguration, IsStandard;
      BeginTransfer(data, q);
      HandshakesHaveBit4(0);
      usbMsgFlags := 0;
      FlagValues();
      var replyLen, requestType;
      replyLen, requestType, app := SetupReply(data, q);
      ConfigurationSnoc(before, Rx(SetupToken, q));
      SettleTransfer(replyLen, requestType, data, q);
      SetupAnswered(descriptors, code.delivered, q, usbConfiguration, code.tr);
    }

    /** The driver's or the application's answer to the request. */
    method SetupReply(data: nat, ghost q: seq<byte>)
      returns (replyLen: nat, requestType: byte, ghost app: AppReply)
      requires Reading(data, q) && |q| == 8 && code.writing0 && Bit4(usbTxLen) && !code.writing1
      requires Separate() && usbTxBuf.Length == BUFSIZE && usbTxBuf1.Length == BUFSIZE && descriptors.Valid()
      requires usbTxBuf1[0] == Toggle(code.count1) && !UserRw(usbMsgFlags)
      modifies `usbMsgPtr, `usbMsgFlags, `usbConfiguration, `usbNewDeviceAddr, `code, usbTxBuf, usbTxBuf1,
               usbRxBuf, `usbCurrentTok, `usbRxLen, `usbRxToken,
               `usbInputBufOffset, `usbTxLen, `usbTxLen1, `usbDeviceAddr, `log
      ensures Reading(data, q) && usbTxLen == old(usbTxLen) && requestType == q[0] && replyLen <= NO_MSG
      ensures usbTxBuf[0] == old(usbTxBuf[0]) && usbTxBuf1[0] == Toggle(code.count1) && !UserRw(usbMsgFlags)
      ensures replyLen != NO_MSG ==> replyLen <= |MsgBytes()| && (!usbMsgPtr.Fixed? ==> replyLen <= 2)
      ensures Standard(q[0]) ==>
        replyLen != NO_MSG && MsgBytes()[..replyLen] == StandardReply(q, descriptors, usbConfiguration)
      ensures !Standard(q[0]) ==>
        if app.Here? then replyLen == |app.bytes| < NO_MSG && MsgBytes()[..replyLen] == app.bytes
        else replyLen == NO_MSG
      ensures usbNewDeviceAddr == NextAddress(Rx(SetupToken, q), old(usbNewDeviceAddr))
      ensures usbConfiguration == NextConfiguration(Rx(SetupToken, q), old(usbConfiguration))
      ensures code == old(code).(oldAddr := code.oldAddr, epoch := code.epoch, count1 := code.count1,
                                 waiting := code.waiting)
      ensures code.epoch == old(code.epoch) + if IsStandard(Rx(SetupToken, q), SetInterface) then 1 else 0
    {
      hide Reading, Valid, S, W, Bit4, Toggle, Num, RequestOf, UserRw, Descriptors.Find, Descriptors.Valid,
        StandardReply, Standard, MsgBytes;
      requestType := ReadRx(data, 0, q);
      if !Standard(requestType) {
        replyLen, app := UsbFunctionSetup();
        FixedBytes();
      } else {
        replyLen := UsbDriverSetup(data, q);
        app := UseReadWrite;
      }
    }

    /** How much of the reply will be sent, or which callbacks will supply it. */
    method SettleTransfer(replyLen: nat, requestType: byte, data: nat, ghost q: seq<byte>)
      requires Reading(data, q) && |q| == 8 && Bit4(usbTxLen) && code.writing0 && !code.writing1
      requires Separate() && usbTxBuf.Length == BUFSIZE && usbTxBuf1.Length == BUFSIZE && replyLen <= NO_MSG
      requires code.tr.tag > 0 && code.tr.built == 0 && code.tr.dropped == 0 && !UserRw(usbMsgFlags)
      requires GivenFor(code.fetched, code.tr.tag) == []
      requires usbTxBuf[0] == Toggle(1) && usbTxBuf1[0] == Toggle(code.count1)
      requires replyLen != NO_MSG ==> replyLen <= |MsgBytes()| && (!usbMsgPtr.Fixed? ==> replyLen <= 2)
      modifies `usbMsgLen, `usbMsgFlags, `code, usbRxBuf, `usbCurrentTok, `usbRxLen, `usbRxToken,
               `usbInputBufOffset, `usbTxLen, `usbTxLen1, `usbDeviceAddr, `log
      ensures Reading(data, q) && Resting() && usbTxLen == old(usbTxLen)
      ensures code == old(code).(writing0 := false,
                tr := old(code.tr).(kind := code.tr.kind, reply := code.tr.reply, limit := Num(q[6])))
      ensures code.tr.kind ==
        if replyLen != NO_MSG then Canned else if DeviceToHost(requestType) then UserRead else UserWrite
      ensures replyLen != NO_MSG ==>
        code.tr.reply == Limited(old(MsgBytes())[..replyLen], Num(q[6]), IsZero(q[7])) && usbMsgLen == |code.tr.reply|
      ensures replyLen == NO_MSG ==> usbMsgLen == if DeviceToHost(requestType) then Num(q[6]) else NO_MSG
    {
      hide Reading, Valid, S, W, Bit4, Toggle, Num, UserRw, DeviceToHost, IsZero, Left, MsgBytes;
      var low := ReadRx(data, 6, q);
      var high := ReadRx(data, 7, q);
      if replyLen == NO_MSG {
        UseCallbacks(DeviceToHost(requestType), Num(low), data, q);
      } else {
        UseReply(replyLen, Num(low), IsZero(high), data, q);
      }
    }

    /** USB_NO_MSG: the application's callbacks supply or take the data. */
    method UseCallbacks(toHost: bool, low: nat, data: nat, ghost q: seq<byte>)
      requires Reading(data, q) && Bit4(usbTxLen) && code.writing0 && !code.writing1
      requires Separate() && usbTxBuf.Length == BUFSIZE && usbTxBuf1.Length == BUFSIZE
      requires code.tr.tag > 0 && code.tr.built == 0 && code.tr.dropped == 0 && !UserRw(usbMsgFlags)
      requires usbTxBuf[0] == Toggle(1) && usbTxBuf1[0] == Toggle(code.count1)
      requires low <= NO_MSG && GivenFor(code.fetched, code.tr.tag) == []
      modifies `usbMsgLen, `usbMsgFlags, `code
      ensures Reading(data, q) && Resting()
      ensures code == old(code).(writing0 := false,
                tr := old(code.tr).(kind := if toHost then UserRead else UserWrite, reply := [], limit := low))
      ensures usbMsgLen == if toHost then low else NO_MSG
    {
      hide Reading, Valid, S, W, Bit4, Toggle, UserRw, Left, MsgBytes;
      var replyLen := NO_MSG;
      if toHost { replyLen := low; }
      FlagValues();
      usbMsgFlags := 0x80;
      usbMsgLen := replyLen;
      SettleGhost(if toHost then UserRead else UserWrite, [], low, data, q);
      if toHost { LeftAtStart(code.tr, replyLen, MsgBytes(), usbMsgPtr.Fixed?); }
    }

    /** The reply at usbMsgPtr, limited to what was asked for. */
    method UseReply(replyLen: nat, low: nat, highIsZero: bool, data: nat, ghost q: seq<byte>)
      requires Reading(data, q) && Bit4(usbTxLen) && code.writing0 && !code.writing1
      requires Separate() && usbTxBuf.Length == BUFSIZE && usbTxBuf1.Length == BUFSIZE
      requires code.tr.tag > 0 && code.tr.built == 0 && code.tr.dropped == 0 && !UserRw(usbMsgFlags)
      requires usbTxBuf[0] == Toggle(1) && usbTxBuf1[0] == Toggle(code.count1)
      requires replyLen < NO_MSG && replyLen <= |MsgBytes()| && (!usbMsgPtr.Fixed? ==> replyLen <= 2)
      modifies `usbMsgLen, `code
      ensures Reading(data, q) && Resting()
      ensures code == old(code).(writing0 := false,
                tr := old(code.tr).(kind := Canned, reply := code.tr.reply, limit := low))
      ensures code.tr.reply == Limited(MsgBytes()[..replyLen], low, highIsZero) && usbMsgLen == |code.tr.reply|
    {
      hide Reading, Valid, S, W, Bit4, Toggle, UserRw, Left, MsgBytes;
      var len := replyLen;
      if highIsZero && len > low { len := low; }
      usbMsgLen := len;
      SettleGhost(Canned, MsgBytes()[..len], low, data, q);
      LeftAtStart(code.tr, len, MsgBytes(), usbMsgPtr.Fixed?);
    }

    ghost method SettleGhost(kind: Kind, reply: seq<byte>, limit: nat, data: nat, q: seq<byte>)
      requires Reading(data, q) && Bit4(usbTxLen) && code.tr.built == 0 && code.tr.dropped == 0
      requires kind.UserRead? ==> reply == []
      modifies `code
      ensures Reading(data, q)
      ensures code == old(code).(writing0 := false, tr := old(code.tr).(kind := kind, reply := reply, limit := limit))
    {
      hide Inv, Wellformed, Bit4;
      InvWellformed(W(), code);
      Settled(W(), code, kind, reply, limit);
      code := code.(tr := code.tr.(kind := kind, reply := reply, limit := limit));
      Unclaim0(W(), code);
      code := code.(writing0 := false);
    }

    /** usbFunctionWrite of any application; it is given exactly the payload. */
    method UsbFunctionWrite(data: nat, ghost q: seq<byte>) returns (rval: nat, given: seq<byte>)
      requires Reading(data, q)
      modifies usbRxBuf, `usbCurrentTok, `usbRxLen, `usbRxToken,
               `usbInputBufOffset, `usbTxLen, `usbTxLen1, `usbDeviceAddr, `log
      ensures Reading(data, q) && given == q
      ensures usbTxLen == old(usbTxLen) && usbTxLen1 == old(usbTxLen1) && usbRxToken == old(usbRxToken)
    {
      hide Reading, Valid, S, W;
      given := [];
      var len := LenWhileReading(data, q);
      while |given| < len
        invariant Reading(data, q) && |given| <= len && given == q[..|given|]
        invariant usbTxLen == old(usbTxLen) && usbTxLen1 == old(usbTxLen1) && usbRxToken == old(usbRxToken)
      {
        var b := ReadRx(data, |given|, q);
        given := given + [b];
      }
      var answer: byte := *;
      rval := Num(answer);
    }

    method LenWhileReading(data: nat, ghost q: seq<byte>) returns (len: nat)
      requires Reading(data, q)
      ensures len == |q|
    {
      hide Inv, Wellformed;
      len := usbRxLen - 3;
    }

    ghost method CountOut(data: nat, q: seq<byte>)
      requires Reading(data, q)
      modifies `code
      ensures Reading(data, q) && code == old(code).(tr := old(code.tr).(outs := old(code.tr.outs) + 1))
    {
      hide Inv, Wellformed;
      InvWellformed(W(), code);
      Counted(W(), code);
      code := code.(tr := code.tr.(outs := code.tr.outs + 1));
    }

    method StallWhileReading(data: nat, ghost q: seq<byte>)
      requires Reading(data, q) && !code.writing0
      modifies `code, `usbTxLen
      ensures Reading(data, q) && code == old(code).(tr := Stopped(old(code.tr), !Bit4(old(usbTxLen))))
      ensures usbTxLen == STALL
    {
      hide Inv, Wellformed, Bit4;
      ghost var w := W();
      Stalled(w, code);
      code := code.(tr := Stopped(code.tr, !Bit4(usbTxLen)));
      usbTxLen := STALL;
      assert W() == w.(s := w.s.(txLen := STALL));
      InvWellformed(W(), code);
    }

    /** An OUT packet, the data phase of a control-out transfer. */
    method ProcessOut(data: nat, ghost q: seq<byte>) returns (ghost rval: nat)
      requires Reading(data, q) && Resting()
      modifies `usbMsgLen, `code, usbRxBuf, `usbCurrentTok, `usbRxLen, `usbRxToken,
               `usbInputBufOffset, `usbTxLen, `usbTxLen1, `usbDeviceAddr, `log
      ensures Reading(data, q) && Resting()
      ensures !UserRw(usbMsgFlags) ==> code == old(code) && usbMsgLen == old(usbMsgLen)
      ensures UserRw(usbMsgFlags) ==>
        Confirmed(old(code.tr), code.tr, old(usbMsgLen), usbMsgLen, rval, !Bit4(old(usbTxLen)))
      ensures code == old(code).(tr := code.tr)
      ensures usbTxLen == if UserRw(usbMsgFlags) && rval == 255 then STALL else old(usbTxLen)
    {
      hide Reading, Valid, S, W, Bit4, Toggle, UserRw, Left, MsgBytes, Rested;
      rval := 0;
      if UserRw(usbMsgFlags) { RestingClaimsNothing(); }
      if UserRw(usbMsgFlags) {
        var result, given := UsbFunctionWrite(data, q);
        rval := result;
        CountOut(data, q);
        if result == 255 {
          StallWhileReading(data, q);
        } else if result != 0 {
          usbMsgLen := 0;
        }
        RestedConfirmed(old(code), code, usbTxBuf[0], usbTxBuf1[0], old(usbMsgLen), usbMsgLen, MsgBytes(),
                        usbMsgPtr.Fixed?, result == 255 && !Bit4(old(usbTxLen)));
        PreemptReading(data, q);
      }
    }

    ghost method DeliverPacket(data: nat) returns (q: seq<byte>)
      requires Valid() && !code.processing && usbRxLen > 3 && data == BUFSIZE + 1 - usbInputBufOffset
      modifies `code
      ensures Reading(data, q) && q == old(Waiting(S()).data) && |q| == usbRxLen - 3
      ensures code == old(code).(processing := true, delivered := old(code.delivered) + [old(Waiting(S()))])
      ensures old(Waiting(S())) == Rx(usbRxToken, q)
      ensures Setups(code.delivered) == code.tr.tag + if IsSetup8(Rx(usbRxToken, q)) then 1 else 0
    {
      hide Inv, Wellformed, Setups;
      InvWellformed(W(), code);
      Deliver(W(), code);
      q := Waiting(S()).data;
      WaitingSize(S());
      code := code.(processing := true, delivered := code.delivered + [Waiting(S())]);
    }

    /** usbProcessRx. */
    method UsbProcessRx(data: nat, len: nat)
      returns (ghost q: seq<byte>, ghost rval: nat, ghost app: AppReply)
      requires Valid() && Resting() && Answering() && !code.processing && usbRxLen == len + 3 && len > 0
      requires data == BUFSIZE + 1 - usbInputBufOffset
      modifies `usbMsgPtr, `usbMsgLen, `usbMsgFlags, `usbConfiguration, `usbNewDeviceAddr, `code, usbTxBuf, usbTxBuf1,
               usbRxBuf, `usbCurrentTok, `usbRxLen, `usbRxToken,
               `usbInputBufOffset, `usbTxLen, `usbTxLen1, `usbDeviceAddr, `log
      ensures Reading(data, q) && Resting() && Answering() && code.tr.tag == Setups(code.delivered)
      ensures code.delivered == old(code.delivered) + [old(Waiting(S()))]
      ensures code.split == old(code.split) && code.fetched == old(code.fetched)
      ensures Processed(old(Waiting(S())), old(code.tr), code.tr, old(usbMsgLen), usbMsgLen, code.delivered,
                        descriptors, !Bit4(old(usbTxLen)), rval)
      ensures IsForApp(old(Waiting(S())), old(code.tr)) && rval == 255 ==> usbTxLen == STALL
      ensures IsSetup8(old(Waiting(S()))) ==> Heeded(old(Waiting(S())).data, app, code.tr)
      ensures code.epoch == old(code.epoch) + if IsStandard(old(Waiting(S())), SetInterface) then 1 else 0
      ensures IsSetup8(old(Waiting(S()))) ==> Bit4(usbTxLen)
      ensures Bit4(old(usbTxLen)) ==> Bit4(usbTxLen)
      ensures usbNewDeviceAddr == NextAddress(old(Waiting(S())), old(usbNewDeviceAddr))
    {
      hide Reading, Valid, W, S, Bit4, Setups, Toggle, UserRw, Left, MsgBytes, Descriptors.Valid, Begun, Confirmed, Heeded,
        Answers, ConfigurationAfter, Standard, RequestOf, Num;
      assert descriptors.Valid() by { ValidDescriptors(); }
      ghost var before, was := code.delivered, code.tr;
      q := DeliverPacket(data);
      rval, app := 0, UseReadWrite;
      ghost var p := Rx(usbRxToken, q);
      PreemptReading(data, q);
      HandshakesHaveBit4(0);
      ConfigurationSnoc(before, p);
      if usbRxToken == SetupToken {
        if len != 8 { return; }
        app := ProcessSetup(data, q, before);
        BegunTag(was, code.tr, usbMsgLen, code.delivered, descriptors);
      } else {
        rval := ProcessOut(data, q);
        if UserRw(usbMsgFlags) {
          ConfirmedTag(was, code.tr, old(usbMsgLen), usbMsgLen, rval, !Bit4(old(usbTxLen)));
          AnswersStill(descriptors, was, code.tr);
        }
      }
    }

    lemma ValidDescriptors()
      requires Valid()
      ensures descriptors.Valid()
    {
      hide Inv;
    }

    // ---- usbPoll ------------------------------------------------------------

    /** usbRxLen = 0. */
    method FreeRxBuffer(data: nat, ghost q: seq<byte>)
      requires Reading(data, q) && code.tr.tag == Setups(code.delivered) && !code.writing0 && !code.writing1
      modifies `code, usbRxBuf, `usbCurrentTok, `usbRxLen, `usbRxToken,
               `usbInputBufOffset, `usbTxLen, `usbTxLen1, `usbDeviceAddr, `log
      ensures Valid() && code == old(code).(processing := false)
      ensures Bit4(old(usbTxLen)) ==> usbTxLen == old(usbTxLen)
    {
      hide Inv, Wellformed, Setups, Bit4;
      InvWellformed(W(), code);
      ghost var w := W();
      Release(w, code);
      code := code.(processing := false);
      usbRxLen := 0;
      assert W() == w.(s := w.s.(rxLen := 0));
      Preempt();
    }

    /** The RESET condition: both address registers are cleared, one after the other. */
    method ClearAddress()
      requires Valid()
      modifies `usbNewDeviceAddr, `code, usbRxBuf, `usbCurrentTok, `usbRxLen, `usbRxToken,
               `usbInputBufOffset, `usbTxLen, `usbTxLen1, `usbDeviceAddr, `log
      ensures Valid() && code == old(code).(oldAddr := code.oldAddr)
      ensures usbNewDeviceAddr == 0 && usbDeviceAddr == 0
      ensures Bit4(old(usbTxLen)) ==> usbTxLen == old(usbTxLen)
    {
      hide Inv, Wellformed, Bit4;
      ghost var w := W();
      UsbSteps.SetAddress(w, code, 0);
      code := code.(oldAddr := if log.addrPending then code.oldAddr else usbNewDeviceAddr);
      log := log.(addrPending := true);
      usbNewDeviceAddr := 0;
      assert W() == World(w.s.(newDeviceAddr := 0), w.log.(addrPending := true));
      Preempt();
      ghost var v := W();
      ResetAddress(v, code);
      log := log.(addrPending := false);
      usbDeviceAddr := 0;
      assert W() == World(v.s.(deviceAddr := 0), v.log.(addrPending := false));
    }

    lemma LengthsOfRx()
      requires Valid()
      ensures Wellformed(S()) && (usbRxLen == 0 || usbRxLen >= 4) && usbInputBufOffset <= BUFSIZE
    {
    }

    /** An interrupt point at which a packet waits. */
    method PreemptWaiting()
      requires Valid() && usbRxLen > 0
      modifies usbRxBuf, `usbCurrentTok, `usbRxLen, `usbRxToken, `usbInputBufOffset,
               `usbTxLen, `usbTxLen1, `usbDeviceAddr, `log
      ensures Valid() && Wellformed(S()) && Wellformed(old(S()))
      ensures usbRxLen == old(usbRxLen) && Waiting(S()) == Waiting(old(S())) && usbInputBufOffset <= BUFSIZE
      ensures usbTxLen == old(usbTxLen)
    {
      hide Inv, Bit4;
      InvWellformed(W(), code);
      ghost var s := S();
      Preempt();
      SteadyFrozen(s, S());
      InvWellformed(W(), code);
    }

    /** The first part of usbPoll: one packet, if one waits. */
    method PollReceive() returns (ghost rval: nat, ghost app: AppReply)
      requires Valid() && Resting() && Answering() && !code.processing
      modifies `usbMsgPtr, `usbMsgLen, `usbMsgFlags, `usbConfiguration, `usbNewDeviceAddr, `code, usbTxBuf, usbTxBuf1,
               usbRxBuf, `usbCurrentTok, `usbRxLen, `usbRxToken,
               `usbInputBufOffset, `usbTxLen, `usbTxLen1, `usbDeviceAddr, `log
      ensures Valid() && Resting() && Answering() && !code.processing && code.split == old(code.split)
      ensures Wellformed(old(S())) && code.fetched == old(code.fetched)
      ensures Bit4(old(usbTxLen)) ==> Bit4(usbTxLen)
      ensures if old(usbRxLen) > 0 then
          var p := Waiting(old(S()));
          && code.delivered == old(code.delivered) + [p]
          && Processed(p, old(code.tr), code.tr, old(usbMsgLen), usbMsgLen, code.delivered, descriptors,
                       !Bit4(old(usbTxLen)), rval)
          && (IsSetup8(p) ==> Bit4(usbTxLen)) && (IsForApp(p, old(code.tr)) && rval == 255 ==> usbTxLen == STALL)
          && (IsSetup8(p) ==> Heeded(p.data, app, code.tr))
          && code.epoch == old(code.epoch) + (if IsStandard(p, SetInterface) then 1 else 0)
          && usbNewDeviceAddr == NextAddress(p, old(usbNewDeviceAddr))
        else
          code == old(code) && usbMsgLen == old(usbMsgLen) && usbNewDeviceAddr == old(usbNewDeviceAddr)
    {
      hide Valid, W, S, Bit4, Reading, Setups, Left, Toggle, MsgBytes, UserRw, Wellformed, Processed, Answers,
        ConfigurationAfter, NextAddress, IsSetup8, Waiting, Heeded, IsStandard;
      LengthsOfRx();
      var len := usbRxLen;
      if len >= 3 {
        PreemptWaiting();
        var data := BUFSIZE + 1 - usbInputBufOffset;
        ghost var q;
        q, rval, app := UsbProcessRx(data, len - 3);
        HandshakesHaveBit4(0);
        RestingClaimsNothing();
        FreeRxBuffer(data, q);
      } else {
        rval, app := 0, UseReadWrite;
        PreemptIdle();
      }
    }

    /** An interrupt point at which usbTxLen is about to be read. */
    method PreemptIdle()
      requires Valid()
      modifies usbRxBuf, `usbCurrentTok, `usbRxLen, `usbRxToken, `usbInputBufOffset,
               `usbTxLen, `usbTxLen1, `usbDeviceAddr, `log
      ensures Valid() && (Bit4(old(usbTxLen)) ==> usbTxLen == old(usbTxLen))
      ensures old(usbRxLen) > 0 ==> usbRxLen == old(usbRxLen)
    {
      hide Inv, Wellformed, Bit4;
      Preempt();
    }

    lemma RestingClaimsNothing()
      requires Resting()
      ensures !code.writing0 && !code.writing1
    {
    }

    /** The second part: the next block, if the transmit buffer is free. */
    method PollTransmit()
      requires Valid() && Resting() && Answering() && !code.processing
      modifies `usbMsgPtr, `usbMsgLen, `code, usbTxBuf, usbRxBuf, `usbCurrentTok, `usbRxLen, `usbRxToken,
               `usbInputBufOffset, `usbTxLen, `usbTxLen1, `usbDeviceAddr, `log
      ensures Valid() && Resting() && Answering()
      ensures code == old(code).(tr := code.tr, fetched := code.fetched) && old(code.fetched) <= code.fetched
      ensures Continues(old(code.tr), code.tr, old(Bit4(usbTxLen)) && old(usbMsgLen) != NO_MSG)
      ensures Bit4(old(usbTxLen)) && old(usbMsgLen) == NO_MSG ==> usbTxLen == old(usbTxLen)
      ensures !(Bit4(old(usbTxLen)) && old(usbMsgLen) != NO_MSG) ==> usbMsgLen == old(usbMsgLen)
    {
      hide Inv, Wellformed, Bit4, Rested, MsgBytes, UserRw, NextSlice, OneBlock, Answers, ConfigurationAfter;
      if Bit4(usbTxLen) {                          // transmit system idle
        Preempt();
        if usbMsgLen != NO_MSG {
          ghost var given := UsbBuildTxBlock();
          OneBlockContinues(old(code.tr), code.tr, log.block, usbTxLen);
          ContinuesAnswers(descriptors, old(code.tr), code.tr, true);
        }
      }
      Preempt();
    }

    /** One round. The packet that waits is processed, which makes the transfer `mid`
        with `left` in usbMsgLen; then, if something is left and the transmit buffer is
        free, the next block is put there. It is always free after an 8-byte SETUP and
        if it was before; otherwise the block in it may be sent in between. When
        usbFunctionWrite reports an error it is free too, and the stall that says so stays
        in it exactly if nothing is left. */
    method UsbPoll()
      returns (ghost mid: Transfer, ghost left: nat, ghost free: bool, ghost reset: bool, ghost rval: nat,
               ghost app: AppReply)
      requires Valid() && Resting() && Answering() && !code.processing
      modifies `usbMsgPtr, `usbMsgLen, `usbMsgFlags, `usbConfiguration, `usbNewDeviceAddr, `code, usbTxBuf, usbTxBuf1,
               usbRxBuf, `usbCurrentTok, `usbRxLen, `usbRxToken,
               `usbInputBufOffset, `usbTxLen, `usbTxLen1, `usbDeviceAddr, `log
      ensures Valid() && Resting() && Answering() && !code.processing && code.split == old(code.split)
      ensures Wellformed(old(S())) && old(code.fetched) <= code.fetched
      ensures Bit4(old(usbTxLen)) ==> free
      ensures if old(usbRxLen) > 0 then
          var p := Waiting(old(S()));
          && code.delivered == old(code.delivered) + [p]
          && Processed(p, old(code.tr), mid, old(usbMsgLen), left, code.delivered, descriptors, !Bit4(old(usbTxLen)),
                       rval)
          && (IsSetup8(p) ==> free)
          && (IsForApp(p, old(code.tr)) && rval == 255 ==> free && (left == NO_MSG ==> usbTxLen == STALL))
          && (IsSetup8(p) ==> Heeded(p.data, app, mid))
          && code.epoch == old(code.epoch) + (if IsStandard(p, SetInterface) then 1 else 0)
          && (!reset ==> usbNewDeviceAddr == NextAddress(p, old(usbNewDeviceAddr)))
        else
          && code.delivered == old(code.delivered) && mid == old(code.tr) && left == old(usbMsgLen)
          && (!reset ==> usbNewDeviceAddr == old(usbNewDeviceAddr))
      ensures Continues(mid, code.tr, free && left != NO_MSG) && (!free || left == NO_MSG ==> usbMsgLen == left)
      ensures reset ==> usbNewDeviceAddr == 0 && usbDeviceAddr == 0
    {
      hide Valid, W, S, Bit4, Setups, Left, MsgBytes, UserRw, Toggle, Wellformed, Processed, Continues, Answers,
        ConfigurationAfter, NextAddress, IsSetup8, Waiting;
      rval, app := PollReceive();
      HandshakesHaveBit4(0);
      mid, left, free := code.tr, usbMsgLen, Bit4(usbTxLen);
      PollTransmit();
      var se0: bool := *;                          // SE0 on twenty readings
      if se0 { ClearAddress(); }
      reset := se0;
    }

    // ---- endpoint 1 ---------------------------------------------------------

    method PokeTxBuf1(i: nat, b: byte)
      requires Valid() && code.writing1 && Bit4(usbTxLen1) && i < usbTxBuf1.Length
      modifies usbTxBuf1, usbRxBuf, `usbCurrentTok, `usbRxLen, `usbRxToken,
               `usbInputBufOffset, `usbTxLen, `usbTxLen1, `usbDeviceAddr, `log
      ensures Valid() && usbTxBuf1[..] == old(usbTxBuf1[..])[i := b] && usbTxLen1 == old(usbTxLen1)
    {
      hide Inv, Wellformed, Bit4;
      InvWellformed(W(), code);
      ghost var buf := usbTxBuf1[..][i := b];
      WriteTxBuf1(W(), code, buf);
      ghost var w := W();
      usbTxBuf1[i] := b;
      assert usbTxBuf1[..] == buf;
      assert W() == w.(s := w.s.(txBuf1 := buf));
      Preempt();
    }

    method AppendCheck1(len: nat)
      requires Valid() && code.writing1 && Bit4(usbTxLen1) && len <= 8
      modifies usbTxBuf1, usbRxBuf, `usbCurrentTok, `usbRxLen, `usbRxToken,
               `usbInputBufOffset, `usbTxLen, `usbTxLen1, `usbDeviceAddr, `log
      ensures Valid() && usbTxLen1 == old(usbTxLen1) && usbTxBuf1.Length == BUFSIZE
      ensures usbTxBuf1[..len + 3] == PacketBytes(old(usbTxBuf1[0]), old(usbTxBuf1[1..1 + len]))
    {
      hide Inv, Wellformed, Bit4, Crc16.CheckBytes;
      InvWellformed(W(), code);
      ghost var w, before := W(), usbTxBuf1[..];
      CrcForms.UsbCrc16Append(usbTxBuf1, 1, len);
      WriteTxBuf1(w, code, usbTxBuf1[..]);
      assert W() == w.(s := w.s.(txBuf1 := usbTxBuf1[..]));
      CheckSize(before[1..1 + len]);
      assert usbTxBuf1[..][..len + 3] == before[..len + 1] + Crc16.CheckBytes(before[1..1 + len]);
      assert before[..len + 1] == [before[0]] + before[1..1 + len];
      Preempt();
    }

    /** The test of usbGenericSetInterrupt and what follows it: the token is toggled if
        the buffer is idle; otherwise the message in it is withdrawn, and if the
        interrupt routine has sent it since the test the next one repeats its token. */
    method ClaimEndpoint1() returns (ghost raced: bool, ghost repeated: bool)
      requires Valid() && Resting()
      modifies `code, usbTxBuf1, usbRxBuf, `usbCurrentTok, `usbRxLen, `usbRxToken,
               `usbInputBufOffset, `usbTxLen, `usbTxLen1, `usbDeviceAddr, `log
      ensures Valid() && Bit4(usbTxLen1) && code.writing1 && usbTxBuf1.Length == BUFSIZE
      ensures code == old(code).(writing1 := true, count1 := code.count1, split := old(code.split) || raced)
      ensures repeated ==> code.split && code.count1 > 0
      ensures usbTxBuf1[0] == Toggle(if repeated then code.count1 else code.count1 + 1)
      ensures raced ==> !Bit4(old(usbTxLen1)) && old(usbRxLen) == 0
      ensures repeated <==> !Bit4(old(usbTxLen1)) && (raced || old(log.message.repeated))
    {
      hide Inv, Wellformed, Bit4, Toggle, Left, UserRw, MsgBytes;
      raced, repeated := false, false;
      InvWellformed(W(), code);
      if Bit4(usbTxLen1) {
        ToggleFlips(code.count1);
        Claim1(W(), code);
        code := code.(writing1 := true);
        PreemptReady();
        PokeTxBuf1(0, OtherToken(usbTxBuf1[0]));
      } else {
        MessageWaits(W(), code);
        Preempt();
        raced, repeated := WithdrawMessage();
        Claim1(W(), code);
        code := code.(writing1 := true);
        PreemptReady();
      }
    }

    /** usbTxLen1 = USBPID_NAK. */
    method WithdrawMessage() returns (ghost raced: bool, ghost repeated: bool)
      requires Valid() && !code.writing1 && code.count1 > 0
      modifies `code, `usbTxLen1
      ensures Valid() && usbTxLen1 == NAK && Bit4(usbTxLen1)
      ensures raced <==> Bit4(old(usbTxLen1))
      ensures repeated <==> raced || log.message.repeated
      ensures code == old(code).(count1 := code.count1, split := old(code.split) || raced)
      ensures code.count1 + (if repeated then 0 else 1) == old(code.count1)
      ensures repeated ==> code.split
    {
      hide Inv, Wellformed, Bit4;
      ghost var w := W();
      raced := Bit4(usbTxLen1);
      repeated := raced || log.message.repeated;
      HandshakesHaveBit4(0);
      if !raced { RepeatedMeansSplit(w, code); }
      Withdraw(w, code);
      code := if raced then code.(split := true) else code.(count1 := code.count1 - if log.message.repeated then 0 else 1);
      usbTxLen1 := NAK;
      assert W() == w.(s := w.s.(txLen1 := NAK));
    }

    /** The copy loop of usbGenericSetInterrupt: at least one byte, even of nothing. */
    method CopyMessage(msg: seq<byte>, len: nat)
      requires Valid() && code.writing1 && Bit4(usbTxLen1) && len <= 8 && len <= |msg| && |msg| > 0
      requires usbTxBuf1.Length == BUFSIZE
      modifies usbTxBuf1, usbRxBuf, `usbCurrentTok, `usbRxLen, `usbRxToken,
               `usbInputBufOffset, `usbTxLen, `usbTxLen1, `usbDeviceAddr, `log
      ensures Valid() && usbTxLen1 == old(usbTxLen1)
      ensures usbTxBuf1[0] == old(usbTxBuf1[0]) && usbTxBuf1[1..1 + len] == msg[..len]
    {
      hide Valid, W, S, Bit4;
      PokeTxBuf1(1, msg[0]);
      var i := 1;
      while i < len
        invariant 1 <= i <= 8 && i <= |msg| && (len > 0 ==> i <= len)
        invariant Valid() && usbTxLen1 == old(usbTxLen1)
        invariant usbTxBuf1[0] == old(usbTxBuf1[0]) && usbTxBuf1[1..1 + i] == msg[..i]
      {
        PokeTxBuf1(1 + i, msg[i]);
        i := i + 1;
      }
      assert usbTxBuf1[1..1 + len] == usbTxBuf1[1..1 + i][..len];
    }

    /** usbTxLen1 = len + 4. */
    method CompleteMessage(len: nat, ghost repeated: bool, ghost payload: seq<byte>)
      requires Valid() && code.writing1 && Bit4(usbTxLen1) && len == |payload| <= 8
      requires usbTxBuf1.Length == BUFSIZE && (repeated ==> code.split && code.count1 > 0)
      requires usbTxBuf1[..len + 3] == PacketBytes(Toggle(if repeated then code.count1 else code.count1 + 1), payload)
      modifies `code, `usbTxLen1, `log
      ensures Valid() && usbTxLen1 == len + 4 && log == old(log).(message := log.message)
      ensures log.message == NextMessage(old(code), repeated, payload)
      ensures code == old(code).(writing1 := false, count1 := log.message.index + 1)
    {
      hide Inv, Wellformed, Bit4, Toggle, PacketBytes;
      InvWellformed(W(), code);
      ghost var w, m := W(), NextMessage(code, repeated, payload);
      Complete1(w, code, repeated, payload);
      code := code.(writing1 := false, count1 := m.index + 1);
      log := log.(message := m);
      usbTxLen1 := len + 4;
      assert W() == World(w.s.(txLen1 := len + 4), w.log.(message := m));
    }

    /** usbSetInterrupt. The message replaces one that has not been sent and otherwise
        follows it with the other token, except exactly if that one was waiting and was
        sent between the test of usbTxLen1 and the store to it (`raced`), or was a
        repeat itself. */
    method UsbSetInterrupt(msg: seq<byte>, len: nat) returns (ghost raced: bool)
      requires Valid() && Resting() && len <= 8 && len <= |msg| && |msg| > 0
      modifies `code, usbTxBuf1, usbRxBuf, `usbCurrentTok, `usbRxLen, `usbRxToken,
               `usbInputBufOffset, `usbTxLen, `usbTxLen1, `usbDeviceAddr, `log
      ensures Valid() && Resting()
      ensures code == old(code).(count1 := code.count1, split := old(code.split) || raced)
      ensures raced ==> !Bit4(old(usbTxLen1)) && old(usbRxLen) == 0
      ensures log.message.payload == msg[..len] && usbTxLen1 == len + 4
      ensures log.message.repeated <==> !Bit4(old(usbTxLen1)) && (raced || old(log.message.repeated))
    {
      hide Valid, W, S, Bit4, Toggle, Left, UserRw, MsgBytes, PacketBytes;
      ghost var repeated;
      raced, repeated := ClaimEndpoint1();
      CopyMessage(msg, len);
      AppendCheck1(len);
      ghost var packet := usbTxBuf1[..len + 3];
      assert usbTxBuf1[0] == packet[0];
      PacketHead(Toggle(if repeated then code.count1 else code.count1 + 1), msg[..len]);
      CompleteMessage(len, repeated, msg[..len]);
    }

    // ---- whole runs ----------------------------------------------------------

    /** Power-up: the initial values of the variables, then usbInit. */
    constructor (d: Descriptors)
      requires d.Valid()
      ensures Valid() && Resting() && Answering() && !code.processing && !code.split && descriptors == d
      ensures log.heard == [] && code.delivered == [] && log.accepted == [] && log.sent == [] && log.sent1 == []
      ensures usbTxLen == 0x5a && usbTxLen1 == 0x5a && usbRxLen == 0 && usbDeviceAddr == 0 && usbNewDeviceAddr == 0
      ensures code.tr.tag == 0 && code.epoch == 0 && code.count1 == 0
      ensures fresh(usbRxBuf) && fresh(usbTxBuf) && fresh(usbTxBuf1)
    {
      descriptors := d;
      usbRxBuf := new byte[2 * BUFSIZE](i => 0);
      usbTxBuf := new byte[BUFSIZE](i => 0);
      usbTxBuf1 := new byte[BUFSIZE](i => 0);
      usbInputBufOffset, usbRxLen, usbCurrentTok, usbRxToken := 0, 0, NoToken, NoToken;
      usbTxLen, usbTxLen1 := NAK, NAK;
      usbDeviceAddr, usbNewDeviceAddr, usbConfiguration := 0, 0, 0;
      usbMsgPtr, usbMsgLen, usbMsgFlags := Fixed([]), NO_MSG, 0;
      var tr := Transfer(0, Canned, [], [], 0, 0, 0, 0);
      log := Log([], [], [], [], false, Block(tr, []), Message(0, 0, false, false, []));
      code := Code([], false, tr, false, false, 0, 0, false, false, 0, d, []);
      new;
      hide Inv, Toggle, UserRw;
      usbTxBuf1[0] := Toggle(0);                   // USB_INITIAL_DATATOKEN
      FlagValues();
      PowerUp(W(), code);
    }

    /** One round of the main loop of main.cpp. */
    method Round(message: seq<byte>)
      requires Valid() && Resting() && Answering() && !code.processing && !code.split && |message| == 8
      modifies `usbMsgPtr, `usbMsgLen, `usbMsgFlags, `usbConfiguration, `usbNewDeviceAddr, `code, usbTxBuf, usbTxBuf1,
               usbRxBuf, `usbCurrentTok, `usbRxLen, `usbRxToken,
               `usbInputBufOffset, `usbTxLen, `usbTxLen1, `usbDeviceAddr, `log
      ensures Valid() && Resting() && Answering() && !code.processing && !code.split
      ensures old(code.fetched) <= code.fetched
      ensures Wellformed(old(S())) && code.delivered ==
        old(code.delivered) + if old(usbRxLen) > 0 then [Waiting(old(S()))] else []
    {
      hide Valid, W, S, Bit4, Rested, Left, MsgBytes, Wellformed, Toggle, Processed, Continues, Answers,
        ConfigurationAfter, NextAddress, IsSetup8, Waiting, GivenFor;
      ghost var mid, left, free, reset, rval, app := UsbPoll();
      Preempt();
      if Bit4(usbTxLen1) {                         // usbInterruptIsReady
        PreemptReady();
        ghost var raced := UsbSetInterrupt(message, 8);
      }
      Preempt();
    }

    /** The main loop of main.cpp for any number of rounds, with anything on the line
        at any point. In every run what was taken in and sent is what the bus record
        says was acknowledged and answered; each data packet acknowledged is handed to
        usbProcessRx once, in order and unchanged, but for one that may still wait; on
        endpoint 0 only whole blocks are sent, each of the reply due to the last SETUP
        acknowledged, in order, and all of it has been sent when nothing is left, or what
        usbFunctionRead has given, in order; on endpoint 1 only whole messages, with
        alternating tokens. */
    method MainLoop(rounds: nat, message: seq<byte>)
      requires Valid() && Resting() && Answering() && !code.processing && !code.split && |message| == 8
      modifies `usbMsgPtr, `usbMsgLen, `usbMsgFlags, `usbConfiguration, `usbNewDeviceAddr, `code, usbTxBuf, usbTxBuf1,
               usbRxBuf, `usbCurrentTok, `usbRxLen, `usbRxToken,
               `usbInputBufOffset, `usbTxLen, `usbTxLen1, `usbDeviceAddr, `log
      ensures Valid() && Resting() && Answering() && !code.processing && !code.split
      ensures old(code.delivered) <= code.delivered && old(code.fetched) <= code.fetched
      ensures OnRecord(log.heard, log.accepted, Bus0(log.sent), Bus1(log.sent1), usbCurrentTok)
      ensures Wellformed(S()) && log.accepted == code.delivered + if usbRxLen > 0 then [Waiting(S())] else []
      ensures SentOk(descriptors, log.sent) && Sent1Ok(log.sent1) && NoneRepeated(log.sent1)
      ensures SentGiven(log.sent, code.fetched)
      ensures forall i :: 0 <= i < |log.sent| ==> Intact(log.sent[i].bytes)
      ensures forall i :: 0 <= i < |log.sent1| ==> Intact(log.sent1[i].bytes)
      ensures code.tr.tag > 0 && code.tr.kind.Canned? && usbMsgLen == NO_MSG && Bit4(usbTxLen) ==>
        ReplySent(log.sent, code.tr) && code.tr.begun == UpToSetup(code.delivered)
      ensures code.tr.tag > 0 && code.tr.kind.UserRead? && code.tr.dropped == 0 && Bit4(usbTxLen) ==>
        GivenSent(log.sent, code.tr, code.fetched)
    {
      hide Valid, W, S, Bit4, Rested, Left, MsgBytes, SentOk, Sent1Ok, Wellformed, NoneRepeated, Toggle, Processed,
        Continues, Answers, ConfigurationAfter, NextAddress, IsSetup8, Waiting, OnRecord, Bus0, Bus1, ReplySent,
        GivenSent, UpToSetup, SentGiven, GivenFor, Intact;
      var i := 0;
      while i < rounds
        invariant Valid() && Resting() && Answering() && !code.processing && !code.split
        invariant old(code.delivered) <= code.delivered && old(code.fetched) <= code.fetched
      {
        Round(message);
        i := i + 1;
      }
      RunProperties();
      ChecksAreRight();
      if code.tr.tag > 0 && Bit4(usbTxLen) { NothingIsLeft(); }
    }

    method PreemptReady()
      requires Valid() && Bit4(usbTxLen1)
      modifies usbRxBuf, `usbCurrentTok, `usbRxLen, `usbRxToken,
               `usbInputBufOffset, `usbTxLen, `usbTxLen1, `usbDeviceAddr, `log
      ensures Valid() && usbTxLen1 == old(usbTxLen1)
    {
      hide Inv, Wellformed, Bit4;
      Preempt();
    }

    lemma NothingIsLeft()
      requires Valid() && Resting() && Answering() && !code.processing && Bit4(usbTxLen) && code.tr.tag > 0
      ensures code.tr.kind.Canned? && usbMsgLen == NO_MSG ==>
        ReplySent(log.sent, code.tr) && code.tr.begun == UpToSetup(code.delivered)
      ensures code.tr.kind.UserRead? && code.tr.dropped == 0 ==> GivenSent(log.sent, code.tr, code.fetched)
    {
      hide Inv, Rested, MsgBytes, Bit4, Answers, ConfigurationAfter, ReplySent, GivenSent, UpToSetup;
      var token0, token1, rw := usbTxBuf[0], usbTxBuf1[0], UserRw(usbMsgFlags);
      if code.tr.kind.Canned? && usbMsgLen == NO_MSG {
        ReplyComplete(W(), code, token0, token1, MsgBytes(), usbMsgPtr.Fixed?, rw);
      } else if code.tr.kind.UserRead? && code.tr.dropped == 0 {
        GivenComplete(W(), code, token0, token1, usbMsgLen, MsgBytes(), usbMsgPtr.Fixed?, rw);
      }
    }

    lemma ChecksAreRight()
      requires SentOk(descriptors, log.sent) && Sent1Ok(log.sent1)
      ensures forall i :: 0 <= i < |log.sent| ==> Intact(log.sent[i].bytes)
      ensures forall i :: 0 <= i < |log.sent1| ==> Intact(log.sent1[i].bytes)
    {
      hide SentOk, Sent1Ok, Crc16.Accepts, BytesBits;
      forall i | 0 <= i < |log.sent| ensures Intact(log.sent[i].bytes) {
        AllAccepted(descriptors, log.sent, i);
      }
      forall i | 0 <= i < |log.sent1| ensures Intact(log.sent1[i].bytes) {
        AllAccepted1(log.sent1, i);
      }
    }

    lemma RunProperties()
      requires Valid() && !code.processing
      ensures Wellformed(S()) && log.accepted == code.delivered + if usbRxLen > 0 then [Waiting(S())] else []
      ensures OnRecord(log.heard, log.accepted, Bus0(log.sent), Bus1(log.sent1), usbCurrentTok)
      ensures SentOk(descriptors, log.sent) && Sent1Ok(log.sent1) && (!code.split ==> NoneRepeated(log.sent1))
      ensures SentGiven(log.sent, code.fetched)
    {
      hide Bit4, SentOk, Sent1Ok, NoneRepeated, OnRecord, Follows, Built, GoodBlock, Setups, SentGiven, NoneLater,
        GivenFor;
    }
  }
}
