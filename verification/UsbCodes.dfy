/** The codes of USB 2.0, section 9.4, and of packet identifiers (section 8.3.1), as
    numbers: what the driver's own names for them come to. */
module UsbCodes {
  import opened Bits
  import opened UsbControl
  import opened UsbShared
  import opened UsbHistory
  import opened UsbRequests

  // ---- bytes as numbers ------------------------------------------------------

  lemma Below32(b: byte)
    ensures b < 0x20 <==> b as nat < 32
  {
  }

  lemma Below128(b: byte)
    ensures b < 0x80 <==> b as nat < 128
  {
  }

  lemma Below160(b: byte)
    ensures b < 0xa0 <==> b as nat < 160
  {
  }

  lemma TypeBits(b: byte)
    ensures b & 0x60 == 0 <==> b < 0x20 || (0x80 <= b < 0xa0)
    ensures b & 0x80 != 0 <==> b >= 0x80
  {
  }

  /** bmRequestType: the direction in its top bit, the type in the two below. */
  lemma TypeIs(b: byte)
    ensures Standard(b) <==> b as nat / 32 % 4 == 0
    ensures DeviceToHost(b) <==> b as nat >= 128
  {
    TypeBits(b);
    Below32(b);
    Below128(b);
    Below160(b);
  }

  lemma ZeroIs(b: byte)
    ensures IsZero(b) <==> b as nat == 0
  {
  }

  lemma NumIs(b: byte)
    ensures Num(b) == b as nat < 256
  {
  }

  // ---- standard requests ------------------------------------------------------

  lemma RepliesAre(q: seq<byte>, d: Descriptors, configuration: byte)
    requires d.Valid() && |q| == 8
    ensures StandardReply(q, d, configuration) ==
      if q[1] == 0 then [0, 0]
      else if q[1] == 6 && q[3] == 1 then d.device
      else if q[1] == 6 && q[3] == 2 then d.configuration
      else if q[1] == 6 && q[3] == 3 && q[2] as nat < 4 then d.strings[q[2] as nat]
      else if q[1] == 6 && q[3] == 0x21 then d.configuration[18..27]
      else if q[1] == 6 && q[3] == 0x22 then d.hidReport
      else if q[1] == 8 then [configuration]
      else if q[1] == 10 then [0]
      else []
  {
    hide Num, Descriptors.Find, Descriptors.Valid;
    if q[1] == 6 { DescriptorsAre(d, q[3], q[2]); }
  }

  lemma DescriptorsAre(d: Descriptors, kind: byte, index: byte)
    requires d.Valid()
    ensures |d.strings| == 4 && |d.configuration| >= 27
    ensures d.Find(Num(kind), Num(index)) ==
      if kind == 1 then d.device
      else if kind == 2 then d.configuration
      else if kind == 3 && index as nat < 4 then d.strings[index as nat]
      else if kind == 0x21 then d.configuration[18..27]
      else if kind == 0x22 then d.hidReport
      else []
  {
    hide Num;
    NumIs(kind);
    NumIs(index);
    KindIs(kind);
  }

  /** The reply due to a standard request: GET_STATUS 0, GET_DESCRIPTOR 6 of a device,
      configuration, string, HID or HID report descriptor, GET_CONFIGURATION 8,
      GET_INTERFACE 10; nothing for the others. No more of it is sent than wLength
      asks for, if its high byte is zero. */
  lemma ReplyInCodes(d: Descriptors, begun: seq<Rx>)
    requires d.Valid() && begun != [] && IsSetup8(begun[|begun| - 1])
    ensures var q := begun[|begun| - 1].data;
      var whole :=
        if q[1] == 0 then [0, 0]
        else if q[1] == 6 && q[3] == 1 then d.device
        else if q[1] == 6 && q[3] == 2 then d.configuration
        else if q[1] == 6 && q[3] == 3 && q[2] as nat < 4 then d.strings[q[2] as nat]
        else if q[1] == 6 && q[3] == 0x21 then d.configuration[18..27]
        else if q[1] == 6 && q[3] == 0x22 then d.hidReport
        else if q[1] == 8 then [ConfigurationAfter(begun)]
        else if q[1] == 10 then [0]
        else [];
      ReplyDue(d, begun) == if q[7] as nat == 0 && |whole| > q[6] as nat then whole[..q[6] as nat] else whole
  {
    hide ConfigurationAfter, IsZero, StandardReply, Num;
    var q := begun[|begun| - 1].data;
    RepliesAre(q, d, ConfigurationAfter(begun));
    NumIs(q[6]);
    ZeroIs(q[7]);
  }

  lemma KindIs(b: byte)
    ensures (b as nat == 1 <==> b == 1) && (b as nat == 2 <==> b == 2) && (b as nat == 3 <==> b == 3)
    ensures (b as nat == 0x21 <==> b == 0x21) && (b as nat == 0x22 <==> b == 0x22)
  {
  }

  lemma ReplyFits(d: Descriptors, begun: seq<Rx>)
    requires d.Valid() && begun != [] && IsSetup8(begun[|begun| - 1])
    ensures |ReplyDue(d, begun)| < 255
  {
    hide StandardReply, ConfigurationAfter, IsZero;
  }

  /** SET_CONFIGURATION is 9 and SET_ADDRESS 5; the value is the low byte of wValue. */
  lemma SettingsInCodes(rxs: seq<Rx>, p: Rx, before: nat)
    ensures var std := p.token == SetupToken && |p.data| == 8 && p.data[0] as nat / 32 % 4 == 0;
      && ConfigurationAfter([]) == 0
      && ConfigurationAfter(rxs + [p]) == (if std && p.data[1] == 9 then p.data[2] else ConfigurationAfter(rxs))
      && NextAddress(p, before) == if std && p.data[1] == 5 then p.data[2] as nat else before
  {
    hide ConfigurationAfter, Standard, Num;
    NoConfiguration();
    ConfigurationSnoc(rxs, p);
    if |p.data| == 8 {
      TypeIs(p.data[0]);
      NumIs(p.data[2]);
    }
  }

  lemma NoConfiguration()
    ensures ConfigurationAfter([]) == 0
  {
  }

  /** SET_INTERFACE is 11. */
  lemma InterfaceInCodes(p: Rx)
    ensures IsStandard(p, SetInterface) <==>
      p.token == SetupToken && |p.data| == 8 && p.data[0] as nat / 32 % 4 == 0 && p.data[1] == 11
  {
    hide Standard;
    if |p.data| == 8 { TypeIs(p.data[0]); }
  }

  // ---- what one packet begins -------------------------------------------------

  /** An 8-byte SETUP: a standard one is answered by the driver; any other as
      usbFunctionSetup says, with data of its own, cut to wLength, or with USB_NO_MSG,
      which is 255, by usbFunctionRead or usbFunctionWrite according to the top bit. */
  lemma SetupInCodes(p: Rx, before: Transfer, tr: Transfer, was: nat, msgLen: nat, rxs: seq<Rx>, d: Descriptors,
                     pending: bool, rval: nat, app: AppReply)
    requires Processed(p, before, tr, was, msgLen, rxs, d, pending, rval)
    requires p.token == SetupToken && |p.data| == 8 && rxs != [] && rxs[|rxs| - 1] == p && Heeded(p.data, app, tr)
    ensures d.Valid() && IsSetup8(rxs[|rxs| - 1])
    ensures tr.tag == before.tag + 1 && tr.begun == rxs && tr.built == 0
    ensures var q := p.data;
      if q[0] as nat / 32 % 4 == 0 then tr.kind == Canned && tr.reply == ReplyDue(d, rxs) && msgLen == |tr.reply| < 255
      else if app.Here? then
        && tr.kind == Canned && msgLen == |tr.reply| < 255
        && tr.reply == if q[7] as nat == 0 && |app.bytes| > q[6] as nat then app.bytes[..q[6] as nat] else app.bytes
      else if q[0] as nat >= 128 then tr.kind == UserRead && msgLen == tr.limit == q[6] as nat
      else tr.kind == UserWrite && msgLen == 255
  {
    hide Standard, DeviceToHost, IsZero, Num, ReplyDue, Setups;
    var q := p.data;
    TypeIs(q[0]);
    NumIs(q[6]);
    ZeroIs(q[7]);
    ReplyFits(d, rxs);
  }

  /** Any other packet: a SETUP of another size does nothing, and an OUT is for
      usbFunctionWrite or nobody. What that returns says whether more is to come, 0, the
      packet is refused, 255, or it was the last one. */
  lemma OutInCodes(p: Rx, before: Transfer, tr: Transfer, was: nat, msgLen: nat, rxs: seq<Rx>, d: Descriptors,
                   pending: bool, rval: nat)
    requires Processed(p, before, tr, was, msgLen, rxs, d, pending, rval)
    ensures p.token == SetupToken && |p.data| != 8 ==> tr == before && msgLen == was
    ensures p.token != SetupToken ==>
      if before.tag > 0 && before.kind != Canned then
        && tr.tag == before.tag && tr.kind == before.kind && tr.outs == before.outs + 1 && tr.built == before.built
        && msgLen == (if rval == 0 || rval == 255 then was else 0)
        && tr.dropped == before.dropped + (if pending && rval == 255 then 1 else 0)
      else tr == before && msgLen == was
  {
  }

  // ---- packets --------------------------------------------------------------------

  lemma PidsAre()
    ensures PidOf(0x2d) == Setup && PidOf(0xe1) == Out && PidOf(0x69) == In
    ensures PidOf(0xc3) == Pid.Data && PidOf(0x4b) == Pid.Data
  {
  }

  /** A packet with any other identifier gets no answer and takes the current token. */
  lemma OthersInCodes(s: Shared, bytes: seq<byte>)
    requires Wellformed(s) && 3 <= |bytes| <= BUFSIZE
    requires bytes[0] != 0x2d && bytes[0] != 0xe1 && bytes[0] != 0x69 && bytes[0] != 0xc3 && bytes[0] != 0x4b
    ensures Whole(bytes).Valid()
    ensures var t := Interrupt(s, Whole(bytes)); t.reply == Silent && t.s.currentTok == NoToken && t.accepted == []
  {
    hide Interrupt, ShiftedAddress, Wellformed;
    if ShiftedAddress(bytes[1]) == s.deviceAddr { TokenTurn(s, Whole(bytes)); } else { OnlyItsAddress(s, Whole(bytes)); }
  }

  lemma LowHalf(b: byte)
    requires b < 0x80
    ensures (b << 1) == b + b && (b + b) as nat == 2 * (b as nat)
  {
  }

  lemma HighHalf(b: byte)
    requires b >= 0x80
    ensures b << 1 == (b - 0x80) << 1 && b - 0x80 < 0x80 && (b - 0x80) as nat == b as nat - 128
  {
  }

  /** The second byte of a token: the address in its low seven bits, and the lowest bit
      of the endpoint number above them; the rest of that in the low bits of the third. */
  lemma TokenInCodes(second: byte, third: byte)
    ensures ShiftedAddress(second) == 2 * (second as nat % 128)
    ensures EndpointOf(second, third) == 0 <==> second as nat < 128 && third as nat % 8 == 0
  {
    Below128(second);
    if second < 0x80 {
      LowHalf(second);
    } else {
      HighHalf(second);
      Below128(second - 0x80);
      LowHalf(second - 0x80);
    }
    EndpointBits(second, third);
    LowThree(third);
  }

  lemma EndpointBits(second: byte, third: byte)
    ensures ((third << 1) | (second >> 7)) & 0x0f == 0 <==> second < 0x80 && third & 0x07 == 0
  {
  }

  lemma LowThree(third: byte)
    ensures third & 0x07 == 0 <==> third as nat % 8 == 0
  {
  }
}
