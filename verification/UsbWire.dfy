/** The bus as a host could record it: every packet the device received and what it
    answered. What was acknowledged and what was sent are read off that record. */
module UsbWire {
  import opened Bits
  import opened UsbShared

  /** A packet, the answer to it, and the device's current token and address when the
      packet arrived. */
  datatype Heard = Heard(r: Reception, token: Token, addr: nat, reply: Reply)

  predicate IsData(r: Reception) { r.Whole? && r.bytes != [] && PidOf(r.bytes[0]) == Data }
  predicate IsOther(r: Reception) { r.Whole? && |r.bytes| >= 3 && PidOf(r.bytes[0]) != Data }

  /** A data packet with at least one byte of payload that was acknowledged. */
  predicate IsKept(h: Heard) { IsData(h.r) && |h.r.bytes| >= 4 && h.reply == Handshake(ACK) }

  function Packet(h: Heard): Rx
    requires IsKept(h)
  {
    Rx(h.token, h.r.bytes[1..|h.r.bytes| - 2])
  }

  function Kept(heard: seq<Heard>): seq<Rx> {
    if heard == [] then []
    else
      var h := heard[|heard| - 1];
      Kept(heard[..|heard| - 1]) + if IsKept(h) then [Packet(h)] else []
  }

  /** A data packet the device sent, and what it had acknowledged by then. */
  datatype OnBus = OnBus(bytes: seq<byte>, accepted: seq<Rx>)

  predicate IsFrom(h: Heard, endpoint0: bool) { h.reply.DataPacket? && (h.reply.endpoint == 0) == endpoint0 }

  /** The data packets sent from endpoint 0, or from endpoint 1. */
  function SentFrom(heard: seq<Heard>, endpoint0: bool): seq<OnBus> {
    if heard == [] then []
    else
      var h, before := heard[|heard| - 1], heard[..|heard| - 1];
      SentFrom(before, endpoint0) + if IsFrom(h, endpoint0) then [OnBus(h.reply.bytes, Kept(before))] else []
  }

  /** How the device answers: only to data packets that follow a token for it, by ACK or
      NAK, and to an IN that carries its address, from the endpoint named in it. */
  predicate Answered(h: Heard) {
    && (h.r.Overrun? ==> h.reply == Silent)
    && (IsData(h.r) ==>
         if h.token == NoToken then h.reply == Silent else h.reply == Handshake(ACK) || h.reply == Handshake(NAK))
    && (IsOther(h.r) ==>
         if ShiftedAddress(h.r.bytes[1]) != h.addr || PidOf(h.r.bytes[0]) != In then h.reply == Silent
         else
           && h.reply != Silent
           && (h.reply.DataPacket? ==> IsFrom(h, EndpointOf(h.r.bytes[1], h.r.bytes[2]) == 0)))
  }

  /** The token in force afterwards: that of a SETUP or OUT for this device, kept by a
      data packet and an IN, and given up on anything else. */
  predicate TokenStep(h: Heard, next: Token) {
    && (h.r.Overrun? ==> next == NoToken)
    && (IsData(h.r) ==> next == h.token)
    && (IsOther(h.r) ==>
         next == if ShiftedAddress(h.r.bytes[1]) != h.addr then NoToken
                 else match PidOf(h.r.bytes[0])
                   case Setup => SetupToken
                   case Out => OutToken
                   case In => h.token
                   case _ => NoToken)
  }

  ghost predicate Orderly(heard: seq<Heard>, token: Token) {
    heard == [] ||
    (var h := heard[|heard| - 1];
     Answered(h) && TokenStep(h, token) && Orderly(heard[..|heard| - 1], h.token))
  }

  /** What the driver believes it has received and sent is what was on the bus. */
  ghost predicate OnRecord(heard: seq<Heard>, accepted: seq<Rx>, sent: seq<OnBus>, sent1: seq<OnBus>,
                           token: Token) {
    && accepted == Kept(heard) && sent == SentFrom(heard, true) && sent1 == SentFrom(heard, false)
    && Orderly(heard, token)
  }

  // ---- one packet --------------------------------------------------------

  ghost function Entry(s: Shared, r: Reception): Heard
    requires Wellformed(s) && r.Valid()
  {
    Heard(r, s.currentTok, s.deviceAddr, Interrupt(s, r).reply)
  }

  lemma EntryOfData(s: Shared, r: Reception)
    requires Wellformed(s) && r.Valid() && IsData(r)
    ensures Answered(Entry(s, r)) && TokenStep(Entry(s, r), Interrupt(s, r).s.currentTok)
    ensures Interrupt(s, r).accepted == [] <==> !IsKept(Entry(s, r))
  {
    hide PidOf, ShiftedAddress, EndpointOf, Interrupt;
    AnswerToData(s, r);
    AckIsNotNak();
  }

  lemma AckIsNotNak()
    ensures Handshake(ACK) != Handshake(NAK)
  {
  }

  lemma EntryOfOther(s: Shared, r: Reception)
    requires Wellformed(s) && r.Valid() && IsOther(r)
    ensures Answered(Entry(s, r)) && TokenStep(Entry(s, r), Interrupt(s, r).s.currentTok)
    ensures Interrupt(s, r).accepted == [] && !IsKept(Entry(s, r))
  {
    hide PidOf, ShiftedAddress, EndpointOf, Interrupt, Bit4;
    if ShiftedAddress(r.bytes[1]) != s.deviceAddr {
      OnlyItsAddress(s, r);
    } else {
      TokenTurn(s, r);
      if PidOf(r.bytes[0]) == In { AnswerToIn(s, r); }
    }
  }

  lemma EntryOfScrap(s: Shared, r: Reception)
    requires Wellformed(s) && r.Valid() && !IsData(r) && !IsOther(r)
    ensures Answered(Entry(s, r)) && TokenStep(Entry(s, r), Interrupt(s, r).s.currentTok)
    ensures Interrupt(s, r).accepted == [] && !IsKept(Entry(s, r))
  {
    hide PidOf, ShiftedAddress, EndpointOf, Interrupt, Bit4;
    MailboxTurn(s, r);
    if r.Overrun? { OverrunTurn(s, r); }
  }

  lemma OverrunTurn(s: Shared, r: Reception)
    requires Wellformed(s) && r.Valid() && r.Overrun?
    ensures var t := Interrupt(s, r); t.reply == Silent && t.s.currentTok == NoToken
  {
    hide Stored, HeadAt, HandleWhole;
  }

  /** One more packet on the record. */
  lemma OneMoreHeard(heard: seq<Heard>, accepted: seq<Rx>, sent: seq<OnBus>, sent1: seq<OnBus>, h: Heard, next: Token)
    requires OnRecord(heard, accepted, sent, sent1, h.token) && Answered(h) && TokenStep(h, next)
    ensures OnRecord(heard + [h], if IsKept(h) then accepted + [Packet(h)] else accepted,
                     if IsFrom(h, true) then sent + [OnBus(h.reply.bytes, accepted)] else sent,
                     if IsFrom(h, false) then sent1 + [OnBus(h.reply.bytes, accepted)] else sent1, next)
  {
    hide PidOf, ShiftedAddress, EndpointOf, Answered, TokenStep, IsKept;
    assert (heard + [h])[..|heard|] == heard;
  }

  /** ... with what the driver made of it. */
  lemma Recorded(s: Shared, r: Reception, heard: seq<Heard>, accepted: seq<Rx>, sent: seq<OnBus>,
                 sent1: seq<OnBus>)
    requires Wellformed(s) && r.Valid() && OnRecord(heard, accepted, sent, sent1, s.currentTok)
    ensures var t := Interrupt(s, r);
      var fromEndpoint0, fromEndpoint1 := IsFrom(Entry(s, r), true), IsFrom(Entry(s, r), false);
      OnRecord(heard + [Entry(s, r)], accepted + t.accepted,
               if fromEndpoint0 then sent + [OnBus(t.reply.bytes, accepted)] else sent,
               if fromEndpoint1 then sent1 + [OnBus(t.reply.bytes, accepted)] else sent1, t.s.currentTok)
  {
    hide Interrupt, PidOf, ShiftedAddress, EndpointOf, Answered, TokenStep, IsData, IsOther, OnRecord, IsKept, Packet;
    var h, t := Entry(s, r), Interrupt(s, r);
    if IsData(r) { EntryOfData(s, r); } else if IsOther(r) { EntryOfOther(s, r); } else { EntryOfScrap(s, r); }
    if IsKept(h) { TakenIn(s, r); } else { assert accepted + [] == accepted; }
    OneMoreHeard(heard, accepted, sent, sent1, h, t.s.currentTok);
  }

  lemma TakenIn(s: Shared, r: Reception)
    requires Wellformed(s) && r.Valid() && Interrupt(s, r).accepted != [] && IsKept(Entry(s, r))
    ensures Interrupt(s, r).accepted == [Packet(Entry(s, r))]
  {
    hide Interrupt, PidOf;
    MailboxTurn(s, r);
  }

  // ---- over a whole record -------------------------------------------------

  lemma {:induction false} KeptGrows(heard: seq<Heard>, i: nat)
    requires i <= |heard|
    ensures Kept(heard[..i]) <= Kept(heard)
    decreases |heard|
  {
    hide IsKept;
    if i == |heard| {
      assert heard[..i] == heard;
    } else {
      var init := heard[..|heard| - 1];
      KeptGrows(init, i);
      assert init[..i] == heard[..i];
    }
  }

  /** Exactly once: an acknowledged packet with a payload is one packet accepted, at the
      place given by those acknowledged before it, with its token and bytes; any other
      packet, so every one answered by NAK, adds none. */
  lemma AcknowledgedOnce(heard: seq<Heard>, i: nat)
    requires i < |heard|
    ensures var k := |Kept(heard[..i])|;
      if IsKept(heard[i]) then
        k < |Kept(heard)| && Kept(heard)[k] == Packet(heard[i]) && |Kept(heard[..i + 1])| == k + 1
      else Kept(heard[..i + 1]) == Kept(heard[..i])
  {
    hide IsKept;
    assert heard[..i + 1][..i] == heard[..i];
    KeptGrows(heard, i + 1);
  }

  lemma {:induction false} SentGrows(heard: seq<Heard>, endpoint0: bool, i: nat)
    requires i <= |heard|
    ensures SentFrom(heard[..i], endpoint0) <= SentFrom(heard, endpoint0)
    decreases |heard|
  {
    hide IsFrom, Kept;
    if i == |heard| {
      assert heard[..i] == heard;
    } else {
      var init := heard[..|heard| - 1];
      SentGrows(init, endpoint0, i);
      assert init[..i] == heard[..i];
    }
  }

  /** The same for what is sent: the data packets on the record are the ones sent, in
      order, each with what had been acknowledged when it went out. */
  lemma SentOnce(heard: seq<Heard>, endpoint0: bool, i: nat)
    requires i < |heard|
    ensures var k := |SentFrom(heard[..i], endpoint0)|;
      if IsFrom(heard[i], endpoint0) then
        && k < |SentFrom(heard, endpoint0)| && |SentFrom(heard[..i + 1], endpoint0)| == k + 1
        && SentFrom(heard, endpoint0)[k] == OnBus(heard[i].reply.bytes, Kept(heard[..i]))
      else SentFrom(heard[..i + 1], endpoint0) == SentFrom(heard[..i], endpoint0)
  {
    hide IsFrom, Kept;
    assert heard[..i + 1][..i] == heard[..i];
    assert heard[i].reply.DataPacket? || !IsFrom(heard[i], endpoint0) by { FromIsData(heard[i], endpoint0); }
    SentGrows(heard, endpoint0, i + 1);
  }

  lemma FromIsData(h: Heard, endpoint0: bool)
    ensures IsFrom(h, endpoint0) ==> h.reply.DataPacket?
  {
  }

  /** The token a packet was accepted under is the one of the token packet that came
      before it, given that no fragment shorter than a token came in between. */
  lemma {:induction false} OrderlyAt(heard: seq<Heard>, token: Token, i: nat)
    requires Orderly(heard, token) && i < |heard|
    ensures Answered(heard[i])
    ensures TokenStep(heard[i], if i + 1 < |heard| then heard[i + 1].token else token)
    decreases |heard|
  {
    hide Answered, TokenStep;
    var init := heard[..|heard| - 1];
    if i < |heard| - 1 { OrderlyAt(init, heard[|heard| - 1].token, i); }
  }
}
