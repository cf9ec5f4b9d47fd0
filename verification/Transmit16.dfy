/** The transmit loop of usbdrvasm16.inc: six bits in an inner loop counted by the
    ones and zeros of 0x35, bits 6 and 7 with their own stuffing paths, and the
    history of sent bits in `x2`, compared with 0xfc. */
module Transmit16 {
  import opened Bits
  import opened LineCoding
  import opened LinePort
  import opened LineTracking
  import opened LineDriving

  /** What `x2` knows: how many ones in a row were sent last. At the start it knows
      nothing, which is harmless because the first bit is a zero. */
  ghost predicate History(x2: byte, g: Owed) {
    (g.rest != [] && !g.rest[0]) || Run(x2) == g.ones
  }

  /** Between two bits: the trace so far plus what is owed is the packet. */
  ghost predicate Sending(base: byte, trace: seq<byte>, x1: byte, x2: byte, g: Owed, whole: seq<byte>) {
    Owing(base, trace, x1, g, whole) && History(x2, g)
  }

  lemma HistoryTakes(x2: byte, g: Owed)
    requires g.ones < 6 && g.rest != [] && History(x2, g)
    ensures Ror(x2, g.rest[0]) >= 0xfc <==> Sixth(g)
    ensures !Sixth(g) ==> Run(Ror(x2, g.rest[0])) == After(g).ones
  {
    hide Run, Ror;
    RunFull(Ror(x2, g.rest[0]));
    if g.rest[0] { RunOne(x2); } else { RunZero(x2); }
  }

  lemma EmptyHistory()
    ensures Run(0) == 0 && Ror(0, false) == 0
  {
  }

  predicate Bit7(r: byte) { r & 0x80 != 0 }

  lemma RorTop(r: byte, carry: bool)
    ensures Bit7(Ror(r, carry)) == carry
  {
  }

  /** `rol` with the carry clear. */
  function Rol0(r: byte): byte { r << 1 }

  lemma RorUndoesRol(r: byte)
    ensures Ror(Rol0(r), Bit7(r)) == r && !Bit0(Rol0(r))
  {
  }

  /** The bits of `shift` not sent yet, then the bytes not loaded yet. */
  ghost predicate Loaded(g: Owed, shift: byte, n: nat, later: seq<bool>) {
    g.rest == LowBits(shift, n) + later
  }

  lemma LoadedNone(g: Owed, shift: byte, later: seq<bool>)
    requires Loaded(g, shift, 0, later)
    ensures g.rest == later
  {
  }

  lemma LoadedByte(g: Owed, b: byte, rest: seq<byte>)
    requires g.rest == BytesBits([b] + rest)
    ensures Loaded(g, b, 8, BytesBits(rest))
  {
    assert ([b] + rest)[1..] == rest;
  }

  /** The next bit of `shift`: it is the one due, the history after it tells whether
      a zero has to be stuffed, and what goes out pays for it. */
  lemma BitPaid(base: byte, trace: seq<byte>, x1: byte, x2: byte, g: Owed, whole: seq<byte>,
                shift: byte, n: nat, later: seq<bool>)
    requires Sending(base, trace, x1, x2, g, whole) && Loaded(g, shift, n, later) && 1 <= n <= 8
    ensures g.ones < 6 && g.rest != [] && g.rest[0] == Bit0(shift)
    ensures Sixth(g) <==> Ror(x2, Bit0(shift)) >= 0xfc
    ensures Sixth(g) ==> Bit0(shift)
    ensures forall carry :: Loaded(After(g), Ror(shift, carry), n - 1, later)
    ensures var y := Toggled(x1, Bit0(shift));
      !Sixth(g) ==> Sending(base, trace + [y], y, Ror(x2, Bit0(shift)), After(g), whole)
    ensures var y := Eor(x1, 0x14);
      Sixth(g) ==> Sending(base, (trace + [x1]) + [y], y, 0, After(g), whole)
  {
    hide Run, Ror, Eor, Due, Drive, Bit0, LowBits;
    RorTakesBit(shift, true, n);
    forall carry ensures g.ones < 6 && g.rest != [] && Loaded(After(g), Ror(shift, carry), n - 1, later) {
      RorTakesBit(shift, carry, n);
      BitLeaves(Bit0(shift), LowBits(Ror(shift, carry), n - 1), later);
    }
    BitLeaves(Bit0(shift), LowBits(Ror(shift, true), n - 1), later);
    HistoryTakes(x2, g);
    EmptyHistory();
    if Sixth(g) { PaySixth(base, trace, x1, g, whole); } else { PayPlain(base, trace, x1, g, whole); }
  }

  /** How many of the eight bits are left when `bitcnt` has this value. */
  predicate Counts(bitcnt: byte, n: nat) {
    (bitcnt == 0x35 && n == 8) || (bitcnt == 0x1a && n == 7) || (bitcnt == 0x0d && n == 6) ||
    (bitcnt == 0x06 && n == 5) || (bitcnt == 0x03 && n == 4) || (bitcnt == 0x01 && n == 3)
  }

  lemma CountsStart()
    ensures Counts(0x35, 8)
  {
  }

  lemma CountsDown(bitcnt: byte, n: nat)
    requires Counts(bitcnt, n)
    ensures 3 <= n <= 8
    ensures !Bit0(bitcnt) || Lsr(bitcnt) != 0 <==> n > 3
    ensures n > 3 ==> Counts(Lsr(bitcnt), n - 1)
  {
  }

  /** txBitLoop: bits 0 to 5. */
  method SendSixBits(base: byte, tr: seq<byte>, r1: byte, r2: byte, sh: byte, carry: bool,
                     ghost before: Owed, ghost later: seq<bool>, ghost whole: seq<byte>)
    returns (trace: seq<byte>, x1: byte, x2: byte, shift: byte, c: bool, ghost g: Owed)
    requires Sending(base, tr, r1, r2, before, whole) && Loaded(before, sh, 8, later)
    ensures Sending(base, trace, x1, x2, g, whole) && Loaded(g, shift, 2, later)
  {
    hide Run, Ror, Eor, Bit0, Lsr, LowBits, Sending, Loaded, Counts, Sixth, Rol0, Bit7, After;
    trace, x1, x2, shift, c, g := tr, r1, r2, sh, carry, before;
    var bitcnt: byte := 0x35;
    var again := true;
    ghost var n: nat := 8;
    CountsStart();
    while again
      invariant Sending(base, trace, x1, x2, g, whole)
      invariant n <= 8 && Loaded(g, shift, n, later)
      invariant if again then Counts(bitcnt, n) else n == 2
      decreases n, again
    {
      CountsDown(bitcnt, n);
      BitPaid(base, trace, x1, x2, g, whole, shift, n, later);
      if !Bit0(shift) { x1 := Eor(x1, 0x14); }
      trace := trace + [x1];                       // out N
      c, shift := Bit0(shift), Ror(shift, c);
      x2 := Ror(x2, c);
      if x2 >= 0xfc {                              // bitstuffN
        x1 := Eor(x1, 0x14);
        x2 := 0;
        trace := trace + [x1];
      }
      c, bitcnt := Bit0(bitcnt), Lsr(bitcnt);
      again := !c || bitcnt != 0;
      g := After(g);
      n := n - 1;
    }
  }

  /** Bit 6; its stuffing path shifts left first because the bit goes out again
      through the same `ror`s. */
  method SendBit6(base: byte, tr: seq<byte>, r1: byte, r2: byte, sh: byte, carry: bool,
                  ghost before: Owed, ghost later: seq<bool>, ghost whole: seq<byte>)
    returns (trace: seq<byte>, x1: byte, x2: byte, shift: byte, ghost g: Owed)
    requires Sending(base, tr, r1, r2, before, whole) && Loaded(before, sh, 2, later)
    ensures Sending(base, trace, x1, x2, g, whole) && Loaded(g, shift, 1, later)
  {
    hide Run, Ror, Eor, Bit0, Lsr, LowBits, Sending, Loaded, Counts, Sixth, Rol0, Bit7, After;
    BitPaid(base, tr, r1, r2, before, whole, sh, 2, later);
    trace, x1, x2, shift, g := tr, r1, r2, sh, After(before);
    var c := carry;
    if !Bit0(shift) { x1 := Eor(x1, 0x14); }
    trace := trace + [x1];                         // out 6
    c, shift := Bit0(shift), Ror(shift, c);
    x2 := Ror(x2, c);
    if x2 >= 0xfc {                                // bitstuff6
      x1 := Eor(x1, 0x14);
      x2 := 0;
      RorUndoesRol(shift);
      c, shift := Bit7(shift), Rol0(shift);
      trace := trace + [x1];
      c, shift := Bit0(shift), Ror(shift, c);
      EmptyHistory();
      x2 := Ror(x2, c);
    }
  }

  /** Bit 7, taken from the history instead of from `shift`. */
  method SendBit7(base: byte, tr: seq<byte>, r1: byte, r2: byte, shift: byte,
                  ghost before: Owed, ghost later: seq<bool>, ghost whole: seq<byte>)
    returns (trace: seq<byte>, x1: byte, x2: byte, c: bool, ghost g: Owed)
    requires Sending(base, tr, r1, r2, before, whole) && Loaded(before, shift, 1, later)
    ensures Sending(base, trace, x1, x2, g, whole) && g.rest == later
  {
    hide Run, Ror, Eor, Bit0, Lsr, LowBits, Sending, Loaded, Counts, Sixth, Rol0, Bit7, After;
    BitPaid(base, tr, r1, r2, before, whole, shift, 1, later);
    assert Loaded(After(before), Ror(shift, true), 0, later);
    LoadedNone(After(before), Ror(shift, true), later);
    trace, x1, x2, g := tr, r1, r2, After(before);
    c := Bit0(shift);
    RorTop(x2, c);
    x2 := Ror(x2, c);
    if !Bit7(x2) { x1 := Eor(x1, 0x14); }
    trace := trace + [x1];                         // out 7
    c := x2 < 0xfc;
    if !c {                                        // bitstuff7
      x2 := 0;
      EmptyHistory();
      RorTop(x2, c);
      x2 := Ror(x2, c);
      if !Bit7(x2) { x1 := Eor(x1, 0x14); }
      c := x2 < 0xfc;
      trace := trace + [x1];
    }
  }

  /** From txByteLoop until the next byte is loaded: the eight bits of `shift`. */
  method SendByte(base: byte, tr: seq<byte>, r1: byte, r2: byte, sh: byte, carry: bool,
                  ghost before: Owed, ghost later: seq<bool>, ghost whole: seq<byte>)
    returns (trace: seq<byte>, x1: byte, x2: byte, c: bool, ghost g: Owed)
    requires Sending(base, tr, r1, r2, before, whole) && Loaded(before, sh, 8, later)
    ensures Sending(base, trace, x1, x2, g, whole) && g.rest == later
  {
    hide Sending, Loaded;
    var shift: byte;
    trace, x1, x2, shift, c, g := SendSixBits(base, tr, r1, r2, sh, carry, before, later, whole);
    trace, x1, x2, shift, g := SendBit6(base, trace, x1, x2, shift, c, g, later, whole);
    trace, x1, x2, c, g := SendBit7(base, trace, x1, x2, shift, g, later, whole);
  }

  lemma SendingStarts(out: byte, x2: byte, bytes: seq<byte>)
    requires Masked(out) == 0
    ensures var bits := SyncBits() + BytesBits(bytes);
      && Sending(out, [], Ori(out, 0x10), x2, Owed(J, 0, bits), DriveAll(out, Nrzi(J, Stuff(0, bits))))
      && Loaded(Owed(J, 0, bits), 0x80, 8, BytesBits(bytes))
  {
    hide Drive, DriveAll, Masked, Run, LowBits, Stuff, Nrzi;
    DriveStarts(out);
    SyncByteBits();
    var bits := SyncBits() + BytesBits(bytes);
    assert [] + Due(out, Owed(J, 0, bits)) == Due(out, Owed(J, 0, bits));
  }

  lemma NoBytes(bytes: seq<byte>)
    requires bytes == []
    ensures BytesBits(bytes) == []
  {
  }

  lemma SendingEnds(out: byte, trace: seq<byte>, x1: byte, x2: byte, g: Owed, line: seq<Level>)
    requires Sending(out, trace, x1, x2, g, DriveAll(out, line)) && g.rest == []
    ensures var se0 := Andi(x1, 0xeb); var idle := Ori(se0, 0x10);
      (trace + [se0, se0]) + [idle] == DriveAll(out, line + [SE0, SE0, J])
  {
    hide Drive, Run, Andi, Ori;
    PaidUp(out, trace, x1, g, DriveAll(out, line));
    DriveEnds(out, g.level);
    DriveAppend(out, line, [SE0, SE0, J]);
    assert DriveAll(out, [SE0, SE0, J]) == [Drive(out, SE0), Drive(out, SE0), Drive(out, J)];
  }

  /** usbSendAndReti. `y` points at the bytes to send in `ram`; `cnt` counts them and
      the sync byte. The loop loads one byte more than it sends. The address set by
      SET_ADDRESS takes effect unless the byte sent was the handshake in register 20. */
  method Send(out: byte, ram: seq<byte>, start: nat, count: nat, x2AtEntry: byte, carry: bool)
    returns (trace: seq<byte>, assignAddress: bool)
    requires Masked(out) == 0 && 1 <= count <= 255 && start + count <= |ram|
    ensures trace == DriveAll(out, PacketLevels(ram[start..start + count - 1]))
    ensures assignAddress <==> start + count != 22
  {
    hide Run, Ror, Eor, Bit0, LowBits, Sending, Loaded, Drive, DriveAll, Masked, Nrzi, Stuff, BytesBits, SyncBits, Andi, Ori;
    var x1 := Ori(out, 0x10);
    trace := [];
    var x2, c := x2AtEntry, carry;
    var shift: byte := 0x80;
    var y, cnt := start, count;
    ghost var stop := start + count - 1;
    ghost var bits := SyncBits() + BytesBits(ram[start..stop]);
    ghost var line := Nrzi(J, Stuff(0, bits));
    ghost var g := Owed(J, 0, bits);
    SendingStarts(out, x2, ram[start..stop]);
    var more := true;
    while more                                     // txByteLoop
      invariant start <= y <= stop + 1 && 0 <= cnt
      invariant Sending(out, trace, x1, x2, g, DriveAll(out, line))
      invariant if more then y <= stop && cnt == stop - y + 1 && Loaded(g, shift, 8, BytesBits(ram[y..stop]))
                else y == stop + 1 && g.rest == []
      decreases cnt, more
    {
      trace, x1, x2, c, g := SendByte(out, trace, x1, x2, shift, c, g, BytesBits(ram[y..stop]), DriveAll(out, line));
      if y < stop {
        assert ram[y..stop] == [ram[y]] + ram[y + 1..stop];
        LoadedByte(g, ram[y], ram[y + 1..stop]);
      } else {
        NoBytes(ram[y..stop]);
      }
      shift := ram[y];
      y := y + 1;
      cnt := cnt - 1;
      more := cnt != 0;
    }
    SendingEnds(out, trace, x1, x2, g, line);
    x1 := Andi(x1, 0xeb);
    trace := trace + [x1, x1];                     // SE0 for two bit times
    x1 := Ori(x1, 0x10);
    trace := trace + [x1];                         // idle
    assignAddress := y != 22;
  }
}
