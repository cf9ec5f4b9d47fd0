/** The transmit loop of usbdrvasm20.inc: seven bits counted by the ones and zeros of
    0x49, and only bit 7 with a stuffing path of its own. The history of sent bits is
    kept as in the 16 MHz loop. */
module Transmit20 {
  import opened Bits
  import opened LineCoding
  import opened LinePort
  import opened LineTracking
  import opened LineDriving
  import opened Transmit16

  predicate Counts49(bitcnt: byte, n: nat) {
    (bitcnt == 0x49 && n == 8) || (bitcnt == 0x24 && n == 7) || (bitcnt == 0x12 && n == 6) ||
    (bitcnt == 0x09 && n == 5) || (bitcnt == 0x04 && n == 4) || (bitcnt == 0x02 && n == 3) || (bitcnt == 0x01 && n == 2)
  }

  lemma Counts49Start()
    ensures Counts49(0x49, 8)
  {
  }

  lemma Counts49Down(bitcnt: byte, n: nat)
    requires Counts49(bitcnt, n)
    ensures 2 <= n <= 8
    ensures !Bit0(bitcnt) || Lsr(bitcnt) != 0 <==> n > 2
    ensures n > 2 ==> Counts49(Lsr(bitcnt), n - 1)
  {
  }

  /** txBitLoop: bits 0 to 6. */
  method SendSevenBits(base: byte, tr: seq<byte>, r1: byte, r2: byte, sh: byte, carry: bool,
                       ghost before: Owed, ghost later: seq<bool>, ghost whole: seq<byte>)
    returns (trace: seq<byte>, x1: byte, x2: byte, shift: byte, c: bool, ghost g: Owed)
    requires Sending(base, tr, r1, r2, before, whole) && Loaded(before, sh, 8, later)
    ensures Sending(base, trace, x1, x2, g, whole) && Loaded(g, shift, 1, later)
  {
    hide Run, Ror, Eor, Bit0, Lsr, LowBits, Sending, Loaded, Counts49, Sixth, After;
    trace, x1, x2, shift, c, g := tr, r1, r2, sh, carry, before;
    var bitcnt: byte := 0x49;
    var again := true;
    ghost var n: nat := 8;
    Counts49Start();
    while again
      invariant Sending(base, trace, x1, x2, g, whole)
      invariant n <= 8 && Loaded(g, shift, n, later)
      invariant if again then Counts49(bitcnt, n) else n == 1
      decreases n, again
    {
      Counts49Down(bitcnt, n);
      BitPaid(base, trace, x1, x2, g, whole, shift, n, later);
      if !Bit0(shift) { x1 := Eor(x1, 0x14); }
      trace := trace + [x1];                       // out N
      c, shift := Bit0(shift), Ror(shift, c);
      x2 := Ror(x2, c);
      if x2 >= 0xfc {                              // bitstuffN
        x1 := Eor(x1, 0x14);
        x2 := 0;
        trace := trace + [x1];
      }
      c, bitcnt := Bit0(bitcnt), Lsr(bitcnt);
      again := !c || bitcnt != 0;
      g := After(g);
      n := n - 1;
    }
  }

  /** Bit 7; stuffing shifts left first because the zero goes through the same `ror`s. */
  method SendLastBit(base: byte, tr: seq<byte>, r1: byte, r2: byte, sh: byte, carry: bool,
                     ghost before: Owed, ghost later: seq<bool>, ghost whole: seq<byte>)
    returns (trace: seq<byte>, x1: byte, x2: byte, c: bool, ghost g: Owed)
    requires Sending(base, tr, r1, r2, before, whole) && Loaded(before, sh, 1, later)
    ensures Sending(base, trace, x1, x2, g, whole) && g.rest == later
  {
    hide Run, Ror, Eor, Bit0, LowBits, Sending, Loaded, Sixth, Rol0, Bit7, After;
    BitPaid(base, tr, r1, r2, before, whole, sh, 1, later);
    assert Loaded(After(before), Ror(sh, true), 0, later);
    LoadedNone(After(before), Ror(sh, true), later);
    trace, x1, x2, g := tr, r1, r2, After(before);
    var shift := sh;
    if !Bit0(shift) { x1 := Eor(x1, 0x14); }
    trace := trace + [x1];                         // out 7
    c, shift := Bit0(shift), Ror(shift, carry);
    x2 := Ror(x2, c);
    if x2 >= 0xfc {                                // bitstuff7
      x1 := Eor(x1, 0x14);
      x2 := 0;
      RorUndoesRol(shift);
      c, shift := Bit7(shift), Rol0(shift);
      trace := trace + [x1];
      c, shift := Bit0(shift), Ror(shift, c);
      EmptyHistory();
      x2 := Ror(x2, c);
    }
    c := x2 < 0xfc;
  }

  /** usbSendAndReti. */
  method Send(out: byte, ram: seq<byte>, start: nat, count: nat, x2AtEntry: byte, carry: bool)
    returns (trace: seq<byte>, assignAddress: bool)
    requires Masked(out) == 0 && 1 <= count <= 255 && start + count <= |ram|
    ensures trace == DriveAll(out, PacketLevels(ram[start..start + count - 1]))
    ensures assignAddress <==> start + count != 22
  {
    hide Run, Ror, Eor, Bit0, LowBits, Sending, Loaded, Drive, DriveAll, Masked, Nrzi, Stuff, BytesBits, SyncBits, Andi, Ori;
    var x1 := Ori(out, 0x10);
    trace := [];
    var x2, c := x2AtEntry, carry;
    var shift: byte := 0x80;
    var y, cnt := start, count;
    ghost var stop := start + count - 1;
    ghost var bits := SyncBits() + BytesBits(ram[start..stop]);
    ghost var line := Nrzi(J, Stuff(0, bits));
    ghost var g := Owed(J, 0, bits);
    SendingStarts(out, x2, ram[start..stop]);
    var more := true;
    while more                                     // txByteLoop
      invariant start <= y <= stop + 1 && 0 <= cnt
      invariant Sending(out, trace, x1, x2, g, DriveAll(out, line))
      invariant if more then y <= stop && cnt == stop - y + 1 && Loaded(g, shift, 8, BytesBits(ram[y..stop]))
                else y == stop + 1 && g.rest == []
      decreases cnt, more
    {
      ghost var later, whole := BytesBits(ram[y..stop]), DriveAll(out, line);
      trace, x1, x2, shift, c, g := SendSevenBits(out, trace, x1, x2, shift, c, g, later, whole);
      trace, x1, x2, c, g := SendLastBit(out, trace, x1, x2, shift, c, g, later, whole);
      if y < stop {
        assert ram[y..stop] == [ram[y]] + ram[y + 1..stop];
        LoadedByte(g, ram[y], ram[y + 1..stop]);
      } else {
        NoBytes(ram[y..stop]);
      }
      shift := ram[y];
      y := y + 1;
      cnt := cnt - 1;
      more := cnt != 0;
    }
    SendingEnds(out, trace, x1, x2, g, line);
    x1 := Andi(x1, 0xeb);
    trace := trace + [x1, x1];                     // SE0 for two bit times
    x1 := Ori(x1, 0x10);
    trace := trace + [x1];                         // idle
    assignAddress := y != 22;
  }
}
