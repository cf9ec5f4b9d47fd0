/** The transmit loop of usbdrvasm12.inc: ones are counted down from six in `x4`, a
    stuffed zero is made by holding the line for one bit time and then sending a zero,
    and `cnt` counts bit pairs and bytes at once, 171 at a time. */
module Transmit12 {
  import opened Bits
  import opened LineCoding
  import opened LinePort
  import opened LineDriving

  /** Between two bits, except that the level of the last one is in `x1` but not
      yet on the port. */
  ghost predicate Sending(base: byte, trace: seq<byte>, x1: byte, x4: nat, g: Owed, whole: seq<byte>) {
    Owing(base, trace + [x1], x1, g, whole) && x4 == 6 - g.ones
  }

  ghost predicate Loaded(g: Owed, shift: byte, n: nat, later: seq<bool>) {
    g.rest == LowBits(shift, n) + later
  }

  /** `lsl` and the `ror` after it: the carry is clear and only the top bit is gone. */
  function Lsl(r: byte): byte { r << 1 }

  lemma LslThenRor(r: byte)
    ensures !Bit0(Lsl(r))
    ensures r == Ror(Lsl(r), false) || r == Ror(Lsl(r), false) | 0x80
  {
  }

  lemma LslKeeps(r: byte, n: nat)
    requires n <= 7
    ensures LowBits(Ror(Lsl(r), false), n) == LowBits(r, n)
  {
    hide Ror, Lsl, LowBits;
    LslThenRor(r);
    TopClear(n);
    LowBitsIgnore(Ror(Lsl(r), false), 0x80, n);
  }

  lemma BitDue(base: byte, trace: seq<byte>, x1: byte, x4: nat, g: Owed, whole: seq<byte>,
               shift: byte, carry: bool, n: nat, later: seq<bool>)
    requires Sending(base, trace, x1, x4, g, whole) && Loaded(g, shift, n, later) && 1 <= n <= 8
    ensures g.ones < 6 && g.rest != [] && g.rest[0] == Bit0(shift)
    ensures Sixth(g) <==> Bit0(shift) && x4 == 1
    ensures Loaded(After(g), Ror(shift, carry), n - 1, later)
    ensures Loaded(After(g), Ror(Lsl(Ror(shift, carry)), false), n - 1, later)
    ensures !Sixth(g) && !Bit0(shift) ==> Sending(base, trace + [x1], Eor(x1, 0x14), 6, After(g), whole)
    ensures !Sixth(g) && Bit0(shift) ==> x4 > 1 && Sending(base, trace + [x1], x1, x4 - 1, After(g), whole)
    ensures Sixth(g) ==> Sending(base, (trace + [x1]) + [x1], Eor(x1, 0x14), 6, After(g), whole)
  {
    hide Ror, Eor, Due, Drive, Bit0, LowBits, Lsl;
    var s := Ror(shift, carry);
    RorTakesBit(shift, carry, n);
    BitLeaves(Bit0(shift), LowBits(s, n - 1), later);
    LslKeeps(s, n - 1);
    if Sixth(g) { PaySixth(base, trace + [x1], x1, g, whole); } else { PayPlain(base, trace + [x1], x1, g, whole); }
  }

  /** The four places that put a bit of `shift` on the line (stuffN1Delay,
      stuffN2Delay, stuff6Delay, stuff7Delay) differ in where the `out` of the bit
      before falls; each leaves the new level in x1 for the next `out`. */
  method SendBit(base: byte, tr: seq<byte>, r1: byte, r4: nat, sh: byte, carry: bool,
                 ghost before: Owed, ghost n: nat, ghost later: seq<bool>, ghost whole: seq<byte>)
    returns (trace: seq<byte>, x1: byte, x4: nat, shift: byte, c: bool, ghost g: Owed)
    requires Sending(base, tr, r1, r4, before, whole) && Loaded(before, sh, n, later) && 1 <= n <= 8
    ensures Sending(base, trace, x1, x4, g, whole) && Loaded(g, shift, n - 1, later)
  {
    hide Sending, Loaded, Ror, Eor, Bit0, Lsl, Sixth, After;
    BitDue(base, tr, r1, r4, before, whole, sh, carry, n, later);
    g := After(before);
    x1, x4, shift := r1, r4, sh;
    trace := tr + [x1];                            // out
    c, shift := Bit0(shift), Ror(shift, carry);
    if !c {                                        // doExor
      x1 := Eor(x1, 0x14);
      x4 := 6;
    } else {
      x4 := x4 - 1;
      if x4 == 0 {                                 // stuffing: wait one bit time
        LslThenRor(shift);
        shift := Lsl(shift);
        trace := trace + [x1];
        c, shift := Bit0(shift), Ror(shift, false);
        x1 := Eor(x1, 0x14);
        x4 := 6;
      }
    }
  }

  /** The bit pairs still to come before the one `subi cnt, 171` that does not borrow. */
  predicate Pairs(cnt: nat, bytes: nat, n: nat) {
    (n == 3 && cnt == bytes) || (n == 2 && cnt == bytes + 85) || (n == 1 && cnt == bytes + 170)
  }

  /** From commonN1 until the next byte is loaded, the first bit having been taken
      from `shift` already. */
  method SendByte(base: byte, tr: seq<byte>, r1: byte, r4: nat, sh: byte, carry: bool, bytes: nat,
                  ghost before: Owed, ghost later: seq<bool>, ghost whole: seq<byte>)
    returns (trace: seq<byte>, x1: byte, x4: nat, c: bool, cnt: nat, ghost g: Owed)
    requires Sending(base, tr, r1, r4, before, whole) && Loaded(before, sh, 7, later)
    requires 1 <= bytes <= 85
    ensures Sending(base, trace, x1, x4, g, whole) && Loaded(g, 0, 0, later)
    ensures cnt == bytes - 1
  {
    hide Sending, Loaded;
    trace, x1, x4, c, g := tr, r1, r4, carry, before;
    var shift := sh;
    cnt := bytes;
    ghost var n: nat := 3;
    var borrow := true;
    while borrow
      invariant Sending(base, trace, x1, x4, g, whole)
      invariant if borrow then Pairs(cnt, bytes, n) && Loaded(g, shift, 2 * n + 1, later)
                else n == 0 && cnt == bytes - 1 && Loaded(g, shift, 2, later)
      decreases n, borrow
    {
      trace, x1, x4, shift, c, g := SendBit(base, trace, x1, x4, shift, c, g, 2 * n + 1, later, whole);
      borrow := cnt < 171;
      cnt := (cnt + 85) % 256;                     // subi cnt, 171
      if borrow {                                  // txBitloop
        trace, x1, x4, shift, c, g := SendBit(base, trace, x1, x4, shift, borrow, g, 2 * n, later, whole);
      }
      n := n - 1;
    }
    trace, x1, x4, shift, c, g := SendBit(base, trace, x1, x4, shift, borrow, g, 2, later, whole);
    trace, x1, x4, shift, c, g := SendBit(base, trace, x1, x4, shift, c, g, 1, later, whole);
    LoadedNone(g, shift, later);
  }

  lemma LoadedNone(g: Owed, shift: byte, later: seq<bool>)
    requires Loaded(g, shift, 0, later)
    ensures Loaded(g, 0, 0, later) && g.rest == later
  {
  }

  lemma LoadedByte(g: Owed, b: byte, rest: seq<byte>)
    requires Loaded(g, 0, 0, BytesBits([b] + rest))
    ensures Loaded(g, b, 8, BytesBits(rest))
  {
    LoadedNone(g, 0, BytesBits([b] + rest));
    assert ([b] + rest)[1..] == rest;
  }

  /** The first bit of the sync byte is sent before the loop is entered, so `shift`
      starts as the sync byte already shifted by one. */
  lemma SendingStarts(out: byte, bytes: seq<byte>)
    requires Masked(out) == 0
    ensures var bits := SyncBits() + BytesBits(bytes);
      && Sending(out, [], Eor(Ori(out, 0x10), 0x14), 6, Owed(K, 0, bits[1..]), DriveAll(out, Nrzi(J, Stuff(0, bits))))
      && Loaded(Owed(K, 0, bits[1..]), 0x40, 7, BytesBits(bytes))
  {
    hide Drive, DriveAll, Masked, LowBits, Stuff, Nrzi, Eor, Ori;
    var bits := SyncBits() + BytesBits(bytes);
    var g := Owed(J, 0, bits);
    DriveStarts(out);
    SyncByteBits();
    assert [] + Due(out, g) == Due(out, g);
    PayPlain(out, [], Ori(out, 0x10), g, Due(out, g));
    assert After(g) == Owed(K, 0, bits[1..]);
    SyncTail(bits[1..], BytesBits(bytes));
  }

  lemma SyncTail(rest: seq<bool>, later: seq<bool>)
    requires rest == (SyncBits() + later)[1..]
    ensures rest == LowBits(0x40, 7) + later
  {
    hide LowBits;
    SyncByteBits();
    assert SyncBits()[1..] == [false, false, false, false, false, false, true];
    assert rest == SyncBits()[1..] + later;
  }

  lemma NoBytes(bytes: seq<byte>)
    requires bytes == []
    ensures BytesBits(bytes) == []
  {
  }

  lemma SendingEnds(out: byte, trace: seq<byte>, x1: byte, x4: nat, g: Owed, line: seq<Level>)
    requires Sending(out, trace, x1, x4, g, DriveAll(out, line)) && g.rest == []
    ensures var se0 := Andi(x1, 0xeb); var idle := Ori(se0, 0x10);
      ((trace + [x1]) + [se0, se0]) + [idle] == DriveAll(out, line + [SE0, SE0, J])
  {
    hide Drive, Andi, Ori;
    PaidUp(out, trace + [x1], x1, g, DriveAll(out, line));
    DriveEnds(out, g.level);
    DriveAppend(out, line, [SE0, SE0, J]);
    assert DriveAll(out, [SE0, SE0, J]) == [Drive(out, SE0), Drive(out, SE0), Drive(out, J)];
  }

  /** usbSendAndReti. */
  method Send(out: byte, ram: seq<byte>, start: nat, count: nat, carry: bool)
    returns (trace: seq<byte>, assignAddress: bool)
    requires Masked(out) == 0 && 1 <= count <= 85 && start + count <= |ram|
    ensures trace == DriveAll(out, PacketLevels(ram[start..start + count - 1]))
    ensures assignAddress <==> start + count != 22
  {
    hide Ror, Eor, Bit0, LowBits, Sending, Loaded, Drive, DriveAll, Masked, Nrzi, Stuff, BytesBits, SyncBits, Andi, Ori;
    var x1 := Eor(Ori(out, 0x10), 0x14);
    var x4: nat := 6;
    trace := [];
    var shift: byte, c := 0x40, carry;
    var y, cnt: nat := start, count;
    ghost var stop := start + count - 1;
    ghost var bits := SyncBits() + BytesBits(ram[start..stop]);
    ghost var line := Nrzi(J, Stuff(0, bits));
    SyncSize(bits, BytesBits(ram[start..stop]));
    ghost var g := Owed(K, 0, bits[1..]);
    SendingStarts(out, ram[start..stop]);
    var more := true;
    while more                                     // txByteLoop
      invariant start <= y <= stop + 1
      invariant Sending(out, trace, x1, x4, g, DriveAll(out, line))
      invariant if more then y <= stop && cnt == stop - y + 1 && Loaded(g, shift, 7, BytesBits(ram[y..stop]))
                else y == stop + 1 && g.rest == []
      decreases stop + 1 - y, more
    {
      ghost var later := BytesBits(ram[y..stop]);
      trace, x1, x4, c, cnt, g := SendByte(out, trace, x1, x4, shift, c, cnt, g, later, DriveAll(out, line));
      if y < stop {
        assert ram[y..stop] == [ram[y]] + ram[y + 1..stop];
        LoadedByte(g, ram[y], ram[y + 1..stop]);
      } else {
        NoBytes(ram[y..stop]);
        LoadedNone(g, 0, later);
      }
      shift := ram[y];
      y := y + 1;
      more := cnt != 0;
      if more {                                    // txBitloop
        trace, x1, x4, shift, c, g :=
          SendBit(out, trace, x1, x4, shift, c, g, 8, BytesBits(ram[y..stop]), DriveAll(out, line));
      }
    }
    SendingEnds(out, trace, x1, x4, g, line);
    trace := trace + [x1];
    x1 := Andi(x1, 0xeb);
    trace := trace + [x1, x1];                     // SE0 for two bit times
    x1 := Ori(x1, 0x10);
    trace := trace + [x1];                         // idle
    assignAddress := y != 22;
  }

  lemma SyncSize(bits: seq<bool>, later: seq<bool>)
    requires bits == SyncBits() + later
    ensures |bits| > 0
  {
  }
}
