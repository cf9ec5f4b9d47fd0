/** The receive loop of usbdrvasm16.inc. A stuffed zero is noticed by the last six
    bits of `shift` all being ones; the newest of them is then cleared so that the
    next comparison fails, and `x3` remembers which bits were changed that way. */
module Receive16 {
  import opened Bits
  import opened LineCoding
  import opened LinePort
  import opened LineTracking

  // ---- which bits of shift are changed: d is shift xor the true bits -----

  predicate EvenPart(d: byte, x3: byte, m: byte) { (d ^ (x3 << 2)) & m == 0 }
  predicate OddPart(d: byte, x3: byte, m: byte) { (d ^ (x3 << 3)) & m == 0 }
  predicate SevenPart(d: byte, x3: byte) { (d ^ (x3 << 1)) & 0xfe == 0 }

  lemma EvenPlain(d: byte, x3: byte, m: byte)
    requires EvenPart(d, x3, m) && m & 0x0f == 0
    ensures OddPart(Plain(d), Even(x3), Ror(m, true)) && Even(x3) & 0xe0 == 0
  {
  }

  lemma EvenStuffed(d: byte, x3: byte, m: byte)
    requires EvenPart(d, x3, m) && m & 0x0f == 0
    ensures OddPart(Changed(d), EvenMarked(x3), Ror(m, true)) && EvenMarked(x3) & 0xe0 == 0
  {
  }

  lemma OddPlain(d: byte, x3: byte, m: byte)
    requires OddPart(d, x3, m) && x3 & 0xe0 == 0
    ensures EvenPart(Plain(d), x3, Ror(m, true)) && x3 & 0xc0 == 0
  {
  }

  lemma OddStuffed(d: byte, x3: byte, m: byte)
    requires OddPart(d, x3, m) && x3 & 0xe0 == 0
    ensures EvenPart(Changed(d), OddMarked(x3), Ror(m, true)) && OddMarked(x3) & 0xc0 == 0
  {
  }

  lemma SixPlain(d: byte, x3: byte)
    requires EvenPart(d, x3, 0xfc) && x3 & 0xc0 == 0
    ensures SevenPart(Plain(d), x3) && x3 & 0x80 == 0
  {
  }

  lemma SixStuffed(d: byte, x3: byte)
    requires EvenPart(d, x3, 0xfc) && x3 & 0xc0 == 0
    ensures SevenPart(Changed(d), SixMarked(x3)) && SixMarked(x3) & 0x80 == 0
  {
  }

  lemma SevenPlain(d: byte, x3: byte)
    requires SevenPart(d, x3) && x3 & 0x80 == 0
    ensures Plain(d) == x3
  {
  }

  lemma SevenStuffed(d: byte, x3: byte)
    requires SevenPart(d, x3) && x3 & 0x80 == 0
    ensures Changed(d) == SevenMarked(x3)
  {
  }

  function Plain(d: byte): byte { d >> 1 }
  function Changed(d: byte): byte { (d >> 1) | 0x80 }

  // What the loop's instructions make of x3 and shift.
  function Even(x3: byte): byte { Lsr(Lsr(Andi(x3, 0x3f))) }
  function EvenMarked(x3: byte): byte { Lsr(Lsr(Ori(Andi(x3, 0x3f), 0x40))) }
  function OddMarked(x3: byte): byte { Ori(x3, 0x20) }
  function SixMarked(x3: byte): byte { Ori(x3, 0x40) }
  function SevenMarked(x3: byte): byte { Ori(x3, 0x80) }
  function ClearNewest(shift: byte): byte { Andi(shift, 0x7f) }

  lemma DiffPlain(s: byte, t: byte, bit: bool)
    ensures Eor(Ror(s, bit), Ror(t, bit)) == Plain(Eor(s, t))
  {
    hide Plain, Ror, Eor;
    if bit { DiffOne(s, t); } else { DiffZero(s, t); }
  }

  lemma DiffZero(s: byte, t: byte)
    ensures Eor(Ror(s, false), Ror(t, false)) == Plain(Eor(s, t))
  {
  }

  lemma DiffOne(s: byte, t: byte)
    ensures Eor(Ror(s, true), Ror(t, true)) == Plain(Eor(s, t))
  {
  }

  lemma DiffChanged(s: byte, t: byte)
    ensures Eor(ClearNewest(Ror(s, true)), Ror(t, true)) == Changed(Eor(s, t))
  {
  }

  lemma DiffIsMarks(s: byte, t: byte, x3: byte)
    requires Eor(s, t) == x3
    ensures Eor(x3, s) == t
  {
  }

  // ---- the loop, stretch by stretch --------------------------------------

  /** In step with a packet: the level register, the history and the data agree
      with where the packet is. */
  ghost predicate InStep(port: seq<byte>, i: nat, x: byte, shift: byte, g: Track) {
    OnLine(port, i, g) && x == Code(g.prev) && Run(shift) == g.ones
  }

  ghost predicate EvenReady(port: seq<byte>, i: nat, x2: byte, shift: byte, x3: byte, g: Track) {
    InStep(port, i, x2, shift, g) && EvenPart(Eor(shift, g.byte_), x3, g.mask)
  }

  ghost predicate OddReady(port: seq<byte>, i: nat, x1: byte, shift: byte, x3: byte, g: Track) {
    InStep(port, i, x1, shift, g) && OddPart(Eor(shift, g.byte_), x3, g.mask) && x3 & 0xe0 == 0
  }

  /** From `rxBitLoop`: bit 0, 2 or 4. */
  method EvenBit(port: seq<byte>, i: nat, shift0: byte, x20: byte, x30: byte,
                 ghost live: bool, ghost g: Track)
    returns (se0: bool, i': nat, shift: byte, x1: byte, x3: byte)
    requires live ==> InStep(port, i, x20, shift0, g)
    requires live && g.rest != [] ==>
      EvenPart(Eor(shift0, g.byte_), x30, g.mask) && g.mask & 0x0f == 0
    ensures i < i' <= i + 2
    ensures live && g.rest != [] ==> !se0 && OddReady(port, i', x1, shift, x3, Next(g))
    ensures live && g.rest == [] ==> !se0 && Masked(Sample(port, i')) == 0
  {
    hide Masked, Code, Run, Eor, Ror, Andi, Ori, Lsr, EvenPart, OddPart, Plain, Changed, Borrow, Ahead;
    if live {
      if g.rest != [] {
        TakeBit(port, i, g);
        Edge(g.prev, g.rest[0]);
        RunBit(shift0, g);
        CodeNonzero(Next(g).prev);
        if Stuffed(g) {
          DiffChanged(shift0, g.byte_);
          EvenStuffed(Eor(shift0, g.byte_), x30, g.mask);
        } else {
          DiffPlain(shift0, g.byte_, g.rest[0]);
          EvenPlain(Eor(shift0, g.byte_), x30, g.mask);
        }
      } else {
        AheadEnd(port, i, g.prev, g.ones);
        Edge(g.prev, true);
        RunZero(shift0);
        RunFull(Ror(shift0, false));
      }
    }
    x1 := Masked(Sample(port, i));
    i' := i + 1;
    var x2 := Eor(x20, x1);
    x3 := Andi(x30, 0x3f);
    shift := Ror(shift0, Borrow(x2));
    se0 := false;
    if shift >= 0xfc {                                   // unstuffEven
      x3 := Ori(x3, 0x40);
      x1 := Sample(port, i');
      i' := i' + 1;
      shift := Andi(shift, 0x7f);
      x1 := Masked(x1);
      se0 := x1 == 0;
    }
    x3 := Lsr(Lsr(x3));
  }

  /** From `rxbit1`: bit 1, 3 or 5; the loop looks for the end of packet here. */
  method OddBit(port: seq<byte>, i: nat, shift0: byte, x10: byte, x30: byte,
                ghost live: bool, ghost g: Track)
    returns (se0: bool, i': nat, shift: byte, x2: byte, x3: byte)
    requires live && g.rest != [] ==> OddReady(port, i, x10, shift0, x30, g)
    requires live && g.rest == [] ==> Masked(Sample(port, i)) == 0
    ensures i < i' <= i + 2
    ensures live && g.rest != [] ==> !se0 && EvenReady(port, i', x2, shift, x3, Next(g))
                                     && x3 & 0xc0 == 0
    ensures live && g.rest == [] ==> se0
  {
    hide Masked, Code, Run, Eor, Ror, Andi, Ori, EvenPart, OddPart, Plain, Changed, Borrow, Ahead;
    shift, x3, i' := shift0, x30, i + 1;
    x2 := Masked(Sample(port, i));
    if live && g.rest != [] {
      TakeBit(port, i, g);
      Edge(g.prev, g.rest[0]);
      RunBit(shift0, g);
      CodeNonzero(Step(g.prev, g.rest[0]));
      CodeNonzero(Next(g).prev);
      if Stuffed(g) {
        DiffChanged(shift0, g.byte_);
        OddStuffed(Eor(shift0, g.byte_), x30, g.mask);
      } else {
        DiffPlain(shift0, g.byte_, g.rest[0]);
        OddPlain(Eor(shift0, g.byte_), x30, g.mask);
      }
    }
    if x2 == 0 { return true, i', shift, x2, x3; }
    var x1 := Eor(x10, x2);
    shift := Ror(shift, Borrow(x1));
    se0 := false;
    if shift >= 0xfc {                                   // unstuffOdd
      x3 := Ori(x3, 0x20);
      x2 := Sample(port, i');
      i' := i' + 1;
      shift := Andi(shift, 0x7f);
      x2 := Masked(x2);
      se0 := x2 == 0;
    }
  }

  /** From `rxByteLoop`, the reading for bit 6 already taken into x1: bits 6 and 7,
      and the byte to be stored. After an unstuffing the comparison with 0xfc is
      repeated, but cannot hold again. */
  method LastTwoBits(port: seq<byte>, i: nat, shift0: byte, x10: byte, x20: byte, x30: byte,
                     ghost live: bool, ghost g: Track, ghost b: byte, ghost later: seq<bool>)
    returns (i': nat, shift: byte, x2: byte, x3: byte, ghost g': Track)
    requires i > 0 && x10 == Sample(port, i - 1)
    requires live ==> EvenReady(port, i - 1, x20, shift0, x30, g) && x30 & 0xc0 == 0
    requires live ==> Within(g, 6, b, later)
    ensures i < i' <= i + 3
    ensures live ==> InStep(port, i', x2, shift, g') && g'.rest == later && x3 == b
  {
    g' := g;
    if live {
      WithinNext(g, 6, b, later);
      WithinNext(Next(g), 7, b, later);
      BecomingDone(Next(Next(g)), b);
      g' := Next(Next(g));
    }
    i', shift, x2, x3 := TakeLastTwo(port, i, shift0, x10, x20, x30, live, g);
  }

  method TakeLastTwo(port: seq<byte>, i: nat, shift0: byte, x10: byte, x20: byte, x30: byte,
                     ghost live: bool, ghost g: Track)
    returns (i': nat, shift: byte, x2: byte, x3: byte)
    requires i > 0 && x10 == Sample(port, i - 1)
    requires live ==> |g.rest| >= 2 && g.mask == 0xfc
    requires live ==> EvenReady(port, i - 1, x20, shift0, x30, g) && x30 & 0xc0 == 0
    ensures i < i' <= i + 3
    ensures live ==> InStep(port, i', x2, shift, Next(Next(g))) && x3 == Next(Next(g)).byte_
  {
    hide Masked, Code, Run, Eor, Ror, Andi, Ori, EvenPart, SevenPart, Plain, Changed, Borrow, Ahead;
    ghost var g1 := g;
    if live {
      g1 := Next(g);
      TakeBit(port, i - 1, g);
      Edge(g.prev, g.rest[0]);
      RunBit(shift0, g);
      if Stuffed(g) {
        DiffChanged(shift0, g.byte_);
        SixStuffed(Eor(shift0, g.byte_), x30);
      } else {
        DiffPlain(shift0, g.byte_, g.rest[0]);
        SixPlain(Eor(shift0, g.byte_), x30);
      }
    }
    x3 := x30;
    var x1 := Masked(x10);
    x2 := Eor(x20, x1);
    shift := Ror(shift0, Borrow(x2));
    x2 := Sample(port, i);                               // didUnstuff6
    i' := i + 1;
    if shift >= 0xfc {                                   // unstuff6
      x2 := Masked(x2);
      x3 := Ori(x3, 0x40);
      shift := Andi(shift, 0x7f);
      x1 := x2;
      x2 := Sample(port, i');
      i' := i' + 1;
    }
    ghost var j, s1, m1 := i' - 1, shift, x3;
    if live {
      assert InStep(port, j, x1, s1, g1) && SevenPart(Eor(s1, g1.byte_), m1) && m1 & 0x80 == 0;
      TakeBit(port, j, g1);
      Edge(g1.prev, g1.rest[0]);
      RunBit(s1, g1);
      if Stuffed(g1) {
        DiffChanged(s1, g1.byte_);
        SevenStuffed(Eor(s1, g1.byte_), m1);
      } else {
        DiffPlain(s1, g1.byte_, g1.rest[0]);
        SevenPlain(Eor(s1, g1.byte_), m1);
      }
    }
    x2 := Masked(x2);
    x1 := Eor(x1, x2);
    shift := Ror(shift, Borrow(x1));
    if shift >= 0xfc {                                   // unstuff7
      x3 := Ori(x3, 0x80);
      x2 := Masked(Sample(port, i'));
      i' := i' + 1;
      shift := Andi(shift, 0x7f);
    }
    if live { DiffIsMarks(shift, Next(g1).byte_, x3); }
    x3 := Eor(x3, shift);
  }

  /** The first sample after the sync pattern goes into bit 7 uncorrected, that is
      inverted (the level before was K), and x3 starts with the matching mark. */
  lemma FirstSample(port: seq<byte>, start: nat, bytes: seq<byte>, x1: byte, shift: byte)
    returns (g: Track)
    requires Carries(port, start, bytes)
    requires x1 == Masked(Sample(port, start)) && shift == (if Minus(x1) then 0x80 else 0)
    ensures OddReady(port, start + 1, x1, shift, 0x10, g)
    ensures g.rest != [] && Within(g, 1, bytes[0], BytesBits(bytes[1..]))
  {
    hide Masked, Ahead, Shows, Ror, LowBits, BytesBits, Eor, OddPart, Run, Minus;
    var g0 := FirstBit(port, start, bytes);
    BecomingNext(g0, 8, bytes[0]);
    TakeBit(port, start, g0);
    TopMaskNext(0);
    var p := SecondZero(g0.rest);
    var b := if g0.rest[0] then 0 else 1;
    g := Next(g0);
    PidForgives(port, start + 1, g, b, p);
    g := g.(ones := b);
    InvertedBit(g0.rest[0]);
  }

  lemma InvertedBit(bit: bool)
    ensures Minus(Code(Step(K, bit))) == !bit
    ensures var shift: byte := if bit then 0 else 0x80;
      Run(shift) == (if bit then 0 else 1) && OddPart(Eor(shift, Ror(0, bit)), 0x10, 0x80)
  {
    if bit {} else {}
  }

  lemma NothingMarked(d: byte, x3: byte)
    ensures EvenPart(d, x3, TopMask(0))
  {
  }

  lemma LowMask(k: nat)
    requires k in {0, 2, 4}
    ensures TopMask(k) & 0x0f == 0
  {
  }

  /** The bit loop for bits 0 to 5. The first byte enters at `rxbit1`, bit 0 of it
      already being in. Three rounds: 0x55 is added to `bitcnt` until it carries. */
  method FirstSixBits(port: seq<byte>, start: nat, shift0: byte, x10: byte, x20: byte, x30: byte,
                      bitcnt0: nat, enterAtOdd: bool,
                      ghost live: bool, ghost g0: Track, ghost b: byte, ghost later: seq<bool>)
    returns (se0: bool, i: nat, shift: byte, x2: byte, x3: byte, bitcnt: nat, ghost g: Track)
    requires 0x01 <= bitcnt0 <= 0x55
    requires live && enterAtOdd ==>
      g0.rest != [] && OddReady(port, start, x10, shift0, x30, g0) && Within(g0, 1, b, later)
    requires live && !enterAtOdd ==> InStep(port, start, x20, shift0, g0)
    requires live && !enterAtOdd && g0.rest != [] ==> Within(g0, 0, b, later)
    ensures i > start && (!se0 ==> bitcnt == bitcnt0 - 1)
    ensures live && g0.rest == [] ==> se0
    ensures live && g0.rest != [] ==>
      !se0 && EvenReady(port, i, x2, shift, x3, g) && x3 & 0xc0 == 0 && Within(g, 6, b, later)
  {
    hide Masked, Code, Run, Eor, Ror, OddPart, EvenPart, Ahead, TopMask, Becoming;
    i, shift, x2, x3, bitcnt, g := start, shift0, x20, x30, bitcnt0, g0;
    var x1 := x10;
    var skipEven := enterAtOdd;
    var again := true;
    ghost var round := 0;
    if live && !enterAtOdd { NothingMarked(Eor(shift, g.byte_), x3); }
    while again
      invariant 0 <= round <= 3 && i >= start && (round > 0 ==> i > start)
      invariant bitcnt == (bitcnt0 + 0x55 * round) % 256 && again == (round < 3)
      invariant skipEven ==> round == 0 && enterAtOdd && x1 == x10 && shift == shift0 && x3 == x30
      invariant skipEven ==> i == start && g == g0
      invariant live && g0.rest == [] ==> round == 0 && g == g0 && InStep(port, i, x2, shift, g) && !skipEven
      invariant live && g0.rest != [] && !skipEven ==>
        EvenReady(port, i, x2, shift, x3, g) && Within(g, 2 * round, b, later)
        && (round > 0 ==> x3 & 0xc0 == 0)
      decreases 3 - round
    {
      if !skipEven {
        if live && g0.rest != [] { LowMask(2 * round); }
        se0, i, shift, x1, x3 := EvenBit(port, i, shift, x2, x3, live, g);
        if se0 { return; }
        if live && g0.rest != [] {
          WithinNext(g, 2 * round, b, later);
          g := Next(g);
        }
      }
      skipEven := false;
      if live && g0.rest != [] { WithinNext(g, 2 * round + 1, b, later); }
      se0, i, shift, x2, x3 := OddBit(port, i, shift, x1, x3, live, g);
      if se0 { return; }
      if live { g := Next(g); }
      again := bitcnt < 0xab;                            // subi bitcnt, 0xab
      bitcnt := (bitcnt + 0x55) % 256;
      round := round + 1;
    }
    se0 := false;
  }

  lemma SameLine(port: seq<byte>, i: nat, x: byte, shift: byte, g: Track, m: byte)
    requires InStep(port, i, x, shift, g)
    ensures InStep(port, i, x, shift, g.(mask := m))
  {
  }

  /** From `haveTwoBitsK` to `se0` or `overflow`. Whatever the line shows, only the
      eleven bytes of this buffer half are written; when it shows a packet with a
      valid identifier, the half holds the packet's bytes. */
  method Receive(port: seq<byte>, start: nat, buf: array<byte>, off: nat, ghost bytes: seq<byte>)
    returns (outcome: Outcome, ghost y: nat)
    requires off + BUFSIZE <= buf.Length
    modifies buf
    ensures off <= y <= off + BUFSIZE && (outcome.Packet? ==> y == off + outcome.n)
    ensures forall k :: (0 <= k < off || y <= k < buf.Length) ==> buf[k] == old(buf[k])
    ensures Carries(port, start, bytes) ==>
      && outcome == (if |bytes| <= BUFSIZE then Packet(|bytes|) else Overflow)
      && (outcome.Overflow? ==> y == off + BUFSIZE)
      && y - off <= |bytes|
      && forall k :: 0 <= k < y - off ==> buf[off + k] == bytes[k]
  {
    hide Masked, InStep, EvenReady, OddReady, Shows, ValidPid, BodyLevels, BytesBits, Within, Ror, TopMask, Minus;
    ghost var live := Carries(port, start, bytes);
    ghost var g := Track(K, 1, [], 0, 0);
    var x1, x2 := Masked(Sample(port, start)), 0;
    var shift: byte := if Minus(x1) then 0x80 else 0;
    var i: nat := start + 1;
    var x3, cnt, bitcnt, p := 0x10, BUFSIZE, 0x55, off;
    if live { g := FirstSample(port, start, bytes, x1, shift); }
    var first := true;
    ghost var n := 0;
    while true
      invariant 0 <= n <= BUFSIZE && cnt == BUFSIZE - n && bitcnt == 0x55 - n && p == off + n
      invariant forall k :: (0 <= k < off || p <= k < buf.Length) ==> buf[k] == old(buf[k])
      invariant first ==> n == 0
      invariant live ==> n <= |bytes| && forall k :: 0 <= k < n ==> buf[off + k] == bytes[k]
      invariant live && first ==>
        g.rest != [] && OddReady(port, i, x1, shift, x3, g)
        && Within(g, 1, bytes[0], BytesBits(bytes[1..]))
      invariant live && !first ==> InStep(port, i, x2, shift, g) && g.rest == BytesBits(bytes[n..])
      decreases cnt
    {
      ghost var b, later := 0, [];
      if live && n == |bytes| { assert |g.rest| == 0; }
      if live && n < |bytes| {
        b, later := bytes[n], BytesBits(bytes[n + 1..]);
        if !first {
          SameLine(port, i, x2, shift, g, TopMask(0));
          g := g.(mask := TopMask(0));
          ByteStarts(g, bytes, n);
        }
      }
      ghost var g6;
      var se0;
      se0, i, shift, x2, x3, bitcnt, g6 :=
        FirstSixBits(port, i, shift, x1, x2, x3, bitcnt, first, live, g, b, later);
      first := false;
      if se0 {
        CountIsReceived(n);
        var count := CountAtSe0(cnt);
        return Packet(count), p;
      }
      var borrow := cnt < 1;                             // subi cnt, 1
      cnt := (cnt + 255) % 256;
      x1 := Sample(port, i);
      i := i + 1;
      if borrow { return Overflow, p; }
      i, shift, x2, x3, g := LastTwoBits(port, i, shift, x1, x2, x3, live, g6, b, later);
      buf[p] := x3;
      p := p + 1;
      n := n + 1;
    }
  }
}
