/** The receive loop of usbdrvasm20.inc: ones are counted down in `bitcnt`, and a
    marker bit below the data tells when seven bits are in. */
module Receive20 {
  import opened Bits
  import opened LineCoding
  import opened LinePort
  import opened LineTracking

  // ---- the data register -------------------------------------------------

  /** k bits are in; below them there is the marker and nothing else. */
  predicate Marked(shift: byte, k: nat)
    requires k <= 7
  {
    match k
    case 0 => shift == 0x40
    case 1 => shift & 0x7f == 0x20
    case 2 => shift & 0x3f == 0x10
    case 3 => shift & 0x1f == 0x08
    case 4 => shift & 0x0f == 0x04
    case 5 => shift & 0x07 == 0x02
    case 6 => shift & 0x03 == 0x01
    case 7 => shift & 0x01 == 0x00
  }

  lemma MarkerMoves(shift: byte, k: nat, bit: bool)
    requires k < 7 && Marked(shift, k)
    ensures Bit0(shift) == (k == 6) && Marked(Ror(shift, bit), k + 1)
  {
    hide Bit0, Ror, Marked;
    if bit { MarkerMovesOne(shift, k); } else { MarkerMovesZero(shift, k); }
  }

  lemma MarkerMovesOne(shift: byte, k: nat)
    requires k < 7 && Marked(shift, k)
    ensures Bit0(shift) == (k == 6) && Marked(Ror(shift, true), k + 1)
  {
    match k case 0 => case 1 => case 2 => case 3 => case 4 => case 5 => case 6 =>
  }

  lemma MarkerMovesZero(shift: byte, k: nat)
    requires k < 7 && Marked(shift, k)
    ensures Bit0(shift) == (k == 6) && Marked(Ror(shift, false), k + 1)
  {
    match k case 0 => case 1 => case 2 => case 3 => case 4 => case 5 => case 6 =>
  }

  /** The bits marked in m are the true ones. */
  predicate SameTop(shift: byte, t: byte, m: byte) { (shift ^ t) & m == 0 }

  lemma SameTopNext(shift: byte, t: byte, m: byte, bit: bool)
    requires SameTop(shift, t, m)
    ensures SameTop(Ror(shift, bit), Ror(t, bit), Ror(m, true))
  {
    hide Ror, SameTop;
    if bit { SameTopOne(shift, t, m); } else { SameTopZero(shift, t, m); }
  }

  lemma SameTopOne(shift: byte, t: byte, m: byte)
    requires SameTop(shift, t, m)
    ensures SameTop(Ror(shift, true), Ror(t, true), Ror(m, true))
  {
  }

  lemma SameTopZero(shift: byte, t: byte, m: byte)
    requires SameTop(shift, t, m)
    ensures SameTop(Ror(shift, false), Ror(t, false), Ror(m, true))
  {
  }

  lemma SameTopStart(shift: byte, t: byte)
    ensures SameTop(shift, t, TopMask(0))
  {
  }

  lemma SameTopDone(shift: byte, t: byte)
    requires SameTop(shift, t, TopMask(8))
    ensures shift == t
  {
  }

  lemma LsrIsRor(r: byte)
    ensures Lsr(r) == Ror(r, false)
  {
  }

  // ---- the loop ----------------------------------------------------------

  /** In step with a packet: the last level is in x2, and bitcnt counts how many
      more ones bring a stuffed zero. */
  ghost predicate InStep(port: seq<byte>, i: nat, x2: byte, bitcnt: nat, g: Track) {
    OnLine(port, i, g) && x2 == Code(g.prev) && bitcnt == 6 - g.ones
  }

  /** Comparing the level registers decodes a bit. */
  lemma SameLevel(prev: Level, bit: bool)
    requires prev != SE0
    ensures Code(Step(prev, bit)) == Code(prev) <==> bit
    ensures Code(prev) != 0
  {
    match prev
    case J => if bit {} else {}
    case K => if bit {} else {}
  }

  /** What the loop does once it has compared the level x1 of reading i - 1 with
      x2: count ones, and read a stuffed zero after the sixth. */
  method CountBit(port: seq<byte>, i: nat, x1: byte, x20: byte, bitcnt0: nat,
                  ghost live: bool, ghost g: Track)
    returns (bit: bool, i': nat, x2: byte, bitcnt: nat)
    requires i > 0 && x1 == Masked(Sample(port, i - 1)) && 1 <= bitcnt0 <= 6
    requires live ==> g.rest != [] && InStep(port, i - 1, x20, bitcnt0, g)
    ensures i <= i' <= i + 1 && 1 <= bitcnt <= 6 && bit == (x1 == x20) && (!bit ==> i' == i)
    ensures live ==> bit == g.rest[0] && InStep(port, i', x2, bitcnt, Next(g))
  {
    hide Masked, Code, Ahead;
    if live {
      TakeBit(port, i - 1, g);
      SameLevel(g.prev, g.rest[0]);
    }
    bit, i', x2, bitcnt := x1 == x20, i, x20, bitcnt0;
    if bit {
      bitcnt := bitcnt - 1;
      if bitcnt == 0 {                                   // unstuff
        x2 := Masked(Sample(port, i'));
        i' := i' + 1;
        bitcnt := 6;
      }
    } else {
      x2 := x1;
      bitcnt := 6;
    }
  }

  /** From `handleBit` with bit 0 read into x1, to `bit7`. */
  method FirstSevenBits(port: seq<byte>, start: nat, x10: byte, x20: byte, bitcnt0: nat,
                        ghost live: bool, ghost g0: Track, ghost b: byte, ghost later: seq<bool>)
    returns (se0: bool, i: nat, shift: byte, x2: byte, bitcnt: nat, ghost g: Track)
    requires start > 0 && x10 == Masked(Sample(port, start - 1)) && 1 <= bitcnt0 <= 6
    requires live ==> InStep(port, start - 1, x20, bitcnt0, g0)
    requires live && g0.rest != [] ==> Within(g0, 0, b, later)
    ensures i >= start && 1 <= bitcnt <= 6
    ensures live && g0.rest == [] ==> se0
    ensures live && g0.rest != [] ==>
      && !se0 && InStep(port, i, x2, bitcnt, g)
      && SameTop(shift, g.byte_, g.mask) && Within(g, 7, b, later)
  {
    hide Masked, Code, InStep, SameTop, Within, Marked, Ror, TopMask, Bit0, Lsr;
    i, x2, bitcnt, g, se0 := start, x20, bitcnt0, g0, false;
    shift := 0x40;
    var x1 := x10;
    ghost var busy := live && g0.rest != [];
    if busy {
      SevenBegin(shift, g0, b, later);
      OnesBound(port, start - 1, x20, bitcnt0, g0);
    }
    if live && g0.rest == [] { PacketEnds(port, start - 1, x20, bitcnt0, g0); }
    ghost var k := 0;
    assert Marked(shift, 0) by { MarkedStart(); }
    while true
      invariant 0 <= k <= 6 && i >= start && 1 <= bitcnt <= 6 && Marked(shift, k)
      invariant i > 0 && x1 == Masked(Sample(port, i - 1))
      invariant live && !busy ==> k == 0 && x1 == 0 && x1 != x2 && Masked(Sample(port, i)) == 0
      invariant busy ==> g.rest != [] && g.ones < 6 && InStep(port, i - 1, x2, bitcnt, g)
      invariant busy ==> SameTop(shift, g.byte_, g.mask) && Within(g, k, b, later)
      decreases 6 - k
    {
      var bit;
      bit, i, x2, bitcnt := CountBit(port, i, x1, x2, bitcnt, busy, g);
      MarkerMoves(shift, k, bit);
      LsrIsRor(shift);
      if busy {
        SameTopNext(shift, g.byte_, g.mask, bit);
        WithinNext(g, k, b, later);
        g := Next(g);
      }
      var marker := Bit0(shift);
      if bit { shift := Ror(shift, true); } else { shift := Lsr(shift); }
      k := k + 1;
      if marker { return; }                              // next bit is bit 7
      if busy { MoreBits(g, k, b, later); ShownNonzero(port, i, x2, bitcnt, g); }
      x1 := Masked(Sample(port, i));                     // bitloop
      i := i + 1;
      if x1 == 0 { se0 := true; return; }
    }
  }

  lemma OnesBound(port: seq<byte>, i: nat, x2: byte, bitcnt: nat, g: Track)
    requires InStep(port, i, x2, bitcnt, g)
    ensures g.ones < 6
  {
  }

  lemma MarkedStart()
    ensures Marked(0x40, 0)
  {
  }

  lemma SevenBegin(shift: byte, g: Track, b: byte, later: seq<bool>)
    requires Within(g, 0, b, later)
    ensures SameTop(shift, g.byte_, g.mask)
  {
    SameTopStart(shift, g.byte_);
  }

  lemma PacketEnds(port: seq<byte>, i: nat, x2: byte, bitcnt: nat, g: Track)
    requires InStep(port, i, x2, bitcnt, g) && g.rest == []
    ensures Masked(Sample(port, i)) == 0 && Masked(Sample(port, i + 1)) == 0 && x2 != 0
  {
    AheadEnd(port, i, g.prev, g.ones);
    CodeNonzero(g.prev);
  }

  lemma ShownNonzero(port: seq<byte>, i: nat, x2: byte, bitcnt: nat, g: Track)
    requires InStep(port, i, x2, bitcnt, g) && g.rest != []
    ensures g.ones < 6 && Masked(Sample(port, i)) != 0
  {
    hide Masked, Code, Ahead;
    TakeBit(port, i, g);
    CodeNonzero(Step(g.prev, g.rest[0]));
  }

  lemma StartInStep(port: seq<byte>, start: nat, bytes: seq<byte>) returns (g: Track)
    requires Carries(port, start, bytes)
    ensures InStep(port, start, 0x04, 5, g) && g.rest == BytesBits(bytes)
  {
    g := FirstBit(port, start, bytes);
  }

  lemma SameLine(port: seq<byte>, i: nat, x2: byte, bitcnt: nat, g: Track, m: byte)
    requires InStep(port, i, x2, bitcnt, g)
    ensures InStep(port, i, x2, bitcnt, g.(mask := m))
  {
  }

  /** From `haveTwoBitsK` to `se0` or `overflow`; the sync pattern's last one is
      counted, so five more ones bring the first stuffed zero. */
  method Receive(port: seq<byte>, start: nat, buf: array<byte>, off: nat, ghost bytes: seq<byte>)
    returns (outcome: Outcome, ghost y: nat)
    requires off + BUFSIZE <= buf.Length
    modifies buf
    ensures off <= y <= off + BUFSIZE && (outcome.Packet? ==> y == off + outcome.n)
    ensures forall k :: (0 <= k < off || y <= k < buf.Length) ==> buf[k] == old(buf[k])
    ensures Carries(port, start, bytes) ==>
      && outcome == (if |bytes| <= BUFSIZE then Packet(|bytes|) else Overflow)
      && (outcome.Overflow? ==> y == off + BUFSIZE)
      && y - off <= |bytes|
      && forall k :: 0 <= k < y - off ==> buf[off + k] == bytes[k]
  {
    hide Masked, InStep, Shows, ValidPid, BodyLevels, BytesBits, Within, Ror, TopMask, SameTop;
    ghost var live := Carries(port, start, bytes);
    ghost var g := Track(K, 1, [], 0, 0);
    var x2: byte := 0x04;                                // K: D+ high
    var bitcnt, cnt, p := 5, BUFSIZE, off;
    if live { g := StartInStep(port, start, bytes); }
    var i: nat := start;
    ghost var n := 0;
    while true
      invariant 0 <= n <= BUFSIZE && cnt == BUFSIZE - n && p == off + n && 1 <= bitcnt <= 6
      invariant forall k :: (0 <= k < off || p <= k < buf.Length) ==> buf[k] == old(buf[k])
      invariant live ==> n <= |bytes| && forall k :: 0 <= k < n ==> buf[off + k] == bytes[k]
      invariant live ==> InStep(port, i, x2, bitcnt, g) && g.rest == BytesBits(bytes[n..])
      decreases cnt
    {
      ghost var b, later := 0, [];
      if live && n == |bytes| { assert |g.rest| == 0; }
      if live && n < |bytes| {
        b, later := bytes[n], BytesBits(bytes[n + 1..]);
        SameLine(port, i, x2, bitcnt, g, TopMask(0));
        g := g.(mask := TopMask(0));
        ByteStarts(g, bytes, n);
      }
      var x1 := Masked(Sample(port, i));                 // bit0
      i := i + 1;
      ghost var g7;
      var se0, shift;
      se0, i, shift, x2, bitcnt, g7 := FirstSevenBits(port, i, x1, x2, bitcnt, live, g, b, later);
      if se0 {
        CountIsReceived(n);
        var count := CountAtSe0(cnt);
        return Packet(count), p;
      }
      var borrow := cnt < 1;                             // bit7: subi cnt, 1
      cnt := (cnt + 255) % 256;
      if borrow { return Overflow, p; }
      i, shift, x2, bitcnt, g := LastBit(port, i, shift, x2, bitcnt, live, g7, b, later);
      buf[p] := shift;
      p := p + 1;
      n := n + 1;
    }
  }

  /** From `bit7`: the last bit and the byte to be stored. */
  method LastBit(port: seq<byte>, i: nat, shift0: byte, x20: byte, bitcnt0: nat,
                 ghost live: bool, ghost g: Track, ghost b: byte, ghost later: seq<bool>)
    returns (i': nat, shift: byte, x2: byte, bitcnt: nat, ghost g': Track)
    requires 1 <= bitcnt0 <= 6
    requires live ==> InStep(port, i, x20, bitcnt0, g) && Within(g, 7, b, later)
    requires live ==> SameTop(shift0, g.byte_, g.mask)
    ensures i < i' && 1 <= bitcnt <= 6
    ensures live ==> InStep(port, i', x2, bitcnt, g') && g'.rest == later && shift == b
  {
    hide Masked, InStep, SameTop, Within, Ror, TopMask, Lsr;
    if live {
      MoreBits(g, 7, b, later);
      OnesBound(port, i, x20, bitcnt0, g);
      WithinNext(g, 7, b, later);
    }
    var x1 := Masked(Sample(port, i));
    var bit;
    bit, i', x2, bitcnt := CountBit(port, i + 1, x1, x20, bitcnt0, live, g);
    LsrIsRor(shift0);
    if bit { shift := Ror(shift0, true); } else { shift := Lsr(shift0); }
    g' := g;
    if live {
      SameTopNext(shift0, g.byte_, g.mask, bit);
      g' := Next(g);
      LastDone(shift, g', b, later);
    }
  }

  lemma LastDone(shift: byte, g: Track, b: byte, later: seq<bool>)
    requires Within(g, 8, b, later) && SameTop(shift, g.byte_, g.mask)
    ensures shift == b && g.rest == later
  {
    SameTopDone(shift, g.byte_);
    BecomingDone(g, b);
  }
}
