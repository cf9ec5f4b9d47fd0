/** The receive loop of usbdrvasm12.inc. Bits are stored inverted at their own place
    in `shift`; sliding masks leave the last six of them, so that zero means six
    ones. The newest is then set, and its place cleared in `x3`. */
module Receive12 {
  import opened Bits
  import opened LineCoding
  import opened LinePort
  import opened LineTracking

  // ---- bits at their own place -------------------------------------------

  function Place(k: nat): byte
    requires k < 8
  {
    match k
    case 0 => 0x01 case 1 => 0x02 case 2 => 0x04 case 3 => 0x08
    case 4 => 0x10 case 5 => 0x20 case 6 => 0x40 case 7 => 0x80
  }

  /** `bld shift, k`. */
  function Bld(shift: byte, k: nat, v: bool): byte
    requires k < 8
  {
    if v then shift | Place(k) else shift & (0xff ^ Place(k))
  }

  /** What `andi` leaves of shift after bit k; bits 6 and 7 are only compared. */
  function Keep(k: nat): byte
    requires k < 8
  {
    match k
    case 0 => 0xf9 case 1 => 0xf3 case 2 => 0xe7 case 3 => 0xcf
    case 4 => 0x9f case 5 => 0x3f case 6 => 0xff case 7 => 0xff
  }

  /** The test for six ones after bit k. */
  predicate SixOnes(k: nat, shift: byte)
    requires k < 8
  {
    match k
    case 6 => shift < 0x02
    case 7 => shift < 0x04
    case _ => shift == 0
  }

  /** shift with bit k rotated to the top. */
  function Rotated(shift: byte, k: nat): byte
    requires k < 8
  {
    match k
    case 0 => (shift << 7) | (shift >> 1)
    case 1 => (shift << 6) | (shift >> 2)
    case 2 => (shift << 5) | (shift >> 3)
    case 3 => (shift << 4) | (shift >> 4)
    case 4 => (shift << 3) | (shift >> 5)
    case 5 => (shift << 2) | (shift >> 6)
    case 6 => (shift << 1) | (shift >> 7)
    case 7 => shift
  }

  /** The six bits up to bit k are those of the history h, inverted. */
  predicate Hist(shift: byte, k: nat, h: byte)
    requires k < 8
  {
    (0xff ^ Rotated(shift, k) ^ h) & 0xfc == 0
  }

  function Before(k: nat): (r: nat)
    requires k <= 8
    ensures r < 8
  {
    if k == 0 then 7 else k - 1
  }

  lemma HistOneLow(k: nat, shift: byte, h: byte)
    requires k in {0, 1, 2, 3}
    requires k < 8 && Hist(shift, Before(k), h) && (k == 6 ==> shift & 0xc0 == 0)
    ensures var s := Andi(Bld(shift, k, false), Keep(k));
      && (SixOnes(k, s) <==> Ror(h, true) >= 0xfc)
      && Hist(s, k, Ror(h, true)) && (k == 5 ==> s & 0xc0 == 0)
  {
    match k case 0 => case 1 => case 2 => case 3 =>
  }

  lemma HistOneHigh(k: nat, shift: byte, h: byte)
    requires k in {4, 5, 6, 7}
    requires k < 8 && Hist(shift, Before(k), h) && (k == 6 ==> shift & 0xc0 == 0)
    ensures var s := Andi(Bld(shift, k, false), Keep(k));
      && (SixOnes(k, s) <==> Ror(h, true) >= 0xfc)
      && Hist(s, k, Ror(h, true)) && (k == 5 ==> s & 0xc0 == 0)
  {
    match k case 4 => case 5 => case 6 => case 7 =>
  }

  lemma HistOne(k: nat, shift: byte, h: byte)
    requires k < 8 && Hist(shift, Before(k), h) && (k == 6 ==> shift & 0xc0 == 0)
    ensures var s := Andi(Bld(shift, k, false), Keep(k));
      && (SixOnes(k, s) <==> Ror(h, true) >= 0xfc)
      && Hist(s, k, Ror(h, true)) && (k == 5 ==> s & 0xc0 == 0)
  {
    hide Hist, SixOnes, Bld, Keep, Ror, Place, Andi, Ori;
    if k in {0, 1, 2, 3} { HistOneLow(k, shift, h); } else { HistOneHigh(k, shift, h); }
  }

  lemma HistOneSetLow(k: nat, shift: byte, h: byte)
    requires k in {0, 1, 2, 3}
    requires k < 8 && Hist(shift, Before(k), h)
    ensures var s := Ori(Andi(Bld(shift, k, false), Keep(k)), Place(k));
      Hist(s, k, Andi(Ror(h, true), 0x7f)) && (k == 5 ==> s & 0xc0 == 0) && !SixOnes(k, s)
  {
    match k case 0 => case 1 => case 2 => case 3 =>
  }

  lemma HistOneSetHigh(k: nat, shift: byte, h: byte)
    requires k in {4, 5, 6, 7}
    requires k < 8 && Hist(shift, Before(k), h)
    ensures var s := Ori(Andi(Bld(shift, k, false), Keep(k)), Place(k));
      Hist(s, k, Andi(Ror(h, true), 0x7f)) && (k == 5 ==> s & 0xc0 == 0) && !SixOnes(k, s)
  {
    match k case 4 => case 5 => case 6 => case 7 =>
  }

  lemma HistOneSet(k: nat, shift: byte, h: byte)
    requires k < 8 && Hist(shift, Before(k), h)
    ensures var s := Ori(Andi(Bld(shift, k, false), Keep(k)), Place(k));
      Hist(s, k, Andi(Ror(h, true), 0x7f)) && (k == 5 ==> s & 0xc0 == 0) && !SixOnes(k, s)
  {
    hide Hist, SixOnes, Bld, Keep, Ror, Place, Andi, Ori;
    if k in {0, 1, 2, 3} { HistOneSetLow(k, shift, h); } else { HistOneSetHigh(k, shift, h); }
  }

  lemma HistZeroLow(k: nat, shift: byte, h: byte)
    requires k in {0, 1, 2, 3}
    requires k < 8 && Hist(shift, Before(k), h)
    ensures var s := Andi(Bld(shift, k, true), Keep(k));
      !SixOnes(k, s) && Hist(s, k, Ror(h, false)) && (k == 5 ==> s & 0xc0 == 0)
  {
    match k case 0 => case 1 => case 2 => case 3 =>
  }

  lemma HistZeroHigh(k: nat, shift: byte, h: byte)
    requires k in {4, 5, 6, 7}
    requires k < 8 && Hist(shift, Before(k), h)
    ensures var s := Andi(Bld(shift, k, true), Keep(k));
      !SixOnes(k, s) && Hist(s, k, Ror(h, false)) && (k == 5 ==> s & 0xc0 == 0)
  {
    match k case 4 => case 5 => case 6 => case 7 =>
  }

  lemma HistZero(k: nat, shift: byte, h: byte)
    requires k < 8 && Hist(shift, Before(k), h)
    ensures var s := Andi(Bld(shift, k, true), Keep(k));
      !SixOnes(k, s) && Hist(s, k, Ror(h, false)) && (k == 5 ==> s & 0xc0 == 0)
  {
    hide Hist, SixOnes, Bld, Keep, Ror, Place, Andi, Ori;
    if k in {0, 1, 2, 3} { HistZeroLow(k, shift, h); } else { HistZeroHigh(k, shift, h); }
  }

  // ---- the data: x3 xor shift --------------------------------------------

  /** The first k bits of x3 xor shift are the true bits, the top ones of t; the
      places still to come are set in x3. */
  predicate DataOk(k: nat, x3: byte, shift: byte, t: byte)
    requires k <= 8
  {
    match k
    case 0 => x3 == 0xff
    case 1 => (x3 ^ shift ^ (t >> 7)) & 0x01 == 0 && x3 & 0xfe == 0xfe
    case 2 => (x3 ^ shift ^ (t >> 6)) & 0x03 == 0 && x3 & 0xfc == 0xfc
    case 3 => (x3 ^ shift ^ (t >> 5)) & 0x07 == 0 && x3 & 0xf8 == 0xf8
    case 4 => (x3 ^ shift ^ (t >> 4)) & 0x0f == 0 && x3 & 0xf0 == 0xf0
    case 5 => (x3 ^ shift ^ (t >> 3)) & 0x1f == 0 && x3 & 0xe0 == 0xe0
    case 6 => (x3 ^ shift ^ (t >> 2)) & 0x3f == 0 && x3 & 0xc0 == 0xc0
    case 7 => (x3 ^ shift ^ (t >> 1)) & 0x7f == 0 && x3 & 0x80 == 0x80
    case 8 => x3 ^ shift == t
  }

  lemma DataOneLow(k: nat, x3: byte, shift: byte, t: byte)
    requires k in {0, 1, 2, 3}
    requires k < 8 && DataOk(k, x3, shift, t)
    ensures DataOk(k + 1, x3, Andi(Bld(shift, k, false), Keep(k)), Ror(t, true))
  {
    match k case 0 => case 1 => case 2 => case 3 =>
  }

  lemma DataOneHigh(k: nat, x3: byte, shift: byte, t: byte)
    requires k in {4, 5, 6, 7}
    requires k < 8 && DataOk(k, x3, shift, t)
    ensures DataOk(k + 1, x3, Andi(Bld(shift, k, false), Keep(k)), Ror(t, true))
  {
    match k case 4 => case 5 => case 6 => case 7 =>
  }

  lemma DataOne(k: nat, x3: byte, shift: byte, t: byte)
    requires k < 8 && DataOk(k, x3, shift, t)
    ensures DataOk(k + 1, x3, Andi(Bld(shift, k, false), Keep(k)), Ror(t, true))
  {
    hide DataOk, Bld, Keep, Ror, Place, Andi, Ori;
    if k in {0, 1, 2, 3} { DataOneLow(k, x3, shift, t); } else { DataOneHigh(k, x3, shift, t); }
  }

  lemma DataZeroLow(k: nat, x3: byte, shift: byte, t: byte)
    requires k in {0, 1, 2, 3}
    requires k < 8 && DataOk(k, x3, shift, t)
    ensures DataOk(k + 1, x3, Andi(Bld(shift, k, true), Keep(k)), Ror(t, false))
  {
    match k case 0 => case 1 => case 2 => case 3 =>
  }

  lemma DataZeroHigh(k: nat, x3: byte, shift: byte, t: byte)
    requires k in {4, 5, 6, 7}
    requires k < 8 && DataOk(k, x3, shift, t)
    ensures DataOk(k + 1, x3, Andi(Bld(shift, k, true), Keep(k)), Ror(t, false))
  {
    match k case 4 => case 5 => case 6 => case 7 =>
  }

  lemma DataZero(k: nat, x3: byte, shift: byte, t: byte)
    requires k < 8 && DataOk(k, x3, shift, t)
    ensures DataOk(k + 1, x3, Andi(Bld(shift, k, true), Keep(k)), Ror(t, false))
  {
    hide DataOk, Bld, Keep, Ror, Place, Andi, Ori;
    if k in {0, 1, 2, 3} { DataZeroLow(k, x3, shift, t); } else { DataZeroHigh(k, x3, shift, t); }
  }

  lemma DataSetLow(k: nat, x3: byte, shift: byte, t: byte)
    requires k in {0, 1, 2, 3}
    requires k < 8 && DataOk(k, x3, shift, t)
    ensures DataOk(k + 1, Andi(x3, 0xff ^ Place(k)),
                   Ori(Andi(Bld(shift, k, false), Keep(k)), Place(k)), Ror(t, true))
  {
    match k case 0 => case 1 => case 2 => case 3 =>
  }

  lemma DataSetHigh(k: nat, x3: byte, shift: byte, t: byte)
    requires k in {4, 5, 6, 7}
    requires k < 8 && DataOk(k, x3, shift, t)
    ensures DataOk(k + 1, Andi(x3, 0xff ^ Place(k)),
                   Ori(Andi(Bld(shift, k, false), Keep(k)), Place(k)), Ror(t, true))
  {
    match k case 4 => case 5 => case 6 => case 7 =>
  }

  lemma DataSet(k: nat, x3: byte, shift: byte, t: byte)
    requires k < 8 && DataOk(k, x3, shift, t)
    ensures DataOk(k + 1, Andi(x3, 0xff ^ Place(k)),
                   Ori(Andi(Bld(shift, k, false), Keep(k)), Place(k)), Ror(t, true))
  {
    hide DataOk, Bld, Keep, Ror, Place, Andi, Ori;
    if k in {0, 1, 2, 3} { DataSetLow(k, x3, shift, t); } else { DataSetHigh(k, x3, shift, t); }
  }

  // ---- the loop ----------------------------------------------------------

  /** k bits of a byte are in; x shows the last level on D- at least. */
  ghost predicate Ready(port: seq<byte>, i: nat, k: nat, x: byte, shift: byte, x3: byte,
                        g: Track, h: byte)
    requires k <= 8
  {
    && OnLine(port, i, g) && Minus(x) == Minus(Code(g.prev))
    && Run(h) == g.ones && Hist(shift, Before(k), h)
    && DataOk(k, x3, shift, g.byte_) && (k == 6 ==> shift & 0xc0 == 0)
  }

  /** The history after one more bit. */
  ghost function NextHist(g: Track, h: byte): byte
    requires g.rest != []
  {
    if Stuffed(g) then Andi(Ror(h, true), 0x7f) else Ror(h, g.rest[0])
  }

  lemma MinusMasked(p: byte)
    ensures Minus(Masked(p)) == Minus(p)
  {
  }

  lemma MinusEor(a: byte, b: byte)
    ensures Minus(Eor(a, b)) == (Minus(a) != Minus(b))
  {
    if Minus(a) { if Minus(b) {} else {} } else { if Minus(b) {} else {} }
  }

  lemma MinusStep(prev: Level, bit: bool)
    requires prev != SE0
    ensures (Minus(Code(prev)) != Minus(Code(Step(prev, bit)))) == !bit
  {
    match prev
    case J => if bit {} else {}
    case K => if bit {} else {}
  }

  /** Bit k, by its place, the masks and the test after it. */
  lemma BitDone(port: seq<byte>, i: nat, k: nat, x: byte, shift: byte, x3: byte, g: Track, h: byte)
    requires k < 8 && Ready(port, i, k, x, shift, x3, g, h) && g.rest != []
    ensures var y := Sample(port, i);
      var s := Andi(Bld(shift, k, Minus(Eor(x, y))), Keep(k));
      && Minus(Eor(x, y)) == !g.rest[0]
      && (SixOnes(k, s) <==> Stuffed(g))
      && (!Stuffed(g) ==> Ready(port, i + 1, k + 1, y, s, x3, Next(g), NextHist(g, h)))
      && (Stuffed(g) ==>
            Ready(port, i + 2, k + 1, Sample(port, i + 1), Ori(s, Place(k)),
                  Andi(x3, 0xff ^ Place(k)), Next(g), NextHist(g, h)))
  {
    hide Masked, Code, Minus, Hist, DataOk, Bld, Keep, Place, SixOnes, Ror, Andi, Ori, Eor, Run, Ahead, Sample;
    var y := Sample(port, i);
    TakeBit(port, i, g);
    MinusMasked(y);
    MinusMasked(Sample(port, i + 1));
    MinusEor(x, y);
    MinusStep(g.prev, g.rest[0]);
    RunBit(h, g);
    if g.rest[0] {
      HistOne(k, shift, h);
      if Stuffed(g) {
        HistOneSet(k, shift, h);
        DataSet(k, x3, shift, g.byte_);
      } else {
        DataOne(k, x3, shift, g.byte_);
      }
    } else {
      HistZero(k, shift, h);
      DataZero(k, x3, shift, g.byte_);
    }
  }

  /** Bits 1 to 7: the reading y has been taken; unstuffing takes one more. (After
      bits 1 and 2 the routine reads ahead before it tests: what it has read is then
      the stuffed zero or the next bit.) */
  method Settle(port: seq<byte>, i: nat, k: nat, x: byte, y: byte, shift0: byte, x30: byte,
                ghost live: bool, ghost g: Track, ghost h: byte, ghost b: byte, ghost later: seq<bool>)
    returns (i': nat, level: byte, shift: byte, x3: byte, ghost g': Track, ghost h': byte)
    requires i > 0 && y == Sample(port, i - 1) && k < 8
    requires live ==> Ready(port, i - 1, k, x, shift0, x30, g, h) && Within(g, k, b, later)
    ensures i <= i' <= i + 1
    ensures live ==> Ready(port, i', k + 1, level, shift, x3, g', h') && Within(g', k + 1, b, later)
  {
    hide Ready, Within, Minus, Bld, Keep, Place, SixOnes, Andi, Ori, Eor, Sample, TopMask, Ror, Run;
    g', h' := g, h;
    if live {
      MoreBits(g, k, b, later);
      ReadyOnes(port, i - 1, k, x, shift0, x30, g, h);
      BitDone(port, i - 1, k, x, shift0, x30, g, h);
      WithinNext(g, k, b, later);
      g', h' := Next(g), NextHist(g, h);
    }
    shift := Andi(Bld(shift0, k, Minus(Eor(x, y))), Keep(k));
    i', level, x3 := i, y, x30;
    if SixOnes(k, shift) {
      x3 := Andi(x3, 0xff ^ Place(k));
      level := Sample(port, i');
      i' := i' + 1;
      shift := Ori(shift, Place(k));
    }
  }

  lemma ReadyOnes(port: seq<byte>, i: nat, k: nat, x: byte, shift: byte, x3: byte, g: Track, h: byte)
    requires k <= 8 && Ready(port, i, k, x, shift, x3, g, h)
    ensures g.ones < 6
  {
  }

  /** From `rxLoop`: bit 0 and, in the reading after it, the test for the end of packet. */
  method BitZero(port: seq<byte>, i: nat, x2: byte, shift0: byte,
                 ghost live: bool, ghost g: Track, ghost h: byte, ghost b: byte, ghost later: seq<bool>)
    returns (se0: bool, i': nat, level: byte, shift: byte, x3: byte, ghost g': Track, ghost h': byte)
    requires live ==> Ready(port, i, 0, x2, shift0, 0xff, g, h)
    requires live && g.rest != [] ==> Within(g, 0, b, later)
    ensures i < i' <= i + 2
    ensures live && g.rest == [] ==> se0
    ensures live && g.rest != [] ==>
      !se0 && Ready(port, i', 1, level, shift, x3, g', h') && Within(g', 1, b, later)
  {
    hide Ready, Within, Minus, Bld, Andi, Ori, Eor, Sample, TopMask, Ror, Run, Masked, Hist, DataOk;
    g', h', x3, se0 := g, h, 0xff, false;
    var x1 := Sample(port, i);
    shift := Bld(shift0, 0, Minus(Eor(x2, x1)));
    var ahead := Masked(Sample(port, i + 1));
    if live {
      if g.rest == [] {
        EndShown(port, i, x2, shift0, g, h);
      } else {
        ReadyOnes(port, i, 0, x2, shift0, 0xff, g, h);
        BitDone(port, i, 0, x2, shift0, 0xff, g, h);
        WithinNext(g, 0, b, later);
        MoreBits(Next(g), 1, b, later);
        SecondShown(port, i, x2, shift0, g, h);
        MinusMasked(Sample(port, i + 1));
        if Stuffed(g) {
          SameMinus(port, i + 2, 1, Sample(port, i + 1), ahead, Ori(Andi(shift, 0xf9), 0x01),
                    Andi(0xff, 0xff ^ 0x01), Next(g), NextHist(g, h));
        }
        g', h' := Next(g), NextHist(g, h);
      }
    }
    i', level := i + 1, x1;
    if ahead == 0 { se0 := true; return; }
    shift := Andi(shift, 0xf9);
    if shift == 0 {                                      // unstuff0
      x3 := Andi(x3, 0xff ^ 0x01);
      level := ahead;
      i' := i' + 1;
      shift := Ori(shift, 0x01);
    }
  }

  lemma SameMinus(port: seq<byte>, i: nat, k: nat, x: byte, x': byte, shift: byte, x3: byte,
                  g: Track, h: byte)
    requires k <= 8 && Ready(port, i, k, x, shift, x3, g, h) && Minus(x) == Minus(x')
    ensures Ready(port, i, k, x', shift, x3, g, h)
  {
    hide Minus, Hist, DataOk, Run;
  }

  lemma EndShown(port: seq<byte>, i: nat, x: byte, shift: byte, g: Track, h: byte)
    requires Ready(port, i, 0, x, shift, 0xff, g, h) && g.rest == []
    ensures Masked(Sample(port, i + 1)) == 0
  {
    hide Minus, Hist, DataOk, Run, Masked;
    AheadEnd(port, i, g.prev, g.ones);
  }

  lemma SecondShown(port: seq<byte>, i: nat, x: byte, shift: byte, g: Track, h: byte)
    requires Ready(port, i, 0, x, shift, 0xff, g, h) && |g.rest| >= 2
    ensures Masked(Sample(port, i + 1)) != 0
  {
    hide Minus, Hist, DataOk, Run, Masked, Code, Ahead;
    TakeBit(port, i, g);
    CodeNonzero(Next(g).prev);
    if !Stuffed(g) {
      TakeBit(port, i + 1, Next(g));
      CodeNonzero(Step(Next(g).prev, Next(g).rest[0]));
    }
  }

  lemma FirstPlace(bit: bool)
    ensures Minus(Code(Step(K, bit))) == !bit
    ensures Hist(Bld(0xff, 0, !bit), 0, Ror(0, bit)) && DataOk(1, 0xff, Bld(0xff, 0, !bit), Ror(0, bit))
    ensures Run(Ror(0, bit)) == (if bit then 1 else 0)
  {
    if bit {} else {}
  }

  /** The first byte: the line was at K, whose D- is low, so that the reading itself
      is the inverted bit; the history starts empty, without the sync pattern's one. */
  lemma FirstReady(port: seq<byte>, start: nat, bytes: seq<byte>) returns (g: Track, h: byte)
    requires Carries(port, start, bytes)
    ensures var x1 := Sample(port, start);
      Ready(port, start + 1, 1, x1, Bld(0xff, 0, Minus(x1)), 0xff, g, h)
    ensures Within(g, 1, bytes[0], BytesBits(bytes[1..]))
  {
    hide Masked, Ahead, Shows, LowBits, BytesBits, Minus, Hist, DataOk, Bld, Run, Ror, Code;
    var g0 := FirstBit(port, start, bytes);
    var p := FirstZero(g0.rest);
    PidForgives(port, start, g0, 0, p);
    g0 := g0.(ones := 0);
    WithinNext(g0, 0, bytes[0], BytesBits(bytes[1..]));
    TakeBit(port, start, g0);
    MinusMasked(Sample(port, start));
    FirstPlace(g0.rest[0]);
    g, h := Next(g0), Ror(0, g0.rest[0]);
  }

  lemma NextByte(port: seq<byte>, i: nat, x: byte, shift: byte, x3: byte, g: Track, h: byte,
                 b: byte, later: seq<bool>)
    requires Ready(port, i, 8, x, shift, x3, g, h) && Within(g, 8, b, later)
    ensures Eor(x3, shift) == b && g.rest == later
    ensures Ready(port, i, 0, x, shift, 0xff, g.(mask := TopMask(0)), h)
  {
    hide Hist, Run, Minus, Code;
    BecomingDone(g, b);
  }

  /** From `haveTwoBitsK` to `se0` or `overflow`. */
  method Receive(port: seq<byte>, start: nat, buf: array<byte>, off: nat, ghost bytes: seq<byte>)
    returns (outcome: Outcome, ghost y: nat)
    requires off + BUFSIZE <= buf.Length
    modifies buf
    ensures off <= y <= off + BUFSIZE && (outcome.Packet? ==> y == off + outcome.n)
    ensures forall k :: (0 <= k < off || y <= k < buf.Length) ==> buf[k] == old(buf[k])
    ensures Carries(port, start, bytes) ==>
      && outcome == (if |bytes| <= BUFSIZE then Packet(|bytes|) else Overflow)
      && (outcome.Overflow? ==> y == off + BUFSIZE)
      && y - off <= |bytes|
      && forall k :: 0 <= k < y - off ==> buf[off + k] == bytes[k]
  {
    hide Minus, Ready, Shows, ValidPid, BodyLevels, BytesBits, Within, TopMask, Sample, Bld, Eor, Ror, Run;
    ghost var live := Carries(port, start, bytes);
    ghost var g, h := Track(K, 1, [], 0, 0), 0;
    var level := Sample(port, start);                    // bit 0
    var shift := Bld(0xff, 0, Minus(level));
    var x3: byte := 0xff;
    var cnt, p := BUFSIZE, off;
    if live { g, h := FirstReady(port, start, bytes); }
    var i: nat := start + 1;
    var first := true;
    ghost var n := 0;
    while true
      invariant 0 <= n <= BUFSIZE && cnt == BUFSIZE - n && p == off + n && (first ==> n == 0)
      invariant forall k :: (0 <= k < off || p <= k < buf.Length) ==> buf[k] == old(buf[k])
      invariant live ==> n <= |bytes| && forall k :: 0 <= k < n ==> buf[off + k] == bytes[k]
      invariant live && first ==>
        Ready(port, i, 1, level, shift, x3, g, h) && Within(g, 1, bytes[0], BytesBits(bytes[1..]))
      invariant live && !first ==>
        Ready(port, i, 0, level, shift, 0xff, g, h) && g.rest == BytesBits(bytes[n..])
        && g.mask == TopMask(0)
      decreases cnt
    {
      ghost var b, later := 0, [];
      if live && n == |bytes| { assert |g.rest| == 0; }
      if live && n < |bytes| {
        b, later := bytes[n], BytesBits(bytes[n + 1..]);
        if !first { ByteStarts(g, bytes, n); }
      }
      if !first {
        var se0;
        se0, i, level, shift, x3, g, h := BitZero(port, i, level, shift, live, g, h, b, later);
        if se0 {
          CountIsReceived(n);
          var count := CountAtSe0(cnt);
          return Packet(count), p;
        }
      }
      first := false;
      var y := Sample(port, i);                          // bit 1
      i, level, shift, x3, g, h := Settle(port, i + 1, 1, level, y, shift, x3, live, g, h, b, later);
      var borrow := cnt < 1;                             // subi cnt, 1
      cnt := (cnt + 255) % 256;
      if borrow { return Overflow, p; }
      i, level, shift, x3, g, h := BitsTwoToSeven(port, i, level, shift, x3, live, g, h, b, later);
      if live { NextByte(port, i, level, shift, x3, g, h, b, later); }
      buf[p] := Eor(x3, shift);
      if live { g := g.(mask := TopMask(0)); }
      p := p + 1;
      n := n + 1;
    }
  }

  method BitsTwoToSeven(port: seq<byte>, start: nat, level0: byte, shift0: byte, x30: byte,
                        ghost live: bool, ghost g0: Track, ghost h0: byte,
                        ghost b: byte, ghost later: seq<bool>)
    returns (i: nat, level: byte, shift: byte, x3: byte, ghost g: Track, ghost h: byte)
    requires live ==> Ready(port, start, 2, level0, shift0, x30, g0, h0) && Within(g0, 2, b, later)
    ensures i > start
    ensures live ==> Ready(port, i, 8, level, shift, x3, g, h) && Within(g, 8, b, later)
  {
    hide Ready, Within, Sample;
    i, level, shift, x3, g, h := start, level0, shift0, x30, g0, h0;
    for k := 2 to 8
      invariant i >= start && (k > 2 ==> i > start)
      invariant live ==> Ready(port, i, k, level, shift, x3, g, h) && Within(g, k, b, later)
    {
      var y := Sample(port, i);
      i, level, shift, x3, g, h := Settle(port, i + 1, k, level, y, shift, x3, live, g, h, b, later);
    }
  }
}
