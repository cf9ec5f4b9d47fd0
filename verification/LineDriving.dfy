/** What the two transmit loops share: the port values a line level stands for, a
    ghost account of the bits still owed to the line, and what one bit does to it. */
module LineDriving {
  import opened Bits
  import opened LineCoding
  import opened LinePort

  /** The port with D+ and D- at a level and the other six pins as in `base`. */
  function Drive(base: byte, l: Level): byte { (base & 0xeb) | Code(l) }

  function DriveAll(base: byte, levels: seq<Level>): (r: seq<byte>)
    ensures |r| == |levels|
    ensures forall i :: 0 <= i < |r| ==> r[i] == Drive(base, levels[i])
  {
    hide Drive;
    seq(|levels|, i requires 0 <= i < |levels| => Drive(base, levels[i]))
  }

  lemma DriveAppend(base: byte, a: seq<Level>, b: seq<Level>)
    ensures DriveAll(base, a + b) == DriveAll(base, a) + DriveAll(base, b)
  {
    hide Drive;
  }

  lemma DriveOne(base: byte, l: Level)
    ensures DriveAll(base, [l]) == [Drive(base, l)]
  {
    hide Drive;
  }

  /** The data pins of a driven port read back as the level driven. */
  lemma DriveReads(base: byte, l: Level)
    ensures Masked(Drive(base, l)) == Code(l)
  {
    match l
    case J =>
    case K =>
    case SE0 =>
  }

  lemma {:induction false} DriveShows(base: byte, before: seq<byte>, levels: seq<Level>)
    ensures Shows(before + DriveAll(base, levels), |before|, levels)
    decreases levels
  {
    hide Drive, Masked, Code;
    if levels != [] {
      var p := DriveAll(base, levels);
      DriveReads(base, levels[0]);
      ShiftOver(before, p);
      assert p[1..] == DriveAll(base, levels[1..]);
      DriveShows(base, before + [p[0]], levels[1..]);
    }
  }

  lemma ShiftOver<T>(a: seq<T>, b: seq<T>)
    requires b != []
    ensures a + b == (a + [b[0]]) + b[1..] && (a + b)[|a|] == b[0]
  {
  }

  /** `eor x1, USBMASK` toggles the line; `cbr` and `ori` make the end of packet. */
  lemma DriveToggles(base: byte, l: Level)
    requires l != SE0
    ensures Eor(Drive(base, l), 0x14) == Drive(base, l.Other())
  {
    match l
    case J =>
    case K =>
  }

  lemma DriveEnds(base: byte, l: Level)
    ensures Andi(Drive(base, l), 0xeb) == Drive(base, SE0)
    ensures Ori(Drive(base, SE0), 0x10) == Drive(base, J)
  {
    match l
    case J =>
    case K =>
    case SE0 =>
  }

  lemma DriveStarts(out: byte)
    requires Masked(out) == 0
    ensures Ori(out, 0x10) == Drive(out, J)
  {
  }

  // ---- bits owed to the line ----------------------------------------------

  /** The level the line is at, the ones in a row sent, the data bits still to send. */
  datatype Owed = Owed(level: Level, ones: nat, rest: seq<bool>)

  /** The port values that would complete the packet. */
  ghost function Due(base: byte, g: Owed): seq<byte>
    requires g.ones < 6
  {
    DriveAll(base, Nrzi(g.level, Stuff(g.ones, g.rest)))
  }

  ghost predicate Owing(base: byte, trace: seq<byte>, x1: byte, g: Owed, whole: seq<byte>) {
    && g.level != SE0 && g.ones < 6 && x1 == Drive(base, g.level)
    && trace + Due(base, g) == whole
  }

  ghost predicate Sixth(g: Owed)
    requires g.rest != []
  {
    g.rest[0] && g.ones == 5
  }

  ghost function After(g: Owed): Owed
    requires g.ones < 6 && g.rest != []
  {
    var l := Step(g.level, g.rest[0]);
    Owed(if Sixth(g) then l.Other() else l, NextOnes(g.ones, g.rest[0]), g.rest[1..])
  }

  function Toggled(x1: byte, bit: bool): byte { if bit then x1 else Eor(x1, 0x14) }

  /** A data bit that is not the sixth one in a row takes one bit time. */
  lemma PayPlain(base: byte, trace: seq<byte>, x1: byte, g: Owed, whole: seq<byte>)
    requires Owing(base, trace, x1, g, whole) && g.rest != [] && !Sixth(g)
    ensures var y := Toggled(x1, g.rest[0]); Owing(base, trace + [y], y, After(g), whole)
  {
    hide Drive, DriveAll, Nrzi, Stuff, Eor;
    var l := Step(g.level, g.rest[0]);
    var line := Stuff(After(g).ones, After(g).rest);
    StuffPlain(g.ones, g.rest);
    NrziOne(g.level, g.rest[0], line);
    DriveToggles(base, g.level);
    DriveOne(base, l);
    DriveAppend(base, [l], Nrzi(l, line));
    Move(trace, [Drive(base, l)], DriveAll(base, Nrzi(l, line)));
  }

  /** The sixth one keeps the level and the stuffed zero then toggles it. */
  lemma PaySixth(base: byte, trace: seq<byte>, x1: byte, g: Owed, whole: seq<byte>)
    requires Owing(base, trace, x1, g, whole) && g.rest != [] && Sixth(g)
    ensures var y := Eor(x1, 0x14); Owing(base, (trace + [x1]) + [y], y, After(g), whole)
  {
    hide Drive, DriveAll, Nrzi, Stuff, Eor;
    var l, m := g.level, g.level.Other();
    var line := Stuff(0, g.rest[1..]);
    StuffSixth(g.rest);
    NrziTwo(l, true, false, line);
    DriveToggles(base, l);
    DriveOne(base, l);
    DriveOne(base, m);
    DriveAppend(base, [m], Nrzi(m, line));
    DriveAppend(base, [l], [m] + Nrzi(m, line));
    Move(trace, [x1], DriveAll(base, [m] + Nrzi(m, line)));
    Move(trace + [x1], [Drive(base, m)], DriveAll(base, Nrzi(m, line)));
  }

  lemma StuffPlain(ones: nat, rest: seq<bool>)
    requires ones < 6 && rest != [] && !(rest[0] && ones == 5)
    ensures Stuff(ones, rest) == [rest[0]] + Stuff(NextOnes(ones, rest[0]), rest[1..])
  {
  }

  lemma StuffSixth(rest: seq<bool>)
    requires rest != [] && rest[0]
    ensures Stuff(5, rest) == [true] + ([false] + Stuff(0, rest[1..]))
  {
  }

  lemma Move<T>(a: seq<T>, b: seq<T>, c: seq<T>)
    ensures a + (b + c) == (a + b) + c
  {
  }

  lemma PaidUp(base: byte, trace: seq<byte>, x1: byte, g: Owed, whole: seq<byte>)
    requires Owing(base, trace, x1, g, whole) && g.rest == []
    ensures trace == whole
  {
    hide Drive;
    assert Due(base, g) == [];
  }

  // ---- the byte being shifted out -----------------------------------------

  predicate LowClear(m: byte, n: nat)
    decreases n
  {
    n == 0 || (!Bit0(m) && LowClear(m >> 1, n - 1))
  }

  lemma {:induction false} LowBitsIgnore(a: byte, m: byte, n: nat)
    requires LowClear(m, n)
    ensures LowBits(a | m, n) == LowBits(a, n)
    decreases n
  {
    if n > 0 {
      OrShifts(a, m);
      LowBitsIgnore(a >> 1, m >> 1, n - 1);
    }
  }

  lemma OrShifts(a: byte, m: byte)
    ensures (a | m) >> 1 == (a >> 1) | (m >> 1)
    ensures !Bit0(m) ==> Bit0(a | m) == Bit0(a)
  {
  }

  lemma TopClear(n: nat)
    requires n <= 7
    ensures LowClear(0x80, n)
  {
    assert LowClear(0x80, 7) by {
      assert LowClear(0x02, 1);
      assert LowClear(0x08, 3);
      assert LowClear(0x20, 5);
    }
    LowClearLess(0x80, 7, n);
  }

  lemma {:induction false} LowClearLess(m: byte, n: nat, k: nat)
    requires LowClear(m, n) && k <= n
    ensures LowClear(m, k)
    decreases k
  {
    if k > 0 { LowClearLess(m >> 1, n - 1, k - 1); }
  }

  /** `ror shift`: the next bit leaves; what enters at the top is not looked at. */
  lemma RorTakesBit(shift: byte, carry: bool, n: nat)
    requires 1 <= n <= 8
    ensures LowBits(shift, n) == [Bit0(shift)] + LowBits(Ror(shift, carry), n - 1)
  {
    hide Bit0;
    TopClear(n - 1);
    LowBitsIgnore(shift >> 1, 0x80, n - 1);
  }

  lemma BitLeaves<T>(bit: T, low: seq<T>, later: seq<T>)
    ensures (([bit] + low) + later)[0] == bit
    ensures (([bit] + low) + later)[1..] == low + later
  {
    assert (([bit] + low) + later)[1..] == low + later;
  }

  lemma SyncByteBits()
    ensures ByteBits(0x80) == SyncBits()
    ensures LowBits(0x40, 7) == [false, false, false, false, false, false, true]
  {
    assert LowBits(0x01, 1) == [true];
    assert LowBits(0x04, 3) == [false, false, true];
    assert LowBits(0x10, 5) == [false, false, false, false, true];
    assert LowBits(0x40, 7) == [false, false, false, false, false, false, true];
  }
}
