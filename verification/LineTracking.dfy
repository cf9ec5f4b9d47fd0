/** What the three receive loops share: a ghost description of where in a packet
    the loop is, and what one more data bit does to it. */
module LineTracking {
  import opened Bits
  import opened LineCoding
  import opened LinePort

  const BUFSIZE := 11  // USB_BUFSIZE: PID, eight data bytes, two check bytes

  /** The last line level, the ones in a row so far, the bits still to come, and
      the byte register as it would be without any unstuffing tricks: the bits
      received so far of the current byte are its top ones, marked in `mask`. */
  datatype Track = Track(prev: Level, ones: nat, rest: seq<bool>, byte_: byte, mask: byte)

  ghost predicate OnLine(port: seq<byte>, i: nat, g: Track) {
    g.prev != SE0 && g.ones < 6 && Ahead(port, i, g.prev, g.ones, g.rest)
  }

  /** The state after the next data bit and, if it was the sixth one, the stuffed
      zero behind it. */
  ghost function Next(g: Track): Track
    requires g.ones < 6 && g.rest != []
  {
    var l := Step(g.prev, g.rest[0]);
    Track(if Stuffed(g) then l.Other() else l, NextOnes(g.ones, g.rest[0]), g.rest[1..],
          Ror(g.byte_, g.rest[0]), Ror(g.mask, true))
  }

  ghost predicate Stuffed(g: Track)
    requires g.rest != []
  {
    g.rest[0] && g.ones == 5
  }

  /** What the line shows for the next data bit and where the bit after it is. */
  lemma TakeBit(port: seq<byte>, i: nat, g: Track)
    requires OnLine(port, i, g) && g.rest != []
    ensures Step(g.prev, g.rest[0]) != SE0
    ensures Masked(Sample(port, i)) == Code(Step(g.prev, g.rest[0]))
    ensures Stuffed(g) ==> Masked(Sample(port, i + 1)) == Code(Next(g).prev)
    ensures OnLine(port, if Stuffed(g) then i + 2 else i + 1, Next(g))
  {
    hide Masked, Code, Shows, Nrzi, Stuff;
    if Stuffed(g) { AheadStuffed(port, i, g.prev, g.rest); } else { AheadPlain(port, i, g.prev, g.ones, g.rest); }
  }

  lemma CodeNonzero(l: Level)
    requires l != SE0
    ensures Code(l) != 0
  {
  }

  /** `subi r, 1` borrows exactly from zero. */
  function Borrow(r: byte): bool { r < 1 }

  /** Two levels xored: zero, so a one on the line, exactly when they agree. */
  lemma Edge(prev: Level, bit: bool)
    requires prev != SE0
    ensures Borrow(Eor(Code(prev), Code(Step(prev, bit)))) == bit
    ensures Borrow(Eor(Code(Step(prev, bit)), Code(prev))) == bit
    ensures !Borrow(Eor(Code(prev), 0))
  {
    match prev
    case J => if bit {} else {}
    case K => if bit {} else {}
  }

  // ---- the history of ones in a right-shifting register ------------------

  /** Leading ones, counted up to six. */
  function Run(s: byte): nat {
    if s < 0x80 then 0 else if s < 0xc0 then 1 else if s < 0xe0 then 2
    else if s < 0xf0 then 3 else if s < 0xf8 then 4 else if s < 0xfc then 5 else 6
  }

  lemma RunOne(s: byte)
    requires Run(s) < 6
    ensures Run(Ror(s, true)) == Run(s) + 1
  {
  }

  lemma RunZero(s: byte)
    ensures Run(Ror(s, false)) == 0
  {
  }

  lemma RunFull(s: byte)
    ensures Run(s) == 6 <==> s >= 0xfc
  {
  }

  lemma RunCleared(s: byte)
    ensures Run(Andi(s, 0x7f)) == 0
  {
  }

  /** After `ror shift` on the next data bit, compare with 0xfc. */
  lemma RunBit(s: byte, g: Track)
    requires g.ones < 6 && Run(s) == g.ones && g.rest != []
    ensures Ror(s, g.rest[0]) >= 0xfc <==> Stuffed(g)
    ensures !Stuffed(g) ==> Run(Ror(s, g.rest[0])) == Next(g).ones
    ensures Stuffed(g) ==> Run(Andi(Ror(s, g.rest[0]), 0x7f)) == Next(g).ones
  {
    hide Run, Ror, Andi;
    RunFull(Ror(s, g.rest[0]));
    RunCleared(Ror(s, g.rest[0]));
    if g.rest[0] { RunOne(s); } else { RunZero(s); }
  }

  // ---- assembling a byte from its bits -----------------------------------

  /** `bits` of the current byte are still missing, and with them it will be b. */
  ghost predicate Becoming(g: Track, missing: nat, b: byte) {
    missing <= |g.rest| && ShiftIn(g.byte_, g.rest[..missing]) == b
  }

  lemma BecomingStart(g: Track, bytes: seq<byte>)
    requires bytes != [] && g.rest == BytesBits(bytes)
    ensures |g.rest| >= 8 && Becoming(g, 8, bytes[0]) && g.rest[8..] == BytesBits(bytes[1..])
  {
    hide LowBits, ShiftIn;
    assert g.rest[..8] == ByteBits(bytes[0]);
    ShiftInByte(g.byte_, bytes[0]);
  }

  lemma BecomingNext(g: Track, missing: nat, b: byte)
    requires g.ones < 6 && missing > 0 && Becoming(g, missing, b)
    ensures g.rest != [] && Becoming(Next(g), missing - 1, b)
    ensures missing <= |g.rest| && |Next(g).rest| == |g.rest| - 1
    ensures Next(g).rest[missing - 1..] == g.rest[missing..]
  {
    hide Ror;
    assert g.rest[..missing][1..] == g.rest[1..][..missing - 1];
  }

  lemma BecomingDone(g: Track, b: byte)
    requires Becoming(g, 0, b)
    ensures g.byte_ == b && g.rest[0..] == g.rest
  {
    assert g.rest[..0] == [];
  }

  // ---- the first byte ----------------------------------------------------

  /** A packet identifier's high nibble is the complement of its low one
      (USB 2.0, section 8.3.1). */
  predicate ValidPid(b: byte) { (b >> 4) ^ (b & 0x0f) == 0x0f }

  lemma PidBits(b: byte)
    requires ValidPid(b)
    ensures var bits := ByteBits(b);
      bits[4] == !bits[0] && bits[5] == !bits[1] && bits[6] == !bits[2] && bits[7] == !bits[3]
  {
  }

  lemma {:induction false} StuffStart(a: nat, b: nat, bits: seq<bool>, p: nat)
    requires p < |bits| && !bits[p] && forall q :: 0 <= q < p ==> bits[q]
    requires a + p <= 5 && b + p <= 5
    ensures Stuff(a, bits) == Stuff(b, bits)
    decreases p
  {
    if p > 0 { StuffStart(a + 1, b + 1, bits[1..], p - 1); }
  }

  /** A well-formed packet lies ahead: the sync pattern just ended on its second K. */
  ghost predicate Carries(port: seq<byte>, start: nat, bytes: seq<byte>) {
    bytes != [] && ValidPid(bytes[0]) && Shows(port, start, BodyLevels(bytes))
  }

  lemma FirstBit(port: seq<byte>, start: nat, bytes: seq<byte>) returns (g: Track)
    requires Carries(port, start, bytes)
    ensures g.rest == BytesBits(bytes) && g.ones == 1 && g.prev == K && g.byte_ == 0 && g.mask == 0
    ensures OnLine(port, start, g) && |g.rest| >= 8 && !Stuffed(g)
    ensures Becoming(g, 8, bytes[0]) && g.rest[8..] == BytesBits(bytes[1..])
    ensures g.rest[4] == !g.rest[0] && g.rest[5] == !g.rest[1]
  {
    g := Track(K, 1, BytesBits(bytes), 0, 0);
    BecomingStart(g, bytes);
    PidBits(bytes[0]);
  }

  /** Where the first zero is, by the complement rule. */
  lemma FirstZero(bits: seq<bool>) returns (p: nat)
    requires |bits| >= 8 && bits[4] == !bits[0] && bits[5] == !bits[1]
    ensures p <= 4 && !bits[p] && forall q :: 0 <= q < p ==> bits[q]
  {
    p := if !bits[0] then 0 else if !bits[1] then 1 else if !bits[2] then 2
         else if !bits[3] then 3 else 4;
  }

  /** The same, not looking at the first bit. */
  lemma SecondZero(bits: seq<bool>) returns (p: nat)
    requires |bits| >= 8 && bits[4] == !bits[0] && bits[5] == !bits[1]
    ensures p <= (if bits[0] then 3 else 4)
    ensures !bits[1..][p] && forall q :: 0 <= q < p ==> bits[1..][q]
  {
    p := if !bits[1] then 0 else if !bits[2] then 1 else if !bits[3] then 2
         else if !bits[4] then 3 else 4;
  }

  /** A valid identifier breaks every run of ones early enough that a receiver may
      start counting from `b` ones instead of the `a` there have been. */
  lemma PidForgives(port: seq<byte>, i: nat, g: Track, b: nat, p: nat)
    requires OnLine(port, i, g) && b < 6
    requires p < |g.rest| && !g.rest[p] && forall q :: 0 <= q < p ==> g.rest[q]
    requires g.ones + p <= 5 && b + p <= 5
    ensures OnLine(port, i, g.(ones := b))
  {
    StuffStart(g.ones, b, g.rest, p);
  }

  function TopMask(k: nat): byte
    requires k <= 8
  {
    match k
    case 0 => 0x00 case 1 => 0x80 case 2 => 0xc0 case 3 => 0xe0 case 4 => 0xf0
    case 5 => 0xf8 case 6 => 0xfc case 7 => 0xfe case 8 => 0xff
  }

  lemma TopMaskNext(k: nat)
    requires k < 8
    ensures Ror(TopMask(k), true) == TopMask(k + 1)
  {
    match k
    case 0 => case 1 => case 2 => case 3 => case 4 => case 5 => case 6 => case 7 =>
  }

  /** What a receive routine reports: the end of packet was seen after n bytes, or
      there were more than the buffer holds. */
  datatype Outcome = Packet(n: nat) | Overflow

  /** At `se0` (asmcommon.inc): the byte count and the start of the buffer, from the
      remaining count and the write pointer. */
  function CountAtSe0(cnt: nat): nat
    requires cnt < 256
  {
    (256 - (cnt + 256 - BUFSIZE) % 256) % 256
  }

  lemma CountIsReceived(n: nat)
    requires n <= BUFSIZE
    ensures CountAtSe0(BUFSIZE - n) == n
  {
  }

  /** Where the loop is within byte b of a packet, `later` being the bytes behind it. */
  ghost predicate Within(g: Track, k: nat, b: byte, later: seq<bool>)
    requires k <= 8
  {
    && g.mask == TopMask(k) && Becoming(g, 8 - k, b)
    && 8 - k <= |g.rest| && g.rest[8 - k..] == later
  }

  lemma WithinNext(g: Track, k: nat, b: byte, later: seq<bool>)
    requires g.ones < 6 && k < 8 && Within(g, k, b, later)
    ensures g.rest != [] && Within(Next(g), k + 1, b, later)
  {
    hide TopMask, Ror, Becoming;
    TopMaskNext(k);
    BecomingNext(g, 8 - k, b);
  }

  lemma MoreBits(g: Track, k: nat, b: byte, later: seq<bool>)
    requires k < 8 && Within(g, k, b, later)
    ensures |g.rest| >= 8 - k && g.rest != []
  {
  }

  lemma ByteStarts(g: Track, bytes: seq<byte>, n: nat)
    requires n < |bytes| && g.rest == BytesBits(bytes[n..]) && g.mask == TopMask(0)
    ensures Within(g, 0, bytes[n], BytesBits(bytes[n + 1..]))
  {
    hide TopMask;
    BecomingStart(g, bytes[n..]);
    DropOne(bytes, n);
  }

  lemma DropOne<T>(s: seq<T>, n: nat)
    requires n < |s|
    ensures s[n..][1..] == s[n + 1..]
  {
  }
}
