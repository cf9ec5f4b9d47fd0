/** CRC16 of USB data packets (USB 2.0, section 8.3.5.2) in the reflected form
    the firmware uses: the register shifts right, polynomial 0xa001, start 0xffff. */
module Crc16 {
  import opened Bits

  /** Divide the register's polynomial by x modulo the generator: the subtracted
      mask is all ones exactly when the bit shifted out is one (DivideCases). */
  function Divide(w: word): word {
    (w >> 1) ^ (0xa001 & (0 - (w & 1)))
  }

  function Xor(a: word, b: word): word { a ^ b }

  function BitWord(bit: bool): word { if bit then 1 else 0 }

  /** One step of the register on one incoming bit. */
  function Shift(crc: word, bit: bool): word {
    Divide(Xor(crc, BitWord(bit)))
  }

  function Crc(crc: word, bits: seq<bool>): word
    decreases bits
  {
    if bits == [] then crc else Crc(Shift(crc, bits[0]), bits[1..])
  }

  function Complement(w: word): word { !w }

  /** The check value sent after a payload: the complement of the register. */
  function CheckWord(payload: seq<byte>): word {
    Complement(Crc(0xffff, BytesBits(payload)))
  }

  /** What follows the payload on the wire, low byte first. */
  function CheckBytes(payload: seq<byte>): seq<byte> {
    [Lo(CheckWord(payload)), Hi(CheckWord(payload))]
  }

  /** The receiver's test: a register that has also taken in the check bytes
      holds the fixed residue. */
  predicate Accepts(bits: seq<bool>) {
    Crc(0xffff, bits) == 0xb001
  }

  lemma CrcStep(crc: word, bit: bool, rest: seq<bool>)
    ensures Crc(crc, [bit] + rest) == Crc(Shift(crc, bit), rest)
  {
    assert ([bit] + rest)[1..] == rest;
  }

  lemma {:induction false} CrcAppend(crc: word, a: seq<bool>, b: seq<bool>)
    ensures Crc(crc, a + b) == Crc(Crc(crc, a), b)
    decreases a
  {
    if a == [] {
      assert a + b == b;
    } else {
      assert (a + b)[1..] == a[1..] + b;
      CrcAppend(Shift(crc, a[0]), a[1..], b);
    }
  }

  // ---- a byte at a time --------------------------------------------------

  function DivideN(w: word, n: nat): word
    decreases n
  {
    if n == 0 then w else DivideN(Divide(w), n - 1)
  }

  function Shift8(w: word): word { DivideN(w, 8) }

  /** The byte-wide step all table-driven forms share:
      `table[lo8(crc) ^ b] ^ hi8(crc)`. */
  function ShiftByte(crc: word, b: byte): word {
    Xor(Shift8((Lo(crc) ^ b) as word), Hi(crc) as word)
  }

  function CrcBytes(crc: word, bytes: seq<byte>): word
    decreases bytes
  {
    if bytes == [] then crc else CrcBytes(ShiftByte(crc, bytes[0]), bytes[1..])
  }

  lemma DivideEven(w: word)
    requires w & 1 == 0
    ensures Divide(w) == w >> 1
  {
  }

  lemma DivideOdd(w: word)
    requires w & 1 != 0
    ensures Divide(w) == (w >> 1) ^ 0xa001
  {
  }

  lemma DivideLinear(a: word, b: word)
    ensures Divide(Xor(a, b)) == Xor(Divide(a), Divide(b))
  {
  }

  lemma XorGroup(a: word, b: word)
    ensures Xor(a, 0) == a && Xor(0, a) == a && Xor(a, a) == 0 && Xor(Xor(a, b), b) == a
    ensures Xor(a, b) == Xor(b, a) && (Xor(a, b) == 0 <==> a == b)
  {
  }

  /** Taking the low bit of w into the register, then xoring what is left of w,
      equals dividing a register that has all of w xored in. */
  lemma ShiftDivides(crc: word, w: word, bit: bool)
    requires bit == (w & 1 != 0)
    ensures Xor(Shift(crc, bit), w >> 1) == Divide(Xor(crc, w))
  {
    hide Shift, Divide, Xor;
    if bit {
      ShiftDividesOdd(crc, w);
    } else {
      ShiftDividesEven(crc, w);
    }
  }

  lemma ShiftDividesOdd(crc: word, w: word)
    requires w & 1 != 0
    ensures Xor(Shift(crc, true), w >> 1) == Divide(Xor(crc, w))
  {
  }

  lemma ShiftDividesEven(crc: word, w: word)
    requires w & 1 == 0
    ensures Xor(Shift(crc, false), w >> 1) == Divide(Xor(crc, w))
  {
    hide Shift, Divide, Xor;
    ShiftZero(crc);
    DivideEven(w);
    DivideLinear(crc, w);
  }

  lemma ShiftZero(crc: word)
    ensures Shift(crc, false) == Divide(crc)
  {
  }

  lemma Widen(b: byte) returns (w: word, b': byte, bit: bool)
    ensures w == b as word && b' == b >> 1 && b' as word == w >> 1
    ensures bit == Bit0(b) == (w & 1 != 0)
  {
    w, b', bit := b as word, b >> 1, Bit0(b);
  }

  /** Feeding n bits of b equals dividing, n times, a register that has b xored in. */
  lemma {:induction false} CrcLowBits(crc: word, b: byte, n: nat) returns (rest: byte)
    ensures rest == DropBits(b, n)
    ensures Xor(Crc(crc, LowBits(b, n)), rest as word) == DivideN(Xor(crc, b as word), n)
    decreases n
  {
    hide Shift, Divide, Xor;
    if n == 0 {
      rest := b;
    } else {
      var w, b', bit := Widen(b);
      ShiftDivides(crc, w, bit);
      var crc' := Shift(crc, bit);
      rest := CrcLowBits(crc', b', n - 1);
      CrcStep(crc, bit, LowBits(b', n - 1));
    }
  }

  function DropBits(b: byte, n: nat): byte
    decreases n
  {
    if n == 0 then b else DropBits(b >> 1, n - 1)
  }

  lemma {:induction false} DivideNLinear(a: word, b: word, n: nat)
    ensures DivideN(Xor(a, b), n) == Xor(DivideN(a, n), DivideN(b, n))
    decreases n
  {
    hide Divide, Xor;
    if n > 0 {
      DivideLinear(a, b);
      DivideNLinear(Divide(a), Divide(b), n - 1);
    }
  }

  lemma HighByteDrops(w: word)
    requires w & 0xff == 0
    ensures Shift8(w) == w >> 8
  {
  }

  lemma NothingLeft(b: byte)
    ensures DropBits(b, 8) == 0
  {
  }

  lemma SplitLow(crc: word, b: byte)
    ensures Xor(crc, b as word) == Xor((Lo(crc) ^ b) as word, crc & 0xff00)
  {
  }

  lemma SplitHigh(crc: word)
    ensures (crc & 0xff00) & 0xff == 0 && (crc & 0xff00) >> 8 == Hi(crc) as word
  {
  }

  /** Eight bit steps are eight divisions of a register with the byte xored in. */
  lemma CrcByteDivides(crc: word, b: byte)
    ensures Crc(crc, ByteBits(b)) == DivideN(Xor(crc, b as word), 8)
  {
    hide DivideN, Crc, LowBits, Xor;
    var rest := CrcLowBits(crc, b, 8);
    NothingLeft(b);
    XorGroup(Crc(crc, ByteBits(b)), 0);
  }

  /** The byte-wide step is eight bit steps. */
  lemma CrcByte(crc: word, b: byte)
    ensures Crc(crc, ByteBits(b)) == ShiftByte(crc, b)
  {
    hide DivideN, Crc, LowBits, Lo, Hi, Xor;
    CrcByteDivides(crc, b);
    SplitLow(crc, b);
    SplitHigh(crc);
    HighByteDrops(crc & 0xff00);
    DivideNLinear((Lo(crc) ^ b) as word, crc & 0xff00, 8);
  }

  lemma {:induction false} CrcBytesIsCrc(crc: word, bytes: seq<byte>)
    ensures CrcBytes(crc, bytes) == Crc(crc, BytesBits(bytes))
    decreases bytes
  {
    hide ShiftByte, LowBits;
    if bytes != [] {
      CrcByte(crc, bytes[0]);
      CrcAppend(crc, ByteBits(bytes[0]), BytesBits(bytes[1..]));
      CrcBytesIsCrc(ShiftByte(crc, bytes[0]), bytes[1..]);
    }
  }

  // ---- the residue -------------------------------------------------------

  lemma ResidueReached(crc: word)
    ensures ShiftByte(ShiftByte(crc, Lo(Complement(crc))), Hi(Complement(crc))) == 0xb001
  {
  }

  /** The two bytes that lead to the residue are determined by the register. */
  lemma ResidueDetermines(crc: word, a: byte, b: byte)
    requires ShiftByte(ShiftByte(crc, a), b) == 0xb001
    ensures a == Lo(Complement(crc)) && b == Hi(Complement(crc))
  {
  }

  lemma ShortNeverAccepted(b: byte)
    ensures ShiftByte(0xffff, b) != 0xb001
  {
  }

  lemma TwoBytes(crc: word, a: byte, b: byte)
    ensures CrcBytes(crc, [a, b]) == ShiftByte(ShiftByte(crc, a), b)
  {
    hide ShiftByte;
    assert [a, b][1..] == [b];
    assert CrcBytes(crc, [a, b]) == CrcBytes(ShiftByte(crc, a), [b]);
    assert [b][1..] == [];
    assert CrcBytes(ShiftByte(crc, a), [b]) == CrcBytes(ShiftByte(ShiftByte(crc, a), b), []);
  }

  lemma RegisterAfter(payload: seq<byte>, a: byte, b: byte)
    ensures Crc(0xffff, BytesBits(payload + [a, b]))
      == ShiftByte(ShiftByte(Crc(0xffff, BytesBits(payload)), a), b)
  {
    hide ShiftByte, BytesBits, Crc;
    CrcBytesIsCrc(0xffff, payload + [a, b]);
    CrcBytesAppend(0xffff, payload, [a, b]);
    CrcBytesIsCrc(0xffff, payload);
    TwoBytes(Crc(0xffff, BytesBits(payload)), a, b);
  }

  lemma ResidueOnlyAfterCheck(payload: seq<byte>, a: byte, b: byte)
    ensures Accepts(BytesBits(payload + [a, b])) <==> [a, b] == CheckBytes(payload)
  {
    hide ShiftByte, Lo, Hi, BytesBits, Crc;
    RegisterAfter(payload, a, b);
    var crc := Crc(0xffff, BytesBits(payload));
    if ShiftByte(ShiftByte(crc, a), b) == 0xb001 { ResidueDetermines(crc, a, b); }
    ResidueReached(crc);
  }

  lemma ShortRejected(got: seq<byte>)
    requires |got| < 2
    ensures !Accepts(BytesBits(got))
  {
    hide ShiftByte, BytesBits, Crc;
    CrcBytesIsCrc(0xffff, got);
    if |got| == 1 {
      assert got[1..] == [];
      ShortNeverAccepted(got[0]);
    }
  }

  lemma LastTwo<T>(s: seq<T>)
    requires |s| >= 2
    ensures var n := |s| - 2; s[..n] + [s[n], s[n + 1]] == s && s[n..] == [s[n], s[n + 1]]
  {
  }

  /** A received byte string is accepted exactly when its last two bytes are the
      check bytes of what precedes them. */
  lemma AcceptsExactly(got: seq<byte>)
    ensures Accepts(BytesBits(got)) <==>
      |got| >= 2 && got[|got| - 2..] == CheckBytes(got[..|got| - 2])
  {
    hide CheckBytes, BytesBits, Accepts;
    if |got| < 2 {
      ShortRejected(got);
    } else {
      var n := |got| - 2;
      LastTwo(got);
      ResidueOnlyAfterCheck(got[..n], got[n], got[n + 1]);
    }
  }

  lemma {:induction false} CrcBytesAppend(crc: word, a: seq<byte>, b: seq<byte>)
    ensures CrcBytes(crc, a + b) == CrcBytes(CrcBytes(crc, a), b)
    decreases a
  {
    hide ShiftByte;
    if a == [] {
      assert a + b == b;
    } else {
      assert (a + b)[1..] == a[1..] + b;
      CrcBytesAppend(ShiftByte(crc, a[0]), a[1..], b);
    }
  }

  // ---- error detection ---------------------------------------------------

  /** The bits of a frame with those marked in `errors` inverted. */
  function Flip(bits: seq<bool>, errors: seq<bool>): (r: seq<bool>)
    requires |bits| == |errors|
    ensures |r| == |bits|
  {
    if bits == [] then [] else [bits[0] != errors[0]] + Flip(bits[1..], errors[1..])
  }

  lemma XorAssoc(a: word, b: word, c: word)
    ensures Xor(Xor(a, b), c) == Xor(a, Xor(b, c))
  {
  }

  lemma XorSwap(a: word, b: word, p: word, q: word)
    ensures Xor(Xor(a, b), Xor(p, q)) == Xor(Xor(a, p), Xor(b, q))
  {
    hide Xor;
    XorAssoc(a, b, Xor(p, q));
    XorAssoc(b, p, q);
    XorGroup(b, p);
    XorAssoc(p, b, q);
    XorAssoc(a, p, Xor(b, q));
  }

  lemma BitWordXor(x: bool, y: bool)
    ensures BitWord(x != y) == Xor(BitWord(x), BitWord(y))
  {
    if x { if y {} else {} } else { if y {} else {} }
  }

  lemma ShiftLinear(a: word, b: word, x: bool, y: bool)
    ensures Shift(Xor(a, b), x != y) == Xor(Shift(a, x), Shift(b, y))
  {
    hide Divide, Xor, BitWord;
    BitWordXor(x, y);
    XorSwap(a, b, BitWord(x), BitWord(y));
    DivideLinear(Xor(a, BitWord(x)), Xor(b, BitWord(y)));
  }

  /** The register is linear over the frame, so what an error pattern does to it
      does not depend on the frame it hits. */
  lemma {:induction false} CrcLinear(a: word, b: word, bits: seq<bool>, errors: seq<bool>)
    requires |bits| == |errors|
    ensures Crc(Xor(a, b), Flip(bits, errors)) == Xor(Crc(a, bits), Crc(b, errors))
    decreases bits
  {
    hide Shift, Xor;
    if bits != [] {
      ShiftLinear(a, b, bits[0], errors[0]);
      CrcLinear(Shift(a, bits[0]), Shift(b, errors[0]), bits[1..], errors[1..]);
      CrcStep(Xor(a, b), bits[0] != errors[0], Flip(bits[1..], errors[1..]));
    }
  }

  /** An error goes unnoticed exactly when, on its own, it leaves a zero register. */
  lemma UnnoticedExactly(bits: seq<bool>, errors: seq<bool>)
    requires |bits| == |errors| && Accepts(bits)
    ensures Accepts(Flip(bits, errors)) <==> Crc(0, errors) == 0
  {
    hide Shift, Xor;
    CrcLinear(0xffff, 0, bits, errors);
    XorGroup(0xffff, 0);
    XorGroup(0xb001, Crc(0, errors));
    XorCancel(0xb001, Crc(0, errors));
  }

  lemma XorCancel(a: word, b: word)
    ensures Xor(a, b) == a <==> b == 0
  {
  }

  // An odd number of inverted bits.

  /** Whether the low n bits of w hold an odd number of ones. */
  function Parity(w: word, n: nat): bool
    decreases n
  {
    if n == 0 then false else (w & 1 != 0) != Parity(w >> 1, n - 1)
  }

  function Odd(bits: seq<bool>): bool {
    if bits == [] then false else bits[0] != Odd(bits[1..])
  }

  lemma XorHalves(a: word, b: word)
    ensures Xor(a, b) >> 1 == Xor(a >> 1, b >> 1)
  {
    assert (a ^ b) >> 1 == (a >> 1) ^ (b >> 1);
  }

  lemma XorLow(a: word, b: word)
    ensures (Xor(a, b) & 1 != 0) == ((a & 1 != 0) != (b & 1 != 0))
  {
    assert Xor(a, b) & 1 == (a & 1) ^ (b & 1);
    assert a & 1 == 0 || a & 1 == 1;
    assert b & 1 == 0 || b & 1 == 1;
  }

  lemma {:induction false} ParityLinear(a: word, b: word, n: nat)
    ensures Parity(Xor(a, b), n) == (Parity(a, n) != Parity(b, n))
    decreases n
  {
    hide Xor;
    if n > 0 {
      XorHalves(a, b);
      XorLow(a, b);
      ParityLinear(a >> 1, b >> 1, n - 1);
    }
  }

  lemma {:induction false} ParityOfRest(w: word, n: nat)
    requires DropWord(w, n) == 0
    ensures Parity(w, n + 1) == Parity(w, n)
    decreases n
  {
    if n > 0 { ParityOfRest(w >> 1, n - 1); }
  }

  lemma TopBitGone(w: word)
    ensures DropWord(w >> 1, 15) == 0
  {
    hide DropWord;
    DropWordAdd(w >> 1, 7, 8);
    DropWordEight(w >> 1);
    DropWordEight((w >> 1) >> 7);
    assert ((w >> 1) >> 7) >> 8 == 0;
  }

  lemma ParityConstants()
    ensures Parity(0, 16) == false && Parity(1, 16) && Parity(0xa001, 16)
  {
  }

  lemma ParityDivide(w: word)
    ensures Parity(Divide(w), 16) == Parity(w, 16)
  {
    hide Divide;
    TopBitGone(w);
    ParityOfRest(w >> 1, 15);
    if w & 1 == 0 {
      DivideEven(w);
    } else {
      DivideOdd(w);
      ParityLinear(w >> 1, 0xa001, 16);
      ParityConstants();
    }
  }

  /** The parity of the register is conserved against the parity of the bits fed in. */
  lemma {:induction false} CrcParity(crc: word, bits: seq<bool>)
    ensures Parity(Crc(crc, bits), 16) == (Parity(crc, 16) != Odd(bits))
    decreases bits
  {
    hide Divide, Xor, Parity;
    if bits != [] {
      CrcParity(Shift(crc, bits[0]), bits[1..]);
      ParityDivide(Xor(crc, BitWord(bits[0])));
      ParityLinear(crc, BitWord(bits[0]), 16);
      ParityConstants();
    }
  }

  lemma OddErrorsRejected(bits: seq<bool>, errors: seq<bool>)
    requires |bits| == |errors| && Accepts(bits) && Odd(errors)
    ensures !Accepts(Flip(bits, errors))
  {
    hide Shift, Parity, Xor, BitWord;
    UnnoticedExactly(bits, errors);
    CrcParity(0, errors);
    ParityConstants();
  }

  // A burst: the inverted bits lie within sixteen consecutive places.

  function Zeros(n: nat): (bits: seq<bool>)
    ensures |bits| == n
  {
    seq(n, _ => false)
  }

  lemma DivideKeepsNonzero(w: word)
    ensures Divide(w) == 0 <==> w == 0
  {
  }

  lemma {:induction false} CrcZeros(crc: word, n: nat)
    ensures Crc(crc, Zeros(n)) == 0 <==> crc == 0
    decreases n
  {
    hide Divide;
    if n > 0 {
      assert Zeros(n) == [false] + Zeros(n - 1);
      CrcStep(crc, false, Zeros(n - 1));
      ShiftZero(crc);
      DivideKeepsNonzero(crc);
      CrcZeros(Shift(crc, false), n - 1);
    }
  }

  function WordBits(w: word, n: nat): (bits: seq<bool>)
    ensures |bits| == n
    decreases n
  {
    if n == 0 then [] else [w & 1 != 0] + WordBits(w >> 1, n - 1)
  }

  lemma {:induction false} DropMore(w: word, n: nat, m: nat)
    requires n <= m && DropWord(w, n) == 0
    ensures DropWord(w, m) == 0
    decreases m
  {
    if n > 0 {
      DropMore(w >> 1, n - 1, m - 1);
    } else if m > 0 {
      ZeroHalves();
      DropMore(w >> 1, 0, m - 1);
    }
  }

  lemma ZeroHalves()
    ensures (0 as word) >> 1 == 0 && (0 as word) & 1 == 0
  {
  }

  lemma FifteenBits(w: word)
    requires DropWord(w, 15) == 0
    ensures w & 0x8000 == 0
  {
    hide DropWord;
    DropWordAdd(w, 7, 8);
    DropWordEight(w);
    DropWordEight(w >> 7);
    assert (w >> 7) >> 8 == 0;
  }

  lemma TopClear(w: word, bit: bool)
    requires Shift(w, bit) & 0x8000 == 0
    ensures bit == (w & 1 != 0) && Shift(w, bit) == w >> 1
  {
    hide Shift;
    if bit { TopClear1(w); } else { TopClear0(w); }
  }

  lemma TopClear0(w: word)
    requires Shift(w, false) & 0x8000 == 0
    ensures w & 1 == 0 && Shift(w, false) == w >> 1
  {
  }

  lemma TopClear1(w: word)
    requires Shift(w, true) & 0x8000 == 0
    ensures w & 1 != 0 && Shift(w, true) == w >> 1
  {
  }

  /** Up to sixteen bits empty the register only if they are what it holds. */
  lemma {:induction false} OnlyItsOwnBits(crc: word, bits: seq<bool>)
    requires |bits| <= 16 && Crc(crc, bits) == 0
    ensures bits == WordBits(crc, |bits|) && DropWord(crc, |bits|) == 0
    decreases bits
  {
    hide Shift;
    if bits != [] {
      var next := Shift(crc, bits[0]);
      OnlyItsOwnBits(next, bits[1..]);
      DropMore(next, |bits| - 1, 15);
      FifteenBits(next);
      TopClear(crc, bits[0]);
    }
  }

  lemma {:induction false} BitsOfZero(n: nat)
    ensures WordBits(0, n) == Zeros(n)
    decreases n
  {
    if n > 0 {
      ZeroHalves();
      BitsOfZero(n - 1);
      assert Zeros(n) == [false] + Zeros(n - 1);
    }
  }

  /** Every burst of at most sixteen bits is rejected, single-bit errors among them. */
  lemma BurstRejected(bits: seq<bool>, before: nat, burst: seq<bool>, after: nat)
    requires |bits| == before + |burst| + after && |burst| <= 16 && true in burst
    requires Accepts(bits)
    ensures !Accepts(Flip(bits, Zeros(before) + burst + Zeros(after)))
  {
    hide Shift;
    var errors := Zeros(before) + burst + Zeros(after);
    UnnoticedExactly(bits, errors);
    CrcAppend(0, Zeros(before) + burst, Zeros(after));
    CrcAppend(0, Zeros(before), burst);
    CrcZeros(0, before);
    CrcZeros(Crc(0, burst), after);
    if Crc(0, burst) == 0 {
      OnlyItsOwnBits(0, burst);
      BitsOfZero(|burst|);
    }
  }

  // Two inverted bits anywhere in the longest low-speed data packet.

  const LONGEST := 80  // eight data bytes and the check bytes, in bits

  lemma {:induction false} CrcZerosDivides(crc: word, n: nat)
    ensures Crc(crc, Zeros(n)) == DivideN(crc, n)
    decreases n
  {
    hide Divide;
    if n > 0 {
      assert Zeros(n) == [false] + Zeros(n - 1);
      CrcStep(crc, false, Zeros(n - 1));
      ShiftZero(crc);
      CrcZerosDivides(Divide(crc), n - 1);
    }
  }

  /** None of w, Divide(w), ... up to n steps is the word 1. */
  predicate AvoidsOne(w: word, n: nat)
    decreases n
  {
    w != 1 && (n == 0 || AvoidsOne(Divide(w), n - 1))
  }

  lemma {:induction false} AvoidsOneAt(w: word, n: nat, k: nat)
    requires AvoidsOne(w, n) && k <= n
    ensures DivideN(w, k) != 1
    decreases k
  {
    hide Divide;
    if k > 0 { AvoidsOneAt(Divide(w), n - 1, k - 1); }
  }

  lemma {:induction false} AvoidsOneJoin(w: word, n: nat, m: nat)
    requires AvoidsOne(w, n) && AvoidsOne(DivideN(w, n), m)
    ensures AvoidsOne(w, n + m)
    decreases n
  {
    hide Divide;
    if n > 0 { AvoidsOneJoin(Divide(w), n - 1, m); }
  }

  // The register's cycle from 0xa001, thirteen steps at a time.
  lemma Cycle0() ensures AvoidsOne(0xa001, 13) && DivideN(0xa001, 13) == 0xc002 {}
  lemma Cycle1() ensures AvoidsOne(0xc002, 13) && DivideN(0xc002, 13) == 0xc00b {}
  lemma Cycle2() ensures AvoidsOne(0xc00b, 13) && DivideN(0xc00b, 13) == 0xc03d {}
  lemma Cycle3() ensures AvoidsOne(0xc03d, 13) && DivideN(0xc03d, 13) == 0xc089 {}
  lemma Cycle4() ensures AvoidsOne(0xc089, 13) && DivideN(0xc089, 13) == 0xc331 {}
  lemma Cycle5() ensures AvoidsOne(0xc331, 13) && DivideN(0xc331, 13) == 0xcaa1 {}

  lemma CycleIsLong()
    ensures AvoidsOne(0xa001, LONGEST - 2)
  {
    hide Divide, AvoidsOne, DivideN;
    Cycle5();
    Cycle4();
    Cycle3();
    Cycle2();
    Cycle1();
    Cycle0();
    AvoidsOneJoin(0xc089, 13, 13);
    AvoidsOneJoin(0xc03d, 13, 26);
    AvoidsOneJoin(0xc00b, 13, 39);
    AvoidsOneJoin(0xc002, 13, 52);
    AvoidsOneJoin(0xa001, 13, 65);
  }

  lemma FirstFlip()
    ensures Shift(0, true) == 0xa001
  {
  }

  lemma SecondFlip(w: word)
    ensures Shift(w, true) == 0 <==> w == 1
  {
  }

  lemma CrcOne(crc: word, bit: bool)
    ensures Crc(crc, [bit]) == Shift(crc, bit)
  {
    hide Shift;
    assert [bit] + [] == [bit];
    CrcStep(crc, bit, []);
  }

  /** Two inverted bits in a frame of at most eighty bits are rejected. */
  lemma TwoErrorsRejected(bits: seq<bool>, before: nat, between: nat, after: nat)
    requires |bits| == before + between + after + 2 <= LONGEST && Accepts(bits)
    ensures !Accepts(Flip(bits, Zeros(before) + [true] + Zeros(between) + [true] + Zeros(after)))
  {
    hide Shift, Divide, Accepts, AvoidsOne;
    var errors := Zeros(before) + [true] + Zeros(between) + [true] + Zeros(after);
    UnnoticedExactly(bits, errors);
    CrcAppend(0, Zeros(before) + [true] + Zeros(between) + [true], Zeros(after));
    CrcAppend(0, Zeros(before) + [true] + Zeros(between), [true]);
    CrcAppend(0, Zeros(before) + [true], Zeros(between));
    CrcAppend(0, Zeros(before), [true]);
    CrcZeros(0, before);
    CrcOne(0, true);
    FirstFlip();
    CrcZerosDivides(0xa001, between);
    CycleIsLong();
    AvoidsOneAt(0xa001, LONGEST - 2, between);
    var middle := DivideN(0xa001, between);
    CrcOne(middle, true);
    SecondFlip(middle);
    CrcZeros(Shift(middle, true), after);
  }
}
