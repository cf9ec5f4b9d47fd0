/** Bytes as the eight bits a USB line carries, least significant bit first
    (USB 2.0, section 8.1), and the few AVR bit instructions the models share. */
module Bits {

  type byte = bv8
  type word = bv16

  function Bit0(r: byte): bool { r & 1 != 0 }

  /** The low n bits of b, in the order a right-shifting register gives them up. */
  function LowBits(b: byte, n: nat): (bits: seq<bool>)
    ensures |bits| == n
    decreases n
  {
    if n == 0 then [] else [Bit0(b)] + LowBits(b >> 1, n - 1)
  }

  function ByteBits(b: byte): seq<bool> { LowBits(b, 8) }

  function BytesBits(bytes: seq<byte>): (bits: seq<bool>)
    ensures |bits| == 8 * |bytes|
  {
    if bytes == [] then [] else ByteBits(bytes[0]) + BytesBits(bytes[1..])
  }

  lemma {:induction false} BytesBitsAppend(a: seq<byte>, b: seq<byte>)
    ensures BytesBits(a + b) == BytesBits(a) + BytesBits(b)
  {
    if a == [] {
      assert a + b == b;
    } else {
      assert (a + b)[1..] == a[1..] + b;
      BytesBitsAppend(a[1..], b);
    }
  }

  lemma BytesBitsSnoc(a: seq<byte>, b: byte)
    ensures BytesBits(a + [b]) == BytesBits(a) + ByteBits(b)
  {
    BytesBitsAppend(a, [b]);
    assert BytesBits([b]) == ByteBits(b) + BytesBits([]);
  }

  /** AVR `lsr`. */
  function Lsr(r: byte): byte { r >> 1 }

  /** AVR `andi` and `ori`. */
  function Andi(r: byte, k: byte): byte { r & k }
  function Ori(r: byte, k: byte): byte { r | k }

  /** AVR `swap`: exchange the nibbles. */
  function Swap(r: byte): byte { (r >> 4) | (r << 4) }

  /** AVR `eor`. */
  function Eor(a: byte, b: byte): byte { a ^ b }

  /** AVR `ror`: shift right, the old carry entering at the top. */
  function Ror(r: byte, carry: bool): byte {
    if carry then (r >> 1) | 0x80 else r >> 1
  }

  // ---- register pairs ----------------------------------------------------

  function Lo(w: word): byte { (w & 0xff) as byte }
  function Hi(w: word): byte { (w >> 8) as byte }
  function Word(h: byte, l: byte): word { ((h as word) << 8) | (l as word) }

  function DropWord(w: word, n: nat): word
    decreases n
  {
    if n == 0 then w else DropWord(w >> 1, n - 1)
  }

  lemma {:induction false} DropWordAdd(w: word, n: nat, m: nat)
    ensures DropWord(w, n + m) == DropWord(DropWord(w, n), m)
    decreases n
  {
    if n > 0 { DropWordAdd(w >> 1, n - 1, m); }
  }

  lemma DropWordEight(w: word)
    ensures DropWord(w, 7) == w >> 7 && DropWord(w, 8) == w >> 8
  {
  }

  lemma PairShiftOdd(h: byte, l: byte)
    requires Bit0(h)
    ensures Word(h >> 1, Ror(l, true)) == Word(h, l) >> 1
  {
  }

  lemma PairShiftEven(h: byte, l: byte)
    requires !Bit0(h)
    ensures Word(h >> 1, Ror(l, false)) == Word(h, l) >> 1
  {
  }

  /** Bits shifted out of one register and into another are one 16-bit shift. */
  function ShiftIn(r: byte, bits: seq<bool>): byte
    decreases bits
  {
    if bits == [] then r else ShiftIn(Ror(r, bits[0]), bits[1..])
  }

  lemma {:induction false} ShiftInIsShift(r: byte, b: byte, n: nat)
    ensures ShiftIn(r, LowBits(b, n)) == Lo(DropWord(Word(b, r), n))
    decreases n
  {
    hide Word, Ror, Lo, Hi;
    if n == 0 {
      LoHi(b, r);
    } else {
      if Bit0(b) { PairShiftOdd(b, r); } else { PairShiftEven(b, r); }
      ShiftInIsShift(Ror(r, Bit0(b)), b >> 1, n - 1);
      assert LowBits(b, n)[1..] == LowBits(b >> 1, n - 1);
    }
  }

  lemma LoHi(h: byte, l: byte)
    ensures Lo(Word(h, l)) == l && Hi(Word(h, l)) == h
  {
  }

  lemma HighMovesDown(h: byte, l: byte)
    ensures Lo(Word(h, l) >> 8) == h
  {
  }

  /** A register that has taken in the eight bits of b holds b. */
  lemma ShiftInByte(r: byte, b: byte)
    ensures ShiftIn(r, ByteBits(b)) == b
  {
    hide Word, Lo, DropWord, ShiftIn, LowBits;
    ShiftInIsShift(r, b, 8);
    DropWordEight(Word(b, r));
    HighMovesDown(b, r);
  }
}
