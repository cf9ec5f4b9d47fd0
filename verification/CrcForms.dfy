/** The firmware's CRC routines, register by register. Registers that hold bits
    are bytes; registers that count are numbers with the wrap-around written out. */
module CrcForms {
  import opened Bits
  import opened Crc16
  import opened CrcTables

  // ---- the small form (usbdrvasm.S) --------------------------------------

  /** The complemented register shifted right with a one entering at the top. */
  function ShiftInOne(w: word): word { 0x8000 | (w >> 1) }

  lemma FeedLow(h: byte, l: byte, b: byte)
    ensures Word(h, Eor(l, b)) == Xor(Word(h, l), b as word)
  {
  }

  lemma RorPair(h: byte, l: byte)
    ensures Word(Ror(h, true), Ror(l, Bit0(h))) == ShiftInOne(Word(h, l))
  {
    hide Word, Ror, ShiftInOne;
    if Bit0(h) { RorOdd(h, l); } else { RorEven(h, l); }
  }

  lemma RorOdd(h: byte, l: byte)
    requires Bit0(h)
    ensures Word(Ror(h, true), Ror(l, true)) == ShiftInOne(Word(h, l))
  {
  }

  lemma RorEven(h: byte, l: byte)
    requires !Bit0(h)
    ensures Word(Ror(h, true), Ror(l, false)) == ShiftInOne(Word(h, l))
  {
  }

  lemma LowBit(h: byte, l: byte)
    ensures Bit0(l) <==> Word(h, l) & 1 != 0
  {
  }

  lemma ComplementLow(w: word)
    ensures Complement(w) & 1 == 0 <==> w & 1 != 0
  {
  }

  lemma ComplementXor(w: word, v: word)
    ensures Complement(Xor(w, v)) == Xor(Complement(w), v)
  {
  }

  lemma ComplementShift(w: word)
    ensures Complement(ShiftInOne(w)) == Complement(w) >> 1
  {
  }

  lemma XorPoly(h: byte, l: byte)
    ensures Word(Eor(h, 0xa0), Eor(l, 0x01)) == Xor(Word(h, l), 0xa001)
  {
    hide Word, Xor;
    XorPolyBits(h, l);
  }

  lemma XorPolyBits(h: byte, l: byte)
    ensures Word(h ^ 0xa0, l ^ 0x01) == Xor(Word(h, l), 0xa001)
  {
  }

  lemma RoundKeeps(w: word)
    requires w & 1 != 0
    ensures Complement(ShiftInOne(w)) == Divide(Complement(w))
  {
    hide Divide;
    ComplementLow(w);
    ComplementShift(w);
    DivideEven(Complement(w));
  }

  lemma RoundSubtracts(w: word)
    requires w & 1 == 0
    ensures Complement(Xor(ShiftInOne(w), 0xa001)) == Divide(Complement(w))
  {
    hide Divide, ShiftInOne, Complement;
    ComplementLow(w);
    ComplementShift(w);
    ComplementXor(ShiftInOne(w), 0xa001);
    DivideOdd(Complement(w));
  }

  /** One round on the complemented register: a one entering at the top is a zero
      of the true register, a one leaving at the bottom calls for no subtraction. */
  lemma SmallRound(h: byte, l: byte) returns (h': byte, l': byte)
    ensures h' == Ror(h, true) && l' == Ror(l, Bit0(h))
    ensures Bit0(l) ==> Complement(Word(h', l')) == Divide(Complement(Word(h, l)))
    ensures !Bit0(l) ==>
      Complement(Word(Eor(h', 0xa0), Eor(l', 0x01))) == Divide(Complement(Word(h, l)))
  {
    hide Word, Ror, Eor, Divide, Bit0, ShiftInOne, Complement, Xor;
    h', l' := Ror(h, true), Ror(l, Bit0(h));
    RorPair(h, l);
    LowBit(h, l);
    if Bit0(l) {
      RoundKeeps(Word(h, l));
    } else {
      XorPoly(h', l');
      RoundSubtracts(Word(h, l));
    }
  }

  /** The register after i bytes of a message. */
  ghost function After(bytes: seq<byte>, i: nat): word
    requires i <= |bytes|
  {
    Crc(0xffff, BytesBits(bytes[..i]))
  }

  lemma AfterNext(bytes: seq<byte>, i: nat)
    requires i < |bytes|
    ensures After(bytes, i + 1) == DivideN(Xor(After(bytes, i), bytes[i] as word), 8)
    ensures After(bytes, i + 1) == ShiftByte(After(bytes, i), bytes[i])
  {
    hide DivideN, Xor, Crc, BytesBits, LowBits, ShiftByte;
    Prefix(bytes, i);
    BytesBitsSnoc(bytes[..i], bytes[i]);
    CrcAppend(0xffff, BytesBits(bytes[..i]), ByteBits(bytes[i]));
    CrcByteDivides(After(bytes, i), bytes[i]);
    CrcByte(After(bytes, i), bytes[i]);
  }

  lemma Prefix<T>(s: seq<T>, i: nat)
    requires i < |s|
    ensures s[..i + 1] == s[..i] + [s[i]]
  {
  }

  lemma StartRegister(bytes: seq<byte>)
    ensures After(bytes, 0) == Complement(Word(0, 0))
    ensures After(bytes, 0) == Word(0xff, 0xff) == 0xffff
  {
    assert bytes[..0] == [];
  }

  method {:induction false} UsbCrc16Small(buf: array<byte>, ptr: nat, len: nat)
    returns (resCrcL: byte, resCrcH: byte)
    requires len < 256 && ptr + len <= buf.Length
    ensures Word(resCrcH, resCrcL) == CheckWord(buf[ptr..ptr + len])
  {
    hide Word, Ror, Eor, Divide, Bit0, Complement, Xor, Crc, BytesBits, After, DivideN, LowBits, ShiftByte;
    ghost var bytes := buf[ptr..ptr + len];
    var i := 0;
    resCrcL, resCrcH := 0, 0;
    var argLen := 255 - len;              // com argLen
    var bitCnt := 0;
    StartRegister(bytes);
    var carry := argLen < 255;            // subi argLen, -1
    argLen := (argLen + 1) % 256;
    while carry
      invariant i <= len && bitCnt == 0
      invariant argLen == (256 - len + i) % 256 && carry == (i < len)
      invariant Complement(Word(resCrcH, resCrcL)) == After(bytes, i)
      decreases len - i
    {
      FeedLow(resCrcH, resCrcL, buf[ptr + i]);
      ComplementXor(Word(resCrcH, resCrcL), buf[ptr + i] as word);
      AfterNext(bytes, i);
      resCrcL := Eor(resCrcL, buf[ptr + i]);
      i := i + 1;
      ghost var rounds := 0;
      while carry
        invariant rounds <= 8 && bitCnt == (32 * rounds) % 256 && carry == (rounds < 8)
        invariant DivideN(Complement(Word(resCrcH, resCrcL)), 8 - rounds) == After(bytes, i)
        decreases 8 - rounds
      {
        var h', l' := SmallRound(resCrcH, resCrcL);
        DivideNext(Complement(Word(resCrcH, resCrcL)), 8 - rounds);
        var out := Bit0(resCrcH);
        resCrcH := Ror(resCrcH, carry);
        carry := out;
        out := Bit0(resCrcL);
        resCrcL := Ror(resCrcL, carry);
        carry := out;
        if !carry {
          resCrcL, resCrcH := Eor(resCrcL, 0x01), Eor(resCrcH, 0xa0);
        }
        carry := bitCnt < 224;            // subi bitCnt, 224
        bitCnt := (bitCnt + 32) % 256;
        rounds := rounds + 1;
      }
      DivideNone(Complement(Word(resCrcH, resCrcL)));
      carry := argLen < 255;
      argLen := (argLen + 1) % 256;
    }
    Whole(bytes);
    ComplementTwice(Word(resCrcH, resCrcL));
  }

  lemma Whole(bytes: seq<byte>)
    ensures CheckWord(bytes) == Complement(After(bytes, |bytes|))
    ensures After(bytes, |bytes|) == Crc(0xffff, BytesBits(bytes))
  {
    assert bytes[..|bytes|] == bytes;
  }

  lemma ComplementTwice(w: word)
    ensures Complement(Complement(w)) == w
  {
  }

  lemma DivideNext(w: word, n: nat)
    requires n > 0
    ensures DivideN(w, n) == DivideN(Divide(w), n - 1)
  {
    hide Divide;
  }

  lemma DivideNone(w: word)
    ensures DivideN(w, 0) == w
  {
  }

  // ---- the fast form (usbdrvasm.S) ---------------------------------------

  /** The parity of x, as the fast form folds it into bit 0. */
  function FoldedParity(x: byte): byte {
    var t := Swap(x) ^ x;
    (((t ^ (t >> 2)) + 1) >> 1) & 1
  }

  function ParityOf(x: byte): byte {
    (x ^ (x >> 1) ^ (x >> 2) ^ (x >> 3) ^ (x >> 4) ^ (x >> 5) ^ (x >> 6) ^ (x >> 7)) & 1
  }

  lemma FoldedParityIs(x: byte)
    ensures FoldedParity(x) == ParityOf(x)
  {
  }

  /** `table(x)` of the C pseudo-code. */
  function TableClosed(x: byte, parity: byte): word {
    ((x as word) << 6) ^ ((x as word) << 7) ^ (0xc001 & (0 - (parity as word)))
  }

  lemma TableClosedForm(x: byte)
    ensures Shift8(x as word) == TableClosed(x, ParityOf(x))
  {
  }

  function FastHigh(x: byte, p: byte): byte { ((0 - p) & 0xc0) ^ (x >> 1) ^ (x >> 2) }

  function FastLow(h: byte, x: byte, p: byte): byte {
    h ^ p ^ (x << 7) ^ (((x >> 1) << 7) | ((x << 7) >> 1))
  }

  lemma FastRegisters(h: byte, x: byte, p: byte)
    requires p & 0xfe == 0
    ensures Word(FastHigh(x, p), FastLow(h, x, p)) == Xor(TableClosed(x, p), h as word)
  {
  }

  lemma ParityIsBit(x: byte)
    ensures ParityOf(x) & 0xfe == 0
  {
  }

  lemma FastByte(h: byte, l: byte, b: byte)
    ensures var x := l ^ b; var p := FoldedParity(x);
      Word(FastHigh(x, p), FastLow(h, x, p)) == ShiftByte(Word(h, l), b)
  {
    hide Word, FastHigh, FastLow, FoldedParity, ParityOf, TableClosed, DivideN, Xor;
    var x := l ^ b;
    LoHi(h, l);
    FoldedParityIs(x);
    ParityIsBit(x);
    TableClosedForm(x);
    FastRegisters(h, x, ParityOf(x));
  }

  /** The two carries out of the shifted index, collected by `ror byte`. */
  lemma FastCarries(x: byte)
    ensures Ror(0, Bit0(x)) == x << 7
    ensures Ror(Ror(0, Bit0(x)), Bit0(Lsr(x))) == ((x >> 1) << 7) | ((x << 7) >> 1)
  {
    if Bit0(x) { if Bit0(Lsr(x)) {} else {} } else { if Bit0(Lsr(x)) {} else {} }
  }

  /** The straight-line body of the fast form's byte loop. */
  method FastUpdate(resCrcL: byte, resCrcH: byte, data: byte) returns (low: byte, high: byte)
    ensures Word(high, low) == ShiftByte(Word(resCrcH, resCrcL), data)
  {
    hide Word, ShiftByte, Ror, Bit0;
    low, high := resCrcL ^ data, resCrcH;
    var temp := Swap(low);
    temp := temp ^ low;
    var scratch := temp;
    temp := temp >> 1;
    temp := temp >> 1;
    temp := temp ^ scratch;
    temp := temp + 1;
    temp := temp >> 1;
    temp := temp & 1;
    ghost var x, p := low, temp;
    FoldedStepwise(x);
    scratch := low;
    low := high;
    low := low ^ temp;
    temp := 0 - temp;
    temp := temp & 0xc0;
    high := temp;
    temp := 0;
    FastCarries(x);
    var carry := Bit0(scratch);
    scratch := Lsr(scratch);
    temp := Ror(temp, carry);
    high := high ^ scratch;
    low := low ^ temp;
    carry := Bit0(scratch);
    scratch := Lsr(scratch);
    temp := Ror(temp, carry);
    high := high ^ scratch;
    low := low ^ temp;
    assert high == ((0 - p) & 0xc0) ^ (x >> 1) ^ ((x >> 1) >> 1);
    FastByte(resCrcH, resCrcL, data);
  }

  lemma FoldedStepwise(x: byte)
    ensures var t := Swap(x) ^ x; ((((((t >> 1) >> 1) ^ t) + 1) >> 1) & 1) == FoldedParity(x)
  {
  }

  method UsbCrc16Fast(buf: array<byte>, ptr: nat, len: nat)
    returns (resCrcL: byte, resCrcH: byte)
    requires len < 256 && ptr + len <= buf.Length
    ensures Word(resCrcH, resCrcL) == CheckWord(buf[ptr..ptr + len])
  {
    hide Word, Complement, Xor, Crc, BytesBits, After, DivideN, ShiftByte, LowBits;
    ghost var bytes := buf[ptr..ptr + len];
    var i := 0;
    resCrcL, resCrcH := 0xff, 0xff;
    StartRegister(bytes);
    var argLen := len;
    var carry := argLen < 1;              // subi argLen, 1
    argLen := (argLen + 255) % 256;
    while !carry
      invariant i <= len && argLen == (len - i + 255) % 256 && carry == (i == len)
      invariant Word(resCrcH, resCrcL) == After(bytes, i)
      decreases len - i
    {
      AfterNext(bytes, i);
      resCrcL, resCrcH := FastUpdate(resCrcL, resCrcH, buf[ptr + i]);
      i := i + 1;
      carry := argLen < 1;
      argLen := (argLen + 255) % 256;
    }
    Whole(bytes);
    ComplementPair(resCrcH, resCrcL);
    resCrcL := Com(resCrcL);
    resCrcH := Com(resCrcH);
  }

  function Com(r: byte): byte { !r }

  lemma ComplementPair(h: byte, l: byte)
    ensures Word(Com(h), Com(l)) == Complement(Word(h, l))
  {
    hide Word, Com, Complement;
    ComIsXor(h);
    ComIsXor(l);
    XorAll(h, l);
    ComplementIsXor(Word(h, l));
  }

  lemma ComIsXor(r: byte)
    ensures Com(r) == r ^ 0xff
  {
  }

  lemma ComplementIsXor(w: word)
    ensures Complement(w) == w ^ 0xffff
  {
  }

  lemma XorAll(h: byte, l: byte)
    ensures Word(h ^ 0xff, l ^ 0xff) == Word(h, l) ^ 0xffff
  {
  }

  /** Every length from 0 to 255: the routine built into the firmware writes the
      check bytes, low byte first, behind the data and touches nothing else. */
  method UsbCrc16Append(buf: array<byte>, ptr: nat, len: nat)
    requires len < 256 && ptr + len + 2 <= buf.Length
    modifies buf
    ensures buf[..] == old(buf[..ptr + len]) + CheckBytes(old(buf[ptr..ptr + len]))
                       + old(buf[ptr + len + 2..])
  {
    hide Word, CheckWord, Lo, Hi;
    var resCrcL, resCrcH := UsbCrc16Small(buf, ptr, len);
    LoHi(resCrcH, resCrcL);
    buf[ptr + len] := resCrcL;
    buf[ptr + len + 1] := resCrcH;
  }

  // ---- the table form and the pipelined checker (usbdrvasm18-crc.inc) ----

  lemma Lookup(x: byte)
    ensures Word(TableHigh(x), TableLow(x)) == Shift8(x as word)
  {
    hide Word, Lo, Hi, DivideN, TableLow, TableHigh;
    CrcTables.Entry(x);
    Rejoin(Shift8(x as word));
  }

  lemma Rejoin(w: word)
    ensures Word(Hi(w), Lo(w)) == w
  {
  }

  lemma XorByte(h: byte, l: byte, b: byte)
    ensures Word(h, Eor(l, b)) == Xor(Word(h, l), b as word)
  {
    FeedLow(h, l, b);
  }

  /** `crc = usbCrcTable16[lo8(crc) ^ msg[i]] ^ hi8(crc)` over a message. */
  method ComputeCrcTable(msg: seq<byte>) returns (crc: word)
    ensures Complement(crc) == CheckWord(msg)
  {
    hide Word, Complement, Xor, Crc, BytesBits, After, DivideN, ShiftByte, LowBits, Lo, Hi, TableHigh, TableLow;
    crc := 0xffff;
    StartRegister(msg);
    for i := 0 to |msg|
      invariant crc == After(msg, i)
    {
      AfterNext(msg, i);
      var index := Eor(Lo(crc), msg[i]);
      TableStep(crc, msg[i]);
      crc := Xor(Word(TableHigh(index), TableLow(index)), Hi(crc) as word);
    }
    Whole(msg);
  }

  lemma TableStep(crc: word, b: byte)
    ensures var index := Eor(Lo(crc), b);
      Xor(Word(TableHigh(index), TableLow(index)), Hi(crc) as word) == ShiftByte(crc, b)
  {
    hide Word, Xor, DivideN, Lo, Hi, TableHigh, TableLow;
    Lookup(Eor(Lo(crc), b));
  }

  /** The register the pipelined checker will hold once the byte waiting in zl
      has been looked up. */
  function Settled(x3: byte, zl: byte): word { Xor(Shift8(zl as word), x3 as word) }

  lemma MagicStart()
    ensures Settled(0xfe, 0x54) == 0xffff
  {
  }

  /** The lookup of bits 5 and 6 followed by the xor of bit 7 is one byte step. */
  lemma PipelineStep(x3: byte, zl: byte, b: byte)
    ensures Word(TableHigh(zl), Eor(TableLow(zl), x3)) == Settled(x3, zl)
    ensures Settled(TableHigh(zl), Eor(Eor(TableLow(zl), x3), b)) == ShiftByte(Settled(x3, zl), b)
  {
    hide Word, Xor, DivideN, TableHigh, TableLow, Lo, Hi;
    Lookup(zl);
    XorByte(TableHigh(zl), TableLow(zl), x3);
    LoHi(TableHigh(zl), Eor(TableLow(zl), x3));
  }

  /** The checker that runs along with the 18 MHz receive loop: the packet's bytes
      after its PID go in, and it accepts exactly when they end with the check
      bytes `usbCrc16Append` would have written behind the others. */
  method CheckPipelined(received: seq<byte>) returns (accept: bool)
    ensures accept <==>
      |received| >= 2 && received[|received| - 2..] == CheckBytes(received[..|received| - 2])
  {
    hide Word, Xor, Crc, BytesBits, After, DivideN, ShiftByte, LowBits, Lo, Hi,
      TableHigh, TableLow, Settled, Eor, CheckBytes;
    var zl, x3: byte := 0x54, 0xfe;
    MagicStart();
    StartRegister(received);
    for i := 0 to |received|
      invariant Settled(x3, zl) == After(received, i)
    {
      AfterNext(received, i);
      PipelineStep(x3, zl, received[i]);
      var x4 := TableHigh(zl);            // bit 5
      zl := TableLow(zl);                 // bit 6
      zl := Eor(zl, x3);
      x3 := x4;
      zl := Eor(zl, received[i]);         // bit 7
    }
    PipelineStep(x3, zl, 0);
    var x2 := TableHigh(zl);              // CRC_CLEANUP_AND_CHECK
    zl := TableLow(zl);
    zl := Eor(zl, x3);
    accept := zl == 0x01 && x2 == 0xb0;
    WordIsResidue(x2, zl);
    Whole(received);
    AcceptsExactly(received);
  }

  lemma WordIsResidue(h: byte, l: byte)
    ensures Word(h, l) == 0xb001 <==> h == 0xb0 && l == 0x01
  {
  }
}
