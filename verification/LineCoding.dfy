/** What a low-speed packet looks like on the line: bit stuffing (USB 2.0,
    section 7.1.9) and NRZI (section 7.1.8), and how the port shows it. */
module LineCoding {
  import opened Bits

  datatype Level = J | K | SE0 {
    function Other(): Level {
      match this
      case J => K
      case K => J
      case SE0 => SE0
    }
  }

  // ---- bit stuffing ------------------------------------------------------

  /** After six ones in a row a zero is inserted, even behind the last bit;
      `ones` of the six have already been sent. */
  function Stuff(ones: nat, bits: seq<bool>): (r: seq<bool>)
    requires ones < 6
    decreases bits
  {
    if bits == [] then []
    else if !bits[0] then [false] + Stuff(0, bits[1..])
    else if ones == 5 then [true, false] + Stuff(0, bits[1..])
    else [true] + Stuff(ones + 1, bits[1..])
  }

  datatype Unstuffed = Data(bits: seq<bool>) | StuffError

  /** The receiver's side; a one where the zero was due is an error. */
  function Unstuff(ones: nat, bits: seq<bool>): Unstuffed
    requires ones < 6
    decreases bits
  {
    if bits == [] then Data([])
    else if !bits[0] then Prepend(false, Unstuff(0, bits[1..]))
    else if ones < 5 then Prepend(true, Unstuff(ones + 1, bits[1..]))
    else if |bits| == 1 || bits[1] then StuffError
    else Prepend(true, Unstuff(0, bits[2..]))
  }

  function Prepend(bit: bool, u: Unstuffed): Unstuffed {
    match u
    case Data(bits) => Data([bit] + bits)
    case StuffError => StuffError
  }

  lemma {:induction false} UnstuffUndoesStuff(ones: nat, bits: seq<bool>)
    requires ones < 6
    ensures Unstuff(ones, Stuff(ones, bits)) == Data(bits)
    decreases bits
  {
    if bits != [] {
      var s := Stuff(ones, bits);
      if !bits[0] {
        UnstuffUndoesStuff(0, bits[1..]);
        assert s[1..] == Stuff(0, bits[1..]);
      } else if ones == 5 {
        UnstuffUndoesStuff(0, bits[1..]);
        assert s[2..] == Stuff(0, bits[1..]);
      } else {
        UnstuffUndoesStuff(ones + 1, bits[1..]);
        assert s[1..] == Stuff(ones + 1, bits[1..]);
      }
      assert bits == [bits[0]] + bits[1..];
    }
  }

  /** Every string of line bits the receiver takes is the stuffing of what it
      reads from it: there is exactly one way to send a packet. */
  lemma {:induction false} StuffUndoesUnstuff(ones: nat, line: seq<bool>)
    requires ones < 6 && Unstuff(ones, line).Data?
    ensures Stuff(ones, Unstuff(ones, line).bits) == line
    decreases line
  {
    if line != [] {
      var bits := Unstuff(ones, line).bits;
      if !line[0] {
        StuffUndoesUnstuff(0, line[1..]);
        assert bits[1..] == Unstuff(0, line[1..]).bits;
      } else if ones < 5 {
        StuffUndoesUnstuff(ones + 1, line[1..]);
        assert bits[1..] == Unstuff(ones + 1, line[1..]).bits;
      } else {
        StuffUndoesUnstuff(0, line[2..]);
        assert bits[1..] == Unstuff(0, line[2..]).bits;
        assert line == [line[0], line[1]] + line[2..];
      }
    }
  }

  /** No run of ones, counting the `ones` that came before, is longer than six. */
  predicate RunsBounded(ones: nat, bits: seq<bool>)
    decreases bits
  {
    ones <= 6 && (bits == [] || RunsBounded(if bits[0] then ones + 1 else 0, bits[1..]))
  }

  lemma {:induction false} StuffBoundsRuns(ones: nat, bits: seq<bool>)
    requires ones < 6
    ensures RunsBounded(ones, Stuff(ones, bits))
    decreases bits
  {
    if bits != [] {
      var s := Stuff(ones, bits);
      if !bits[0] {
        StuffBoundsRuns(0, bits[1..]);
        assert s[1..] == Stuff(0, bits[1..]);
      } else if ones == 5 {
        StuffBoundsRuns(0, bits[1..]);
        assert s[1..] == [false] + Stuff(0, bits[1..]);
        assert s[1..][1..] == Stuff(0, bits[1..]);
      } else {
        StuffBoundsRuns(ones + 1, bits[1..]);
        assert s[1..] == Stuff(ones + 1, bits[1..]);
      }
    }
  }

  lemma {:induction false} StuffAppend(ones: nat, a: seq<bool>, b: seq<bool>)
    requires ones < 6
    ensures Stuff(ones, a + b) == Stuff(ones, a) + Stuff(OnesAfter(ones, a), b)
    decreases a
  {
    if a == [] {
      assert a + b == b;
    } else {
      assert (a + b)[1..] == a[1..] + b;
      StuffAppend(NextOnes(ones, a[0]), a[1..], b);
    }
  }

  function NextOnes(ones: nat, bit: bool): (r: nat)
    requires ones < 6
    ensures r < 6
  {
    if bit && ones < 5 then ones + 1 else 0
  }

  function OnesAfter(ones: nat, bits: seq<bool>): (r: nat)
    requires ones < 6
    ensures r < 6
    decreases bits
  {
    if bits == [] then ones else OnesAfter(NextOnes(ones, bits[0]), bits[1..])
  }

  // ---- NRZI --------------------------------------------------------------

  /** A zero toggles the line, a one leaves it as it is. */
  function Nrzi(from: Level, bits: seq<bool>): (r: seq<Level>)
    ensures |r| == |bits|
    decreases bits
  {
    if bits == [] then []
    else
      var l := if bits[0] then from else from.Other();
      [l] + Nrzi(l, bits[1..])
  }

  function Denrzi(from: Level, levels: seq<Level>): (r: seq<bool>)
    ensures |r| == |levels|
    decreases levels
  {
    if levels == [] then [] else [levels[0] == from] + Denrzi(levels[0], levels[1..])
  }

  lemma {:induction false} DenrziUndoesNrzi(from: Level, bits: seq<bool>)
    requires from != SE0
    ensures Denrzi(from, Nrzi(from, bits)) == bits
    decreases bits
  {
    if bits != [] {
      var l := if bits[0] then from else from.Other();
      DenrziUndoesNrzi(l, bits[1..]);
      assert Nrzi(from, bits)[1..] == Nrzi(l, bits[1..]);
    }
  }

  lemma {:induction false} NrziAppend(from: Level, a: seq<bool>, b: seq<bool>)
    requires from != SE0
    ensures Nrzi(from, a + b) == Nrzi(from, a) + Nrzi(LevelAfter(from, a), b)
    decreases a
  {
    if a == [] {
      assert a + b == b;
    } else {
      assert (a + b)[1..] == a[1..] + b;
      NrziAppend(if a[0] then from else from.Other(), a[1..], b);
    }
  }

  function LevelAfter(from: Level, bits: seq<bool>): (r: Level)
    requires from != SE0
    ensures r != SE0
    decreases bits
  {
    if bits == [] then from
    else LevelAfter(if bits[0] then from else from.Other(), bits[1..])
  }

  // ---- a packet on the line ----------------------------------------------

  /** The eight bits of the sync pattern: the byte 0x80. */
  function SyncBits(): seq<bool> { [false, false, false, false, false, false, false, true] }

  /** From an idle bus: sync pattern, bytes, end of packet, idle again
      (sections 7.1.10 and 7.1.13.2). */
  function PacketLevels(bytes: seq<byte>): seq<Level> {
    Nrzi(J, Stuff(0, SyncBits() + BytesBits(bytes))) + [SE0, SE0, J]
  }

  /** What follows the sync pattern, whose last bit, a one, counts for stuffing. */
  function BodyLevels(bytes: seq<byte>): seq<Level> {
    Nrzi(K, Stuff(1, BytesBits(bytes))) + [SE0, SE0]
  }

  lemma PacketIsSyncAndBody(bytes: seq<byte>)
    ensures PacketLevels(bytes) == [K, J, K, J, K, J, K, K] + BodyLevels(bytes) + [J]
  {
    hide Nrzi, Stuff, SyncBits, OnesAfter, LevelAfter;
    var bits := BytesBits(bytes);
    StuffAppend(0, SyncBits(), bits);
    SyncOnLine();
    NrziAppend(J, SyncBits(), Stuff(1, bits));
  }

  lemma SyncOnLine()
    ensures Stuff(0, SyncBits()) == SyncBits() && OnesAfter(0, SyncBits()) == 1
    ensures Nrzi(J, SyncBits()) == [K, J, K, J, K, J, K, K] && LevelAfter(J, SyncBits()) == K
  {
    assert Stuff(0, [true]) == [true];
    assert SyncBits()[1..] == [false, false, false, false, false, false, true];
    assert SyncBits()[1..][1..] == [false, false, false, false, false, true];
    assert SyncBits()[1..][1..][1..] == [false, false, false, false, true];
    assert SyncBits()[1..][1..][1..][1..] == [false, false, false, true];
    assert SyncBits()[1..][1..][1..][1..][1..] == [false, false, true];
    assert SyncBits()[1..][1..][1..][1..][1..][1..] == [false, true];
  }

  // ---- how long the line can rest ----------------------------------------

  lemma {:induction false} RunsInside(ones: nat, bits: seq<bool>, i: nat) returns (before: nat)
    requires RunsBounded(ones, bits) && i <= |bits|
    ensures RunsBounded(before, bits[i..])
    decreases i
  {
    if i == 0 {
      assert bits[0..] == bits;
      before := ones;
    } else {
      before := RunsInside(if bits[0] then ones + 1 else 0, bits[1..], i - 1);
      assert bits[1..][i - 1..] == bits[i..];
    }
  }

  lemma {:induction false} RunsStop(ones: nat, bits: seq<bool>, n: nat)
    requires RunsBounded(ones, bits) && n <= |bits| && forall j :: 0 <= j < n ==> bits[j]
    ensures ones + n <= 6
    decreases n
  {
    if n > 0 { RunsStop(ones + 1, bits[1..], n - 1); }
  }

  lemma {:induction false} EqualLevelsAreOnes(from: Level, bits: seq<bool>, i: nat)
    requires from != SE0 && i + 1 < |bits|
    ensures Nrzi(from, bits)[i] == Nrzi(from, bits)[i + 1] <==> bits[i + 1]
    decreases i
  {
    var l := if bits[0] then from else from.Other();
    var rest := Nrzi(l, bits[1..]);
    assert Nrzi(from, bits) == [l] + rest;
    if i == 0 {
      assert rest[0] == if bits[1..][0] then l else l.Other();
    } else {
      EqualLevelsAreOnes(l, bits[1..], i - 1);
    }
  }

  lemma {:induction false} DataLevels(from: Level, bits: seq<bool>, i: nat)
    requires from != SE0 && i < |bits|
    ensures Nrzi(from, bits)[i] != SE0
    decreases i
  {
    var l := if bits[0] then from else from.Other();
    assert Nrzi(from, bits) == [l] + Nrzi(l, bits[1..]);
    if i > 0 { DataLevels(l, bits[1..], i - 1); }
  }

  /** The n levels from i on are all the same. */
  ghost predicate Rests(levels: seq<Level>, i: nat, n: nat) {
    i + n <= |levels| && forall j :: i < j < i + n ==> levels[j] == levels[j - 1]
  }

  /** Bit stuffing keeps the line moving: whatever the bytes, no eight successive
      levels of a packet are equal. */
  lemma EightLevelsMove(bytes: seq<byte>, i: nat)
    ensures !Rests(PacketLevels(bytes), i, 8)
  {
    hide Nrzi, Stuff;
    var bits := SyncBits() + BytesBits(bytes);
    var line := Stuff(0, bits);
    var levels := Nrzi(J, line);
    var whole := PacketLevels(bytes);
    if i + 8 > |levels| && i + 8 <= |whole| {
      var last := |levels| - 1;
      DataLevels(J, line, last);
      assert whole[last + 1] != whole[last];
    } else if Rests(whole, i, 8) {
      forall k | i < k < i + 8 ensures line[k] {
        assert whole[k] == levels[k] && whole[k - 1] == levels[k - 1];
        EqualLevelsAreOnes(J, line, k - 1);
      }
      StuffBoundsRuns(0, bits);
      var before := RunsInside(0, line, i + 1);
      RunsStop(before, line[i + 1..], 7);
      assert false;
    }
  }

  lemma {:induction false} StuffGrows(ones: nat, bits: seq<bool>)
    requires ones < 6
    ensures |Stuff(ones, bits)| >= |bits|
    decreases bits
  {
    if bits != [] {
      if bits[0] && ones < 5 { StuffGrows(ones + 1, bits[1..]); } else { StuffGrows(0, bits[1..]); }
    }
  }

  ghost predicate SixOnes(bits: seq<bool>, i: nat) { i + 6 <= |bits| && forall j :: i <= j < i + 6 ==> bits[j] }

  lemma PlainStep(ones: nat, bits: seq<bool>)
    requires ones < 6 && bits != [] && Stuff(ones, bits) == bits
    ensures bits[0] ==> ones < 5
    ensures Stuff(NextOnes(ones, bits[0]), bits[1..]) == bits[1..]
  {
    if bits[0] && ones == 5 {
      StuffGrows(0, bits[1..]);
      assert false;
    }
    assert Stuff(ones, bits)[1..] == Stuff(NextOnes(ones, bits[0]), bits[1..]);
  }

  lemma {:induction false} PlainPrefix(ones: nat, bits: seq<bool>, n: nat)
    requires ones < 6 && Stuff(ones, bits) == bits && n <= |bits| && forall j :: 0 <= j < n ==> bits[j]
    ensures ones + n <= 5
    decreases n
  {
    if n > 0 {
      PlainStep(ones, bits);
      PlainPrefix(ones + 1, bits[1..], n - 1);
    }
  }

  /** Bits that need no stuffing have no six ones in a row ... */
  lemma {:induction false} PlainHasNoSix(ones: nat, bits: seq<bool>, i: nat)
    requires ones < 6 && Stuff(ones, bits) == bits
    ensures !SixOnes(bits, i)
    decreases i
  {
    if SixOnes(bits, i) {
      if i == 0 {
        PlainPrefix(ones, bits, 6);
      } else {
        PlainStep(ones, bits);
        PlainHasNoSix(NextOnes(ones, bits[0]), bits[1..], i - 1);
        assert forall j :: i - 1 <= j < i + 5 ==> bits[1..][j] == bits[j + 1];
      }
    }
  }

  /** ... and bits that do still have them when stuffed; -k of them, if k is negative,
      were sent before. */
  lemma {:induction false} StuffedHasSix(ones: nat, bits: seq<bool>) returns (k: int)
    requires ones < 6 && Stuff(ones, bits) != bits
    ensures 0 <= ones + k && k + 6 <= |Stuff(ones, bits)| && forall j: nat :: k <= j < k + 6 ==> Stuff(ones, bits)[j]
    decreases bits
  {
    var line := Stuff(ones, bits);
    assert bits == [bits[0]] + bits[1..];
    if bits[0] && ones == 5 {
      k := -5;
    } else {
      var next := NextOnes(ones, bits[0]);
      assert line == [bits[0]] + Stuff(next, bits[1..]);
      var later := StuffedHasSix(next, bits[1..]);
      k := later + 1;
    }
  }

  lemma SyncStart(bits: seq<bool>)
    ensures Stuff(0, SyncBits() + bits) != [] && !Stuff(0, SyncBits() + bits)[0]
  {
  }

  /** The level before six ones counts too: seven equal levels occur, and they occur
      exactly where a bit has been stuffed. */
  lemma SevenLevelsRest(bytes: seq<byte>)
    ensures (exists i: nat :: Rests(PacketLevels(bytes), i, 7)) <==>
            Stuff(0, SyncBits() + BytesBits(bytes)) != SyncBits() + BytesBits(bytes)
  {
    hide Nrzi, Stuff, SyncBits;
    var bits := SyncBits() + BytesBits(bytes);
    var line := Stuff(0, bits);
    if line != bits {
      var k := StuffedHasSix(0, bits);
      SyncStart(BytesBits(bytes));
      assert k != 0;
      forall j | k - 1 < j < k + 6 ensures PacketLevels(bytes)[j] == PacketLevels(bytes)[j - 1] {
        EqualLevelsAreOnes(J, line, j - 1);
      }
      assert Rests(PacketLevels(bytes), k - 1, 7);
    } else {
      forall i: nat ensures !Rests(PacketLevels(bytes), i, 7) { PlainMoves(bytes, i); }
    }
  }

  lemma PlainMoves(bytes: seq<byte>, i: nat)
    requires Stuff(0, SyncBits() + BytesBits(bytes)) == SyncBits() + BytesBits(bytes)
    ensures !Rests(PacketLevels(bytes), i, 7)
  {
    hide Nrzi, Stuff, SyncBits;
    var line := SyncBits() + BytesBits(bytes);
    var levels, whole := Nrzi(J, line), PacketLevels(bytes);
    if i + 7 > |levels| && i + 7 <= |whole| {
      var last := |levels| - 1;
      DataLevels(J, line, last);
      assert whole[last + 1] != whole[last];
    } else if Rests(whole, i, 7) {
      forall k | i < k < i + 7 ensures line[k] {
        assert whole[k] == levels[k] && whole[k - 1] == levels[k - 1];
        EqualLevelsAreOnes(J, line, k - 1);
      }
      assert SixOnes(line, i + 1);
      PlainHasNoSix(0, line, i + 1);
    }
  }

  lemma OnesBits(k: nat)
    requires k < 8
    ensures ByteBits(0xff)[k]
  {
    assert LowBits(0x03, 2) == [true, true];
    assert LowBits(0x0f, 4) == [true, true, true, true];
    assert LowBits(0x3f, 6) == [true, true, true, true, true, true];
    assert ByteBits(0xff) == [true, true, true, true, true, true, true, true];
  }

  /** In every packet with a byte 0xff behind its PID, for one. */
  lemma FullByteRests(bytes: seq<byte>, n: nat)
    requires n < |bytes| && bytes[n] == 0xff
    ensures exists i: nat :: Rests(PacketLevels(bytes), i, 7)
  {
    hide Nrzi, Stuff, PacketLevels, ByteBits, Rests;
    SevenLevelsRest(bytes);
    var bits, before := SyncBits() + BytesBits(bytes), BytesBits(bytes[..n]);
    BytesBitsAppend(bytes[..n], bytes[n..]);
    assert bytes[..n] + bytes[n..] == bytes;
    forall j | 8 + |before| <= j < 14 + |before| ensures bits[j] {
      OnesBits(j - 8 - |before|);
      assert BytesBits(bytes[n..]) == ByteBits(0xff) + BytesBits(bytes[n..][1..]);
    }
    assert SixOnes(bits, 8 + |before|);
    if Stuff(0, bits) == bits { PlainHasNoSix(0, bits, 8 + |before|); }
  }
}
