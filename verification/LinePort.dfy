/** The port the line is wired to, one reading per bit time, and what a receive
    loop still has in front of it. D- is bit 4, D+ bit 2; the other six bits of a
    reading belong to other pins and are arbitrary. */
module LinePort {
  import opened Bits
  import opened LineCoding

  function Code(l: Level): byte {
    match l
    case J => 0x10
    case K => 0x04
    case SE0 => 0x00
  }

  /** `andi r, USBMASK`. */
  function Masked(p: byte): byte { p & 0x14 }

  /** `bst r, USBMINUS`: the D- bit. */
  function Minus(p: byte): bool { p & 0x10 != 0 }

  /** A reading; past the end of the trace the line is taken to be at SE0. */
  function Sample(port: seq<byte>, i: nat): byte {
    if i < |port| then port[i] else 0
  }

  predicate Shows(port: seq<byte>, i: nat, levels: seq<Level>)
    decreases levels
  {
    levels == [] ||
    (Masked(Sample(port, i)) == Code(levels[0]) && Shows(port, i + 1, levels[1..]))
  }

  /** From reading i on the line carries the bits of `rest`, stuffed, then SE0 for
      two bit times; the level before was `prev` and `ones` ones precede. */
  predicate Ahead(port: seq<byte>, i: nat, prev: Level, ones: nat, rest: seq<bool>)
    requires ones < 6
  {
    prev != SE0 && Shows(port, i, Nrzi(prev, Stuff(ones, rest)) + [SE0, SE0])
  }

  function Step(prev: Level, bit: bool): Level { if bit then prev else prev.Other() }

  lemma {:induction false} ShowsAppend(port: seq<byte>, i: nat, a: seq<Level>, b: seq<Level>)
    ensures Shows(port, i, a + b) <==> Shows(port, i, a) && Shows(port, i + |a|, b)
    decreases a
  {
    hide Masked, Code;
    if a == [] {
      assert a + b == b;
    } else {
      assert (a + b)[1..] == a[1..] + b;
      ShowsAppend(port, i + 1, a[1..], b);
    }
  }

  lemma ShowsCons(port: seq<byte>, i: nat, l: Level, rest: seq<Level>)
    ensures Shows(port, i, [l] + rest) <==>
      Masked(Sample(port, i)) == Code(l) && Shows(port, i + 1, rest)
  {
    hide Masked, Code;
    assert ([l] + rest)[1..] == rest;
  }

  /** A data bit that is not the sixth one in a row. */
  lemma AheadPlain(port: seq<byte>, i: nat, prev: Level, ones: nat, rest: seq<bool>)
    requires ones < 6 && Ahead(port, i, prev, ones, rest) && rest != []
    requires !(rest[0] && ones == 5)
    ensures var l := Step(prev, rest[0]);
      && l != SE0 && Masked(Sample(port, i)) == Code(l)
      && Ahead(port, i + 1, l, NextOnes(ones, rest[0]), rest[1..])
  {
    hide Masked, Code, Shows, Nrzi;
    var l, tail := Step(prev, rest[0]), rest[1..];
    var line := Stuff(NextOnes(ones, rest[0]), tail);
    assert Stuff(ones, rest) == [rest[0]] + line;
    NrziOne(prev, rest[0], line);
    Regroup(l, Nrzi(l, line), [SE0, SE0]);
    ShowsCons(port, i, l, Nrzi(l, line) + [SE0, SE0]);
  }

  /** The sixth one, and the zero stuffed behind it. */
  lemma AheadStuffed(port: seq<byte>, i: nat, prev: Level, rest: seq<bool>)
    requires Ahead(port, i, prev, 5, rest) && rest != [] && rest[0]
    ensures Masked(Sample(port, i)) == Code(prev)
    ensures Masked(Sample(port, i + 1)) == Code(prev.Other())
    ensures Ahead(port, i + 2, prev.Other(), 0, rest[1..])
  {
    hide Masked, Code, Shows, Nrzi;
    var m, line := prev.Other(), Stuff(0, rest[1..]);
    assert Stuff(5, rest) == [true] + ([false] + line);
    NrziTwo(prev, true, false, line);
    Regroup(prev, [m] + Nrzi(m, line), [SE0, SE0]);
    Regroup(m, Nrzi(m, line), [SE0, SE0]);
    ShowsCons(port, i, prev, [m] + (Nrzi(m, line) + [SE0, SE0]));
    ShowsCons(port, i + 1, m, Nrzi(m, line) + [SE0, SE0]);
  }

  lemma Regroup<T>(x: T, a: seq<T>, b: seq<T>)
    ensures ([x] + a) + b == [x] + (a + b)
  {
  }

  lemma NrziOne(prev: Level, bit: bool, rest: seq<bool>)
    ensures Nrzi(prev, [bit] + rest) == [Step(prev, bit)] + Nrzi(Step(prev, bit), rest)
  {
    assert ([bit] + rest)[1..] == rest;
  }

  lemma NrziTwo(prev: Level, a: bool, b: bool, rest: seq<bool>)
    ensures var l := Step(prev, a); var m := Step(l, b);
      Nrzi(prev, [a] + ([b] + rest)) == [l] + ([m] + Nrzi(m, rest))
  {
    NrziOne(prev, a, [b] + rest);
    NrziOne(Step(prev, a), b, rest);
  }

  lemma AheadEnd(port: seq<byte>, i: nat, prev: Level, ones: nat)
    requires ones < 6 && Ahead(port, i, prev, ones, [])
    ensures Masked(Sample(port, i)) == 0 && Masked(Sample(port, i + 1)) == 0
  {
    hide Masked;
    assert Nrzi(prev, Stuff(ones, [])) + [SE0, SE0] == [SE0, SE0];
    assert [SE0, SE0][1..] == [SE0];
    assert Shows(port, i + 1, [SE0]);
  }
}
