/** The display controller as far as its memory goes: page addressing, in which data
    goes to one page and the column wraps, and the display offset. */
module Ssd1306 {

  /** Eight pages of 128 columns; a byte is eight dots of one column. */
  datatype Panel = Panel(ram: seq<seq<nat>>, page: nat, col: nat, offset: nat) {
    predicate Valid() {
      |ram| == 8 && (forall p :: 0 <= p < 8 ==> |ram[p]| == 128) && page < 8 && col < 128 && offset < 64
    }

    /** The page shown as the i-th line of the display. */
    function Shown(i: nat): seq<nat>
      requires Valid()
    {
      ram[(i + offset / 8) % 8]
    }
  }

  /** Commands followed by an argument byte. */
  predicate TakesArgument(c: nat) {
    c == 0xd5 || c == 0xa8 || c == 0xd3 || c == 0x8d || c == 0x20 || c == 0xda || c == 0x81 || c == 0xd9 || c == 0xdb
  }

  function One(p: Panel, c: nat): Panel {
    if c < 0x10 then p.(col := p.col / 16 * 16 + c)
    else if c < 0x18 then p.(col := (c - 0x10) * 16 + p.col % 16)
    else if 0xb0 <= c < 0xb8 then p.(page := c - 0xb0)
    else p
  }

  function Two(p: Panel, c: nat, argument: nat): Panel {
    if c == 0xd3 then p.(offset := argument % 64) else p
  }

  function Commands(p: Panel, cs: seq<nat>): Panel
    decreases cs
  {
    if cs == [] then p
    else if !TakesArgument(cs[0]) then Commands(One(p, cs[0]), cs[1..])
    else if |cs| == 1 then p
    else Commands(Two(p, cs[0], cs[1]), cs[2..])
  }

  function Datum(p: Panel, d: nat): Panel
    requires p.Valid()
  {
    var row: seq<nat> := p.ram[p.page];
    var written: seq<nat> := row[p.col := d];
    p.(ram := p.ram[p.page := written], col := (p.col + 1) % 128)
  }

  function Data(p: Panel, ds: seq<nat>): Panel
    requires p.Valid()
    decreases ds
  {
    if ds == [] then p else Data(Datum(p, ds[0]), ds[1..])
  }

  const ADDRESS := 0x78
  const COMMAND := 0x00
  const DATA := 0x40

  /** A frame: the address, the mode, and commands or data. Others are ignored. */
  function Frame(p: Panel, f: seq<nat>): Panel
    requires p.Valid()
  {
    if |f| < 2 || f[0] != ADDRESS then p
    else if f[1] == COMMAND then Commands(p, f[2..])
    else if f[1] == DATA then Data(p, f[2..])
    else p
  }

  lemma {:induction false} CommandsValid(p: Panel, cs: seq<nat>)
    requires p.Valid()
    ensures Commands(p, cs).Valid() && Commands(p, cs).ram == p.ram
    decreases cs
  {
    if cs != [] {
      if !TakesArgument(cs[0]) {
        CommandsValid(One(p, cs[0]), cs[1..]);
      } else if |cs| > 1 {
        CommandsValid(Two(p, cs[0], cs[1]), cs[2..]);
      }
    }
  }

  lemma {:induction false} DataValid(p: Panel, ds: seq<nat>)
    requires p.Valid()
    ensures Data(p, ds).Valid()
    decreases ds
  {
    if ds != [] { DataValid(Datum(p, ds[0]), ds[1..]); }
  }

  function Frames(p: Panel, fs: seq<seq<nat>>): (q: Panel)
    requires p.Valid()
    ensures q.Valid()
  {
    if fs == [] then p
    else
      var before, f := Frames(p, fs[..|fs| - 1]), fs[|fs| - 1];
      FrameValid(before, f); Frame(before, f)
  }

  lemma FrameValid(p: Panel, f: seq<nat>)
    requires p.Valid()
    ensures Frame(p, f).Valid()
  {
    if |f| >= 2 {
      CommandsValid(p, f[2..]);
      DataValid(p, f[2..]);
    }
  }

  lemma FramesOne(p: Panel, fs: seq<seq<nat>>, f: seq<nat>)
    requires p.Valid()
    ensures Frames(p, fs + [f]) == Frame(Frames(p, fs), f)
  {
    assert (fs + [f])[..|fs|] == fs;
  }

  // ---- the frames the driver sends -----------------------------------------

  function Overwritten(row: seq<nat>, col: nat, ds: seq<nat>): (r: seq<nat>)
    requires col + |ds| <= |row|
    ensures |r| == |row|
  {
    row[..col] + ds + row[col + |ds|..]
  }

  /** Data that fits on the line lands there in order and nowhere else. */
  lemma {:induction false} DataFits(p: Panel, ds: seq<nat>)
    requires p.Valid() && p.col + |ds| <= 128
    ensures Data(p, ds) == p.(ram := p.ram[p.page := Overwritten(p.ram[p.page], p.col, ds)], col := (p.col + |ds|) % 128)
    decreases ds
  {
    hide Overwritten;
    var row := p.ram[p.page];
    if ds == [] {
      OverwriteNothing(row, p.col);
      assert ds == [] && Overwritten(row, p.col, ds) == row;
      assert p.ram[p.page := row] == p.ram;
    } else {
      var q := Datum(p, ds[0]);
      OverwriteStep(row, p.col, ds);
      if |ds| == 1 {
        OverwriteNothing(row[p.col := ds[0]], p.col + 1);
      } else {
        DataFits(q, ds[1..]);
        assert q.ram[p.page := Overwritten(row, p.col, ds)] == p.ram[p.page := Overwritten(row, p.col, ds)];
      }
    }
  }

  lemma OverwriteNothing(row: seq<nat>, col: nat)
    requires col <= |row|
    ensures Overwritten(row, col, []) == row
  {
  }

  lemma OverwriteStep(row: seq<nat>, col: nat, ds: seq<nat>)
    requires ds != [] && col + |ds| <= |row|
    ensures Overwritten(row, col, ds) == Overwritten(row[col := ds[0]], col + 1, ds[1..])
  {
  }

  lemma CommandOne(p: Panel, c: nat, rest: seq<nat>)
    requires !TakesArgument(c)
    ensures Commands(p, [c] + rest) == Commands(One(p, c), rest)
  {
    assert ([c] + rest)[1..] == rest;
  }

  lemma CommandTwo(p: Panel, c: nat, argument: nat, rest: seq<nat>)
    requires TakesArgument(c)
    ensures Commands(p, [c, argument] + rest) == Commands(Two(p, c, argument), rest)
  {
    assert ([c, argument] + rest)[2..] == rest;
  }

  lemma SetLineFrame(p: Panel, line: nat)
    requires p.Valid() && line < 8
    ensures Frame(p, [ADDRESS, COMMAND, 0xb0 + line, 0x00, 0x10]) == p.(page := line, col := 0)
  {
    hide Commands;
    var f := [ADDRESS, COMMAND, 0xb0 + line, 0x00, 0x10];
    var q := p.(page := line);
    var r := q.(col := p.col / 16 * 16);
    assert f[2..] == [0xb0 + line] + ([0x00] + ([0x10] + []));
    CommandOne(p, 0xb0 + line, [0x00] + ([0x10] + []));
    CommandOne(q, 0x00, [0x10] + []);
    CommandOne(r, 0x10, []);
    NoCommands(One(r, 0x10));
  }

  lemma NoCommands(p: Panel)
    ensures Commands(p, []) == p
  {
  }

  lemma OffsetFrame(p: Panel, offset: nat)
    requires p.Valid() && offset < 64
    ensures Frame(p, [ADDRESS, COMMAND, 0xd3, offset]) == p.(offset := offset)
  {
    hide Commands;
    var f := [ADDRESS, COMMAND, 0xd3, offset];
    assert f[2..] == [0xd3, offset] + [];
    CommandTwo(p, 0xd3, offset, []);
    NoCommands(Two(p, 0xd3, offset));
  }

  lemma DataFrame(p: Panel, ds: seq<nat>)
    requires p.Valid() && p.col + |ds| <= 128
    ensures Frame(p, [ADDRESS, DATA] + ds) ==
      p.(ram := p.ram[p.page := Overwritten(p.ram[p.page], p.col, ds)], col := (p.col + |ds|) % 128)
  {
    hide Data;
    assert ([ADDRESS, DATA] + ds)[2..] == ds;
    DataFits(p, ds);
  }

  /** The initialisation sequence leaves the memory and the cursor alone; of what is
      modelled here it only resets the display offset. */
  function InitCommands(): seq<nat> {
    [0xae, 0xd5, 0x80, 0xa8, 0x3f, 0xd3, 0x00, 0x40, 0x8d, 0x14, 0x20, 0x02,
     0xc8, 0xa1, 0xda, 0x12, 0x81, 0x7f, 0xd9, 0xf1, 0xdb, 0x40, 0xa6, 0xaf]
  }

  lemma InitFrame(p: Panel)
    requires p.Valid()
    ensures Frame(p, [ADDRESS, COMMAND] + InitCommands()) == p.(offset := 0)
  {
    hide Commands, InitCommands;
    var q := p.(offset := 0);
    var f := [ADDRESS, COMMAND] + InitCommands();
    var last := [0xda, 0x12] + ([0x81, 0x7f] + ([0xd9, 0xf1] + ([0xdb, 0x40] + ([0xa6] + ([0xaf] + [])))));
    var middle := [0x40] + ([0x8d, 0x14] + ([0x20, 0x02] + ([0xc8] + ([0xa1] + last))));
    InitBytes();
    assert f[2..] == InitCommands();
    InitStart(p, middle);
    InitMiddle(q, last);
    InitLast(q);
  }

  lemma InitBytes()
    ensures
      var last := [0xda, 0x12] + ([0x81, 0x7f] + ([0xd9, 0xf1] + ([0xdb, 0x40] + ([0xa6] + ([0xaf] + [])))));
      var middle := [0x40] + ([0x8d, 0x14] + ([0x20, 0x02] + ([0xc8] + ([0xa1] + last))));
      InitCommands() == [0xae] + ([0xd5, 0x80] + ([0xa8, 0x3f] + ([0xd3, 0x00] + middle)))
  {
  }

  lemma InitStart(p: Panel, rest: seq<nat>)
    ensures Commands(p, [0xae] + ([0xd5, 0x80] + ([0xa8, 0x3f] + ([0xd3, 0x00] + rest)))) == Commands(p.(offset := 0), rest)
  {
    hide Commands;
    CommandOne(p, 0xae, [0xd5, 0x80] + ([0xa8, 0x3f] + ([0xd3, 0x00] + rest)));
    CommandTwo(p, 0xd5, 0x80, [0xa8, 0x3f] + ([0xd3, 0x00] + rest));
    CommandTwo(p, 0xa8, 0x3f, [0xd3, 0x00] + rest);
    CommandTwo(p, 0xd3, 0x00, rest);
  }

  lemma InitMiddle(p: Panel, rest: seq<nat>)
    ensures Commands(p, [0x40] + ([0x8d, 0x14] + ([0x20, 0x02] + ([0xc8] + ([0xa1] + rest))))) == Commands(p, rest)
  {
    hide Commands;
    CommandOne(p, 0x40, [0x8d, 0x14] + ([0x20, 0x02] + ([0xc8] + ([0xa1] + rest))));
    CommandTwo(p, 0x8d, 0x14, [0x20, 0x02] + ([0xc8] + ([0xa1] + rest)));
    CommandTwo(p, 0x20, 0x02, [0xc8] + ([0xa1] + rest));
    CommandOne(p, 0xc8, [0xa1] + rest);
    CommandOne(p, 0xa1, rest);
  }

  lemma InitLast(p: Panel)
    ensures Commands(p, [0xda, 0x12] + ([0x81, 0x7f] + ([0xd9, 0xf1] + ([0xdb, 0x40] + ([0xa6] + ([0xaf] + [])))))) == p
  {
    hide Commands;
    CommandTwo(p, 0xda, 0x12, [0x81, 0x7f] + ([0xd9, 0xf1] + ([0xdb, 0x40] + ([0xa6] + ([0xaf] + [])))));
    CommandTwo(p, 0x81, 0x7f, [0xd9, 0xf1] + ([0xdb, 0x40] + ([0xa6] + ([0xaf] + []))));
    CommandTwo(p, 0xd9, 0xf1, [0xdb, 0x40] + ([0xa6] + ([0xaf] + [])));
    CommandTwo(p, 0xdb, 0x40, [0xa6] + ([0xaf] + []));
    CommandOne(p, 0xa6, [0xaf] + []);
    CommandOne(p, 0xaf, []);
    NoCommands(p);
  }
}
