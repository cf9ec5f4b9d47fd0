/** The text display of oled/oled.h: eight pages used as a ring, behind a display
    offset, shown to behave like a plain scrolling terminal. */
module Oled {
  import opened I2c
  import opened Ssd1306

  // ---- the terminal it should be -------------------------------------------

  const ROWS := 8
  const COLUMNS := 21

  datatype Terminal = Terminal(rows: seq<seq<nat>>, line: nat, column: nat) {
    predicate Valid() {
      |rows| == ROWS && line < ROWS && column < COLUMNS && forall i :: 0 <= i < ROWS ==> Row(rows[i])
    }

    function NewLine(): Terminal
      requires Valid()
    {
      if line == ROWS - 1 then Terminal(rows[1..] + [BlankRow()], line, 0) else this.(line := line + 1, column := 0)
    }

    function Put(c: nat): Terminal
      requires Valid() && Printable(c)
    {
      var row: seq<nat> := rows[line];
      var written: seq<nat> := row[column := c];
      var t := this.(rows := rows[line := written]);
      if column == COLUMNS - 1 then t.NewLine() else t.(column := column + 1)
    }

    /** The top bit is ignored and so are control characters but LF and CR. */
    function Print(c: nat): Terminal
      requires Valid()
    {
      var d := c % 128;
      if d >= 32 then Put(d) else if d == 10 then NewLine() else if d == 13 then this.(column := 0) else this
    }
  }

  function PrintAll(t: Terminal, text: seq<nat>): (r: Terminal)
    requires t.Valid()
    ensures r.Valid()
    decreases text
  {
    if text == [] then t else PrintValid(t, text[0]); PrintAll(t.Print(text[0]), text[1..])
  }

  /** Text that fits on the line appears there, in order. */
  lemma {:induction false} TextAppears(t: Terminal, text: seq<nat>)
    requires t.Valid() && t.column + |text| < COLUMNS && forall k :: 0 <= k < |text| ==> Printable(text[k])
    ensures var u := PrintAll(t, text);
      && u.line == t.line && u.column == t.column + |text|
      && (forall i :: 0 <= i < ROWS && i != t.line ==> u.rows[i] == t.rows[i])
      && u.rows[t.line] == t.rows[t.line][..t.column] + text + t.rows[t.line][t.column + |text|..]
    decreases text
  {
    if text != [] {
      var u := t.Print(text[0]);
      PrintValid(t, text[0]);
      TextAppears(u, text[1..]);
      assert u.rows[t.line] == t.rows[t.line][..t.column] + [text[0]] + t.rows[t.line][t.column + 1..];
    }
  }

  lemma {:induction false} PrintsOn(t: Terminal, a: seq<nat>, b: seq<nat>)
    requires t.Valid()
    ensures PrintAll(t, a + b) == PrintAll(PrintAll(t, a), b)
    decreases a
  {
    if a == [] {
      assert a + b == b;
    } else {
      PrintValid(t, a[0]);
      assert (a + b)[1..] == a[1..] + b;
      PrintsOn(t.Print(a[0]), a[1..], b);
    }
  }

  lemma PrintsOne(t: Terminal, c: nat)
    requires t.Valid()
    ensures PrintAll(t, [c]) == t.Print(c)
  {
    PrintValid(t, c);
    assert PrintAll(t.Print(c), [][..]) == t.Print(c);
  }

  /** LF, 10: down one line, to its start; on the last line the rows move up by one. */
  lemma LineFeedMoves(t: Terminal)
    requires t.Valid()
    ensures var u := PrintAll(t, [10]);
      && u.column == 0
      && (t.line < 7 ==> u.line == t.line + 1 && u.rows == t.rows)
      && (t.line == 7 ==> u.line == 7 && u.rows[7] == seq(21, i => 32) && forall i :: 0 <= i < 7 ==> u.rows[i] == t.rows[i + 1])
  {
    PrintsOne(t, 10);
  }

  /** CR, 13: to the start of the line. */
  lemma ReturnMoves(t: Terminal)
    requires t.Valid()
    ensures PrintAll(t, [13]) == t.(column := 0)
  {
    PrintsOne(t, 13);
  }

  lemma Shape(t: Terminal)
    requires t.Valid()
    ensures |t.rows| == 8 && t.line < 8 && t.column < 21 && forall i :: 0 <= i < 8 ==> |t.rows[i]| == 21
  {
  }

  /** TextAppears, from column 0. */
  lemma FromStart(t: Terminal, text: seq<nat>)
    requires t.Valid() && t.column == 0 && |text| < 21 && forall k :: 0 <= k < |text| ==> 32 <= text[k] < 128
    ensures |t.rows| == 8 && t.line < 8 && |t.rows[t.line]| == 21
    ensures var u := PrintAll(t, text);
      && u.Valid() && |u.rows| == 8 && u.line == t.line && u.column == |text|
      && u.rows[t.line] == text + t.rows[t.line][|text|..]
      && forall i :: 0 <= i < 8 && i != t.line ==> u.rows[i] == t.rows[i]
  {
    hide PrintAll;
    TextAppears(t, text);
    assert t.rows[t.line][..0] == [];
  }

  lemma AtNextRow(a: Terminal, more: seq<nat>)
    requires a.Valid() && |more| < 21 && forall k :: 0 <= k < |more| ==> 32 <= more[k] < 128
    ensures var u := PrintAll(PrintAll(a, [10]), more);
      && u.Valid() && u.column == |more|
      && (a.line < 7 ==>
           && u.line == a.line + 1 && u.rows[a.line + 1] == more + a.rows[a.line + 1][|more|..]
           && forall i :: 0 <= i < 8 && i != a.line + 1 ==> u.rows[i] == a.rows[i])
      && (a.line == 7 ==>
           && u.line == 7 && u.rows[7] == more + seq(21 - |more|, i => 32)
           && forall i :: 0 <= i < 7 ==> u.rows[i] == a.rows[i + 1])
  {
    hide PrintAll, Terminal.Valid, Row, Printable;
    LineFeedMoves(a);
    Shape(a);
    FromStart(PrintAll(a, [10]), more);
    BlankTail(|more|);
  }

  /** Text, LF and more text: the second begins the next row and leaves what stood behind
      it there; after the last row the rows have moved up, and it stands alone. */
  lemma LineFeed(t: Terminal, text: seq<nat>, more: seq<nat>)
    requires t.Valid() && t.column + |text| < 21 && |more| < 21
    requires (forall k :: 0 <= k < |text| ==> 32 <= text[k] < 128) && forall k :: 0 <= k < |more| ==> 32 <= more[k] < 128
    ensures var u := PrintAll(t, text + [10] + more);
      var here := t.rows[t.line][..t.column] + text + t.rows[t.line][t.column + |text|..];
      && u.Valid() && u.column == |more|
      && (t.line < 7 ==>
           && u.line == t.line + 1 && u.rows[t.line] == here
           && u.rows[t.line + 1] == more + t.rows[t.line + 1][|more|..]
           && forall i :: 0 <= i < 8 && i != t.line && i != t.line + 1 ==> u.rows[i] == t.rows[i])
      && (t.line == 7 ==>
           && u.line == 7 && u.rows[6] == here && u.rows[7] == more + seq(21 - |more|, i => 32)
           && forall i :: 0 <= i < 6 ==> u.rows[i] == t.rows[i + 1])
  {
    hide PrintAll;
    TextAppears(t, text);
    PrintsOn(t, text, [10]);
    PrintsOn(t, text + [10], more);
    AtNextRow(PrintAll(t, text), more);
  }

  lemma BlankTail(n: nat)
    requires n <= 21
    ensures seq<nat>(21, i => 32)[n..] == seq(21 - n, i => 32)
  {
  }

  /** Text, CR and more text: the second begins the same row. */
  lemma CarriageReturn(t: Terminal, text: seq<nat>, more: seq<nat>)
    requires t.Valid() && t.column + |text| < 21 && |more| < 21
    requires (forall k :: 0 <= k < |text| ==> 32 <= text[k] < 128) && forall k :: 0 <= k < |more| ==> 32 <= more[k] < 128
    ensures var u := PrintAll(t, text + [13] + more);
      var here := t.rows[t.line][..t.column] + text + t.rows[t.line][t.column + |text|..];
      && u.Valid() && u.line == t.line && u.column == |more|
      && u.rows[t.line] == more + here[|more|..]
      && forall i :: 0 <= i < 8 && i != t.line ==> u.rows[i] == t.rows[i]
  {
    hide PrintAll, Row;
    var a := PrintAll(t, text);
    TextAppears(t, text);
    PrintsOn(t, text, [13]);
    ReturnMoves(a);
    PrintsOn(t, text + [13], more);
    FromStart(a.(column := 0), more);
  }

  /** The character that fills the row moves on like an LF behind it. */
  lemma FillsRow(t: Terminal, c: nat)
    requires t.Valid() && t.column == 20 && 32 <= c < 128
    ensures var u := PrintAll(t, [c]);
      var row: seq<nat> := t.rows[t.line];
      var filled: seq<nat> := row[20 := c];
      u == PrintAll(t.(rows := t.rows[t.line := filled]), [10])
  {
    var row: seq<nat> := t.rows[t.line];
    var filled: seq<nat> := row[20 := c];
    hide PrintAll, Terminal.Print, Terminal.Valid;
    var b := t.(rows := t.rows[t.line := filled]);
    FilledValid(t, c);
    PutLast(t, c);
    PrintsOne(t, c);
    PrintsOne(b, 10);
  }

  lemma PutLast(t: Terminal, c: nat)
    requires t.Valid() && t.column == 20 && 32 <= c < 128
    ensures var row: seq<nat> := t.rows[t.line];
      var filled: seq<nat> := row[20 := c];
      var b := t.(rows := t.rows[t.line := filled]);
      b.Valid() && t.Print(c) == b.Print(10)
  {
    hide Row;
    FilledValid(t, c);
  }

  lemma FilledValid(t: Terminal, c: nat)
    requires t.Valid() && t.column == 20 && 32 <= c < 128
    ensures var row: seq<nat> := t.rows[t.line];
      var filled: seq<nat> := row[20 := c];
      t.(rows := t.rows[t.line := filled]).Valid()
  {
  }

  /** Text that fills the row to its end and more text: the second begins the next row. */
  lemma LineBreak(t: Terminal, text: seq<nat>, more: seq<nat>)
    requires t.Valid() && t.column + |text| == 21 && |more| < 21
    requires (forall k :: 0 <= k < |text| ==> 32 <= text[k] < 128) && forall k :: 0 <= k < |more| ==> 32 <= more[k] < 128
    ensures var u := PrintAll(t, text + more);
      var here := t.rows[t.line][..t.column] + text;
      && u.Valid() && u.column == |more|
      && (t.line < 7 ==>
           && u.line == t.line + 1 && u.rows[t.line] == here
           && u.rows[t.line + 1] == more + t.rows[t.line + 1][|more|..]
           && forall i :: 0 <= i < 8 && i != t.line && i != t.line + 1 ==> u.rows[i] == t.rows[i])
      && (t.line == 7 ==>
           && u.line == 7 && u.rows[6] == here && u.rows[7] == more + seq(21 - |more|, i => 32)
           && forall i :: 0 <= i < 6 ==> u.rows[i] == t.rows[i + 1])
  {
    hide PrintAll;
    var n := |text| - 1;
    var front, last := text[..n], text[n];
    assert text == front + [last];
    var a := PrintAll(t, front);
    TextAppears(t, front);
    PrintsOn(t, front, [last]);
    FillsRow(a, last);
    var row: seq<nat> := a.rows[a.line];
    var filled: seq<nat> := row[20 := last];
    var b := a.(rows := a.rows[a.line := filled]);
    assert filled == t.rows[t.line][..t.column] + text;
    PrintsOn(t, text, more);
    AtNextRow(b, more);
  }

  lemma LowBitsPrint(t: Terminal, c: nat)
    requires t.Valid()
    ensures t.Print(c) == t.Print(c % 128)
  {
  }

  /** The top bit of a character does not matter. */
  lemma {:induction false} TopBitIgnored(t: Terminal, text: seq<nat>)
    requires t.Valid()
    ensures PrintAll(t, text) == PrintAll(t, seq(|text|, i requires 0 <= i < |text| => text[i] % 128))
    decreases text
  {
    if text != [] {
      var low := seq(|text|, i requires 0 <= i < |text| => text[i] % 128);
      var rest := text[1..];
      hide Terminal.Print;
      PrintValid(t, text[0]);
      LowBitsPrint(t, text[0]);
      assert low[1..] == seq(|rest|, i requires 0 <= i < |rest| => rest[i] % 128);
      TopBitIgnored(t.Print(text[0]), rest);
    }
  }

  /** Control characters but LF and CR change nothing. */
  lemma ControlIgnored(t: Terminal, before: seq<nat>, c: nat, behind: seq<nat>)
    requires t.Valid() && c % 128 < 32 && c % 128 != 10 && c % 128 != 13
    ensures PrintAll(t, before + [c] + behind) == PrintAll(t, before + behind)
  {
    PrintsOn(t, before + [c], behind);
    PrintsOn(t, before, [c]);
    PrintsOne(PrintAll(t, before), c);
    PrintsOn(t, before, behind);
  }

  predicate Printable(c: nat) { 32 <= c < 128 }
  predicate Row(row: seq<nat>) { |row| == COLUMNS && forall j :: 0 <= j < COLUMNS ==> Printable(row[j]) }
  function BlankRow(): (r: seq<nat>)
    ensures Row(r)
  {
    seq(COLUMNS, i => 32)
  }

  function Cleared(line: nat): (t: Terminal)
    requires line < ROWS
    ensures t.Valid()
  {
    Terminal(seq(ROWS, i => BlankRow()), line, 0)
  }

  lemma PrintValid(t: Terminal, c: nat)
    requires t.Valid()
    ensures t.Print(c).Valid()
  {
  }

  // ---- characters as dots --------------------------------------------------

  /** 96 characters of five columns; the space is blank. */
  predicate FontOk(font: seq<nat>) {
    |font| == 480 && (forall i :: 0 <= i < 480 ==> font[i] < 256) && forall i :: 0 <= i < 5 ==> font[i] == 0
  }

  function Dots(font: seq<nat>, row: seq<nat>, x: nat): nat
    requires FontOk(font) && Row(row) && x < 128
  {
    if x < 6 * COLUMNS && x % 6 < 5 then font[(row[x / 6] - 32) * 5 + x % 6] else 0
  }

  /** A row of text as the 128 columns of a page: five for each character and a gap. */
  function Render(font: seq<nat>, row: seq<nat>): (r: seq<nat>)
    requires FontOk(font) && Row(row)
    ensures |r| == 128 && forall x :: 0 <= x < 128 ==> r[x] == Dots(font, row, x)
  {
    seq(128, x requires 0 <= x < 128 => Dots(font, row, x))
  }

  function Glyph(font: seq<nat>, c: nat): (r: seq<nat>)
    requires FontOk(font) && Printable(c)
    ensures |r| == 6
  {
    font[(c - 32) * 5..(c - 32) * 5 + 5] + [0]
  }

  function Zeros(): (r: seq<nat>) ensures |r| == 128 { seq(128, i => 0) }

  lemma BlankIsZeros(font: seq<nat>)
    requires FontOk(font)
    ensures Render(font, BlankRow()) == Zeros()
  {
    forall x | 0 <= x < 128 ensures Dots(font, BlankRow(), x) == 0 {
      if x < 6 * COLUMNS && x % 6 < 5 { assert BlankRow()[x / 6] == 32; }
    }
  }

  lemma PlotIsRender(font: seq<nat>, row: seq<nat>, column: nat, c: nat)
    requires FontOk(font) && Row(row) && column < COLUMNS && Printable(c)
    ensures Row(row[column := c])
    ensures Overwritten(Render(font, row), 6 * column, Glyph(font, c)) == Render(font, row[column := c])
  {
    var written: seq<nat> := row[column := c];
    var plotted := Overwritten(Render(font, row), 6 * column, Glyph(font, c));
    forall x | 0 <= x < 128 ensures plotted[x] == Dots(font, written, x) {
      if 6 * column <= x < 6 * column + 6 {
        assert x / 6 == column && x % 6 == x - 6 * column;
      } else if x < 126 {
        assert x / 6 != column;
      }
    }
  }

  // ---- the display shows the terminal ---------------------------------------

  /** The page of visible line i. */
  function Page(i: nat, scroll: nat): nat { (i + scroll) % 8 }

  /** Visible line i is page (i + Scroll) % 8; the controller's cursor is where the next
      character belongs. */
  ghost predicate Holds(font: seq<nat>, p: Panel, scroll: nat, t: Terminal) {
    && FontOk(font) && p.Valid() && t.Valid() && scroll < 8
    && forall i :: 0 <= i < 8 ==> p.ram[Page(i, scroll)] == Render(font, t.rows[i])
  }

  ghost predicate AtCursor(p: Panel, line: nat, column: nat, scroll: nat, t: Terminal) {
    line == t.line && column == t.column && p.page == Page(line, scroll) && p.col == 6 * column
  }

  /** With the display offset the driver sets, the pages appear in the terminal's order. */
  lemma VisibleLines(font: seq<nat>, p: Panel, scroll: nat, t: Terminal, i: nat)
    requires Holds(font, p, scroll, t) && p.offset == 8 * scroll && i < 8
    ensures p.Shown(i) == Render(font, t.rows[i])
  {
  }

  lemma PageOf(scroll: nat, i: nat, j: nat)
    requires scroll < 8 && i < 8 && j < 8
    ensures Page(i, scroll) < 8 && (Page(i, scroll) == Page(j, scroll) <==> i == j)
    ensures Page(7, (scroll + 1) % 8) == Page(0, scroll) == scroll
    ensures i < 7 ==> Page(i, (scroll + 1) % 8) == Page(i + 1, scroll)
  {
  }

  lemma Plotted(font: seq<nat>, p: Panel, scroll: nat, t: Terminal, c: nat)
    requires Holds(font, p, scroll, t) && AtCursor(p, t.line, t.column, scroll, t) && Printable(c)
    ensures p.col + 6 <= 128
    ensures var q := p.(ram := p.ram[p.page := Overwritten(p.ram[p.page], p.col, Glyph(font, c))], col := (p.col + 6) % 128);
      var row: seq<nat> := t.rows[t.line];
      var written: seq<nat> := row[t.column := c];
      Holds(font, q, scroll, t.(rows := t.rows[t.line := written]))
  {
    hide Render, Overwritten, Glyph, Page;
    var row: seq<nat> := t.rows[t.line];
    PlotIsRender(font, row, t.column, c);
    forall i | 0 <= i < 8 ensures Page(i, scroll) < 8 && (Page(i, scroll) == p.page <==> i == t.line) {
      PageOf(scroll, i, t.line);
    }
  }

  lemma Scrolled(font: seq<nat>, p: Panel, scroll: nat, t: Terminal)
    requires Holds(font, p, scroll, t) && t.line == 7
    ensures var q := p.(ram := p.ram[scroll := Zeros()]);
      q.Valid() && Holds(font, q, (scroll + 1) % 8, t.NewLine())
  {
    hide Render, Zeros, Page;
    BlankIsZeros(font);
    var ram := p.ram[scroll := Zeros()];
    var u, next := t.NewLine(), (scroll + 1) % 8;
    forall i | 0 <= i < 8 ensures Page(i, next) < 8 && ram[Page(i, next)] == Render(font, u.rows[i]) {
      PageOf(next, i, i);
      PageOf(scroll, i, i);
      if i < 7 { PageOf(scroll, i + 1, 0); assert u.rows[i] == t.rows[i + 1]; }
    }
  }

  class Display {
    const i2c: Bus
    const font: seq<octet>
    var Line: nat
    var Column: nat
    var Scroll: nat
    ghost const power: Panel    // what the controller holds when it is switched on
    ghost var term: Terminal

    ghost predicate Wired()
      reads i2c
    {
      i2c.Valid() && Idle(i2c.Heard()) && power.Valid() && FontOk(font)
    }

    /** The controller's state, from what it hears on the bus. */
    ghost function Panel(): Panel
      reads i2c
      requires power.Valid()
    {
      Frames(power, i2c.Heard().frames)
    }

    ghost predicate Valid()
      reads this, i2c
    {
      Wired() && Holds(font, Panel(), Scroll, term) && AtCursor(Panel(), Line, Column, Scroll, term)
    }

    constructor (ddr: bv8, fontTable: seq<octet>, ghost atPower: Panel)
      requires atPower.Valid() && FontOk(fontTable)
      ensures Wired() && Line == 0 && Column == 0 && Scroll == 0 && font == fontTable && power == atPower
      ensures fresh(i2c)
    {
      i2c := new Bus(ddr);
      font := fontTable;
      Line, Column, Scroll := 0, 0, 0;
      power := atPower;
      term := Cleared(0);
    }

    /** OLED_init. The display offset is reset, so the lines stay in order exactly if
        nothing has been scrolled. */
    method Init()
      requires Wired()
      modifies i2c
      ensures Wired() && Panel() == old(Panel()).(offset := 0)
      ensures i2c.Heard().frames == old(i2c.Heard().frames) +
        [[0x78, 0x00, 0xae, 0xd5, 0x80, 0xa8, 0x3f, 0xd3, 0x00, 0x40, 0x8d, 0x14, 0x20, 0x02,
          0xc8, 0xa1, 0xda, 0x12, 0x81, 0x7f, 0xd9, 0xf1, 0xdb, 0x40, 0xa6, 0xaf]]
      ensures Scroll < 8 ==> (Panel().offset == 8 * Scroll <==> Scroll == 0)
      ensures old(Valid()) ==> Valid()
    {
      hide FontOk, Receive, Frames, Render, Holds, InitCommands;
      i2c.Release();
      ghost var p, before := Panel(), i2c.Heard().frames;
      i2c.Start(0x78);
      i2c.Write(0x00);
      var i := 0;
      InitOctets();
      while i < 24
        invariant 0 <= i <= 24 && i2c.Valid() && Ready(i2c.Heard())
        invariant i2c.Heard().frames == before && i2c.Heard().bytes == [0x78, 0x00] + InitCommands()[..i]
      {
        i2c.Write(InitCommands()[i]);
        i := i + 1;
      }
      i2c.Stop();
      assert InitCommands()[..24] == InitCommands();
      HeardFrame(before, [0x78, 0x00] + InitCommands());
      InitInFull();
      InitFrame(p);
      if old(Valid()) {
        HoldsMeans(p, Scroll, term);
        SameRows(p, Panel(), Scroll, term, term);
      }
    }

    /** OLED_clearScreen. The cursor goes to the visible line Scroll: to the top exactly
        if nothing has been scrolled. */
    method ClearScreen()
      requires Wired() && Scroll < 8
      modifies this`Line, this`Column, this`term, i2c
      ensures Valid() && term == Cleared(Scroll)
      ensures Panel().offset == old(Panel()).offset
    {
      hide FontOk, Receive, Frames, Render, Zeros;
      var p := 0;
      while p < 8
        invariant 0 <= p <= 8 && Wired() && Panel().offset == old(Panel()).offset
        invariant forall k :: 0 <= k < p ==> Panel().ram[k] == Zeros()
      {
        ClearLine(p);
        p := p + 1;
      }
      Line := Scroll;
      Column := 0;
      SetLine((Line + Scroll) % 8);
      BlankIsZeros(font);
      term := Cleared(Scroll);
    }

    /** OLED_setLine. */
    method SetLine(line: nat)
      requires Wired() && line < 8
      modifies i2c
      ensures Wired() && Panel() == old(Panel()).(page := line, col := 0)
      ensures i2c.Heard().frames == old(i2c.Heard().frames) + [[0x78, 0x00, 0xb0 + line, 0x00, 0x10]]
    {
      hide FontOk, Receive;
      i2c.Start(0x78);
      i2c.Write(0x00);
      i2c.Write(0xb0 + line);
      i2c.Write(0x00);
      i2c.Write(0x10);
      assert i2c.Heard().bytes == [0x78, 0x00, 0xb0 + line, 0x00, 0x10];
      i2c.Stop();
      HeardFrame(old(i2c.Heard().frames), [0x78, 0x00, 0xb0 + line, 0x00, 0x10]);
      SetLineFrame(old(Panel()), line);
    }

    lemma HeardFrame(before: seq<seq<nat>>, f: seq<nat>)
      requires power.Valid() && i2c.Heard().frames == before + [f]
      ensures Panel() == Frame(Frames(power, before), f)
    {
      FramesOne(power, before, f);
    }

    /** OLED_clearLine. */
    method ClearLine(line: nat)
      requires Wired() && line < 8
      modifies i2c
      ensures Wired()
      ensures Panel() == old(Panel()).(ram := old(Panel()).ram[line := Zeros()], page := line, col := 0)
      ensures i2c.Heard().frames == old(i2c.Heard().frames) +
        [[0x78, 0x00, 0xb0 + line, 0x00, 0x10], [0x78, 0x40] + seq(128, i => 0)]
    {
      hide FontOk, Receive, Frames, Zeros;
      SetLine(line);
      ghost var p, before := Panel(), i2c.Heard().frames;
      i2c.Start(0x78);
      i2c.Write(0x40);
      var i := 128;
      ghost var sent: seq<nat> := [];
      while i > 0
        invariant 0 <= i <= 128 && |sent| == 128 - i && i2c.Valid() && Ready(i2c.Heard())
        invariant i2c.Heard().frames == before && i2c.Heard().bytes == [0x78, 0x40] + sent
        invariant forall k :: 0 <= k < |sent| ==> sent[k] == 0
      {
        i2c.Write(0x00);
        sent := sent + [0];
        i := i - 1;
      }
      i2c.Stop();
      HeardFrame(before, [0x78, 0x40] + sent);
      DataFrame(p, sent);
      WholeLine(p.ram[line], sent);
      assert sent == seq<nat>(128, i => 0);
      assert before + [[0x78, 0x40] + sent] ==
        old(i2c.Heard().frames) + [[0x78, 0x00, 0xb0 + line, 0x00, 0x10], [0x78, 0x40] + sent];
    }

    /** OLED_scrollDisplay. */
    method ScrollDisplay()
      requires Wired() && Scroll < 8
      modifies this`Scroll, i2c
      ensures Wired() && Scroll == (old(Scroll) + 1) % 8
      ensures Panel() == old(Panel()).(
                ram := old(Panel()).ram[old(Scroll) := Zeros()], page := old(Scroll), col := 0, offset := 8 * Scroll)
      ensures i2c.Heard().frames == old(i2c.Heard().frames) +
        [[0x78, 0x00, 0xb0 + old(Scroll), 0x00, 0x10], [0x78, 0x40] + seq(128, i => 0), [0x78, 0x00, 0xd3, 8 * Scroll]]
    {
      hide FontOk, Receive, Frames, Zeros;
      ClearLine(Scroll);
      ghost var p, before := Panel(), i2c.Heard().frames;
      Scroll := (Scroll + 1) % 8;
      i2c.Start(0x78);
      i2c.Write(0x00);
      i2c.Write(0xd3);
      i2c.Write(8 * Scroll);
      assert i2c.Heard().bytes == [0x78, 0x00, 0xd3, 8 * Scroll];
      i2c.Stop();
      HeardFrame(before, [0x78, 0x00, 0xd3, 8 * Scroll]);
      OffsetFrame(p, 8 * Scroll);
    }

    /** OLED_plotChar; every read of the font is inside it. */
    method PlotChar(c: nat)
      requires Wired() && Printable(c) && Panel().col + 6 <= 128
      modifies i2c
      ensures Wired()
      ensures var p := old(Panel());
        Panel() == p.(ram := p.ram[p.page := Overwritten(p.ram[p.page], p.col, Glyph(font, c))], col := (p.col + 6) % 128)
      ensures i2c.Heard().frames == old(i2c.Heard().frames) +
        [[0x78, 0x40, font[5 * (c - 32)], font[5 * (c - 32) + 1], font[5 * (c - 32) + 2], font[5 * (c - 32) + 3],
          font[5 * (c - 32) + 4], 0x00]]
    {
      hide Receive, Frames, Overwritten;
      var ptr := c - 32;
      ptr := ptr + 4 * ptr;
      ghost var p, before := Panel(), i2c.Heard().frames;
      i2c.Start(0x78);
      i2c.Write(0x40);
      var i := 5;
      ghost var sent: seq<nat> := [];
      while i > 0
        invariant 0 <= i <= 5 && ptr == 5 * (c - 32) + 5 - i && i2c.Valid() && Ready(i2c.Heard())
        invariant i2c.Heard().frames == before && i2c.Heard().bytes == [0x78, 0x40] + sent
        invariant sent == font[5 * (c - 32)..ptr]
      {
        i2c.Write(font[ptr]);
        sent := sent + [font[ptr]];
        ptr := ptr + 1;
        i := i - 1;
      }
      i2c.Write(0x00);
      assert i2c.Heard().bytes == [0x78, 0x40] + (sent + [0]);
      i2c.Stop();
      assert sent + [0] == Glyph(font, c);
      HeardFrame(before, [0x78, 0x40] + (sent + [0]));
      DataFrame(p, sent + [0]);
      GlyphFrame(font, c);
    }

    /** OLED_print: the terminal prints the character. */
    method Print(ch: octet)
      requires Valid()
      modifies this`Line, this`Column, this`Scroll, this`term, i2c
      ensures Valid() && term == old(term).Print(ch)
      ensures ch % 128 >= 32 && old(Column) < 20 ==>
        Line == old(Line) && Column == old(Column) + 1 && Scroll == old(Scroll)
      ensures ch % 128 == 10 || (ch % 128 >= 32 && old(Column) == 20) ==>
        && Column == 0
        && if old(Line) == 7 then Line == 7 && Scroll == (old(Scroll) + 1) % 8
           else Line == old(Line) + 1 && Scroll == old(Scroll)
      ensures ch % 128 == 13 ==> Line == old(Line) && Column == 0 && Scroll == old(Scroll)
      ensures ch % 128 < 32 && ch % 128 != 10 && ch % 128 != 13 ==>
        Line == old(Line) && Column == old(Column) && Scroll == old(Scroll) && Panel() == old(Panel())
      ensures old(Panel()).offset == 8 * old(Scroll) ==> Panel().offset == 8 * Scroll
    {
      hide FontOk, Receive, Frames, Render, Zeros, Overwritten, Holds, Glyph;
      var c := ch % 128;
      if c >= 32 {
        PrintPlain(c);
      } else if c == 10 {
        NewLineAfter();
      } else if c == 13 {
        HoldsMeans(Panel(), Scroll, term);
        Column := 0;
        SetLine((Line + Scroll) % 8);
        ghost var t := term.(column := 0);
        SameRows(old(Panel()), Panel(), Scroll, term, t);
        term := t;
      }
    }

    /** From a cleared display on, for every text: what can be seen is the terminal. */
    method PrintText(text: seq<octet>)
      requires Valid() && Panel().offset == 8 * Scroll
      modifies this`Line, this`Column, this`Scroll, this`term, i2c
      ensures Valid() && Panel().Valid() && Panel().offset == 8 * Scroll
      ensures old(term).Valid() && term == PrintAll(old(term), text)
      ensures forall i :: 0 <= i < 8 ==> Panel().Shown(i) == Render(font, PrintAll(old(term), text).rows[i])
      ensures forall i, x :: 0 <= i < 8 && 0 <= x < 128 ==>
        Panel().Shown(i)[x] ==
          if x < 126 && x % 6 < 5 then font[5 * (PrintAll(old(term), text).rows[i][x / 6] - 32) + x % 6] else 0
    {
      hide FontOk, Receive, Frames, Render, Zeros, Overwritten, Holds, Glyph;
      HoldsMeans(Panel(), Scroll, term);
      var k := 0;
      while k < |text|
        invariant 0 <= k <= |text| && Valid() && term.Valid() && Panel().offset == 8 * Scroll
        invariant PrintAll(old(term), text) == PrintAll(term, text[k..])
      {
        Print(text[k]);
        HoldsMeans(Panel(), Scroll, term);
        assert text[k..][1..] == text[k + 1..];
        k := k + 1;
      }
      HoldsMeans(Panel(), Scroll, term);
      forall i | 0 <= i < 8 ensures Panel().Shown(i) == Render(font, term.rows[i]) {
        VisibleLines(font, Panel(), Scroll, term, i);
      }
    }

    method PrintPlain(c: nat)
      requires Valid() && Printable(c)
      modifies this`Line, this`Column, this`Scroll, this`term, i2c
      ensures Valid() && term == old(term).Put(c)
      ensures Scroll == if old(Column) == 20 && old(Line) == 7 then (old(Scroll) + 1) % 8 else old(Scroll)
      ensures old(Panel()).offset == 8 * old(Scroll) ==> Panel().offset == 8 * Scroll
    {
      hide FontOk, Receive, Frames, Render, Zeros, Overwritten, Holds, Glyph;
      HoldsMeans(Panel(), Scroll, term);
      Plotted(font, Panel(), Scroll, term, c);
      PlotChar(c);
      ghost var row: seq<nat> := term.rows[term.line];
      ghost var written: seq<nat> := row[term.column := c];
      term := term.(rows := term.rows[term.line := written]);
      HoldsMeans(Panel(), Scroll, term);
      Column := Column + 1;
      if Column > 20 {
        NewLineAfter();
      } else {
        ghost var t := term.(column := Column);
        SameRows(Panel(), Panel(), Scroll, term, t);
        term := t;
      }
    }

    /** The same three statements after a full line and for LF. */
    method NewLineAfter()
      requires Wired() && Holds(font, Panel(), Scroll, term) && Line == term.line
      modifies this`Line, this`Column, this`Scroll, this`term, i2c
      ensures Valid() && old(term).Valid() && term == old(term).NewLine()
      ensures Scroll == if old(Line) == 7 then (old(Scroll) + 1) % 8 else old(Scroll)
      ensures old(Panel()).offset == 8 * old(Scroll) ==> Panel().offset == 8 * Scroll
    {
      hide FontOk, Receive, Frames, Render, Zeros, Overwritten, Holds, Glyph;
      HoldsMeans(Panel(), Scroll, term);
      Column := 0;
      if Line == 7 {
        Scrolled(font, Panel(), Scroll, term);
        ghost var p, t := Panel(), term.NewLine();
        ScrollDisplay();
        SameRows(p.(ram := p.ram[old(Scroll) := Zeros()]), Panel(), Scroll, t, t);
        term := t;
      } else {
        Line := Line + 1;
        ghost var t := term.NewLine();
        SameRows(Panel(), Panel(), Scroll, term, t);
        term := t;
      }
      ghost var q := Panel();
      SetLine((Line + Scroll) % 8);
      SameRows(q, Panel(), Scroll, term, term);
    }

    lemma HoldsMeans(p: Panel, scroll: nat, t: Terminal)
      requires Holds(font, p, scroll, t)
      ensures FontOk(font) && p.Valid() && t.Valid() && scroll < 8
    {
    }

    lemma SameRows(p: Panel, q: Panel, scroll: nat, t: Terminal, u: Terminal)
      requires Holds(font, p, scroll, t) && u.Valid() && u.rows == t.rows && q.Valid() && q.ram == p.ram
      ensures Holds(font, q, scroll, u)
    {
    }
  }

  lemma InitInFull()
    ensures [0x78, 0x00] + InitCommands() ==
      [0x78, 0x00, 0xae, 0xd5, 0x80, 0xa8, 0x3f, 0xd3, 0x00, 0x40, 0x8d, 0x14, 0x20, 0x02,
       0xc8, 0xa1, 0xda, 0x12, 0x81, 0x7f, 0xd9, 0xf1, 0xdb, 0x40, 0xa6, 0xaf]
  {
  }

  lemma InitOctets()
    ensures |InitCommands()| == 24 && forall i :: 0 <= i < 24 ==> 0 <= InitCommands()[i] < 256
  {
  }

  lemma GlyphFrame(font: seq<octet>, c: nat)
    requires FontOk(font) && Printable(c)
    ensures [0x78, 0x40] + Glyph(font, c) ==
      [0x78, 0x40, font[5 * (c - 32)], font[5 * (c - 32) + 1], font[5 * (c - 32) + 2], font[5 * (c - 32) + 3],
       font[5 * (c - 32) + 4], 0x00]
  {
  }

  lemma WholeLine(row: seq<nat>, ds: seq<nat>)
    requires |row| == 128 && |ds| == 128 && forall k :: 0 <= k < 128 ==> ds[k] == 0
    ensures Overwritten(row, 0, ds) == Zeros()
  {
  }
}
