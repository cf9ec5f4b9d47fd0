/** Two bit-banged lines and what a receiver on them understands: UM10204, sections
    3.1.3 (a bit is valid while SCL is high) and 3.1.4 (START and STOP). */
module I2c {
  type octet = x: int | 0 <= x < 256

  /** Released lines are high. */
  datatype Wire = Wire(sda: bool, scl: bool)

  /** A receiver: the lines as last seen, the bits of the current byte, the bytes of the
      current frame, the frames finished. `fault` is set by a START inside a frame or a
      STOP outside one, that is by any other change of SDA while SCL is high. */
  datatype Receiver = Receiver(last: Wire, count: nat, acc: nat, framed: bool,
                               bytes: seq<nat>, frames: seq<seq<nat>>, fault: bool)

  const IDLE := Receiver(Wire(true, true), 0, 0, false, [], [], false)

  function Sense(r: Receiver, w: Wire): Receiver {
    var next := r.(last := w);
    if r.last.scl && w.scl && r.last.sda && !w.sda then         // START
      next.(count := 0, acc := 0, framed := true, bytes := [], fault := r.fault || r.framed)
    else if r.last.scl && w.scl && !r.last.sda && w.sda then    // STOP
      next.(count := 0, acc := 0, framed := false, bytes := [], frames := r.frames + [r.bytes],
            fault := r.fault || !r.framed)
    else if !r.last.scl && w.scl then                           // rising SCL
      if r.count < 8 then next.(count := r.count + 1, acc := 2 * r.acc + if w.sda then 1 else 0)
      else next.(count := 0, acc := 0, bytes := r.bytes + [r.acc])  // ninth: acknowledge
    else next
  }

  function Receive(trace: seq<Wire>): Receiver {
    if trace == [] then IDLE else Sense(Receive(trace[..|trace| - 1]), trace[|trace| - 1])
  }

  lemma ReceiveOne(trace: seq<Wire>, w: Wire)
    ensures Receive(trace + [w]) == Sense(Receive(trace), w)
  {
    assert (trace + [w])[..|trace|] == trace;
  }

  /** In a frame, between two bytes. */
  predicate Ready(r: Receiver) {
    r.framed && r.count == 0 && r.acc == 0 && !r.last.scl && !r.fault
  }

  predicate Idle(r: Receiver) {
    !r.framed && r.last == Wire(true, true) && !r.fault
  }

  function Doubled(x: nat, n: nat): nat { if n == 0 then x else 2 * Doubled(x, n - 1) }

  lemma DoubledEight(x: nat)
    ensures Doubled(x, 8) == 256 * x
  {
    assert Doubled(x, 1) == 2 * x && Doubled(x, 2) == 4 * x && Doubled(x, 3) == 8 * x;
    assert Doubled(x, 4) == 16 * x && Doubled(x, 5) == 32 * x && Doubled(x, 6) == 64 * x;
    assert Doubled(x, 7) == 128 * x;
  }

  function Clocked(r: Receiver, bit: bool): Receiver {
    Sense(Sense(Sense(r, Wire(bit, false)), Wire(bit, true)), Wire(bit, false))
  }

  lemma ClockOne(r: Receiver, bit: bool)
    requires !r.last.scl && r.count < 8
    ensures Clocked(r, bit) ==
      r.(last := Wire(bit, false), count := r.count + 1, acc := 2 * r.acc + if bit then 1 else 0)
  {
  }

  /** Eight clocked bits and a ninth are one byte, the first bit the most significant. */
  lemma MsbFirst(r: Receiver, b: seq<bool>)
    requires Ready(r) && |b| == 9
    ensures
      var r4 := Clocked(Clocked(Clocked(Clocked(r, b[0]), b[1]), b[2]), b[3]);
      var r8 := Clocked(Clocked(Clocked(Clocked(r4, b[4]), b[5]), b[6]), b[7]);
      Clocked(r8, b[8]).bytes == r.bytes +
        [(if b[0] then 128 else 0) + (if b[1] then 64 else 0) + (if b[2] then 32 else 0) + (if b[3] then 16 else 0)
         + (if b[4] then 8 else 0) + (if b[5] then 4 else 0) + (if b[6] then 2 else 0) + (if b[7] then 1 else 0)]
  {
    hide Clocked;
    var r4 := Clocked(Clocked(Clocked(Clocked(r, b[0]), b[1]), b[2]), b[3]);
    FourClocks(r, b[0], b[1], b[2], b[3]);
    FourClocks(r4, b[4], b[5], b[6], b[7]);
    ClockNine(Clocked(Clocked(Clocked(Clocked(r4, b[4]), b[5]), b[6]), b[7]), b[8]);
  }

  lemma FourClocks(r: Receiver, a: bool, b: bool, c: bool, d: bool)
    requires !r.last.scl && r.count <= 4
    ensures var s := Clocked(Clocked(Clocked(Clocked(r, a), b), c), d);
      && s == r.(last := s.last, count := r.count + 4, acc := s.acc) && !s.last.scl
      && s.acc == 16 * r.acc + (if a then 8 else 0) + (if b then 4 else 0) + (if c then 2 else 0) + (if d then 1 else 0)
  {
    hide Clocked;
    var r1 := Clocked(r, a);
    var r2 := Clocked(r1, b);
    ClockOne(r, a);
    ClockOne(r1, b);
    ClockOne(r2, c);
    ClockOne(Clocked(r2, c), d);
  }

  lemma ClockNine(r: Receiver, bit: bool)
    requires !r.last.scl && r.count == 8
    ensures Clocked(r, bit).bytes == r.bytes + [r.acc]
  {
  }

  /** A START is SDA falling, a STOP SDA rising, both while SCL is high. */
  lemma StartAndStop(r: Receiver)
    requires r.last.scl
    ensures r.last.sda ==> Sense(r, Wire(false, true)).framed && Sense(r, Wire(false, true)).bytes == []
    ensures !r.last.sda ==>
      !Sense(r, Wire(true, true)).framed && Sense(r, Wire(true, true)).frames == r.frames + [r.bytes]
  {
  }

  // ---- the direction register that makes the lines ------------------------

  /** SDA is bit 0 and SCL bit 2 of DDRB; an output is low, an input is released. */
  function Lines(ddr: bv8): Wire { Wire(ddr & 0x01 == 0, ddr & 0x04 == 0) }

  function SdaHigh(ddr: bv8): bv8 { ddr & 0xfe }
  function SdaLow(ddr: bv8): bv8 { ddr | 0x01 }
  function SclHigh(ddr: bv8): bv8 { ddr & 0xfb }
  function SclLow(ddr: bv8): bv8 { ddr | 0x04 }
  function Released(ddr: bv8): bv8 { ddr & 0xfa }

  lemma LineChanges(ddr: bv8)
    ensures Lines(SdaHigh(ddr)) == Lines(ddr).(sda := true)
    ensures Lines(SdaLow(ddr)) == Lines(ddr).(sda := false)
    ensures Lines(SclHigh(ddr)) == Lines(ddr).(scl := true)
    ensures Lines(SclLow(ddr)) == Lines(ddr).(scl := false)
    ensures Lines(Released(ddr)) == Wire(true, true)
  {
  }

  lemma Pins(ddr: bv8)
    ensures Lines(ddr) == Wire(ddr & 0x01 == 0, ddr & 0x04 == 0)
  {
  }

  class Bus {
    var ddrb: bv8
    ghost var trace: seq<Wire>

    ghost function Heard(): Receiver
      reads this
    {
      Receive(trace)
    }

    ghost predicate Valid()
      reads this
    {
      Heard().last == Lines(ddrb)
    }

    /** I2C_init: whatever the pins did before, the lines are released. */
    constructor (ddr: bv8)
      ensures Valid() && Idle(Heard()) && Heard().frames == []
    {
      ddrb := Released(ddr);
      trace := [];
      new;
      LineChanges(ddr);
    }

    /** One write to the direction register. */
    method Set(ddr: bv8)
      modifies this
      ensures ddrb == ddr && Valid() && Heard() == Sense(old(Heard()), Lines(ddr))
    {
      hide Lines, Sense;
      ReceiveOne(trace, Lines(ddr));
      trace := trace + [Lines(ddr)];
      ddrb := ddr;
      SensedLast(old(Heard()), Lines(ddr));
    }

    /** I2C_init on lines that are idle: the receiver does not notice. */
    method Release()
      requires Valid() && Idle(Heard())
      modifies this
      ensures Valid() && Idle(Heard()) && Heard() == old(Heard())
    {
      hide Lines, Released, Receive;
      LineChanges(ddrb);
      Set(Released(ddrb));
    }

    /** I2C_write: the byte, most significant bit first, and a clock for the bit that
        the receiver acknowledges with. */
    method Write(data: octet)
      requires Valid() && Ready(Heard())
      modifies this
      ensures Valid() && Ready(Heard())
      ensures Heard() == old(Heard()).(last := Heard().last, bytes := old(Heard().bytes) + [data])
    {
      hide SdaHigh, SdaLow, SclHigh, SclLow, Lines, Receive;
      var d: nat, i := data, 8;
      ghost var sent := 0;
      while i > 0
        invariant 0 <= i <= 8 && sent == 8 - i && Valid() && d < 256
        invariant Heard() == old(Heard()).(last := Heard().last, count := sent, acc := Heard().acc)
        invariant !Heard().last.scl
        invariant 256 * Heard().acc + d == Doubled(data, sent)
      {
        LineChanges(ddrb);
        if d >= 128 { Set(SdaHigh(ddrb)); } else { Set(SdaLow(ddrb)); }
        LineChanges(ddrb);
        Set(SclHigh(ddrb));
        LineChanges(ddrb);
        Set(SclLow(ddrb));
        i, d, sent := i - 1, 2 * d % 256, sent + 1;
      }
      DoubledEight(data);
      LineChanges(ddrb);
      Set(SdaHigh(ddrb));
      LineChanges(ddrb);
      Set(SclHigh(ddrb));
      LineChanges(ddrb);
      Set(SclLow(ddrb));
    }

    /** I2C_start. */
    method Start(addr: octet)
      requires Valid() && Idle(Heard())
      modifies this
      ensures Valid() && Ready(Heard())
      ensures Heard().bytes == [addr] && Heard().frames == old(Heard().frames)
    {
      hide SdaHigh, SdaLow, SclHigh, SclLow, Lines, Receive;
      LineChanges(ddrb);
      Set(SdaLow(ddrb));
      LineChanges(ddrb);
      Set(SclLow(ddrb));
      Write(addr);
    }

    /** I2C_stop. Raising SCL first makes the receiver take in one bit of a byte that
        does not come; the STOP drops it. */
    method Stop()
      requires Valid() && Ready(Heard())
      modifies this
      ensures Valid() && Idle(Heard())
      ensures Heard().frames == old(Heard().frames) + [old(Heard().bytes)]
    {
      hide SdaHigh, SdaLow, SclHigh, SclLow, Lines, Receive;
      LineChanges(ddrb);
      Set(SdaLow(ddrb));
      LineChanges(ddrb);
      Set(SclHigh(ddrb));
      LineChanges(ddrb);
      Set(SdaHigh(ddrb));
    }

    /** A whole frame: what the receiver hears is what was sent. */
    method Frame(addr: octet, payload: seq<octet>)
      requires Valid() && Idle(Heard())
      modifies this
      ensures Valid() && Idle(Heard())
      ensures Heard().frames == old(Heard().frames) + [[addr] + payload]
    {
      hide Receive, Sense;
      Start(addr);
      var i := 0;
      while i < |payload|
        invariant 0 <= i <= |payload| && Valid() && Ready(Heard())
        invariant Heard().bytes == [addr] + payload[..i] && Heard().frames == old(Heard().frames)
      {
        Write(payload[i]);
        i := i + 1;
      }
      assert payload[..i] == payload;
      Stop();
    }
  }

  lemma SensedLast(r: Receiver, w: Wire)
    ensures Sense(r, w).last == w
  {
  }
}
