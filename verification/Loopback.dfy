/** A packet from one device's transmit loop into another's receive loop. */
module Loopback {
  import opened Bits
  import opened LineCoding
  import opened LinePort
  import opened LineTracking
  import opened LineDriving
  import Transmit12
  import Transmit16
  import Transmit20
  import Receive12
  import Receive16
  import Receive20

  /** The receiver's port: the line's two pins, and six pins of its own. */
  function Wire(sent: byte, own: byte): byte { (sent & 0x14) | (own & 0xeb) }

  function Wired(sent: seq<byte>, own: seq<byte>): (r: seq<byte>)
    ensures |r| == |sent|
    ensures forall i :: 0 <= i < |r| ==> r[i] == Wire(sent[i], Sample(own, i))
  {
    hide Wire;
    seq(|sent|, i requires 0 <= i < |sent| => Wire(sent[i], Sample(own, i)))
  }

  lemma WireKeepsLine(sent: byte, own: byte)
    ensures Masked(Wire(sent, own)) == Masked(sent)
  {
  }

  lemma {:induction false} WiredShows(sent: seq<byte>, own: seq<byte>, i: nat, levels: seq<Level>)
    requires Shows(sent, i, levels) && i + |levels| <= |sent|
    ensures Shows(Wired(sent, own), i, levels)
    decreases levels
  {
    hide Masked, Code, Wire;
    if levels != [] {
      WireKeepsLine(sent[i], Sample(own, i));
      WiredShows(sent, own, i + 1, levels[1..]);
    }
  }

  /** Where the last two readings had D- low: the double K that ends the sync. */
  predicate DoubleK(port: seq<byte>, i: nat) {
    2 <= i <= |port| && !Minus(port[i - 2]) && !Minus(port[i - 1])
  }

  /** waitForK, one reading per bit time, from an idle line. */
  method WaitForSync(port: seq<byte>) returns (found: bool, start: nat)
    ensures found ==> DoubleK(port, start) && forall i :: 0 <= i < start ==> !DoubleK(port, i)
    ensures !found ==> forall i :: !DoubleK(port, i)
  {
    hide Minus;
    var i: nat := 0;
    while i < |port|
      invariant i <= |port|
      invariant 0 < i < |port| ==> Minus(port[i - 1]) || Minus(port[i])
      invariant forall k :: 0 <= k <= i ==> !DoubleK(port, k)
    {
      if Minus(port[i]) {                          // waitForK
        i := i + 1;
      } else if i + 1 < |port| && !Minus(port[i + 1]) {
        return true, i + 2;                        // haveTwoBitsK
      } else {
        i := i + 1;
      }
    }
    return false, 0;
  }

  lemma MinusShown(p: byte, l: Level)
    requires Masked(p) == Code(l)
    ensures Minus(p) <==> l == J
  {
    match l
    case J =>
    case K =>
    case SE0 =>
  }

  lemma {:induction false} ShownAt(port: seq<byte>, i: nat, levels: seq<Level>, k: nat)
    requires Shows(port, i, levels) && k < |levels|
    ensures Masked(Sample(port, i + k)) == Code(levels[k])
    decreases k
  {
    hide Masked, Code;
    if k > 0 { ShownAt(port, i + 1, levels[1..], k - 1); }
  }

  /** The double K of a packet is the end of its sync pattern. */
  lemma SyncEnds(port: seq<byte>, bytes: seq<byte>, i: nat)
    requires Shows(port, 0, PacketLevels(bytes)) && |port| == |PacketLevels(bytes)|
    ensures DoubleK(port, 8)
    ensures i < 8 ==> !DoubleK(port, i)
  {
    hide Masked, Code, Minus, BodyLevels, PacketLevels;
    PacketIsSyncAndBody(bytes);
    var levels := PacketLevels(bytes);
    var sync := [K, J, K, J, K, J, K, K];
    forall k | 0 <= k < 8 ensures Minus(port[k]) <==> sync[k] == J {
      assert levels[k] == sync[k];
      ShownAt(port, 0, levels, k);
      MinusShown(port[k], levels[k]);
    }
  }

  lemma BodyFollows(port: seq<byte>, bytes: seq<byte>)
    requires Shows(port, 0, PacketLevels(bytes))
    ensures Shows(port, 8, BodyLevels(bytes))
  {
    hide Shows, BodyLevels, PacketLevels;
    PacketIsSyncAndBody(bytes);
    var sync := [K, J, K, J, K, J, K, K];
    ShowsAppend(port, 0, sync + BodyLevels(bytes), [J]);
    ShowsAppend(port, 0, sync, BodyLevels(bytes));
  }

  datatype Sender = Send12 | Send16 | Send20
  datatype Receiver = Receive12MHz | Receive16MHz | Receive20MHz

  method Send(sender: Sender, out: byte, ram: seq<byte>, start: nat, count: nat) returns (trace: seq<byte>)
    requires Masked(out) == 0 && 1 <= count <= 255 && (sender.Send12? ==> count <= 85) && start + count <= |ram|
    ensures trace == DriveAll(out, PacketLevels(ram[start..start + count - 1]))
  {
    hide *;
    var assign: bool;
    match sender {
      case Send12 => trace, assign := Transmit12.Send(out, ram, start, count, false);
      case Send16 => trace, assign := Transmit16.Send(out, ram, start, count, 0xff, false);
      case Send20 => trace, assign := Transmit20.Send(out, ram, start, count, 0xff, false);
    }
  }

  /** On every line that carries a packet the three receivers store the same. */
  method Receive(receiver: Receiver, port: seq<byte>, start: nat, buf: array<byte>, off: nat, ghost bytes: seq<byte>)
    returns (outcome: Outcome)
    requires off + BUFSIZE <= buf.Length && Carries(port, start, bytes)
    modifies buf
    ensures outcome == (if |bytes| <= BUFSIZE then Packet(|bytes|) else Overflow)
    ensures var kept := if |bytes| <= BUFSIZE then |bytes| else BUFSIZE;
      buf[..] == old(buf[..off]) + bytes[..kept] + old(buf[off + kept..])
  {
    hide *;
    ghost var y;
    match receiver {
      case Receive12MHz => outcome, y := Receive12.Receive(port, start, buf, off, bytes);
      case Receive16MHz => outcome, y := Receive16.Receive(port, start, buf, off, bytes);
      case Receive20MHz => outcome, y := Receive20.Receive(port, start, buf, off, bytes);
    }
  }

  lemma PacketArrives(out: byte, own: seq<byte>, bytes: seq<byte>, trace: seq<byte>)
    requires trace == DriveAll(out, PacketLevels(bytes))
    ensures var port := Wired(trace, own);
      Shows(port, 0, PacketLevels(bytes)) && |port| == |PacketLevels(bytes)|
  {
    hide Masked, Code, Drive, Wire, Shows, PacketLevels;
    var levels := PacketLevels(bytes);
    DriveShows(out, [], levels);
    assert [] + trace == trace;
    WiredShows(trace, own, 0, levels);
  }

  /** Receive undoes transmit, whichever loops the two devices run and whatever their
      other port pins do: the bytes sent, up to the eleven there is room for, are
      stored at `off` and nothing else is written. */
  method SendAndReceive(sender: Sender, receiver: Receiver, out: byte, own: seq<byte>,
                        ram: seq<byte>, start: nat, count: nat, buf: array<byte>, off: nat)
    returns (outcome: Outcome)
    requires Masked(out) == 0 && 2 <= count <= 255 && (sender.Send12? ==> count <= 85) && start + count <= |ram|
    requires ValidPid(ram[start]) && off + BUFSIZE <= buf.Length
    modifies buf
    ensures var n := count - 1; var kept := if n <= BUFSIZE then n else BUFSIZE;
      && outcome == (if n <= BUFSIZE then Packet(n) else Overflow)
      && buf[..] == old(buf[..off]) + ram[start..start + kept] + old(buf[off + kept..])
  {
    hide Masked, Code, Drive, Wire, Shows, PacketLevels, BodyLevels, ValidPid, DoubleK, Wired, DriveAll;
    ghost var bytes := ram[start..start + count - 1];
    var trace := Send(sender, out, ram, start, count);
    var port := Wired(trace, own);
    PacketArrives(out, own, bytes, trace);
    var found, sync := WaitForSync(port);
    SyncEnds(port, bytes, 8);
    if found && sync < 8 { SyncEnds(port, bytes, sync); }
    BodyFollows(port, bytes);
    outcome := Receive(receiver, port, sync, buf, off, bytes);
    assert forall kept: nat :: kept <= |bytes| ==> bytes[..kept] == ram[start..start + kept];
  }
}
