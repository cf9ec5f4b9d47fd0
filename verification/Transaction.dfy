/** A host at the other end of the line: one packet and the device's answer to it. */
module Transaction {
  import opened Bits
  import opened LineCoding
  import opened LinePort
  import opened LineDriving
  import opened UsbControl
  import opened UsbShared
  import opened UsbHistory
  import opened UsbRequests
  import opened UsbDriver
  import Loopback
  import LineTracking

  /** A packet sent to the device is the packet its interrupt routine handles, whatever
      the pins beside the line do, and the answer is on the line in full. */
  method HostSends(device: Device, sender: Loopback.Sender, hostOut: byte, own: seq<byte>, out: byte,
                   ram: seq<byte>, start: nat, count: nat)
    returns (answer: seq<byte>)
    requires device.Valid() && Masked(hostOut) == 0 && Masked(out) == 0
    requires 2 <= count <= 255 && (sender.Send12? ==> count <= 85)
    requires start + count <= |ram| && LineTracking.ValidPid(ram[start])
    modifies device.usbRxBuf, device`usbCurrentTok, device`usbRxLen, device`usbRxToken, device`usbInputBufOffset,
             device`usbTxLen, device`usbTxLen1, device`usbDeviceAddr, device`log
    ensures device.Valid()
    ensures var r := ReceptionOf(ram[start..start + count - 1]);
      && r.Valid() && Wellformed(old(device.S()))
      && device.W() == Next(old(device.W()), r)
      && var reply := Interrupt(old(device.S()), r).reply;
         Sendable(reply) && answer == OnTheLine(out, reply)
  {
    hide Masked, LinePort.Code, Drive, Shows, PacketLevels, BodyLevels, DriveAll, LineTracking.ValidPid,
      Loopback.DoubleK,
      Loopback.Wired, Inv, Wellformed, Interrupt, Sendable, OnTheLine, Setups, LineTracking.Carries;
    ghost var bytes := ram[start..start + count - 1];
    InvWellformed(device.W(), device.code);
    var trace := Loopback.Send(sender, hostOut, ram, start, count);
    var port := Loopback.Wired(trace, own);
    Loopback.PacketArrives(hostOut, own, bytes, trace);
    var found, sync := Loopback.WaitForSync(port);
    Loopback.SyncEnds(port, bytes, 8);
    if found && sync < 8 { Loopback.SyncEnds(port, bytes, sync); }
    Loopback.BodyFollows(port, bytes);
    assert LineTracking.Carries(port, sync, bytes) by { ItCarries(port, sync, bytes, ram, start); }
    ghost var w, r := device.W(), ReceptionOf(bytes);
    ghost var got;
    answer, got := device.UsbInterrupt(port, sync, out, bytes);
    InvKept(w, device.code, [r]);
    assert [r][1..] == [];
    assert AfterAll(w, [r]) == Next(w, r);
  }

  lemma ItCarries(port: seq<byte>, start: nat, bytes: seq<byte>, ram: seq<byte>, at: nat)
    requires Shows(port, start, BodyLevels(bytes)) && at < |ram| && bytes != []
    requires bytes[0] == ram[at] && LineTracking.ValidPid(ram[at])
    ensures LineTracking.Carries(port, start, bytes)
  {
    hide Shows, BodyLevels, LineTracking.ValidPid;
  }
}
