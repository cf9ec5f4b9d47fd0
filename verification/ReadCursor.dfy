/** usbFunctionRead of main.cpp: a cursor over a text that is one byte behind what is
    sent, because the first byte of the report is left out of the copy. */
module ReadCursor {
  import opened Bits
  import CrcForms

  /** The 32 characters of MSG and the terminating zero. */
  const SIZE: nat := 33

  /** The chunks the driver asks for: eight bytes while there are eight to ask for. */
  function Want(left: nat): nat { if left > 8 then 8 else left }

  class Report {
    const msg: array<byte>
    var currentAddress: nat
    var bytesRemaining: nat
    var reportId: nat

    ghost predicate Valid()
      reads this
    {
      msg.Length == SIZE && currentAddress + bytesRemaining == SIZE
    }

    constructor (text: seq<byte>)
      requires |text| == SIZE
      ensures msg.Length == SIZE && msg[..] == text && fresh(msg)
    {
      msg := new byte[SIZE](i requires 0 <= i < SIZE => text[i]);
      currentAddress, bytesRemaining, reportId := 0, 0, 0;
    }

    /** usbFunctionSetup for GET_REPORT. */
    method UsbFunctionSetup(report: nat) returns (useRead: bool)
      modifies this
      ensures reportId == report && (useRead <==> report == 1)
      ensures msg.Length == SIZE && useRead ==> Valid() && currentAddress == 0
    {
      reportId := report;
      useRead := report == 1;
      if useRead {
        bytesRemaining := 33;
        currentAddress := 0;
      }
    }

    /** memcpy(&data[to], &MSG[from], len). */
    method CopyText(data: array<byte>, to: nat, from: nat, len: nat)
      requires data != msg && from + len <= msg.Length && to + len <= data.Length
      modifies data
      ensures data[..] == old(data[..to]) + msg[from..from + len] + old(data[to + len..])
    {
      var i := 0;
      while i < len
        invariant 0 <= i <= len
        invariant data[..] == old(data[..to]) + msg[from..from + i] + old(data[to + i..])
      {
        data[to + i] := msg[from + i];
        i := i + 1;
      }
    }

    /** usbFunctionRead, for a chunk that is to begin at data[at]. The first chunk goes
        one place further, so one byte past the chunk; a transmit buffer has room for
        that, and the byte is one of the two that the CRC is put into afterwards. */
    method UsbFunctionRead(data: array<byte>, at: nat, want: nat) returns (len: nat)
      requires Valid() && data != msg && reportId == 1 && 1 <= want <= 8 && at + 9 <= data.Length
      modifies this`currentAddress, this`bytesRemaining, data
      ensures Valid() && len == if want > old(bytesRemaining) then old(bytesRemaining) else want
      ensures old(currentAddress) == 0 ==>
        && currentAddress == len - 1 && data[at] == old(data[at]) && data[at + 1..at + len] == msg[..len - 1]
      ensures old(currentAddress) > 0 ==>
        && currentAddress == old(currentAddress) + len
        && data[at..at + len] == msg[old(currentAddress)..currentAddress]
      ensures data[..at] == old(data[..at])
    {
      len := want;
      if len > bytesRemaining { len := bytesRemaining; }
      ghost var before := data[..];
      if currentAddress == 0 {
        CopyText(data, at + 1, currentAddress, len);
        Piece(before, data[..], at + 1, msg[..len], len - 1);
        assert data[at] == before[at];
        currentAddress := currentAddress + (len - 1);
        bytesRemaining := bytesRemaining - (len - 1);
      } else {
        CopyText(data, at, currentAddress, len);
        Piece(before, data[..], at, msg[currentAddress..currentAddress + len], len);
        currentAddress := currentAddress + len;
        bytesRemaining := bytesRemaining - len;
      }
    }

    /** All the chunks of one control-read of wLength bytes, the way usbBuildTxBlock asks
        for them. Byte p of the report is character p - 1; byte 0 is what the transmit
        buffer happened to hold; there are at most 34, and every read is inside MSG. */
    method ReadReport(txBuf: array<byte>, wLength: nat) returns (sent: seq<byte>)
      requires Valid() && txBuf != msg && reportId == 1 && currentAddress == 0
      requires txBuf.Length == 11 && wLength <= 254
      modifies this`currentAddress, this`bytesRemaining, txBuf
      ensures Valid() && |sent| == if wLength < 34 then wLength else 34
      ensures wLength > 0 ==> sent[0] == old(txBuf[1])
      ensures forall p :: 1 <= p < |sent| ==> sent[p] == msg[p - 1]
    {
      var left := wLength;
      sent := [];
      var more := true;
      while more
        invariant Valid() && msg[..] == old(msg[..])
        invariant |sent| + left == wLength || (!more && |sent| == 34 <= wLength)
        invariant sent == [] && more ==> currentAddress == 0 && left == wLength && txBuf[1] == old(txBuf[1])
        invariant sent != [] ==> sent[0] == old(txBuf[1]) && currentAddress == |sent| - 1
        invariant sent != [] && more ==> |sent| % 8 == 0
        invariant !more ==> (sent != [] || wLength == 0) && (left == 0 || |sent| == 34)
        invariant forall p :: 1 <= p < |sent| ==> sent[p] == msg[p - 1]
        decreases left, more
      {
        var want := Want(left);
        var len := 0;
        left := left - want;
        ghost var before := currentAddress;
        if want > 0 { len := UsbFunctionRead(txBuf, 1, want); }
        sent := sent + txBuf[1..1 + len];
        CrcForms.UsbCrc16Append(txBuf, 1, len);
        more := len == 8;
      }
    }
  }

  lemma Piece<T>(before: seq<T>, after: seq<T>, to: nat, piece: seq<T>, n: nat)
    requires to + |piece| <= |before| && n <= |piece|
    requires after == before[..to] + piece + before[to + |piece|..]
    ensures after[to..to + n] == piece[..n] && after[..to] == before[..to]
  {
  }
}
