# The V-USB device in Dafny

A model of the firmware's software USB stack (V-USB, built for 16 MHz) and of the
two smaller pieces of the firmware with a loop invariant worth having: the OLED
terminal and the oscillator calibration. `dafny verify dfyconfig.toml` checks all of
it.

## How it is built

**Check words** (`Crc16`, `CrcForms`, `CrcTables`). The CRC16 of USB 2.0 section
8.3.5.2 as a bit-serial register, four register-level forms of it (small, fast,
table, pipelined checker) as loops over 8-bit registers, and the residue and error
detection theorems.

**The line** (`LineCoding`, `LinePort`, `LineTracking`, `Receive12/16/20`,
`LineDriving`, `Transmit12/16/20`, `Loopback`). One port reading or port value per bit
time. The specification is a plain stuffing, NRZI and packet function; the six loops
follow the instructions on their registers, with carries, masks and counters written
out, and are proved against it. Other pins of the port are arbitrary.

**The driver** (`UsbShared`, `UsbControl`, `UsbWire`, `UsbHistory`, `UsbSteps`,
`UsbRequests`, `UsbCodes`, `UsbTheorems`, `UsbDriver`, `Transaction`, `ControlTransfers`). `UsbDriver.Device` is usbdrv.c and asmcommon.inc with
their variables as fields. The interrupt routine takes port readings, runs the receive
loop on the buffer half it owns, decides, and runs the transmit loop; its effect is one
step of the function `UsbShared.Interrupt`. The C code is a sequence of single accesses
to shared memory; a call of `Preempt` stands between any two of them to what the
interrupt routine writes and behind every write to what it reads. `Preempt` runs the
routine any number of times on arbitrary readings, so what is proved holds for every
interleaving. (usbCrc16Append is one access: it only touches a transmit buffer, and the
interrupt routine neither writes those nor sends one that is being filled.) A ghost log
holds the bus record of `UsbWire`, every packet received with the answer to it, and
what the driver made of it: what was acknowledged, delivered and sent, and for which
control transfer. The invariants in `UsbHistory` tie it to the memory at every one of
those points; `UsbControl` says what each SETUP is to be answered with, `UsbCodes` says it
once more in numbers, and `ControlTransfers` in bytes and levels on the line, from the
host's side. Values the driver gets from elsewhere are arbitrary: what usbFunctionSetup,
usbFunctionRead and usbFunctionWrite return, whether the bus is in reset, and the
descriptors' contents.

**The rest.** `ReadCursor` is usbFunctionRead under the driver's chunking. `I2c` is the
bit-banged bus with a receiver that decodes it, `Ssd1306` the display controller's
memory, `Oled` the terminal on top of both. `Oscillator` is calibrateOscillator with
the measurement as a monotone function.

## Where the code and its documentation part

- usbdrv.c says the new address "should be set after status phase". It is set by any
  data packet, one of endpoint 1 included (`UsbTheorems.Endpoint1AssignsAddress`).
- usbdrv.h says that after an error reported by usbFunctionWrite the driver answers the
  entire transfer with STALL. In the round of usbPoll that hands over the packet the
  STALL stays exactly if usbMsgLen is USB_NO_MSG (`UsbDriver.Device.UsbPoll`); if another
  packet has been confirmed in the meantime it is not, and data is sent after all
  (`UsbTheorems.ErrorSkipsToken`).
- usbdrv.h says a message set before the old one was sent replaces it. It may also
  follow it with the same data token; `UsbDriver.Device.UsbSetInterrupt` states exactly
  when, `UsbTheorems.TestThenStoreRaces` gives the packet that does it, and the main
  loop's guard excludes it (`UsbDriver.Device.MainLoop`).
- main.cpp calls the deviation its second search starts from "certainly far away from
  optimum". It is the raw last measurement and can be less than any deviation:
  `Oscillator.FarFromOptimum` has a measurement for which the result is not the best
  setting, `Oscillator.CalibrateOscillator` the exact condition under which it is, and
  `Oscillator.NeighbourhoodRounds` the two settings at which the search does not end.
- Byte 0 of the report read by the host is never written
  (`ReadCursor.Report.ReadReport`).

## Model

| member | source | states |
|---|---|---|
| Crc16.CrcBytesIsCrc | firmware/usbdrv/usbdrvasm.S:150-168 | Feeding whole bytes through eight polynomial divisions is, for every byte string and every start value, the bit-serial CRC16 of USB 2.0 section 8.3.5.2 (reflected polynomial 0xa001). |
| CrcForms.UsbCrc16Small | firmware/usbdrv/usbdrvasm.S:232-259 | For every length 0..255 the small form, which keeps the complemented register, shifts in carries that are always set, counts rounds by subtracting 224 and bytes by a complemented length, returns the check word of exactly those bytes. |
| CrcForms.TableClosedForm | firmware/usbdrv/usbdrvasm.S:151-160 | `table(x)` of the fast form, (x<<6) ^ (x<<7) ^ parity, is eight polynomial divisions of x. |
| CrcForms.FastUpdate | firmware/usbdrv/usbdrvasm.S:183-210 | One round of the fast form's register dance (folded parity, negated mask, two shifts through a cleared byte) is one CRC byte step. |
| CrcForms.UsbCrc16Fast | firmware/usbdrv/usbdrvasm.S:177-216 | The fast form returns the same check word for every byte string of length 0..255. |
| CrcForms.UsbCrc16Append | firmware/usbdrv/usbdrvasm.S:264-268 | The two check bytes, low byte first, are written directly behind the data; every other byte of the buffer stays. |
| CrcForms.ComputeCrcTable | firmware/usbdrv/usbdrvasm18-crc.inc:626-634 | The table form computes the complement of the check word of every message. |
| CrcForms.MagicStart | firmware/usbdrv/usbdrvasm18-crc.inc:52-53 | The start values 0x54 and 0xFE stand for a register of 0xFFFF that has seen nothing. |
| CrcForms.PipelineStep | firmware/usbdrv/usbdrvasm18-crc.inc:508-549 | One trip through the pipeline (table lookup of the byte fed in one round earlier, then the next byte) keeps the register settled. |
| CrcForms.CheckPipelined | firmware/usbdrv/usbdrvasm18-crc.inc:98-110 | The pipelined checker accepts exactly the strings whose last two bytes are what usbCrc16Append writes behind the others. |
| CrcTables.Entry | firmware/usbdrv/usbdrvasm18-crc.inc:638-705 | All 512 table bytes, which the table form and the pipelined checker look up, are those of the generator (lines 605 to 624): eight polynomial divisions of the index, low and high byte. |
| Crc16.AcceptsExactly | firmware/usbdrv/usbdrvasm18-crc.inc:107-110 | Residue theorem, both ways: for every string of bytes the register ends at 0xb001 if and only if the last two bytes are the check bytes of the rest. |
| Crc16.CrcParity | firmware/usbdrv/usbdrvasm18-crc.inc:616-619 | The parity of the register is conserved against the parity of the bits fed in, for every start value and bit string. |
| Crc16.UnnoticedExactly | firmware/usbdrv/usbdrvasm18-crc.inc:107-110 | An accepted packet with an error pattern on it is accepted again if and only if the pattern alone divides to zero. |
| Crc16.OddErrorsRejected | firmware/usbdrv/usbdrvasm18-crc.inc:107-110 | Every error pattern with an odd number of flipped bits, so every single-bit error, is rejected, at any packet length. |
| Crc16.BurstRejected | firmware/usbdrv/usbdrvasm18-crc.inc:107-110 | Every error burst of at most 16 bits, anywhere in a packet of any length, is rejected. |
| Crc16.TwoErrorsRejected | firmware/usbdrv/usbdrvasm18-crc.inc:107-110 | Any two flipped bits in the at most 80 bits a packet of USB_BUFSIZE bytes has behind its PID are rejected. |
| LineCoding.UnstuffUndoesStuff | firmware/usbdrv/usbdrvasm16.inc:122-152 | Unstuffing what was stuffed gives back the bits, from any run of ones before them (USB 2.0 section 7.1.9). |
| LineCoding.StuffUndoesUnstuff | firmware/usbdrv/usbdrvasm16.inc:122-152 | Every line bit string that unstuffs without error is the stuffing of what it unstuffs to. |
| LineCoding.DenrziUndoesNrzi | firmware/usbdrv/usbdrvasm16.inc:158-199 | Comparing successive levels recovers the bits NRZI coded (section 7.1.8). |
| LineCoding.PacketIsSyncAndBody | firmware/usbdrv/usbdrvasm16.inc:281-283 | The sync byte 0x80 goes on the line as KJKJKJKK, and its last bit counts for the stuffing of the first data byte. |
| LineCoding.EightLevelsMove | firmware/usbdrv/usbdrvasm16.inc:235-251 | In a packet of any bytes no eight successive line levels are equal. |
| LineCoding.SevenLevelsRest | firmware/usbdrv/usbdrvasm16.inc:235-251 | Exactly how still the line can be: some seven successive levels of a packet are equal if and only if at least one bit of it is stuffed, since the level before six ones counts too. |
| LineCoding.FullByteRests | firmware/usbdrv/usbdrvasm16.inc:235-251 | It does happen: in every packet with a byte 0xff in it, whatever its PID. |
| LineTracking.CountIsReceived | firmware/usbdrv/asmcommon.inc:55-57 | At SE0 the 8-bit arithmetic on the remaining count gives the number of bytes received, for every number up to USB_BUFSIZE. |
| Receive16.Receive | firmware/usbdrv/usbdrvasm16.inc:98-209 | For any port readings only the eleven bytes at the given offset can be written; if the readings show a well-formed packet, its bytes are stored in order and counted, or the packet is reported as overrun with its first eleven bytes stored. The loop inverts bit 0, does not count the sync's final one and clears bits to prevent repeated unstuffing. |
| Receive12.Receive | firmware/usbdrv/usbdrvasm12.inc:92-249 | The same for the 12 MHz loop with inverted bits, sliding masks and 0xff markers. |
| Receive20.Receive | firmware/usbdrv/usbdrvasm20.inc:124-226 | The same for the 20 MHz loop with a counter of ones and a marker bit in the byte. |
| LineDriving.PaySixth | firmware/usbdrv/usbdrvasm16.inc:235-241 | Holding the level for the sixth one and toggling it for the stuffed zero pays exactly two line levels of what is owed. |
| Transmit16.Send | firmware/usbdrv/usbdrvasm16.inc:235-342 | For every byte string the loop (counter 0x35 for six bits, special paths for bits 6 and 7, history against 0xfc) shows on the port exactly NRZI of the stuffed bits of sync and bytes, two SE0 and idle, its other six pins unchanged; the address is assigned unless the pointer came from register 20. |
| Transmit12.Send | firmware/usbdrv/usbdrvasm12.inc:271-388 | The same line levels from the loop that counts ones down from six, stuffs by waiting one bit time, and steps `cnt` by 171 (three steps are one byte). |
| Transmit20.Send | firmware/usbdrv/usbdrvasm20.inc:260-356 | The same line levels from the loop counted by 0x49, with its own stuffing path only for bit 7. |
| Loopback.WaitForSync | firmware/usbdrv/usbdrvasm16.inc:50-91 | Finds the first double K on the line and nothing else, one reading per bit time. |
| Loopback.Receive | firmware/usbdrv/usbdrvasm20.inc:124-226 | On every line that carries a packet the three receivers leave the same buffer and report the same outcome. |
| Loopback.SendAndReceive | firmware/usbdrv/usbdrvasm16.inc:98-317 | Receive undoes transmit, for each of the nine pairs of loops, any length the sender can count and any state of the other port pins: a packet with a valid PID is stored byte for byte, up to the eleven there is room for, and nothing else in the buffer changes. |
| UsbShared.HandshakesHaveBit4 | firmware/usbdrv/asmcommon.inc:145-147 | ACK, NAK and STALL have bit 4 set; the length words of packets of 0 to 8 bytes do not. |
| UsbShared.MailboxTurn | firmware/usbdrv/asmcommon.inc:104-127 | A packet is taken in only when none is waiting; it is then the waiting one, it is exactly the payload received, and it has been acknowledged. Nothing else is ever recorded as received. |
| UsbShared.AddressTurn | firmware/usbdrv/usbdrvasm16.inc:320-329 | The address register changes only when a data packet is sent, and then to the new address. |
| UsbShared.SendingTurn | firmware/usbdrv/asmcommon.inc:133-151 | A data packet is sent only while no received packet waits, only from a buffer whose length word is a length, as the buffer's contents; it leaves NAK in the length word, and length words do not change otherwise. |
| UsbShared.SteadyTurn | firmware/usbdrv/asmcommon.inc:104-175 | What the C code relies on: a waiting packet and both length words are frozen while it waits, a length word with bit 4 set stays, transmit buffers are only read. |
| UsbWire.Recorded | firmware/usbdrv/asmcommon.inc:54-175 | One more packet on the bus record, with its answer: what the driver then has taken in and sent is still what can be read off the record, data packets are answered only after a token for this device and INs only at its address and from the endpoint they name, and the current token is that of the last token packet. |
| UsbWire.AcknowledgedOnce | firmware/usbdrv/asmcommon.inc:104-127 | Exactly once: in a whole record each data packet with a payload that was answered ACK is one packet taken in, with its token and payload, at the place the acknowledged ones before it give it; every other packet, so each answered NAK, is none. |
| UsbWire.SentOnce | firmware/usbdrv/asmcommon.inc:145-175 | In a whole record each data packet sent from an endpoint is one packet in the list of those sent, in order, with everything acknowledged when it went out. |
| UsbWire.OrderlyAt | firmware/usbdrv/asmcommon.inc:61-94 | At every place of a record the answer is of the right kind and the token carried on is that of the last SETUP or OUT for this device, given up on anything but data and IN. |
| UsbCodes.TypeIs | firmware/usbdrv/usbdrv.h:685-706 | bmRequestType as a number: standard means that b / 32 % 4 is 0, device to host that b is at least 128. |
| UsbCodes.ReplyInCodes | firmware/usbdrv/usbdrv.c:315-410 | The reply due to a standard request, for every request code and descriptor type as a number. |
| UsbCodes.SettingsInCodes | firmware/usbdrv/usbdrv.c:388-396 | What SET_ADDRESS, 5, and SET_CONFIGURATION, 9, set, as numbers, and that nothing else does. |
| UsbCodes.SetupInCodes | firmware/usbdrv/usbdrv.c:444-471 | What an 8-byte SETUP begins, in numbers, for every answer of usbFunctionSetup. |
| UsbCodes.OutInCodes | firmware/usbdrv/usbdrv.c:438-483 | What every other packet does, in numbers, for every answer of usbFunctionWrite. |
| UsbCodes.OthersInCodes | firmware/usbdrv/asmcommon.inc:62-81 | A packet whose first byte is none of 0x2d, 0xe1, 0x69, 0xc3 and 0x4b is not answered and disowns the data packet after it. |
| UsbCodes.TokenInCodes | firmware/usbdrv/asmcommon.inc:67-75 | A token's address is its second byte modulo 128, and its endpoint is 0 exactly if the second byte is below 128 and the third a multiple of 8. |
| UsbHistory.InvKept | firmware/usbdrv/asmcommon.inc:54-175 | All invariants of a run survive any number of interrupts with any packets, at any point of the C code, and so does the agreement with the bus record; what was recorded is only added to, and nothing is taken in or sent while a packet waits. |
| UsbHistory.BlockSent | firmware/usbdrv/asmcommon.inc:145-151 | What is sent on endpoint 0 is a completed block of the transfer that the last SETUP acknowledged asks for, and the next one in order. |
| UsbHistory.MessageSent | firmware/usbdrv/asmcommon.inc:163-175 | What is sent on endpoint 1 is the completed message, with the next number. |
| UsbSteps.WriteTxBuf | firmware/usbdrv/usbdrv.c:530-534 | A write to usbTxBuf keeps every invariant while the buffer is claimed, that is while a packet waits or bit 4 of usbTxLen is set. |
| UsbSteps.Abort | firmware/usbdrv/usbdrv.c:442-443 | usbTxLen = NAK on an 8-byte SETUP starts the next transfer with nothing built and nothing to send. |
| UsbSteps.Complete | firmware/usbdrv/usbdrv.c:537-545 | usbTxLen = len makes a block visible to the interrupt routine in one step, complete with its CRC. |
| UsbSteps.Stalled | firmware/usbdrv/usbdrv.c:476-477 | usbTxLen = STALL for an OUT packet keeps every invariant; a packet that was yet to be sent is dropped, and its token with it. |
| UsbSteps.StalledBuild | firmware/usbdrv/usbdrv.c:541-545 | usbTxLen = STALL in place of a block keeps every invariant and uses up a token. |
| UsbSteps.Deliver | firmware/usbdrv/usbdrv.c:573-581 | Handing the waiting packet to usbProcessRx moves it from waiting to delivered. |
| UsbSteps.Release | firmware/usbdrv/usbdrv.c:586 | usbRxLen = 0 frees the buffer half without losing or repeating a packet. |
| UsbSteps.SetAddress | firmware/usbdrv/usbdrv.c:388-389 | usbNewDeviceAddr = value leaves the device answering to its old address. |
| UsbSteps.ResetAddress | firmware/usbdrv/usbdrv.c:600-601 | usbDeviceAddr = 0 after usbNewDeviceAddr = 0 is consistent however the interrupt falls between them. |
| UsbSteps.ResetToggling | firmware/usbdrv/usbdrv.c:195-203 | usbTxBuf1[0] = DATA1 on SET_INTERFACE renumbers a message that waits: it goes out as DATA1 and DATA0 follows. |
| UsbSteps.Withdraw | firmware/usbdrv/usbdrv.c:230-232 | usbTxLen1 = NAK withdraws a waiting message, unless the interrupt routine has sent it since the test. |
| UsbSteps.Complete1 | firmware/usbdrv/usbdrv.c:238-239 | usbTxLen1 = len + 4 makes a message visible in one step, numbered on from the last one or repeating its number. |
| UsbRequests.SendReply | firmware/usbdrv/usbdrvasm16.inc:254-274 | Handshakes go out from register 20 and data from SRAM, so exactly data packets assign the address. |
| UsbRequests.NextBlock | firmware/usbdrv/usbdrv.c:527-540 | One block further, what is built is the next slice of the reply and what is left is the rest of it. |
| UsbRequests.BlockLeaves | firmware/usbdrv/usbdrv.c:530-547 | After a block of eight the message goes on with the rest; after a shorter one it is over, and then n/8 + 1 blocks have been built of n bytes from memory; what usbFunctionRead gives stays within wLength. |
| UsbRequests.SetupAnswered | firmware/usbdrv/usbdrv.c:444-471 | What usbProcessRx settles for an 8-byte SETUP is what that SETUP asks for: to a standard request the reply due to it and to the SET_CONFIGURATIONs before it, never more than wLength if its high byte is zero, and a read or a write by its direction bit. |
| UsbDriver.Device.HandlePacket | firmware/usbdrv/asmcommon.inc:61-127 | The branches at se0, statement by statement on the variables, are the step function the lemmas are about; `ControlTransfers.HostGives` and `ControlTransfers.HostAsks` say in bytes on the line what that comes to. |
| UsbDriver.Device.HandleInToken | firmware/usbdrv/asmcommon.inc:129-175 | handleIn and handleIn1 are that step function for IN tokens. |
| UsbDriver.Device.ReceivePacket | firmware/usbdrv/usbdrvasm16.inc:78-81 | The receive loop run on the half at usbInputBufOffset leaves the packet there and touches nothing else. |
| UsbDriver.Device.UsbInterrupt | firmware/usbdrv/asmcommon.inc:54-175 | One run of the interrupt routine from port readings to the answer on the port: whatever the line shows it is one step on some packet, on the packet sent if it is well-formed, and the answer's line levels are those of the reply. |
| UsbDriver.Device.Preempt | firmware/usbdrv/usbdrv.c:27-30 | Between two accesses of the C code: any number of interrupts on any line activity keep the invariants. |
| UsbDriver.Device.PokeTxBuf | firmware/usbdrv/usbdrv.c:442 | A byte written to usbTxBuf and an interrupt point behind it. |
| UsbDriver.Device.UsbDeviceRead | firmware/usbdrv/usbdrv.c:491-518 | The bytes at usbMsgPtr (flash, RAM, the end of usbTxBuf itself or usbConfiguration) arrive in usbTxBuf unchanged, one at a time between interrupts, and the pointer moves on; or usbFunctionRead of any application gives them, writing where it likes behind the token. |
| UsbDriver.Device.AppendCheck | firmware/usbdrv/usbdrv.c:537 | The CRC behind the block, with the block untouched; `UsbTheorems.PacketAccepted` says that it is the one a host's test accepts. |
| UsbDriver.Device.CompleteBlock | firmware/usbdrv/usbdrv.c:536-545 | A filled buffer becomes the block on offer: token, payload, CRC. |
| UsbDriver.Device.FinishBlock | firmware/usbdrv/usbdrv.c:530-545 | The block is the next slice of the reply and the message is over exactly if it was short. |
| UsbDriver.Device.UsbBuildTxBlock | firmware/usbdrv/usbdrv.c:525-547 | Exactly one block is built and carries what was given for it; for a reply from memory that is the next slice, and the rest of the reply is what remains; from usbFunctionRead it is what the call returned, and an error leaves a stall. |
| UsbDriver.Device.ReadRx | firmware/usbdrv/usbdrv.c:421-424 | A byte of the packet being processed is the byte received, however many packets arrive meanwhile. |
| UsbDriver.Device.StandardCommand | firmware/usbdrv/usbdrv.c:388-405 | SET_ADDRESS, SET_CONFIGURATION and SET_INTERFACE change what they name and nothing else. |
| UsbDriver.Device.StandardQuery | firmware/usbdrv/usbdrv.c:369-401 | GET_STATUS, GET_DESCRIPTOR, GET_CONFIGURATION and GET_INTERFACE point usbMsgPtr at the reply section 9.4 asks for. |
| UsbDriver.Device.UsbDriverSetup | firmware/usbdrv/usbdrv.c:360-413 | Both together, for every 8-byte request; `UsbCodes.ReplyInCodes` and `UsbCodes.SettingsInCodes` say in numbers what that comes to. |
| UsbDriver.Device.ProcessSetup | firmware/usbdrv/usbdrv.c:438-471 | An 8-byte SETUP aborts what was going on and begins a transfer that is what it asks for, heeding what usbFunctionSetup answers; usbConfiguration and usbNewDeviceAddr are what it makes them; `ControlTransfers.HostSetsUp` says in numbers what that comes to. |
| UsbDriver.Device.ProcessOut | firmware/usbdrv/usbdrv.c:472-483 | usbFunctionWrite gets exactly the payload; an error stalls and drops a packet yet to be sent, a final packet is confirmed by an empty message, and without USB_NO_MSG nothing happens. |
| UsbDriver.Device.UsbProcessRx | firmware/usbdrv/usbdrv.c:421-484 | The packet is appended to what was delivered, once, and has the effect of its kind; a SETUP of another size than eight has none. |
| UsbDriver.Device.UsbPoll | firmware/usbdrv/usbdrv.c:568-606 | One round delivers exactly the packet that waited at its start, if any, with the effect of its kind on transfer, usbMsgLen and new address; then it builds one block exactly if something is left and the buffer is free by then, which it is after every 8-byte SETUP and if it was before, and may become by an IN in between; after an error of usbFunctionWrite the stall stays exactly if nothing is left; a reset clears both addresses. |
| UsbDriver.Device.ClaimEndpoint1 | firmware/usbdrv/usbdrv.c:228-232 | The token is toggled if the buffer was idle at the test; otherwise the message is withdrawn, and the token repeats exactly if it had been sent in between, for which no packet may be waiting, or was a repeat itself. |
| UsbDriver.Device.UsbSetInterrupt | firmware/usbdrv/usbdrv.c:219-246 | The message set is complete with its CRC and replaces or follows the last one; its token repeats exactly if one was waiting and either the interrupt routine sent it between the test and the store or it was a repeat itself, so never when usbInterruptIsReady() held before. |
| UsbDriver.Device.constructor | firmware/usbdrv/usbdrv.c:610-626 | The variables' initial values and usbInit establish all invariants. |
| UsbDriver.Device.MainLoop | firmware/main.cpp:423-430 | For any number of rounds and any line activity: what was taken in and sent is what the bus record shows; what was acknowledged is what was delivered and at most one packet that waits; the packets sent on endpoint 0 are whole blocks, in order, of the reply due to the last SETUP acknowledged before each, or of what usbFunctionRead returned for it, and once nothing is left and the buffer is free all of that has been sent; those on endpoint 1 are whole and no token is repeated; a host's residue test accepts all of them. |
| UsbTheorems.TokensAlternate | firmware/usbdrv/usbdrv.c:442-534 | In every run the first packet sent after a SETUP is DATA1, and each next one has the other token, exactly if the number of packets dropped in between for errors of the application is even; for replies from memory none is dropped. |
| UsbTheorems.ErrorSkipsToken | firmware/usbdrv/usbdrv.c:475-481 | The condition is needed: while the confirmation of one OUT is yet to be sent and another OUT has been confirmed (usbMsgLen is 0 again), an error for a third one makes the stores that follow and one IN at the device's address send, as the first packet after the SETUP, DATA0. |
| UsbTheorems.SetupSupersedes | firmware/usbdrv/usbdrv.c:438-443 | In every run each packet sent on endpoint 0 belongs to the last 8-byte SETUP acknowledged before it, is part of what that one asks for and is, byte for byte, 0x4b or 0xc3 by its number, its payload and the check bytes for it; for a control-write nothing is sent before the first OUT data, and what is sent then is empty. |
| UsbTheorems.ReplyArrives | firmware/usbdrv/usbdrv.c:525-547 | In every run the packets sent after a standard request carry, in order, the reply due to it (descriptors, status, the configuration selected last, cut to wLength): the first k carry its first 8k bytes, there are at most n/8 + 1 of n bytes, and the last of those is the only one shorter than eight, possibly empty. |
| UsbTheorems.ReplyComplete | firmware/usbdrv/usbdrv.c:525-547 | ... and all of them: when usbMsgLen says that nothing is left and the buffer is free, exactly n/8 + 1 packets have been sent since the SETUP and together they carry the whole reply. |
| UsbTheorems.GivenArrives | firmware/usbdrv/usbdrv.c:495-498 | In every run the packets sent after a SETUP that usbFunctionRead serves carry the beginning of what its calls returned for that SETUP, in order, as long as it reports no error. |
| UsbTheorems.GivenComplete | firmware/usbdrv/usbdrv.c:495-498 | ... and whenever the buffer is free, all that the calls have returned for the SETUP so far. |
| UsbTheorems.ReadIsBounded | firmware/usbdrv/usbdrv.c:452-470 | In every run, what is sent after a SETUP is never more than wLength asks for, if its high byte is zero or usbFunctionRead serves it. |
| UsbTheorems.PacketAccepted | firmware/usbdrv/usbdrv.c:537 | Every data packet is complete with its CRC: for every payload the residue test accepts what follows the token. |
| UsbTheorems.AllAccepted | firmware/usbdrv/usbdrv.c:537 | In every run a host's residue test accepts every data packet sent on endpoint 0. |
| UsbTheorems.AllAccepted1 | firmware/usbdrv/usbdrv.c:238 | In every run it accepts every data packet sent on endpoint 1. |
| UsbTheorems.NeverWhileWriting | firmware/usbdrv/asmcommon.inc:145-151 | The interrupt routine never sends from a transmit buffer that the C code is part-way through writing. |
| UsbTheorems.MessageIsWhole | firmware/usbdrv/usbdrv.c:233-239 | In every run each packet sent on endpoint 1 is, byte for byte, 0xc3 or 0x4b by its number, the message set, and the check bytes for it. |
| UsbTheorems.MessagesAlternate | firmware/usbdrv/usbdrv.c:228-229 | In every run tokens on endpoint 1 alternate between two SET_INTERFACE requests exactly except for repeats, from DATA0 unless a message was waiting. |
| UsbTheorems.IdleStaysIdle | firmware/main.cpp:428-429 | The guard of the main loop: an idle length word stays idle through any number of interrupts. |
| UsbTheorems.TestThenStoreRaces | firmware/usbdrv/usbdrv.c:228-232 | Without the guard the gap is real: at any address, wherever a message waits and no packet does, an IN between test and store sends it, and the next message carries the same token. |
| UsbTheorems.RaceExactly | firmware/usbdrv/usbdrv.c:228-232 | A waiting message can be sent between the test and the store if and only if no received packet waits. |
| UsbTheorems.AddressFollowsData | firmware/usbdrv/usbdrvasm16.inc:318-329 | Through any sequence of packets the device answers to its old address until a data packet has been sent, and to the new one afterwards. |
| UsbTheorems.Endpoint1AssignsAddress | firmware/usbdrv/usbdrvasm16.inc:320-328 | From any address and to any address: a data packet of endpoint 1 assigns it as well, with no packet sent on endpoint 0, so before the status stage of SET_ADDRESS (section 9.4.6) has taken place. |
| Transaction.HostSends | firmware/usbdrv/asmcommon.inc:54-151 | A packet put on the line by any of the transmit loops is the packet the device's interrupt routine handles, and its answer is on the line in full. |
| ControlTransfers.HostGives | firmware/usbdrv/asmcommon.inc:76-127 | On the line, in bytes: after the token 0x2d or 0xe1 with the device's address, which is not answered, a data packet 0xc3 or 0x4b with its check bytes is answered 0xd2 if none waits, and is then the waiting one, as SETUP or OUT; if one waits it is answered 0x5a and nothing changes; an empty one is acknowledged and not kept. |
| ControlTransfers.HostAsks | firmware/usbdrv/asmcommon.inc:129-151 | On the line, in bytes: the token 0x69 with the device's address and endpoint 0 is answered 0x5a while a packet waits, and otherwise by the packet in usbTxBuf, which leaves 0x5a and assigns the address, or by the handshake, 0x5a or 0x1e, in its place. |
| ControlTransfers.HostSetsUp | firmware/usbdrv/usbdrv.c:438-471 | Every 8-byte SETUP, in numbers, from the line to the transfer it has begun one usbPoll later: type 0 in bits 5 and 6 is answered by the driver, with [0, 0] for 0, the device, configuration, string, HID or report descriptor for 6, the configuration selected for 8, [0] for 10 and nothing otherwise; 5 sets the new address, 9 the configuration, 11 resets the toggling of endpoint 1; other types get what usbFunctionSetup gives; the reply is cut to the low byte of wLength if the high byte is 0; with USB_NO_MSG a read, bit 7 set, is served by usbFunctionRead for at most that many bytes, and a write has nothing to send. |
| ControlTransfers.HostBegins | firmware/usbdrv/usbdrv.c:438-545 | The first IN behind it gets on the line 0x4b, the first eight bytes of the reply or all of a shorter one, and their check bytes; after SET_ADDRESS it gets 4b 00 00, and the device then answers to the new address. |
| ControlTransfers.HostGoesOn | firmware/usbdrv/usbdrv.c:436-483 | Any other packet, in numbers: a SETUP that has not eight bytes does nothing; an OUT goes to usbFunctionWrite if the SETUP was answered USB_NO_MSG and to nobody otherwise; 0 leaves usbMsgLen, 255 too, and the next IN is answered 0x1e if nothing is left, anything else makes it 0. |
| ControlTransfers.HostReads | firmware/usbdrv/usbdrv.c:525-593 | Progress: a host that sends at least n/8 + 1 INs for a reply of n bytes from memory, over the line by any of the transmit loops and with a usbPoll before each, has been sent the whole reply, whatever else is on the line meanwhile, unless another packet was taken in. |
| ReadCursor.Report.UsbFunctionRead | firmware/main.cpp:93-112 | currentAddress + bytesRemaining stays 33, reads of MSG are in bounds, the first chunk leaves its byte 0 unwritten and reaches one byte past the chunk, later chunks continue the text. |
| ReadCursor.Report.ReadReport | firmware/main.cpp:93-112 | For every wLength up to 254 the chunks the driver asks for deliver min(wLength, 34) bytes; byte p, from 1 on, is MSG[p-1], and byte 0 is what the transmit buffer held before. |
| ReadCursor.Report.UsbFunctionSetup | firmware/main.cpp:244-262 | GET_REPORT of report 1 sets the cursor to the start; of another report it does not use the read function. |
| Oscillator.BinarySearch | firmware/main.cpp:345-357 | For every monotone measurement the search ends at the largest setting below the target, or 0, never leaving 8 bits, and its last measurement is of the odd one of that setting and the next. |
| Oscillator.NeighbourhoodRounds | firmware/main.cpp:362 | The guard of the second loop never fails exactly for settings 254 and 255; for 0 the loop body never runs, and otherwise it runs three times. |
| Oscillator.BestIsNearby | firmware/main.cpp:358-362 | The best of all 256 settings is the one found or the one above it. |
| Oscillator.NeighbourhoodSearch | firmware/main.cpp:360-371 | Where the loop ends and the search did not end at 0, the result is the best of all 256 settings exactly if the search had already found it or the raw measurement used as a first deviation exceeds the deviation of the setting above. |
| Oscillator.CalibrateOscillator | firmware/main.cpp:345-372 | Both loops together, for every monotone measurement: from an even setting but 0 the result is the best of all 256; from an odd one exactly if the setting found is no worse than the one above or its measurement exceeds the deviation of that; from 0 the result is 0, the best exactly if it is no worse than 1. |
| Oscillator.FarFromOptimum | firmware/main.cpp:358-371 | The measurement 100 below setting 2 and 3000 from there on: the result is setting 1, and 2 is better. |
| Oscillator.TargetIsNearest | firmware/main.cpp:348 | The target is the integer nearest to 1499 F_CPU / 10.5e6. |
| I2c.Bus.Write | firmware/oled/oled.h:21-36 | A receiver that samples SDA on rising SCL gets exactly the byte, most significant bit first, and sees no START or STOP. |
| I2c.Bus.Start | firmware/oled/oled.h:39-43 | From idle lines: a START and the address. |
| I2c.Bus.Stop | firmware/oled/oled.h:46-50 | A STOP that ends the frame with the bytes sent; the bit clocked in before it is dropped. |
| I2c.Bus.Frame | firmware/oled/oled.h:39-50 | For every sequence of bytes: what the receiver hears as a frame is what was sent, and SDA changes under high SCL only at its two ends (UM10204 sections 3.1.3 and 3.1.4). |
| I2c.MsbFirst | firmware/oled/oled.h:23-35 | What the receiver makes of eight clocked bits and a ninth: the byte 128 b0 + 64 b1 + ... + b7. |
| Ssd1306.DataFits | firmware/oled/oled.h:139-145 | Data that fits on a line lands there in order and nowhere else in the controller's memory. |
| Ssd1306.InitFrame | firmware/oled/oled.h:99-127 | The initialisation sequence leaves memory and cursor alone and resets the display offset. |
| Oled.PlotIsRender | firmware/oled/oled.h:166-174 | Five font columns and a gap at column 6k turn the picture of a row into that of the row with character k replaced. |
| Oled.Scrolled | firmware/oled/oled.h:156-163 | Clearing the top page and moving the ring on by one shows the terminal scrolled by one line. |
| Oled.TextAppears | firmware/oled/oled.h:177-186 | The terminal itself: text that fits on the line appears there, and no other line changes. |
| Oled.LineFeed | firmware/oled/oled.h:188-192 | The terminal itself, row by row: text behind character 10 stands at the start of the next row; on the last row the rows have moved up by one and it stands alone. |
| Oled.CarriageReturn | firmware/oled/oled.h:194-197 | Text behind character 13 stands at the start of the same row, over what was there. |
| Oled.LineBreak | firmware/oled/oled.h:181-186 | Text behind the 21st character of a row stands at the start of the next one, as behind 10. |
| Oled.TopBitIgnored | firmware/oled/oled.h:178 | Every text prints like the text of its characters modulo 128. |
| Oled.ControlIgnored | firmware/oled/oled.h:179-197 | A control character other than 10 and 13, anywhere in a text, changes nothing. |
| Oled.Display.Init | firmware/oled/oled.h:120-127 | OLED_init sends its 24 commands, which reset the display offset: the lines stay in order exactly if nothing has been scrolled. |
| Oled.Display.ClearScreen | firmware/oled/oled.h:148-153 | Every page is cleared and the cursor goes to visible line Scroll: to the top exactly if nothing has been scrolled. |
| Oled.Display.SetLine | firmware/oled/oled.h:130-136 | Page and column of the controller are set and nothing else, by the frame 78 00 b0+line 00 10. |
| Oled.Display.ClearLine | firmware/oled/oled.h:139-145 | One page is zeroed and the cursor is back at its start. |
| Oled.Display.ScrollDisplay | firmware/oled/oled.h:156-163 | The top page is cleared, the ring moves on by one and the offset follows. |
| Oled.Display.PlotChar | firmware/oled/oled.h:166-174 | Six columns are written at the cursor, in one frame of the five font bytes and a zero; every font read is inside the 480 bytes. |
| Oled.Display.Print | firmware/oled/oled.h:177-198 | The display shows the terminal with the character printed; Line, Column and Scroll move, in numbers: on by one column for a character of 32 to 127 modulo 128, to the next line after the 21st and for 10, with Scroll instead on the last line, to column 0 for 13, and not at all otherwise. |
| Oled.Display.PrintText | firmware/oled/oled.h:177-198 | For every text on a cleared display, the pages in the order shown are the rows of an ideal 8 by 21 scrolling terminal, each dot that of its font column. |

## Left out

- Timing: cycle counts, leap cycles, the hunt for the sync edge, the length of SE0 and the 1.5% rate tolerance. The line is one value per bit time.
- The loops of usbdrvasm15.inc, usbdrvasm128.inc and usbdrvasm165.inc, further timings of the same codec.
- The receive loop of usbdrvasm18-crc.inc below the byte: its CRC pipeline is modelled per byte, without the instructions of the unstuffing between them.
- Copies of one piece of code: the eight unstuffing branches of the 12 MHz receive loop and the four stuffing branches of its transmit loop are one routine each, with the mask or the place as a parameter.
- Packets with bit stuffing errors or a malformed PID: for them the receive loops are only shown to stay inside their buffer.
- Endpoint 3, HALT, flow control, WRITEOUT, long transfers, data toggle and CRC checking in the driver: switched off in firmware/usbconfig.h.
- Retransmission: like the driver, the model takes a packet sent for a packet received by the host.
- The contents of the descriptors; they are parameters with the lengths the length type allows.
- usbMsgPtr inside usbTxBuf and usbConfiguration: the model does not advance it, because such replies have at most two bytes and end with their first block.
- usbFunctionWrite beyond the driver's view of it: LEDs, buzzer, seven-segment display, and its repeated OLED_init, whose effect on a scrolled display is what `Oled.Display.Init` states.
- An application whose usbFunctionRead claims more bytes than it was asked for: taken as one that reports an error. Callbacks that call back into the driver are not modelled.
- SDA as driven by the display for its acknowledge bit, and reads over I2C.
- Display controller commands other than page, column and offset.
- usbMeasureFrameLength: a monotone function; that its value fits the 16-bit `int` it is compared in is taken for granted.
- Oscillator.CalibrateOscillator: requires that setting 254 is not too slow, because the second loop does not end otherwise (`Oscillator.NeighbourhoodRounds`); the 8-bit register and the wider right-hand side of the guard are in the model.
- Linux drivers, tools, watchdog, timers, EEPROM and the debug UART.
