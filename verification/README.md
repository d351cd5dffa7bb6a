# Verified model of the rlink transport, its server, the DEUNA controller and two helpers

The project models, in Dafny, the back-end side of the rlink protocol of the w11 CPU tools:

- **framing and reception** (`RlinkPacketBuf`, `RlinkPacketBufSnd`, `RlinkReceiver`, `RlinkFraming`,
  `RlinkNakCode`, `RlinkPacketBufRcv`): payloads are escaped and framed by commas; the receiver scans a raw buffer that is
  refilled by reads of any size. The scanning loops are methods of a class with an array buffer, proved against
  a one-byte-per-step automaton; round trip, independence of the reads and resynchronisation are proved for
  that automaton;
- **checksum** (`Gf2Poly`, `Words`, `Checksum`, `RlinkCrc16`, `RlinkCrcErrors`): the 256 entry table is shown to be
  long division by x^16+x^12+x^5+1 (ITU-T V.41, section 2); error detection is derived from the division, for
  messages and for packets with their checksum. The packet
  layers are built over an arbitrary checksum step function; `RlinkCrc16.AddData` is the one in use;
- **command lists** (`RlinkCommand`, `RlinkDecoding`, `RlinkRequests`, `RlinkInput`, `RlinkWaiting`,
  `RlinkWaitAttn`, `RlinkConnect`, `RlinkExchange`): encoding of a list into a request, decoding of a response into it,
  list abort, NAKs, attention notifies and junk in the input, the waits for a response and for a notify, and the
  exchange as a whole;
- **server** (`ReventLoop`, `RlinkServerAttn`, `RlinkServerWakeup`, over `Transitions`): registrations and calls of the poll loop,
  the attention turn with its destructive harvests, the action list, and the wakeup protocol between the
  threads as a transition system over atomic steps;
- **DEUNA** (`DeunaControl`, `DeunaController`, `DeunaTxRing`, `DeunaTxSim`, `DeunaWords`): port commands, ring states,
  handlers queued as server actions, poll timer, receive queue, and the transmit ring shared with the host driver, of
  which the controller is shown to make the moves;
- **USB-JTAG firmware** (`UsbJtag`) and **prefix names** (`RtclNameSet`).

Bytes and words are bounded integers, bit patterns used as sets (attention patterns, handler masks) are sets of
bit numbers, and wrap-around is written out where it matters. What a port, a poll call, the target board, a
random generator or a clock delivers is a parameter. Exceptions are results or, where they guard against misuse
by the caller, preconditions.

`dafny verify dfyconfig.toml` checks the project.

## What the proofs show about the code

Most properties hold as the code promises them. These hold only under a condition, which is stated and proved:

- **Checksum.** It follows the bytes it covers low byte first, so in a packet the burst guarantee of the division
  holds for the summed bytes only. For the packet as a whole: damage goes unnoticed exactly if the damage is itself
  a packet that passes from start value 0 (`DamageAccepted`); an odd number of damaged bits and bursts of up to 12
  bits are always noticed (`OddNoticed`, `BurstOf12Noticed`), there is a burst of 13 bits that never is
  (`BurstOf13Missed`), and what is missed of bursts of up to 16 bits lies over the seam between message and checksum
  (`MissedLiesOverSeam`). Damage to the last byte is masked by exactly one error of the checksum (`SeamError`).
  Bits are counted most significant first in each byte.
- **Failed wait.** `ExecPart` builds an exception for a failed wait but does not throw it. So after a failed wait a
  list is reported as completed exactly if a read failed and the bytes collected until then, although no packet ended,
  begin with the responses of a device to the list (`CompletesUnanswered`, by `DecodesIff`), which happens for every
  list when the end of packet is missing (`UnansweredCompletes`). And
  a partial packet is discarded exactly if no read failed, although the documentation of `ReadResponse` says it
  always is (`PartialPacketKept`).
- **Wait for a notify.** `WaitAttn` returns with the first notify that carries bits and leaves the rest of that read
  unprocessed. So the receiver is quiet afterwards exactly if a read ends with that notify (`QuietIffEndsRead`); if one
  goes on behind it (`MoreIsLeft`), the next port read, of another `WaitAttn` or of an exchange whose request is
  already sent, throws.
- **Start of the server.** It becomes active only after the exchange that starts it. Notifies that arrive in that
  exchange are noted in the connection and the server is not told (`StartOrResume`); while it is active nothing but a
  `WaitAttn` of its own thread takes them up.
- **NAK code.** It is recorded right exactly if the read that holds the NAK holds two bytes more
  (`NakCodeNeedsTwoMoreBytes`); all else is independent of the reads.
- **Attention turn.** No attention is ever lost exactly if the handler masks are pairwise disjoint; single-bit masks
  are not needed. This holds with and without the statement that the source marks as a patch
  (`LosesNothingIffDisjoint`): with overlapping masks a bit is already lost because a handler's own bits are taken out
  of its harvest; the patch loses more in some turns (`PatchLoses`).
- **Removed handlers.** A poll handler can be called after another thread removed it, for each call exactly if the
  removal comes between the test for an update and the call and no registration follows it there (`RemovalRace`).
- **START of the DEUNA** decides by the descriptor left from an earlier attention whether a frame is pending, so a
  frame handed over before the first START waits (`StartNotices`, `StartMissesFrame`), and this is the only way in
  which the transmit ring gets busy without an owned descriptor (`TxBusyUnowned`, reached by `TxBusyUnownedRun`). PDMD
  has no such gap.
- **Reception of the DEUNA stalls**: it runs with frames queued, the receive ring idle and nothing under way
  (`StalledIff`, over all events). That begins with a frame accepted by the idle ring while the transmit ring works or
  no descriptor is free; a poll that expires without a free descriptor, as it polls only once (`PollsOnce`); a poll
  demand, or a handler left over, during a poll; and a START with frames queued and none free. A frame that comes while
  the transmit ring works is stranded even with a free descriptor, and stays so when that work is done
  (`FrameStranded`, reached by `TransmitRun`). It ends only by a poll demand or a frame that find a free descriptor,
  a left-over handler that does, or the end of running.
- **Filter drops of the DEUNA** are all counted as multicast drops: the test looks at bit 0 of the index -1, so the
  counter of unicast drops stays zero in every run (`UnicastDropsNotCounted`).
- **SELFTST of the DEUNA** returns without writing its done flag (`Completion`), and **STOP** is answered by error
  although it works (`StartStopAnswers`).
- **Ring of the USB-JTAG firmware**: it overflows exactly if the bytes that wait and those a packet reads back are more
  than 256. Packets of at most 64 bytes never do that (`Receive`); longer ones, which the 16 bit count of the loop
  admits, can (`AllReadBack`).
- **Name lists**: empty parts are skipped but for the last one, which is always taken (`NamesAreParts`).

## Model

| member | source | states |
|---|---|---|
| `Gf2Poly.DivisionIdentity` | tools/src/librlink/RlinkCrc16.cpp:29-63 | the reference: Quotient and Remainder are a division by the generator, dividend = quotient * generator + remainder |
| `RlinkCrc16.CrcTableDoubles` | tools/src/librlink/RlinkCrc16.cpp:29-63 | in the 256 literal words, the entries 2u and 2u+1 follow from entry u by one shift and conditional addition of the generator |
| `RlinkCrc16.TableIsRemainder` | tools/src/librlink/RlinkCrc16.cpp:29-63 | every table word is the remainder of its index times x^16 |
| `RlinkCrc16.TableLinear` | tools/src/librlink/RlinkCrc16.cpp:29-63 | the table is xor-linear |
| `RlinkCrc16.AddDataBits` | tools/src/librlink/RlinkCrc16.ipp:38-43 | one AddData is the division of 24 bits, register added in front |
| `RlinkCrc16.CrcIsRemainder` | tools/src/librlink/RlinkCrc16.ipp:38-43 | the checksum of any message from any start value is the remainder of the long division |
| `RlinkCrc16.BurstDetected` | tools/src/librlink/RlinkCrc16.cpp:29-63 | messages of equal length differing only inside 16 consecutive bits have different checksums, for every start value |
| `RlinkCrc16.OddDetected` | tools/src/librlink/RlinkCrc16.cpp:29-63 | messages differing in an odd number of bits have different checksums |
| `RlinkCrc16.StartInjective` | tools/src/librlink/RlinkCrc16.ipp:38-43 | for a fixed message the checksum is injective in the start value |
| `RlinkCrc16.LastByteError` | tools/src/librlink/RlinkCrc16.ipp:38-43 | an error in the byte added last changes the checksum by its table word |
| `RlinkCrcErrors.PassesIsMultiple` | tools/src/librlink/RlinkPacketBufRcv.ipp:59-65 | a packet passes the receiver's test exactly if it is a multiple of the generator with its checksum bytes turned round |
| `RlinkCrcErrors.DamageAccepted` | tools/src/librlink/RlinkPacketBufRcv.ipp:59-65 | any damage to message and checksum of any packet goes unnoticed exactly if the damage itself passes from start value 0 |
| `RlinkCrcErrors.ChecksumErrors` | tools/src/librlink/RlinkPacketBufRcv.ipp:59-65 | a damaged message with an error x in the checksum passes exactly if the checksum of the damage from 0 is x |
| `RlinkCrcErrors.OddNoticed` | tools/src/librlink/RlinkPacketBufRcv.ipp:59-65 | damage to an odd number of bits of message and checksum together is noticed |
| `RlinkCrcErrors.BurstOf12Noticed` | tools/src/librlink/RlinkPacketBufRcv.ipp:59-65 | damage inside 12 consecutive bits is noticed anywhere in the packet, checksum and seam included |
| `RlinkCrcErrors.BurstOf13Missed` | tools/src/librlink/RlinkPacketBufSnd.ipp:63-71 | one damage to 13 consecutive bits at the end of a packet of any length is never noticed, so 12 is the limit |
| `RlinkCrcErrors.MissedLiesOverSeam` | tools/src/librlink/RlinkPacketBufSnd.ipp:63-71 | a burst of up to 16 bits that is missed lies over the seam and damages both sides |
| `RlinkCrcErrors.TailDamage` | tools/src/librlink/RlinkPacketBufSnd.ipp:63-71 | whether damage to the last bytes is missed does not depend on what is in front |
| `RlinkCrcErrors.SeamError` | tools/src/librlink/RlinkPacketBufSnd.ipp:63-71 | damage d to the last message byte and x to the checksum is missed exactly if x is the table word of d |
| `RlinkCrcErrors.SeamErrorExists` | tools/src/librlink/RlinkPacketBufSnd.ipp:63-71 | a burst of 16 bits over the seam that is missed in every packet |
| `RlinkPacketBuf.EcodeInverse` | tools/src/librlink/RlinkPacketBufRcv.cpp:360-381 | a byte after ESC is read as code ec exactly if it is the byte the sender emits for ec; no code byte is ESC |
| `RlinkPacketBuf.CodeBitError` | tools/src/librlink/RlinkPacketBufRcv.cpp:367-369 | inverting one bit of a code byte always gives a clobbered code |
| `RlinkPacketBufSnd.FrameSize` | tools/src/librlink/RlinkPacketBufSnd.cpp:85-122 | raw length n + 4 + escapes + flow control escapes, at most the 2n + 4 reserved |
| `RlinkPacketBufSnd.BodyBytes` | tools/src/librlink/RlinkPacketBufSnd.cpp:97-120 | in the escaped payload ESC stands only before a data escape code |
| `RlinkPacketBufSnd.FrameAvoidsFlow` | tools/src/librlink/RlinkPacketBufSnd.cpp:106-117 | with XON escaping no frame contains XON or XOFF |
| `RlinkPacketBufSnd.SndBuf.PutByteWithCrc` | tools/src/librlink/RlinkPacketBufSnd.ipp:22-27 | appends and sums one byte |
| `RlinkPacketBufSnd.SndBuf.PutWordWithCrc` | tools/src/librlink/RlinkPacketBufSnd.ipp:49-58 | appends and sums a word, low byte first |
| `RlinkPacketBufSnd.SndBuf.PutBlockWithCrc` | tools/src/librlink/RlinkPacketBufSnd.cpp:75-80 | appends and sums a block of words |
| `RlinkPacketBufSnd.SndBuf.PutCrc` | tools/src/librlink/RlinkPacketBufSnd.ipp:63-71 | appends the checksum low byte first without summing it |
| `RlinkPacketBufSnd.SndBuf.SndPacket` | tools/src/librlink/RlinkPacketBufSnd.cpp:85-129 | the raw buffer is the frame of the payload; escape counters count the escaped bytes; success iff all bytes were written |
| `RlinkReceiver.FeedScan` | tools/src/librlink/RlinkPacketBufRcv.cpp:118-153 | accepting packets as they come is scanning to the next end of packet, delivering it, and going on with the rest |
| `RlinkReceiver.FeedIsRun` | tools/src/librlink/RlinkPacketBufRcv.cpp:221-355 | processing one read delivers what the byte-at-a-time automaton without lookahead delivers, but for the NAK code |
| `RlinkReceiver.ReadsDoNotMatter` | tools/src/librlink/RlinkPacketBufRcv.cpp:85-153 | for every byte stream and every split into reads: same packets, flags, payloads, NAK indices and dropped bytes |
| `RlinkFraming.FrameReceived` | tools/src/librlink/RlinkPacketBufRcv.cpp:272-355 | a frame read at rest delivers its payload and leaves the receiver at rest |
| `RlinkFraming.RoundTrip` | tools/src/librlink/RlinkPacketBufRcv.cpp:221-355 | any list of payloads with ESC-free noise between the frames, either XON setting: exactly the payloads, in order, and exactly the noise as dropped bytes |
| `RlinkFraming.RunWellFormed` | tools/src/librlink/RlinkPacketBufRcv.cpp:142-153 | nothing is collected while the receiver is Idle, in every reachable state |
| `RlinkFraming.FrameSynchronises` | tools/src/librlink/RlinkPacketBufRcv.cpp:221-355 | from any state and pending escape, one complete frame leaves the receiver Idle with no pending escape |
| `RlinkFraming.Resynchronised` | tools/src/librlink/RlinkPacketBufRcv.cpp:221-355 | after arbitrary bytes at most one frame is lost, all later ones are delivered exactly |
| `RlinkFraming.ResynchronisedReads` | tools/src/librlink/RlinkPacketBufRcv.cpp:85-153 | the same when the bytes come in any reads |
| `RlinkFraming.NakIndexed` | tools/src/librlink/RlinkPacketBufRcv.cpp:288-296 | the NAK index is the number of payload bytes before the NAK |
| `RlinkFraming.CodesInPacket` | tools/src/librlink/RlinkPacketBufRcv.cpp:283-335 | what each of the 256 bytes after an ESC does inside a packet |
| `RlinkFraming.CodesOutside` | tools/src/librlink/RlinkPacketBufRcv.cpp:227-247 | what it does outside one |
| `RlinkFraming.PacketKinds` | tools/src/librlink/RlinkPacketBufRcv.cpp:169-173 | a complete packet is a response or a notify by its first code alone, an error makes it neither |
| `RlinkNakCode.NakCodeNeedsTwoMoreBytes` | tools/src/librlink/RlinkPacketBufRcv.cpp:297-305 | for a response broken off by a NAK, in any reads: the code sent is recorded exactly if the read that holds the NAK holds two bytes more, and else the invalid code |
| `RlinkNakCode.NakCodeBytes` | tools/src/librlink/RlinkPacketBufRcv.cpp:297-305 | code n is read from exactly the byte 0x80 + 8*(7-n) + n, and the invalid code from all other bytes |
| `RlinkPacketBufRcv.RcvBuf.ReadData` | tools/src/librlink/RlinkPacketBufRcv.cpp:85-113 | refused while bytes are unprocessed; otherwise the buffer holds the bytes read; polling without input is no error, and a failure sets the timeout or IO flag |
| `RlinkPacketBufRcv.RcvBuf.ProcessData` | tools/src/librlink/RlinkPacketBufRcv.cpp:118-137 | state and unprocessed bytes are those of the automaton stopped at the next end of packet; true iff bytes were there |
| `RlinkPacketBufRcv.RcvBuf.ProcessDataIdle` | tools/src/librlink/RlinkPacketBufRcv.cpp:221-267 | makes progress along the automaton until the read is used up or a packet starts |
| `RlinkPacketBufRcv.RcvBuf.DropToEscape` | tools/src/librlink/RlinkPacketBufRcv.cpp:249-262 | the inner loop over plain bytes outside a packet keeps the outcome |
| `RlinkPacketBufRcv.RcvBuf.ProcessDataFill` | tools/src/librlink/RlinkPacketBufRcv.cpp:272-355 | makes progress along the automaton until the read is used up or the packet ends |
| `RlinkPacketBufRcv.RcvBuf.ProcessFillCode` | tools/src/librlink/RlinkPacketBufRcv.cpp:277-336 | acting on an escape code inside a packet is one step of the automaton, the NAK code peek included |
| `RlinkPacketBufRcv.RcvBuf.CollectToEscape` | tools/src/librlink/RlinkPacketBufRcv.cpp:338-350 | the inner loop over plain bytes inside a packet keeps the outcome |
| `RlinkPacketBufRcv.RcvBuf.GetEcode` | tools/src/librlink/RlinkPacketBufRcv.cpp:360-381 | consumes the byte after ESC and returns its code |
| `RlinkPacketBufRcv.RcvBuf.AcceptPacket` | tools/src/librlink/RlinkPacketBufRcv.cpp:142-153 | forgets the packet, keeps a pending escape and the unprocessed bytes |
| `RlinkPacketBufRcv.RcvBuf.FlushRaw` | tools/src/librlink/RlinkPacketBufRcv.cpp:158-164 | drops the raw bytes and a pending escape |
| `RlinkPacketBufRcv.RcvBuf.GetWordWithCrc` | tools/src/librlink/RlinkPacketBufRcv.ipp:47-54 | takes and sums the next two payload bytes, low byte first |
| `RlinkPacketBufRcv.RcvBuf.GetBlockWithCrc` | tools/src/librlink/RlinkPacketBufRcv.cpp:179-184 | takes and sums a block of words |
| `RlinkPacketBufRcv.RcvBuf.CheckCrc` | tools/src/librlink/RlinkPacketBufRcv.ipp:59-65 | true iff the next two bytes are the running checksum, which they do not enter |
| `RlinkCommand.SeqNumberRepeats` | tools/src/librlink/RlinkCommand.ipp:72-76 | two uses of a command code have the same request byte exactly if a multiple of 32 lies between them |
| `RlinkCommand.NumberAt` | tools/src/librlink/RlinkConnect.cpp:804 | command j gets the counter of its code, advanced by the earlier commands of that code |
| `RlinkCommand.CountersAdvance` | tools/src/librlink/RlinkConnect.cpp:804 | after a list each counter is advanced by the number of commands of its code, modulo 256 |
| `RlinkRequests.RequestBack` | tools/src/librlink/RlinkConnect.cpp:796-858 | a device that parses one request, checksums included, gets code, sequence number, address, value and data |
| `RlinkRequests.RequestsRoundTrip` | tools/src/librlink/RlinkConnect.cpp:791-870 | the same for every list, in order |
| `RlinkConnect.Connect.EncodeCommand` | tools/src/librlink/RlinkConnect.cpp:796-863 | one command numbered, sized and encoded |
| `RlinkConnect.Connect.EncodeRequest` | tools/src/librlink/RlinkConnect.cpp:791-870 | the payload is the request list, the commands are numbered, sized and marked, the counters advanced |
| `RlinkConnect.SentHolds` | tools/src/librlink/RlinkConnect.cpp:796-863 | every field of a command as it is sent: number, response size, send and packet end flags, all else as it was |
| `RlinkConnect.ClearedHolds` | tools/src/librlink/RlinkConnect.cpp:371-377 | a command that was reset keeps its init flag alone |
| `RlinkCommand.RequestLayout` | tools/src/librlink/RlinkConnect.cpp:811-850 | the bytes of a request by command code |
| `RlinkCommand.ResponseLayout` | tools/src/librlink/RlinkConnect.cpp:912-983 | the bytes of a response by command code, as the decoder expects them |
| `RlinkDecoding.DecodeBack` | tools/src/librlink/RlinkConnect.cpp:912-983 | a response made of an answer is decoded to that answer, every field of the command being as it says, and exactly its response size is consumed |
| `RlinkDecoding.PieceAt` | tools/src/librlink/RlinkConnect.cpp:912-918 | in the device's payload every response stands where the sizes set by the requests put it |
| `RlinkDecoding.ListRoundTrip` | tools/src/librlink/RlinkConnect.cpp:875-1038 | for every list and fitting answers: each command up to the first active labo holds its word, block, done count and status and is otherwise as sent, the rest is marked skipped, the sizes are consumed |
| `RlinkDecoding.DecodesIff` | tools/src/librlink/RlinkConnect.cpp:875-1038 | on every payload: a list is handled as a whole exactly if the payload begins with the responses of a device to it, up to the first active labo, with no NAK where one begins; and then each command holds, field by field, what was answered |
| `RlinkDecoding.DecodeCases` | tools/src/librlink/RlinkConnect.cpp:893-983 | one decoding on any payload: NAK flag; error flag, with the answer entered exactly if only the checksum is wrong; or done inside the payload with matching request byte and checksum and the answer entered |
| `RlinkDecoding.ResponsePartition` | tools/src/librlink/RlinkConnect.cpp:875-1038 | on every payload: a prefix is done, checked, and holds field by field what stands in the payload; then all is handled, and commands are skipped exactly behind an active labo, or one command alone failed, as its response says, and the rest is untouched |
| `RlinkConnect.Connect.TakeData` | tools/src/librlink/RlinkConnect.cpp:925-968 | the data part of a response by command code, entered in its field and no other; false on a wrong block length |
| `RlinkConnect.Connect.DecodeCommand` | tools/src/librlink/RlinkConnect.cpp:894-986 | one pass of the loop is one decoding of the specification |
| `RlinkConnect.Connect.DecodeResponse` | tools/src/librlink/RlinkConnect.cpp:875-1038 | list, labo index and result are those of the specification on the received payload |
| `RlinkConnect.Connect.DecodeAttnNotify` | tools/src/librlink/RlinkConnect.cpp:1047-1070 | the pattern iff the packet is long enough and its checksum matches |
| `RlinkConnect.Connect.ProcessAttnNotify` | tools/src/librlink/RlinkConnect.cpp:1188-1204 | a valid pattern is added to the bits noted, in the connection or, while the server is active, with it, and in that place only; the packet is accepted in any case |
| `RlinkInput.NotifyCarries` | tools/src/librlink/RlinkConnect.cpp:1047-1070 | for every word: bit k is noted exactly if it is set in the pattern and the checksum is right; a short packet gives none |
| `RlinkInput.DrainIsFeed` | tools/src/librlink/RlinkConnect.cpp:1162-1176 | processing unsolicited data delivers as the accept loop of the automaton, notes exactly the notifies, and ends with nothing left, Idle or Fill |
| `RlinkInput.ResponseThenDrain` | tools/src/librlink/RlinkConnect.cpp:1099-1152 | waiting, accepting and draining the rest loses no notify on either side of the response |
| `RlinkConnect.Connect.SortInput` | tools/src/librlink/RlinkConnect.cpp:1162-1176 | the processing loop terminates and leaves nothing unprocessed unless it keeps a response |
| `RlinkConnect.Connect.HandleUnsolicitedData` | tools/src/librlink/RlinkConnect.cpp:735-752 | refused outside the active server, with the port closed, or with bytes left over; otherwise the buffer is consumed and the receiver Idle or Fill, so that the next read is allowed |
| `RlinkConnect.Connect.ReadResponse` | tools/src/librlink/RlinkConnect.cpp:1099-1138 | throws exactly if bytes are left over; else true with a response at hand, as the specification of the wait says, or quiet |
| `RlinkConnect.Connect.AcceptResponse` | tools/src/librlink/RlinkConnect.cpp:1147-1152 | accepts and drains; afterwards quiet |
| `RlinkConnect.Connect.Exchange` | tools/src/librlink/RlinkConnect.cpp:771-786 | send, wait, decode, accept; completed iff the whole list was handled; throws after the request is sent iff bytes are left over |
| `RlinkConnect.Connect.ExecPart` | tools/src/librlink/RlinkConnect.cpp:757-786 | the list encoded and exchanged; quiescence after every completed exchange |
| `RlinkConnect.Connect.Exec` | tools/src/librlink/RlinkConnect.cpp:340-406 | refused exactly for an empty list, a closed port, a command not set up, or an attention harvest outside the active server, with the commands before it reset; otherwise the frame sent and the list afterwards |
| `RlinkConnect.Connect.WaitAttn` | tools/src/librlink/RlinkConnect.cpp:484-538 | refused outside the active server; bits noted before are given at once; else it throws iff the port is closed or bytes are left over, and otherwise result, bits and receiver are as the specification of the wait says |
| `RlinkWaitAttn.WaitStops` | tools/src/librlink/RlinkConnect.cpp:509-537 | for all reads: a notify is found exactly if one with bits is complete in them, the first one, and the wait ends right behind it; else the time is up and a packet begun is kept |
| `RlinkWaitAttn.QuietIffEndsRead` | tools/src/librlink/RlinkConnect.cpp:522-527 | after a notify was found nothing is left over exactly if a read ends with it |
| `RlinkWaitAttn.MoreIsLeft` | tools/src/librlink/RlinkConnect.cpp:522-527 | any bytes behind a notify frame in the same read are left over |
| `RlinkWaitAttn.ReturnCode` | tools/src/librlink/RlinkConnect.cpp:511-537 | without a notify -2 exactly if a read fails before any times out, else -1; the end of file is neither |
| `RlinkWaitAttn.ActiveDrains` | tools/src/librlink/RlinkConnect.cpp:516-535 | while the server is active all packets of a read are drained and their notifies go to the server |
| `RlinkConnect.Connect.StartOrResume` | tools/src/librlink/RlinkServer.cpp:394-429 | the server is active iff its exchange completed; the notifies of that exchange are in the connection, and the server was told of none |
| `RlinkConnect.StartListIs` | tools/src/librlink/RlinkServer.cpp:404-407 | what is sent: an attention harvest unless resumed, and a write of 0x8000 to register 0xffff |
| `RlinkWaiting.WaitIs` | tools/src/librlink/RlinkConnect.cpp:1099-1138 | for all reads: a wait succeeds exactly if a response is delivered before a read fails, at the first one, with the notifies before it noted; else all notifies are noted and the receiver is as the failure left it |
| `RlinkWaiting.PartialPacketKept` | tools/src/librlink/RlinkConnect.cpp:1106-1137 | after a failed wait the partial packet is gone exactly if no read failed; otherwise it is kept, with the flag of the failure |
| `RlinkWaiting.CompletesUnanswered` | tools/src/librlink/RlinkConnect.cpp:774-781 | after a failed wait a list is reported as completed exactly if a read failed and the bytes collected begin with a device's responses to it; it has these answers then |
| `RlinkWaiting.UnansweredCompletes` | tools/src/librlink/RlinkConnect.cpp:774-781 | for every list: a response without end of packet and a failed read give a completed list |
| `RlinkExchange.FrameFound` | tools/src/librlink/RlinkConnect.cpp:1099-1138 | a response frame behind notify frames and noise is found by the wait in any reads, and exactly these notifies are noted |
| `RlinkExchange.ExchangeRoundTrip` | tools/src/librlink/RlinkConnect.cpp:757-786 | the list as it is sent ends up with the device's answers, whatever notifies and noise come first, the flow control setting and the reads |
| `RlinkExchange.DamageNoticed` | tools/src/librlink/RlinkConnect.cpp:971-980 | two responses that are both accepted differ by damage that passes itself, so not inside 12 consecutive bits nor in an odd number of bits |
| `RlinkExchange.BodyDamageNoticed` | tools/src/librlink/RlinkConnect.cpp:971-980 | a response damaged inside 16 consecutive bits or in an odd number of bits before its checksum is not accepted |
| `ReventLoop.EventLoop.AddPollHandler` | tools/src/librlink/ReventLoop.cpp:75-96 | appended last and marked, or refused as a duplicate with nothing changed |
| `ReventLoop.EventLoop.RemovePollHandler` | tools/src/librlink/ReventLoop.cpp:101-119 | the one matching registration is gone and no other; false, with nothing changed, if there was none |
| `ReventLoop.EventLoop.TestPollHandler` | tools/src/librlink/ReventLoop.cpp:124-135 | true iff registered |
| `ReventLoop.EventLoop.RemoveDescriptor` | tools/src/librlink/ReventLoop.cpp:140-152 | the in-place loop with re-probing is exactly the filter, and marks an update iff something was removed |
| `ReventLoop.WithoutKeeps` | tools/src/librlink/ReventLoop.cpp:140-152 | exactly the registrations for other descriptors remain |
| `ReventLoop.ApplyAllValid` | tools/src/librlink/ReventLoop.cpp:75-152 | any edits keep registrations unique and the poll arrays exact unless an update is due |
| `ReventLoop.EventLoop.DoPoll` | tools/src/librlink/ReventLoop.cpp:210-254 | renews the arrays and repeats the call when edits came in meanwhile; what it gives is said by the next rows |
| `ReventLoop.PollEnds` | tools/src/librlink/ReventLoop.cpp:232-251 | count, failure and the events in the array are those of the last turn; interrupted gives none, another error fails |
| `ReventLoop.ReportedCalled` | tools/src/librlink/ReventLoop.cpp:210-279 | a poll with a positive count and the calls after it: exactly the handlers whose events the last turn reported, in order, up to the first that changes the registrations |
| `ReventLoop.PollCurrent` | tools/src/librlink/ReventLoop.cpp:210-254 | when events are reported the arrays mirror the registrations of that moment |
| `ReventLoop.EventLoop.DoCall` | tools/src/librlink/ReventLoop.cpp:259-279 | the calls made and the registrations afterwards, whatever handlers and, between test and call, other threads do |
| `ReventLoop.CallsInOrder` | tools/src/librlink/ReventLoop.cpp:259-279 | whatever handlers do: those with events are called in order up to the first that leaves an update due, and the registrations afterwards are what the last call left |
| `ReventLoop.NegativeRemoves` | tools/src/librlink/ReventLoop.cpp:266-273 | a handler with a negative result is removed |
| `ReventLoop.CallsRegistered` | tools/src/librlink/ReventLoop.cpp:259-279 | every handler called was registered at the test for an update, and is registered at the call unless another thread came in between |
| `ReventLoop.RemovalRace` | tools/src/librlink/ReventLoop.cpp:259-279 | for every call made: the handler is unregistered exactly if other threads remove it between the test and the call and do not register it again after that |
| `ReventLoop.AllReadyCalled` | tools/src/librlink/ReventLoop.cpp:259-279 | handlers that edit nothing are called for every reported event, in order |
| `RlinkServerAttn.Server.AddAttnHandler` | tools/src/librlink/RlinkServer.cpp:136-154 | appended unless the mask is empty or the handler known |
| `RlinkServerAttn.Server.SignalAttnNotify` | tools/src/librlink/RlinkServer.cpp:298-310 | the bits are noted and the server is woken up |
| `RlinkServerAttn.Server.CallAttnHandler` | tools/src/librlink/RlinkServer.cpp:434-518 | pending notifies are merged first; who is called, each once and in order of registration; the pattern afterwards; notifies signalled meanwhile stay noted |
| `RlinkServerAttn.DisjointKeepsAll` | tools/src/librlink/RlinkServer.cpp:434-518 | with disjoint masks every harvested bit is kept, or each handler waiting for it ran with or after that harvest |
| `RlinkServerAttn.OverlapLoses` | tools/src/librlink/RlinkServer.cpp:481-486 | for any two overlapping masks a pattern and harvests that lose a bit, with the patch or without it |
| `RlinkServerAttn.LosesNothingIffDisjoint` | tools/src/librlink/RlinkServer.cpp:463-517 | nothing is ever lost iff the masks are pairwise disjoint, with the patch or without it |
| `RlinkServerAttn.PatchLoses` | tools/src/librlink/RlinkServer.cpp:483-485 | a turn in which only the patch loses a bit, for every mask between two that share a bit |
| `RlinkServerAttn.CarriedWasHarvested` | tools/src/librlink/RlinkServer.cpp:481-486 | a carried bit was harvested by a handler that ran |
| `RlinkServerAttn.NextPatternIff` | tools/src/librlink/RlinkServer.cpp:463-515 | exactly which bits the next turn starts with, over all masks, harvests and the default harvest |
| `RlinkServerAttn.Server.CallActnHandler` | tools/src/librlink/RlinkServer.cpp:523-540 | the first action is last afterwards, behind those waiting and those queued meanwhile, after a positive result, and gone after any other |
| `RlinkServerAttn.ServedInOrder` | tools/src/librlink/RlinkServer.cpp:523-540 | round robin: the action at position k is called after exactly k others, whatever they return and queue |
| `RlinkServerAttn.ComesBack` | tools/src/librlink/RlinkServer.cpp:530-537 | after a positive result an action is called again after exactly the others that waited and those queued meanwhile |
| `RlinkServerAttn.GoesAway` | tools/src/librlink/RlinkServer.cpp:530-537 | after any other result there is one entry less of it |
| `RlinkServerWakeup.NextInv` | tools/src/librlink/RlinkServerEventLoop.cpp:50-68 | every atomic step of every thread keeps the invariant on lock, activity, events and pending work, with poll and other handlers that queue actions and edit registrations |
| `RlinkServerWakeup.NoLostWakeup` | tools/src/librlink/RlinkServer.cpp:206-212 | in every interleaving, while the server waits forever, each of a pending stop, notify, action and changed registration has an event signalled or a thread about to signal just that |
| `RlinkServerWakeup.PublisherSignals` | tools/src/librlink/RlinkServer.cpp:206-250 | while the server waits, the activity test between queueing or registering and signalling succeeds |
| `RlinkServerWakeup.StepGives` | tools/src/librlink/RlinkServer.cpp:206-310 | a client step takes nothing pending away, but that a start clears a stop, and signals what it published |
| `RlinkServerWakeup.StepTakes` | tools/src/librlink/RlinkServerEventLoop.cpp:50-68 | the server takes a notify only into the pattern, the pattern only at the end of a turn, one action only after its call |
| `RlinkServerWakeup.PendingWhileHeld` | tools/src/librlink/RlinkServer.cpp:206-310 | in every interleaving what was published is pending as long as the publisher holds the lock |
| `RlinkServerWakeup.LockExclusive` | tools/src/librlink/RlinkServer.cpp:394-429 | client threads and server hold the connection lock one at a time |
| `DeunaWords.RingIndexModulo` | tools/src/librw11/Rw11CntlDEUNA.ipp:113-119 | the next index is addition modulo the ring size exactly if the 16 bit sum does not wrap |
| `DeunaWords.UpdateStat32` | tools/src/librw11/Rw11CntlDEUNA.cpp:1865-1870 | detecting wrap-around makes the counter saturate at its maximum |
| `DeunaWords.UpdateStat16` | tools/src/librw11/Rw11CntlDEUNA.cpp:1855-1860 | the same for 16 bit counters held in 32 bits |
| `DeunaControl.MacFilter` | tools/src/librw11/Rw11CntlDEUNA.cpp:1844-1851 | the first matching address, or -1 iff there is none |
| `DeunaControl.CommandInv` | tools/src/librw11/Rw11CntlDEUNA.cpp:902-1013 | every port command keeps the controller invariant |
| `DeunaControl.ActionInv` | tools/src/librw11/Rw11CntlDEUNA.cpp:1569-1815 | so do the ring handlers, left-over ones included |
| `DeunaControl.Reachable` | tools/src/librw11/Rw11CntlDEUNA.cpp:1069-1127 | over all interleavings: running iff RUN; rings at work need running; running needs valid rings of two entries or more; busy rings have their handler queued; polling has its timer armed; the receive ring works or polls only with frames |
| `DeunaControl.RxBusyOwned` | tools/src/librw11/Rw11CntlDEUNA.cpp:1712 | in every run a busy receive ring has an owned descriptor |
| `DeunaControl.TxBusyUnowned` | tools/src/librw11/Rw11CntlDEUNA.cpp:1491-1504 | the only way in which the transmit ring gets busy without an owned descriptor |
| `DeunaControl.TxBusyUnownedRun` | tools/src/librw11/Rw11CntlDEUNA.cpp:1491-1504 | a run from the initial state into that state |
| `DeunaControl.IndexKeptIff` | tools/src/librw11/Rw11CntlDEUNA.cpp:1257-1282 | the ring indices stay inside the rings exactly if no ring format accepted while running cuts a ring before its index |
| `DeunaControl.QuietAfterReset` | tools/src/librw11/Rw11CntlDEUNA.cpp:1069-1093 | from a reset on, until a ring format is written, nothing runs and no frame is accepted or taken, whatever else happens |
| `DeunaControl.ResetIsQuiet` | tools/src/librw11/Rw11CntlDEUNA.cpp:856-870 | a reset begins such a time, in any state |
| `DeunaControl.StalledIff` | tools/src/librw11/Rw11CntlDEUNA.cpp:1533-1840 | over all events: exactly when reception begins to stall with frames queued, and exactly when it goes on |
| `DeunaControl.FrameStranded` | tools/src/librw11/Rw11CntlDEUNA.cpp:577-662 | a frame accepted while the transmit ring works waits on when that work is done, even with a free descriptor |
| `DeunaControl.TransmitRun` | tools/src/librw11/Rw11CntlDEUNA.cpp:965-986 | a run from the initial state to where that happens |
| `DeunaControl.PollsOnce` | tools/src/librw11/Rw11CntlDEUNA.cpp:1832-1840 | an expired poll restarts the ring iff a descriptor is free, and else reception is stalled with the timer open |
| `DeunaControl.Completion` | tools/src/librw11/Rw11CntlDEUNA.cpp:902-1017 | every command but NOOP and SELFTST is answered by exactly one of done and error |
| `DeunaControl.StartStopAnswers` | tools/src/librw11/Rw11CntlDEUNA.cpp:942-1008 | START is answered by done iff the controller then runs; STOP stops and answers error |
| `DeunaControl.StartNotices` | tools/src/librw11/Rw11CntlDEUNA.cpp:1491-1504 | START takes over descriptor 0 but decides by the descriptor of an earlier attention |
| `DeunaControl.StartMissesFrame` | tools/src/librw11/Rw11CntlDEUNA.cpp:1499-1502 | a command sequence after which the ring idles on an owned descriptor |
| `DeunaControl.PdmdNotices` | tools/src/librw11/Rw11CntlDEUNA.cpp:965-986 | a poll demand starts the idle ring iff the current descriptor is owned |
| `DeunaControl.FramesConserved` | tools/src/librw11/Rw11CntlDEUNA.cpp:577-662 | every frame seen is dropped for one counted reason, taken, or queued; first in first out; the queue keeps its limit; no drop is counted as unicast |
| `DeunaControl.UnicastDropsNotCounted` | tools/src/librw11/Rw11CntlDEUNA.cpp:620-628 | in every run the counter of unicast drops is zero, and each frame the filter drops is counted as multicast |
| `DeunaController.Controller.ResetAll` | tools/src/librw11/Rw11CntlDEUNA.cpp:1069-1093 | stops both rings and forgets their format, the control block and the multicast list, ends a poll, makes the port ready, and keeps frames, counts, descriptors and queued handlers |
| `DeunaController.Controller.Run` | tools/src/librw11/Rw11CntlDEUNA.cpp:1097-1127 | running as asked, in the state RUN or READY; started rings are at slot 0 with the descriptors read, each with one handler more iff it has something to do; stopped rings are idle; all else stays |
| `DeunaController.Controller.ExecGetcmd` | tools/src/librw11/Rw11CntlDEUNA.cpp:1131-1410 | succeeds exactly for arguments that pass the checks, with the new ring format, address, list or mode in force and all else unchanged, and else changes nothing but a rejected multicast list or the timeout bit |
| `DeunaController.Controller.AttnHandler` | tools/src/librw11/Rw11CntlDEUNA.cpp:806-1018 | the whole state after each command and reset, port state included, and the answer written; consistency is kept |
| `DeunaControl.HaltHalts` | tools/src/librw11/Rw11CntlDEUNA.cpp:988-998 | HALT of a DELUA in any state is answered by done and ends in the halted state |
| `DeunaControl.HaltedIff` | tools/src/librw11/Rw11CntlDEUNA.cpp:988-998 | over all events only a reset or SELFTST leaves it, for the ready state |
| `DeunaControl.DeadEnd` | tools/src/librw11/Rw11CntlDEUNA.cpp:942-961 | so in every run without these a halted controller stays halted and answers START by an error |
| `DeunaController.Controller.TxRingHandler` | tools/src/librw11/Rw11CntlDEUNA.cpp:1569-1700 | one descriptor is handled iff running and owned, with the index one further modulo the ring size; goes on iff the next one is owned |
| `DeunaController.Controller.RxRingHandler` | tools/src/librw11/Rw11CntlDEUNA.cpp:1704-1815 | the oldest frame is taken iff there is one and the descriptor is owned; then works, polls or idles by frames left and next descriptor |
| `DeunaController.Controller.RxPollHandler` | tools/src/librw11/Rw11CntlDEUNA.cpp:1819-1840 | an expired poll queues a handler iff a descriptor is free and ends polling; otherwise nothing changes |
| `DeunaController.Controller.RcvCallback` | tools/src/librw11/Rw11CntlDEUNA.cpp:577-662 | a frame is queued last iff it may pass, or dropped once, in the counter of the first reason that applies; the receive ring starts iff both rings idle and a descriptor is free; all else stays |
| `DeunaController.Controller.Filter` | tools/src/librw11/Rw11CntlDEUNA.cpp:1844-1851 | the loop finds the first match |
| `DeunaTxRing.NextInv` | tools/src/librw11/Rw11CntlDEUNA.cpp:1569-1700 | every memory access of driver and controller keeps the ring invariant |
| `DeunaTxRing.WritesOnlyOwned` | tools/src/librw11/Rw11CntlDEUNA.cpp:1616-1618 | the controller rewrites a descriptor only while its OWN bit is set in memory |
| `DeunaTxRing.TransmitOrder` | tools/src/librw11/Rw11CntlDEUNA.cpp:1569-1700 | from START on slots 0, 1, 2, ... modulo the size are handled, and what was handed over in each slot is sent once and in order |
| `DeunaTxSim.EventMoves` | tools/src/librw11/Rw11CntlDEUNA.cpp:1474-1700 | every event of the controller is a sequence of moves of this ring, so order and ownership hold for the controller |
| `UsbJtag.Firmware.OutputByte` | tools/fx2/src/main.c:111-121 | the byte is appended to the ring while it has room, and goes over the oldest one when it is full; the count is a 16 bit word |
| `UsbJtag.Firmware.ShiftBurst` | tools/fx2/src/main.c:254-269 | the burst loop is the byte-at-a-time interpreter |
| `UsbJtag.Firmware.Process` | tools/fx2/src/main.c:253-287 | bursts and commands by turns are the interpreter on the whole packet |
| `UsbJtag.Firmware.Receive` | tools/fx2/src/main.c:245-290 | a packet of any size is taken iff fewer than 193 bytes wait; pins and bytes read back are those of the interpreter on all bytes received, however cut; the ring overflows exactly if more than 256 wait, and never for at most 64 bytes |
| `UsbJtag.Firmware.Send` | tools/fx2/src/main.c:197-243 | packets of at most 64 bytes, the header alone once per timer tick; their payloads and the ring concatenate to the bytes read back |
| `UsbJtag.RingDrop` | tools/fx2/src/main.c:207-219 | taking n bytes from the ring modulo 256 |
| `UsbJtag.OutGrows` | tools/fx2/src/main.c:245-290 | at most one byte is read back per byte received, which the room test relies on |
| `UsbJtag.ShiftCommand` | tools/fx2/src/main.c:254-279 | a shift command announces as many bytes as its low six bits say; just these are shifted, in order, and read back or not |
| `UsbJtag.PinCommand` | tools/fx2/src/main.c:270-286 | the other commands set the pins and read them back from 64 on |
| `UsbJtag.AllReadBack` | tools/fx2/src/main.c:270-286 | packets of any size that read back a byte for each byte |
| `RtclNameSet.PrefixInterval` | tools/src/librtcltools/RtclNameSet.cpp:85-124 | what lies between a string and one of its continuations continues it, too |
| `RtclNameSet.Contiguous` | tools/src/librtcltools/RtclNameSet.cpp:88-108 | the names a query abbreviates follow each other from the lower bound on |
| `RtclNameSet.CheckMatch` | tools/src/librtcltools/RtclNameSet.cpp:85-124 | 1 iff a name or a unique abbreviation, 0 iff ambiguous, -1 iff none, with the name |
| `RtclNameSet.JoinParts` | tools/src/librtcltools/RtclNameSet.cpp:45-62 | the parts between the bars joined again are the list |
| `RtclNameSet.NamesAreParts` | tools/src/librtcltools/RtclNameSet.cpp:45-62 | the names are the parts without the empty ones before the last |
| `RtclNameSet.Build` | tools/src/librtcltools/RtclNameSet.cpp:45-62 | the sorted set of these names, or refusal iff one repeats |

## Left out

- Ports, file descriptors, libusb and the hardware: a port read, a poll call, the JTAG target and ring memory reads are parameters or steps of another party.
- Logging, printing, dumping, Tcl bindings and all statistics but those in a conservation law.
- Sending of out-of-band, keep-alive, attention, NAK and unjam sequences: fixed byte strings without feedback.
- Expect objects and status checks of commands: they compare received values with user values and only set report flags.
- RlinkConnect.Connect.WaitAttn: the time waited is not modelled, and that the time is not up before the first read is a precondition.
- RlinkConnect.Connect.StartOrResume: the poll handler for the port, the thread and the attention sent on resuming are not modelled.
- RlinkConnect.Connect.Exec: does not model the lock, nor recovery after an incomplete response, which the source does not implement.
- ReventLoop.EventLoop.DoCall: edits of other threads while a handler runs count as edits of the handler.
- RlinkServerAttn.Server.CallAttnHandler: handlers that change the handler list during a turn are not modelled.
- RlinkServerWakeup.NoLostWakeup: a server thread that ends by an exception or by an empty poll list, and error events of the two descriptors, are not modelled.
- DeunaController.Controller.ExecGetcmd: functions that only read state, the counter block and the system ID are one function that succeeds or fails.
- DeunaController.Controller.TxRingHandler: frame contents, padding, loss and the flags of the written descriptor are not modelled.
- DeunaController.Controller.RxPollHandler: an error event of the timer descriptor, which ends the handler, is not modelled.
- DeunaTxRing.TransmitOrder: assumes the driver leaves owned descriptors alone and changes no ring format while running, as the ring protocol demands.
- The receive descriptors taken from the primary command list on PDMD, of which the source reads one pair into the same buffer.
- UsbJtag.Firmware.Receive: that the host sends packets of at most 64 bytes is its own obligation; the high speed descriptor of the endpoint declares 512 and says in a comment to use only 64 (tools/fx2/src/dscr_gen.A51:201-202).
- FX2 register setup, the shift routines of the 8051 and the EEPROM image.
- Address maps, other controllers, the VHDL and the serial loop-back tester.
