# Terminal server protocol: model and proofs

A terminal server collects reports from field devices over TCP. Each device sends
packets of four header bytes, a fixed struct chosen by a descriptor byte, and a tail; a
terminal report is followed by 96-byte screen records without headers of their own. This
project models how the bytes of such a connection become packets and reports again, and
how the session that asks for them comes to its end.

| file | models |
|---|---|
| `Wire.dfy` | packet header, struct sizes, the pure decoder |
| `Ring.dfy` | `CircularQueue`: the receive ring over a fixed array, with its packet decoder |
| `Stream.dfy` | the byte stream as messages, and every schedule of receiving and draining |
| `Receiver.dfy` | the ring at work: accepting chunks, taking messages, the drain loop |
| `Transfer.dfy` | the readable turns of the select loop, with its header wait |
| `Fields.dfy`, `Reports.dfy`, `Encoder.dfy` | struct layouts, what the client sends, the byte-by-byte encoder |
| `Exchange.dfy` | encoder, ring and decoder together |
| `Layout.dfy` | where every field of every record stands, byte by byte |
| `Storage.dfy` | what the handlers store of a report, its names printed as C strings |
| `Dialogue.dfy` | client and server end to end: reports through the ring into the session |
| `Auth.dfy` | the keystream and the trailer check interleaved with decryption |
| `Session.dfy` | the state machine of one session, and runs against a client that answers |
| `Arrivals.dfy` | the same runs when replies arrive together and the database fails |
| `RowKeys.dfy` | the numbers under which terminals and screens are filed |
| `Text.dfy`, `HexDump.dfy` | the hex dumpers over a stream with sticky flags, and a reader of dumps |
| `Address.dfy` | the dotted-quad renderer and a strict reader |
| `Config.dfy` | the configuration reader |

Each class has the fields of the source's object, and its methods change them in place;
each method is proved against a function of the old contents, and the theorems are about
those functions. Randomness, time, the network and the outcome of database calls are
parameters.

Three source files carry comments in a legacy character set: server/src/presentation.cpp,
server/src/transfer.cpp and client/client_communicate.cpp. Their bodies are modelled all
the same; for them the table cites the declarations in the header files and the draft of
the encoder in test/test_server.cpp. The bodies are: the state machine `fsm` at
server/src/presentation.cpp:18-805 (authentication 82-181, processes 308-435, Ethernet
436-534, terminals 535-766, end 767-797), with the two fields it branches on set at
server/src/DatabaseConnection.cpp:115 and 393; `try_recv` at server/src/transfer.cpp:8-58,
the test before a client is served at 104-130 and the second call while screens are due at
149-156; and the compiled encoder at client/client_communicate.cpp:27-136 and 138-520.

## Where the code departs from its own promises

These are proved as the code stands, with the exact condition.

- `has_complete_packet` adds the header to a length that already includes it, so a drain
  always keeps the last message back until four more bytes arrive (`Stream.HoldBack`).
- `decrypt_auth` starts comparing one position late: 31 of the 32 trailer bytes count
  (`Auth.AcceptedButNotSigned`, with the input `Auth.AcceptsWrongFirstByte`).
- Waiting for a header, `try_recv` queues earlier bytes again on each further receive
  call; it is faithful exactly when the first call completes the header
  (`Transfer.WaitIsFaithfulIff`, with the input `Transfer.WaitSpoils`). A message that is
  not complete within one turn costs the client its bytes or its connection
  (`Transfer.ServedIntactIff`), and of several that arrive in one turn one is served
  (`Transfer.TurnsServeIff`, `Transfer.TogetherServesOne`).
- A session completes exactly when the client has at most two Ethernet ports and
  announces as many terminals as it flags, at least one (`Session.SessionCompletesIff`),
  no two replies arrive together while several are due, and no database call fails that
  it depends on; screens may be stored in a later call (`Arrivals.CompletesIffSmooth`). The server asks for all terminals at once
  and serves one reply in a turn, so a reply that is left over waits for ever. The client's
  own arm announces a random number that is at least the number of flags
  (test/test_server.cpp:496).
- A file is stored up to its first zero byte (server/src/DatabaseConnection.cpp:185 and
  210), and only the lowest byte of an address is sent (a cast binds before a shift); the
  session swaps a terminal's 32-bit address with the 16-bit `ntohs`
  (`Reports.ArrivesUnchanged`).
- Names in fixed arrays are printed as C strings, so a name that fills its array runs on
  into the next field (`Storage.StoredAsMeantIff`). The client draws its names from
  letters only (client/shared_library.cpp:80-89), and its serial is stored as all three
  names in a row (`Storage.LettersRunOn`).
- Dumb terminals 1 to 9 and 100 up are filed under other numbers than their screens
  (`RowKeys.RowNumbersAgreeIff`), and dumb terminals 1 to 9 under those of the IP
  terminals 91 to 99 (`RowKeys.TerminalsCollideIff`); more than 127 screens of one terminal collide
  (`RowKeys.BurstKeysDistinctIff`).
- The comment in the header file calls the length field a payload size; the decoder and
  the encoders use it as the total length.

## Model

| member | source | states |
|---|---|---|
| Wire.CompletenessIsSound | server/src/types.cpp:71-75 | a complete packet can be decoded without an unmet dequeue; the test asks for four bytes more than a packet that is not a terminal record takes, and 36 bytes suffice for a terminal record |
| Wire.DecodeKeepsBytes | server/src/types.cpp:102-176 | header, struct and tail of a decoded packet are exactly the bytes consumed |
| Wire.DecodeIs | server/src/types.cpp:102-172 | header, struct and tail of a decoded packet, by position: four bytes, the struct of the descriptor's size, and the rest of the declared length, or of 36 bytes for a terminal record |
| Stream.WholeMessageIs | server/include/types.hpp:284-313 | a message by its bytes: a known descriptor, the declared length, room for the struct, and the screens that byte 11 counts |
| Wire.KnownIff | server/src/types.cpp:108-150 | the eight descriptors the decoder has a case for |
| Wire.NetworkOrder | server/src/types.cpp:61-69 | numbers on the wire have their most significant byte first |
| Ring.SlotIsModular | server/src/types.cpp:27 | the slot of a byte is its position modulo the capacity |
| Ring.CircularQueue.constructor | server/src/types.cpp:6-12 | an empty queue of the given capacity over a new buffer |
| Ring.CircularQueue.IsEmpty | server/src/types.cpp:53-55 | true exactly when nothing is held, also where front and rear coincide |
| Ring.CircularQueue.IsFull | server/src/types.cpp:57-59 | true exactly when the bytes held fill the capacity |
| Ring.CircularQueue.RearIsModular | server/src/types.cpp:18-43 | front and rear stay below the capacity, rear is front plus size modulo capacity, and they coincide exactly when empty or full |
| Ring.CircularQueue.Enqueue | server/src/types.cpp:18-30 | accepts exactly what fits and appends it across the wrap; a refused call changes nothing |
| Ring.CircularQueue.Dequeue | server/src/types.cpp:32-43 | succeeds exactly when that many bytes are held, removes and returns the prefix, and leaves the rest of the caller's buffer alone; a refused call changes nothing |
| Ring.FirstInFirstOut | server/src/types.cpp:18-51 | over any run of calls, what came out followed by what is held is what went in, and bytes in minus bytes out are the size, within the capacity |
| Ring.RefusedIff | server/src/types.cpp:18-43 | a call is refused, and changes nothing, exactly when there is too little room or too little held |
| Ring.MakeCalls | server/src/types.cpp:18-51 | any calls on a ring: it holds what the run holds and returns what the run returns, and its size is the bytes in minus the bytes out |
| Ring.CircularQueue.CurrentPacketSize | server/src/types.cpp:61-69 | the big-endian length of the packet at the front, wherever the ring wraps |
| Ring.CircularQueue.HasCompletePacket | server/src/types.cpp:71-75 | the declared length plus header is held |
| Ring.CircularQueue.DequeuePacket | server/src/types.cpp:77-179 | returns the packet that the pure decoder reads from the contents and removes exactly its bytes; with the screen flag, exactly the next 96 bytes |
| Ring.DecodeInParts | server/src/types.cpp:102-172 | taking header, struct and tail one after the other is decoding at once |
| Stream.MessageKeepsBytes | server/src/types.cpp:77-179 | the packets of a message, screens included, carry exactly its bytes |
| Stream.ScreensAre | server/src/types.cpp:85-100 | screen record i is the 96 bytes from 96i on |
| Stream.ParseConserves | server/src/types.cpp:71-179 | what a parse takes and what it leaves are the bytes given |
| Stream.ParseAppend | server/src/types.cpp:71-179 | a parse can be interrupted anywhere and resumed with more bytes |
| Stream.DrainThenParse | server/src/types.cpp:71-179 | a drain followed by the plain parse of what it leaves is the plain parse of the whole |
| Stream.RunAccounted | server/src/types.cpp:18-179 | in every schedule, packets handed on and bytes held account for all bytes accepted, within the capacity |
| Stream.EmittedIsPrefixOfParse | server/src/types.cpp:18-179 | in every schedule of chunks and drains, the packets handed on are a prefix of the parse of the whole stream, and bytes held plus bytes unsent are the unparsed rest |
| Stream.FragmentationIndependence | server/src/types.cpp:18-179 | after a final drain, packets and remaining bytes depend only on the bytes accepted, not on the chunking |
| Stream.ParseOfMessages | server/src/types.cpp:77-179 | well-formed messages in a row are taken one by one, whatever follows |
| Stream.HoldBack | server/src/types.cpp:71-75 | a drain of k messages hands on exactly the first k-1, and any four further bytes release the last; a parse without slack hands on all |
| Stream.NoStall | server/src/types.cpp:61-75 | a full receive buffer always reports a complete packet; one that does not holds at most 65538 bytes and has room for 36862 |
| Stream.StallBoundIsTight | server/src/types.cpp:61-75 | 65538 bytes can be held without a complete packet |
| Stream.RoomAfterDrain | server/include/types.hpp:37-39 | after a drain, in any schedule over headers the decoder handles, at least 36862 bytes are free |
| Receiver.Receiver.TakeTerminal | server/src/types.cpp:85-100 | a terminal record declaring 36 + 96n bytes: one plain and n screen decodings return the record and the screens in order and remove exactly the declared length |
| Receiver.Receiver.TakeScreens | server/src/types.cpp:85-100 | n screen decodings take n records in order |
| Receiver.Receiver.TakeMessage | server/src/types.cpp:77-179 | the next message is taken whole, and the buffer is left at the next header |
| Receiver.Receiver.Accept | server/src/types.cpp:18-30 | a chunk is accepted exactly when it fits, as the schedule's receive step says |
| Receiver.Receiver.Drain | server/src/types.cpp:71-179 | the drain loop terminates and does what the schedule's full drain says |
| Receiver.Receiver.TakeOneMessage | server/src/types.cpp:71-179 | one message is taken if a complete packet is reported, as the schedule's single take says |
| Receiver.Receiver.Play | server/src/types.cpp:18-179 | any schedule of receiving, single takes and drains, carried out on the ring, does what the run says, over headers the decoder handles |
| Receiver.Receiver.Deliver | server/src/types.cpp:18-179 | receiving and draining by turns always reaches the end of the stream, with the same outcome for every chunking |
| Transfer.WaitIsFaithfulIff | server/include/transfer.hpp:41-46 | a successful header wait leaves the old bytes followed by those received exactly when its first receive call completes the header |
| Transfer.WaitSpoils | server/include/transfer.hpp:41-46 | one byte and then three: the wait succeeds with five bytes queued where four were read, for every capacity of at least five |
| Transfer.LaterTurns | server/include/transfer.hpp:41-46 | after a second receive call, a wait that succeeds has queued more bytes than it received |
| Transfer.ServedIntactIff | server/include/transfer.hpp:32-46 | the client is served from an intact buffer exactly when this turn's chunk completes the message at the front |
| Transfer.TurnsServeIff | server/include/transfer.hpp:32-46 | messages cut in any way into chunks, one for each turn, that fit the room left when they arrive, over sessions of any length: the client is served in all turns exactly when each turn completes a message in time; then turn after turn serves one message, in order, and no byte is lost |
| Transfer.TogetherServesOne | server/include/transfer.hpp:32-46 | of messages that arrive together one is served, and the others stay in the buffer |
| Transfer.ServeTurn | server/include/transfer.hpp:32-46 | a readable turn on the ring: the reception, and one message if the declared length is held |
| Transfer.ServeTurns | server/include/transfer.hpp:32-46 | such turns carried out on the ring hand on the packets of one message each, in order, and hold the rest |
| Transfer.TryRecv | server/include/transfer.hpp:41-46 | status and buffer contents of one reception, for all outcomes of the receive calls |
| Transfer.ReceiveOutcome | server/include/transfer.hpp:41-46 | once a header is held: no call on a full buffer or when nothing is wanted, an error for an error, and otherwise as many of the bytes as there is room for, none from a peer that has closed |
| Transfer.WaitOutcome | server/include/transfer.hpp:41-46 | the wait ends well exactly with a header held, and gives up on an error, on a peer that has closed and on a full buffer |
| Transfer.AwaitHeader | server/include/transfer.hpp:41-46 | the header wait, with its temporary buffer and running total |
| Fields.GetPut | test/test_server.cpp:131-151 | reading back a written list of fields gives the fields |
| Fields.PutGet | server/include/types.hpp:117-318 | writing back the fields read from bytes gives the bytes |
| Fields.ReadAt | server/include/types.hpp:117-318 | a field of any layout is the bytes behind the fields before it, numbers in network order |
| Encoder.MessageBuilder.PushBackUint16 | test/test_server.cpp:138-142 | appends two bytes in network order |
| Encoder.MessageBuilder.PushBackUint32 | test/test_server.cpp:144-151 | appends four bytes in network order |
| Encoder.MessageBuilder.PushBackScreenInfo | test/test_server.cpp:191-245 | appends the fields of a screen record, with the lowest byte of its address |
| Encoder.MessageBuilder.Encrypt | test/test_server.cpp:309-346 | replaces the device bytes by the encryption of them and the fixed string |
| Encoder.PackMessage | test/test_server.cpp:248-609 | for every kind of report, the byte-by-byte encoder builds the message of the layout |
| Reports.EncodeIsWhole | test/test_server.cpp:352-595 | an encoded report is one well-formed message: it has its declared length, its data length is eight less, and a terminal record is followed by the screens it counts |
| Reports.StructSizes | server/include/types.hpp:117-318 | the layouts have the struct sizes the decoder uses |
| Reports.DecoderSizes | server/src/types.cpp:108-150 | the size of the struct for every descriptor that is read is what its fields measure |
| Reports.EtherShapeSize | server/include/types.hpp:181-218 | the size of the Ethernet record is what its fields measure |
| Reports.MessageStarts | test/test_server.cpp:352-602 | the first eight bytes of a message: direction, descriptor, length of the whole, terminal number or zero, and length of the data |
| Reports.KindsOfMessages | test/test_server.cpp:272-602 | descriptor and length of each kind of message |
| Reports.ScreensBytesAt | test/test_server.cpp:588-591 | each screen has its 96 bytes of the message, in order |
| Layout.DevicePads | test/test_server.cpp:295-307 | the port counts and the padding of a device are zero bytes |
| Reports.ScreensRoundTrip | test/test_server.cpp:545-593 | any number of screens is read back in order |
| Reports.AuthRoundTrip | server/include/types.hpp:117-139 | an encrypted authentication record is decrypted with the random number beside it, accepted, and read as the device it came from |
| Reports.RoundTrip | test/test_server.cpp:272-602 | every report is read back from the packets its message decodes to, a file up to its first zero byte |
| Reports.FileArrives | server/src/DatabaseConnection.cpp:183-186 | what arrives of a file is its longest start within the limit and without a zero byte |
| Reports.TerminalArrives | test/test_server.cpp:569-574 | all of a terminal arrives but its address, and all of its screens but three bytes of theirs |
| Layout.SysRead | server/include/types.hpp:146-154 | the five numbers of system information, by position |
| Layout.TerRead | server/include/types.hpp:271-277 | flags and number of the terminals, by position |
| Layout.IpTermRead | server/include/types.hpp:284-294 | the fields of a terminal record by position, of the address the first two bytes as a 16-bit number |
| Layout.ScreenRead | server/include/types.hpp:296-313 | the fields of a screen record by position |
| Layout.DeviceRead | server/include/types.hpp:117-137 | the fields of a device in the decrypted record by position |
| Layout.FileRead | server/src/DatabaseConnection.cpp:183-186 | a file is the tail up to its first zero byte |
| Layout.AuthRead | client/shared_library.cpp:67-78 | an authentication record is read exactly when the last 31 of its 104 decrypted bytes are those of the fixed string, and then it is the device they start with |
| Reports.FileRoundTrip | server/src/DatabaseConnection.cpp:183-186 | printing the tail as a C string gives the file up to its first zero byte |
| Reports.WholeFile | server/src/DatabaseConnection.cpp:208-211 | a file is stored whole exactly when it is within the limit and contains no zero byte |
| Reports.ArrivesUnchanged | test/test_server.cpp:569-574 | a report comes out of the packets as it was exactly when files are within the limit and contain no zero byte, screen addresses fit a byte, and a terminal's address is zero; fixed arrays are compared as the bytes of the packet |
| Storage.StoredAsMeantIff | server/src/DatabaseConnection.cpp:97-105 | a report is stored with the names it means exactly when it comes out unchanged and every stored name has a zero byte in its array or right behind it, a screen's terminal type in the lowest byte of its time |
| Storage.PrintedIff | server/src/DatabaseConnection.cpp:425-429 | an array is printed as its own C string exactly when it contains a zero byte or the next field starts with one in memory |
| Storage.HostOrder | server/include/types.hpp:296-313 | numbers in the memory of the host have their least significant byte first |
| Storage.PrintedLastIff | server/src/DatabaseConnection.cpp:428-429 | the last array of a record is printed as its own C string exactly when it contains a zero byte; otherwise the print runs beyond the record |
| Storage.ScreensStored | server/src/DatabaseConnection.cpp:464-471 | the names of any number of screens are stored as meant exactly when those of each screen end |
| Storage.LettersRunOn | client/shared_library.cpp:80-89 | of a device whose names contain no zero byte, the serial is stored as serial, type and version in a row |
| Exchange.SendOne | server/src/types.cpp:18-179 | an encoded report, sent through the ring standing anywhere, is taken whole and read back |
| Exchange.SendAll | server/src/types.cpp:18-179 | encoded reports in a row, in any chunks: all but the last are handed on, and the last one waits |
| Exchange.Authenticate | client/shared_library.cpp:67-78 | in-place decryption of bytes 4 to 107 with the random number at byte 108; a device is read from them exactly when their last 31 are those of the fixed string, and nothing otherwise |
| Auth.KeyedTwice | client/shared_library.cpp:60-64 | applying the keystream twice restores every buffer |
| Auth.XorAt | client/shared_library.cpp:62 | each bit of an exclusive or is the sum of the two bits modulo two |
| Auth.KeyedBits | client/shared_library.cpp:60-64 | the keystream bit by bit, with the key byte at (random + i) mod 4093 |
| Auth.AuthStringSpeltOut | client/shared_library.cpp:68 | the 32 bytes of the fixed string, spelt out |
| Auth.EncryptAuth | client/shared_library.cpp:55-65 | every bit of the buffer is the sum modulo two of what it was and the bit of the key byte at (random + i) mod 4093, and the index stays below 4093 |
| Auth.DecryptAuth | client/shared_library.cpp:67-78 | true exactly when the compared trailer bytes match; otherwise bytes up to the first wrong one are decrypted and the rest is as it came, each bit by the key byte at (random + i) mod 4093 |
| Auth.TrailerMatchesIffNoMismatch | client/shared_library.cpp:72-74 | the last min(31, length) bytes match exactly when no position is a mismatch |
| Auth.LongBuffer | client/shared_library.cpp:72-74 | from 32 bytes on, the last 31 must be those of the fixed string |
| Auth.ShortBuffer | client/shared_library.cpp:72-74 | a shorter buffer must be an end of the fixed string |
| Auth.AcceptedButNotSigned | client/shared_library.cpp:72-74 | ending with the whole fixed string is passing the check and having its first byte right |
| Auth.AcceptsWrongFirstByte | client/shared_library.cpp:72-74 | a buffer that passes without ending with the fixed string |
| Auth.RoundTrip | client/shared_library.cpp:55-78 | encryption and decryption with one random number restore the buffer and accept it when it ends with the fixed string |
| Session.EndIsRequestedOnce | server/include/presentation.hpp:17-18 | whatever a client sends and whichever database calls fail, storing of screens included, the end is requested at most once, last, and only when the terminal packets taken are as many as announced |
| Session.AliveIff | server/include/presentation.hpp:17-18 | in every state, the connection is kept exactly when the packet is of the kind awaited and the database call succeeds, which system information does not wait for |
| Session.FieldsTaken | server/include/types.hpp:376-401 | what a packet leaves in the counters of the client |
| Session.ListAnswered | server/include/types.hpp:266-282 | the list of terminals is answered by the requests for its dumb terminals and then for its IP terminals |
| Session.AskedIff | server/include/types.hpp:279-282 | terminal t is asked for exactly when flag number t, counted from one, is set |
| Session.AskedInOrder | server/include/types.hpp:279-282 | the requests for terminals are of one kind and by increasing number |
| Session.RequestsInOrder | server/include/types.hpp:345-360 | a session that completes has sent exactly: authentication, system, configuration, processes, the ports from 1 down, the list of terminals, each flagged terminal, the end |
| Session.Ethernet | server/include/types.hpp:345-360 | with at most two ports, each port is asked for and answered before the terminals are asked for |
| Session.Terminals | server/include/types.hpp:345-401 | when j terminals have reported, the remaining requests are pending in order, and the end is requested at the number announced |
| Session.SessionCompletesIff | server/include/types.hpp:345-401 | when every reply arrives alone and is stored, the session with a client that answers every request completes exactly with at most two ports and as many terminals announced as flagged, at least one |
| Session.TooManyTerminals | server/include/presentation.hpp:17-18 | with more terminals flagged than announced, the connection is closed and the session never completes |
| Session.ClientSession.Fsm | server/include/presentation.hpp:17-18 | the state machine on the client's fields is the step function, and leaves a client whose screens cannot be stored as it is |
| Session.ClientSession.CallAgain | server/include/presentation.hpp:17-18 | the second call while screens are due, whose result is ignored |
| Session.AgainIsCall | server/include/presentation.hpp:17-18 | that second call is a call of the state machine like any other |
| Arrivals.ServesKeep | server/include/types.hpp:345-401 | however replies arrive, requests not served yet are the last ones sent, and none is left when the closing reply is accepted |
| Arrivals.LeftOver | server/include/types.hpp:345-401 | a reply that a turn leaves over is never caught up with |
| Arrivals.CompletesIffSmooth | server/include/types.hpp:345-401 | for every way in which replies arrive and every outcome of the database calls, where screens are stored at the first call or a later one before the next reply: the session completes exactly when the profile is consistent, no two replies arrive together while several are due, and no call it depends on fails |
| Arrivals.PendingIsDue | server/include/types.hpp:345-401 | how many replies are due in each turn, read off the profile |
| Dialogue.ReplyOfEncoded | server/include/types.hpp:44-92 | the session takes every encoded report, decoded from its message, for the reply it is |
| Dialogue.ReplyIs | server/include/types.hpp:55-92 | which packet the session takes for which reply, and that any other descriptor is none it waits for |
| Dialogue.WrongDirection | server/include/types.hpp:44-48 | a packet with another direction byte is none it waits for |
| Dialogue.AuthReplied | server/include/types.hpp:117-139 | an authentication record is taken for one exactly when it is read, with the number of ports behind its names |
| Dialogue.TerminalsReplied | server/include/types.hpp:271-277 | the flags and the number the session takes from a list of terminals |
| Dialogue.TerminalReplied | server/include/types.hpp:284-294 | the number of screens the session takes from a terminal record |
| Dialogue.TakeReply | server/include/transfer.hpp:41-46 | a report, encoded and sent through the ring in a turn of its own, is taken whole, leaves the buffer empty, and gives its reply |
| Dialogue.PlaysPlain | server/include/types.hpp:345-401 | a client without Ethernet ports and dumb terminals is never asked for either |
| Dialogue.Converse | server/include/presentation.hpp:17-18 | any number of turns of both sides, from report to bytes to ring to decoder to state machine, leave the session where the play of the client's profile says |
| Dialogue.ConverseToTheEnd | server/include/presentation.hpp:17-18 | a client that announces the terminals it flags, at least one: when its reports have gone through, the closing reply is accepted and the session is at its end |
| HexDump.CellIsPadded | client/shared_library.cpp:38 | a byte is two hex digits and a blank |
| HexDump.GutterAlignment | client/shared_library.cpp:44-51 | in every row, full or partial, the gutter starts 50 columns after the offset's ": " |
| HexDump.RowColumns | client/shared_library.cpp:28-51 | every column of every row: label, two digits and a blank for each byte, the dash before the ninth, blanks up to the gutter |
| HexDump.GutterShows | client/shared_library.cpp:40 | in the gutter, bytes from 0x20 to 0x7E stand for themselves and all others become a dot |
| HexDump.OffsetDigits | client/shared_library.cpp:33 | the digits of an offset, four or more |
| HexDump.DumpLines | client/shared_library.cpp:29-33 | the dump is one new line for each row |
| Text.DigitsSpeltOut | client/shared_library.cpp:33-38 | the hexadecimal digits of either case, spelt out |
| HexDump.FillIs | client/shared_library.cpp:48 | the interval formula complements the cells and the dash printed |
| HexDump.FinishedIsDump | client/shared_library.cpp:24-53 | what the loop has printed at its end are the rows of the dump |
| HexDump.DumpIsReversible | client/shared_library.cpp:24-53 | reading a dump gives the bytes back, for every length and width of offset |
| HexDump.DumpIsInjective | client/shared_library.cpp:24-53 | no two byte sequences are printed alike |
| HexDump.LogifyData | client/shared_library.cpp:24-53 | the dumper of the client, and of the server for raw buffers, prints the dump |
| HexDump.LogifyMessage | server/src/log.cpp:3-29 | the server's dumper for messages, with uppercase set at row starts only, prints the same text |
| Address.RenderIsInvertible | server/src/DatabaseConnection.cpp:227-238 | reading a rendered address gives the 32-bit value, for every signed input |
| Address.RenderOrder | server/src/DatabaseConnection.cpp:227-238 | an address is printed as the four digits of its value modulo 2^32 to the base 256, the most significant first |
| Text.DecimalDigits | server/src/DatabaseConnection.cpp:235 | an octet in decimal, digit by digit |
| Address.ParsedIsRendered | server/src/DatabaseConnection.cpp:227-238 | every strict address is the rendering of its value |
| Address.RenderIsInjective | server/src/DatabaseConnection.cpp:227-238 | distinct addresses never print alike |
| RowKeys.RunRowsOk | server/src/DatabaseConnection.cpp:421-461 | every screen row carries the number of the terminal it follows and the counter modulo 127 |
| RowKeys.RowKeysAreUnique | server/src/DatabaseConnection.cpp:459-461 | for a connection that reports each terminal once per kind, screens within 127 inserts, all keys inserted are distinct, in any interleaving with other connections |
| RowKeys.BurstRows | server/src/DatabaseConnection.cpp:459-461 | a terminal and n screens without interruption insert n rows numbered on from the counter |
| RowKeys.BurstKeysDistinctIff | server/src/DatabaseConnection.cpp:461 | the screens of one terminal get different keys exactly when there are at most 127 |
| RowKeys.RowNumbersAgreeIff | server/src/DatabaseConnection.cpp:421-422 | a terminal's row and its screens' rows carry one number exactly for IP terminals and two-digit numbers |
| RowKeys.TerminalsCollideIff | server/src/DatabaseConnection.cpp:421 | a dumb and an IP terminal are filed under one number exactly when they are numbered d and 90 + d for a one-digit d |
| RowKeys.KeyState.OnRecvIPTermResponse | server/src/DatabaseConnection.cpp:407-443 | the handler sets the terminal of its connection to 900 plus the number for a dumb one, in 16 bits, or to the number, sets the screen, and inserts no screen row |
| RowKeys.KeyState.OnRecvScreenInfoPacket | server/src/DatabaseConnection.cpp:445-461 | the handler inserts one row, under the current terminal's number and the counter modulo 127, and counts on |
| Config.ParseIsHomomorphism | client/parse_arguments.cpp:13-34 | a file followed on a new line by another gives the first one's entries extended with keys new in the second |
| Config.FirstLineWins | client/parse_arguments.cpp:32-33 | each key takes its first valid line, and a key without one is absent |
| Config.EntryIs | client/parse_arguments.cpp:18-33 | the entry of a line from its words: the first is the key, and the second, or for the server the third, is the value |
| Config.WordsOfOne | client/parse_arguments.cpp:20-29 | a word between blanks, which are the six of the C locale, is taken as it stands, and the rest follows |
| Config.WordsOfBlanks | client/parse_arguments.cpp:20-22 | a line of blanks has no words |
| Config.NoEntryIff | client/parse_arguments.cpp:9-30 | a line has no entry exactly when it has fewer than two words (three with the equals sign) or one of these starts with the comment sign |
| Config.SkippedLine | client/parse_arguments.cpp:22-30 | a line with fewer words than an entry needs, or with a comment sign at the start of one of those words, never matters, wherever it stands |
| Config.ParseArguments | client/parse_arguments.cpp:13-45 | the line loop, which runs once more after the last line, accumulates the entries of the lines; client defaults fill absent keys only |
| Config.AddDefaults | client/parse_arguments.cpp:37-41 | defaults never replace an entry, in whatever order they are inserted |

## Left out

- Ring.CircularQueue.DequeuePacket: descriptors without a case in the decoder's switch, and declared lengths below header plus struct, are excluded by a precondition, because the code then works with an unset or wrapped size; for a screen record the code reads a header it never filled, and the model takes the 96 bytes and an empty tail.
- Ring.CircularQueue.constructor: a capacity above half the address space is excluded, as no such object exists; the fresh array holds zeros where the source's is not initialised.
- Stream.RoomAfterDrain: needs a stream whose headers the decoder handles; on other streams the drain of the model stops at the first bad header, which the code does not.
- Stream.FragmentationIndependence: on a stream with a header that the decoder does not handle, the drain of the model stops there; `Receiver.Drain` is tied to it for all other streams.
- Receiver.Receiver.Deliver: the chunk size is left open, and any that fits is taken.
- Transfer.TryRecv: the running total is not bounded by the width of an int; reading past the temporary buffer cannot happen, because a total that large is refused.
- Transfer.ServeTurn: sending and new connections are not modelled.
- Auth.DecryptAuth: for any 32-byte trailer and any key table of 4096 bytes; the contents of the table do not matter. The random number is a parameter.
- Encoder.PackMessage: a failed file read ends the client's arm early and is not modelled; field contents are parameters where the client draws random numbers. The draft cited writes zero for an IP terminal's number (test/test_server.cpp:556-557); the model sends the number, as the compiled client does (client/client_communicate.cpp:470). A device's port counts are the eight bytes it sends as zero. The authentication arm of test/test_server.cpp builds 71 bytes where it demands 72 and always gives up; the compiled arm of the client is the one modelled.
- Reports.RoundTrip: the session's reading is that of a little-endian host. Files are read as their handlers store them; for the names in fixed arrays see `Storage.StoredAsMeantIff`.
- Session.SessionCompletesIff: every reply arrives in a turn of its own and every database call succeeds (`Arrivals.CompletesIffSmooth` lifts both); dumb terminals are not flagged, because the decoder has no case for their packets.
- Arrivals.CompletesIffSmooth: replies arrive whole (`Transfer.ServedIntactIff` says what becomes of others), and screens are stored before the next reply arrives; otherwise the retry takes records from the bytes of that reply, and what it then finds there is not modelled.
- Dialogue.Converse: one reply in a turn, and every database call succeeds; how the client reads the requests is not modelled. Its Ethernet ports are none, because the compiled client sends zero and has no arm for Ethernet reports.
- Storage.StoredAsMeantIff: names only; the number that the statement appends to the serial, and the rest of the SQL text, are not modelled.
- Session.EndIsRequestedOnce: packets are abstracted to their kind and the fields the session looks at.
- RowKeys.KeyState.OnRecvScreenInfoPacket: the counter is below the limit of a signed 32-bit integer; beyond it the code's behaviour is undefined.
- HexDump.LogifyData: lengths up to the range of the loop variable.
- Config.ParseArguments: characters stand for bytes, and the default map is a parameter.
- Version packets: the decoder has no case for them.
- Ethernet reports: decoded as packets, but their fields are not read.
- SQL text, database connections, log routing, sockets, forking: foreign libraries and I/O.
- CPU, memory and ping figures, and MAC addresses: formatting without a strong property.
