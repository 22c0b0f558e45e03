# Transport, codec and handshake proofs

The repository vendors its libraries. This project models four of them in Dafny and proves what they
are for:

* **DTLS handshake transport** of BoringSSL (`d1_both.cc`, `dtls_record.cc`, `dtls_method.cc`; sections
  4.1.2.6, 4.2.2, 4.2.3 and 4.2.4 of RFC 6347). A flight of messages is cut into fragments, packed into
  packets, lost, reordered, duplicated and retransmitted, and put together again by a ring of seven
  messages with bitmasks, under a replay window and per-epoch record numbers.
  Files `Reassembly*`, `Dtls*`, `ReplayWindow`.
* **nanopb** (`pb_encode.c`, `pb_decode.c`, `pb_common.c`). A table-driven writer and reader of the
  Protocol Buffers wire format. Files `Pb*`.
* **TLS 1.0 to 1.2 handshake** of BoringSSL (`handshake_client.cc`, `handshake_server.cc`, `handshake.cc`;
  section 7.3 of RFC 5246, section 3.1 of RFC 5077), the choice of the cipher included. Files `TlsSteps` to
  `TlsHandshake`, and `CipherChoice`.
* **TLS output path** (`s3_pkt.cc`, `s3_both.cc`, `ssl_buffer.cc`) and the **lock-free reference count**
  (`refcount_c11.c`, against `refcount_lock.c`). Files `TlsOutput`, `TlsOutputRuns`, `TlsMessages`,
  `RefCount`.

`dafny verify dfyconfig.toml` checks everything.

## How it is built

Each part has two layers. The code changes objects step by step, so it is modelled by classes over arrays and
mutable fields, with the loops of the source, and each method is proved to do what a function on values says.
About those functions the results on whole messages and whole runs are proved. The methods for single handshake states
only tie the object to such a function and have no rows of their own below; what the states keep is in
`TlsClientKeeps`, `TlsServerKeeps` and `TlsWholeRun`.

| part | objects | specification | results |
|---|---|---|---|
| DTLS receiver | `DtlsReader.Reader`, `DtlsReader.HmFragment`, `ReassemblyMask` | `DtlsReader.ReaderState`, keyed by message number | `DtlsEndToEnd` |
| DTLS sender | `DtlsSender.Sender`, `DtlsWriter.Writer` | `DtlsPackets`, what comes of a packet, and `DtlsFlight`, a cursor that advances through the flight | `DtlsFlight`, `DtlsPackets`, `DtlsEndToEnd` |
| replay window | `ReplayWindow.ReplayGuard` | a receiver that remembers every number | `ReplayWindow` |
| nanopb encoder | `PbOutput.OStream`, `PbIter.FieldIter` | `PbEncoding` | `PbRoundTrip`, `PbOutput.EncodeToBuffer` |
| nanopb decoder | `PbInput.IStream`, `PbReader.Message` | `PbDecoding` | `PbDelivery`, `PbRoundTrip`, `PbMergeLaw`, `PbBounds` |
| handshake | `TlsHandshake.SslHandshake` | `TlsSteps`, one function per state; `TlsScript`, the order of a handshake written once for both sides | `TlsAgreement`, `TlsProgress`, `TlsWholeRun` |
| TLS output | `TlsOutput.Output`, `TlsOutput.Buffer`, `TlsMessages.MessageReader` | the bytes sealed so far; `TlsMessages.Receiver` | `TlsOutputRuns`, `TlsMessages` |
| reference count | `RefCount.AtomicCount`, `RefCount.LockedCounter` | the locked operations, one at a time | `RefCount` |

Environment and peers are as free as they can be. The transport takes any part of what it is given or fails;
callbacks may stall any number of times; sealing may fail, as the cipher has it; records arrive in any order. Results about one side of a
handshake hold for any input; only those about both sides ask for an honest peer. What the code gets from
cryptography, certificates and configuration is a parameter (`TlsSteps.Config`, `TlsOutput.Sealer`,
`DtlsWriter.Aead`).

## Where the code differs from what is written about it

The model follows the code.

* BoringSSL/ssl/d1_both.cc:397 says that fragments too far in the future are ignored. One with the number of the
  next message plus seven passes that test and makes the read fail (`DtlsReader.OutsideWindow`).
* In the first encrypted epoch a DTLS reader refuses every fragment that is not of the next message
  (BoringSSL/ssl/d1_both.cc:387-392), a retransmitted copy of the message just taken included. There the order of
  arrival matters, and the read goes on exactly if fragments come in turn (`DtlsEndToEnd.SucceedsExactly`,
  `DtlsEndToEnd.DuplicateFails`); in every other epoch it does not matter.
* nanopb accepts inputs that are not complete: a zero tag ends a message, and a tag that is cut off by the end of
  the input is no error. `PbMergeLaw.EndsEarly` and `PbMergeLaw.EndTags` say exactly which inputs these are. Its decoders do not look at wire types, except to tell a packed
  array from an item.
* When sealing application data fails after an unsent flight was moved into the write buffer
  (BoringSSL/ssl/s3_pkt.cc:317-329), those flight bytes are lost. Conservation holds until then.
  `TlsOutput.Output.DoWrite` says exactly when that happens, in terms of the buffer, the flight and the cipher, and that
  the unsent flight is what is lost; `TlsOutput.LosesFlight` is such a case.
* The last entry of a cipher preference list must end a group. Otherwise the last group is never chosen from
  (`CipherChoice.UnclosedGroup`).
* The seal that wraps a DTLS sequence number fails, but the number starts again (`DtlsWriter.WrapRepeats`); numbers are
  unique exactly until an epoch goes on after that (`DtlsWriter.RepeatsExactly`).

## Model

| member | source | states |
|---|---|---|
| DtlsEndToEnd.EndToEnd | BoringSSL/ssl/d1_both.cc:274-455 | if every byte of every message of a one-epoch flight (at most seven messages, sizes within the limit) reaches the reader at least once, in any fragmentation and duplication and however reads are interleaved, reading on delivers exactly those messages, unchanged, in order, once each; in any order of arrival, but for the first encrypted epoch, where fragments must come in turn |
| DtlsEndToEnd.RecordsToReader | BoringSSL/ssl/d1_both.cc:644-822 | both halves together: the bytes that the sender puts into the records of a full pass, each arriving at least once among anything else of the flight, make the reader deliver exactly the flight, at any MTUs and under the same condition on the order |
| DtlsEndToEnd.SenderToReader | BoringSSL/ssl/d1_both.cc:644-822 | the same said of the fragments a pass consists of |
| DtlsEndToEnd.SucceedsExactly | BoringSSL/ssl/d1_both.cc:376-417 | which runs over a flight succeed: all of them outside the first encrypted epoch, and in it exactly those in which a record only has fragments of the message whose turn it is, as can be told from the records and reads alone |
| DtlsEndToEnd.OnTimeInTurn | BoringSSL/ssl/d1_both.cc:387-392 | the condition on the order, told from the records alone, is what the reader checks against its state |
| DtlsEndToEnd.AnyOrder | BoringSSL/ssl/d1_both.cc:387-392 | outside the first encrypted epoch no order is refused |
| DtlsEndToEnd.DuplicateFails | BoringSSL/ssl/d1_both.cc:387-392 | a retransmission of the one message of an epoch, behind a copy that was taken, makes the read fail in the first encrypted epoch and in no other |
| DtlsEndToEnd.RunDelivers | BoringSSL/ssl/d1_both.cc:305-455 | safety: at every moment of every run the messages taken are the first messages of the flight, and the run fails exactly when, in the first encrypted epoch, a fragment arrives that is not of the next message: a later one, or one already taken |
| DtlsEndToEnd.RunArrives | BoringSSL/ssl/d1_both.cc:401-417 | a byte that arrived, now or in an earlier record, stays available until its message is taken |
| DtlsEndToEnd.TakeRest | BoringSSL/ssl/d1_both.cc:424-455 | a reader that holds every byte of the flight hands out exactly the messages still missing |
| DtlsEndToEnd.AllFaithful | BoringSSL/ssl/d1_both.cc:376-417 | fragments of a flight are accepted exactly when they are on time, and never change what is buffered into something that disagrees with the flight |
| DtlsEndToEnd.SentOfFlight | BoringSSL/ssl/d1_both.cc:644-734 | whatever the MTU, every fragment that is cut is a well-formed fragment of a message of the flight, with the bytes of its range |
| DtlsEndToEnd.RecordIsFragments | BoringSSL/ssl/d1_both.cc:366-417 | reading a record that carries several fragments is accepting them one by one |
| DtlsFragments.Parse | BoringSSL/ssl/d1_both.cc:479-493 | a fragment is parsed exactly when its header and body are there, and serializing it in front of the rest gives back the input |
| DtlsFragments.ParseSerialize | BoringSSL/ssl/d1_both.cc:479-493 | parsing undoes serializing for every fragment and whatever follows it |
| ReassemblyMask.BitRange | BoringSSL/ssl/d1_both.cc:210-214 | the byte whose bits from start up to end, and no others, are set |
| ReassemblyMask.SetRange | BoringSSL/ssl/d1_both.cc:232-245 | in place: after marking a range, a bit is set exactly if it was set or its byte lies in the range |
| ReassemblyMask.IsComplete | BoringSSL/ssl/d1_both.cc:247-256 | the comparison of whole bytes answers exactly whether the ranges marked so far cover the message |
| ReassemblyMask.NotAll | BoringSSL/ssl/d1_both.cc:253-256 | a last byte that is not the full range, with nothing set past the end, misses one of its own bytes |
| DtlsReader.HmFragment.constructor | BoringSSL/ssl/d1_both.cc:156-208 | a new message has no byte received; a mask exists exactly if there is a byte to wait for |
| DtlsReader.HmFragment.MarkReceived | BoringSSL/ssl/d1_both.cc:220-260 | the mask is freed exactly when the ranges first cover the message, and until then it records exactly the bytes received, with no bit past the end |
| DtlsReader.HmFragment.Insert | BoringSSL/ssl/d1_both.cc:413-416 | copying and marking a body stores exactly those bytes and leaves the rest |
| DtlsReader.Reader.GetIncomingMessage | BoringSSL/ssl/d1_both.cc:274-303 | gives the slot of the message, created when new, or null exactly when the number is outside the window or type or length disagree; two messages of one window never meet in a slot |
| DtlsReader.Reader.AddSlot | BoringSSL/ssl/d1_both.cc:296-302 | the first fragment of a message starts it empty in its own slot and disturbs no other |
| DtlsReader.Reader.ReadFragment | BoringSSL/ssl/d1_both.cc:376-417 | one turn of the loop fails, ignores or buffers exactly as the specification by message number does |
| DtlsReader.Reader.BufferFragment | BoringSSL/ssl/d1_both.cc:401-417 | a fragment inside the window is merged into its message unless that is complete |
| DtlsReader.Reader.Store | BoringSSL/ssl/d1_both.cc:413-416 | changes the bytes of one message and of no other slot of the ring |
| DtlsReader.Reader.ReadMessage | BoringSSL/ssl/d1_both.cc:305-422 | a record is read to the end or refused, with the state the specification gives |
| DtlsReader.Reader.GetMessage | BoringSSL/ssl/d1_both.cc:424-440 | gives the message in sequence exactly if all of it is here, whole and as one unfragmented message |
| DtlsReader.Reader.NextMessage | BoringSSL/ssl/d1_both.cc:442-455 | releases that message, moves on by one and keeps what is buffered of the others |
| DtlsReader.Reader.HasIncomingMessages | BoringSSL/ssl/d1_both.cc:464-477 | whether anything is buffered apart from the current message |
| DtlsReader.SameSlot | BoringSSL/ssl/d1_both.cc:283-285 | the ring assertion: two numbers in one window of seven that share a slot are equal |
| DtlsReader.OutsideWindow | BoringSSL/ssl/d1_both.cc:394-404 | the comment promises that fragments too far ahead are ignored; this holds for exactly those not numbered seven past the next message, which make the read fail |
| DtlsFlight.EveryByteSent | BoringSSL/ssl/d1_both.cc:644-780 | once the cursor has passed a message, each of its bytes is in some fragment that was sent |
| DtlsFlight.FragmentsTile | BoringSSL/ssl/d1_both.cc:644-780 | the fragments accepted so far, followed by what is left to send, are the bytes of the flight: no gap, no overlap |
| DtlsFlight.AdvanceTiles | BoringSSL/ssl/d1_both.cc:728-733 | one fragment starts where the one before it ended and leaves the rest |
| DtlsFlight.AdvanceConcat | BoringSSL/ssl/d1_both.cc:739-768 | two stretches of fragments that follow each other are one |
| DtlsFlight.AdvanceGrows | BoringSSL/ssl/d1_both.cc:586-593 | messages queued behind the cursor do not disturb what has been sent |
| DtlsSender.Sender.constructor | BoringSSL/ssl/d1_both.cc:511-521 | an empty flight with nothing sent |
| DtlsSender.Sender.ClearOutgoing | BoringSSL/ssl/d1_both.cc:511-521 | drops the flight and forgets how far it was sent |
| DtlsSender.Sender.AddOutgoing | BoringSSL/ssl/d1_both.cc:555-594 | queues one message behind the flight, or starts a new flight after a flush; refused exactly when seven are queued; the progress of the current flight survives |
| DtlsSender.Sender.UpdateMtu | BoringSSL/ssl/d1_both.cc:615-632 | an MTU below the minimum is replaced by one at or above it if the transport may be asked; any other is kept |
| DtlsSender.Sender.SealNextMessage | BoringSSL/ssl/d1_both.cc:644-734 | the record protects exactly the piece of the message that comes next, under the epoch the message was queued in; a piece is partial only when it fills the room; it reports no progress exactly when not one byte fits, and an error exactly when the message cannot be sent in this epoch or sealing it fails |
| DtlsSender.Sender.SealNextPacket | BoringSSL/ssl/d1_both.cc:739-780 | the records of a packet continue the flight piece by piece, fit the room given, and stop only behind a partial piece or where the next message has no room; an MTU is too small only if the next message has no room in it; it fails exactly when a record of the packet is refused |
| DtlsSender.Sender.SendNextPacket | BoringSSL/ssl/d1_both.cc:784-810 | a packet that the transport refuses is taken back whole, one that it takes moves the cursor forward |
| DtlsSender.Sender.SendFlight | BoringSSL/ssl/d1_both.cc:782-822 | terminates; the fragments in the packets the transport took continue the flight where it was left, every packet fits the MTU, and it ends only with everything sent, a refusal of the transport, an MTU too small for the next message, or a packet that fails behind those sent |
| DtlsSender.Sender.FlushFlight | BoringSSL/ssl/d1_both.cc:824-829 | the same for a flight that is now complete |
| DtlsSender.Sender.Retransmit | BoringSSL/ssl/d1_both.cc:831-840 | a retransmission that is not interrupted sends the whole flight again from its first byte; it is interrupted only as sending is |
| DtlsSender.Sender.BioWrite | BoringSSL/ssl/d1_both.cc:793-799 | a packet is taken whole or refused |
| DtlsPackets.WhyFailed | BoringSSL/ssl/d1_both.cc:739-768 | a packet fails only where a record is refused: of the message at the cursor behind the records made, with the numbers behind them and in the room they leave |
| DtlsPackets.RefusedExactly | BoringSSL/ssl/d1_both.cc:644-725 | a record is refused exactly when there is no epoch for the message, it is not one whole message, the cipher fails, the counter wraps or the ciphertext is too long |
| DtlsPackets.NeverFails | BoringSSL/ssl/d1_both.cc:739-780 | with working ciphers, messages of a current epoch and numbers left, no packet fails |
| DtlsPackets.FillingStep | BoringSSL/ssl/d1_both.cc:744-768 | one turn of the loop, in terms of the packet that comes of it |
| DtlsSender.ForwardOnly | BoringSSL/ssl/d1_both.cc:782-810 | every packet moves (messages left, bytes left) forward, which is why sending ends |
| DtlsPackets.CarryConcat | BoringSSL/ssl/d1_both.cc:755-768 | records added to a packet keep protecting consecutive pieces of the flight |
| DtlsPackets.CarryAt | BoringSSL/ssl/d1_both.cc:644-734 | the record at a position protects the piece at that position |
| ReplayWindow.SameDecisions | BoringSSL/ssl/dtls_record.cc:140-252 | over any run of records and cipher changes the 64-bit window decides as a receiver that remembers every number it accepted: no replay, and no unseen number less than 64 behind is dropped by the window |
| ReplayWindow.WindowIsMemory | BoringSSL/ssl/dtls_record.cc:218-252 | one record or cipher change keeps the two in agreement |
| ReplayWindow.RecordRemembers | BoringSSL/ssl/dtls_record.cc:155-175 | after recording a number, bit i stands for the number i below the largest, for every i |
| ReplayWindow.AcceptedOnce | BoringSSL/ssl/dtls_record.cc:218-252 | no number is accepted twice in a run, from any state that agrees with some memory |
| ReplayWindow.NeverAcceptedAgain | BoringSSL/ssl/dtls_record.cc:140-150 | a number accepted before a run is not accepted in it, across epochs |
| ReplayWindow.NoReplay | BoringSSL/ssl/dtls_record.cc:218-252 | from the start of a connection no (epoch, sequence) pair is accepted twice |
| ReplayWindow.ReplayGuard.RecordNumber | BoringSSL/ssl/dtls_record.cc:155-175 | the shift and the bit in place do what the specification says |
| ReplayWindow.ReplayGuard.OpenRecord | BoringSSL/ssl/dtls_record.cc:177-265 | a record outside the epoch or the window, or forged, is dropped without a trace; only an authentic one is recorded |
| ReplayWindow.ReplayGuard.SetReadState | BoringSSL/ssl/dtls_method.cc:85-100 | refused exactly while a handshake message or a ChangeCipherSpec is buffered; otherwise the next epoch starts with an empty window |
| DtlsWriter.NumbersAreUnique | BoringSSL/ssl/dtls_record.cc:287-344 | no two sealed records share an (epoch, sequence) pair, however cipher changes, failed seals and seals under the current or previous epoch are mixed, until a counter wraps |
| DtlsWriter.RepeatsExactly | BoringSSL/ssl/dtls_record.cc:287-344 | from the start of a connection, a number is used to seal twice exactly if the counter of an epoch wraps and that epoch seals again, whatever the mix of cipher changes and of seals under the current or previous epoch |
| DtlsWriter.UsedInOrder | BoringSSL/ssl/dtls_record.cc:319-329 | every number used is how often its epoch was used before, modulo 2^48 |
| DtlsWriter.SentIsUsed | BoringSSL/ssl/dtls_record.cc:319-344 | every record that is sent carries a number that was used |
| DtlsWriter.SentUnused | BoringSSL/ssl/dtls_method.cc:102-112 | every number a run uses was still unused at its start |
| DtlsWriter.SealsCountUp | BoringSSL/ssl/dtls_record.cc:319-329 | consecutive seals use consecutive numbers |
| DtlsWriter.WrapRepeats | BoringSSL/ssl/dtls_record.cc:323-329 | why wrapping is excluded: the seal that wraps fails, but the next one reuses the first number of the epoch |
| DtlsWriter.Writer.SetWriteState | BoringSSL/ssl/dtls_method.cc:102-112 | the next epoch starts at zero, and the current state becomes the previous one |
| DtlsWriter.Writer.SealRecord | BoringSSL/ssl/dtls_record.cc:287-344 | on success the record carries the number the specification assigns and fits its buffer; it fails exactly when the cipher does, the counter wraps or the length is too great, and the counter moves only if the cipher had sealed |
| PbRoundTrip.RoundTrip | nanopb/pb_encode.c:451-473 | decoding the output of an encode succeeds and gives back every value that was present, at every depth; when nothing unsent holds a value, it gives back the message itself |
| PbRoundTrip.UnknownFields | nanopb/pb_decode.c:852-906 | a receiver that knows only some of the fields, at any depth and in any order, accepts every encoded message and ends with exactly the values it knows |
| PbRoundTrip.MergedIsCarried | nanopb/pb_decode.c:835-967 | merging a message into the defaults leaves its known values and the defaults elsewhere, at every depth |
| PbRoundTrip.CarriedSame | nanopb/pb_decode.c:835-967 | a structure that carries a settled message is that message |
| PbDelivery.DecodeEncoded | nanopb/pb_decode.c:852-953 | decoding an encoded message into any structure merges it field by field, and fails exactly when some array has no room for what is appended to it |
| PbDelivery.ReadSuffix | nanopb/pb_decode.c:863-917 | the loop, from any field of the message on |
| PbDelivery.ReadSlot | nanopb/pb_decode.c:356-429 | the bytes of one field take the structure from n fields received to n + 1, whichever of its forms the field has |
| PbDelivery.ReadEncodedValue | nanopb/pb_decode.c:1165-1379 | one item: scalars are replaced, submessages merged, and only a full array refuses |
| PbDelivery.ReadEncodedScalar | nanopb/pb_decode.c:1165-1379 | varints of every width, zigzag, fixed sizes, bytes and strings come back as they were sent |
| PbDelivery.ReadPackedItems | nanopb/pb_decode.c:374-402 | a packed payload appends all its items or overflows, exactly by their number |
| PbDelivery.SkipEncoded | nanopb/pb_decode.c:277-287 | skipping takes exactly the payload that was written, for every kind |
| PbDelivery.FreshRoom | nanopb/pb_decode.c:403-424 | whatever could be encoded has room in a new array item or union member |
| PbMergeLaw.MergeLaw | nanopb/pb_decode.c:852-953 | decoding complete fields a and then b into one structure, both with success, gives what decoding a followed by b at once gives |
| PbMergeLaw.MergeOfTwo | nanopb/pb_decode.h:70-79 | two encoded messages joined decode to their merge: later values win, arrays are appended, submessages merged; or fail exactly when an array has no room |
| PbMergeLaw.DecodeConcat | nanopb/pb_decode.c:852-953 | a joined decode in terms of the two loops; each required field may be in either part |
| PbMergeLaw.ReadFieldsConcat | nanopb/pb_decode.c:863-917 | the loop over a followed by b goes on with b where the loop over a stops |
| PbMergeLaw.EndsEarly | nanopb/pb_decode.c:251-275 | the inputs that the loop accepts and that are not a sequence of complete fields are exactly complete fields and then a tag that ends the message, and they decode as the complete fields do |
| PbMergeLaw.EndTags | nanopb/pb_decode.c:251-275 | a tag ends the message exactly if it is zero, in however many bytes, or cut off by the end of the input |
| PbMergeLaw.ZeroTagHides | nanopb/pb_decode.c:266-270 | a zero tag hides everything behind it |
| PbMergeLaw.StopsAt | nanopb/pb_decode.c:863-917 | a loop that stops early has read complete fields |
| PbMergeLaw.ReadFieldCut | nanopb/pb_decode.c:356-429 | what a field takes of the input is all it needs |
| PbBounds.DecodedCanBeEncoded | nanopb/pb_decode.c:955-967 | every input that decodes gives a structure within all its bounds, which the encoder accepts |
| PbBounds.DecodeKeepsBounds | nanopb/pb_decode.c:852-953 | whatever the bytes, a successful decode keeps every array count, byte array and string within its buffer, at every depth, and one current member per union |
| PbBounds.BoundedEncodes | nanopb/pb_encode.c:116-201 | the only structures the encoder refuses are out of bounds |
| PbWire.Groups | nanopb/pb_decode.c:173-229 | reading a varint never gives back more than it was given and always takes at least a byte |
| PbWire.GroupsOfVarint | nanopb/pb_decode.c:209-229 | seven-bit groups put a number together as they took it apart |
| PbWire.ScanVarint32 | nanopb/pb_decode.c:173-207 | a 32-bit varint takes at most five bytes and reads back |
| PbWire.ScanVarint64 | nanopb/pb_decode.c:209-229 | a 64-bit varint takes at most ten bytes and reads back |
| PbWire.UnZigZagZigZag | nanopb/pb_decode.c:1118-1130 | zigzag is undone for every 64-bit value |
| PbWire.ReadTagOfTag | nanopb/pb_decode.c:251-275 | a tag that was written reads back as its field number and wire type |
| PbDelivery.ReadEncodedRaw | nanopb/pb_decode.c:322-335 | a payload behind its length is cut off exactly |
| PbWire.SkipVarintOfVarint | nanopb/pb_decode.c:231-240 | skipping a varint takes all of it and no more |
| PbWire.SkipExtend | nanopb/pb_decode.c:277-287 | skipping does not depend on what follows |
| PbEncoding.UpToNul | nanopb/pb_encode.c:739-763 | at most the buffer, and all of it when it has no terminator |
| PbSchema.Find | nanopb/pb_common.c:78-95 | the field with a tag, or that there is none |
| PbSchema.Defaults | nanopb/pb_decode.c:835-846 | every field at its default |
| PbDecoding.ReadScalar | nanopb/pb_decode.c:1165-1379 | whatever is read is a value of the kind asked for |
| PbDecoding.ReadPacked | nanopb/pb_decode.c:374-402 | never more items than the array holds |
| PbIter.FieldIter.constructor | nanopb/pb_common.c:8-18 | starts at the first field |
| PbIter.FieldIter.Begin | nanopb/pb_common.c:8-18 | the same, and whether there is one |
| PbIter.FieldIter.Next | nanopb/pb_common.c:20-76 | one step, around the end and through unions, keeps the data pointer, size pointer and required index equal to those of a fresh walk |
| PbIter.FieldIter.Find | nanopb/pb_common.c:78-95 | from any position looks at each field at most once, stops at the first match going around, and finds one exactly if there is one; an unsuccessful search ends where it began |
| PbIter.WalkReachesMember | nanopb/pb_common.c:20-76 | adding up relative offsets arrives at every member of the structure and at its count, flag or union tag |
| PbOutput.OStream.Write | nanopb/pb_encode.c:91-109 | succeeds exactly if there is room; a sizing stream counts what a real one writes; nothing outside the stream changes |
| PbOutput.OStream.BufWrite | nanopb/pb_encode.c:62-72 | the bytes go where the stream stands and nowhere else |
| PbOutput.StringLength | nanopb/pb_encode.c:739-763 | the loop stops at the terminator or the end of the buffer |
| PbOutput.VarintBytes | nanopb/pb_encode.c:494-514 | the byte loop produces the varint |
| PbOutput.OStream.EncodeVarint | nanopb/pb_encode.c:494-514 | writes the varint, or fails exactly for lack of room |
| PbOutput.OStream.EncodeSVarint | nanopb/pb_encode.c:516-525 | the zigzag form of a signed value |
| PbOutput.OStream.EncodeFixed32 | nanopb/pb_encode.c:527-536 | four bytes, least significant first |
| PbOutput.OStream.EncodeFixed64 | nanopb/pb_encode.c:538-551 | eight bytes, least significant first |
| PbOutput.OStream.EncodeTag | nanopb/pb_encode.c:553-590 | field number and wire type in one varint |
| PbOutput.OStream.EncodeString | nanopb/pb_encode.c:592-598 | the bytes behind their length |
| PbOutput.OStream.EncodeItem | nanopb/pb_encode.c:652-776 | one item of any kind: what is written is its encoding, and it fails exactly if that does not exist or does not fit |
| PbOutput.OStream.EncodeSubmessage | nanopb/pb_encode.c:600-648 | two passes give the payload behind its exact size |
| PbOutput.OStream.EncodeCounted | nanopb/pb_encode.c:623-648 | the second pass writes exactly as many bytes as the first counted, so that the size-changed error is out of reach, and never past them |
| PbOutput.OStream.EncodeMessage | nanopb/pb_encode.c:451-473 | walking the fields writes their encodings in order |
| PbOutput.OStream.EncodeField | nanopb/pb_encode.c:271-349 | a field is written exactly when it is present by its rule |
| PbOutput.OStream.EncodeArray | nanopb/pb_encode.c:116-201 | arrays are refused exactly when over their maximum, and packed whenever the items can be |
| PbOutput.OStream.EncodePackedArray | nanopb/pb_encode.c:130-171 | one tag, the exact length, then the items |
| PbOutput.OStream.PackedSize | nanopb/pb_encode.c:135-155 | the length, by product or by counting, is that of the encoding |
| PbOutput.OStream.EncodeItems | nanopb/pb_encode.c:172-198 | each item behind a tag of its own |
| PbOutput.EncodedSize | nanopb/pb_encode.c:480-489 | the size of the encoding, for every message |
| PbOutput.EncodeToBuffer | nanopb/pb_encode.c:74-109 | a buffer encode succeeds exactly if sizing does and the size fits, writes exactly the encoding and leaves the rest of the buffer alone |
| PbInput.IStream.Read | nanopb/pb_decode.c:91-123 | takes exactly the bytes asked for, or fails exactly when there are too few |
| PbInput.IStream.ReadByte | nanopb/pb_decode.c:127-143 | one byte, if there is one |
| PbInput.IStream.DecodeVarint32 | nanopb/pb_decode.c:173-207 | shifting and masking group by group computes the 32-bit value, with the overflow error in the same place |
| PbInput.IStream.DecodeVarint | nanopb/pb_decode.c:209-229 | the same for 64 bits |
| PbInput.IStream.SkipVarint | nanopb/pb_decode.c:231-240 | up to and including the first byte below 128 |
| PbInput.IStream.DecodeTag | nanopb/pb_decode.c:251-275 | a tag, a clean end or an error, in exactly the cases of the specification |
| PbInput.IStream.SkipField | nanopb/pb_decode.c:277-287 | every wire type, or an error for an unknown one |
| PbInput.IStream.MakeSubstream | nanopb/pb_decode.c:322-335 | the payload becomes a stream of its own, and the outer one will continue behind it |
| PbInput.IStream.CloseSubstream | nanopb/pb_decode.c:337-350 | the outer stream stands behind the payload, however much of it was read |
| PbReader.ReadScalarItem | nanopb/pb_decode.c:1165-1332 | every scalar decoder, with its truncations and range checks |
| PbReader.NarrowedExact | nanopb/pb_decode.c:1165-1200 | casting down and back is the identity exactly on the values of the narrow type |
| PbReader.ReadFixed | nanopb/pb_decode.c:1132-1163 | little-endian bytes put together |
| PbReader.ReadItem | nanopb/pb_decode.c:1165-1379 | one item of any kind is read as specified, submessages into what is there |
| PbReader.ReadSubmessage | nanopb/pb_decode.c:1334-1356 | decoded on its own stream, which is then skipped to its end |
| PbReader.ReadPackedItems | nanopb/pb_decode.c:374-402 | the packed loop fills the array as specified and fails exactly on a bad item or one too many |
| PbReader.StoreField | nanopb/pb_decode.c:356-429 | each rule stores as specified: replace, set the flag, append, switch the union |
| PbReader.Mark | nanopb/pb_decode.c:908-913 | sets the bit of a required field, by its index among the required ones |
| PbReader.CountRequired | nanopb/pb_decode.c:920-935 | walking on to the end counts the required fields |
| PbReader.CheckRequired | nanopb/pb_decode.c:937-949 | whole words, then the remaining bits, decide whether all bits below the count are set |
| PbReader.AllBitsAllRequired | nanopb/pb_decode.c:908-949 | all those bits are set exactly if every required field was met |
| PbReader.ReadAllFields | nanopb/pb_decode.c:854-917 | the loop over the input leaves the structure and the record of required fields that the specification gives |
| PbReader.DecodeMessage | nanopb/pb_decode.c:852-953 | the whole decode in place succeeds exactly when specified and leaves exactly that structure |
| PbReader.SetToDefaults | nanopb/pb_decode.c:835-846 | walking the fields resets every one of them |
| PbReader.DecodeFresh | nanopb/pb_decode.c:955-967 | defaults, then decode |
| TlsAgreement.Agreement | BoringSSL/ssl/handshake.cc:423-545 | an honest client and server with the same parameters (resumption, ticket, client certificate, status, key exchange message, pre-shared key hint, NPN, Channel ID) never meet an unexpected message in any run; their transcripts are prefixes of one script, equal when both are done, with every key changed once and nothing left in either channel |
| TlsAgreement.EqualAtFinished | BoringSSL/ssl/handshake.cc:372-421 | whenever a side is about to check a Finished, the transcript that the other side held when it added that Finished is the one this side holds, whatever the MAC function, and the MAC is over it |
| TlsAgreement.FinishedIsSame | BoringSSL/ssl/handshake.cc:372-421 | the same of one side and its peer in any state that a run can reach |
| TlsAgreement.TurnKeeps | BoringSSL/ssl/handshake.cc:423-545 | one turn of either side keeps what is under way between the two equal to what the script says lies between them |
| TlsAgreement.RunKeeps | BoringSSL/ssl/handshake.cc:423-545 | so does every run |
| TlsAgreement.HeadIsNext | BoringSSL/ssl/handshake.cc:440-468 | the first item under way to a side is always the next one of the script |
| TlsAgreement.MoveKeepsBoth | BoringSSL/ssl/handshake.cc:213-220 | adding to a flight, or consuming a message, keeps both directions right |
| TlsProgress.EveryRunCanFinish | BoringSSL/ssl/handshake.cc:423-545 | whatever has happened, with any stalls, the handshake can still be brought to the end, and then both hold the whole transcript |
| TlsProgress.CanFinish | BoringSSL/ssl/handshake.cc:423-545 | from wherever a handshake can be, turns of sides that are not idle bring both to the end |
| TlsProgress.NoDeadlock | BoringSSL/ssl/handshake.cc:423-545 | two sides that both have nothing to do are both done: they never wait for each other |
| TlsProgress.TurnUses | BoringSSL/ssl/handshake.cc:423-545 | a turn that does not stall lowers a measure that depends on resumption, unless the side is idle |
| TlsProgress.StallErasure | BoringSSL/ssl/handshake.cc:423-545 | for any peer: a run with any pattern of stalls passes only through states of the run without them, with the same messages sent and consumed in the same order and the same transcript and keys |
| TlsProgress.StallOnlyWaits | BoringSSL/ssl/handshake.cc:480-513 | a state that a callback stalls has added and consumed nothing |
| TlsWholeRun.WholeRun | BoringSSL/ssl/handshake_client.cc:1382-1691 | for any peer: a side that is done changed each key once, before the Finished it protects, sent one Finished and verified one, in the order fixed by resumption; in what a side sends, its one ChangeCipherSpec comes before its one Finished, whose MAC is over the transcript before it, and nothing comes after; every CertificateVerify is signed or verified with the transcript live |
| TlsWholeRun.RunInOrder | BoringSSL/ssl/s3_both.cc:277-322 | the order of what a side sends, in every run |
| TlsWholeRun.FlightCloses | BoringSSL/ssl/handshake_server.cc:1460-1506 | messages, ChangeCipherSpec, messages and Finished, added one after another, close the flight |
| TlsWholeRun.RunFacts | BoringSSL/ssl/handshake_server.cc:1264-1535 | in every run of either side, key changes and Finished messages go with its place, and the transcript stays live while a CertificateVerify may come |
| TlsWholeRun.FinishedNext | BoringSSL/ssl/handshake_server.cc:1436-1458 | verifying the other Finished is the one thing that changes in that state, on both paths |
| TlsSteps.DoAdvances | BoringSSL/ssl/handshake_client.cc:1693-1775 | whatever was received, a state either completes, which lowers a rank that depends on resumption, or returns with nothing added or consumed |
| TlsClientKeeps.ClientKeeps | BoringSSL/ssl/handshake_client.cc:427-1691 | every client state keeps its place in the script with an honest server |
| TlsServerKeeps.ServerKeeps | BoringSSL/ssl/handshake_server.cc:426-1535 | every server state keeps its place in the script with an honest client |
| TlsClientKeeps.LastFlight | BoringSSL/ssl/handshake_client.cc:1466-1520 | the last client flight is ChangeCipherSpec, NextProto, Channel ID and Finished at their places, on both paths |
| TlsServerKeeps.LastFlight | BoringSSL/ssl/handshake_server.cc:1460-1506 | the last server flight is ticket, ChangeCipherSpec and Finished at their places, on both paths |
| TlsScript.ItemsHead | BoringSSL/ssl/handshake.cc:423-545 | what travels first between two places is the item of the next place that is not empty |
| TlsHandshake.SslHandshake.GetFinished | BoringSSL/ssl/handshake.cc:372-421 | waits, fails or accepts, and accepts exactly a Finished whose MAC is over the transcript before it |
| TlsHandshake.SslHandshake.DoSendClientFinished | BoringSSL/ssl/handshake_client.cc:1466-1520 | a flight that had neither gets one ChangeCipherSpec and behind it, last, one Finished whose MAC is over the transcript before it, with one change of the write keys; a callback that stalls has changed nothing |
| TlsHandshake.SslHandshake.DoSendServerFinished | BoringSSL/ssl/handshake_server.cc:1460-1506 | a flight that had neither gets one ChangeCipherSpec and behind it, last, one Finished whose MAC is over the transcript before it, with one change of the write keys |
| TlsHandshake.SslHandshake.RunState | BoringSSL/ssl/handshake_server.cc:1537-1619 | the switch runs the right state; each time it returns Ok the rank is lower, and a state that returns unfinished has changed nothing |
| TlsHandshake.SslHandshake.DoHandshake | BoringSSL/ssl/handshake_client.cc:1693-1775 | the loop over the states terminates and is a run of the specification; it is put off only by a state that stalls |
| TlsHandshake.SslHandshake.RunHandshake | BoringSSL/ssl/handshake.cc:423-545 | the driver terminates, whatever the peer sends and the callbacks answer, and everything it did is a run of the specification, so that all results on runs hold of it; it returns unfinished only if something stalled, the input is used up, or a callback had asked to be called again before |
| TlsHandshake.SslHandshake.RunOnce | BoringSSL/ssl/handshake.cc:425-544 | one turn of the loop, as turns of the specification: it returns for such a reason, or waits in a state of lower rank or for less in the same one |
| TlsHandshake.SslHandshake.Settle | BoringSSL/ssl/handshake.cc:426-528 | flush, read a message or a ChangeCipherSpec, or return to the caller: one turn of the specification; the wait stays only if something stalled, the input is used up, or a callback is to be called again |
| TlsHandshake.RunSnoc | BoringSSL/ssl/handshake.cc:423-545 | one more turn at the end of a run |
| TlsOutputRuns.Session | BoringSSL/include/openssl/ssl.h:364-379 | in any run of flushes, handshake messages, ChangeCipherSpecs and writes, with the transport refusing or taking any part at any time: every sealed byte is sent, in the write buffer or in the flight, once and in sealing order, unless a seal fails; if interrupted writes are tried again as `SSL_write` asks (the same bytes or more, at the same place or with moving buffers), the application data sealed is exactly what the writes reported and a first part of the one under way, and no write is turned down; the handshake data is the messages added; the refusals of the transport are the calls it is blamed for |
| TlsOutputRuns.WriteStep | BoringSSL/include/openssl/ssl.h:369-374 | one write of such a run, new or tried again; it is turned down only if a failed seal has left the buffer taken |
| TlsOutputRuns.TryWrite | BoringSSL/ssl/s3_pkt.cc:192-258 | why a write did not get through: one refusal, one failed seal, no record or no room for it behind the flight, or a bad retry |
| TlsOutputRuns.TryFlight | BoringSSL/ssl/s3_both.cc:184-275 | why a flush, a message or a ChangeCipherSpec did not get through: one refusal, or one failed seal |
| TlsOutputRuns.IsUnderWay | BoringSSL/include/openssl/ssl.h:369-374 | a retry with the original bytes in front, longer or moved as allowed, goes on with the write that was interrupted |
| TlsOutput.Output.WriteAppData | BoringSSL/ssl/s3_pkt.cc:192-258 | one call: on success the plaintext sealed since the write began is exactly the part reported, otherwise a first part of the data; nothing sealed is lost or reordered whatever it is called with, unless its first seal fails while part of a flight is unsent, and then exactly that part is lost; it fails only by one refusal of the transport, a failed seal, a buffer shorter than what was written, or a next record that is not tried |
| TlsOutput.Output.WriteChunk | BoringSSL/ssl/s3_pkt.cc:223-257 | one record of such a write, new or taken up again, when its seal fails, and that otherwise it fails by one refusal, or because it is not tried |
| TlsOutput.Output.DoWrite | BoringSSL/ssl/s3_pkt.cc:279-346 | a pending record is never sealed again; a new one goes behind what is left of the flight; it fails to seal exactly when it tries to and the cipher fails, and then what was unsent of the flight, and nothing else, is lost; otherwise it fails by exactly one refusal of the transport, or because the retry is bad or the record is not sealed |
| TlsOutput.Output.WriteNew | BoringSSL/ssl/s3_pkt.cc:293-346 | a new record: sealed and remembered exactly when the buffer is free, the size fits and the cipher does not fail, and pending exactly as long as the transport refuses |
| TlsOutput.Output.SealBehindFlight | BoringSSL/ssl/s3_pkt.cc:293-330 | the new buffer holds the rest of the flight and then the record; it is made exactly when the buffer is free, is large enough and the seal succeeds |
| TlsOutput.Output.FillBuffer | BoringSSL/ssl/s3_pkt.cc:326-330 | the record goes behind the flight in the buffer |
| TlsOutput.LosesFlight | BoringSSL/ssl/s3_pkt.cc:317-329 | a sealer and a flight for which this happens |
| TlsOutput.Output.MoveFlight | BoringSSL/ssl/s3_pkt.cc:313-324 | the flight leaves exactly its unsent part in the buffer |
| TlsOutput.Output.WritePending | BoringSSL/ssl/s3_pkt.cc:260-276 | refuses exactly the retries that do not name the interrupted write; any other finishes it, unless the transport refuses once |
| TlsOutput.Output.FlushBuffer | BoringSSL/ssl/ssl_buffer.cc:245-258 | whatever part of the buffer the transport takes each time, the bytes taken and those left are the same sequence; it fails exactly at the first refusal |
| TlsOutput.Output.FlushFlight | BoringSSL/ssl/s3_both.cc:231-275 | the write buffer goes before the flight; after success, if there was a flight, the transport holds every byte ever sealed, in sealing order, unless a failed seal has cost a flight before; without a flight it does nothing; it fails exactly at the first refusal |
| TlsOutput.Output.SendFlight | BoringSSL/ssl/s3_both.cc:253-265 | short writes of the flight lose and reorder nothing; it fails exactly at the first refusal |
| TlsOutput.Output.AddRecordToFlight | BoringSSL/ssl/s3_both.cc:135-165 | the flight grows by exactly the sealed record, or not at all |
| TlsOutput.Output.AddMessage | BoringSSL/ssl/s3_both.cc:184-205 | the records, none above the maximum, together hold exactly the message; if it fails, they hold a first part of it, and the seal that came last failed on the body that goes on from there |
| TlsOutput.Output.AddChangeCipherSpec | BoringSSL/ssl/s3_both.cc:207-218 | one record with the one byte |
| TlsOutput.Output.SealRecord | BoringSSL/ssl/internal.h:822-834 | the record layer by its contract: at most the overhead more than the body |
| TlsOutput.Output.BioWrite | BoringSSL/ssl/s3_both.cc:253-262 | some first part of the data, or a refusal |
| TlsOutput.Buffer.constructor | BoringSSL/ssl/ssl_buffer.cc:42-76 | an empty buffer |
| TlsOutput.Buffer.Init | BoringSSL/ssl/ssl_buffer.cc:221-234 | a new, empty buffer of the size asked for; refused exactly when one exists or the size is too large |
| TlsOutput.Buffer.Consume | BoringSSL/ssl/ssl_buffer.cc:78-85 | the front of the content goes |
| TlsOutput.Buffer.SetLen | BoringSSL/ssl/ssl_buffer.cc:236-243 | the content is what was written in place |
| TlsOutput.Buffer.Clear | BoringSSL/ssl/ssl_buffer.cc:87-90 | nothing left |
| TlsOutput.Buffer.Put | BoringSSL/ssl/s3_pkt.cc:317-330 | bytes go behind those already there and nowhere else |
| TlsMessages.TakenAreSent | BoringSSL/ssl/s3_both.cc:504-601 | however the stream of messages is cut into records and whenever messages are asked for, those taken are the first ones sent, and all of them once everything has arrived and nothing complete is left |
| TlsMessages.RunFaithful | BoringSSL/ssl/s3_both.cc:531-601 | in every run, what was taken and what can be taken are the messages at the front of the bytes so far |
| TlsMessages.TakeAllExtend | BoringSSL/ssl/s3_both.cc:504-529 | taking messages early or late makes no difference |
| TlsMessages.StreamHolds | BoringSSL/ssl/s3_both.cc:504-529 | a first part of a stream holds only its first messages, all of it all of them |
| TlsMessages.ParseOfStream | BoringSSL/ssl/s3_both.cc:504-529 | any first part of a stream parses to its first message or asks for no more than that |
| TlsMessages.Parse | BoringSSL/ssl/s3_both.cc:504-529 | a message that is there, or a length beyond what is there |
| TlsMessages.StreamGrows | BoringSSL/ssl/s3_both.cc:167-205 | a message that is added is one more message of the stream |
| TlsMessages.StreamSplit | BoringSSL/ssl/s3_both.cc:167-205 | the stream of messages sent in two parts is the two streams |
| TlsMessages.MessageReader.Extend | BoringSSL/ssl/s3_both.cc:337-351 | the buffer grows by what was read, in order, up to the length asked for |
| TlsMessages.MessageReader.Take | BoringSSL/ssl/s3_both.cc:531-601 | the first complete message goes and the rest moves to the front |
| RefCount.Refinement | BoringSSL/crypto/refcount_c11.c:37-65 | every interleaving of the compare-and-swap loops of any number of threads, with any spurious failures, has the outcomes and the count of the locked version run one operation at a time |
| RefCount.CountIsReferences | BoringSSL/crypto/internal.h:371-388 | with callers that own what they use, nothing crashes, the count equals the outstanding references until it saturates, and a saturated count never changes |
| RefCount.OneZero | BoringSSL/crypto/internal.h:378-388 | at most one decrement reports zero, namely the one that gives up the last reference, and no operation is possible after it |
| RefCount.StepRefines | BoringSSL/crypto/refcount_c11.c:37-65 | one atomic step is nothing, or one locked operation |
| RefCount.StepCounts | BoringSSL/crypto/refcount_c11.c:37-65 | one atomic step keeps count and references equal |
| RefCount.FinishCounts | BoringSSL/crypto/refcount_c11.c:41-46 | the swap that succeeds changes the count as the references change |
| RefCount.ZeroIsQuiet | BoringSSL/crypto/internal.h:378-388 | at zero no thread holds a reference or is inside an operation |
| RefCount.AtomicCount.CompareExchangeWeak | BoringSSL/crypto/refcount_c11.c:43-43 | swaps exactly if the count is still the expected one and nothing fails spuriously, and otherwise gives what it found |
| RefCount.AtomicCount.Load | BoringSSL/crypto/refcount_c11.c:39-39 | the present count |
| RefCount.AtomicCount.Increment | BoringSSL/crypto/refcount_c11.c:37-47 | among the operations of others, takes effect exactly once, as a locked increment |
| RefCount.AtomicCount.DecrementAndTestZero | BoringSSL/crypto/refcount_c11.c:49-65 | among the operations of others, takes effect exactly once, with the outcome of a locked decrement at that moment |
| RefCount.LockedCounter.Increment | BoringSSL/crypto/refcount_lock.c:29-35 | the locked version is the specification |
| RefCount.LockedCounter.DecrementAndTestZero | BoringSSL/crypto/refcount_lock.c:37-51 | the locked version is the specification, with its outcome |
| CipherChoice.ChooseCipher | BoringSSL/ssl/handshake_server.cc:357-424 | in server order the choice is the client's first among the acceptable ciphers of the server's first group that has any, otherwise the client's first acceptable cipher; there is one exactly if some cipher is acceptable to both, when the server's list ends a group |
| CipherChoice.PickCipher | BoringSSL/ssl/handshake_server.cc:387-421 | one pass gives the best entry of the first common group, and nothing exactly if there is no common cipher or its group never ends |
| CipherChoice.ServerOrder | BoringSSL/ssl/internal.h:1775-1808 | the best entry in terms of the server's groups and the client's order |
| CipherChoice.ClientOrder | BoringSSL/ssl/handshake_server.cc:376-383 | without groups it is the client's first acceptable cipher |
| CipherChoice.BestIsUnique | BoringSSL/ssl/internal.h:1785-1808 | no order within a group matters: there is only one best cipher |
| CipherChoice.ChoiceExists | BoringSSL/ssl/internal.h:1785-1808 | lists whose last flag ends a group leave no group open |
| CipherChoice.UnclosedGroup | BoringSSL/ssl/handshake_server.cc:416-420 | a list whose last flag does not end a group offers no choice although there is a common cipher |

## Left out

* Sockets, BIO internals, timers, files, message callbacks, the error queue and alert codes: a transport is a free
  choice, an error is one failure result.
* Cryptography, certificate checks, extension negotiation and the session cache: parameters. A cipher is a function of the
  record number, the kind, the plaintext and the room.
* SSL 3.0, V2ClientHello, TLS 1.3, HelloVerifyRequest, early data, False Start and renegotiation: version branches that
  add no harder claim.
* The 16-bit width of the DTLS message number and of the epochs: they are unbounded here. The 48-bit record number is
  modelled with its wrap.
* DTLS alerts, ChangeCipherSpec on the reading side and the flag that a message is current: one field each.
* DTLS handshake results span one flight of one epoch; a ChangeCipherSpec inside a flight is modelled for the sender.
* nanopb callbacks, extensions, custom streams and dynamic allocation, and the length-delimited entry points, which are
  the submessage case.
* nanopb singular submessages without a has flag, and data sizes that no generator emits.
* The contents of a nanopb structure after a failed decode.
* Shrinking a descriptor table by `PB_FIELD_16BIT` or 8-bit offsets: the iterator uses the 32-bit one.
* PbReader.DecodeMessage: required counts that are 64 or more, or a positive multiple of 32, are outside
  `PbReader.Countable`; at those multiples the check would shift a 32-bit word by 32, which C leaves undefined.
* PbOutput.OStream.EncodeMessage: lengths of 2^64 and more are outside `PbOutput.Sized`, so that `size_t` overflow is not
  modelled.
* PbRoundTrip.RoundTrip: encodings of 4 GiB and more are excluded, since the reader takes lengths as 32-bit numbers, and
  strings must end inside their buffers.
* TlsAgreement.Agreement: the server that clears its promise by sending an empty ticket is not modelled; a ticket is an opaque
  body.
* TlsHandshake.SslHandshake.GetFinished: after an error nothing is said about the object, which is not used again.
* TlsHandshake.SslHandshake.Settle: a wait that was resolved is set to Ok at once, while the source overwrites it by the result
  of the next state.
* RefCount.AtomicCount.Increment: termination assumes that other threads and spurious failures interfere finitely often.
* The limits of `int` and `size_t` on the TLS output path, alerts on it, and record splitting, which is inside the seal.
* A client cipher list that does not parse, and the masks by which a cipher is usable, which are one predicate.
