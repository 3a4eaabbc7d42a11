# A verified model of the sniffer's stream machinery

The repository follows TCP connections on a network interface, rebuilds the byte streams of both
sides and decodes HTTP on top of them; a C library below it builds and sends packets.  This project
models the four components that carry that work and proves what they are for.

- **HTTP chunked decoder** (`Chunk*.dfy`).  `ChunkMachine` is a reference that eats one octet at a
  time, `ChunkGrammar` the message format of section 3.6.1 of RFC 2616 and the proof that the
  reference decodes exactly its words, `ChunkSpelling` the way from literal digits and octets to that
  grammar, `ChunkedInputStream` the restartable parser with its two
  growing buffers and its shortcut, proved to refine the reference, and `ChunkClient` the callers.
  The source of octets (`ChunkSource`) is an arbitrary script, so a statement about it is one about
  every fragmentation.
- **Multi-stream byte buffer** (`Stream*.dfy`, `DynamicStream.dfy`).  `StreamBuffer` gives every call
  as a function on values, `StreamFifo` the laws for every reader that keeps account of its mark,
  `StreamQueue` the refinement of a queue of streams and the discipline it needs, `StreamMark` mark
  and reset, and `DynamicStream` the object with its array.
- **TCP reassembly** (`Tcp*.dfy`).  `TcpMachine` is a connection as a value and every packet as a
  step, `TcpRuns` what holds of every trace, `TcpChecks` the decisions about a single packet,
  `TcpPrefix` prefix safety, `TcpReorder` reassembly from any order, `TcpClose` the end of a
  connection, `TcpTurns` the marks between turns, `TcpKeys` which connections share a key, `TcpDemux`
  independence of connections.
  `TcpStream` ties what a connection writes to what the byte buffer hands out, `TcpReaders` goes from
  the wire to whoever reads a connection's stream, and `TcpReceiver` has the objects, with that
  result on the capture loop.
- **Internet checksum** (`Checksum*.dfy`).  The arithmetic of RFC 1071 on a little-endian machine,
  and the functions that fill a packet buffer in place.

Decisions.  The unsigned sum of the checksum is 32 bits wide, the narrower of the widths it may
have.  A packet object is a value with an identity; the flag that it was consumed is kept as a set of
identities per connection, which is the same as long as an object is picked once.  The `TreeSet` of
early packets is a list with insertion by `compareTo`; the two agree while the sequence numbers of a
side stay in a window below 2^31, and outside `compareTo` is no order at all
(`TcpPacket.CompareNotTransitive`).  `path` records the states a connection has entered.  Exceptions
are result values; the capture loop logs them and goes on, so a step leaves the state it had reached.
A connection is removed from the map when its listener is told that it closed, as the default
listener does.

What turned out false of the code, each with an input and the exact condition under which it holds:

- A stream boundary is lost when data is appended between its last octet and its -1
  (`StreamQueue.BoundaryLost`), unless a mark protects the buffer (`StreamQueue.BoundarySurvivesIff`).
- `reset` loses octets (`StreamMark.ResetLoses`) exactly when an append came after more octets than
  the limit (`StreamMark.ResetRestoresIff`).
- Not every call keeps the buffer consistent: `reset` may go beyond its end
  (`StreamBuffer.ResetOutOfRange`) and `finishCurrentInputStream` throws at a negative limit that a
  hasty reader reaches (`StreamBuffer.NegativeLimit`).  `StreamBuffer.StepSaneIff` says exactly which
  calls do, and disciplined runs meet it (`StreamQueue.StepRefines`).
- A connection with all its packets may stay unfinished, when the FIN came before a segment
  (`TcpReorder.FinTooEarly`); `TcpReorder.CompletesIff` says for every trace whether it does.
- A packet dropped as old may hold something new (`TcpReaders.RepackedIsLost`), exactly if it reaches
  beyond the counter (`TcpPrefix.OldIsCollectedIff`).
- Turns run together (`TcpTurns.TurnsRunTogether`) exactly when a turn that is followed by another
  did not acknowledge everything (`TcpTurns.OneStreamPerTurnIff`).
- Distinct connections may share a key, because `equals` compares hash codes only
  (`TcpPacket.KeysCollide`, `TcpDemux.CollisionEvicts`); an entry survives the handshake of another
  connection exactly if the keys differ (`TcpDemux.EntrySurvivesIff`), and `TcpKeys.SameHostsShareIff`
  says when they do.
- A connection whose FINs cross without an acknowledgement is never let go by a packet
  (`TcpClose.CrossedFins`, `TcpClose.ClosingIsForever`), and the second FIN need not acknowledge the
  first to count as doing so; `TcpClose.ReleasedIff` says over every trace what lets a connection go.
- `in_cksum` of an odd size takes the octet behind the data for its last one
  (`ChecksumSender.OddSizeIsWrong`), and is right exactly if both are zero (`ChecksumSender.InCksum`);
  `set_icmp` calls it so for echo data of odd length.
- `set_packet` writes the length before `set_tcp` or `set_udp` cuts the payload, so a receiver may sum
  another segment than the sender did (`ChecksumSender.PayloadCutByOne`); `ChecksumSender.SetPacket`
  says exactly when.
- The cut leaves the link header out, so a packet may end behind the packet size
  (`ChecksumSender.LinkHeaderLeftOut`, `ChecksumSender.FitsIff`).
- `hasError` does not report every exception (`ChunkClient.ReadSpoilt`): exactly the one for a malformed
  trailer is missing (`ChunkedStream.ChunkedInputStream.Read`).

## Model

| member | source | states |
|---|---|---|
| `ChunkMachine.BatchIndependence` | tcpConnectionSniffer/com/mexhee/io/ChunkedInputStream.java:223-422 | parsing a batch and then, restarted from what it left, another one ends in the same state, payload, trailers and fault as parsing both at once |
| `ChunkMachine.FaultIsPermanent` | tcpConnectionSniffer/com/mexhee/io/ChunkedInputStream.java:223-422 | a framing error stays the same error whatever follows and however it is batched, and the decoded payload does not change |
| `ChunkMachine.PendingIsUnprocessed` | tcpConnectionSniffer/com/mexhee/io/ChunkedInputStream.java:223-422 | the octets kept back are exactly the unprocessed rest: those before them decode to the same payload with nothing kept back |
| `ChunkMachine.PayloadGrows` | tcpConnectionSniffer/com/mexhee/io/ChunkedInputStream.java:223-422 | what was decoded never changes, it only grows |
| `ChunkMachine.HeaderBatch` | tcpConnectionSniffer/com/mexhee/io/ChunkedInputStream.java:234-281 | a batch in the header state: wait without a line feed, fault on a bogus size, else size and next state, whatever the extension |
| `ChunkMachine.DataBatch` | tcpConnectionSniffer/com/mexhee/io/ChunkedInputStream.java:288-334 | a batch inside a chunk: the smaller of what is missing and what is there goes to the payload, and the state changes exactly at the end of the chunk |
| `ChunkMachine.EolBatch` | tcpConnectionSniffer/com/mexhee/io/ChunkedInputStream.java:339-358 | a batch after a chunk: wait for two octets, fault on a missing CR or LF, else back to the header state |
| `ChunkMachine.TrailerBatch` | tcpConnectionSniffer/com/mexhee/io/ChunkedInputStream.java:365-418 | a batch in the trailer state: wait, the two faults, the end of the message, or a stored trailer |
| `ChunkGrammar.EncodingIsDecoded` | tcpConnectionSniffer/com/mexhee/io/ChunkedInputStream.java:223-422 | round trip: every message of the grammar followed by anything decodes to its payload and trailers without fault and leaves what follows untouched |
| `ChunkGrammar.AcceptedExactly` | tcpConnectionSniffer/com/mexhee/io/ChunkedInputStream.java:223-422 | decoding finishes on exactly the words of the grammar, followed by anything |
| `ChunkGrammar.PrefixOfEncoding` | tcpConnectionSniffer/com/mexhee/io/ChunkedInputStream.java:223-422 | decoding any beginning of an encoding is fault free, yields a beginning of the payload, and is done only with all of it |
| `ChunkGrammar.ProgressOf` | tcpConnectionSniffer/com/mexhee/io/ChunkedInputStream.java:223-422 | every octet string that was not rejected is a beginning of some message, with the position in it that the state says |
| `ChunkSpelling.LetterIsRead` | tcpConnectionSniffer/com/mexhee/io/ChunkedInputStream.java:223-422 | round trip from literal octets and digit tables: sizes spelled in either case of digit with leading zeros, any extension, any blanks around names and values; the machine ends with exactly the octets of the chunks, each trailer name bound to its last value and no other name bound |
| `ChunkSpelling.SingleChunk` | tcpConnectionSniffer/com/mexhee/io/ChunkedInputStream.java:223-422 | for every payload of 1 to 0x7fffffff octets and every spelling of its length, digits, extension, CR LF, payload, CR LF, 0, CR LF, CR LF decode to exactly that payload |
| `ChunkSpelling.TooLarge` | tcpConnectionSniffer/com/mexhee/io/ChunkedInputStream.java:255-266 | the digits of any number above 0x7fffffff are a bogus chunk size |
| `ChunkSpelling.NoSize` | tcpConnectionSniffer/com/mexhee/io/ChunkedInputStream.java:255-266 | so is a header line without a digit |
| `ChunkSpelling.FieldIsStored` | tcpConnectionSniffer/com/mexhee/io/ChunkedInputStream.java:398-413 | a trailer line of blanks, name, blanks, colon, blanks, value, blanks and CR binds exactly that name to that value and leaves every other name alone |
| `ChunkSpelling.EolFaults` | tcpConnectionSniffer/com/mexhee/io/ChunkedInputStream.java:339-358 | which fault two octets behind a chunk raise, if any |
| `ChunkSpelling.LineFaults` | tcpConnectionSniffer/com/mexhee/io/ChunkedInputStream.java:365-402 | which fault a line behind the last chunk raises, if any |
| `ChunkedStream.ChunkedInputStream.constructor` | tcpConnectionSniffer/com/mexhee/io/ChunkedInputStream.java:562-571 | a new decoder stands for the reference machine that has seen nothing |
| `ChunkedStream.ChunkedInputStream.EnsureRawAvailable` | tcpConnectionSniffer/com/mexhee/io/ChunkedInputStream.java:141-160 | growing or compacting makes room and keeps the raw octets |
| `ChunkedStream.ChunkedInputStream.EnsureChunkSpace` | tcpConnectionSniffer/com/mexhee/io/ChunkedInputStream.java:304-318 | growing or compacting makes room and keeps the decoded octets |
| `ChunkedStream.ChunkedInputStream.CountDigits` | tcpConnectionSniffer/com/mexhee/io/ChunkedInputStream.java:255-259 | the loop finds how many hexadecimal digits open the header |
| `ChunkedStream.ChunkedInputStream.ParseHeader` | tcpConnectionSniffer/com/mexhee/io/ChunkedInputStream.java:234-281 | the header case of the parser |
| `ChunkedStream.ChunkedInputStream.CopyChunk` | tcpConnectionSniffer/com/mexhee/io/ChunkedInputStream.java:288-334 | the data case: decoded octets extended by exactly the raw octets removed |
| `ChunkedStream.ChunkedInputStream.ParseEol` | tcpConnectionSniffer/com/mexhee/io/ChunkedInputStream.java:339-358 | the end-of-chunk case with its two faults |
| `ChunkedStream.ChunkedInputStream.ParseTrailer` | tcpConnectionSniffer/com/mexhee/io/ChunkedInputStream.java:365-418 | the trailer case; a malformed trailer is thrown without setting the error flag |
| `ChunkedStream.ChunkedInputStream.ProcessRaw` | tcpConnectionSniffer/com/mexhee/io/ChunkedInputStream.java:223-422 | the parser loop makes of the raw octets exactly what the octet-at-a-time machine makes of them |
| `ChunkedStream.ChunkedInputStream.ReceiveRaw` | tcpConnectionSniffer/com/mexhee/io/ChunkedInputStream.java:436-460 | one read into the raw buffer and its parsing keep the refinement; nothing the source handed out is lost |
| `ChunkedStream.ChunkedInputStream.ReadAheadNonBlocking` | tcpConnectionSniffer/com/mexhee/io/ChunkedInputStream.java:429-465 | decodes what the source has ready, delivers nothing, and answers the number of decoded octets |
| `ChunkedStream.ChunkedInputStream.ReadAheadBlocking` | tcpConnectionSniffer/com/mexhee/io/ChunkedInputStream.java:471-517 | ends with a decoded octet, the end of the message, or a truthful exception |
| `ChunkedStream.ChunkedInputStream.ReadAhead` | tcpConnectionSniffer/com/mexhee/io/ChunkedInputStream.java:525-553 | resets exhausted buffers and dispatches, keeping the refinement |
| `ChunkedStream.ChunkedInputStream.FastRead` | tcpConnectionSniffer/com/mexhee/io/ChunkedInputStream.java:182-208 | the shortcut delivers the next octets of the payload, at least one, and keeps the refinement although it bypasses both buffers |
| `ChunkedStream.ChunkedInputStream.Read` | tcpConnectionSniffer/com/mexhee/io/ChunkedInputStream.java:583-592 | delivers the next octet of the decoding, or answers the end or an exception truthfully; sets the error flag exactly with an exception other than that for a malformed trailer |
| `ChunkedStream.ChunkedInputStream.ReadInto` | tcpConnectionSniffer/com/mexhee/io/ChunkedInputStream.java:608-640 | delivers the next octets, zero of them only for a zero length; bounds are checked exactly; only the stretch answered for is written; the error flag as for a single octet |
| `ChunkedStream.ChunkedInputStream.Available` | tcpConnectionSniffer/com/mexhee/io/ChunkedInputStream.java:652-667 | delivers nothing and answers exactly how many decoded octets it holds afterwards; sets the error flag besides when the source ended, which it answers by 0 |
| `ChunkedStream.ChunkedInputStream.Close` | tcpConnectionSniffer/com/mexhee/io/ChunkedInputStream.java:680-686 | after it every call is answered with the closed exception |
| `ChunkClient.OnTrack` | tcpConnectionSniffer/com/mexhee/io/ChunkedInputStream.java:223-422 | between calls a decoder over a message has no fault and has delivered a beginning of the payload |
| `ChunkClient.NoError` | tcpConnectionSniffer/com/mexhee/io/ChunkedInputStream.java:583-640 | over a source that carries a message no read raises, and -1 is answered only after the whole payload and with all trailers |
| `ChunkClient.Play` | tcpConnectionSniffer/com/mexhee/io/ChunkedInputStream.java:583-667 | every mix of the three calls over every fragmentation returns a beginning of the payload, all of it once -1 was answered |
| `ChunkClient.ReadToEnd` | tcpConnectionSniffer/com/mexhee/io/ChunkedInputStream.java:608-640 | reading with any buffer size until -1 terminates and returns exactly the payload and the trailers |
| `ChunkClient.ReadLetter` | tcpConnectionSniffer/com/mexhee/io/ChunkedInputStream.java:608-640 | the same from literal octets: every spelled-out message, over every fragmentation and with any buffer size, comes out as the octets of its chunks and the bindings of its trailers |
| `ChunkClient.RetryAll` | tcpConnectionSniffer/com/mexhee/io/ChunkedInputStream.java:583-667 | after a framing error every sequence of calls delivers at most what was decoded before it, never answers the end, and raises no other framing error |
| `ChunkClient.ReadSpoilt` | tcpConnectionSniffer/com/mexhee/io/ChunkedInputStream.java:398-402 | on a last chunk followed by a trailer without a colon, however fragmented, the first read raises the malformed trailer and hasError stays false |
| `StreamBuffer.StepSaneIff` | tcpConnectionSniffer/com/mexhee/io/DynamicByteArrayInputStream.java:92-428 | a call keeps position, limit and marks consistent if and only if it is not a reset to a position beyond the buffer nor a jump to the next stream at a negative limit |
| `StreamBuffer.FullIff` | tcpConnectionSniffer/com/mexhee/io/DynamicByteArrayInputStream.java:226-289 | the same on the buffer |
| `StreamBuffer.ResetOutOfRange` | tcpConnectionSniffer/com/mexhee/io/DynamicByteArrayInputStream.java:180-289 | a run of ordinary calls after which reset leaves the position beyond the buffer |
| `StreamBuffer.NegativeLimit` | tcpConnectionSniffer/com/mexhee/io/DynamicByteArrayInputStream.java:262-364 | nine ordinary calls of a hasty reader and a writer that lead to a negative limit, where the jump to the next stream throws |
| `StreamBuffer.NoWaitAtMark` | tcpConnectionSniffer/com/mexhee/io/DynamicByteArrayInputStream.java:301-336 | a read never waits while an end-of-stream mark is outstanding |
| `StreamFifo.StepBalanced` | tcpConnectionSniffer/com/mexhee/io/DynamicByteArrayInputStream.java:92-428 | one call of any kind takes from the front what the reader accounts for, or puts back what a reset took back, and adds at the back what it accepts; marks likewise |
| `StreamFifo.FifoLaw` | tcpConnectionSniffer/com/mexhee/io/DynamicByteArrayInputStream.java:92-428 | over all interleavings of all eight calls, for a reader that asks for no reset once its mark is spent and whose jumps are not refused: taken then unread is taken before, unread before, then appended; and streams ended plus outstanding marks balance the successful finishes |
| `StreamFifo.NothingLost` | tcpConnectionSniffer/com/mexhee/io/DynamicByteArrayInputStream.java:92-428 | from the empty stream, what such a reader has gone through followed by the unread octets is all that was appended |
| `StreamQueue.AppendRefines` | tcpConnectionSniffer/com/mexhee/io/DynamicByteArrayInputStream.java:226-289 | append extends the open stream of the queue, or is refused: always when the stream is finished, and for space exactly under the condition of RefusedIff |
| `StreamQueue.RefusedIff` | tcpConnectionSniffer/com/mexhee/io/DynamicByteArrayInputStream.java:226-289 | an append to an unfinished stream is refused if and only if the unread octets of all streams and the new ones exceed 2048000; under a mark inside its limit the octets read but still stored count too, at least all those read since the mark |
| `StreamQueue.FinishRefines` | tcpConnectionSniffer/com/mexhee/io/DynamicByteArrayInputStream.java:92-145 | finish closes the open stream and succeeds exactly if something was appended since the last close |
| `StreamQueue.ReadRefines` | tcpConnectionSniffer/com/mexhee/io/DynamicByteArrayInputStream.java:301-403 | a read stays inside the current stream, and answers -1 once per boundary |
| `StreamQueue.SkipRefines` | tcpConnectionSniffer/com/mexhee/io/DynamicByteArrayInputStream.java:419-428 | skip stays inside the current stream |
| `StreamQueue.FinishCurrentRefines` | tcpConnectionSniffer/com/mexhee/io/DynamicByteArrayInputStream.java:343-364 | the rest of the current stream is dropped |
| `StreamQueue.ResetRefines` | tcpConnectionSniffer/com/mexhee/io/DynamicByteArrayInputStream.java:180-186 | a reset to a live mark finds its position inside the buffer and puts back what was taken since |
| `StreamQueue.StepRefines` | tcpConnectionSniffer/com/mexhee/io/DynamicByteArrayInputStream.java:92-428 | every orderly call is a call on the queue the buffer stands for, and never one of the two harmful ones |
| `StreamQueue.BufferRefinesQueue` | tcpConnectionSniffer/com/mexhee/io/DynamicByteArrayInputStream.java:92-428 | over every disciplined run, with marks and resets, the answers are those of a queue of byte streams, and the buffer stands for the queue reached |
| `StreamQueue.StreamComesOutWhole` | tcpConnectionSniffer/com/mexhee/io/DynamicByteArrayInputStream.java:180-403 | what a reader has gone through when the current stream ends, by a -1 or by a jump, is exactly that stream, whatever resets came in between |
| `StreamQueue.BoundarySurvivesIff` | tcpConnectionSniffer/com/mexhee/io/DynamicByteArrayInputStream.java:226-289 | an append between the last octet of a stream and its -1 keeps that -1 if and only if a mark protects the buffer |
| `StreamQueue.BoundaryLost` | tcpConnectionSniffer/com/mexhee/io/DynamicByteArrayInputStream.java:286-288 | a concrete run in which two streams run together |
| `StreamMark.ResetRestoresIff` | tcpConnectionSniffer/com/mexhee/io/DynamicByteArrayInputStream.java:180-257 | reset brings back what was unread at the mark followed by everything appended since, if and only if no append came after more octets than the limit |
| `StreamMark.ResetLoses` | tcpConnectionSniffer/com/mexhee/io/DynamicByteArrayInputStream.java:226-236 | a concrete run in which reset loses octets |
| `DynamicStream.DynamicByteArrayInputStream.constructor` | tcpConnectionSniffer/com/mexhee/io/DynamicByteArrayInputStream.java:89-90 | a new stream is the empty buffer |
| `DynamicStream.DynamicByteArrayInputStream.Finish` | tcpConnectionSniffer/com/mexhee/io/DynamicByteArrayInputStream.java:92-145 | the object does what the value model does, including the refusal of a second mark |
| `DynamicStream.DynamicByteArrayInputStream.MoveForwardMarks` | tcpConnectionSniffer/com/mexhee/io/DynamicByteArrayInputStream.java:291-299 | every mark is moved by the same amount |
| `DynamicStream.DynamicByteArrayInputStream.Append` | tcpConnectionSniffer/com/mexhee/io/DynamicByteArrayInputStream.java:226-236 | the object does what the value model does; no array a caller passed is ever written |
| `DynamicStream.DynamicByteArrayInputStream.AppendOnlyArray` | tcpConnectionSniffer/com/mexhee/io/DynamicByteArrayInputStream.java:242-257 | append behind a protected mark |
| `DynamicStream.DynamicByteArrayInputStream.AppendAndShrinkArray` | tcpConnectionSniffer/com/mexhee/io/DynamicByteArrayInputStream.java:262-289 | append that drops what was read, sharing the array of the caller when nothing is left |
| `DynamicStream.DynamicByteArrayInputStream.ShrinkToNextInputStream` | tcpConnectionSniffer/com/mexhee/io/DynamicByteArrayInputStream.java:348-364 | the move to the next stream |
| `DynamicStream.DynamicByteArrayInputStream.EndOfCurrent` | tcpConnectionSniffer/com/mexhee/io/DynamicByteArrayInputStream.java:301-310 | the three answers of a read that finds nothing |
| `DynamicStream.DynamicByteArrayInputStream.Read` | tcpConnectionSniffer/com/mexhee/io/DynamicByteArrayInputStream.java:318-335 | the object does what the value model does |
| `DynamicStream.DynamicByteArrayInputStream.ReadInto` | tcpConnectionSniffer/com/mexhee/io/DynamicByteArrayInputStream.java:372-403 | the object does what the value model does and puts the octets where the caller wants them |
| `DynamicStream.DynamicByteArrayInputStream.Skip` | tcpConnectionSniffer/com/mexhee/io/DynamicByteArrayInputStream.java:419-428 | the object does what the value model does |
| `DynamicStream.DynamicByteArrayInputStream.Mark` | tcpConnectionSniffer/com/mexhee/io/DynamicByteArrayInputStream.java:189-194 | the object does what the value model does |
| `DynamicStream.DynamicByteArrayInputStream.Reset` | tcpConnectionSniffer/com/mexhee/io/DynamicByteArrayInputStream.java:180-186 | the object does what the value model does |
| `DynamicStream.DynamicByteArrayInputStream.FinishCurrentInputStream` | tcpConnectionSniffer/com/mexhee/io/DynamicByteArrayInputStream.java:343-346 | the object does what the value model does in every consistent buffer, the exception at a negative limit included |
| `DynamicStream.DynamicByteArrayInputStream.HasMoreInputStream` | tcpConnectionSniffer/com/mexhee/io/DynamicByteArrayInputStream.java:338-340 | in every consistent buffer true exactly if a mark or an octet is left; where it stands for a queue, exactly if the queue has a closed stream or an unread octet |
| `DynamicStream.DynamicByteArrayInputStream.CloseWholeStream` | tcpConnectionSniffer/com/mexhee/io/DynamicByteArrayInputStream.java:161-168 | forgets everything but the mark of a reader |
| `TcpStream.ReaderGetsTheLog` | tcpConnectionSniffer/com/mexhee/io/DynamicByteArrayInputStream.java:92-428 | for every disciplined reader and writer, resets and jumps included: the streams the reader saw end are those the writer closed, in order, each with what the reader dropped of it; the rest is in its account or in the buffer |
| `TcpStream.AnyReaderGetsTheLog` | tcpConnectionSniffer/com/mexhee/io/DynamicByteArrayInputStream.java:92-428 | for every reader that asks for no reset once its mark is spent and whose jumps are not refused: what it has gone through followed by what is in the buffer is what the writer wrote |
| `TcpStream.ShortNeverFull` | tcpConnectionSniffer/com/mexhee/io/DynamicByteArrayInputStream.java:226-289 | over every run from the empty stream in which at most 2048000 octets are appended in all, whatever the reader does, no append is refused for space |
| `TcpPacket.CompareInWindow` | tcpConnectionSniffer/com/mexhee/tcp/packet/TCPPacket.java:186-188 | inside a window below 2^31 the order of packets is the order of sequence numbers |
| `TcpPacket.CompareNotTransitive` | tcpConnectionSniffer/com/mexhee/tcp/packet/TCPPacket.java:186-188 | outside it three packets each precede the next in a circle |
| `TcpPacket.KeyIgnoresDirection` | tcpConnectionSniffer/com/mexhee/tcp/connection/ConnectionDetail.java:168-173 | both directions of a connection share a key |
| `TcpPacket.KeysCollide` | tcpConnectionSniffer/com/mexhee/tcp/connection/ConnectionDetail.java:168-187 | exchanging the last digits of the two ports never changes the key |
| `TcpKeys.DecimalPrints` | tcpConnectionSniffer/com/mexhee/tcp/connection/ConnectionDetail.java:168-173 | the digits of a port, read back in base ten, are the port, without a leading zero |
| `TcpKeys.HashIsWeighted` | tcpConnectionSniffer/com/mexhee/tcp/connection/ConnectionDetail.java:168-173 | the hash of a string is the sum of its characters times powers of 31, in 32 bits |
| `TcpKeys.KeysEqualIff` | tcpConnectionSniffer/com/mexhee/tcp/connection/ConnectionDetail.java:168-187 | two connections share a key if and only if those sums over both their ends are congruent modulo 2^32 |
| `TcpKeys.SameHostsShareIff` | tcpConnectionSniffer/com/mexhee/tcp/connection/ConnectionDetail.java:168-187 | between the same hosts and with ports of the same lengths, if and only if the sums of the digits of both ports, weighed by powers of 31, are congruent modulo 2^32 |
| `TcpKeys.RealPortsShareIff` | tcpConnectionSniffer/com/mexhee/tcp/connection/ConnectionDetail.java:168-187 | for ports below 65536, if and only if those sums are equal |
| `TcpKeys.ClientPortsDiffer` | tcpConnectionSniffer/com/mexhee/tcp/connection/ConnectionDetail.java:168-187 | two connections of one host to one port of another, from ports of equal length, share a key only if they are the same connection |
| `TcpKeys.NeighbourSurvives` | tcpConnectionSniffer/com/mexhee/tcp/connection/PacketReceiverImpl.java:39-58 | the handshake of such a neighbour leaves an entry alone |
| `TcpBuffer.InsertSorted` | tcpConnectionSniffer/com/mexhee/tcp/connection/PacketsBuffer.java:28-34 | inside a window a buffer stays strictly sorted |
| `TcpBuffer.InsertStores` | tcpConnectionSniffer/com/mexhee/tcp/connection/PacketsBuffer.java:28-34 | a packet is refused only if one with its sequence number is stored |
| `TcpBuffer.SameSequenceIsRefused` | tcpConnectionSniffer/com/mexhee/tcp/connection/PacketsBuffer.java:28-34 | of two packets with one sequence number only the first stays |
| `TcpRuns.LegalPath` | tcpConnectionSniffer/com/mexhee/tcp/connection/TCPConnectionState.java:12-56 | along a legal path the rank rises strictly and Established comes once, right after the handshake |
| `TcpRuns.AckGrows` | tcpConnectionSniffer/com/mexhee/tcp/connection/TCPConnection.java:163-227 | an acknowledgement moves the state by at most one legal step and touches no stream |
| `TcpRuns.DataGrows` | tcpConnectionSniffer/com/mexhee/tcp/connection/TCPConnection.java:279-329 | data never changes the state, streams only grow, a finished one does not |
| `TcpRuns.FinGrows` | tcpConnectionSniffer/com/mexhee/tcp/connection/TCPConnection.java:331-412 | a FIN moves the state by at most one legal step and adds no octet |
| `TcpRuns.RstGrows` | tcpConnectionSniffer/com/mexhee/tcp/connection/TCPConnection.java:365-379 | a RST finishes both streams where they are and, unlike the comment in the code suggests, leaves the state alone |
| `TcpRuns.HandleEvolves` | tcpConnectionSniffer/com/mexhee/tcp/connection/PacketReceiverImpl.java:111-126 | handling a packet, with all the draining it starts: legal steps, frozen finished streams, waiting packets leave lowest first |
| `TcpRuns.DrainEvolves` | tcpConnectionSniffer/com/mexhee/tcp/connection/PacketReceiverImpl.java:104-109 | the same for a drain; the mutual recursion terminates by the number of waiting packets |
| `TcpRuns.EveryTrace` | tcpConnectionSniffer/com/mexhee/tcp/connection/PacketReceiverImpl.java:39-126 | for every trace, well-formed or not, the states entered form a legal path, a finished stream never gains an octet, and a connection once let go or taken for broken stays so |
| `TcpClose.FourWayClose` | tcpConnectionSniffer/com/mexhee/tcp/connection/TCPConnection.java:163-210 | from an established connection with nothing waiting, for either side and any counters: FIN, acknowledgement, FIN, acknowledgement go through FinishWait1, CloseWait and LastAck to Closed over the whole path; the connection is let go with the last packet and not before |
| `TcpClose.FourWayRemoves` | tcpConnectionSniffer/com/mexhee/tcp/connection/PacketReceiverImpl.java:39-97 | the entry of the connection is taken out of the map with the last of the four packets and not before |
| `TcpClose.CrossedFins` | tcpConnectionSniffer/com/mexhee/tcp/connection/TCPConnection.java:380-412 | a second FIN right after the first leads to Closing; if it has the acknowledgement flag, to LastAck, whatever it acknowledges |
| `TcpClose.ClosingIsForever` | tcpConnectionSniffer/com/mexhee/tcp/connection/PacketReceiverImpl.java:60-68 | no packet changes a connection in Closing |
| `TcpClose.ReleasedIff` | tcpConnectionSniffer/com/mexhee/tcp/connection/TCPConnection.java:163-412 | over every genuine trace without RST, reordered, repeated or lossy: a connection is let go if and only if two FINs were handled, an acknowledgement after the first up to and including the second FIN, and another one after the second; then and only then it went through the full path |
| `TcpClose.EntryGoneIff` | tcpConnectionSniffer/com/mexhee/tcp/connection/PacketReceiverImpl.java:39-126 | from the SYN on, the entry is in the map after such a trace if and only if the connection was not closed so |
| `TcpChecks.ClientFirst` | tcpConnectionSniffer/com/mexhee/tcp/connection/PacketsBuffer.java:36-89 | whatever waits at the server, a waiting packet of the client that is in turn goes first; one of the server goes if the client has none; stale packets before it are dropped and nothing else is |
| `TcpChecks.SynAckRefusedIff` | tcpConnectionSniffer/com/mexhee/tcp/connection/TCPConnection.java:142-149 | the second packet of a handshake is refused, and changes nothing, if and only if it does not acknowledge the first; otherwise it leads to SynReceived and sets both counters |
| `TcpChecks.AnswerToTheSyn` | tcpConnectionSniffer/com/mexhee/tcp/connection/TCPConnection.java:132-149 | in terms of the first packet: any octets it carries are counted |
| `TcpChecks.HandshakeAckRefusedIff` | tcpConnectionSniffer/com/mexhee/tcp/connection/TCPConnection.java:212-223 | the third packet, with or without data or FIN, is refused, and changes nothing, if it does not acknowledge the second; otherwise the connection is established |
| `TcpChecks.DataRefusedIff` | tcpConnectionSniffer/com/mexhee/tcp/connection/TCPConnection.java:313-329 | data in turn, unless it is also an acknowledgement that the state waits for, is refused if and only if its side has finished; then neither an octet nor a counter of that side changes, otherwise both grow by the data |
| `TcpChecks.RstReleasesIff` | tcpConnectionSniffer/com/mexhee/tcp/connection/PacketReceiverImpl.java:60-113 | with nothing waiting, a RST with the next number lets the connection go if and only if it acknowledges where its own side or the other got to; otherwise it is put away |
| `TcpChecks.FinBreaksIff` | tcpConnectionSniffer/com/mexhee/tcp/connection/TCPConnection.java:331-360 | a FIN makes a connection count as broken exactly if early data of a finished side waits |
| `TcpChecks.RstBreaksIff` | tcpConnectionSniffer/com/mexhee/tcp/connection/TCPConnection.java:346-379 | a RST does so exactly if any early data waits |
| `TcpChecks.BodyBreaksIff` | tcpConnectionSniffer/com/mexhee/tcp/connection/TCPConnection.java:194-210 | nothing else does, but a last acknowledgement that goes one too far |
| `TcpChecks.BrokenForGood` | tcpConnectionSniffer/com/mexhee/tcp/connection/TCPConnection.java:346-379 | and over every trace it stays so |
| `TcpRuns.RankRises` | tcpConnectionSniffer/com/mexhee/tcp/connection/TCPConnectionState.java:12-56 | over every trace the rank of the state only rises, and Established is entered at most once through SynSent and SynReceived |
| `TcpRuns.FirstDecides` | tcpConnectionSniffer/com/mexhee/tcp/connection/PacketsBuffer.java:63-89 | looking at the first waiting packet is looking at all of them |
| `TcpRuns.DrainIsQuiet` | tcpConnectionSniffer/com/mexhee/tcp/connection/PacketReceiverImpl.java:104-109 | after every drain without an exception no packet in either buffer is old or could be processed |
| `TcpRuns.ReceiveIsQuiet` | tcpConnectionSniffer/com/mexhee/tcp/connection/PacketReceiverImpl.java:60-97 | the same after every packet that is put away and every FIN |
| `TcpRuns.InOrderIsQuietIff` | tcpConnectionSniffer/com/mexhee/tcp/connection/PacketReceiverImpl.java:60-97 | after a packet in order without FIN, which drains nothing: a side is quiet if and only if its first waiting packet lies ahead of where the packet leads, or is next and acknowledges neither side's position |
| `TcpRuns.TraceIsQuiet` | tcpConnectionSniffer/com/mexhee/tcp/connection/PacketReceiverImpl.java:39-126 | over every trace inside a window below 2^31 the buffers stay sorted, and after every packet put away and every FIN nothing waiting is old or processable |
| `TcpRuns.DrainFresh` | tcpConnectionSniffer/com/mexhee/tcp/connection/SequenceCounter.java:25-54 | while draining no waiting packet is consumed, so the exception for a counted packet is unreachable |
| `TcpRuns.PickedOnce` | tcpConnectionSniffer/com/mexhee/tcp/connection/SequenceCounter.java:25-54 | if every packet object is picked once that exception is unreachable over every trace |
| `TcpPrefix.BodyCounted` | tcpConnectionSniffer/com/mexhee/tcp/connection/TCPConnection.java:163-329 | a genuine packet in turn: the counters stay the lengths of what was collected |
| `TcpPrefix.FinCounted` | tcpConnectionSniffer/com/mexhee/tcp/connection/TCPConnection.java:331-344 | a FIN is counted once and comes only when all content is collected |
| `TcpPrefix.HandleSafe` | tcpConnectionSniffer/com/mexhee/tcp/connection/PacketReceiverImpl.java:111-126 | handling a genuine packet keeps what was collected a beginning of the content |
| `TcpPrefix.DrainSafe` | tcpConnectionSniffer/com/mexhee/tcp/connection/PacketReceiverImpl.java:104-109 | so does draining |
| `TcpPrefix.PrefixSafety` | tcpConnectionSniffer/com/mexhee/tcp/connection/TCPConnection.java:132-379 | for every reordered, repeated or lossy trace, among packets of other keys, what was collected for a side of the connection followed is a beginning of what it sent, and until a RST the counter gives its length |
| `TcpPrefix.EverAppended` | tcpConnectionSniffer/com/mexhee/tcp/connection/TCPConnection.java:132-379 | the same for every trace and to its last packet, also when the connection was released by a RST or its last acknowledgement; without a RST a finished stream is all that was sent |
| `TcpPrefix.OldIsCollectedIff` | tcpConnectionSniffer/com/mexhee/tcp/connection/TCPConnection.java:454-460 | a packet that is dropped as old held only octets that were collected already if and only if it does not reach beyond the counter |
| `TcpReorder.HandleSegment` | tcpConnectionSniffer/com/mexhee/tcp/connection/PacketReceiverImpl.java:111-126 | the next segment goes into the stream, whatever else waits |
| `TcpReorder.DrainFlow` | tcpConnectionSniffer/com/mexhee/tcp/connection/PacketReceiverImpl.java:104-109 | a drain puts every segment that is next into the stream and loses none |
| `TcpReorder.Arrival` | tcpConnectionSniffer/com/mexhee/tcp/connection/PacketReceiverImpl.java:60-97 | one packet of a flow, early, in turn or late: nothing that has arrived is lost |
| `TcpReorder.Progress` | tcpConnectionSniffer/com/mexhee/tcp/connection/PacketReceiverImpl.java:60-126 | for every trace of packets of a flow, the FIN anywhere: the parts in the stream are exactly as many as the numbers of the packets determine, and those that have arrived are exactly those carried |
| `TcpReorder.AnyOrder` | tcpConnectionSniffer/com/mexhee/tcp/connection/PacketReceiverImpl.java:60-126 | contiguous segments of one side in any order with repetitions, then the FIN: the stream is finished, holds them in order, and nothing waits |
| `TcpReorder.CompletesIff` | tcpConnectionSniffer/com/mexhee/tcp/connection/PacketReceiverImpl.java:60-126 | over every such trace: the stream is finished, with everything in it, if and only if some packet came when all others had come and was ahead of the stream or the FIN in its turn; before that it holds exactly the parts reached |
| `TcpReorder.FinTooEarly` | tcpConnectionSniffer/com/mexhee/tcp/connection/PacketReceiverImpl.java:60-126 | the FIN before the only segment: afterwards it still waits although it could be processed |
| `TcpReorder.HandshakeEstablishes` | tcpConnectionSniffer/com/mexhee/tcp/connection/TCPConnection.java:132-223 | the three packets of a handshake lead to an established, empty connection with both counters one past the initial numbers |
| `TcpReorder.WholeConnection` | tcpConnectionSniffer/com/mexhee/tcp/connection/PacketReceiverImpl.java:39-126 | a whole connection: handshake, all segments of one side in any order with repetitions, FIN; the stream holds exactly what was sent and is finished |
| `TcpTurns.OneStreamPerTurnIff` | tcpConnectionSniffer/com/mexhee/tcp/connection/TCPConnection.java:291-329 | for every in-order conversation: a stream is cut exactly into the turns of its side if and only if every turn that was followed by another had acknowledged all the other side had sent |
| `TcpTurns.OneStreamPerTurn` | tcpConnectionSniffer/com/mexhee/tcp/connection/TCPConnection.java:291-329 | in particular if every data packet acknowledges all the other side has sent |
| `TcpTurns.TurnsRunTogether` | tcpConnectionSniffer/com/mexhee/tcp/connection/TCPConnection.java:291-329 | a conversation from the handshake on in which the second and third turn of the server end up in one sub-stream |
| `TcpReaders.ReaderTakesPrefix` | tcpConnectionSniffer/com/mexhee/io/DynamicByteArrayInputStream.java:92-428 | such a reader of a connection's stream has gone through a beginning of what the connection wrote, and the rest is in the buffer |
| `TcpReaders.ShortSide` | tcpConnectionSniffer/com/mexhee/io/DynamicByteArrayInputStream.java:226-289 | a reader of a side that sends at most 2048000 octets is one the statements below hold of, without a hypothesis about space |
| `TcpReaders.WireToReader` | tcpConnectionSniffer/com/mexhee/tcp/connection/PacketReceiverImpl.java:39-126 | end to end: for every genuine trace and every interleaving with the calls of such a reader, it has gone through a beginning of what that side sent |
| `TcpReaders.WholeConnectionRead` | tcpConnectionSniffer/com/mexhee/tcp/connection/PacketReceiverImpl.java:39-126 | and once all segments arrived in any order with repetitions and then the FIN, what it has gone through and can still read is exactly what was sent |
| `TcpReaders.ReaderHearsTurns` | tcpConnectionSniffer/com/mexhee/tcp/connection/TCPConnection.java:291-329 | in an in-order conversation whose turns were acknowledged, the streams a disciplined reader saw end are the turns of that side, in order and whole but for what the reader dropped by a jump |
| `TcpReaders.ReaderHearsTurnsIff` | tcpConnectionSniffer/com/mexhee/tcp/connection/TCPConnection.java:291-329 | a disciplined reader that has gone through everything went through exactly the turns if and only if every turn followed by another was acknowledged |
| `TcpReaders.RepackedIsLost` | tcpConnectionSniffer/com/mexhee/tcp/connection/TCPConnection.java:454-460 | a retransmission that begins with old octets is dropped with the new octet at its end |
| `TcpDemux.OwnPacketsOnly` | tcpConnectionSniffer/com/mexhee/tcp/connection/PacketReceiverImpl.java:39-97 | what is kept for a connection after an interleaved trace is what its own packets alone lead to, if no other pair of endpoints shares its key |
| `TcpDemux.FollowedIff` | tcpConnectionSniffer/com/mexhee/tcp/connection/PacketReceiverImpl.java:39-58 | a first packet enters the map if and only if the filter accepts it, and changes nothing otherwise; no other packet adds an entry |
| `TcpDemux.EntrySurvivesIff` | tcpConnectionSniffer/com/mexhee/tcp/connection/PacketReceiverImpl.java:39-58 | when the handshake of other endpoints is accepted, the entry of a connection survives if and only if their keys differ |
| `TcpDemux.CollisionEvicts` | tcpConnectionSniffer/com/mexhee/tcp/connection/ConnectionDetail.java:152-187 | with a shared key the handshake of one connection throws out the other |
| `TcpReceiver.TcpConnection.HasDataPackets` | tcpConnectionSniffer/com/mexhee/tcp/connection/PacketsBuffer.java:53-61 | true exactly if a waiting packet carries data |
| `TcpReceiver.TcpConnection.PickupFrom` | tcpConnectionSniffer/com/mexhee/tcp/connection/PacketsBuffer.java:63-89 | the loop picks the packet, and drops the old ones, that the recursive definition does |
| `TcpReceiver.PacketReceiver.HandlePacket` | tcpConnectionSniffer/com/mexhee/tcp/connection/PacketReceiverImpl.java:111-126 | the object does what the value model does, and terminates |
| `TcpReceiver.PacketReceiver.TryToProcessPacketsInBuffer` | tcpConnectionSniffer/com/mexhee/tcp/connection/PacketReceiverImpl.java:104-109 | the loop does what the value model does, and terminates |
| `TcpReceiver.PacketReceiver.PickPacket` | tcpConnectionSniffer/com/mexhee/tcp/connection/PacketReceiverImpl.java:39-97 | the map of connections changes as the value model says, and of all objects ever followed only the one under the key of the packet changes |
| `TcpReceiver.PacketReceiver.PickGenuine` | tcpConnectionSniffer/com/mexhee/tcp/connection/PacketReceiverImpl.java:39-97 | a genuine packet keeps every object of its key, released ones included, a beginning of what was sent; a foreign packet changes none |
| `TcpReceiver.PacketReceiver.LoopPackets` | tcpConnectionSniffer/com/mexhee/tcp/connection/TCPConnectionSniffer.java:59-69 | the capture loop goes on after an exception, and for every real connection every object ever followed under its key has a beginning of what each side sent, and so has every reader of its streams that heeds its own account |
| `Checksum.TwoFoldsFit` | jpcap/src/c/JpcapSender.c:347-349 | two folds of any 32-bit sum fit 16 bits and represent it modulo 2^16 - 1, zero only for zero |
| `Checksum.SumBound` | jpcap/src/c/JpcapSender.c:338-344 | up to 131072 octets no carry leaves 32 bits |
| `Checksum.SumIsWeighed` | jpcap/src/c/JpcapSender.c:338-346 | the sum counts the octets at even places once and those at odd places 256 times, an odd last octet included |
| `Checksum.ExampleOfTheRfc` | jpcap/src/c/JpcapSender.c:338-350 | the example of section 3 of RFC 1071 gets the octets 22 0d |
| `Checksum.VerifiesIff` | jpcap/src/c/JpcapSender.c:338-350 | a nonzero sum verifies if and only if 2^16 - 1 divides it |
| `Checksum.StoredChecksumVerifies` | jpcap/src/c/JpcapSender.c:325-326 | zero the field, sum, store: the packet then sums to zero, also when a zero result is stored as 0xffff |
| `Checksum.WordChangeUnnoticedIff` | jpcap/src/c/JpcapSender.c:338-350 | replacing one word of a packet that verifies goes unnoticed if and only if the words are equal or the two forms of zero |
| `Checksum.ByteOrderIndependent` | jpcap/src/c/JpcapSender.c:338-350 | the little-endian result is the byte swap of the big-endian one (section 2(B) of RFC 1071) |
| `ChecksumSender.AddWords` | jpcap/src/c/JpcapSender.c:341-344 | the loop adds the little-endian words of a stretch in 32 bits |
| `ChecksumSender.InCksum` | jpcap/src/c/JpcapSender.c:338-350 | for an even size the Internet checksum of the data; for an odd size if and only if the last octet and the one behind it are zero |
| `ChecksumSender.OddSizeIsRightIff` | jpcap/src/c/JpcapSender.c:346-346 | the sum the code takes for an odd size complements to the Internet checksum if and only if the last octet and the octet behind it are zero |
| `ChecksumSender.OddSizeIsWrong` | jpcap/src/c/JpcapSender.c:346-346 | the single octet 1 gets the checksum 0xffff where 0xfffe is right |
| `ChecksumSender.InCksum2` | jpcap/src/c/JpcapSender.c:352-378 | the Internet checksum of pseudo header and segment, for every size |
| `ChecksumSender.SetIpChecksum` | jpcap/src/c/JpcapSender.c:320-327 | afterwards the IPv4 header verifies and only the field was written |
| `ChecksumSender.StoreChecksum` | jpcap/src/c/packet_tcp.c:102-103 | afterwards pseudo header and segment verify, only the field was written, and a replaced zero is never sent |
| `ChecksumSender.SetPacket` | jpcap/src/c/JpcapSender.c:227-325 | link header, IP header, transport header and clamped payload are in place and nothing else is written; the protocol is 6 or 17; both checksums verify together; and the segment announced by the IP length in the buffer is the one summed exactly if the payload was not cut, or is cut by a multiple of 2^16 |
| `ChecksumSender.LengthsAgreeIff` | jpcap/src/c/JpcapSender.c:266-280 | the length that goes into the IP header is that of the clamped packet exactly under that condition |
| `ChecksumSender.PayloadCutByOne` | jpcap/src/c/JpcapSender.c:266-272 | with 1561 octets of TCP payload 1581 octets of segment are announced and 1580 summed |
| `ChecksumSender.FitsIff` | jpcap/src/c/JpcapSender.c:227-280 | what is written stays inside the packet size if and only if there is no link header or nothing had to be cut for it |
| `ChecksumSender.LinkHeaderLeftOut` | jpcap/src/c/JpcapSender.c:227-280 | 1547 octets of TCP payload behind an Ethernet header end one octet behind the packet size |
| `ChecksumSender.SendPacket` | jpcap/src/c/JpcapSender.c:155-180 | for packets that fit: the frame holds link header, headers and the whole payload, both checksums verify, the IP length is that of the packet, and a frame below 60 octets is filled up with zeros |
| `ChecksumSender.SetTcp` | jpcap/src/c/packet_tcp.c:73-105 | header and payload, cut to 1560 octets, are in place, the segment verifies, nothing else was written |
| `ChecksumSender.SetUdp` | jpcap/src/c/packet_udp.c:40-56 | ports, length and payload, cut to 1572 octets, are in place, the checksum is never zero, the datagram verifies, nothing else was written |

## Left out

- Reader and writer threads, `wait`, `notify` and the read timeout: every synchronized method is one atomic step, and a read that would wait answers so.
- Start and end times of streams and packets, and the callback that announces a turn.
- Removal of obsolete connections by a timer, and `close` of a connection.
- The streams inside a connection never raise the buffer-full exception: a connection keeps the log of its calls on a stream. For a side that writes more than 2048000 octets the statements of `TcpReaders` are about runs of those calls on the buffer in which no append is refused for lack of space; below that `TcpStream.ShortNeverFull` shows that none is.
- TcpStream.AnyReaderGetsTheLog: says nothing of a reader that asks for a reset after an append came past the limit of its mark, or that goes on after a refused jump; what such a reset brings back is `StreamMark.ResetRestoresIff`. The same holds of the statements built on it in `TcpReaders` and `TcpReceiver`.
- What a reader skips, or drops by a jump, counts as gone through.
- `set_packet` for other protocols than TCP and UDP over IPv4, for a packet without data, and in a build with `BSD_BUG`.
- Sequence numbers that wrap around, and a packet object that is picked twice.
- `ChunkedInputStream.close` of the underlying stream, and a source that answers a read with zero octets.
- Encoding of the header fields of IP, TCP and UDP, which arrive encoded; IPv6; ICMP, ARP and Ethernet packets; capture and sending through the native library.
- `FixLengthStreamFileCache`, the HTTP, MySQL and recorder front ends, and the filters: file access, presentation, and simple list scans that would only add easy members.
- TcpReorder.AnyOrder: assumes that nothing of the other side waits, since a waiting packet is drained only when another one is put away or a FIN is handled.
