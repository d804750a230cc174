# Volto, modelled and proved in Dafny

Volto is a MASQUE proxy: HTTP/3 requests that carry UDP and TCP through a server. This project models the
parts of it that are written by hand and that carry state from one call to the next, and proves what they
promise for every input, every chunking and every run:

* the QPACK Huffman decoder (`Huffman`, `HuffmanTable`): decoding is a bijection, first for any complete
  canonical code with an all-ones EOS and then for the 257 codes of Appendix B of RFC 7541;
* the capped congestion controller (`DeliveryRate`, `Startup`, `MinRtt`, `BbrCapped`): what its ring of samples,
  its startup test and its RTT probe hold after every run of callbacks;
* varints, HTTP Datagrams and the incremental capsule decoder (`Datagram`, `Capsules`): every run of pushes and
  calls refines a one-shot reading of the bytes;
* the SNI gate (`CryptoStream`, `ClientHello`, `Gate`): from CRYPTO frames in any order to the verdict on a datagram;
* the lookup budget (`Resolver`, `LookupQueue`, `BlockingPool`): permits are conserved on every interleaving, waiters
  are served in turn, and threads are counted;
* HTTP/3 connection state (`Routing`, `Goaway`, `ControlStream`, `Qpack`);
* credentials and message redaction (`Base64`, `Auth`, `Redact`).

Code that changes state in the original is a class or a loop here, and each such method is proved against a
function on values; the theorems about whole runs are lemmas about those functions. Bytes are integers below
256, so shifts and masks appear as division and remainder. Times are natural numbers of nanoseconds. Counters
that the original lets saturate saturate here; the interval counter, which wraps at 2^64, is a natural number.

Four facts the model brings out about the code:

* The startup test has a bound exactly when something was measured (`Startup.BoundedExactlyWhenMeasured`). The growth
  mark is zero exactly while every counted interval had estimate zero; from such a state zero estimates are counted
  as growth for ever. From a positive mark on, a phase has fewer than 600 counted intervals.
* The QPACK decoder-stream reader limits the bytes of an integer, not the integer. It accepts whole Stream
  Cancellations for ids of 2^62 and more (`Qpack.PastTheLimitAccepted`: 2^62 + 63), and nine continuation bytes that
  each announce another although any tenth byte is refused. What it accepts is the start of Stream Cancellations for
  ids below 2^62, each with at most nine continuation bytes, exactly when neither happens (`Qpack.LegalExactlyWhen`,
  `Qpack.LegalStreams`).
* With stream ids in increasing order all GOAWAY identifiers of a connection are equal (`Goaway.GoawayIsSafe`); the
  minimum the code takes never changes the outcome.
* The size of the blocking pool (src/net.rs:161-187) is documented to leave a thread for every connection's reserved
  lookup and 64 more. A closed connection gives up its place on the roster (src/quic/roster.rs:190-200) while its
  thread stays in the resolver with its slot, so the threads needed are bounded by 128, plus one per open connection,
  plus one per closed connection whose reserved lookup still runs (`BlockingPool.ThreadBound`). The limit on open
  connections alone gives no bound: some runs never have two open and outgrow any pool (`BlockingPool.PoolCanBeOutgrown`).
  `BlockingPool.ClearExactlyWhenRoomIsLeft` says exactly when the 64 threads are clear.

## Model

| member | source | states |
|---|---|---|
| `Huffman.EosIsAllOnes` | src/h3/huffman.rs:28-34 | in every complete canonical code with a longest EOS, the EOS code is all ones |
| `Huffman.CodeWordValue` | src/h3/huffman.rs:134-143 | every symbol's canonical code fits its length and lies inside its length's run of codes |
| `Huffman.PendingIsShort` | src/h3/huffman.rs:186-196 | completeness: bits with no code at their front are always fewer than the longest code, so the overlong exit cannot be taken |
| `Huffman.SameFirstSymbol` | src/h3/huffman.rs:134-155 | prefix-freeness: equal bit strings begin with the same symbol and continue alike |
| `Huffman.ReadingIsUnique` | src/h3/huffman.rs:171-229 | a bit string splits into symbols and an unfinished rest in one way only |
| `Huffman.ReadsUnique` | src/h3/huffman.rs:171-229 | every input has at most one declarative outcome, value or failure |
| `Huffman.EncodingIsTheOnlyReading` | src/h3/huffman.rs:171-229 | an input reads as `s` if and only if it is the padded encoding of `s` |
| `Huffman.CountLengths` | src/h3/huffman.rs:129-132 | the counting loop counts each length's symbols |
| `Huffman.PlaceSymbols` | src/h3/huffman.rs:147-155 | every symbol lands in the slot its length and rank give it |
| `Huffman.BuildTable` | src/h3/huffman.rs:125-164 | the tables derived from lengths alone hold every canonical first code, first index and symbol |
| `Huffman.Advance` | src/h3/huffman.rs:185-212 | one more bit either completes exactly the symbol the tables name or leaves an unfinished code |
| `Huffman.DecodeBit` | src/h3/huffman.rs:185-213 | one turn of the bit loop keeps the output equal to the symbols read so far, or meets EOS |
| `Huffman.DecodeByte` | src/h3/huffman.rs:184-213 | the same over one octet, most significant bit first |
| `Huffman.Decode` | src/h3/huffman.rs:171-229 | result `Ok(s)` if and only if the input is the encoding of `s`; "no code matches" is never returned; however the run ends, the vector holds the symbols of a front of the input, five bits or more each |
| `HuffmanTable.AppendixBIsComplete` | src/h3/huffman.rs:39-107 | the 257 lengths form a complete code, EOS has thirty bits, none has under five |
| `HuffmanTable.AppendixBIsCanonical` | src/h3/huffman.rs:39-164 | the code derived from the lengths is the printed code, for every symbol |
| `HuffmanTable.LetterA` | src/h3/huffman.rs:39-107 | the letter "a" is encoded as the byte 0x1f |
| `HuffmanTable.DecodeLiteral` | src/h3/huffman.rs:171-229 | the decoder on Appendix B's tables is a bijection between byte strings and accepted literals, and on every run, failed or not, the vector stays within the reserved 8n/5 + 1 bytes |
| `DeliveryRate.RingMaximum` | src/congestion.rs:607-611 | the ring's maximum is the largest stored sample that is among the last ten and not expired |
| `DeliveryRate.ExpiryMoves` | src/congestion.rs:574-588 | a positive sample expires exactly those stored ten or more intervals before it; a zero one expires nothing |
| `DeliveryRate.StoringKeepsRing` | src/congestion.rs:580-592 | expiring and overwriting the oldest slot keeps every kept sample in its place and zeros elsewhere |
| `DeliveryRate.HigherSampleWins` | src/congestion.rs:568-592 | a stored sample above the estimate becomes the estimate |
| `DeliveryRate.Since` | src/congestion.rs:554-559 | a saturating difference of instants |
| `DeliveryRate.Micros` | src/congestion.rs:562-562 | whole microseconds of a duration |
| `DeliveryRate.RateIsBytesOverTime` | src/congestion.rs:554-563 | below saturation the sample times the longer interval, in whole microseconds and at least one, is within one interval of the bytes times 10^6; it saturates exactly past 2^64 - 1; it is at most the bytes over either interval; without an earlier send the ACK interval alone counts |
| `DeliveryRate.Estimator.Estimate` | src/congestion.rs:607-611 | the estimate is the windowed maximum over everything ever stored, absent when it is zero |
| `DeliveryRate.Estimator.OnAck` | src/congestion.rs:533-539 | bytes saturate, app-limited is sticky, the send time only moves forward |
| `DeliveryRate.Estimator.Restart` | src/congestion.rs:600-605 | a new interval starts at the latest send time with nothing counted |
| `DeliveryRate.Estimator.Expire` | src/congestion.rs:581-587 | the clearing loop clears exactly the expired slots |
| `DeliveryRate.Estimator.Store` | src/congestion.rs:574-592 | appends to the log of stored samples and keeps the ring in step with it |
| `DeliveryRate.Estimator.OnEndAcks` | src/congestion.rs:543-598 | an interval closes exactly after a round trip; the sample is bytes over the longer of two times; an app-limited one is stored only above the estimate and never lowers it |
| `Startup.PhaseBound` | src/congestion.rs:262-286 | during a startup phase: at most three counted intervals per growth and two more, and a mark that grew by a quarter each time |
| `Startup.StartupIsBounded` | src/congestion.rs:262-286 | fewer than 3(k + 1) counted intervals after k growths, and 5^k g0 <= 4^k peak |
| `Startup.StartupEndsWithin600` | src/congestion.rs:262-286 | with 64-bit estimates a phase with a positive mark has fewer than 600 counted intervals |
| `Startup.MarkIsZeroExactlyWhen` | src/congestion.rs:262-307 | on every history the mark is zero if and only if every counted interval had estimate zero, and then the startup has not ended |
| `Startup.ZeroEstimatesNeverEnd` | src/congestion.rs:275-278 | from every unended state with a zero mark, any number of zero estimates are all counted and do not end the startup |
| `Startup.BoundedExactlyWhenMeasured` | src/congestion.rs:262-286 | from any reachable unended state, startup phases have a bound if and only if some counted interval had a positive estimate |
| `Startup.PhaseEndsExactlyWithoutGrowth` | src/congestion.rs:262-286 | a phase ends if and only if an interval under 5/4 of the last growth had a congestion event, or is the third such in a row that is not app-limited |
| `Startup.StateTracksHistory` | src/congestion.rs:262-307 | on every run, peak is the largest estimate, last is the latest one not app-limited, and rises counts trailing qualifying rises |
| `Startup.RestartNeedsThreeRises` | src/congestion.rs:290-307 | the startup returns only at the third of three rises in a row, none app-limited, each from below half of the peak so far |
| `Startup.RestartsExactlyAfterThreeRises` | src/congestion.rs:290-307 | an ended startup returns if and only if this is the third qualifying rise in a row since it ended |
| `Startup.EveryPhaseIsBounded` | src/congestion.rs:262-307 | every phase reached by any history with a positive mark meets both bounds |
| `Startup.Test.CloseInterval` | src/congestion.rs:262-286 | the update of one closed interval |
| `Startup.Test.RecordRise` | src/congestion.rs:294-307 | the count of rises and the return of the startup |
| `MinRtt.HeldIsTheMinimum` | src/congestion.rs:323-369 | on every run the held minimum is the lowest sample since the start of the last finished probe, without those of an unfinished one, whose own lowest sample the probe keeps |
| `MinRtt.HeldSinceLastRefresh` | src/congestion.rs:341-352 | the time held is that of the last sample at or below the minimum, or of the end of the last probe |
| `MinRtt.ProbeStartsExactlyWhenStale` | src/congestion.rs:341-352 | a probe starts if and only if an ACK that is not app-limited and is above the minimum comes more than 10 s after the last refresh |
| `MinRtt.NoProbeBeforeASample` | src/congestion.rs:341-352 | without a sample no probe starts |
| `MinRtt.ProbeFollowsTenQuietSeconds` | src/congestion.rs:341-352 | with a monotone clock, no sample of the 10 s before a probe is at or below the minimum, and none was taken in a probe |
| `MinRtt.ProbeEndsExactlyAfterItsTime` | src/congestion.rs:356-369 | a probe ends if and only if a batch ends max(200 ms, srtt) or more after the first batch end that found in-flight data within the probe's window |
| `BbrCapped.ProductFits` | src/congestion.rs:408-409 | for RTTs under 2^52 microseconds the product stays under 2^128 in every phase |
| `BbrCapped.LimitIsTheProduct` | src/congestion.rs:400-411 | between floor and saturation the limit is 5/4, 2.885 or 1/2 of the bandwidth-delay product, to the byte |
| `BbrCapped.LimitExactly` | src/congestion.rs:400-411 | the product in whole bytes, kept within 64 bits, and not below the initial window or, in a probe, four packets |
| `BbrCapped.LimitGrows` | src/congestion.rs:400-411 | a larger estimate or minimum RTT never lowers the limit |
| `BbrCapped.PhasesAreOrdered` | src/congestion.rs:393-411 | a probe's limit is at most the steady one, and that at most the startup's |
| `BbrCapped.Controller.RecordAck` | src/congestion.rs:323-352 | the tracker takes one step; an ACK during a probe makes its interval app-limited |
| `BbrCapped.Controller.CurrentCap` | src/congestion.rs:393-411 | there is no limit if and only if every kept sample is zero or there was no RTT sample; else it is that of the windowed maximum rate and of the minimum RTT of the run, and outside a probe at least the initial window |
| `BbrCapped.Controller.UpdateProbe` | src/congestion.rs:356-369 | the tracker takes one step with the limit then in force |
| `BbrCapped.Controller.OnEndAcks` | src/congestion.rs:431-446 | a closed interval, and no other, is put to the startup test with the estimate after it; an app-limited interval, whether by an ACK of its own, one from a probe or the batch end, never lowers the estimate |
| `BbrCapped.Controller.Window` | src/congestion.rs:465-468 | the smaller of the wrapped window and the limit; outside a probe never below the smaller of it and the initial window |
| `Datagram.VarintRoundTrip` | src/datagram.rs:160-221 | every value up to 2^62 - 1 comes back from its varint, whatever follows it |
| `Datagram.VarintBytesDecode` | src/datagram.rs:207-221 | a varint longer than needed decodes to the same value |
| `Datagram.VarintIgnoresSuffix` | src/datagram.rs:197-221 | a complete varint is decoded the same under any suffix |
| `Datagram.DecodedIsEncodable` | src/datagram.rs:160-221 | what decodes can be encoded, in no more bytes |
| `Datagram.UnfinishedExactly` | src/datagram.rs:207-221 | no varint is decoded if and only if the bytes are a proper prefix of one, the empty prefix among them |
| `Datagram.VarintExamples` | src/datagram.rs:207-221 | the examples of RFC 9000 for all four lengths |
| `Datagram.PeekVarint` | src/datagram.rs:207-221 | the shifting loop computes the varint's value |
| `Datagram.Buffer.PutVarint` | src/datagram.rs:179-191 | appends the encoding and nothing else |
| `Datagram.Buffer.TakeVarint` | src/datagram.rs:197-201 | takes a whole varint off the front or leaves the buffer alone |
| `Datagram.Encode` | src/datagram.rs:120-135 | both varints and the payload; the length is the announced one |
| `Datagram.Decode` | src/datagram.rs:142-156 | the three errors and the value, as the one-shot reading gives them |
| `Datagram.DatagramRoundTrip` | src/datagram.rs:120-156 | every legal datagram comes back |
| `Datagram.ReencodeDatagram` | src/datagram.rs:120-156 | re-encoding a decoded datagram decodes alike and is no longer |
| `Datagram.MissingQuarterStreamIdExactly` | src/datagram.rs:142-156 | this error if and only if the datagram is a proper prefix of one varint |
| `Datagram.MissingContextIdFails` | src/datagram.rs:142-156 | a Quarter Stream ID up to 2^60 - 1 and a proper prefix of a varint give this error |
| `Datagram.TooLargeIdFails` | src/datagram.rs:142-156 | a Quarter Stream ID from 2^60 on gives this error, whatever follows |
| `Capsules.NextExplains` | src/capsule.rs:176-248 | one call's answer and state account for the rest of the reading, whatever arrives later |
| `Capsules.Drained` | src/capsule.rs:164-248 | a drained decoder holds fewer bytes than the bound on a value, and calling again changes nothing |
| `Capsules.RunAccounts` | src/capsule.rs:156-248 | after every run of pushes and calls, what was given and what is held spell the one-shot reading |
| `Capsules.RunRefinesParse` | src/capsule.rs:156-248 | however the bytes are cut: the same capsules and the same first error as the one-shot reading |
| `Capsules.WholeMeansConcatenation` | src/capsule.rs:160-170 | an error-free reading ends between capsules if and only if the bytes are a concatenation of whole capsules |
| `Capsules.BoundaryMeansWholeCapsules` | src/capsule.rs:160-170 | the boundary answer after an error-free drain says exactly that of everything pushed |
| `Capsules.BoundaryExactly` | src/capsule.rs:160-170 | in any state, drained or not, a boundary is where nothing is held and nothing of a capsule is outstanding |
| `Capsules.AfterError` | src/capsule.rs:176-248 | an error leaves the decoder at a header, holding an end of what it held |
| `Capsules.EncodedPiecesParse` | src/capsule.rs:255-272 | DATAGRAM capsules interleaved with capsules of any other types come back in order |
| `Capsules.OversizeIsRefused` | src/capsule.rs:201-228 | a DATAGRAM capsule over the bound is refused for its length, whatever follows |
| `Capsules.MissingContextIsRefused` | src/capsule.rs:230-245 | a DATAGRAM capsule whose value is a proper prefix of a varint is refused as malformed, whatever follows |
| `Capsules.EncodeDatagramCapsule` | src/capsule.rs:255-272 | type, length, Context ID and payload |
| `Capsules.CapsuleDecoder.AtCapsuleBoundary` | src/capsule.rs:164-170 | the boundary predicate of the state and buffer |
| `Capsules.CapsuleDecoder.NextCapsule` | src/capsule.rs:176-248 | the loop ends, by buffer length and then state, with the answer of the recursive step |
| `CryptoStream.PrefixIsExact` | src/gate.rs:898-923 | every reassembled byte is one a fragment supplied for its place, and no fragment covers the next place |
| `CryptoStream.PrefixEndsAtLeastGap` | src/gate.rs:898-923 | the result ends at the least offset no fragment covers |
| `CryptoStream.SlicesGivePrefix` | src/gate.rs:898-923 | fragments of one stream give a prefix of it |
| `CryptoStream.OrderAndOverlapDoNotMatter` | src/gate.rs:898-923 | two sets of fragments of one stream that cover the same bytes give the same result |
| `CryptoStream.CoveredStretch` | src/gate.rs:898-923 | covering a stretch from 0 is enough to have it |
| `CryptoStream.SingleFragment` | src/gate.rs:902-907 | the borrowed path for one frame at offset 0 agrees with the general one |
| `CryptoStream.InsertFragment` | src/gate.rs:898-900 | one step of a stable sort by offset |
| `CryptoStream.ReadStream` | src/gate.rs:898-923 | the sort, the shortcut and the appending loop give the prefix, or nothing when it is empty |
| `CryptoStream.SkipVarints` | src/gate.rs:926-932 | what is left after a number of varints |
| `CryptoStream.ReadFrame` | src/gate.rs:853-895 | one frame: its fragment, what follows it, or the end of the walk |
| `CryptoStream.SkipAck` | src/gate.rs:859-872 | what is left after an ACK or ACK_ECN frame |
| `CryptoStream.WalkFrames` | src/gate.rs:849-896 | the walking loop collects the fragments of the recursive walk |
| `CryptoStream.WalkEncoded` | src/gate.rs:849-896 | any list of PADDING, PING, ACK, ACK_ECN, CRYPTO and CONNECTION_CLOSE frames gives back exactly its CRYPTO fragments |
| `CryptoStream.UnknownFrameEndsWalk` | src/gate.rs:892-896 | a frame of another type ends the walk with what was found |
| `CryptoStream.StepStands` | src/gate.rs:853-895 | what a frame says stands whatever follows it |
| `CryptoStream.CutFrameBreaksWalk` | src/gate.rs:853-891 | a frame cut short anywhere, after any whole ones, ends the walk with nothing |
| `ClientHello.VerdictStands` | src/gate.rs:969-992 | any verdict but Truncated on a non-empty input is unchanged by appending bytes |
| `ClientHello.TruncatedExactlyWhenShort` | src/gate.rs:969-992 | a ClientHello reads as Truncated exactly when fewer than 4 plus its declared length bytes are present |
| `ClientHello.VectorRoundTrip` | src/gate.rs:1076-1086 | a length-prefixed vector comes back with what follows it |
| `ClientHello.FindEncodedHost` | src/gate.rs:1022-1036 | the first host_name of an encoded list is found |
| `ClientHello.FindEncodedServerName` | src/gate.rs:1005-1015 | the first server_name extension decides; later ones are not looked at |
| `ClientHello.HelloIsRead` | src/gate.rs:969-1036 | every well-formed ClientHello, whatever follows it, gives the host it asks for |
| `ClientHello.NamedExactly` | src/gate.rs:969-1036 | a stream names a host if and only if it begins with a ClientHello laid out with that host_name first in its first server_name extension |
| `ClientHello.OtherVerdicts` | src/gate.rs:969-992 | the other verdicts by the bytes: another message type, a message not all there, and a whole one that names nobody |
| `ClientHello.Reader.TakeBytes` | src/gate.rs:1055-1059 | takes exactly that many bytes or moves nothing |
| `ClientHello.Reader.TakeVector` | src/gate.rs:1061-1086 | a one- or two-byte length and then that many bytes |
| `ClientHello.ReadHostName` | src/gate.rs:1022-1036 | the reading loop over name entries |
| `ClientHello.ReadServerName` | src/gate.rs:995-1015 | the vectors before the extensions, then the scan |
| `ClientHello.ScanExtensions` | src/gate.rs:1005-1014 | the loop over extensions |
| `ClientHello.ReadFirstFlight` | src/gate.rs:969-992 | the verdict on reassembled handshake bytes |
| `Gate.Initial` | src/gate.rs:779-837 | all offsets it gives are in order and inside the datagram, and the connection ID has at most 20 bytes |
| `Gate.ParseInitial` | src/gate.rs:793-836 | the cursor reading gives those offsets or nothing |
| `Gate.InitialRoundTrip` | src/gate.rs:793-836 | the header of a well-formed Initial is read at its sender's offsets, whatever follows it |
| `Gate.InitialExactly` | src/gate.rs:793-836 | a header is read if and only if the datagram has the parts of an Initial with connection IDs of at most 20 bytes, and at the offsets of those parts |
| `Gate.AcceptsIsSameName` | src/gate.rs:221-271 | a name is accepted if and only if it equals a configured one letter by letter up to ASCII case, one trailing dot taken off each |
| `Gate.WholeHelloIsJudged` | src/gate.rs:535-553 | a whole ClientHello gets the verdict it deserves, however it is cut, reordered, repeated and mixed with other frames |
| `Gate.PartialHelloPasses` | src/gate.rs:535-553 | a ClientHello of which any byte is missing is passed on |
| `Gate.InitialIsJudged` | src/gate.rs:435-554 | both, for a whole datagram whose packet opens to those frames |
| `Gate.VerdictByFirstBytes` | src/gate.rs:435-483 | short headers and short datagrams pass, other versions are refused by number, other packet types and Initials under 1200 bytes pass |
| `Gate.VerdictByHeader` | src/gate.rs:485-539 | an Initial without a readable header or that does not open passes, one with a connection ID under eight bytes is refused whatever it opens to, any other is judged by its frames |
| `Gate.NoBeginningPasses` | src/gate.rs:535-539 | frames that do not walk, or do not cover the first byte of the stream, pass |
| `Gate.OtherMessageRefused` | src/gate.rs:541-545 | a stream whose first byte is not 1 is refused |
| `Gate.BlindedHasNoHeader` | src/gate.rs:772-776 | a blinded datagram has no readable header; blinding twice is blinding once |
| `Gate.ScreenBatch` | src/gate.rs:688-700 | exactly the refused datagrams of a batch lose exactly one byte, each judged on its own bytes as they arrived |
| `Gate.SegmentScreened` | src/gate.rs:688-700 | said of whole datagrams: the refused ones are blinded, the others left alone |
| `Gate.ScreenReceived` | src/gate.rs:666-703 | after screening, every datagram is passed and as it arrived, or refused and without a readable header; with no names configured nothing changes |
| `Resolver.StepConserves` | src/net.rs:195-340 | every step keeps every semaphore in order: free plus held is its size, none is free while a lookup waits, the queue is who waits |
| `Resolver.PermitsConserved` | src/net.rs:195-340 | on every interleaving: 128 shared permits, one reserved and 32 burst permits per connection, open or closed, each free or held |
| `Resolver.SharedWithinBurst` | src/net.rs:292-340 | a connection holds at most 32 shared permits |
| `Resolver.WaiterReturnsItsPermits` | src/net.rs:292-320 | a waiter that gives up leaves every queue, and each permit it had goes to the next in line or back |
| `Resolver.SlotOutlivesCaller` | src/net.rs:85-116 | a slot stays held on every run until its thread ends, whether or not its caller gave up or its connection closed |
| `LookupQueue.OthersCannotTouch` | src/net.rs:207-215 | no step of another connection changes a connection's own semaphores |
| `LookupQueue.FreeReservedIsGranted` | src/net.rs:313-319 | a lookup that asks gets its reserved permit at once exactly when no lookup of its connection has it, whatever others hold |
| `LookupQueue.WaitsForOwnConnection` | src/net.rs:272-320 | otherwise exactly one lookup of the same connection has it |
| `LookupQueue.ServedInTurn` | src/net.rs:272-320 | a waiter with k earlier ones is handed the reserved permit by the time it has been let go of k + 1 times, unless it went away or got a shared slot before |
| `LookupQueue.PollOutcome` | src/net.rs:292-320 | one poll takes a free reserved permit before anything shared is touched, and a lookup it leaves waiting is in both queues |
| `BlockingPool.ThreadsCounted` | src/net.rs:85-116 | threads in the resolver are the shared ones and one for each connection, open or closed, whose reserved lookup runs |
| `BlockingPool.PoolSizes` | src/net.rs:176-187 | the limit up to 1024, or 1024 without one or above it, and 192 more |
| `BlockingPool.ThreadBound` | src/net.rs:85-187 | on every run at most 128, plus one per open connection, plus one per closed connection whose reserved lookup still runs |
| `BlockingPool.ClearExactlyWhenRoomIsLeft` | src/net.rs:145-187 | the 64 threads kept clear are clear if and only if such closed connections are no more than what open connections and the shared allowance leave unused |
| `BlockingPool.ClearWithoutLeftovers` | src/net.rs:161-187 | so they are clear while open connections are within the limit and no closed one is still in the resolver |
| `BlockingPool.PoolCanBeOutgrown` | src/net.rs:161-187 | for every limit, a run that never has two connections open needs more threads than the whole pool has |
| `Routing.TableMirrorsSession` | src/h3/connection.rs:193-292 | on every run each queue holds exactly what its session took in and has not read |
| `Routing.SessionReadsInOrder` | src/h3/connection.rs:193-292 | what a session has read and what is queued are, in order, exactly the payloads for it that arrived while it was claimed with its queue below 64 |
| `Routing.KeysAreLiveReceivers` | src/h3/connection.rs:193-208 | the table's keys are exactly the ids claimed and not released |
| `Routing.EveryDatagramIsAccountedFor` | src/h3/connection.rs:216-292 | every datagram that does not close the connection is taken in by one session or counted once, in the total and under the one shape its session's history gives it |
| `Routing.CutShortIsDropped` | src/h3/connection.rs:868-917 | on every run, a datagram cut short in its Context ID adds one to the malformed count and the total, and the router goes on |
| `Routing.NoStreamIdCloses` | src/h3/connection.rs:868-917 | one cut short in its Quarter Stream ID, or with one from 2^60 on, stops the router and counts nothing |
| `Routing.WholeDatagramArrives` | src/h3/connection.rs:216-269 | a context-0 payload for a live session with fewer than 64 queued is queued last; any other is dropped under its own count |
| `Routing.Shared.Record` | src/h3/connection.rs:175-185 | the first reason is kept, and is the one reported |
| `Routing.Shared.RegisterDatagrams` | src/h3/connection.rs:193-208 | claims a free id or reports that it is taken |
| `Routing.Shared.CountDropped` | src/h3/connection.rs:281-292 | one shape and the total, each by one |
| `Routing.Shared.DeliverDatagram` | src/h3/connection.rs:216-269 | delivery or the one drop that applies |
| `Routing.Shared.RouteDatagram` | src/h3/connection.rs:868-917 | decodes and delivers, or records the error and stops |
| `Routing.Shared.ReceivePayload` | src/h3/connection.rs:376-390 | the oldest queued payload |
| `Routing.Shared.DropReceiver` | src/h3/connection.rs:392-396 | removes the id and its queue |
| `Goaway.InvariantHolds` | src/h3/connection.rs:664-737 | on every run the identifier is four past the last accepted request, clamped, and does not move |
| `Goaway.GoawayIsSafe` | src/h3/connection.rs:664-737 | all identifiers sent are equal and fit a varint; every request ever handed over is below every identifier ever sent; what is handed over is what arrived before the first GOAWAY |
| `Goaway.IdentifierIsNextRequest` | src/h3/connection.rs:714-795 | every identifier is 0 with nothing handed over, else the last id plus 4 or 2^62 - 1 if that is less; below that it is the least multiple of 4 above everything handed over |
| `Goaway.IdentifiersNeverIncrease` | src/h3/connection.rs:684-724 | whatever ids arrive in whatever order, identifiers never increase, fit a varint, and nothing at or past the last one is handed over |
| `Goaway.LateArrivalIsPast` | src/h3/connection.rs:790-795 | a stream opened after a GOAWAY has an id at or past its identifier, at the clamp too |
| `Goaway.Server.Offer` | src/h3/connection.rs:684-699 | hands a request over or turns it away |
| `Goaway.Server.StartShutdown` | src/h3/connection.rs:714-737 | sends the smaller of the earlier and the new identifier |
| `ControlStream.AcceptedExactlyWhenConforming` | src/h3/connection.rs:1131-1245 | a control stream is accepted if and only if it begins with its one SETTINGS, carries only frames allowed there, its GOAWAY ids do not grow and its push ids do not shrink |
| `ControlStream.FirstFaultDecides` | src/h3/connection.rs:1131-1245 | the first item that breaks the rules decides the error code |
| `ControlStream.PeerControl.AcceptItem` | src/h3/connection.rs:1131-1245 | one item's effect on the state, or its error and no effect |
| `Qpack.ChunksDoNotMatter` | src/h3/connection.rs:1365-1381 | where the stream is cut into chunks changes nothing |
| `Qpack.EncoderStreamAccepts` | src/h3/connection.rs:1395-1429 | exactly the streams of "capacity zero" instructions |
| `Qpack.EncoderStreamRefuses` | src/h3/connection.rs:1395-1429 | what every other instruction is refused for |
| `Qpack.CancellationsAccepted` | src/h3/connection.rs:1431-1459 | every concatenation of Stream Cancellations for ids below 2^62 is accepted, and each ends ready for the next |
| `Qpack.DecoderStreamAccepts` | src/h3/connection.rs:1289-1331 | accepted, in any chunks, if and only if it is whole instructions of the Stream Cancellation form and then at most one begun, with at most nine continuation bytes each, whatever their integers |
| `Qpack.DecoderStreamRefuses` | src/h3/connection.rs:1314-1459 | what every other instruction, and a tenth continuation byte, is refused for |
| `Qpack.CancellationCarriesId` | src/h3/connection.rs:1431-1459 | the encoding of an id below 2^62 is one whole instruction, and its integer is that id |
| `Qpack.PastTheLimitAccepted` | src/h3/connection.rs:1314-1331 | a whole instruction whose integer is 2^62 + 63 is accepted |
| `Qpack.LegalExactlyWhen` | src/h3/connection.rs:1289-1331 | an accepted stream is the start of Stream Cancellations for ids below 2^62 if and only if each whole instruction's integer is below 2^62 and the begun one has fewer than nine continuation bytes |
| `Qpack.LegalStreams` | src/h3/connection.rs:1289-1381 | every such start is accepted in any chunks, and the condition holds for every stream |
| `Qpack.BegunCanFinish` | src/h3/connection.rs:1314-1331 | a begun instruction starts a whole one for an id below 2^62, and can be continued at all, if and only if it has fewer than nine continuation bytes |
| `Qpack.Reader.TakeByte` | src/h3/connection.rs:1314-1330 | one byte's effect on the progress |
| `Qpack.Reader.TakeChunk` | src/h3/connection.rs:1375-1380 | all bytes of a chunk in order, up to the first violation |
| `Base64.DecodeInvertsEncode` | src/auth.rs:351-399 | every non-empty byte string comes back from its encoding |
| `Base64.DecodesExactly` | src/auth.rs:351-399 | a text decodes to `b` if and only if it is the canonical text of `b` up to the unused low bits of its last significant character |
| `Base64.QuantumValue` | src/auth.rs:361-384 | what one quantum decodes to, character by character, and when it does |
| `Base64.DecodeBase64` | src/auth.rs:351-387 | the loop over quanta |
| `Base64.DecodeQuantum` | src/auth.rs:368-383 | the loop over one quantum's characters |
| `Auth.CheckAccepts` | src/auth.rs:245-287 | for users with colon-free names, a value is accepted for a name if and only if it decodes to that user's name, colon and password |
| `Auth.IsBasicExactly` | src/auth.rs:334-336 | the scheme is the five letters of "basic", each in either case |
| `Auth.NoSchemeRefused` | src/auth.rs:245-250 | bytes that are not text, and text without a space |
| `Auth.OtherSchemeRefused` | src/auth.rs:250-252 | another word before the first space, or a token that is the text of no bytes |
| `Auth.NoColonRefused` | src/auth.rs:256-261 | a token that spells bytes without a colon |
| `Auth.PairChecked` | src/auth.rs:262-287 | a token that spells name, colon and password is accepted for a configured pair and refused under its name otherwise |
| `Auth.CanonicalValueAccepted` | src/auth.rs:329-341 | "Basic", or the word in any case, then spaces and the canonical base64 of a configured user's name, colon and password is accepted |
| `Auth.VerifyFinds` | src/auth.rs:274-287 | the scan finds a pair if and only if it is configured |
| `Auth.VerifyPair` | src/auth.rs:274-287 | the loop that never stops early |
| `Auth.CheckValue` | src/auth.rs:245-268 | one value, and each way it can be refused |
| `Auth.Authenticate` | src/auth.rs:224-242 | the first value that matches, or one refusal per value in order and at least one |
| `Auth.AuthenticateConfigured` | src/auth.rs:224-287 | success if and only if some value spells a configured user; a refusal is charged max(1, number of values) |
| `Redact.ClosingQuote` | src/config.rs:1372-1395 | the stepping loop finds the closing quote |
| `Redact.RedactQuoted` | src/config.rs:1330-1351 | the shrinking loop computes the redaction |
| `Redact.RenderingIsRedacted` | src/config.rs:1330-1395 | a double-quoted rendering is replaced whole and the redaction goes on right after it |
| `Redact.SecretsDoNotShow` | src/config.rs:1303-1395 | the result is the same for every secret |
| `Redact.BacktickedIsRedacted` | src/config.rs:1330-1395 | a backtick segment runs to the next backtick, escapes or not |
| `Redact.UnclosedIsRedacted` | src/config.rs:1330-1395 | a segment that is not closed, a last lone backslash included, swallows the rest |
| `Redact.PlainIsUnchanged` | src/config.rs:1330-1351 | a message without a backtick or a double quote is left as it is |
| `Redact.RedactionIsIdempotent` | src/config.rs:1303-1395 | redacting twice is redacting once |

## Left out

- quinn's own BBR: its window is a parameter of `BbrCapped.Controller.Window`, and its initial window a constant.
- Key derivation and the AEAD of Initial packets: `decrypt` is a parameter of `Gate.JudgeDatagram`.
- rustls, tokio scheduling and timers, sockets, TLS loading, signals and the command line: foreign code or plumbing.
- The results of name resolution and the ordering of addresses by family: not part of the budget protocol.
- Configuration ranges, defaults and warnings, and destination policy masks: each is settled by reading one branch.
- HTTP field, token and status syntax, error-code names and log formatting: easy members.
- The HTTP/3 frame decoder, QPACK field sections, request building and tunnel quota.
- Constant-time comparison, atomic memory ordering and log text: no functional contract expresses them.
- The doubling schedule on which drops and skipped frames are logged: only the counts are modelled.
- Resolver: modelled on values, as steps of single permits between first-come, first-served semaphores; tokio's cooperative budget, which can delay a poll, is not modelled; the limit on open connections is a hypothesis where it is needed; closing a connection does not cancel its lookups, whose tasks are detached (src/conn.rs:190), and they may give up at any step.
- Routing: a receiver that is closed is taken to be dropped at the same moment; the wait of an empty queue is an empty answer.
- Gate.JudgeDatagram: a name that is not UTF-8 is compared by its bytes like any other, since no configured name equals it; counts and log lines of refusals are not modelled.
- ControlStream: the contents of SETTINGS other than the datagram flag, and the counting of skipped frames, are not modelled.
- Auth: the shortening of a refused user name for the log is not modelled; whether a field value is UTF-8 is a flag of the value.
- Redact: a message is the sequence of its UTF-8 bytes, each written as one character.
- Goaway: what QUIC guarantees of client stream ids, that they increase and are multiples of four, is a hypothesis.
- DeliveryRate.Estimator: the interval counter is a natural number and does not wrap at 2^64.
