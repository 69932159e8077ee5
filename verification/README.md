# A verified model of knotty

knotty is an RPC framework (XIC), its binary serializer (VBS) and a pipeline
that ships log records from many machines to a center (dlog). This project
models the parts of it whose correctness is not visible in any one function,
and proves what they promise.

- **dlog** (`Dlog*.dfy`). Records are composed, read from clients' streams in
  arbitrary pieces, packed into blocks, and shipped in batches over links that
  may break at any moment; anonymous acknowledgement bytes say how many blocks
  arrived. The delivery protocol is a state machine over the steps of the log
  thread, the sender thread and the center (`DlogDelivery`); the classes in
  `DlogReader`, `DlogPack` and `DlogDaemon` are the code's own loops and fields,
  each proved against its function in the machine.
- **VBS** (`Vbs*.dfy`, `VWriter.dfy`, `VBuilder.dfy`, `VWriterVbs.dfy`). The
  Java encoder and decoder with their number formats and the splitting of
  doubles, the scalars as the C library packs them (`VbsPack.dfy`), and the C++
  writers that build nested lists and dicts piece by piece on the heap. One set
  of definitions encodes for both; `Writer` says for which. `VbsFormat` states
  the format itself, byte by byte, and `VbsTags` how a decoder goes by it.
- **XIC** (`Xic*.dfy`). The opening of a connection with its authentication and
  nonces, a server and a client that are sent anything, graceful closing, one
  reply for every quest, and the results of quests over many connections, retries
  and disconnects. The code is that of the cooperative-thread engine; a step is
  what it does between two points where a thread may yield.
- **IpMatcher** (`IpAddress.dfy`, `IpMatcher.dfy`), **LruHashMap**
  (`LruSpec.dfy`, `LruHashMap.dfy`) and **FcgiClient** (`FcgiClient.dfy`): a
  sorted vector of network prefixes, a hash map whose nodes also hang in a
  recency list, and a connection pool with a request queue.

I/O, clocks and the network appear as parameters or as free choices: how many
bytes a read returns, whether a connect or a write succeeds, when a link breaks.
A statement about runs is about every sequence of such choices.

Where the code and its documentation differ, the model follows the code:

- `doc/vbs.rst` gives negative zero and negative infinity their own encodings;
  the Java encoder drops the sign, so they come back positive, and it writes zero
  as `1E 40` where the C library writes `1E 41`. From Java the most negative long
  comes back as zero; the C library writes it in full. A map with a null key
  comes back as null.
- `doc/xic.rst` puts an initialization vector before an encrypted body; the code
  sends the body and its authentication code and takes the nonce from a counter.
- `doc/xic.rst` says that a hello goes from the server to the client. The code
  takes one from either side: a server that has asked for a secret becomes active
  when it is sent a hello, without any proof (`XicHandshake.HelloLetsIn`), and so
  does a client that has a secret (`XicClient.HelloIsTaken`).
- The sender tests its batch limit after moving a block, so a batch holds up to
  `BATCH_SIZE + 1` blocks. Its acknowledgements are read into an array of
  `BATCH_SIZE` bytes (`dlog/dlogd.cpp:555`), one too few for a full batch
  (`DlogProgress.AcksFitExactly`).
- A FastCGI quest is retried "at most once" only after a failed read. When its
  request cannot be written, or the connection is closed from outside, it goes
  back to the queue however often that happened (`FcgiClient.RequeuedTwice`).
- A FastCGI pool can hold more connections than its maximum: it fixes how many to
  open before it opens them, and a connect that fails at once opens others in
  between (`FcgiClient.OverTheMaximum`).
- A FastCGI write that was cut short goes on without a look at what the
  connection is doing now. If the answer comes before the request is written,
  the rest of the old request counts as the next one
  (`FcgiClient.FcgiConnection.OvertakenIsNotSent`), or an assertion fails
  (`FcgiClient.FcgiConnection.OvertakenMeetsAssertion`).

## Model

| member | source | states |
|---|---|---|
| DlogRecord.HeadFields | dlog/dlog_imp.c:126-162 | every field of a record is read back from its head bytes, in either byte order, whatever follows |
| DlogRecord.PutIdentityTagLocus | dlog/dlog_imp.c:83-124 | the front of the text is identity or program name, tag and locus, each cut to its limit or a dash |
| DlogRecord.PutContent | dlog/dlog_imp.c:140-153 | the content is cut so that the NUL fits, and the record is marked truncated exactly if it was cut |
| DlogRecord.TrimTail | dlog/dlog_imp.c:155-158 | the loop removes exactly the newlines at the end and stops before the prefix |
| DlogRecord.TrimIsUnique | dlog/dlog_imp.c:155-158 | the three properties of a trimmed text leave only one text |
| DlogRecord.Compose | dlog/dlog_imp.c:126-162 | every composed record is well formed; its text is the trimmed, clipped concatenation of its parts; truncation is flagged exactly when it happens |
| DlogRecord.PartsOfText | dlog/dlog_imp.c:83-162 | where the identity, or else the program name, the tag, the locus and the content lie in every composed text, each cut to its limit or a dash |
| DlogReader.FrontIsStable | dlog/dlogd.cpp:1121-1178 | bytes that arrive later never change a decision already taken about the front of a stream |
| DlogReader.ParseResumes | dlog/dlogd.cpp:1361-1419 | parsing may stop anywhere and go on from the unfinished record alone, with the same result as one parse |
| DlogReader.LoggedAreWellFormed | dlog/dlogd.cpp:1121-1178 | whatever bytes a client sends, every record that is logged is well formed |
| DlogReader.FinishedInverse | dlog/dlogd.cpp:1144-1178 | a record sent in either byte order is logged with its own fields, the peer's port and local order |
| DlogReader.ComposedIsSendable | dlog/dlog_imp.c:126-162 | composed records pass all checks of the reader unchanged but for the port |
| DlogReader.StreamRoundTrip | dlog/dlogd.cpp:1361-1419 | every record of a stream is recovered in order, oversized ones cut to the maximum without losing the start of the next |
| DlogReader.DlogWorker.ReadHead | dlog/dlogd.cpp:1371-1387 | one resumption inside a head keeps the reader in step with the one-shot parse of all bytes seen |
| DlogReader.DlogWorker.ReadOn | dlog/dlogd.cpp:1389-1416 | the same for one resumption in the body or in the skipped rest of an oversized record |
| DlogReader.DlogWorker.WidenV5 | dlog/dlogd.cpp:1156-1173 | the text of a version 5 record is moved in place to where version 6 has it |
| DlogReader.DlogWorker.Complete | dlog/dlogd.cpp:1144-1178 | the in-place completion of a record computes what the specification says, or the alert |
| DlogReader.DlogWorker.DoRead | dlog/dlogd.cpp:1361-1419 | wherever reads are cut short, what is logged is a prefix of the one-shot parse, and all of it once the input is used up |
| DlogReader.DlogWorker.Hangup | dlog/dlogd.cpp:1371-1419 | when the stream ends or fails, what was logged is the parse of all bytes seen, with an error behind it unless the stream ended between records or inside a head |
| DlogVersions.TakenExactlyIf | dlog/dlogd.cpp:1121-1155 | which byte sequences are records that dlogd takes: version 3 to 6, raw, locus and size in range, ended by a NUL unless too long |
| DlogVersions.OldRecordsAreWidened | dlog/dlogd.cpp:1157-1178 | a record of version 3 to 5 is logged with its own fields in version 6, cut and marked exactly if it has no room behind the longer head |
| DlogVersions.OldRecordsArePrinted | dlog/dlog_center.cpp:828-850 | the center prints a record of version 5 with the fields and the text of its shorter head |
| DlogPack.CopyAndReplace | dlog/dlogd.cpp:172-188 | the scanning loop rewrites exactly the line feeds and the carriage returns right before one |
| DlogPack.WalkFront | dlog/dlog_center.cpp:796-867 | the record at the front of a block is accepted, measured and printed as it was packed |
| DlogPack.WalkRecoversPacked | dlog/dlog_center.cpp:796-867 | walking a block recovers exactly the records packed into it, in order, with no record error |
| DlogPack.PrintedFields | dlog/dlog_center.cpp:853-881 | each line has the fields of its record, the time put forward by the difference of the clocks, and its text with the newlines replaced byte by byte |
| DlogPack.LinesAreSingle | dlog/dlogd.cpp:172-188 | no printed text contains a line feed |
| DlogPack.PackedAppends | dlog/dlogd.cpp:237-240 | packing one more record appends its bytes |
| DlogPack.PrintRecord | dlog/dlog_center.cpp:814-867 | one step of the walk prints the record at the cursor and moves to the next without touching it |
| DlogPack.WalkPacket | dlog/dlog_center.cpp:796-867 | the walk over the packet's bytes computes the specified lines and error |
| DlogDelivery.LogKeepsGood | dlog/dlogd.cpp:190-241 | logging a record keeps the whole invariant of the protocol |
| DlogDelivery.SettleKeepsGood | dlog/dlogd.cpp:567-579 | releasing the acknowledged blocks and putting the others back to the queue's front keeps it |
| DlogDelivery.WriteKeepsGood | dlog/dlogd.cpp:491-550 | sending the next block of a batch keeps it |
| DlogDelivery.ReadAckKeepsGood | dlog/dlogd.cpp:552-565 | reading acknowledgement bytes keeps it |
| DlogDelivery.ReceiveKeepsGood | dlog/dlog_center.cpp:605-655 | the center's receipt of a block, with its acknowledgement sent, held back or failed, keeps it |
| DlogDelivery.StepKeepsGood | dlog/dlogd.cpp:475-580 | every step of both parties, and a break at any moment, keeps the invariant |
| DlogDelivery.NoBlockIsLost | dlog/dlogd.cpp:475-580 | in every run each block ever opened is still held, or was given up for want of room, or is at the center; none is released before the center has it |
| DlogDelivery.LiveBlocksAreInOrder | dlog/dlogd.cpp:475-580 | batch, queue and open block are in creation order and account for all of the pool |
| DlogDelivery.FirstReceiptsAreInOrder | dlog/dlogd.cpp:475-580 | a block first received after a younger one is one that had been given up |
| DlogDelivery.AcksBalance | dlog/dlog_center.cpp:661-686 | on every link receipts equal acknowledgements read, in flight and due, and never exceed what was sent |
| DlogAcks.AcksAreUsed | dlog/dlogd.cpp:549-579 | in every run the blocks released, and those about to be, are as many as the acknowledgements ever read: a break right after one loses none |
| DlogDelivery.LargePoolAlwaysHasRoom | dlog/dlogd.cpp:214-235 | a pool larger than a batch always has a block for a record |
| DlogDelivery.RecordsAreKeptInOrder | dlog/dlogd.cpp:190-241 | every record handed to the log thread is in exactly one place of one block, in order |
| DlogDelivery.RecordsArrive | dlog/dlog_center.cpp:796-867 | end to end: a record is in a block still held or given up, or the center prints it at its place without error |
| DlogProgress.EverythingCanBeDelivered | dlog/dlogd.cpp:475-580 | no run gets stuck: each can go on until nothing is left to send and nothing more was given up |
| DlogProgress.SmallPoolCanRunDry | dlog/dlogd.cpp:214-230 | with a pool of at most 129 blocks some run leaves the log thread no block to give up, all of them being in a batch |
| DlogProgress.RoomForEveryRecord | dlog/dlogd.cpp:214-230 | the log thread can place every record in every run exactly if the pool is larger than a batch |
| DlogProgress.BatchOf | dlog/dlogd.cpp:475-489 | some run takes a batch of any size up to 129, if the pool has as many blocks |
| DlogProgress.LongBatchIsRead | dlog/dlogd.cpp:552-565 | with a pool of more than 128 blocks some run comes to read the 129 acknowledgements of a full batch |
| DlogProgress.AcksFitExactly | dlog/dlogd.cpp:552-565 | in every run the acknowledgements to be read fit in 128 bytes, exactly if the pool has no more than 128 blocks |
| DlogBlocks.RecordThatFits | dlog/dlogd.cpp:214-240 | a record that fits goes into the open block, and nothing else changes |
| DlogBlocks.RecordThatDoesNotFit | dlog/dlogd.cpp:214-240 | any other opens one new block; a block is given up for it exactly if the pool is exhausted, the oldest in the queue |
| DlogBlocks.BlocksAreGreedy | dlog/dlogd.cpp:214-240 | in every run, by records and flushes alone: a record begins a block exactly if it is the first, or follows a flush, or does not fit behind the one before it |
| DlogDaemon.Dlogd.NextBlock | dlog/dlogd.cpp:214-235 | taking a new block, or giving up the oldest, is the specified change of state |
| DlogDaemon.Dlogd.DoLog | dlog/dlogd.cpp:190-241 | the code logs a record as specified: in the open block exactly if the packet stays within 65280 bytes, otherwise in a new one |
| DlogDaemon.Dlogd.FlushStep | dlog/dlogd.cpp:360-367 | the flush moves an open, non-empty block to an empty queue and nothing else |
| DlogDaemon.Dlogd.TakeBatch | dlog/dlogd.cpp:475-489 | the loop takes the batch the protocol takes |
| DlogDaemon.Dlogd.SettleBatch | dlog/dlogd.cpp:567-579 | release and requeue loops together are the settle step |
| DlogDaemon.Worker.DoWrite | dlog/dlog_center.cpp:661-680 | whatever the socket takes, bytes written and bytes still due add up |
| DlogDaemon.Worker.SendAck | dlog/dlog_center.cpp:682-686 | one more acknowledgement is due, and some are written |
| VbsNumber.UnpackIntStr | java/Vbs.java:246-261 | a number in groups of seven bits with its kind in the last byte is read back, the cursor right behind it |
| VbsNumber.UnpackNumTag | java/Vbs.java:235-244 | the same for a number followed by its tag byte |
| VbsNumber.UnpackPackedInteger | java/Vbs.java:413-559 | every long that Java packs is read back, the most negative one as zero |
| VbsNumber.UnpackNativeInteger | xslib/vbs_pack.c:753-757 | every integer that the C library packs is read back by Java, the most negative one too |
| VbsFormat.WritesOnce | java/Vbs.java:235-261 | a number has exactly one shortest head: groups of seven bits, low ones first, and a last byte counted from a base |
| VbsDouble.FindFirstBitSet | java/Vbs.java:274-287 | the loop finds the lowest bit set |
| VbsDouble.FindLastBitSet | java/Vbs.java:289-299 | the loop finds the highest bit set |
| VbsDouble.Break | java/Vbs.java:307-340 | the code splits a double as specified |
| VbsDouble.Make | java/Vbs.java:342-404 | the code rebuilds a double as specified |
| VbsDouble.RebuildFinite | java/Vbs.java:274-404 | for every finite non-zero double, normal or subnormal, rebuilding gives the same bits and the significand is odd |
| VbsDouble.RebuildExactly | java/Vbs.java:307-404 | a double survives exactly if it is neither negative zero nor negative infinity |
| VbsDouble.RebuildNative | xslib/vbs_pack.c:125-174 | Java rebuilds every double that the C library splits, with the sign of zero and infinity; any NaN becomes the one of Java |
| VbsDouble.LongSignificandIsCut | java/Vbs.java:342-404 | of a significand too long for a double the nearest double towards zero is made |
| VbsDouble.PartsAgree | xslib/vbs_pack.c:125-174 | both split alike but for zero and negative infinity |
| VbsRoundTrip.DecodeAtEncoding | java/Vbs.java:601-664 | decoding an encoding, by Java or by the C library, anywhere in a buffer gives the value's image and leaves the cursor behind it |
| VbsRoundTrip.ImageIsExact | java/Vbs.java:190-233 | the image is the value itself exactly if no scalar in it is one that the encoder or decoder changes, and no key is repeated |
| VbsRoundTrip.DecodedHasNoNullKeys | java/Vbs.java:582-599 | no decoded map at any depth has a null key |
| VbsRoundTrip.RoundTrip | java/Vbs.java:160-272 | an encoding followed by anything decodes to the value, cursor at the rest, if and only if the value is of the kind preserved from that encoder |
| VbsRoundTrip.PrefixFree | java/Vbs.java:160-272 | no encoding is the beginning of another, whichever encoder wrote them |
| VbsFormat.DoubleBytes | java/Vbs.java:307-340 | the bytes of every double: its odd significand and the power of two, or the literal bytes of zero, infinity and NaN, by writer |
| VbsFormat.EncodesFormat | java/Vbs.java:117-272 | the encoder writes, for every value, exactly the one byte sequence that the format has for it: tags, heads, and ends of containers as literal bytes |
| VbsTags.DecodedByTag | java/Vbs.java:413-665 | in any buffer the last byte of a tag decides what is decoded, and its groups the number or how many bytes |
| VbsTags.DescriptorIsSkipped | java/Vbs.java:413-470 | a descriptor of one byte in front of a tag changes nothing in what is decoded |
| VbsTags.LongDescriptorIsSkipped | java/Vbs.java:413-560 | one of several bytes changes nothing if its number is from 1 to 0x7ffe, and is an error otherwise |
| VbsTags.SecondDescriptorIsNull | java/Vbs.java:413-560 | a second descriptor of the same kind is an error |
| VbsTags.TooLongIsNull | java/Vbs.java:413-560 | a number that does not fit into 64 bits, or has more than ten groups, is an error |
| VbsStream.Packer.PackInteger | java/Vbs.java:246-261 | the loop writes the specified bytes of an integer |
| VbsStream.Packer.Pack | java/Vbs.java:190-233 | the code writes the specified bytes of any value, which by `VbsFormat.EncodesFormat` are those of the format |
| VbsStream.DecodeCtx.NextTag | java/Vbs.java:413-559 | the cursor-moving reader of tags computes the specified tag |
| VbsStream.DecodeCtx.Next | java/Vbs.java:601-664 | the cursor-moving decoder computes the specified value |
| VbsPack.LsbFind | xslib/bit.c:293-308 | halving finds the lowest bit set |
| VbsPack.BreakDoubleValue | xslib/vbs_pack.c:125-174 | the code splits the bits of a double as specified |
| VbsPack.PackIntstr | xslib/vbs_pack.c:64-75 | the loop puts the specified bytes behind those in the buffer |
| VbsPack.PackTag | xslib/vbs_pack.c:91-105 | the same for a number and its tag |
| VbsPack.NumbersFit | xslib/vbs_pack.c:14-14 | no 64-bit number takes more than eleven bytes |
| VbsPack.BufferOfInteger | xslib/vbs_pack.c:753-757 | the buffer holds the specified bytes of any integer |
| VbsPack.BufferOfFloating | xslib/vbs_pack.c:759-773 | a buffer of 24 bytes has room for any double and holds its specified bytes |
| VWriter.TailClosesTop | xic/VWriter.cpp:100-114 | packing one tail is closing the innermost open container |
| VWriter.AddingAppends | xic/VWriter.h:287-296 | writing an item appends its encoding to what is open |
| VWriter.NestingAppends | xic/VWriter.cpp:171-177 | opening a container appends its key and head |
| VBuilder.Entity.EndTop | xic/VWriter.cpp:111-112 | ending an entity packs one tail and takes it off the chain |
| VBuilder.Entity.FinishChild | xic/VWriter.cpp:90-98 | everything open below a container is ended, the innermost first, and nothing else |
| VBuilder.Entity.Close | xic/VWriter.cpp:100-114 | closing an entity ends it and all below it, one tail each, and the bytes stay the encoding of what is described |
| VBuilder.Entity.Put | xic/VWriter.h:525-534 | a write closes what is open below and becomes one item |
| VBuilder.Entity.Open | xic/VWriter.h:662-671 | a new container is the only open child of the one it is opened in |
| VBuilder.OpenFirst | xic/VWriter.cpp:179-183 | the outermost container starts the chain |
| VBuilder.Entity.PutTree | xic/VWriter.h:801-857 | any tree written through writers that nobody closes is one item with that tree |
| VBuilder.Build | xic/VWriter.cpp:83-114 | a whole document built incrementally is the recursive encoding of what was described |
| VWriterVbs.TreesEncode | xslib/vbs_pack.c:1097-1195 | the description of a value has the bytes that the recursive encoder of the C library writes for it |
| VWriterVbs.BuiltIsReadBack | java/Vbs.java:601-664 | what the C++ writers are told, the Java decoder returns, exactly if every NaN is Java's own and no key is null or repeated |
| VWriterVbs.ScalarsAgree | xslib/vbs_pack.c:125-174 | of the scalars Java knows, the two encoders write exactly the most negative integer, both zeros and negative infinity differently |
| IpAddress.MemcmpOrdersBits | xic/IpMatcher.cpp:19-25 | comparing bytes is comparing addresses at the first bit in which they differ |
| IpAddress.MsbEqualAgrees | xslib/bit.c:148-170 | whole bytes and one shifted byte compare exactly the first n bits |
| IpAddress.ContainOrEqualIsContains | xic/IpMatcher.cpp:130-148 | the two comparisons mean containment and strict containment of networks |
| IpAddress.ContainsIsInclusion | xic/IpMatcher.cpp:130-138 | one network contains another exactly if it contains all its addresses |
| IpAddress.Laminar | xic/IpMatcher.cpp:130-138 | two networks around a common one lie one inside the other |
| IpAddress.BetweenIsInside | xic/IpMatcher.cpp:19-25 | what is sorted between a network and one inside it lies inside too |
| IpMatcher.Mask | xic/IpMatcher.cpp:62-71 | clearing bytes and bits in place gives the masked address |
| IpMatcher.MaskedKeepsThePrefix | xic/IpMatcher.cpp:62-71 | masking keeps the bits of the prefix and clears all others |
| IpMatcher.Aton | xic/IpMatcher.cpp:27-75 | a text is read as the network of exactly the addresses it names, and refused if it names none |
| IpMatcher.ReadAsNamed | xic/IpMatcher.cpp:27-75 | of an IPv4 text with a length n from 1 to 32 the first n bits of the last four bytes count, of any other with 1 to 128 the first n; without a length only the address itself; other lengths name nothing |
| IpMatcher.FourBytes | xic/IpMatcher.cpp:27-75 | the same on four bytes: a peer is named exactly if the first n bits of its address are those of the text |
| IpMatcher.FindUpperBound | xic/IpMatcher.cpp:85-85 | bisection finds the first network above the key |
| IpMatcher.FindLowerBound | xic/IpMatcher.cpp:182-182 | bisection finds the first network not below the key |
| IpMatcher.OnlyThePredecessor | xic/IpMatcher.cpp:206-220 | if any stored network covers the key, the one before the bound does |
| IpMatcher.IpMatcher.Insert | xic/IpMatcher.cpp:77-107 | an added network replaces those inside it and is refused exactly if one covers it; the vector stays sorted and without containment |
| IpMatcher.IpMatcher.DoReset | xic/IpMatcher.cpp:109-123 | after a reset the vector holds exactly the maximal networks among the texts |
| IpMatcher.IpMatcher.DoAdd | xic/IpMatcher.cpp:156-164 | a text is added exactly if it names a network that none stored covers, and the vector becomes the maximal networks of all |
| IpMatcher.IpMatcher.DoRemove | xic/IpMatcher.cpp:172-198 | a removal succeeds exactly if the vector is not empty and no stored network strictly contains the argument, and then drops what lies inside it |
| IpMatcher.IpMatcher.Match | xic/IpMatcher.cpp:206-220 | true exactly if one stored network covers the key |
| IpMatcher.IpMatcher.MatchText | xic/IpMatcher.cpp:227-235 | a text is found exactly if it names a network that one stored network covers |
| IpMatcher.IpMatcher.EmptyOrMatch | xic/IpMatcher.cpp:237-262 | for socket addresses: empty, or in the union of the stored ranges; never for other families |
| IpMatcher.CanonicalIsMaximal | xic/IpMatcher.cpp:77-107 | a vector without containment is its own set of maximal networks |
| IpMatcher.ChangesKeepMaximal | xic/IpMatcher.cpp:77-198 | after any change no stored network lies inside another |
| IpMatcher.AddressesAfter | xic/IpMatcher.cpp:77-198 | how reset, add and remove change the set of matched addresses |
| IpMatcher.MatchedByTexts | xic/IpMatcher.cpp:109-165 | after a reset exactly the addresses named by some text match, and an addition adds those that its text names |
| IpMatcher.RemovalSubtracts | xic/IpMatcher.cpp:172-198 | a successful removal takes away exactly the addresses of its network |
| IpMatcher.AddsGiveMaximal | xic/IpMatcher.cpp:77-123 | any row of additions leaves the maximal ones of all networks ever added |
| IpMatcher.CanonicalIsUnique | xic/IpMatcher.cpp:77-107 | the set of networks fixes the vector |
| IpMatcher.AddOrderDoesNotMatter | xic/IpMatcher.cpp:77-123 | the vector does not depend on the order or repetition of additions |
| IpMatcher.LookupAgainstUnion | xic/IpMatcher.cpp:206-235 | looking up a network agrees with the union of addresses exactly if no stored network lies strictly inside it |
| LruSpec.LatestOfOneMore | xslib/LruHashMap.h:198-231 | one more write supersedes the old one of its key and comes last |
| LruSpec.HoldsTheMostRecent | xslib/LruHashMap.h:198-231 | writing any history leaves exactly the latest writes of the most recently written keys, as many as fit |
| LruSpec.InsertedExactly | xslib/LruHashMap.h:167-195 | entry by entry: an insertion of a present key changes nothing, any other drops the stalest of a full map and adds the new one last |
| LruSpec.DrainedExactly | xslib/LruHashMap.h:303-312 | a drain takes the stalest entries, as many as asked, and leaves the others in their order |
| LruHashMap.RoundUpPowerTwo | xslib/bit.c:125-136 | the slot count is the least power of two, two or more, that is large enough |
| LruHashMap.LruList.Remove | xslib/LruHashMap.h:152-159 | unlinking a node of the recency list cuts it out and keeps all links |
| LruHashMap.LruList.InsertTail | xslib/LruHashMap.h:152-159 | linking a node at the fresh end |
| LruHashMap.LruList.InsertHead | xslib/LruHashMap.h:293-300 | linking a node at the stale end |
| LruHashMap.LruHashMap.constructor | xslib/LruHashMap.h:88-113 | an empty map with its capacity and the least power of two of slots that is enough, 32 or more |
| LruHashMap.LruHashMap.Locate | xslib/LruHashMap.h:128-141 | the walk of a chain finds the node of a key and the one before it, or there is none |
| LruHashMap.LruHashMap.Find | xslib/LruHashMap.h:128-141 | finds exactly the keys of the abstract map |
| LruHashMap.LruHashMap.Use | xslib/LruHashMap.h:145-163 | finds and makes the most fresh |
| LruHashMap.LruHashMap.FreshNode | xslib/LruHashMap.h:283-290 | the entry moves to the fresh end, all else stays |
| LruHashMap.LruHashMap.StaleNode | xslib/LruHashMap.h:293-300 | the entry moves to the stale end |
| LruHashMap.LruHashMap.Unlink | xslib/LruHashMap.h:241-246 | taking a node out of its chain keeps every chain |
| LruHashMap.LruHashMap.Detach | xslib/LruHashMap.h:241-253 | chain and list lose the same node |
| LruHashMap.LruHashMap.RemoveNode | xslib/LruHashMap.h:259-279 | a node is found by identity in the chain of its hash and removed |
| LruHashMap.LruHashMap.Attach | xslib/LruHashMap.h:188-193 | chain and list gain the same node |
| LruHashMap.LruHashMap.Push | xslib/LruHashMap.h:180-194 | a full map gives up its stalest entry and no other |
| LruHashMap.LruHashMap.Insert | xslib/LruHashMap.h:167-195 | refuses a present key, otherwise pushes |
| LruHashMap.LruHashMap.Replace | xslib/LruHashMap.h:198-231 | rewrites and refreshes a present key, otherwise pushes |
| LruHashMap.LruHashMap.Remove | xslib/LruHashMap.h:234-256 | removes exactly the key |
| LruHashMap.LruHashMap.Drain | xslib/LruHashMap.h:303-312 | removes the stalest entries, as many as asked |
| FcgiClient.FcgiClient.NewConnection | x4fcgi/FcgiClient.cpp:561-573 | opening a connection, failed or not, keeps the ledger; queued quests stay as they are while failures stay within the limit, and all fail otherwise; with room for one the maximum is kept unless it fails early |
| FcgiClient.FcgiClient.OpenMore | x4fcgi/FcgiClient.cpp:685-694 | the maximum of connections is kept unless a connect fails at once with more to be opened; how many there are if none fails, and if the first does |
| FcgiClient.FcgiClient.ReleaseClosed | x4fcgi/FcgiClient.cpp:660-708 | the mutual recursion ends even if every connect fails; a quest given back and all queued ones wait exactly if this failure and the connects that failed since stay within the limit, otherwise each fails once |
| FcgiClient.FcgiClient.Release | x4fcgi/FcgiClient.cpp:660-708 | the same as its callers see it: the quest given back is at the front of the queue or has failed, exactly when |
| FcgiClient.FcgiClient.FailAll | x4fcgi/FcgiClient.cpp:698-707 | exactly the dropped quests are finished, each once, with an error |
| FcgiClient.FcgiClient.GetQuestOrPutback | x4fcgi/FcgiClient.cpp:710-730 | the oldest quest is handed out, or the connection becomes idle |
| FcgiClient.FcgiClient.PickIdle | x4fcgi/FcgiClient.cpp:586-598 | the topmost good idle connection is taken and only bad ones above it are discarded |
| FcgiClient.FcgiClient.Process | x4fcgi/FcgiClient.cpp:575-615 | an accepted quest is failed, queued or given to one idle connection; the maximum of connections is kept |
| FcgiClient.FcgiClient.Shutdown | x4fcgi/FcgiClient.cpp:622-636 | no connection stays in the pool and all are asked to close |
| FcgiClient.FcgiClient.OnReapTimer | x4fcgi/FcgiClient.cpp:638-658 | one connection is given up and shut down, and no other, exactly if some were idle and more than one is open; the idle ones are counted anew |
| FcgiClient.FcgiClient.Destroy | x4fcgi/FcgiClient.cpp:548-559 | at the end exactly the queued quests fail |
| FcgiClient.FcgiClient.OnePlaceEach | x4fcgi/FcgiClient.cpp:106-125 | in every state a quest is finished, or in the queue once, or at exactly one connection, and these exclude each other |
| FcgiClient.FcgiConnection.Operate | x4fcgi/FcgiClient.cpp:106-137 | the assertion that a connection given a quest is idle holds exactly if it does not await an answer, which takes an answer that overtook its request; then the quest is taken up, or goes back if the connection closed meanwhile |
| FcgiClient.FcgiConnection.Established | x4fcgi/FcgiClient.cpp:485-495 | a new connection takes the next quest or becomes idle |
| FcgiClient.FcgiConnection.DoWrite | x4fcgi/FcgiClient.cpp:483-534 | a write cut short goes on without the test of quest and state; what each write makes of the connection, losing no quest |
| FcgiClient.FcgiConnection.Resume | x4fcgi/FcgiClient.cpp:497-533 | where writing goes on and what it leaves, for every outcome of the socket |
| FcgiClient.FcgiConnection.ReadFailed | x4fcgi/FcgiClient.cpp:460-480 | a quest is marked for retry exactly if nothing was read, its request was not sent and it was not marked before; otherwise it fails |
| FcgiClient.FcgiConnection.Answered | x4fcgi/FcgiClient.cpp:427-458 | an answer finishes the quest and the connection goes on, retires or closes without losing the next quest; it overtakes its request exactly if the write was suspended |
| FcgiClient.FcgiConnection.DoRead | x4fcgi/FcgiClient.cpp:332-481 | what each kind of read does to the quest it is for: answered, marked for retry or failed, each exactly when |
| FcgiClient.FcgiConnection.DoClose | x4fcgi/FcgiClient.cpp:239-253 | closing once gives the quest back to the front of the queue, marked or not, exactly if failures stay within the limit; otherwise it fails with all that wait |
| FcgiClient.FcgiConnection.EventOnFd | x4fcgi/FcgiClient.cpp:210-237 | for every event: a quest in hand is answered, fails, goes back to the queue or stays, each exactly when; none is lost or finished twice, and the maximum of connections is kept unless a connect fails early |
| FcgiClient.FcgiConnection.EventOnTask | x4fcgi/FcgiClient.cpp:193-208 | a timeout fails the quest and closes, without a retry |
| FcgiClient.FcgiConnection.InStepUnlessOvertaken | x4fcgi/FcgiClient.cpp:497-533 | unless an answer overtook its request, a connection given a quest is idle or closed, and an answer is awaited only for a request written as a whole |
| FcgiClient.FcgiConnection.OvertakenMeetsAssertion | x4fcgi/FcgiClient.cpp:106-117 | from every state in which an answer overtakes a suspended write and no quest waits, the assertion can fail |
| FcgiClient.FcgiConnection.OvertakenIsNotSent | x4fcgi/FcgiClient.cpp:427-458 | and if one waits, it is taken as sent although its request was not written |
| FcgiClient.RequeuedTwice | x4fcgi/FcgiClient.cpp:239-253 | a quest whose request cannot be written goes back to the queue a second time, marked or not |
| FcgiClient.OverTheMaximum | x4fcgi/FcgiClient.cpp:685-694 | from every state in which two or more connections are to be opened and the first fails at once, the pool comes to hold more than its maximum |
| XicCipher.PlusOneCounts | xic/MyCipher.cpp:112-129 | unless the counter is full, the carry adds one |
| XicCipher.Increase | xic/MyCipher.cpp:112-129 | the in-place carry loop adds one |
| XicCipher.Increase2Counter | xic/MyCipher.cpp:112-129 | the counter grows by two |
| XicCipher.RunsOffWhenFull | xic/MyCipher.cpp:112-129 | the loops run off the counter exactly if adding two would wrap it |
| XicCipher.NoncesDiffer | xic/MyCipher.cpp:92-103 | no two messages share a nonce, in one direction or in both |
| XicCipher.NonceBytesDiffer | xic/MyCipher.cpp:92-103 | two nonces are the same bytes exactly if they are for the same message of the same direction |
| XicCipher.MyCipher.constructor | xic/MyCipher.cpp:92-103 | both start values are the digest but for the lowest bit: set for what the server sends, clear for what the client sends |
| XicCipher.MyCipher.EncryptStart | xic/MyCipher.cpp:131-135 | the k-th message out uses the k-th nonce of its direction |
| XicCipher.MyCipher.DecryptStart | xic/MyCipher.cpp:147-151 | the k-th message in uses the k-th nonce of the other direction |
| XicHandshake.StepDeliver | xic/EngineImp.cpp:1409-1567 | every message of the opening that arrives leads from one phase to the next |
| XicHandshake.StepTransmit | xic/StEngineImp.cpp:944-980 | sending keeps the phase: check messages first, then data in the order of its nonces |
| XicHandshake.StepKeepsBooks | xic/StEngineImp.cpp:745-888 | every step keeps the account of what each side awaits: a quest queued or under way, owed, or its answer queued or under way |
| XicHandshake.BooksExpect | xic/EngineImp.cpp:1388-1407 | by that account the next answer to arrive is one that a result waits for |
| XicHandshake.HonestRuns | xic/StEngineImp.cpp:549-696 | between sides with the same secret, in every run: nothing is rejected, both have the same cipher before a quest or answer is taken, every encrypted message arrives under the nonce the receiver uses and every answer while its result waits; what a side awaits is in exactly one place between quest and answer |
| XicHandshake.HonestRunsCanOpen | xic/EngineImp.cpp:1409-1567 | no run between sides with the same secret gets stuck: it can go on until both are active with the same cipher |
| XicHandshake.AtTheDoorTakes | xic/StEngineImp.cpp:549-696 | what any one frame does at a server that waits for a proof: only checks meant for a client leave it waiting, and an answer is an error like a quest or a wrong proof |
| XicHandshake.AtTheDoorAnswers | xic/EngineImp.cpp:1506-1578 | what it sends back to any one frame: the next check, a proof and a hello, or a refusal, which it stays to send; only an encrypted frame disconnects it at once |
| XicHandshake.WhoGetsIn | xic/StEngineImp.cpp:605-620 | whatever frames a server that asks for a secret is sent, it becomes active if and only if it reads a hello, or an Srp1 and later the proof of its secret, and before that nothing but checks meant for a client; otherwise it takes no quest and no answer |
| XicHandshake.ProofIsNeededWithoutHello | xic/EngineImp.cpp:1504-1578 | if no hello is among the frames, only the proof of the secret opens |
| XicHandshake.HelloLetsIn | xic/StEngineImp.cpp:605-620 | a hello from anyone makes such a server active, and the quest that follows is taken |
| XicHandshake.DeadOnlyWindsUp | xic/StEngineImp.cpp:717-729 | after an error a side only sends what is left and takes the answers it waits for: in any life it queues nothing, registers no result and takes no quest any more |
| XicHandshake.HonestStrangersStayOut | xic/EngineImp.cpp:1504-1578 | a client that runs this code with another secret never becomes active, and no quest or answer is taken by either side |
| XicClient.ClientIsConnected | xic/StEngineImp.cpp:925-940 | a client that has connected is where the statements about clients start, whether or not the server asks for a secret |
| XicClient.WhoIsTrusted | xic/EngineImp.cpp:1409-1485 | whatever frames a client is sent, it finishes the authentication if and only if it reads a request, the parameters and the proof of its own secret, in this order and with only answers to its quests between; it has a cipher exactly if that proof named one, under the key of the secret |
| XicClient.OtherChecksDisconnect | xic/EngineImp.cpp:1409-1485 | any check that is not the next step, a wrong proof among them, disconnects the client for good |
| XicClient.HelloIsTaken | xic/StEngineImp.cpp:605-620 | a hello makes a client active without any authentication |
| XicOpening.StConnection.Accept | xic/StEngineImp.cpp:343-359 | the accepting side starts with a question or, without secrets, with a hello |
| XicOpening.StConnection.HandleCheck | xic/EngineImp.cpp:1409-1567 | the code does with a check message what the state machine does: the next step of the authentication, or a refusal, or a disconnect |
| XicOpening.StConnection.RecvMsg | xic/StEngineImp.cpp:549-696 | the same for a frame off the wire, with its nonce counter, in every state: after an error quests are dropped, an answer without a result is an error, and a check message disconnects |
| XicOpening.StConnection.Send | xic/StEngineImp.cpp:717-796 | the same for a quest or answer of the application: numbered, registered and queued, or dropped after an error |
| XicOpening.StConnection.SendOne | xic/StEngineImp.cpp:944-980 | the same for the next frame sent, encrypted only if it is a quest or answer |
| XicConnection.ByeStaysLast | xic/StEngineImp.cpp:717-730 | after the bye only one-way quests are queued |
| XicConnection.StConnection.Grace | xic/StEngineImp.cpp:378-391 | closing waits exactly while an answer is owed or expected, otherwise says bye |
| XicConnection.StConnection.ReplyAnswer | xic/StEngineImp.cpp:732-743 | the answer is queued once, and the bye right after the last one that a closing connection owed |
| XicConnection.StConnection.RecvQuest | xic/StEngineImp.cpp:850-863 | a quest is accepted exactly between hello and close, and counted if two-way |
| XicConnection.StConnection.RecvHello | xic/StEngineImp.cpp:605-620 | a hello makes a waiting connection active and changes no other |
| XicConnection.StConnection.RecvBye | xic/StEngineImp.cpp:621-633 | a bye closes the connection as graceful |
| XicConnection.StConnection.RecvAnswer | xic/StEngineImp.cpp:864-888 | the answered result leaves the map, and a closing connection that is done says bye; an answer without a result puts the connection in error |
| XicConnection.StConnection.AddResult | xic/EngineImp.cpp:790-806 | the insertion reports success always; a result is registered exactly if its number is not in use |
| XicConnection.StConnection.SendQuest | xic/StEngineImp.cpp:745-820 | what becomes of a quest and its result in every state of the connection, as one function says that the ledger of results uses too |
| XicConnection.StConnection.Disconnect | xic/StEngineImp.cpp:434-460 | all waiting results are handed over and nothing stays queued |
| XicConnection.StConnection.ByeClosesTheBooks | xic/StEngineImp.cpp:378-391 | the bye comes once, after the answers to all quests ever accepted, with nothing owed and nothing expected |
| XicServant.Waiter.Response | xic/EngineImp.cpp:1622-1734 | the first response is sent, later ones are ignored |
| XicServant.Waiter.Destroy | xic/EngineImp.cpp:1608-1615 | dropping an unused waiter answers with an exception |
| XicServant.HandleQuest | xic/EngineImp.cpp:1105-1306 | whatever the servant does and whatever else happens on the connection when it yields, a two-way quest is answered once or its waiter lives on, and a one-way quest is never answered; there is a waiter exactly if the servant took one, and it was used exactly if it responded, returned an answer or threw |
| XicServant.Yield | xic/StEngineImp.cpp:822-905 | whatever other threads do to the connection, they leave an unanswered quest unanswered and answer only those they hold |
| XicServant.Serve | xic/EngineImp.cpp:1105-1306 | over the whole life of a quest, with other steps of the connection at every yield, exactly one reply, or none for a one-way quest |
| XicResults.PickKeeps | xic/EngineImp.cpp:1002-1017 | the connection picked is live, and only its proxy changes |
| XicRetries.PickGoesRound | xic/EngineImp.cpp:1002-1015 | a proxy stays at a live connection; from a dead one it goes to its next endpoint in turn and uses the live connection made to it, or a new one |
| XicRetries.OneLiveForEachEndpoint | xic/StEngineImp.cpp:1763-1784 | however a run goes on, the connection made to an endpoint is kept as long as it is live: no second one is made beside it |
| XicResults.StepEmit | xic/StEngineImp.cpp:1375-1405 | an emitted result waits on one connection or has failed |
| XicRetries.EmittedWaitsIf | xic/StEngineImp.cpp:1375-1405 | an emitted quest waits at the connection of its proxy exactly if one can be had that is live; otherwise its result is an error |
| XicResults.StepSettle | xic/StEngineImp.cpp:470-479 | a result that a disconnect holds is completed or waits on one connection again; the ledger stays in order |
| XicRetries.RetriedExactlyIf | xic/StEngineImp.cpp:470-481 | in every run, by its events: a result is retried exactly if it was not before, its quest was not written out or the connection was closed with grace, and a connection can be had; then it waits there, otherwise it is completed |
| XicRetries.SentIsNotRepeated | xic/StEngineImp.cpp:470-481 | a quest written out on a connection that is closed without grace is completed by that disconnect and never waits anywhere again |
| XicResults.StepAnswered | xic/StEngineImp.cpp:864-888 | an answer completes the result waiting under its number |
| XicResults.StepDisconnect | xic/StEngineImp.cpp:434-460 | a disconnect takes over all that waited |
| XicRetries.DisconnectedForGood | xic/StEngineImp.cpp:435-484 | a connection that was disconnected is never live again, and in no run that goes on does a result wait on it |
| XicResults.NothingIsGood | xic/EngineImp.cpp:779-781 | an engine without connections satisfies the invariant |
| XicResults.StepKeepsGood | xic/StEngineImp.cpp:434-484 | every step of code between two yields keeps the ledger of results |
| XicResults.ExactlyOnce | xic/StEngineImp.cpp:174-217 | in every run a result waits on one connection under its own number, or one disconnect holds it, or it has been completed once; it is retried at most once |
| XicResults.OnlyLiveKeepsTheLedger | xic/StEngineImp.cpp:798-819 | handing over a result keeps the ledger if and only if the connection is live or the quest carries no number yet |

## Left out

- Sockets, polling, timers, file rotation, statistics, the Lua plugins and LZ4/LZO compression of blocks: steps and parameters stand for them.
- The lock-based engine in `xic/PtEngineImp.cpp`, load balancing by random choice or hash, and adapters.
- SRP6a, AES-EAX and SHA-1: the sides' session secrets are values that are equal or not, a proof agrees exactly if they are, and a body decrypts exactly under its own nonce.
- Closing, timeouts and wrapping nonce counters during the opening of a connection; the states of closing are in `XicConnection`.
- XicHandshake.WhoGetsIn: identities are known or not, the parameters of check messages are well formed, a bye is one more way to disconnect, and sizes and flags of headers other than encryption are not modelled.
- XicHandshake.HonestRuns: transaction numbers do not wrap; the cipher suite is a number; the cut or padding of the session key to the suite's length is not modelled.
- XicClient.WhoIsTrusted: the client has a secret for every server, and knows the suite that is named; other failures of a check disconnect it too.
- VbsTags.DecodedByTag: for tags of up to ten bytes and numbers of 63 bits, or 64 for the most negative integer; how larger ones that still fit into 64 bits turn negative is not stated.
- VbsTags.LongDescriptorIsSkipped: in front of another descriptor, or with a number of 64 bits, only `VbsNumber.UnpackTag` says what is decoded.
- XicResults.ExactlyOnce: modelled on values, one state for all connections; quests emitted twice and the wrap of the 64-bit transaction counter are excluded, and user callbacks act only as further events.
- XicServant.HandleQuest: the code between two yields of the servant runs undisturbed; contents of answers, size limits and logging are left out; every replacement answer is still one answer.
- FcgiClient.FcgiConnection.DoRead: the records of the FastCGI protocol inside a read, and exceptions other than a failed connect, are not modelled; a step is one event, and process lets go of its lock in between.
- FcgiClient.FcgiConnection.Operate: what the program does after its assertion failed, or without assertions, is not modelled.
- FcgiClient.FcgiConnection.DoClose: the code clears its quest after the release, the model before; its lock is held throughout.
- VBuilder.Entity.Close: reference counts are not kept, packer errors and depth limits do not occur, and a writer is not used after it was closed.
- VWriterVbs.TreesEncode: decimals, descriptors and the varieties of lists and dicts are not among the values; a string or blob is no longer than a Java array.
- VbsPack.BufferOfInteger: the negation of the most negative integer, undefined in C, is taken to wrap.
- LruHashMap.LruHashMap.Push: an allocation never fails; the slot of a hash is its remainder by the slot count, a power of two, where the code masks.
- IpMatcher.Aton: the parsing of addresses and numbers is an input, as is the cut of long texts at 63 characters; dump is not modelled.
- VbsRoundTrip.RoundTrip: lists without an end and negative lengths, on which the Java decoder does not return or moves backwards, are one outcome of their own; character sets, identity of byte arrays as map keys and packDescriptor are not modelled.
- DlogReader.DlogWorker.DoRead: the time stamp set when a record is logged is zero here.
- DlogDelivery.RecordsArrive: no cabin is configured; with one, the center cuts the text of a cooked record at its first space before it prints it.
- DlogDelivery.NoBlockIsLost: the center's reading of one packet in pieces is one step, and links deliver in order or break.
- Arrays are as long as the code needs them; other limits of machine integers are modelled where the code depends on them.
