# Verified model of GoDrop's transfer stack

GoDrop sends files and folders from one host to many receivers on a local network. This project models the parts
that make a transfer correct and proves what they guarantee, in Dafny 4.11. `dafny verify dfyconfig.toml` checks it.

The modules follow the way of a file:

- `Protocol`, `BufferedWriter`, `ChunkCodec`, `Crc32` and `Bytes`: frames on a byte stream, the coalescing writer,
  the binary chunk, its checksum. `WireFormat` says which bytes these are and `CrcRemainder` which checksum it is.
  `Cipher` is an abstract pair of functions of which opening undoes sealing.
- `Transfer`, `PeerStates`: reading the source, the send loop, the states and offsets of the peers.
- `FrameMerge`, `Interruption`, `BufferedMerge` and `HostToReceiver`: several writers, some of them behind buffers,
  sharing a connection under its write mutex.
- `FileWriter` (module `FileWriting`), `Receiver`, `Outcomes`, `Delivery`, `Ongoing`, `Completion`, `Collision`: writing
  at offsets into `.part` files, the read loop with its four maps, what each chunk and acceptance comes to, and what has
  arrived at the end: in the good case, with offers accepted on the way, for any chunks at all, and for paths that clash.
- `OfferDelivery`: from the offer on the wire to the file or folder in the chosen directory.
- `SavePath`, `SaveNames`, `Paths`, `PathLaws`: sanitised names, free paths, lexical path cleaning, and each of them read
  off the text alone.
- `FolderTree`, `Archive`, `FolderRoundTrip`, `FolderDelivery`: folders packed into a list of named entries, sent, and
  restored from it.
- `Lifecycle`, `Announcements`, `Disorder`, `ReceiverSteps`, `WriterLeaks`: transition systems for the host's goroutines
  around one transfer and for the receiver's goroutines around its maps. A step is what one goroutine does under one lock.
  `HandlerRuns` ties the second to `Receiver`: what the handlers do without interruption is a run of it.
- `Handshake`, `Conversation`, `RoomKey`: the key exchange with mutual authentication in a symbolic model, message by
  message for each end, and the key's text form.

Objects that the program updates in place are classes (`Reader`, `Writer`, `FileWriter`, `Transfer`, `Receiver`,
`Connection`, `ZipWriter`, `FileTree`, the two ends of the handshake). Their methods are proved against specification
functions over plain values, or state their whole effect themselves, and the theorems are about those functions.

What the environment decides is a parameter: the results of `Read` calls, the outcome of each seek and write, how many
writes a connection survives, the names that exist, whether a directory, a file or an answer comes about, the order in
which goroutines run, what the network delivers. JSON payloads are opaque: the receiver gets the decoding of an offer as
a function.

Some promises turned out to hold under a condition only, and the model says which:

- The write mutex does not keep frames from interleaving (lines 190-192 of the repository's README.md):
  `Interruption.UnnoticedExactly` says which frame can get into which cut without being noticed,
  `BufferedMerge.MergesExactly` when a sender is safe from everything the others can write, and a full-size chunk never
  is (`BufferedMerge.FullChunkBreaks`). Deliveries over a shared connection are proved for senders that are.
- "Only a complete, verified file gets renamed" (lines 124-125 of that file) is true of a lossless, ordered stream
  (`Delivery.EndToEnd`). In general completion is the arrival of the last byte (`Completion.DoneExactly`), and undecryptable
  frames are skipped silently.
- Two transfers received at the same time are safe from each other exactly if their final and temporary paths are all
  different (`Collision.ApartExactly`); only the final paths are looked at when a path is chosen.
- Folders survive the trip under the condition in `FolderRoundTrip.FolderRoundTrip`. In particular a link to a folder is
  offered as a folder, archived as nothing and reported completed (`FolderDelivery.LinkedFolderCompletes`).
- Dropping a settled transfer can be premature (`Lifecycle.DropIsFinalExactly`), an answer can be overwritten and a
  rejection overtaken (`Disorder.RecordKeepsLifeExactly`, `Disorder.StrayRejectionExactly` say when); empty transfers, and only these, can be reported twice (`ReceiverSteps.ReportedOnceExactly`).
- A transfer that is offered and accepted again while it is under way loses its first writer: nothing closes that file any
  more. Without that no file is left open (`WriterLeaks.LeaksExactly`).
- A sender that meets a read error may still report Completed, because its select can pick the closed chunk channel first:
  `SendToPeer` states exactly when it reports Completed, and `Transfer.UnnoticedErrorCompletes` for which failing reads
  that can be without the whole file.

## Model

| member | source | states |
|---|---|---|
| Protocol.ParseEncodedFrame | internal/protocol/protocol.go:105-136 | A frame read back from its encoding, whatever bytes follow, is the frame sent and leaves exactly those bytes, if and only if the payload is under 2^32 bytes (the length field truncates). |
| Protocol.ParseIsInverse | internal/protocol/protocol.go:105-122 | Whatever the reader accepts as a frame was the encoding of that frame, followed by the bytes it leaves. |
| Protocol.TruncatedFrameFails | internal/protocol/protocol.go:105-122 | Every proper prefix of an encoded frame is an error, at any cut. |
| Protocol.PrefixFree | internal/protocol/protocol.go:124-136 | If the encoding of one frame is a prefix of the encoding of another, the frames are the same. |
| Protocol.ParseEncodedFrames | internal/protocol/protocol.go:105-136 | Parsing the concatenation of any list of frames gives the list and then continues with whatever follows. |
| Protocol.StreamIsParsedFrames | internal/protocol/protocol.go:105-122 | Any byte string is the encoding of the frames parsed from it and a leftover that does not start with a frame. |
| Protocol.CutStreamParsesToPrefix | internal/protocol/protocol.go:105-122 | A stream of frames cut at any byte parses to a prefix of the frames, all of them only at full length. |
| Protocol.UniqueDecomposition | internal/protocol/protocol.go:86-136 | Two lists of frames have the same bytes if and only if they are the same list. |
| Protocol.Unmarshal | internal/protocol/protocol.go:105-122 | The read method consumes and returns the first frame, or fails exactly when the stream does not start with one. |
| BufferedWriter.PutAccepts | internal/transfer/transfer.go:209-211 | A buffered write that does not fail accepts all its bytes, in order, whatever it emits meanwhile. |
| BufferedWriter.PutFramesAccepts | internal/transfer/transfer.go:239-242 | Frames written through the buffer are, emissions and buffer together, exactly their encodings in order. |
| BufferedWriter.FlushedFrames | internal/transfer/transfer.go:218-224 | After a successful flush the buffer is empty and the emissions are exactly the encoded frames. |
| BufferedWriter.SendCostExactly | internal/transfer/transfer.go:209-242 | Writing frames and flushing succeeds if and only if the connection takes as many emissions as the frames' lengths cost. |
| BufferedWriter.PutFramesDeliver | internal/transfer/transfer.go:239-242 | Whenever and however the connection fails, what has gone out is a prefix of the encoded frames. |
| BufferedWriter.Writer.Write | internal/transfer/transfer.go:211 | The buffered writer object does what the specification of a write says: topping up, flushing, direct emission, and a sticky failure after a part of the failing emission has gone out. |
| BufferedWriter.MarshalRaw | internal/protocol/protocol.go:124-136 | The three writes of a frame through a buffered writer have the effect specified for a frame, and stop at the first failure. |
| ChunkCodec.DecodeEncoded | internal/transfer/transfer.go:297-346 | Decoding an encoded chunk, with any bytes behind it, gives the chunk back if and only if the id is under 256 bytes and the data under 2^32; every signed 64-bit offset is preserved. |
| ChunkCodec.TruncatedBodyFails | internal/transfer/transfer.go:317-346 | Every proper prefix of an encoded chunk body is refused. |
| ChunkCodec.DecodedIsPrefix | internal/transfer/transfer.go:317-346 | If decoding any blob succeeds, re-encoding the result gives a prefix of that blob. |
| ChunkCodec.DecodeEncodedChunk | internal/transfer/transfer.go:285-346 | A framed chunk body goes through the inner framing and the body codec and comes back unchanged. |
| ChunkCodec.MarshalChunkBody | internal/transfer/transfer.go:297-314 | The field-by-field writes into a byte buffer produce the encoding of the chunk. |
| ChunkCodec.DecodeChunkBlob | internal/transfer/transfer.go:317-346 | The field-by-field reads return exactly the decoded chunk, or fail when it does not decode. |
| Bytes.DecodeEncodeI64 | internal/transfer/transfer.go:303 | Big-endian two's-complement encoding of an offset is undone by decoding. |
| WireFormat.WordsAreBigEndian | internal/protocol/protocol.go:110-116 | The four bytes of a word are the only ones that stand for it most significant byte first. |
| WireFormat.OffsetsAreBigEndian | internal/transfer/transfer.go:303 | So are the eight bytes of an offset, a negative one standing for itself plus 2^64. |
| WireFormat.FrameOnWire | internal/protocol/protocol.go:124-136 | A byte string is the encoding of a frame with a payload under 2^32 bytes if and only if it is its type, then the payload's length most significant byte first, then the payload. |
| WireFormat.ChunkOnWire | internal/transfer/transfer.go:285-314 | A byte string is an encoded chunk if and only if every field stands in its place: the frame type 4 and length, the id's length and the id, the offset, the data's length, the checksum, the data. |
| WireFormat.PacketOnWire | internal/transfer/transfer.go:227-242 | The packet of a chunk is a frame of type 7 with the sealed bytes of the framed chunk, if it can be sealed. |
| Crc32.AbsorbInjective | internal/transfer/transfer.go:190 | Absorbing the same bits into different checksum registers leaves different registers. |
| Crc32.AbsorbWords | internal/transfer/transfer.go:190 | Two registers that reach the same value over words of the same length, at most 32 bits, agreed beyond the words and differed inside exactly where the words do: from one register, different words give different registers. |
| Crc32.BurstChangesChecksum | internal/transfer/transfer.go:393-396 | Data that differs only within a window of at most 32 consecutive bits, anywhere in data of any length, has a different CRC-32 (section 8 of RFC 1952). |
| CrcRemainder.PolynomialBits | internal/transfer/transfer.go:190 | The polynomial is the generator with the exponents 32, 26, 23, 22, 16, 12, 11, 10, 8, 7, 5, 4, 2, 1 and 0. |
| CrcRemainder.AbsorbDivides | internal/transfer/transfer.go:190 | Shifting bits through a register divides: what is left in it is a remainder of the bits, started with its content, by the generator. |
| CrcRemainder.DivisionIsUnique | internal/transfer/transfer.go:190 | There is only one such remainder. |
| CrcRemainder.MessageIsData | internal/transfer/transfer.go:190 | The dividend takes the bits of the data byte after byte, least significant bit first. |
| CrcRemainder.ChecksumIsRemainder | internal/transfer/transfer.go:190 | A register is the remainder of the data, started with all ones, by the generator if and only if its complement is, bit by bit, the checksum of the data. |
| FileWriting.RangeTestExact | internal/transfer/transfer.go:389 | The three-way range test in wrapping 64-bit arithmetic is the intended one, for all offsets, if and only if size plus data length cannot exceed 2^63 (or the size is not positive). |
| FileWriting.FileIsOverlay | internal/transfer/transfer.go:383-408 | For any sequence of chunks in any order the content is the last-writer-wins overlay of the accepted ones with zero-filled holes; its length is the end of the furthest one, never above the announced size; the offset stays between 0 and the size. |
| FileWriting.WriterRefinesOverlay | internal/transfer/transfer.go:370-408 | A writer created on a disk and fed any chunks leaves that overlay in its file and the specified offset, and changes nothing else on the disk. |
| FileWriting.BurstIsRefused | internal/transfer/transfer.go:393-396 | A chunk whose data was damaged within 32 consecutive bits is refused; file, offset and disk stay as they were. |
| FileWriting.WriteOutcome | internal/transfer/transfer.go:383-408 | For any chunk under 2^32 bytes, any file of at most 2^63 - 2^32 bytes and whatever the system does: the write succeeds if and only if the chunk lies inside the announced size with a matching checksum, the file is open and seek and write work; only then the offset moves, to the chunk's end. The bytes that landed stand in their place, a gap reads as zeros, every other byte and every other file is as before. |
| FileWriting.FinishOutcome | internal/transfer/transfer.go:414-422 | Finishing leaves the file closed; it succeeds if and only if it was open and, where a move is asked for, its name is still there; then the target has the file and the old name is gone, and otherwise no name changes. |
| FileWriting.RemoveOutcome | internal/receiver/receiver.go:443 | Removing takes one name away and touches nothing else. |
| FileWriting.FileWriter.WriteChunk | internal/transfer/transfer.go:383-408 | The method makes exactly the specified transition, which `FileWriting.WriteOutcome` says byte by byte: range test, checksum, seek, write, then the offset; a refused chunk changes nothing. |
| FileWriting.FileWriter.Finish | internal/transfer/transfer.go:414-422 | Closing fails on a closed file; the rename happens for a target that is neither empty nor the file itself; the result tells whether both worked. |
| Transfer.LaidOutData | internal/transfer/transfer.go:172-195 | The data of chunks laid end to end is the file up to where they reach. |
| Transfer.OffsetsAreRunningSums | internal/transfer/transfer.go:182-195 | The offset of each chunk is the total length of the data before it. |
| Transfer.ReadChunks | internal/transfer/transfer.go:157-204 | For every sequence of read sizes the reader sends the specified chunks: non-empty, with matching checksums (`CrcRemainder.ChecksumIsRemainder` says which), laid end to end, covering the whole file unless reading fails. |
| Transfer.PacketsAreSealed | internal/transfer/transfer.go:227-242 | The packets the send loop makes of a file's chunks open, one for one, to the framed chunk bodies, and fit their length fields. |
| Transfer.SentBytesDecode | internal/transfer/transfer.go:227-242 | The bytes of a sent transfer, parsed, decrypted, parsed again and decoded, are exactly its chunks, and no byte is left over. |
| Transfer.Transfer.AllPeersSettled | internal/transfer/transfer.go:108-120 | True exactly when some peer is tracked and all tracked peers are in a terminal state. |
| Transfer.Transfer.SendChunk | internal/transfer/transfer.go:227-257 | One turn of the send loop succeeds if and only if the chunk can be sealed and the buffered writer takes its packet; then the packet is appended and the offset recorded, and otherwise a failure is recorded and nothing else. |
| Transfer.Transfer.SendChunks | internal/transfer/transfer.go:215-265 | The send loop finishes if and only if it has sent every chunk; otherwise it stopped because the next chunk could not be sealed or written, or the read error was picked. Offsets and progress rise strictly, and the writer has taken exactly the packets up to there. |
| Transfer.Transfer.SendToPeer | internal/transfer/transfer.go:206-266 | The peer ends Completed if and only if every chunk read can be sealed, the connection takes as many emissions as the packets cost, and no read error is noticed; otherwise Failed, for a reason that is stated. Completed means that all packets have gone out in order, and they carry the whole file if reading met no error; in every case a prefix of the packets has gone out and nobody else's state is touched. |
| Transfer.UnnoticedErrorCompletes | internal/transfer/transfer.go:157-204 | For every way reading can fail, as long as what was read can be sealed: some outcome of the select ends Completed without the whole file having been sent, if and only if the error came before the end of the file. |
| Transfer.NothingReadCompletes | internal/transfer/transfer.go:162-180 | A read that fails at once can end Completed, with nothing sent, for a file of any size. |
| Transfer.EncodeChunkBytes | internal/transfer/transfer.go:285-295 | The method produces the inner frame of the chunk body. |
| Receiver.Receiver.ReadLoop | internal/receiver/receiver.go:256-283 | Reading a connection to its end handles exactly the frames its bytes parse to, in order, and then closes the progress channel. |
| Receiver.Receiver.HandleChunk | internal/receiver/receiver.go:375-407 | A chunk without a writer changes nothing; a refused one fails its transfer; an accepted one is written and reported and, at the announced size, finishes the transfer. |
| Receiver.Receiver.FinishTransfer | internal/receiver/receiver.go:420-453 | The bookkeeping is dropped first, then the file renamed, then a folder restored; a failed restoration leaves what it has made so far; exactly one report tells how it went. |
| Receiver.Receiver.HandleDecryptedMessage | internal/receiver/receiver.go:285-316 | Offers, chunks and everything else have the specified effect; malformed messages have none. What the effects are is in `OfferDelivery.OfferIsFiled` and `Outcomes.ChunkOutcome`. |
| Receiver.Receiver.AcceptTransfer | internal/receiver/receiver.go:455-511 | The offer is consumed whatever happens next; each error return leaves the state specified for it (a folder name can stay behind); a success opens a free artifact path, answers the host, and completes an empty file at once. |
| Receiver.Receiver.ChooseArtifact | internal/receiver/receiver.go:464-475 | The artifact path did not exist and is the first free one, for folders derived from the first free folder name. |
| Receiver.Receiver.RejectTransfer | internal/receiver/receiver.go:530-542 | The offer is gone whatever happens, nothing else has changed, the rejection goes to the host if it can be sealed, and the result tells whether it was written. |
| Receiver.Receiver.Close | internal/receiver/receiver.go:572-580 | Every open writer is closed and the three maps are empty. |
| Receiver.FailedAcceptance | internal/receiver/receiver.go:477-504 | If the directory or the file cannot be made, the offer is gone, a folder has left its name behind, and nothing else has changed; if the answer cannot be sent, nothing but an empty `.part` file is left of the transfer, and every other transfer is untouched. |
| Outcomes.StrayChunk | internal/receiver/receiver.go:375-382 | A chunk of a transfer without a writer changes nothing. |
| Outcomes.ChunkOutcome | internal/receiver/receiver.go:375-407 | Any chunk of a transfer with a writer, in any state: offers, channel and all other transfers stay. If it arrives whole and ends below the size the transfer goes on at its end, with one report of progress; if it ends at the size, the transfer is forgotten with a report of progress and one of how it ended; if it does not arrive, the transfer is forgotten with one report of failure, without offsets. Nothing is reported on a closed channel. |
| Outcomes.EndOutcome | internal/receiver/receiver.go:409-453 | The end of a transfer forgets it, touches no other, and makes one report: completed if and only if the file could be closed and moved and, for a folder, its archive restored. A restored archive is gone; one that was not restored is still there. |
| Outcomes.AcceptOutcome | internal/receiver/receiver.go:455-511 | An acceptance takes the offer off the list and touches no other offer or transfer. With bytes to come it leaves an open writer at offset zero on an empty file named as the artifact and `.part`, and reports nothing; with none it has ended, with one report. |
| OfferDelivery.OfferIsFiled | internal/receiver/receiver.go:285-340 | A frame of type 7 that opens to an offer of type 1 files that offer under its id, with its size, sender and kind and the name its text comes to, and changes nothing else; if the name is unusable it changes nothing at all. |
| OfferDelivery.OffersComeFromFrames | internal/receiver/receiver.go:285-340 | No frame takes an offer off the list, and one is filed only by a frame that carries it. |
| OfferDelivery.ArtifactIsSaved | internal/receiver/receiver.go:464-475 | In text: a file is saved in the chosen directory under its name or, if that is taken, with the least free number before its extension; a folder likewise, with its archive beside it under the folder's name and `.zip`, or that numbered. |
| OfferDelivery.RenamedExactly | internal/receiver/receiver.go:468-475 | The caller is told of another name if and only if the offered one exists in the directory. |
| OfferDelivery.OfferedFileArrives | internal/receiver/receiver.go:256-511 | From the wire to the disk: while any other transfers are under way, an offer frame arrives, is accepted by its id, and all chunks come, mixed with the others'. The file then stands in the chosen directory under the offered name or its numbered form, completed exactly once, and so do all the others. |
| OfferDelivery.OfferedFolderArrives | internal/receiver/receiver.go:256-511 | The same for a folder, alone on its connection: it is reported completed and nothing else has changed but that its tree stands in the chosen directory under the offered name or its numbered form, if and only if the conditions of `FolderDelivery.FolderEndToEnd` hold. |
| Delivery.NextChunkIsWritten | internal/transfer/transfer.go:383-408 | The next chunk in order is accepted and the temporary file is then the source up to its end. |
| Delivery.EarlierChunk | internal/receiver/receiver.go:384-402 | Every chunk but the last leaves the temporary file as the source up to the offset, the final path absent and no terminal report. |
| Delivery.LastChunk | internal/receiver/receiver.go:404-453 | The last chunk, and no other, renames the file to its final path and reports one completion. |
| Delivery.OthersStay | internal/receiver/receiver.go:375-407 | A chunk of one transfer leaves the files, bookkeeping and reports of every other transfer as they are. |
| Delivery.AfterFrames | internal/receiver/receiver.go:256-283 | After any number of frames of any number of interleaved transfers, wherever each stood when they began, each transfer stands exactly where its own chunks have brought it. |
| Delivery.CutConnection | internal/receiver/receiver.go:256-271 | If the connection breaks at any byte, each transfer is complete under its final path or absent there, with its temporary file holding exactly the source up to the last whole chunk. |
| Delivery.EndToEnd | internal/receiver/receiver.go:256-316 | Any number of accepted transfers on separate paths, each at any position, their remaining chunks in order, mixed in any way with each other, with chunks of unknown transfers and with other frames: reading the connection leaves every source under its final path, no temporary file and exactly one completion each. |
| Delivery.OtherFrameKeeps | internal/receiver/receiver.go:272-316 | A frame without a chunk of the transfers at hand (another kind, undecryptable, an offer, an event, a chunk without a writer) changes the pending offers at most. |
| Delivery.AcceptStarts | internal/receiver/receiver.go:482-490 | An accepted offer on a free path starts a delivery at its first chunk. |
| Delivery.AcceptKeepsOthers | internal/receiver/receiver.go:455-490 | Accepting one more offer on a path of its own leaves all other transfers where they are, at whatever positions. |
| Delivery.ReadIsGoodJob | internal/transfer/transfer.go:157-204 | What senders make are such transfers: whatever sizes the reads have, the chunks of a file read to its end satisfy what the deliveries assume of a transfer. |
| Ongoing.RunStands | internal/receiver/receiver.go:256-283 | Runs that mix frames and acceptances in any order, each transfer accepted at any time before its first chunk: every accepted transfer stands where its chunks have brought it, and the paths of those still to come are untouched. |
| Ongoing.EndToEndWhileAccepting | internal/receiver/receiver.go:256-316 | Such a run with all transfers accepted and all chunks in delivers every source under its final path, completed exactly once. |
| Ongoing.WholeSession | internal/receiver/receiver.go:256-316 | On a receiver without open writers, transfers accepted one by one while the chunks of earlier ones arrive are all delivered, completed exactly once. |
| Delivery.EmptyFileIsDelivered | internal/receiver/receiver.go:506-508 | An empty file is delivered and reported completed by its acceptance alone. |
| Delivery.SharedFileExactly | internal/receiver/receiver.go:473-483 | Two writers just opened share their file if and only if they were given the same artifact path. |
| Delivery.SamePathTwice | internal/receiver/receiver.go:513-516 | Accepting a second offer for a path whose first acceptance is still being received yields the same path again. |
| Collision.ApartExactly | internal/receiver/receiver.go:473-490 | Two transfers accepted on free paths, on a receiver with any other transfers open, are both delivered under every interleaving of their chunks if and only if neither's final path is the final or the temporary path of the other. |
| Completion.AnyChunks | internal/receiver/receiver.go:375-453 | Whatever chunks of an accepted transfer arrive, in whatever order and number, it is reported at most once, and a file stands under the final path exactly when it is reported completed. |
| Completion.DoneExactly | internal/receiver/receiver.go:404-406 | A transfer is completed if and only if some accepted chunk ends at the announced size and all chunks before it were accepted; the file is then their overlay. |
| Completion.LostChunksExactly | internal/transfer/transfer.go:406 | If chunks are lost on the way but not the last, the transfer completes all the same, and its file equals the source if and only if the source has only zeros where chunks were lost; without the last chunk it does not complete. |
| Completion.LossyDelivery | internal/receiver/receiver.go:276-279 | The same for the receiver: what is renamed and reported completed is the source if and only if nothing but zeros was lost. |
| Completion.AcceptedIsPending | internal/receiver/receiver.go:482-490 | Accepting an offer on a free path is the starting point of the three theorems above. |
| FrameMerge.WriteRawMessage | internal/host/host.go:46-52 | A control message reaches the connection as the bytes of one whole frame within one hold of the mutex. |
| FrameMerge.WireParsesToMerge | internal/host/host.go:46-64 | If every hold of the write mutex covers whole frames, then for any number of writers and any schedule the bytes parse to the frames in the order of the holds, with nothing left over. |
| FrameMerge.MergeKeepsOrder | internal/host/host.go:46-64 | Taken writer by writer, the merged frames are what that writer has written so far, in its own order: none lost, added or reordered. |
| FrameMerge.LockedWriterExactly | internal/host/host.go:58-64 | A sender behind a buffered writer holds the mutex for whole frames only if and only if no frame of its sequence straddles an emission of the buffer. |
| FrameMerge.BoundariesExactly | internal/transfer/transfer.go:211-242 | The same from any frame boundary on, frame by frame: each emission is a run of whole frames if and only if every frame fits what is left of the buffer, or the whole of it when it is full. |
| Interruption.UnnoticedExactly | internal/host/host.go:58-64 | A frame that gets in behind any part of any frame of another writer is not noticed (the bytes parse to all the frames, each writer's in order) if and only if its bytes commute with what is out of the cut frame, or with what lies between the cut and some later place between two frames. |
| Interruption.OtherLengthIsNoticed | internal/host/host.go:46-64 | A frame of another length that gets in behind the length field is always noticed, unless the next byte of the cut frame equals its type. |
| Interruption.SomeIsNoticed | internal/host/host.go:46-64 | Wherever a frame is cut, among different frames of one length, more than such a frame has bytes, one at least is noticed. |
| BufferedMerge.UnsplitSourcesMerge | internal/host/host.go:46-64 | Any number of senders behind buffered writers and of other writers: if no sender's frame straddles an emission of its buffer, the connection carries, under every schedule, an order-preserving merge of all their frames with nothing left over. |
| BufferedMerge.MergesExactly | internal/host/host.go:46-64 | For any sender and any set of frames the others may write that has different frames of one length, more than such a frame has bytes: the bytes parse to an order-preserving merge, whatever of these frames the others write and under every schedule, if and only if no frame of the sender straddles an emission of its buffer. |
| BufferedMerge.InterruptionMergesExactly | internal/host/host.go:58-64 | At every emission that ends inside a frame, the run in which another writer's frame comes next is possible, and what the receiver parses is a merge if and only if the interruption goes unnoticed. |
| BufferedMerge.PacketsVary | internal/crypto/crypto.go:77-88 | A lawful cipher that gives one control message different packets under more nonces than the packet has bytes (12-byte nonces are sent along) provides such a set of frames: the sealed packets, which are all the others write. |
| BufferedMerge.KindsVary | internal/protocol/protocol.go:124-136 | So do all frames of any one kind, of any least size. |
| BufferedMerge.FullPacketIsSplit | internal/transfer/transfer.go:209-242 | The sealed packet of a full-size chunk is always split by the 256 KiB buffer, however full that is. |
| BufferedMerge.FullChunkBreaks | internal/transfer/transfer.go:209-242 | So for a transfer with a full-size chunk, and a cipher that gives one control message that many packets, there are sealed control messages and a schedule under which what the receiver parses is no merge (lines 190-192 of the repository's README.md say that the mutex prevents this). |
| BufferedMerge.SmallTransferMerges | internal/transfer/transfer.go:209-242 | A transfer whose packets fit the buffer together is safe under every schedule, whatever the others write. |
| FrameMerge.IntruderGarblesFrame | internal/host/host.go:58-64 | If another frame gets in between within a payload, where its type differs from the byte it displaces, the receiver reads a frame of the announced length that is not the one sent. |
| HostToReceiver.ScheduleMakesWire | internal/host/host.go:46-64 | Every complete schedule of the mutex puts each transfer's chunks on the wire in order and in full. |
| HostToReceiver.DeliveredUnderAnySchedule | internal/host/host.go:352-372 | From the write mutex to the files: senders and broadcasts sharing a connection under any schedule of whole frames deliver every source, completed exactly once. |
| HostToReceiver.DeliveredThroughBuffers | internal/host/host.go:352-372 | From the senders' buffers to the files: if no packet straddles an emission of its buffer, every schedule of the emissions and of the other writers' frames delivers every source, completed exactly once. |
| HostToReceiver.CompletedSendsDeliver | internal/transfer/transfer.go:206-266 | From the send loop to the files: if each transfer was sent by a loop that ended Completed, with its packets never straddling an emission, every schedule of what their writers emitted and of the others' frames delivers every source, completed exactly once. |
| Lifecycle.NoMissedDeregistration | internal/host/host.go:417-440 | In every run: the transfer is dropped at most once, and when all tracked peers are settled, the queue is empty and the drain goroutine idle, it has been dropped; as long as it is settled and registered a terminal message is queued or in hand, or the drop is decided. |
| Lifecycle.PeerLife | internal/host/host.go:352-383 | In every run in which receivers reject only offers they list and no answer overtakes the fan-out's own record, failing answers included, each peer's recorded states are a prefix of Disconnected, of Waiting-Rejected, or of Waiting-Accepted-InProgress-Completed or -Failed; at most one send runs per peer, and exactly for those that accepted. |
| Lifecycle.TerminalStays | internal/transfer/transfer.go:95-104 | In those runs a terminal state is never left again. |
| Lifecycle.DropIsFinalExactly | internal/host/host.go:429-454 | In a run with the two assumptions of PeerLife: once the drain goroutine decides to drop the transfer, nothing is recorded for it any more in any continuation with these assumptions, if and only if the fan-out had finished by then. |
| Announcements.ToldInOrder | internal/transfer/transfer.go:128-139 | In every run what the drain goroutine has taken from the progress channel, and then what is still in it, are all the news in order: the outcome of each offer, each answer, the beginning, progress and end of each send; and each peer's recorded states are what the news, progress aside, say about it. |
| Announcements.DroppedForAReason | internal/host/host.go:417-440 | In every run that drops the transfer there was a moment at which the drain goroutine held a last word (Rejected, Completed, Failed or Disconnected) and every tracked peer had said one. |
| Announcements.DecisionStands | internal/host/host.go:432-440 | From such a moment on, in every continuation, the drain goroutine takes nothing more and does nothing but drop the transfer. |
| Announcements.DroppedAfterOffering | internal/host/host.go:434-455 | In every run, when the transfer is dropped, the fan-out is over: every peer has had its offer and the outcome is recorded, because dropping takes the lock that the fan-out holds. |
| Disorder.AnswerIsOverwritten | internal/host/host.go:448-452 | A reachable state in which an answer was recorded first and Waiting over it, with nothing left under way: the ordering assumption is needed. |
| Disorder.RejectionIsOvertaken | internal/receiver/receiver.go:530-541 | A reachable state in which a rejection sent after an acceptance is followed by InProgress: the assumption that offers are answered once is needed. |
| Disorder.AcceptanceIsIgnored | internal/host/host.go:352-359 | A reachable state in which dropping the transfer was decided before the second peer was offered it, whose acceptance was then ignored for good. |
| Disorder.RecordKeepsLifeExactly | internal/host/host.go:352-383 | In every state of such a run: recording an answer keeps the peer's record to one of those lives if and only if the fan-out is not about to record the same peer. |
| Disorder.StrayRejectionExactly | internal/receiver/receiver.go:530-541 | In every state of such a run: a rejection of an offer that is not listed can be followed, without any further disorder, by a record that is none of those lives if and only if the transfer has not been dropped by then. |
| ReceiverSteps.BookkeepingIsSafe | internal/receiver/receiver.go:375-511 | In every interleaving of the read loop with accept, reject and close calls: the writers and the save paths have the same keys at every release of the lock, the progress channel is closed at most once and never sent on afterwards, and no transfer whose announced size is not zero is reported completed or failed more than once. |
| ReceiverSteps.StepKeeps | internal/receiver/receiver.go:365-453 | The invariant behind that is kept by every single step. |
| ReceiverSteps.LateChunksChangeNothing | internal/receiver/receiver.go:375-382 | From a state in which nothing is under way for a transfer, no run without accepting it anew finds a writer for it or reports anything about it. |
| ReceiverSteps.NothingAfterTheReport | internal/receiver/receiver.go:375-453 | In every run: once a transfer that is not empty and was accepted once has been reported completed or failed, whatever chunks arrive for it and whatever is called, short of accepting it anew, no writer is found for it and nothing more is reported about it. |
| ReceiverSteps.ReportedOnceExactly | internal/receiver/receiver.go:375-511 | Transfers of a given size are reported completed or failed at most once, in every reachable state, if and only if that size is not zero. |
| ReceiverSteps.EmptyIsReportedTwice | internal/receiver/receiver.go:375-392 | A reachable state in which an empty transfer has been reported completed by its acceptance and then failed, because a chunk for it had found its writer and was refused. |
| ReceiverSteps.FolderNameIsLeft | internal/receiver/receiver.go:471-487 | A reachable state with a folder name that belongs to no save path. |
| WriterLeaks.NoneLeaks | internal/receiver/receiver.go:375-511 | In every interleaving in which no transfer is accepted twice, whenever nobody is in the middle of anything, each file that was opened is closed or can still be found under its transfer; closing the receiver then closes all. |
| WriterLeaks.LeaksExactly | internal/receiver/receiver.go:488-489 | For any list of accepted transfers: no run loses an open file if and only if no transfer is in the list twice; otherwise some run leaves one that even closing the receiver does not close, because the second acceptance overwrites the entry. |
| WriterLeaks.NothingAfterClose | internal/receiver/receiver.go:572-586 | Once the receiver has been closed, whatever was under way, no writer it had is written to or finished. |
| HandlerRuns.ChunkRuns | internal/receiver/receiver.go:375-453 | What a chunk does to the receiver, uninterrupted, is a run of the steps of its read loop. |
| HandlerRuns.ConnectionRuns | internal/receiver/receiver.go:256-283 | So is the read loop over a whole connection, from any state the two have in common, with the closing of the channel at its end. |
| HandlerRuns.CallsAreARun | internal/receiver/receiver.go:256-586 | Whatever frames arrive and whatever accepting, rejecting and closing calls are made on a new receiver, in any order, failing ones included, as long as no offer of an absurd size is accepted: the offers, writers, save paths, folder names and reports it ends with are those of a run of the interleaved system; so its writers and save paths have the same keys. |
| Handshake.AuthKeyExactly | internal/crypto/pin.go:109-113 | With host keys of one length, two derived authentication keys are equal if and only if the secrets, both ordered public keys and the room keys are. |
| Handshake.WhatIsSigned | internal/crypto/pin.go:93-127 | A session's tag is the MAC of its own role's name under the key derived from the common secret, the hash of the host's and then the receiver's public key, and `godrop-v1-pin-auth` with the room key behind it. |
| Handshake.LengthsAreNeeded | internal/crypto/pin.go:110 | Without the fixed length, different pairs of public keys can give the same authentication key. |
| Handshake.TagsAgree | internal/crypto/pin.go:97-127 | One session's tag is what another expects if and only if they have opposite roles, the same room key and each other's public keys. |
| Handshake.Agreement | internal/receiver/receiver.go:178-232 | For any number of sessions and a network that may replace every message and compute any tag under a room key it holds: whenever a session has accepted, then, unless the adversary holds its room key, an honest session of the opposite role with the same room key and the same two public keys has sent its tag (and, if it is the host, verified the receiver). |
| Handshake.NoReflection | internal/crypto/pin.go:97-102 | No session is convinced by a tag computed in its own role. |
| Handshake.KeyHolderIsAccepted | internal/receiver/receiver.go:215-231 | The exception is needed: an adversary with the room key can make a receiver accept with no honest host present. |
| Handshake.UntamperedExactly | internal/host/host.go:151-174 | On an untampered connection, however the two ends take turns, when no message is left both have accepted if and only if their room keys are equal and not empty, and otherwise neither has. |
| Handshake.ReceiverEnd.Connect | internal/receiver/receiver.go:107-136 | What the receiver's straight-line code sends, and whether it succeeds, is what its session in the theorems above does with the incoming messages. |
| Handshake.ReceiverEnd.HandleAuthChallenge | internal/receiver/receiver.go:178-232 | The authentication part of it, with an empty room key refused before any tag is sent. |
| Handshake.HostEnd.HandleConn | internal/host/host.go:151-179 | The same for the host: a peer is registered exactly when the host's session accepts. |
| Handshake.HostEnd.VerifyAuth | internal/host/host.go:224-268 | The host sends its own tag only after the receiver's tag has been verified. |
| Conversation.TagsOf | internal/crypto/pin.go:93-127 | Each end makes that tag for its own role, and is convinced by that tag for the other role and by no other. |
| Conversation.HostAcceptsExactly | internal/host/host.go:151-179 | Whatever it hears, a host registers a peer if and only if it hears a key on the curve, the receiver's tag for both keys and the room key, and a request to join, in this order; it says its key and the challenge after the first, its tag after the second, and nothing else. |
| Conversation.ReceiverAcceptsExactly | internal/receiver/receiver.go:107-240 | Whatever it hears, a receiver joins if and only if it has a room key and hears a key on the curve, a challenge, and the host's tag; it says its tag after the second, its request to join after the third, and nothing else. |
| RoomKey.ParseFormatted | internal/crypto/pin.go:32-65 | Parsing the formatted text of raw bytes gives them back if and only if there are 16 of them. |
| RoomKey.FormattedAt | internal/crypto/pin.go:32-43 | The formatted text, place by place: after every eight digits a dash, and the digits those of the bytes, high half first, in upper case. |
| RoomKey.DigitsExactly | internal/crypto/pin.go:67-78 | A byte is a digit of value v if and only if it stands at place v of `0123456789ABCDEF` or of `0123456789abcdef`. |
| RoomKey.ParsesExactly | internal/crypto/pin.go:47-65 | A text parses if and only if it consists of dashes, anywhere, and of exactly 32 hexadecimal digits; and then to 16 bytes. |
| RoomKey.SameKeyExactly | internal/crypto/pin.go:47-78 | Two accepted texts mean the same key if and only if they agree after dashes are taken out and case is folded (section 8 of RFC 4648). |
| RoomKey.FormatParsed | internal/crypto/pin.go:32-65 | Formatting a parsed key gives the canonical text: upper case, in groups of eight digits. |
| RoomKey.FormatRoomKey | internal/crypto/pin.go:32-43 | The grouping loop produces the formatted text for raw bytes of any length. |
| RoomKey.ParseRoomKey | internal/crypto/pin.go:47-65 | The decoding loop succeeds exactly on those texts, with the bytes whose digits they are up to case; otherwise it reports how many bytes are no dashes, if not 32, and else the first byte of the text that is neither a dash nor a digit. |
| Paths.ParseIsNormal | internal/receiver/archive.go:36 | Cleaning any path leaves a normal form: proper names, preceded only in unrooted paths by `..` components. |
| Paths.CleanIdempotent | internal/receiver/archive.go:36 | Cleaning a cleaned path changes nothing. |
| Paths.ParseShow | internal/receiver/archive.go:36 | Printing a normal form and parsing it gives the same path. |
| Paths.JoinCleaned | internal/receiver/archive.go:36-41 | Joining a cleaned path that does not climb out appends its components. |
| PathLaws.NameCancels | internal/receiver/archive.go:36 | A proper name and the `..` behind it cancel, anywhere in a path. |
| PathLaws.EmptyMeansNothing | internal/receiver/archive.go:36 | Empty and `.` components and a slash at the end mean nothing. |
| PathLaws.RootHasNoParent | internal/receiver/archive.go:36 | A `..` right below the root means nothing. |
| PathLaws.CleanTexts | internal/receiver/archive.go:36 | Texts that are proper names behind the root, or behind any number of `..`, are left as they are. |
| PathLaws.CleanFromRight | internal/receiver/archive.go:36 | Cleaning, by a reading of its own from right to left: what remains are the names that no later `..` takes away, behind those `..` that find no name, which a rooted path drops. |
| PathLaws.JoinIsClean | internal/receiver/archive.go:19 | Joining is cleaning the two elements with a slash between them; an empty element does not count, and joining two is empty. |
| Archive.TargetIsContained | internal/receiver/archive.go:28-41 | Every entry name, with backslashes, doubled slashes, rooted remainders or embedded `..`, is skipped, refused, or lands on a path whose components are the root's followed by proper names. |
| Archive.RefusedExactly | internal/receiver/archive.go:36-39 | An entry is refused if and only if what follows the first separator climbs out once cleaned, which `PathLaws.RefusedByCounting` says by counting. |
| PathLaws.RefusedByCounting | internal/receiver/archive.go:28-39 | An entry is refused if and only if what follows the first separator is not rooted and some run of its components from the start has more `..` than names. |
| Archive.DirIsAbove | internal/host/archive.go:18 | A directory path that does not end in `..` lies below its `Dir` by its own last name. |
| Archive.CreateArchive | internal/host/archive.go:11-54 | For a path that does not end in `..` the walk writes one entry for every folder and file in it, in walk order, directories with a slash at the end, links left out; nothing at all if the path itself ends in the name of a link. |
| Archive.ExtractFolder | internal/receiver/archive.go:12-77 | The loop over the entries has the specified effect, which `FolderRoundTrip.EntryWorksExactly` says for one entry, and stops at the first entry that is refused or cannot be made. |
| FolderTree.WalkSound | internal/host/archive.go:20-23 | What the walk visits is in the folder, at the place it is visited at. |
| FolderTree.WalkComplete | internal/host/archive.go:20-23 | Everything in the folder is visited by the walk. |
| FolderTree.WalkOrder | internal/host/archive.go:20-23 | The walk visits everything once, and a directory before what is in it. |
| FolderRoundTrip.EntryWorksExactly | internal/receiver/archive.go:43-73 | An entry with a place can be made if and only if no file stands where a directory is needed, and no directory where its file goes. |
| FolderRoundTrip.FolderRoundTrip | internal/receiver/archive.go:12-77 | For every folder that receivers do not refuse, offered as itself or through a link, for every entry order and fresh target: extracting its archive restores the tree without its links, empty directories included and the root renamed, if and only if the offered path ends in a name that is not a link, some child is not a link and no name inside has a backslash. |
| FolderRoundTrip.LinkIsLost | internal/host/archive.go:20-27 | A folder offered through the name of a link to it is archived as nothing, and extracting that changes nothing and reports no error. |
| FolderRoundTrip.ElsewhereStays | internal/receiver/archive.go:28-73 | Whatever the entries are and however the extraction ends, what stands outside the target root is left as it was. |
| FolderRoundTrip.BackslashIsLost | internal/receiver/archive.go:28 | A tree with a backslash in a name is never restored. |
| FolderRoundTrip.EmptyFolderIsLost | internal/receiver/archive.go:31-34 | A folder with nothing but links in it, whose own name has no backslash, is not restored. |
| FolderRoundTrip.NamelessIsLost | internal/host/archive.go:18-37 | A folder with plain names, offered under a path that does not end in a name, is not restored. |
| FolderDelivery.FolderEndToEnd | internal/receiver/receiver.go:420-453 | A folder packed, sent in chunks and received: the transfer is reported completed, and on the disk nothing has changed but that the tree, links left out, stands next to where the archive was, if and only if the offered path ends in a name that is not a link, some child is not a link and no name inside has a backslash. |
| FolderDelivery.LinkedFolderCompletes | internal/host/host.go:385-397 | A link to a folder, offered by its name, is accepted as a folder by the host; the transfer is reported completed, and the receiver's disk is as it was before. |
| FolderDelivery.FolderAcceptStarts | internal/receiver/receiver.go:467-490 | Accepting a folder offer on a free path is the start of such a transfer. |
| FolderDelivery.OtherFoldersAreRefused | internal/receiver/receiver.go:318-322 | An offer of a folder whose own name is `..` or has a backslash is dropped by the receiver. |
| SavePath.SanitizedIsSafe | internal/receiver/receiver.go:342-357 | Every non-empty result is a single safe name (no separator, colon or NUL, not `.` or `..`, no outer white space), and the safe names are exactly those left as they are. For all other texts see `SaveNames.SanitizedExactly`. |
| SavePath.SanitizeIdempotent | internal/receiver/receiver.go:342-357 | Sanitising twice is sanitising once. |
| SavePath.RefusedNames | internal/receiver/receiver.go:342-357 | The name `..` and every name with a backslash are refused. |
| SaveNames.TextOf | internal/receiver/receiver.go:342-357 | Every text is white space around a directory, a last component that is a name between white space, and slashes behind it. |
| SaveNames.SanitizedExactly | internal/receiver/receiver.go:342-357 | Sanitising such a text gives that name, or nothing if the text has a backslash, colon or NUL or the name is empty, `.` or `..`. |
| SaveNames.PaddedNames | internal/receiver/receiver.go:342-357 | A safe name is found behind any directories without forbidden characters and within any white space. |
| SaveNames.SpacesAreSpaces | internal/receiver/receiver.go:343 | White space is the 25 characters of the Unicode property, listed one by one. |
| SavePath.SanitizedAddsOneComponent | internal/receiver/receiver.go:342-357 | Joined to any directory, a sanitised name adds exactly one component. |
| SavePath.CandidatesDiffer | internal/receiver/receiver.go:522-523 | Candidates with different numbers are different paths. |
| SavePath.UniquePath | internal/receiver/receiver.go:513-528 | On any finite set of existing paths the search ends within one probe more than there are paths, with a path that does not exist: the original, or else the least-numbered free candidate, which `SaveNames.FirstFreeIsNumbered` gives as text. |
| SaveNames.FirstFreeIsNumbered | internal/receiver/receiver.go:513-528 | In the text: of a path that is a directory, a stem and an extension (the last dot of the name and what follows it, if it has one), the path chosen is the path itself if it is free, and otherwise stem, `(`, a number of at least 1 without leading zeros, `)` and extension in the same directory, with the least number that is free; and conversely. |

## Left out

- Cryptographic primitives (`internal/crypto/crypto.go`): key generation, ECDH, AES-GCM, HKDF and HMAC are symbolic terms or an abstract sealing and opening pair. Nonces appear as a number passed to the seal.
- JSON encoding of control messages: payloads are abstract values.
- The zip byte format: an abstract pair of functions between lists of (name, bytes) and byte strings; modes and times of files are not modelled.
- Sockets, deadlines, mDNS discovery, the command line, both terminal interfaces and the clipboard: input, output and presentation.
- Blocking: channels are unbounded queues in `Lifecycle` and `ReceiverSteps`, and nothing is claimed about deadlock or progress. `SetState` and `sendProgress` both send while they hold a lock.
- The offer and system-event channels of the receiver and the event broadcasts of the host: best-effort signals to the interface. On the wire broadcasts are frames that carry no chunk.
- The host's peer map: registration overwrites and departure deletes by peer id, so it need not be the set of live connections when ids repeat.
- Several transfers in `Lifecycle`: it follows one; transfers of one host share no state but the map they are registered in.
- `peerOffset` in `Lifecycle`: offsets are in `Transfer.Transfer.SendToPeer` only.
- Lifecycle.PeerLife: assumes that no answer is recorded while the fan-out is about to record Waiting for the same peer, and that receivers reject only offers they list; `Disorder.RecordKeepsLifeExactly` and `Disorder.StrayRejectionExactly` say exactly what happens otherwise.
- Lifecycle.DropIsFinalExactly: has the same two assumptions, about the run before the decision and about the continuations; without them a second rejection by a settled peer is still recorded before the entry is deleted.
- HostToReceiver.DeliveredThroughBuffers: senders whose packets straddle an emission are delivered only as long as nobody else writes in between, which the code does not ensure.
- Delivery.EndToEnd: assumes that the operating system carries out every seek and write; the failing cases are in `Receiver.Receiver.HandleChunk` and `FileWriting.FileWriter.WriteChunk`.
- OfferDelivery.OfferedFolderArrives: the folder is alone on its connection, and the assumptions of `FolderDelivery.FolderEndToEnd` about the disk and its tree apply.
- HandlerRuns.CallsAreARun: for accepted offers of at most 2^63 - 2^32 bytes; above that the range test of a chunk can wrap, which `ReceiverSteps` does not model.
- Outcomes.ChunkOutcome: for the same sizes, for the same reason; `FileWriting.RangeTestExact` says when the test is wrong.
- Collision.ApartExactly: two transfers; others may be open on the receiver, but only the chunks of these two arrive meanwhile.
- FolderRoundTrip.FolderRoundTrip: not for offered paths ending in `..` or in a name with a backslash; receivers drop such offers (`FolderDelivery.OtherFoldersAreRefused`).
- FolderDelivery.FolderEndToEnd: one folder on its own; what restoring it does to other transfers being received is not modelled. That the extraction acts on the disk as `Archive.ExtractAll` acts on the tree, and that removing the archive takes its path off the tree, are assumptions, since the disk has names and inodes and no directories.
- Archive.CreateArchive: not for paths ending in `..`, where `filepath.Rel` climbs out of its base; such an offer is named `..` and dropped by every receiver.
- Archive.DirIsAbove: not for paths ending in `..`, for the same reason.
- FolderRoundTrip.EmptyFolderIsLost: not for folders whose own name has a backslash, as in a trailing one, behind which the root would be made; such offers are dropped by every receiver.
- BufferedMerge.MergesExactly: the set of frames others may write must be varied enough; with one that is not, such as an empty one, a split frame can go unharmed.
- Handshake.Agreement: agreement is not injective; nothing is claimed about how many sessions agree with the same one, or about secrecy.
- SavePath.UniquePath: errors of `os.Stat` other than non-existence count as existing, as in the code, by way of the given set of names.
- Windows path rules: paths are separated by slashes, and `filepath.Rel` is modelled for paths below the base.
- `WriteChunkToFile` (internal/transfer/transfer.go:348-360): not called by the transfer path.
