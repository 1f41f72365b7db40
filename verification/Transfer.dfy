/** The sending side of a transfer (internal/transfer/transfer.go:51-266). */
module Transfer {
  import opened Bytes
  import opened Protocol
  import opened BufferedWriter
  import opened ChunkCodec
  import opened Cipher
  import opened PeerStates
  import Crc32

  const BUFFER_SIZE: nat := 256 * 1024
  const PROGRESS_CAPACITY: nat := 100

  datatype PeerProgress = PeerProgress(peer: string, id: seq<byte>, offset: int64, total: int64, state: TransferState)

  // ---------- Chunks of a file ----------

  function End(c: Chunk): int { c.offset + |c.data| }

  /** The chunk is a non-empty piece of the source at its offset. */
  predicate Piece(c: Chunk, id: seq<byte>, src: seq<byte>) {
    && c.id == id
    && 0 <= c.offset && 0 < |c.data| <= CHUNK_SIZE
    && End(c) <= |src| && c.data == src[c.offset..End(c)]
    && c.checksum == Crc32.Checksum(c.data)
  }

  /** The chunks are pieces laid end to end from the start of the file. */
  predicate LaidOut(cs: seq<Chunk>, id: seq<byte>, src: seq<byte>) {
    && (cs != [] ==> cs[0].offset == 0)
    && (forall k :: 0 <= k < |cs| ==> Piece(cs[k], id, src))
    && (forall k :: 0 < k < |cs| ==> cs[k].offset == End(cs[k - 1]))
  }

  /** How far a laid-out chunk list reaches. */
  function Reach(cs: seq<Chunk>): int {
    if cs == [] then 0 else End(cs[|cs| - 1])
  }

  /** The chunks tile the whole file. */
  predicate Tiles(cs: seq<Chunk>, id: seq<byte>, src: seq<byte>) {
    LaidOut(cs, id, src) && Reach(cs) == |src|
  }

  function DataOf(cs: seq<Chunk>): seq<byte> {
    if cs == [] then [] else DataOf(cs[..|cs| - 1]) + cs[|cs| - 1].data
  }

  /** The data of laid-out chunks, put together, is the file up to their reach. */
  lemma {:induction false} LaidOutData(cs: seq<Chunk>, id: seq<byte>, src: seq<byte>)
    requires LaidOut(cs, id, src)
    ensures 0 <= Reach(cs) <= |src| && DataOf(cs) == src[..Reach(cs)]
  {
    hide Crc32.Checksum;
    if cs != [] {
      var before, c := cs[..|cs| - 1], cs[|cs| - 1];
      LaidOutData(before, id, src);
      assert c.offset == Reach(before);
      assert src[..End(c)] == src[..c.offset] + src[c.offset..End(c)];
    }
  }

  /** Offsets are the running sums of the data lengths. */
  lemma {:induction false} OffsetsAreRunningSums(cs: seq<Chunk>, id: seq<byte>, src: seq<byte>, k: nat)
    requires LaidOut(cs, id, src) && k < |cs|
    ensures cs[k].offset == |DataOf(cs[..k])|
  {
    LaidOutData(cs[..k], id, src);
  }

  // ---------- Reading the source ----------

  /** The result of one `Read` call: `n` bytes, then possibly the end of the
      file; or an error, whose bytes the code drops. */
  datatype ReadResult = Read(n: nat, eof: bool) | ReadError

  /** A sequence of results a file of `remaining` bytes can give; the loop ends
      with an error or the end of the file. */
  predicate Readable(remaining: nat, plan: seq<ReadResult>) {
    if plan == [] then false
    else
      match plan[0]
      case ReadError => |plan| == 1
      case Read(n, eof) =>
        && n <= CHUNK_SIZE && n <= remaining
        && if eof then n == remaining && |plan| == 1 else Readable(remaining - n, plan[1..])
  }

  predicate ReadFails(plan: seq<ReadResult>) {
    plan != [] && plan[|plan| - 1].ReadError?
  }

  /** The chunks that come of the reads, from `offset` on. */
  function ChunksRead(id: seq<byte>, src: seq<byte>, plan: seq<ReadResult>, offset: nat): seq<Chunk>
    requires offset <= |src| < TWO_63 && Readable(|src| - offset, plan)
    decreases |plan|
  {
    match plan[0]
    case ReadError => []
    case Read(n, eof) =>
      var data := src[offset..offset + n];
      (if n > 0 then [Chunk(id, offset, data, Crc32.Checksum(data))] else []) +
      (if eof then [] else ChunksRead(id, src, plan[1..], offset + n))
  }

  /** Pieces laid end to end from `offset` on, up to `end`. */
  ghost predicate LaidBetween(cs: seq<Chunk>, id: seq<byte>, src: seq<byte>, offset: int, end: int) {
    && (if cs == [] then offset == end else cs[0].offset == offset && End(cs[|cs| - 1]) == end)
    && (forall k :: 0 <= k < |cs| ==> Piece(cs[k], id, src))
    && (forall k :: 0 < k < |cs| ==> cs[k].offset == End(cs[k - 1]))
  }

  lemma LaidCons(c: Chunk, cs: seq<Chunk>, id: seq<byte>, src: seq<byte>, end: int)
    requires Piece(c, id, src) && LaidBetween(cs, id, src, End(c), end)
    ensures LaidBetween([c] + cs, id, src, c.offset, end)
  {
    hide Piece;
    var all := [c] + cs;
    forall k | 0 < k < |all| ensures all[k].offset == End(all[k - 1]) {
      assert all[k] == cs[k - 1];
    }
  }

  /** Whatever the read sizes, the chunks lie end to end, and up to the end of
      the file unless reading fails. */
  lemma {:induction false} ReadingLaysOut(id: seq<byte>, src: seq<byte>, plan: seq<ReadResult>, offset: nat)
      returns (end: nat)
    requires offset <= |src| < TWO_63 && Readable(|src| - offset, plan)
    ensures LaidBetween(ChunksRead(id, src, plan, offset), id, src, offset, end) && end <= |src|
    ensures !ReadFails(plan) ==> end == |src|
    decreases |plan|
  {
    hide Crc32.Checksum, LaidBetween, ChunksRead, Readable;
    ReadableIsNotEmpty(|src| - offset, plan);
    LaidNone(id, src, offset);
    end := offset;
    if plan[0].ReadError? {
      ReadNothing(id, src, plan, offset);
    } else {
      var next := ReadOne(id, src, plan, offset);
      var rest: seq<Chunk> := [];
      if plan[0].eof {
        end := offset + plan[0].n;
        LaidNone(id, src, end);
      } else {
        end := ReadingLaysOut(id, src, plan[1..], offset + plan[0].n);
        rest := ChunksRead(id, src, plan[1..], offset + plan[0].n);
      }
      if plan[0].n > 0 {
        ReadPiece(id, src, offset, plan[0].n);
        LaidCons(next[0], rest, id, src, end);
        assert next == [next[0]];
      } else {
        assert next + rest == rest;
      }
    }
  }

  lemma ReadPiece(id: seq<byte>, src: seq<byte>, offset: nat, n: nat)
    requires 0 < n <= CHUNK_SIZE && offset + n <= |src| < TWO_63
    ensures Piece(Chunk(id, offset, src[offset..offset + n], Crc32.Checksum(src[offset..offset + n])), id, src)
  {
    hide Crc32.Checksum;
  }

  lemma LaidNone(id: seq<byte>, src: seq<byte>, offset: nat)
    ensures LaidBetween([], id, src, offset, offset)
  {
  }

  lemma ReadingTiles(id: seq<byte>, src: seq<byte>, plan: seq<ReadResult>)
    requires |src| < TWO_63 && Readable(|src|, plan)
    ensures LaidOut(ChunksRead(id, src, plan, 0), id, src)
    ensures !ReadFails(plan) ==> Tiles(ChunksRead(id, src, plan, 0), id, src)
  {
    hide Piece, ChunksRead, Readable;
    var end := ReadingLaysOut(id, src, plan, 0);
  }

  /** A sequence of reads as the file hands it out, and what becomes of it. */
  method ReadChunks(id: seq<byte>, src: seq<byte>, plan: seq<ReadResult>) returns (chunks: seq<Chunk>, failed: bool)
    requires Readable(|src|, plan) && |src| < TWO_63
    ensures failed == ReadFails(plan)
    ensures chunks == ChunksRead(id, src, plan, 0) && LaidOut(chunks, id, src)
    ensures !failed ==> Tiles(chunks, id, src)
  {
    hide Crc32.Checksum, LaidOut, Tiles, ChunksRead, Readable;
    ReadingTiles(id, src, plan);
    chunks := [];
    var offset := 0;
    var i := 0;
    ReadableIsNotEmpty(|src|, plan);
    assert plan[0..] == plan && chunks + ChunksRead(id, src, plan, 0) == ChunksRead(id, src, plan, 0);
    while true
      invariant 0 <= offset <= |src|
      invariant i < |plan| && Readable(|src| - offset, plan[i..])
      invariant chunks + ChunksRead(id, src, plan[i..], offset) == ChunksRead(id, src, plan, 0)
      decreases |plan| - i
    {
      var result := plan[i];
      if result.ReadError? {
        failed := true;
        ReadNothing(id, src, plan[i..], offset);
        return;
      }
      ghost var before := chunks;
      ghost var next := ReadOne(id, src, plan[i..], offset);
      if result.n > 0 {
        var data := src[offset..offset + result.n];
        chunks := chunks + [Chunk(id, offset, data, Crc32.Checksum(data))];
        offset := offset + result.n;
      }
      assert chunks == before + next;
      if result.eof {
        failed := false;
        Regroup(before, next, []);
        return;
      }
      assert plan[i..][1..] == plan[i + 1..];
      ReadableIsNotEmpty(|src| - offset, plan[i + 1..]);
      Regroup(before, next, ChunksRead(id, src, plan[i + 1..], offset));
      i := i + 1;
    }
  }

  lemma Regroup(a: seq<Chunk>, b: seq<Chunk>, c: seq<Chunk>)
    ensures a + (b + c) == a + b + c && a + (b + []) == a + b + [] == a + b
  {
  }

  lemma ReadableIsNotEmpty(remaining: nat, plan: seq<ReadResult>)
    requires Readable(remaining, plan)
    ensures plan != []
  {
  }

  lemma ReadNothing(id: seq<byte>, src: seq<byte>, plan: seq<ReadResult>, offset: nat)
    requires offset <= |src| < TWO_63 && Readable(|src| - offset, plan) && plan[0].ReadError?
    ensures |plan| == 1 && ChunksRead(id, src, plan, offset) == []
  {
  }

  /** The chunk one read gives, if any. */
  lemma ReadOne(id: seq<byte>, src: seq<byte>, plan: seq<ReadResult>, offset: nat) returns (next: seq<Chunk>)
    requires offset <= |src| < TWO_63 && Readable(|src| - offset, plan) && plan[0].Read?
    ensures next == if plan[0].n > 0 then
                      [Chunk(id, offset, src[offset..offset + plan[0].n],
                             Crc32.Checksum(src[offset..offset + plan[0].n]))]
                    else []
    ensures ChunksRead(id, src, plan, offset) ==
            next + if plan[0].eof then [] else ChunksRead(id, src, plan[1..], offset + plan[0].n)
    ensures offset + plan[0].n <= |src| && plan[0].n <= CHUNK_SIZE
    ensures if plan[0].eof then |plan| == 1 && offset + plan[0].n == |src|
            else |plan| > 1 && Readable(|src| - (offset + plan[0].n), plan[1..])
  {
    hide Crc32.Checksum;
    next := if plan[0].n > 0 then
              [Chunk(id, offset, src[offset..offset + plan[0].n], Crc32.Checksum(src[offset..offset + plan[0].n]))]
            else [];
  }

  // ---------- Packets ----------

  /** The frames are packets that open to the encoded chunks, one for one. */
  ghost predicate Sealed(open: seq<byte> -> Option<seq<byte>>, frames: seq<Frame>, cs: seq<Chunk>) {
    && |frames| == |cs|
    && forall k :: 0 <= k < |cs| ==> SealedChunk(open, frames[k], cs[k])
  }

  ghost predicate SealedChunk(open: seq<byte> -> Option<seq<byte>>, f: Frame, c: Chunk) {
    f.kind == MSG_ENCRYPTED_PACKET && Fits(f) && open(f.payload) == Some(EncodeChunk(c))
  }

  /** The `n`-th chunk framed, sealed and framed again. */
  function Packet(cipher: Cipher, n: nat, c: Chunk): Option<Frame> {
    match cipher.seal(n, EncodeChunk(c))
    case None => None
    case Some(sealed) => Some(Frame(MSG_ENCRYPTED_PACKET, sealed))
  }

  predicate SealsAll(cipher: Cipher, cs: seq<Chunk>) {
    forall k :: 0 <= k < |cs| ==> Packet(cipher, k, cs[k]).Some?
  }

  function Packets(cipher: Cipher, cs: seq<Chunk>): (fs: seq<Frame>)
    requires SealsAll(cipher, cs)
    ensures |fs| == |cs| && forall k :: 0 <= k < |cs| ==> fs[k] == Packet(cipher, k, cs[k]).value
  {
    if cs == [] then []
    else
      var n := |cs| - 1;
      assert forall k :: 0 <= k < n ==> cs[..n][k] == cs[k];
      Packets(cipher, cs[..n]) + [Packet(cipher, n, cs[n]).value]
  }

  lemma PacketIsSealed(cipher: Cipher, n: nat, c: Chunk, id: seq<byte>, src: seq<byte>)
    requires cipher.Lawful() && Piece(c, id, src) && |id| < 256 && Packet(cipher, n, c).Some?
    ensures SealedChunk(cipher.open, Packet(cipher, n, c).value, c)
  {
    hide EncodeChunk, Crc32.Checksum, ParseFrame, DecodeBody, DecodeChunk;
    PieceDecodes(c, id, src);
  }

  lemma PacketsAreSealed(cipher: Cipher, cs: seq<Chunk>, id: seq<byte>, src: seq<byte>)
    requires cipher.Lawful() && LaidOut(cs, id, src) && |id| < 256 && SealsAll(cipher, cs)
    ensures Sealed(cipher.open, Packets(cipher, cs), cs)
  {
    hide Packet, Piece, SealedChunk;
    forall k | 0 <= k < |cs| ensures SealedChunk(cipher.open, Packets(cipher, cs)[k], cs[k]) {
      PacketIsSealed(cipher, k, cs[k], id, src);
    }
  }

  lemma PacketsPrefix(cipher: Cipher, cs: seq<Chunk>, k: nat)
    requires k <= |cs| && SealsAll(cipher, cs)
    ensures SealsAll(cipher, cs[..k]) && Packets(cipher, cs[..k]) == Packets(cipher, cs)[..k]
  {
    hide Packet;
  }

  lemma PacketsSnoc(cipher: Cipher, cs: seq<Chunk>, k: nat)
    requires k < |cs| && SealsAll(cipher, cs[..k]) && Packet(cipher, k, cs[k]).Some?
    ensures SealsAll(cipher, cs[..k + 1])
    ensures Packets(cipher, cs[..k + 1]) == Packets(cipher, cs[..k]) + [Packet(cipher, k, cs[k]).value]
  {
    hide Packet;
    assert cs[..k + 1] == cs[..k] + [cs[k]];
    assert forall j :: 0 <= j < k ==> cs[..k + 1][j] == cs[..k][j];
  }

  /** What a packet frame carries for the receiver: outer frame, decryption,
      inner frame, chunk body. */
  function Unpack(open: seq<byte> -> Option<seq<byte>>, f: Frame): Option<Chunk> {
    if f.kind != MSG_ENCRYPTED_PACKET then None
    else
      match open(f.payload)
      case None => None
      case Some(plain) => DecodeChunk(plain)
  }

  function UnpackAll(open: seq<byte> -> Option<seq<byte>>, fs: seq<Frame>): seq<Option<Chunk>> {
    if fs == [] then [] else [Unpack(open, fs[0])] + UnpackAll(open, fs[1..])
  }

  function AllSome(cs: seq<Chunk>): seq<Option<Chunk>> {
    if cs == [] then [] else [Some(cs[0])] + AllSome(cs[1..])
  }

  /** The bytes of a sent transfer decode, through both framings and the
      cipher, to exactly its chunks. */
  lemma SentBytesDecode(open: seq<byte> -> Option<seq<byte>>, frames: seq<Frame>, cs: seq<Chunk>, id: seq<byte>,
                        src: seq<byte>)
    requires Sealed(open, frames, cs) && LaidOut(cs, id, src) && |id| < 256
    ensures UnpackAll(open, ParseFrames(EncodeFrames(frames))) == AllSome(cs)
    ensures Leftover(EncodeFrames(frames)) == []
  {
    ParseWholeStream(frames);
    UnpackSealed(open, frames, cs, id, src);
  }

  lemma {:induction false} UnpackSealed(open: seq<byte> -> Option<seq<byte>>, frames: seq<Frame>, cs: seq<Chunk>,
                                        id: seq<byte>, src: seq<byte>)
    requires Sealed(open, frames, cs) && |id| < 256
    requires forall k :: 0 <= k < |cs| ==> Piece(cs[k], id, src)
    ensures UnpackAll(open, frames) == AllSome(cs)
  {
    hide DecodeChunk, EncodeChunk, Crc32.Checksum;
    if cs != [] {
      assert SealedChunk(open, frames[0], cs[0]);
      assert Piece(cs[0], id, src);
      PieceDecodes(cs[0], id, src);
      forall k | 0 <= k < |cs| - 1
        ensures SealedChunk(open, frames[1..][k], cs[1..][k])
      {
        assert SealedChunk(open, frames[k + 1], cs[k + 1]);
      }
      UnpackSealed(open, frames[1..], cs[1..], id, src);
    }
  }

  lemma PieceDecodes(c: Chunk, id: seq<byte>, src: seq<byte>)
    requires Piece(c, id, src) && |id| < 256
    ensures |EncodeChunk(c)| + OVERHEAD < TWO_32
    ensures ParseFrame(EncodeChunk(c)) == Parsed(Frame(MSG_CHUNK, EncodeBody(c)), [])
    ensures DecodeBody(EncodeBody(c)) == Some(c)
    ensures DecodeChunk(EncodeChunk(c)) == Some(c)
  {
    hide EncodeBody, EncodeChunk, DecodeChunk, Crc32.Checksum;
    EncodedSizes(c);
    DecodeEncodedChunk(c);
  }

  // ---------- How sending ends ----------

  /** The next chunk cannot be sealed, or cannot be written. */
  predicate Blocked(cipher: Cipher, start: State, all: seq<Chunk>, k: nat)
    requires start.Valid() && k < |all| && SealsAll(cipher, all[..k])
  {
    PutFramesAccepts(start, Packets(cipher, all[..k]));
    match Packet(cipher, k, all[k])
    case None => true
    case Some(f) => PutFrame(PutFrames(start, Packets(cipher, all[..k])), f).failed
  }

  /** The reason to stop after `k` chunks. */
  ghost predicate StopsAt(cipher: Cipher, start: State, all: seq<Chunk>, failed: bool, noticed: Option<nat>, k: nat) {
    && start.Valid() && k < |all| && SealsAll(cipher, all[..k])
    && ((failed && noticed == Some(k)) || Blocked(cipher, start, all, k))
  }

  /** What the writer has taken when the loop ends after `k` chunks. */
  function AfterStop(cipher: Cipher, start: State, all: seq<Chunk>, failed: bool, noticed: Option<nat>, k: nat): State
    requires start.Valid() && k <= |all| && SealsAll(cipher, all[..k])
  {
    var sent := PutFrames(start, Packets(cipher, all[..k]));
    PutFramesAccepts(start, Packets(cipher, all[..k]));
    if k == |all| || (failed && noticed == Some(k)) then sent
    else
      match Packet(cipher, k, all[k])
      case None => sent
      case Some(f) => PutFrame(sent, f)
  }

  /** Sending completes exactly if every chunk can be sealed, the connection
      takes as many emissions as the packets cost, and no read error is
      noticed. */
  predicate Completes(cipher: Cipher, all: seq<Chunk>, plan: seq<ReadResult>, noticed: Option<nat>, budget: nat) {
    && SealsAll(cipher, all)
    && SendCost(BUFFER_SIZE, 0, Packets(cipher, all)) <= budget
    && !(ReadFails(plan) && noticed.Some?)
  }

  /** The buffered writer when all packets have been written and flushed. */
  function WriterAfter(fs: seq<Frame>, budget: nat, part: nat): State {
    BufferedWriter.Flush(PutFrames(NewState(BUFFER_SIZE, budget, part), fs))
  }

  /** The outcome of sending, exactly. */
  ghost predicate SendingEnds(cipher: Cipher, all: seq<Chunk>, plan: seq<ReadResult>, noticed: Option<nat>, budget: nat,
                              part: nat,
                              chunks: seq<Chunk>, writer: State, state: TransferState) {
    && (state.Completed? <==> Completes(cipher, all, plan, noticed, budget))
    // Completed: every packet has left the buffer, in order.
    && (state.Completed? ==>
          && chunks == all && SealsAll(cipher, all)
          && writer.buffered == [] && Flatten(writer.emitted) == EncodeFrames(Packets(cipher, all))
          && writer == WriterAfter(Packets(cipher, all), budget, part))
    // Failed: there was a reason, after a number of chunks, ...
    && (state.Failed? ==>
          && chunks <= all && SealsAll(cipher, chunks)
          && (chunks == all ||
              StopsAt(cipher, NewState(BUFFER_SIZE, budget, part), all, ReadFails(plan), noticed, |chunks|)))
    // ... and no other bytes have gone out.
    && (SealsAll(cipher, all) ==> Flatten(writer.emitted) <= EncodeFrames(Packets(cipher, all)))
  }

  lemma NothingSent(cipher: Cipher, start: State, all: seq<Chunk>)
    requires start.Valid()
    ensures all[..0] == [] && SealsAll(cipher, []) && PutFrames(start, Packets(cipher, [])) == start
  {
  }

  lemma AllSent(cipher: Cipher, start: State, all: seq<Chunk>, failed: bool, noticed: Option<nat>)
    requires start.Valid() && SealsAll(cipher, all)
    ensures all[..|all|] == all
    ensures AfterStop(cipher, start, all, failed, noticed, |all|) == PutFrames(start, Packets(cipher, all))
  {
    hide Packet, PutFrame, PutFrames;
    assert all[..|all|] == all;
  }

  /** The loop stops here because the read error is picked ... */
  lemma NoticedHere(cipher: Cipher, start: State, all: seq<Chunk>, k: nat)
    requires start.Valid() && k < |all| && SealsAll(cipher, all[..k])
    ensures StopsAt(cipher, start, all, true, Some(k), k)
    ensures PutFrames(start, Packets(cipher, all[..k])) == AfterStop(cipher, start, all, true, Some(k), k)
  {
  }

  /** ... or because the next chunk cannot be sent. */
  lemma BlockedHere(cipher: Cipher, start: State, all: seq<Chunk>, failed: bool, noticed: Option<nat>, k: nat)
    requires start.Valid() && k < |all| && SealsAll(cipher, all[..k]) && !(failed && noticed == Some(k))
    ensures PutFrames(start, Packets(cipher, all[..k])).Valid()
    ensures var sent, next := PutFrames(start, Packets(cipher, all[..k])), Packet(cipher, k, all[k]);
            && (next.None? || PutFrame(sent, next.value).failed ==> StopsAt(cipher, start, all, failed, noticed, k))
            && AfterStop(cipher, start, all, failed, noticed, k) ==
               match next case None => sent case Some(f) => PutFrame(sent, f)
  {
    hide Packet, PutFrame, PutFrames;
    PutFramesAccepts(start, Packets(cipher, all[..k]));
  }

  lemma {:induction false} PrefixDoesNotFail(w: State, fs: seq<Frame>, k: nat)
    requires w.Valid() && k <= |fs| && !w.failed
    ensures PutFrames(w, fs).Valid() && PutFrames(w, fs[..k]).Valid()
    ensures PutFrames(w, fs[..k]).failed ==> PutFrames(w, fs) == PutFrames(w, fs[..k])
    decreases |fs|
  {
    hide PutFrame;
    PutFramesAccepts(w, fs);
    PutFramesAccepts(w, fs[..k]);
    if k == 0 {
      assert fs[..k] == [];
    } else {
      PutFrameKeepsValid(w, fs[0]);
      var next := PutFrame(w, fs[0]);
      assert fs[..k][0] == fs[0] && fs[..k][1..] == fs[1..][..k - 1];
      if next.failed {
        FailedStays(next, fs[1..]);
        FailedStays(next, fs[1..][..k - 1]);
      } else {
        PrefixDoesNotFail(next, fs[1..], k - 1);
      }
    }
  }

  /** Stopping early is never followed by completion, and nothing but packets
      has gone out by then. */
  lemma StoppedIsIncomplete(cipher: Cipher, start: State, all: seq<Chunk>, plan: seq<ReadResult>, noticed: Option<nat>,
                            k: nat)
    requires start == NewState(BUFFER_SIZE, start.budget, start.part)
    requires StopsAt(cipher, start, all, ReadFails(plan), noticed, k)
    ensures !Completes(cipher, all, plan, noticed, start.budget)
    ensures SealsAll(cipher, all) ==>
              Flatten(AfterStop(cipher, start, all, ReadFails(plan), noticed,
                                k).emitted) <= EncodeFrames(Packets(cipher, all))
  {
    hide PutFrame, PutFrames, Packet, BufferedWriter.Flush, SendCost, ReadFails, Flatten, EncodeFrames;
    if SealsAll(cipher, all) {
      var fs := Packets(cipher, all);
      PacketsPrefix(cipher, all, k);
      PacketsPrefix(cipher, all, k + 1);
      PutFramesAccepts(start, fs[..k]);
      PutFramesSnoc(start, fs[..k], fs[k]);
      assert fs[..k + 1] == fs[..k] + [fs[k]];
      PrefixDoesNotFail(start, fs, k + 1);
      SendCostExactly(start, fs);
      PrefixGoesOut(start, fs, k);
      PrefixGoesOut(start, fs, k + 1);
      FlushKeepsFailure(PutFrames(start, fs));
    }
  }

  lemma PrefixGoesOut(start: State, fs: seq<Frame>, k: nat)
    requires start.Valid() && !start.failed && start.emitted == [] && start.buffered == [] && k <= |fs|
    ensures PutFrames(start, fs[..k]).Valid()
    ensures Flatten(PutFrames(start, fs[..k]).emitted) <= EncodeFrames(fs)
  {
    hide PutFrames, EncodeFrame;
    assert start.Accepted() == [];
    PutFramesDeliver(start, fs[..k]);
    FlushExtends(PutFrames(start, fs[..k]));
    assert fs == fs[..k] + fs[k..];
    EncodeFramesAppend(fs[..k], fs[k..]);
    assert [] + EncodeFrames(fs[..k]) == EncodeFrames(fs[..k]);
  }

  lemma FlushExtends(w: State)
    ensures Flatten(w.emitted) <= Flatten(BufferedWriter.Flush(w).emitted)
  {
    if !w.failed && w.buffered != [] {
      var more := BufferedWriter.Flush(w).emitted[|w.emitted|];
      FlattenSnoc(w.emitted, more);
    }
  }

  /** What comes of having sent all chunks. */
  lemma FinishedOutcome(cipher: Cipher, start: State, all: seq<Chunk>, plan: seq<ReadResult>, noticed: Option<nat>)
    requires start == NewState(BUFFER_SIZE, start.budget, start.part) && SealsAll(cipher, all)
    ensures PutFrames(start, Packets(cipher, all)).Valid()
    ensures var sent := PutFrames(start, Packets(cipher, all));
            && all[..|all|] == all
            && AfterStop(cipher, start, all, ReadFails(plan), noticed, |all|) == sent
            && (Completes(cipher, all, plan, noticed, start.budget) <==>
                !(ReadFails(plan) && noticed.Some?) && !BufferedWriter.Flush(sent).failed)
            && (!BufferedWriter.Flush(sent).failed ==>
                BufferedWriter.Flush(sent).buffered == [] &&
                Flatten(BufferedWriter.Flush(sent).emitted) == EncodeFrames(Packets(cipher, all)))
            && Flatten(sent.emitted) <= EncodeFrames(Packets(cipher, all))
            && Flatten(BufferedWriter.Flush(sent).emitted) <= EncodeFrames(Packets(cipher, all))
  {
    hide PutFrames, Packet, BufferedWriter.Flush, SendCost, ReadFails, EncodeFrames;
    var fs := Packets(cipher, all);
    assert all[..|all|] == all && fs[..|fs|] == fs;
    SendCostExactly(start, fs);
    FlushedFrames(start, fs);
    PrefixGoesOut(start, fs, |fs|);
    PutFramesDeliver(start, fs);
    assert [] + EncodeFrames(fs) == EncodeFrames(fs);
  }

  /** A read error need not be noticed: whenever reading fails and what was read
      can be sealed, some outcome of the select completes without the whole file
      exactly if the error came before the end of the file. */
  lemma UnnoticedErrorCompletes(cipher: Cipher, id: seq<byte>, src: seq<byte>, plan: seq<ReadResult>)
    requires |src| < TWO_63 && Readable(|src|, plan) && ReadFails(plan)
    requires SealsAll(cipher, ChunksRead(id, src, plan, 0))
    ensures var cs := ChunksRead(id, src, plan, 0);
            (exists noticed, budget :: Completes(cipher, cs, plan, noticed, budget) && !Tiles(cs, id, src))
            <==> Reach(cs) < |src|
  {
    hide Packet, ChunksRead, Readable, ReadFails, SealsAll, SendCost, Packets, Reach, LaidOut;
    var cs := ChunksRead(id, src, plan, 0);
    ReadingTiles(id, src, plan);
    LaidOutData(cs, id, src);
    if Reach(cs) < |src| {
      assert Completes(cipher, cs, plan, None, SendCost(BUFFER_SIZE, 0, Packets(cipher, cs)));
    }
  }

  /** So a read that fails at once, of any file that is not empty, can end
      Completed with nothing sent. */
  lemma NothingReadCompletes(cipher: Cipher, id: seq<byte>, src: seq<byte>)
    requires |src| < TWO_63
    ensures Readable(|src|, [ReadError]) && ReadFails([ReadError])
    ensures ChunksRead(id, src, [ReadError], 0) == []
    ensures Completes(cipher, [], [ReadError], None, 0) && (src != [] ==> !Tiles([], id, src))
  {
  }

  // ---------- The transfer object ----------

  class Transfer {
    const id: seq<byte>
    const fileSize: int64
    var peerStates: map<string, TransferState>
    var peerOffset: map<string, int64>
    /** The buffered messages of `progressCh`. */
    var progress: seq<PeerProgress>

    constructor (id: seq<byte>, fileSize: int64)
      ensures this.id == id && this.fileSize == fileSize
      ensures peerStates == map[] && peerOffset == map[] && progress == []
    {
      this.id := id;
      this.fileSize := fileSize;
      peerStates, peerOffset, progress := map[], map[], [];
    }

    function Offset(peer: string): int64
      reads this
    {
      if peer in peerOffset then peerOffset[peer] else 0
    }

    ghost predicate Settled()
      reads this
    {
      && peerStates != map[]
      && forall p :: p in peerStates ==>
           match peerStates[p] case Rejected | Completed | Failed | Disconnected => true case _ => false
    }

    /** Not settled before any peer has been offered the transfer. */
    method AllPeersSettled() returns (settled: bool)
      ensures settled <==> Settled()
    {
      if |peerStates| == 0 { return false; }
      var todo := peerStates.Keys;
      while todo != {}
        invariant todo <= peerStates.Keys
        invariant forall p :: p in peerStates && p !in todo ==> IsTerminal(peerStates[p])
        decreases |todo|
      {
        var p :| p in todo;
        if !IsTerminal(peerStates[p]) { return false; }
        todo := todo - {p};
      }
      settled := true;
    }

    method SetState(peer: string, state: TransferState)
      modifies this`peerStates, this`progress
      ensures peerStates == old(peerStates)[peer := state]
      ensures progress == old(progress) + [PeerProgress(peer, id, Offset(peer), fileSize, state)]
    {
      peerStates := peerStates[peer := state];
      progress := progress + [PeerProgress(peer, id, Offset(peer), fileSize, state)];
    }

    method UpdateOffset(peer: string, offset: int64)
      modifies this`peerOffset
      ensures peerOffset == old(peerOffset)[peer := offset]
    {
      peerOffset := peerOffset[peer := offset];
    }

    /** Best effort: a full channel drops the message. */
    method Notify(p: PeerProgress)
      modifies this`progress
      ensures progress == if |old(progress)| < 100 then old(progress) + [p] else old(progress)
    {
      if |progress| < PROGRESS_CAPACITY {
        progress := progress + [p];
      }
    }

    /** One turn of the send loop: encode, seal, frame, record the offset. */
    method SendChunk(peer: string, n: nat, chunk: Chunk, cipher: Cipher, bw: Writer) returns (ok: bool)
      requires -TWO_63 <= End(chunk) < TWO_63 && bw.Valid() && !bw.failed
      modifies this, bw
      ensures bw.Valid()
      ensures ok <==> Packet(cipher, n, chunk).Some? && !PutFrame(old(bw.View()), Packet(cipher, n, chunk).value).failed
      ensures bw.View() ==
              match Packet(cipher, n, chunk) case None => old(bw.View()) case Some(f) => PutFrame(old(bw.View()), f)
      ensures ok ==> peerStates == old(peerStates) && peerOffset == old(peerOffset)[peer := End(chunk)]
      ensures ok ==>
                || progress == old(progress)
                || progress == old(progress) + [PeerProgress(peer, id, End(chunk), fileSize, InProgress)]
      ensures !ok ==> peerStates == old(peerStates)[peer := Failed] && peerOffset == old(peerOffset)
      ensures !ok ==> progress == old(progress) + [PeerProgress(peer, id, Offset(peer), fileSize, Failed)]
    {
      hide PutFrame, EncodeChunk;
      ok := false;
      var plain := EncodeChunkBytes(chunk);
      var sealed := cipher.seal(n, plain);
      if sealed == None {
        SetState(peer, Failed);
        return;
      }
      MarshalRaw(bw, MSG_ENCRYPTED_PACKET, sealed.value);
      if bw.failed {
        SetState(peer, Failed);
        return;
      }
      UpdateOffset(peer, chunk.offset + |chunk.data|);
      Notify(PeerProgress(peer, id, chunk.offset + |chunk.data|, fileSize, InProgress));
      ok := true;
    }

    /** The send loop. It stops early when a chunk cannot be sent, or when the
        select picks the read error: `noticed` says after how many chunks. */
    method SendChunks(peer: string, all: seq<Chunk>, failed: bool, noticed: Option<nat>, cipher: Cipher, bw: Writer,
                      ghost src: seq<byte>)
      returns (finished: bool, ghost chunks: seq<Chunk>, ghost reports: seq<PeerProgress>)
      requires LaidOut(all, id, src) && |src| < TWO_63
      requires bw.Valid() && !bw.failed
      modifies this, bw
      ensures bw.Valid()
      ensures chunks <= all && SealsAll(cipher, chunks) && !PutFrames(old(bw.View()), Packets(cipher, chunks)).failed
      ensures 0 <= Reach(chunks) <= |src|
      ensures peerOffset == if chunks == [] then old(peerOffset) else old(peerOffset)[peer := Reach(chunks)]
      ensures Rising(reports, peer, Offset(peer))
      // It has finished exactly if it has sent everything; else it says where it stopped.
      ensures finished <==> chunks == all
      ensures failed && noticed.Some? ==> |chunks| <= noticed.value
      ensures !finished ==> StopsAt(cipher, old(bw.View()), all, failed, noticed, |chunks|)
      ensures bw.View() == AfterStop(cipher, old(bw.View()), all, failed, noticed, |chunks|)
      ensures finished ==> peerStates == old(peerStates) && progress == old(progress) + reports
      ensures !finished ==> peerStates == old(peerStates)[peer := Failed]
      ensures !finished ==>
              progress == old(progress) + reports + [PeerProgress(peer, id, Offset(peer), fileSize, Failed)]
    {
      hide Crc32.Checksum, PutFrame, PutFrames, EncodeChunk, Packet, Packets, SealsAll, LaidOut, Rising, StopsAt,
          AfterStop;
      ghost var start := bw.View();
      chunks, reports := [], [];
      NothingSent(cipher, start, all);
      NothingRises(peer, Offset(peer));
      finished := false;
      var i := 0;
      while i < |all|
        invariant i <= |all| && chunks == all[..i]
        invariant SealsAll(cipher, chunks)
        invariant bw.Valid() && bw.View() == PutFrames(start, Packets(cipher, chunks)) && !bw.failed
        invariant peerStates == old(peerStates)
        invariant 0 <= Reach(chunks) <= |src|
        invariant peerOffset == if i == 0 then old(peerOffset) else old(peerOffset)[peer := Reach(chunks)]
        invariant progress == old(progress) + reports && Rising(reports, peer, Offset(peer))
        invariant i == 0 ==> reports == []
        invariant failed && noticed.Some? ==> i <= noticed.value
      {
        if failed && noticed == Some(i) {
          NoticedHere(cipher, start, all, i);
          SetState(peer, Failed);
          return;
        }
        BlockedHere(cipher, start, all, failed, noticed, i);
        ghost var bound := Offset(peer);
        NextRises(all, id, src, i, reports, peer, bound);
        var ok := SendChunk(peer, i, all[i], cipher, bw);
        if !ok {
          return;
        }
        ghost var report := PeerProgress(peer, id, Offset(peer), fileSize, InProgress);
        if progress != old(progress) + reports {
          assert progress == old(progress) + (reports + [report]);
          reports := reports + [report];
        }
        PacketsSnoc(cipher, all, i);
        PutFramesSnoc(start, Packets(cipher, chunks), Packet(cipher, i, all[i]).value);
        assert all[..i + 1] == all[..i] + [all[i]];
        chunks := all[..i + 1];
        i := i + 1;
      }
      assert all[..|all|] == all;
      AllSent(cipher, start, all, failed, noticed);
      finished := true;
    }

    /** The end of the chunks: flush and complete, unless the select picks the
        read error, or the connection fails. */
    method EndSending(peer: string, failed: bool, noticed: Option<nat>, bw: Writer)
      requires bw.Valid() && !bw.failed
      modifies this`peerStates, this`progress, bw
      ensures bw.Valid()
      ensures peer in peerStates && peerStates == old(peerStates)[peer := peerStates[peer]]
      ensures peerStates[peer].Completed? || peerStates[peer].Failed?
      ensures progress == old(progress) + [PeerProgress(peer, id, Offset(peer), fileSize, peerStates[peer])]
      ensures peerStates[peer].Completed? <==>
              !(failed && noticed.Some?) && !BufferedWriter.Flush(old(bw.View())).failed
      ensures bw.View() == if failed && noticed.Some? then old(bw.View()) else BufferedWriter.Flush(old(bw.View()))
    {
      hide BufferedWriter.Flush;
      if failed && noticed.Some? {
        SetState(peer, Failed);
        return;
      }
      bw.FlushBuffer();
      if bw.failed {
        SetState(peer, Failed);
        return;
      }
      SetState(peer, Completed);
    }

    /** Streams the file through a buffered writer; `plan` is what reading the
        source gives. */
    method SendToPeer(peer: string, src: seq<byte>, plan: seq<ReadResult>, noticed: Option<nat>, budget: nat, part: nat,
                      cipher: Cipher)
      returns (bw: Writer, ghost chunks: seq<Chunk>, ghost reports: seq<PeerProgress>)
      requires Readable(|src|, plan) && |src| < TWO_63
      modifies this
      ensures fresh(bw) && bw.Valid()
      // Only this peer's entries change: offsets rise and the last message is terminal.
      ensures peer in peerStates && peerStates == old(peerStates)[peer := peerStates[peer]]
      ensures peerStates[peer].Completed? || peerStates[peer].Failed?
      ensures 0 <= Reach(chunks) <= |src|
      ensures peerOffset == if chunks == [] then old(peerOffset) else old(peerOffset)[peer := Reach(chunks)]
      ensures progress == old(progress) + [PeerProgress(peer, id, old(Offset(peer)), fileSize, InProgress)] + reports
                          + [PeerProgress(peer, id, Offset(peer), fileSize, peerStates[peer])]
      ensures Rising(reports, peer, Offset(peer))
      // What was read lies end to end, and covers the file unless reading failed.
      ensures LaidOut(ChunksRead(id, src, plan, 0), id, src)
      ensures !ReadFails(plan) ==> Tiles(ChunksRead(id, src, plan, 0), id, src)
      ensures SendingEnds(cipher, ChunksRead(id, src, plan, 0), plan, noticed, budget, part, chunks, bw.View(),
                          peerStates[peer])
    {
      hide Crc32.Checksum, PutFrame, PutFrames, Put, Packet, Packets, SealsAll, LaidOut, Tiles, Reach, Rising,
          BufferedWriter.Flush;
      hide Readable, ReadFails, ChunksRead, Flatten, EncodeFrames, Completes, StopsAt, AfterStop, SendCost;
      SetState(peer, InProgress);
      bw := new Writer(BUFFER_SIZE, budget, part);
      ghost var start := bw.View();
      var all, failed := ReadChunks(id, src, plan);
      var finished;
      finished, chunks, reports := SendChunks(peer, all, failed, noticed, cipher, bw, src);
      if !finished {
        StoppedIsIncomplete(cipher, start, all, plan, noticed, |chunks|);
        return;
      }
      FinishedOutcome(cipher, start, all, plan, noticed);
      EndSending(peer, failed, noticed, bw);
    }
  }

  /** Best-effort reports of one peer whose offsets rise up to a bound. */
  ghost predicate Rising(reports: seq<PeerProgress>, peer: string, bound: int) {
    && (forall k :: 0 <= k < |reports| ==>
        reports[k].peer == peer && reports[k].state == InProgress && reports[k].offset <= bound)
    && (forall j, k :: 0 <= j < k < |reports| ==> reports[j].offset < reports[k].offset)
  }

  lemma NothingRises(peer: string, bound: int)
    ensures Rising([], peer, bound)
  {
  }

  /** A further chunk ends further on. */
  lemma NextRises(cs: seq<Chunk>, id: seq<byte>, src: seq<byte>, i: nat, reports: seq<PeerProgress>, peer: string,
                  bound: int)
    requires LaidOut(cs, id, src) && i < |cs|
    requires Rising(reports, peer, bound)
    requires if i == 0 then reports == [] else bound == End(cs[i - 1])
    ensures 0 <= End(cs[i]) <= |src|
    ensures Rising(reports, peer, End(cs[i]))
    ensures End(cs[i]) < TWO_63 ==>
              forall total: int64 ::
                  Rising(reports + [PeerProgress(peer, id, End(cs[i]), total, InProgress)], peer, End(cs[i]))
  {
    hide Crc32.Checksum;
    assert Piece(cs[i], id, src);
  }

  /** `encodeChunk`: the body in a frame of its own. */
  method EncodeChunkBytes(c: Chunk) returns (plain: seq<byte>)
    ensures plain == EncodeChunk(c)
  {
    hide Put, PutFrame, EncodeFrame, EncodeBody;
    var blob := MarshalChunkBody(c);
    var buf := new Writer(0, 3, 0);
    UnbufferedFrame(buf.View(), Frame(MSG_CHUNK, blob));
    MarshalRaw(buf, MSG_CHUNK, blob);
    plain := buf.View().Accepted();
  }

  lemma UnbufferedFrame(w: State, f: Frame)
    requires w == NewState(0, 3, 0)
    ensures !PutFrame(w, f).failed && PutFrame(w, f).Accepted() == EncodeFrame(f)
  {
    hide Put, EncodeU32, EncodeFrame;
    UnbufferedPut(w, [f.kind]);
    var w1 := Put(w, [f.kind]);
    PutKeepsValid(w, [f.kind]);
    var w2 := Put(w1, EncodeU32(Truncate32(|f.payload|)));
    UnbufferedPut(w1, EncodeU32(Truncate32(|f.payload|)));
    PutKeepsValid(w1, EncodeU32(Truncate32(|f.payload|)));
    UnbufferedPut(w2, f.payload);
    PutFrameAccepts(w, f);
    assert w.Accepted() == [];
    assert [] + EncodeFrame(f) == EncodeFrame(f);
  }
}
