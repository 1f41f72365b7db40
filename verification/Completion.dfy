/** When the receiver calls a transfer complete, for any chunks whatsoever, and
    what the file then is (internal/receiver/receiver.go:375-453,
    internal/transfer/transfer.go:383-422). */
module Completion {
  import opened Bytes
  import opened ChunkCodec
  import opened FileWriting
  import opened Transfer
  import opened PeerStates
  import opened Receiver
  import opened Delivery
  import Crc32

  /** What has become of a transfer: its file so far, its finished file, or a
      refused chunk that ended it. */
  datatype Outcome = Pending(p: FileWriting.Progress) | Done(content: seq<byte>) | Refused

  function Next(size: int64, o: Outcome, c: Chunk): Outcome {
    match o
    case Pending(p) =>
      if !Acceptable(size, c) then Refused
      else
        var q := Step(size, p, c);
        if q.offset >= size then Done(q.content) else Pending(q)
    case _ => o
  }

  function OutcomeOf(size: int64, cs: seq<Chunk>): Outcome {
    if cs == [] then Pending(Progress([], 0)) else Next(size, OutcomeOf(size, cs[..|cs| - 1]), cs[|cs| - 1])
  }

  // ---------- The receiver follows it ----------

  function ChunksHandled(s: State, env: Env, cs: seq<Chunk>): (r: State)
    requires s.Valid() && env.Sound()
    ensures r.Valid()
    decreases |cs|
  {
    if cs == [] then s
    else
      var before := ChunksHandled(s, env, cs[..|cs| - 1]);
      ChunkHandledIsValid(before, env, cs[|cs| - 1], Works);
      ChunkHandled(before, env, cs[|cs| - 1], Works)
  }

  ghost predicate At(s: State, peer: string, id: Id, final: string, size: int64, inode: nat, o: Outcome) {
    match o
    case Pending(p) =>
      && -TWO_63 <= p.offset < TWO_63
      && id in s.writers && s.writers[id] == WriterState(inode, TempPath(final), size, p.offset, true)
      && id in s.savePaths && s.savePaths[id] == final && final != "" && Lookup(s.dirs, id) == ""
      && s.disk.Content(TempPath(final)) == Some(p.content) && s.disk.names[TempPath(final)] == inode
      && s.disk.Content(final) == None
      && Terminals(s.progress, id) == []
    case Done(content) =>
      && id !in s.writers && id !in s.savePaths
      && s.disk.Content(final) == Some(content) && s.disk.Content(TempPath(final)) == None
      && Terminals(s.progress, id) == [PeerProgress(peer, id, size, size, Completed)]
    case Refused =>
      && id !in s.writers && id !in s.savePaths
      && s.disk.Content(final) == None && TempPath(final) in s.disk.names
      && Terminals(s.progress, id) == [PeerProgress(peer, id, 0, 0, Failed)]
  }

  lemma RefusedStep(s: State, env: Env, id: Id, final: string, size: int64, inode: nat, p: FileWriting.Progress,
                    c: Chunk)
    requires s.Valid() && !s.dropped && c.id == id && At(s, env.peer, id, final, size, inode, Pending(p))
    requires !Acceptable(size, c)
    ensures At(ChunkHandled(s, env, c, Works), env.peer, id, final, size, inode, Refused)
  {
    hide Acceptable;
    TerminalsSnoc(s.progress, PeerProgress(env.peer, id, 0, 0, Failed), id);
  }

  lemma AcceptedEnd(size: int64, c: Chunk)
    requires SaneSize(size) && |c.data| < TWO_32 && Acceptable(size, c)
    ensures 0 <= c.offset < size && Wrap64(End(c)) == End(c) <= size
  {
    hide OutOfRange, Wrap64, Crc32.Checksum;
    RangeTestSane(size, c.offset, |c.data|);
  }

  /** The state right after a successful write. */
  function Written(s: State, peer: string, id: Id, inode: nat, size: int64, q: FileWriting.Progress): State
    requires id in s.writers && -TWO_63 <= q.offset < TWO_63
  {
    Send(s.(writers := s.writers[id := s.writers[id].(offset := q.offset)],
            disk := s.disk.(data := s.disk.data[inode := q.content])),
         PeerProgress(peer, id, q.offset, size, InProgress))
  }

  lemma AcceptedWrites(s: State, env: Env, id: Id, final: string, size: int64, inode: nat, p: FileWriting.Progress,
                       c: Chunk)
    requires s.Valid() && !s.dropped && c.id == id && At(s, env.peer, id, final, size, inode, Pending(p))
    requires SaneSize(size) && |c.data| < TWO_32 && Acceptable(size, c)
    ensures var q := Step(size, p, c);
            && q.offset == End(c) <= size
            && ChunkHandled(s, env, c, Works) ==
               var mid := Written(s, env.peer, id, inode, size, q);
               if q.offset >= size then TransferFinished(mid, env, id, mid.writers[id], q.offset, size) else mid
  {
    AcceptedEnd(size, c);
    hide Acceptable, TransferFinished, WriteAt, Wrap64;
  }

  lemma PendingStep(s: State, env: Env, id: Id, final: string, size: int64, inode: nat, p: FileWriting.Progress,
                    q: FileWriting.Progress)
    requires s.Valid() && !s.dropped && At(s, env.peer, id, final, size, inode, Pending(p))
    requires -TWO_63 <= q.offset < TWO_63
    ensures At(Written(s, env.peer, id, inode, size, q), env.peer, id, final, size, inode, Pending(q))
  {
    ExtendedContent(s.disk, inode, q.content, TempPath(final));
    ExtendedContent(s.disk, inode, q.content, final);
    TerminalsSnoc(s.progress, PeerProgress(env.peer, id, q.offset, size, InProgress), id);
  }

  lemma DoneStep(mid: State, env: Env, id: Id, final: string, size: int64, inode: nat, q: FileWriting.Progress)
    requires !mid.dropped && At(mid, env.peer, id, final, size, inode, Pending(q)) && q.offset == size
    ensures At(TransferFinished(mid, env, id, mid.writers[id], size, size), env.peer, id, final, size, inode,
               Done(q.content))
  {
    TempPathDiffers(final);
    assert Rename(mid.disk, TempPath(final), final) ==
           Some(mid.disk.(names := (mid.disk.names - {TempPath(final)})[final := inode]));
    TerminalsSnoc(mid.progress, PeerProgress(env.peer, id, size, size, Completed), id);
  }

  lemma ChunkFollows(s: State, env: Env, id: Id, final: string, size: int64, inode: nat, o: Outcome, c: Chunk)
    requires s.Valid() && !s.dropped && c.id == id && At(s, env.peer, id, final, size, inode, o)
    requires SaneSize(size) && |c.data| < TWO_32
    ensures At(ChunkHandled(s, env, c, Works), env.peer, id, final, size, inode, Next(size, o, c))
    ensures !ChunkHandled(s, env, c, Works).dropped
  {
    ChunkKeepsOpen(s, env, c, Works);
    if o.Pending? {
      hide ChunkHandled, Acceptable, TransferFinished;
      if !Acceptable(size, c) {
        RefusedStep(s, env, id, final, size, inode, o.p, c);
      } else {
        AcceptedWrites(s, env, id, final, size, inode, o.p, c);
        var q := Step(size, o.p, c);
        PendingStep(s, env, id, final, size, inode, o.p, q);
        if q.offset >= size {
          DoneStep(Written(s, env.peer, id, inode, size, q), env, id, final, size, inode, q);
        }
      }
    }
  }

  /** Whatever chunks of an accepted transfer arrive, in whatever order and
      number: it is reported exactly once or not yet, and the final path holds
      a file exactly when it is reported completed. */
  lemma {:induction false} AnyChunks(s: State, env: Env, id: Id, final: string, size: int64, inode: nat, cs: seq<Chunk>)
    requires s.Valid() && env.Sound() && !s.dropped
    requires At(s, env.peer, id, final, size, inode, Pending(Progress([], 0))) && SaneSize(size)
    requires forall c :: c in cs ==> c.id == id && |c.data| < TWO_32
    ensures At(ChunksHandled(s, env, cs), env.peer, id, final, size, inode, OutcomeOf(size, cs))
    ensures !ChunksHandled(s, env, cs).dropped
    decreases |cs|
  {
    hide At, ChunkHandled, Next;
    if cs != [] {
      AnyChunks(s, env, id, final, size, inode, cs[..|cs| - 1]);
      ChunkFollows(ChunksHandled(s, env, cs[..|cs| - 1]), env, id, final, size, inode, OutcomeOf(size, cs[..|cs| - 1]),
                   cs[|cs| - 1]);
    }
  }

  /** Accepting an offer of a plain file on a free path is where that starts. */
  lemma AcceptedIsPending(s: State, env: Env, id: Id, offer: Offer, final: string)
    requires s.Valid() && offer.size > 0 && !offer.folder && final != "" && final !in s.disk.names
    requires Lookup(s.dirs, id) == "" && Terminals(s.progress, id) == []
    ensures At(OfferAccepted(s, env, offer, id, final, ""), env.peer, id, final, offer.size,
               Create(s.disk, TempPath(final)).1, Pending(Progress([], 0)))
  {
    TempPathDiffers(final);
  }

  // ---------- When it is done ----------

  /** Everything before the `k`-th chunk was accepted without reaching the end. */
  ghost predicate StillPending(size: int64, cs: seq<Chunk>, k: nat) {
    k <= |cs| && forall j :: 0 <= j < k ==> Acceptable(size, cs[j]) && End(cs[j]) < size
  }

  lemma {:induction false} PendingExactly(size: int64, cs: seq<Chunk>)
    requires 0 < size && SaneSize(size) && forall c :: c in cs ==> |c.data| < TWO_32
    ensures OutcomeOf(size, cs).Pending? <==> StillPending(size, cs, |cs|)
    ensures OutcomeOf(size, cs).Pending? ==> OutcomeOf(size, cs).p == Steps(size, cs)
    decreases |cs|
  {
    hide Acceptable, WriteAt, Wrap64;
    if cs != [] {
      var before, c := cs[..|cs| - 1], cs[|cs| - 1];
      PendingExactly(size, before);
      if StillPending(size, before, |before|) && Acceptable(size, c) {
        AcceptedEnd(size, c);
      }
      assert forall j :: 0 <= j < |before| ==> before[j] == cs[j];
    }
  }

  ghost predicate EndsAt(size: int64, cs: seq<Chunk>, k: nat) {
    k < |cs| && StillPending(size, cs, k) && Acceptable(size, cs[k]) && End(cs[k]) == size
  }

  lemma EndsAtBefore(size: int64, cs: seq<Chunk>, k: nat)
    requires cs != []
    ensures k < |cs| - 1 ==> (EndsAt(size, cs, k) <==> EndsAt(size, cs[..|cs| - 1], k))
    ensures k < |cs| - 1 && EndsAt(size, cs, k) ==> !StillPending(size, cs, |cs| - 1)
    ensures StillPending(size, cs, |cs| - 1) <==> StillPending(size, cs[..|cs| - 1], |cs| - 1)
  {
    hide Acceptable;
    assert forall j :: 0 <= j < |cs| - 1 ==> cs[..|cs| - 1][j] == cs[j];
  }

  /** A transfer is done exactly when some accepted chunk ends at the announced
      size and all before it were accepted: the position of the last byte
      counts, not the number of bytes. The file is what the chunks up to that
      one have written. */
  lemma {:induction false} DoneExactly(size: int64, cs: seq<Chunk>)
    requires 0 < size && SaneSize(size) && forall c :: c in cs ==> |c.data| < TWO_32
    ensures OutcomeOf(size, cs).Done? <==> exists k :: EndsAt(size, cs, k)
    ensures forall k :: EndsAt(size, cs, k) ==> OutcomeOf(size, cs) == Done(Steps(size, cs[..k + 1]).content)
    decreases |cs|
  {
    hide Acceptable, WriteAt, Wrap64, StillPending;
    if cs != [] {
      var before, c, last: nat := cs[..|cs| - 1], cs[|cs| - 1], |cs| - 1;
      DoneExactly(size, before);
      PendingExactly(size, before);
      if Acceptable(size, c) {
        AcceptedEnd(size, c);
      }
      hide Step;
      assert cs[..last + 1] == cs;
      EndsAtBefore(size, cs, last);
      forall k: nat | EndsAt(size, cs, k)
        ensures OutcomeOf(size, cs) == Done(Steps(size, cs[..k + 1]).content)
      {
        EndsAtBefore(size, cs, k);
        if k < last {
          assert EndsAt(size, before, k);
          assert before[..k + 1] == cs[..k + 1];
        } else {
          assert OutcomeOf(size, before).Pending?;
          assert Steps(size, cs) == Step(size, Steps(size, before), c);
          StepOffset(size, Steps(size, before), c);
        }
      }
      if OutcomeOf(size, cs).Done? {
        if OutcomeOf(size, before).Done? {
          var k :| EndsAt(size, before, k);
          EndsAtBefore(size, cs, k);
          assert EndsAt(size, cs, k);
        } else {
          StepOffset(size, OutcomeOf(size, before).p, c);
          assert EndsAt(size, cs, last);
        }
      }
    }
  }

  lemma StepOffset(size: int64, p: FileWriting.Progress, c: Chunk)
    requires SaneSize(size) && |c.data| < TWO_32 && Acceptable(size, c)
    ensures Step(size, p, c).offset == End(c) <= size
    ensures 0 <= c.offset && Step(size, p, c).content == WriteAt(p.content, c.offset, c.data)
  {
    hide Acceptable, Wrap64, WriteAt;
    AcceptedEnd(size, c);
  }

  // ---------- Chunks lost on the way ----------

  /** The chunks of the transfer that arrive, of the first `k`. */
  function Arriving(cs: seq<Chunk>, kept: seq<bool>, k: nat): seq<Chunk>
    requires k <= |cs| == |kept|
  {
    if k == 0 then [] else Arriving(cs, kept, k - 1) + (if kept[k - 1] then [cs[k - 1]] else [])
  }

  /** The position belongs to one of the first `k` chunks that arrived. */
  ghost predicate Received(cs: seq<Chunk>, kept: seq<bool>, k: nat, i: nat)
    requires k <= |cs| == |kept|
  {
    exists j :: 0 <= j < k && kept[j] && cs[j].offset <= i < End(cs[j])
  }

  /** The source where it arrived, zeros elsewhere. */
  ghost predicate Masked(content: seq<byte>, job: Job, kept: seq<bool>, k: nat)
    requires k <= |job.chunks| == |kept|
  {
    |content| <= |job.src| && forall i :: 0 <= i < |job.src| ==> MaskedAt(content, job, kept, k, i)
  }

  ghost predicate MaskedAt(content: seq<byte>, job: Job, kept: seq<bool>, k: nat, i: nat)
    requires k <= |job.chunks| == |kept| && i < |job.src|
  {
    if Received(job.chunks, kept, k, i) then i < |content| && content[i] == job.src[i]
    else i < |content| ==> content[i] == 0
  }

  lemma PieceAcceptable(id: Id, job: Job, k: nat)
    requires GoodJob(id, job) && k < |job.chunks|
    ensures SaneSize(|job.src|) && Acceptable(|job.src|, job.chunks[k]) && |job.chunks[k].data| < TWO_32
    ensures 0 <= job.chunks[k].offset && End(job.chunks[k]) <= |job.src|
    ensures job.chunks[k].data == job.src[job.chunks[k].offset..End(job.chunks[k])]
    ensures End(job.chunks[k]) == |job.src| <==> k + 1 == |job.chunks|
  {
    hide Crc32.Checksum, OutOfRange;
    PrefixReach(job, id, k);
    assert Piece(job.chunks[k], id, job.src);
    RangeTestSane(|job.src|, job.chunks[k].offset, |job.chunks[k].data|);
  }

  lemma ReceivedStep(cs: seq<Chunk>, kept: seq<bool>, k: nat, i: nat)
    requires k < |cs| == |kept|
    ensures Received(cs, kept, k + 1, i) <==> Received(cs, kept, k, i) || (kept[k] && cs[k].offset <= i < End(cs[k]))
  {
  }

  /** What one more arrival makes of the content, position by position. */
  lemma WrittenAt(id: Id, job: Job, k: nat, content: seq<byte>, i: nat)
    requires GoodJob(id, job) && k < |job.chunks| && |content| <= |job.src|
    ensures var c := job.chunks[k];
            && c.offset >= 0
            && var r := WriteAt(content, c.offset, c.data);
               && |r| == (if End(c) > |content| then End(c) else |content|) <= |job.src|
               && (i < |r| ==>
                   r[i] == if c.offset <= i < End(c) then job.src[i] else if i < |content| then content[i] else 0)
  {
    hide WriteAt, Acceptable, GoodJob;
    PieceAcceptable(id, job, k);
    PieceIsNotEmpty(id, job, k);
    WriteAtPointwise(content, job.chunks[k].offset, job.chunks[k].data);
  }

  lemma PieceIsNotEmpty(id: Id, job: Job, k: nat)
    requires GoodJob(id, job) && k < |job.chunks|
    ensures job.chunks[k].data != []
  {
    hide Crc32.Checksum;
    assert Piece(job.chunks[k], id, job.src);
  }

  lemma MaskedWrite(id: Id, job: Job, kept: seq<bool>, k: nat, content: seq<byte>)
    requires GoodJob(id, job) && k < |job.chunks| == |kept| && Masked(content, job, kept, k) && kept[k]
    ensures job.chunks[k].offset >= 0
            && Masked(WriteAt(content, job.chunks[k].offset, job.chunks[k].data), job, kept, k + 1)
    ensures k + 1 == |job.chunks| ==> |WriteAt(content, job.chunks[k].offset, job.chunks[k].data)| == |job.src|
  {
    PieceAcceptable(id, job, k);
    hide WriteAt, Acceptable, GoodJob, MaskedAt;
    WrittenAt(id, job, k, content, 0);
    var r := WriteAt(content, job.chunks[k].offset, job.chunks[k].data);
    var n := k + 1;
    forall i | 0 <= i < |job.src| ensures MaskedAt(r, job, kept, n, i) {
      MaskedWriteAt(id, job, kept, k, content, i);
    }
  }

  lemma MaskedWriteAt(id: Id, job: Job, kept: seq<bool>, k: nat, content: seq<byte>, i: nat)
    requires GoodJob(id, job) && k < |job.chunks| == |kept| && kept[k] && |content| <= |job.src|
    requires i < |job.src| && MaskedAt(content, job, kept, k, i)
    ensures job.chunks[k].offset >= 0
    ensures MaskedAt(WriteAt(content, job.chunks[k].offset, job.chunks[k].data), job, kept, k + 1, i)
  {
    hide WriteAt, GoodJob, Received;
    ReceivedStep(job.chunks, kept, k, i);
    WrittenAt(id, job, k, content, i);
  }

  lemma MaskedSkip(job: Job, kept: seq<bool>, k: nat, content: seq<byte>)
    requires k < |job.chunks| == |kept| && Masked(content, job, kept, k) && !kept[k]
    ensures Masked(content, job, kept, k + 1)
  {
    hide Received;
    var n := k + 1;
    forall i | 0 <= i < |job.src| ensures MaskedAt(content, job, kept, n, i) {
      assert MaskedAt(content, job, kept, k, i);
      ReceivedStep(job.chunks, kept, k, i);
    }
  }

  lemma ArrivingSnoc(size: int64, cs: seq<Chunk>, kept: seq<bool>, k: nat)
    requires k < |cs| == |kept|
    ensures OutcomeOf(size, Arriving(cs, kept, k + 1)) ==
            if kept[k] then Next(size, OutcomeOf(size, Arriving(cs, kept, k)), cs[k])
            else OutcomeOf(size, Arriving(cs, kept, k))
  {
    hide Next;
    var before := Arriving(cs, kept, k);
    assert (before + [cs[k]])[..|before|] == before;
    assert before + [] == before;
  }

  /** One more arrival of a transfer that is pending. */
  lemma NextArrival(id: Id, job: Job, kept: seq<bool>, k: nat, p: FileWriting.Progress)
    requires GoodJob(id, job) && k < |job.chunks| == |kept| && Masked(p.content, job, kept, k) && kept[k]
    ensures SaneSize(|job.src|)
    ensures var o := Next(|job.src|, Pending(p), job.chunks[k]);
            && (k + 1 < |job.chunks| ==> o.Pending? && Masked(o.p.content, job, kept, k + 1))
            && (k + 1 == |job.chunks| ==> o.Done? && Masked(o.content, job, kept, k + 1) && |o.content| == |job.src|)
  {
    PieceAcceptable(id, job, k);
    hide GoodJob, Acceptable, Masked, WriteAt, Step;
    StepOffset(|job.src|, p, job.chunks[k]);
    MaskedWrite(id, job, kept, k, p.content);
  }

  /** As long as the last chunk has not arrived the transfer is pending. */
  lemma {:induction false} LossyPending(id: Id, job: Job, kept: seq<bool>, k: nat)
    requires GoodJob(id, job) && k < |job.chunks| == |kept|
    ensures SaneSize(|job.src|)
    ensures var o := OutcomeOf(|job.src|, Arriving(job.chunks, kept, k));
            o.Pending? && Masked(o.p.content, job, kept, k)
  {
    PieceAcceptable(id, job, k);
    hide GoodJob, Acceptable, Masked, Next;
    if k == 0 {
      NothingMasked(job, kept);
    } else {
      LossyPending(id, job, kept, k - 1);
      ArrivingSnoc(|job.src|, job.chunks, kept, k - 1);
      var o := OutcomeOf(|job.src|, Arriving(job.chunks, kept, k - 1));
      if kept[k - 1] {
        NextArrival(id, job, kept, k - 1, o.p);
      } else {
        MaskedSkip(job, kept, k - 1, o.p.content);
      }
    }
  }

  lemma NothingMasked(job: Job, kept: seq<bool>)
    requires |job.chunks| == |kept|
    ensures Masked([], job, kept, 0)
  {
  }

  /** If some chunks of a transfer are lost on the way, but not the last, the
      receiver reports it completed and renames the file; what is lost reads as
      zeros, and so the file is the source exactly if the source has nothing
      else there. If the last is lost the transfer is not completed. */
  lemma LostChunksExactly(id: Id, job: Job, kept: seq<bool>)
    requires GoodJob(id, job) && |job.chunks| == |kept|
    ensures |kept| > 0 && SaneSize(|job.src|)
    ensures var o := OutcomeOf(|job.src|, Arriving(job.chunks, kept, |kept|));
            && (if kept[|kept| - 1] then o.Done? else o.Pending?)
            && (o.Done? ==> (o.content == job.src <==>
                  forall i :: 0 <= i < |job.src| && !Received(job.chunks, kept, |kept|, i) ==> job.src[i] == 0))
  {
    StartedJobHasChunks(id, job);
    var k := |kept| - 1;
    LossyPending(id, job, kept, k);
    ArrivingSnoc(|job.src|, job.chunks, kept, k);
    hide GoodJob, Masked, Next, Received, OutcomeOf, Arriving;
    if kept[k] {
      NextArrival(id, job, kept, k, OutcomeOf(|job.src|, Arriving(job.chunks, kept, k)).p);
      MaskedIsSource(job, kept, OutcomeOf(|job.src|, Arriving(job.chunks, kept, k + 1)).content);
    }
  }

  lemma MaskedIsSource(job: Job, kept: seq<bool>, content: seq<byte>)
    requires |job.chunks| == |kept| && Masked(content, job, kept, |kept|) && |content| == |job.src|
    ensures content == job.src <==> forall i :: 0 <= i < |job.src| && !Received(job.chunks, kept, |kept|, i) ==>
            job.src[i] == 0
  {
    hide Received;
    forall i | 0 <= i < |job.src|
      ensures content[i] == if Received(job.chunks, kept, |kept|, i) then job.src[i] else 0
    {
      assert MaskedAt(content, job, kept, |kept|, i);
    }
  }

  lemma {:induction false} ArrivingArePieces(id: Id, job: Job, kept: seq<bool>, k: nat)
    requires GoodJob(id, job) && k <= |job.chunks| == |kept|
    ensures forall c :: c in Arriving(job.chunks, kept, k) ==> c.id == id && |c.data| < TWO_32
  {
    hide Crc32.Checksum;
    if k > 0 {
      ArrivingArePieces(id, job, kept, k - 1);
      assert Piece(job.chunks[k - 1], id, job.src);
    }
  }

  /** The same at the receiver: a file renamed to its real name and reported
      completed need not be complete. */
  lemma LossyDelivery(s: State, env: Env, id: Id, job: Job, inode: nat, kept: seq<bool>)
    requires GoodJob(id, job) && |job.chunks| == |kept| && SaneSize(|job.src|)
    requires s.Valid() && env.Sound() && !s.dropped
    requires At(s, env.peer, id, job.final, |job.src|, inode, Pending(Progress([], 0)))
    ensures |kept| > 0
    ensures var after := ChunksHandled(s, env, Arriving(job.chunks, kept, |kept|));
            if kept[|kept| - 1] then
              && Terminals(after.progress, id) == [PeerProgress(env.peer, id, |job.src|, |job.src|, Completed)]
              && (after.disk.Content(job.final) == Some(job.src) <==>
                  forall i :: 0 <= i < |job.src| && !Received(job.chunks, kept, |kept|, i) ==> job.src[i] == 0)
            else Terminals(after.progress, id) == [] && after.disk.Content(job.final) == None
  {
    hide GoodJob, Received, ChunksHandled, OutcomeOf, Arriving, State.Valid, At;
    ArrivingArePieces(id, job, kept, |kept|);
    LostChunksExactly(id, job, kept);
    var cs := Arriving(job.chunks, kept, |kept|);
    var o := OutcomeOf(|job.src|, cs);
    AnyChunks(s, env, id, job.final, |job.src|, inode, cs);
    Reported(ChunksHandled(s, env, cs), env.peer, id, job.final, |job.src|, inode, o);
  }

  lemma Reported(s: State, peer: string, id: Id, final: string, size: int64, inode: nat, o: Outcome)
    requires At(s, peer, id, final, size, inode, o)
    ensures o.Done? ==>
              Terminals(s.progress, id) == [PeerProgress(peer, id, size, size, Completed)]
                  && s.disk.Content(final) == Some(o.content)
    ensures o.Pending? ==> Terminals(s.progress, id) == [] && s.disk.Content(final) == None
  {
  }
}
