/** From the sender's chunks to the receiver's files: what arrives on one
    connection, with the frames of several transfers mixed. */
module Delivery {
  import opened Bytes
  import opened Protocol
  import opened ChunkCodec
  import opened FileWriting
  import opened Transfer
  import opened PeerStates
  import opened Receiver
  import Crc32
  import SavePath

  /** One transfer to deliver: its source, its chunks, its final path, and for
      a folder the name to restore it under. */
  datatype Job = Job(src: seq<byte>, chunks: seq<Chunk>, final: string, folder: string)

  /** What a frame on the wire is: the `k`-th chunk of a transfer, or something
      that carries no chunk. */
  datatype Tag = Other | Part(id: Id, k: nat)

  function Temp(job: Job): string { TempPath(job.final) }

  ghost predicate GoodJob(id: Id, job: Job) {
    && |id| < 256
    && 0 < |job.src| && SaneSize(|job.src|)
    && Tiles(job.chunks, id, job.src)
  }

  /** No two transfers share a final or a temporary path. */
  ghost predicate Apart(a: Job, b: Job) {
    a.final != b.final && a.final != Temp(b) && b.final != Temp(a) && Temp(a) != Temp(b)
  }

  ghost predicate GoodJobs(jobs: map<Id, Job>) {
    && (forall id :: id in jobs ==> GoodJob(id, jobs[id]) && jobs[id].folder == "")
    && (forall i, j :: i in jobs && j in jobs && i != j ==> Apart(jobs[i], jobs[j]))
  }

  function OneIf(tag: Tag, id: Id): nat {
    match tag case Other => 0 case Part(i, _) => if i == id then 1 else 0
  }

  function Count(tags: seq<Tag>, id: Id): nat {
    if tags == [] then 0
    else Count(tags[..|tags| - 1], id) + OneIf(tags[|tags| - 1], id)
  }

  /** Behind those that came before, the chunks of each transfer come in order,
      without gap or repetition; between transfers the order is free. */
  ghost predicate InOrder(before: seq<Tag>, tags: seq<Tag>, jobs: map<Id, Job>) {
    forall p :: 0 <= p < |tags| && tags[p].Part? ==>
      && tags[p].id in jobs
      && tags[p].k == Count(before + tags[..p], tags[p].id) < |jobs[tags[p].id].chunks|
  }

  /** A frame that carries no chunk of these transfers: another kind, or an
      undecryptable packet, or an offer, an event, ..., or a chunk of another
      transfer. */
  predicate CarriesNoChunk(env: Env, f: Frame, jobs: map<Id, Job>) {
    f.kind == MSG_ENCRYPTED_PACKET && env.open(f.payload).Some? ==>
      match ParseFrame(env.open(f.payload).value)
      case Error => true
      case Parsed(inner, _) => inner.kind == MSG_CHUNK && DecodeBody(inner.payload).Some? ==>
          DecodeBody(inner.payload).value.id !in jobs
  }

  ghost predicate Matches(env: Env, f: Frame, tag: Tag, jobs: map<Id, Job>) {
    match tag
    case Other => Fits(f) && CarriesNoChunk(env, f, jobs)
    case Part(id, k) => id in jobs && k < |jobs[id].chunks| && SealedChunk(env.open, f, jobs[id].chunks[k])
  }

  ghost predicate Wire(env: Env, frames: seq<Frame>, before: seq<Tag>, tags: seq<Tag>, jobs: map<Id, Job>) {
    && |frames| == |tags| && InOrder(before, tags, jobs)
    && forall p :: 0 <= p < |tags| ==> Matches(env, frames[p], tags[p], jobs)
  }

  // ---------- The state of one delivery ----------

  function Terminals(ps: seq<PeerProgress>, id: Id): seq<PeerProgress> {
    if ps == [] then []
    else
      var p := ps[|ps| - 1];
      Terminals(ps[..|ps| - 1], id) + (if p.id == id && IsTerminal(p.state) then [p] else [])
  }

  /** Under way: the temporary file holds exactly the source up to the offset,
      and there is nothing under the final path. */
  ghost predicate UnderWay(s: State, id: Id, job: Job, inode: nat, k: nat) {
    && k < |job.chunks| && SaneSize(|job.src|) && 0 <= Reach(job.chunks[..k]) < |job.src|
    && id in s.writers && s.writers[id] == WriterState(inode, Temp(job), |job.src|, Reach(job.chunks[..k]), true)
    && id in s.savePaths && s.savePaths[id] == job.final && job.final != "" && Lookup(s.dirs, id) == job.folder
    && s.disk.Content(Temp(job)) == Some(job.src[..Reach(job.chunks[..k])])
    && s.disk.names[Temp(job)] == inode
    && s.disk.Content(job.final) == None
    && Terminals(s.progress, id) == []
  }

  /** Done: the source stands under the final path, the temporary file is gone
      and one completion has been reported. */
  ghost predicate Delivered(s: State, peer: string, id: Id, job: Job, inode: nat) {
    && SaneSize(|job.src|)
    && id !in s.writers && id !in s.savePaths
    && s.disk.Content(job.final) == Some(job.src)
    && s.disk.names[job.final] == inode
    && s.disk.Content(Temp(job)) == None
    && Terminals(s.progress, id) == [PeerProgress(peer, id, |job.src|, |job.src|, Completed)]
  }

  ghost predicate JobAt(s: State, peer: string, id: Id, job: Job, inode: nat, k: nat) {
    if k < |job.chunks| then UnderWay(s, id, job, inode, k) else Delivered(s, peer, id, job, inode)
  }

  /** All jobs at their counts, on inodes of their own, ... */
  ghost predicate JobsAt(s: State, peer: string, jobs: map<Id, Job>, inodes: map<Id, nat>, tags: seq<Tag>) {
    && s.Valid() && !s.dropped && inodes.Keys == jobs.Keys
    && (forall i, j :: i in jobs && j in jobs && i != j ==> inodes[i] != inodes[j])
    && (forall id :: id in jobs ==> JobAt(s, peer, id, jobs[id], inodes[id], Count(tags, id)))
  }

  /** ... and no writers but theirs. */
  ghost predicate AllAt(s: State, peer: string, jobs: map<Id, Job>, inodes: map<Id, nat>, tags: seq<Tag>) {
    JobsAt(s, peer, jobs, inodes, tags) && s.writers.Keys <= jobs.Keys
  }

  // ---------- One chunk ----------

  lemma PrefixReach(job: Job, id: Id, k: nat)
    requires GoodJob(id, job) && k < |job.chunks|
    ensures Piece(job.chunks[k], id, job.src)
    ensures job.chunks[k].offset == Reach(job.chunks[..k])
    ensures End(job.chunks[k]) == Reach(job.chunks[..k + 1])
    ensures k + 1 < |job.chunks| ==> End(job.chunks[k]) < |job.src|
    ensures k + 1 == |job.chunks| ==> End(job.chunks[k]) == |job.src|
  {
    hide Crc32.Checksum;
    if k + 1 < |job.chunks| {
      assert Piece(job.chunks[k + 1], id, job.src);
    } else {
      assert job.chunks[..k + 1] == job.chunks;
    }
  }

  /** The next chunk is accepted and extends the temporary file by its data. */
  lemma NextChunkIsWritten(s: State, id: Id, job: Job, inode: nat, k: nat)
    requires s.Valid() && GoodJob(id, job) && UnderWay(s, id, job, inode, k)
    ensures var c, r := job.chunks[k], ChunkWritten(s.writers[id], s.disk, job.chunks[k], Works);
            && r.ok && r.writer == s.writers[id].(offset := End(c))
            && r.disk == s.disk.(data := s.disk.data[inode := job.src[..End(c)]])
  {
    hide Crc32.Checksum, OutOfRange;
    var c := job.chunks[k];
    PrefixReach(job, id, k);
    RangeTestSane(|job.src|, c.offset, |c.data|);
    WriteAtEnd(job.src[..c.offset], c.data);
    assert job.src[..c.offset] + c.data == job.src[..End(c)];
  }

  lemma WriteAtEnd(content: seq<byte>, data: seq<byte>)
    ensures WriteAt(content, |content|, data) == content + data
  {
  }

  lemma ExtendedContent(d: Disk, inode: nat, data: seq<byte>, path: string)
    requires d.Valid() && inode in d.data
    ensures d.(data := d.data[inode := data]).Valid()
    ensures path in d.names && d.names[path] == inode ==> d.(data := d.data[inode := data]).Content(path) == Some(data)
    ensures !(path in d.names && d.names[path] == inode) ==>
            d.(data := d.data[inode := data]).Content(path) == d.Content(path)
  {
  }

  lemma TerminalsSnoc(ps: seq<PeerProgress>, p: PeerProgress, id: Id)
    ensures Terminals(ps + [p], id) == Terminals(ps, id) + if p.id == id && IsTerminal(p.state) then [p] else []
  {
    assert (ps + [p])[..|ps|] == ps;
  }

  /** The state right after a successful write, before completion is looked at. */
  function AfterWrite(s: State, peer: string, id: Id, job: Job, inode: nat, k: nat): State
    requires id in s.writers && k < |job.chunks| && SaneSize(|job.src|) && 0 <= End(job.chunks[k]) <= |job.src|
  {
    var c := job.chunks[k];
    Send(s.(writers := s.writers[id := s.writers[id].(offset := End(c))],
            disk := s.disk.(data := s.disk.data[inode := job.src[..End(c)]])),
         PeerProgress(peer, id, End(c), |job.src|, InProgress))
  }

  /** Every chunk but the last leaves the transfer under way. */
  lemma EarlierChunk(s: State, env: Env, id: Id, job: Job, inode: nat, k: nat)
    requires s.Valid() && !s.dropped && GoodJob(id, job) && UnderWay(s, id, job, inode, k) && k + 1 < |job.chunks|
    ensures ChunkHandled(s, env, job.chunks[k], Works) == AfterWrite(s, env.peer, id, job, inode, k)
    ensures UnderWay(ChunkHandled(s, env, job.chunks[k], Works), id, job, inode, k + 1)
  {
    hide ChunkWritten, Crc32.Checksum, Tiles, TransferFinished;
    PrefixReach(job, id, k);
    NextChunkIsWritten(s, id, job, inode, k);
    var c := job.chunks[k];
    ExtendedContent(s.disk, inode, job.src[..End(c)], Temp(job));
    ExtendedContent(s.disk, inode, job.src[..End(c)], job.final);
    TerminalsSnoc(s.progress, PeerProgress(env.peer, id, End(c), |job.src|, InProgress), id);
  }

  /** All written, and nothing done about it yet. */
  ghost predicate AllWritten(s: State, id: Id, job: Job, inode: nat) {
    && SaneSize(|job.src|) && !s.dropped
    && id in s.writers && s.writers[id] == WriterState(inode, Temp(job), |job.src|, |job.src|, true)
    && id in s.savePaths && s.savePaths[id] == job.final && job.final != "" && Lookup(s.dirs, id) == job.folder
    && s.disk.Content(Temp(job)) == Some(job.src) && s.disk.names[Temp(job)] == inode
    && s.disk.Content(job.final) == None
    && Terminals(s.progress, id) == []
  }

  lemma LastChunkIsWritten(s: State, env: Env, id: Id, job: Job, inode: nat, k: nat)
    requires s.Valid() && !s.dropped && GoodJob(id, job) && UnderWay(s, id, job, inode, k) && k + 1 == |job.chunks|
    ensures End(job.chunks[k]) == |job.src|
    ensures var mid := AfterWrite(s, env.peer, id, job, inode, k);
            && AllWritten(mid, id, job, inode)
            && ChunkHandled(s, env, job.chunks[k], Works) ==
                TransferFinished(mid, env, id, mid.writers[id], |job.src|, |job.src|)
  {
    hide ChunkWritten, Crc32.Checksum, Tiles, TransferFinished;
    PrefixReach(job, id, k);
    NextChunkIsWritten(s, id, job, inode, k);
    var c := job.chunks[k];
    assert job.src[..End(c)] == job.src;
    ExtendedContent(s.disk, inode, job.src[..End(c)], Temp(job));
    ExtendedContent(s.disk, inode, job.src[..End(c)], job.final);
    TerminalsSnoc(s.progress, PeerProgress(env.peer, id, End(c), |job.src|, InProgress), id);
  }

  lemma FinishRenames(mid: State, id: Id, job: Job, inode: nat)
    requires AllWritten(mid, id, job, inode)
    ensures FileFinished(mid.writers[id], mid.disk, job.final) ==
            FinishResult(mid.writers[id].(open := false),
                         mid.disk.(names := (mid.disk.names - {Temp(job)})[job.final := inode]), true)
    ensures Lookup(mid.savePaths, id) == job.final
  {
    TempPathDiffers(job.final);
  }

  lemma RenamedIsDelivered(mid: State, peer: string, id: Id, job: Job, inode: nat)
    requires AllWritten(mid, id, job, inode)
    ensures Delivered(Send(Forget(mid,
                                  id).(disk := mid.disk.(names := (mid.disk.names - {Temp(job)})[job.final := inode])),
                           PeerProgress(peer, id, |job.src|, |job.src|, Completed)), peer, id, job, inode)
  {
    TempPathDiffers(job.final);
    TerminalsSnoc(mid.progress, PeerProgress(peer, id, |job.src|, |job.src|, Completed), id);
  }

  /** The last chunk completes it: one rename, one report. */
  lemma LastChunk(s: State, env: Env, id: Id, job: Job, inode: nat, k: nat)
    requires s.Valid() && !s.dropped && GoodJob(id, job) && UnderWay(s, id, job, inode, k) && k + 1 == |job.chunks|
             && job.folder == ""
    ensures SaneSize(|job.src|) && 0 <= End(job.chunks[k]) <= |job.src|
    ensures var mid := AfterWrite(s, env.peer, id, job, inode, k);
            var after := ChunkHandled(s, env, job.chunks[k], Works);
            && after == Send(Forget(mid, id).(disk := after.disk),
                             PeerProgress(env.peer, id, |job.src|, |job.src|, Completed))
            && after.disk == mid.disk.(names := (mid.disk.names - {Temp(job)})[job.final := inode])
    ensures Delivered(ChunkHandled(s, env, job.chunks[k], Works), env.peer, id, job, inode)
  {
    LastChunkIsWritten(s, env, id, job, inode, k);
    var mid := AfterWrite(s, env.peer, id, job, inode, k);
    FinishRenames(mid, id, job, inode);
    PlainFinished(mid, env, id, mid.writers[id], |job.src|, |job.src|);
    RenamedIsDelivered(mid, env.peer, id, job, inode);
    hide ChunkHandled, TransferFinished, FileFinished, GoodJob, UnderWay, Delivered, Forget;
  }

  lemma ChunkAdvances(s: State, env: Env, id: Id, job: Job, inode: nat, k: nat)
    requires s.Valid() && !s.dropped && GoodJob(id, job) && k < |job.chunks| && UnderWay(s, id, job, inode, k)
             && job.folder == ""
    ensures JobAt(ChunkHandled(s, env, job.chunks[k], Works), env.peer, id, job, inode, k + 1)
  {
    hide ChunkHandled, UnderWay, Delivered, GoodJob;
    if k + 1 < |job.chunks| {
      EarlierChunk(s, env, id, job, inode, k);
    } else {
      LastChunk(s, env, id, job, inode, k);
    }
  }

  /** A chunk of one transfer leaves every other transfer where it is. */
  lemma OthersStay(s: State, env: Env, id: Id, job: Job, inode: nat, k: nat, id': Id, job': Job, inode': nat, k': nat)
    requires s.Valid() && !s.dropped && GoodJob(id, job) && k < |job.chunks| && UnderWay(s, id, job, inode, k)
             && job.folder == ""
    requires id != id' && inode != inode' && Apart(job, job') && JobAt(s, env.peer, id', job', inode', k')
    ensures JobAt(ChunkHandled(s, env, job.chunks[k], Works), env.peer, id', job', inode', k')
  {
    hide ChunkHandled, JobAt, UnderWay, Delivered, Apart, Tiles;
    ReachBounded(id, job, k);
    StaysOpen(s, id, job, inode, k);
    PrefixReach(job, id, k);
    OtherAfterWrite(s, env.peer, id, job, inode, k, id', job', inode', k');
    if k + 1 < |job.chunks| {
      EarlierChunk(s, env, id, job, inode, k);
    } else {
      LastChunk(s, env, id, job, inode, k);
      var mid := AfterWrite(s, env.peer, id, job, inode, k);
      OtherAfterFinish(mid, env.peer, id, job, inode, id', job', inode', k');
    }
  }

  lemma OtherAfterWrite(s: State, peer: string, id: Id, job: Job, inode: nat, k: nat, id': Id, job': Job, inode': nat,
                        k': nat)
    requires s.Valid() && !s.dropped && k < |job.chunks| && SaneSize(|job.src|) && 0 <= End(job.chunks[k]) <= |job.src|
    requires UnderWay(s, id, job, inode, k)
    requires id != id' && inode != inode' && Apart(job, job') && JobAt(s, peer, id', job', inode', k')
    ensures JobAt(AfterWrite(s, peer, id, job, inode, k), peer, id', job', inode', k')
    ensures !AfterWrite(s, peer, id, job, inode, k).dropped
  {
    var c := job.chunks[k];
    ExtendedContent(s.disk, inode, job.src[..End(c)], Temp(job'));
    ExtendedContent(s.disk, inode, job.src[..End(c)], job'.final);
    TerminalsSnoc(s.progress, PeerProgress(peer, id, End(c), |job.src|, InProgress), id');
  }

  lemma OtherAfterFinish(mid: State, peer: string, id: Id, job: Job, inode: nat, id': Id, job': Job, inode': nat,
                         k': nat)
    requires !mid.dropped && SaneSize(|job.src|)
    requires id != id' && Apart(job, job') && JobAt(mid, peer, id', job', inode', k')
    ensures JobAt(Send(Forget(mid, id).(disk := mid.disk.(names := (mid.disk.names - {Temp(job)})[job.final := inode])),
                       PeerProgress(peer, id, |job.src|, |job.src|, Completed)), peer, id', job', inode', k')
  {
    TerminalsSnoc(mid.progress, PeerProgress(peer, id, |job.src|, |job.src|, Completed), id');
  }

  lemma ReachBounded(id: Id, job: Job, k: nat)
    requires GoodJob(id, job) && k < |job.chunks|
    ensures SaneSize(|job.src|) && 0 <= End(job.chunks[k]) <= |job.src|
  {
    hide Crc32.Checksum;
    assert Piece(job.chunks[k], id, job.src);
  }

  lemma StaysOpen(s: State, id: Id, job: Job, inode: nat, k: nat)
    requires UnderWay(s, id, job, inode, k)
    ensures id in s.writers && !(Send(s, PeerProgress("", id, 0, 0, InProgress)).dropped && !s.dropped)
  {
  }

  // ---------- Frame by frame ----------

  lemma SealedFrameIsChunk(s: State, env: Env, f: Frame, id: Id, job: Job, k: nat, io: Io)
    requires s.Valid() && GoodJob(id, job) && k < |job.chunks| && SealedChunk(env.open, f, job.chunks[k])
    ensures FrameHandled(s, env, f, io) == ChunkHandled(s, env, job.chunks[k], io)
  {
    hide ParseFrame, DecodeBody, EncodeBody, EncodeChunk, ChunkHandled, Crc32.Checksum;
    assert Piece(job.chunks[k], id, job.src);
    PieceDecodes(job.chunks[k], id, job.src);
  }

  /** A frame without a chunk of these transfers has no effect on them. */
  lemma OtherFrameKeeps(s: State, env: Env, f: Frame, jobs: map<Id, Job>, io: Io)
    requires s.Valid() && CarriesNoChunk(env, f, jobs) && s.writers.Keys <= jobs.Keys
    ensures FrameHandled(s, env, f, io) == s.(offers := FrameHandled(s, env, f, io).offers)
  {
    hide ParseFrame, DecodeBody, ChunkWritten;
  }

  lemma CountSnoc(tags: seq<Tag>, tag: Tag, id: Id)
    ensures Count(tags + [tag], id) == Count(tags, id) + OneIf(tag, id)
  {
    assert (tags + [tag])[..|tags|] == tags;
  }

  lemma JobIgnoresOffers(s: State, offers: map<Id, Offer>, peer: string, id: Id, job: Job, inode: nat, k: nat)
    requires JobAt(s, peer, id, job, inode, k)
    ensures JobAt(s.(offers := offers), peer, id, job, inode, k)
  {
  }

  /** A chunk of an accepted transfer, in its turn: that transfer advances and
      everything else stays. */
  lemma ChunkStep(s: State, env: Env, jobs: map<Id, Job>, inodes: map<Id, nat>, tags: seq<Tag>, id: Id)
    requires env.Sound() && GoodJobs(jobs) && JobsAt(s, env.peer, jobs, inodes, tags)
    requires id in jobs && Count(tags, id) < |jobs[id].chunks|
    ensures var after := ChunkHandled(s, env, jobs[id].chunks[Count(tags, id)], Works);
            && JobsAt(after, env.peer, jobs, inodes, tags + [Part(id, Count(tags, id))])
            && after.writers.Keys <= s.writers.Keys
  {
    hide ChunkHandled, JobAt, GoodJob, Apart, Count;
    var k := Count(tags, id);
    var c := jobs[id].chunks[k];
    var after := ChunkHandled(s, env, c, Works);
    ChunkHandledIsValid(s, env, c, Works);
    JobIsUnderWay(s, env.peer, id, jobs[id], inodes[id], k);
    ChunkAdvances(s, env, id, jobs[id], inodes[id], k);
    ChunkKeepsOpen(s, env, c, Works);
    forall other | other in jobs
      ensures JobAt(after, env.peer, other, jobs[other], inodes[other], Count(tags + [Part(id, k)], other))
    {
      CountSnoc(tags, Part(id, k), other);
      if other != id {
        OthersStay(s, env, id, jobs[id], inodes[id], k, other, jobs[other], inodes[other], Count(tags, other));
      }
    }
  }

  ghost predicate Setting(env: Env, jobs: map<Id, Job>, frames: seq<Frame>, before: seq<Tag>, tags: seq<Tag>) {
    env.Sound() && GoodJobs(jobs) && Wire(env, frames, before, tags, jobs)
  }

  /** What one frame does, whichever it is. */
  lemma FrameStep(s: State, env: Env, jobs: map<Id, Job>, inodes: map<Id, nat>, f: Frame, tags: seq<Tag>, tag: Tag)
    requires env.Sound() && GoodJobs(jobs) && AllAt(s, env.peer, jobs, inodes, tags) && Matches(env, f, tag, jobs)
    requires tag.Part? ==> tag.k == Count(tags, tag.id)
    ensures AllAt(FrameHandled(s, env, f, Works), env.peer, jobs, inodes, tags + [tag])
  {
    hide FrameHandled, JobAt, GoodJob, Apart, CarriesNoChunk, SealedChunk, Count;
    var after := FrameHandled(s, env, f, Works);
    FrameHandledIsValid(s, env, f, Works);
    match tag
    case Other =>
      OtherFrameKeeps(s, env, f, jobs, Works);
      forall id | id in jobs
        ensures JobAt(after, env.peer, id, jobs[id], inodes[id], Count(tags + [tag], id))
      {
        CountSnoc(tags, tag, id);
        JobIgnoresOffers(s, after.offers, env.peer, id, jobs[id], inodes[id], Count(tags, id));
      }
    case Part(id, k) =>
      SealedFrameIsChunk(s, env, f, id, jobs[id], k, Works);
      ChunkStep(s, env, jobs, inodes, tags, id);
  }

  lemma JobIsUnderWay(s: State, peer: string, id: Id, job: Job, inode: nat, k: nat)
    requires JobAt(s, peer, id, job, inode, k) && k < |job.chunks|
    ensures UnderWay(s, id, job, inode, k)
  {
  }

  lemma ChunkKeepsOpen(s: State, env: Env, c: Chunk, io: Io)
    requires s.Valid()
    ensures ChunkHandled(s, env, c, io).dropped == s.dropped
    ensures ChunkHandled(s, env, c, io).writers.Keys <= s.writers.Keys
  {
    hide ChunkWritten, TransferFinished;
    if c.id in s.writers && ChunkWritten(s.writers[c.id], s.disk, c, io).ok {
      var r := ChunkWritten(s.writers[c.id], s.disk, c, io);
      var w := r.writer;
      var s1 := Send(s.(writers := s.writers[c.id := w], disk := r.disk),
                     PeerProgress(env.peer, c.id, w.offset, w.size, InProgress));
      FinishForgets(s1, env, c.id, w, w.offset, w.size);
    }
  }

  /** After any number of frames, wherever the transfers stood when they began
      to come, every transfer stands where its chunks so far have brought it. */
  lemma {:induction false} AfterFrames(s: State, env: Env, jobs: map<Id, Job>, inodes: map<Id, nat>,
                                       frames: seq<Frame>, before: seq<Tag>, tags: seq<Tag>, p: nat, io: nat -> Io)
    requires Setting(env, jobs, frames, before, tags) && p <= |frames| && forall n :: io(n) == Works
    requires AllAt(s, env.peer, jobs, inodes, before)
    ensures AllAt(FramesHandled(s, env, frames[..p], io), env.peer, jobs, inodes, before + tags[..p])
    decreases p
  {
    hide AllAt, FrameHandled, State.Valid, Matches, Count, GoodJobs;
    SettingCounts(env, jobs, frames, before, tags);
    AllAtIsValid(s, env.peer, jobs, inodes, before);
    if p > 0 {
      AfterFrames(s, env, jobs, inodes, frames, before, tags, p - 1, io);
      assert frames[..p] == frames[..p - 1] + [frames[p - 1]];
      FramesHandledSnoc(s, env, frames[..p - 1], frames[p - 1], io);
      hide FramesHandled;
      assert Matches(env, frames[p - 1], tags[p - 1], jobs);
      FrameStep(FramesHandled(s, env, frames[..p - 1], io), env, jobs, inodes, frames[p - 1], before + tags[..p - 1],
                tags[p - 1]);
      assert before + tags[..p - 1] + [tags[p - 1]] == before + tags[..p];
    } else {
      assert frames[..0] == [] && before + tags[..0] == before;
    }
  }

  /** Such transfers are what senders make: whatever sizes the reads have, the
      chunks of a file that is read to its end are a job. */
  lemma ReadIsGoodJob(id: Id, src: seq<byte>, plan: seq<ReadResult>, final: string, folder: string)
    requires |id| < 256 && 0 < |src| && SaneSize(|src|)
    requires Readable(|src|, plan) && !ReadFails(plan)
    ensures GoodJob(id, Job(src, ChunksRead(id, src, plan, 0), final, folder))
  {
    hide ChunksRead, Readable, ReadFails, Tiles;
    ReadingTiles(id, src, plan);
  }

  // ---------- The connection ----------

  lemma MatchesFit(env: Env, jobs: map<Id, Job>, frames: seq<Frame>, before: seq<Tag>, tags: seq<Tag>)
    requires Setting(env, jobs, frames, before, tags)
    ensures AllFit(frames)
  {
    forall p | 0 <= p < |frames|
      ensures Fits(frames[p])
    {
      assert Matches(env, frames[p], tags[p], jobs);
    }
  }

  /** The connection may break at any byte. What has arrived then is a number
      of whole frames, and each transfer is either complete under its final
      path or not there at all, with its temporary file holding exactly the
      source up to the last chunk that arrived. */
  lemma CutConnection(s: State, env: Env, jobs: map<Id, Job>, inodes: map<Id, nat>,
                      frames: seq<Frame>, before: seq<Tag>, tags: seq<Tag>, n: nat, io: nat -> Io)
    returns (p: nat)
    requires Setting(env, jobs, frames, before, tags) && (forall m :: io(m) == Works)
    requires AllAt(s, env.peer, jobs, inodes, before) && n <= |EncodeFrames(frames)|
    ensures p <= |frames| && (n == |EncodeFrames(frames)| ==> p == |frames|)
    ensures forall id :: id in jobs ==>
              JobAt(ConnectionRead(s, env, EncodeFrames(frames)[..n], io), env.peer, id, jobs[id], inodes[id],
                    Count(before + tags[..p], id))
  {
    hide JobAt, FramesHandled, GoodJobs, Wire, Leftover, State.Valid, Setting;
    SettingCounts(env, jobs, frames, before, tags);
    MatchesFit(env, jobs, frames, before, tags);
    p := CutStreamParsesToPrefix(frames, n);
    AfterFrames(s, env, jobs, inodes, frames, before, tags, p, io);
    var last := FramesHandled(s, env, frames[..p], io);
    forall id | id in jobs
      ensures JobAt(last.(dropped := true), env.peer, id, jobs[id], inodes[id], Count(before + tags[..p], id))
    {
      JobIgnoresClosing(last, env.peer, id, jobs[id], inodes[id], Count(before + tags[..p], id));
    }
  }

  lemma JobIgnoresClosing(s: State, peer: string, id: Id, job: Job, inode: nat, k: nat)
    requires JobAt(s, peer, id, job, inode, k)
    ensures JobAt(s.(dropped := true), peer, id, job, inode, k)
  {
  }

  /** End to end: accepted transfers on paths of their own, whose sources are
      tiled into chunks that arrive in order, sealed, framed and mixed in any
      way with each other and with frames that carry no chunk: reading the
      connection to its end leaves every source under its final path, no
      temporary file, and exactly one completion per transfer. */
  lemma EndToEnd(s: State, env: Env, jobs: map<Id, Job>, inodes: map<Id, nat>,
                 frames: seq<Frame>, before: seq<Tag>, tags: seq<Tag>, io: nat -> Io)
    requires Setting(env, jobs, frames, before, tags) && (forall m :: io(m) == Works)
    requires AllAt(s, env.peer, jobs, inodes, before)
    requires forall id :: id in jobs ==> Count(before + tags, id) == |jobs[id].chunks|
    ensures forall id :: id in jobs ==>
              Delivered(ConnectionRead(s, env, EncodeFrames(frames), io), env.peer, id, jobs[id], inodes[id])
  {
    hide UnderWay, Delivered, ConnectionRead, Setting, AllAt, Count;
    var wire := EncodeFrames(frames);
    var p := CutConnection(s, env, jobs, inodes, frames, before, tags, |wire|, io);
    SettingCounts(env, jobs, frames, before, tags);
    assert wire[..|wire|] == wire && tags[..p] == tags;
  }

  lemma SettingCounts(env: Env, jobs: map<Id, Job>, frames: seq<Frame>, before: seq<Tag>, tags: seq<Tag>)
    requires Setting(env, jobs, frames, before, tags)
    ensures |frames| == |tags| && env.Sound() && GoodJobs(jobs)
  {
  }

  lemma JobsAtIsValid(s: State, peer: string, jobs: map<Id, Job>, inodes: map<Id, nat>, tags: seq<Tag>)
    requires JobsAt(s, peer, jobs, inodes, tags)
    ensures s.Valid()
  {
  }

  lemma AllAtIsValid(s: State, peer: string, jobs: map<Id, Job>, inodes: map<Id, nat>, tags: seq<Tag>)
    requires AllAt(s, peer, jobs, inodes, tags)
    ensures s.Valid()
  {
  }

  // ---------- Accepting ----------

  /** Every name has an inode of its own. */
  ghost predicate NoHardLinks(d: Disk) {
    forall p, q :: p in d.names && q in d.names && d.names[p] == d.names[q] ==> p == q
  }

  /** What an acceptance of a plain file needs to start a delivery: a free
      final path and no trace of the same transfer. */
  ghost predicate CanStart(s: State, id: Id, job: Job, offer: Offer) {
    && GoodJob(id, job) && job.folder == "" && offer.size == |job.src| && !offer.folder
    && job.final != "" && job.final !in s.disk.names
    && Lookup(s.dirs, id) == "" && Terminals(s.progress, id) == []
  }

  /** The accepted transfer starts at its first chunk. */
  lemma AcceptStarts(s: State, env: Env, id: Id, job: Job, offer: Offer)
    requires s.Valid() && CanStart(s, id, job, offer)
    ensures UnderWay(OfferAccepted(s, env, offer, id, job.final, ""), id, job, Create(s.disk, Temp(job)).1, 0)
    ensures job.chunks != []
  {
    hide Crc32.Checksum;
    TempPathDiffers(job.final);
    assert job.chunks[..0] == [];
  }

  /** Accepting one more transfer on a path apart from the others leaves them
      where they are, however far they have come. */
  lemma AcceptKeepsOthers(s: State, env: Env, jobs: map<Id, Job>, inodes: map<Id, nat>, tags: seq<Tag>, id: Id,
                          job: Job, offer: Offer)
    requires JobsAt(s, env.peer, jobs, inodes, tags) && NoHardLinks(s.disk)
    requires GoodJobs(jobs[id := job]) && id !in jobs && CanStart(s, id, job, offer) && Count(tags, id) == 0
    ensures var after := OfferAccepted(s, env, offer, id, job.final, "");
            && JobsAt(after, env.peer, jobs[id := job], inodes[id := Create(s.disk, Temp(job)).1], tags)
            && NoHardLinks(after.disk) && after.writers.Keys == s.writers.Keys + {id}
  {
    hide OfferAccepted, UnderWay, Delivered, Create, CanStart, GoodJob, Apart, NoHardLinks, Count;
    AcceptShape(s, env, id, job, offer);
    var after, inode := OfferAccepted(s, env, offer, id, job.final, ""), Create(s.disk, Temp(job)).1;
    AcceptStarts(s, env, id, job, offer);
    CreateKeepsLinks(s.disk, Temp(job));
    forall other | other in jobs
      ensures inodes[other] != inode && JobAt(after, env.peer, other, jobs[other], inodes[other], Count(tags, other))
    {
      assert Apart(jobs[id := job][other], jobs[id := job][id]);
      assert GoodJob(other, jobs[id := job][other]);
      AcceptKeepsJob(s, env, other, jobs[other], inodes[other], Count(tags, other), id, job, offer);
    }
  }

  lemma AcceptShape(s: State, env: Env, id: Id, job: Job, offer: Offer)
    requires s.Valid() && CanStart(s, id, job, offer)
    ensures OfferAccepted(s, env, offer, id, job.final, "").Valid()
    ensures OfferAccepted(s, env, offer, id, job.final, "").dropped == s.dropped
    ensures OfferAccepted(s, env, offer, id, job.final, "").disk == Create(s.disk, Temp(job)).0
    ensures OfferAccepted(s, env, offer, id, job.final, "").writers.Keys == s.writers.Keys + {id}
  {
    hide Crc32.Checksum, Tiles, TransferFinished, Create;
  }

  lemma StartedJobHasChunks(id: Id, job: Job)
    requires GoodJob(id, job)
    ensures |job.chunks| > 0
  {
    hide Crc32.Checksum;
  }

  lemma CreateKeepsLinks(d: Disk, path: string)
    requires d.Valid() && NoHardLinks(d)
    ensures NoHardLinks(Create(d, path).0)
  {
  }

  lemma AcceptKeepsJob(s: State, env: Env, other: Id, old': Job, inode': nat, k: nat, id: Id, job: Job, offer: Offer)
    requires s.Valid() && NoHardLinks(s.disk) && CanStart(s, id, job, offer)
    requires other != id && Apart(old', job) && JobAt(s, env.peer, other, old', inode', k)
    ensures inode' != Create(s.disk, Temp(job)).1
    ensures JobAt(OfferAccepted(s, env, offer, id, job.final, ""), env.peer, other, old', inode', k)
  {
    hide Crc32.Checksum, Tiles, TransferFinished;
  }

  /** Two transfers being received share a file exactly when they were given
      the same path. Nothing in the code prevents that: the second acceptance
      looks for the final name only, and that is still free. */
  lemma SharedFileExactly(s: State, a: Id, b: Id, pathA: string, pathB: string, sizeA: int64, sizeB: int64)
    requires s.Valid() && NoHardLinks(s.disk) && a != b
    ensures var both := Opened(Opened(s, a, pathA, sizeA), b, pathB, sizeB);
            both.writers[a].inode == both.writers[b].inode <==> pathA == pathB
  {
    if pathA != pathB {
      assert pathA == TempPath(pathA)[..|pathA|] && pathB == TempPath(pathB)[..|pathB|];
      assert TempPath(pathA) != TempPath(pathB);
    }
  }

  /** Accepting two offers for the same save path in a row gives both the same
      path: neither has its final name yet. */
  lemma SamePathTwice(s: State, a: Id, path: string, size: int64, existing: set<string>, second: string)
    requires s.Valid() && path !in s.disk.names
    requires existing == Opened(s, a, path, size).disk.names.Keys && SavePath.FirstFree(existing, path, second)
    ensures second == path
  {
    assert |TempPath(path)| == |path| + 5;
  }

  lemma EmptyFileFinishes(d: Disk, final: string)
    requires d.Valid() && final != ""
    ensures var (made, inode) := Create(d, TempPath(final));
            var finish := FileFinished(WriterState(inode, TempPath(final), 0, 0, true), made, final);
            && finish.ok
            && finish.disk.Valid()
            && finish.disk.Content(final) == Some([])
            && final in finish.disk.names && finish.disk.names[final] == inode
            && finish.disk.Content(TempPath(final)) == None
  {
    assert |TempPath(final)| == |final| + 5;
  }

  /** An empty file is complete as soon as it is accepted. */
  lemma EmptyFileIsDelivered(s: State, env: Env, id: Id, offer: Offer, final: string)
    requires s.Valid() && !s.dropped && offer.size == 0 && !offer.folder && final != ""
    requires Lookup(s.dirs, id) == "" && Terminals(s.progress, id) == []
    ensures Delivered(OfferAccepted(s, env, offer, id, final, ""), env.peer, id, Job([], [], final, ""),
                      Create(s.disk, TempPath(final)).1)
  {
    hide Create, FileFinished;
    var job := Job([], [], final, "");
    TempPathDiffers(job.final);
    EmptyFileFinishes(s.disk, final);
    var s1 := Opened(OfferLost(s, offer, id, ""), id, final, 0);
    TerminalsSnoc(s.progress, PeerProgress(env.peer, id, 0, 0, Completed), id);
    assert Rename(s1.disk, Temp(job), final) ==
           Some(s1.disk.(names := (s1.disk.names - {Temp(job)})[final := s1.disk.names[Temp(job)]]));
  }
}
