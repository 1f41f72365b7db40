/** When two transfers that are received at the same time get in each other's
    way (internal/receiver/receiver.go:473-490, 513-528). */
module Collision {
  import opened Bytes
  import opened ChunkCodec
  import opened FileWriting
  import opened Transfer
  import opened PeerStates
  import opened Receiver
  import opened Delivery
  import Crc32

  /** Chunks of the given transfers, one after the other. */
  ghost predicate OnlyParts(tags: seq<Tag>, jobs: map<Id, Job>) {
    forall p :: 0 <= p < |tags| ==> tags[p].Part? && tags[p].id in jobs && tags[p].k < |jobs[tags[p].id].chunks|
  }

  function PartsHandled(s: State, env: Env, jobs: map<Id, Job>, tags: seq<Tag>): (r: State)
    requires s.Valid() && env.Sound() && OnlyParts(tags, jobs)
    ensures r.Valid()
    decreases |tags|
  {
    if tags == [] then s
    else
      var n := |tags| - 1;
      PartsPrefix(tags, jobs);
      var before, c := PartsHandled(s, env, jobs, tags[..n]), jobs[tags[n].id].chunks[tags[n].k];
      ChunkHandledIsValid(before, env, c, Works);
      ChunkHandled(before, env, c, Works)
  }

  lemma PartsPrefix(tags: seq<Tag>, jobs: map<Id, Job>)
    requires OnlyParts(tags, jobs) && tags != []
    ensures OnlyParts(tags[..|tags| - 1], jobs)
    ensures tags[|tags| - 1].Part? && tags[|tags| - 1].id in jobs
            && tags[|tags| - 1].k < |jobs[tags[|tags| - 1].id].chunks|
  {
    assert forall p :: 0 <= p < |tags| - 1 ==> tags[..|tags| - 1][p] == tags[p];
  }

  /** All chunks of all transfers, each transfer's in order. */
  ghost predicate Interleaving(tags: seq<Tag>, jobs: map<Id, Job>) {
    && OnlyParts(tags, jobs) && InOrder([], tags, jobs)
    && forall id :: id in jobs ==> Count(tags, id) == |jobs[id].chunks|
  }

  /** The source stands under its final path and has been reported completed,
      once, and nothing else has. */
  ghost predicate Arrived(s: State, peer: string, id: Id, job: Job) {
    && SaneSize(|job.src|)
    && s.disk.Content(job.final) == Some(job.src)
    && Terminals(s.progress, id) == [PeerProgress(peer, id, |job.src|, |job.src|, Completed)]
  }

  // ---------- Apart: every interleaving delivers ----------

  lemma {:induction false} PartsAdvance(s: State, env: Env, jobs: map<Id, Job>, inodes: map<Id, nat>, tags: seq<Tag>)
    requires env.Sound() && GoodJobs(jobs) && JobsAt(s, env.peer, jobs, inodes, [])
    requires OnlyParts(tags, jobs) && InOrder([], tags, jobs)
    ensures JobsAt(PartsHandled(s, env, jobs, tags), env.peer, jobs, inodes, tags)
    decreases |tags|
  {
    hide JobsAt, GoodJobs, ChunkHandled, Count, State.Valid;
    JobsAtIsValid(s, env.peer, jobs, inodes, []);
    if tags != [] {
      var n := |tags| - 1;
      PartsPrefix(tags, jobs);
      OrderPrefix(tags, jobs);
      PartsAdvance(s, env, jobs, inodes, tags[..n]);
      var mid := PartsHandled(s, env, jobs, tags[..n]);
      hide PartsHandled;
      ChunkStep(mid, env, jobs, inodes, tags[..n], tags[n].id);
      assert tags[..n] + [tags[n]] == tags;
      PartsSnoc(s, env, jobs, tags);
    }
  }

  lemma PartsSnoc(s: State, env: Env, jobs: map<Id, Job>, tags: seq<Tag>)
    requires s.Valid() && env.Sound() && OnlyParts(tags, jobs) && tags != []
    ensures OnlyParts(tags[..|tags| - 1], jobs)
    ensures PartsHandled(s, env, jobs, tags) ==
            ChunkHandled(PartsHandled(s, env, jobs, tags[..|tags| - 1]), env,
                         jobs[tags[|tags| - 1].id].chunks[tags[|tags| - 1].k], Works)
  {
    hide ChunkHandled;
    PartsPrefix(tags, jobs);
  }

  lemma OrderPrefix(tags: seq<Tag>, jobs: map<Id, Job>)
    requires InOrder([], tags, jobs) && tags != [] && tags[|tags| - 1].Part?
    ensures InOrder([], tags[..|tags| - 1], jobs)
    ensures tags[|tags| - 1].id in jobs
    ensures tags[|tags| - 1].k == Count(tags[..|tags| - 1], tags[|tags| - 1].id) < |jobs[tags[|tags| - 1].id].chunks|
  {
    hide Count;
    var shorter := tags[..|tags| - 1];
    assert [] + shorter == shorter;
    forall p | 0 <= p < |shorter| && shorter[p].Part?
      ensures shorter[p].id in jobs
              && shorter[p].k == Count([] + shorter[..p], shorter[p].id) < |jobs[shorter[p].id].chunks|
    {
      assert shorter[..p] == tags[..p];
    }
  }

  // ---------- Not apart: what one chunk can do ----------

  ghost predicate HasCompleted(ps: seq<PeerProgress>, id: Id) {
    exists i :: 0 <= i < |ps| && ps[i].id == id && ps[i].state == Completed
  }

  /** The receiver's books for one plain transfer. */
  ghost predicate Booked(s: State, id: Id, job: Job) {
    && Lookup(s.dirs, id) == "" && job.final != ""
    && (id in s.writers ==> s.writers[id].path == Temp(job) && id in s.savePaths && s.savePaths[id] == job.final)
  }

  lemma CompletedSnoc(ps: seq<PeerProgress>, p: PeerProgress, id: Id)
    ensures HasCompleted(ps + [p], id) <==> HasCompleted(ps, id) || (p.id == id && p.state == Completed)
  {
    var all := ps + [p];
    assert all[|ps|] == p;
    if HasCompleted(ps, id) {
      var i :| 0 <= i < |ps| && ps[i].id == id && ps[i].state == Completed;
      assert all[i] == ps[i];
    }
  }

  lemma SendCompletes(s: State, p: PeerProgress, id: Id)
    ensures HasCompleted(Send(s, p).progress, id) ==>
            HasCompleted(s.progress, id) || (p.id == id && p.state == Completed)
    ensures p.id != id ==> (HasCompleted(Send(s, p).progress, id) <==> HasCompleted(s.progress, id))
    ensures HasCompleted(s.progress, id) ==> HasCompleted(Send(s, p).progress, id)
  {
    CompletedSnoc(s.progress, p, id);
  }

  /** Finishing completes only by renaming the temporary file away. */
  lemma FinishBooks(s: State, env: Env, id: Id, job: Job, w: WriterState, offset: int64, total: int64)
    requires Booked(s, id, job) && id in s.writers && w.path == Temp(job)
    ensures var t := TransferFinished(s, env, id, w, offset, total);
            && (HasCompleted(t.progress, id) && !HasCompleted(s.progress, id) ==>
                Temp(job) in s.disk.names && Temp(job) !in t.disk.names)
            && t.disk.names.Keys <= s.disk.names.Keys + {job.final}
            && (Temp(job) !in s.disk.names ==> Temp(job) !in t.disk.names)
  {
    hide Forget, HasCompleted;
    TempPathDiffers(job.final);
    PlainFinished(s, env, id, w, offset, total);
    var finish := FileFinished(w, s.disk, job.final);
    var report := PeerProgress(env.peer, id, offset, total, if finish.ok then Completed else Failed);
    assert Forget(s, id).progress == s.progress by { ForgetKeeps(s, id); }
    SendCompletes(Forget(s, id).(disk := finish.disk), report, id);
    hide TransferFinished;
  }

  lemma ForgetKeeps(s: State, id: Id)
    ensures Forget(s, id).progress == s.progress && Forget(s, id).disk == s.disk && id !in Forget(s, id).writers
    ensures Lookup(s.dirs, id) == "" ==> Lookup(Forget(s, id).dirs, id) == ""
    ensures forall other :: other != id ==>
              && (other in Forget(s, id).writers <==> other in s.writers)
              && (other in s.writers ==> Forget(s, id).writers[other] == s.writers[other])
              && (other in s.savePaths ==>
                  other in Forget(s, id).savePaths && Forget(s, id).savePaths[other] == s.savePaths[other])
              && Lookup(Forget(s, id).dirs, other) == Lookup(s.dirs, other)
  {
  }

  lemma FinishSpares(s: State, env: Env, id: Id, w: WriterState, offset: int64, total: int64, other: Id, later: Job)
    requires other != id && Booked(s, other, later)
    ensures var t := TransferFinished(s, env, id, w, offset, total);
            Booked(t, other, later) && (HasCompleted(t.progress, other) <==> HasCompleted(s.progress, other))
  {
    hide FileFinished, Remove, Forget, HasCompleted;
    ForgetKeeps(s, id);
    FinishShape(s, env, id, w, offset, total);
    var t := TransferFinished(s, env, id, w, offset, total);
    var report := PeerProgress(env.peer, id, offset, total, Completed);
    SendCompletes(Forget(s, id), report, other);
    SendCompletes(Forget(s, id), report.(state := Failed), other);
    hide TransferFinished;
  }

  /** Whatever becomes of the file, finishing forgets and makes one report. */
  lemma FinishShape(s: State, env: Env, id: Id, w: WriterState, offset: int64, total: int64)
    ensures var t := TransferFinished(s, env, id, w, offset, total);
            t == Send(Forget(s, id), PeerProgress(env.peer, id, offset, total, Completed)).(disk := t.disk) ||
            t == Send(Forget(s, id), PeerProgress(env.peer, id, offset, total, Failed)).(disk := t.disk)
  {
    var completed, failed :=
        PeerProgress(env.peer, id, offset, total, Completed), PeerProgress(env.peer, id, offset, total, Failed);
    var savePath, folder := Lookup(s.savePaths, id), Lookup(s.dirs, id);
    var finish := FileFinished(w, s.disk, savePath);
    var restored := env.extract(finish.disk, savePath, folder);
    forall d, p | true ensures Send(Forget(s, id).(disk := d), p) == Send(Forget(s, id), p).(disk := d) {
      SendOnDisk(Forget(s, id), d, p);
    }
    hide FileFinished, Remove, Forget, Send, Lookup;
    if !finish.ok || (folder != "" && !restored.ok) {
      assert TransferFinished(s, env, id, w, offset, total) ==
             Send(Forget(s, id), failed).(disk := if finish.ok then restored.disk else finish.disk);
    } else {
      assert TransferFinished(s, env, id, w, offset, total) ==
             Send(Forget(s, id), completed).(disk := if folder == "" then finish.disk
                                             else Remove(restored.disk, savePath));
    }
  }

  lemma SendOnDisk(s: State, d: Disk, p: PeerProgress)
    ensures Send(s.(disk := d), p) == Send(s, p).(disk := d)
  {
  }

  lemma ForgottenIsBooked(s: State, env: Env, id: Id, job: Job, w: WriterState, offset: int64, total: int64)
    requires Booked(s, id, job)
    ensures Booked(TransferFinished(s, env, id, w, offset, total), id, job)
  {
    hide FileFinished, Remove, Forget;
    ForgetKeeps(s, id);
    FinishShape(s, env, id, w, offset, total);
    hide TransferFinished;
  }

  /** The state between a successful write and the look at the offset. */
  function AfterWriting(s: State, env: Env, c: Chunk): State
    requires s.Valid() && c.id in s.writers
  {
    var r := ChunkWritten(s.writers[c.id], s.disk, c, Works);
    Send(s.(writers := s.writers[c.id := r.writer], disk := r.disk),
         PeerProgress(env.peer, c.id, r.writer.offset, r.writer.size, InProgress))
  }

  lemma ChunkCases(s: State, env: Env, c: Chunk)
    requires s.Valid() && c.id in s.writers
    ensures var r, t := ChunkWritten(s.writers[c.id], s.disk, c, Works), ChunkHandled(s, env, c, Works);
            && r.disk.names == s.disk.names && r.writer.path == s.writers[c.id].path
            && if !r.ok then t == Send(Forget(s, c.id).(disk := r.disk), PeerProgress(env.peer, c.id, 0, 0, Failed))
               else if r.writer.offset >= r.writer.size then
                 t == TransferFinished(AfterWriting(s, env, c), env, c.id, r.writer, r.writer.offset, r.writer.size)
               else t == AfterWriting(s, env, c)
  {
    hide WriteAt, Acceptable, Wrap64, TransferFinished, Forget;
  }

  lemma WritingBooks(s: State, env: Env, c: Chunk, id: Id, job: Job)
    requires s.Valid() && c.id in s.writers && Booked(s, id, job)
    ensures var t := AfterWriting(s, env, c);
            && Booked(t, id, job) && t.disk.names == s.disk.names && c.id in t.writers
            && (HasCompleted(t.progress, id) <==> HasCompleted(s.progress, id))
  {
    hide HasCompleted, WriteAt, Acceptable, Wrap64;
    var r := ChunkWritten(s.writers[c.id], s.disk, c, Works);
    var p := PeerProgress(env.peer, c.id, r.writer.offset, r.writer.size, InProgress);
    SendCompletes(s.(writers := s.writers[c.id := r.writer], disk := r.disk), p, id);
  }

  lemma RefusingBooks(s: State, env: Env, c: Chunk, d: Disk, id: Id, job: Job)
    requires Booked(s, id, job)
    ensures var t := Send(Forget(s, c.id).(disk := d), PeerProgress(env.peer, c.id, 0, 0, Failed));
            Booked(t, id, job) && (HasCompleted(t.progress, id) <==> HasCompleted(s.progress, id))
  {
    hide HasCompleted, Forget;
    ForgetKeeps(s, c.id);
    SendCompletes(Forget(s, c.id).(disk := d), PeerProgress(env.peer, c.id, 0, 0, Failed), id);
  }

  /** What a chunk does to the names and reports of its own transfer ... */
  lemma OwnChunk(s: State, env: Env, c: Chunk, job: Job)
    requires s.Valid() && Booked(s, c.id, job)
    ensures var t := ChunkHandled(s, env, c, Works);
            && Booked(t, c.id, job)
            && (HasCompleted(t.progress, c.id) && !HasCompleted(s.progress, c.id) ==>
                Temp(job) in s.disk.names && Temp(job) !in t.disk.names)
            && (Temp(job) !in s.disk.names ==> Temp(job) !in t.disk.names)
  {
    if c.id in s.writers {
      ChunkCases(s, env, c);
      WritingBooks(s, env, c, c.id, job);
      var r, mid := ChunkWritten(s.writers[c.id], s.disk, c, Works), AfterWriting(s, env, c);
      hide ChunkHandled, TransferFinished, HasCompleted, ChunkWritten, AfterWriting, Booked;
      if !r.ok {
        RefusingBooks(s, env, c, r.disk, c.id, job);
        ForgetKeeps(s, c.id);
      } else if r.writer.offset >= r.writer.size {
        BookedPath(s, c.id, job);
        FinishBooks(mid, env, c.id, job, r.writer, r.writer.offset, r.writer.size);
        ForgottenIsBooked(mid, env, c.id, job, r.writer, r.writer.offset, r.writer.size);
      }
    }
  }

  lemma BookedPath(s: State, id: Id, job: Job)
    requires Booked(s, id, job) && id in s.writers
    ensures s.writers[id].path == Temp(job)
  {
  }

  /** ... and to those of another. */
  lemma OthersChunk(s: State, env: Env, c: Chunk, id: Id, job: Job)
    requires s.Valid() && c.id != id && Booked(s, id, job)
    ensures var t := ChunkHandled(s, env, c, Works);
            Booked(t, id, job) && (HasCompleted(t.progress, id) <==> HasCompleted(s.progress, id))
  {
    if c.id in s.writers {
      ChunkCases(s, env, c);
      WritingBooks(s, env, c, id, job);
      var r, mid := ChunkWritten(s.writers[c.id], s.disk, c, Works), AfterWriting(s, env, c);
      hide ChunkHandled, TransferFinished, HasCompleted, ChunkWritten, AfterWriting, Booked;
      if !r.ok {
        RefusingBooks(s, env, c, r.disk, id, job);
      } else if r.writer.offset >= r.writer.size {
        FinishSpares(mid, env, c.id, r.writer, r.writer.offset, r.writer.size, id, job);
      }
    }
  }

  // ---------- One transfer after the other ----------

  function Parts(id: Id, n: nat): (tags: seq<Tag>)
    ensures |tags| == n && forall p :: 0 <= p < n ==> tags[p] == Part(id, p)
  {
    if n == 0 then [] else Parts(id, n - 1) + [Part(id, n - 1)]
  }

  lemma {:induction false} CountParts(before: seq<Tag>, id: Id, n: nat, other: Id)
    ensures Count(before + Parts(id, n), other) == Count(before, other) + if other == id then n else 0
  {
    if n == 0 {
      assert before + Parts(id, 0) == before;
    } else {
      CountParts(before, id, n - 1, other);
      assert before + Parts(id, n) == (before + Parts(id, n - 1)) + [Part(id, n - 1)];
      CountSnoc(before + Parts(id, n - 1), Part(id, n - 1), other);
    }
  }

  /** The chunks of `a`, then those of `b`. */
  function FirstThenSecond(jobs: map<Id, Job>, a: Id, b: Id): seq<Tag>
    requires a in jobs && b in jobs
  {
    Parts(a, |jobs[a].chunks|) + Parts(b, |jobs[b].chunks|)
  }

  lemma PartsPrefixes(id: Id, n: nat, k: nat)
    requires k <= n
    ensures Parts(id, n)[..k] == Parts(id, k)
  {
  }

  lemma FirstThenSecondIsOne(jobs: map<Id, Job>, a: Id, b: Id)
    requires a != b && jobs.Keys == {a, b}
    ensures Interleaving(FirstThenSecond(jobs, a, b), jobs)
  {
    hide Count, Parts;
    var n, m := |jobs[a].chunks|, |jobs[b].chunks|;
    var tags := FirstThenSecond(jobs, a, b);
    forall p | 0 <= p < |tags|
      ensures tags[p].Part? && tags[p].id in jobs
              && tags[p].k == Count([] + tags[..p], tags[p].id) < |jobs[tags[p].id].chunks|
    {
      NoneCounted(a);
      NoneCounted(b);
      if p < n {
        PartsPrefixes(a, n, p);
        assert [] + tags[..p] == [] + Parts(a, p);
        CountParts([], a, p, a);
      } else {
        PartsPrefixes(b, m, p - n);
        assert [] + tags[..p] == Parts(a, n) + Parts(b, p - n);
        assert [] + Parts(a, n) == Parts(a, n);
        CountParts([], a, n, b);
        CountParts(Parts(a, n), b, p - n, b);
      }
    }
    forall id | id in jobs ensures Count(tags, id) == |jobs[id].chunks| {
      NoneCounted(id);
      assert [] + Parts(a, n) == Parts(a, n);
      CountParts([], a, n, id);
      CountParts(Parts(a, n), b, m, id);
    }
  }

  lemma NoneCounted(id: Id)
    ensures Count([], id) == 0
  {
  }

  /** While the first transfer's chunks come. */
  ghost predicate First(t: State, a: Id, jobA: Job, b: Id, jobB: Job) {
    && Booked(t, b, jobB) && !HasCompleted(t.progress, b)
    && Booked(t, a, jobA) && (HasCompleted(t.progress, a) ==> Temp(jobA) !in t.disk.names)
  }

  lemma FirstStep(t: State, env: Env, a: Id, jobA: Job, b: Id, jobB: Job, c: Chunk)
    requires t.Valid() && a != b && c.id == a && First(t, a, jobA, b, jobB)
    ensures First(ChunkHandled(t, env, c, Works), a, jobA, b, jobB)
  {
    hide ChunkHandled, HasCompleted, Booked;
    OwnChunk(t, env, c, jobA);
    OthersChunk(t, env, c, b, jobB);
  }

  lemma {:induction false} FirstPhase(s: State, env: Env, jobs: map<Id, Job>, a: Id, b: Id, n: nat)
    requires s.Valid() && env.Sound() && a != b && a in jobs && b in jobs && n <= |jobs[a].chunks|
    requires GoodJob(a, jobs[a]) && Booked(s, a, jobs[a]) && Booked(s, b, jobs[b])
    requires !HasCompleted(s.progress, a) && !HasCompleted(s.progress, b)
    ensures OnlyParts(Parts(a, n), jobs)
    ensures First(PartsHandled(s, env, jobs, Parts(a, n)), a, jobs[a], b, jobs[b])
    decreases n
  {
    OnlyFirst(jobs, a, n);
    NoParts(s, env, jobs, a);
    assert n == 0 ==> First(s, a, jobs[a], b, jobs[b]);
    hide ChunkHandled, HasCompleted, Booked, GoodJob, State.Valid, OnlyParts, PartsHandled, First;
    if n > 0 {
      FirstPhase(s, env, jobs, a, b, n - 1);
      var tags := Parts(a, n);
      assert tags[..|tags| - 1] == Parts(a, n - 1) && tags[|tags| - 1] == Part(a, n - 1);
      PartsSnoc(s, env, jobs, tags);
      ChunkOf(a, jobs[a], n - 1);
      FirstStep(PartsHandled(s, env, jobs, Parts(a, n - 1)), env, a, jobs[a], b, jobs[b], jobs[a].chunks[n - 1]);
    }
  }

  lemma NoParts(s: State, env: Env, jobs: map<Id, Job>, a: Id)
    requires s.Valid() && env.Sound()
    ensures Parts(a, 0) == [] && OnlyParts([], jobs) && PartsHandled(s, env, jobs, []) == s
  {
  }

  lemma OnlyFirst(jobs: map<Id, Job>, a: Id, n: nat)
    requires a in jobs && n <= |jobs[a].chunks|
    ensures OnlyParts(Parts(a, n), jobs)
  {
  }

  lemma ChunkOf(id: Id, job: Job, k: nat)
    requires GoodJob(id, job) && k < |job.chunks|
    ensures job.chunks[k].id == id
  {
    hide Crc32.Checksum;
    assert Piece(job.chunks[k], id, job.src);
  }

  /** While the second transfer's chunks come: it completes only by moving its
      temporary file away, which the first may have done before. */
  ghost predicate Second(t: State, a: Id, jobA: Job, b: Id, jobB: Job) {
    && Booked(t, b, jobB) && (HasCompleted(t.progress, b) ==> Temp(jobB) !in t.disk.names)
    && Booked(t, a, jobA)
    && (HasCompleted(t.progress, a) && Temp(jobA) == Temp(jobB) ==>
        Temp(jobB) !in t.disk.names && !HasCompleted(t.progress, b))
  }

  lemma SecondStep(t: State, env: Env, a: Id, jobA: Job, b: Id, jobB: Job, c: Chunk)
    requires t.Valid() && a != b && c.id == b && Second(t, a, jobA, b, jobB)
    ensures Second(ChunkHandled(t, env, c, Works), a, jobA, b, jobB)
  {
    hide ChunkHandled, HasCompleted, Booked;
    OwnChunk(t, env, c, jobB);
    OthersChunk(t, env, c, a, jobA);
  }

  lemma OnlyBoth(jobs: map<Id, Job>, a: Id, b: Id, n: nat)
    requires a in jobs && b in jobs && n <= |jobs[b].chunks|
    ensures OnlyParts(Parts(a, |jobs[a].chunks|) + Parts(b, n), jobs)
  {
  }

  lemma {:induction false} SecondPhase(s: State, env: Env, jobs: map<Id, Job>, a: Id, b: Id, n: nat)
    requires s.Valid() && env.Sound() && a != b && a in jobs && b in jobs && n <= |jobs[b].chunks|
    requires GoodJob(a, jobs[a]) && GoodJob(b, jobs[b]) && Booked(s, a, jobs[a]) && Booked(s, b, jobs[b])
    requires !HasCompleted(s.progress, a) && !HasCompleted(s.progress, b)
    ensures OnlyParts(Parts(a, |jobs[a].chunks|) + Parts(b, n), jobs)
    ensures Second(PartsHandled(s, env, jobs, Parts(a, |jobs[a].chunks|) + Parts(b, n)), a, jobs[a], b, jobs[b])
    decreases n
  {
    hide ChunkHandled, HasCompleted, Booked, GoodJob, State.Valid, OnlyParts, PartsHandled;
    var all := Parts(a, |jobs[a].chunks|);
    OnlyBoth(jobs, a, b, n);
    if n == 0 {
      FirstPhase(s, env, jobs, a, b, |jobs[a].chunks|);
      assert all + Parts(b, 0) == all;
    } else {
      hide Second;
      SecondPhase(s, env, jobs, a, b, n - 1);
      var tags := all + Parts(b, n);
      assert tags[..|tags| - 1] == all + Parts(b, n - 1) && tags[|tags| - 1] == Part(b, n - 1);
      PartsSnoc(s, env, jobs, tags);
      ChunkOf(b, jobs[b], n - 1);
      SecondStep(PartsHandled(s, env, jobs, all + Parts(b, n - 1)), env, a, jobs[a], b, jobs[b], jobs[b].chunks[n - 1]);
    }
  }

  lemma ArrivedHasCompleted(s: State, peer: string, id: Id, job: Job)
    requires Arrived(s, peer, id, job)
    ensures HasCompleted(s.progress, id) && job.final in s.disk.names
  {
    TerminalsAreReports(s.progress, id, PeerProgress(peer, id, |job.src|, |job.src|, Completed));
  }

  lemma {:induction false} TerminalsAreReports(ps: seq<PeerProgress>, id: Id, p: PeerProgress)
    requires p in Terminals(ps, id)
    ensures p in ps && p.id == id && IsTerminal(p.state)
  {
    if ps != [] && p in Terminals(ps[..|ps| - 1], id) {
      TerminalsAreReports(ps[..|ps| - 1], id, p);
    }
  }

  lemma {:induction false} NoTerminalsNotCompleted(ps: seq<PeerProgress>, id: Id)
    requires Terminals(ps, id) == []
    ensures !HasCompleted(ps, id)
  {
    if ps != [] {
      NoTerminalsNotCompleted(ps[..|ps| - 1], id);
      forall i | 0 <= i < |ps| ensures !(ps[i].id == id && ps[i].state == Completed) {
        assert i < |ps| - 1 ==> ps[..|ps| - 1][i] == ps[i];
      }
    }
  }

  // ---------- Exactly ----------

  /** Two plain offers accepted one after the other, each on a free path. */
  ghost predicate BothAccepted(s: State, env: Env, a: Id, jobA: Job, offerA: Offer, b: Id, jobB: Job, offerB: Offer) {
    && s.Valid() && !s.dropped && NoHardLinks(s.disk) && env.Sound() && a != b
    && CanStart(s, a, jobA, offerA)
    && OfferAccepted(s, env, offerA, a, jobA.final, "").Valid()
    && CanStart(OfferAccepted(s, env, offerA, a, jobA.final, ""), b, jobB, offerB)
    && OfferAccepted(OfferAccepted(s, env, offerA, a, jobA.final, ""), env, offerB, b, jobB.final, "").Valid()
  }

  function Accepted2(s: State, env: Env, a: Id, jobA: Job, offerA: Offer, b: Id, jobB: Job, offerB: Offer): State
    requires s.Valid() && OfferAccepted(s, env, offerA, a, jobA.final, "").Valid()
  {
    OfferAccepted(OfferAccepted(s, env, offerA, a, jobA.final, ""), env, offerB, b, jobB.final, "")
  }

  /** Which finals and temporaries can coincide, given that both paths were
      free when they were chosen. */
  lemma NotApartCases(s: State, env: Env, a: Id, jobA: Job, offerA: Offer, b: Id, jobB: Job, offerB: Offer)
    requires BothAccepted(s, env, a, jobA, offerA, b, jobB, offerB)
    ensures !Apart(jobA, jobB) <==> jobA.final == jobB.final || jobA.final == Temp(jobB)
    ensures jobA.final == jobB.final ==> Temp(jobA) == Temp(jobB)
  {
    hide GoodJob, TransferFinished;
    AcceptShape(s, env, a, jobA, offerA);
    assert Temp(jobA) in OfferAccepted(s, env, offerA, a, jobA.final, "").disk.names;
    if Temp(jobA) == Temp(jobB) {
      assert jobA.final == Temp(jobA)[..|Temp(jobA)| - 5] == Temp(jobB)[..|Temp(jobB)| - 5] == jobB.final;
    }
  }

  lemma AcceptBooks(s: State, env: Env, id: Id, job: Job, offer: Offer)
    requires s.Valid() && CanStart(s, id, job, offer)
    ensures Booked(OfferAccepted(s, env, offer, id, job.final, ""), id, job)
    ensures OfferAccepted(s, env, offer, id, job.final, "").progress == s.progress
    ensures forall other, later :: other != id && Booked(s, other, later) ==>
              Booked(OfferAccepted(s, env, offer, id, job.final, ""), other, later)
  {
    hide TransferFinished, Tiles, Crc32.Checksum;
  }

  ghost predicate AlwaysArrive(s: State, env: Env, jobs: map<Id, Job>) {
    s.Valid() && env.Sound() &&
    forall tags :: Interleaving(tags, jobs) ==>
      forall id :: id in jobs ==> Arrived(PartsHandled(s, env, jobs, tags), env.peer, id, jobs[id])
  }

  /** Two transfers accepted on free paths are both delivered under every
      interleaving of their chunks exactly if neither's final path is the
      other's final or temporary path. The temporary paths are never looked
      at when a path is chosen (internal/receiver/receiver.go:473, 482). */
  lemma ApartExactly(s: State, env: Env, a: Id, jobA: Job, offerA: Offer, b: Id, jobB: Job, offerB: Offer)
    requires BothAccepted(s, env, a, jobA, offerA, b, jobB, offerB)
    ensures AlwaysArrive(Accepted2(s, env, a, jobA, offerA, b, jobB, offerB), env, map[a := jobA, b := jobB]) <==>
            Apart(jobA, jobB)
  {
    hide Apart, AlwaysArrive, OfferAccepted;
    if Apart(jobA, jobB) {
      ApartArrive(s, env, a, jobA, offerA, b, jobB, offerB);
    } else {
      NotApartLoses(s, env, a, jobA, offerA, b, jobB, offerB);
    }
  }

  lemma ApartArrive(s: State, env: Env, a: Id, jobA: Job, offerA: Offer, b: Id, jobB: Job, offerB: Offer)
    requires BothAccepted(s, env, a, jobA, offerA, b, jobB, offerB) && Apart(jobA, jobB)
    ensures AlwaysArrive(Accepted2(s, env, a, jobA, offerA, b, jobB, offerB), env, map[a := jobA, b := jobB])
  {
    hide OfferAccepted, GoodJob, Create, NoHardLinks, Delivered, Count;
    var none: map<Id, Job>, nowhere: map<Id, nat> := map[], map[];
    var s1 := OfferAccepted(s, env, offerA, a, jobA.final, "");
    var inodes := nowhere[a := Create(s.disk, Temp(jobA)).1];
    NoneCounted(a);
    NoneCounted(b);
    AcceptKeepsOthers(s, env, none, nowhere, [], a, jobA, offerA);
    var both := none[a := jobA][b := jobB];
    ApartSymmetric(jobA, jobB);
    AcceptKeepsOthers(s1, env, none[a := jobA], inodes, [], b, jobB, offerB);
    var s2 := OfferAccepted(s1, env, offerB, b, jobB.final, "");
    var inodes2 := inodes[b := Create(s1.disk, Temp(jobB)).1];
    assert both == map[a := jobA, b := jobB];
    forall tags, id | Interleaving(tags, both) && id in both
      ensures Arrived(PartsHandled(s2, env, both, tags), env.peer, id, both[id])
    {
      PartsAdvance(s2, env, both, inodes2, tags);
      DeliveredArrived(PartsHandled(s2, env, both, tags), env.peer, both, inodes2, tags, id);
    }
  }

  lemma ApartSymmetric(jobA: Job, jobB: Job)
    ensures Apart(jobA, jobB) <==> Apart(jobB, jobA)
  {
  }

  lemma DeliveredArrived(s: State, peer: string, jobs: map<Id, Job>, inodes: map<Id, nat>, tags: seq<Tag>, id: Id)
    requires JobsAt(s, peer, jobs, inodes, tags) && id in jobs && Count(tags, id) == |jobs[id].chunks|
    ensures Arrived(s, peer, id, jobs[id])
  {
    hide UnderWay, Count;
  }

  lemma NotApartLoses(s: State, env: Env, a: Id, jobA: Job, offerA: Offer, b: Id, jobB: Job, offerB: Offer)
    requires BothAccepted(s, env, a, jobA, offerA, b, jobB, offerB) && !Apart(jobA, jobB)
    ensures !AlwaysArrive(Accepted2(s, env, a, jobA, offerA, b, jobB, offerB), env, map[a := jobA, b := jobB])
  {
    hide OfferAccepted, Create, NoHardLinks, Booked, HasCompleted, Apart, PartsHandled, Interleaving, Arrived, Tiles;
    NotApartCases(s, env, a, jobA, offerA, b, jobB, offerB);
    var s1 := OfferAccepted(s, env, offerA, a, jobA.final, "");
    var s2 := OfferAccepted(s1, env, offerB, b, jobB.final, "");
    AcceptBooks(s, env, a, jobA, offerA);
    AcceptBooks(s1, env, b, jobB, offerB);
    NoTerminalsNotCompleted(s.progress, a);
    NoTerminalsNotCompleted(s1.progress, b);
    var jobs := map[a := jobA, b := jobB];
    var tags := FirstThenSecond(jobs, a, b);
    FirstThenSecondIsOne(jobs, a, b);
    SecondPhase(s2, env, jobs, a, b, |jobB.chunks|);
    var end := PartsHandled(s2, env, jobs, tags);
    if Arrived(end, env.peer, a, jobA) && Arrived(end, env.peer, b, jobB) {
      ArrivedHasCompleted(end, env.peer, a, jobA);
      ArrivedHasCompleted(end, env.peer, b, jobB);
      assert false;
    }
    assert a in jobs && b in jobs;
  }
}
