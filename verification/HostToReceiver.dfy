/** The whole way: the host's senders and event broadcasts share one peer
    connection, the receiver reads it. */
module HostToReceiver {
  import opened Bytes
  import opened Protocol
  import opened Cipher
  import opened Transfer
  import opened FileWriting
  import opened Receiver
  import opened Delivery
  import opened FrameMerge
  import opened BufferedMerge
  import BufferedWriter

  /** Which transfer each writer sends, if any. */
  type Owners = seq<Option<Id>>

  ghost predicate Owned(env: Env, queues: Queues, owners: Owners, jobs: map<Id, Job>) {
    && |owners| == |queues|
    && (forall i, j :: 0 <= i < j < |owners| && owners[i].Some? ==> owners[i] != owners[j])
    && (forall i :: 0 <= i < |owners| ==> OwnedQueue(env, queues[i], owners[i], jobs))
    && (forall id :: id in jobs ==> Some(id) in owners)
  }

  /** A sender's holds are the packets of its transfer; the others' frames
      carry no chunks. */
  ghost predicate OwnedQueue(env: Env, queue: seq<seq<Frame>>, owner: Option<Id>, jobs: map<Id, Job>) {
    match owner
    case Some(id) => id in jobs && Sealed(env.open, Concat(queue), jobs[id].chunks)
    case None => forall h, k :: 0 <= h < |queue| && 0 <= k < |queue[h]| ==>
        Fits(queue[h][k]) && CarriesNoChunk(env, queue[h][k], jobs)
  }

  // ---------- Positions in the merge ----------

  /** A sent frame is the next one of its writer. */
  lemma SentIsNext(sent: seq<Sent>, p: nat)
    requires p < |sent|
    ensures var i := sent[p].writer;
            && |From(sent[..p], i)| < |From(sent, i)|
            && sent[p].frame == From(sent, i)[|From(sent[..p], i)|]
  {
    var i := sent[p].writer;
    assert sent == sent[..p] + ([sent[p]] + sent[p + 1..]);
    FromAppend(sent[..p], [sent[p]] + sent[p + 1..], i);
    FromAppend([sent[p]], sent[p + 1..], i);
    assert From([sent[p]], i) == [sent[p].frame] + From([], i);
  }

  function TagsOf(sent: seq<Sent>, owners: Owners): (tags: seq<Tag>)
    requires forall p :: 0 <= p < |sent| ==> sent[p].writer < |owners|
    ensures |tags| == |sent|
  {
    if sent == [] then []
    else
      var p := |sent| - 1;
      TagsOf(sent[..p], owners) +
      [match owners[sent[p].writer] case None => Other case Some(id) => Part(id, |From(sent[..p], sent[p].writer)|)]
  }

  lemma {:induction false} TagAt(sent: seq<Sent>, owners: Owners, p: nat)
    requires forall q :: 0 <= q < |sent| ==> sent[q].writer < |owners|
    requires p < |sent|
    ensures TagsOf(sent, owners)[p] ==
            match owners[sent[p].writer] case None => Other case Some(id) => Part(id, |From(sent[..p], sent[p].writer)|)
    ensures TagsOf(sent, owners)[..p] == TagsOf(sent[..p], owners)
    decreases |sent|
  {
    if p < |sent| - 1 {
      TagAt(sent[..|sent| - 1], owners, p);
      assert sent[..|sent| - 1][..p] == sent[..p];
    }
  }

  /** The number of a transfer's frames so far is what its writer has sent. */
  lemma {:induction false} CountIsSent(sent: seq<Sent>, owners: Owners, i: nat, id: Id)
    requires forall q :: 0 <= q < |sent| ==> sent[q].writer < |owners|
    requires i < |owners| && owners[i] == Some(id)
    requires forall j, k :: 0 <= j < k < |owners| && owners[j].Some? ==> owners[j] != owners[k]
    ensures Count(TagsOf(sent, owners), id) == |From(sent, i)|
    decreases |sent|
  {
    if sent != [] {
      var p := |sent| - 1;
      CountIsSent(sent[..p], owners, i, id);
      assert sent == sent[..p] + [sent[p]];
      FromAppend(sent[..p], [sent[p]], i);
      TagAt(sent, owners, p);
      assert From([sent[p]], i) == (if sent[p].writer == i then [sent[p].frame] else []) + From([], i);
    }
  }

  // ---------- From schedules to deliveries ----------

  lemma {:induction false} InConcat(queue: seq<seq<Frame>>, k: nat) returns (h: nat, m: nat)
    requires k < |Concat(queue)|
    ensures h < |queue| && m < |queue[h]| && queue[h][m] == Concat(queue)[k]
  {
    if k < |queue[0]| {
      h, m := 0, k;
    } else {
      h, m := InConcat(queue[1..], k - |queue[0]|);
      h := h + 1;
    }
  }

  lemma {:induction false} ConcatContains(queue: seq<seq<Frame>>, h: nat, m: nat) returns (k: nat)
    requires h < |queue| && m < |queue[h]|
    ensures k < |Concat(queue)| && Concat(queue)[k] == queue[h][m]
  {
    if h == 0 {
      k := m;
    } else {
      k := ConcatContains(queue[1..], h - 1, m);
      k := k + |queue[0]|;
    }
  }

  lemma OwnedRunsFit(env: Env, queues: Queues, owners: Owners, jobs: map<Id, Job>)
    requires Owned(env, queues, owners, jobs)
    ensures AllRunsFit(queues)
  {
    hide CarriesNoChunk, Concat;
    forall i, h | 0 <= i < |queues| && 0 <= h < |queues[i]|
      ensures AllFit(queues[i][h])
    {
      assert OwnedQueue(env, queues[i], owners[i], jobs);
      forall m | 0 <= m < |queues[i][h]|
        ensures Fits(queues[i][h][m])
      {
        if owners[i].Some? {
          var k := ConcatContains(queues[i], h, m);
          assert SealedChunk(env.open, Concat(queues[i])[k], jobs[owners[i].value].chunks[k]);
        }
      }
    }
  }

  /** A complete schedule makes a wire on which every transfer's chunks come in
      order and in full. */
  lemma ScheduleMakesWire(env: Env, queues: Queues, owners: Owners, jobs: map<Id, Job>, schedule: seq<nat>)
    returns (frames: seq<Frame>, tags: seq<Tag>)
    requires Owned(env, queues, owners, jobs) && Schedulable(queues, schedule) && Finished(queues, schedule)
    ensures WireOf(queues, schedule) == EncodeFrames(frames)
    ensures Wire(env, frames, [], tags, jobs)
    ensures forall id :: id in jobs ==> Count(tags, id) == |jobs[id].chunks|
  {
    hide Concat, Finished, Matches, OwnedQueue, Schedulable, Merged, Frames, TagsOf, Count, WireOf, ParseFrames,
        EncodeFrames, Leftover;
    OwnedRunsFit(env, queues, owners, jobs);
    WireParsesToMerge(queues, schedule);
    var sent := Merged(queues, schedule);
    forall q | 0 <= q < |sent|
      ensures sent[q].writer < |owners|
    {
      WritersAreQueues(queues, schedule, q);
    }
    frames, tags := Frames(sent), TagsOf(sent, owners);
    forall p | 0 <= p < |tags|
      ensures Matches(env, frames[p], tags[p], jobs)
      ensures tags[p].Part? ==>
              tags[p].id in jobs && tags[p].k == Count([] + tags[..p], tags[p].id) < |jobs[tags[p].id].chunks|
    {
      FrameMatches(env, queues, owners, jobs, schedule, p);
      assert [] + tags[..p] == tags[..p];
    }
    forall id | id in jobs
      ensures Count(tags, id) == |jobs[id].chunks|
    {
      AllAreSent(env, queues, owners, jobs, schedule, id);
    }
  }

  lemma AllAreSent(env: Env, queues: Queues, owners: Owners, jobs: map<Id, Job>, schedule: seq<nat>, id: Id)
    requires Owned(env, queues, owners, jobs) && Schedulable(queues, schedule) && Finished(queues, schedule)
             && id in jobs
    requires forall q :: 0 <= q < |Merged(queues, schedule)| ==> Merged(queues, schedule)[q].writer < |owners|
    ensures Count(TagsOf(Merged(queues, schedule), owners), id) == |jobs[id].chunks|
  {
    hide Concat, Finished, Merged, TagsOf, Count, SealedChunk, CarriesNoChunk;
    assert Some(id) in owners;
    var i :| 0 <= i < |owners| && owners[i] == Some(id);
    CountIsSent(Merged(queues, schedule), owners, i, id);
    FinishedSends(queues, schedule, i);
    assert OwnedQueue(env, queues[i], owners[i], jobs);
  }

  lemma FrameMatches(env: Env, queues: Queues, owners: Owners, jobs: map<Id, Job>, schedule: seq<nat>, p: nat)
    requires Owned(env, queues, owners, jobs) && Schedulable(queues, schedule) && Finished(queues, schedule)
    requires p < |Merged(queues, schedule)|
    requires forall q :: 0 <= q < |Merged(queues, schedule)| ==> Merged(queues, schedule)[q].writer < |owners|
    ensures var sent := Merged(queues, schedule);
            var tags := TagsOf(sent, owners);
            && Matches(env, sent[p].frame, tags[p], jobs)
            && (tags[p].Part? ==>
                tags[p].id in jobs && tags[p].k == Count(tags[..p], tags[p].id) < |jobs[tags[p].id].chunks|)
  {
    hide Concat, CarriesNoChunk, Finished, SealedChunk, Merged;
    var sent := Merged(queues, schedule);
    var i := sent[p].writer;
    TagAt(sent, owners, p);
    SentIsNext(sent, p);
    FinishedSends(queues, schedule, i);
    assert OwnedQueue(env, queues[i], owners[i], jobs);
    match owners[i]
    case Some(id) =>
      CountIsSent(sent[..p], owners, i, id);
    case None =>
      var h, m := InConcat(queues[i], |From(sent[..p], i)|);
  }

  /** Any number of transfers and other writers, any schedule of the write
      mutex: as long as each hold covers whole frames, reading the connection
      leaves every source under its final path, completed once. */
  lemma DeliveredUnderAnySchedule(s: State, env: Env, jobs: map<Id, Job>, inodes: map<Id, nat>,
                                  queues: Queues, owners: Owners, schedule: seq<nat>, io: nat -> Io)
    requires env.Sound() && GoodJobs(jobs) && AllAt(s, env.peer, jobs, inodes, [])
    requires Owned(env, queues, owners, jobs) && Schedulable(queues, schedule) && Finished(queues, schedule)
    requires forall m :: io(m) == Works
    ensures forall id :: id in jobs ==>
              Delivered(ConnectionRead(s, env, WireOf(queues, schedule), io), env.peer, id, jobs[id], inodes[id])
  {
    hide Delivered, ConnectionRead, AllAt, Owned, Wire, GoodJobs;
    var frames, tags := ScheduleMakesWire(env, queues, owners, jobs, schedule);
    assert [] + tags == tags;
    EndToEnd(s, env, jobs, inodes, frames, [], tags, io);
  }

  // ---------- Through the buffers ----------

  /** A sender's frames are the packets of its transfer; the others' frames
      carry no chunks of these transfers. */
  ghost predicate OwnedSource(env: Env, source: Source, owner: Option<Id>, jobs: map<Id, Job>) {
    match owner
    case Some(id) => id in jobs && Sealed(env.open, source.frames, jobs[id].chunks)
    case None => forall k :: 0 <= k < |source.frames| ==> CarriesNoChunk(env, source.frames[k], jobs)
  }

  ghost predicate OwnedSources(env: Env, sources: seq<Source>, owners: Owners, jobs: map<Id, Job>) {
    && |owners| == |sources|
    && (forall i, j :: 0 <= i < j < |owners| && owners[i].Some? ==> owners[i] != owners[j])
    && (forall i :: 0 <= i < |owners| ==> OwnedSource(env, sources[i], owners[i], jobs))
    && (forall id :: id in jobs ==> Some(id) in owners)
  }

  lemma RunsAreOwned(env: Env, source: Source, owner: Option<Id>, jobs: map<Id, Job>)
    requires OwnedSource(env, source, owner, jobs) && source.Succeeds() && source.Whole()
    ensures OwnedQueue(env, Runs(source.Holds()), owner, jobs)
  {
    hide CarriesNoChunk, Sealed, Concat, WholeFrames, ParseFrames, Unsplit, BufferedWriter.SendCost;
    RunsOfSource(source);
    var queue := Runs(source.Holds());
    if owner.None? {
      forall h, k | 0 <= h < |queue| && 0 <= k < |queue[h]|
        ensures Fits(queue[h][k]) && CarriesNoChunk(env, queue[h][k], jobs)
      {
        var j := ConcatContains(queue, h, k);
      }
    }
  }

  lemma SourcesAreOwned(env: Env, sources: seq<Source>, owners: Owners, jobs: map<Id, Job>)
    requires OwnedSources(env, sources, owners, jobs)
    requires forall i :: 0 <= i < |sources| ==> sources[i].Succeeds() && sources[i].Whole()
    ensures AllHoldsWhole(AllHolds(sources)) && Owned(env, AllRuns(AllHolds(sources)), owners, jobs)
  {
    hide OwnedSource, OwnedQueue, WholeFrames, AllWhole, ParseFrames, Runs;
    forall i | 0 <= i < |sources|
      ensures AllWhole(AllHolds(sources)[i]) && OwnedQueue(env, AllRuns(AllHolds(sources))[i], owners[i], jobs)
    {
      RunsOfSource(sources[i]);
      RunsAreOwned(env, sources[i], owners[i], jobs);
    }
  }

  /** From the senders' buffers to the files: any number of transfers, each
      sent through a buffered writer of its own, and any other writers share a
      connection. If no packet straddles an emission of its buffer, then under
      every schedule of the emissions every source ends up under its final
      path, completed once. */
  lemma DeliveredThroughBuffers(s: State, env: Env, jobs: map<Id, Job>, inodes: map<Id, nat>,
                                sources: seq<Source>, owners: Owners, schedule: seq<nat>, io: nat -> Io)
    requires env.Sound() && GoodJobs(jobs) && AllAt(s, env.peer, jobs, inodes, [])
    requires OwnedSources(env, sources, owners, jobs) && Complete(sources, schedule)
    requires forall i :: 0 <= i < |sources| ==> sources[i].Succeeds() && sources[i].Whole()
    requires forall m :: io(m) == Works
    ensures Schedulable(AllHolds(sources), schedule)
    ensures forall id :: id in jobs ==>
              Delivered(ConnectionRead(s, env, BytesOf(AllHolds(sources), schedule), io), env.peer, id, jobs[id],
                        inodes[id])
  {
    CompleteIs(sources, schedule);
    hide Delivered, ConnectionRead, AllAt, Owned, OwnedSources, GoodJobs, Complete, AllHolds, AllRuns, AllHoldsWhole,
        Schedulable, Turns, WireOf, BytesOf;
    SourcesAreOwned(env, sources, owners, jobs);
    var holds := AllHolds(sources);
    WholeHoldsAreRuns(holds, schedule);
    RunsAreFinished(holds, schedule);
    DeliveredUnderAnySchedule(s, env, jobs, inodes, AllRuns(holds), owners, schedule, io);
  }

  // ---------- From the send loop on ----------

  /** What one writer puts on the connection: a sender all of whose packets have
      gone out, or others' control frames. */
  datatype Output = FromSender(id: Id, budget: nat, part: nat) | FromOthers(frames: seq<Frame>)

  function OwnerOf(o: Output): Option<Id> {
    if o.FromSender? then Some(o.id) else None
  }

  function SourceOf(cipher: Cipher, jobs: map<Id, Job>, o: Output): Source
    requires o.FromSender? ==> o.id in jobs && SealsAll(cipher, jobs[o.id].chunks)
  {
    match o
    case FromSender(id, budget, _) => Stream(BUFFER_SIZE, budget, Packets(cipher, jobs[id].chunks))
    case FromOthers(frames) => Messages(frames)
  }

  /** The emissions of a transfer that ended Completed are those its writer shows
      then; no packet straddles one. */
  ghost predicate PutOut(env: Env, cipher: Cipher, jobs: map<Id, Job>, o: Output, es: seq<seq<byte>>) {
    match o
    case FromSender(id, budget, part) =>
      && id in jobs && SealsAll(cipher, jobs[id].chunks)
      && BufferedWriter.SendCost(BUFFER_SIZE, 0, Packets(cipher, jobs[id].chunks)) <= budget
      && es == WriterAfter(Packets(cipher, jobs[id].chunks), budget, part).emitted
      && Unsplit(BUFFER_SIZE, 0, Packets(cipher, jobs[id].chunks))
    case FromOthers(frames) =>
      && AllFit(frames) && es == Singles(frames)
      && forall k :: 0 <= k < |frames| ==> CarriesNoChunk(env, frames[k], jobs)
  }

  lemma OutputIsSource(env: Env, cipher: Cipher, jobs: map<Id, Job>, o: Output, es: seq<seq<byte>>)
    requires PutOut(env, cipher, jobs, o, es)
    requires GoodJobs(jobs) && cipher.Lawful() && env.open == cipher.open
    ensures o.FromSender? ==> o.id in jobs && SealsAll(cipher, jobs[o.id].chunks)
    ensures var source := SourceOf(cipher, jobs, o);
            && source.Succeeds() && source.Whole() && source.Holds() == es
            && OwnedSource(env, source, OwnerOf(o), jobs)
  {
    hide SealsAll, Packet, Packets, Unsplit, BufferedWriter.SendCost, BufferedWriter.PutFrames, BufferedWriter.Flush,
        CarriesNoChunk, LaidOut;
    match o
    case FromOthers(_) =>
    case FromSender(id, budget, part) =>
      assert GoodJob(id, jobs[id]);
      var fs := Packets(cipher, jobs[id].chunks);
      PacketsAreSealed(cipher, jobs[id].chunks, id, jobs[id].src);
      assert forall k :: 0 <= k < |fs| ==> SealedChunk(cipher.open, fs[k], jobs[id].chunks[k]);
      assert AllFit(fs);
      var start := BufferedWriter.NewState(BUFFER_SIZE, budget, part);
      BufferedWriter.SendCostExactly(start, fs);
      FlushIgnoresPart(start, fs, 0);
  }

  lemma FlushIgnoresPart(start: BufferedWriter.State, fs: seq<Frame>, part: nat)
    requires start.Valid() && !BufferedWriter.Flush(BufferedWriter.PutFrames(start, fs)).failed
    ensures BufferedWriter.Flush(BufferedWriter.PutFrames(start.(part := part), fs)).emitted ==
            BufferedWriter.Flush(BufferedWriter.PutFrames(start, fs)).emitted
  {
    hide BufferedWriter.PutFrames;
    BufferedWriter.FlushKeepsFailure(BufferedWriter.PutFrames(start, fs));
    BufferedWriter.PutFramesIgnorePart(start, fs, part);
  }

  ghost predicate AllSealed(cipher: Cipher, jobs: map<Id, Job>, outputs: seq<Output>) {
    forall i :: 0 <= i < |outputs| && outputs[i].FromSender? ==>
      outputs[i].id in jobs && SealsAll(cipher, jobs[outputs[i].id].chunks)
  }

  ghost function AllSources(cipher: Cipher, jobs: map<Id, Job>, outputs: seq<Output>): (sources: seq<Source>)
    requires AllSealed(cipher, jobs, outputs)
    ensures |sources| == |outputs|
    ensures forall i :: 0 <= i < |outputs| ==> sources[i] == SourceOf(cipher, jobs, outputs[i])
  {
    if outputs == [] then [] else [SourceOf(cipher, jobs, outputs[0])] + AllSources(cipher, jobs, outputs[1..])
  }

  function AllOwners(outputs: seq<Output>): (owners: Owners)
    ensures |owners| == |outputs| && forall i :: 0 <= i < |outputs| ==> owners[i] == OwnerOf(outputs[i])
  {
    if outputs == [] then [] else [OwnerOf(outputs[0])] + AllOwners(outputs[1..])
  }

  /** Each transfer is sent by one of them. */
  ghost predicate OneSenderEach(jobs: map<Id, Job>, outputs: seq<Output>) {
    && (forall i, j :: 0 <= i < j < |outputs| && outputs[i].FromSender? ==> OwnerOf(outputs[i]) != OwnerOf(outputs[j]))
    && (forall id :: id in jobs ==> exists i :: 0 <= i < |outputs| && OwnerOf(outputs[i]) == Some(id))
  }

  ghost predicate AllPutOut(env: Env, cipher: Cipher, jobs: map<Id, Job>, outputs: seq<Output>, holds: Holds) {
    |holds| == |outputs| && forall i :: 0 <= i < |outputs| ==> PutOut(env, cipher, jobs, outputs[i], holds[i])
  }

  lemma OutputsAreSources(env: Env, cipher: Cipher, jobs: map<Id, Job>, outputs: seq<Output>, holds: Holds)
    requires AllPutOut(env, cipher, jobs, outputs, holds)
    requires GoodJobs(jobs) && cipher.Lawful() && env.open == cipher.open
    ensures AllSealed(cipher, jobs, outputs)
    ensures var sources := AllSources(cipher, jobs, outputs);
            && AllHolds(sources) == holds
            && (forall i :: 0 <= i < |sources| ==> sources[i].Succeeds() && sources[i].Whole())
            && (forall i :: 0 <= i < |sources| ==> OwnedSource(env, sources[i], OwnerOf(outputs[i]), jobs))
  {
    hide GoodJobs, PutOut, SealsAll, OwnedSource, SourceOf;
    forall i | 0 <= i < |outputs|
      ensures outputs[i].FromSender? ==> outputs[i].id in jobs && SealsAll(cipher, jobs[outputs[i].id].chunks)
      ensures var source := SourceOf(cipher, jobs, outputs[i]);
              && source.Succeeds() && source.Whole() && source.Holds() == holds[i]
              && OwnedSource(env, source, OwnerOf(outputs[i]), jobs)
    {
      OutputIsSource(env, cipher, jobs, outputs[i], holds[i]);
    }
    assert AllHolds(AllSources(cipher, jobs, outputs)) == holds;
  }

  lemma OutputsAreOwned(env: Env, cipher: Cipher, jobs: map<Id, Job>, outputs: seq<Output>)
    requires AllSealed(cipher, jobs, outputs) && OneSenderEach(jobs, outputs)
    requires var sources := AllSources(cipher, jobs, outputs);
             forall i :: 0 <= i < |sources| ==> OwnedSource(env, sources[i], OwnerOf(outputs[i]), jobs)
    ensures OwnedSources(env, AllSources(cipher, jobs, outputs), AllOwners(outputs), jobs)
  {
    hide OwnedSource, SourceOf, AllSealed;
    var owners := AllOwners(outputs);
    forall id | id in jobs ensures Some(id) in owners {
      var i :| 0 <= i < |outputs| && OwnerOf(outputs[i]) == Some(id);
      assert owners[i] == Some(id);
    }
  }

  /** From the send loop to the files: if every transfer has been sent by a loop
      that ended Completed, none of its packets straddling an emission, then
      under every schedule of these emissions and of others' control frames
      every source ends up under its final path, completed once. */
  lemma CompletedSendsDeliver(s: State, env: Env, cipher: Cipher, jobs: map<Id, Job>, inodes: map<Id, nat>,
                              outputs: seq<Output>, holds: Holds, schedule: seq<nat>, io: nat -> Io)
    requires env.Sound() && GoodJobs(jobs) && AllAt(s, env.peer, jobs, inodes, [])
    requires cipher.Lawful() && env.open == cipher.open
    requires AllPutOut(env, cipher, jobs, outputs, holds) && OneSenderEach(jobs, outputs)
    requires Schedulable(holds, schedule) && Finished(holds, schedule)
    requires forall m :: io(m) == Works
    ensures forall id :: id in jobs ==>
              Delivered(ConnectionRead(s, env, BytesOf(holds, schedule), io), env.peer, id, jobs[id], inodes[id])
  {
    hide AllAt, GoodJobs, AllPutOut, AllSealed, OwnedSource, OwnedSources, OneSenderEach, AllSources, AllOwners,
        AllHolds;
    hide Schedulable, Finished, BytesOf, ConnectionRead, Delivered;
    OutputsAreSources(env, cipher, jobs, outputs, holds);
    OutputsAreOwned(env, cipher, jobs, outputs);
    DeliveredThroughBuffers(s, env, jobs, inodes, AllSources(cipher, jobs, outputs), AllOwners(outputs), schedule, io);
  }
}
