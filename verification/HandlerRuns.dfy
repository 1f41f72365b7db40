/** The receiver's handlers, run without interruption, are runs of the
    interleaved bookkeeping: every step there is a piece of the code here, and
    what holds of every interleaving holds of the handlers
    (internal/receiver/receiver.go:256-511, 530-586). */
module HandlerRuns {
  import opened Bytes
  import opened Protocol
  import opened ChunkCodec
  import opened FileWriting
  import opened Transfer
  import opened PeerStates
  import opened Receiver
  import opened Outcomes
  import Steps = ReceiverSteps
  import SavePath

  // ---------- What the two have in common ----------

  datatype Said = Said(id: Id, state: TransferState)

  function SaidIn(log: seq<Steps.ChannelUse>): seq<Said> {
    if log == [] then []
    else
      var last := log[|log| - 1];
      SaidIn(log[..|log| - 1]) + if last.Sent? then [Said(last.progress.id, last.progress.state)] else []
  }

  function SaidBy(ps: seq<PeerProgress>): seq<Said> {
    if ps == [] then [] else SaidBy(ps[..|ps| - 1]) + [Said(ps[|ps| - 1].id, ps[|ps| - 1].state)]
  }

  ghost predicate SameOffers(y: Steps.System, s: State) {
    && y.offers.Keys == s.offers.Keys
    && forall id :: id in s.offers ==> y.offers[id] == Steps.Offer(s.offers[id].size, s.offers[id].folder)
  }

  /** The numbered writer stands for the one in the receiver. */
  predicate StandsFor(y: Steps.System, n: Steps.WriterId, w: WriterState) {
    n < |y.sizes| && y.sizes[n] == w.size && (n in y.closed <==> !w.open)
  }

  ghost predicate SameWriters(y: Steps.System, s: State) {
    && y.fileWriters.Keys == s.writers.Keys
    && (forall id :: id in s.writers ==> StandsFor(y, y.fileWriters[id], s.writers[id]))
    && (forall i, j :: i in y.fileWriters && j in y.fileWriters && i != j ==> y.fileWriters[i] != y.fileWriters[j])
    && (forall n :: n in y.closed ==> n < |y.sizes|)
  }

  ghost predicate SameReports(y: Steps.System, s: State) {
    y.channelOpen == !s.dropped && SaidIn(y.log) == SaidBy(s.progress)
  }

  /** Both know the same offers, writers, paths and folders and have said the
      same, and no call is in progress. */
  ghost predicate Same(y: Steps.System, s: State) {
    && y.acceptors == map[]
    && SameOffers(y, s) && SameWriters(y, s) && SameReports(y, s)
    && y.savePaths == s.savePaths.Keys && y.dirTransfers == s.dirs.Keys
  }

  /** A run of the steps leads to that state, with the read loop where it was. */
  ghost predicate Leads(y: Steps.System, s: State) {
    exists steps, end :: Steps.Run(y, steps, end) && Same(end, s) && end.reader == y.reader
  }

  // ---------- Runs ----------

  lemma {:induction false} RunsJoin(a: Steps.System, x: seq<Steps.Step>, b: Steps.System, z: seq<Steps.Step>,
                                    c: Steps.System)
    requires Steps.Run(a, x, b) && Steps.Run(b, z, c)
    ensures Steps.Run(a, x + z, c)
    decreases |x|
  {
    hide Steps.Enabled, Steps.Do;
    if x == [] {
      assert x + z == z;
    } else {
      assert (x + z)[1..] == x[1..] + z;
      RunsJoin(Steps.Do(a, x[0]), x[1..], b, z, c);
    }
  }

  lemma OneStep(y: Steps.System, step: Steps.Step)
    requires Steps.Enabled(y, step)
    ensures Steps.Run(y, [step], Steps.Do(y, step))
  {
    hide Steps.Enabled, Steps.Do;
    assert Steps.Run(Steps.Do(y, step), [step][1..], Steps.Do(y, step));
  }

  lemma ThenStep(y: Steps.System, steps: seq<Steps.Step>, mid: Steps.System, step: Steps.Step)
    returns (end: Steps.System)
    requires Steps.Run(y, steps, mid) && Steps.Enabled(mid, step)
    ensures end == Steps.Do(mid, step) && Steps.Run(y, steps + [step], end)
  {
    hide Steps.Enabled, Steps.Do, Steps.Run;
    end := Steps.Do(mid, step);
    OneStep(mid, step);
    RunsJoin(y, steps, mid, [step], end);
  }

  // ---------- Chunks ----------

  /** A chunk that is refused. */
  lemma FailedRun(y: Steps.System, id: Id) returns (steps: seq<Steps.Step>, end: Steps.System)
    requires y.reader.Idle? && id in y.fileWriters && y.fileWriters[id] < |y.sizes|
    ensures Steps.Run(y, steps, end)
    ensures var n := y.fileWriters[id];
            end == Steps.SendProgress(Steps.Forget(y, id).(closed := y.closed + {n}), Steps.Progress(id, n, Failed))
  {
    hide Steps.Run;
    OneStep(y, Steps.Lookup(id));
    end := Steps.Do(y, Steps.Lookup(id));
    end := ThenStep(y, [Steps.Lookup(id)], end, Steps.WriteChunk(false, 0));
    end := ThenStep(y, [Steps.Lookup(id)] + [Steps.WriteChunk(false, 0)], end, Steps.ForgetFailed);
    steps := [Steps.Lookup(id)] + [Steps.WriteChunk(false, 0)] + [Steps.ForgetFailed];
    end := ThenStep(y, steps, end, Steps.Report);
    steps := steps + [Steps.Report];
  }

  /** A chunk that is written, up to the report of it. */
  lemma WrittenRun(y: Steps.System, id: Id, upTo: nat) returns (steps: seq<Steps.Step>, end: Steps.System)
    requires y.reader.Idle? && id in y.fileWriters && y.fileWriters[id] < |y.sizes| && y.fileWriters[id] !in y.closed
    requires y.sizes[y.fileWriters[id]] > 0 && upTo <= y.sizes[y.fileWriters[id]]
    ensures Steps.Run(y, steps, end)
    ensures var n := y.fileWriters[id];
            end == Steps.SendProgress(y, Steps.Progress(id, n, InProgress)).(
                     reader := if upTo == y.sizes[n] then Steps.Complete(id, n) else Steps.Idle)
  {
    hide Steps.Run;
    OneStep(y, Steps.Lookup(id));
    end := Steps.Do(y, Steps.Lookup(id));
    end := ThenStep(y, [Steps.Lookup(id)], end, Steps.WriteChunk(true, upTo));
    steps := [Steps.Lookup(id)] + [Steps.WriteChunk(true, upTo)];
    end := ThenStep(y, steps, end, Steps.TellProgress);
    steps := steps + [Steps.TellProgress];
  }

  /** The end of a complete transfer. */
  lemma EndingRun(y: Steps.System, id: Id, n: Steps.WriterId, fine: bool)
    returns (steps: seq<Steps.Step>, end: Steps.System)
    requires y.reader == Steps.Complete(id, n) && n !in y.closed
    ensures Steps.Run(y, steps, end)
    ensures end == Steps.SendProgress(Steps.Forget(y, id).(closed := y.closed + {n}),
                                      Steps.Progress(id, n, if fine then Completed else Failed)).(reader := Steps.Idle)
  {
    hide Steps.Run;
    OneStep(y, Steps.ForgetFinished);
    end := Steps.Do(y, Steps.ForgetFinished);
    end := ThenStep(y, [Steps.ForgetFinished], end, Steps.FinishFile(fine));
    steps := [Steps.ForgetFinished] + [Steps.FinishFile(fine)];
    end := ThenStep(y, steps, end, Steps.Report);
    steps := steps + [Steps.Report];
  }

  lemma SendSaid(y: Steps.System, p: Steps.Progress, s: State, q: PeerProgress)
    requires SameReports(y, s) && p.id == q.id && p.state == q.state
    ensures Steps.SendProgress(y, p).channelOpen == y.channelOpen
    ensures SaidIn(Steps.SendProgress(y, p).log) == SaidBy(Told(s, [q]))
  {
    var log, ps := y.log + [Steps.Sent(p)], s.progress + [q];
    assert log[..|y.log|] == y.log && ps[..|s.progress|] == s.progress;
  }

  /** One transfer is forgotten in both. */
  lemma BothForget(y: Steps.System, s: State, id: Id, n: Steps.WriterId, y': Steps.System, t: State)
    requires Same(y, s) && id in y.fileWriters && n == y.fileWriters[id]
    requires y' == Steps.Forget(y, id).(closed := y.closed + {n}, log := y'.log, reader := y'.reader)
    requires NoTransfer(t, id) && OthersStay(s, t, id) && t.offers == s.offers && t.dropped == s.dropped
    requires SaidIn(y'.log) == SaidBy(t.progress)
    ensures Same(y', t)
  {
    hide SaidIn, SaidBy, NoTransfer, OthersStay;
    KeysForgotten(s, t, id);
    hide Steps.Forget;
    ForgetFields(y, id);
    SameButOne(y, s, id, n, y', t);
  }

  lemma KeysForgotten(s: State, t: State, id: Id)
    requires NoTransfer(t, id) && OthersStay(s, t, id)
    ensures t.writers.Keys == s.writers.Keys - {id} && t.savePaths.Keys == s.savePaths.Keys - {id}
    ensures t.dirs.Keys == s.dirs.Keys - {id}
    ensures forall other :: other in t.writers ==> t.writers[other] == s.writers[other]
  {
    forall other: Id
      ensures other in t.writers <==> other in s.writers && other != id
      ensures other in t.savePaths <==> other in s.savePaths && other != id
      ensures other in t.dirs <==> other in s.dirs && other != id
      ensures other in t.writers ==> t.writers[other] == s.writers[other]
    {
      if other != id {
        assert SameTransfer(s, t, other);
      }
    }
  }

  lemma ForgetFields(y: Steps.System, id: Id)
    ensures var f := Steps.Forget(y, id);
            && f == y.(fileWriters := f.fileWriters, savePaths := f.savePaths, dirTransfers := f.dirTransfers)
            && f.fileWriters == y.fileWriters - {id} && f.savePaths == y.savePaths - {id}
            && f.dirTransfers == y.dirTransfers - {id}
  {
  }

  lemma SameButOne(y: Steps.System, s: State, id: Id, n: Steps.WriterId, y': Steps.System, t: State)
    requires SameWriters(y, s) && id in y.fileWriters && n == y.fileWriters[id]
    requires y'.fileWriters == y.fileWriters - {id} && y'.closed == y.closed + {n} && y'.sizes == y.sizes
    requires t.writers.Keys == s.writers.Keys - {id}
    requires forall other :: other in t.writers ==> t.writers[other] == s.writers[other]
    ensures SameWriters(y', t)
  {
    assert StandsFor(y, n, s.writers[id]);
    forall other | other in t.writers ensures StandsFor(y', y'.fileWriters[other], t.writers[other]) {
      assert StandsFor(y, y.fileWriters[other], s.writers[other]);
    }
  }

  lemma KnownWriter(y: Steps.System, s: State, id: Id)
    requires Same(y, s) && id in s.writers
    ensures id in y.fileWriters && StandsFor(y, y.fileWriters[id], s.writers[id])
  {
  }

  /** Sizes for which the range test of a chunk is right. */
  ghost predicate SaneWriters(s: State) {
    forall id :: id in s.writers ==> SaneSize(s.writers[id].size)
  }

  lemma FailedChunkRuns(y: Steps.System, s: State, t: State, id: Id, p: PeerProgress)
    requires Same(y, s) && y.reader.Idle? && id in s.writers && p.id == id && p.state == Failed
    requires NoTransfer(t, id) && OthersStay(s, t, id) && t.offers == s.offers && t.dropped == s.dropped
    requires t.progress == Told(s, [p])
    ensures Leads(y, t)
  {
    hide NoTransfer, OthersStay, SaidIn, SaidBy, Steps.Forget, Steps.SendProgress;
    var n := y.fileWriters[id];
    KnownWriter(y, s, id);
    var steps, end := FailedRun(y, id);
    var forgotten := Steps.Forget(y, id).(closed := y.closed + {n});
    ForgetKeeps(y, id, n);
    SendKeeps(forgotten, Steps.Progress(id, n, Failed));
    SendSaid(forgotten, Steps.Progress(id, n, Failed), s, p);
    BothForget(y, s, id, n, end, t);
  }

  lemma ForgetKeeps(y: Steps.System, id: Id, n: Steps.WriterId)
    ensures var f := Steps.Forget(y, id).(closed := y.closed + {n});
            f.log == y.log && f.channelOpen == y.channelOpen && f.reader == y.reader && f.acceptors == y.acceptors
  {
  }

  lemma SendKeeps(y: Steps.System, p: Steps.Progress)
    ensures Steps.SendProgress(y, p) == y.(log := Steps.SendProgress(y, p).log)
  {
  }

  lemma WrittenChunkRuns(y: Steps.System, s: State, t: State, id: Id, upTo: int64, p: PeerProgress)
    requires Same(y, s) && y.reader.Idle? && id in s.writers && s.writers[id].open
    requires 0 <= upTo < s.writers[id].size && p.id == id && p.state == InProgress
    requires t.writers == s.writers[id := s.writers[id].(offset := upTo)]
    requires t.savePaths == s.savePaths && t.dirs == s.dirs && t.offers == s.offers && t.dropped == s.dropped
    requires t.progress == Told(s, [p])
    ensures Leads(y, t)
  {
    hide SaidIn, SaidBy, Steps.SendProgress;
    var n := y.fileWriters[id];
    assert StandsFor(y, n, s.writers[id]);
    var steps, end := WrittenRun(y, id, upTo);
    SendKeeps(y, Steps.Progress(id, n, InProgress));
    SendSaid(y, Steps.Progress(id, n, InProgress), s, p);
    assert t.writers.Keys == s.writers.Keys;
    assert Same(end, t);
  }

  lemma CompletedChunkRuns(y: Steps.System, s: State, t: State, id: Id, p: PeerProgress, q: PeerProgress, fine: bool)
    requires Same(y, s) && y.reader.Idle? && id in s.writers && s.writers[id].open && s.writers[id].size > 0
    requires NoTransfer(t, id) && OthersStay(s, t, id) && t.offers == s.offers && t.dropped == s.dropped
    requires p.id == q.id == id && p.state == InProgress && q.state == (if fine then Completed else Failed)
    requires t.progress == Told(s, [p, q])
    ensures Leads(y, t)
  {
    hide NoTransfer, OthersStay, SaidIn, SaidBy, Steps.Forget, Steps.SendProgress, Steps.Run, SameWriters, SameOffers;
    KnownWriter(y, s, id);
    var n := y.fileWriters[id];
    var steps, mid := WrittenRun(y, id, s.writers[id].size);
    SendKeeps(y, Steps.Progress(id, n, InProgress));
    SendSaid(y, Steps.Progress(id, n, InProgress), s, p);
    var told := s.(progress := Told(s, [p]));
    assert SameReports(mid, told);
    var more, end := EndingRun(mid, id, n, fine);
    RunsJoin(y, steps, mid, more, end);
    var forgotten := Steps.Forget(mid, id).(closed := mid.closed + {n});
    ForgetKeeps(mid, id, n);
    ForgetIgnores(y, mid, id, n);
    var last := Steps.Progress(id, n, if fine then Completed else Failed);
    SendKeeps(forgotten, last);
    SendSaid(forgotten, last, told, q);
    assert s.progress + [p] + [q] == s.progress + [p, q];
    BothForget(y, s, id, n, end, t);
  }

  lemma ForgetIgnores(y: Steps.System, mid: Steps.System, id: Id, n: Steps.WriterId)
    requires mid == y.(log := mid.log, reader := mid.reader)
    ensures Steps.Forget(mid, id).(closed := mid.closed + {n}) ==
            Steps.Forget(y, id).(closed := y.closed + {n}, log := mid.log, reader := mid.reader)
  {
  }

  /** Whatever a chunk does is a run of the steps of the read loop. */
  lemma ChunkRuns(y: Steps.System, s: State, env: Env, c: Chunk, io: Io)
    requires s.Valid() && SaneWriters(s) && |c.data| < TWO_32 && Same(y, s) && y.reader.Idle?
    ensures Leads(y, ChunkHandled(s, env, c, io))
  {
    hide ChunkHandled, NoTransfer, EndsWell, Same, Leads, Steps.Run, OthersStay, ChunkWritten;
    if c.id !in s.writers {
      StrayChunk(s, env, c, io);
      StayRuns(y, s, c.id);
    } else {
      ChunkOutcome(s, env, c, io);
      var t, w, end := ChunkHandled(s, env, c, io), s.writers[c.id], c.offset + |c.data|;
      if !Arrives(w, c, io) {
        FailedChunkRuns(y, s, t, c.id, PeerProgress(env.peer, c.id, 0, 0, Failed));
      } else if end < w.size {
        WrittenChunkRuns(y, s, t, c.id, end, PeerProgress(env.peer, c.id, end, w.size, InProgress));
      } else {
        var fine := EndsWell(env, w.(offset := end), ChunkWritten(w, s.disk, c, io).disk,
                             Lookup(s.savePaths, c.id), Lookup(s.dirs, c.id));
        CompletedChunkRuns(y, s, t, c.id, PeerProgress(env.peer, c.id, end, end, InProgress),
                           PeerProgress(env.peer, c.id, end, end, if fine then Completed else Failed), fine);
      }
    }
  }

  lemma ChunkStaysSane(s: State, env: Env, c: Chunk, io: Io)
    requires s.Valid() && SaneWriters(s) && |c.data| < TWO_32
    ensures SaneWriters(ChunkHandled(s, env, c, io))
  {
    hide ChunkHandled, EndsWell, OthersStay, ChunkWritten;
    if c.id !in s.writers {
      StrayChunk(s, env, c, io);
    } else {
      ChunkOutcome(s, env, c, io);
      StaysSane(s, ChunkHandled(s, env, c, io), c.id);
    }
  }

  lemma StaysSane(s: State, t: State, id: Id)
    requires SaneWriters(s) && OthersStay(s, t, id)
    requires id in t.writers ==> id in s.writers && t.writers[id].size == s.writers[id].size
    ensures SaneWriters(t)
  {
    forall other | other in t.writers ensures SaneSize(t.writers[other].size) {
      if other != id {
        assert SameTransfer(s, t, other);
      }
    }
  }

  lemma StayRuns(y: Steps.System, s: State, id: Id)
    requires Same(y, s) && y.reader.Idle? && id !in s.writers
    ensures Leads(y, s)
  {
    OneStep(y, Steps.Lookup(id));
    hide Same, Steps.Run;
  }

  // ---------- Offers and calls ----------

  lemma OfferRuns(y: Steps.System, s: State, offer: Offer)
    requires Same(y, s) && y.reader.Idle?
    ensures Leads(y, OfferReceived(s, offer))
  {
    hide SavePath.SanitizeFilename, SaidIn, SaidBy;
    var t := OfferReceived(s, offer);
    if t == s {
      assert Steps.Run(y, [], y);
    } else {
      var step := Steps.OfferArrives(offer.id, Steps.Offer(offer.size, offer.folder));
      OneStep(y, step);
      hide Steps.Run;
      assert t.offers.Keys == s.offers.Keys + {offer.id};
      assert Same(Steps.Do(y, step), t);
    }
  }

  lemma RejectRuns(y: Steps.System, s: State, id: Id)
    requires Same(y, s)
    ensures Leads(y, s.(offers := s.offers - {id}))
  {
    hide SaidIn, SaidBy;
    OneStep(y, Steps.Reject(id));
    hide Steps.Run;
    assert Same(Steps.Do(y, Steps.Reject(id)), s.(offers := s.offers - {id}));
  }

  lemma CloseRuns(y: Steps.System, s: State)
    requires Same(y, s)
    ensures Leads(y, AllClosed(s))
  {
    hide SaidIn, SaidBy;
    OneStep(y, Steps.CloseAll);
    hide Steps.Run;
    KnownValues(y, s);
    assert Same(Steps.Do(y, Steps.CloseAll), AllClosed(s));
  }

  lemma KnownValues(y: Steps.System, s: State)
    requires Same(y, s)
    ensures forall n :: n in y.fileWriters.Values ==> n < |y.sizes|
  {
    forall n | n in y.fileWriters.Values ensures n < |y.sizes| {
      var id :| id in y.fileWriters && y.fileWriters[id] == n;
      KnownWriter(y, s, id);
    }
  }

  /** The step system right after an acceptance has opened the file. */
  function Taken(y: Steps.System, id: Id, made: bool): Steps.System
    requires id in y.offers
  {
    var taken := y.(offers := y.offers - {id},
                    dirTransfers := if y.offers[id].folder then y.dirTransfers + {id} else y.dirTransfers);
    if made then
      taken.(fileWriters := y.fileWriters[id := |y.sizes|], savePaths := y.savePaths + {id},
             ids := y.ids + [id], sizes := y.sizes + [y.offers[id].size])
    else taken
  }

  lemma TakenRun(y: Steps.System, id: Id, made: bool) returns (end: Steps.System)
    requires y.acceptors == map[] && id in y.offers
    ensures Steps.Run(y, [Steps.Accept(0, id, made)], end)
    ensures end == if made then Taken(y, id, true).(acceptors := map[0 := Steps.Answering(id, |y.sizes|)])
                   else Taken(y, id, false)
  {
    OneStep(y, Steps.Accept(0, id, made));
    hide Steps.Run;
    end := Steps.Do(y, Steps.Accept(0, id, made));
    assert y.acceptors[0 := Steps.Answering(id, |y.sizes|)] == map[0 := Steps.Answering(id, |y.sizes|)];
  }

  lemma NoneLeft(a: Steps.Acceptor)
    ensures map[0 := a] - {0} == map[]
  {
  }

  /** The file cannot be made. */
  lemma LostRuns(y: Steps.System, s: State, id: Id, folder: string)
    requires Same(y, s) && id in s.offers
    ensures Leads(y, OfferLost(s, s.offers[id], id, folder))
  {
    hide SaidIn, SaidBy;
    var end := TakenRun(y, id, false);
    hide Steps.Run;
    var t := OfferLost(s, s.offers[id], id, folder);
    assert t.dirs.Keys == if s.offers[id].folder then s.dirs.Keys + {id} else s.dirs.Keys;
    assert Same(end, t);
  }

  /** The answer is sent, and the file has bytes to come. */
  lemma AnsweredRun(y: Steps.System, id: Id) returns (steps: seq<Steps.Step>, end: Steps.System)
    requires y.acceptors == map[] && id in y.offers && y.offers[id].size != 0
    ensures Steps.Run(y, steps, end) && end == Taken(y, id, true)
  {
    hide Steps.Run;
    end := TakenRun(y, id, true);
    NoneLeft(Steps.Answering(id, |y.sizes|));
    end := ThenStep(y, [Steps.Accept(0, id, true)], end, Steps.Answer(0, true));
    steps := [Steps.Accept(0, id, true)] + [Steps.Answer(0, true)];
  }

  /** The answer is sent, and there is nothing to come. */
  lemma EmptyRun(y: Steps.System, id: Id, fine: bool) returns (steps: seq<Steps.Step>, end: Steps.System)
    requires y.acceptors == map[] && id in y.offers && y.offers[id].size == 0 && |y.sizes| !in y.closed
    ensures Steps.Run(y, steps, end)
    ensures var n := |y.sizes|;
            end == Steps.SendProgress(Steps.Forget(Taken(y, id, true), id).(closed := y.closed + {n}),
                                      Steps.Progress(id, n, if fine then Completed else Failed))
  {
    hide Steps.Run;
    end := TakenRun(y, id, true);
    var n := |y.sizes|;
    steps := [Steps.Accept(0, id, true)];
    end := ThenStep(y, steps, end, Steps.Answer(0, true));
    assert end == Taken(y, id, true).(acceptors := map[0 := Steps.EmptyComplete(id, n)]);
    steps := steps + [Steps.Answer(0, true)];
    end := ThenStep(y, steps, end, Steps.EmptyForget(0));
    assert end == Steps.Forget(Taken(y, id, true), id).(acceptors := map[0 := Steps.EmptyForgot(id, n)]);
    steps := steps + [Steps.EmptyForget(0)];
    end := EmptyEnd(y, steps, end, id, n, fine);
    steps := steps + [Steps.EmptyFinish(0, fine)] + [Steps.EmptyReport(0)];
  }

  lemma EmptyEnd(y: Steps.System, steps: seq<Steps.Step>, mid: Steps.System, id: Id, n: Steps.WriterId, fine: bool)
    returns (end: Steps.System)
    requires Steps.Run(y, steps, mid) && mid.acceptors == map[0 := Steps.EmptyForgot(id, n)] && n !in mid.closed
    ensures Steps.Run(y, steps + [Steps.EmptyFinish(0, fine)] + [Steps.EmptyReport(0)], end)
    ensures end == Steps.SendProgress(mid.(closed := mid.closed + {n}, acceptors := map[]),
                                      Steps.Progress(id, n, if fine then Completed else Failed))
  {
    hide Steps.Run;
    end := ThenStep(y, steps, mid, Steps.EmptyFinish(0, fine));
    NoneLeft(Steps.EmptyReporting(id, n, if fine then Completed else Failed));
    assert end.acceptors == map[0 := Steps.EmptyReporting(id, n, if fine then Completed else Failed)];
    end := ThenStep(y, steps + [Steps.EmptyFinish(0, fine)], end, Steps.EmptyReport(0));
  }

  /** The answer cannot be sent. */
  lemma UnsentRun(y: Steps.System, id: Id) returns (steps: seq<Steps.Step>, end: Steps.System)
    requires y.acceptors == map[] && id in y.offers
    ensures Steps.Run(y, steps, end)
    ensures end == Steps.Forget(Taken(y, id, true), id).(closed := y.closed + {|y.sizes|})
  {
    hide Steps.Run;
    var n := |y.sizes|;
    end := TakenRun(y, id, true);
    steps := [Steps.Accept(0, id, true)];
    end := ThenStep(y, steps, end, Steps.Answer(0, false));
    assert end == Taken(y, id, true).(acceptors := map[0 := Steps.Abandoning(id, n)], closed := y.closed + {n});
    NoneLeft(Steps.Abandoning(id, n));
    steps := steps + [Steps.Answer(0, false)];
    end := ThenStep(y, steps, end, Steps.Abandon(0));
    steps := steps + [Steps.Abandon(0)];
  }

  lemma KeysAdded(s: State, t: State, id: Id)
    requires OthersStay(s, t, id) && id in t.writers && id in t.savePaths
    ensures t.writers.Keys == s.writers.Keys + {id} && t.savePaths.Keys == s.savePaths.Keys + {id}
    ensures t.dirs.Keys == if id in t.dirs then s.dirs.Keys + {id} else s.dirs.Keys - {id}
    ensures forall other :: other in t.writers && other != id ==> t.writers[other] == s.writers[other]
  {
    forall other: Id
      ensures other in t.writers <==> other in s.writers || other == id
      ensures other in t.savePaths <==> other in s.savePaths || other == id
      ensures other != id ==> (other in t.dirs <==> other in s.dirs)
      ensures other in t.writers && other != id ==> t.writers[other] == s.writers[other]
    {
      if other != id {
        assert SameTransfer(s, t, other);
      }
    }
  }

  lemma OffersConsumed(y: Steps.System, s: State, t: State, id: Id, made: bool)
    requires SameOffers(y, s) && id in s.offers
    requires id !in t.offers && forall other :: other != id ==> SameOffer(s, t, other)
    ensures SameOffers(Taken(y, id, made), t)
  {
    forall other: Id
      ensures other in t.offers <==> other in s.offers && other != id
      ensures other in t.offers ==> t.offers[other] == s.offers[other]
    {
      if other != id {
        assert SameOffer(s, t, other);
      }
    }
    assert t.offers.Keys == s.offers.Keys - {id};
  }

  /** The new writer, and the old ones of other transfers. */
  lemma WriterAdded(y: Steps.System, s: State, t: State, id: Id)
    requires Same(y, s) && id in s.offers && id in t.writers && t.writers.Keys == s.writers.Keys + {id}
    requires forall other :: other in t.writers && other != id ==> t.writers[other] == s.writers[other]
    requires t.writers[id].size == s.offers[id].size && t.writers[id].open
    ensures SameWriters(Taken(y, id, true), t)
  {
    hide SaidIn, SaidBy;
    var y' := Taken(y, id, true);
    forall other | other in t.writers ensures StandsFor(y', y'.fileWriters[other], t.writers[other]) {
      if other != id {
        KnownWriter(y, s, other);
      }
    }
    forall other | other in y.fileWriters ensures y.fileWriters[other] < |y.sizes| {
      KnownWriter(y, s, other);
    }
  }

  lemma AnsweredRuns(y: Steps.System, s: State, env: Env, id: Id, artifact: string, folder: string)
    requires s.Valid() && Same(y, s) && id in s.offers && s.offers[id].size != 0
    ensures Leads(y, OfferAccepted(s, env, s.offers[id], id, artifact, folder))
  {
    hide SaidIn, SaidBy, OfferAccepted, OthersStay, SameOffers, SameWriters, SameOffer;
    AcceptOutcome(s, env, s.offers[id], id, artifact, folder);
    var t := OfferAccepted(s, env, s.offers[id], id, artifact, folder);
    KnownOffer(y, s, id);
    var steps, end := AnsweredRun(y, id);
    hide Steps.Run;
    KeysAdded(s, t, id);
    OffersConsumed(y, s, t, id, true);
    WriterAdded(y, s, t, id);
    assert Same(end, t);
  }

  lemma KnownOffer(y: Steps.System, s: State, id: Id)
    requires Same(y, s) && id in s.offers
    ensures id in y.offers && y.offers[id] == Steps.Offer(s.offers[id].size, s.offers[id].folder)
    ensures |y.sizes| !in y.closed
  {
  }

  /** The new writer is gone again. */
  lemma WriterGone(y: Steps.System, s: State, t: State, id: Id, y': Steps.System, size: int)
    requires SameWriters(y, s)
    requires y'.fileWriters == y.fileWriters - {id} && y'.closed == y.closed + {|y.sizes|}
    requires y'.sizes == y.sizes + [size]
    requires t.writers.Keys == s.writers.Keys - {id}
    requires forall other :: other in t.writers ==> t.writers[other] == s.writers[other]
    ensures SameWriters(y', t)
  {
    forall other | other in t.writers ensures StandsFor(y', y'.fileWriters[other], t.writers[other]) {
      assert StandsFor(y, y.fileWriters[other], s.writers[other]);
    }
  }

  lemma GoneIsSame(y: Steps.System, s: State, t: State, id: Id, y': Steps.System)
    requires Same(y, s) && id in s.offers && id in y.offers
    requires y' == Steps.Forget(Taken(y, id, true), id).(closed := y.closed + {|y.sizes|}, log := y'.log)
    requires NoTransfer(t, id) && OthersStay(s, t, id) && t.dropped == s.dropped
    requires id !in t.offers && forall other :: other != id ==> SameOffer(s, t, other)
    requires SaidIn(y'.log) == SaidBy(t.progress)
    ensures Same(y', t)
  {
    hide SaidIn, SaidBy, OthersStay, NoTransfer, SameOffer;
    KeysForgotten(s, t, id);
    OffersConsumed(y, s, t, id, true);
    hide SameWriters;
    ForgetFields(Taken(y, id, true), id);
    hide Steps.Forget;
    assert y'.fileWriters == y.fileWriters - {id};
    WriterGone(y, s, t, id, y', y.offers[id].size);
    assert y'.offers == Taken(y, id, true).offers;
    assert s.savePaths.Keys + {id} - {id} == s.savePaths.Keys - {id};
    assert s.dirs.Keys + {id} - {id} == s.dirs.Keys - {id};
  }

  lemma EmptyRuns(y: Steps.System, s: State, env: Env, id: Id, artifact: string, folder: string)
    requires s.Valid() && Same(y, s) && id in s.offers && s.offers[id].size == 0
    ensures Leads(y, OfferAccepted(s, env, s.offers[id], id, artifact, folder))
  {
    hide SaidIn, SaidBy, OfferAccepted, OthersStay, SameOffers, SameWriters, SameOffer, NoTransfer;
    AcceptOutcome(s, env, s.offers[id], id, artifact, folder);
    var t := OfferAccepted(s, env, s.offers[id], id, artifact, folder);
    KnownOffer(y, s, id);
    var state := if s.dropped then Completed else t.progress[|s.progress|].state;
    var fine := state == Completed;
    var steps, end := EmptyRun(y, id, fine);
    hide Steps.Run;
    var gone := Steps.Forget(Taken(y, id, true), id).(closed := y.closed + {|y.sizes|});
    hide Steps.SendProgress;
    var p, q := Steps.Progress(id, |y.sizes|, state), PeerProgress(env.peer, id, 0, 0, state);
    ForgetFields(Taken(y, id, true), id);
    hide Steps.Forget;
    SendKeeps(gone, p);
    SendSaid(gone, p, s, q);
    assert s.dropped ==> t.progress == s.progress;
    GoneIsSame(y, s, t, id, end);
  }

  lemma UnsentRuns(y: Steps.System, s: State, id: Id, artifact: string)
    requires s.Valid() && Same(y, s) && id in s.offers
    ensures Leads(y, AcceptanceUnsent(s, s.offers[id], id, artifact))
  {
    hide SaidIn, SaidBy, Create;
    var t := AcceptanceUnsent(s, s.offers[id], id, artifact);
    KnownOffer(y, s, id);
    var steps, end := UnsentRun(y, id);
    hide Steps.Run;
    ForgottenAlone(s, t, id);
    ForgetFields(Taken(y, id, true), id);
    GoneIsSame(y, s, t, id, end);
  }

  // ---------- Frames ----------

  lemma DecodedFits(blob: seq<byte>)
    ensures DecodeBody(blob).Some? ==> |DecodeBody(blob).value.data| < TWO_32
  {
  }

  /** What a frame is to the receiver: a chunk, an offer, or nothing. */
  lemma FrameIs(s: State, env: Env, f: Frame, io: Io) returns (chunk: Option<Chunk>, offer: Option<Offer>)
    requires s.Valid()
    ensures chunk.None? || offer.None?
    ensures chunk.Some? ==> |chunk.value.data| < TWO_32
    ensures FrameHandled(s, env, f, io) ==
            if chunk.Some? then ChunkHandled(s, env, chunk.value, io)
            else if offer.Some? then OfferReceived(s, offer.value) else s
  {
    hide ParseFrame, DecodeBody, ChunkHandled, OfferReceived;
    chunk, offer := None, None;
    if f.kind == MSG_ENCRYPTED_PACKET && env.open(f.payload).Some? && ParseFrame(env.open(f.payload).value).Parsed? {
      var inner := ParseFrame(env.open(f.payload).value).frame;
      if inner.kind == MSG_FILE_OFFER {
        offer := env.offerOf(inner.payload);
      } else if inner.kind == MSG_CHUNK {
        DecodedFits(inner.payload);
        chunk := DecodeBody(inner.payload);
      }
    }
  }

  lemma FrameRuns(y: Steps.System, s: State, env: Env, f: Frame, io: Io)
    requires s.Valid() && SaneWriters(s) && Same(y, s) && y.reader.Idle?
    ensures Leads(y, FrameHandled(s, env, f, io)) && SaneWriters(FrameHandled(s, env, f, io))
  {
    hide FrameHandled, ChunkHandled, Same, SavePath.SanitizeFilename;
    var chunk, offer := FrameIs(s, env, f, io);
    if chunk.Some? {
      ChunkRuns(y, s, env, chunk.value, io);
      ChunkStaysSane(s, env, chunk.value, io);
    } else if offer.Some? {
      OfferRuns(y, s, offer.value);
    } else {
      assert Steps.Run(y, [], y);
    }
  }

  /** Two runs in a row. */
  lemma LeadsOn(y: Steps.System, mid: Steps.System, steps: seq<Steps.Step>, t: State)
    requires Steps.Run(y, steps, mid) && mid.reader == y.reader && Leads(mid, t)
    ensures Leads(y, t)
  {
    hide Steps.Run, Same;
    var more, end :| Steps.Run(mid, more, end) && Same(end, t) && end.reader == mid.reader;
    RunsJoin(y, steps, mid, more, end);
  }

  lemma {:induction false} FramesRun(y: Steps.System, s: State, env: Env, fs: seq<Frame>, io: nat -> Io)
    requires s.Valid() && env.Sound() && SaneWriters(s) && Same(y, s) && y.reader.Idle?
    ensures Leads(y, FramesHandled(s, env, fs, io)) && SaneWriters(FramesHandled(s, env, fs, io))
    decreases |fs|
  {
    hide Same, FrameHandled, SaneWriters, Steps.Run;
    if fs == [] {
      NoRun(y);
    } else {
      var before := fs[..|fs| - 1];
      FramesRun(y, s, env, before, io);
      var s1 := FramesHandled(s, env, before, io);
      var steps, mid :| Steps.Run(y, steps, mid) && Same(mid, s1) && mid.reader == y.reader;
      FrameRuns(mid, s1, env, fs[|fs| - 1], io(|fs| - 1));
      LeadsOn(y, mid, steps, FrameHandled(s1, env, fs[|fs| - 1], io(|fs| - 1)));
    }
  }

  lemma NoRun(y: Steps.System)
    ensures Steps.Run(y, [], y)
  {
  }

  /** The read loop over a whole connection, to its end. */
  lemma ConnectionRuns(y: Steps.System, s: State, env: Env, wire: seq<byte>, io: nat -> Io)
    returns (steps: seq<Steps.Step>, end: Steps.System)
    requires s.Valid() && env.Sound() && SaneWriters(s) && Same(y, s) && y.reader.Idle?
    ensures Steps.Run(y, steps, end) && Same(end, ConnectionRead(s, env, wire, io)) && end.reader.Stopped?
  {
    hide FramesHandled, ParseFrames, SaneWriters, SameOffers, SameWriters, Steps.Run, SaidIn, SaidBy;
    FramesRun(y, s, env, ParseFrames(wire), io);
    var t := FramesHandled(s, env, ParseFrames(wire), io);
    var mid;
    steps, mid :| Steps.Run(y, steps, mid) && Same(mid, t) && mid.reader == y.reader;
    end := ThenStep(y, steps, mid, Steps.ConnectionEnds);
    steps := steps + [Steps.ConnectionEnds];
    ClosedSaysNothing(mid.log);
    AfterEnd(mid, t, end);
  }

  lemma ClosedSaysNothing(log: seq<Steps.ChannelUse>)
    ensures SaidIn(log + [Steps.Closed]) == SaidIn(log)
  {
    assert (log + [Steps.Closed])[..|log|] == log;
  }

  lemma AfterEnd(mid: Steps.System, t: State, end: Steps.System)
    requires Same(mid, t) && end == mid.(reader := Steps.Stopped, channelOpen := false, log := end.log)
    requires SaidIn(end.log) == SaidIn(mid.log)
    ensures Same(end, t.(dropped := true))
  {
    hide SaidIn, SaidBy;
  }

  // ---------- Everything an owner of a receiver can do ----------

  datatype Call =
    | Read(frame: Frame, io: Io)
    | Accept(id: Id, artifact: string, folder: string, made: bool, answered: bool)
    | Reject(id: Id)
    | Close

  function Called(s: State, env: Env, call: Call): State
    requires s.Valid()
  {
    match call
    case Read(frame, io) => FrameHandled(s, env, frame, io)
    case Accept(id, artifact, folder, made, answered) =>
      if id !in s.offers then s
      else if !made then OfferLost(s, s.offers[id], id, folder)
      else if !answered then AcceptanceUnsent(s, s.offers[id], id, artifact)
      else OfferAccepted(s, env, s.offers[id], id, artifact, folder)
    case Reject(id) => s.(offers := s.offers - {id})
    case Close => AllClosed(s)
  }

  lemma CalledIsValid(s: State, env: Env, call: Call)
    requires s.Valid() && env.Sound()
    ensures Called(s, env, call).Valid()
  {
    hide FrameHandled, TransferFinished, Create;
    match call
    case Read(f, io) => FrameHandledIsValid(s, env, f, io);
    case Accept(id, artifact, folder, made, answered) =>
      if id in s.offers && made && answered {
        var s1 := Opened(OfferLost(s, s.offers[id], id, folder), id, artifact, s.offers[id].size);
        hide Opened;
        TransferFinishedIsValid(s1, env, id, s1.writers[id], 0, 0);
      } else if id in s.offers && made {
        UnsentIsValid(s, s.offers[id], id, artifact);
      }
    case _ =>
  }

  lemma UnsentIsValid(s: State, offer: Offer, id: Id, artifact: string)
    requires s.Valid()
    ensures AcceptanceUnsent(s, offer, id, artifact).Valid()
  {
  }

  function CalledAll(s: State, env: Env, calls: seq<Call>): (r: State)
    requires s.Valid() && env.Sound()
    ensures r.Valid()
    decreases |calls|
  {
    if calls == [] then s
    else
      var before := CalledAll(s, env, calls[..|calls| - 1]);
      CalledIsValid(before, env, calls[|calls| - 1]);
      Called(before, env, calls[|calls| - 1])
  }

  /** No offer of an absurd size is accepted. */
  ghost predicate SaneCalls(s: State, env: Env, calls: seq<Call>)
    requires s.Valid() && env.Sound()
    decreases |calls|
  {
    calls != [] ==>
      var before, last := CalledAll(s, env, calls[..|calls| - 1]), calls[|calls| - 1];
      SaneCalls(s, env, calls[..|calls| - 1]) && SaneCall(before, last)
  }

  predicate SaneCall(s: State, call: Call) {
    call.Accept? && call.id in s.offers ==> SaneSize(s.offers[call.id].size)
  }

  lemma AcceptStaysSane(s: State, env: Env, call: Call)
    requires s.Valid() && SaneWriters(s) && call.Accept? && SaneCall(s, call)
    ensures SaneWriters(Called(s, env, call))
  {
    hide OfferAccepted, OthersStay, SameOffer;
    if call.id in s.offers && call.made {
      if call.answered {
        AcceptOutcome(s, env, s.offers[call.id], call.id, call.artifact, call.folder);
        var t := OfferAccepted(s, env, s.offers[call.id], call.id, call.artifact, call.folder);
        forall other | other in t.writers ensures SaneSize(t.writers[other].size) {
          OtherIsSane(s, t, call.id, other);
        }
      }
    }
  }

  lemma OtherIsSane(s: State, t: State, id: Id, other: Id)
    requires SaneWriters(s) && OthersStay(s, t, id) && other in t.writers
    requires id in t.writers ==> SaneSize(t.writers[id].size)
    ensures SaneSize(t.writers[other].size)
  {
    if other != id {
      assert SameTransfer(s, t, other);
    }
  }

  lemma CallRuns(y: Steps.System, s: State, env: Env, call: Call)
    requires s.Valid() && SaneWriters(s) && SaneCall(s, call) && Same(y, s) && y.reader.Idle?
    ensures Leads(y, Called(s, env, call)) && SaneWriters(Called(s, env, call))
  {
    match call
    case Read(f, io) => FrameRuns(y, s, env, f, io);
    case Accept(id, artifact, folder, made, answered) =>
      hide Same, OfferAccepted, AcceptanceUnsent, OfferLost, SaneWriters;
      AcceptStaysSane(s, env, call);
      if id !in s.offers {
        NoRun(y);
      } else if !made {
        LostRuns(y, s, id, folder);
      } else if !answered {
        UnsentRuns(y, s, id, artifact);
      } else if s.offers[id].size != 0 {
        AnsweredRuns(y, s, env, id, artifact, folder);
      } else {
        EmptyRuns(y, s, env, id, artifact, folder);
      }
    case Reject(id) => RejectRuns(y, s, id);
    case Close => CloseRuns(y, s);
  }

  lemma {:induction false} CallsRun(y: Steps.System, s: State, env: Env, calls: seq<Call>)
    requires s.Valid() && env.Sound() && SaneWriters(s) && SaneCalls(s, env, calls) && Same(y, s) && y.reader.Idle?
    ensures Leads(y, CalledAll(s, env, calls)) && SaneWriters(CalledAll(s, env, calls))
    decreases |calls|
  {
    hide Same, Called, SaneWriters, SaneCall, Steps.Run;
    if calls == [] {
      NoRun(y);
    } else {
      var before, last := calls[..|calls| - 1], calls[|calls| - 1];
      CallsRun(y, s, env, before);
      var s1 := CalledAll(s, env, before);
      var steps, mid :| Steps.Run(y, steps, mid) && Same(mid, s1) && mid.reader == y.reader;
      CallRuns(mid, s1, env, last);
      LeadsOn(y, mid, steps, Called(s1, env, last));
    }
  }

  function NewReceiver(disk: Disk): State { State(map[], map[], map[], map[], [], false, disk) }

  /** Whatever frames arrive and whatever calls are made on a new receiver: what
      it then knows and has said is the outcome of a run of the interleaved
      bookkeeping. So its two maps have the same keys. */
  lemma CallsAreARun(disk: Disk, env: Env, calls: seq<Call>)
    requires disk.Valid() && env.Sound() && SaneCalls(NewReceiver(disk), env, calls)
    ensures Leads(Steps.START, CalledAll(NewReceiver(disk), env, calls))
    ensures var s := CalledAll(NewReceiver(disk), env, calls); s.writers.Keys == s.savePaths.Keys
  {
    assert Same(Steps.START, NewReceiver(disk));
    CallsRun(Steps.START, NewReceiver(disk), env, calls);
    hide SaneCalls, CalledAll, Steps.Run, SameOffers, SameReports;
    var s := CalledAll(NewReceiver(disk), env, calls);
    var steps, end :| Steps.Run(Steps.START, steps, end) && Same(end, s) && end.reader == Steps.START.reader;
    Steps.BookkeepingIsSafe(steps, end);
  }
}
