/** The receiver's bookkeeping under every interleaving of its read loop, the
    interface's accept, reject and close calls, and the end of the connection
    (internal/receiver/receiver.go:256-270, 318-453, 455-586). A step is what
    one goroutine does while it holds the lock, or between two locks. */
module ReceiverSteps {
  import opened PeerStates
  import opened Bytes

  type Id = seq<byte>

  /** Writers are numbered in the order of their creation. */
  type WriterId = nat

  datatype Progress = Progress(id: Id, writer: WriterId, state: TransferState)

  /** What is done to the progress channel. */
  datatype ChannelUse = Sent(progress: Progress) | Closed

  datatype Offer = Offer(size: int, folder: bool)

  /** Where the read loop is in `handleChunk` and `finishTransfer`. */
  datatype Reader =
    | Idle
    | Found(id: Id, w: WriterId)
    | WriteFailed(id: Id, w: WriterId)
    | Wrote(id: Id, w: WriterId, complete: bool)
    | Complete(id: Id, w: WriterId)
    | Forgot(id: Id, w: WriterId)
    | Reporting(id: Id, w: WriterId, state: TransferState)
    | Stopped

  /** Where a call of `AcceptTransfer` is after it has opened the file. */
  datatype Acceptor =
    | Answering(id: Id, w: WriterId)
    | Abandoning(id: Id, w: WriterId)
    | EmptyComplete(id: Id, w: WriterId)
    | EmptyForgot(id: Id, w: WriterId)
    | EmptyReporting(id: Id, w: WriterId, state: TransferState)

  datatype System = System(
    offers: map<Id, Offer>,
    fileWriters: map<Id, WriterId>,
    savePaths: set<Id>,
    dirTransfers: set<Id>,
    channelOpen: bool,
    log: seq<ChannelUse>,
    reader: Reader,
    acceptors: map<nat, Acceptor>,
    // the writers made so far: their transfers and sizes, and which have been closed
    ids: seq<Id>,
    sizes: seq<int>,
    closed: set<WriterId>)

  const START := System(map[], map[], {}, {}, true, [], Idle, map[], [], [], {})

  datatype Step =
    | OfferArrives(id: Id, offer: Offer)
    | Lookup(id: Id)                                // a chunk of this transfer arrives
    | WriteChunk(ok: bool, end: nat)
    | TellProgress
    | ForgetFinished
    | ForgetFailed
    | FinishFile(ok: bool)
    | Report
    | ConnectionEnds
    | Accept(call: nat, id: Id, made: bool)
    | Answer(call: nat, ok: bool)
    | Abandon(call: nat)
    | EmptyForget(call: nat)
    | EmptyFinish(call: nat, ok: bool)
    | EmptyReport(call: nat)
    | Reject(id: Id)
    | CloseAll

  predicate Enabled(s: System, step: Step) {
    match step
    case OfferArrives(_, _) => s.reader.Idle?
    case Lookup(_) => s.reader.Idle?
    case WriteChunk(ok, end) =>
      // an empty file takes no chunk at all
      s.reader.Found? && s.reader.w < |s.sizes| &&
      (ok ==> s.reader.w !in s.closed && s.sizes[s.reader.w] > 0 && end <= s.sizes[s.reader.w])
    case TellProgress => s.reader.Wrote?
    case ForgetFinished => s.reader.Complete?
    case ForgetFailed => s.reader.WriteFailed?
    case FinishFile(ok) => s.reader.Forgot? && (ok ==> s.reader.w !in s.closed)
    case Report => s.reader.Reporting?
    case ConnectionEnds => s.reader.Idle?
    case Accept(call, id, _) => call !in s.acceptors && id in s.offers
    case Answer(call, _) => call in s.acceptors && s.acceptors[call].Answering? && s.acceptors[call].w < |s.sizes|
    case Abandon(call) => call in s.acceptors && s.acceptors[call].Abandoning?
    case EmptyForget(call) => call in s.acceptors && s.acceptors[call].EmptyComplete?
    case EmptyFinish(call, ok) =>
      call in s.acceptors && s.acceptors[call].EmptyForgot? && (ok ==> s.acceptors[call].w !in s.closed)
    case EmptyReport(call) => call in s.acceptors && s.acceptors[call].EmptyReporting?
    case Reject(_) => true
    case CloseAll => true
  }

  function Forget(s: System, id: Id): System {
    s.(fileWriters := s.fileWriters - {id}, savePaths := s.savePaths - {id}, dirTransfers := s.dirTransfers - {id})
  }

  /** `sendProgress`: nothing is sent once the channel is gone. */
  function SendProgress(s: System, p: Progress): System {
    if s.channelOpen then s.(log := s.log + [Sent(p)]) else s
  }

  function Do(s: System, step: Step): System
    requires Enabled(s, step)
  {
    match step
    case OfferArrives(id, offer) => s.(offers := s.offers[id := offer])
    case Lookup(id) => if id in s.fileWriters then s.(reader := Found(id, s.fileWriters[id])) else s
    case WriteChunk(ok, end) =>
      var (id, w) := (s.reader.id, s.reader.w);
      if ok then s.(reader := Wrote(id, w, end >= s.sizes[w])) else s.(reader := WriteFailed(id, w))
    case TellProgress =>
      var (id, w) := (s.reader.id, s.reader.w);
      SendProgress(s, Progress(id, w, InProgress)).(reader := if s.reader.complete then Complete(id, w) else Idle)
    case ForgetFinished => Forget(s, s.reader.id).(reader := Forgot(s.reader.id, s.reader.w))
    case ForgetFailed =>
      Forget(s, s.reader.id).(reader := Reporting(s.reader.id, s.reader.w, Failed), closed := s.closed + {s.reader.w})
    case FinishFile(ok) =>
      s.(reader := Reporting(s.reader.id, s.reader.w, if ok then Completed else Failed),
         closed := s.closed + {s.reader.w})
    case Report => SendProgress(s, Progress(s.reader.id, s.reader.w, s.reader.state)).(reader := Idle)
    case ConnectionEnds =>
      s.(reader := Stopped, channelOpen := false, log := if s.channelOpen then s.log + [Closed] else s.log)
    case Accept(call, id, made) =>
      var w := |s.sizes|;
      var taken := s.(offers := s.offers - {id},
                      dirTransfers := if s.offers[id].folder then s.dirTransfers + {id} else s.dirTransfers);
      if made then
        taken.(fileWriters := s.fileWriters[id := w], savePaths := s.savePaths + {id},
               ids := s.ids + [id], sizes := s.sizes + [s.offers[id].size],
               acceptors := s.acceptors[call := Answering(id, w)])
      else taken
    case Answer(call, ok) =>
      var (id, w) := (s.acceptors[call].id, s.acceptors[call].w);
      if !ok then s.(closed := s.closed + {w}, acceptors := s.acceptors[call := Abandoning(id, w)])
      else if s.sizes[w] == 0 then s.(acceptors := s.acceptors[call := EmptyComplete(id, w)])
      else s.(acceptors := s.acceptors - {call})
    case Abandon(call) => Forget(s, s.acceptors[call].id).(acceptors := s.acceptors - {call})
    case EmptyForget(call) =>
      var (id, w) := (s.acceptors[call].id, s.acceptors[call].w);
      Forget(s, id).(acceptors := s.acceptors[call := EmptyForgot(id, w)])
    case EmptyFinish(call, ok) =>
      var (id, w) := (s.acceptors[call].id, s.acceptors[call].w);
      s.(acceptors := s.acceptors[call := EmptyReporting(id, w, if ok then Completed else Failed)],
         closed := s.closed + {w})
    case EmptyReport(call) =>
      var a := s.acceptors[call];
      SendProgress(s, Progress(a.id, a.w, a.state)).(acceptors := s.acceptors - {call})
    case Reject(id) => s.(offers := s.offers - {id})
    case CloseAll => s.(closed := s.closed + s.fileWriters.Values, fileWriters := map[], savePaths := {},
                        dirTransfers := {})
  }

  ghost predicate Run(s: System, steps: seq<Step>, end: System)
    decreases |steps|
  {
    if steps == [] then s == end
    else Enabled(s, steps[0]) && Run(Do(s, steps[0]), steps[1..], end)
  }

  // ---------- The channel ----------

  /** The channel is closed at most once and nothing is sent after that. */
  predicate WellUsed(log: seq<ChannelUse>) {
    forall i :: 0 <= i < |log| && log[i].Closed? ==> i == |log| - 1
  }

  predicate ChannelSafe(s: System) {
    WellUsed(s.log) && (s.channelOpen <==> Closed !in s.log)
  }

  lemma SendSafe(s: System, p: Progress)
    requires ChannelSafe(s)
    ensures ChannelSafe(SendProgress(s, p))
  {
  }

  // ---------- The maps ----------

  ghost predicate MapsMatch(s: System) {
    && s.fileWriters.Keys == s.savePaths
    && (forall id :: id in s.fileWriters ==> s.fileWriters[id] < |s.sizes|)
    && (forall i, j :: i in s.fileWriters && j in s.fileWriters && i != j ==> s.fileWriters[i] != s.fileWriters[j])
  }

  // ---------- The reports ----------

  function Terminals(log: seq<ChannelUse>, w: WriterId): nat {
    if log == [] then 0
    else
      var last := log[|log| - 1];
      Terminals(log[..|log| - 1], w) +
      (if last.Sent? && last.progress.writer == w && IsTerminal(last.progress.state) then 1 else 0)
  }

  predicate Working(r: Reader, w: WriterId) {
    (r.Found? || r.WriteFailed? || r.Wrote? || r.Complete?) && r.w == w
  }

  predicate Ending(r: Reader, w: WriterId) { (r.Forgot? || r.Reporting?) && r.w == w }

  /** The writer was made for this transfer. */
  predicate Of(ids: seq<Id>, w: WriterId, id: Id) { w < |ids| && ids[w] == id }

  /** Everything refers to writers that have been made, under their ids. */
  ghost predicate Made(s: System) {
    && |s.ids| == |s.sizes|
    && (s.reader.Idle? || s.reader.Stopped? || Of(s.ids, s.reader.w, s.reader.id))
    && (forall call :: call in s.acceptors ==> Of(s.ids, s.acceptors[call].w, s.acceptors[call].id))
    && (forall id :: id in s.fileWriters ==> Of(s.ids, s.fileWriters[id], id))
    && (forall i :: 0 <= i < |s.log| && s.log[i].Sent? ==> Of(s.ids, s.log[i].progress.writer, s.log[i].progress.id))
  }

  /** `AcceptTransfer` goes on to finish empty transfers only. */
  ghost predicate EmptyOnly(s: System) {
    forall call :: call in s.acceptors && !s.acceptors[call].Answering? && !s.acceptors[call].Abandoning? ==>
      s.acceptors[call].w < |s.sizes| && s.sizes[s.acceptors[call].w] == 0
  }

  predicate Registered(s: System, w: WriterId) {
    exists id :: id in s.fileWriters && s.fileWriters[id] == w
  }

  /** The life of a writer of a non-empty transfer: as long as it can be found
      or is being written to it has no terminal report, and the report the
      read loop is about to make is its first. */
  ghost predicate ReportedOnce(s: System, w: WriterId) {
    && Terminals(s.log, w) + (if Ending(s.reader, w) then 1 else 0) <= 1
    && (Registered(s, w) || Working(s.reader, w) ==> Terminals(s.log, w) == 0)
    && (Registered(s, w) ==> !Ending(s.reader, w))
    && (Working(s.reader, w) ==> forall id :: id in s.fileWriters && s.fileWriters[id] == w ==> id == s.reader.id)
  }

  ghost predicate AllReportedOnce(s: System) {
    forall w :: 0 <= w < |s.sizes| && s.sizes[w] != 0 ==> ReportedOnce(s, w)
  }

  ghost predicate Invariant(s: System) {
    ChannelSafe(s) && MapsMatch(s) && Made(s) && EmptyOnly(s) && AllReportedOnce(s)
  }

  // ---------- What every step keeps ----------

  lemma TerminalsSnoc(log: seq<ChannelUse>, use: ChannelUse, w: WriterId)
    ensures Terminals(log + [use], w) ==
            Terminals(log, w)
                + (if use.Sent? && use.progress.writer == w && IsTerminal(use.progress.state) then 1 else 0)
  {
    assert (log + [use])[..|log|] == log;
  }

  lemma {:induction false} UnmadeHasNone(log: seq<ChannelUse>, w: WriterId)
    requires forall i :: 0 <= i < |log| && log[i].Sent? ==> log[i].progress.writer < w
    ensures Terminals(log, w) == 0
  {
    if log != [] {
      UnmadeHasNone(log[..|log| - 1], w);
    }
  }

  lemma SendTerminals(s: System, p: Progress, w: WriterId)
    ensures Terminals(SendProgress(s, p).log, w) ==
            Terminals(s.log, w) + (if s.channelOpen && p.writer == w && IsTerminal(p.state) then 1 else 0)
  {
    TerminalsSnoc(s.log, Sent(p), w);
  }

  lemma StepChannelSafe(s: System, step: Step)
    requires Enabled(s, step) && ChannelSafe(s)
    ensures ChannelSafe(Do(s, step))
  {
    hide IsTerminal;
    match step
    case TellProgress => SendSafe(s, Progress(s.reader.id, s.reader.w, InProgress));
    case Report => SendSafe(s, Progress(s.reader.id, s.reader.w, s.reader.state));
    case EmptyReport(call) =>
      var a := s.acceptors[call];
      SendSafe(s, Progress(a.id, a.w, a.state));
    case _ =>
  }

  lemma ForgetMapsMatch(s: System, id: Id)
    requires MapsMatch(s)
    ensures MapsMatch(Forget(s, id))
  {
  }

  lemma AcceptMapsMatch(s: System, call: nat, id: Id, made: bool)
    requires Enabled(s, Accept(call, id, made)) && MapsMatch(s)
    ensures MapsMatch(Do(s, Accept(call, id, made)))
  {
  }

  lemma StepMapsMatch(s: System, step: Step)
    requires Enabled(s, step) && MapsMatch(s)
    ensures MapsMatch(Do(s, step))
  {
    match step {
      case ForgetFinished => ForgetMapsMatch(s, s.reader.id);
      case ForgetFailed => ForgetMapsMatch(s, s.reader.id);
      case Abandon(call) => ForgetMapsMatch(s, s.acceptors[call].id);
      case EmptyForget(call) => ForgetMapsMatch(s, s.acceptors[call].id);
      case Accept(call, id, made) =>
        hide Do, MapsMatch;
        AcceptMapsMatch(s, call, id, made);
      case _ =>
    }
    hide Forget;
  }

  lemma SendMade(s: System, p: Progress)
    requires Made(s) && Of(s.ids, p.writer, p.id)
    ensures Made(SendProgress(s, p))
  {
  }

  /** The steps of the interface's calls, as opposed to those of the read loop. */
  predicate IsCall(step: Step) {
    step.Accept? || step.Answer? || step.Abandon? || step.EmptyForget? || step.EmptyFinish? || step.EmptyReport?
        || step.Reject? || step.CloseAll?
  }

  lemma ForgetMade(s: System, id: Id)
    requires Made(s)
    ensures Made(Forget(s, id))
  {
    hide Of;
  }

  lemma ReaderMade(s: System, step: Step)
    requires Enabled(s, step) && MapsMatch(s) && Made(s) && !IsCall(step)
    ensures Made(Do(s, step))
    ensures |s.sizes| <= |Do(s, step).sizes| && s.sizes == Do(s, step).sizes[..|s.sizes|]
  {
    hide IsTerminal, Of, MapsMatch;
    match step
    case TellProgress => SendMade(s, Progress(s.reader.id, s.reader.w, InProgress));
    case Report => SendMade(s, Progress(s.reader.id, s.reader.w, s.reader.state));
    case ForgetFinished => ForgetMade(s, s.reader.id);
    case ForgetFailed => ForgetMade(s, s.reader.id);
    case _ =>
  }

  lemma AcceptMade(s: System, call: nat, id: Id, made: bool)
    requires Enabled(s, Accept(call, id, made)) && Made(s)
    ensures Made(Do(s, Accept(call, id, made)))
    ensures |s.sizes| <= |Do(s, Accept(call, id, made)).sizes|
            && s.sizes == Do(s, Accept(call, id, made)).sizes[..|s.sizes|]
  {
  }

  lemma AnswerMade(s: System, call: nat, ok: bool)
    requires Enabled(s, Answer(call, ok)) && Made(s)
    ensures Made(Do(s, Answer(call, ok))) && Do(s, Answer(call, ok)).sizes == s.sizes
  {
    hide Of;
  }

  lemma CallMade(s: System, step: Step)
    requires Enabled(s, step) && MapsMatch(s) && Made(s) && IsCall(step)
    ensures Made(Do(s, step))
    ensures |s.sizes| <= |Do(s, step).sizes| && s.sizes == Do(s, step).sizes[..|s.sizes|]
  {
    hide IsTerminal, Of, MapsMatch;
    match step
    case EmptyReport(call) => SendMade(s, Progress(s.acceptors[call].id, s.acceptors[call].w, s.acceptors[call].state));
    case Accept(call, id, made) =>
      hide Do, Made;
      AcceptMade(s, call, id, made);
    case Answer(call, ok) =>
      hide Do, Made;
      AnswerMade(s, call, ok);
    case Abandon(call) => ForgetMade(s, s.acceptors[call].id);
    case EmptyForget(call) => ForgetMade(s, s.acceptors[call].id);
    case _ =>
  }

  lemma StepMade(s: System, step: Step)
    requires Enabled(s, step) && MapsMatch(s) && Made(s)
    ensures Made(Do(s, step))
    ensures |s.sizes| <= |Do(s, step).sizes| && s.sizes == Do(s, step).sizes[..|s.sizes|]
  {
    hide Do, Enabled, Made, MapsMatch;
    if IsCall(step) {
      CallMade(s, step);
    } else {
      ReaderMade(s, step);
    }
  }

  lemma AcceptEmptyOnly(s: System, call: nat, id: Id, made: bool)
    requires Enabled(s, Accept(call, id, made)) && EmptyOnly(s)
    ensures EmptyOnly(Do(s, Accept(call, id, made)))
  {
  }

  lemma AnswerEmptyOnly(s: System, call: nat, ok: bool)
    requires Enabled(s, Answer(call, ok)) && EmptyOnly(s)
    ensures EmptyOnly(Do(s, Answer(call, ok)))
  {
  }

  lemma StepEmptyOnly(s: System, step: Step)
    requires Enabled(s, step) && Made(s) && EmptyOnly(s)
    ensures EmptyOnly(Do(s, step))
  {
    hide Made, IsTerminal;
    match step
    case Accept(call, id, made) =>
      hide Do, EmptyOnly;
      AcceptEmptyOnly(s, call, id, made);
    case Answer(call, ok) =>
      hide Do, EmptyOnly;
      AnswerEmptyOnly(s, call, ok);
    case _ =>
  }

  lemma ForgetUnregisters(s: System, id: Id, w: WriterId)
    ensures Registered(Forget(s, id), w) ==> Registered(s, w)
    ensures (forall i :: i in s.fileWriters && s.fileWriters[i] == w ==> i == id) ==> !Registered(Forget(s, id), w)
  {
  }

  /** A report changes nothing but the log. */
  lemma LoggedReportedOnce(s: System, p: Progress, reader: Reader, w: WriterId)
    requires ReportedOnce(s, w)
    requires p.writer == w && IsTerminal(p.state) ==> Ending(s.reader, w)
    requires Ending(s.reader, w) ==> p.writer == w && !Ending(reader, w) && !Working(reader, w)
    requires Working(reader, w) ==> Working(s.reader, w) && reader.id == s.reader.id
    requires Ending(reader, w) ==> Ending(s.reader, w)
    ensures ReportedOnce(SendProgress(s, p).(reader := reader), w)
  {
    SendTerminals(s, p, w);
    hide Terminals, IsTerminal;
  }

  lemma SendReportedOnce(s: System, step: Step, w: WriterId)
    requires Enabled(s, step) && Invariant(s)
    requires w < |s.sizes| && s.sizes[w] != 0
    requires step.TellProgress? || step.Report? || step.EmptyReport? || step.ConnectionEnds?
    ensures ReportedOnce(Do(s, step), w)
  {
    assert ReportedOnce(s, w);
    match step
    case TellProgress =>
      hide Invariant, ReportedOnce, Terminals;
      LoggedReportedOnce(s, Progress(s.reader.id, s.reader.w, InProgress), Do(s, step).reader, w);
    case Report =>
      hide Invariant, ReportedOnce, Terminals, IsTerminal;
      LoggedReportedOnce(s, Progress(s.reader.id, s.reader.w, s.reader.state), Idle, w);
    case ConnectionEnds =>
      hide Invariant, Terminals, IsTerminal;
      TerminalsSnoc(s.log, Closed, w);
    case EmptyReport(call) => EmptyReportedOnce(s, call, w);
  }

  lemma EmptyReportedOnce(s: System, call: nat, w: WriterId)
    requires Enabled(s, EmptyReport(call)) && Invariant(s)
    requires w < |s.sizes| && s.sizes[w] != 0
    ensures ReportedOnce(Do(s, EmptyReport(call)), w)
  {
    assert ReportedOnce(s, w);
    var a := s.acceptors[call];
    assert a.w != w;
    hide Invariant, Terminals, IsTerminal;
    SendTerminals(s, Progress(a.id, a.w, a.state), w);
  }

  lemma ForgetReportedOnce(s: System, step: Step, w: WriterId)
    requires Enabled(s, step) && Invariant(s)
    requires w < |s.sizes| && s.sizes[w] != 0
    requires step.ForgetFinished? || step.ForgetFailed? || step.Abandon? || step.EmptyForget?
    ensures ReportedOnce(Do(s, step), w)
  {
    hide ChannelSafe, Terminals, WellUsed;
    assert ReportedOnce(s, w);
    match step
    case ForgetFinished => ForgetUnregisters(s, s.reader.id, w);
    case ForgetFailed => ForgetUnregisters(s, s.reader.id, w);
    case Abandon(call) => ForgetUnregisters(s, s.acceptors[call].id, w);
    case EmptyForget(call) => ForgetUnregisters(s, s.acceptors[call].id, w);
  }

  lemma LookupReportedOnce(s: System, id: Id, w: WriterId)
    requires Enabled(s, Lookup(id)) && MapsMatch(s) && ReportedOnce(s, w)
    ensures ReportedOnce(Do(s, Lookup(id)), w)
  {
    hide Terminals;
  }

  lemma ReaderReportedOnce(s: System, step: Step, w: WriterId)
    requires Enabled(s, step) && Invariant(s)
    requires w < |s.sizes| && s.sizes[w] != 0
    requires step.Lookup? || step.WriteChunk? || step.FinishFile?
    ensures ReportedOnce(Do(s, step), w)
  {
    assert ReportedOnce(s, w) && MapsMatch(s);
    hide Invariant, Terminals, MapsMatch, IsTerminal;
    match step
    case Lookup(id) =>
      hide ReportedOnce;
      LookupReportedOnce(s, id, w);
    case _ =>
  }

  lemma AcceptReportedOnce(s: System, call: nat, id: Id, made: bool, w: WriterId)
    requires Enabled(s, Accept(call, id, made)) && Invariant(s)
    requires w < |s.sizes| && s.sizes[w] != 0
    ensures ReportedOnce(Do(s, Accept(call, id, made)), w)
  {
    assert ReportedOnce(s, w);
    hide ChannelSafe, Terminals, WellUsed, IsTerminal;
  }

  /** Steps that only take writers out of the maps, or none. */
  lemma FewerReportedOnce(s: System, t: System, w: WriterId)
    requires ReportedOnce(s, w) && t.log == s.log && t.reader == s.reader
    requires forall id :: id in t.fileWriters ==> id in s.fileWriters && t.fileWriters[id] == s.fileWriters[id]
    ensures ReportedOnce(t, w)
  {
    hide Terminals;
  }

  lemma CallReportedOnce(s: System, step: Step, w: WriterId)
    requires Enabled(s, step) && Invariant(s)
    requires w < |s.sizes| && s.sizes[w] != 0
    requires step.OfferArrives? || step.Accept? || step.Answer? || step.EmptyFinish? || step.Reject? || step.CloseAll?
    ensures ReportedOnce(Do(s, step), w)
  {
    if step.Accept? {
      hide Do, ReportedOnce, Invariant;
      AcceptReportedOnce(s, step.call, step.id, step.made, w);
    } else {
      assert ReportedOnce(s, w);
      hide Invariant, Terminals, IsTerminal, ReportedOnce;
      FewerReportedOnce(s, Do(s, step), w);
    }
  }

  lemma StepReportedOnce(s: System, step: Step, w: WriterId)
    requires Enabled(s, step) && Invariant(s)
    requires w < |s.sizes| && s.sizes[w] != 0
    ensures ReportedOnce(Do(s, step), w)
  {
    hide Do, ReportedOnce, Invariant, Enabled;
    if step.TellProgress? || step.Report? || step.EmptyReport? || step.ConnectionEnds? {
      SendReportedOnce(s, step, w);
    } else if step.ForgetFinished? || step.ForgetFailed? || step.Abandon? || step.EmptyForget? {
      ForgetReportedOnce(s, step, w);
    } else if step.Lookup? || step.WriteChunk? || step.FinishFile? {
      ReaderReportedOnce(s, step, w);
    } else {
      CallReportedOnce(s, step, w);
    }
  }

  lemma NewReportedOnce(s: System, step: Step)
    requires Enabled(s, step) && Invariant(s) && step.Accept? && step.made
    ensures ReportedOnce(Do(s, step), |s.sizes|)
  {
    UnmadeHasNone(s.log, |s.sizes|);
  }

  lemma StepKeeps(s: System, step: Step)
    requires Enabled(s, step) && Invariant(s)
    ensures Invariant(Do(s, step))
  {
    StepChannelSafe(s, step);
    StepMapsMatch(s, step);
    StepMade(s, step);
    StepEmptyOnly(s, step);
    hide ChannelSafe, MapsMatch, EmptyOnly, ReportedOnce, Made;
    var t := Do(s, step);
    forall w | 0 <= w < |t.sizes| && t.sizes[w] != 0 ensures ReportedOnce(t, w) {
      if w < |s.sizes| {
        assert t.sizes[..|s.sizes|][w] == t.sizes[w];
        StepReportedOnce(s, step, w);
      } else {
        NewReportedOnce(s, step);
      }
    }
  }

  lemma {:induction false} RunKeeps(s: System, steps: seq<Step>, end: System)
    requires Run(s, steps, end) && Invariant(s)
    ensures Invariant(end)
    decreases |steps|
  {
    hide Invariant, Do, Enabled;
    if steps != [] {
      StepKeeps(s, steps[0]);
      RunKeeps(Do(s, steps[0]), steps[1..], end);
    }
  }

  /** In every interleaving: the two maps have the same keys at every release
      of the lock; the progress channel is closed at most once and not sent on
      after that; and no accepted transfer that is not announced as empty is
      reported completed or failed more than once. */
  lemma BookkeepingIsSafe(steps: seq<Step>, end: System)
    requires Run(START, steps, end)
    ensures end.fileWriters.Keys == end.savePaths
    ensures WellUsed(end.log) && (end.channelOpen <==> Closed !in end.log)
    ensures forall w :: 0 <= w < |end.sizes| && end.sizes[w] != 0 ==> Terminals(end.log, w) <= 1
  {
    RunKeeps(START, steps, end);
    hide Terminals;
    forall w | 0 <= w < |end.sizes| && end.sizes[w] != 0 ensures Terminals(end.log, w) <= 1 {
      assert ReportedOnce(end, w);
    }
  }

  // ---------- Chunks that come too late ----------

  predicate Mentions(use: ChannelUse, id: Id) { use.Sent? && use.progress.id == id }

  function Events(log: seq<ChannelUse>, id: Id): seq<ChannelUse> {
    if log == [] then []
    else Events(log[..|log| - 1], id) + (if Mentions(log[|log| - 1], id) then [log[|log| - 1]] else [])
  }

  lemma EventsSnoc(log: seq<ChannelUse>, use: ChannelUse, id: Id)
    ensures Events(log + [use], id) == Events(log, id) + (if Mentions(use, id) then [use] else [])
  {
    assert (log + [use])[..|log|] == log;
  }

  /** Nothing is under way for this transfer. */
  ghost predicate Over(s: System, id: Id) {
    && id !in s.fileWriters
    && (s.reader.Idle? || s.reader.Stopped? || s.reader.id != id)
    && (forall call :: call in s.acceptors && s.acceptors[call].id == id ==>
          (s.acceptors[call].Answering? || s.acceptors[call].Abandoning?) && s.acceptors[call].w < |s.sizes|
              && s.sizes[s.acceptors[call].w] != 0)
  }

  lemma ReaderKeepsOver(s: System, step: Step, id: Id)
    requires Enabled(s, step) && Over(s, id)
    requires step.Accept? && step.made ==> step.id != id
    requires !IsCall(step)
    ensures Over(Do(s, step), id)
  {
    hide IsTerminal;
  }

  lemma AcceptKeepsOver(s: System, call: nat, other: Id, made: bool, id: Id)
    requires Enabled(s, Accept(call, other, made)) && Over(s, id) && (made ==> other != id)
    ensures Over(Do(s, Accept(call, other, made)), id)
  {
  }

  lemma CallKeepsOver(s: System, step: Step, id: Id)
    requires Enabled(s, step) && Over(s, id)
    requires step.Accept? && step.made ==> step.id != id
    requires IsCall(step)
    ensures Over(Do(s, step), id)
  {
    hide IsTerminal;
    match step
    case Accept(call, other, made) =>
      hide Do, Over;
      AcceptKeepsOver(s, call, other, made, id);
    case _ =>
  }

  lemma StepKeepsOver(s: System, step: Step, id: Id)
    requires Enabled(s, step) && Over(s, id)
    requires step.Accept? && step.made ==> step.id != id
    ensures Over(Do(s, step), id)
  {
    hide Do, Enabled, Over;
    if IsCall(step) {
      CallKeepsOver(s, step, id);
    } else {
      ReaderKeepsOver(s, step, id);
    }
  }

  lemma StepKeepsEvents(s: System, step: Step, id: Id)
    requires Enabled(s, step) && Over(s, id)
    requires step.Accept? && step.made ==> step.id != id
    ensures Events(Do(s, step).log, id) == Events(s.log, id)
  {
    hide Events;
    match step
    case TellProgress => EventsSnoc(s.log, Sent(Progress(s.reader.id, s.reader.w, InProgress)), id);
    case Report => EventsSnoc(s.log, Sent(Progress(s.reader.id, s.reader.w, s.reader.state)), id);
    case ConnectionEnds => EventsSnoc(s.log, Closed, id);
    case EmptyReport(call) =>
      var a := s.acceptors[call];
      EventsSnoc(s.log, Sent(Progress(a.id, a.w, a.state)), id);
    case _ =>
  }

  lemma StepStaysOver(s: System, step: Step, id: Id)
    requires Enabled(s, step) && Over(s, id)
    requires step.Accept? && step.made ==> step.id != id
    ensures Over(Do(s, step), id)
    ensures Events(Do(s, step).log, id) == Events(s.log, id)
    ensures step == Lookup(id) ==> Do(s, step) == s
  {
    StepKeepsOver(s, step, id);
    StepKeepsEvents(s, step, id);
    hide Events;
  }

  /** Once the read loop has reported the end of a transfer, whatever arrives
      for it, until it is offered and accepted anew, is ignored: no chunk
      finds a writer and no progress is reported. */
  lemma {:induction false} LateChunksChangeNothing(s: System, steps: seq<Step>, end: System, id: Id)
    requires Run(s, steps, end) && Over(s, id)
    requires forall i :: 0 <= i < |steps| && steps[i].Accept? && steps[i].made ==> steps[i].id != id
    ensures Over(end, id) && Events(end.log, id) == Events(s.log, id)
    decreases |steps|
  {
    hide Over, Do, Enabled, Events;
    if steps != [] {
      StepStaysOver(s, steps[0], id);
      LateChunksChangeNothing(Do(s, steps[0]), steps[1..], end, id);
    }
  }

  function Acceptances(steps: seq<Step>, id: Id): nat {
    if steps == [] then 0
    else (if steps[0].Accept? && steps[0].made && steps[0].id == id then 1 else 0) + Acceptances(steps[1..], id)
  }

  /** The writers made for a transfer. */
  function WritersFor(ids: seq<Id>, id: Id): nat {
    if ids == [] then 0 else WritersFor(ids[..|ids| - 1], id) + if ids[|ids| - 1] == id then 1 else 0
  }

  lemma WritersForSnoc(ids: seq<Id>, last: Id, id: Id)
    ensures WritersFor(ids + [last], id) == WritersFor(ids, id) + if last == id then 1 else 0
  {
    assert (ids + [last])[..|ids|] == ids;
  }

  lemma StepIds(s: System, step: Step)
    requires Enabled(s, step)
    ensures Do(s, step).ids == if step.Accept? && step.made then s.ids + [step.id] else s.ids
  {
  }

  lemma {:induction false} AcceptancesMakeWriters(s: System, steps: seq<Step>, end: System, id: Id)
    requires Run(s, steps, end)
    ensures WritersFor(end.ids, id) == WritersFor(s.ids, id) + Acceptances(steps, id)
    decreases |steps|
  {
    hide WritersFor, Do, Enabled;
    if steps != [] {
      AcceptancesMakeWriters(Do(s, steps[0]), steps[1..], end, id);
      StepIds(s, steps[0]);
      if steps[0].Accept? {
        WritersForSnoc(s.ids, steps[0].id, id);
      }
    }
  }

  lemma {:induction false} SomeWriter(ids: seq<Id>, id: Id, v: nat)
    requires v < |ids| && ids[v] == id
    ensures WritersFor(ids, id) > 0
  {
    if v < |ids| - 1 {
      assert ids[..|ids| - 1][v] == ids[v];
      SomeWriter(ids[..|ids| - 1], id, v);
    }
  }

  lemma {:induction false} OneWriter(ids: seq<Id>, id: Id, v: nat, w: nat)
    requires WritersFor(ids, id) == 1 && v < |ids| && w < |ids| && ids[v] == ids[w] == id
    ensures v == w
  {
    var shorter := ids[..|ids| - 1];
    if v < |shorter| {
      assert shorter[v] == ids[v];
      SomeWriter(shorter, id, v);
    }
    if w < |shorter| {
      assert shorter[w] == ids[w];
      SomeWriter(shorter, id, w);
    }
    if v < |shorter| && w < |shorter| {
      OneWriter(shorter, id, v, w);
    }
  }

  /** A terminal report for the only writer of a non-empty transfer is the end
      of it: nothing can find the writer and no call will report on it. */
  lemma ReportedIsOver(s: System, id: Id, w: WriterId)
    requires Invariant(s) && Of(s.ids, w, id) && s.sizes[w] != 0 && Terminals(s.log, w) > 0
    requires forall v :: Of(s.ids, v, id) ==> v == w
    ensures Over(s, id)
  {
    assert ReportedOnce(s, w);
    hide Terminals, ChannelSafe, ReportedOnce;
    ReportedFacts(s, w);
  }

  lemma ReportedFacts(s: System, w: WriterId)
    requires ReportedOnce(s, w) && Terminals(s.log, w) > 0
    ensures !Registered(s, w) && !Working(s.reader, w) && !Ending(s.reader, w)
  {
  }

  /** In every run: once a transfer that is not empty and was accepted once has
      been reported completed or failed, whatever happens next, short of
      accepting it anew, finds no writer for it and reports nothing about it. */
  lemma NothingAfterTheReport(steps: seq<Step>, s: System, more: seq<Step>, end: System, id: Id, w: WriterId)
    requires Run(START, steps, s) && Run(s, more, end)
    requires Acceptances(steps, id) == 1 && Acceptances(more, id) == 0
    requires w < |s.sizes| && Of(s.ids, w, id) && s.sizes[w] != 0 && Terminals(s.log, w) > 0
    ensures Over(s, id) && Over(end, id) && Events(end.log, id) == Events(s.log, id)
  {
    RunKeeps(START, steps, s);
    hide Terminals, Do, Enabled;
    AcceptancesMakeWriters(START, steps, s, id);
    forall v | Of(s.ids, v, id) ensures v == w {
      OneWriter(s.ids, id, v, w);
    }
    hide Over, Invariant, Terminals, Events, Run, Of;
    ReportedIsOver(s, id, w);
    NoneAccepted(more, id);
    LateChunksChangeNothing(s, more, end, id);
  }

  lemma {:induction false} NoneAccepted(steps: seq<Step>, id: Id)
    requires Acceptances(steps, id) == 0
    ensures forall i :: 0 <= i < |steps| && steps[i].Accept? && steps[i].made ==> steps[i].id != id
  {
    if steps != [] {
      NoneAccepted(steps[1..], id);
      forall i | 0 <= i < |steps| && steps[i].Accept? && steps[i].made ensures steps[i].id != id {
        assert i > 0 ==> steps[i] == steps[1..][i - 1];
      }
    }
  }

  // ---------- What is not so ----------

  ghost predicate Reachable(s: System) { exists steps :: Run(START, steps, s) }

  lemma {:induction false} RunAppend(s: System, steps: seq<Step>, mid: System, step: Step)
    requires Run(s, steps, mid) && Enabled(mid, step)
    ensures Run(s, steps + [step], Do(mid, step))
    decreases |steps|
  {
    hide Do, Enabled;
    if steps != [] {
      RunAppend(Do(s, steps[0]), steps[1..], mid, step);
      assert (steps + [step])[1..] == steps[1..] + [step];
    }
  }

  lemma Reach(s: System, step: Step)
    requires Reachable(s) && Enabled(s, step)
    ensures Reachable(Do(s, step))
  {
    hide Do, Enabled;
    var steps :| Run(START, steps, s);
    RunAppend(START, steps, s, step);
  }

  /** A chunk for an empty transfer has found its writer; the acceptance is
      about to finish the file. */
  lemma ChunkForEmpty(id: Id) returns (s: System)
    ensures Reachable(s)
    ensures s == START.(fileWriters := map[id := 0], savePaths := {id}, ids := [id], sizes := [0],
                        reader := Found(id, 0),
                        acceptors := map[0 := Answering(id, 0)])
  {
    assert Run(START, [], START);
    s := START;
    hide Run;
    Reach(s, OfferArrives(id, Offer(0, false))); s := Do(s, OfferArrives(id, Offer(0, false)));
    Reach(s, Accept(0, id, true)); s := Do(s, Accept(0, id, true));
    Reach(s, Lookup(id)); s := Do(s, Lookup(id));
  }

  lemma EmptyCompleted(id: Id) returns (s: System)
    ensures Reachable(s)
    ensures s == START.(ids := [id], sizes := [0], reader := Found(id, 0), closed := {0},
                        log := [Sent(Progress(id, 0, Completed))])
  {
    hide Run;
    s := ChunkForEmpty(id);
    Reach(s, Answer(0, true)); s := Do(s, Answer(0, true));
    Reach(s, EmptyForget(0)); s := Do(s, EmptyForget(0));
    Reach(s, EmptyFinish(0, true)); s := Do(s, EmptyFinish(0, true));
    Reach(s, EmptyReport(0)); s := Do(s, EmptyReport(0));
  }

  /** An empty transfer can be reported completed and then failed: a chunk for
      it finds its writer, `AcceptTransfer` finishes it, and then the chunk is
      refused, as every chunk for an empty file is. */
  lemma EmptyIsReportedTwice(id: Id) returns (s: System)
    ensures Reachable(s) && s.sizes == [0]
    ensures s.log == [Sent(Progress(id, 0, Completed)), Sent(Progress(id, 0, Failed))]
    ensures Terminals(s.log, 0) == 2
  {
    hide Run;
    s := EmptyCompleted(id);
    Reach(s, WriteChunk(false, 0)); s := Do(s, WriteChunk(false, 0));
    Reach(s, ForgetFailed); s := Do(s, ForgetFailed);
    Reach(s, Report); s := Do(s, Report);
    TerminalsSnoc([], Sent(Progress(id, 0, Completed)), 0);
    TerminalsSnoc([Sent(Progress(id, 0, Completed))], Sent(Progress(id, 0, Failed)), 0);
    assert [] + [Sent(Progress(id, 0, Completed))] == [Sent(Progress(id, 0, Completed))];
    assert [Sent(Progress(id, 0, Completed))] + [Sent(Progress(id, 0, Failed))] == s.log;
  }

  ghost predicate AlwaysReportedOnce(size: int) {
    forall s, w :: Reachable(s) && 0 <= w < |s.sizes| && s.sizes[w] == size ==> Terminals(s.log, w) <= 1
  }

  /** Transfers of a given size are never reported completed or failed more than
      once, in any interleaving, exactly unless they are announced as empty. */
  lemma ReportedOnceExactly(size: int)
    ensures AlwaysReportedOnce(size) <==> size != 0
  {
    hide Run, Terminals;
    if size != 0 {
      forall s, w | Reachable(s) && 0 <= w < |s.sizes| && s.sizes[w] == size ensures Terminals(s.log, w) <= 1 {
        var steps :| Run(START, steps, s);
        BookkeepingIsSafe(steps, s);
      }
    } else {
      var s := EmptyIsReportedTwice([]);
      assert s.sizes[0] == 0 && Terminals(s.log, 0) == 2;
    }
  }

  /** A folder whose save file cannot be made leaves its name behind, so that
      the folder names are not a part of the save paths. */
  lemma FolderNameIsLeft(id: Id, size: int) returns (s: System)
    ensures Reachable(s) && id in s.dirTransfers && id !in s.savePaths
  {
    assert Run(START, [], START);
    s := START;
    hide Run;
    Reach(s, OfferArrives(id, Offer(size, true))); s := Do(s, OfferArrives(id, Offer(size, true)));
    Reach(s, Accept(0, id, false)); s := Do(s, Accept(0, id, false));
  }
}
