/** One transfer offered to any number of peers: the fan-out, the receivers'
    answers, the host's handlers and senders, and the goroutine that drains the
    progress channel and drops the transfer (internal/host/host.go:352-459,
    internal/transfer/transfer.go:97-139, 206-266). Each step is what one
    goroutine does under one lock; channels are unbounded queues. */
module Lifecycle {
  import opened PeerStates
  import opened Bytes

  datatype Peer = Peer(id: string)

  datatype Message = Message(peer: Peer, state: TransferState)

  /** `Holding` is between taking a message and looking at all peers. */
  datatype Drain = Idle | Holding(message: Message) | Deleting | Done

  /** The fan-out loop: ready for the next peer, or about to record the outcome
      of the write to one. */
  datatype FanOut = Ready | Recording(peer: Peer, state: TransferState)

  datatype Answer = Accepting | Rejecting

  datatype System = System(
    // the transfer and its place in the host's map
    states: map<Peer, TransferState>,
    queue: seq<Message>,
    registered: bool,
    drops: nat,
    drain: Drain,
    // the fan-out
    todo: seq<Peer>,
    fan: FanOut,
    // on the way to the receivers, pending there (`unanswered`: no longer, but
    // still listed by the interface), and on the way back
    offers: multiset<Peer>,
    pending: set<Peer>,
    unanswered: set<Peer>,
    accepts: multiset<Peer>,
    rejects: multiset<Peer>,
    // answers the host has looked the transfer up for, and its senders
    handling: map<Peer, Answer>,
    starting: multiset<Peer>,
    sending: multiset<Peer>,
    // history
    past: map<Peer, seq<TransferState>>,
    starts: multiset<Peer>)

  function Start(peers: seq<Peer>): System {
    System(map[], [], true, 0, Idle, peers, Ready,
           multiset{}, {}, {}, multiset{}, multiset{}, map[], multiset{}, multiset{}, map[], multiset{})
  }

  function Past(s: System, p: Peer): seq<TransferState> {
    if p in s.past then s.past[p] else []
  }

  /** `SetState`: the state and its message, under the transfer's lock. */
  function SetState(s: System, p: Peer, state: TransferState): System {
    s.(states := s.states[p := state], queue := s.queue + [Message(p, state)],
       past := s.past[p := Past(s, p) + [state]])
  }

  predicate Settled(states: map<Peer, TransferState>) {
    states != map[] && forall p :: p in states ==> IsTerminal(states[p])
  }

  datatype Step =
    | FanWrite(ok: bool)          // the offer is sent, or the connection is dead
    | FanSkip                     // sealing the offer failed
    | FanRecord
    | Deliver(peer: Peer)         // the receiver files the offer
    | Accept(peer: Peer)          // AcceptTransfer: consumes the offer
    | Reject(peer: Peer)          // RejectTransfer: does not ask whether there is one
    | AnswerFails(peer: Peer)     // either of them fails: consumes the offer, no answer
    | SeeAnswer(peer: Peer, answer: Answer)
    | RecordAnswer(peer: Peer)
    | BeginSending(peer: Peer)
    | Report(peer: Peer)          // best-effort progress that gets through
    | EndSending(peer: Peer, ok: bool)
    | Take
    | Check
    | Delete

  predicate Enabled(s: System, step: Step) {
    match step
    case FanWrite(_) => s.fan.Ready? && s.todo != []
    case FanSkip => s.fan.Ready? && s.todo != []
    case FanRecord => s.fan.Recording?
    case Deliver(p) => p in s.offers
    case Accept(p) => p in s.pending
    case Reject(_) => true
    case AnswerFails(p) => p in s.pending
    case SeeAnswer(p, Accepting) => p in s.accepts && p !in s.handling
    case SeeAnswer(p, Rejecting) => p in s.rejects && p !in s.handling
    case RecordAnswer(p) => p in s.handling
    case BeginSending(p) => p in s.starting
    case Report(p) => p in s.sending
    case EndSending(p, _) => p in s.sending
    case Take => s.drain.Idle? && s.queue != []
    case Check => s.drain.Holding?
    // the fan-out holds the host's lock for reading until it is over
    case Delete => s.drain.Deleting? && s.todo == [] && s.fan.Ready?
  }

  function Seen(s: System, q: Peer, answer: Answer): System {
    if answer.Accepting? then s.(accepts := s.accepts - multiset{q}) else s.(rejects := s.rejects - multiset{q})
  }

  function Do(s: System, step: Step): System
    requires Enabled(s, step)
  {
    match step
    case FanWrite(ok) =>
      var p, rest := s.todo[0], s.todo[1..];
      if ok then s.(todo := rest, fan := Recording(p, Waiting), offers := s.offers + multiset{p})
      else s.(todo := rest, fan := Recording(p, Disconnected))
    case FanSkip => s.(todo := s.todo[1..])
    case FanRecord => SetState(s.(fan := Ready), s.fan.peer, s.fan.state)
    case Deliver(p) => s.(offers := s.offers - multiset{p}, pending := s.pending + {p})
    case Accept(p) => s.(pending := s.pending - {p}, accepts := s.accepts + multiset{p})
    case Reject(p) =>
      s.(pending := s.pending - {p}, unanswered := s.unanswered - {p}, rejects := s.rejects + multiset{p})
    case AnswerFails(p) => s.(pending := s.pending - {p}, unanswered := s.unanswered + {p})
    case SeeAnswer(p, answer) =>
      var taken := Seen(s, p, answer);
      if s.registered then taken.(handling := s.handling[p := answer]) else taken
    case RecordAnswer(p) =>
      var done := s.(handling := s.handling - {p});
      if s.handling[p].Accepting? then
        SetState(done.(starting := s.starting + multiset{p}, starts := s.starts + multiset{p}), p, Accepted)
      else SetState(done, p, Rejected)
    case BeginSending(p) =>
      SetState(s.(starting := s.starting - multiset{p}, sending := s.sending + multiset{p}), p, InProgress)
    case Report(p) => s.(queue := s.queue + [Message(p, InProgress)])
    case EndSending(p, ok) => SetState(s.(sending := s.sending - multiset{p}), p, if ok then Completed else Failed)
    case Take => s.(queue := s.queue[1..], drain := Holding(s.queue[0]))
    case Check => s.(drain := if IsTerminal(s.drain.message.state) && Settled(s.states) then Deleting else Idle)
    case Delete => s.(registered := false, drops := s.drops + 1, drain := Done)
  }

  // ---------- Runs ----------

  ghost predicate Run(s: System, steps: seq<Step>, end: System)
    decreases |steps|
  {
    if steps == [] then s == end
    else Enabled(s, steps[0]) && Run(Do(s, steps[0]), steps[1..], end)
  }

  // ---------- No missed deregistration ----------

  predicate TerminalQueued(q: seq<Message>) {
    exists i :: 0 <= i < |q| && IsTerminal(q[i].state)
  }

  /** While a settled transfer is registered, someone still has to notice. */
  ghost predicate Noticed(s: System) {
    && (s.registered && Settled(s.states) ==>
          TerminalQueued(s.queue) || (s.drain.Holding? && IsTerminal(s.drain.message.state)) || s.drain.Deleting?)
    && (s.registered <==> s.drops == 0)
    && (s.drain.Done? <==> s.drops == 1)
    && s.drops <= 1
  }

  lemma QueuedStays(q: seq<Message>, m: Message)
    ensures TerminalQueued(q) ==> TerminalQueued(q + [m])
    ensures IsTerminal(m.state) ==> TerminalQueued(q + [m])
    ensures q != [] && TerminalQueued(q) && !IsTerminal(q[0].state) ==> TerminalQueued(q[1..])
  {
    var r := q + [m];
    assert r[|q|] == m;
    if TerminalQueued(q) {
      var i :| 0 <= i < |q| && IsTerminal(q[i].state);
      assert r[i] == q[i];
      if i > 0 {
        assert q[1..][i - 1] == q[i];
      }
    }
  }

  lemma SetStateNoticed(s: System, p: Peer, state: TransferState)
    requires Noticed(s)
    ensures Noticed(SetState(s, p, state))
  {
    QueuedStays(s.queue, Message(p, state));
    assert p in SetState(s, p, state).states;
  }

  lemma RecordNoticed(s: System, step: Step)
    requires Noticed(s) && Enabled(s, step)
             && (step.FanRecord? || step.RecordAnswer? || step.BeginSending? || step.EndSending?)
    ensures Noticed(Do(s, step))
  {
    hide SetState, Settled, TerminalQueued;
    match step
    case FanRecord => SetStateNoticed(s.(fan := Ready), s.fan.peer, s.fan.state);
    case RecordAnswer(p) =>
      var done := s.(handling := s.handling - {p});
      if s.handling[p].Accepting? {
        SetStateNoticed(done.(starting := s.starting + multiset{p}, starts := s.starts + multiset{p}), p, Accepted);
      } else {
        SetStateNoticed(done, p, Rejected);
      }
    case BeginSending(p) =>
      SetStateNoticed(s.(starting := s.starting - multiset{p}, sending := s.sending + multiset{p}), p, InProgress);
    case EndSending(p, ok) =>
      SetStateNoticed(s.(sending := s.sending - multiset{p}), p, if ok then Completed else Failed);
  }

  lemma StepNoticed(s: System, step: Step)
    requires Noticed(s) && Enabled(s, step)
    ensures Noticed(Do(s, step))
  {
    hide SetState, Settled, TerminalQueued;
    match step
    case FanRecord => RecordNoticed(s, step);
    case RecordAnswer(_) => RecordNoticed(s, step);
    case BeginSending(_) => RecordNoticed(s, step);
    case EndSending(_, _) => RecordNoticed(s, step);
    case Report(p) => QueuedStays(s.queue, Message(p, InProgress));
    case Take => QueuedStays(s.queue, s.queue[0]);
    case _ =>
  }

  lemma {:induction false} RunNoticed(s: System, steps: seq<Step>, end: System)
    requires Noticed(s) && Run(s, steps, end)
    ensures Noticed(end)
    decreases |steps|
  {
    hide Noticed, Do, Enabled;
    if steps != [] {
      StepNoticed(s, steps[0]);
      RunNoticed(Do(s, steps[0]), steps[1..], end);
    }
  }

  /** In every run, whatever the peers, the interface and the network do: when
      all tracked peers are settled and the drainer has nothing left to look
      at, the transfer is gone; and it is dropped at most once. */
  lemma NoMissedDeregistration(peers: seq<Peer>, steps: seq<Step>, end: System)
    requires Run(Start(peers), steps, end)
    ensures end.drops <= 1
    ensures Settled(end.states) && end.queue == [] && end.drain.Idle? ==> !end.registered && end.drops == 1
    ensures end.registered && Settled(end.states) ==>
              TerminalQueued(end.queue) || (end.drain.Holding? && IsTerminal(end.drain.message.state))
                  || end.drain.Deleting?
  {
    RunNoticed(Start(peers), steps, end);
  }

  // ---------- The life of one peer ----------

  predicate Listed(s: System, p: Peer) { p in s.pending || p in s.unanswered }

  /** What the receiver's interface does (it rejects an offer that it lists,
      which is pending or could not be answered before) and the one race the
      host does not exclude: the answer of a peer must not be recorded while the
      fan-out is about to record `Waiting` for it. */
  predicate Orderly(s: System, step: Step) {
    && Enabled(s, step)
    && (step.Reject? ==> Listed(s, step.peer))
    && (step.RecordAnswer? && s.fan.Recording? ==> s.fan.peer != step.peer)
  }

  ghost predicate OrderlyRun(s: System, steps: seq<Step>, end: System)
    decreases |steps|
  {
    if steps == [] then s == end
    else Orderly(s, steps[0]) && OrderlyRun(Do(s, steps[0]), steps[1..], end)
  }

  /** The lives a peer can have: never reached, turned down, or served. */
  predicate Life(past: seq<TransferState>) {
    || past <= [Disconnected]
    || past <= [Waiting, Rejected]
    || past <= [Waiting, Accepted, InProgress, Completed]
    || past <= [Waiting, Accepted, InProgress, Failed]
  }

  /** Everything in the system that concerns one peer. `answering` counts the
      offer on its way to an answer the host has recorded. */
  datatype View = View(
    ahead: nat, recording: Option<TransferState>, answering: nat, starting: nat, sending: nat,
    past: seq<TransferState>, state: Option<TransferState>, starts: nat)

  function One(b: bool): nat { if b then 1 else 0 }

  function ViewOf(s: System, p: Peer): View {
    View(multiset(s.todo)[p],
         if s.fan.Recording? && s.fan.peer == p then Some(s.fan.state) else None,
         s.offers[p] + One(p in s.pending) + One(p in s.unanswered) + s.accepts[p] + s.rejects[p]
             + One(p in s.handling),
         s.starting[p], s.sending[p],
         Past(s, p), if p in s.states then Some(s.states[p]) else None, s.starts[p])
  }

  /** Where the peer's one offer can be, and what has been recorded by then. */
  predicate OnCourse(v: View) {
    && v.ahead + v.answering + v.starting + v.sending <= 1
    && v.starts == One(|v.past| > 1 && v.past[1] == Accepted)
    && v.state == (if v.past == [] then None else Some(v.past[|v.past| - 1]))
    && (v.ahead == 1 ==> v.recording.None? && v.past == [])
    && (v.recording.Some? ==> v.past == [] && v.starting == v.sending == 0)
    && (v.recording.Some? ==> v.recording.value == Waiting || (v.recording.value == Disconnected && v.answering == 0))
    && (v.recording.None? && v.answering == 1 ==> v.past == [Waiting])
    && (v.starting == 1 ==> v.past == [Waiting, Accepted])
    && (v.sending == 1 ==> v.past == [Waiting, Accepted, InProgress])
    && (v.starting == v.sending == 0 && |v.past| > 1 ==> IsTerminal(v.past[|v.past| - 1]))
    && Life(v.past)
  }

  lemma StartOnCourse(peers: seq<Peer>, p: Peer)
    requires forall i, j :: 0 <= i < j < |peers| ==> peers[i] != peers[j]
    ensures OnCourse(ViewOf(Start(peers), p))
  {
    AtMostOnce(peers, p);
  }

  lemma {:induction false} AtMostOnce(peers: seq<Peer>, p: Peer)
    requires forall i, j :: 0 <= i < j < |peers| ==> peers[i] != peers[j]
    ensures multiset(peers)[p] <= 1
  {
    if peers != [] {
      var rest := peers[1..];
      assert peers == [peers[0]] + rest;
      AtMostOnce(rest, p);
      assert peers[0] !in rest;
    }
  }

  /** What a step is to one peer. */
  datatype Move =
    | Still | Written(ok: bool) | Skipped | Recorded | Ignored | Noted(answer: Answer) | Begun | Ended(ok: bool)

  function MoveOf(s: System, step: Step, p: Peer): Move
    requires Enabled(s, step)
  {
    match step
    case FanWrite(ok) => if s.todo[0] == p then Written(ok) else Still
    case FanSkip => if s.todo[0] == p then Skipped else Still
    case FanRecord => if s.fan.peer == p then Recorded else Still
    case SeeAnswer(q, _) => if q == p && !s.registered then Ignored else Still
    case RecordAnswer(q) => if q == p then Noted(s.handling[p]) else Still
    case BeginSending(q) => if q == p then Begun else Still
    case EndSending(q, ok) => if q == p then Ended(ok) else Still
    case _ => Still
  }

  predicate CanMove(v: View, move: Move) {
    match move
    case Still => true
    case Written(_) => v.ahead > 0
    case Skipped => v.ahead > 0
    case Recorded => v.recording.Some?
    case Ignored => v.answering > 0
    case Noted(_) => v.answering > 0 && v.recording.None?
    case Begun => v.starting > 0
    case Ended(_) => v.sending > 0
  }

  function Record(v: View, state: TransferState): View {
    v.(past := v.past + [state], state := Some(state))
  }

  function Moved(v: View, move: Move): View
    requires CanMove(v, move)
  {
    match move
    case Still => v
    case Written(true) => v.(ahead := v.ahead - 1, recording := Some(Waiting), answering := v.answering + 1)
    case Written(false) => v.(ahead := v.ahead - 1, recording := Some(Disconnected))
    case Skipped => v.(ahead := v.ahead - 1)
    case Recorded => Record(v, v.recording.value).(recording := None)
    case Ignored => v.(answering := v.answering - 1)
    case Noted(Accepting) =>
      Record(v, Accepted).(answering := v.answering - 1, starting := v.starting + 1, starts := v.starts + 1)
    case Noted(Rejecting) => Record(v, Rejected).(answering := v.answering - 1)
    case Begun => Record(v, InProgress).(starting := v.starting - 1, sending := v.sending + 1)
    case Ended(ok) => Record(v, if ok then Completed else Failed).(sending := v.sending - 1)
  }

  lemma SetStateView(s: System, q: Peer, state: TransferState, p: Peer)
    ensures ViewOf(SetState(s, q, state), p) == if q == p then Record(ViewOf(s, p), state) else ViewOf(s, p)
  {
  }

  lemma FanSkipView(s: System, p: Peer)
    requires s.fan.Ready? && s.todo != []
    ensures CanMove(ViewOf(s, p), MoveOf(s, FanSkip, p))
    ensures ViewOf(Do(s, FanSkip), p) == Moved(ViewOf(s, p), MoveOf(s, FanSkip, p))
  {
    assert s.todo == [s.todo[0]] + s.todo[1..];
    assert multiset(s.todo) == multiset{s.todo[0]} + multiset(s.todo[1..]);
  }

  lemma OfferView(s: System, q: Peer, ok: bool, p: Peer)
    requires s.fan.Ready?
    ensures var v := ViewOf(s, p);
            var w := ViewOf(if ok then s.(fan := Recording(q, Waiting), offers := s.offers + multiset{q})
                            else s.(fan := Recording(q, Disconnected)), p);
            && v.recording.None?
            && w == if q != p then v
                    else if ok then v.(recording := Some(Waiting), answering := v.answering + 1)
                    else v.(recording := Some(Disconnected))
  {
  }

  lemma FanWriteView(s: System, ok: bool, p: Peer)
    requires s.fan.Ready? && s.todo != []
    ensures CanMove(ViewOf(s, p), MoveOf(s, FanWrite(ok), p))
    ensures ViewOf(Do(s, FanWrite(ok)), p) == Moved(ViewOf(s, p), MoveOf(s, FanWrite(ok), p))
  {
    hide ViewOf;
    FanSkipView(s, p);
    OfferView(Do(s, FanSkip), s.todo[0], ok, p);
  }


  lemma FanRecordView(s: System, p: Peer)
    requires s.fan.Recording?
    ensures CanMove(ViewOf(s, p), MoveOf(s, FanRecord, p))
    ensures ViewOf(Do(s, FanRecord), p) == Moved(ViewOf(s, p), MoveOf(s, FanRecord, p))
  {
    hide SetState;
    SetStateView(s.(fan := Ready), s.fan.peer, s.fan.state, p);
  }

  lemma DeliverView(s: System, q: Peer, p: Peer)
    requires q in s.offers
    requires OnCourse(ViewOf(s, p))
    ensures CanMove(ViewOf(s, p), MoveOf(s, Deliver(q), p))
    ensures ViewOf(Do(s, Deliver(q)), p) == Moved(ViewOf(s, p), MoveOf(s, Deliver(q), p))
  {
    hide Life;
  }

  lemma AcceptView(s: System, q: Peer, p: Peer)
    requires q in s.pending
    ensures CanMove(ViewOf(s, p), MoveOf(s, Accept(q), p))
    ensures ViewOf(Do(s, Accept(q)), p) == Moved(ViewOf(s, p), MoveOf(s, Accept(q), p))
  {
    hide Life;
  }

  lemma RejectView(s: System, q: Peer, p: Peer)
    requires Listed(s, q) && OnCourse(ViewOf(s, p))
    ensures CanMove(ViewOf(s, p), MoveOf(s, Reject(q), p))
    ensures ViewOf(Do(s, Reject(q)), p) == Moved(ViewOf(s, p), MoveOf(s, Reject(q), p))
  {
    hide Life;
  }

  lemma AnswerFailsView(s: System, q: Peer, p: Peer)
    requires q in s.pending && OnCourse(ViewOf(s, p))
    ensures CanMove(ViewOf(s, p), MoveOf(s, AnswerFails(q), p))
    ensures ViewOf(Do(s, AnswerFails(q)), p) == Moved(ViewOf(s, p), MoveOf(s, AnswerFails(q), p))
  {
    hide Life;
  }

  lemma AcceptSeen(s: System, q: Peer, p: Peer)
    requires q in s.accepts
    ensures var v, w := ViewOf(s, p), ViewOf(Seen(s, q, Accepting), p);
            if q == p then v.answering > 0 && w == v.(answering := v.answering - 1) else w == v
  {
  }

  lemma RejectSeen(s: System, q: Peer, p: Peer)
    requires q in s.rejects
    ensures var v, w := ViewOf(s, p), ViewOf(Seen(s, q, Rejecting), p);
            if q == p then v.answering > 0 && w == v.(answering := v.answering - 1) else w == v
  {
  }

  lemma HandlingView(s: System, q: Peer, answer: Answer, p: Peer)
    requires q !in s.handling
    ensures var v, w := ViewOf(s, p), ViewOf(s.(handling := s.handling[q := answer]), p);
            w == if q == p then v.(answering := v.answering + 1) else v
  {
  }

  lemma SeeAnswerView(s: System, q: Peer, answer: Answer, p: Peer)
    requires Enabled(s, SeeAnswer(q, answer))
    ensures CanMove(ViewOf(s, p), MoveOf(s, SeeAnswer(q, answer), p))
    ensures ViewOf(Do(s, SeeAnswer(q, answer)), p) == Moved(ViewOf(s, p), MoveOf(s, SeeAnswer(q, answer), p))
  {
    hide ViewOf;
    if answer.Accepting? {
      AcceptSeen(s, q, p);
    } else {
      RejectSeen(s, q, p);
    }
    HandlingView(Seen(s, q, answer), q, answer, p);
  }

  lemma AnswerTaken(s: System, q: Peer, p: Peer)
    requires q in s.handling
    ensures var v, w := ViewOf(s, p), ViewOf(s.(handling := s.handling - {q}), p);
            if q == p then v.answering > 0 && w == v.(answering := v.answering - 1) else w == v
  {
  }

  lemma SenderAdded(s: System, q: Peer, p: Peer)
    ensures var v, w := ViewOf(s, p),
            ViewOf(s.(starting := s.starting + multiset{q}, starts := s.starts + multiset{q}), p);
            w == if q == p then v.(starting := v.starting + 1, starts := v.starts + 1) else v
  {
  }

  lemma RecordAnswerView(s: System, q: Peer, p: Peer)
    requires q in s.handling && (s.fan.Recording? ==> s.fan.peer != q)
    ensures CanMove(ViewOf(s, p), MoveOf(s, RecordAnswer(q), p))
    ensures ViewOf(Do(s, RecordAnswer(q)), p) == Moved(ViewOf(s, p), MoveOf(s, RecordAnswer(q), p))
  {
    var done := s.(handling := s.handling - {q});
    assert q == p ==> ViewOf(s, p).recording.None?;
    hide SetState, ViewOf;
    AnswerTaken(s, q, p);
    SenderAdded(done, q, p);
    SetStateView(done.(starting := s.starting + multiset{q}, starts := s.starts + multiset{q}), q, Accepted, p);
    SetStateView(done, q, Rejected, p);
  }

  lemma SenderBegun(s: System, q: Peer, p: Peer)
    requires q in s.starting
    ensures var v, w := ViewOf(s, p),
            ViewOf(s.(starting := s.starting - multiset{q}, sending := s.sending + multiset{q}), p);
            if q == p then v.starting > 0 && w == v.(starting := v.starting - 1, sending := v.sending + 1) else w == v
  {
  }

  lemma BeginSendingView(s: System, q: Peer, p: Peer)
    requires q in s.starting
    ensures CanMove(ViewOf(s, p), MoveOf(s, BeginSending(q), p))
    ensures ViewOf(Do(s, BeginSending(q)), p) == Moved(ViewOf(s, p), MoveOf(s, BeginSending(q), p))
  {
    hide SetState, ViewOf;
    SenderBegun(s, q, p);
    SetStateView(s.(starting := s.starting - multiset{q}, sending := s.sending + multiset{q}), q, InProgress, p);
  }

  lemma SenderGone(s: System, q: Peer, p: Peer)
    requires q in s.sending
    ensures var v, w := ViewOf(s, p), ViewOf(s.(sending := s.sending - multiset{q}), p);
            if q == p then v.sending > 0 && w == v.(sending := v.sending - 1) else w == v
  {
  }

  lemma EndSendingView(s: System, q: Peer, ok: bool, p: Peer)
    requires q in s.sending
    ensures CanMove(ViewOf(s, p), MoveOf(s, EndSending(q, ok), p))
    ensures ViewOf(Do(s, EndSending(q, ok)), p) == Moved(ViewOf(s, p), MoveOf(s, EndSending(q, ok), p))
  {
    hide SetState, ViewOf;
    SenderGone(s, q, p);
    SetStateView(s.(sending := s.sending - multiset{q}), q, if ok then Completed else Failed, p);
  }

  /** The views a peer's record passes through. */
  lemma Stages(answering: nat, end: TransferState)
    requires answering <= 1
    ensures OnCourse(View(0, None, answering, 0, 0, [Waiting], Some(Waiting), 0))
    ensures OnCourse(View(0, None, 0, 0, 0, [Disconnected], Some(Disconnected), 0))
    ensures OnCourse(View(0, None, 0, 0, 0, [Waiting, Rejected], Some(Rejected), 0))
    ensures OnCourse(View(0, None, 0, 1, 0, [Waiting, Accepted], Some(Accepted), 1))
    ensures OnCourse(View(0, None, 0, 0, 1, [Waiting, Accepted, InProgress], Some(InProgress), 1))
    ensures end == Completed || end == Failed ==>
              OnCourse(View(0, None, 0, 0, 0, [Waiting, Accepted, InProgress, end], Some(end), 1))
  {
  }

  lemma AfterRecorded(v: View)
    requires OnCourse(v) && CanMove(v, Recorded)
    ensures Moved(v, Recorded) == View(0, None, v.answering, 0, 0, [v.recording.value], v.recording, 0)
    ensures v.past <= Moved(v, Recorded).past
  {
    hide Life;
  }

  lemma AfterAcceptance(v: View)
    requires OnCourse(v) && CanMove(v, Noted(Accepting))
    ensures Moved(v, Noted(Accepting)) == View(0, None, 0, 1, 0, [Waiting, Accepted], Some(Accepted), 1)
    ensures v.past <= Moved(v, Noted(Accepting)).past
  {
    hide Life;
  }

  lemma AfterRejection(v: View)
    requires OnCourse(v) && CanMove(v, Noted(Rejecting))
    ensures Moved(v, Noted(Rejecting)) == View(0, None, 0, 0, 0, [Waiting, Rejected], Some(Rejected), 0)
    ensures v.past <= Moved(v, Noted(Rejecting)).past
  {
    hide Life;
  }

  lemma AfterBegun(v: View)
    requires OnCourse(v) && CanMove(v, Begun)
    ensures Moved(v, Begun) == View(0, None, 0, 0, 1, [Waiting, Accepted, InProgress], Some(InProgress), 1)
    ensures v.past <= Moved(v, Begun).past
  {
    hide Life;
  }

  lemma AfterEnded(v: View, end: TransferState)
    requires (end == Completed || end == Failed) && OnCourse(v) && CanMove(v, Ended(end == Completed))
    ensures Moved(v, Ended(end == Completed)) ==
            View(0, None, 0, 0, 0, [Waiting, Accepted, InProgress, end], Some(end), 1)
    ensures v.past <= Moved(v, Ended(end == Completed)).past
  {
    hide Life;
  }

  lemma UnrecordedOnCourse(v: View, move: Move)
    requires OnCourse(v) && CanMove(v, move) && (move.Still? || move.Written? || move.Skipped? || move.Ignored?)
    ensures OnCourse(Moved(v, move)) && v.past == Moved(v, move).past
  {
    hide Life, Record;
  }

  lemma MovedOnCourse(v: View, move: Move)
    requires OnCourse(v) && CanMove(v, move)
    ensures OnCourse(Moved(v, move))
    ensures v.past <= Moved(v, move).past
  {
    assert move.Recorded? ==>
           v.answering <= 1
               && (v.recording == Some(Waiting) || (v.recording == Some(Disconnected) && v.answering == 0));
    hide OnCourse, Moved;
    match move
    case Recorded => AfterRecorded(v); Stages(v.answering, Failed);
    case Noted(Accepting) => AfterAcceptance(v); Stages(0, Failed);
    case Noted(Rejecting) => AfterRejection(v); Stages(0, Failed);
    case Begun => AfterBegun(v); Stages(0, Failed);
    case Ended(ok) =>
      var end := if ok then Completed else Failed;
      AfterEnded(v, end);
      Stages(0, end);
    case _ => UnrecordedOnCourse(v, move);
  }

  /** Progress reports and the drain goroutine do not concern any peer's view. */
  lemma StillView(s: System, step: Step, p: Peer)
    requires Enabled(s, step) && (step.Report? || step.Take? || step.Check? || step.Delete?)
    ensures CanMove(ViewOf(s, p), MoveOf(s, step, p))
    ensures ViewOf(Do(s, step), p) == Moved(ViewOf(s, p), MoveOf(s, step, p))
  {
  }

  lemma PastOfView(s: System, p: Peer)
    ensures ViewOf(s, p).past == Past(s, p)
  {
  }

  /** Every orderly step is a move of each peer's view. */
  lemma StepMoves(s: System, step: Step, p: Peer)
    requires Orderly(s, step) && OnCourse(ViewOf(s, p))
    ensures CanMove(ViewOf(s, p), MoveOf(s, step, p))
    ensures ViewOf(Do(s, step), p) == Moved(ViewOf(s, p), MoveOf(s, step, p))
  {
    hide OnCourse, Moved, CanMove, MoveOf, Do, ViewOf, Past;
    match step {
      case FanWrite(ok) => FanWriteView(s, ok, p);
      case FanSkip => FanSkipView(s, p);
      case FanRecord => FanRecordView(s, p);
      case Deliver(q) => DeliverView(s, q, p);
      case Accept(q) => AcceptView(s, q, p);
      case Reject(q) => RejectView(s, q, p);
      case AnswerFails(q) => AnswerFailsView(s, q, p);
      case SeeAnswer(q, answer) => SeeAnswerView(s, q, answer, p);
      case RecordAnswer(q) => RecordAnswerView(s, q, p);
      case BeginSending(q) => BeginSendingView(s, q, p);
      case EndSending(q, ok) => EndSendingView(s, q, ok, p);
      case _ => StillView(s, step, p);
    }
  }

  lemma StepOnCourse(s: System, step: Step, p: Peer)
    requires Orderly(s, step) && OnCourse(ViewOf(s, p))
    ensures OnCourse(ViewOf(Do(s, step), p))
    ensures Past(s, p) <= Past(Do(s, step), p)
  {
    hide OnCourse, Moved, CanMove, MoveOf, Do, ViewOf, Past, Orderly;
    StepMoves(s, step, p);
    OrderlyEnabled(s, step);
    MovedOnCourse(ViewOf(s, p), MoveOf(s, step, p));
    PastOfView(s, p);
    PastOfView(Do(s, step), p);
  }

  lemma OrderlyEnabled(s: System, step: Step)
    requires Orderly(s, step)
    ensures Enabled(s, step)
  {
  }

  lemma {:induction false} RunOnCourse(s: System, steps: seq<Step>, end: System, p: Peer)
    requires OrderlyRun(s, steps, end) && OnCourse(ViewOf(s, p))
    ensures OnCourse(ViewOf(end, p))
    ensures Past(s, p) <= Past(end, p)
    decreases |steps|
  {
    hide OnCourse, ViewOf, Do, Enabled;
    if steps != [] {
      StepOnCourse(s, steps[0], p);
      RunOnCourse(Do(s, steps[0]), steps[1..], end, p);
    }
  }

  /** Every peer of every orderly run lives one of the lives above, its current
      state is the last one recorded, and it is sent to at most once. */
  lemma PeerLife(peers: seq<Peer>, steps: seq<Step>, end: System, p: Peer)
    requires forall i, j :: 0 <= i < j < |peers| ==> peers[i] != peers[j]
    requires OrderlyRun(Start(peers), steps, end)
    ensures Life(Past(end, p))
    ensures p in end.states <==> Past(end, p) != []
    ensures p in end.states ==> end.states[p] == Past(end, p)[|Past(end, p)| - 1]
    ensures end.starts[p] <= 1
    ensures end.starts[p] == 1 <==> Accepted in Past(end, p)
  {
    StartOnCourse(peers, p);
    RunOnCourse(Start(peers), steps, end, p);
  }

  /** Terminal states are absorbing. */
  lemma TerminalStays(peers: seq<Peer>, before: seq<Step>, s: System, after: seq<Step>, end: System, p: Peer)
    requires forall i, j :: 0 <= i < j < |peers| ==> peers[i] != peers[j]
    requires OrderlyRun(Start(peers), before, s) && OrderlyRun(s, after, end)
    requires p in s.states && IsTerminal(s.states[p])
    ensures p in end.states && end.states[p] == s.states[p]
    ensures Past(end, p) == Past(s, p)
  {
    StartOnCourse(peers, p);
    RunOnCourse(Start(peers), before, s, p);
    RunOnCourse(s, after, end, p);
  }

  // ---------- When dropping the transfer is final ----------

  /** Nothing that concerns a peer is left anywhere but in its history. */
  predicate Quiet(s: System) {
    && s.todo == [] && s.fan.Ready?
    && s.offers == multiset{} && s.pending == {} && s.unanswered == {} && s.accepts == multiset{}
        && s.rejects == multiset{}
    && s.handling == map[] && s.starting == multiset{} && s.sending == multiset{}
  }

  lemma SettledIsQuiet(s: System)
    requires forall p :: OnCourse(ViewOf(s, p))
    requires Settled(s.states) && s.todo == [] && s.fan.Ready?
    ensures Quiet(s)
  {
    forall p: Peer
      ensures s.offers[p] == 0 && p !in s.pending && p !in s.unanswered && s.accepts[p] == 0 && s.rejects[p] == 0
      ensures p !in s.handling && s.starting[p] == 0 && s.sending[p] == 0
    {
      assert OnCourse(ViewOf(s, p));
    }
  }

  lemma {:induction false} QuietStays(s: System, steps: seq<Step>, end: System)
    requires OrderlyRun(s, steps, end) && Quiet(s)
    ensures Quiet(end) && end.past == s.past && end.states == s.states
    decreases |steps|
  {
    if steps != [] {
      QuietStays(Do(s, steps[0]), steps[1..], end);
    }
  }

  lemma RunOf(s: System, steps: seq<Step>)
    requires |steps| <= 2
    requires |steps| > 0 ==> Orderly(s, steps[0])
    requires |steps| > 1 ==> Orderly(Do(s, steps[0]), steps[1])
    ensures |steps| == 1 ==> OrderlyRun(s, steps, Do(s, steps[0]))
    ensures |steps| == 2 ==> OrderlyRun(s, steps, Do(Do(s, steps[0]), steps[1]))
  {
    hide Do;
    if |steps| == 2 {
      var mid := Do(s, steps[0]);
      assert steps[1..] == [steps[1]] && steps[1..][1..] == [];
      assert OrderlyRun(mid, steps[1..], Do(mid, steps[1]));
    }
  }

  ghost predicate NothingHappensAfter(s: System) {
    forall steps, end :: OrderlyRun(s, steps, end) ==> end.past == s.past
  }

  lemma FinalWhenFanOutIsOver(peers: seq<Peer>, before: seq<Step>, s: System)
    requires forall i, j :: 0 <= i < j < |peers| ==> peers[i] != peers[j]
    requires OrderlyRun(Start(peers), before, s)
    requires s.todo == [] && s.fan.Ready? && Settled(s.states) && s.drain.Holding?
    ensures NothingHappensAfter(Do(s, Check))
  {
    hide OnCourse, ViewOf, OrderlyRun, Settled;
    forall p ensures OnCourse(ViewOf(s, p)) {
      StartOnCourse(peers, p);
      RunOnCourse(Start(peers), before, s, p);
    }
    SettledIsQuiet(s);
    var d := Do(s, Check);
    forall steps, end | OrderlyRun(d, steps, end) ensures end.past == d.past {
      QuietStays(d, steps, end);
    }
  }

  lemma RecordFollows(d: System)
    requires d.fan.Recording?
    ensures !NothingHappensAfter(d)
  {
    RunOf(d, [FanRecord]);
    assert |Past(Do(d, FanRecord), d.fan.peer)| == |Past(d, d.fan.peer)| + 1;
  }

  lemma WriteAndRecordFollow(d: System)
    requires d.fan.Ready? && d.todo != []
    ensures !NothingHappensAfter(d)
  {
    var sent := Do(d, FanWrite(true));
    RunOf(d, [FanWrite(true), FanRecord]);
    assert |Past(Do(sent, FanRecord), d.todo[0])| == |Past(d, d.todo[0])| + 1;
  }

  /** The drainer decides to drop the transfer when the peers recorded so far
      are settled. That is the end of the transfer exactly when the fan-out is
      over by then; otherwise a peer it has still to record is left out. */
  lemma DropIsFinalExactly(peers: seq<Peer>, before: seq<Step>, s: System)
    requires forall i, j :: 0 <= i < j < |peers| ==> peers[i] != peers[j]
    requires OrderlyRun(Start(peers), before, s)
    requires s.drain.Holding? && Do(s, Check).drain.Deleting?
    ensures NothingHappensAfter(Do(s, Check)) <==> s.todo == [] && s.fan.Ready?
  {
    var d := Do(s, Check);
    if s.todo == [] && s.fan.Ready? {
      FinalWhenFanOutIsOver(peers, before, s);
    } else if s.fan.Recording? {
      RecordFollows(d);
    } else {
      WriteAndRecordFollow(d);
    }
  }
}
