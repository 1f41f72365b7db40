/** What happens to a transfer when answers come out of turn: runs in which a
    peer's record is upset, and when exactly they can occur
    (internal/host/host.go:352-383, 448-452, internal/receiver/receiver.go:530-541). */
module Disorder {
  import opened Bytes
  import opened PeerStates
  import opened Lifecycle

  // ---------- Runs that show the conditions are needed ----------

  lemma {:induction false} RunAppend(s: System, steps: seq<Step>, mid: System, step: Step)
    requires Run(s, steps, mid) && Enabled(mid, step)
    ensures Run(s, steps + [step], Do(mid, step))
    decreases |steps|
  {
    hide Do, Enabled;
    if steps != [] {
      RunAppend(Do(s, steps[0]), steps[1..], mid, step);
      assert (steps + [step])[1..] == steps[1..] + [step];
    }
  }

  ghost predicate Reachable(peers: seq<Peer>, s: System) {
    exists steps :: Run(Start(peers), steps, s)
  }

  lemma StartReachable(peers: seq<Peer>)
    ensures Reachable(peers, Start(peers))
  {
    assert Run(Start(peers), [], Start(peers));
  }

  lemma Reach(peers: seq<Peer>, s: System, step: Step)
    requires Reachable(peers, s) && Enabled(s, step)
    ensures Reachable(peers, Do(s, step))
  {
    hide Do, Enabled;
    var steps :| Run(Start(peers), steps, s);
    RunAppend(Start(peers), steps, s, step);
  }

  /** The answer is on its way back and the host is about to record it. */
  lemma AnswerInHand(p: Peer) returns (s: System)
    ensures Reachable([p], s)
    ensures s == Start([p]).(todo := [], fan := Recording(p, Waiting), handling := map[p := Rejecting])
  {
    StartReachable([p]);
    s := Start([p]);
    Reach([p], s, FanWrite(true)); s := Do(s, FanWrite(true));
    Reach([p], s, Deliver(p)); s := Do(s, Deliver(p));
    Reach([p], s, Reject(p)); s := Do(s, Reject(p));
    Reach([p], s, SeeAnswer(p, Rejecting)); s := Do(s, SeeAnswer(p, Rejecting));
  }

  /** An answer that overtakes the fan-out's own record is overwritten by it:
      the peer has answered and waits for ever. */
  lemma AnswerIsOverwritten(p: Peer) returns (s: System)
    ensures Reachable([p], s)
    ensures Past(s, p) == [Rejected, Waiting] && s.states == map[p := Waiting]
    ensures Quiet(s)
  {
    hide Run;
    s := AnswerInHand(p);
    Reach([p], s, RecordAnswer(p)); s := Do(s, RecordAnswer(p));
    Reach([p], s, FanRecord); s := Do(s, FanRecord);
  }

  lemma AnsweredTwice(p: Peer) returns (s: System)
    ensures Reachable([p], s)
    ensures s == SetState(Start([p]), p, Waiting).(todo := [], accepts := multiset{p}, rejects := multiset{p})
  {
    hide Run;
    StartReachable([p]);
    s := Start([p]);
    Reach([p], s, FanWrite(true)); s := Do(s, FanWrite(true));
    Reach([p], s, FanRecord); s := Do(s, FanRecord);
    Reach([p], s, Deliver(p)); s := Do(s, Deliver(p));
    Reach([p], s, Accept(p)); s := Do(s, Accept(p));
    Reach([p], s, Reject(p)); s := Do(s, Reject(p));
  }

  lemma BothAnswersSeen(p: Peer) returns (s: System)
    ensures Reachable([p], s)
    ensures s.starting == multiset{p} && s.handling == map[p := Rejecting] && Past(s, p) == [Waiting, Accepted]
  {
    hide Run;
    s := AnsweredTwice(p);
    Reach([p], s, SeeAnswer(p, Accepting)); s := Do(s, SeeAnswer(p, Accepting));
    Reach([p], s, RecordAnswer(p)); s := Do(s, RecordAnswer(p));
    Reach([p], s, SeeAnswer(p, Rejecting)); s := Do(s, SeeAnswer(p, Rejecting));
  }

  /** `RejectTransfer` does not ask whether the offer is pending: a rejection
      after an acceptance is recorded over the running transfer, so that a
      terminal state is left again. */
  lemma RejectionIsOvertaken(p: Peer) returns (s: System)
    ensures Reachable([p], s)
    ensures Past(s, p) == [Waiting, Accepted, Rejected, InProgress]
  {
    hide Run;
    s := BothAnswersSeen(p);
    Reach([p], s, RecordAnswer(p)); s := Do(s, RecordAnswer(p));
    Reach([p], s, BeginSending(p)); s := Do(s, BeginSending(p));
  }

  lemma DropIsDecided(p: Peer, q: Peer) returns (s: System)
    requires p != q
    ensures Reachable([p, q], s)
    ensures s == SetState(Start([p, q]), p, Disconnected).(todo := [q], queue := [], drain := Deleting)
  {
    hide Run;
    StartReachable([p, q]);
    s := Start([p, q]);
    Reach([p, q], s, FanWrite(false)); s := Do(s, FanWrite(false));
    Reach([p, q], s, FanRecord); s := Do(s, FanRecord);
    Reach([p, q], s, Take); s := Do(s, Take);
    Reach([p, q], s, Check); s := Do(s, Check);
  }

  /** A dead first peer settles the transfer while the second is still to be
      offered it: its acceptance finds nothing and it waits for ever. */
  lemma AcceptanceIsIgnored(p: Peer, q: Peer) returns (s: System)
    requires p != q
    ensures Reachable([p, q], s)
    ensures s.states == map[p := Disconnected, q := Waiting] && s.drops == 1
    ensures Quiet(s)
  {
    hide Run;
    s := DropIsDecided(p, q);
    Reach([p, q], s, FanWrite(true)); s := Do(s, FanWrite(true));
    Reach([p, q], s, FanRecord); s := Do(s, FanRecord);
    Reach([p, q], s, Delete); s := Do(s, Delete);
    Reach([p, q], s, Deliver(q)); s := Do(s, Deliver(q));
    Reach([p, q], s, Accept(q)); s := Do(s, Accept(q));
    Reach([p, q], s, SeeAnswer(q, Accepting)); s := Do(s, SeeAnswer(q, Accepting));
  }

  // ---------- Both conditions, exactly ----------

  /** An answer about to be recorded keeps the peer's life in order exactly if
      the fan-out is not about to record the same peer. */
  lemma RecordKeepsLifeExactly(peers: seq<Peer>, before: seq<Step>, s: System, p: Peer)
    requires forall i, j :: 0 <= i < j < |peers| ==> peers[i] != peers[j]
    requires OrderlyRun(Start(peers), before, s) && p in s.handling
    ensures Life(Past(Do(s, RecordAnswer(p)), p)) <==> !(s.fan.Recording? && s.fan.peer == p)
  {
    StartOnCourse(peers, p);
    RunOnCourse(Start(peers), before, s, p);
    hide OnCourse, OrderlyRun, Do, Past, Life;
    if s.fan.Recording? && s.fan.peer == p {
      UnrecordedYet(s, p);
      FirstRecord(s, p);
    } else {
      StepOnCourse(s, RecordAnswer(p), p);
      LifeOfView(Do(s, RecordAnswer(p)), p);
    }
  }

  lemma UnrecordedYet(s: System, p: Peer)
    requires OnCourse(ViewOf(s, p)) && s.fan.Recording? && s.fan.peer == p
    ensures Past(s, p) == []
  {
    hide Life;
  }

  lemma LifeOfView(s: System, p: Peer)
    requires OnCourse(ViewOf(s, p))
    ensures Life(Past(s, p))
  {
    hide Life, Past;
  }

  lemma FirstRecord(s: System, p: Peer)
    requires p in s.handling && Past(s, p) == []
    ensures !Life(Past(Do(s, RecordAnswer(p)), p))
  {
    var done := s.(handling := s.handling - {p});
    var state := if s.handling[p].Accepting? then Accepted else Rejected;
    var added := if s.handling[p].Accepting? then done.(starting := s.starting + multiset{p},
                                                        starts := s.starts + multiset{p}) else done;
    NextRecord(added, p, state);
    assert [] + [state] == [state] && [state][0] == state;
    hide SetState;
  }

  lemma NextRecord(s: System, p: Peer, state: TransferState)
    ensures Past(SetState(s, p, state), p) == Past(s, p) + [state]
  {
  }

  /** As long as the transfer is registered, a peer that was offered it and has
      no answer recorded has its offer somewhere. */
  predicate Awaited(s: System, p: Peer) {
    var v := ViewOf(s, p);
    s.registered && (v.recording == Some(Waiting) || (v.recording.None? && v.past == [Waiting])) ==> v.answering == 1
  }

  lemma MoveAwaits(v: View, move: Move)
    requires OnCourse(v) && CanMove(v, move) && !move.Ignored?
    requires v.recording == Some(Waiting) || (v.recording.None? && v.past == [Waiting]) ==> v.answering == 1
    ensures var w := Moved(v, move);
            w.recording == Some(Waiting) || (w.recording.None? && w.past == [Waiting]) ==> w.answering == 1
  {
    if move.Ended? {
      AfterEnded(v, if move.ok then Completed else Failed);
    }
    hide Life, Record;
    match move
    case Recorded => AfterRecorded(v); OneState(v.recording.value);
    case Noted(Accepting) => AfterAcceptance(v);
    case Noted(Rejecting) => AfterRejection(v);
    case Begun => AfterBegun(v);
    case _ =>
  }

  lemma OneState(state: TransferState)
    ensures [state] == [Waiting] <==> state == Waiting
  {
    assert [state][0] == state;
  }

  lemma StepAwaits(s: System, step: Step, p: Peer)
    requires Orderly(s, step) && OnCourse(ViewOf(s, p)) && Awaited(s, p)
    ensures Awaited(Do(s, step), p)
  {
    hide OnCourse, Moved, CanMove, ViewOf;
    StepMoves(s, step, p);
    StaysUnregistered(s, step);
    if Do(s, step).registered {
      MoveAwaits(ViewOf(s, p), MoveOf(s, step, p));
    }
  }

  lemma StaysUnregistered(s: System, step: Step)
    requires Enabled(s, step)
    ensures Do(s, step).registered ==> s.registered
  {
  }

  lemma {:induction false} RunAwaits(s: System, steps: seq<Step>, end: System, p: Peer)
    requires OrderlyRun(s, steps, end) && OnCourse(ViewOf(s, p)) && Awaited(s, p)
    ensures Awaited(end, p)
    decreases |steps|
  {
    hide OnCourse, ViewOf, Do, Enabled, Awaited;
    if steps != [] {
      StepOnCourse(s, steps[0], p);
      StepAwaits(s, steps[0], p);
      RunAwaits(Do(s, steps[0]), steps[1..], end, p);
    }
  }

  lemma {:induction false} OrderlyAppend(s: System, a: seq<Step>, mid: System, b: seq<Step>, end: System)
    requires OrderlyRun(s, a, mid) && OrderlyRun(mid, b, end)
    ensures OrderlyRun(s, a + b, end)
    decreases |a|
  {
    hide Do, Enabled;
    if a == [] {
      assert a + b == b;
    } else {
      assert (a + b)[0] == a[0] && (a + b)[1..] == a[1..] + b;
      OrderlyAppend(Do(s, a[0]), a[1..], mid, b, end);
    }
  }

  /** An answer that has come back is seen and recorded. */
  lemma AnswerRecorded(s: System, p: Peer, answer: Answer) returns (steps: seq<Step>, end: System)
    requires s.registered && p !in s.handling && !(s.fan.Recording? && s.fan.peer == p)
    requires if answer.Accepting? then p in s.accepts else p in s.rejects
    ensures OrderlyRun(s, steps, end)
    ensures Past(end, p) == Past(s, p) + [if answer.Accepting? then Accepted else Rejected]
    ensures end.registered && p !in end.handling && end.fan == s.fan
    ensures end.rejects == if answer.Accepting? then s.rejects else s.rejects - multiset{p}
  {
    var seen := Do(s, SeeAnswer(p, answer));
    end := Do(seen, RecordAnswer(p));
    steps := [SeeAnswer(p, answer), RecordAnswer(p)];
    RunOf(s, steps);
  }

  /** The fan-out records the peer if it is about to. */
  lemma FanOutDone(s: System, p: Peer) returns (steps: seq<Step>, end: System)
    ensures OrderlyRun(s, steps, end)
    ensures end == if s.fan.Recording? && s.fan.peer == p then SetState(s.(fan := Ready), p, s.fan.state) else s
  {
    if s.fan.Recording? && s.fan.peer == p {
      steps, end := [FanRecord], Do(s, FanRecord);
      RunOf(s, steps);
    } else {
      steps, end := [], s;
    }
  }

  /** The outstanding offer is answered, if it is not answered yet ... */
  lemma OfferAnswered(s: System, p: Peer) returns (steps: seq<Step>, end: System)
    requires !Listed(s, p) && p in s.offers
    ensures OrderlyRun(s, steps, end)
    ensures end.rejects == s.rejects + multiset{p} && end.handling == s.handling && end.accepts == s.accepts
    ensures Past(end, p) == Past(s, p) && end.fan == s.fan && end.registered == s.registered
  {
    steps := [Deliver(p), Reject(p)];
    end := Do(Do(s, Deliver(p)), Reject(p));
    RunOf(s, steps);
  }

  /** ... and the answer recorded; a stray rejection is then still to come. */
  lemma AnswerSettled(s: System, p: Peer) returns (steps: seq<Step>, end: System)
    requires s.registered && !(s.fan.Recording? && s.fan.peer == p) && !Listed(s, p)
    requires p in s.offers || p in s.accepts || s.rejects[p] > 1 || p in s.handling
    requires p in s.rejects
    ensures OrderlyRun(s, steps, end)
    ensures Past(end, p) == Past(s, p) + [Accepted] || Past(end, p) == Past(s, p) + [Rejected]
    ensures end.registered && p !in end.handling && end.fan == s.fan && p in end.rejects
  {
    hide Do, OrderlyRun, Past;
    if p in s.handling {
      steps, end := HandledRecorded(s, p);
    } else if p in s.accepts {
      steps, end := AnswerRecorded(s, p, Accepting);
    } else if s.rejects[p] > 1 {
      steps, end := AnswerRecorded(s, p, Rejecting);
    } else {
      var first, mid := OfferAnswered(s, p);
      var second;
      second, end := AnswerRecorded(mid, p, Rejecting);
      steps := first + second;
      OrderlyAppend(s, first, mid, second, end);
    }
  }

  lemma HandledRecorded(s: System, p: Peer) returns (steps: seq<Step>, end: System)
    requires s.registered && !(s.fan.Recording? && s.fan.peer == p) && p in s.handling
    ensures OrderlyRun(s, steps, end)
    ensures Past(end, p) == Past(s, p) + [Accepted] || Past(end, p) == Past(s, p) + [Rejected]
    ensures end.registered && p !in end.handling && end.fan == s.fan && end.rejects == s.rejects
  {
    steps, end := [RecordAnswer(p)], Do(s, RecordAnswer(p));
    RunOf(s, steps);
  }

  ghost predicate CanBreak(s: System, p: Peer) {
    exists steps, end :: OrderlyRun(s, steps, end) && !Life(Past(end, p))
  }

  /** Only Waiting can be followed by a rejection. */
  lemma RejectedAfterWaiting(past: seq<TransferState>)
    ensures Life(past + [Rejected]) ==> past == [Waiting]
  {
    var all := past + [Rejected];
    assert all[|past|] == Rejected && all[..|past|] == past;
    if Life(all) && |past| == 1 {
      assert past == [all[0]];
    }
  }

  lemma TwoAnswers(past: seq<TransferState>, answer: TransferState)
    requires answer == Accepted || answer == Rejected
    ensures !Life(past + [answer] + [Rejected])
  {
    RejectedAfterWaiting(past + [answer]);
    assert (past + [answer])[|past|] == answer;
  }

  /** Where the peer stands when the fan-out is through with it. */
  lemma AfterFanOut(s: System, p: Peer, mid: System)
    requires OnCourse(ViewOf(s, p)) && Awaited(s, p) && s.registered
    requires mid == if s.fan.Recording? && s.fan.peer == p then SetState(s.(fan := Ready), p, s.fan.state) else s
    ensures !(mid.fan.Recording? && mid.fan.peer == p)
    ensures mid == s.(states := mid.states, queue := mid.queue, past := mid.past, fan := mid.fan)
    ensures Past(mid, p) == [Waiting] ==> ViewOf(s, p).answering == 1
  {
    hide Life;
    if s.fan.Recording? && s.fan.peer == p {
      assert Past(s, p) == [] && Past(mid, p) == [s.fan.state];
      OneState(s.fan.state);
    }
  }

  /** A rejection nobody waits for can be recorded over anything. */
  lemma StrayIsRecorded(s: System, p: Peer)
    requires s.registered && !Listed(s, p) && OnCourse(ViewOf(s, p)) && Awaited(s, p)
    ensures CanBreak(Do(s, Reject(p)), p)
  {
    var d := Do(s, Reject(p));
    assert s.pending - {p} == s.pending && s.unanswered - {p} == s.unanswered;
    assert d == s.(rejects := s.rejects + multiset{p});
    var a, mid := FanOutDone(d, p);
    AfterFanOut(s, p, mid.(rejects := s.rejects));
    assert p in mid.rejects;
    var b, done := StrayFollows(s, mid, p);
    OrderlyAppend(d, a, mid, b, done);
  }

  lemma StrayFollows(s: System, mid: System, p: Peer) returns (steps: seq<Step>, end: System)
    requires s.registered && !Listed(s, p) && !(mid.fan.Recording? && mid.fan.peer == p)
    requires mid == s.(states := mid.states, queue := mid.queue, past := mid.past, fan := mid.fan,
                       rejects := s.rejects + multiset{p})
    requires Past(mid, p) == [Waiting] ==> ViewOf(s, p).answering == 1
    ensures OrderlyRun(mid, steps, end) && !Life(Past(end, p))
  {
    var settled := ViewOf(s, p).answering > 0;
    assert settled ==> p in mid.offers || p in mid.accepts || mid.rejects[p] > 1 || p in mid.handling;
    assert !settled ==> p !in mid.handling;
    hide OrderlyRun, Past, Life, Do, ViewOf;
    if settled {
      var first, after := AnswerSettled(mid, p);
      var second;
      second, end := AnswerRecorded(after, p, Rejecting);
      steps := first + second;
      OrderlyAppend(mid, first, after, second, end);
      TwoAnswers(Past(mid, p), Accepted);
      TwoAnswers(Past(mid, p), Rejected);
    } else {
      steps, end := AnswerRecorded(mid, p, Rejecting);
      RejectedAfterWaiting(Past(mid, p));
    }
  }

  // Once the transfer is dropped, answers are ignored.

  /** The state without one of the rejections on their way. */
  function Less(s: System, p: Peer): System { s.(rejects := s.rejects - multiset{p}) }

  /** A dropped transfer, and a peer on its course but for a stray rejection. */
  predicate Stray(s: System, p: Peer) {
    !s.registered && (OnCourse(ViewOf(s, p)) || (p in s.rejects && OnCourse(ViewOf(Less(s, p), p))))
  }

  lemma StrayStep(s: System, step: Step, p: Peer)
    requires Orderly(s, step) && p in s.rejects && step != SeeAnswer(p, Rejecting)
    ensures Orderly(Less(s, p), step) && p in Do(s, step).rejects
    ensures Less(Do(s, step), p) == Do(Less(s, p), step)
  {
    hide SetState;
    match step
    case Reject(q) => OtherRejection(s, q, p);
    case SeeAnswer(q, answer) => OtherAnswer(s, q, answer, p);
    case _ => SilentStep(s, step, p);
  }

  lemma OtherRejection(s: System, q: Peer, p: Peer)
    requires p in s.rejects
    ensures p in Do(s, Reject(q)).rejects && Less(Do(s, Reject(q)), p) == Do(Less(s, p), Reject(q))
  {
    assert s.rejects + multiset{q} - multiset{p} == s.rejects - multiset{p} + multiset{q};
  }

  lemma OtherAnswer(s: System, q: Peer, answer: Answer, p: Peer)
    requires Orderly(s, SeeAnswer(q, answer)) && p in s.rejects && (q != p || answer.Accepting?)
    ensures Orderly(Less(s, p), SeeAnswer(q, answer)) && p in Do(s, SeeAnswer(q, answer)).rejects
    ensures Less(Do(s, SeeAnswer(q, answer)), p) == Do(Less(s, p), SeeAnswer(q, answer))
  {
    assert q != p ==> s.rejects - multiset{q} - multiset{p} == s.rejects - multiset{p} - multiset{q};
  }

  lemma SetStateLess(s: System, q: Peer, state: TransferState, p: Peer)
    ensures Less(SetState(s, q, state), p) == SetState(Less(s, p), q, state)
    ensures SetState(s, q, state).rejects == s.rejects
  {
  }

  lemma RecordingStep(s: System, step: Step, p: Peer)
    requires Orderly(s, step) && p in s.rejects
    requires step.FanRecord? || step.RecordAnswer? || step.BeginSending? || step.EndSending?
    ensures Less(Do(s, step), p) == Do(Less(s, p), step) && Do(s, step).rejects == s.rejects
  {
    hide SetState;
    match step
    case FanRecord => SetStateLess(s.(fan := Ready), s.fan.peer, s.fan.state, p);
    case RecordAnswer(q) =>
      var done := s.(handling := s.handling - {q});
      SetStateLess(done, q, Rejected, p);
      SetStateLess(done.(starting := s.starting + multiset{q}, starts := s.starts + multiset{q}), q, Accepted, p);
    case BeginSending(q) =>
      SetStateLess(s.(starting := s.starting - multiset{q}, sending := s.sending + multiset{q}), q, InProgress, p);
    case EndSending(q, ok) =>
      SetStateLess(s.(sending := s.sending - multiset{q}), q, if ok then Completed else Failed, p);
  }

  lemma LessIsOrderly(s: System, step: Step, p: Peer)
    requires Orderly(s, step) && !step.SeeAnswer?
    ensures Orderly(Less(s, p), step)
  {
  }

  lemma FanOutStep(s: System, step: Step, p: Peer)
    requires Orderly(s, step) && (step.FanWrite? || step.FanSkip?)
    ensures Less(Do(s, step), p) == Do(Less(s, p), step) && Do(s, step).rejects == s.rejects
  {
    match step
    case FanWrite(true) =>
      var q, offers := s.todo[0], s.offers + multiset{s.todo[0]};
      assert Do(s, step) == s.(todo := s.todo[1..], fan := Recording(q, Waiting), offers := offers);
    case FanWrite(false) =>
      assert Do(s, step) == s.(todo := s.todo[1..], fan := Recording(s.todo[0], Disconnected));
    case FanSkip =>
  }

  lemma OfferStep(s: System, step: Step, p: Peer)
    requires Orderly(s, step) && (step.Deliver? || step.Accept? || step.AnswerFails?)
    ensures Less(Do(s, step), p) == Do(Less(s, p), step) && Do(s, step).rejects == s.rejects
  {
    match step
    case Deliver(_) =>
    case Accept(_) =>
    case AnswerFails(_) =>
  }

  lemma DrainStep(s: System, step: Step, p: Peer)
    requires Orderly(s, step) && (step.Report? || step.Take? || step.Check? || step.Delete?)
    ensures Less(Do(s, step), p) == Do(Less(s, p), step) && Do(s, step).rejects == s.rejects
  {
    hide Settled;
  }

  lemma SilentStep(s: System, step: Step, p: Peer)
    requires Orderly(s, step) && p in s.rejects && !step.Reject? && !step.SeeAnswer?
    ensures Orderly(Less(s, p), step) && p in Do(s, step).rejects
    ensures Less(Do(s, step), p) == Do(Less(s, p), step)
  {
    LessIsOrderly(s, step, p);
    hide Do, Orderly;
    if step.FanRecord? || step.RecordAnswer? || step.BeginSending? || step.EndSending? {
      RecordingStep(s, step, p);
    } else if step.Report? || step.Take? || step.Check? || step.Delete? {
      DrainStep(s, step, p);
    } else if step.Deliver? || step.Accept? || step.AnswerFails? {
      OfferStep(s, step, p);
    } else {
      FanOutStep(s, step, p);
    }
  }

  lemma StrayIsSeen(s: System, p: Peer)
    requires Enabled(s, SeeAnswer(p, Rejecting)) && !s.registered
    ensures Do(s, SeeAnswer(p, Rejecting)) == Less(s, p)
  {
  }

  lemma StepStaysStray(s: System, step: Step, p: Peer)
    requires Orderly(s, step) && Stray(s, p)
    ensures Stray(Do(s, step), p)
  {
    hide OnCourse, ViewOf, Do, Less;
    StaysUnregistered(s, step);
    if OnCourse(ViewOf(s, p)) {
      StepOnCourse(s, step, p);
    } else {
      if step == SeeAnswer(p, Rejecting) {
        StrayIsSeen(s, p);
      } else {
        StrayStep(s, step, p);
        StepOnCourse(Less(s, p), step, p);
      }
    }
  }

  lemma {:induction false} RunStaysStray(s: System, steps: seq<Step>, end: System, p: Peer)
    requires OrderlyRun(s, steps, end) && Stray(s, p)
    ensures Life(Past(end, p))
    decreases |steps|
  {
    if steps == [] {
      PastOfView(s, p);
    } else {
      hide Stray, Do, Orderly, Life, Past;
      StepStaysStray(s, steps[0], p);
      RunStaysStray(Do(s, steps[0]), steps[1..], end, p);
    }
  }

  /** A rejection of an offer that is not listed can upset the peer's record
      later on exactly if the transfer has not been dropped by then. */
  lemma StrayRejectionExactly(peers: seq<Peer>, before: seq<Step>, s: System, p: Peer)
    requires forall i, j :: 0 <= i < j < |peers| ==> peers[i] != peers[j]
    requires OrderlyRun(Start(peers), before, s) && !Listed(s, p)
    ensures CanBreak(Do(s, Reject(p)), p) <==> s.registered
  {
    StartOnCourse(peers, p);
    RunOnCourse(Start(peers), before, s, p);
    RunAwaits(Start(peers), before, s, p);
    if s.registered {
      StrayIsRecorded(s, p);
    } else {
      var d := Do(s, Reject(p));
      assert s.rejects + multiset{p} - multiset{p} == s.rejects;
      assert s.pending - {p} == s.pending && s.unanswered - {p} == s.unanswered;
      assert Less(d, p) == s && p in d.rejects;
      hide OrderlyRun, OnCourse, ViewOf, Do, Life, Past;
      forall steps, end | OrderlyRun(d, steps, end) ensures Life(Past(end, p)) {
        RunStaysStray(d, steps, end, p);
      }
    }
  }
}
