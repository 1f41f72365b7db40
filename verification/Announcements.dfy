/** What the host tells about the peers of a transfer, over whole runs: every
    change of state and every report goes through one channel, in order, and the
    transfer is dropped on a last word only, after everybody has been offered it
    (internal/host/host.go:352-383, 417-454,
    internal/transfer/transfer.go:97-139, 206-266). */
module Announcements {
  import opened PeerStates
  import opened Bytes
  import opened Lifecycle

  /** The news a step makes: the outcome of an offer, an answer, the beginning of
      sending, its progress, its end. */
  function News(s: System, step: Step): seq<Message>
    requires Enabled(s, step)
  {
    match step
    case FanRecord => [Message(s.fan.peer, s.fan.state)]
    case RecordAnswer(p) => [Message(p, if s.handling[p].Accepting? then Accepted else Rejected)]
    case BeginSending(p) => [Message(p, InProgress)]
    case Report(p) => [Message(p, InProgress)]
    case EndSending(p, ok) => [Message(p, if ok then Completed else Failed)]
    case _ => []
  }

  /** All news of a run, and the states recorded for one peer in it: all but the
      reports of progress. */
  function AllNews(s: System, steps: seq<Step>): seq<Message>
    decreases |steps|
  {
    if steps == [] || !Enabled(s, steps[0]) then []
    else News(s, steps[0]) + AllNews(Do(s, steps[0]), steps[1..])
  }

  function Recorded(s: System, steps: seq<Step>, p: Peer): seq<TransferState>
    decreases |steps|
  {
    if steps == [] || !Enabled(s, steps[0]) then []
    else Record(s, steps[0], p) + Recorded(Do(s, steps[0]), steps[1..], p)
  }

  function Record(s: System, step: Step, p: Peer): seq<TransferState>
    requires Enabled(s, step)
  {
    var news := News(s, step);
    if !step.Report? && news != [] && news[0].peer == p then [news[0].state] else []
  }

  function Taken(s: System, step: Step): seq<Message>
    requires Enabled(s, step)
  {
    if step.Take? then [s.queue[0]] else []
  }

  /** What the drainer has taken from the channel in a run. */
  function AllTaken(s: System, steps: seq<Step>): seq<Message>
    decreases |steps|
  {
    if steps == [] || !Enabled(s, steps[0]) then []
    else Taken(s, steps[0]) + AllTaken(Do(s, steps[0]), steps[1..])
  }

  lemma StepTells(s: System, step: Step, p: Peer)
    requires Enabled(s, step)
    ensures Taken(s, step) + Do(s, step).queue == s.queue + News(s, step)
    ensures Past(Do(s, step), p) == Past(s, p) + Record(s, step, p)
    ensures step.Take? ==> Do(s, step).drain == Holding(s.queue[0])
  {
    if Changes(step) {
      ChangeTells(s, step, p);
    } else {
      QuietTells(s, step, p);
    }
    hide Do, Record, News;
  }

  /** The steps that record a state. */
  predicate Changes(step: Step) { step.FanRecord? || step.RecordAnswer? || step.BeginSending? || step.EndSending? }

  lemma QuietTells(s: System, step: Step, p: Peer)
    requires Enabled(s, step) && !Changes(step)
    ensures Do(s, step).past == s.past && Record(s, step, p) == []
    ensures Taken(s, step) + Do(s, step).queue == s.queue + News(s, step)
    ensures step.Take? ==> Do(s, step).drain == Holding(s.queue[0])
  {
    if step.Take? || step.Report? {
      hide SetState, Seen;
      assert step.Take? ==> s.queue == [s.queue[0]] + s.queue[1..];
    } else {
      SilentStep(s, step);
      hide Do;
    }
  }

  lemma SilentStep(s: System, step: Step)
    requires Enabled(s, step) && !Changes(step) && !step.Take? && !step.Report?
    ensures Do(s, step).past == s.past && Do(s, step).queue == s.queue
  {
    hide SetState, Settled, IsTerminal;
    if step.SeeAnswer? {
      SeenIsSilent(s, step.peer, step.answer);
    } else {
      hide Seen;
      if step.FanWrite? || step.FanSkip? || step.Check? || step.Delete? {
      } else {
        AnswersAreSilent(s, step);
      }
    }
  }

  lemma SeenIsSilent(s: System, p: Peer, answer: Answer)
    requires Enabled(s, SeeAnswer(p, answer))
    ensures Do(s, SeeAnswer(p, answer)).past == s.past && Do(s, SeeAnswer(p, answer)).queue == s.queue
  {
  }

  lemma AnswersAreSilent(s: System, step: Step)
    requires Enabled(s, step) && (step.Deliver? || step.Accept? || step.Reject? || step.AnswerFails?)
    ensures Do(s, step).past == s.past && Do(s, step).queue == s.queue
  {
  }

  lemma SetTells(s: System, q: Peer, state: TransferState, p: Peer)
    ensures SetState(s, q, state).queue == s.queue + [Message(q, state)]
    ensures Past(SetState(s, q, state), p) == Past(s, p) + if q == p then [state] else []
  {
  }

  lemma ChangeTells(s: System, step: Step, p: Peer)
    requires Enabled(s, step) && Changes(step)
    ensures Do(s, step).queue == s.queue + News(s, step)
    ensures Past(Do(s, step), p) == Past(s, p) + Record(s, step, p)
  {
    hide SetState;
    match step
    case FanRecord => SetTells(s.(fan := Ready), s.fan.peer, s.fan.state, p);
    case RecordAnswer(q) =>
      var done := s.(handling := s.handling - {q});
      SetTells(done.(starting := s.starting + multiset{q}, starts := s.starts + multiset{q}), q, Accepted, p);
      SetTells(done, q, Rejected, p);
    case BeginSending(q) =>
      SetTells(s.(starting := s.starting - multiset{q}, sending := s.sending + multiset{q}), q, InProgress, p);
    case EndSending(q, ok) =>
      SetTells(s.(sending := s.sending - multiset{q}), q, if ok then Completed else Failed, p);
  }

  /** In every run: what the drainer has taken and what is still in the channel
      is, in order, what was in it before and all the news since; and the record
      of each peer is what the news say about it. */
  lemma {:induction false} ToldInOrder(s: System, steps: seq<Step>, end: System, p: Peer)
    requires Run(s, steps, end)
    ensures AllTaken(s, steps) + end.queue == s.queue + AllNews(s, steps)
    ensures Past(end, p) == Past(s, p) + Recorded(s, steps, p)
    decreases |steps|
  {
    hide Do, Enabled, News, Past, Record, Taken;
    if steps != [] {
      var step, t := steps[0], Do(s, steps[0]);
      StepTells(s, step, p);
      ToldInOrder(t, steps[1..], end, p);
      var first := Taken(s, step);
      var rest := AllTaken(t, steps[1..]);
      assert first + rest + end.queue == first + (rest + end.queue) == first + (t.queue + AllNews(t, steps[1..]));
      assert first + (t.queue + AllNews(t, steps[1..])) == first + t.queue + AllNews(t, steps[1..]);
    }
  }

  // ---------- The drop ----------

  /** The peer has said its last word: it has turned the offer down, got all,
      failed, or gone. */
  predicate LastWord(state: TransferState) {
    state == Rejected || state == Completed || state == Failed || state == Disconnected
  }

  /** The drainer looks at a last word, and nobody tracked is still to say one. */
  ghost predicate DecidesToDrop(s: System, step: Step) {
    && step.Check? && s.drain.Holding? && LastWord(s.drain.message.state)
    && s.states != map[] && forall p :: p in s.states ==> LastWord(s.states[p])
  }

  lemma StepDecides(s: System, step: Step)
    requires Enabled(s, step) && s.registered
    ensures !Do(s, step).registered ==> s.drain.Deleting?
    ensures Do(s, step).drain.Deleting? ==> s.drain.Deleting? || DecidesToDrop(s, step)
  {
  }

  /** In every run, if the transfer has been dropped, or is about to be, there was
      a moment at which the drainer looked at a last word and everybody tracked
      had said one. */
  lemma {:induction false} DroppedForAReason(s: System, steps: seq<Step>, end: System) returns (i: nat, mid: System)
    requires Run(s, steps, end) && s.registered && !s.drain.Deleting? && (!end.registered || end.drain.Deleting?)
    ensures i < |steps| && Run(s, steps[..i], mid) && DecidesToDrop(mid, steps[i])
    decreases |steps|
  {
    hide Do, Enabled, DecidesToDrop;
    var next := Do(s, steps[0]);
    StepDecides(s, steps[0]);
    if next.drain.Deleting? {
      i, mid := 0, s;
      assert steps[..0] == [];
    } else {
      i, mid := DroppedForAReason(next, steps[1..], end);
      assert steps[..i + 1][1..] == steps[1..][..i];
      i := i + 1;
    }
  }

  /** From such a moment on the drainer does nothing but drop the transfer. */
  lemma DecisionStands(s: System, step: Step, steps: seq<Step>, end: System)
    requires Enabled(s, step) && DecidesToDrop(s, step) && Run(Do(s, step), steps, end)
    ensures end.drain.Deleting? || end.drain.Done?
    ensures AllTaken(Do(s, step), steps) == []
  {
    TakesNoMore(Do(s, step), steps, end);
  }

  lemma {:induction false} TakesNoMore(s: System, steps: seq<Step>, end: System)
    requires (s.drain.Deleting? || s.drain.Done?) && Run(s, steps, end)
    ensures (end.drain.Deleting? || end.drain.Done?) && AllTaken(s, steps) == []
    decreases |steps|
  {
    if steps != [] {
      StaysDecided(s, steps[0]);
      hide Do, Enabled;
      TakesNoMore(Do(s, steps[0]), steps[1..], end);
    }
  }

  lemma StaysDecided(s: System, step: Step)
    requires (s.drain.Deleting? || s.drain.Done?) && Enabled(s, step)
    ensures (Do(s, step).drain.Deleting? || Do(s, step).drain.Done?) && !step.Take?
  {
  }

  // ---------- Who has been offered it ----------

  /** As long as there is somebody left to offer it to, it is not dropped. */
  predicate OfferedFirst(s: System) { !s.registered ==> s.todo == [] && s.fan.Ready? }

  lemma StepOffersFirst(s: System, step: Step)
    requires OfferedFirst(s) && Enabled(s, step)
    ensures OfferedFirst(Do(s, step))
  {
    hide IsTerminal, Settled;
  }

  /** In every run: when the transfer is dropped, every peer has been offered it,
      unless the offer could not be sealed, and the outcome has been recorded. */
  lemma {:induction false} DroppedAfterOffering(s: System, steps: seq<Step>, end: System)
    requires OfferedFirst(s) && Run(s, steps, end)
    ensures !end.registered ==> end.todo == [] && end.fan.Ready?
    decreases |steps|
  {
    hide Do, Enabled;
    if steps != [] {
      StepOffersFirst(s, steps[0]);
      DroppedAfterOffering(Do(s, steps[0]), steps[1..], end);
    }
  }
}
