/** Whether every file the receiver opens is closed again, in every interleaving
    (internal/receiver/receiver.go:375-453, 483-511, 572-586). */
module WriterLeaks {
  import opened Bytes
  import opened PeerStates
  import opened ReceiverSteps

  /** No transfer has been accepted twice. */
  predicate Distinct(ids: seq<Id>) { forall i, j :: 0 <= i < j < |ids| ==> ids[i] != ids[j] }

  /** The writer is closed, or can still be found, or is about to be closed. */
  ghost predicate Kept(s: System, w: WriterId)
    requires w < |s.ids|
  {
    || w in s.closed
    || (s.ids[w] in s.fileWriters && s.fileWriters[s.ids[w]] == w)
    || s.reader == Forgot(s.ids[w], w)
    || exists call :: call in s.acceptors && s.acceptors[call] == EmptyForgot(s.ids[w], w)
  }

  ghost predicate NoneLost(s: System) {
    && (forall w :: 0 <= w < |s.ids| ==> Kept(s, w))
    && (forall call :: call in s.acceptors && s.acceptors[call].Abandoning? ==> s.acceptors[call].w in s.closed)
  }

  lemma OnlyWriter(s: System, id: Id, v: WriterId, w: WriterId)
    requires Distinct(s.ids) && Of(s.ids, v, id) && Of(s.ids, w, id)
    ensures v == w
  {
  }

  /** Forgetting a transfer loses no writer but its own. */
  lemma ForgetKeepsOthers(s: System, id: Id, w: WriterId, t: System, v: WriterId)
    requires Made(s) && Distinct(s.ids) && Of(s.ids, w, id) && v < |s.ids| && v != w && Kept(s, v)
    requires t.ids == s.ids && t.fileWriters == s.fileWriters - {id} && s.closed <= t.closed
    requires s.reader == Forgot(s.ids[v], v) ==> t.reader == s.reader
    requires forall call :: call in s.acceptors && s.acceptors[call].EmptyForgot? ==>
               call in t.acceptors && t.acceptors[call] == s.acceptors[call]
    ensures Kept(t, v)
  {
    if s.ids[v] in s.fileWriters && s.fileWriters[s.ids[v]] == v && s.ids[v] == id {
      OnlyWriter(s, id, v, w);
    }
  }

  lemma ReaderForgets(s: System, step: Step, v: WriterId)
    requires Enabled(s, step) && Made(s) && Distinct(s.ids) && NoneLost(s) && v < |s.ids|
    requires step.ForgetFinished? || step.ForgetFailed?
    ensures Kept(Do(s, step), v)
  {
    if v != s.reader.w {
      ForgetKeepsOthers(s, s.reader.id, s.reader.w, Do(s, step), v);
    }
  }

  lemma CallForgets(s: System, step: Step, v: WriterId)
    requires Enabled(s, step) && Made(s) && Distinct(s.ids) && NoneLost(s) && v < |s.ids|
    requires step.Abandon? || step.EmptyForget?
    ensures Kept(Do(s, step), v)
  {
    var a := s.acceptors[step.call];
    if v != a.w {
      ForgetKeepsOthers(s, a.id, a.w, Do(s, step), v);
    } else if step.EmptyForget? {
      var t := Do(s, step);
      assert t.acceptors[step.call] == EmptyForgot(t.ids[v], v);
    }
  }

  /** What kept a writer still does. */
  lemma StillKept(s: System, t: System, v: WriterId)
    requires v < |s.ids| && v < |t.ids| && t.ids[v] == s.ids[v] && Kept(s, v) && s.closed <= t.closed
    requires s.ids[v] in s.fileWriters && s.fileWriters[s.ids[v]] == v ==>
               v in t.closed || (s.ids[v] in t.fileWriters && t.fileWriters[s.ids[v]] == v)
    requires s.reader == Forgot(s.ids[v], v) ==> v in t.closed || t.reader == s.reader
    requires forall call :: call in s.acceptors && s.acceptors[call].EmptyForgot? ==>
               s.acceptors[call].w in t.closed || (call in t.acceptors && t.acceptors[call] == s.acceptors[call])
    ensures Kept(t, v)
  {
  }

  lemma FinishKeeps(s: System, step: Step, v: WriterId)
    requires Enabled(s, step) && NoneLost(s) && v < |s.ids|
    requires step.FinishFile? || step.EmptyFinish? || step.Report? || step.EmptyReport? || step.Answer?
    ensures v < |Do(s, step).ids| && Kept(Do(s, step), v)
  {
    assert Kept(s, v);
    hide Kept;
    StillKept(s, Do(s, step), v);
  }

  lemma AcceptKeeps(s: System, step: Step, v: WriterId)
    requires Enabled(s, step) && step.Accept? && Made(s) && NoneLost(s) && Distinct(Do(s, step).ids)
    requires v < |Do(s, step).ids|
    ensures Kept(Do(s, step), v)
  {
    var t := Do(s, step);
    if v < |s.ids| {
      assert Kept(s, v);
      hide Kept;
      assert t.ids[v] == s.ids[v];
      assert step.made ==> t.ids[v] != t.ids[|s.ids|];
      StillKept(s, t, v);
    }
  }

  lemma OtherKeeps(s: System, step: Step, v: WriterId)
    requires Enabled(s, step) && NoneLost(s) && v < |s.ids|
    requires step.OfferArrives? || step.Lookup? || step.WriteChunk? || step.TellProgress? || step.ConnectionEnds?
             || step.Reject? || step.CloseAll?
    ensures v < |Do(s, step).ids| && Kept(Do(s, step), v)
  {
    hide IsTerminal;
    assert Kept(s, v);
    hide Kept;
    StillKept(s, Do(s, step), v);
  }

  lemma AbandonedStayClosed(s: System, step: Step)
    requires Enabled(s, step) && NoneLost(s)
    ensures forall call :: call in Do(s, step).acceptors && Do(s, step).acceptors[call].Abandoning? ==>
              Do(s, step).acceptors[call].w in Do(s, step).closed
  {
    hide Kept;
  }

  lemma StepLosesNone(s: System, step: Step)
    requires Enabled(s, step) && Made(s) && NoneLost(s) && Distinct(Do(s, step).ids)
    ensures NoneLost(Do(s, step))
  {
    AbandonedStayClosed(s, step);
    StepIds(s, step);
    hide Do, Kept, Enabled;
    var t := Do(s, step);
    assert Distinct(s.ids) by {
      assert forall i :: 0 <= i < |s.ids| ==> t.ids[i] == s.ids[i];
    }
    forall v | 0 <= v < |t.ids| ensures Kept(t, v) {
      if step.Accept? {
        AcceptKeeps(s, step, v);
      } else if step.ForgetFinished? || step.ForgetFailed? {
        ReaderForgets(s, step, v);
      } else if step.Abandon? || step.EmptyForget? {
        CallForgets(s, step, v);
      } else if step.FinishFile? || step.EmptyFinish? || step.Report? || step.EmptyReport? || step.Answer? {
        FinishKeeps(s, step, v);
      } else {
        OtherKeeps(s, step, v);
      }
    }
  }

  lemma {:induction false} RunLosesNone(s: System, steps: seq<Step>, end: System)
    requires Run(s, steps, end) && Invariant(s) && NoneLost(s) && Distinct(end.ids)
    ensures NoneLost(end)
    decreases |steps|
  {
    hide Do, Enabled, Invariant, NoneLost, Distinct;
    if steps != [] {
      var next := Do(s, steps[0]);
      StepKeeps(s, steps[0]);
      assert Made(s) by { InvariantMade(s); }
      RunGrows(next, steps[1..], end);
      PrefixDistinct(next.ids, end.ids);
      StepLosesNone(s, steps[0]);
      RunLosesNone(next, steps[1..], end);
    }
  }

  lemma InvariantMade(s: System)
    requires Invariant(s)
    ensures Made(s)
  {
  }

  lemma PrefixDistinct(a: seq<Id>, b: seq<Id>)
    requires a <= b && Distinct(b)
    ensures Distinct(a)
  {
  }

  lemma {:induction false} RunGrows(s: System, steps: seq<Step>, end: System)
    requires Run(s, steps, end)
    ensures s.ids <= end.ids && s.closed <= end.closed
    decreases |steps|
  {
    hide Do, Enabled;
    if steps != [] {
      StepIds(s, steps[0]);
      StepCloses(s, steps[0]);
      RunGrows(Do(s, steps[0]), steps[1..], end);
    }
  }

  lemma StepCloses(s: System, step: Step)
    requires Enabled(s, step)
    ensures s.closed <= Do(s, step).closed
  {
  }

  /** Nobody is in the middle of anything. */
  predicate AtRest(s: System) { (s.reader.Idle? || s.reader.Stopped?) && s.acceptors == map[] }

  /** A writer that is open and that nothing leads to any more. */
  predicate Leaked(s: System, w: WriterId) {
    w < |s.ids| && w !in s.closed && !Registered(s, w)
  }

  /** In every interleaving in which no transfer is accepted twice, no writer is
      lost: at rest, each one is closed or can be found under its transfer; and
      when the receiver is closed, all are closed. */
  lemma NoneLeaks(steps: seq<Step>, end: System, w: WriterId)
    requires Run(START, steps, end) && Distinct(end.ids) && AtRest(end)
    ensures !Leaked(end, w)
    ensures w < |end.ids| ==> w in Do(end, CloseAll).closed
  {
    RunLosesNone(START, steps, end);
    if w < |end.ids| {
      assert Kept(end, w);
    }
  }

  /** A transfer is offered again and accepted again. */
  lemma OnceMore(s: System, id: Id, size: int) returns (t: System)
    requires Reachable(s) && s.reader.Idle? && s.acceptors == map[] && s.offers == map[] && size != 0
    ensures Reachable(t)
    ensures t == s.(fileWriters := s.fileWriters[id := |s.sizes|], savePaths := s.savePaths + {id},
                    ids := s.ids + [id], sizes := s.sizes + [size])
  {
    var offer, a, b, c :=
        Offer(size, false), OfferArrives(id, Offer(size, false)), Accept(0, id, true), Answer(0, true);
    Reach(s, a);
    t := Do(s, a);
    hide Reachable;
    Reach(t, b);
    t := Do(t, b);
    assert t.acceptors == map[0 := Answering(id, |s.sizes|)] && t.offers == map[];
    Reach(t, c);
    t := Do(t, c);
    assert t.acceptors == map[];
  }

  /** One transfer after the other is offered and accepted, some again. */
  ghost predicate AcceptedInTurn(s: System, ids: seq<Id>) {
    && Reachable(s) && s.reader.Idle? && s.acceptors == map[] && s.offers == map[] && s.closed == {}
    && s.ids == ids && |s.sizes| == |ids|
    && forall id :: id in s.fileWriters ==> LastOf(ids, id, s.fileWriters[id])
  }

  predicate LastOf(ids: seq<Id>, id: Id, w: WriterId) {
    w < |ids| && ids[w] == id && forall k :: w < k < |ids| ==> ids[k] != id
  }

  lemma {:induction false} AcceptInTurn(ids: seq<Id>) returns (s: System)
    ensures AcceptedInTurn(s, ids)
    decreases |ids|
  {
    hide Run;
    if ids == [] {
      NoStep();
      s := START;
    } else {
      var before, id := ids[..|ids| - 1], ids[|ids| - 1];
      var s0 := AcceptInTurn(before);
      s := OnceMore(s0, id, 1);
      hide Reachable;
      forall other | other in s.fileWriters ensures LastOf(ids, other, s.fileWriters[other]) {
        if other != id {
          assert LastOf(before, other, s0.fileWriters[other]);
          assert forall k :: 0 <= k < |before| ==> before[k] == ids[k];
        }
      }
    }
  }

  lemma NoStep()
    ensures Reachable(START)
  {
    assert Run(START, [], START);
  }

  /** No run that accepts these transfers ever loses a writer. */
  ghost predicate NeverLeaks(ids: seq<Id>) {
    forall s, w: WriterId :: Reachable(s) && AtRest(s) && s.ids == ids ==> !Leaked(s, w)
  }

  /** Writers are never lost exactly if no transfer is accepted twice: one that is
      offered and accepted again while it is under way loses its first writer,
      and nothing closes it any more, not even closing the receiver. */
  lemma LeaksExactly(ids: seq<Id>)
    ensures NeverLeaks(ids) <==> Distinct(ids)
    ensures !Distinct(ids) ==> exists s, w :: Reachable(s) && AtRest(s) && s.ids == ids && Leaked(s, w)
                                              && w !in Do(s, CloseAll).closed
  {
    if Distinct(ids) {
      forall s, w: WriterId | Reachable(s) && AtRest(s) && s.ids == ids ensures !Leaked(s, w) {
        var steps :| Run(START, steps, s);
        NoneLeaks(steps, s, w);
      }
    } else {
      var i, j :| 0 <= i < j < |ids| && ids[i] == ids[j];
      var s := AcceptInTurn(ids);
      hide Reachable;
      assert Leaked(s, i) && i !in Do(s, CloseAll).closed;
    }
  }

  /** Once the receiver has been closed, no writer it had can be written to or
      finished, whatever was under way. */
  lemma NothingAfterClose(s: System, steps: seq<Step>, end: System, w: WriterId, upTo: nat, call: nat)
    requires Run(Do(s, CloseAll), steps, end) && w in s.fileWriters.Values
    ensures end.reader.Found? && end.reader.w == w ==> !Enabled(end, WriteChunk(true, upTo))
    ensures end.reader.Forgot? && end.reader.w == w ==> !Enabled(end, FinishFile(true))
    ensures call in end.acceptors && end.acceptors[call].EmptyForgot? && end.acceptors[call].w == w ==>
              !Enabled(end, EmptyFinish(call, true))
  {
    RunGrows(Do(s, CloseAll), steps, end);
    assert w in end.closed;
  }
}
