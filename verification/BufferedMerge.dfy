/** Senders behind buffered writers and others sharing one connection: the
    emissions of `bufio.Writer` under the peer's write mutex
    (internal/host/host.go:46-64, internal/transfer/transfer.go:209-242). */
module BufferedMerge {
  import opened Bytes
  import opened Protocol
  import opened BufferedWriter
  import opened ChunkCodec
  import opened Cipher
  import opened Transfer
  import opened FrameMerge
  import opened Interruption

  /** What each writer puts on the connection, one byte string per hold. */
  type Holds = seq<seq<seq<byte>>>

  /** A sender writes through a buffer and holds the mutex for one emission at
      a time; other writers hold it for one frame. */
  datatype Source = Stream(size: nat, budget: nat, frames: seq<Frame>) | Messages(frames: seq<Frame>)
  {
    function Holds(): seq<seq<byte>> {
      match this
      case Stream(size, budget, frames) =>
        PutFramesAccepts(NewState(size, budget, 0), frames);
        Flush(PutFrames(NewState(size, budget, 0), frames)).emitted
      case Messages(frames) => Singles(frames)
    }

    /** Its frames can be encoded and its connection takes all of them. */
    ghost predicate Succeeds() {
      AllFit(frames) && (Stream? ==> SendCost(size, 0, frames) <= budget)
    }

    ghost predicate Whole() {
      Stream? ==> Unsplit(size, 0, frames)
    }
  }

  function Singles(fs: seq<Frame>): (holds: seq<seq<byte>>)
    ensures |holds| == |fs| && forall i :: 0 <= i < |fs| ==> holds[i] == EncodeFrame(fs[i])
  {
    if fs == [] then [] else [EncodeFrame(fs[0])] + Singles(fs[1..])
  }

  function AllHolds(sources: seq<Source>): (holds: Holds)
    ensures |holds| == |sources| && forall i :: 0 <= i < |sources| ==> holds[i] == sources[i].Holds()
  {
    if sources == [] then [] else [sources[0].Holds()] + AllHolds(sources[1..])
  }

  /** The bytes on the connection. */
  function BytesOf(holds: Holds, schedule: seq<nat>): seq<byte>
    requires Schedulable(holds, schedule)
    decreases |schedule|
  {
    if schedule == [] then []
    else holds[schedule[0]][0] + BytesOf(Advance(holds, schedule[0]), schedule[1..])
  }

  /** The frames are those of all writers, each writer's in its order. */
  ghost predicate IsMerge(frames: seq<Frame>, sources: seq<Source>) {
    exists sent :: MergedFrom(sent, frames, sources)
  }

  ghost predicate MergedFrom(sent: seq<Sent>, frames: seq<Frame>, sources: seq<Source>) {
    && Frames(sent) == frames
    && (forall p :: 0 <= p < |sent| ==> sent[p].writer < |sources|)
    && (forall j :: 0 <= j < |sources| ==> From(sent, j) == sources[j].frames)
  }

  // ---------- Whole emissions merge ----------

  function Runs(holds: seq<seq<byte>>): (runs: seq<seq<Frame>>)
    ensures |runs| == |holds| && forall h :: 0 <= h < |holds| ==> runs[h] == ParseFrames(holds[h])
  {
    if holds == [] then [] else [ParseFrames(holds[0])] + Runs(holds[1..])
  }

  function AllRuns(holds: Holds): (queues: Queues)
    ensures |queues| == |holds| && forall i :: 0 <= i < |holds| ==> queues[i] == Runs(holds[i])
  {
    if holds == [] then [] else [Runs(holds[0])] + AllRuns(holds[1..])
  }

  ghost predicate AllHoldsWhole(holds: Holds) {
    forall i :: 0 <= i < |holds| ==> AllWhole(holds[i])
  }

  lemma WholeHold(hold: seq<byte>)
    requires WholeFrames(hold)
    ensures AllFit(ParseFrames(hold)) && EncodeFrames(ParseFrames(hold)) == hold
  {
    WholeFramesIffNothingLeft(hold);
    StreamIsParsedFrames(hold);
    assert EncodeFrames(ParseFrames(hold)) + [] == EncodeFrames(ParseFrames(hold));
  }

  lemma {:induction false} WholeHoldsConcat(holds: seq<seq<byte>>)
    requires AllWhole(holds)
    ensures AllFit(Concat(Runs(holds))) && EncodeFrames(Concat(Runs(holds))) == Flatten(holds)
  {
    hide ParseFrames, EncodeFrames, WholeFrames;
    if holds == [] {
      EmptyEncodes();
    } else {
      assert WholeFrames(holds[0]);
      WholeHold(holds[0]);
      assert AllWhole(holds[1..]) by {
        assert forall i :: 0 <= i < |holds| - 1 ==> holds[1..][i] == holds[i + 1];
      }
      WholeHoldsConcat(holds[1..]);
      assert Runs(holds)[1..] == Runs(holds[1..]);
      EncodeFramesAppend(ParseFrames(holds[0]), Concat(Runs(holds[1..])));
    }
  }

  lemma EmptyEncodes()
    ensures EncodeFrames([]) == [] && AllFit([])
  {
  }

  lemma AdvanceRuns(holds: Holds, i: nat)
    requires i < |holds| && holds[i] != []
    ensures AllRuns(Advance(holds, i)) == Advance(AllRuns(holds), i)
  {
    hide ParseFrames;
    RunsTail(holds[i]);
    var a, b := AllRuns(Advance(holds, i)), Advance(AllRuns(holds), i);
    forall j | 0 <= j < |holds| ensures a[j] == b[j] {
    }
  }

  lemma RunsTail(holds: seq<seq<byte>>)
    requires holds != []
    ensures Runs(holds[1..]) == Runs(holds)[1..]
  {
    hide ParseFrames;
  }

  lemma AdvanceWhole(holds: Holds, i: nat)
    requires i < |holds| && holds[i] != [] && AllHoldsWhole(holds)
    ensures AllHoldsWhole(Advance(holds, i)) && WholeFrames(holds[i][0])
  {
    hide WholeFrames;
    assert AllWhole(holds[i]);
    assert AllWhole(holds[i][1..]) by {
      assert forall h :: 0 <= h < |holds[i]| - 1 ==> holds[i][1..][h] == holds[i][h + 1];
    }
  }

  /** Whole holds are runs of frames, and schedules of the one are schedules of
      the other. */
  lemma {:induction false} WholeHoldsAreRuns(holds: Holds, schedule: seq<nat>)
    requires Schedulable(holds, schedule) && AllHoldsWhole(holds)
    ensures Schedulable(AllRuns(holds), schedule)
    ensures WireOf(AllRuns(holds), schedule) == BytesOf(holds, schedule)
    decreases |schedule|
  {
    hide AllHoldsWhole, Advance, AllRuns, ParseFrames, EncodeFrames;
    if schedule != [] {
      var i := schedule[0];
      AdvanceRuns(holds, i);
      AdvanceWhole(holds, i);
      WholeHoldsAreRuns(Advance(holds, i), schedule[1..]);
      WholeHold(holds[i][0]);
      FirstRun(holds, i);
    }
  }

  lemma FirstRun(holds: Holds, i: nat)
    requires i < |holds| && holds[i] != []
    ensures |AllRuns(holds)| == |holds| && AllRuns(holds)[i] != [] && AllRuns(holds)[i][0] == ParseFrames(holds[i][0])
  {
    hide ParseFrames;
  }

  lemma RunsFit(holds: Holds)
    requires AllHoldsWhole(holds)
    ensures AllRunsFit(AllRuns(holds))
  {
    hide ParseFrames, WholeFrames, AllFit;
    forall i, h | 0 <= i < |holds| && 0 <= h < |holds[i]| ensures AllFit(AllRuns(holds)[i][h]) {
      assert AllWhole(holds[i]);
      WholeHold(holds[i][h]);
    }
  }

  /** What a source holds, put together, is its frames. */
  lemma SourceHolds(source: Source)
    requires source.Succeeds()
    ensures Flatten(source.Holds()) == EncodeFrames(source.frames)
  {
    match source
    case Stream(size, budget, frames) =>
      hide PutFrames, Flush, SendCost, EncodeFrames, Flatten;
      SendCostExactly(NewState(size, budget, 0), frames);
      FlushedFrames(NewState(size, budget, 0), frames);
    case Messages(frames) =>
      SinglesFlatten(frames);
  }

  lemma {:induction false} SinglesFlatten(fs: seq<Frame>)
    ensures Flatten(Singles(fs)) == EncodeFrames(fs)
  {
    hide EncodeFrame;
    if fs != [] {
      SinglesFlatten(fs[1..]);
      assert Singles(fs)[1..] == Singles(fs[1..]);
    }
  }

  lemma SourceIsWhole(source: Source)
    requires source.Succeeds()
    ensures AllWhole(source.Holds()) <==> source.Whole()
  {
    hide WholeFrames, PutFrames, Flush, SendCost, Unsplit;
    match source
    case Stream(size, budget, frames) =>
      SendCostExactly(NewState(size, budget, 0), frames);
      LockedWriterExactly(size, budget, 0, frames);
    case Messages(frames) =>
      SinglesAreWhole(frames);
  }

  lemma SinglesAreWhole(fs: seq<Frame>)
    requires AllFit(fs)
    ensures AllWhole(Singles(fs))
  {
    hide EncodeFrame, WholeFrames;
    forall i | 0 <= i < |fs| ensures WholeFrames(Singles(fs)[i]) {
      NothingIsWhole();
      WholeAppend([], fs[i]);
      assert [] + EncodeFrame(fs[i]) == EncodeFrame(fs[i]);
    }
  }

  lemma RunsOfSource(source: Source)
    requires source.Succeeds() && source.Whole()
    ensures AllWhole(source.Holds()) && Concat(Runs(source.Holds())) == source.frames
  {
    hide WholeFrames, Unsplit, EncodeFrames;
    SourceIsWhole(source);
    SourceHolds(source);
    WholeHoldsConcat(source.Holds());
    UniqueDecomposition(Concat(Runs(source.Holds())), source.frames);
  }

  /** As long as no sender's frame straddles an emission of its buffer, the
      connection carries, under every schedule of any number of senders and
      other writers, an order-preserving merge of all their frames. */
  lemma UnsplitSourcesMerge(sources: seq<Source>, schedule: seq<nat>)
    requires forall i :: 0 <= i < |sources| ==> sources[i].Succeeds() && sources[i].Whole()
    requires Schedulable(AllHolds(sources), schedule) && Finished(AllHolds(sources), schedule)
    ensures var wire := BytesOf(AllHolds(sources), schedule);
            IsMerge(ParseFrames(wire), sources) && Leftover(wire) == []
  {
    hide ParseFrames, Leftover, WholeFrames, Concat, Schedulable, Merged, Frames, From, Turns, AllWhole, Runs;
    var holds := AllHolds(sources);
    forall i | 0 <= i < |sources| ensures AllWhole(holds[i]) && Concat(Runs(holds[i])) == sources[i].frames {
      RunsOfSource(sources[i]);
    }
    var queues := AllRuns(holds);
    WholeHoldsAreRuns(holds, schedule);
    RunsFit(holds);
    WireParsesToMerge(queues, schedule);
    var sent := Merged(queues, schedule);
    forall p | 0 <= p < |sent| ensures sent[p].writer < |sources| {
      WritersAreQueues(queues, schedule, p);
    }
    RunsAreFinished(holds, schedule);
    forall j | 0 <= j < |sources| ensures From(sent, j) == sources[j].frames {
      FinishedSends(queues, schedule, j);
    }
    assert MergedFrom(sent, ParseFrames(BytesOf(holds, schedule)), sources);
  }

  lemma RunsAreFinished(holds: Holds, schedule: seq<nat>)
    requires Finished(holds, schedule)
    ensures Finished(AllRuns(holds), schedule)
  {
    hide ParseFrames;
  }

  // ---------- A split frame does not ----------

  /** Before frame `m` is through, `cut` bytes of it have gone out. */
  lemma SplitPoint(fs: seq<Frame>, n: nat) returns (m: nat, cut: nat)
    requires AllFit(fs) && n <= |EncodeFrames(fs)| && !WholeFrames(EncodeFrames(fs)[..n])
    ensures m < |fs| && 0 < cut < |EncodeFrame(fs[m])|
    ensures EncodeFrames(fs)[..n] == EncodeFrames(fs[..m]) + EncodeFrame(fs[m])[..cut]
    ensures EncodeFrames(fs)[n..] == EncodeFrame(fs[m])[cut..] + EncodeFrames(fs[m + 1..])
  {
    hide EncodeFrame, ParseFrame, ParseFrames, WholeFrames, Leftover;
    var piece := EncodeFrames(fs)[..n];
    m := CutStreamParsesToPrefix(fs, n);
    StreamIsParsedFrames(piece);
    WholeFramesIffNothingLeft(piece);
    var left := Leftover(piece);
    assert fs[..|fs|] == fs;
    assert |piece| == |EncodeFrames(fs[..m])| + |left|;
    assert m < |fs|;
    var f, before, after := fs[m], EncodeFrames(fs[..m]), EncodeFrames(fs[m + 1..]);
    EncodeSplit(fs, m);
    cut := |left|;
    var whole := EncodeFrames(fs);
    assert whole[..n] == before + left && whole == before + (EncodeFrame(f) + after);
    assert whole[|before|..] == EncodeFrame(f) + after;
    assert left == whole[..n][|before|..] == whole[|before|..][..cut];
    ShortOfFrame(f, left, after);
    assert left == EncodeFrame(f)[..cut];
    assert whole[n..] == whole[|before|..][cut..] == EncodeFrame(f)[cut..] + after;
  }

  /** Bytes on which no frame can be read end before the next frame does. */
  lemma ShortOfFrame(f: Frame, left: seq<byte>, after: seq<byte>)
    requires Fits(f) && left <= EncodeFrame(f) + after && ParseFrame(left) == Error
    ensures |left| < |EncodeFrame(f)|
  {
    hide EncodeFrame, ParseFrame;
    var n := |EncodeFrame(f)|;
    if |left| >= n {
      assert left[..n] == (EncodeFrame(f) + after)[..n] == EncodeFrame(f);
      assert left == EncodeFrame(f) + left[n..];
      ParseEncodedFrame(f, left[n..]);
    }
  }

  lemma EncodeSplit(fs: seq<Frame>, m: nat)
    requires m < |fs|
    ensures EncodeFrames(fs) == EncodeFrames(fs[..m]) + (EncodeFrame(fs[m]) + EncodeFrames(fs[m + 1..]))
  {
    hide EncodeFrame;
    assert fs == fs[..m] + fs[m..] && fs[m..][0] == fs[m] && fs[m..][1..] == fs[m + 1..];
    EncodeFramesAppend(fs[..m], fs[m..]);
  }

  // ---------- Exactly ----------

  lemma {:induction false} AllFromOne(sent: seq<Sent>)
    requires forall q :: 0 <= q < |sent| ==> sent[q].writer < 2
    requires From(sent, 1) == []
    ensures Frames(sent) == From(sent, 0)
  {
    if sent != [] {
      AllFromOne(sent[1..]);
    }
  }

  /** A merge of some frames with a single one puts it in somewhere. */
  lemma {:induction false} MergeInserts(sent: seq<Sent>, fs: seq<Frame>, g: Frame) returns (p: nat)
    requires forall q :: 0 <= q < |sent| ==> sent[q].writer < 2
    requires From(sent, 0) == fs && From(sent, 1) == [g]
    ensures p <= |fs| && Frames(sent) == Inserted(fs, p, g)
  {
    hide From, Frames;
    FromNone();
    assert sent != [];
    var rest := sent[1..];
    FromCons(sent, 0);
    FromCons(sent, 1);
    if sent[0].writer == 1 {
      assert [sent[0].frame] + From(rest, 1) == [g];
      assert From(rest, 1) == [] && [] + From(rest, 0) == fs;
      AllFromOne(rest);
      p := 0;
    } else {
      assert fs == [sent[0].frame] + From(rest, 0);
      assert From(rest, 0) == fs[1..] && [] + From(rest, 1) == [g];
      p := MergeInserts(rest, fs[1..], g);
      InsertedCons(fs, p, g);
      p := p + 1;
    }
  }

  lemma FromNone()
    ensures From([], 0) == From([], 1) == []
  {
  }

  lemma FromCons(sent: seq<Sent>, i: nat)
    requires sent != []
    ensures From(sent, i) == (if sent[0].writer == i then [sent[0].frame] else []) + From(sent[1..], i)
    ensures Frames(sent) == [sent[0].frame] + Frames(sent[1..])
  {
  }

  lemma InsertedCons(fs: seq<Frame>, p: nat, g: Frame)
    requires fs != [] && p < |fs|
    ensures Inserted(fs, p + 1, g) == [fs[0]] + Inserted(fs[1..], p, g)
  {
  }

  /** One sender and any number of others that write frames of a given kind,
      under any schedule. */
  ghost predicate AlwaysMerges(sender: Source, frames: iset<Frame>) {
    forall others: seq<seq<Frame>>, schedule: seq<nat> ::
      AllAmong(others, frames) && Complete([sender] + AllMessages(others), schedule) ==>
        Merges([sender] + AllMessages(others), schedule)
  }

  ghost predicate Complete(sources: seq<Source>, schedule: seq<nat>) {
    Schedulable(AllHolds(sources), schedule) && Finished(AllHolds(sources), schedule)
  }

  ghost predicate Merges(sources: seq<Source>, schedule: seq<nat>) {
    && Schedulable(AllHolds(sources), schedule)
    && IsMerge(ParseFrames(BytesOf(AllHolds(sources), schedule)), sources)
    && Leftover(BytesOf(AllHolds(sources), schedule)) == []
  }

  ghost predicate AllAmong(others: seq<seq<Frame>>, frames: iset<Frame>) {
    forall i :: 0 <= i < |others| ==> AllFit(others[i]) && forall h :: 0 <= h < |others[i]| ==> others[i][h] in frames
  }

  function AllMessages(others: seq<seq<Frame>>): (sources: seq<Source>)
    ensures |sources| == |others| && forall i :: 0 <= i < |others| ==> sources[i] == Messages(others[i])
  {
    if others == [] then [] else [Messages(others[0])] + AllMessages(others[1..])
  }

  /** The first `i + 1` emissions, then the intruder, then the rest. */
  function Interrupting(i: nat, n: nat): seq<nat>
    requires i < n
  {
    Zeroes(i + 1) + [1] + Zeroes(n - i - 1)
  }

  function Zeroes(n: nat): (z: seq<nat>)
    ensures |z| == n
  {
    if n == 0 then [] else [0] + Zeroes(n - 1)
  }

  lemma {:induction false} RunOfZeroes(holds: Holds, n: nat, rest: seq<nat>)
    requires |holds| == 2 && n <= |holds[0]|
    requires Schedulable([holds[0][n..], holds[1]], rest)
    ensures Schedulable(holds, Zeroes(n) + rest)
    ensures BytesOf(holds, Zeroes(n) + rest) == Flatten(holds[0][..n]) + BytesOf([holds[0][n..], holds[1]], rest)
    decreases n
  {
    if n == 0 {
      assert Flatten(holds[0][..0]) == [];
      hide Flatten;
      assert Zeroes(0) + rest == rest && holds == [holds[0][0..], holds[1]];
    } else {
      var next: Holds := [holds[0][1..], holds[1]];
      assert holds[0][1..][n - 1..] == holds[0][n..];
      RunOfZeroes(next, n - 1, rest);
      assert Zeroes(n) + rest == [0] + (Zeroes(n - 1) + rest);
      ZeroFirst(holds, Zeroes(n - 1) + rest);
      FlattenTake(holds[0], n);
      hide Flatten, BytesOf, Schedulable, Zeroes;
    }
  }

  lemma ZeroFirst(holds: Holds, rest: seq<nat>)
    requires |holds| == 2 && holds[0] != [] && Schedulable([holds[0][1..], holds[1]], rest)
    ensures Schedulable(holds, [0] + rest)
    ensures BytesOf(holds, [0] + rest) == holds[0][0] + BytesOf([holds[0][1..], holds[1]], rest)
  {
    assert Advance(holds, 0) == [holds[0][1..], holds[1]];
    assert ([0] + rest)[1..] == rest;
  }

  lemma FlattenTake(es: seq<seq<byte>>, n: nat)
    requires 0 < n <= |es|
    ensures Flatten(es[..n]) == es[0] + Flatten(es[1..][..n - 1])
  {
    assert es[..n][1..] == es[1..][..n - 1];
  }

  lemma {:induction false} TurnsAppend(a: seq<nat>, b: seq<nat>, i: nat)
    ensures Turns(a + b, i) == Turns(a, i) + Turns(b, i)
  {
    if a == [] {
      assert a + b == b;
    } else {
      assert (a + b)[0] == a[0] && (a + b)[1..] == a[1..] + b;
      TurnsAppend(a[1..], b, i);
    }
  }

  lemma {:induction false} TurnsOfZeroes(n: nat)
    ensures Turns(Zeroes(n), 0) == n && Turns(Zeroes(n), 1) == 0
  {
    if n > 0 {
      TurnsOfZeroes(n - 1);
      assert Zeroes(n)[1..] == Zeroes(n - 1);
    }
  }

  lemma InterruptedBytes(es: seq<seq<byte>>, g: seq<byte>, i: nat)
    requires i < |es|
    ensures var holds := [es, [g]];
            && Schedulable(holds, Interrupting(i, |es|)) && Finished(holds, Interrupting(i, |es|))
            && BytesOf(holds, Interrupting(i, |es|)) == Flatten(es[..i + 1]) + g + Flatten(es[i + 1..])
  {
    hide Flatten;
    var holds: Holds := [es, [g]];
    var n := |es| - i - 1;
    var before: Holds := [es[i + 1..], [g]];
    IntruderThenRest(es[i + 1..], g);
    RunOfZeroes(holds, i + 1, [1] + Zeroes(n));
    assert Interrupting(i, |es|) == Zeroes(i + 1) + ([1] + Zeroes(n));
    TurnsOfInterrupting(i, |es|);
  }

  lemma RestOnly(es: seq<seq<byte>>)
    ensures var holds: Holds := [es, []];
            && Schedulable(holds, Zeroes(|es|))
            && BytesOf(holds, Zeroes(|es|)) == Flatten(es)
  {
    hide Flatten;
    var holds: Holds := [es, []];
    var done: Holds := [es[|es|..], []];
    assert Schedulable(done, []) && BytesOf(done, []) == [];
    RunOfZeroes(holds, |es|, []);
    assert es[..|es|] == es && Zeroes(|es|) + [] == Zeroes(|es|) && Flatten(es) + [] == Flatten(es);
  }

  lemma IntruderThenRest(es: seq<seq<byte>>, g: seq<byte>)
    ensures var holds: Holds := [es, [g]];
            && Schedulable(holds, [1] + Zeroes(|es|))
            && BytesOf(holds, [1] + Zeroes(|es|)) == g + Flatten(es)
  {
    hide Flatten, Zeroes;
    var holds: Holds := [es, [g]];
    RestOnly(es);
    var after := Advance(holds, 1);
    assert after == [es, []] by {
      assert [g][1..] == [] && holds[1][1..] == [];
    }
    var schedule := [1] + Zeroes(|es|);
    assert schedule[0] == 1 && schedule[1..] == Zeroes(|es|);
    hide Advance;
  }

  lemma TurnsOfInterrupting(i: nat, n: nat)
    requires i < n
    ensures Turns(Interrupting(i, n), 0) == n && Turns(Interrupting(i, n), 1) == 1
  {
    TurnsOfZeroes(i + 1);
    TurnsOfZeroes(n - i - 1);
    forall w: nat | w < 2 ensures Turns(Interrupting(i, n), w) == (if w == 0 then n else 1) {
      TurnsAppend(Zeroes(i + 1) + [1], Zeroes(n - i - 1), w);
      TurnsAppend(Zeroes(i + 1), [1], w);
      assert Turns([1], w) == (if w == 1 then 1 else 0) + Turns([], w);
    }
  }

  /** The first emission that is not a run of frames, and what is out by then. */
  lemma FirstSplit(es: seq<seq<byte>>, fs: seq<Frame>) returns (i: nat)
    requires !AllWhole(es) && Flatten(es) == EncodeFrames(fs)
    ensures i < |es| && !WholeFrames(Flatten(es[..i + 1])) && |Flatten(es[..i + 1])| <= |EncodeFrames(fs)|
    ensures Flatten(es[..i + 1]) + Flatten(es[i + 1..]) == EncodeFrames(fs)
  {
    hide WholeFrames, EncodeFrames;
    i := 0;
    NothingIsWhole();
    while i < |es| && WholeFrames(es[i])
      invariant i <= |es| && WholeFrames(Flatten(es[..i]))
      invariant forall h :: 0 <= h < i ==> WholeFrames(es[h])
    {
      assert es[..i + 1] == es[..i] + [es[i]];
      FlattenSnoc(es[..i], es[i]);
      WholePlus(Flatten(es[..i]), es[i]);
      i := i + 1;
    }
    assert es[..i + 1] == es[..i] + [es[i]] && es == es[..i + 1] + es[i + 1..];
    FlattenSnoc(es[..i], es[i]);
    FlattenAppend(es[..i + 1], es[i + 1..]);
    WholePlus(Flatten(es[..i]), es[i]);
  }

  lemma WholePlus(a: seq<byte>, b: seq<byte>)
    requires WholeFrames(a)
    ensures WholeFrames(a + b) <==> WholeFrames(b)
  {
    hide ParseFrames, EncodeFrames;
    var fs :| AllFit(fs) && a == EncodeFrames(fs);
    ParseEncodedFrames(fs, b);
    WholeFramesIffNothingLeft(a + b);
    WholeFramesIffNothingLeft(b);
  }

  /** Frame `g` right behind emission `i` of the sender: such a run can always
      happen, and is a merge exactly if the receiver does not notice. */
  lemma InterruptionMergesExactly(sender: Source, i: nat, m: nat, cut: nat, g: Frame)
    requires sender.Succeeds() && Fits(g) && i < |sender.Holds()| && CutsAt(sender, i, m, cut)
    ensures var sources, schedule := [sender, Messages([g])], Interrupting(i, |sender.Holds()|);
            && Complete(sources, schedule)
            && BytesOf(AllHolds(sources), schedule) == Interrupted(sender.frames, m, cut, g)
            && (Merges(sources, schedule) <==> Unnoticed(sender.frames, m, cut, g))
  {
    hide EncodeFrames, EncodeFrame, ParseFrames, Leftover, Flatten, SendCost, IsMerge, Unnoticed, Schedulable, Turns,
        BytesOf, Interrupting, Interrupted;
    var fs, es, x := sender.frames, sender.Holds(), EncodeFrame(g);
    InterruptedBytes(es, x, i);
    var sources: seq<Source>, schedule := [sender, Messages([g])], Interrupting(i, |es|);
    SingleHold(g);
    assert AllHolds(sources) == [es, [x]];
    var wire := BytesOf(AllHolds(sources), schedule);
    assert wire == Interrupted(fs, m, cut, g) by {
      InterruptedParts(sender, i, m, cut, g);
    }
    if IsMerge(ParseFrames(wire), sources) && Leftover(wire) == [] {
      MergeIsUnnoticed(sender, m, cut, g);
    }
    if Unnoticed(fs, m, cut, g) {
      UnnoticedIsMerge(sender, m, cut, g);
    }
  }

  lemma InterruptedParts(sender: Source, i: nat, m: nat, cut: nat, g: Frame)
    requires i < |sender.Holds()| && CutsAt(sender, i, m, cut)
    ensures Flatten(sender.Holds()[..i + 1]) + EncodeFrame(g) + Flatten(sender.Holds()[i + 1..])
            == Interrupted(sender.frames, m, cut, g)
  {
    hide EncodeFrames, EncodeFrame, Flatten;
  }

  lemma MergeIsUnnoticed(sender: Source, m: nat, cut: nat, g: Frame)
    requires m < |sender.frames| && cut <= |EncodeFrame(sender.frames[m])|
    requires var wire := Interrupted(sender.frames, m, cut, g);
             IsMerge(ParseFrames(wire), [sender, Messages([g])]) && Leftover(wire) == []
    ensures Unnoticed(sender.frames, m, cut, g)
  {
    hide EncodeFrames, EncodeFrame, ParseFrames, Leftover, Frames, From, Interrupted;
    var wire, sources := Interrupted(sender.frames, m, cut, g), [sender, Messages([g])];
    var sent :| MergedFrom(sent, ParseFrames(wire), sources);
    assert sources[0].frames == sender.frames && sources[1].frames == [g];
    var p := MergeInserts(sent, sender.frames, g);
    StreamIsParsedFrames(wire);
    assert EncodeFrames(ParseFrames(wire)) + [] == EncodeFrames(ParseFrames(wire));
  }

  lemma UnnoticedIsMerge(sender: Source, m: nat, cut: nat, g: Frame)
    requires AllFit(sender.frames) && Fits(g) && m < |sender.frames| && cut <= |EncodeFrame(sender.frames[m])|
    requires Unnoticed(sender.frames, m, cut, g)
    ensures var wire := Interrupted(sender.frames, m, cut, g);
            IsMerge(ParseFrames(wire), [sender, Messages([g])]) && Leftover(wire) == []
  {
    hide EncodeFrames, EncodeFrame, ParseFrames, Leftover, Frames, From, Interrupted, Insertion;
    var fs, wire := sender.frames, Interrupted(sender.frames, m, cut, g);
    var p: nat :| p <= |fs| && wire == EncodeFrames(Inserted(fs, p, g));
    ParseWholeStream(Inserted(fs, p, g));
    InsertedIsMerge(fs, p, g);
    assert MergedFrom(Insertion(fs, p, g), ParseFrames(wire), [sender, Messages([g])]);
  }

  /** The frames in front, the one put in, and those behind, with their writers. */
  function Insertion(fs: seq<Frame>, p: nat, g: Frame): seq<Sent>
    requires p <= |fs|
  {
    Mark(0, fs[..p]) + (Mark(1, [g]) + (Mark(0, fs[p..]) + []))
  }

  lemma InsertedIsMerge(fs: seq<Frame>, p: nat, g: Frame)
    requires p <= |fs|
    ensures var sent := Insertion(fs, p, g);
            && Frames(sent) == Inserted(fs, p, g)
            && From(sent, 0) == fs && From(sent, 1) == [g]
            && forall q :: 0 <= q < |sent| ==> sent[q].writer < 2
  {
    InsertedFrames(fs, p, g);
    InsertedFrom(fs, p, g, 0);
    InsertedFrom(fs, p, g, 1);
    hide Frames, From;
  }

  lemma InsertedFrames(fs: seq<Frame>, p: nat, g: Frame)
    requires p <= |fs|
    ensures Frames(Insertion(fs, p, g)) == Inserted(fs, p, g)
  {
    var last: seq<Sent> := [];
    assert Frames(last) == [];
    hide Frames, Mark;
    FramesOfMark(0, fs[p..], last);
    FramesOfMark(1, [g], Mark(0, fs[p..]) + last);
    FramesOfMark(0, fs[..p], Mark(1, [g]) + (Mark(0, fs[p..]) + last));
    assert fs[..p] + ([g] + (fs[p..] + [])) == Inserted(fs, p, g);
  }

  lemma InsertedFrom(fs: seq<Frame>, p: nat, g: Frame, j: nat)
    requires p <= |fs| && j < 2
    ensures From(Insertion(fs, p, g), j) == if j == 0 then fs else [g]
  {
    hide From, Mark;
    var front, back := fs[..p], fs[p..];
    LastMark(back, j);
    var behind := Mark(0, back) + [];
    NextMark(1, [g], behind, j);
    var middle := Mark(1, [g]) + behind;
    NextMark(0, front, middle, j);
    assert front + back == fs && (back == [] ==> front == fs);
  }

  lemma LastMark(fs: seq<Frame>, j: nat)
    ensures From(Mark(0, fs) + [], j) == if j == 0 then fs else []
  {
    FromMark(0, fs, [], j);
    hide Mark;
    assert fs + [] == fs;
  }

  lemma NextMark(i: nat, fs: seq<Frame>, rest: seq<Sent>, j: nat)
    ensures From(Mark(i, fs) + rest, j) ==
            if i != j then From(rest, j) else if From(rest, j) == [] then fs else fs + From(rest, j)
  {
    FromMark(i, fs, rest, j);
    hide Mark, From;
    assert [] + From(rest, j) == From(rest, j) && fs + [] == fs;
  }

  lemma SingleHold(g: Frame)
    ensures Messages([g]).Holds() == [EncodeFrame(g)]
  {
    hide EncodeFrame;
  }

  /** Emission `i` of the buffer ends inside frame `m`, with `cut` bytes of it out. */
  ghost predicate CutsAt(sender: Source, i: nat, m: nat, cut: nat)
    requires i < |sender.Holds()|
  {
    && m < |sender.frames| && 0 < cut < |EncodeFrame(sender.frames[m])|
    && Flatten(sender.Holds()[..i + 1]) == EncodeFrames(sender.frames[..m]) + EncodeFrame(sender.frames[m])[..cut]
    && Flatten(sender.Holds()[i + 1..]) == EncodeFrame(sender.frames[m])[cut..] + EncodeFrames(sender.frames[m + 1..])
  }

  /** If a frame straddles an emission, some emission ends inside some frame. */
  lemma SomeCut(sender: Source) returns (i: nat, m: nat, cut: nat)
    requires sender.Succeeds() && !sender.Whole()
    ensures i < |sender.Holds()| && CutsAt(sender, i, m, cut)
  {
    hide WholeFrames, EncodeFrames, EncodeFrame, Flatten, SendCost, Unsplit;
    var es, fs := sender.Holds(), sender.frames;
    SourceIsWhole(sender);
    SourceHolds(sender);
    i := FirstSplit(es, fs);
    var n := |Flatten(es[..i + 1])|;
    assert EncodeFrames(fs)[..n] == Flatten(es[..i + 1]) && EncodeFrames(fs)[n..] == Flatten(es[i + 1..]);
    m, cut := SplitPoint(fs, n);
  }

  /** There are different frames of one length among them, more than such a
      frame has bytes. */
  ghost predicate Varied(frames: iset<Frame>) {
    exists gs: seq<Frame>, length: nat :: Several(gs, length) && forall i :: 0 <= i < |gs| ==> gs[i] in frames
  }

  /** A split frame is broken by one of them. */
  lemma SplitBreaks(sender: Source, frames: iset<Frame>)
    requires sender.Succeeds() && !sender.Whole() && Varied(frames)
    ensures !AlwaysMerges(sender, frames)
  {
    hide Unsplit, EncodeFrame, SendCost, CutsAt, Unnoticed, Complete, Merges, Interrupting, BytesOf, AllHolds;
    var i, m, cut := SomeCut(sender);
    CutIsInside(sender, i, m, cut);
    var gs: seq<Frame>, length: nat :| Several(gs, length) && forall i :: 0 <= i < |gs| ==> gs[i] in frames;
    var k := SomeIsNoticed(sender.frames, m, cut, gs, length);
    InterruptionMergesExactly(sender, i, m, cut, gs[k]);
    assert [sender] + AllMessages([[gs[k]]]) == [sender, Messages([gs[k]])];
    assert AllAmong([[gs[k]]], frames);
  }

  lemma CutIsInside(sender: Source, i: nat, m: nat, cut: nat)
    requires i < |sender.Holds()| && CutsAt(sender, i, m, cut)
    ensures m < |sender.frames| && 0 < cut < |EncodeFrame(sender.frames[m])|
  {
  }

  lemma UnsplitMerges(sender: Source, frames: iset<Frame>)
    requires sender.Succeeds() && sender.Whole()
    ensures AlwaysMerges(sender, frames)
  {
    hide Unsplit, SendCost, IsMerge, Complete, ParseFrames, Leftover, BytesOf, AllHolds;
    forall others: seq<seq<Frame>>, schedule: seq<nat> |
      AllAmong(others, frames) && Complete([sender] + AllMessages(others), schedule)
      ensures Merges([sender] + AllMessages(others), schedule)
    {
      CompleteIs([sender] + AllMessages(others), schedule);
      UnsplitSourcesMerge([sender] + AllMessages(others), schedule);
    }
  }

  /** A sender's packets stay whole, whatever of the given frames the others
      write and whenever they get the mutex, exactly if no packet straddles an
      emission of its buffer. */
  lemma MergesExactly(size: nat, budget: nat, fs: seq<Frame>, frames: iset<Frame>)
    requires Stream(size, budget, fs).Succeeds() && Varied(frames)
    ensures AlwaysMerges(Stream(size, budget, fs), frames) <==> Unsplit(size, 0, fs)
  {
    hide Unsplit, SendCost, AlwaysMerges, Varied;
    if Unsplit(size, 0, fs) {
      UnsplitMerges(Stream(size, budget, fs), frames);
    } else {
      SplitBreaks(Stream(size, budget, fs), frames);
    }
  }

  lemma CompleteIs(sources: seq<Source>, schedule: seq<nat>)
    requires Complete(sources, schedule)
    ensures Schedulable(AllHolds(sources), schedule) && Finished(AllHolds(sources), schedule)
  {
  }

  // ---------- What others write ----------

  /** What the host writes besides chunks: sealed control messages. */
  ghost predicate IsPacket(cipher: Cipher, g: Frame) {
    g.kind == MSG_ENCRYPTED_PACKET && exists n, f :: cipher.seal(n, EncodeFrame(f)) == Some(g.payload)
  }

  ghost function PacketsOf(cipher: Cipher): iset<Frame> {
    iset g: Frame | IsPacket(cipher, g)
  }

  /** One message under that many nonces gives as many packets. */
  ghost predicate Distinct(cipher: Cipher, message: Frame, count: nat) {
    && (forall n: nat :: n < count ==> cipher.seal(n, EncodeFrame(message)).Some?)
    && (forall i: nat, j: nat :: i < j < count ==>
          cipher.seal(i, EncodeFrame(message)) != cipher.seal(j, EncodeFrame(message)))
  }

  function PacketOf(cipher: Cipher, message: Frame, n: nat): (g: Frame)
    requires cipher.seal(n, EncodeFrame(message)).Some?
  {
    Frame(MSG_ENCRYPTED_PACKET, cipher.seal(n, EncodeFrame(message)).value)
  }

  /** A cipher that gives one message enough different packets. */
  lemma PacketsVary(cipher: Cipher, message: Frame, count: nat)
    requires cipher.Lawful() && Distinct(cipher, message, count)
    requires |EncodeFrame(message)| + OVERHEAD < TWO_32
    requires count > |EncodeFrame(message)| + OVERHEAD + HEADER_SIZE + 1
    ensures Varied(PacketsOf(cipher))
  {
    hide EncodeFrame;
    var length := |EncodeFrame(message)| + OVERHEAD;
    var gs := seq(count, n requires 0 <= n < count => PacketOf(cipher, message, n));
    forall i | 0 <= i < |gs| ensures gs[i] in PacketsOf(cipher) && Fits(gs[i]) && |gs[i].payload| == length {
      assert cipher.seal(i, EncodeFrame(message)) == Some(gs[i].payload);
    }
    assert Several(gs, length);
  }

  /** All frames of a kind with at least so many bytes. */
  ghost function OfKind(kind: byte, least: nat): iset<Frame> {
    iset g: Frame | g.kind == kind && |g.payload| >= least
  }

  /** Frame `i` of a series: a mark, one or two, in a payload of zeros. */
  function Marked(kind: byte, length: nat, i: nat): Frame {
    Frame(kind, seq(length, n => if n == i then 1 else if n + length == i then 2 else 0))
  }

  lemma KindsVary(kind: byte, least: nat)
    requires least < TWO_32
    ensures Varied(OfKind(kind, least))
  {
    var length := if least < 7 then 7 else least;
    var gs := seq(2 * length, i requires 0 <= i < 2 * length => Marked(kind, length, i));
    forall i, j | 0 <= i < j < |gs| ensures gs[i] != gs[j] {
      MarksDiffer(kind, length, i, j);
    }
    assert Several(gs, length);
    assert forall i :: 0 <= i < |gs| ==> gs[i] in OfKind(kind, least);
  }

  lemma MarksDiffer(kind: byte, length: nat, i: nat, j: nat)
    requires i < j < 2 * length
    ensures Marked(kind, length, i) != Marked(kind, length, j)
  {
    var at := if i < length then i else i - length;
    assert Marked(kind, length, i).payload[at] != Marked(kind, length, j).payload[at];
  }

  // ---------- Full-size chunks ----------

  /** The packet of a chunk is 50 bytes longer than its id and data. */
  lemma PacketSize(cipher: Cipher, n: nat, c: Chunk)
    requires cipher.Lawful() && Packet(cipher, n, c).Some?
    ensures |Packet(cipher, n, c).value.payload| == |c.data| + |c.id| + 50
  {
    hide EncodeChunk;
    EncodedSizes(c);
  }

  /** However full the buffer is, the packet of a full-size chunk is split. */
  lemma FullPacketIsSplit(cipher: Cipher, n: nat, c: Chunk, buffered: nat)
    requires cipher.Lawful() && Packet(cipher, n, c).Some? && |c.data| == 256 * 1024
    ensures BUFFER_SIZE == CHUNK_SIZE == 256 * 1024
    ensures Kept(BUFFER_SIZE, buffered, Length(Packet(cipher, n, c).value)) == None
  {
    PacketSize(cipher, n, c);
    FullChunkIsSplit(buffered, Packet(cipher, n, c).value);
  }

  lemma {:induction false} LongFrameSplits(size: nat, buffered: nat, fs: seq<Frame>, k: nat)
    requires k < |fs| && Length(fs[k]) > size
    ensures !Unsplit(size, buffered, fs)
    decreases |fs|
  {
    if k > 0 && Kept(size, buffered, Length(fs[0])).Some? {
      LongFrameSplits(size, Kept(size, buffered, Length(fs[0])).value, fs[1..], k - 1);
    }
  }

  /** A transfer with one full-size chunk is never safe: some sealed message at
      some moment leaves the receiver with something else than a merge. */
  lemma FullChunkBreaks(cipher: Cipher, cs: seq<Chunk>, k: nat, budget: nat, message: Frame, count: nat)
    requires cipher.Lawful() && SealsAll(cipher, cs) && k < |cs| && |cs[k].data| == CHUNK_SIZE
    requires Stream(BUFFER_SIZE, budget, Packets(cipher, cs)).Succeeds()
    requires |EncodeFrame(message)| + OVERHEAD < TWO_32
    requires Distinct(cipher, message, count) && count > |EncodeFrame(message)| + OVERHEAD + HEADER_SIZE + 1
    ensures !AlwaysMerges(Stream(BUFFER_SIZE, budget, Packets(cipher, cs)), PacketsOf(cipher))
  {
    hide Packet, AlwaysMerges, SendCost, Unsplit, EncodeFrame, Distinct, Varied;
    PacketSize(cipher, k, cs[k]);
    LongFrameSplits(BUFFER_SIZE, 0, Packets(cipher, cs), k);
    PacketsVary(cipher, message, count);
    MergesExactly(BUFFER_SIZE, budget, Packets(cipher, cs), PacketsOf(cipher));
  }

  lemma {:induction false} FittingFramesAreKept(size: nat, buffered: nat, fs: seq<Frame>, total: nat)
    requires total == |EncodeFrames(fs)| && buffered + total <= size
    ensures Unsplit(size, buffered, fs)
    decreases |fs|
  {
    if fs != [] {
      EncodedLayout(fs[0], []);
      assert EncodeFrame(fs[0]) + [] == EncodeFrame(fs[0]);
      FittingFramesAreKept(size, buffered + Length(fs[0]), fs[1..], total - Length(fs[0]));
    }
  }

  /** A transfer whose packets fit the buffer together is always safe. */
  lemma SmallTransferMerges(budget: nat, fs: seq<Frame>, frames: iset<Frame>)
    requires Stream(BUFFER_SIZE, budget, fs).Succeeds() && |EncodeFrames(fs)| <= BUFFER_SIZE
    ensures AlwaysMerges(Stream(BUFFER_SIZE, budget, fs), frames)
  {
    hide AlwaysMerges, SendCost, Unsplit, EncodeFrames;
    FittingFramesAreKept(BUFFER_SIZE, 0, fs, |EncodeFrames(fs)|);
    UnsplitMerges(Stream(BUFFER_SIZE, budget, fs), frames);
  }
}
