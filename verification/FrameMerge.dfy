/** Several goroutines write to one peer; a mutex orders their holds
    (internal/host/host.go:46-64, 481-498). When are frames kept whole? */
module FrameMerge {
  import opened Bytes
  import opened Protocol
  import opened BufferedWriter
  import Transfer

  /** The peer's connection: everything written to it. */
  class Connection {
    var wire: seq<byte>

    constructor ()
      ensures wire == []
    {
      wire := [];
    }

    method Write(p: seq<byte>)
      modifies this
      ensures wire == old(wire) + p
    {
      wire := wire + p;
    }
  }

  /** `Peer.writeRawMessage`: the three writes of a frame under one hold. */
  method WriteRawMessage(conn: Connection, kind: byte, data: seq<byte>)
    modifies conn
    ensures conn.wire == old(conn.wire) + EncodeFrame(Frame(kind, data))
  {
    hide EncodeU32;
    conn.Write([kind]);
    conn.Write(EncodeU32(Truncate32(|data|)));
    conn.Write(data);
    assert conn.wire == old(conn.wire) + ([kind] + EncodeU32(Truncate32(|data|)) + data);
  }

  // ---------- Any schedule of whole-frame holds ----------

  /** A writer is the list of its holds still to come, each a run of frames. */
  type Queues = seq<seq<seq<Frame>>>

  /** A schedule names the writer that gets the mutex next. */
  predicate Schedulable<T(==)>(queues: seq<seq<T>>, schedule: seq<nat>)
    decreases |schedule|
  {
    schedule == [] ||
    (schedule[0] < |queues| && queues[schedule[0]] != []
     && Schedulable(Advance(queues, schedule[0]), schedule[1..]))
  }

  function Advance<T(==)>(queues: seq<seq<T>>, i: nat): seq<seq<T>>
    requires i < |queues| && queues[i] != []
  {
    queues[i := queues[i][1..]]
  }

  /** The bytes on the connection. */
  function WireOf(queues: Queues, schedule: seq<nat>): seq<byte>
    requires Schedulable(queues, schedule)
    decreases |schedule|
  {
    if schedule == [] then []
    else EncodeFrames(queues[schedule[0]][0]) + WireOf(Advance(queues, schedule[0]), schedule[1..])
  }

  /** A frame and the writer it came from. */
  datatype Sent = Sent(writer: nat, frame: Frame)

  function Mark(i: nat, fs: seq<Frame>): (sent: seq<Sent>)
    ensures |sent| == |fs| && forall p :: 0 <= p < |fs| ==> sent[p] == Sent(i, fs[p])
  {
    if fs == [] then [] else [Sent(i, fs[0])] + Mark(i, fs[1..])
  }

  function Merged(queues: Queues, schedule: seq<nat>): seq<Sent>
    requires Schedulable(queues, schedule)
    decreases |schedule|
  {
    if schedule == [] then []
    else Mark(schedule[0], queues[schedule[0]][0]) + Merged(Advance(queues, schedule[0]), schedule[1..])
  }

  function Frames(sent: seq<Sent>): (fs: seq<Frame>)
    ensures |fs| == |sent| && forall p :: 0 <= p < |sent| ==> fs[p] == sent[p].frame
  {
    if sent == [] then [] else [sent[0].frame] + Frames(sent[1..])
  }

  /** What one writer contributed, in order. */
  function From(sent: seq<Sent>, i: nat): seq<Frame> {
    if sent == [] then []
    else (if sent[0].writer == i then [sent[0].frame] else []) + From(sent[1..], i)
  }

  function Concat(runs: seq<seq<Frame>>): seq<Frame> {
    if runs == [] then [] else runs[0] + Concat(runs[1..])
  }

  function Turns(schedule: seq<nat>, i: nat): nat {
    if schedule == [] then 0 else (if schedule[0] == i then 1 else 0) + Turns(schedule[1..], i)
  }

  ghost predicate AllRunsFit(queues: Queues) {
    forall i, h :: 0 <= i < |queues| && 0 <= h < |queues[i]| ==> AllFit(queues[i][h])
  }

  lemma FramesOfMark(i: nat, fs: seq<Frame>, rest: seq<Sent>)
    ensures Frames(Mark(i, fs) + rest) == fs + Frames(rest)
  {
    hide Mark, Frames;
  }

  lemma {:induction false} FromMark(i: nat, fs: seq<Frame>, rest: seq<Sent>, j: nat)
    ensures From(Mark(i, fs) + rest, j) == (if i == j then fs else []) + From(rest, j)
  {
    if fs == [] {
      assert Mark(i, fs) + rest == rest;
    } else {
      MarkUnfolds(i, fs, rest);
      FromMark(i, fs[1..], rest, j);
      assert fs + From(rest, j) == [fs[0]] + (fs[1..] + From(rest, j));
    }
  }

  lemma MarkUnfolds(i: nat, fs: seq<Frame>, rest: seq<Sent>)
    requires fs != []
    ensures Mark(i, fs) + rest != [] && (Mark(i, fs) + rest)[0] == Sent(i, fs[0])
    ensures (Mark(i, fs) + rest)[1..] == Mark(i, fs[1..]) + rest
  {
    hide Mark;
    assert Mark(i, fs)[1..] == Mark(i, fs[1..]);
  }

  lemma AdvanceKeepsFit(queues: Queues, i: nat)
    requires AllRunsFit(queues) && i < |queues| && queues[i] != []
    ensures AllRunsFit(Advance(queues, i)) && AllFit(queues[i][0])
  {
    hide AllFit;
  }

  /** For every number of writers and every schedule, the connection carries
      exactly the merged frames ... */
  lemma {:induction false} WireParsesToMerge(queues: Queues, schedule: seq<nat>)
    requires Schedulable(queues, schedule) && AllRunsFit(queues)
    ensures AllFit(Frames(Merged(queues, schedule)))
    ensures WireOf(queues, schedule) == EncodeFrames(Frames(Merged(queues, schedule)))
    ensures ParseFrames(WireOf(queues, schedule)) == Frames(Merged(queues, schedule))
    ensures Leftover(WireOf(queues, schedule)) == []
    decreases |schedule|
  {
    hide ParseFrames, Leftover, AllRunsFit;
    if schedule != [] {
      var i, next := schedule[0], Advance(queues, schedule[0]);
      AdvanceKeepsFit(queues, i);
      WireParsesToMerge(next, schedule[1..]);
      FramesOfMark(i, queues[i][0], Merged(next, schedule[1..]));
      EncodeFramesAppend(queues[i][0], Frames(Merged(next, schedule[1..])));
    }
    ParseWholeStream(Frames(Merged(queues, schedule)));
  }

  /** ... and the merge keeps each writer's order and loses nothing it has had
      its turn for. */
  lemma {:induction false} MergeKeepsOrder(queues: Queues, schedule: seq<nat>, j: nat)
    requires Schedulable(queues, schedule) && j < |queues|
    ensures Turns(schedule, j) <= |queues[j]|
    ensures From(Merged(queues, schedule), j) == Concat(queues[j][..Turns(schedule, j)])
    decreases |schedule|
  {
    if schedule != [] {
      var i, next := schedule[0], Advance(queues, schedule[0]);
      MergeKeepsOrder(next, schedule[1..], j);
      FromMark(i, queues[i][0], Merged(next, schedule[1..]), j);
      if i == j {
        var n := Turns(schedule, j);
        assert queues[j][..n][1..] == next[j][..n - 1];
      }
    }
  }

  lemma {:induction false} FromAppend(a: seq<Sent>, b: seq<Sent>, i: nat)
    ensures From(a + b, i) == From(a, i) + From(b, i)
  {
    if a == [] {
      assert a + b == b;
    } else {
      assert (a + b)[1..] == a[1..] + b;
      assert (a + b)[0] == a[0];
      FromAppend(a[1..], b, i);
      var rest := From(a[1..] + b, i);
      assert From(a + b, i) == (if a[0].writer == i then [a[0].frame] else []) + rest;
      assert From(a, i) == (if a[0].writer == i then [a[0].frame] else []) + From(a[1..], i);
    }
  }

  lemma {:induction false} WritersAreQueues(queues: Queues, schedule: seq<nat>, p: nat)
    requires Schedulable(queues, schedule) && p < |Merged(queues, schedule)|
    ensures Merged(queues, schedule)[p].writer < |queues|
    decreases |schedule|
  {
    var head := Mark(schedule[0], queues[schedule[0]][0]);
    if p >= |head| {
      WritersAreQueues(Advance(queues, schedule[0]), schedule[1..], p - |head|);
    }
  }

  /** Every queue has been written completely. */
  predicate Finished<T(==)>(queues: seq<seq<T>>, schedule: seq<nat>) {
    forall i :: 0 <= i < |queues| ==> Turns(schedule, i) == |queues[i]|
  }

  lemma FinishedSends(queues: Queues, schedule: seq<nat>, i: nat)
    requires Schedulable(queues, schedule) && Finished(queues, schedule) && i < |queues|
    ensures From(Merged(queues, schedule), i) == Concat(queues[i])
  {
    MergeKeepsOrder(queues, schedule, i);
    assert queues[i][..|queues[i]|] == queues[i];
  }

  // ---------- Which emissions are whole frames ----------

  function Length(f: Frame): nat { HEADER_SIZE + |f.payload| }

  /** How full the buffer is after a frame that is not split; none if it is. */
  function Kept(size: nat, buffered: nat, length: nat): Option<nat> {
    if buffered + length <= size then Some(buffered + length)
    else if buffered == size && length <= size then Some(length)
    else None
  }

  /** No frame straddles an emission. */
  predicate Unsplit(size: nat, buffered: nat, fs: seq<Frame>)
    decreases |fs|
  {
    fs == [] ||
    (Kept(size, buffered, Length(fs[0])).Some? && Unsplit(size, Kept(size, buffered, Length(fs[0])).value, fs[1..]))
  }

  ghost predicate AllWhole(es: seq<seq<byte>>) {
    forall i :: 0 <= i < |es| ==> WholeFrames(es[i])
  }

  lemma WholeAppend(a: seq<byte>, f: Frame)
    requires WholeFrames(a) && Fits(f)
    ensures WholeFrames(a + EncodeFrame(f)) && WholeFrames([]) && WholeFrames(EncodeFrame(f))
  {
    hide EncodeFrame;
    var fs :| AllFit(fs) && a == EncodeFrames(fs);
    EncodeFramesAppend(fs, [f]);
    assert EncodeFrames([f]) == EncodeFrame(f) + EncodeFrames([]) == EncodeFrame(f);
    assert AllFit(fs + [f]) && AllFit([f]);
    NothingIsWhole();
  }

  lemma NothingIsWhole()
    ensures WholeFrames([])
  {
    assert EncodeFrames([]) == [] && AllFit([]);
  }

  /** Whole frames followed by a proper, non-empty piece of another are not
      whole frames. */
  lemma PieceIsNotWhole(a: seq<byte>, f: Frame, n: nat)
    requires WholeFrames(a) && Fits(f) && 0 < n < |EncodeFrame(f)|
    ensures !WholeFrames(a + EncodeFrame(f)[..n])
  {
    hide EncodeFrame, ParseFrames;
    var piece := EncodeFrame(f)[..n];
    var fs :| AllFit(fs) && a == EncodeFrames(fs);
    ParseEncodedFrames(fs, piece);
    TruncatedFrameFails(f, n);
    assert Leftover(piece) == piece != [];
    WholeFramesIffNothingLeft(a + piece);
  }

  lemma {:induction false} PutExtends(w: State, p: seq<byte>)
    requires w.Valid()
    ensures w.emitted <= Put(w, p).emitted
    decreases |p|, |w.buffered|
  {
    if !w.failed && |p| > w.size - |w.buffered| && w.buffered != [] {
      var topped := Flush(w.(buffered := w.buffered + p[..w.size - |w.buffered|]));
      if !topped.failed {
        PutExtends(topped, p[w.size - |w.buffered|..]);
      }
    }
  }

  /** The first emission a write that does not fit causes. */
  lemma OverflowEmits(w: State, p: seq<byte>)
    requires w.Valid() && !Put(w, p).failed && |p| > w.size - |w.buffered|
    ensures |Put(w, p).emitted| > |w.emitted|
    ensures Put(w, p).emitted[|w.emitted|] == if w.buffered == [] then p else w.buffered + p[..w.size - |w.buffered|]
  {
    if w.buffered != [] {
      var n := w.size - |w.buffered|;
      var topped := Flush(w.(buffered := w.buffered + p[..n]));
      PutExtends(topped, p[n..]);
      PutFailure(topped, p[n..]);
    }
  }

  lemma PutFailure(w: State, p: seq<byte>)
    requires w.Valid()
    ensures w.failed ==> Put(w, p) == w
  {
  }

  /** The three writes of a frame, one after the other. */
  function HeaderWrite(w: State, f: Frame): State
    requires w.Valid()
  {
    Put(w, [f.kind])
  }

  function LengthWrite(w: State, f: Frame): State
    requires w.Valid()
  {
    PutKeepsValid(w, [f.kind]);
    Put(HeaderWrite(w, f), EncodeU32(Truncate32(|f.payload|)))
  }

  lemma FrameWrites(w: State, f: Frame)
    requires w.Valid()
    ensures HeaderWrite(w, f).Valid() && LengthWrite(w, f).Valid()
    ensures HeaderWrite(w, f).size == w.size && LengthWrite(w, f).size == w.size
    ensures PutFrame(w, f) == Put(LengthWrite(w, f), f.payload)
    ensures w.emitted <= HeaderWrite(w, f).emitted <= LengthWrite(w, f).emitted <= PutFrame(w, f).emitted
    ensures !PutFrame(w, f).failed ==> !LengthWrite(w, f).failed && !HeaderWrite(w, f).failed && !w.failed
  {
    hide Put, EncodeU32;
    var length := EncodeU32(Truncate32(|f.payload|));
    PutKeepsValid(w, [f.kind]);
    PutExtends(w, [f.kind]);
    PutKeepsValid(HeaderWrite(w, f), length);
    PutExtends(HeaderWrite(w, f), length);
    PutKeepsValid(LengthWrite(w, f), f.payload);
    PutExtends(LengthWrite(w, f), f.payload);
  }

  /** A frame that fits is only buffered. */
  lemma FittingFrame(w: State, f: Frame)
    requires w.Valid() && !w.failed && |w.buffered| + Length(f) <= w.size
    ensures PutFrame(w, f) == w.(buffered := w.buffered + EncodeFrame(f))
  {
    hide EncodeU32;
    var length := EncodeU32(Truncate32(|f.payload|));
    FrameWrites(w, f);
    assert HeaderWrite(w, f) == w.(buffered := w.buffered + [f.kind]);
    assert LengthWrite(w, f) == w.(buffered := w.buffered + [f.kind] + length);
    assert w.buffered + [f.kind] + length + f.payload == w.buffered + EncodeFrame(f);
  }

  /** A frame that meets a full buffer first empties it, on a boundary. */
  lemma FullBuffer(w: State, f: Frame)
    requires w.Valid() && |w.buffered| == w.size > 0 && !PutFrame(w, f).failed
    ensures !w.failed && |w.emitted| < w.budget
    ensures PutFrame(w, f) == PutFrame(w.(emitted := w.emitted + [w.buffered], buffered := []), f)
  {
    hide EncodeU32;
    FrameWrites(w, f);
    var flushed := w.(emitted := w.emitted + [w.buffered], buffered := []);
    assert w.buffered + [f.kind][..0] == w.buffered;
    assert [f.kind][0..] == [f.kind];
    assert Flush(w.(buffered := w.buffered + [f.kind][..0])) == flushed;
    assert HeaderWrite(w, f) == HeaderWrite(flushed, f);
  }

  /** A frame that is neither kept whole nor met by a full buffer is cut: the
      next emission ends inside it. */
  lemma SplitFrame(w: State, f: Frame)
    requires w.Valid() && WholeFrames(w.buffered) && Fits(f) && !PutFrame(w, f).failed
    requires |w.buffered| < w.size && |w.buffered| + Length(f) > w.size
    ensures |PutFrame(w, f).emitted| > |w.emitted|
    ensures !WholeFrames(PutFrame(w, f).emitted[|w.emitted|])
  {
    hide EncodeU32, WholeFrames, EncodeFrame;
    var a := w.size - |w.buffered|;
    EncodedLayout(f, []);
    PieceIsNotWhole(w.buffered, f, a);
    if a < HEADER_SIZE {
      SplitInHeader(w, f);
    } else {
      SplitInPayload(w, f);
    }
  }

  lemma SplitInHeader(w: State, f: Frame)
    requires w.Valid() && !PutFrame(w, f).failed && 0 < w.size - |w.buffered| < HEADER_SIZE
    ensures |PutFrame(w, f).emitted| > |w.emitted|
    ensures PutFrame(w, f).emitted[|w.emitted|] == w.buffered + EncodeFrame(f)[..w.size - |w.buffered|]
  {
    hide EncodeU32, PutFrame;
    var a := w.size - |w.buffered|;
    var length := EncodeU32(Truncate32(|f.payload|));
    FrameWrites(w, f);
    var w1 := HeaderWrite(w, f);
    assert w1 == w.(buffered := w.buffered + [f.kind]);
    OverflowEmits(w1, length);
    assert w1.buffered + length[..a - 1] == w.buffered + EncodeFrame(f)[..a];
  }

  lemma SplitInPayload(w: State, f: Frame)
    requires w.Valid() && !PutFrame(w, f).failed && HEADER_SIZE <= w.size - |w.buffered| < Length(f)
    ensures |PutFrame(w, f).emitted| > |w.emitted|
    ensures PutFrame(w, f).emitted[|w.emitted|] == w.buffered + EncodeFrame(f)[..w.size - |w.buffered|]
  {
    hide EncodeU32, PutFrame;
    var a := w.size - |w.buffered|;
    var length := EncodeU32(Truncate32(|f.payload|));
    FrameWrites(w, f);
    var w2 := LengthWrite(w, f);
    assert HeaderWrite(w, f) == w.(buffered := w.buffered + [f.kind]);
    assert w2 == w.(buffered := w.buffered + [f.kind] + length);
    OverflowEmits(w2, f.payload);
    assert w2.buffered + f.payload[..a - HEADER_SIZE] == w.buffered + EncodeFrame(f)[..a];
  }

  /** Without a buffer even the type byte is an emission of its own. */
  lemma UnbufferedSplits(w: State, f: Frame)
    requires w.Valid() && w.size == 0 && Fits(f) && !PutFrame(w, f).failed
    ensures |PutFrame(w, f).emitted| > |w.emitted|
    ensures !WholeFrames(PutFrame(w, f).emitted[|w.emitted|])
  {
    hide EncodeU32, WholeFrames;
    FrameWrites(w, f);
    OverflowEmits(w, [f.kind]);
    NothingIsWhole();
    EncodedLayout(f, []);
    PieceIsNotWhole([], f, 1);
    assert [] + EncodeFrame(f)[..1] == [f.kind];
  }

  /** One frame, from a boundary: kept if and only if no emission ends inside. */
  lemma OneFrame(w: State, f: Frame)
    requires w.Valid() && AllWhole(w.emitted) && WholeFrames(w.buffered) && Fits(f) && !PutFrame(w, f).failed
    ensures AllWhole(PutFrame(w, f).emitted) <==> Kept(w.size, |w.buffered|, Length(f)).Some?
    ensures Kept(w.size, |w.buffered|, Length(f)).Some? ==>
              && WholeFrames(PutFrame(w, f).buffered)
              && |PutFrame(w, f).buffered| == Kept(w.size, |w.buffered|, Length(f)).value
  {
    hide PutFrame, WholeFrames, EncodeFrame, Put;
    EncodedLayout(f, []);
    FrameWrites(w, f);
    WholeAppend(w.buffered, f);
    if |w.buffered| + Length(f) <= w.size {
      FittingFrame(w, f);
    } else if |w.buffered| < w.size {
      SplitFrame(w, f);
    } else if w.size == 0 {
      UnbufferedSplits(w, f);
    } else {
      FullBuffer(w, f);
      var flushed := w.(emitted := w.emitted + [w.buffered], buffered := []);
      FrameWrites(flushed, f);
      if Length(f) <= w.size {
        FittingFrame(flushed, f);
        assert [] + EncodeFrame(f) == EncodeFrame(f);
      } else {
        SplitFrame(flushed, f);
      }
    }
  }

  lemma {:induction false} PutFramesExtends(w: State, fs: seq<Frame>)
    requires w.Valid()
    ensures w.emitted <= PutFrames(w, fs).emitted
    ensures w.failed ==> PutFrames(w, fs).failed
    decreases |fs|
  {
    hide PutFrame;
    if fs != [] {
      FrameWrites(w, fs[0]);
      PutFrameKeepsValid(w, fs[0]);
      PutFramesExtends(PutFrame(w, fs[0]), fs[1..]);
    }
  }

  /** From a boundary on, every emission is a run of whole frames if and only
      if no frame straddles one. */
  lemma {:induction false} BoundariesExactly(w: State, fs: seq<Frame>)
    requires w.Valid() && AllWhole(w.emitted) && WholeFrames(w.buffered) && AllFit(fs) && !PutFrames(w, fs).failed
    ensures AllWhole(PutFrames(w, fs).emitted) <==> Unsplit(w.size, |w.buffered|, fs)
    ensures Unsplit(w.size, |w.buffered|, fs) ==> WholeFrames(PutFrames(w, fs).buffered)
    decreases |fs|
  {
    hide PutFrame, WholeFrames;
    if fs != [] {
      var next := PutFrame(w, fs[0]);
      PutFrameKeepsValid(w, fs[0]);
      PutFramesExtends(next, fs[1..]);
      OneFrame(w, fs[0]);
      if Kept(w.size, |w.buffered|, Length(fs[0])).Some? {
        BoundariesExactly(next, fs[1..]);
      } else {
        var i :| 0 <= i < |next.emitted| && !WholeFrames(next.emitted[i]);
        assert PutFrames(w, fs).emitted[i] == next.emitted[i];
      }
    }
  }

  /** The side condition, exactly: a sender whose frames go through a buffered
      writer of this size holds the mutex for whole frames only if and only if
      its frames are never split. */
  lemma LockedWriterExactly(size: nat, budget: nat, part: nat, fs: seq<Frame>)
    requires AllFit(fs)
    ensures var w := NewState(size, budget, part);
            PutFrames(w, fs).Valid() &&
            (!Flush(PutFrames(w, fs)).failed ==>
              (AllWhole(Flush(PutFrames(w, fs)).emitted) <==> Unsplit(size, 0, fs)))
  {
    hide PutFrames, WholeFrames;
    var w := NewState(size, budget, part);
    PutFramesAccepts(w, fs);
    var p := PutFrames(w, fs);
    FlushKeepsFailure(p);
    if !Flush(p).failed {
      NothingIsWhole();
      BoundariesExactly(w, fs);
      assert forall i :: 0 <= i < |p.emitted| ==> Flush(p).emitted[i] == p.emitted[i];
    }
  }

  /** A packet with a full-size chunk never fits the 256 KiB buffer. */
  lemma FullChunkIsSplit(buffered: nat, f: Frame)
    requires |f.payload| >= CHUNK_SIZE
    ensures Kept(Transfer.BUFFER_SIZE, buffered, Length(f)) == None
  {
  }

  /** What a cut does: if another writer gets the mutex in the middle of a
      payload, the receiver's next frame has the announced length but not the
      content that was sent. */
  lemma IntruderGarblesFrame(f: Frame, g: Frame, cut: nat)
    requires Fits(f) && HEADER_SIZE <= cut < |EncodeFrame(f)|
    requires EncodeFrame(f)[cut] != g.kind
    ensures var wire := EncodeFrame(f)[..cut] + EncodeFrame(g) + EncodeFrame(f)[cut..];
            && ParseFrames(wire) != []
            && ParseFrames(wire)[0].kind == f.kind && |ParseFrames(wire)[0].payload| == |f.payload|
            && ParseFrames(wire)[0] != f
  {
    hide EncodeU32, DecodeU32;
    var wire := EncodeFrame(f)[..cut] + EncodeFrame(g) + EncodeFrame(f)[cut..];
    EncodedLayout(f, []);
    EncodedLayout(g, []);
    assert EncodeFrame(f) + [] == EncodeFrame(f) && EncodeFrame(g) + [] == EncodeFrame(g);
    DecodeEncodeU32(|f.payload|);
    assert wire[1..5] == EncodeFrame(f)[1..5];
    assert wire[cut] == g.kind;
    assert f.payload[cut - 5] == EncodeFrame(f)[5..][cut - 5] == EncodeFrame(f)[cut];
    assert wire[5..5 + |f.payload|][cut - 5] == wire[cut];
  }
}
