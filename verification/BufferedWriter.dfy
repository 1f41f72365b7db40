/** The writers frames go through. `bufio.Writer` coalesces small writes; each
    call it makes on the writer underneath is one *emission*, and for a
    connection one emission is one hold of the peer's write mutex
    (internal/host/host.go:58-64). A writer without a buffer makes every
    `Write` an emission: that is the connection itself, or a `bytes.Buffer`. */
module BufferedWriter {
  import opened Bytes
  import opened Protocol

  /** `budget` emissions succeed; the next one fails after `part` of its bytes,
      and the error is sticky. */
  datatype State = State(size: nat, budget: nat, part: nat, emitted: seq<seq<byte>>, buffered: seq<byte>, failed: bool)
  {
    /** Everything accepted so far, in order. */
    function Accepted(): seq<byte> { Flatten(emitted) + buffered }

    ghost predicate Valid() {
      |buffered| <= size && (!failed ==> |emitted| <= budget)
    }
  }

  function NewState(size: nat, budget: nat, part: nat): State {
    State(size, budget, part, [], [], false)
  }

  function Emit(w: State, p: seq<byte>): State {
    if w.failed then w
    else if |w.emitted| < w.budget then w.(emitted := w.emitted + [p])
    else w.(failed := true, emitted := w.emitted + [p[..if w.part < |p| then w.part else |p|]])
  }

  function Flush(w: State): State {
    if w.failed || w.buffered == [] then w
    else
      var e := Emit(w, w.buffered);
      if e.failed then e else e.(buffered := [])
  }

  /** `bufio.Writer.Write`: while the data does not fit, emit it directly when
      the buffer is empty and otherwise top the buffer up and flush it. */
  function Put(w: State, p: seq<byte>): State
    requires w.Valid()
    decreases |p|, |w.buffered|
  {
    if w.failed then w
    else if |p| <= w.size - |w.buffered| then w.(buffered := w.buffered + p)
    else if w.buffered == [] then Emit(w, p)
    else
      var n := w.size - |w.buffered|;
      var topped := Flush(w.(buffered := w.buffered + p[..n]));
      if topped.failed then topped else Put(topped, p[n..])
  }

  /** One frame, as `MarshalRaw` writes it: three writes in a row. */
  function PutFrame(w: State, f: Frame): State
    requires w.Valid()
  {
    PutKeepsValid(w, [f.kind]);
    var w1 := Put(w, [f.kind]);
    PutKeepsValid(w1, EncodeU32(Truncate32(|f.payload|)));
    var w2 := Put(w1, EncodeU32(Truncate32(|f.payload|)));
    Put(w2, f.payload)
  }

  function PutFrames(w: State, fs: seq<Frame>): State
    requires w.Valid()
    decreases |fs|
  {
    if fs == [] then w
    else
      PutFrameKeepsValid(w, fs[0]);
      PutFrames(PutFrame(w, fs[0]), fs[1..])
  }

  lemma {:induction false} PutKeepsValid(w: State, p: seq<byte>)
    requires w.Valid()
    ensures Put(w, p).Valid() && Put(w, p).size == w.size && Put(w, p).budget == w.budget && Put(w, p).part == w.part
    ensures w.failed ==> Put(w, p) == w
    decreases |p|, |w.buffered|
  {
    if !w.failed && |p| > w.size - |w.buffered| && w.buffered != [] {
      var n := w.size - |w.buffered|;
      var topped := Flush(w.(buffered := w.buffered + p[..n]));
      if !topped.failed {
        PutKeepsValid(topped, p[n..]);
      }
    }
  }

  lemma PutFrameKeepsValid(w: State, f: Frame)
    requires w.Valid()
    ensures PutFrame(w, f).Valid() && PutFrame(w, f).size == w.size
    ensures PutFrame(w, f).budget == w.budget && PutFrame(w, f).part == w.part
    ensures w.failed ==> PutFrame(w, f) == w
  {
    hide Put;
    var w1 := Put(w, [f.kind]);
    PutKeepsValid(w, [f.kind]);
    var w2 := Put(w1, EncodeU32(Truncate32(|f.payload|)));
    PutKeepsValid(w1, EncodeU32(Truncate32(|f.payload|)));
    PutKeepsValid(w2, f.payload);
  }

  lemma FlushAccepts(w: State)
    ensures !Flush(w).failed ==> Flush(w).Accepted() == w.Accepted() && Flush(w).buffered == []
  {
    FlattenSnoc(w.emitted, w.buffered);
  }

  /** A write that does not fail accepts exactly its bytes, behind those
      accepted before: nothing is lost, repeated or reordered. */
  lemma {:induction false} PutAccepts(w: State, p: seq<byte>)
    requires w.Valid()
    ensures !Put(w, p).failed ==> Put(w, p).Accepted() == w.Accepted() + p
    decreases |p|, |w.buffered|
  {
    if w.failed {
    } else if |p| <= w.size - |w.buffered| {
      assert w.Accepted() + p == Flatten(w.emitted) + (w.buffered + p);
    } else if w.buffered == [] {
      FlattenSnoc(w.emitted, p);
    } else {
      var n := w.size - |w.buffered|;
      var full := w.(buffered := w.buffered + p[..n]);
      FlushAccepts(full);
      assert full.Accepted() == w.Accepted() + p[..n];
      if !Flush(full).failed {
        PutAccepts(Flush(full), p[n..]);
        assert p == p[..n] + p[n..];
      }
    }
  }

  lemma PutFrameAccepts(w: State, f: Frame)
    requires w.Valid()
    ensures !PutFrame(w, f).failed ==> !w.failed && PutFrame(w, f).Accepted() == w.Accepted() + EncodeFrame(f)
  {
    hide Put, EncodeU32;
    var length := EncodeU32(Truncate32(|f.payload|));
    var w1 := Put(w, [f.kind]);
    PutKeepsValid(w, [f.kind]);
    PutAccepts(w, [f.kind]);
    var w2 := Put(w1, length);
    PutKeepsValid(w1, length);
    PutAccepts(w1, length);
    PutKeepsValid(w2, f.payload);
    PutAccepts(w2, f.payload);
    if !PutFrame(w, f).failed {
      assert w.Accepted() + [f.kind] + length + f.payload == w.Accepted() + EncodeFrame(f);
    }
  }

  /** Frames written and flushed reach the connection whole and in order. */
  lemma {:induction false} PutFramesAccepts(w: State, fs: seq<Frame>)
    requires w.Valid()
    ensures PutFrames(w, fs).Valid()
    ensures PutFrames(w, fs).size == w.size && PutFrames(w, fs).budget == w.budget
    ensures !PutFrames(w, fs).failed ==> !w.failed && PutFrames(w, fs).Accepted() == w.Accepted() + EncodeFrames(fs)
    decreases |fs|
  {
    hide PutFrame, EncodeFrame;
    if fs == [] {
      assert w.Accepted() + EncodeFrames(fs) == w.Accepted();
    } else {
      var next := PutFrame(w, fs[0]);
      PutFrameKeepsValid(w, fs[0]);
      PutFrameAccepts(w, fs[0]);
      PutFramesAccepts(next, fs[1..]);
      assert w.Accepted() + EncodeFrames(fs) == w.Accepted() + EncodeFrame(fs[0]) + EncodeFrames(fs[1..]);
    }
  }

  /** After a successful flush a new writer has emitted exactly its frames. */
  lemma FlushedFrames(w: State, fs: seq<Frame>)
    requires w.emitted == [] && w.buffered == []
    ensures PutFrames(w, fs).Valid()
    ensures var f := Flush(PutFrames(w, fs));
            !f.failed ==> f.buffered == [] && Flatten(f.emitted) == EncodeFrames(fs)
  {
    hide PutFrames, Flush;
    PutFramesAccepts(w, fs);
    var p := PutFrames(w, fs);
    FlushAccepts(p);
    var f := Flush(p);
    if !f.failed {
      FlushKeepsFailure(p);
      assert w.Accepted() == [];
      assert f.Accepted() == Flatten(f.emitted) + [] == Flatten(f.emitted);
    }
  }

  lemma FlushKeepsFailure(w: State)
    ensures w.failed ==> Flush(w).failed
  {
  }

  lemma PutFramesSnoc(w: State, fs: seq<Frame>, f: Frame)
    requires w.Valid()
    ensures PutFrames(w, fs).Valid()
    ensures PutFrames(w, fs + [f]) == PutFrame(PutFrames(w, fs), f)
    decreases |fs|
  {
    hide PutFrame;
    PutFramesAccepts(w, fs);
    PutFrameKeepsValid(w, (fs + [f])[0]);
    if fs == [] {
      assert (fs + [f])[1..] == [];
    } else {
      assert (fs + [f])[1..] == fs[1..] + [f];
      PutFramesSnoc(PutFrame(w, fs[0]), fs[1..], f);
    }
  }

  // ---------- When writing fails, and what has gone out then ----------

  /** What a write of `n` bytes costs a buffer filled to `fill`: the number of
      emissions, and how full it is afterwards. */
  function PutCost(size: nat, fill: nat, n: nat): (nat, nat)
    requires fill <= size
  {
    if n <= size - fill then (0, fill + n)
    else if fill == 0 then (1, 0)
    else
      var left := n - (size - fill);
      if left <= size then (1, left) else (2, 0)
  }

  /** The emissions of a list of frames, the last flush included. */
  function SendCost(size: nat, fill: nat, fs: seq<Frame>): nat
    requires fill <= size
    decreases |fs|
  {
    if fs == [] then if fill == 0 then 0 else 1
    else
      var a := PutCost(size, fill, 1);
      var b := PutCost(size, a.1, 4);
      var c := PutCost(size, b.1, |fs[0].payload|);
      a.0 + b.0 + c.0 + SendCost(size, c.1, fs[1..])
  }

  lemma PutCostExactly(w: State, p: seq<byte>)
    requires w.Valid() && !w.failed
    ensures var cost := PutCost(w.size, |w.buffered|, |p|);
            && (Put(w, p).failed <==> |w.emitted| + cost.0 > w.budget)
            && (!Put(w, p).failed ==> |Put(w, p).emitted| == |w.emitted| + cost.0 && |Put(w, p).buffered| == cost.1)
  {
    if |p| > w.size - |w.buffered| && w.buffered != [] {
      var n := w.size - |w.buffered|;
      var topped := Flush(w.(buffered := w.buffered + p[..n]));
      if !topped.failed {
        assert topped.buffered == [] && |p[n..]| == |p| - n;
      }
    }
  }

  /** Writing frames and flushing succeeds exactly if the connection takes as
      many emissions as they cost. */
  lemma {:induction false} SendCostExactly(w: State, fs: seq<Frame>)
    requires w.Valid() && !w.failed
    ensures PutFrames(w, fs).Valid()
    ensures !Flush(PutFrames(w, fs)).failed <==> |w.emitted| + SendCost(w.size, |w.buffered|, fs) <= w.budget
    decreases |fs|
  {
    hide Put, PutCost, EncodeU32;
    PutFramesAccepts(w, fs);
    if fs != [] {
      var f := fs[0];
      var length := EncodeU32(Truncate32(|f.payload|));
      var w1 := Put(w, [f.kind]);
      PutKeepsValid(w, [f.kind]);
      PutCostExactly(w, [f.kind]);
      PutKeepsValid(w1, length);
      var w2 := Put(w1, length);
      PutKeepsValid(w2, f.payload);
      var w3 := Put(w2, f.payload);
      PutFramesAccepts(w3, fs[1..]);
      FlushKeepsFailure(PutFrames(w3, fs[1..]));
      if !w1.failed {
        PutCostExactly(w1, length);
        if !w2.failed {
          PutCostExactly(w2, f.payload);
          if !w3.failed {
            SendCostExactly(w3, fs[1..]);
          }
        }
      }
    }
  }

  lemma FlattenPrefix(a: seq<seq<byte>>, p: seq<byte>, n: nat)
    requires n <= |p|
    ensures Flatten(a + [p[..n]]) <= Flatten(a) + p
  {
    FlattenSnoc(a, p[..n]);
  }

  lemma FlushDelivers(w: State)
    requires !w.failed
    ensures Flatten(Flush(w).emitted) <= w.Accepted()
  {
    if w.buffered != [] {
      FlattenPrefix(w.emitted, w.buffered, |w.buffered|);
      FlattenPrefix(w.emitted, w.buffered, if w.part < |w.buffered| then w.part else |w.buffered|);
      assert w.buffered[..|w.buffered|] == w.buffered;
    }
  }

  lemma {:induction false} PutDelivers(w: State, p: seq<byte>)
    requires w.Valid() && !w.failed
    ensures Flatten(Put(w, p).emitted) <= w.Accepted() + p
    decreases |p|, |w.buffered|
  {
    if |p| <= w.size - |w.buffered| {
    } else if w.buffered == [] {
      FlattenPrefix(w.emitted, p, |p|);
      FlattenPrefix(w.emitted, p, if w.part < |p| then w.part else |p|);
      assert p[..|p|] == p;
    } else {
      var n := w.size - |w.buffered|;
      var full := w.(buffered := w.buffered + p[..n]);
      ToppedUp(w, p, n);
      FlushDelivers(full);
      FlushAccepts(full);
      if !Flush(full).failed {
        PutDelivers(Flush(full), p[n..]);
      }
    }
  }

  lemma ToppedUp(w: State, p: seq<byte>, n: nat)
    requires n <= |p|
    ensures w.(buffered := w.buffered + p[..n]).Accepted() + p[n..] == w.Accepted() + p
  {
    hide Flatten;
    assert p == p[..n] + p[n..];
  }

  lemma PutFrameDelivers(w: State, f: Frame)
    requires w.Valid() && !w.failed
    ensures Flatten(PutFrame(w, f).emitted) <= w.Accepted() + EncodeFrame(f)
  {
    hide Put, EncodeU32;
    var length := EncodeU32(Truncate32(|f.payload|));
    var w1 := Put(w, [f.kind]);
    PutKeepsValid(w, [f.kind]);
    PutAccepts(w, [f.kind]);
    PutDelivers(w, [f.kind]);
    PutKeepsValid(w1, length);
    var w2 := Put(w1, length);
    PutKeepsValid(w2, f.payload);
    assert w.Accepted() + EncodeFrame(f) == w.Accepted() + [f.kind] + length + f.payload;
    if !w1.failed {
      PutAccepts(w1, length);
      PutDelivers(w1, length);
      if !w2.failed {
        PutDelivers(w2, f.payload);
      }
    }
  }

  // What a failing emission would do does not matter to one that works.

  lemma {:induction false} PutIgnoresPart(w: State, p: seq<byte>, part: nat)
    requires w.Valid() && !Put(w, p).failed
    ensures Put(w.(part := part), p) == Put(w, p).(part := part)
    decreases |p|, |w.buffered|
  {
    if !w.failed && |p| > w.size - |w.buffered| && w.buffered != [] {
      var n := w.size - |w.buffered|;
      var full := w.(buffered := w.buffered + p[..n]);
      assert Flush(full.(part := part)) == Flush(full).(part := part);
      PutIgnoresPart(Flush(full), p[n..], part);
    }
  }

  lemma PutFrameIgnoresPart(w: State, f: Frame, part: nat)
    requires w.Valid() && !PutFrame(w, f).failed
    ensures PutFrame(w.(part := part), f) == PutFrame(w, f).(part := part)
  {
    hide Put, EncodeU32;
    var length := EncodeU32(Truncate32(|f.payload|));
    var w1 := Put(w, [f.kind]);
    PutKeepsValid(w, [f.kind]);
    PutKeepsValid(w.(part := part), [f.kind]);
    var w2 := Put(w1, length);
    PutKeepsValid(w1, length);
    PutKeepsValid(w1.(part := part), length);
    PutKeepsValid(w2, f.payload);
    PutIgnoresPart(w, [f.kind], part);
    PutIgnoresPart(w1, length, part);
    PutIgnoresPart(w2, f.payload, part);
  }

  lemma {:induction false} PutFramesIgnorePart(w: State, fs: seq<Frame>, part: nat)
    requires w.Valid() && !PutFrames(w, fs).failed
    ensures PutFrames(w.(part := part), fs) == PutFrames(w, fs).(part := part)
    decreases |fs|
  {
    hide PutFrame;
    if fs != [] {
      PutFrameKeepsValid(w, fs[0]);
      if PutFrame(w, fs[0]).failed {
        FailedStays(PutFrame(w, fs[0]), fs[1..]);
      }
      PutFrameIgnoresPart(w, fs[0], part);
      PutFramesIgnorePart(PutFrame(w, fs[0]), fs[1..], part);
    }
  }

  /** Whenever the connection fails, what has gone out is a prefix of the
      frames' bytes. */
  lemma {:induction false} PutFramesDeliver(w: State, fs: seq<Frame>)
    requires w.Valid() && !w.failed
    ensures PutFrames(w, fs).Valid()
    ensures Flatten(Flush(PutFrames(w, fs)).emitted) <= w.Accepted() + EncodeFrames(fs)
    decreases |fs|
  {
    hide PutFrame, EncodeFrame;
    PutFramesAccepts(w, fs);
    if fs == [] {
      FlushDelivers(w);
      assert w.Accepted() + EncodeFrames(fs) == w.Accepted();
    } else {
      var next := PutFrame(w, fs[0]);
      PutFrameKeepsValid(w, fs[0]);
      PutFrameAccepts(w, fs[0]);
      PutFrameDelivers(w, fs[0]);
      assert w.Accepted() + EncodeFrames(fs) == w.Accepted() + EncodeFrame(fs[0]) + EncodeFrames(fs[1..]);
      if next.failed {
        FailedStays(next, fs[1..]);
      } else {
        PutFramesDeliver(next, fs[1..]);
      }
    }
  }

  lemma {:induction false} FailedStays(w: State, fs: seq<Frame>)
    requires w.Valid() && w.failed
    ensures PutFrames(w, fs) == w && Flush(PutFrames(w, fs)) == w
    decreases |fs|
  {
    hide PutFrame;
    if fs != [] {
      PutFrameKeepsValid(w, fs[0]);
      FailedStays(w, fs[1..]);
    }
  }

  // ---------- The writer object ----------

  class Writer {
    const size: nat
    const budget: nat
    const part: nat
    var emitted: seq<seq<byte>>
    var buffered: seq<byte>
    var failed: bool

    function View(): State
      reads this
    {
      State(size, budget, part, emitted, buffered, failed)
    }

    ghost predicate Valid()
      reads this
    {
      View().Valid()
    }

    constructor (size: nat, budget: nat, part: nat)
      ensures Valid() && View() == NewState(size, budget, part)
    {
      this.size, this.budget, this.part := size, budget, part;
      emitted, buffered, failed := [], [], false;
    }

    /** One call on the underlying writer. */
    method EmitBytes(p: seq<byte>)
      requires !failed
      modifies this`emitted, this`failed
      ensures View() == Emit(old(View()), p)
    {
      if |emitted| < budget {
        emitted := emitted + [p];
      } else {
        emitted := emitted + [p[..if part < |p| then part else |p|]];
        failed := true;
      }
    }

    method FlushBuffer()
      requires Valid()
      modifies this
      ensures Valid() && View() == Flush(old(View()))
    {
      if failed || buffered == [] { return; }
      EmitBytes(buffered);
      if !failed {
        buffered := [];
      }
    }

    method Write(p: seq<byte>)
      requires Valid()
      modifies this
      ensures Valid() && View() == Put(old(View()), p)
    {
      var todo := p;
      while !failed && |todo| > size - |buffered|
        invariant Valid()
        invariant Put(View(), todo) == Put(old(View()), p)
        decreases !failed, |todo|, |buffered|
      {
        if buffered == [] {
          EmitBytes(todo);
          todo := [];
        } else {
          var n := size - |buffered|;
          buffered := buffered + todo[..n];
          FlushBuffer();
          todo := todo[n..];
        }
      }
      if !failed {
        buffered := buffered + todo;
      }
    }
  }

  /** `MarshalRaw`: the type, the length and the payload, one after another;
      an earlier error makes the later writes no-ops. */
  method MarshalRaw(w: Writer, kind: byte, data: seq<byte>)
    requires w.Valid()
    modifies w
    ensures w.Valid() && w.View() == PutFrame(old(w.View()), Frame(kind, data))
  {
    ghost var before := w.View();
    w.Write([kind]);
    w.Write(EncodeU32(Truncate32(|data|)));
    w.Write(data);
    PutFrameKeepsValid(before, Frame(kind, data));
  }
}
