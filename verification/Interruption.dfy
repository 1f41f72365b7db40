/** A frame of one writer that gets between two parts of a frame of another
    (internal/host/host.go:46-64). When can the receiver still read all of them? */
module Interruption {
  import opened Bytes
  import opened Protocol

  /** The frames with one more put in. */
  function Inserted(fs: seq<Frame>, p: nat, g: Frame): seq<Frame>
    requires p <= |fs|
  {
    fs[..p] + [g] + fs[p..]
  }

  /** The bytes of the frames, with `g` after `cut` bytes of frame `m`. */
  function Interrupted(fs: seq<Frame>, m: nat, cut: nat, g: Frame): seq<byte>
    requires m < |fs| && cut <= |EncodeFrame(fs[m])|
  {
    EncodeFrames(fs[..m]) + EncodeFrame(fs[m])[..cut] + EncodeFrame(g)
    + EncodeFrame(fs[m])[cut..] + EncodeFrames(fs[m + 1..])
  }

  /** The receiver reads all the frames, in some order that keeps the writers'. */
  ghost predicate Unnoticed(fs: seq<Frame>, m: nat, cut: nat, g: Frame)
    requires m < |fs| && cut <= |EncodeFrame(fs[m])|
  {
    exists p: nat :: p <= |fs| && Interrupted(fs, m, cut, g) == EncodeFrames(Inserted(fs, p, g))
  }

  predicate Commute(x: seq<byte>, y: seq<byte>) { x + y == y + x }

  /** The bytes between the cut and place `p`: what is out of frame `m` already
      if the place is before it, else the rest of it and the frames up to there. */
  function Between(fs: seq<Frame>, m: nat, cut: nat, p: nat): seq<byte>
    requires m < |fs| && cut <= |EncodeFrame(fs[m])| && m <= p <= |fs|
  {
    if p == m then EncodeFrame(fs[m])[..cut] else EncodeFrame(fs[m])[cut..] + EncodeFrames(fs[m + 1..p])
  }

  // ---------- Exactly ----------

  lemma EncodeOne(fs: seq<Frame>)
    requires fs != []
    ensures EncodeFrames(fs) == EncodeFrame(fs[0]) + EncodeFrames(fs[1..])
  {
  }

  lemma SingleEncodes(g: Frame)
    ensures EncodeFrames([g]) == EncodeFrame(g)
  {
    EncodeOne([g]);
    assert EncodeFrames([g]) == EncodeFrame(g) + [];
  }

  lemma EncodeInserted(fs: seq<Frame>, p: nat, g: Frame)
    requires p <= |fs|
    ensures EncodeFrames(Inserted(fs, p, g)) == EncodeFrames(fs[..p]) + EncodeFrame(g) + EncodeFrames(fs[p..])
  {
    hide EncodeFrames, EncodeFrame;
    EncodeFramesAppend(fs[..p] + [g], fs[p..]);
    EncodeFramesAppend(fs[..p], [g]);
    SingleEncodes(g);
  }

  lemma EncodeFrom(fs: seq<Frame>, m: nat)
    requires m < |fs|
    ensures EncodeFrames(fs[m..]) == EncodeFrame(fs[m]) + EncodeFrames(fs[m + 1..])
  {
    hide EncodeFrame;
    EncodeOne(fs[m..]);
    assert fs[m..][1..] == fs[m + 1..];
  }

  lemma EncodeUpTo(fs: seq<Frame>, m: nat, p: nat)
    requires m < p <= |fs|
    ensures EncodeFrames(fs[..p]) == EncodeFrames(fs[..m]) + EncodeFrame(fs[m]) + EncodeFrames(fs[m + 1..p])
    ensures EncodeFrames(fs[m + 1..]) == EncodeFrames(fs[m + 1..p]) + EncodeFrames(fs[p..])
  {
    hide EncodeFrames, EncodeFrame;
    assert fs[..p] == fs[..m] + [fs[m]] + fs[m + 1..p] && fs[m + 1..] == fs[m + 1..p] + fs[p..];
    EncodeFramesAppend(fs[..m] + [fs[m]], fs[m + 1..p]);
    EncodeFramesAppend(fs[..m], [fs[m]]);
    SingleEncodes(fs[m]);
    EncodeFramesAppend(fs[m + 1..p], fs[p..]);
  }

  /** What two words have in common in front and behind does not matter. */
  lemma Cancel(before: seq<byte>, x: seq<byte>, y: seq<byte>, after: seq<byte>)
    ensures before + x + y + after == before + y + x + after <==> Commute(x, y)
  {
    var left, right, n := before + x + y + after, before + y + x + after, |before| + |x| + |y|;
    assert left[|before|..n] == x + y && right[|before|..n] == y + x;
    assert Commute(x, y) ==> left == before + (x + y) + after && right == before + (y + x) + after;
  }

  /** Read at place `p`, not before the cut frame, exactly if the frame put in
      commutes with what lies between. */
  lemma ReadAt(fs: seq<Frame>, m: nat, cut: nat, g: Frame, p: nat)
    requires m < |fs| && cut <= |EncodeFrame(fs[m])| && m <= p <= |fs|
    ensures Interrupted(fs, m, cut, g) == EncodeFrames(Inserted(fs, p, g)) <==>
            Commute(EncodeFrame(g), Between(fs, m, cut, p))
  {
    hide EncodeFrames, EncodeFrame, Commute;
    var before, head, tail := EncodeFrames(fs[..m]), EncodeFrame(fs[m])[..cut], EncodeFrame(fs[m])[cut..];
    assert EncodeFrame(fs[m]) == head + tail;
    EncodeInserted(fs, p, g);
    if p == m {
      EncodeFrom(fs, m);
      var after := tail + EncodeFrames(fs[m + 1..]);
      Cancel(before, EncodeFrame(g), head, after);
      assert Interrupted(fs, m, cut, g) == before + head + EncodeFrame(g) + after;
      assert EncodeFrames(Inserted(fs, p, g)) == before + EncodeFrame(g) + head + after;
    } else {
      EncodeUpTo(fs, m, p);
      var between, after := tail + EncodeFrames(fs[m + 1..p]), EncodeFrames(fs[p..]);
      Cancel(before + head, EncodeFrame(g), between, after);
      assert Interrupted(fs, m, cut, g) == before + head + EncodeFrame(g) + between + after;
      assert EncodeFrames(Inserted(fs, p, g)) == before + head + between + EncodeFrame(g) + after;
    }
  }

  /** If the first frames are read before anything else, the one put in among
      them might as well have come behind them. */
  lemma SameFrames(fs: seq<Frame>, m: nat, p: nat, g: Frame, wire: seq<byte>)
    requires AllFit(fs) && Fits(g) && p <= m <= |fs|
    requires EncodeFrames(fs[..m]) <= wire && EncodeFrames(fs[..p] + [g] + fs[p..m]) <= wire
    ensures EncodeFrames(fs[..p] + [g] + fs[p..m]) == EncodeFrames(fs[..m]) + EncodeFrame(g)
  {
    hide EncodeFrame, EncodeFrames, ParseFrames, Leftover;
    var x, before := fs[..p] + [g] + fs[p..m], EncodeFrames(fs[..m]);
    EncodeFramesAppend(fs[..p], [g]);
    EncodeFramesAppend(fs[..p] + [g], fs[p..m]);
    EncodeFramesAppend(fs[..p], fs[p..m]);
    assert fs[..m] == fs[..p] + fs[p..m];
    SingleEncodes(g);
    assert |EncodeFrames(x)| == |before| + |EncodeFrame(g)|;
    var t := EncodeFrames(x)[|before|..];
    assert EncodeFrames(x)[..|before|] == wire[..|before|] == before;
    assert EncodeFrames(x) == before + t;
    ParseEncodedFrames(fs[..m], t);
    ParseWholeStream(x);
    var rest := ParseFrames(t);
    assert x == fs[..m] + rest;
    assert multiset(x) == multiset(fs[..m]) + multiset{g};
    LastOne(fs[..m], rest, g);
    EncodeFramesAppend(fs[..m], [g]);
  }

  lemma LastOne(before: seq<Frame>, rest: seq<Frame>, g: Frame)
    requires |rest| == 1 && multiset(before + rest) == multiset(before) + multiset{g}
    ensures rest == [g]
  {
    var all := multiset(before);
    assert multiset(before + rest) == all + multiset(rest);
    assert (all + multiset{g})[g] == all[g] + 1;
    assert (all + multiset(rest))[g] == all[g] + multiset(rest)[g];
    assert g in multiset(rest);
  }

  /** Read further in front, it can be read right before the cut frame. */
  lemma ReadEarlier(fs: seq<Frame>, m: nat, cut: nat, g: Frame, p: nat)
    requires AllFit(fs) && Fits(g) && m < |fs| && cut <= |EncodeFrame(fs[m])| && p <= m
    requires Interrupted(fs, m, cut, g) == EncodeFrames(Inserted(fs, p, g))
    ensures Interrupted(fs, m, cut, g) == EncodeFrames(Inserted(fs, m, g))
  {
    hide EncodeFrame, EncodeFrames;
    var wire, x := Interrupted(fs, m, cut, g), fs[..p] + [g] + fs[p..m];
    assert Inserted(fs, p, g) == x + fs[m..];
    EncodeFramesAppend(x, fs[m..]);
    SameFrames(fs, m, p, g, wire);
    EncodeInserted(fs, m, g);
  }

  /** An interruption goes unnoticed exactly if the bytes of the frame put in
      commute with those between the cut and some place between two frames. */
  lemma UnnoticedExactly(fs: seq<Frame>, m: nat, cut: nat, g: Frame)
    requires AllFit(fs) && Fits(g) && m < |fs| && cut <= |EncodeFrame(fs[m])|
    ensures Unnoticed(fs, m, cut, g) <==>
            exists p :: m <= p <= |fs| && Commute(EncodeFrame(g), Between(fs, m, cut, p))
  {
    hide Interrupted, EncodeFrame, EncodeFrames, Inserted, Between, Commute;
    if Unnoticed(fs, m, cut, g) {
      var p: nat :| p <= |fs| && Interrupted(fs, m, cut, g) == EncodeFrames(Inserted(fs, p, g));
      if p < m {
        ReadEarlier(fs, m, cut, g, p);
      }
      var q := if p < m then m else p;
      ReadAt(fs, m, cut, g, q);
      assert Commute(EncodeFrame(g), Between(fs, m, cut, q));
    }
    if exists p :: m <= p <= |fs| && Commute(EncodeFrame(g), Between(fs, m, cut, p)) {
      var p: nat :| m <= p <= |fs| && Commute(EncodeFrame(g), Between(fs, m, cut, p));
      ReadAt(fs, m, cut, g, p);
    }
  }

  // ---------- Which frames are noticed ----------

  /** A frame of another length, put behind the length field, is noticed unless
      the next byte of the cut frame looks like its type. */
  lemma OtherLengthIsNoticed(fs: seq<Frame>, m: nat, cut: nat, g: Frame)
    requires AllFit(fs) && Fits(g) && m < |fs| && HEADER_SIZE <= cut < |EncodeFrame(fs[m])|
    requires |g.payload| != |fs[m].payload| && EncodeFrame(fs[m])[cut] != g.kind
    ensures !Unnoticed(fs, m, cut, g)
  {
    hide EncodeFrame, EncodeFrames, EncodeU32, DecodeU32, Interrupted, Inserted, Unnoticed;
    var f, x := fs[m], EncodeFrame(g);
    EncodedLayout(f, []);
    EncodedLayout(g, []);
    assert EncodeFrame(f) + [] == EncodeFrame(f) && x + [] == x;
    DecodeEncodeU32(|f.payload|);
    DecodeEncodeU32(|g.payload|);
    UnnoticedExactly(fs, m, cut, g);
    forall p | m <= p <= |fs| ensures !Commute(x, Between(fs, m, cut, p)) {
      var y := Between(fs, m, cut, p);
      if p == m {
        assert (x + y)[1..5] == x[1..5] && (y + x)[1..5] == y[1..5] == EncodeFrame(f)[1..5];
      } else {
        assert (x + y)[0] == g.kind && (y + x)[0] == y[0] == EncodeFrame(f)[cut..][0];
      }
    }
  }

  /** A word that commutes with a given one is known from its length. */
  lemma {:induction false} CommuteDetermines(w: seq<byte>, x: seq<byte>, y: seq<byte>)
    requires w != [] && |x| == |y| && Commute(x, w) && Commute(y, w)
    ensures x == y
    decreases |x|
  {
    if |x| <= |w| {
      assert x == (x + w)[..|x|] == w[..|x|] == (y + w)[..|y|] == y;
    } else {
      var n := |w|;
      assert x[..n] == (x + w)[..n] == w == (y + w)[..n] == y[..n];
      assert x == w + x[n..] && y == w + y[n..];
      StripWord(w, x[n..]);
      StripWord(w, y[n..]);
      CommuteDetermines(w, x[n..], y[n..]);
    }
  }

  lemma StripWord(w: seq<byte>, x: seq<byte>)
    requires Commute(w + x, w)
    ensures Commute(x, w)
  {
    assert x + w == (w + x + w)[|w|..] == (w + (w + x))[|w|..] == w + x;
  }

  /** A word that commutes with a longer one commutes with the front of it. */
  lemma CommuteFront(x: seq<byte>, y: seq<byte>)
    requires Commute(x, y) && |x| <= |y|
    ensures y[..|x|] == x
  {
    assert x == (x + y)[..|x|] == (y + x)[..|x|] == y[..|x|];
  }

  lemma CommuteSelf(x: seq<byte>)
    ensures Commute(x, x)
  {
  }

  /** The words an unnoticed frame can commute with: what is out of the cut
      frame, or the first `c` bytes still to come. */
  function Word(fs: seq<Frame>, m: nat, cut: nat, c: nat): seq<byte>
    requires m < |fs| && cut <= |EncodeFrame(fs[m])| && c <= |Between(fs, m, cut, |fs|)|
  {
    if c == 0 then EncodeFrame(fs[m])[..cut] else Between(fs, m, cut, |fs|)[..c]
  }

  lemma BetweenGrows(fs: seq<Frame>, m: nat, cut: nat, p: nat)
    requires m < p <= |fs| && cut < |EncodeFrame(fs[m])|
    ensures Between(fs, m, cut, p) != [] && Between(fs, m, cut, p) <= Between(fs, m, cut, |fs|)
  {
    hide EncodeFrame, EncodeFrames;
    EncodeUpTo(fs, m, p);
    assert fs[m + 1..|fs|] == fs[m + 1..];
    assert Between(fs, m, cut, |fs|) == Between(fs, m, cut, p) + EncodeFrames(fs[p..]);
  }

  lemma CutHead(fs: seq<Frame>, m: nat, cut: nat)
    requires m < |fs| && cut <= |EncodeFrame(fs[m])|
    ensures Between(fs, m, cut, m) == EncodeFrame(fs[m])[..cut]
  {
  }

  lemma WordOf(fs: seq<Frame>, m: nat, cut: nat, g: Frame) returns (c: nat)
    requires AllFit(fs) && Fits(g) && m < |fs| && 0 < cut < |EncodeFrame(fs[m])| && Unnoticed(fs, m, cut, g)
    ensures c <= |EncodeFrame(g)| && c <= |Between(fs, m, cut, |fs|)|
    ensures Word(fs, m, cut, c) != [] && Commute(EncodeFrame(g), Word(fs, m, cut, c))
  {
    hide EncodeFrame, EncodeFrames, Unnoticed, Commute, Between;
    UnnoticedExactly(fs, m, cut, g);
    EncodedLayout(g, []);
    var p: nat :| m <= p <= |fs| && Commute(EncodeFrame(g), Between(fs, m, cut, p));
    if p == m {
      CutHead(fs, m, cut);
      c := 0;
    } else {
      var x, y, all := EncodeFrame(g), Between(fs, m, cut, p), Between(fs, m, cut, |fs|);
      BetweenGrows(fs, m, cut, p);
      if |x| <= |y| {
        CommuteFront(x, y);
        c := |x|;
        assert all[..c] == all[..|y|][..c] == x;
        assert Word(fs, m, cut, c) == x;
        CommuteSelf(x);
      } else {
        c := |y|;
        assert Word(fs, m, cut, c) == y;
      }
    }
  }

  /** Among one more number than there are values, two are equal. */
  lemma {:induction false} Pigeonhole(cs: seq<nat>, n: nat) returns (i: nat, j: nat)
    requires |cs| > n && forall k :: 0 <= k < |cs| ==> cs[k] < n
    ensures i < j < |cs| && cs[i] == cs[j]
    decreases n
  {
    var last := |cs| - 1;
    assert cs[last] < n;
    if k :| 0 <= k < last && cs[k] == cs[last] {
      return k, last;
    }
    // Move the largest value into the gap the last one leaves.
    var rest := Rename(cs[..last], n - 1, cs[last]);
    i, j := Pigeonhole(rest, n - 1);
  }

  function Rename(cs: seq<nat>, from: nat, to: nat): (r: seq<nat>)
    ensures |r| == |cs| && forall k :: 0 <= k < |cs| ==> r[k] == if cs[k] == from then to else cs[k]
  {
    if cs == [] then [] else [if cs[0] == from then to else cs[0]] + Rename(cs[1..], from, to)
  }

  /** Different frames of one length, more of them than the frame has bytes. */
  ghost predicate Several(gs: seq<Frame>, length: nat) {
    && |gs| > HEADER_SIZE + length + 1
    && (forall i :: 0 <= i < |gs| ==> Fits(gs[i]) && |gs[i].payload| == length)
    && (forall i, j :: 0 <= i < j < |gs| ==> gs[i] != gs[j])
  }

  /** Wherever a frame is cut, one of several different frames of the same
      length is noticed when it gets into the cut. */
  lemma SomeIsNoticed(fs: seq<Frame>, m: nat, cut: nat, gs: seq<Frame>, length: nat) returns (i: nat)
    requires AllFit(fs) && m < |fs| && 0 < cut < |EncodeFrame(fs[m])| && Several(gs, length)
    ensures i < |gs| && !Unnoticed(fs, m, cut, gs[i])
  {
    hide EncodeFrame, EncodeFrames, Unnoticed, Commute, Word, Between;
    var all := |Between(fs, m, cut, |fs|)|;
    i := 0;
    var cs: seq<nat> := [];
    while i < |gs| && Unnoticed(fs, m, cut, gs[i])
      invariant i <= |gs| && |cs| == i
      invariant forall k :: 0 <= k < i ==> cs[k] < HEADER_SIZE + length + 1 && cs[k] <= all
      invariant forall k :: 0 <= k < i ==>
                  Word(fs, m, cut, cs[k]) != [] && Commute(EncodeFrame(gs[k]), Word(fs, m, cut, cs[k]))
    {
      EncodedLayout(gs[i], []);
      var c := WordOf(fs, m, cut, gs[i]);
      cs := cs + [c];
      i := i + 1;
    }
    if i == |gs| {
      var j, k := Pigeonhole(cs, HEADER_SIZE + length + 1);
      EncodedLayout(gs[j], []);
      EncodedLayout(gs[k], []);
      CommuteDetermines(Word(fs, m, cut, cs[j]), EncodeFrame(gs[j]), EncodeFrame(gs[k]));
      PrefixFree(gs[j], gs[k]);
      assert false;
    }
  }
}
