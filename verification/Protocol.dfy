/** Length-prefixed framing: a one-byte message type, a four-byte big-endian
    length and the payload (internal/protocol/protocol.go). */
module Protocol {
  import opened Bytes

  const MSG_FILE_OFFER: byte := 1
  const MSG_CHUNK: byte := 4
  const MSG_ENCRYPTED_PACKET: byte := 7

  const CHUNK_SIZE: nat := 256 * 1024
  const HEADER_SIZE: nat := 5

  datatype Frame = Frame(kind: byte, payload: seq<byte>)

  /** The outcome of reading one frame off the front of a byte string. */
  datatype Parsed = Error | Parsed(frame: Frame, rest: seq<byte>)

  /** The length field is `uint32(len(data))`, so it wraps for huge payloads. */
  function EncodeFrame(f: Frame): seq<byte> {
    [f.kind] + EncodeU32(Truncate32(|f.payload|)) + f.payload
  }

  function EncodeFrames(fs: seq<Frame>): seq<byte> {
    if fs == [] then [] else EncodeFrame(fs[0]) + EncodeFrames(fs[1..])
  }

  function ParseFrame(s: seq<byte>): Parsed {
    if |s| < HEADER_SIZE then Error
    else
      var length := DecodeU32(s[1..5]);
      if |s| < HEADER_SIZE + length then Error
      else Parsed(Frame(s[0], s[5..5 + length]), s[5 + length..])
  }

  /** What a read loop sees: frames until the first read error. */
  function ParseFrames(s: seq<byte>): seq<Frame>
    decreases |s|
  {
    match ParseFrame(s)
    case Error => []
    case Parsed(f, rest) => [f] + ParseFrames(rest)
  }

  /** The bytes left when the read loop stops. */
  function Leftover(s: seq<byte>): seq<byte>
    decreases |s|
  {
    match ParseFrame(s)
    case Error => s
    case Parsed(f, rest) => Leftover(rest)
  }

  predicate Fits(f: Frame) { |f.payload| < TWO_32 }

  predicate AllFit(fs: seq<Frame>) { forall i :: 0 <= i < |fs| ==> Fits(fs[i]) }

  // ---------- Reading back what was written ----------

  lemma EncodedLayout(f: Frame, tail: seq<byte>)
    ensures var s := EncodeFrame(f) + tail;
            && |EncodeFrame(f)| == HEADER_SIZE + |f.payload|
            && s[0] == f.kind
            && s[1..5] == EncodeU32(Truncate32(|f.payload|))
            && s[5..] == f.payload + tail
  {
  }

  /** One frame reads back, whatever follows it, exactly when its payload is
      shorter than 2^32 bytes. */
  lemma ParseEncodedFrame(f: Frame, tail: seq<byte>)
    ensures ParseFrame(EncodeFrame(f) + tail) == Parsed(f, tail) <==> Fits(f)
  {
    var s := EncodeFrame(f) + tail;
    EncodedLayout(f, tail);
    DecodeEncodeU32(Truncate32(|f.payload|));
    if Fits(f) {
      assert s[5..5 + |f.payload|] == s[5..][..|f.payload|];
      assert s[5 + |f.payload|..] == s[5..][|f.payload|..];
    }
  }

  /** Conversely a successful read took the encoding of what it returned. */
  lemma ParseIsInverse(s: seq<byte>)
    ensures ParseFrame(s).Parsed? ==>
              && s == EncodeFrame(ParseFrame(s).frame) + ParseFrame(s).rest
              && Fits(ParseFrame(s).frame)
              && |ParseFrame(s).rest| < |s|
  {
    if ParseFrame(s).Parsed? {
      EncodeDecodeU32(s[1..5]);
      var n := DecodeU32(s[1..5]);
      assert s == [s[0]] + s[1..5] + s[5..5 + n] + s[5 + n..];
    }
  }

  /** Every proper prefix of a frame makes the read fail. */
  lemma TruncatedFrameFails(f: Frame, k: nat)
    requires Fits(f) && k < |EncodeFrame(f)|
    ensures ParseFrame(EncodeFrame(f)[..k]) == Error
  {
    hide DecodeU32, EncodeU32;
    var s := EncodeFrame(f)[..k];
    EncodedLayout(f, []);
    assert EncodeFrame(f) + [] == EncodeFrame(f);
    if HEADER_SIZE <= k {
      assert s[1..5] == EncodeFrame(f)[1..5];
      DecodeEncodeU32(|f.payload|);
    }
  }

  /** No encoded frame is a proper prefix of another one. */
  lemma PrefixFree(f: Frame, g: Frame)
    requires Fits(f) && Fits(g) && EncodeFrame(f) <= EncodeFrame(g)
    ensures f == g
  {
    var tail := EncodeFrame(g)[|EncodeFrame(f)|..];
    assert EncodeFrame(g) == EncodeFrame(f) + tail;
    ParseEncodedFrame(f, tail);
    ParseEncodedFrame(g, []);
    assert EncodeFrame(g) + [] == EncodeFrame(g);
  }

  lemma ParseFramesNext(f: Frame, s: seq<byte>)
    requires Fits(f)
    ensures ParseFrames(EncodeFrame(f) + s) == [f] + ParseFrames(s)
    ensures Leftover(EncodeFrame(f) + s) == Leftover(s)
  {
    hide ParseFrame, EncodeFrame;
    ParseEncodedFrame(f, s);
  }

  /** Parsing the concatenation of any frame list yields that list and goes on
      with the bytes behind it. */
  lemma {:induction false} ParseEncodedFrames(fs: seq<Frame>, tail: seq<byte>)
    requires AllFit(fs)
    ensures ParseFrames(EncodeFrames(fs) + tail) == fs + ParseFrames(tail)
    ensures Leftover(EncodeFrames(fs) + tail) == Leftover(tail)
  {
    hide ParseFrames, Leftover, EncodeFrame;
    if fs == [] {
      assert EncodeFrames(fs) + tail == tail;
    } else {
      var s := EncodeFrames(fs[1..]) + tail;
      assert EncodeFrames(fs) + tail == EncodeFrame(fs[0]) + s;
      ParseFramesNext(fs[0], s);
      ParseEncodedFrames(fs[1..], tail);
      assert fs == [fs[0]] + fs[1..];
    }
  }

  lemma ParseWholeStream(fs: seq<Frame>)
    requires AllFit(fs)
    ensures ParseFrames(EncodeFrames(fs)) == fs && Leftover(EncodeFrames(fs)) == []
  {
    ParseEncodedFrames(fs, []);
    assert EncodeFrames(fs) + [] == EncodeFrames(fs);
  }

  /** Any byte string is the encoding of the frames read from it, followed by
      a leftover that does not start with a frame. */
  lemma {:induction false} StreamIsParsedFrames(s: seq<byte>)
    ensures s == EncodeFrames(ParseFrames(s)) + Leftover(s)
    ensures AllFit(ParseFrames(s)) && ParseFrame(Leftover(s)) == Error
    decreases |s|
  {
    hide ParseFrame, EncodeFrame, DecodeU32, EncodeU32;
    match ParseFrame(s)
    case Error =>
    case Parsed(f, rest) =>
      ParseIsInverse(s);
      StreamIsParsedFrames(rest);
      var frames := ParseFrames(rest);
      assert ParseFrames(s) == [f] + frames && ([f] + frames)[1..] == frames;
      assert EncodeFrames([f] + frames) == EncodeFrame(f) + EncodeFrames(frames);
  }

  /** A stream cut at any byte parses to a prefix of its frames. */
  lemma {:induction false} CutStreamParsesToPrefix(fs: seq<Frame>, n: nat) returns (p: nat)
    requires AllFit(fs) && n <= |EncodeFrames(fs)|
    ensures p <= |fs| && ParseFrames(EncodeFrames(fs)[..n]) == fs[..p]
    ensures n == |EncodeFrames(fs)| ==> p == |fs|
  {
    hide ParseFrame, EncodeFrame;
    var s := EncodeFrames(fs);
    if fs == [] {
      EncodedLayout(Frame(0, []), []);
      TruncatedFrameFails(Frame(0, []), 0);
      assert s[..n] == EncodeFrame(Frame(0, []))[..0];
      p := 0;
    } else if n < |EncodeFrame(fs[0])| {
      assert s[..n] == EncodeFrame(fs[0])[..n];
      TruncatedFrameFails(fs[0], n);
      p := 0;
    } else {
      var m := n - |EncodeFrame(fs[0])|;
      var q := CutStreamParsesToPrefix(fs[1..], m);
      assert s[..n] == EncodeFrame(fs[0]) + EncodeFrames(fs[1..])[..m];
      ParseEncodedFrame(fs[0], EncodeFrames(fs[1..])[..m]);
      p := q + 1;
      assert fs[..p] == [fs[0]] + fs[1..][..q];
    }
  }

  lemma EncodeFramesAppend(fs: seq<Frame>, gs: seq<Frame>)
    ensures EncodeFrames(fs + gs) == EncodeFrames(fs) + EncodeFrames(gs)
  {
    if fs == [] {
      assert fs + gs == gs;
    } else {
      assert (fs + gs)[1..] == fs[1..] + gs;
      EncodeFramesAppend(fs[1..], gs);
    }
  }

  /** A byte string decomposes into frames in at most one way. */
  lemma UniqueDecomposition(fs: seq<Frame>, gs: seq<Frame>)
    requires AllFit(fs) && AllFit(gs)
    ensures EncodeFrames(fs) == EncodeFrames(gs) <==> fs == gs
  {
    ParseWholeStream(fs);
    ParseWholeStream(gs);
  }

  /** A run of whole frames is a byte string the reader consumes completely. */
  ghost predicate WholeFrames(s: seq<byte>) {
    exists fs :: AllFit(fs) && s == EncodeFrames(fs)
  }

  lemma WholeFramesIffNothingLeft(s: seq<byte>)
    ensures WholeFrames(s) <==> Leftover(s) == []
  {
    StreamIsParsedFrames(s);
    if WholeFrames(s) {
      var fs :| AllFit(fs) && s == EncodeFrames(fs);
      ParseWholeStream(fs);
    }
    if Leftover(s) == [] {
      assert s == EncodeFrames(ParseFrames(s));
    }
  }

  // ---------- The reading side ----------

  /** An `io.Reader` over bytes that have arrived: what is still unread. */
  class Reader {
    var rest: seq<byte>

    constructor (input: seq<byte>)
      ensures rest == input
    {
      rest := input;
    }

    /** `io.ReadFull`: all `n` bytes, or everything is consumed and it fails. */
    method ReadFull(n: nat) returns (data: Option<seq<byte>>)
      modifies this
      ensures n <= |old(rest)| ==> data == Some(old(rest)[..n]) && rest == old(rest)[n..]
      ensures n > |old(rest)| ==> data == None && rest == []
    {
      if n <= |rest| {
        data := Some(rest[..n]);
        rest := rest[n..];
      } else {
        data := None;
        rest := [];
      }
    }
  }

  /** Reads the type, the length and then exactly that many payload bytes. */
  method Unmarshal(r: Reader) returns (frame: Option<Frame>)
    modifies r
    ensures match ParseFrame(old(r.rest))
            case Error => frame == None
            case Parsed(f, rest) => frame == Some(f) && r.rest == rest
  {
    ghost var s := r.rest;
    var kind := r.ReadFull(1);
    if kind == None { return None; }
    var length := r.ReadFull(4);
    if length == None { return None; }
    assert length.value == s[1..5];
    var data := r.ReadFull(DecodeU32(length.value));
    if data == None { return None; }
    assert s[5..][..DecodeU32(length.value)] == s[5..5 + DecodeU32(length.value)];
    frame := Some(Frame(kind.value[0], data.value));
  }
}
