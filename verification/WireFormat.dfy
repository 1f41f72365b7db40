/** What stands on the wire, byte by byte (internal/protocol/protocol.go:105-136,
    internal/transfer/transfer.go:227-242, 285-346). */
module WireFormat {
  import opened Bytes
  import opened Protocol
  import opened ChunkCodec
  import opened Cipher
  import Transfer

  /** The number a byte string stands for, most significant byte first. */
  function BigEndian(s: seq<byte>): nat
    decreases |s|
  {
    if s == [] then 0 else 256 * BigEndian(s[..|s| - 1]) + s[|s| - 1]
  }

  function Power(n: nat): (p: nat)
    ensures p > 0
  {
    if n == 0 then 1 else 256 * Power(n - 1)
  }

  lemma Word(s: seq<byte>)
    requires |s| == 4
    ensures BigEndian(s) == DecodeU32(s)
  {
    assert s[..3][..2] == s[..2] && s[..2][..1] == s[..1] && s[..1][..0] == [];
    assert BigEndian(s[..1]) == 256 * BigEndian(s[..1][..0]) + s[0] == s[0];
    assert BigEndian(s[..2]) == 256 * BigEndian(s[..2][..1]) + s[1];
    assert BigEndian(s[..3]) == 256 * BigEndian(s[..3][..2]) + s[2];
  }

  lemma {:induction false} BigEndianAppend(a: seq<byte>, b: seq<byte>)
    ensures BigEndian(a + b) == Power(|b|) * BigEndian(a) + BigEndian(b)
    decreases |b|
  {
    if b == [] {
      assert a + b == a;
    } else {
      var n := |b| - 1;
      assert (a + b)[..|a + b| - 1] == a + b[..n] && (a + b)[|a + b| - 1] == b[n];
      BigEndianAppend(a, b[..n]);
      assert 256 * (Power(n) * BigEndian(a)) == 256 * Power(n) * BigEndian(a);
    }
  }

  lemma FourBytes()
    ensures Power(4) == TWO_32
  {
    assert Power(2) == 65536;
  }

  /** Words are written most significant byte first. */
  lemma WordsAreBigEndian(x: uint32, s: seq<byte>)
    requires |s| == 4
    ensures EncodeU32(x) == s <==> BigEndian(s) == x
  {
    hide EncodeU32, DecodeU32;
    Word(s);
    DecodeEncodeU32(x);
    EncodeDecodeU32(s);
  }

  /** So are offsets, a negative one in two's complement. */
  lemma OffsetsAreBigEndian(x: int64, s: seq<byte>)
    requires |s| == 8
    ensures EncodeI64(x) == s <==> BigEndian(s) == if x < 0 then x + TWO_64 else x
  {
    hide EncodeU32, DecodeU32, BigEndian, Power;
    assert s[..4] + s[4..] == s;
    BigEndianAppend(s[..4], s[4..]);
    FourBytes();
    Word(s[..4]);
    Word(s[4..]);
    DecodeEncodeI64(x);
    EncodeDecodeI64(s);
    DecodedSign(s, x);
  }

  lemma DecodedSign(s: seq<byte>, x: int64)
    requires |s| == 8
    ensures DecodeU64(s) == DecodeU32(s[..4]) * TWO_32 + DecodeU32(s[4..])
    ensures DecodeI64(s) == x <==> DecodeU64(s) == if x < 0 then x + TWO_64 else x
  {
    hide DecodeU32;
  }

  // ---------- Frames ----------

  /** A frame: its type, the length of its payload in four bytes, the payload. */
  lemma FrameOnWire(f: Frame, s: seq<byte>)
    ensures EncodeFrame(f) == s <==>
              && |s| == 5 + |f.payload|
              && s[0] == f.kind && BigEndian(s[1..5]) == |f.payload| % TWO_32 && s[5..] == f.payload
  {
    hide EncodeU32, BigEndian;
    if |s| >= 5 {
      WordsAreBigEndian(|f.payload| % TWO_32, s[1..5]);
      assert s == [s[0]] + s[1..5] + s[5..];
    }
    EncodedLayout(f, []);
    assert EncodeFrame(f) + [] == EncodeFrame(f);
  }

  /** A chunk in its frame: type 4 and the length; then the length of the id, the
      id, the offset in eight bytes, the length of the data and the checksum in
      four each, and the data. */
  lemma ChunkOnWire(c: Chunk, s: seq<byte>)
    requires |c.id| < 256 && |c.data| + |c.id| + 17 < TWO_32
    ensures EncodeChunk(c) == s <==>
              var at := 6 + |c.id|;
              && |s| == at + 16 + |c.data|
              && s[0] == 4 && BigEndian(s[1..5]) == |s| - 5
              && s[5] == |c.id| && s[6..at] == c.id
              && BigEndian(s[at..at + 8]) == (if c.offset < 0 then c.offset + TWO_64 else c.offset)
              && BigEndian(s[at + 8..at + 12]) == |c.data|
              && BigEndian(s[at + 12..at + 16]) == c.checksum
              && s[at + 16..] == c.data
  {
    hide EncodeU32, EncodeI64, BigEndian, EncodeFrame, EncodeBody;
    BodyLayout(c, []);
    assert EncodeBody(c) + [] == EncodeBody(c);
    FrameOnWire(Frame(MSG_CHUNK, EncodeBody(c)), s);
    var at := 6 + |c.id|;
    if |s| == at + 16 + |c.data| {
      OffsetsAreBigEndian(c.offset, s[at..at + 8]);
      WordsAreBigEndian(|c.data|, s[at + 8..at + 12]);
      WordsAreBigEndian(c.checksum, s[at + 12..at + 16]);
      BodyIs(c, s[5..]);
      Slices(s, at);
    }
  }

  lemma Slices(s: seq<byte>, at: nat)
    requires 6 <= at <= |s| - 16
    ensures s[5..][0] == s[5] && s[5..][1..at - 5] == s[6..at]
    ensures s[5..][at - 5..at + 3] == s[at..at + 8] && s[5..][at + 3..at + 7] == s[at + 8..at + 12]
    ensures s[5..][at + 7..at + 11] == s[at + 12..at + 16] && s[5..][at + 11..] == s[at + 16..]
  {
  }

  lemma BodyIs(c: Chunk, b: seq<byte>)
    requires |c.id| < 256 && |c.data| < TWO_32 && |b| == 17 + |c.id| + |c.data|
    ensures var at := 1 + |c.id|;
            EncodeBody(c) == b <==>
              && b[0] == |c.id| && b[1..at] == c.id && b[at..at + 8] == EncodeI64(c.offset)
              && b[at + 8..at + 12] == EncodeU32(|c.data|) && b[at + 12..at + 16] == EncodeU32(c.checksum)
              && b[at + 16..] == c.data
  {
    hide EncodeU32, EncodeI64;
    var at := 1 + |c.id|;
    assert b == b[..1] + b[1..at] + b[at..at + 8] + b[at + 8..at + 12] + b[at + 12..at + 16] + b[at + 16..];
    BodyLayout(c, []);
    assert EncodeBody(c) + [] == EncodeBody(c);
  }

  /** A packet on the connection: type 7, and the sealed chunk. */
  lemma PacketOnWire(cipher: Cipher, n: nat, c: Chunk, f: Frame)
    ensures Transfer.Packet(cipher, n, c) == Some(f) <==>
              f.kind == 7 && cipher.seal(n, EncodeChunk(c)) == Some(f.payload)
  {
  }
}
