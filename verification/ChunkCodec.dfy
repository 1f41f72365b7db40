/** The binary form of a chunk (internal/transfer/transfer.go:285-346):
    id length (1 byte), id, offset (8), data length (4), checksum (4), data. */
module ChunkCodec {
  import opened Bytes
  import opened Protocol
  import opened BufferedWriter

  datatype Chunk = Chunk(id: seq<byte>, offset: int64, data: seq<byte>, checksum: uint32)

  /** The bytes behind the id that come before the data. */
  const FIXED_SIZE: nat := 16

  /** `byte(len(id))` and `uint32(len(data))` truncate. */
  function EncodeBody(c: Chunk): seq<byte> {
    [|c.id| % 256] + c.id + EncodeI64(c.offset) + EncodeU32(Truncate32(|c.data|)) + EncodeU32(c.checksum) + c.data
  }

  function DecodeBody(blob: seq<byte>): Option<Chunk> {
    if blob == [] then None
    else
      var idLen: nat := blob[0];
      var at := 1 + idLen;
      if |blob| < at + FIXED_SIZE then None
      else
        var dataLen := DecodeU32(blob[at + 8..at + 12]);
        if |blob| < at + FIXED_SIZE + dataLen then None
        else Some(Chunk(
                    blob[1..at], DecodeI64(blob[at..at + 8]),
                    blob[at + FIXED_SIZE..at + FIXED_SIZE + dataLen], DecodeU32(blob[at + 12..at + FIXED_SIZE])))
  }

  predicate Encodable(c: Chunk) { |c.id| < 256 && |c.data| < TWO_32 }

  lemma BodyLayout(c: Chunk, tail: seq<byte>)
    ensures var s := EncodeBody(c) + tail;
            var at := 1 + |c.id|;
            && |EncodeBody(c)| == at + FIXED_SIZE + |c.data|
            && s[0] == |c.id| % 256
            && s[1..at] == c.id
            && s[at..at + 8] == EncodeI64(c.offset)
            && s[at + 8..at + 12] == EncodeU32(Truncate32(|c.data|))
            && s[at + 12..at + FIXED_SIZE] == EncodeU32(c.checksum)
            && s[at + FIXED_SIZE..at + FIXED_SIZE + |c.data|] == c.data
  {
    hide EncodeI64, EncodeU32, Truncate32;
  }

  /** Decoding inverts encoding, whatever bytes follow, exactly when the id
      length fits its byte and the data length its 32 bits. */
  lemma DecodeEncoded(c: Chunk, tail: seq<byte>)
    ensures DecodeBody(EncodeBody(c) + tail) == Some(c) <==> Encodable(c)
  {
    hide EncodeI64, EncodeU32, DecodeI64, DecodeU32, EncodeBody;
    BodyLayout(c, tail);
    DecodeEncodeI64(c.offset);
    DecodeEncodeU32(Truncate32(|c.data|));
    DecodeEncodeU32(c.checksum);
    DecodedIsEncodable(EncodeBody(c) + tail);
  }

  lemma DecodedIsEncodable(blob: seq<byte>)
    ensures DecodeBody(blob).Some? ==> Encodable(DecodeBody(blob).value)
  {
    hide DecodeI64, DecodeU32;
  }

  /** Every proper prefix of an encoding is refused. */
  lemma TruncatedBodyFails(c: Chunk, k: nat)
    requires Encodable(c) && k < |EncodeBody(c)|
    ensures DecodeBody(EncodeBody(c)[..k]) == None
  {
    hide EncodeI64, EncodeU32, DecodeI64, DecodeU32, EncodeBody;
    var whole := EncodeBody(c);
    BodyLayout(c, []);
    assert whole + [] == whole;
    var at := 1 + |c.id|;
    if at + FIXED_SIZE <= k {
      assert whole[..k][at + 8..at + 12] == whole[at + 8..at + 12];
      DecodeEncodeU32(|c.data|);
    }
  }

  lemma Glue(s: seq<byte>, i: nat, j: nat)
    requires i <= j <= |s|
    ensures s[..i] + s[i..j] == s[..j]
  {
  }

  /** Whatever decodes was a well-formed encoding, possibly with bytes behind
      it that the decoder leaves unread. */
  lemma DecodedIsPrefix(blob: seq<byte>)
    ensures DecodeBody(blob).Some? ==> Encodable(DecodeBody(blob).value) && EncodeBody(DecodeBody(blob).value) <= blob
  {
    hide EncodeI64, EncodeU32, DecodeI64, DecodeU32;
    if DecodeBody(blob).Some? {
      var c := DecodeBody(blob).value;
      var idLen: nat := blob[0];
      var at := 1 + idLen;
      EncodeDecodeI64(blob[at..at + 8]);
      EncodeDecodeU32(blob[at + 8..at + 12]);
      EncodeDecodeU32(blob[at + 12..at + FIXED_SIZE]);
      DecodedIsEncodable(blob);
      assert [|c.id| % 256] == blob[..1];
      Glue(blob, 1, at);
      Glue(blob, at, at + 8);
      Glue(blob, at + 8, at + 12);
      Glue(blob, at + 12, at + FIXED_SIZE);
      Glue(blob, at + FIXED_SIZE, at + FIXED_SIZE + |c.data|);
    }
  }

  /** The plaintext of a data packet: the chunk body framed as `MsgChunk`. */
  function EncodeChunk(c: Chunk): seq<byte> {
    EncodeFrame(Frame(MSG_CHUNK, EncodeBody(c)))
  }

  /** What the receiver makes of a decrypted packet that frames a chunk. */
  function DecodeChunk(plain: seq<byte>): Option<Chunk> {
    match ParseFrame(plain)
    case Error => None
    case Parsed(f, _) => if f.kind == MSG_CHUNK then DecodeBody(f.payload) else None
  }

  lemma EncodedSizes(c: Chunk)
    ensures |EncodeBody(c)| == 17 + |c.id| + |c.data|
    ensures |EncodeChunk(c)| == 22 + |c.id| + |c.data|
  {
    BodyLayout(c, []);
    EncodedLayout(Frame(MSG_CHUNK, EncodeBody(c)), []);
  }

  lemma DecodeEncodedChunk(c: Chunk)
    requires Encodable(c) && |EncodeBody(c)| < TWO_32
    ensures ParseFrame(EncodeChunk(c)) == Parsed(Frame(MSG_CHUNK, EncodeBody(c)), [])
    ensures DecodeBody(EncodeBody(c)) == Some(c)
    ensures DecodeChunk(EncodeChunk(c)) == Some(c)
  {
    hide EncodeBody, DecodeBody, EncodeFrame, ParseFrame;
    ParseEncodedFrame(Frame(MSG_CHUNK, EncodeBody(c)), []);
    assert EncodeChunk(c) + [] == EncodeChunk(c);
    DecodeEncoded(c, []);
    assert EncodeBody(c) + [] == EncodeBody(c);
  }

  // ---------- The methods ----------

  method MarshalChunkBody(c: Chunk) returns (blob: seq<byte>)
    ensures blob == EncodeBody(c)
  {
    hide Put;
    var buf := new Writer(0, 6, 0);
    UnbufferedPut(buf.View(), [|c.id| % 256]);
    buf.Write([|c.id| % 256]);
    UnbufferedPut(buf.View(), c.id);
    buf.Write(c.id);
    UnbufferedPut(buf.View(), EncodeI64(c.offset));
    buf.Write(EncodeI64(c.offset));
    UnbufferedPut(buf.View(), EncodeU32(Truncate32(|c.data|)));
    buf.Write(EncodeU32(Truncate32(|c.data|)));
    UnbufferedPut(buf.View(), EncodeU32(c.checksum));
    buf.Write(EncodeU32(c.checksum));
    UnbufferedPut(buf.View(), c.data);
    buf.Write(c.data);
    hide EncodeI64, EncodeU32;
    blob := buf.View().Accepted();
  }

  /** A writer without a buffer accepts a write in at most one emission. */
  lemma UnbufferedPut(w: State, p: seq<byte>)
    requires w.Valid() && w.size == 0 && !w.failed && |w.emitted| < w.budget
    ensures !Put(w, p).failed && |Put(w, p).emitted| <= |w.emitted| + 1
    ensures Put(w, p).Accepted() == w.Accepted() + p
  {
    PutAccepts(w, p);
  }

  lemma ShortBlob(blob: seq<byte>)
    ensures blob == [] ==> DecodeBody(blob) == None
    ensures blob != [] && |blob| < 1 + blob[0] as int + FIXED_SIZE ==> DecodeBody(blob) == None
  {
  }

  lemma FullBlob(blob: seq<byte>, at: nat)
    requires blob != [] && at == 1 + blob[0] as int && at + FIXED_SIZE <= |blob|
    ensures var n: nat := DecodeU32(blob[at + 8..at + 12]);
            if |blob| < at + FIXED_SIZE + n then DecodeBody(blob) == None
            else DecodeBody(blob) ==
                 Some(Chunk(blob[1..at], DecodeI64(blob[at..at + 8]), blob[at + FIXED_SIZE..at + FIXED_SIZE + n],
                            DecodeU32(blob[at + 12..at + FIXED_SIZE])))
  {
    hide DecodeI64, DecodeU32;
  }

  /** Reads field after field and fails on the first short read. */
  method DecodeChunkBlob(blob: seq<byte>) returns (chunk: Option<Chunk>)
    ensures chunk == DecodeBody(blob)
  {
    hide DecodeI64, DecodeU32, DecodeBody;
    ShortBlob(blob);
    var r := new Reader(blob);
    var idLen := r.ReadFull(1);
    if idLen == None { return None; }
    var n: nat := idLen.value[0];
    ghost var at := 1 + n;
    assert r.rest == blob[1..] && n == blob[0];
    var id := r.ReadFull(n);
    if id == None { return None; }
    SliceOfRest(blob, 1, n);
    assert r.rest == blob[at..];
    var offset := r.ReadFull(8);
    if offset == None { return None; }
    SliceOfRest(blob, at, 8);
    assert r.rest == blob[at + 8..];
    var dataLen := r.ReadFull(4);
    if dataLen == None { return None; }
    SliceOfRest(blob, at + 8, 4);
    assert r.rest == blob[at + 12..];
    var checksum := r.ReadFull(4);
    if checksum == None { return None; }
    SliceOfRest(blob, at + 12, 4);
    assert r.rest == blob[at + FIXED_SIZE..];
    FullBlob(blob, at);
    var data := r.ReadFull(DecodeU32(dataLen.value));
    if data == None { return None; }
    SliceOfRest(blob, at + FIXED_SIZE, |data.value|);
    chunk := Some(Chunk(id.value, DecodeI64(offset.value), data.value, DecodeU32(checksum.value)));
  }
}
