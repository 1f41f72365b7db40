/** The receiving end of a file (internal/transfer/transfer.go:362-428) over a
    file system of names, inodes and contents. */
module FileWriting {
  import opened Bytes
  import opened ChunkCodec
  import opened Protocol
  import Crc32

  // ---------- Files ----------

  /** Names point to inodes: an open file keeps its inode when it is renamed. */
  datatype Disk = Disk(names: map<string, nat>, data: map<nat, seq<byte>>, next: nat)
  {
    ghost predicate Valid() {
      && (forall p :: p in names ==> names[p] in data)
      && (forall i :: i in data ==> i < next)
    }

    function Content(path: string): Option<seq<byte>> {
      if path in names && names[path] in data then Some(data[names[path]]) else None
    }
  }

  function Zeros(n: nat): (z: seq<byte>)
    ensures |z| == n && forall i :: 0 <= i < n ==> z[i] == 0
  {
    if n == 0 then [] else Zeros(n - 1) + [0]
  }

  /** Writing at an offset: a gap before it reads as zeros; writing nothing
      leaves the file alone even beyond its end. */
  function WriteAt(content: seq<byte>, offset: nat, data: seq<byte>): (r: seq<byte>)
  {
    if data == [] then content
    else
      var padded := if offset <= |content| then content else content + Zeros(offset - |content|);
      padded[..offset] + data + (if offset + |data| <= |padded| then padded[offset + |data|..] else [])
  }

  /** `os.Create`: truncate the file of that name or make a new one. */
  function Create(d: Disk, path: string): (r: (Disk, nat))
    requires d.Valid()
    ensures r.0.Valid() && r.1 in r.0.data && r.0.data[r.1] == []
    ensures r.0.names == d.names[path := r.1]
  {
    if path in d.names then
      (d.(data := d.data[d.names[path] := []]), d.names[path])
    else
      (Disk(d.names[path := d.next], d.data[d.next := []], d.next + 1), d.next)
  }

  function WriteInode(d: Disk, inode: nat, offset: nat, data: seq<byte>): Disk
    requires inode in d.data
  {
    d.(data := d.data[inode := WriteAt(d.data[inode], offset, data)])
  }

  /** `os.Rename` replaces the target and fails if the source is missing. */
  function Rename(d: Disk, from: string, to: string): Option<Disk> {
    if from !in d.names then None
    else Some(d.(names := (d.names - {from})[to := d.names[from]]))
  }

  function Remove(d: Disk, path: string): Disk {
    d.(names := d.names - {path})
  }

  // ---------- The writer's specification ----------

  datatype WriterState = WriterState(inode: nat, path: string, size: int64, offset: int64, open: bool)

  /** What the operating system does with the seek and the write. */
  datatype Io = Works | SeekFails | WriteFails(written: nat)

  /** The code's range test, in wrapping 64-bit arithmetic. */
  predicate OutOfRange(size: int64, offset: int64, len: nat) {
    offset < 0 || offset >= size || Wrap64(offset + len) > size
  }

  /** The range test it is meant to be. */
  predicate BeyondFile(size: int64, offset: int64, len: nat) {
    offset < 0 || offset >= size || offset + len > size
  }

  predicate Acceptable(size: int64, c: Chunk) {
    !OutOfRange(size, c.offset, |c.data|) && Crc32.Checksum(c.data) == c.checksum
  }

  datatype WriteResult = WriteResult(writer: WriterState, disk: Disk, ok: bool)

  function ChunkWritten(w: WriterState, d: Disk, c: Chunk, io: Io): WriteResult
    requires w.inode in d.data
  {
    if !Acceptable(w.size, c) then WriteResult(w, d, false)
    else if !w.open || io.SeekFails? then WriteResult(w, d, false)
    else if io.WriteFails? then
      var part := c.data[..if io.written < |c.data| then io.written else |c.data|];
      WriteResult(w, WriteInode(d, w.inode, c.offset, part), false)
    else
      WriteResult(w.(offset := Wrap64(c.offset + |c.data|)), WriteInode(d, w.inode, c.offset, c.data), true)
  }

  // ---------- Range test ----------

  /** Sizes for which the wrapping test is right for every decodable chunk. */
  predicate SaneSize(size: int) { size <= TWO_63 - TWO_32 }

  /** For a given size and data length the two tests agree on every offset
      exactly when the largest admissible offset plus the length cannot
      wrap. */
  lemma RangeTestExact(size: int64, len: nat)
    requires len < TWO_32
    ensures (forall o: int64 :: OutOfRange(size, o, len) <==> BeyondFile(size, o, len)) <==>
            (size <= 0 || size + len <= TWO_63)
  {
    if size > 0 && size + len > TWO_63 {
      var o: int64 := size - 1;
      assert Wrap64(o + len) < 0;
      assert !OutOfRange(size, o, len) && BeyondFile(size, o, len);
    }
  }

  lemma RangeTestSane(size: int64, offset: int64, len: nat)
    requires SaneSize(size) && len < TWO_32
    ensures OutOfRange(size, offset, len) <==> BeyondFile(size, offset, len)
    ensures !OutOfRange(size, offset, len) ==> Wrap64(offset + len) == offset + len
  {
  }

  // ---------- Refinement: the last writer wins ----------

  datatype Progress = Progress(content: seq<byte>, offset: int)

  function Step(size: int64, p: Progress, c: Chunk): Progress {
    if Acceptable(size, c) then Progress(WriteAt(p.content, c.offset, c.data), Wrap64(c.offset + |c.data|)) else p
  }

  function Steps(size: int64, cs: seq<Chunk>): Progress {
    if cs == [] then Progress([], 0) else Step(size, Steps(size, cs[..|cs| - 1]), cs[|cs| - 1])
  }

  /** The bytes a file should show: what the last accepted chunk covering the
      position wrote there, and zero where no accepted chunk reached. */
  function LastWritten(size: int64, cs: seq<Chunk>, i: nat): byte {
    if cs == [] then 0
    else
      var c := cs[|cs| - 1];
      if Acceptable(size, c) && c.offset <= i < c.offset + |c.data| then c.data[i - c.offset]
      else LastWritten(size, cs[..|cs| - 1], i)
  }

  /** The end of the furthest non-empty accepted chunk. */
  function HighWater(size: int64, cs: seq<Chunk>): nat {
    if cs == [] then 0
    else
      var c := cs[|cs| - 1];
      var before := HighWater(size, cs[..|cs| - 1]);
      if Acceptable(size, c) && c.data != [] && c.offset + |c.data| > before then c.offset + |c.data| else before
  }

  lemma WriteAtPointwise(content: seq<byte>, offset: nat, data: seq<byte>)
    ensures var r := WriteAt(content, offset, data);
            && |r| == (if data == [] || offset + |data| <= |content| then |content| else offset + |data|)
    ensures forall i :: 0 <= i < |WriteAt(content, offset, data)| ==>
              WriteAt(content, offset, data)[i] ==
              if offset <= i < offset + |data| then data[i - offset] else if i < |content| then content[i] else 0
  {
  }

  /** Whatever chunks arrive, in whatever order, the file is the overlay of the
      accepted ones; it never outgrows the announced size and neither does the
      reported offset. */
  lemma {:induction false} FileIsOverlay(size: int64, cs: seq<Chunk>)
    requires 0 <= size && SaneSize(size) && forall c :: c in cs ==> |c.data| < TWO_32
    ensures |Steps(size, cs).content| == HighWater(size, cs) <= size
    ensures forall i :: 0 <= i < HighWater(size, cs) ==> Steps(size, cs).content[i] == LastWritten(size, cs, i)
    ensures forall i :: HighWater(size, cs) <= i ==> LastWritten(size, cs, i) == 0
    ensures 0 <= Steps(size, cs).offset <= size
    decreases |cs|
  {
    hide WriteAt, OutOfRange, Wrap64, Crc32.Checksum;
    if cs != [] {
      var before, c := cs[..|cs| - 1], cs[|cs| - 1];
      FileIsOverlay(size, before);
      RangeTestSane(size, c.offset, |c.data|);
      if Acceptable(size, c) {
        WriteAtPointwise(Steps(size, before).content, c.offset, c.data);
        assert HighWater(size, cs) == |Steps(size, cs).content|;
      }
    }
  }

  /** A whole life of an open file: the chunks are handed over one by one and
      the operating system does its part. Writing touches neither names nor
      other files and keeps the writer on its own file. */
  function WriteAll(w: WriterState, d: Disk, cs: seq<Chunk>): (r: (WriterState, Disk))
    requires w.inode in d.data
    ensures r.0 == w.(offset := r.0.offset)
    ensures w.inode in r.1.data && r.1.names == d.names && r.1.next == d.next
    ensures r.1.data == d.data[w.inode := r.1.data[w.inode]]
    decreases |cs|
  {
    if cs == [] then (w, d)
    else
      var before := WriteAll(w, d, cs[..|cs| - 1]);
      var last := ChunkWritten(before.0, before.1, cs[|cs| - 1], Works);
      (last.writer, last.disk)
  }

  /** From creation on, for any chunk sequence whatsoever, the file on disk is
      the last-writer-wins overlay, the offset stays within the size, and
      nothing else on the disk changes. */
  lemma {:induction false} WriterRefinesOverlay(d: Disk, path: string, size: int64, cs: seq<Chunk>)
    requires d.Valid()
    ensures var created := Create(d, path);
            var w := WriterState(created.1, path, size, 0, true);
            && -TWO_63 <= Steps(size, cs).offset < TWO_63
            && WriteAll(w, created.0, cs).0 == w.(offset := Steps(size, cs).offset)
            && WriteAll(w, created.0, cs).1 == created.0.(data := created.0.data[w.inode := Steps(size, cs).content])
    decreases |cs|
  {
    hide WriteAt, Acceptable, Wrap64;
    if cs != [] {
      WriterRefinesOverlay(d, path, size, cs[..|cs| - 1]);
    } else {
      assert Create(d, path).0.data == Create(d, path).0.data[Create(d, path).1 := []];
    }
  }

  /** A chunk whose data was damaged within at most 32 consecutive bits is
      refused, and neither the file nor the offset changes. */
  lemma BurstIsRefused(w: WriterState, d: Disk, c: Chunk, damaged: seq<byte>, start: nat, width: nat, io: Io)
    requires w.inode in d.data
    requires Crc32.Checksum(c.data) == c.checksum
    requires Crc32.Burst(c.data, damaged, start, width) && width <= 32
    ensures ChunkWritten(w, d, c.(data := damaged), io) == WriteResult(w, d, false)
  {
    Crc32.BurstChangesChecksum(c.data, damaged, start, width);
  }

  // ---------- One write and the end, outcome by outcome ----------

  /** The chunk lies inside the file and its data is intact. */
  predicate Fitting(size: int64, c: Chunk) {
    0 <= c.offset < size && c.offset + |c.data| <= size && Crc32.Checksum(c.data) == c.checksum
  }

  /** How many bytes of the chunk get to the disk. */
  function Landed(w: WriterState, c: Chunk, io: Io): nat {
    if !Fitting(w.size, c) || !w.open then 0
    else
      match io
      case Works => |c.data|
      case SeekFails => 0
      case WriteFails(written) => if written < |c.data| then written else |c.data|
  }

  /** A write succeeds exactly for a fitting chunk, an open file and a system
      that does its part, and only then the writer moves on. Whatever happens,
      the bytes that landed are in their place, a gap before them is zero, every
      other byte is as before, and so is every other file. */
  lemma WriteOutcome(w: WriterState, d: Disk, c: Chunk, io: Io)
    requires w.inode in d.data && SaneSize(w.size) && |c.data| < TWO_32
    ensures var r := ChunkWritten(w, d, c, io);
            && (r.ok <==> Fitting(w.size, c) && w.open && io.Works?)
            && r.writer == (if r.ok then w.(offset := c.offset + |c.data|) else w)
            && r.disk.names == d.names && r.disk.next == d.next && r.disk.data.Keys == d.data.Keys
            && forall inode :: inode in d.data && inode != w.inode ==> r.disk.data[inode] == d.data[inode]
    ensures var before, after, n := d.data[w.inode], ChunkWritten(w, d, c, io).disk.data[w.inode], Landed(w, c, io);
            && |after| == (if n == 0 || c.offset + n <= |before| then |before| else c.offset + n)
            && forall i :: 0 <= i < |after| ==>
                 after[i] == if c.offset <= i < c.offset + n then c.data[i - c.offset]
                             else if i < |before| then before[i] else 0
  {
    hide WriteAt, Crc32.Checksum, Wrap64;
    RangeTestSane(w.size, c.offset, |c.data|);
    if Fitting(w.size, c) {
      WriteAtPointwise(d.data[w.inode], c.offset, c.data[..Landed(w, c, io)]);
      assert c.data[..|c.data|] == c.data;
    }
  }

  /** Finishing closes an open file and fails on a closed one. A target of its
      own then takes over the file's inode, and the old name is gone; without
      one, or with the file's own name, no name changes. It succeeds unless the
      file's name has vanished. Contents stay. */
  lemma FinishOutcome(w: WriterState, d: Disk, dest: string)
    ensures var r, moves := FileFinished(w, d, dest), dest != "" && dest != w.path;
            && r.writer == w.(open := false)
            && (r.ok <==> w.open && (moves ==> w.path in d.names))
            && r.disk.data == d.data && r.disk.next == d.next
            && (forall path :: path in r.disk.names <==>
                  if r.ok && moves then path == dest || (path in d.names && path != w.path) else path in d.names)
            && (forall path :: path in r.disk.names ==>
                  r.disk.names[path] == if r.ok && moves && path == dest then d.names[w.path] else d.names[path])
  {
  }

  /** Removing takes away one name and nothing else. */
  lemma RemoveOutcome(d: Disk, path: string)
    ensures var r := Remove(d, path);
            && r.data == d.data && r.next == d.next
            && (forall p :: p in r.names <==> p in d.names && p != path)
            && (forall p :: p in r.names ==> r.names[p] == d.names[p])
  {
  }

  // ---------- The writer object ----------

  class FileSystem {
    var disk: Disk

    constructor (disk: Disk)
      ensures this.disk == disk
    {
      this.disk := disk;
    }
  }

  class FileWriter {
    const fs: FileSystem
    const inode: nat
    const path: string
    const size: int64
    var offset: int64
    var open: bool

    function View(): WriterState
      reads this
    {
      WriterState(inode, path, size, offset, open)
    }

    ghost predicate Valid()
      reads this, fs
    {
      fs.disk.Valid() && inode in fs.disk.data
    }

    /** `NewFileWriter`: create or truncate the file. */
    constructor (fs: FileSystem, path: string, size: int64)
      requires fs.disk.Valid()
      modifies fs
      ensures Valid() && this.fs == fs
      ensures fs.disk == Create(old(fs.disk), path).0
      ensures View() == WriterState(Create(old(fs.disk), path).1, path, size, 0, true)
    {
      var created := Create(fs.disk, path);
      this.fs := fs;
      inode := created.1;
      this.path := path;
      this.size := size;
      offset := 0;
      open := true;
      new;
      fs.disk := created.0;
    }

    method WriteChunk(c: Chunk, io: Io) returns (ok: bool)
      requires Valid()
      modifies this, fs
      ensures Valid() && fs.disk.data.Keys == old(fs.disk.data.Keys)
      ensures WriteResult(View(), fs.disk, ok) == ChunkWritten(old(View()), old(fs.disk), c, io)
    {
      hide WriteAt, Crc32.Checksum;
      if c.offset < 0 || c.offset >= size || Wrap64(c.offset + |c.data|) > size {
        return false;
      }
      var checksum := Crc32.Checksum(c.data);
      if checksum != c.checksum {
        return false;
      }
      if !open || io.SeekFails? {
        return false;
      }
      if io.WriteFails? {
        var n := if io.written < |c.data| then io.written else |c.data|;
        fs.disk := WriteInode(fs.disk, inode, c.offset, c.data[..n]);
        return false;
      }
      fs.disk := WriteInode(fs.disk, inode, c.offset, c.data);
      offset := Wrap64(c.offset + |c.data|);
      ok := true;
    }

    method Close()
      modifies this`open
      ensures View() == old(View()).(open := false)
    {
      open := false;
    }

    /** Closes the file and moves it to its final name. */
    method Finish(dest: string) returns (ok: bool)
      requires Valid()
      modifies this`open, fs
      ensures Valid() && fs.disk.data == old(fs.disk.data)
      ensures FinishResult(View(), fs.disk, ok) == FileFinished(old(View()), old(fs.disk), dest)
    {
      if !open { return false; }
      open := false;
      if dest != "" && dest != path {
        match Rename(fs.disk, path, dest)
        case None =>
          return false;
        case Some(d) =>
          fs.disk := d;
      }
      ok := true;
    }
  }

  datatype FinishResult = FinishResult(writer: WriterState, disk: Disk, ok: bool)

  /** Closing a closed file is an error, as is renaming a missing one. */
  function FileFinished(w: WriterState, d: Disk, dest: string): FinishResult {
    if !w.open then FinishResult(w, d, false)
    else
      var closed := w.(open := false);
      if dest == "" || dest == w.path then FinishResult(closed, d, true)
      else
        match Rename(d, w.path, dest)
        case None => FinishResult(closed, d, false)
        case Some(moved) => FinishResult(closed, moved, true)
  }
}
