/** The receiving side of a connection (internal/receiver/receiver.go): offers,
    open writers, and the loop that turns bytes into files. */
module Receiver {
  import opened Bytes
  import opened Protocol
  import opened ChunkCodec
  import opened FileWriting
  import opened Transfer
  import opened PeerStates
  import Paths
  import opened SavePath

  type Id = seq<byte>

  /** What goes back to the host. */
  datatype Answer = FileAccept(id: Id) | FileReject(id: Id)

  datatype Offer = Offer(id: Id, filename: string, size: int64, sender: string, folder: bool)

  // ---------- Specification ----------

  /** `dropped` is a closed progress channel; `progress` is what was sent on it. */
  datatype State = State(
    offers: map<Id, Offer>,
    writers: map<Id, WriterState>,
    savePaths: map<Id, string>,
    dirs: map<Id, string>,
    progress: seq<PeerProgress>,
    dropped: bool,
    disk: Disk)
  {
    ghost predicate Valid() {
      disk.Valid() && forall id :: id in writers ==> writers[id].inode in disk.data
    }
  }

  /** The disk after an attempt to restore a folder; a failed one leaves what it
      has made so far. */
  datatype Unpacked = Unpacked(disk: Disk, ok: bool)

  /** The surroundings: decryption with the session key, the JSON form of an
      offer, and the restoring of a received folder archive. */
  datatype Env = Env(
    peer: string,
    open: seq<byte> -> Option<seq<byte>>,
    offerOf: seq<byte> -> Option<Offer>,
    extract: (Disk, string, string) -> Unpacked)
  {
    /** Restoring a folder deletes no file content. */
    ghost predicate Sound() {
      forall d: Disk, path, folder :: d.Valid() ==>
        extract(d, path, folder).disk.Valid() && d.data.Keys <= extract(d, path, folder).disk.data.Keys
    }
  }

  function Send(s: State, p: PeerProgress): State {
    if s.dropped then s else s.(progress := s.progress + [p])
  }

  function Forget(s: State, id: Id): State {
    s.(writers := s.writers - {id}, savePaths := s.savePaths - {id}, dirs := s.dirs - {id})
  }

  function Lookup(m: map<Id, string>, id: Id): string {
    if id in m then m[id] else ""
  }

  function OfferReceived(s: State, offer: Offer): State {
    var clean := SanitizeFilename(offer.filename);
    if clean == "" then s else s.(offers := s.offers[offer.id := offer.(filename := clean)])
  }

  /** The bookkeeping goes first, then the rename, then the folder. */
  function TransferFinished(s: State, env: Env, id: Id, w: WriterState, offset: int64, total: int64): State {
    var savePath, folder := Lookup(s.savePaths, id), Lookup(s.dirs, id);
    var finish := FileFinished(w, s.disk, savePath);
    var s1 := Forget(s, id).(disk := finish.disk);
    var failed := PeerProgress(env.peer, id, offset, total, Failed);
    var completed := PeerProgress(env.peer, id, offset, total, Completed);
    if !finish.ok then Send(s1, failed)
    else if folder == "" then Send(s1, completed)
    else
      var restored := env.extract(finish.disk, savePath, folder);
      if restored.ok then Send(s1.(disk := Remove(restored.disk, savePath)), completed)
      else Send(s1.(disk := restored.disk), failed)
  }

  function ChunkHandled(s: State, env: Env, c: Chunk, io: Io): State
    requires s.Valid()
  {
    if c.id !in s.writers then s
    else
      var r := ChunkWritten(s.writers[c.id], s.disk, c, io);
      if !r.ok then
        Send(Forget(s, c.id).(disk := r.disk), PeerProgress(env.peer, c.id, 0, 0, Failed))
      else
        var w := r.writer;
        var s1 := Send(s.(writers := s.writers[c.id := w], disk := r.disk),
                       PeerProgress(env.peer, c.id, w.offset, w.size, InProgress));
        if w.offset >= w.size then TransferFinished(s1, env, c.id, w, w.offset, w.size) else s1
  }

  /** A decrypted packet: an offer, a chunk, or something without effect here. */
  function PacketHandled(s: State, env: Env, plain: seq<byte>, io: Io): State
    requires s.Valid()
  {
    match ParseFrame(plain)
    case Error => s
    case Parsed(f, _) =>
      if f.kind == MSG_FILE_OFFER then
        (match env.offerOf(f.payload)
         case None => s
         case Some(offer) => OfferReceived(s, offer))
      else if f.kind == MSG_CHUNK then
        match DecodeBody(f.payload)
        case None => s
        case Some(c) => ChunkHandled(s, env, c, io)
      else s
  }

  /** Frames of other kinds, and packets that do not open, are skipped. */
  function FrameHandled(s: State, env: Env, f: Frame, io: Io): State
    requires s.Valid()
  {
    if f.kind != MSG_ENCRYPTED_PACKET then s
    else
      match env.open(f.payload)
      case None => s
      case Some(plain) => PacketHandled(s, env, plain, io)
  }

  lemma ChunkHandledIsValid(s: State, env: Env, c: Chunk, io: Io)
    requires s.Valid() && env.Sound()
    ensures ChunkHandled(s, env, c, io).Valid()
  {
    hide ChunkWritten, TransferFinished;
    if c.id in s.writers {
      var r := ChunkWritten(s.writers[c.id], s.disk, c, io);
      ChunkWrittenKeeps(s.writers[c.id], s.disk, c, io);
      if r.ok {
        var w := r.writer;
        var s1 := Send(s.(writers := s.writers[c.id := w], disk := r.disk),
                       PeerProgress(env.peer, c.id, w.offset, w.size, InProgress));
        TransferFinishedIsValid(s1, env, c.id, w, w.offset, w.size);
      }
    }
  }

  lemma ChunkWrittenKeeps(w: WriterState, d: Disk, c: Chunk, io: Io)
    requires d.Valid() && w.inode in d.data
    ensures ChunkWritten(w, d, c, io).disk.Valid() && ChunkWritten(w, d, c, io).disk.data.Keys == d.data.Keys
    ensures ChunkWritten(w, d, c, io).writer == w.(offset := ChunkWritten(w, d, c, io).writer.offset)
  {
    hide WriteAt, Acceptable, Wrap64;
  }

  lemma TransferFinishedIsValid(s: State, env: Env, id: Id, w: WriterState, offset: int64, total: int64)
    requires s.Valid() && env.Sound()
    ensures TransferFinished(s, env, id, w, offset, total).Valid()
  {
    hide FileFinished, Remove;
    var finish := FileFinished(w, s.disk, Lookup(s.savePaths, id));
    FileFinishedKeeps(w, s.disk, Lookup(s.savePaths, id));
    var folder := Lookup(s.dirs, id);
    if finish.ok && folder != "" {
      RemoveKeepsValid(env.extract(finish.disk, Lookup(s.savePaths, id), folder).disk, Lookup(s.savePaths, id));
    }
  }

  /** Without a folder to restore, finishing is the rename and the report. */
  lemma PlainFinished(s: State, env: Env, id: Id, w: WriterState, offset: int64, total: int64)
    requires Lookup(s.dirs, id) == ""
    ensures var finish := FileFinished(w, s.disk, Lookup(s.savePaths, id));
            TransferFinished(s, env, id, w, offset, total) ==
            Send(Forget(s, id).(disk := finish.disk),
                 PeerProgress(env.peer, id, offset, total, if finish.ok then Completed else Failed))
  {
    hide FileFinished, Forget;
  }

  lemma FinishForgets(s: State, env: Env, id: Id, w: WriterState, offset: int64, total: int64)
    ensures var r := TransferFinished(s, env, id, w, offset, total);
            r.dropped == s.dropped && r.writers == Forget(s, id).writers
  {
    hide FileFinished, Remove;
    assert Forget(s, id).dropped == s.dropped;
    hide Forget;
  }

  lemma FileFinishedKeeps(w: WriterState, d: Disk, dest: string)
    requires d.Valid()
    ensures FileFinished(w, d, dest).disk.Valid() && FileFinished(w, d, dest).disk.data == d.data
  {
  }

  lemma RemoveKeepsValid(d: Disk, path: string)
    requires d.Valid()
    ensures Remove(d, path).Valid() && Remove(d, path).data == d.data
  {
  }

  lemma FrameHandledIsValid(s: State, env: Env, f: Frame, io: Io)
    requires s.Valid() && env.Sound()
    ensures FrameHandled(s, env, f, io).Valid()
  {
    hide ParseFrame, DecodeBody, ChunkHandled, SanitizeFilename;
    if f.kind == MSG_ENCRYPTED_PACKET && env.open(f.payload).Some? {
      var plain := env.open(f.payload).value;
      if ParseFrame(plain).Parsed? && DecodeBody(ParseFrame(plain).frame.payload).Some? {
        ChunkHandledIsValid(s, env, DecodeBody(ParseFrame(plain).frame.payload).value, io);
      }
    }
  }

  lemma ForgetUpdated(s: State, id: Id, w: WriterState, d: Disk)
    ensures Forget(s.(writers := s.writers[id := w], disk := d), id) == Forget(s, id).(disk := d)
  {
    assert s.writers[id := w] - {id} == s.writers - {id};
  }

  /** Frame after frame; `io(n)` is what the operating system does for the
      `n`-th. */
  function FramesHandled(s: State, env: Env, fs: seq<Frame>, io: nat -> Io): (r: State)
    requires s.Valid() && env.Sound()
    ensures r.Valid()
    decreases |fs|
  {
    if fs == [] then s
    else
      var before := FramesHandled(s, env, fs[..|fs| - 1], io);
      FrameHandledIsValid(before, env, fs[|fs| - 1], io(|fs| - 1));
      FrameHandled(before, env, fs[|fs| - 1], io(|fs| - 1))
  }

  lemma NoFramesHandled(s: State, env: Env, io: nat -> Io)
    requires s.Valid() && env.Sound()
    ensures FramesHandled(s, env, [], io) == s
  {
  }

  lemma FramesHandledSnoc(s: State, env: Env, fs: seq<Frame>, f: Frame, io: nat -> Io)
    requires s.Valid() && env.Sound()
    ensures FramesHandled(s, env, fs + [f], io) == FrameHandled(FramesHandled(s, env, fs, io), env, f, io(|fs|))
  {
    hide FrameHandled;
    assert (fs + [f])[..|fs|] == fs;
  }

  lemma ParseNext(handled: seq<Frame>, wire: seq<byte>)
    ensures match ParseFrame(wire)
            case Error => handled + ParseFrames(wire) == handled
            case Parsed(f, rest) => handled + ParseFrames(wire) == handled + [f] + ParseFrames(rest) && |rest| < |wire|
  {
    hide ParseFrame, EncodeFrame;
    ParseIsInverse(wire);
  }

  /** The read loop over everything a connection delivers before it ends. */
  function ConnectionRead(s: State, env: Env, wire: seq<byte>, io: nat -> Io): State
    requires s.Valid() && env.Sound()
  {
    FramesHandled(s, env, ParseFrames(wire), io).(dropped := true)
  }

  /** An accepted offer: consumed, with an empty `.part` file and its final
      path reserved; an empty file is finished at once. */
  function OfferAccepted(s: State, env: Env, offer: Offer, id: Id, artifact: string, folder: string): State
    requires s.Valid()
  {
    var s1 := Opened(OfferLost(s, offer, id, folder), id, artifact, offer.size);
    if offer.size == 0 then TransferFinished(s1, env, id, s1.writers[id], 0, 0) else s1
  }

  /** Where the bytes go until the file is complete. */
  function TempPath(artifact: string): string { artifact + ".part" }

  lemma TempPathDiffers(artifact: string)
    ensures TempPath(artifact) != artifact && TempPath(artifact) != ""
  {
    assert |TempPath(artifact)| == |artifact| + 5;
  }

  /** An open writer on a new `.part` file, and the final path to go with it. */
  function Opened(s: State, id: Id, artifact: string, size: int64): (r: State)
    requires s.Valid()
    ensures r.Valid() && id in r.writers
  {
    var created := Create(s.disk, TempPath(artifact));
    var w := WriterState(created.1, TempPath(artifact), size, 0, true);
    s.(writers := s.writers[id := w], savePaths := s.savePaths[id := artifact], disk := created.0)
  }

  lemma ForgetOpened(s: State, offer: Offer, id: Id, artifact: string, folder: string)
    requires s.Valid()
    ensures Forget(Opened(OfferLost(s, offer, id, folder), id, artifact, offer.size), id) ==
            AcceptanceUnsent(s, offer, id, artifact)
  {
    hide Create;
    var made := Opened(OfferLost(s, offer, id, folder), id, artifact, offer.size);
    assert made.writers - {id} == s.writers - {id};
    assert made.savePaths - {id} == s.savePaths - {id};
    assert made.dirs - {id} == s.dirs - {id};
  }

  /** The artifact's path: the free name for a file, or for a folder the free
      name of the folder and then of its archive. */
  ghost predicate ArtifactFor(existing: set<string>, offer: Offer, savePath: string, artifact: string, folder: string,
                              renamed: bool) {
    if !offer.folder then folder == "" && FirstFree(existing, savePath, artifact) && renamed == (artifact != savePath)
    else
      exists final ::
        && FirstFree(existing, Paths.Join(Paths.Dir(savePath), offer.filename), final)
        && folder == Paths.Base(final) && renamed == (folder != offer.filename)
        && FirstFree(existing, Paths.Join(Paths.Dir(savePath), folder + ".zip"), artifact)
  }

  /** What is left when the save file cannot be made: the offer is gone and a
      folder has left its name behind. */
  function OfferLost(s: State, offer: Offer, id: Id, folder: string): State {
    s.(offers := s.offers - {id}, dirs := if offer.folder then s.dirs[id := folder] else s.dirs)
  }

  /** What is left when the acceptance cannot be sent. */
  function AcceptanceUnsent(s: State, offer: Offer, id: Id, artifact: string): State
    requires s.Valid()
  {
    Forget(s.(offers := s.offers - {id}, disk := Create(s.disk, TempPath(artifact)).0), id)
  }

  /** A failed acceptance, place by place: the offer is gone; if the directory or
      the file could not be made, a folder has left its name behind and nothing
      else has changed; if the answer could not be sent, nothing but an empty
      `.part` file is left of the transfer. */
  lemma FailedAcceptance(s: State, offer: Offer, id: Id, artifact: string, folder: string)
    requires s.Valid()
    ensures var lost := OfferLost(s, offer, id, folder);
            && lost == s.(offers := lost.offers, dirs := lost.dirs)
            && lost.offers == (map other | other in s.offers && other != id :: s.offers[other])
            && (if offer.folder then id in lost.dirs && lost.dirs[id] == folder else lost.dirs == s.dirs)
            && forall other: Id :: other != id ==>
                 (other in lost.dirs <==> other in s.dirs) && (other in s.dirs ==> lost.dirs[other] == s.dirs[other])
    ensures var unsent := AcceptanceUnsent(s, offer, id, artifact);
            && id !in unsent.offers && id !in unsent.writers && id !in unsent.savePaths && id !in unsent.dirs
            && unsent.progress == s.progress && unsent.dropped == s.dropped
            && (forall other: Id :: other != id ==>
                  && (other in unsent.offers <==> other in s.offers)
                  && (other in s.offers ==> unsent.offers[other] == s.offers[other])
                  && (other in unsent.writers <==> other in s.writers)
                  && (other in s.writers ==> unsent.writers[other] == s.writers[other])
                  && Lookup(unsent.savePaths, other) == Lookup(s.savePaths, other)
                  && Lookup(unsent.dirs, other) == Lookup(s.dirs, other))
            && unsent.disk.Content(artifact + ".part") == Some([])
            && unsent.disk.names.Keys == s.disk.names.Keys + {artifact + ".part"}
            && forall path :: path in s.disk.names && s.disk.names[path] != unsent.disk.names[artifact + ".part"] ==>
                 unsent.disk.Content(path) == s.disk.Content(path)
  {
  }

  function AllClosed(s: State): State {
    s.(writers := map[], savePaths := map[], dirs := map[])
  }

  // ---------- The receiver object ----------

  class Receiver {
    const fs: FileSystem
    const env: Env
    var fileOffers: map<Id, Offer>
    var fileWriters: map<Id, FileWriter>
    var savePaths: map<Id, string>
    var dirTransfers: map<Id, string>
    var progress: seq<PeerProgress>
    var dropped: bool
    /** What the fields, the writers and the disk amount to. */
    ghost var state: State

    ghost predicate Valid()
      reads this, fs, fileWriters.Values
    {
      && env.Sound() && fs.disk.Valid()
      && state == State(fileOffers, state.writers, savePaths, dirTransfers, progress, dropped, fs.disk)
      && state.writers.Keys == fileWriters.Keys
      && (forall id :: id in fileWriters ==> Tracks(fileWriters[id], state.writers[id]))
      && (forall i, j :: i in fileWriters && j in fileWriters && i != j ==> fileWriters[i] != fileWriters[j])
    }

    ghost predicate Tracks(fw: FileWriter, w: WriterState)
      reads this, fs, fw
    {
      fw.fs == fs && fw.inode in fs.disk.data && fw.View() == w
    }

    constructor (fs: FileSystem, env: Env)
      requires fs.disk.Valid() && env.Sound()
      ensures Valid() && this.fs == fs && this.env == env && fileWriters == map[]
      ensures state == State(map[], map[], map[], map[], [], false, fs.disk)
    {
      this.fs, this.env := fs, env;
      fileOffers, fileWriters, savePaths, dirTransfers := map[], map[], map[], map[];
      progress, dropped := [], false;
      state := State(map[], map[], map[], map[], [], false, fs.disk);
    }

    method SendProgress(p: PeerProgress) returns (sent: bool)
      requires Valid()
      modifies this`progress, this`state
      ensures Valid() && state == Send(old(state), p)
      ensures sent == !dropped
    {
      if dropped { return false; }
      progress := progress + [p];
      state := Send(state, p);
      sent := true;
    }

    method ForgetTransfer(id: Id) returns (savePath: string, folderName: string)
      requires Valid()
      modifies this`fileWriters, this`savePaths, this`dirTransfers, this`state
      ensures Valid() && state == Forget(old(state), id)
      ensures fileWriters == old(fileWriters) - {id}
      ensures savePath == Lookup(old(savePaths), id) && folderName == Lookup(old(dirTransfers), id)
    {
      fileWriters := fileWriters - {id};
      savePath := Lookup(savePaths, id);
      savePaths := savePaths - {id};
      folderName := Lookup(dirTransfers, id);
      dirTransfers := dirTransfers - {id};
      state := Forget(state, id);
    }

    method HandleFileOffer(offer: Offer)
      requires Valid()
      modifies this`fileOffers, this`state
      ensures Valid() && state == OfferReceived(old(state), offer)
    {
      hide SanitizeFilename;
      var clean := SanitizeFilename(offer.filename);
      if clean == "" { return; }
      fileOffers := fileOffers[offer.id := offer.(filename := clean)];
      state := OfferReceived(state, offer);
    }

    method FinishTransfer(id: Id, fw: FileWriter, offset: int64, total: int64)
      requires Valid()
      requires fw.fs == fs && fw.inode in fs.disk.data
      requires forall i :: i in fileWriters && fileWriters[i] == fw ==> i == id
      modifies this, fs, fw
      ensures Valid() && fileWriters == old(fileWriters) - {id}
      ensures state == TransferFinished(old(state), env, id, old(fw.View()), offset, total)
    {
      hide FileFinished, Remove;
      var savePath, folderName := ForgetTransfer(id);
      var ok := FinishWriter(fw, savePath);
      if ok && folderName != "" {
        ok := RestoreFolder(savePath, folderName);
      }
      var _ := SendProgress(PeerProgress(env.peer, id, offset, total, if ok then Completed else Failed));
    }

    method FinishWriter(fw: FileWriter, savePath: string) returns (ok: bool)
      requires Valid() && fw.fs == fs && fw.inode in fs.disk.data
      requires forall i :: i in fileWriters ==> fileWriters[i] != fw
      modifies this`state, fs, fw
      ensures Valid()
      ensures state == old(state).(disk := FileFinished(old(fw.View()), old(fs.disk), savePath).disk)
      ensures ok == FileFinished(old(fw.View()), old(fs.disk), savePath).ok
    {
      hide FileFinished;
      ok := fw.Finish(savePath);
      state := state.(disk := fs.disk);
    }

    method RestoreFolder(savePath: string, folderName: string) returns (ok: bool)
      requires Valid()
      modifies this`state, fs
      ensures Valid() && ok == env.extract(old(fs.disk), savePath, folderName).ok
      ensures var disk := env.extract(old(fs.disk), savePath, folderName).disk;
              state == old(state).(disk := if ok then Remove(disk, savePath) else disk)
    {
      hide Remove;
      var restored := env.extract(fs.disk, savePath, folderName);
      RemoveKeepsValid(restored.disk, savePath);
      ok := restored.ok;
      fs.disk := if ok then Remove(restored.disk, savePath) else restored.disk;
      state := state.(disk := fs.disk);
    }

    method WriteTo(fw: FileWriter, c: Chunk, io: Io) returns (ok: bool)
      requires Valid() && c.id in fileWriters && fileWriters[c.id] == fw
      modifies this`state, fs, fw
      ensures Valid() && old(state.Valid())
      ensures var r := ChunkWritten(old(state).writers[c.id], old(state).disk, c, io);
              ok == r.ok && state == old(state).(writers := old(state).writers[c.id := r.writer], disk := r.disk)
    {
      hide ChunkWritten;
      ok := fw.WriteChunk(c, io);
      state := state.(writers := state.writers[c.id := fw.View()], disk := fs.disk);
    }

    method FailTransfer(id: Id, fw: FileWriter)
      requires Valid() && id in fileWriters && fileWriters[id] == fw
      modifies this, fw
      ensures Valid() && fileWriters == old(fileWriters) - {id}
      ensures state == Send(Forget(old(state), id), PeerProgress(env.peer, id, 0, 0, Failed))
    {
      var _, _ := ForgetTransfer(id);
      fw.Close();
      var _ := SendProgress(PeerProgress(env.peer, id, 0, 0, Failed));
    }

    method HandleChunk(c: Chunk, io: Io)
      requires Valid()
      modifies this, fs, fileWriters.Values
      ensures Valid() && fileWriters.Keys <= old(fileWriters.Keys)
      ensures forall id :: id in fileWriters ==> fileWriters[id] == old(fileWriters[id])
      ensures old(state.Valid()) && state == ChunkHandled(old(state), env, c, io)
    {
      hide ChunkWritten, TransferFinished, FileFinished, Forget;
      if c.id !in fileWriters { return; }
      var fw := fileWriters[c.id];
      var ok := WriteTo(fw, c, io);
      if !ok {
        ForgetUpdated(old(state), c.id, state.writers[c.id], fs.disk);
        FailTransfer(c.id, fw);
        return;
      }
      var offset, total := fw.offset, fw.size;
      var _ := SendProgress(PeerProgress(env.peer, c.id, offset, total, InProgress));
      if offset >= total {
        FinishTransfer(c.id, fw, offset, total);
      }
    }

    method HandleDecryptedMessage(plain: seq<byte>, io: Io)
      requires Valid()
      modifies this, fs, fileWriters.Values
      ensures Valid() && fileWriters.Keys <= old(fileWriters.Keys)
      ensures forall id :: id in fileWriters ==> fileWriters[id] == old(fileWriters[id])
      ensures old(state.Valid()) && state == PacketHandled(old(state), env, plain, io)
    {
      hide ParseFrame, DecodeBody, ChunkHandled, OfferReceived, Leftover;
      var r := new Reader(plain);
      var frame := Unmarshal(r);
      if frame == None { return; }
      if frame.value.kind == MSG_FILE_OFFER {
        var offer := env.offerOf(frame.value.payload);
        if offer.Some? {
          HandleFileOffer(offer.value);
        }
      } else if frame.value.kind == MSG_CHUNK {
        var chunk := DecodeChunkBlob(frame.value.payload);
        if chunk.Some? {
          HandleChunk(chunk.value, io);
        }
      }
    }

    method HandleFrame(f: Frame, io: Io)
      requires Valid()
      modifies this, fs, fileWriters.Values
      ensures Valid() && fileWriters.Keys <= old(fileWriters.Keys)
      ensures forall id :: id in fileWriters ==> fileWriters[id] == old(fileWriters[id])
      ensures old(state.Valid()) && state == FrameHandled(old(state), env, f, io)
    {
      hide PacketHandled;
      if f.kind != MSG_ENCRYPTED_PACKET { return; }
      var plain := env.open(f.payload);
      if plain.Some? {
        HandleDecryptedMessage(plain.value, io);
      }
    }

    /** One turn of the read loop. */
    method ReadFrame(r: Reader, io: Io) returns (more: bool)
      requires Valid()
      modifies this, fs, fileWriters.Values, r
      ensures Valid() && fileWriters.Keys <= old(fileWriters.Keys)
      ensures forall id :: id in fileWriters ==> fileWriters[id] == old(fileWriters[id])
      ensures old(state.Valid())
      ensures match ParseFrame(old(r.rest))
              case Error => !more && state == old(state)
              case Parsed(f, rest) => more && r.rest == rest && state == FrameHandled(old(state), env, f, io)
    {
      hide ParseFrame, FrameHandled;
      var frame := Unmarshal(r);
      if frame == None { return false; }
      HandleFrame(frame.value, io);
      more := true;
    }

    /** Runs until the connection gives no further frame. */
    method ReadLoop(r: Reader, io: nat -> Io)
      requires Valid()
      modifies this, fs, fileWriters.Values, r
      ensures Valid()
      ensures old(state.Valid()) && state == ConnectionRead(old(state), env, old(r.rest), io)
      ensures dropped && state.dropped
    {
      hide ParseFrame, FrameHandled, FramesHandled, ParseFrames, EncodeFrame, State.Valid;
      NoFramesHandled(state, env, io);
      ghost var handled: seq<Frame> := [];
      ghost var start, wire := state, r.rest;
      assert [] + ParseFrames(wire) == ParseFrames(wire);
      var more, n := true, 0;
      while more
        invariant Valid() && start.Valid() && n == |handled|
        invariant fileWriters.Keys <= old(fileWriters.Keys)
        invariant forall id :: id in fileWriters ==> fileWriters[id] == old(fileWriters[id])
        invariant state == FramesHandled(start, env, handled, io)
        invariant ParseFrames(wire) == if more then handled + ParseFrames(r.rest) else handled
        decreases more, |r.rest|
      {
        ParseNext(handled, r.rest);
        ghost var parsed := ParseFrame(r.rest);
        more := ReadFrame(r, io(n));
        if more {
          FramesHandledSnoc(start, env, handled, parsed.frame, io);
          handled, n := handled + [parsed.frame], n + 1;
        }
      }
      dropped := true;
      state := state.(dropped := true);
    }

    method ChooseArtifact(offer: Offer, savePath: string, existing: set<string>)
      returns (artifact: string, folder: string, renamed: bool)
      ensures artifact !in existing && ArtifactFor(existing, offer, savePath, artifact, folder, renamed)
    {
      hide FirstFree;
      ghost var probes: nat;
      if offer.folder {
        var final;
        final, probes := UniquePath(existing, Paths.Join(Paths.Dir(savePath), offer.filename));
        folder := Paths.Base(final);
        renamed := folder != offer.filename;
        artifact, probes := UniquePath(existing, Paths.Join(Paths.Dir(savePath), folder + ".zip"));
      } else {
        folder := "";
        artifact, probes := UniquePath(existing, savePath);
        renamed := artifact != savePath;
      }
    }

    method LoseOffer(offer: Offer, id: Id, folder: string)
      requires Valid()
      modifies this`fileOffers, this`dirTransfers, this`state
      ensures Valid() && state == OfferLost(old(state), offer, id, folder)
    {
      fileOffers := fileOffers - {id};
      if offer.folder {
        dirTransfers := dirTransfers[id := folder];
      }
      state := OfferLost(state, offer, id, folder);
    }

    method OpenWriter(id: Id, artifact: string, size: int64) returns (fw: FileWriter)
      requires Valid()
      modifies this`fileWriters, this`savePaths, this`state, fs
      ensures Valid() && fresh(fw) && fileWriters == old(fileWriters)[id := fw] && fw.View() == state.writers[id]
      ensures old(state.Valid()) && state == Opened(old(state), id, artifact, size)
    {
      fw := new FileWriter(fs, TempPath(artifact), size);
      fileWriters := fileWriters[id := fw];
      savePaths := savePaths[id := artifact];
      state := Opened(state, id, artifact, size);
    }

    /** The offer goes first; the answer may fail to be sealed or written. */
    method RejectTransfer(id: Id, sealed: bool, written: bool) returns (ok: bool, answer: Option<Answer>)
      requires Valid()
      modifies this`fileOffers, this`state
      ensures Valid() && state == old(state).(offers := old(state).offers - {id})
      ensures answer == (if sealed then Some(FileReject(id)) else None) && ok == (sealed && written)
    {
      fileOffers := fileOffers - {id};
      state := state.(offers := state.offers - {id});
      if !sealed { return false, None; }
      answer := Some(FileReject(id));
      ok := written;
    }

    /** Closes every writer; unfinished `.part` files stay. */
    method Close()
      requires Valid()
      modifies this`fileWriters, this`savePaths, this`dirTransfers, this`state, fileWriters.Values
      ensures Valid() && state == AllClosed(old(state))
      ensures fileWriters == map[] && savePaths == map[] && dirTransfers == map[]
      ensures fileOffers == old(fileOffers) && progress == old(progress) && fs.disk == old(fs.disk)
      ensures forall id :: id in old(fileWriters) ==> !old(fileWriters)[id].open
    {
      ghost var writers := fileWriters;
      var todo := fileWriters.Values;
      while todo != {}
        invariant todo <= writers.Values
        invariant forall id :: id in writers && writers[id] !in todo ==> !writers[id].open
        modifies writers.Values
        decreases |todo|
      {
        var fw :| fw in todo;
        fw.Close();
        todo := todo - {fw};
      }
      fileWriters, savePaths, dirTransfers := map[], map[], map[];
      state := AllClosed(state);
    }

    method AbandonTransfer(id: Id, fw: FileWriter)
      requires Valid() && id in fileWriters && fileWriters[id] == fw
      modifies this`fileWriters, this`savePaths, this`dirTransfers, this`state, fw
      ensures Valid() && fileWriters == old(fileWriters) - {id} && state == Forget(old(state), id)
    {
      fw.Close();
      state := state.(writers := state.writers[id := fw.View()]);
      ForgetUpdated(old(state), id, fw.View(), state.disk);
      var _, _ := ForgetTransfer(id);
    }

    /** `existing` are the names `os.Stat` finds; the flags say whether the
        directory, the file and the answer to the host come about. */
    method AcceptTransfer(id: Id, savePath: string, existing: set<string>, made: bool, created: bool, answered: bool)
      returns (ok: bool, path: string, renamed: bool, answer: Option<Answer>, ghost artifact: string,
               ghost folder: string)
      requires Valid() && fs.disk.names.Keys <= existing
      modifies this, fs
      ensures Valid() && old(state.Valid())
      ensures ok <==> id in old(fileOffers) && made && created && answered
      ensures path == (if ok then artifact else "") && answer == (if ok then Some(FileAccept(id)) else None)
      ensures id !in old(fileOffers) ==> state == old(state)
      ensures id in old(fileOffers) ==>
                var offer := old(fileOffers)[id];
                && artifact !in existing
                && (exists another ::
                      ArtifactFor(existing, offer, savePath, artifact, folder, another) && renamed == (ok && another))
                && state == if !made || !created then OfferLost(old(state), offer, id, folder)
                            else if !answered then AcceptanceUnsent(old(state), offer, id, artifact)
                            else OfferAccepted(old(state), env, offer, id, artifact, folder)
    {
      hide FirstFree, TransferFinished, Opened, OfferLost, Forget, AcceptanceUnsent, ArtifactFor;
      ok, path, renamed, answer, artifact, folder := false, "", false, None, "", "";
      if id !in fileOffers { return; }
      var offer := fileOffers[id];
      var artifactPath, folderName, another := ChooseArtifact(offer, savePath, existing);
      artifact, folder := artifactPath, folderName;
      LoseOffer(offer, id, folderName);
      if !made || !created { return; }
      var fw := OpenWriter(id, artifactPath, offer.size);
      if !answered {
        AbandonTransfer(id, fw);
        ForgetOpened(old(state), offer, id, artifact, folder);
        return;
      }
      answer := Some(FileAccept(id));
      if offer.size == 0 {
        FinishTransfer(id, fw, 0, 0);
      }
      path, renamed := artifactPath, another;
      ok := true;
    }
  }
}
