/** What a chunk and an acceptance come to at the receiver, place by place,
    whatever the state, the chunk and the operating system
    (internal/receiver/receiver.go:363-453, 455-511). */
module Outcomes {
  import opened Bytes
  import opened ChunkCodec
  import opened FileWriting
  import opened Transfer
  import opened PeerStates
  import opened Receiver
  import Crc32

  /** The transfer is recorded in the same way in both states, or in neither. */
  ghost predicate SameTransfer(s: State, t: State, id: Id) {
    && (id in t.writers <==> id in s.writers) && (id in s.writers ==> t.writers[id] == s.writers[id])
    && (id in t.savePaths <==> id in s.savePaths) && (id in s.savePaths ==> t.savePaths[id] == s.savePaths[id])
    && (id in t.dirs <==> id in s.dirs) && (id in s.dirs ==> t.dirs[id] == s.dirs[id])
  }

  ghost predicate SameOffer(s: State, t: State, id: Id) {
    (id in t.offers <==> id in s.offers) && (id in s.offers ==> t.offers[id] == s.offers[id])
  }

  ghost predicate NoTransfer(s: State, id: Id) { id !in s.writers && id !in s.savePaths && id !in s.dirs }

  ghost predicate OthersStay(s: State, t: State, id: Id) {
    forall other :: other != id ==> SameTransfer(s, t, other)
  }

  /** What is told on a channel that may be gone. */
  function Told(s: State, ps: seq<PeerProgress>): seq<PeerProgress> {
    if s.dropped then s.progress else s.progress + ps
  }

  // ---------- The end of a transfer ----------

  /** The complete file moves to its place and, if it is a folder's archive, the
      folder is restored. */
  ghost predicate EndsWell(env: Env, w: WriterState, d: Disk, final: string, folder: string) {
    var finish := FileFinished(w, d, final);
    finish.ok && (folder == "" || env.extract(finish.disk, final, folder).ok)
  }

  /** The end of a transfer: it is forgotten and no other is touched, there is one
      report, and it says whether everything worked. An archive that was restored
      is gone, one that was not is still there. */
  lemma EndOutcome(s: State, env: Env, id: Id, w: WriterState, offset: int64, total: int64)
    ensures var t := TransferFinished(s, env, id, w, offset, total);
            var final, folder := Lookup(s.savePaths, id), Lookup(s.dirs, id);
            var fine, renamed := EndsWell(env, w, s.disk, final, folder), FileFinished(w, s.disk, final);
            && NoTransfer(t, id) && OthersStay(s, t, id)
            && t.offers == s.offers && t.dropped == s.dropped
            && t.progress == Told(s, [PeerProgress(env.peer, id, offset, total, if fine then Completed else Failed)])
            && (folder == "" || !renamed.ok ==> t.disk == renamed.disk)
            && (folder != "" && renamed.ok ==>
                  var restored := env.extract(renamed.disk, final, folder).disk;
                  && t.disk.data == restored.data && t.disk.next == restored.next
                  && (forall path :: path in t.disk.names <==> path in restored.names && !(fine && path == final))
                  && (forall path :: path in t.disk.names ==> t.disk.names[path] == restored.names[path]))
  {
    hide FileFinished, NoTransfer, OthersStay, EndsWell, TransferFinished, Remove;
    var disk, p := EndShape(s, env, id, w, offset, total);
    RemoveOutcome(env.extract(FileFinished(w, s.disk, Lookup(s.savePaths, id)).disk, Lookup(s.savePaths, id),
                              Lookup(s.dirs, id)).disk, Lookup(s.savePaths, id));
    ForgottenAlone(s, Send(Forget(s, id).(disk := disk), p), id);
  }

  lemma EndShape(s: State, env: Env, id: Id, w: WriterState, offset: int64, total: int64)
    returns (disk: Disk, p: PeerProgress)
    ensures TransferFinished(s, env, id, w, offset, total) == Send(Forget(s, id).(disk := disk), p)
    ensures var final, folder := Lookup(s.savePaths, id), Lookup(s.dirs, id);
            var fine, renamed := EndsWell(env, w, s.disk, final, folder), FileFinished(w, s.disk, final);
            var restored := env.extract(renamed.disk, final, folder).disk;
            && p == PeerProgress(env.peer, id, offset, total, if fine then Completed else Failed)
            && disk == if folder == "" || !renamed.ok then renamed.disk
                       else if fine then Remove(restored, final) else restored
  {
    hide FileFinished, Remove, Forget, Lookup;
    var final, folder := Lookup(s.savePaths, id), Lookup(s.dirs, id);
    var renamed := FileFinished(w, s.disk, final);
    var restored := env.extract(renamed.disk, final, folder).disk;
    var fine := EndsWell(env, w, s.disk, final, folder);
    p := PeerProgress(env.peer, id, offset, total, if fine then Completed else Failed);
    disk := if folder == "" || !renamed.ok then renamed.disk else if fine then Remove(restored, final) else restored;
  }

  lemma ForgottenAlone(s: State, t: State, id: Id)
    requires t.writers == s.writers - {id} && t.savePaths == s.savePaths - {id} && t.dirs == s.dirs - {id}
    ensures NoTransfer(t, id) && OthersStay(s, t, id)
  {
  }

  // ---------- A chunk ----------

  /** The chunk gets into the file as a whole. */
  ghost predicate Arrives(w: WriterState, c: Chunk, io: Io) { Fitting(w.size, c) && w.open && io.Works? }

  /** A chunk of an unknown transfer changes nothing. */
  lemma StrayChunk(s: State, env: Env, c: Chunk, io: Io)
    requires s.Valid() && c.id !in s.writers
    ensures ChunkHandled(s, env, c, io) == s
  {
  }

  /** The offers, the channel and all other transfers stay. The transfer goes on
      with the end of the chunk as its offset exactly if the chunk arrives and
      ends below the announced size; otherwise it is forgotten. There is one
      report of a failure without offsets, or one of progress up to the chunk's
      end, or, when that reaches the size, this and one of how it ended. */
  lemma ChunkOutcome(s: State, env: Env, c: Chunk, io: Io)
    requires s.Valid() && c.id in s.writers && SaneSize(s.writers[c.id].size) && |c.data| < TWO_32
    ensures var t, w, end := ChunkHandled(s, env, c, io), s.writers[c.id], c.offset + |c.data|;
            && t.offers == s.offers && t.dropped == s.dropped
            && OthersStay(s, t, c.id)
            && if !Arrives(w, c, io) then
                 && NoTransfer(t, c.id)
                 && t.progress == Told(s, [PeerProgress(env.peer, c.id, 0, 0, Failed)])
                 && t.disk == ChunkWritten(w, s.disk, c, io).disk
               else if end < w.size then
                 && t.writers == s.writers[c.id := w.(offset := end)]
                 && t.savePaths == s.savePaths && t.dirs == s.dirs
                 && t.progress == Told(s, [PeerProgress(env.peer, c.id, end, w.size, InProgress)])
                 && t.disk == ChunkWritten(w, s.disk, c, io).disk
               else
                 var fine := EndsWell(env, w.(offset := end), ChunkWritten(w, s.disk, c, io).disk,
                                      Lookup(s.savePaths, c.id), Lookup(s.dirs, c.id));
                 && end == w.size && NoTransfer(t, c.id)
                 && t.progress == Told(s, [PeerProgress(env.peer, c.id, end, end, InProgress),
                                           PeerProgress(env.peer, c.id, end, end, if fine then Completed else Failed)])
  {
    hide ChunkWritten, TransferFinished, Crc32.Checksum, EndsWell, NoTransfer, OthersStay, Forget;
    var w := s.writers[c.id];
    WriteOutcome(w, s.disk, c, io);
    var r := ChunkWritten(w, s.disk, c, io);
    if Arrives(w, c, io) {
      var s1 := Send(s.(writers := s.writers[c.id := r.writer], disk := r.disk),
                     PeerProgress(env.peer, c.id, r.writer.offset, w.size, InProgress));
      OneIsUpdated(s, s1, c.id, r.writer);
      if r.writer.offset >= w.size {
        hide FileFinished;
        EndOutcome(s1, env, c.id, r.writer, r.writer.offset, w.size);
        StayTogether(s, s1, TransferFinished(s1, env, c.id, r.writer, r.writer.offset, w.size), c.id);
      }
    } else {
      var t := Forget(s, c.id).(disk := r.disk);
      ForgetMaps(s, c.id);
      ForgottenAlone(s, Send(t, PeerProgress(env.peer, c.id, 0, 0, Failed)), c.id);
    }
  }

  lemma ForgetMaps(s: State, id: Id)
    ensures Forget(s, id) == s.(writers := s.writers - {id}, savePaths := s.savePaths - {id}, dirs := s.dirs - {id})
  {
  }

  lemma OneIsUpdated(s: State, t: State, id: Id, w: WriterState)
    requires t.writers == s.writers[id := w] && t.savePaths == s.savePaths && t.dirs == s.dirs
    ensures OthersStay(s, t, id)
  {
  }

  lemma StayTogether(s: State, t: State, u: State, id: Id)
    requires OthersStay(s, t, id) && OthersStay(t, u, id)
    ensures OthersStay(s, u, id)
  {
    forall other | other != id ensures SameTransfer(s, u, other) {
      assert SameTransfer(s, t, other) && SameTransfer(t, u, other);
    }
  }

  // ---------- An acceptance ----------

  /** An accepted offer is gone from the list, no other offer and no other
      transfer is touched. If it announces any bytes there is an open writer at
      offset zero on an empty file of the artifact's name and `.part`, nothing
      is reported, and other names on the disk keep what they point to; if not,
      it has ended already, with one report. */
  lemma AcceptOutcome(s: State, env: Env, offer: Offer, id: Id, artifact: string, folder: string)
    requires s.Valid()
    ensures var t, part := OfferAccepted(s, env, offer, id, artifact, folder), artifact + ".part";
            && id !in t.offers && OthersStay(s, t, id)
            && (forall other :: other != id ==> SameOffer(s, t, other))
            && t.dropped == s.dropped
            && (offer.size != 0 ==>
                  && id in t.writers && part in t.disk.names
                  && t.writers[id] == WriterState(t.disk.names[part], part, offer.size, 0, true)
                  && id in t.savePaths && t.savePaths[id] == artifact
                  && (id in t.dirs <==> offer.folder || id in s.dirs)
                  && (id in t.dirs ==> t.dirs[id] == if offer.folder then folder else s.dirs[id])
                  && t.progress == s.progress && t.disk.Content(part) == Some([])
                  && t.disk.names == s.disk.names[part := t.disk.names[part]])
            && (offer.size == 0 ==>
                  && NoTransfer(t, id) && (s.dropped ==> t.progress == s.progress)
                  && (!s.dropped ==>
                        |t.progress| == |s.progress| + 1 &&
                        var last := t.progress[|s.progress|];
                        && t.progress == s.progress + [last] && (last.state == Completed || last.state == Failed)
                        && last == PeerProgress(env.peer, id, 0, 0, last.state)))
  {
    hide TransferFinished, OthersStay, NoTransfer;
    var s1 := Opened(OfferLost(s, offer, id, folder), id, artifact, offer.size);
    AcceptedAlone(s, s1, offer, id, artifact, folder);
    if offer.size == 0 {
      hide FileFinished, EndsWell, Create, Opened, OfferLost;
      EndOutcome(s1, env, id, s1.writers[id], 0, 0);
      StayTogether(s, s1, TransferFinished(s1, env, id, s1.writers[id], 0, 0), id);
    }
  }

  lemma AcceptedAlone(s: State, t: State, offer: Offer, id: Id, artifact: string, folder: string)
    requires s.Valid() && t == Opened(OfferLost(s, offer, id, folder), id, artifact, offer.size)
    ensures OthersStay(s, t, id) && t.dropped == s.dropped && t.progress == s.progress
    ensures id !in t.offers && forall other :: other != id ==> SameOffer(s, t, other)
  {
    hide Create;
  }
}
