/** From the offer on the wire to the file: an offer is filed
    (internal/receiver/receiver.go:285-340), accepted by its id
    (internal/receiver/receiver.go:455-511), and what it announced arrives. */
module OfferDelivery {
  import opened Bytes
  import opened Protocol
  import opened ChunkCodec
  import opened FileWriting
  import opened Transfer
  import opened PeerStates
  import opened Receiver
  import opened Delivery
  import opened SaveNames
  import Completion
  import FolderDelivery
  import FolderRoundTrip
  import FolderTree
  import Archive
  import Paths
  import PathLaws
  import SavePath
  import Crc32

  // ---------- Filing ----------

  /** The frame is an encrypted packet (type 7) that opens to an offer (type 1). */
  ghost predicate CarriesOffer(env: Env, f: Frame, offer: Offer) {
    && f.kind == 7 && env.open(f.payload).Some?
    && ParseFrame(env.open(f.payload).value).Parsed?
    && ParseFrame(env.open(f.payload).value).frame.kind == 1
    && env.offerOf(ParseFrame(env.open(f.payload).value).frame.payload) == Some(offer)
  }

  /** The name in the offer is usable. */
  predicate Usable(t: Text) {
    !AnyForbidden(t.Whole()) && t.name != "" && t.name != "." && t.name != ".."
  }

  /** An offer on the wire is filed under its id, with its size, sender and kind,
      and with the name its text comes to; nothing else changes. An offer whose
      name is unusable changes nothing at all. */
  lemma OfferIsFiled(s: State, env: Env, f: Frame, offer: Offer, t: Text, io: Io)
    requires s.Valid() && CarriesOffer(env, f, offer) && t.Valid() && t.Whole() == offer.filename
    ensures FrameHandled(s, env, f, io) ==
            if !Usable(t) then s
            else s.(offers := s.offers[offer.id := Offer(offer.id, t.name, offer.size, offer.sender, offer.folder)])
  {
    hide ParseFrame, SavePath.SanitizeFilename, Text.Valid, Text.Whole, AnyForbidden;
    SanitizedExactly(t);
  }

  /** Whatever a frame does to the offers, it takes none away, and files one only
      if it carries one. */
  lemma OffersComeFromFrames(s: State, env: Env, f: Frame, io: Io, id: Id)
    requires s.Valid()
    ensures var after := FrameHandled(s, env, f, io);
            && (id in s.offers ==> id in after.offers)
            && (id in after.offers && !(id in s.offers && after.offers[id] == s.offers[id]) ==>
                exists offer :: CarriesOffer(env, f, offer) && offer.id == id)
  {
    hide ParseFrame, DecodeBody, SavePath.SanitizeFilename, ChunkHandled;
    if f.kind == 7 && env.open(f.payload).Some? {
      var plain := env.open(f.payload).value;
      if ParseFrame(plain).Parsed? {
        var inner := ParseFrame(plain).frame;
        if inner.kind == 1 && env.offerOf(inner.payload).Some? {
          assert CarriesOffer(env, f, env.offerOf(inner.payload).value);
        } else if inner.kind == MSG_CHUNK && DecodeBody(inner.payload).Some? {
          ChunkKeepsOffers(s, env, DecodeBody(inner.payload).value, io);
        }
      }
    }
  }

  lemma ChunkKeepsOffers(s: State, env: Env, c: Chunk, io: Io)
    requires s.Valid()
    ensures ChunkHandled(s, env, c, io).offers == s.offers
  {
    hide ChunkWritten, TransferFinished;
    if c.id in s.writers {
      var r := ChunkWritten(s.writers[c.id], s.disk, c, io);
      var w := r.writer;
      var s1 := Send(s.(writers := s.writers[c.id := w], disk := r.disk),
                     PeerProgress(env.peer, c.id, w.offset, w.size, InProgress));
      FinishKeepsOffers(s1, env, c.id, w, w.offset, w.size);
    }
  }

  lemma FinishKeepsOffers(s: State, env: Env, id: Id, w: WriterState, offset: int64, total: int64)
    ensures TransferFinished(s, env, id, w, offset, total).offers == s.offers
  {
    hide FileFinished, Remove;
  }

  // ---------- Where it is saved ----------

  /** A name in a directory, as text. */
  lemma SavedIn(dir: string, name: string) returns (d: string)
    requires dir != "" && Paths.ProperName(name)
    ensures Paths.Join(dir, name) == d + name && IsDirectory(d)
    ensures Paths.Parse(d) == Paths.Parse(dir)
  {
    var p := Paths.Parse(dir);
    Paths.ParseIsNormal(dir);
    ParseOfJoin(dir, name);
    PathLaws.ShowBehind(p, name);
    d := PathLaws.Front(p);
    PathLaws.FrontParses(p);
  }

  /** The places a file of that name can be saved at: itself, or numbered. */
  ghost predicate SavedAs(existing: set<string>, dir: string, stem: string, ext: string, chosen: string) {
    exists d :: d + stem + ext == Paths.Join(dir, stem + ext) && IsDirectory(d) && Paths.Parse(d) == Paths.Parse(dir)
      && TakesLeastNumber(existing, d, stem, ext, chosen)
  }

  lemma FileIsSavedAs(existing: set<string>, dir: string, stem: string, ext: string, chosen: string)
    requires dir != "" && Paths.ProperName(stem + ext) && IsExtension(stem, ext)
    requires SavePath.FirstFree(existing, Paths.Join(dir, stem + ext), chosen)
    ensures SavedAs(existing, dir, stem, ext, chosen)
  {
    hide SavePath.FirstFree, TakesLeastNumber, Paths.Join, Paths.Parse, IsExtension, IsDirectory;
    var d := SavedIn(dir, stem + ext);
    SaveNames.Regroup(d, stem, ext);
    assert forall c :: c in stem || c in ext ==> c in stem + ext;
    FirstFreeIsNumbered(existing, d, stem, ext, chosen);
  }

  lemma DirOfSaved(dir: string, name: string)
    requires dir != "" && Paths.ProperName(name)
    ensures Paths.Dir(Paths.Join(dir, name)) == Paths.Clean(dir) && Paths.Clean(dir) != ""
    ensures Paths.Base(Paths.Join(dir, name)) == name
  {
    hide Paths.Parse, Paths.Show, Paths.Join, Paths.AfterLastSlash;
    var d := SavedIn(dir, name);
    LastSlashOf(d, name);
    assert (d + name)[..|d|] == d;
    CleanNotEmpty(dir);
    BaseOf(d, name, "");
    assert d + name + "" == d + name;
  }

  lemma CleanJoins(dir: string, name: string)
    requires dir != "" && Paths.ProperName(name)
    ensures Paths.Join(Paths.Clean(dir), name) == Paths.Join(dir, name)
  {
    hide Paths.Parse, Paths.Show;
    CleanNotEmpty(dir);
    ParseOfJoin(dir, name);
    Paths.ParseIsNormal(dir);
    Paths.ParseShow(Paths.Parse(dir));
    ParseOfJoin(Paths.Clean(dir), name);
  }

  /** The path chosen for an accepted offer, in text: a file under its name or
      numbered; a folder under its name or numbered, and its archive beside it
      under the folder's name with `.zip`, or numbered. */
  ghost predicate SavedFor(existing: set<string>, dir: string, offer: Offer, stem: string, ext: string,
                           artifact: string, folder: string) {
    if !offer.folder then folder == "" && SavedAs(existing, dir, stem, ext, artifact)
    else
      && SavePath.SafeName(offer.filename)
      && (exists final :: SavedAs(existing, dir, stem, ext, final) && folder == Paths.Base(final))
      && SavedAs(existing, dir, folder, ".zip", artifact)
  }

  lemma ArtifactIsSaved(existing: set<string>, dir: string, offer: Offer, stem: string, ext: string,
                        artifact: string, folder: string, renamed: bool)
    requires dir != "" && SavePath.SafeName(offer.filename) && offer.filename == stem + ext && IsExtension(stem, ext)
    requires ArtifactFor(existing, offer, Paths.Join(dir, offer.filename), artifact, folder, renamed)
    ensures SavedFor(existing, dir, offer, stem, ext, artifact, folder)
    ensures offer.folder ==> Paths.ProperName(folder)
  {
    hide SavePath.FirstFree, SavedAs, Paths.Join, Paths.Dir, Paths.Base, Paths.Clean, IsExtension, Paths.ProperName;
    SafeIsProper(offer.filename);
    if !offer.folder {
      FileIsSavedAs(existing, dir, stem, ext, artifact);
    } else {
      var savePath := Paths.Join(dir, offer.filename);
      DirOfSaved(dir, offer.filename);
      CleanJoins(dir, offer.filename);
      var final :|
        && SavePath.FirstFree(existing, Paths.Join(Paths.Dir(savePath), offer.filename), final)
        && folder == Paths.Base(final)
        && SavePath.FirstFree(existing, Paths.Join(Paths.Dir(savePath), folder + ".zip"), artifact);
      FileIsSavedAs(existing, dir, stem, ext, final);
      var name := SavedName(existing, dir, stem, ext, final);
      DirOfSaved(dir, name);
      ZipIsProper(folder);
      CleanJoins(dir, folder + ".zip");
      ZipIsExtension(folder);
      FileIsSavedAs(existing, dir, folder, ".zip", artifact);
    }
  }

  /** The caller is told of another name exactly if the offered one is taken. */
  lemma RenamedExactly(existing: set<string>, dir: string, offer: Offer, stem: string, ext: string,
                       artifact: string, folder: string, renamed: bool)
    requires dir != "" && SavePath.SafeName(offer.filename) && offer.filename == stem + ext && IsExtension(stem, ext)
    requires ArtifactFor(existing, offer, Paths.Join(dir, offer.filename), artifact, folder, renamed)
    ensures renamed <==> Paths.Join(dir, offer.filename) in existing
  {
    hide SavePath.FirstFree, SavedAs, Paths.Join, Paths.Dir, Paths.Base, Paths.Clean, IsExtension, Paths.ProperName;
    SafeIsProper(offer.filename);
    var savePath := Paths.Join(dir, offer.filename);
    if !offer.folder {
      FirstFreeIsSame(existing, savePath, artifact);
    } else {
      DirOfSaved(dir, offer.filename);
      CleanJoins(dir, offer.filename);
      var final :| SavePath.FirstFree(existing, savePath, final)
        && folder == Paths.Base(final) && renamed == (folder != offer.filename);
      FirstFreeIsSame(existing, savePath, final);
      FileIsSavedAs(existing, dir, stem, ext, final);
      var name := SavedName(existing, dir, stem, ext, final);
      DirOfSaved(dir, name);
    }
  }

  lemma FirstFreeIsSame(existing: set<string>, savePath: string, chosen: string)
    requires SavePath.FirstFree(existing, savePath, chosen)
    ensures chosen == savePath <==> savePath !in existing
  {
  }

  lemma SafeIsProper(name: string)
    requires SavePath.SafeName(name)
    ensures Paths.ProperName(name)
  {
  }

  lemma ZipIsProper(folder: string)
    requires Paths.ProperName(folder)
    ensures Paths.ProperName(folder + ".zip")
  {
    var name := folder + ".zip";
    assert |name| > 4;
    assert forall c :: c in name ==> c in folder || c in ".zip";
  }

  lemma ZipIsExtension(folder: string)
    ensures IsExtension(folder, ".zip")
  {
  }

  /** Whichever it is, the chosen path is a name in the directory. */
  lemma SavedName(existing: set<string>, dir: string, stem: string, ext: string, chosen: string) returns (name: string)
    requires dir != "" && Paths.ProperName(stem + ext) && SavedAs(existing, dir, stem, ext, chosen)
    ensures Paths.ProperName(name) && chosen == Paths.Join(dir, name) && chosen != ""
  {
    hide Paths.Parse, Paths.Join, Paths.ProperName, Writes, Paths.Show, AllTaken;
    var d :| d + stem + ext == Paths.Join(dir, stem + ext) && IsDirectory(d) && Paths.Parse(d) == Paths.Parse(dir)
      && TakesLeastNumber(existing, d, stem, ext, chosen);
    name := stem + ext;
    if d + stem + ext in existing {
      var n: nat, text: string :|
        && n >= 1 && Writes(text, n)
        && chosen == InDirectory(d, stem + "(" + text + ")" + ext) && chosen !in existing
        && AllTaken(existing, d, stem, ext, n);
      NumberedIsProper(stem, text, n, ext);
      name := stem + "(" + text + ")" + ext;
      ParseOfJoin(dir, name);
    }
    ProperIsText(name);
    var _ := SavedIn(dir, name);
  }

  lemma ProperIsText(name: string)
    requires Paths.ProperName(name)
    ensures name != ""
  {
  }

  lemma NumberedIsProper(stem: string, text: string, n: nat, ext: string)
    requires Paths.ProperName(stem + ext) && Writes(text, n)
    ensures Paths.ProperName(stem + "(" + text + ")" + ext)
  {
    assert forall c :: c in stem || c in ext ==> c in stem + ext;
    NumberedIsName(stem, text, ext);
  }

  // ---------- Files ----------

  /** The offer as it is filed. */
  function Filed(offer: Offer, t: Text): Offer { offer.(filename := t.name) }

  /** What came before: transfers under way, and nothing of the new one. */
  ghost predicate Fresh(s: State, env: Env, jobs: map<Id, Job>, inodes: map<Id, nat>, before: seq<Tag>, id: Id) {
    && env.Sound() && AllAt(s, env.peer, jobs, inodes, before) && NoHardLinks(s.disk)
    && id !in jobs && Count(before, id) == 0
    && Lookup(s.dirs, id) == "" && Terminals(s.progress, id) == []
  }

  /** A file from its offer to its place: the offer arrives while other transfers
      are under way, is accepted by its id, and all chunks come. It ends up in
      the chosen directory under the offered name, or that with the least free
      number, with the bytes announced; and so do the others. */
  lemma OfferedFileArrives(
    s: State, env: Env, jobs: map<Id, Job>, inodes: map<Id, nat>, before: seq<Tag>, f: Frame, offer: Offer, t: Text,
    dir: string, stem: string, ext: string, existing: set<string>, job: Job, renamed: bool, frames: seq<Frame>,
    tags: seq<Tag>, io: nat -> Io)
    returns (inode: nat)
    requires Fresh(s, env, jobs, inodes, before, offer.id)
    requires CarriesOffer(env, f, offer) && t.Valid() && t.Whole() == offer.filename && Usable(t) && !offer.folder
    requires dir != "" && t.name == stem + ext && IsExtension(stem, ext)
    requires s.disk.names.Keys <= existing && job.final !in existing
    requires ArtifactFor(existing, Filed(offer, t), Paths.Join(dir, t.name), job.final, job.folder, renamed)
    requires offer.size == |job.src| && GoodJobs(jobs[offer.id := job])
    requires Setting(env, jobs[offer.id := job], frames, before, tags) && forall m :: io(m) == Works
    requires forall id :: id in jobs[offer.id := job] ==> Count(before + tags, id) == |jobs[offer.id := job][id].chunks|
    ensures SavedAs(existing, dir, stem, ext, job.final)
    ensures var filed := FrameHandled(s, env, f, Works);
            && filed.Valid() && offer.id in filed.offers
            && var accepted := OfferAccepted(filed, env, filed.offers[offer.id], offer.id, job.final, job.folder);
            && accepted.Valid() && accepted.offers == filed.offers - {offer.id}
            && var end := ConnectionRead(accepted, env, EncodeFrames(frames), io);
            && Delivered(end, env.peer, offer.id, job, inode)
            && forall id :: id in jobs ==> Delivered(end, env.peer, id, jobs[id], inodes[id])
  {
    hide Setting, Delivered, ConnectionRead, FrameHandled, OfferAccepted, Create, GoodJob, Count, SavedAs, ArtifactFor;
    hide Text.Valid, Usable, CarriesOffer, IsExtension, State.Valid, UnderWay, NoHardLinks, Terminals, Paths.Join,
        Apart;
    var id := offer.id;
    UsableIsSafe(t);
    ArtifactIsSaved(existing, dir, Filed(offer, t), stem, ext, job.final, job.folder, renamed);
    SafeIsProper(t.name);
    var _ := SavedName(existing, dir, stem, ext, job.final);
    AllAtIsValid(s, env.peer, jobs, inodes, before);
    OfferIsFiled(s, env, f, offer, t, Works);
    var filed := FrameHandled(s, env, f, Works);
    OffersAside(s, filed.offers, env.peer, jobs, inodes, before);
    FileCanStart(filed, id, job, Filed(offer, t), jobs);
    AcceptKeepsOthers(filed, env, jobs, inodes, before, id, job, Filed(offer, t));
    AcceptShape(filed, env, id, job, Filed(offer, t));
    var accepted := OfferAccepted(filed, env, Filed(offer, t), id, job.final, job.folder);
    AcceptedIsGone(filed, env, Filed(offer, t), id, job.final, job.folder);
    inode := Create(filed.disk, Temp(job)).1;
    EndToEnd(accepted, env, jobs[id := job], inodes[id := inode], frames, before, tags, io);
  }

  lemma UsableIsSafe(t: Text)
    requires t.Valid() && Usable(t)
    ensures SavePath.SafeName(t.name)
  {
    hide SavePath.SanitizeFilename, SavePath.SafeName, Text.Valid, AnyForbidden;
    SanitizedExactly(t);
    SavePath.SanitizedIsSafe(t.Whole());
  }

  lemma OffersAside(s: State, offers: map<Id, Offer>, peer: string, jobs: map<Id, Job>, inodes: map<Id, nat>,
                    tags: seq<Tag>)
    requires AllAt(s, peer, jobs, inodes, tags)
    ensures AllAt(s.(offers := offers), peer, jobs, inodes, tags)
  {
    hide JobAt, Count;
    forall id | id in jobs ensures JobAt(s.(offers := offers), peer, id, jobs[id], inodes[id], Count(tags, id)) {
      JobIgnoresOffers(s, offers, peer, id, jobs[id], inodes[id], Count(tags, id));
    }
  }

  lemma FileCanStart(filed: State, id: Id, job: Job, offer: Offer, jobs: map<Id, Job>)
    requires GoodJobs(jobs[id := job]) && offer.size == |job.src| && !offer.folder && job.final !in filed.disk.names
    requires Lookup(filed.dirs, id) == "" && Terminals(filed.progress, id) == []
    requires job.final != ""
    ensures CanStart(filed, id, job, offer) && job.folder == ""
  {
    hide GoodJob;
    assert jobs[id := job][id] == job;
  }

  lemma AcceptedIsGone(s: State, env: Env, offer: Offer, id: Id, artifact: string, folder: string)
    requires s.Valid()
    ensures OfferAccepted(s, env, offer, id, artifact, folder).offers == s.offers - {id}
  {
    hide TransferFinished, Create;
    var s1 := Opened(OfferLost(s, offer, id, folder), id, artifact, offer.size);
    FinishKeepsOffers(s1, env, id, s1.writers[id], 0, 0);
  }

  // ---------- Folders ----------

  lemma {:induction false} FramesAreChunks(s: State, env: Env, id: Id, job: Job, frames: seq<Frame>, io: nat -> Io,
                                           k: nat)
    requires s.Valid() && env.Sound() && GoodJob(id, job) && Sealed(env.open, frames, job.chunks) && k <= |frames|
    requires forall m :: io(m) == Works
    ensures FramesHandled(s, env, frames[..k], io) == Completion.ChunksHandled(s, env, job.chunks[..k])
    decreases k
  {
    hide FrameHandled, ChunkHandled, GoodJob, SealedChunk, State.Valid;
    if k == 0 {
      assert frames[..0] == [] && job.chunks[..0] == [];
    } else {
      FramesAreChunks(s, env, id, job, frames, io, k - 1);
      assert frames[..k] == frames[..k - 1] + [frames[k - 1]];
      FramesHandledSnoc(s, env, frames[..k - 1], frames[k - 1], io);
      FolderDelivery.LastHandled(s, env, job, k);
      assert SealedChunk(env.open, frames[k - 1], job.chunks[k - 1]);
      var mid := Completion.ChunksHandled(s, env, job.chunks[..k - 1]);
      hide FramesHandled, Completion.ChunksHandled;
      SealedFrameIsChunk(mid, env, frames[k - 1], id, job, k - 1, io(k - 1));
    }
  }

  lemma ConnectionIsChunks(s: State, env: Env, id: Id, job: Job, frames: seq<Frame>, io: nat -> Io)
    requires s.Valid() && env.Sound() && GoodJob(id, job) && Sealed(env.open, frames, job.chunks)
    requires forall m :: io(m) == Works
    ensures ConnectionRead(s, env, EncodeFrames(frames), io) ==
            Completion.ChunksHandled(s, env, job.chunks).(dropped := true)
  {
    hide FramesHandled, Completion.ChunksHandled, GoodJob, State.Valid, ParseFrames, EncodeFrames;
    assert AllFit(frames) by {
      assert forall k :: 0 <= k < |frames| ==> SealedChunk(env.open, frames[k], job.chunks[k]);
    }
    ParseWholeStream(frames);
    FramesAreChunks(s, env, id, job, frames, io, |frames|);
    assert frames[..|frames|] == frames && job.chunks[..|frames|] == job.chunks;
  }

  /** The state when a filed folder offer has been accepted. */
  function FolderAccepted(s: State, env: Env, f: Frame, id: Id, job: Job): State
    requires s.Valid() && FrameHandled(s, env, f, Works).Valid() && id in FrameHandled(s, env, f, Works).offers
  {
    var filed := FrameHandled(s, env, f, Works);
    OfferAccepted(filed, env, filed.offers[id], id, job.final, job.folder)
  }

  lemma FolderOfferIsAccepted(s: State, env: Env, f: Frame, offer: Offer, t: Text, dir: string, stem: string,
                              ext: string,
                              existing: set<string>, job: Job, renamed: bool)
    requires s.Valid() && env.Sound() && !s.dropped && Terminals(s.progress, offer.id) == []
    requires CarriesOffer(env, f, offer) && t.Valid() && t.Whole() == offer.filename && Usable(t) && offer.folder
    requires dir != "" && t.name == stem + ext && IsExtension(stem, ext)
    requires s.disk.names.Keys <= existing && job.final !in existing
    requires ArtifactFor(existing, Filed(offer, t), Paths.Join(dir, t.name), job.final, job.folder, renamed)
    requires offer.size == |job.src| && GoodJob(offer.id, job)
    ensures SavedFor(existing, dir, Filed(offer, t), stem, ext, job.final, job.folder)
    ensures FrameHandled(s, env, f, Works).Valid() && offer.id in FrameHandled(s, env, f, Works).offers
    ensures var accepted := FolderAccepted(s, env, f, offer.id, job);
            && accepted.Valid() && !accepted.dropped && Paths.ProperName(job.folder)
            && UnderWay(accepted, offer.id, job, Create(s.disk, Temp(job)).1, 0)
            && accepted.disk == Create(s.disk, Temp(job)).0
  {
    hide FrameHandled, Create, GoodJob, SavedFor, ArtifactFor, Text.Valid, Usable, CarriesOffer, IsExtension, Terminals;
    hide UnderWay, Paths.Join, Paths.ProperName;
    UsableIsSafe(t);
    ArtifactIsSaved(existing, dir, Filed(offer, t), stem, ext, job.final, job.folder, renamed);
    OfferIsFiled(s, env, f, offer, t, Works);
    var filed := FrameHandled(s, env, f, Works);
    ProperIsText(job.folder);
    ArchiveNotEmpty(existing, dir, Filed(offer, t), stem, ext, job.final, job.folder);
    FolderDelivery.FolderAcceptStarts(filed, env, offer.id, job, Filed(offer, t));
    FolderShape(filed, env, offer.id, job, Filed(offer, t));
  }

  lemma ArchiveNotEmpty(existing: set<string>, dir: string, offer: Offer, stem: string, ext: string,
                        artifact: string, folder: string)
    requires dir != "" && offer.folder && Paths.ProperName(folder)
    requires SavedFor(existing, dir, offer, stem, ext, artifact, folder)
    ensures artifact != ""
  {
    hide SavedAs, Paths.ProperName;
    ZipIsProper(folder);
    var _ := SavedName(existing, dir, folder, ".zip", artifact);
  }

  /** The folder is restored in the directory chosen for it. */
  lemma RestoredInDirectory(existing: set<string>, dir: string, job: Job)
    requires dir != "" && Paths.ProperName(job.folder) && SavedAs(existing, dir, job.folder, ".zip", job.final)
    ensures FolderDelivery.RootOf(job) == Paths.Path(Paths.Parse(dir).rooted, Paths.Parse(dir).parts + [job.folder])
  {
    hide Paths.Parse, Paths.Join, Paths.Dir, Paths.Clean, SavedAs, Paths.ProperName;
    ZipIsProper(job.folder);
    var name := SavedName(existing, dir, job.folder, ".zip", job.final);
    DirOfSaved(dir, name);
    CleanClean(dir);
    DirOfSaved(dir, job.folder);
    CleanJoins(dir, job.folder);
    Paths.JoinName(dir, job.folder);
  }

  lemma CleanClean(dir: string)
    ensures Paths.Clean(Paths.Clean(dir)) == Paths.Clean(dir)
  {
    Paths.CleanIdempotent(dir);
  }

  lemma FolderShape(s: State, env: Env, id: Id, job: Job, offer: Offer)
    requires s.Valid() && GoodJob(id, job) && offer.size == |job.src|
    ensures var accepted := OfferAccepted(s, env, offer, id, job.final, job.folder);
            accepted.Valid() && accepted.dropped == s.dropped && accepted.disk == Create(s.disk, Temp(job)).0
  {
    hide Tiles, Crc32.Checksum, Create, TransferFinished;
  }

  /** A folder from its offer to its place: the offer arrives, is accepted by its
      id, and the chunks of the packed folder come. The transfer is reported
      completed, and nothing has changed on the disk but that the tree stands in
      the chosen directory under the offered name, or a numbered one, exactly
      under the conditions that packing and restoring have. */
  lemma OfferedFolderArrives(
    s: State, env: Env, f: Frame, offer: Offer, t: Text, dir: string, stem: string, ext: string, existing: set<string>,
    job: Job, renamed: bool, frames: seq<Frame>, io: nat -> Io, zip: FolderDelivery.Zip,
    view: Disk -> FolderTree.Files, hostDir: string, tree: FolderTree.Tree, linked: bool, es: seq<Archive.Entry>)
    requires s.Valid() && env.Sound() && !s.dropped && Terminals(s.progress, offer.id) == []
    requires CarriesOffer(env, f, offer) && t.Valid() && t.Whole() == offer.filename && Usable(t) && offer.folder
    requires dir != "" && t.name == stem + ext && IsExtension(stem, ext)
    requires s.disk.names.Keys <= existing && job.final !in existing
    requires ArtifactFor(existing, Filed(offer, t), Paths.Join(dir, t.name), job.final, job.folder, renamed)
    requires offer.size == |job.src| && GoodJob(offer.id, job) && job.src == zip.pack(es)
    requires Sealed(env.open, frames, job.chunks) && forall m :: io(m) == Works
    requires zip.Lawful() && FolderDelivery.Extracts(env, zip, view)
    requires FolderRoundTrip.Offered(hostDir, tree, linked, es) && FolderRoundTrip.Plain(Archive.LastPart(hostDir))
    requires var made := Create(s.disk, Temp(job));
             var arrived := FolderDelivery.WithArchive(made.0, job, made.1);
             && FolderDelivery.ShowsArchive(env, view, arrived, job)
             && FolderRoundTrip.Fresh(view(arrived), FolderDelivery.RootOf(job))
    ensures SavedFor(existing, dir, Filed(offer, t), stem, ext, job.final, job.folder) && SaneSize(|job.src|)
    ensures FolderDelivery.RootOf(job) == Paths.Path(Paths.Parse(dir).rooted, Paths.Parse(dir).parts + [job.folder])
    ensures FrameHandled(s, env, f, Works).Valid() && offer.id in FrameHandled(s, env, f, Works).offers
    ensures var accepted := FolderAccepted(s, env, f, offer.id, job);
            && accepted.Valid()
            && var end := ConnectionRead(accepted, env, EncodeFrames(frames), io);
            var made := Create(s.disk, Temp(job));
            var arrived := FolderDelivery.WithArchive(made.0, job, made.1);
            ((&& Terminals(end.progress, offer.id) ==
                 [PeerProgress(env.peer, offer.id, |job.src|, |job.src|, Completed)]
              && FolderRoundTrip.Restored(FolderDelivery.WithoutArchive(view, arrived, job), view(end.disk),
                                          FolderDelivery.RootOf(job), tree))
             <==>
             (&& Paths.ProperName(Archive.LastPart(hostDir)) && !linked
              && FolderRoundTrip.HasContents(tree) && FolderRoundTrip.NamesArePlain(tree)))
  {
    FolderOfferIsAccepted(s, env, f, offer, t, dir, stem, ext, existing, job, renamed);
    RestoredInDirectory(existing, dir, job);
    hide FrameHandled, Create, GoodJob, SavedFor, ArtifactFor, Text.Valid, Usable, CarriesOffer, IsExtension, Terminals;
    hide UnderWay, Paths.Join, Paths.ProperName, FolderAccepted, ConnectionRead, Completion.ChunksHandled, Sealed;
    hide FolderDelivery.Extracts, FolderDelivery.ShowsArchive, FolderDelivery.WithArchive, FolderDelivery.RootOf;
    hide FolderRoundTrip.Offered, FolderRoundTrip.Plain, FolderRoundTrip.Fresh, FolderRoundTrip.Restored;
    hide FolderRoundTrip.HasContents, FolderRoundTrip.NamesArePlain, FolderDelivery.WithoutArchive, Archive.LastPart;
    var accepted := FolderAccepted(s, env, f, offer.id, job);
    var inode := Create(s.disk, Temp(job)).1;
    FolderDelivery.FolderEndToEnd(accepted, env, zip, view, offer.id, job, inode, hostDir, tree, linked, es);
    ConnectionIsChunks(accepted, env, offer.id, job, frames, io);
  }
}
