/** A folder all the way: packed by the host, sent as a file, restored by the
    receiver (internal/host/host.go:385-415, internal/host/archive.go:11-74,
    internal/receiver/receiver.go:420-453, 467-471). */
module FolderDelivery {
  import opened Bytes
  import opened ChunkCodec
  import opened FileWriting
  import opened Transfer
  import opened PeerStates
  import opened Receiver
  import opened Delivery
  import Completion
  import Archive
  import FolderTree
  import FolderRoundTrip
  import Paths
  import SavePath
  import Crc32

  /** The zip format: a list of entries as a byte string and back. */
  datatype Zip = Zip(pack: seq<Archive.Entry> -> seq<byte>, unpack: seq<byte> -> Option<seq<Archive.Entry>>)
  {
    ghost predicate Lawful() {
      forall es :: unpack(pack(es)) == Some(es)
    }
  }

  /** The receiver's way of restoring a folder is the extraction of the entries
      in the archive at `path`, next to it, on the tree view of the disk. */
  ghost predicate Extracts(env: Env, zip: Zip, view: Disk -> FolderTree.Files) {
    forall d: Disk, path: string, folder: string ::
      d.Content(path).Some? && zip.unpack(d.Content(path).value).Some? ==>
        var result := Archive.ExtractAll(view(d), Archive.TargetRoot(Paths.Dir(path), folder),
                                         zip.unpack(d.Content(path).value).value);
        env.extract(d, path, folder).ok == result.ok && view(env.extract(d, path, folder).disk) == result.fs
  }

  /** The disk when the archive has arrived under its final path. */
  function WithArchive(d: Disk, job: Job, inode: nat): Disk {
    d.(data := d.data[inode := job.src], names := (d.names - {Temp(job)})[job.final := inode])
  }

  lemma {:induction false} ChunksSoFar(s: State, env: Env, id: Id, job: Job, inode: nat, k: nat)
    requires s.Valid() && env.Sound() && !s.dropped && GoodJob(id, job) && UnderWay(s, id, job, inode, 0)
             && k < |job.chunks|
    ensures var t := Completion.ChunksHandled(s, env, job.chunks[..k]);
            && UnderWay(t, id, job, inode, k) && !t.dropped && inode in s.disk.data && inode in t.disk.data
            && t.disk == s.disk.(data := s.disk.data[inode := t.disk.data[inode]])
    decreases k
  {
    hide UnderWay, GoodJob, ChunkHandled, State.Valid;
    if k == 0 {
      assert job.chunks[..0] == [];
      InodeOf(s, id, job, inode, 0);
    } else {
      ChunksSoFar(s, env, id, job, inode, k - 1);
      assert job.chunks[..k][..k - 1] == job.chunks[..k - 1];
      var mid := Completion.ChunksHandled(s, env, job.chunks[..k - 1]);
      hide Completion.ChunksHandled;
      OneMoreChunk(mid, env, id, job, inode, k - 1);
      LastHandled(s, env, job, k);
    }
  }

  lemma InodeOf(s: State, id: Id, job: Job, inode: nat, k: nat)
    requires s.Valid() && UnderWay(s, id, job, inode, k)
    ensures inode in s.disk.data && s.disk == s.disk.(data := s.disk.data[inode := s.disk.data[inode]])
  {
  }

  lemma LastHandled(s: State, env: Env, job: Job, k: nat)
    requires s.Valid() && env.Sound() && 0 < k <= |job.chunks|
    ensures Completion.ChunksHandled(s, env, job.chunks[..k]) ==
            ChunkHandled(Completion.ChunksHandled(s, env, job.chunks[..k - 1]), env, job.chunks[k - 1], Works)
  {
    hide ChunkHandled;
    assert job.chunks[..k][..k - 1] == job.chunks[..k - 1];
  }

  lemma OneMoreChunk(s: State, env: Env, id: Id, job: Job, inode: nat, k: nat)
    requires s.Valid() && !s.dropped && GoodJob(id, job) && UnderWay(s, id, job, inode, k) && k + 1 < |job.chunks|
    ensures var t := ChunkHandled(s, env, job.chunks[k], Works);
            && UnderWay(t, id, job, inode, k + 1) && !t.dropped && inode in s.disk.data && inode in t.disk.data
            && t.disk == s.disk.(data := s.disk.data[inode := t.disk.data[inode]])
  {
    hide ChunkHandled, Tiles, Crc32.Checksum;
    EarlierChunk(s, env, id, job, inode, k);
    ReachBounded(id, job, k);
    InodeOf(s, id, job, inode, k);
    StaysOpen(s, id, job, inode, k);
  }

  /** When all chunks have come, the archive is renamed and then restored. */
  lemma ArchiveArrives(s: State, env: Env, id: Id, job: Job, inode: nat)
    requires s.Valid() && env.Sound() && !s.dropped && GoodJob(id, job) && job.folder != ""
             && UnderWay(s, id, job, inode, 0)
    ensures var t, x := Completion.ChunksHandled(s, env, job.chunks),
            env.extract(WithArchive(s.disk, job, inode), job.final, job.folder);
            && SaneSize(|job.src|)
            && t.disk == (if x.ok then Remove(x.disk, job.final) else x.disk)
            && Terminals(t.progress, id) ==
                [PeerProgress(env.peer, id, |job.src|, |job.src|, if x.ok then Completed else Failed)]
  {
    hide UnderWay, GoodJob, ChunkHandled, State.Valid, Completion.ChunksHandled, TransferFinished;
    StartedJobHasChunks(id, job);
    var k := |job.chunks| - 1;
    ChunksSoFar(s, env, id, job, inode, k);
    var before := Completion.ChunksHandled(s, env, job.chunks[..k]);
    assert job.chunks[..k + 1] == job.chunks;
    LastHandled(s, env, job, k + 1);
    LastChunkIsWritten(before, env, id, job, inode, k);
    ReachBounded(id, job, k);
    StaysOpen(before, id, job, inode, k);
    var mid := AfterWrite(before, env.peer, id, job, inode, k);
    FinishRenames(mid, id, job, inode);
    WrittenDisk(s, before, env.peer, id, job, inode, k);
    FolderFinished(mid, env, id, job, inode);
  }

  lemma WrittenDisk(s: State, before: State, peer: string, id: Id, job: Job, inode: nat, k: nat)
    requires id in before.writers && k < |job.chunks| && SaneSize(|job.src|) && End(job.chunks[k]) == |job.src|
    requires inode in s.disk.data && inode in before.disk.data
    requires before.disk == s.disk.(data := s.disk.data[inode := before.disk.data[inode]])
    ensures AfterWrite(before, peer, id, job, inode, k).disk == s.disk.(data := s.disk.data[inode := job.src])
  {
    assert job.src[..|job.src|] == job.src;
  }

  lemma FolderFinished(mid: State, env: Env, id: Id, job: Job, inode: nat)
    requires AllWritten(mid, id, job, inode) && job.folder != "" && inode in mid.disk.data
             && mid.disk.data[inode] == job.src
    ensures id in mid.writers
    ensures var d := mid.disk.(names := (mid.disk.names - {Temp(job)})[job.final := inode]);
            var x, t := env.extract(d, job.final, job.folder),
                TransferFinished(mid, env, id, mid.writers[id], |job.src|, |job.src|);
            && d == WithArchive(mid.disk, job, inode)
            && t.disk == (if x.ok then Remove(x.disk, job.final) else x.disk)
            && Terminals(t.progress, id) ==
                [PeerProgress(env.peer, id, |job.src|, |job.src|, if x.ok then Completed else Failed)]
  {
    hide Remove;
    FinishRenames(mid, id, job, inode);
    TerminalsSnoc(mid.progress, PeerProgress(env.peer, id, |job.src|, |job.src|, Completed), id);
    TerminalsSnoc(mid.progress, PeerProgress(env.peer, id, |job.src|, |job.src|, Failed), id);
    assert mid.disk.data == mid.disk.data[inode := job.src];
    hide FileFinished;
  }

  /** Accepting a folder offer starts such a transfer. */
  lemma FolderAcceptStarts(s: State, env: Env, id: Id, job: Job, offer: Offer)
    requires s.Valid() && GoodJob(id, job) && job.folder != "" && offer.folder && offer.size == |job.src|
    requires job.final != "" && job.final !in s.disk.names && Terminals(s.progress, id) == []
    ensures UnderWay(OfferAccepted(s, env, offer, id, job.final, job.folder), id, job, Create(s.disk, Temp(job)).1, 0)
  {
    hide Crc32.Checksum;
    TempPathDiffers(job.final);
    StartedJobHasChunks(id, job);
    assert job.chunks[..0] == [];
  }

  /** The archive is a file of the tree view, and removing it takes it away. */
  ghost predicate ShowsArchive(env: Env, view: Disk -> FolderTree.Files, arrived: Disk, job: Job) {
    var end := env.extract(arrived, job.final, job.folder).disk;
    && Paths.Parse(job.final) in view(arrived)
    && view(Remove(end, job.final)) == view(end) - {Paths.Parse(job.final)}
  }

  function RootOf(job: Job): Paths.Path {
    Paths.Parse(Archive.TargetRoot(Paths.Dir(job.final), job.folder))
  }

  /** The setting of the theorems below: all chunks of the archive of an offered
      folder are still to come, and nothing stands where it will be restored. */
  ghost predicate FolderOnItsWay(s: State, env: Env, zip: Zip, view: Disk -> FolderTree.Files, id: Id, job: Job,
                                 inode: nat,
                                 dir: string, t: FolderTree.Tree, linked: bool, es: seq<Archive.Entry>) {
    && s.Valid() && env.Sound() && !s.dropped && GoodJob(id, job) && UnderWay(s, id, job, inode, 0)
    && zip.Lawful() && Extracts(env, zip, view) && ShowsArchive(env, view, WithArchive(s.disk, job, inode), job)
    && job.src == zip.pack(es) && FolderRoundTrip.Offered(dir, t, linked, es) && Paths.ProperName(job.folder)
    && FolderRoundTrip.Fresh(view(WithArchive(s.disk, job, inode)), RootOf(job))
  }

  /** The files before the archive came: those with it, but for it. */
  ghost function WithoutArchive(view: Disk -> FolderTree.Files, d: Disk, job: Job): FolderTree.Files {
    view(d) - {Paths.Parse(job.final)}
  }

  /** When all chunks have come, the report says whether the extraction worked,
      and then the archive is gone and all else is as the extraction left it. */
  lemma FolderArrives(s: State, env: Env, zip: Zip, view: Disk -> FolderTree.Files, id: Id, job: Job, inode: nat,
                      dir: string, t: FolderTree.Tree, linked: bool, es: seq<Archive.Entry>)
    requires FolderOnItsWay(s, env, zip, view, id, job, inode, dir, t, linked, es)
    ensures SaneSize(|job.src|) && !FolderTree.Above(RootOf(job), Paths.Parse(job.final))
    ensures var arrived, end := WithArchive(s.disk, job, inode), Completion.ChunksHandled(s, env, job.chunks);
            var result := Archive.ExtractAll(view(arrived), Archive.TargetRoot(Paths.Dir(job.final), job.folder), es);
            var state := if result.ok then Completed else Failed;
            && Terminals(end.progress, id) == [PeerProgress(env.peer, id, |job.src|, |job.src|, state)]
            && view(end.disk) == if result.ok then result.fs - {Paths.Parse(job.final)} else result.fs
  {
    assert job.folder != "" by { FolderIsNamed(job.folder); }
    ArchiveArrives(s, env, id, job, inode);
    var arrived := WithArchive(s.disk, job, inode);
    assert arrived.Content(job.final) == Some(job.src);
    Extraction(env, zip, view, arrived, job.final, job.folder, es);
    if FolderTree.Above(RootOf(job), Paths.Parse(job.final)) {
      FolderRoundTrip.FreshHasNothing(view(arrived), RootOf(job), Paths.Parse(job.final));
    }
  }

  /** A folder is packed, its archive cut into chunks that arrive in order, and
      the receiver restores it next to the archive under the chosen name. In the
      end the transfer is reported completed, and on the disk nothing has
      changed but that the tree stands there, links left out, exactly if the
      offered path ends in a name that is not a link, something in the folder is
      not a link, and no name in it has a backslash. */
  lemma FolderEndToEnd(s: State, env: Env, zip: Zip, view: Disk -> FolderTree.Files, id: Id, job: Job, inode: nat,
                       dir: string, t: FolderTree.Tree, linked: bool, es: seq<Archive.Entry>)
    requires FolderOnItsWay(s, env, zip, view, id, job, inode, dir, t, linked, es)
    requires FolderRoundTrip.Plain(Archive.LastPart(dir))
    ensures SaneSize(|job.src|)
    ensures var arrived, end := WithArchive(s.disk, job, inode), Completion.ChunksHandled(s, env, job.chunks);
            (&& Terminals(end.progress, id) == [PeerProgress(env.peer, id, |job.src|, |job.src|, Completed)]
             && FolderRoundTrip.Restored(WithoutArchive(view, arrived, job), view(end.disk), RootOf(job), t))
            <==>
            (&& Paths.ProperName(Archive.LastPart(dir)) && !linked
             && FolderRoundTrip.HasContents(t) && FolderRoundTrip.NamesArePlain(t))
  {
    FolderArrives(s, env, zip, view, id, job, inode, dir, t, linked, es);
    hide UnderWay, GoodJob, State.Valid, Completion.ChunksHandled, WithArchive, Remove, Terminals, Extracts;
    hide FolderRoundTrip.Offered, FolderRoundTrip.Fresh, FolderRoundTrip.Restored, FolderRoundTrip.HasContents,
        FolderRoundTrip.NamesArePlain;
    hide FolderRoundTrip.Plain, Archive.ExtractAll, Archive.TargetRoot, Archive.LastPart, Paths.Parse, Paths.Dir,
        Paths.ProperName;
    var before, root := view(WithArchive(s.disk, job, inode)), Archive.TargetRoot(Paths.Dir(job.final), job.folder);
    FolderRoundTrip.TargetRootIsNamed(Paths.Dir(job.final), job.folder);
    RootIsText(root);
    FolderRoundTrip.ElsewhereStays(before, root, es, Paths.Parse(job.final));
    FolderRoundTrip.RestoredWithout(before, Archive.ExtractAll(before, root, es).fs, RootOf(job), t,
                                    Paths.Parse(job.final));
    FolderRoundTrip.FolderRoundTrip(before, dir, t, linked, es, Paths.Dir(job.final), job.folder);
  }

  lemma RootIsText(root: string)
    requires FolderRoundTrip.NamedRoot(root)
    ensures root != ""
  {
  }

  /** A link to a folder is offered as a folder but archived as nothing: the
      transfer is reported completed, and the disk is as it was before. */
  lemma LinkedFolderCompletes(s: State, env: Env, zip: Zip, view: Disk -> FolderTree.Files, id: Id, job: Job,
                              inode: nat,
                              dir: string, t: FolderTree.Tree, es: seq<Archive.Entry>)
    requires FolderOnItsWay(s, env, zip, view, id, job, inode, dir, t, true, es)
    requires Paths.ProperName(Archive.LastPart(dir))
    ensures SaneSize(|job.src|)
    ensures var arrived, end := WithArchive(s.disk, job, inode), Completion.ChunksHandled(s, env, job.chunks);
            && Terminals(end.progress, id) == [PeerProgress(env.peer, id, |job.src|, |job.src|, Completed)]
            && view(end.disk) == WithoutArchive(view, arrived, job)
  {
    FolderArrives(s, env, zip, view, id, job, inode, dir, t, true, es);
    hide UnderWay, GoodJob, State.Valid, Completion.ChunksHandled, WithArchive, Remove, Terminals, Extracts;
    hide FolderRoundTrip.Offered, FolderRoundTrip.Fresh, Archive.ExtractAll, Archive.TargetRoot, Archive.LastPart,
        Paths.Parse, Paths.Dir, Paths.ProperName;
    var before, root := view(WithArchive(s.disk, job, inode)), Archive.TargetRoot(Paths.Dir(job.final), job.folder);
    FolderRoundTrip.TargetRootIsNamed(Paths.Dir(job.final), job.folder);
    FolderRoundTrip.LinkIsLost(before, dir, t, es, root);
  }

  lemma FolderIsNamed(name: string)
    requires Paths.ProperName(name)
    ensures name != ""
  {
  }

  lemma Extraction(env: Env, zip: Zip, view: Disk -> FolderTree.Files, d: Disk, path: string, folder: string,
                   es: seq<Archive.Entry>)
    requires zip.Lawful() && Extracts(env, zip, view) && d.Content(path) == Some(zip.pack(es))
    ensures var result := Archive.ExtractAll(view(d), Archive.TargetRoot(Paths.Dir(path), folder), es);
            env.extract(d, path, folder).ok == result.ok && view(env.extract(d, path, folder).disk) == result.fs
  {
    hide Archive.ExtractAll, Archive.TargetRoot, Paths.Dir;
    assert zip.unpack(zip.pack(es)) == Some(es);
  }

  /** The folders the theorem above does not speak of are never received: their
      name, as the host offers it, is refused by every receiver. */
  lemma OtherFoldersAreRefused(s: State, dir: string, offer: Offer)
    requires offer.filename == Archive.LastPart(dir)
    requires Archive.LastPart(dir) == ".." || !FolderRoundTrip.Plain(Archive.LastPart(dir))
    ensures OfferReceived(s, offer) == s
  {
    hide Archive.LastPart;
    SavePath.RefusedNames(offer.filename);
  }
}
