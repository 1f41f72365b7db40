/** Offers are accepted while the read loop runs: deliveries that start in the
    middle of others (internal/receiver/receiver.go:256-283, 455-511). */
module Ongoing {
  import opened Bytes
  import opened Protocol
  import opened FileWriting
  import opened Transfer
  import opened PeerStates
  import opened Receiver
  import opened Delivery
  import opened ChunkCodec
  import Crc32

  /** The read loop handles a frame, or the interface accepts an offer. */
  datatype Event = FrameArrives(frame: Frame, tag: Tag) | OfferIsAccepted(id: Id, offer: Offer)

  function EventHandled(s: State, env: Env, jobs: map<Id, Job>, e: Event): State
    requires s.Valid() && (e.OfferIsAccepted? ==> e.id in jobs)
  {
    match e
    case FrameArrives(f, _) => FrameHandled(s, env, f, Works)
    case OfferIsAccepted(id, offer) => OfferAccepted(s, env, offer, id, jobs[id].final, "")
  }

  ghost predicate AcceptsJobs(jobs: map<Id, Job>, events: seq<Event>) {
    forall p :: 0 <= p < |events| && events[p].OfferIsAccepted? ==> events[p].id in jobs
  }

  lemma EventKeepsValid(s: State, env: Env, jobs: map<Id, Job>, e: Event)
    requires s.Valid() && env.Sound() && (e.OfferIsAccepted? ==> e.id in jobs)
    ensures EventHandled(s, env, jobs, e).Valid()
  {
    hide FrameHandled, TransferFinished, Opened;
    match e
    case FrameArrives(f, _) => FrameHandledIsValid(s, env, f, Works);
    case OfferIsAccepted(id, offer) =>
      assert OfferLost(s, offer, id, "").Valid();
      var s1 := Opened(OfferLost(s, offer, id, ""), id, jobs[id].final, offer.size);
      TransferFinishedIsValid(s1, env, id, s1.writers[id], 0, 0);
  }

  function EventsHandled(s: State, env: Env, jobs: map<Id, Job>, events: seq<Event>): (r: State)
    requires s.Valid() && env.Sound() && AcceptsJobs(jobs, events)
    ensures r.Valid()
    decreases |events|
  {
    if events == [] then s
    else
      var n := |events| - 1;
      assert forall p :: 0 <= p < n ==> events[..n][p] == events[p];
      var before := EventsHandled(s, env, jobs, events[..n]);
      EventKeepsValid(before, env, jobs, events[n]);
      EventHandled(before, env, jobs, events[n])
  }

  function FramesOf(events: seq<Event>): seq<Frame> {
    if events == [] then []
    else FramesOf(events[..|events| - 1]) + NewFrames(events[|events| - 1])
  }

  function NewFrames(e: Event): seq<Frame> {
    match e case FrameArrives(f, _) => [f] case OfferIsAccepted(_, _) => []
  }

  function TagsOf(events: seq<Event>): seq<Tag> {
    if events == [] then []
    else TagsOf(events[..|events| - 1]) + NewTags(events[|events| - 1])
  }

  function NewTags(e: Event): seq<Tag> {
    match e case FrameArrives(_, tag) => [tag] case OfferIsAccepted(_, _) => []
  }

  function AcceptedIn(events: seq<Event>): set<Id> {
    if events == [] then {}
    else AcceptedIn(events[..|events| - 1]) + NewlyAccepted(events[|events| - 1])
  }

  function NewlyAccepted(e: Event): set<Id> {
    match e case FrameArrives(_, _) => {} case OfferIsAccepted(id, _) => {id}
  }

  /** Each transfer is accepted once, before its first chunk; its chunks come in
      order behind those that came before. */
  ghost predicate CanHappen(env: Env, jobs: map<Id, Job>, accepted: set<Id>, tags: seq<Tag>, e: Event) {
    match e
    case FrameArrives(f, tag) =>
      Matches(env, f, tag, jobs) && (tag.Part? ==> tag.id in accepted && tag.k == Count(tags, tag.id))
    case OfferIsAccepted(id, offer) =>
      id in jobs && id !in accepted && offer.size == |jobs[id].src| && !offer.folder
  }

  ghost predicate Course(env: Env, jobs: map<Id, Job>, accepted: set<Id>, tags: seq<Tag>, events: seq<Event>) {
    forall p :: 0 <= p < |events| ==>
      CanHappen(env, jobs, accepted + AcceptedIn(events[..p]), tags + TagsOf(events[..p]), events[p])
  }

  // ---------- Where everything stands ----------

  function Only(jobs: map<Id, Job>, ids: set<Id>): map<Id, Job> {
    map id | id in jobs && id in ids :: jobs[id]
  }

  /** Nothing is known yet about a transfer that will be accepted later. */
  ghost predicate Untouched(s: State, id: Id, job: Job) {
    job.final != "" && job.final !in s.disk.names && Lookup(s.dirs, id) == "" && Terminals(s.progress, id) == []
  }

  ghost predicate Standing(s: State, env: Env, jobs: map<Id, Job>, accepted: set<Id>, inodes: map<Id, nat>,
                           tags: seq<Tag>) {
    && accepted <= jobs.Keys
    && AllAt(s, env.peer, Only(jobs, accepted), inodes, tags)
    && NoHardLinks(s.disk)
    && forall id :: id in jobs && id !in accepted ==> Untouched(s, id, jobs[id]) && Count(tags, id) == 0
  }

  lemma OnlyGood(jobs: map<Id, Job>, ids: set<Id>)
    requires GoodJobs(jobs)
    ensures GoodJobs(Only(jobs, ids))
  {
    hide GoodJob, Apart;
  }

  lemma MatchesOnly(env: Env, f: Frame, tag: Tag, jobs: map<Id, Job>, ids: set<Id>)
    requires Matches(env, f, tag, jobs) && (tag.Part? ==> tag.id in ids)
    ensures Matches(env, f, tag, Only(jobs, ids))
  {
    hide ParseFrame, DecodeBody, SealedChunk;
  }

  /** A chunk of one transfer does not touch one that is still to come. */
  lemma ChunkSpares(s: State, env: Env, id: Id, job: Job, inode: nat, k: nat, other: Id, later: Job)
    requires s.Valid() && !s.dropped && GoodJob(id, job) && job.folder == "" && k < |job.chunks|
             && UnderWay(s, id, job, inode, k)
    requires other != id && Apart(job, later) && Untouched(s, other, later)
    ensures Untouched(ChunkHandled(s, env, job.chunks[k], Works), other, later)
  {
    hide ChunkHandled, UnderWay, Delivered, Tiles, Crc32.Checksum, Untouched, Apart, AfterWrite;
    ReachBounded(id, job, k);
    StaysOpen(s, id, job, inode, k);
    WriteSpares(s, env.peer, id, job, inode, k, other, later);
    if k + 1 < |job.chunks| {
      EarlierChunk(s, env, id, job, inode, k);
    } else {
      LastChunk(s, env, id, job, inode, k);
      RenameSpares(AfterWrite(s, env.peer, id, job, inode, k), env.peer, id, job, inode, other, later);
    }
  }

  lemma WriteSpares(s: State, peer: string, id: Id, job: Job, inode: nat, k: nat, other: Id, later: Job)
    requires id in s.writers && k < |job.chunks| && SaneSize(|job.src|) && 0 <= End(job.chunks[k]) <= |job.src|
    requires other != id && Untouched(s, other, later)
    ensures Untouched(AfterWrite(s, peer, id, job, inode, k), other, later)
  {
    TerminalsSnoc(s.progress, PeerProgress(peer, id, End(job.chunks[k]), |job.src|, InProgress), other);
  }

  lemma RenameSpares(mid: State, peer: string, id: Id, job: Job, inode: nat, other: Id, later: Job)
    requires SaneSize(|job.src|) && other != id && Apart(job, later) && Untouched(mid, other, later)
    ensures Untouched(Send(Forget(mid,
                                  id).(disk := mid.disk.(names := (mid.disk.names - {Temp(job)})[job.final := inode])),
                           PeerProgress(peer, id, |job.src|, |job.src|, Completed)), other, later)
  {
    TerminalsSnoc(mid.progress, PeerProgress(peer, id, |job.src|, |job.src|, Completed), other);
  }

  lemma ChunkKeepsLinks(s: State, env: Env, id: Id, job: Job, inode: nat, k: nat)
    requires s.Valid() && !s.dropped && GoodJob(id, job) && job.folder == "" && k < |job.chunks|
             && UnderWay(s, id, job, inode, k)
    requires NoHardLinks(s.disk)
    ensures NoHardLinks(ChunkHandled(s, env, job.chunks[k], Works).disk)
  {
    hide ChunkHandled, Delivered, Tiles, Crc32.Checksum;
    ReachBounded(id, job, k);
    StaysOpen(s, id, job, inode, k);
    if k + 1 < |job.chunks| {
      EarlierChunk(s, env, id, job, inode, k);
    } else {
      LastChunk(s, env, id, job, inode, k);
    }
  }

  lemma FrameStands(s: State, env: Env, jobs: map<Id, Job>, accepted: set<Id>, inodes: map<Id, nat>, tags: seq<Tag>,
                    f: Frame, tag: Tag)
    requires env.Sound() && GoodJobs(jobs) && Standing(s, env, jobs, accepted, inodes, tags)
    requires CanHappen(env, jobs, accepted, tags, FrameArrives(f, tag))
    ensures Standing(FrameHandled(s, env, f, Works), env, jobs, accepted, inodes, tags + [tag])
  {
    hide FrameHandled, JobAt, GoodJob, Apart, CarriesNoChunk, SealedChunk, Count, NoHardLinks, Untouched;
    var current := Only(jobs, accepted);
    OnlyGood(jobs, accepted);
    MatchesOnly(env, f, tag, jobs, accepted);
    FrameStep(s, env, current, inodes, f, tags, tag);
    var after := FrameHandled(s, env, f, Works);
    match tag
    case Other =>
      OtherFrameKeeps(s, env, f, current, Works);
      forall id | id in jobs && id !in accepted ensures Untouched(after, id, jobs[id]) && Count(tags + [tag], id) == 0 {
        CountSnoc(tags, tag, id);
        UntouchedByOffers(s, after.offers, id, jobs[id]);
      }
    case Part(id, k) =>
      SealedFrameIsChunk(s, env, f, id, current[id], k, Works);
      JobIsUnderWay(s, env.peer, id, current[id], inodes[id], k);
      ChunkKeepsLinks(s, env, id, current[id], inodes[id], k);
      forall other | other in jobs && other !in accepted ensures Untouched(after, other, jobs[other])
          && Count(tags + [tag], other) == 0 {
        CountSnoc(tags, tag, other);
        assert Apart(jobs[id], jobs[other]);
        ChunkSpares(s, env, id, current[id], inodes[id], k, other, jobs[other]);
      }
  }

  lemma UntouchedByOffers(s: State, offers: map<Id, Offer>, id: Id, job: Job)
    requires Untouched(s, id, job)
    ensures Untouched(s.(offers := offers), id, job)
  {
  }

  lemma AcceptStands(s: State, env: Env, jobs: map<Id, Job>, accepted: set<Id>, inodes: map<Id, nat>, tags: seq<Tag>,
                     id: Id, offer: Offer)
    requires env.Sound() && GoodJobs(jobs) && Standing(s, env, jobs, accepted, inodes, tags)
    requires CanHappen(env, jobs, accepted, tags, OfferIsAccepted(id, offer))
    ensures Standing(OfferAccepted(s, env, offer, id, jobs[id].final, ""), env, jobs, accepted + {id},
                     inodes[id := Create(s.disk, Temp(jobs[id])).1], tags)
  {
    hide OfferAccepted, GoodJob, Apart, Count, JobsAt, NoHardLinks, Create;
    OnlyGood(jobs, accepted + {id});
    assert Only(jobs, accepted + {id}) == Only(jobs, accepted)[id := jobs[id]];
    UntouchedCanStart(s, id, jobs[id], offer);
    JobsAtIsValid(s, env.peer, Only(jobs, accepted), inodes, tags);
    AcceptKeepsOthers(s, env, Only(jobs, accepted), inodes, tags, id, jobs[id], offer);
    forall other | other in jobs && other !in accepted + {id}
      ensures Untouched(OfferAccepted(s, env, offer, id, jobs[id].final, ""), other, jobs[other])
    {
      assert Apart(jobs[id], jobs[other]);
      AcceptSpares(s, env, id, jobs[id], offer, other, jobs[other]);
    }
  }

  lemma UntouchedCanStart(s: State, id: Id, job: Job, offer: Offer)
    requires GoodJob(id, job) && job.folder == "" && Untouched(s, id, job) && offer.size == |job.src| && !offer.folder
    ensures CanStart(s, id, job, offer)
  {
    hide GoodJob;
  }

  lemma AcceptSpares(s: State, env: Env, id: Id, job: Job, offer: Offer, other: Id, later: Job)
    requires s.Valid() && CanStart(s, id, job, offer) && other != id && Apart(job, later) && Untouched(s, other, later)
    ensures Untouched(OfferAccepted(s, env, offer, id, job.final, ""), other, later)
  {
    hide TransferFinished, Tiles, Crc32.Checksum;
  }

  // ---------- Whole runs ----------

  lemma CoursePrefix(env: Env, jobs: map<Id, Job>, accepted: set<Id>, tags: seq<Tag>, events: seq<Event>)
    requires Course(env, jobs, accepted, tags, events) && events != []
    ensures Course(env, jobs, accepted, tags, events[..|events| - 1])
  {
    hide CanHappen, AcceptedIn, TagsOf;
    var shorter := events[..|events| - 1];
    forall p | 0 <= p < |shorter|
      ensures CanHappen(env, jobs, accepted + AcceptedIn(shorter[..p]), tags + TagsOf(shorter[..p]), shorter[p])
    {
      assert shorter[..p] == events[..p];
    }
  }

  /** A run mixes frames and acceptances in any way: each transfer is accepted
      at any time before its first chunk, with others half received or done.
      At the end every accepted transfer stands where its chunks have brought
      it, and nothing has happened to the others. */
  lemma {:induction false} RunStands(s: State, env: Env, jobs: map<Id, Job>, accepted: set<Id>, inodes: map<Id, nat>,
                                     tags: seq<Tag>, events: seq<Event>) returns (ends: map<Id, nat>)
    requires env.Sound() && GoodJobs(jobs) && s.Valid() && Standing(s, env, jobs, accepted, inodes, tags)
    requires Course(env, jobs, accepted, tags, events)
    ensures AcceptsJobs(jobs, events)
    ensures Standing(EventsHandled(s, env, jobs, events), env, jobs, accepted + AcceptedIn(events), ends,
                     tags + TagsOf(events))
    decreases |events|
  {
    hide Standing, GoodJobs, EventHandled, CanHappen, Course, NewTags, NewlyAccepted, AcceptedIn, TagsOf, EventsHandled,
        AcceptsJobs, State.Valid;
    if events == [] {
      NoEvents(s, env, jobs, accepted, tags);
      ends := inodes;
    } else {
      var n := |events| - 1;
      CoursePrefix(env, jobs, accepted, tags, events);
      ends := RunStands(s, env, jobs, accepted, inodes, tags, events[..n]);
      LastHappens(env, jobs, accepted, tags, events);
      HappensToJobs(env, jobs, accepted + AcceptedIn(events[..n]), tags + TagsOf(events[..n]), events[n]);
      EventsSnoc(s, env, jobs, accepted, tags, events);
      ends := EventStands(EventsHandled(s, env, jobs, events[..n]), env, jobs, accepted + AcceptedIn(events[..n]), ends,
                          tags + TagsOf(events[..n]), events[n]);
    }
  }

  lemma NoEvents(s: State, env: Env, jobs: map<Id, Job>, accepted: set<Id>, tags: seq<Tag>)
    requires s.Valid() && env.Sound()
    ensures AcceptsJobs(jobs, []) && EventsHandled(s, env, jobs, []) == s
    ensures accepted + AcceptedIn([]) == accepted && tags + TagsOf([]) == tags
  {
  }

  lemma LastHappens(env: Env, jobs: map<Id, Job>, accepted: set<Id>, tags: seq<Tag>, events: seq<Event>)
    requires Course(env, jobs, accepted, tags, events) && events != []
    ensures var n := |events| - 1;
            CanHappen(env, jobs, accepted + AcceptedIn(events[..n]), tags + TagsOf(events[..n]), events[n])
  {
  }

  lemma EventsSnoc(s: State, env: Env, jobs: map<Id, Job>, accepted: set<Id>, tags: seq<Tag>, events: seq<Event>)
    requires s.Valid() && env.Sound() && events != [] && AcceptsJobs(jobs, events[..|events| - 1])
    requires events[|events| - 1].OfferIsAccepted? ==> events[|events| - 1].id in jobs
    ensures AcceptsJobs(jobs, events)
    ensures var n := |events| - 1;
            && EventsHandled(s, env, jobs, events) ==
                EventHandled(EventsHandled(s, env, jobs, events[..n]), env, jobs, events[n])
            && accepted + AcceptedIn(events) == accepted + AcceptedIn(events[..n]) + NewlyAccepted(events[n])
            && tags + TagsOf(events) == tags + TagsOf(events[..n]) + NewTags(events[n])
  {
    hide EventHandled, NewlyAccepted, NewTags;
    assert forall p :: 0 <= p < |events| - 1 ==> events[..|events| - 1][p] == events[p];
  }

  lemma EventStands(s: State, env: Env, jobs: map<Id, Job>, accepted: set<Id>, inodes: map<Id, nat>, tags: seq<Tag>,
                    e: Event)
    returns (ends: map<Id, nat>)
    requires env.Sound() && GoodJobs(jobs) && s.Valid() && Standing(s, env, jobs, accepted, inodes, tags)
    requires CanHappen(env, jobs, accepted, tags, e)
    ensures e.OfferIsAccepted? ==> e.id in jobs
    ensures Standing(EventHandled(s, env, jobs, e), env, jobs, accepted + NewlyAccepted(e), ends, tags + NewTags(e))
  {
    HappensToJobs(env, jobs, accepted, tags, e);
    hide Standing, GoodJobs, FrameHandled, OfferAccepted, CanHappen, Create, State.Valid;
    if e.FrameArrives? {
      assert accepted + {} == accepted;
      FrameStands(s, env, jobs, accepted, inodes, tags, e.frame, e.tag);
      ends := inodes;
    } else {
      assert tags + [] == tags;
      AcceptStands(s, env, jobs, accepted, inodes, tags, e.id, e.offer);
      ends := inodes[e.id := Create(s.disk, Temp(jobs[e.id])).1];
    }
  }

  lemma HappensToJobs(env: Env, jobs: map<Id, Job>, accepted: set<Id>, tags: seq<Tag>, e: Event)
    requires CanHappen(env, jobs, accepted, tags, e)
    ensures e.OfferIsAccepted? ==> e.id in jobs
  {
  }

  lemma {:induction false} CourseFits(env: Env, jobs: map<Id, Job>, accepted: set<Id>, tags: seq<Tag>,
                                      events: seq<Event>)
    requires Course(env, jobs, accepted, tags, events)
    ensures AllFit(FramesOf(events))
    decreases |events|
  {
    hide AcceptedIn, TagsOf, CarriesNoChunk;
    if events != [] {
      CoursePrefix(env, jobs, accepted, tags, events);
      CourseFits(env, jobs, accepted, tags, events[..|events| - 1]);
      assert CanHappen(env, jobs, accepted + AcceptedIn(events[..|events| - 1]), tags + TagsOf(events[..|events| - 1]),
                       events[|events| - 1]);
    }
  }

  /** End to end, with offers accepted while chunks of others arrive: once every
      transfer has been accepted and all its chunks have come, every source
      stands under its final path, completed exactly once. The frames are those
      the read loop finds in the connection's bytes. */
  lemma EndToEndWhileAccepting(s: State, env: Env, jobs: map<Id, Job>, accepted: set<Id>, inodes: map<Id, nat>,
                               tags: seq<Tag>, events: seq<Event>) returns (ends: map<Id, nat>)
    requires env.Sound() && GoodJobs(jobs) && s.Valid() && Standing(s, env, jobs, accepted, inodes, tags)
    requires Course(env, jobs, accepted, tags, events)
    requires jobs.Keys <= accepted + AcceptedIn(events)
    requires forall id :: id in jobs ==> Count(tags + TagsOf(events), id) == |jobs[id].chunks|
    ensures ParseFrames(EncodeFrames(FramesOf(events))) == FramesOf(events)
    ensures AcceptsJobs(jobs, events) && ends.Keys == jobs.Keys
    ensures forall id :: id in jobs ==> Delivered(EventsHandled(s, env, jobs, events), env.peer, id, jobs[id], ends[id])
  {
    CourseFits(env, jobs, accepted, tags, events);
    ParseWholeStream(FramesOf(events));
    ends := RunStands(s, env, jobs, accepted, inodes, tags, events);
    StandingIsDelivered(EventsHandled(s, env, jobs, events), env, jobs, accepted + AcceptedIn(events), ends,
                        tags + TagsOf(events));
  }

  lemma StandingIsDelivered(s: State, env: Env, jobs: map<Id, Job>, accepted: set<Id>, inodes: map<Id, nat>,
                            tags: seq<Tag>)
    requires Standing(s, env, jobs, accepted, inodes, tags) && jobs.Keys <= accepted
    requires forall id :: id in jobs ==> Count(tags, id) == |jobs[id].chunks|
    ensures inodes.Keys == jobs.Keys
    ensures forall id :: id in jobs ==> Delivered(s, env.peer, id, jobs[id], inodes[id])
  {
    hide UnderWay, Delivered, Count, Untouched;
    assert Only(jobs, accepted) == jobs;
  }

  /** At the beginning nothing has been accepted: a course can start from any
      receiver that has no open writers and whose disk holds none of the final
      paths. */
  lemma NothingStands(s: State, env: Env, jobs: map<Id, Job>)
    requires s.Valid() && !s.dropped && s.writers == map[] && NoHardLinks(s.disk)
    requires forall id :: id in jobs ==> Untouched(s, id, jobs[id])
    ensures Standing(s, env, jobs, {}, map[], [])
  {
  }

  /** A whole session: on a receiver without open writers, transfers are accepted
      one by one while the chunks of those accepted before arrive. */
  lemma WholeSession(s: State, env: Env, jobs: map<Id, Job>, events: seq<Event>) returns (ends: map<Id, nat>)
    requires env.Sound() && GoodJobs(jobs) && s.Valid() && !s.dropped && s.writers == map[] && NoHardLinks(s.disk)
    requires forall id :: id in jobs ==> Untouched(s, id, jobs[id])
    requires Course(env, jobs, {}, [], events) && jobs.Keys <= AcceptedIn(events)
    requires forall id :: id in jobs ==> Count(TagsOf(events), id) == |jobs[id].chunks|
    ensures AcceptsJobs(jobs, events) && ends.Keys == jobs.Keys
    ensures forall id :: id in jobs ==> Delivered(EventsHandled(s, env, jobs, events), env.peer, id, jobs[id], ends[id])
  {
    hide Count, Course, AcceptedIn, TagsOf, Standing, Delivered, GoodJobs;
    NothingStands(s, env, jobs);
    assert {} + AcceptedIn(events) == AcceptedIn(events) && [] + TagsOf(events) == TagsOf(events);
    ends := EndToEndWhileAccepting(s, env, jobs, {}, map[], [], events);
  }
}
