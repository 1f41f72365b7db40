/** The key exchange and the mutual room-key authentication
    (internal/crypto/pin.go:93-127, internal/host/host.go:151-293,
    internal/receiver/receiver.go:107-240) between any number of sessions, with
    a network that delivers what it likes. Hash, key derivation (section 2 of
    RFC 5869) and MAC (section 2 of RFC 2104) are free constructors. */
module Handshake {
  import opened Bytes

  type Octets = seq<byte>

  // ---------- Terms ----------

  /** The ECDH secret of two key pairs, the same from either side. */
  datatype Secret = Shared(pubs: set<Octets>)
  datatype Hash = Sha256(input: Octets)
  datatype AuthKey = Hkdf(secret: Secret, salt: Hash, info: Octets)
  datatype Tag = Hmac(key: AuthKey, message: Octets) | Garbage

  /** "godrop-v1-pin-auth", "host" and "receiver". */
  const AUTH_INFO: Octets := [103, 111, 100, 114, 111, 112, 45, 118, 49, 45, 112, 105, 110, 45, 97, 117, 116, 104]
  const HOST_LABEL: Octets := [104, 111, 115, 116]
  const RECEIVER_LABEL: Octets := [114, 101, 99, 101, 105, 118, 101, 114]

  /** An uncompressed P-256 point (section 2.3.3 of SEC 1). */
  const PUBLIC_KEY_SIZE: nat := 65

  function DeriveAuthKey(secret: Secret, hostPub: Octets, recvPub: Octets, roomKey: Octets): AuthKey {
    Hkdf(secret, Sha256(hostPub + recvPub), AUTH_INFO + roomKey)
  }

  function ComputeAuthTag(key: AuthKey, role: Octets): Tag { Hmac(key, role) }

  predicate VerifyAuthTag(key: AuthKey, role: Octets, received: Tag) {
    ComputeAuthTag(key, role) == received
  }

  /** The bytes are the characters of the text. */
  predicate Spells(bytes: Octets, text: string) {
    |bytes| == |text| && forall i :: 0 <= i < |bytes| ==> bytes[i] == text[i] as int
  }

  lemma Labels()
    ensures Spells(AUTH_INFO, "godrop-v1-pin-auth") && Spells(HOST_LABEL, "host") && Spells(RECEIVER_LABEL, "receiver")
  {
  }

  /** With host keys of one length, equal authentication keys mean equal
      secrets, equal ordered public keys and equal room keys. */
  lemma AuthKeyExactly(s: Secret, h: Octets, r: Octets, k: Octets, s': Secret, h': Octets, r': Octets, k': Octets)
    requires |h| == |h'|
    ensures DeriveAuthKey(s, h, r, k) == DeriveAuthKey(s', h', r', k') <==> s == s' && h == h' && r == r' && k == k'
  {
    if DeriveAuthKey(s, h, r, k) == DeriveAuthKey(s', h', r', k') {
      var salt, salt' := h + r, h' + r';
      assert salt == salt';
      assert h == salt[..|h|] && h' == salt'[..|h|];
      assert r == salt[|h|..] && r' == salt'[|h|..];
      var info, info' := AUTH_INFO + k, AUTH_INFO + k';
      assert info == info';
      assert k == info[|AUTH_INFO|..] && k' == info'[|AUTH_INFO|..];
    }
  }

  /** Nothing but the fixed length keeps the two public keys apart. */
  lemma LengthsAreNeeded(s: Secret, k: Octets)
    ensures exists h, r, h', r' :: h != h' && DeriveAuthKey(s, h, r, k) == DeriveAuthKey(s, h', r', k)
  {
    assert [1] + [2, 3] == [1, 2] + [3];
    assert DeriveAuthKey(s, [1], [2, 3], k) == DeriveAuthKey(s, [1, 2], [3], k);
    assert [1] != [1, 2];
  }

  // ---------- One session ----------

  datatype Message = KeyExchange(pub: Octets) | PinChallenge | PinResponse(tag: Tag) | PeerJoin | OtherMessage

  datatype Role = HostRole | ReceiverRole

  function Label(role: Role): Octets { if role.HostRole? then HOST_LABEL else RECEIVER_LABEL }

  function Opposite(role: Role): Role { if role.HostRole? then ReceiverRole else HostRole }

  datatype Phase = AwaitKey | AwaitChallenge | AwaitTag | AwaitJoin | Accepted | Failed

  /** `peer` is the public key received; `sent` and `verified` say that the own
      tag has been sent and the other's been checked. */
  datatype Session = Session(role: Role, pub: Octets, roomKey: Octets, peer: Octets, phase: Phase, sent: bool,
                             verified: bool)

  function AuthKeyOf(s: Session): AuthKey {
    if s.role.HostRole? then DeriveAuthKey(Shared({s.pub, s.peer}), s.pub, s.peer, s.roomKey)
    else DeriveAuthKey(Shared({s.pub, s.peer}), s.peer, s.pub, s.roomKey)
  }

  function OwnTag(s: Session): Tag { ComputeAuthTag(AuthKeyOf(s), Label(s.role)) }

  predicate Convinces(s: Session, tag: Tag) { VerifyAuthTag(AuthKeyOf(s), Label(Opposite(s.role)), tag) }

  /** What the two ends authenticate: the hash covers the host's public key and
      behind it the receiver's, the derivation the label and the room key, and
      each end signs its own role. */
  lemma WhatIsSigned(s: Session)
    ensures var hostPub := if s.role.HostRole? then s.pub else s.peer;
            var recvPub := if s.role.HostRole? then s.peer else s.pub;
            var role := if s.role.HostRole? then "host" else "receiver";
            && OwnTag(s).Hmac? && Spells(OwnTag(s).message, role)
            && OwnTag(s).key.secret == Shared({hostPub, recvPub})
            && |OwnTag(s).key.salt.input| == |hostPub| + |recvPub|
            && OwnTag(s).key.salt.input[..|hostPub|] == hostPub && OwnTag(s).key.salt.input[|hostPub|..] == recvPub
            && |OwnTag(s).key.info| == 18 + |s.roomKey|
            && Spells(OwnTag(s).key.info[..18], "godrop-v1-pin-auth") && OwnTag(s).key.info[18..] == s.roomKey
  {
    Labels();
    hide Spells;
    assert OwnTag(s).key.info[..18] == AUTH_INFO;
  }

  /** What one message does to a session, and what it sends. */
  function Receive(curve: set<Octets>, s: Session, m: Message): (Session, seq<Message>) {
    if s.role.HostRole? then HostReceive(curve, s, m) else ReceiverReceive(curve, s, m)
  }

  function HostReceive(curve: set<Octets>, s: Session, m: Message): (Session, seq<Message>) {
    match (s.phase, m)
    case (AwaitKey, KeyExchange(pub)) =>
      if pub in curve then (s.(peer := pub, phase := AwaitTag), [KeyExchange(s.pub), PinChallenge])
      else (s.(phase := Failed), [])
    case (AwaitTag, PinResponse(tag)) =>
      if Convinces(s, tag) then (s.(phase := AwaitJoin, sent := true, verified := true), [PinResponse(OwnTag(s))])
      else (s.(phase := Failed), [])
    case (AwaitJoin, PeerJoin) => (s.(phase := Accepted), [])
    case (Accepted, _) => (s, [])
    case _ => (s.(phase := Failed), [])
  }

  function ReceiverReceive(curve: set<Octets>, s: Session, m: Message): (Session, seq<Message>) {
    match (s.phase, m)
    case (AwaitKey, KeyExchange(pub)) =>
      if pub in curve then (s.(peer := pub, phase := AwaitChallenge), []) else (s.(phase := Failed), [])
    case (AwaitChallenge, PinChallenge) =>
      if s.roomKey == [] then (s.(phase := Failed), [])
      else (s.(phase := AwaitTag, sent := true), [PinResponse(OwnTag(s))])
    case (AwaitTag, PinResponse(tag)) =>
      if Convinces(s, tag) then (s.(phase := Accepted, verified := true), [PeerJoin]) else (s.(phase := Failed), [])
    case (Accepted, _) => (s, [])
    case _ => (s.(phase := Failed), [])
  }

  function NewSession(role: Role, pub: Octets, roomKey: Octets): Session {
    Session(role, pub, roomKey, [], AwaitKey, false, false)
  }

  // ---------- Many sessions and a network ----------

  /** `tags` are the tags anyone has computed so far. */
  datatype World = World(sessions: seq<Session>, tags: set<Tag>)

  datatype Step = Open(role: Role, pub: Octets, roomKey: Octets) | Forge(tag: Tag) | Deliver(to: nat, message: Message)

  /** Whoever does not hold a room key cannot compute tags under it. The
      adversary is allowed every secret and every other key. */
  predicate CanForge(known: set<Octets>, tag: Tag) {
    tag.Hmac? ==> |AUTH_INFO| <= |tag.key.info| && AUTH_INFO == tag.key.info[..|AUTH_INFO|] ==>
        tag.key.info[|AUTH_INFO|..] in known
  }

  predicate Enabled(curve: set<Octets>, known: set<Octets>, w: World, step: Step) {
    match step
    case Open(_, pub, _) => pub in curve
    case Forge(tag) => CanForge(known, tag)
    case Deliver(to, m) => to < |w.sessions| && (m.PinResponse? ==> m.tag in w.tags)
  }

  function TagsIn(ms: seq<Message>): set<Tag> {
    set m <- ms | m.PinResponse? :: m.tag
  }

  function Do(curve: set<Octets>, w: World, step: Step): World
    requires step.Deliver? ==> step.to < |w.sessions|
  {
    match step
    case Open(role, pub, roomKey) => w.(sessions := w.sessions + [NewSession(role, pub, roomKey)])
    case Forge(tag) => w.(tags := w.tags + {tag})
    case Deliver(to, m) =>
      var (s, out) := Receive(curve, w.sessions[to], m);
      World(w.sessions[to := s], w.tags + TagsIn(out))
  }

  ghost predicate Run(curve: set<Octets>, known: set<Octets>, w: World, steps: seq<Step>, end: World)
    decreases |steps|
  {
    if steps == [] then w == end
    else Enabled(curve, known, w, steps[0]) && Run(curve, known, Do(curve, w, steps[0]), steps[1..], end)
  }

  // ---------- What every step keeps ----------

  predicate Sane(curve: set<Octets>, s: Session) {
    && s.pub in curve
    && (s.phase != AwaitKey && s.phase != Failed ==> s.peer in curve)
    && (s.sent || s.verified ==> s.peer in curve && s.phase != AwaitKey && s.phase != AwaitChallenge)
    && (s.phase == Accepted ==> s.verified)
    && (s.phase == AwaitTag && s.role.HostRole? ==> !s.sent && !s.verified)
    && (s.role.HostRole? ==> (s.sent <==> s.verified))
    && (s.role.ReceiverRole? && s.verified ==> s.sent)
    && (s.role.ReceiverRole? ==> s.phase != AwaitJoin)
    && (s.role.HostRole? ==> s.phase != AwaitChallenge)
    && (s.phase == AwaitJoin ==> s.verified)
    && (s.role.ReceiverRole? && s.phase == AwaitTag ==> s.sent)
  }

  /** A tag in the world was forged or sent by one of the sessions. */
  ghost predicate Sourced(known: set<Octets>, w: World, tag: Tag) {
    CanForge(known, tag) || exists j :: 0 <= j < |w.sessions| && w.sessions[j].sent && tag == OwnTag(w.sessions[j])
  }

  ghost predicate Invariant(curve: set<Octets>, known: set<Octets>, w: World) {
    && (forall i :: 0 <= i < |w.sessions| ==> Sane(curve, w.sessions[i]))
    && (forall tag :: tag in w.tags ==> Sourced(known, w, tag))
    && (forall i :: 0 <= i < |w.sessions| && w.sessions[i].verified ==>
          ComputeAuthTag(AuthKeyOf(w.sessions[i]), Label(Opposite(w.sessions[i].role))) in w.tags)
  }

  /** Once a session has sent its tag or checked the other's, its identity is
      settled. */
  lemma ReceiveFacts(curve: set<Octets>, s: Session, m: Message)
    requires Sane(curve, s)
    ensures var (s', out) := Receive(curve, s, m);
            && Sane(curve, s')
            && (s.sent ==> s'.sent && OwnTag(s') == OwnTag(s))
            && (s.verified ==> s'.verified && AuthKeyOf(s') == AuthKeyOf(s))
            && s'.role == s.role
            && (forall tag :: tag in TagsIn(out) ==> s'.sent && tag == OwnTag(s'))
            && (s'.verified && !s.verified ==>
                m.PinResponse? && m.tag == ComputeAuthTag(AuthKeyOf(s'), Label(Opposite(s'.role))))
  {
    hide DeriveAuthKey, Label, Opposite;
  }

  lemma StepKeeps(curve: set<Octets>, known: set<Octets>, w: World, step: Step)
    requires Invariant(curve, known, w) && Enabled(curve, known, w, step)
    ensures Invariant(curve, known, Do(curve, w, step))
  {
    hide Sane, OwnTag, AuthKeyOf, ComputeAuthTag, CanForge, Receive, TagsIn, Label, Opposite;
    var w' := Do(curve, w, step);
    match step
    case Open(role, pub, roomKey) =>
      NewIsSane(curve, role, pub, roomKey);
      forall tag | tag in w'.tags ensures Sourced(known, w', tag) {
        SourcedStays(known, w, w', tag);
      }
    case Forge(tag) =>
      forall t | t in w'.tags ensures Sourced(known, w', t) {
        assert t != tag ==> Sourced(known, w, t);
      }
    case Deliver(to, m) =>
      ReceiveFacts(curve, w.sessions[to], m);
      var (s, out) := Receive(curve, w.sessions[to], m);
      forall tag | tag in w'.tags ensures Sourced(known, w', tag) {
        if tag in w.tags {
          SourcedStays(known, w, w', tag);
        } else {
          assert w'.sessions[to].sent && tag == OwnTag(w'.sessions[to]);
        }
      }
  }

  lemma NewIsSane(curve: set<Octets>, role: Role, pub: Octets, roomKey: Octets)
    requires pub in curve
    ensures Sane(curve, NewSession(role, pub, roomKey)) && !NewSession(role, pub, roomKey).verified
  {
  }

  lemma SourcedStays(known: set<Octets>, w: World, w': World, tag: Tag)
    requires Sourced(known, w, tag) && |w.sessions| <= |w'.sessions|
    requires forall j :: 0 <= j < |w.sessions| && w.sessions[j].sent ==>
               w'.sessions[j].sent && OwnTag(w'.sessions[j]) == OwnTag(w.sessions[j])
    ensures Sourced(known, w', tag)
  {
    hide CanForge, OwnTag;
    if !CanForge(known, tag) {
      var j :| 0 <= j < |w.sessions| && w.sessions[j].sent && tag == OwnTag(w.sessions[j]);
      assert w'.sessions[j].sent;
    }
  }

  lemma {:induction false} RunKeeps(curve: set<Octets>, known: set<Octets>, w: World, steps: seq<Step>, end: World)
    requires Run(curve, known, w, steps, end) && Invariant(curve, known, w)
    ensures Invariant(curve, known, end)
    decreases |steps|
  {
    hide Do, Invariant;
    if steps != [] {
      StepKeeps(curve, known, w, steps[0]);
      RunKeeps(curve, known, Do(curve, w, steps[0]), steps[1..], end);
    }
  }

  // ---------- Agreement ----------

  /** The two sessions ran with each other: opposite roles, each with the
      other's public key, under one room key. */
  predicate Agree(a: Session, b: Session) {
    && b.role == Opposite(a.role)
    && b.roomKey == a.roomKey
    && b.pub == a.peer && b.peer == a.pub
  }

  lemma TagsAgree(curve: set<Octets>, a: Session, b: Session)
    requires forall pub :: pub in curve ==> |pub| == PUBLIC_KEY_SIZE
    requires a.pub in curve && a.peer in curve && b.pub in curve && b.peer in curve
    ensures OwnTag(b) == ComputeAuthTag(AuthKeyOf(a), Label(Opposite(a.role))) <==> Agree(a, b)
  {
    hide DeriveAuthKey;
    assert HOST_LABEL[0] != RECEIVER_LABEL[0];
    var ha, ra := if a.role.HostRole? then a.pub else a.peer, if a.role.HostRole? then a.peer else a.pub;
    var hb, rb := if b.role.HostRole? then b.pub else b.peer, if b.role.HostRole? then b.peer else b.pub;
    AuthKeyExactly(Shared({a.pub, a.peer}), ha, ra, a.roomKey, Shared({b.pub, b.peer}), hb, rb, b.roomKey);
    assert {a.pub, a.peer} == {a.peer, a.pub};
  }

  lemma ForgedKeyIsKnown(known: set<Octets>, s: Session, text: Octets)
    requires CanForge(known, ComputeAuthTag(AuthKeyOf(s), text))
    ensures s.roomKey in known
  {
    var info := AUTH_INFO + s.roomKey;
    assert info[..|AUTH_INFO|] == AUTH_INFO && info[|AUTH_INFO|..] == s.roomKey;
  }

  /** Whenever a session has accepted, then, unless the adversary holds its
      room key, there is an honest session of the opposite role with the same
      room key, the same two public keys in the same order and hence the same
      secret, which has sent its tag. If that is the host, it has verified
      the receiver in turn. Several sessions may agree with the same one. */
  lemma Agreement(curve: set<Octets>, known: set<Octets>, steps: seq<Step>, end: World, i: nat)
    requires forall pub :: pub in curve ==> |pub| == PUBLIC_KEY_SIZE
    requires Run(curve, known, World([], {}), steps, end)
    requires i < |end.sessions| && end.sessions[i].phase.Accepted?
    ensures end.sessions[i].roomKey in known ||
            exists j :: && 0 <= j < |end.sessions| && Agree(end.sessions[i], end.sessions[j])
                        && end.sessions[j].sent && (end.sessions[j].role.HostRole? ==> end.sessions[j].verified)
  {
    hide Agree, CanForge, AuthKeyOf, Do;
    RunKeeps(curve, known, World([], {}), steps, end);
    var a := end.sessions[i];
    var tag := ComputeAuthTag(AuthKeyOf(a), Label(Opposite(a.role)));
    assert Sane(curve, a);
    assert Sourced(known, end, tag);
    if CanForge(known, tag) {
      ForgedKeyIsKnown(known, a, Label(Opposite(a.role)));
    } else {
      var j :| 0 <= j < |end.sessions| && end.sessions[j].sent && tag == OwnTag(end.sessions[j]);
      assert Sane(curve, end.sessions[j]);
      TagsAgree(curve, a, end.sessions[j]);
    }
  }

  /** No session is convinced by the tag of a session in its own role. */
  lemma NoReflection(a: Session, b: Session)
    requires a.role == b.role
    ensures !Convinces(b, OwnTag(a))
  {
    assert HOST_LABEL[0] != RECEIVER_LABEL[0];
  }

  /** A holder of the room key in the middle can make a session accept that no
      honest session agrees with: the hypothesis above is needed. */
  lemma KeyHolderIsAccepted(curve: set<Octets>, pub: Octets, other: Octets, roomKey: Octets)
    returns (steps: seq<Step>, end: World)
    requires pub in curve && other in curve && roomKey != []
    ensures Run(curve, {roomKey}, World([], {}), steps, end)
    ensures |end.sessions| == 1 && end.sessions[0].phase.Accepted? && end.sessions[0].role.ReceiverRole?
  {
    var s := NewSession(ReceiverRole, pub, roomKey);
    var keyed := s.(peer := other, phase := AwaitChallenge);
    var tag := ComputeAuthTag(AuthKeyOf(keyed), HOST_LABEL);
    ForgeIsPossible(keyed, HOST_LABEL);
    hide AuthKeyOf;
    var known := {roomKey};
    var w0 := World([], {});
    var a0, a1, a2, a3, a4 :=
        Open(ReceiverRole, pub, roomKey), Forge(tag), Deliver(0, KeyExchange(other)), Deliver(0, PinChallenge),
            Deliver(0, PinResponse(tag));
    var w1 := Do(curve, w0, a0);
    var w2 := Do(curve, w1, a1);
    var w3 := Do(curve, w2, a2);
    assert w3.sessions == [keyed];
    var w4 := Do(curve, w3, a3);
    assert w4.sessions == [keyed.(phase := AwaitTag, sent := true)];
    SameKeyLater(keyed);
    end := Do(curve, w4, a4);
    steps := [a0, a1, a2, a3, a4];
    assert steps[1..] == [a1, a2, a3, a4] && steps[1..][1..] == [a2, a3, a4];
    assert steps[1..][1..][1..] == [a3, a4] && steps[1..][1..][1..][1..] == [a4];
    assert Run(curve, known, w4, [a4], end);
    assert Run(curve, known, w3, [a3, a4], end);
    assert Run(curve, known, w2, [a2, a3, a4], end);
    assert Run(curve, known, w1, [a1, a2, a3, a4], end);
  }

  lemma ForgeIsPossible(s: Session, text: Octets)
    ensures CanForge({s.roomKey}, ComputeAuthTag(AuthKeyOf(s), text))
  {
    var info := AUTH_INFO + s.roomKey;
    assert info[|AUTH_INFO|..] == s.roomKey;
  }

  lemma SameKeyLater(s: Session)
    ensures AuthKeyOf(s.(phase := AwaitTag, sent := true)) == AuthKeyOf(s)
  {
  }

  // ---------- Two honest ends on an untampered connection ----------

  datatype Link = Link(host: Session, recv: Session, toHost: seq<Message>, toRecv: seq<Message>)

  function Connect(hostPub: Octets, hostKey: Octets, recvPub: Octets, recvKey: Octets): Link {
    Link(NewSession(HostRole, hostPub, hostKey), NewSession(ReceiverRole, recvPub, recvKey), [KeyExchange(recvPub)], [])
  }

  /** One side reads its next message. */
  ghost predicate LinkStep(curve: set<Octets>, l: Link, l': Link) {
    || (l.toHost != [] &&
        var (s, out) := Receive(curve, l.host, l.toHost[0]);
        l' == Link(s, l.recv, l.toHost[1..], l.toRecv + out))
    || (l.toRecv != [] &&
        var (s, out) := Receive(curve, l.recv, l.toRecv[0]);
        l' == Link(l.host, s, l.toHost + out, l.toRecv[1..]))
  }

  ghost predicate LinkRun(curve: set<Octets>, l: Link, n: nat, end: Link)
    decreases n
  {
    if n == 0 then l == end else exists mid :: LinkStep(curve, l, mid) && LinkRun(curve, mid, n - 1, end)
  }

  /** The `k`-th state of an untampered handshake, while nobody has failed. */
  function Stage(hp: Octets, hk: Octets, rp: Octets, rk: Octets, k: nat): Link
    requires k <= 6
  {
    var h0, r0 := NewSession(HostRole, hp, hk), NewSession(ReceiverRole, rp, rk);
    var h1, r1 := h0.(peer := rp, phase := AwaitTag), r0.(peer := hp, phase := AwaitChallenge);
    var r2 := r1.(phase := AwaitTag, sent := true);
    var h2 := h1.(phase := AwaitJoin, sent := true, verified := true);
    match k
    case 0 => Link(h0, r0, [KeyExchange(rp)], [])
    case 1 => Link(h1, r0, [], [KeyExchange(hp), PinChallenge])
    case 2 => Link(h1, r1, [], [PinChallenge])
    case 3 => Link(h1, r2, [PinResponse(OwnTag(r1))], [])
    case 4 => Link(h2, r2, [], [PinResponse(OwnTag(h1))])
    case 5 => Link(h2, r2.(phase := Accepted, verified := true), [PeerJoin], [])
    case _ => Link(h2.(phase := Accepted), r2.(phase := Accepted, verified := true), [], [])
  }

  predicate KeysMatch(hk: Octets, rk: Octets) { hk == rk && rk != [] }

  /** The last stage reached before somebody fails, if somebody does. */
  function LastStage(hk: Octets, rk: Octets): (k: nat)
    ensures k <= 6
  {
    if KeysMatch(hk, rk) then 6 else if rk == [] then 2 else 3
  }

  /** Where the handshake ends when the receiver has no key, or the wrong one. */
  function Refused(hp: Octets, hk: Octets, rp: Octets, rk: Octets): Link {
    var l := Stage(hp, hk, rp, rk, LastStage(hk, rk));
    if rk == [] then Link(l.host, l.recv.(phase := Failed), [], []) else Link(l.host.(phase := Failed), l.recv, [], [])
  }

  /** The two ends, once they have each other's public key, convince each
      other exactly if their room keys are equal. */
  lemma EndsConvince(curve: set<Octets>, hp: Octets, hk: Octets, rp: Octets, rk: Octets)
    requires forall pub :: pub in curve ==> |pub| == PUBLIC_KEY_SIZE
    requires hp in curve && rp in curve
    ensures var h1, r1, r2 :=
            Stage(hp, hk, rp, rk, 1).host, Stage(hp, hk, rp, rk, 2).recv, Stage(hp, hk, rp, rk, 3).recv;
            (Convinces(h1, OwnTag(r1)) <==> hk == rk) && (Convinces(r2, OwnTag(h1)) <==> hk == rk)
  {
    var h1, r1 := Stage(hp, hk, rp, rk, 1).host, Stage(hp, hk, rp, rk, 2).recv;
    TagsAgree(curve, h1, r1);
    TagsAgree(curve, r1, h1);
    SameKeyLater(r1);
  }

  lemma HostStep(curve: set<Octets>, hp: Octets, hk: Octets, rp: Octets, rk: Octets, k: nat)
    requires forall pub :: pub in curve ==> |pub| == PUBLIC_KEY_SIZE
    requires hp in curve && rp in curve && (k == 0 || k == 3 || k == 5) && k <= LastStage(hk, rk)
    ensures var l := Stage(hp, hk, rp, rk, k);
            var (s, out) := Receive(curve, l.host, l.toHost[0]);
            Link(s, l.recv, l.toHost[1..], l.toRecv + out) ==
            if k < LastStage(hk, rk) then Stage(hp, hk, rp, rk, k + 1) else Refused(hp, hk, rp, rk)
  {
    EndsConvince(curve, hp, hk, rp, rk);
    hide Convinces, OwnTag;
  }

  lemma ReceiverStep(curve: set<Octets>, hp: Octets, hk: Octets, rp: Octets, rk: Octets, k: nat)
    requires forall pub :: pub in curve ==> |pub| == PUBLIC_KEY_SIZE
    requires hp in curve && rp in curve && (k == 1 || k == 2 || k == 4) && k <= LastStage(hk, rk)
    ensures var l := Stage(hp, hk, rp, rk, k);
            var (s, out) := Receive(curve, l.recv, l.toRecv[0]);
            Link(l.host, s, l.toHost + out, l.toRecv[1..]) ==
            if k < LastStage(hk, rk) then Stage(hp, hk, rp, rk, k + 1) else Refused(hp, hk, rp, rk)
  {
    EndsConvince(curve, hp, hk, rp, rk);
    hide Convinces, OwnTag;
  }

  lemma StageStep(curve: set<Octets>, hp: Octets, hk: Octets, rp: Octets, rk: Octets, k: nat, l': Link)
    requires forall pub :: pub in curve ==> |pub| == PUBLIC_KEY_SIZE
    requires hp in curve && rp in curve && k <= LastStage(hk, rk)
    requires LinkStep(curve, Stage(hp, hk, rp, rk, k), l')
    ensures k < LastStage(hk, rk) ==> l' == Stage(hp, hk, rp, rk, k + 1)
    ensures k == LastStage(hk, rk) ==> !KeysMatch(hk, rk) && l' == Refused(hp, hk, rp, rk)
  {
    hide Receive, Refused, OwnTag;
    if k == 0 || k == 3 || k == 5 {
      HostStep(curve, hp, hk, rp, rk, k);
    } else if k != 6 {
      ReceiverStep(curve, hp, hk, rp, rk, k);
    }
  }

  lemma StageWaits(hp: Octets, hk: Octets, rp: Octets, rk: Octets, k: nat)
    requires k <= 6
    ensures var l := Stage(hp, hk, rp, rk, k); k < 6 <==> l.toHost != [] || l.toRecv != []
    ensures var l := Stage(hp, hk, rp, rk, k); k == 6 <==> l.host.phase.Accepted? && l.recv.phase.Accepted?
  {
  }

  lemma RefusedIsStuck(curve: set<Octets>, hp: Octets, hk: Octets, rp: Octets, rk: Octets, n: nat, end: Link)
    requires !KeysMatch(hk, rk) && LinkRun(curve, Refused(hp, hk, rp, rk), n, end)
    ensures end == Refused(hp, hk, rp, rk)
    ensures !end.host.phase.Accepted? && !end.recv.phase.Accepted?
  {
  }

  lemma {:induction false} RunStages(
    curve: set<Octets>, hp: Octets, hk: Octets, rp: Octets, rk: Octets, k: nat, n: nat, end: Link)
    requires forall pub :: pub in curve ==> |pub| == PUBLIC_KEY_SIZE
    requires hp in curve && rp in curve && k <= LastStage(hk, rk)
    requires LinkRun(curve, Stage(hp, hk, rp, rk, k), n, end)
    requires end.toHost == [] && end.toRecv == []
    ensures end.host.phase.Accepted? <==> KeysMatch(hk, rk)
    ensures end.recv.phase.Accepted? <==> KeysMatch(hk, rk)
    decreases n
  {
    hide LinkStep, Stage, Refused;
    StageWaits(hp, hk, rp, rk, k);
    if n > 0 {
      var mid :| LinkStep(curve, Stage(hp, hk, rp, rk, k), mid) && LinkRun(curve, mid, n - 1, end);
      StageStep(curve, hp, hk, rp, rk, k, mid);
      if k < LastStage(hk, rk) {
        RunStages(curve, hp, hk, rp, rk, k + 1, n - 1, end);
      } else {
        RefusedIsStuck(curve, hp, hk, rp, rk, n - 1, end);
      }
    }
  }

  /** On an untampered connection, in whatever order the two ends read: when
      no message is left, both have accepted if their room keys are equal and
      there is one, and otherwise neither has. */
  lemma UntamperedExactly(curve: set<Octets>, hp: Octets, hk: Octets, rp: Octets, rk: Octets, n: nat, end: Link)
    requires forall pub :: pub in curve ==> |pub| == PUBLIC_KEY_SIZE
    requires hp in curve && rp in curve
    requires LinkRun(curve, Connect(hp, hk, rp, rk), n, end) && end.toHost == [] && end.toRecv == []
    ensures end.host.phase.Accepted? <==> hk == rk && rk != []
    ensures end.recv.phase.Accepted? <==> hk == rk && rk != []
  {
    assert Connect(hp, hk, rp, rk) == Stage(hp, hk, rp, rk, 0);
    RunStages(curve, hp, hk, rp, rk, 0, n, end);
  }

  // ---------- The code of the two ends ----------

  /** A session reading messages until it has accepted, failed or has none. */
  function Feed(curve: set<Octets>, s: Session, ms: seq<Message>): (Session, seq<Message>)
    decreases |ms|
  {
    if ms == [] || s.phase.Accepted? || s.phase.Failed? then (s, [])
    else
      var (s', out) := Receive(curve, s, ms[0]);
      var (end, more) := Feed(curve, s', ms[1..]);
      (end, out + more)
  }

  lemma FeedOne(curve: set<Octets>, s: Session, ms: seq<Message>, s': Session, out: seq<Message>, rest: seq<Message>)
    requires ms != [] && !s.phase.Accepted? && !s.phase.Failed?
    requires Receive(curve, s, ms[0]) == (s', out) && rest == ms[1..]
    ensures Feed(curve, s, ms) == (Feed(curve, s', rest).0, out + Feed(curve, s', rest).1)
    ensures out == [] ==> Feed(curve, s, ms) == Feed(curve, s', rest)
  {
    hide Receive;
    assert [] + Feed(curve, s', rest).1 == Feed(curve, s', rest).1;
  }

  /** A connection as its owner sees it. */
  class Conn {
    var inbox: seq<Message>
    var outbox: seq<Message>

    constructor (inbox: seq<Message>)
      ensures this.inbox == inbox && outbox == []
    {
      this.inbox := inbox;
      outbox := [];
    }

    method Read() returns (m: Option<Message>)
      modifies this`inbox
      ensures old(inbox) == [] ==> m == None && inbox == []
      ensures old(inbox) != [] ==> m == Some(old(inbox)[0]) && inbox == old(inbox)[1..]
    {
      if inbox == [] { return None; }
      m := Some(inbox[0]);
      inbox := inbox[1..];
    }

    method Write(m: Message)
      modifies this`outbox
      ensures outbox == old(outbox) + [m]
    {
      outbox := outbox + [m];
    }
  }

  class ReceiverEnd {
    const curve: set<Octets>
    const conn: Conn
    const pub: Octets
    const roomKeyRaw: Octets
    var sharedSecret: Secret
    var lastHostPubKey: Octets

    constructor (curve: set<Octets>, conn: Conn, pub: Octets, roomKeyRaw: Octets)
      ensures this.curve == curve && this.conn == conn && this.pub == pub && this.roomKeyRaw == roomKeyRaw
    {
      this.curve, this.conn, this.pub, this.roomKeyRaw := curve, conn, pub, roomKeyRaw;
      sharedSecret, lastHostPubKey := Shared({}), [];
    }

    function Fresh(): Session { NewSession(ReceiverRole, pub, roomKeyRaw) }

    function Keyed(): Session
      reads this
    {
      Fresh().(peer := lastHostPubKey, phase := AwaitChallenge)
    }

    method PerformKeyExchange() returns (ok: bool)
      modifies this, conn
      ensures conn.outbox == old(conn.outbox) + [KeyExchange(pub)]
      ensures ok ==> sharedSecret == Shared({pub, lastHostPubKey})
      ensures ok ==> Feed(curve, Fresh(), old(conn.inbox)) == Feed(curve, Keyed(), conn.inbox)
      ensures !ok ==>
                && Feed(curve, Fresh(), old(conn.inbox)).1 == []
                && !Feed(curve, Fresh(), old(conn.inbox)).0.phase.Accepted?
    {
      conn.Write(KeyExchange(pub));
      var m := conn.Read();
      if m.None? { return false; }
      ghost var (s, out) := Receive(curve, Fresh(), m.value);
      FeedOne(curve, Fresh(), old(conn.inbox), s, out, conn.inbox);
      if !m.value.KeyExchange? || m.value.pub !in curve { return false; }
      sharedSecret, lastHostPubKey := Shared({pub, m.value.pub}), m.value.pub;
      return true;
    }

    method HandleAuthChallenge() returns (ok: bool)
      requires sharedSecret == Shared({pub, lastHostPubKey})
      modifies conn
      ensures ok <==> Feed(curve, Keyed(), old(conn.inbox)).0.phase.Accepted?
      ensures conn.outbox + (if ok then [PeerJoin] else []) ==
              old(conn.outbox) + Feed(curve, Keyed(), old(conn.inbox)).1
    {
      hide DeriveAuthKey, Label;
      var m := conn.Read();
      if m.None? { return false; }
      ghost var (s1, out1) := Receive(curve, Keyed(), m.value);
      FeedOne(curve, Keyed(), old(conn.inbox), s1, out1, conn.inbox);
      if !m.value.PinChallenge? || roomKeyRaw == [] { return false; }
      var authKey := DeriveAuthKey(sharedSecret, lastHostPubKey, pub, roomKeyRaw);
      assert authKey == AuthKeyOf(Keyed());
      var tag := ComputeAuthTag(authKey, RECEIVER_LABEL);
      assert tag == OwnTag(Keyed()) by { LabelsAre(); }
      conn.Write(PinResponse(tag));
      ghost var waiting := conn.inbox;
      var resp := conn.Read();
      if resp.None? { return false; }
      ghost var (s2, out2) := Receive(curve, s1, resp.value);
      FeedOne(curve, s1, waiting, s2, out2, conn.inbox);
      if !resp.value.PinResponse? { return false; }
      SameKeyLater(Keyed());
      LabelsAre();
      return VerifyAuthTag(authKey, HOST_LABEL, resp.value.tag);
    }

    /** `Connect`: what it says and whether it succeeds is what the receiver's
        session does with the incoming messages. */
    method Connect() returns (ok: bool)
      modifies this, conn
      ensures ok <==> Feed(curve, Fresh(), old(conn.inbox)).0.phase.Accepted?
      ensures conn.outbox == old(conn.outbox) + [KeyExchange(pub)] + Feed(curve, Fresh(), old(conn.inbox)).1
    {
      ok := PerformKeyExchange();
      if !ok { return; }
      ok := HandleAuthChallenge();
      if !ok { return; }
      conn.Write(PeerJoin);
    }
  }

  lemma LabelsAre()
    ensures Label(HostRole) == HOST_LABEL && Label(ReceiverRole) == RECEIVER_LABEL
    ensures Opposite(HostRole) == ReceiverRole && Opposite(ReceiverRole) == HostRole
  {
  }

  class HostEnd {
    const curve: set<Octets>
    const pub: Octets
    const roomKeyRaw: Octets

    constructor (curve: set<Octets>, pub: Octets, roomKeyRaw: Octets)
      ensures this.curve == curve && this.pub == pub && this.roomKeyRaw == roomKeyRaw
    {
      this.curve, this.pub, this.roomKeyRaw := curve, pub, roomKeyRaw;
    }

    function Fresh(): Session { NewSession(HostRole, pub, roomKeyRaw) }

    function Keyed(peer: Octets): Session { Fresh().(peer := peer, phase := AwaitTag) }

    function Trusting(peer: Octets): Session { Keyed(peer).(phase := AwaitJoin, sent := true, verified := true) }

    /** The challenge that follows the host's key is sent by `VerifyAuth`. */
    method PerformKeyExchange(conn: Conn) returns (ok: bool, peerPub: Octets)
      modifies conn
      ensures ok ==> conn.outbox == old(conn.outbox) + [KeyExchange(pub)]
      ensures ok ==> var (end, out) := Feed(curve, Keyed(peerPub), conn.inbox);
                     Feed(curve, Fresh(), old(conn.inbox)) == (end, [KeyExchange(pub), PinChallenge] + out)
      ensures !ok ==> conn.outbox == old(conn.outbox)
      ensures !ok ==>
                && Feed(curve, Fresh(), old(conn.inbox)).1 == []
                && !Feed(curve, Fresh(), old(conn.inbox)).0.phase.Accepted?
    {
      peerPub := [];
      var m := conn.Read();
      if m.None? { return false, []; }
      ghost var (s, out) := Receive(curve, Fresh(), m.value);
      FeedOne(curve, Fresh(), old(conn.inbox), s, out, conn.inbox);
      if !m.value.KeyExchange? || m.value.pub !in curve { return false, []; }
      conn.Write(KeyExchange(pub));
      return true, m.value.pub;
    }

    method VerifyAuth(conn: Conn, sharedSecret: Secret, peerPub: Octets) returns (ok: bool)
      requires sharedSecret == Shared({pub, peerPub})
      modifies conn
      ensures ok ==> conn.outbox == old(conn.outbox) + [PinChallenge, PinResponse(OwnTag(Keyed(peerPub)))]
      ensures ok ==> var (end, out) := Feed(curve, Trusting(peerPub), conn.inbox);
                     Feed(curve, Keyed(peerPub), old(conn.inbox)) == (end, [PinResponse(OwnTag(Keyed(peerPub)))] + out)
      ensures !ok ==> conn.outbox == old(conn.outbox) + [PinChallenge]
      ensures !ok ==> Feed(curve, Keyed(peerPub), old(conn.inbox)).1 == []
      ensures !ok ==> !Feed(curve, Keyed(peerPub), old(conn.inbox)).0.phase.Accepted?
    {
      hide DeriveAuthKey, Label;
      LabelsAre();
      conn.Write(PinChallenge);
      var m := conn.Read();
      if m.None? { return false; }
      ghost var (s, out) := Receive(curve, Keyed(peerPub), m.value);
      FeedOne(curve, Keyed(peerPub), old(conn.inbox), s, out, conn.inbox);
      if !m.value.PinResponse? { return false; }
      var authKey := DeriveAuthKey(sharedSecret, pub, peerPub, roomKeyRaw);
      assert authKey == AuthKeyOf(Keyed(peerPub));
      if !VerifyAuthTag(authKey, RECEIVER_LABEL, m.value.tag) { return false; }
      var hostTag := ComputeAuthTag(authKey, HOST_LABEL);
      conn.Write(PinResponse(hostTag));
      return true;
    }

    /** `handleConn` up to the registration of the peer. */
    method HandleConn(conn: Conn) returns (registered: bool)
      modifies conn
      ensures registered <==> Feed(curve, Fresh(), old(conn.inbox)).0.phase.Accepted?
      ensures conn.outbox == old(conn.outbox) + Feed(curve, Fresh(), old(conn.inbox)).1
    {
      var ok, peerPub := PerformKeyExchange(conn);
      if !ok { return false; }
      ok := VerifyAuth(conn, Shared({pub, peerPub}), peerPub);
      if !ok { return false; }
      ghost var waiting := conn.inbox;
      var m := conn.Read();
      if m.None? { return false; }
      ghost var (s, out) := Receive(curve, Trusting(peerPub), m.value);
      FeedOne(curve, Trusting(peerPub), waiting, s, out, conn.inbox);
      return m.value.PeerJoin?;
    }
  }
}
