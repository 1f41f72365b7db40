/** The whole conversation of a handshake, message by message: what either end
    must hear to accept, and what it says
    (internal/host/host.go:151-176, 222-293, internal/receiver/receiver.go:107-245). */
module Conversation {
  import opened Bytes
  import opened Handshake

  /** The tag an honest end of that role makes: the MAC of the role's name under
      the key derived from the common secret, the hash of both public keys, the
      host's first, and the protocol's label with the room key behind it. */
  predicate TagFor(tag: Tag, role: string, hostPub: Octets, recvPub: Octets, roomKey: Octets) {
    && tag.Hmac? && Spells(tag.message, role)
    && tag.key.secret == Shared({hostPub, recvPub}) && tag.key.salt == Sha256(hostPub + recvPub)
    && |tag.key.info| == 18 + |roomKey|
    && Spells(tag.key.info[..18], "godrop-v1-pin-auth") && tag.key.info[18..] == roomKey
  }

  lemma SameSpelling(a: Octets, b: Octets, text: string)
    requires Spells(a, text) && Spells(b, text)
    ensures a == b
  {
  }

  /** There is exactly one such tag. */
  lemma TagIsUnique(s: Tag, t: Tag, role: string, hostPub: Octets, recvPub: Octets, roomKey: Octets)
    requires TagFor(s, role, hostPub, recvPub, roomKey) && TagFor(t, role, hostPub, recvPub, roomKey)
    ensures s == t
  {
    hide Spells;
    SameSpelling(s.message, t.message, role);
    SameSpelling(s.key.info[..18], t.key.info[..18], "godrop-v1-pin-auth");
    assert s.key.info == s.key.info[..18] + s.key.info[18..];
    assert t.key.info == t.key.info[..18] + t.key.info[18..];
  }

  lemma ComputedTag(secret: Secret, hostPub: Octets, recvPub: Octets, roomKey: Octets, signed: Octets, role: string)
    requires secret == Shared({hostPub, recvPub}) && Spells(signed, role)
    ensures TagFor(ComputeAuthTag(DeriveAuthKey(secret, hostPub, recvPub, roomKey), signed), role, hostPub, recvPub,
                   roomKey)
  {
    Labels();
    hide Spells;
    var info := AUTH_INFO + roomKey;
    assert info[..18] == AUTH_INFO && info[18..] == roomKey;
  }

  /** What the ends sign and take is that tag, for their own role and the other. */
  lemma TagsOf(s: Session, tag: Tag)
    ensures var hostPub := if s.role.HostRole? then s.pub else s.peer;
            var recvPub := if s.role.HostRole? then s.peer else s.pub;
            var own, other := if s.role.HostRole? then "host" else "receiver",
                              if s.role.HostRole? then "receiver" else "host";
            && TagFor(OwnTag(s), own, hostPub, recvPub, s.roomKey)
            && (Convinces(s, tag) <==> TagFor(tag, other, hostPub, recvPub, s.roomKey))
  {
    hide TagFor, Spells, DeriveAuthKey, ComputeAuthTag;
    Labels();
    var hostPub, recvPub := if s.role.HostRole? then s.pub else s.peer, if s.role.HostRole? then s.peer else s.pub;
    var other := if s.role.HostRole? then "receiver" else "host";
    ComputedTag(Shared({s.pub, s.peer}), hostPub, recvPub, s.roomKey, HOST_LABEL, "host");
    ComputedTag(Shared({s.pub, s.peer}), hostPub, recvPub, s.roomKey, RECEIVER_LABEL, "receiver");
    LabelsAre();
    if TagFor(tag, other, hostPub, recvPub, s.roomKey) {
      TagIsUnique(tag, ComputeAuthTag(AuthKeyOf(s), Label(Opposite(s.role))), other, hostPub, recvPub, s.roomKey);
    }
  }

  // ---------- The host ----------

  /** The first message is a key on the curve. */
  predicate HasKey(curve: set<Octets>, heard: seq<Message>) {
    heard != [] && heard[0].KeyExchange? && heard[0].pub in curve
  }

  /** The host has heard a key and the receiver's tag for it. */
  predicate HostTrusts(curve: set<Octets>, pub: Octets, roomKey: Octets, heard: seq<Message>) {
    && HasKey(curve, heard)
    && |heard| > 1 && heard[1].PinResponse? && TagFor(heard[1].tag, "receiver", pub, heard[0].pub, roomKey)
  }

  /** A host registers a peer exactly if it hears a key on the curve, the
      receiver's tag for that key and its own, and a request to join, in this
      order and with nothing in between. It answers the key with its own and the
      challenge, and the tag with its own tag; to anything else it says nothing. */
  lemma HostAcceptsExactly(curve: set<Octets>, pub: Octets, roomKey: Octets, heard: seq<Message>)
    ensures var (end, said) := Feed(curve, NewSession(HostRole, pub, roomKey), heard);
            && (end.phase.Accepted? <==>
                  HostTrusts(curve, pub, roomKey, heard) && |heard| > 2 && heard[2] == PeerJoin)
            && |said| == (if HostTrusts(curve, pub, roomKey, heard) then 3 else if HasKey(curve, heard) then 2 else 0)
            && (HasKey(curve, heard) ==> said[0] == KeyExchange(pub) && said[1] == PinChallenge)
            && (HostTrusts(curve, pub, roomKey, heard) ==>
                  said[2].PinResponse? && TagFor(said[2].tag, "host", pub, heard[0].pub, roomKey))
  {
    hide TagFor, Convinces, OwnTag;
    var s0 := NewSession(HostRole, pub, roomKey);
    if heard != [] {
      var (s1, out1) := Receive(curve, s0, heard[0]);
      FeedOne(curve, s0, heard, s1, out1, heard[1..]);
      if HasKey(curve, heard) && |heard| > 1 {
        if heard[1].PinResponse? {
          TagsOf(s1, heard[1].tag);
        }
        var (s2, out2) := Receive(curve, s1, heard[1]);
        FeedOne(curve, s1, heard[1..], s2, out2, heard[2..]);
        if HostTrusts(curve, pub, roomKey, heard) && |heard| > 2 {
          var (s3, out3) := Receive(curve, s2, heard[2]);
          FeedOne(curve, s2, heard[2..], s3, out3, heard[3..]);
        }
      }
    }
  }

  // ---------- The receiver ----------

  /** The receiver has heard a key and a challenge, and has a room key. */
  predicate ReceiverAnswers(curve: set<Octets>, roomKey: Octets, heard: seq<Message>) {
    HasKey(curve, heard) && |heard| > 1 && heard[1] == PinChallenge && roomKey != []
  }

  predicate ReceiverTrusts(curve: set<Octets>, pub: Octets, roomKey: Octets, heard: seq<Message>) {
    && ReceiverAnswers(curve, roomKey, heard)
    && |heard| > 2 && heard[2].PinResponse? && TagFor(heard[2].tag, "host", heard[0].pub, pub, roomKey)
  }

  /** A receiver with a room key joins exactly if it hears a key on the curve, a
      challenge, and the host's tag for that key and its own. It answers the
      challenge with its tag and the tag with the request to join; to anything
      else, and without a room key, it says nothing. */
  lemma ReceiverAcceptsExactly(curve: set<Octets>, pub: Octets, roomKey: Octets, heard: seq<Message>)
    ensures var (end, said) := Feed(curve, NewSession(ReceiverRole, pub, roomKey), heard);
            && (end.phase.Accepted? <==> ReceiverTrusts(curve, pub, roomKey, heard))
            && |said| == (if ReceiverTrusts(curve, pub, roomKey, heard) then 2
                          else if ReceiverAnswers(curve, roomKey, heard) then 1 else 0)
            && (ReceiverAnswers(curve, roomKey, heard) ==>
                  said[0].PinResponse? && TagFor(said[0].tag, "receiver", heard[0].pub, pub, roomKey))
            && (ReceiverTrusts(curve, pub, roomKey, heard) ==> said[1] == PeerJoin)
  {
    hide TagFor, Convinces, OwnTag;
    var s0 := NewSession(ReceiverRole, pub, roomKey);
    if heard != [] {
      var (s1, out1) := Receive(curve, s0, heard[0]);
      FeedOne(curve, s0, heard, s1, out1, heard[1..]);
      if HasKey(curve, heard) && |heard| > 1 {
        TagsOf(s1, Garbage);
        var (s2, out2) := Receive(curve, s1, heard[1]);
        FeedOne(curve, s1, heard[1..], s2, out2, heard[2..]);
        if ReceiverAnswers(curve, roomKey, heard) && |heard| > 2 {
          if heard[2].PinResponse? {
            TagsOf(s2, heard[2].tag);
          }
          var (s3, out3) := Receive(curve, s2, heard[2]);
          FeedOne(curve, s2, heard[2..], s3, out3, heard[3..]);
        }
      }
    }
  }
}
