/** The coherence invariant across session set-up, tear-down, reconciliation, servicing and relaying. */
module RuntimeSteps {
  import opened Machine
  import opened Sequences
  import opened RuntimeSpec
  import opened RuntimeInvariant
  import Protocol
  import Intercom = IntercomSpec
  import Transport = TransportSpec
  import Tables = TransportInvariant

  // --- what sending leaves alone ---

  ghost predicate LinkKept(l: Link, l': Link) {
    if l.valid then
      && l'.valid && l'.id == l.id && l'.remembered == l.remembered && l'.active == l.active
      && l'.lastActivity == l.lastActivity && l'.lastRx == l.lastRx && l'.lastAudio == l.lastAudio
      && l'.missing == l.missing && l'.helloReceived == l.helloReceived
      && (l.session != 0 ==> l'.session == l.session)
      && (l'.state == l.state || (l.state != Ready && l'.state == Handshaking))
    else !l'.active && !l'.remembered
  }

  /** Sending changes no session, no table and no list: only sequence numbers, counters and the packet queue. */
  ghost predicate Sent(a: Runtime, b: Runtime) {
    && b.enabled == a.enabled && b.localId == a.localId && b.now == a.now && b.connected == a.connected
    && b.readyCount == a.readyCount && b.intercom == a.intercom
    && b.transport == a.transport.(fifo := b.transport.fifo, status := b.transport.status)
    && |b.links| == |a.links|
    && forall i :: 0 <= i < |a.links| ==> LinkKept(a.links[i], b.links[i])
  }

  lemma SentTwice(a: Runtime, b: Runtime, c: Runtime)
    requires Sent(a, b) && Sent(b, c)
    ensures Sent(a, c)
  {
    forall i | 0 <= i < |a.links| ensures LinkKept(a.links[i], c.links[i]) {
      assert LinkKept(a.links[i], b.links[i]) && LinkKept(b.links[i], c.links[i]);
    }
  }

  ghost predicate Inert(links: seq<Link>) {
    forall i :: 0 <= i < |links| && !links[i].valid ==> !links[i].active && !links[i].remembered
  }

  lemma SentRewrite(rt: Runtime, rt': Runtime, k: nat, l: Link)
    requires Inert(rt.links) && k < |rt.links| && LinkKept(rt.links[k], l)
    requires rt' == rt.(links := rt.links[k := l], sessions := rt'.sessions, stats := rt'.stats,
                    relay := rt'.relay, transport := rt'.transport)
    requires rt'.transport == rt.transport.(fifo := rt'.transport.fifo, status := rt'.transport.status)
    ensures Sent(rt, rt') && Inert(rt'.links)
  {
  }

  lemma OfferSent(rt: Runtime, k: nat, kind: Byte, m: Protocol.Message, number: nat)
    requires Inert(rt.links) && k < |rt.links| && rt.links[k].valid
    requires Protocol.HEADER_BYTES + |m.payload| <= Transport.MAX_PACKET
    ensures Sent(rt, Offer(rt, k, kind, m, number).rt)
  {
    var l := rt.links[k];
    QueuedOrNot(rt.transport, rt.localId, l.id, Protocol.Encode(m), number);
    var o := Offer(rt, k, kind, m, number);
    SentRewrite(rt, o.rt, k, o.rt.links[k]);
  }

  lemma SendOnSent(rt: Runtime, k: nat, kind: Byte, payload: seq<Byte>, flags: Word16)
    requires Inert(rt.links) && k < |rt.links| && rt.links[k].valid
    ensures Sent(rt, SendOn(rt, k, kind, payload, flags).rt)
  {
    var l := rt.links[k];
    var m := Compose(rt, l, kind, payload, flags);
    var r := SetLink(rt, k, Consume(l));
    SentRewrite(rt, r, k, Consume(l));
    if Protocol.Encodable(m) && Protocol.HEADER_BYTES + |m.payload| <= Transport.MAX_PACKET {
      OfferSent(r, k, kind, m, l.issued);
      SentTwice(rt, r, Offer(r, k, kind, m, l.issued).rt);
    }
  }

  lemma EnsureSessionSent(rt: Runtime, k: nat, kind: Byte)
    requires Inert(rt.links) && k < |rt.links| && rt.links[k].valid
    ensures Sent(rt, EnsureSession(rt, k, kind)) && Inert(EnsureSession(rt, k, kind).links)
  {
    SentRewrite(rt, EnsureSession(rt, k, kind), k, EnsureSession(rt, k, kind).links[k]);
  }

  lemma OpenLinkSent(rt: Runtime, id: Byte)
    requires LinksOk(rt.links)
    ensures Sent(rt, rt.(links := OpenLink(rt.links, id).links)) && Inert(OpenLink(rt.links, id).links)
  {
    OpenLinkShape(rt.links, id);
  }

  lemma QueueMessageSent(rt: Runtime, id: Byte, kind: Byte, payload: seq<Byte>, flags: Word16)
    requires LinksOk(rt.links)
    ensures Sent(rt, QueueMessage(rt, id, kind, payload, flags).rt)
  {
    OpenLinkSent(rt, id);
    var o := OpenLink(rt.links, id);
    var r := rt.(links := o.links);
    if HasTransport(rt) && id != 0 && o.slot < |rt.links| && id in rt.connected {
      EnsureSessionSent(r, o.slot, kind);
      var r' := EnsureSession(r, o.slot, kind);
      SentTwice(rt, r, r');
      if kind == Protocol.HELLO || r'.links[o.slot].session != 0 {
        SendOnSent(r', o.slot, kind, payload, flags);
        SentTwice(rt, r', SendOn(r', o.slot, kind, payload, flags).rt);
      }
    }
  }

  // --- session set-up ---

  /** By pigeonhole over the eight link slots, the relay list has room for a peer whose session is not active yet. */
  lemma RoomForActive(links: seq<Link>, peers: seq<Byte>, k: nat)
    requires LinksOk(links) && RelayListOk(links, peers)
    requires k < |links| && links[k].valid && !links[k].active
    ensures links[k].id !in peers && |peers| < MAX_PEERS
  {
    var id := links[k].id;
    assert !Active(links, id);
    var ids := seq(|links|, i requires 0 <= i < |links| => links[i].id);
    forall x | x in peers + [id] ensures x in ids {
      if x in peers {
        assert Active(links, x);
        var j :| 0 <= j < |links| && links[j].active && links[j].id == x;
        assert ids[j] == x;
      } else {
        assert ids[k] == x;
      }
    }
    AppendKeepsNoDup(peers, id);
    Pigeonhole(peers + [id], ids);
  }

  lemma ActivateLink(links: seq<Link>, k: nat, l: Link)
    requires k < |links| && l.active && l.id == links[k].id
    ensures forall id :: Active(links[k := l], id) <==> Active(links, id) || id == l.id
  {
    forall id ensures Active(links[k := l], id) <==> Active(links, id) || id == l.id {
      assert links[k := l][k] == l;
      if Active(links, id) {
        var j :| 0 <= j < |links| && links[j].active && links[j].id == id;
        assert links[k := l][j].active && links[k := l][j].id == id;
      }
    }
  }

  /** The relay list follows an activation, and is never refused by a full list. */
  lemma AddPeerFollows(links: seq<Link>, intercom: Intercom.State, k: nat, l: Link)
    requires LinksOk(links) && RelayListOk(links, intercom.peers)
    requires k < |links| && links[k].valid && l.active && l.id == links[k].id
    ensures RelayListOk(links[k := l], Intercom.AddPeer(intercom, l.id).state.peers)
    ensures !links[k].active ==> Intercom.AddPeer(intercom, l.id).ok
  {
    ActivateLink(links, k, l);
    if links[k].active {
      assert Active(links, l.id);
    } else {
      RoomForActive(links, intercom.peers, k);
      AppendKeepsNoDup(intercom.peers, l.id);
    }
  }

  lemma MarkReadyKeeps(rt: Runtime, k: nat, id: Byte, session: Word32, limit: nat)
    requires CoherentWithin(rt, limit) && k < |rt.links| && Owns(rt.links[k], id) && 0 < limit
    requires id in rt.transport.connected
    ensures CoherentWithin(MarkReady(rt, k, id, session), limit)
  {
    var l := MarkReady(rt, k, id, session).links[k];
    var r := MarkReady(rt, k, id, session);
    AddPeerFollows(rt.links, rt.intercom, k, l);
    ReadyAtMostActive(r.links);
    forall p | p in rt.transport.fifo.queue ensures Behind(r.links, p) {
      BehindUpdate(rt.links, k, l, p);
    }
  }

  // --- session tear-down ---

  lemma DeactivateLink(links: seq<Link>, k: nat, l: Link)
    requires LinksOk(links) && k < |links| && links[k].valid && !l.active
    ensures forall id :: Active(links[k := l], id) <==> Active(links, id) && id != links[k].id
  {
    forall id ensures Active(links[k := l], id) <==> Active(links, id) && id != links[k].id {
      if Active(links, id) && id != links[k].id {
        var j :| 0 <= j < |links| && links[j].active && links[j].id == id;
        assert links[k := l][j].active && links[k := l][j].id == id;
      }
    }
  }

  lemma RemovePeerFollows(links: seq<Link>, intercom: Intercom.State, k: nat, l: Link)
    requires LinksOk(links) && RelayListOk(links, intercom.peers)
    requires k < |links| && links[k].valid && !l.active
    ensures RelayListOk(links[k := l], Intercom.RemovePeer(intercom, links[k].id).state.peers)
  {
    DeactivateLink(links, k, l);
    RemoveFirstMembers(intercom.peers, links[k].id);
  }

  lemma BehindOther(links: seq<Link>, k: nat, l: Link, p: Transport.Packet)
    requires k < |links| && Behind(links, p) && links[k].id != p.target
    ensures Behind(links[k := l], p)
  {
    var j :| 0 <= j < |links| && Owns(links[j], p.target) && p.number < links[j].issued;
    assert Owns(links[k := l][j], p.target) && p.number < links[k := l][j].issued;
  }

  /** What happens to the transport when a peer goes: it leaves the connected list and takes its packets along. */
  ghost predicate Parted(t: Transport.State, t': Transport.State, id: Byte) {
    && Tables.WellFormed(t')
    && t'.enabled == t.enabled && t'.backendReady == t.backendReady && t'.localId == t.localId
    && (forall x :: x in t'.connected <==> x in t.connected && x != id)
    && Ordered(t'.fifo.queue)
    && (forall p :: p in t'.fifo.queue ==> p in t.fifo.queue && p.target != id)
  }

  lemma NoteDisconnectedKeeps(rt: Runtime, id: Byte, t': Transport.State, limit: nat)
    requires CoherentWithin(rt, limit) && Parted(rt.transport, t', id)
    ensures CoherentWithin(NoteDisconnected(rt, id).(transport := t'), limit)
  {
    var k := FindLink(rt.links, id);
    var r := NoteDisconnected(rt, id).(transport := t');
    if k < |rt.links| {
      var l := ResetLink(rt.links[k]);
      RemovePeerFollows(rt.links, rt.intercom, k, l);
      ReadyAtMostActive(r.links);
      PartedBehind(rt, k, t', limit);
    } else {
      UnlinkedKeeps(rt, id, t', limit);
    }
  }

  /** Parting a peer without a link. */
  lemma UnlinkedKeeps(rt: Runtime, id: Byte, t': Transport.State, limit: nat)
    requires CoherentWithin(rt, limit) && Parted(rt.transport, t', id) && FindLink(rt.links, id) == |rt.links|
    ensures CoherentWithin(rt.(transport := t'), limit)
  {
    assert forall i :: 0 <= i < |rt.links| && rt.links[i].active ==> Owns(rt.links[i], rt.links[i].id);
  }

  /** Once its packets are purged a link may start numbering again. */
  lemma PartedBehind(rt: Runtime, k: nat, t': Transport.State, limit: nat)
    requires CoherentWithin(rt, limit) && k < |rt.links| && rt.links[k].valid
            && Parted(rt.transport, t', rt.links[k].id)
    ensures forall p :: p in t'.fifo.queue ==> Behind(rt.links[k := ResetLink(rt.links[k])], p)
  {
    forall p | p in t'.fifo.queue ensures Behind(rt.links[k := ResetLink(rt.links[k])], p) {
      BehindOther(rt.links, k, ResetLink(rt.links[k]), p);
    }
  }

  lemma {:induction false} DropPeerOrdered(q: seq<Transport.Packet>, id: Byte)
    requires Ordered(q)
    ensures Ordered(Transport.DropPeer(q, id))
  {
    if q != [] {
      var rest := q[1..];
      DropPeerOrdered(rest, id);
      Tables.DropPeerMembers(rest, id);
      var kept := Transport.DropPeer(rest, id);
      forall j | 0 <= j < |kept| && kept[j].target == q[0].target ensures q[0].number < kept[j].number {
        assert kept[j] in rest;
        var m :| 0 <= m < |rest| && rest[m] == kept[j];
        assert q[m + 1] == kept[j];
      }
    }
  }

  /** Disconnecting in the transport parts the peer, whether or not it was still connected there. */
  lemma DisconnectParts(rt: Runtime, id: Byte, limit: nat)
    requires CoherentWithin(rt, limit)
    ensures Parted(rt.transport, Transport.Disconnect(rt.transport, id).state, id)
  {
    var t := rt.transport;
    Tables.DisconnectKeeps(t, id);
    if id in t.connected {
      DropPeerOrdered(t.fifo.queue, id);
    }
  }

  lemma AlreadyParted(rt: Runtime, id: Byte, limit: nat)
    requires CoherentWithin(rt, limit) && id !in rt.transport.connected
    ensures Parted(rt.transport, rt.transport, id)
  {
  }

  lemma ReleaseKeeps(rt: Runtime, id: Byte, limit: nat)
    requires CoherentWithin(rt, limit) && id !in rt.transport.connected
    ensures CoherentWithin(Release(rt, id), limit)
  {
    var k := FindLink(rt.links, id);
    if k < |rt.links| && !rt.links[k].remembered {
      EraseKeeps(rt, k, limit);
    }
  }

  lemma EraseKeeps(rt: Runtime, k: nat, limit: nat)
    requires CoherentWithin(rt, limit) && k < |rt.links| && rt.links[k].valid
    requires rt.links[k].id !in rt.transport.connected
    ensures CoherentWithin(SetLink(rt, k, NO_LINK), limit)
  {
    assert !rt.links[k].active;
    DeactivateLink(rt.links, k, NO_LINK);
    assert !Active(rt.links, rt.links[k].id);
    CountActiveUpdate(rt.links, k, NO_LINK);
    forall p | p in rt.transport.fifo.queue ensures Behind(SetLink(rt, k, NO_LINK).links, p) {
      BehindOther(rt.links, k, NO_LINK, p);
    }
  }

  // --- reconciliation ---

  lemma SyncKeeps(rt: Runtime, limit: nat)
    requires CoherentWithin(rt, limit)
    ensures CoherentWithin(Sync(rt), limit)
  {
  }

  lemma ReconcileSlotKeeps(rt: Runtime, k: nat, limit: nat)
    requires CoherentWithin(rt, limit) && k < |rt.links|
    ensures CoherentWithin(ReconcileSlot(rt, k), limit)
  {
    var l := rt.links[k];
    if l.valid {
      if l.id in rt.connected {
        if !l.active && l.state == Idle {
          RewriteKeeps(rt, ReconcileSlot(rt, k), k, l.(state := Connecting), limit);
        }
      } else {
        AlreadyParted(rt, l.id, limit);
        NoteDisconnectedKeeps(rt, l.id, rt.transport, limit);
        var r := NoteDisconnected(rt, l.id);
        assert r.(transport := rt.transport) == r;
        assert FindLink(rt.links, l.id) == k;
        ReleaseKeeps(r, l.id, limit);
      }
    }
  }

  lemma {:induction false} ReconcileKeeps(rt: Runtime, k: nat, limit: nat)
    requires CoherentWithin(rt, limit) && k <= |rt.links|
    ensures CoherentWithin(ReconcileFrom(rt, k), limit)
    decreases |rt.links| - k
  {
    if k < |rt.links| {
      ReconcileSlotKeeps(rt, k, limit);
      ReconcileKeeps(ReconcileSlot(rt, k), k + 1, limit);
    }
  }

  // --- servicing ---

  /** Timing out is tearing down: the intermediate degraded state does not survive. */
  lemma TimeOutIsTearDown(rt: Runtime, k: nat)
    requires LinksOk(rt.links) && k < |rt.links| && rt.links[k].valid
    ensures var id := rt.links[k].id;
            TimeOut(rt, k) == NoteDisconnected(rt, id).(transport :=
            Transport.ClearDisconnectFlags(Transport.Disconnect(rt.transport, id).state, id))
  {
    var l := rt.links[k];
    var r1 := Refresh(SetLink(rt, k, l.(state := Degraded, active := false)));
    FindOwner(rt.links, k);
    FindOwner(r1.links, k);
    assert r1.links[k := ResetLink(r1.links[k])] == rt.links[k := ResetLink(l)];
  }

  lemma FlagsKeepParted(t: Transport.State, t': Transport.State, id: Byte)
    requires Parted(t, t', id)
    ensures Parted(t, Transport.ClearDisconnectFlags(t', id), id)
  {
    Tables.ClearFlagsKeeps(t', id);
  }

  lemma TimeOutKeeps(rt: Runtime, k: nat, limit: nat)
    requires CoherentWithin(rt, limit) && k < |rt.links| && rt.links[k].valid
    ensures CoherentWithin(TimeOut(rt, k), limit)
  {
    var id := rt.links[k].id;
    TimeOutIsTearDown(rt, k);
    DisconnectParts(rt, id, limit);
    FlagsKeepParted(rt.transport, Transport.Disconnect(rt.transport, id).state, id);
    NoteDisconnectedKeeps(rt, id, TimeOut(rt, k).transport, limit);
  }

  lemma ServiceSlotKeeps(rt: Runtime, k: nat, limit: nat)
    requires CoherentWithin(rt, limit) && k < |rt.links|
    ensures CoherentWithin(ServiceSlot(rt, k), limit)
  {
    var l := rt.links[k];
    if l.valid && l.id in rt.connected {
      if !l.active {
        QueueMessageKeeps(rt, l.id, Protocol.HELLO, Identity(rt.localId), 0, limit);
      } else if Elapsed(rt.now, l.lastActivity) >= SESSION_TIMEOUT_MS {
        TimeOutKeeps(rt, k, limit);
      } else {
        QueueMessageKeeps(rt, l.id, Protocol.KEEPALIVE, [], 0, limit);
      }
    }
  }

  /** The session was active before, with the same peer, under the same id, and last heard from at the same time. */
  predicate SameSession(l: Link, l': Link) {
    && l.active && l'.lastActivity == l.lastActivity && l'.id == l.id
    && (l.session != 0 ==> l'.session == l.session)
  }

  /** A serviced slot is silent for less than the session timeout, and no other slot's session is touched. */
  ghost predicate Serviced(a: Runtime, b: Runtime, k: nat) {
    && b.now == a.now && |b.links| == |a.links| && k < |a.links|
    && (forall j :: 0 <= j < |a.links| && b.links[j].active ==> SameSession(a.links[j], b.links[j]))
    && (b.links[k].active ==> Elapsed(b.now, b.links[k].lastActivity) < SESSION_TIMEOUT_MS)
  }

  lemma SentServiced(a: Runtime, b: Runtime, k: nat)
    requires LinksOk(a.links) && Sent(a, b) && k < |a.links|
    requires a.links[k].active ==> Elapsed(a.now, a.links[k].lastActivity) < SESSION_TIMEOUT_MS
    ensures Serviced(a, b, k)
  {
    assert LinkKept(a.links[k], b.links[k]);
  }

  lemma TimeOutServices(rt: Runtime, k: nat)
    requires LinksOk(rt.links) && k < |rt.links| && rt.links[k].valid
    ensures Serviced(rt, TimeOut(rt, k), k)
  {
    TimeOutIsTearDown(rt, k);
    FindOwner(rt.links, k);
  }

  lemma ServiceSlotServices(rt: Runtime, k: nat, limit: nat)
    requires CoherentWithin(rt, limit) && k < |rt.links|
    ensures Serviced(rt, ServiceSlot(rt, k), k)
  {
    var l := rt.links[k];
    if l.valid && l.id in rt.connected {
      if !l.active {
        QueueMessageSent(rt, l.id, Protocol.HELLO, Identity(rt.localId), 0);
        SentServiced(rt, ServiceSlot(rt, k), k);
      } else if Elapsed(rt.now, l.lastActivity) >= SESSION_TIMEOUT_MS {
        TimeOutServices(rt, k);
      } else {
        QueueMessageSent(rt, l.id, Protocol.KEEPALIVE, [], 0);
        SentServiced(rt, ServiceSlot(rt, k), k);
      }
    }
  }

  /** The sessions of b are among those of a, heard from at the same times. */
  ghost predicate Subsessions(a: Runtime, b: Runtime) {
    && |b.links| == |a.links|
    && forall j :: 0 <= j < |a.links| && b.links[j].active ==> SameSession(a.links[j], b.links[j])
  }

  /** No session in front of slot k has been silent for too long. */
  ghost predicate HeardUpTo(rt: Runtime, k: nat) {
    forall j :: 0 <= j < k && j < |rt.links| && rt.links[j].active ==>
      Elapsed(rt.now, rt.links[j].lastActivity) < SESSION_TIMEOUT_MS
  }

  lemma ServicedNext(a: Runtime, b: Runtime, k: nat)
    requires Serviced(a, b, k) && HeardUpTo(a, k)
    ensures HeardUpTo(b, k + 1) && Subsessions(a, b)
  {
    forall j | 0 <= j < k && j < |b.links| && b.links[j].active
      ensures Elapsed(b.now, b.links[j].lastActivity) < SESSION_TIMEOUT_MS
    {
      assert SameSession(a.links[j], b.links[j]);
    }
  }

  lemma SubsessionsTwice(a: Runtime, b: Runtime, c: Runtime)
    requires Subsessions(a, b) && Subsessions(b, c)
    ensures Subsessions(a, c)
  {
    forall j | 0 <= j < |a.links| && c.links[j].active ensures SameSession(a.links[j], c.links[j]) {
      assert SameSession(b.links[j], c.links[j]);
    }
  }

  lemma HeardIsCoherent(rt: Runtime, limit: nat)
    requires CoherentWithin(rt, limit) && HeardUpTo(rt, |rt.links|)
    ensures Coherent(rt)
  {
  }

  lemma {:induction false} ServiceKeeps(rt: Runtime, k: nat, limit: nat)
    requires CoherentWithin(rt, limit) && k <= |rt.links| && HeardUpTo(rt, k)
    ensures Coherent(ServiceFrom(rt, k))
    ensures Subsessions(rt, ServiceFrom(rt, k)) && ServiceFrom(rt, k).now == rt.now
    decreases |rt.links| - k
  {
    if k < |rt.links| {
      var r := ServiceSlot(rt, k);
      ServiceSlotKeeps(rt, k, limit);
      ServiceSlotServices(rt, k, limit);
      ServicedNext(rt, r, k);
      ServiceKeeps(r, k + 1, limit);
      SubsessionsTwice(rt, r, ServiceFrom(r, k + 1));
    } else {
      HeardIsCoherent(rt, limit);
    }
  }

  // --- relaying ---

  lemma RelayLogKeeps(rt: Runtime, log: RelayLog, limit: nat)
    requires CoherentWithin(rt, limit)
    ensures CoherentWithin(rt.(relay := log), limit)
  {
  }

  lemma {:induction false} RelayToKeeps(rt: Runtime, source: Byte, peers: seq<Byte>, payload: seq<Byte>, limit: nat)
    requires CoherentWithin(rt, limit)
    ensures CoherentWithin(RelayTo(rt, source, peers, payload), limit)
    ensures Sent(rt, RelayTo(rt, source, peers, payload))
    decreases |peers|
  {
    if peers != [] {
      var log := RecordRelay(rt.relay, source, peers[0]);
      var a := rt.(relay := log);
      var b := if peers[0] == source then rt else RelayOne(rt, source, peers[0], payload);
      RelayLogKeeps(rt, log, limit);
      QueueMessageKeeps(a, peers[0], Protocol.AUDIO, payload, 0, limit);
      QueueMessageSent(a, peers[0], Protocol.AUDIO, payload, 0);
      SentTwice(rt, a, RelayOne(rt, source, peers[0], payload));
      RelayToKeeps(b, source, peers[1..], payload, limit);
      SentTwice(rt, b, RelayTo(b, source, peers[1..], payload));
    }
  }

  lemma FlushKeeps(rt: Runtime, limit: nat)
    requires CoherentWithin(rt, limit)
    ensures CoherentWithin(Flush(rt), limit)
  {
  }

  lemma BroadcastKeeps(rt: Runtime, source: Byte, payload: seq<Byte>, limit: nat)
    requires CoherentWithin(rt, limit)
    ensures CoherentWithin(Broadcast(rt, source, payload), limit)
    ensures Sent(rt, Broadcast(rt, source, payload))
  {
    var r := StartRelay(rt);
    RelayLogKeeps(rt, r.relay, limit);
    var relays := Intercom.Relays(rt.intercom, payload);
    var r' := if relays then RelayTo(r, source, rt.intercom.peers, payload) else r;
    RelayToKeeps(r, source, rt.intercom.peers, payload, limit);
    var log := Broadcast(rt, source, payload).relay;
    RelayLogKeeps(r', log, limit);
    FlushKeeps(r'.(relay := log), limit);
    RelayingSent(rt, r, r', Broadcast(rt, source, payload));
  }

  /** Sending, with the log and the queue seen to before and after. */
  lemma RelayingSent(rt: Runtime, r: Runtime, r': Runtime, last: Runtime)
    requires LinksOk(rt.links) && r == rt.(relay := r.relay) && Sent(r, r')
    requires last == r'.(relay := last.relay, transport := r'.transport.(fifo := last.transport.fifo))
    requires Inert(r'.links)
    ensures Sent(rt, last)
  {
    assert Sent(rt, r) && Sent(r', last);
    SentTwice(rt, r, r');
    SentTwice(rt, r', last);
  }
}
