/**
 The invariant that ties the runtime's tables together: links, connected list, transport tables, packet queue and
 relay list. This file proves it for the internal steps; RuntimeRuns.dfy lifts it to public operations and runs.
 */
module RuntimeInvariant {
  import opened Machine
  import opened Sequences
  import opened RuntimeSpec
  import Protocol
  import Transport = TransportSpec
  import Tables = TransportInvariant

  predicate LinkOk(l: Link) {
    && (!l.valid ==> l == NO_LINK)
    && (l.valid ==> l.id != 0 && l.issued >= 1 && l.nextTx == Wrap16(l.issued))
    && (l.active ==> l.helloSent && l.helloReceived)
    && (l.state == Ready ==> l.active)
  }

  ghost predicate LinksOk(links: seq<Link>) {
    && |links| == MAX_PEERS
    && (forall i :: 0 <= i < |links| ==> LinkOk(links[i]))
    && (forall i, j :: 0 <= i < j < |links| && links[i].valid && links[j].valid ==> links[i].id != links[j].id)
  }

  ghost predicate Active(links: seq<Link>, id: Byte) {
    exists k :: 0 <= k < |links| && links[k].active && links[k].id == id
  }

  /** The relay list holds exactly the ids of the active sessions, once each. */
  ghost predicate RelayListOk(links: seq<Link>, peers: seq<Byte>) {
    NoDup(peers) && forall id :: id in peers <==> Active(links, id)
  }

  /** The packet decodes to a message from here to its target, within a session and numbered as the history says. */
  predicate Sound(p: Transport.Packet, localId: Byte) {
    && p.source == localId && |p.payload| <= Transport.MAX_PACKET
    && var d := Protocol.Decode(p.payload);
       d.Some? && d.value.source == localId && d.value.target == p.target && d.value.sessionId != 0
       && d.value.sequence == Wrap16(p.number)
  }

  /** The target's link exists and has already moved past the packet's number. */
  ghost predicate Behind(links: seq<Link>, p: Transport.Packet) {
    exists k :: 0 <= k < |links| && Owns(links[k], p.target) && p.number < links[k].issued
  }

  ghost predicate Ordered(queue: seq<Transport.Packet>) {
    forall i, j :: 0 <= i < j < |queue| && queue[i].target == queue[j].target ==> queue[i].number < queue[j].number
  }

  ghost predicate PacketsOk(queue: seq<Transport.Packet>, localId: Byte, links: seq<Link>, connected: seq<Byte>) {
    && Ordered(queue)
    && forall p :: p in queue ==> Sound(p, localId) && p.target in connected && Behind(links, p)
  }

  function CountActive(links: seq<Link>): (n: nat)
    ensures n <= |links|
  {
    if links == [] then 0 else (if links[0].active then 1 else 0) + CountActive(links[1..])
  }

  ghost predicate Silence(links: seq<Link>, now: Word32, limit: nat) {
    forall i :: 0 <= i < |links| && links[i].active ==> Elapsed(now, links[i].lastActivity) < limit
  }

  ghost predicate ConnectionsOk(links: seq<Link>, transport: seq<Byte>, connected: seq<Byte>) {
    && NoDup(connected) && |connected| <= MAX_PEERS
    && (forall id :: id in transport ==> id in connected)
    && (forall i :: 0 <= i < |links| && links[i].active ==> links[i].id in transport)
  }

  ghost predicate SettingsOk(rt: Runtime) {
    && rt.localId != 0 && rt.transport.localId == rt.localId
    && rt.transport.enabled == rt.enabled && rt.transport.backendReady == rt.enabled
    && rt.localId !in rt.connected
  }

  /** The runtime's tables agree, and every active session was heard from less than `limit` milliseconds ago. */
  ghost predicate CoherentWithin(rt: Runtime, limit: nat) {
    && SettingsOk(rt)
    && Tables.WellFormed(rt.transport)
    && LinksOk(rt.links)
    && ConnectionsOk(rt.links, rt.transport.connected, rt.connected)
    && RelayListOk(rt.links, rt.intercom.peers)
    && PacketsOk(rt.transport.fifo.queue, rt.localId, rt.links, rt.transport.connected)
    && rt.readyCount <= CountActive(rt.links)
    && Silence(rt.links, rt.now, limit)
  }

  ghost predicate Coherent(rt: Runtime) { CoherentWithin(rt, SESSION_TIMEOUT_MS) }

  // --- counting ---

  lemma {:induction false} CountActiveUpdate(links: seq<Link>, k: nat, l: Link)
    requires k < |links|
    ensures CountActive(links[k := l]) ==
            CountActive(links) - (if links[k].active then 1 else 0) + (if l.active then 1 else 0)
  {
    if k == 0 {
      assert links[k := l][1..] == links[1..];
    } else {
      assert links[k := l][1..] == links[1..][k - 1 := l];
      CountActiveUpdate(links[1..], k - 1, l);
    }
  }

  lemma {:induction false} ReadyAtMostActive(links: seq<Link>)
    ensures CountReady(links) <= CountActive(links)
  {
    if links != [] { ReadyAtMostActive(links[1..]); }
  }

  // --- one link rewritten in place ---

  /** What a rewrite of a link may change without anybody else noticing. */
  ghost predicate Rewrites(l: Link, l': Link, now: Word32, limit: nat) {
    && l.valid && l'.valid && LinkOk(l') && l'.id == l.id && l'.active == l.active && l'.issued >= l.issued
    && (l'.active ==> Elapsed(now, l'.lastActivity) < limit)
  }

  lemma ActiveUpdate(links: seq<Link>, k: nat, l: Link)
    requires k < |links| && l.id == links[k].id && l.active == links[k].active
    ensures forall id :: Active(links[k := l], id) <==> Active(links, id)
  {
    forall id ensures Active(links[k := l], id) <==> Active(links, id) {
      if Active(links, id) {
        var j :| 0 <= j < |links| && links[j].active && links[j].id == id;
        assert links[k := l][j].active && links[k := l][j].id == id;
      }
    }
  }

  lemma BehindUpdate(links: seq<Link>, k: nat, l: Link, p: Transport.Packet)
    requires k < |links| && links[k].valid && l.valid && l.id == links[k].id && l.issued >= links[k].issued
    requires Behind(links, p)
    ensures Behind(links[k := l], p)
  {
    var j :| 0 <= j < |links| && Owns(links[j], p.target) && p.number < links[j].issued;
    assert Owns(links[k := l][j], p.target) && p.number < links[k := l][j].issued;
  }

  lemma RewriteKeeps(rt: Runtime, rt': Runtime, k: nat, l: Link, limit: nat)
    requires CoherentWithin(rt, limit) && k < |rt.links| && Rewrites(rt.links[k], l, rt.now, limit)
    requires rt' == rt.(links := rt.links[k := l], sessions := rt'.sessions, stats := rt'.stats, relay := rt'.relay)
    ensures CoherentWithin(rt', limit)
  {
    ActiveUpdate(rt.links, k, l);
    CountActiveUpdate(rt.links, k, l);
    forall p | p in rt.transport.fifo.queue ensures Behind(rt'.links, p) {
      BehindUpdate(rt.links, k, l, p);
    }
  }

  // --- opening a link ---

  lemma OpenLinkShape(links: seq<Link>, id: Byte)
    requires LinksOk(links)
    ensures var o := OpenLink(links, id);
            && LinksOk(o.links)
            && (o.links == links || (o.slot < |links| && !links[o.slot].valid
               && o.links == links[o.slot := FreshLink(id)]))
            && (o.slot == |links| ==> o.links == links)
            && (id != 0 && (exists k :: 0 <= k < |links| && Owns(links[k], id)) ==>
               o.links == links && o.slot < |links|)
  {
  }

  lemma OpenLinkKeeps(rt: Runtime, id: Byte, limit: nat)
    requires CoherentWithin(rt, limit)
    ensures CoherentWithin(rt.(links := OpenLink(rt.links, id).links), limit)
  {
    OpenLinkShape(rt.links, id);
    var o := OpenLink(rt.links, id);
    if o.links != rt.links {
      var k := o.slot;
      ActiveAppear(rt.links, k, FreshLink(id));
      CountActiveUpdate(rt.links, k, FreshLink(id));
      forall p | p in rt.transport.fifo.queue ensures Behind(o.links, p) {
        BehindAppear(rt.links, k, FreshLink(id), p);
      }
    }
  }

  lemma ActiveAppear(links: seq<Link>, k: nat, l: Link)
    requires k < |links| && !links[k].active && !l.active
    ensures forall id :: Active(links[k := l], id) <==> Active(links, id)
  {
    forall id | Active(links, id) ensures Active(links[k := l], id) {
      var j :| 0 <= j < |links| && links[j].active && links[j].id == id;
      assert links[k := l][j].active && links[k := l][j].id == id;
    }
  }

  lemma BehindAppear(links: seq<Link>, k: nat, l: Link, p: Transport.Packet)
    requires k < |links| && !links[k].valid && Behind(links, p)
    ensures Behind(links[k := l], p)
  {
    var j :| 0 <= j < |links| && Owns(links[j], p.target) && p.number < links[j].issued;
    assert Owns(links[k := l][j], p.target) && p.number < links[k := l][j].issued;
  }

  // --- queueing a message ---

  /** The new packet is ordered after everything queued for its target. */
  lemma NumberedAfter(rt: Runtime, k: nat, p: Transport.Packet)
    requires LinksOk(rt.links) && k < |rt.links| && p in rt.transport.fifo.queue
    requires PacketsOk(rt.transport.fifo.queue, rt.localId, rt.links, rt.transport.connected)
    requires rt.links[k].valid && p.target == rt.links[k].id
    ensures p.number < rt.links[k].issued
  {
    assert Behind(rt.links, p);
    var j :| 0 <= j < |rt.links| && Owns(rt.links[j], p.target) && p.number < rt.links[j].issued;
    assert j == k;
  }

  lemma EnqueueKeeps(rt: Runtime, k: nat, p: Transport.Packet, t: Transport.State, limit: nat)
    requires CoherentWithin(rt, limit) && k < |rt.links|
    requires Sound(p, rt.localId) && p.target in rt.transport.connected
    requires Owns(rt.links[k], p.target) && p.number < rt.links[k].issued
    requires forall q :: q in rt.transport.fifo.queue && q.target == p.target ==> q.number < p.number
    requires t == rt.transport.(fifo := t.fifo, status := t.status)
    requires t.fifo.queue == rt.transport.fifo.queue + [p] && |t.fifo.queue| <= Transport.QUEUE_DEPTH
    ensures CoherentWithin(rt.(transport := t), limit)
  {
    var q := rt.transport.fifo.queue;
    assert Behind(rt.links, p);
    forall i, j | 0 <= i < j < |t.fifo.queue| && t.fifo.queue[i].target == t.fifo.queue[j].target
      ensures t.fifo.queue[i].number < t.fifo.queue[j].number
    {
      if j == |q| { assert q[i] in q; }
    }
    assert Tables.Endpoint(t.connected, p);
  }

  /** A packet for a link is accepted only while one of its ends, so its target, is connected. */
  lemma QueueingKeeps(rt: Runtime, k: nat, p: Transport.Packet, t: Transport.State, limit: nat)
    requires CoherentWithin(rt, limit) && k < |rt.links| && Owns(rt.links[k], p.target) && p.number < rt.links[k].issued
    requires Sound(p, rt.localId) && (rt.localId in rt.transport.connected || p.target in rt.transport.connected)
    requires forall q :: q in rt.transport.fifo.queue && q.target == p.target ==> q.number < p.number
    requires t == rt.transport.(fifo := t.fifo, status := t.status)
    requires t.fifo.queue == rt.transport.fifo.queue + [p] && |t.fifo.queue| <= Transport.QUEUE_DEPTH
    ensures CoherentWithin(rt.(transport := t), limit)
  {
    assert rt.localId !in rt.transport.connected;
    EnqueueKeeps(rt, k, p, t, limit);
  }

  /** Changes to the status and counters of the transport do not matter here. */
  lemma StatusKeeps(rt: Runtime, t: Transport.State, limit: nat)
    requires CoherentWithin(rt, limit)
    requires t == rt.transport.(fifo := t.fifo, status := t.status) && t.fifo.queue == rt.transport.fifo.queue
    ensures CoherentWithin(rt.(transport := t), limit)
  {
  }

  lemma ComposedSound(rt: Runtime, l: Link, kind: Byte, payload: seq<Byte>, flags: Word16, p: Transport.Packet)
    requires l.session != 0 && l.nextTx == Wrap16(l.issued) && kind != Protocol.INVALID
    requires var m := Compose(rt, l, kind, payload, flags);
             Protocol.HEADER_BYTES + |m.payload| <= Transport.MAX_PACKET
             && p == Transport.Packet(rt.localId, l.id, Protocol.Encode(m), l.issued)
    ensures Sound(p, rt.localId)
  {
    Protocol.DecodeEncode(Compose(rt, l, kind, payload, flags));
  }

  lemma QueuedOrNot(t: Transport.State, source: Byte, target: Byte, payload: seq<Byte>, number: nat)
    requires payload != [] && |payload| <= Transport.MAX_PACKET
    ensures var q := Transport.QueuePacket(t, source, target, payload, number);
            && q.state == t.(fifo := q.state.fifo, status := q.state.status)
            && (q.ok ==> (source in t.connected || target in t.connected) && |t.fifo.queue| < Transport.QUEUE_DEPTH
                         && q.state.fifo.queue == t.fifo.queue + [Transport.Packet(source, target, payload, number)])
            && (!q.ok ==> q.state.fifo.queue == t.fifo.queue)
  {
  }

  function Accepted(rt: Runtime, k: nat, kind: Byte): Runtime
    requires k < |rt.links|
  {
    SetLink(rt, k, NoteSent(rt.links[k], kind, rt.now)).(stats := rt.stats.(sent := rt.stats.sent + 1))
  }

  function Refused(rt: Runtime, k: nat): Runtime
    requires k < |rt.links|
  {
    Dropped(SetLink(rt, k, rt.links[k].(dropped := Wrap32(rt.links[k].dropped + 1))))
  }

  lemma OfferShape(rt: Runtime, k: nat, kind: Byte, m: Protocol.Message, number: nat)
    requires k < |rt.links|
    ensures var q := Transport.QueuePacket(rt.transport, rt.localId, rt.links[k].id, Protocol.Encode(m), number);
            var r := rt.(transport := q.state);
            Offer(rt, k, kind, m, number).rt == if q.ok then Accepted(r, k, kind) else Refused(r, k)
  {
  }

  lemma OfferKeeps(rt: Runtime, k: nat, kind: Byte, m: Protocol.Message, number: nat, limit: nat)
    requires CoherentWithin(rt, limit) && k < |rt.links| && rt.links[k].valid && number < rt.links[k].issued
    requires Protocol.HEADER_BYTES + |m.payload| <= Transport.MAX_PACKET
    requires Sound(Transport.Packet(rt.localId, rt.links[k].id, Protocol.Encode(m), number), rt.localId)
    requires forall q :: q in rt.transport.fifo.queue && q.target == rt.links[k].id ==> q.number < number
    ensures CoherentWithin(Offer(rt, k, kind, m, number).rt, limit)
  {
    var l := rt.links[k];
    var q := Transport.QueuePacket(rt.transport, rt.localId, l.id, Protocol.Encode(m), number);
    QueuedOrNot(rt.transport, rt.localId, l.id, Protocol.Encode(m), number);
    OfferShape(rt, k, kind, m, number);
    if q.ok {
      QueueingKeeps(rt, k, Transport.Packet(rt.localId, l.id, Protocol.Encode(m), number), q.state, limit);
      AcceptedKeeps(rt.(transport := q.state), k, kind, limit);
    } else {
      StatusKeeps(rt, q.state, limit);
      RefusedKeeps(rt.(transport := q.state), k, limit);
    }
  }

  lemma AcceptedKeeps(rt: Runtime, k: nat, kind: Byte, limit: nat)
    requires CoherentWithin(rt, limit) && k < |rt.links| && rt.links[k].valid
    ensures CoherentWithin(Accepted(rt, k, kind), limit)
  {
    RewriteKeeps(rt, Accepted(rt, k, kind), k, NoteSent(rt.links[k], kind, rt.now), limit);
  }

  /** A refusal is counted on the link. */
  lemma RefusedKeeps(rt: Runtime, k: nat, limit: nat)
    requires CoherentWithin(rt, limit) && k < |rt.links| && rt.links[k].valid
    ensures CoherentWithin(Refused(rt, k), limit)
  {
    RewriteKeeps(rt, Refused(rt, k), k, rt.links[k].(dropped := Wrap32(rt.links[k].dropped + 1)), limit);
  }

  lemma SendOnKeeps(rt: Runtime, k: nat, kind: Byte, payload: seq<Byte>, flags: Word16, limit: nat)
    requires CoherentWithin(rt, limit) && k < |rt.links| && rt.links[k].valid && rt.links[k].session != 0
    requires kind != Protocol.INVALID
    ensures CoherentWithin(SendOn(rt, k, kind, payload, flags).rt, limit)
  {
    var l := rt.links[k];
    var m := Compose(rt, l, kind, payload, flags);
    var r := SetLink(rt, k, Consume(l));
    RewriteKeeps(rt, r, k, Consume(l), limit);
    if Protocol.HEADER_BYTES + |m.payload| <= Transport.MAX_PACKET {
      ComposedSound(rt, l, kind, payload, flags, Transport.Packet(rt.localId, l.id, Protocol.Encode(m), l.issued));
      forall x | x in rt.transport.fifo.queue && x.target == l.id ensures x.number < l.issued {
        NumberedAfter(rt, k, x);
      }
      OfferKeeps(r, k, kind, m, l.issued, limit);
    }
  }

  lemma EnsureSessionKeeps(rt: Runtime, k: nat, kind: Byte, limit: nat)
    requires CoherentWithin(rt, limit) && k < |rt.links| && rt.links[k].valid
    ensures var r := EnsureSession(rt, k, kind);
            CoherentWithin(r, limit) && r.links[k].valid && (kind == Protocol.HELLO ==> r.links[k].session != 0)
  {
    var r := EnsureSession(rt, k, kind);
    if r != rt {
      RewriteKeeps(rt, r, k, r.links[k], limit);
    }
  }

  lemma QueueMessageKeeps(rt: Runtime, id: Byte, kind: Byte, payload: seq<Byte>, flags: Word16, limit: nat)
    requires CoherentWithin(rt, limit) && kind != Protocol.INVALID
    ensures CoherentWithin(QueueMessage(rt, id, kind, payload, flags).rt, limit)
  {
    if HasTransport(rt) && id != 0 {
      OpenLinkKeeps(rt, id, limit);
      var o := OpenLink(rt.links, id);
      var r := rt.(links := o.links);
      if o.slot < |rt.links| && id in rt.connected {
        EnsureSessionKeeps(r, o.slot, kind, limit);
        var r' := EnsureSession(r, o.slot, kind);
        if r'.links[o.slot].session != 0 {
          SendOnKeeps(r', o.slot, kind, payload, flags, limit);
        }
      }
    }
  }

  /** Ids are distinct, so a link is found by its id in its own slot. */
  lemma FindOwner(links: seq<Link>, k: nat)
    requires k < |links| && links[k].valid && links[k].id != 0
    requires forall j :: 0 <= j < k ==> !Owns(links[j], links[k].id)
    ensures FindLink(links, links[k].id) == k
  {
    assert Owns(links[k], links[k].id);
  }
}
