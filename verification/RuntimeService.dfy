/** What a poll says on each link: one hello, one keepalive, or nothing. */
module RuntimeService {
  import opened Machine
  import opened RuntimeSpec
  import opened RuntimeInvariant
  import opened RuntimeSteps
  import opened RuntimeRuns
  import opened RuntimeOutcomes
  import opened RuntimeSend
  import Protocol
  import Transport = TransportSpec
  import Tables = TransportInvariant
  import TransportPoll

  /** What a connected link is due at a time. `Expired` is the end of its session. */
  datatype Beat = Quiet | Hello | Alive | Expired

  /**
   A hello first and then once a second until there is a session; a keepalive from 1.5 s of silence, the end at 5 s.
   */
  function BeatOf(l: Link, now: Word32): Beat {
    if !l.active then if !l.helloSent || Elapsed(now, l.lastHandshake) >= 1000 then Hello else Quiet
    else if Elapsed(now, l.lastActivity) >= 5000 then Expired
    else if Elapsed(now, l.lastActivity) >= 1500 && l.session != 0 then Alive
    else Quiet
  }

  /**
   One packet went to the end of the queue with a message on the link in slot k: in the session the link has afterwards,
   under its next number, acknowledging what it heard last. No other link changed.
   */
  ghost predicate Speaks(rt: Runtime, r: Runtime, k: nat, kind: Byte, payload: seq<Byte>)
    requires |payload| <= 238
  {
    && k < |rt.links| == |r.links| && Sent(rt, r)
    && (forall i :: 0 <= i < |rt.links| && i != k ==> r.links[i] == rt.links[i])
    && var l, l', f, f' := rt.links[k], r.links[k], rt.transport.fifo, r.transport.fifo;
       && |f'.queue| == |f.queue| + 1 && f'.queue == f.queue + [f'.queue[|f.queue|]]
       && Says(f'.queue[|f.queue|],
               Protocol.Message(1, kind, l'.session, l.nextTx, l.lastRx, rt.localId, l.id, 0, payload))
       && Follows(l, l', kind, rt.now)
       && f'.wire == f.wire && f'.delivered == f.delivered && r.stats == rt.stats.(sent := rt.stats.sent + 1)
  }

  /** The end of a session: its packets are purged and its link is reset. */
  ghost predicate Ends(rt: Runtime, r: Runtime, k: nat) {
    && k < |rt.links| == |r.links| && r.links == rt.links[k := r.links[k]]
    && Owns(r.links[k], rt.links[k].id) && !r.links[k].active && r.links[k].session == 0
    && r.transport.fifo.queue == Transport.DropPeer(rt.transport.fifo.queue, rt.links[k].id)
    && r.transport.fifo.wire == rt.transport.fifo.wire && r.transport.fifo.delivered == rt.transport.fifo.delivered
    && r.stats == rt.stats
    && r.connected == rt.connected && r.now == rt.now && r.localId == rt.localId && r.enabled == rt.enabled
    && r.transport.backendReady == rt.transport.backendReady
    && (forall x :: x in r.transport.connected <==> x in rt.transport.connected && x != rt.links[k].id)
  }

  lemma SpeaksOn(rt: Runtime, k: nat, kind: Byte, payload: seq<Byte>, limit: nat)
    requires CoherentWithin(rt, limit) && k < |rt.links| && rt.links[k].valid && HasTransport(rt)
    requires rt.links[k].id in rt.connected && rt.links[k].id in rt.transport.connected
    requires |rt.transport.fifo.queue| < 16 && kind != Protocol.INVALID && |payload| <= 238
    requires kind == 1 || rt.links[k].session != 0
    ensures Speaks(rt, QueueMessage(rt, rt.links[k].id, kind, payload, 0).rt, k, kind, payload)
  {
    var id := rt.links[k].id;
    OnlyOwner(rt.links, k, id);
    LinkFound(rt.links, k, id);
    QueueMessageExact(rt, id, kind, payload, 0);
    QueueMessageSent(rt, id, kind, payload, 0);
    SpeaksAlone(rt, k, kind, payload, limit);
    EmitsSpeaks(rt, QueueMessage(rt, id, kind, payload, 0).rt, k, kind, payload);
  }

  lemma EmitsSpeaks(rt: Runtime, r: Runtime, k: nat, kind: Byte, payload: seq<Byte>)
    requires LinksOk(rt.links) && k < |rt.links| == |r.links| && rt.links[k].valid && |payload| <= 238
    requires Emits(rt, r, rt.links[k].id, kind, payload, 0) && Sent(rt, r)
    requires forall i :: 0 <= i < |rt.links| && i != k ==> r.links[i] == rt.links[i]
    ensures Speaks(rt, r, k, kind, payload)
  {
    var id := rt.links[k].id;
    OnlyOwner(rt.links, k, id);
    LinkFound(rt.links, k, id);
    assert LinkKept(rt.links[k], r.links[k]);
    LinkFound(r.links, k, id);
    WholePayload(payload);
  }

  lemma SpeaksAlone(rt: Runtime, k: nat, kind: Byte, payload: seq<Byte>, limit: nat)
    requires LinksOk(rt.links) && k < |rt.links| && rt.links[k].valid
    ensures var r := QueueMessage(rt, rt.links[k].id, kind, payload, 0).rt;
            forall i :: 0 <= i < |rt.links| && i != k ==> r.links[i] == rt.links[i]
  {
    var id := rt.links[k].id;
    OnlyOwner(rt.links, k, id);
    LinkFound(rt.links, k, id);
    var o := OpenLink(rt.links, id);
    if HasTransport(rt) && id in rt.connected {
      SendOnTouches(EnsureSession(rt, k, kind), k, kind, payload, 0);
    }
  }

  lemma EndsOn(rt: Runtime, k: nat, limit: nat)
    requires CoherentWithin(rt, limit) && k < |rt.links| && rt.links[k].active
    ensures Ends(rt, TimeOut(rt, k), k)
  {
    var id := rt.links[k].id;
    TimeOutIsTearDown(rt, k);
    FindOwner(rt.links, k);
    Tables.DisconnectKeeps(rt.transport, id);
  }

  /** A connected link is serviced exactly as its beat says, as far as there is room in the queue. */
  lemma ServiceSlotExact(rt: Runtime, k: nat, limit: nat)
    requires CoherentWithin(rt, limit) && k < |rt.links| && rt.links[k].valid && HasTransport(rt)
    requires rt.links[k].id in rt.connected && rt.links[k].id in rt.transport.connected
            && |rt.transport.fifo.queue| < 16
    ensures var r := ServiceSlot(rt, k);
            match BeatOf(rt.links[k], rt.now)
            case Quiet => r == rt
            case Hello => Speaks(rt, r, k, 1, Identity(rt.localId))
            case Alive => Speaks(rt, r, k, 3, [])
            case Expired => Ends(rt, r, k)
  {
    var l := rt.links[k];
    if !l.active {
      SpeaksOn(rt, k, 1, Identity(rt.localId), limit);
    } else if Elapsed(rt.now, l.lastActivity) >= SESSION_TIMEOUT_MS {
      EndsOn(rt, k, limit);
    } else if l.session != 0 {
      SpeaksOn(rt, k, 3, [], limit);
    } else {
      MuteOn(rt, k);
    }
  }

  /** A session without an id has nothing to say. */
  lemma MuteOn(rt: Runtime, k: nat)
    requires LinksOk(rt.links) && k < |rt.links| && rt.links[k].active && rt.links[k].session == 0
    ensures QueueMessage(rt, rt.links[k].id, Protocol.KEEPALIVE, [], 0).rt == rt
  {
    OnlyOwner(rt.links, k, rt.links[k].id);
    LinkFound(rt.links, k, rt.links[k].id);
  }

  // --- every slot in turn ---

  /** One message that is due, with what it takes from its link. */
  datatype Voice = Voice(id: Byte, kind: Byte, session: Word32, sequence: Word16, ack: Word16)

  function VoiceOf(l: Link, connected: seq<Byte>, now: Word32): seq<Voice> {
    if !l.valid || l.id !in connected then []
    else
      match BeatOf(l, now)
      case Hello => [Voice(l.id, 1, l.session, l.nextTx, l.lastRx)]
      case Alive => [Voice(l.id, 3, l.session, l.nextTx, l.lastRx)]
      case _ => []
  }

  /** The messages due on the links, in slot order. */
  function Voices(links: seq<Link>, connected: seq<Byte>, now: Word32): (vs: seq<Voice>)
    ensures |vs| <= |links|
  {
    if links == [] then [] else VoiceOf(links[0], connected, now) + Voices(links[1..], connected, now)
  }

  predicate Over(l: Link, connected: seq<Byte>, now: Word32) {
    l.valid && l.id in connected && BeatOf(l, now) == Expired
  }

  /** The packets that are left when the sessions that are over have been ended. */
  function Spared(q: seq<Transport.Packet>, links: seq<Link>, connected: seq<Byte>, now: Word32): seq<Transport.Packet>
    decreases |links|
  {
    if links == [] then q
    else Spared(if Over(links[0], connected, now) then Transport.DropPeer(q, links[0].id)
        else q, links[1..], connected, now)
  }

  /** The packet carries the message that was due, under the session that the link has in the end. */
  predicate Uttered(last: Runtime, p: Transport.Packet, v: Voice) {
    var session := LinkOf(last.links, v.id).session;
    && Says(p, Protocol.Message(1, v.kind, session, v.sequence, v.ack, last.localId, v.id, 0,
                                if v.kind == 1 then Identity(last.localId) else []))
    && (v.session != 0 ==> session == v.session)
  }

  /** Slots from k on are still to be serviced, and there is room for a message on each. */
  ghost predicate Serviceable(rt: Runtime, k: nat, limit: nat) {
    && CoherentWithin(rt, limit) && HasTransport(rt) && k <= |rt.links|
    && |rt.transport.fifo.queue| + (|rt.links| - k) <= 16
    && forall j :: k <= j < |rt.links| && rt.links[j].valid && rt.links[j].id in rt.connected ==>
         rt.links[j].id in rt.transport.connected
  }

  /** What servicing slot k adds to the queue or takes from it. */
  ghost predicate SlotDone(rt: Runtime, r: Runtime, k: nat) {
    && k < |rt.links| == |r.links| && (forall i :: 0 <= i < |rt.links| && i != k ==> r.links[i] == rt.links[i])
    && r.connected == rt.connected && r.now == rt.now && r.localId == rt.localId
    && r.transport.fifo.wire == rt.transport.fifo.wire && r.transport.fifo.delivered == rt.transport.fifo.delivered
    && r.stats.sent == rt.stats.sent + |VoiceOf(rt.links[k], rt.connected, rt.now)|
    && var vs, q, q' := VoiceOf(rt.links[k], rt.connected, rt.now), rt.transport.fifo.queue, r.transport.fifo.queue;
       if Over(rt.links[k], rt.connected, rt.now) then q' == Transport.DropPeer(q, rt.links[k].id)
       else if vs == [] then q' == q
       else |q'| == |q| + 1 && q' == q + [q'[|q|]] && Uttered(r, q'[|q|], vs[0])
  }

  lemma SlotServiced(rt: Runtime, k: nat, limit: nat)
    requires Serviceable(rt, k, limit) && k < |rt.links|
    ensures Serviceable(ServiceSlot(rt, k), k + 1, limit) && SlotDone(rt, ServiceSlot(rt, k), k)
  {
    ServiceSlotKeeps(rt, k, limit);
    var l := rt.links[k];
    if l.valid && l.id in rt.connected { DueServiced(rt, ServiceSlot(rt, k), k, limit); }
  }

  lemma DueServiced(rt: Runtime, r: Runtime, k: nat, limit: nat)
    requires Serviceable(rt, k, limit) && k < |rt.links| && rt.links[k].valid && rt.links[k].id in rt.connected
    requires r == ServiceSlot(rt, k) && CoherentWithin(r, limit)
    ensures Serviceable(r, k + 1, limit) && SlotDone(rt, r, k)
  {
    ServiceSlotExact(rt, k, limit);
    var b := BeatOf(rt.links[k], rt.now);
    if b == Hello {
      SpeakingServiced(rt, r, k, 1, Identity(rt.localId), limit);
    } else if b == Alive {
      SpeakingServiced(rt, r, k, 3, [], limit);
    } else {
      StillServiced(rt, r, k, limit);
    }
  }

  lemma StillServiced(rt: Runtime, r: Runtime, k: nat, limit: nat)
    requires Serviceable(rt, k, limit) && CoherentWithin(r, limit) && k < |rt.links| && rt.links[k].valid
    requires rt.links[k].id in rt.connected
    requires var b := BeatOf(rt.links[k], rt.now); (b == Quiet && r == rt) || (b == Expired && Ends(rt, r, k))
    ensures Serviceable(r, k + 1, limit) && SlotDone(rt, r, k)
  {
    if BeatOf(rt.links[k], rt.now) == Expired {
      EndsServiceable(rt, r, k, limit);
      EndsDone(rt, r, k);
    }
  }

  lemma EndsDone(rt: Runtime, r: Runtime, k: nat)
    requires k < |rt.links| && Ends(rt, r, k) && Over(rt.links[k], rt.connected, rt.now)
    ensures SlotDone(rt, r, k)
  {
  }

  lemma SpeakingServiced(rt: Runtime, r: Runtime, k: nat, kind: Byte, payload: seq<Byte>, limit: nat)
    requires Serviceable(rt, k, limit) && k < |rt.links| && rt.links[k].valid && rt.links[k].id in rt.connected
    requires |payload| <= 238 && CoherentWithin(r, limit) && Speaks(rt, r, k, kind, payload)
    requires BeatOf(rt.links[k], rt.now) == if kind == 1 then Hello else Alive
    requires (kind == 1 && payload == Identity(rt.localId)) || (kind == 3 && payload == [])
    ensures Serviceable(r, k + 1, limit) && SlotDone(rt, r, k)
  {
    SpeaksDone(rt, r, k, kind, payload);
    SpeaksServiceable(rt, r, k, kind, payload, limit);
  }

  lemma SpeaksDone(rt: Runtime, r: Runtime, k: nat, kind: Byte, payload: seq<Byte>)
    requires |payload| <= 238 && LinksOk(rt.links) && LinksOk(r.links) && Speaks(rt, r, k, kind, payload)
            && rt.links[k].valid
    requires var l := rt.links[k];
            VoiceOf(l, rt.connected, rt.now) == [Voice(l.id, kind, l.session, l.nextTx, l.lastRx)]
    requires payload == if kind == 1 then Identity(rt.localId) else []
    requires !Over(rt.links[k], rt.connected, rt.now)
    ensures SlotDone(rt, r, k)
  {
    assert LinkKept(rt.links[k], r.links[k]);
    OnlyOwner(r.links, k, rt.links[k].id);
    LinkFound(r.links, k, rt.links[k].id);
  }

  lemma SpeaksServiceable(rt: Runtime, r: Runtime, k: nat, kind: Byte, payload: seq<Byte>, limit: nat)
    requires |payload| <= 238 && Serviceable(rt, k, limit) && CoherentWithin(r, limit)
            && Speaks(rt, r, k, kind, payload)
    ensures Serviceable(r, k + 1, limit)
  {
  }

  lemma EndsServiceable(rt: Runtime, r: Runtime, k: nat, limit: nat)
    requires Serviceable(rt, k, limit) && CoherentWithin(r, limit) && Ends(rt, r, k) && rt.links[k].valid
    ensures Serviceable(r, k + 1, limit)
  {
  }

  lemma {:induction false} DropPeerAppend(q: seq<Transport.Packet>, p: Transport.Packet, id: Byte)
    requires p.source != id && p.target != id
    ensures Transport.DropPeer(q + [p], id) == Transport.DropPeer(q, id) + [p]
  {
    if q == [] {
      assert [p][1..] == [];
    } else {
      assert (q + [p])[1..] == q[1..] + [p];
      DropPeerAppend(q[1..], p, id);
    }
  }

  /** A packet for somebody else survives the ends of these sessions, behind whatever else does. */
  lemma {:induction false} SparedAppend(q: seq<Transport.Packet>, p: Transport.Packet, links: seq<Link>,
      connected: seq<Byte>, now: Word32)
    requires forall i :: 0 <= i < |links| && Over(links[i], connected, now) ==>
            p.source != links[i].id && p.target != links[i].id
    ensures Spared(q + [p], links, connected, now) == Spared(q, links, connected, now) + [p]
    decreases |links|
  {
    if links != [] {
      if Over(links[0], connected, now) {
        DropPeerAppend(q, p, links[0].id);
        SparedAppend(Transport.DropPeer(q, links[0].id), p, links[1..], connected, now);
      } else {
        SparedAppend(q, p, links[1..], connected, now);
      }
    }
  }

  /** What servicing from slot k on comes to: the packets spared, then one for each message due. */
  ghost predicate Serviced(rt: Runtime, last: Runtime, k: nat)
    requires k <= |rt.links|
  {
    Tallied(rt, last, k) && Voiced(rt, last, k)
  }

  ghost predicate Tallied(rt: Runtime, last: Runtime, k: nat)
    requires k <= |rt.links|
  {
    var f, f' := rt.transport.fifo, last.transport.fifo;
    && f'.wire == f.wire && f'.delivered == f.delivered && last.localId == rt.localId && |last.links| == |rt.links|
    && last.stats.sent == rt.stats.sent + |Voices(rt.links[k..], rt.connected, rt.now)|
    && (forall i :: 0 <= i < k ==> last.links[i] == rt.links[i])
  }

  ghost predicate Voiced(rt: Runtime, last: Runtime, k: nat)
    requires k <= |rt.links|
  {
    var ls := rt.links[k..];
    Queued(last, Spared(rt.transport.fifo.queue, ls, rt.connected, rt.now), Voices(ls, rt.connected, rt.now))
  }

  /** The queue is these packets and then one for each message. */
  ghost predicate Queued(last: Runtime, kept: seq<Transport.Packet>, vs: seq<Voice>) {
    var q := last.transport.fifo.queue;
    |q| == |kept| + |vs| && kept <= q && forall i :: 0 <= i < |vs| ==> Uttered(last, q[|kept| + i], vs[i])
  }

  lemma TalliedNext(rt: Runtime, r: Runtime, last: Runtime, k: nat)
    requires k < |rt.links| && SlotDone(rt, r, k) && Tallied(r, last, k + 1)
    ensures Tallied(rt, last, k)
  {
    var ls, rest := rt.links[k..], rt.links[k + 1..];
    assert ls[0] == rt.links[k] && ls[1..] == rest && r.links[k + 1..] == rest;
  }

  lemma UtteredStill(a: Runtime, b: Runtime, p: Transport.Packet, v: Voice, k: nat)
    requires LinksOk(a.links) && LinksOk(b.links) && k < |a.links| && Owns(a.links[k], v.id) && b.links[k] == a.links[k]
    requires b.localId == a.localId && Uttered(a, p, v)
    ensures Uttered(b, p, v)
  {
    OnlyOwner(a.links, k, v.id);
    LinkFound(a.links, k, v.id);
    OnlyOwner(b.links, k, v.id);
    LinkFound(b.links, k, v.id);
  }

  /** The peers behind slot k are neither its own nor this end. */
  ghost predicate Apart(rt: Runtime, k: nat)
    requires k < |rt.links|
  {
    var rest := rt.links[k + 1..];
    forall i :: 0 <= i < |rest| && Over(rest[i], rt.connected, rt.now) ==>
      rest[i].id != rt.links[k].id && rest[i].id != rt.localId
  }

  lemma RestApart(rt: Runtime, k: nat, limit: nat)
    requires CoherentWithin(rt, limit) && k < |rt.links| && rt.links[k].valid
    ensures Apart(rt, k)
  {
    var rest := rt.links[k + 1..];
    forall i | 0 <= i < |rest| && Over(rest[i], rt.connected, rt.now)
      ensures rest[i].id != rt.links[k].id && rest[i].id != rt.localId
    {
      assert rest[i] == rt.links[k + 1 + i];
    }
  }

  lemma Peeled(rt: Runtime, r: Runtime, k: nat, q: seq<Transport.Packet>)
    requires k < |rt.links| && SlotDone(rt, r, k)
    ensures r.links[k + 1..] == rt.links[k + 1..]
    ensures Voices(rt.links[k..], rt.connected, rt.now)
            == VoiceOf(rt.links[k], rt.connected, rt.now) + Voices(rt.links[k + 1..], rt.connected, rt.now)
    ensures Spared(q, rt.links[k..], rt.connected, rt.now)
            == Spared(if Over(rt.links[k], rt.connected, rt.now) then Transport.DropPeer(q, rt.links[k].id) else q,
                      rt.links[k + 1..], rt.connected, rt.now)
  {
    var ls := rt.links[k..];
    assert ls[0] == rt.links[k] && ls[1..] == rt.links[k + 1..];
  }

  lemma SilentNext(rt: Runtime, r: Runtime, last: Runtime, k: nat)
    requires k < |rt.links| && SlotDone(rt, r, k) && Voiced(r, last, k + 1)
    requires VoiceOf(rt.links[k], rt.connected, rt.now) == []
    ensures Voiced(rt, last, k)
  {
    Peeled(rt, r, k, rt.transport.fifo.queue);
    var more := Voices(rt.links[k + 1..], rt.connected, rt.now);
    assert [] + more == more;
  }

  lemma VoicedNext(rt: Runtime, r: Runtime, last: Runtime, k: nat)
    requires k < |rt.links| && SlotDone(rt, r, k) && Voiced(r, last, k + 1)
    requires VoiceOf(rt.links[k], rt.connected, rt.now) != [] && Apart(rt, k)
    requires LinksOk(r.links) && LinksOk(last.links) && Owns(r.links[k], rt.links[k].id) && last.localId == r.localId
    requires last.links[k] == r.links[k]
    ensures Voiced(rt, last, k)
  {
    var q, q', rest := rt.transport.fifo.queue, r.transport.fifo.queue, rt.links[k + 1..];
    var p, v := q'[|q|], VoiceOf(rt.links[k], rt.connected, rt.now)[0];
    Peeled(rt, r, k, q);
    SparedAppend(q, p, rest, rt.connected, rt.now);
    UtteredStill(r, last, p, v, k);
    VoicesNext(last, Spared(q, rest, rt.connected, rt.now), p, v, Voices(rest, rt.connected, rt.now));
  }

  lemma VoicesNext(last: Runtime, kept: seq<Transport.Packet>, p: Transport.Packet, v: Voice, more: seq<Voice>)
    requires Queued(last, kept + [p], more) && Uttered(last, p, v)
    ensures Queued(last, kept, [v] + more)
  {
    var q, vs, after := last.transport.fifo.queue, [v] + more, kept + [p];
    assert q[|kept|] == after[|kept|] == p;
    forall i | 0 <= i < |vs| ensures Uttered(last, q[|kept| + i], vs[i]) {
      if i > 0 { assert Uttered(last, q[|after| + (i - 1)], more[i - 1]); }
    }
  }

  lemma ServicedNext(rt: Runtime, r: Runtime, last: Runtime, k: nat, limit: nat)
    requires CoherentWithin(rt, limit) && k < |rt.links| && SlotDone(rt, r, k) && Serviced(r, last, k + 1)
    requires LinksOk(r.links) && LinksOk(last.links) && Owns(r.links[k], rt.links[k].id) == rt.links[k].valid
    ensures Serviced(rt, last, k)
  {
    TalliedNext(rt, r, last, k);
    if VoiceOf(rt.links[k], rt.connected, rt.now) == [] {
      SilentNext(rt, r, last, k);
    } else {
      RestApart(rt, k, limit);
      VoicedNext(rt, r, last, k);
    }
  }

  lemma {:induction false} ServiceFromExact(rt: Runtime, k: nat, limit: nat)
    requires Serviceable(rt, k, limit)
    ensures Serviced(rt, ServiceFrom(rt, k), k)
    decreases |rt.links| - k
  {
    if k < |rt.links| {
      var r := ServiceSlot(rt, k);
      SlotServiced(rt, k, limit);
      ServiceFromExact(r, k + 1, limit);
      ServiceKeepsLinks(r, k + 1, limit);
      SlotOwner(rt, k, limit);
      ServicedNext(rt, r, ServiceFrom(r, k + 1), k, limit);
    }
  }

  lemma ServiceKeepsLinks(rt: Runtime, k: nat, limit: nat)
    requires Serviceable(rt, k, limit)
    ensures LinksOk(ServiceFrom(rt, k).links)
    decreases |rt.links| - k
  {
    if k < |rt.links| {
      SlotServiced(rt, k, limit);
      ServiceKeepsLinks(ServiceSlot(rt, k), k + 1, limit);
    }
  }

  lemma SlotOwner(rt: Runtime, k: nat, limit: nat)
    requires Serviceable(rt, k, limit) && k < |rt.links|
    ensures Owns(ServiceSlot(rt, k).links[k], rt.links[k].id) == rt.links[k].valid
  {
    var l := rt.links[k];
    if l.valid && l.id in rt.connected {
      ServiceSlotExact(rt, k, limit);
      if !Over(l, rt.connected, rt.now) && VoiceOf(l, rt.connected, rt.now) != [] {
        assert LinkKept(l, ServiceSlot(rt, k).links[k]);
      }
    }
  }

  // --- reconciling ---

  /**
   The link of a connected peer is woken if it was idle; the session of any other peer ends, and its link is kept, idle,
   only if it is remembered.
   */
  predicate Settles(l: Link, l': Link, connected: seq<Byte>) {
    if !l.valid then l' == l
    else if l.id in connected then l' == if !l.active && l.state == Idle then l.(state := LinkState.Connecting) else l
    else if l.remembered then
      l' == l.(active := false, session := 0, helloReceived := false, helloSent := false, lastRx := 0, lastAudio := 0,
               nextTx := 1, issued := 1, state := Idle)
    else l' == NO_LINK
  }

  lemma SlotSettles(rt: Runtime, k: nat)
    requires LinksOk(rt.links) && k < |rt.links|
    ensures var r := ReconcileSlot(rt, k);
            Settles(rt.links[k], r.links[k], rt.connected) && r.links == rt.links[k := r.links[k]] && SameRest(rt, r)
  {
    var l := rt.links[k];
    if l.valid && l.id !in rt.connected {
      FindOwner(rt.links, k);
      FindOwner(NoteDisconnected(rt, l.id).links, k);
    }
  }

  predicate SameRest(rt: Runtime, r: Runtime) {
    && r.connected == rt.connected && r.transport == rt.transport && r.now == rt.now && r.localId == rt.localId
    && r.enabled == rt.enabled && r.stats == rt.stats && r.relay == rt.relay && r.sessions == rt.sessions
  }

  /** Reconciling settles every slot from k on and touches nothing but links, the relay list and the ready count. */
  lemma {:induction false} ReconcileExact(rt: Runtime, k: nat, limit: nat)
    requires CoherentWithin(rt, limit) && k <= |rt.links|
    ensures var r := ReconcileFrom(rt, k);
            && SameRest(rt, r) && (forall i :: 0 <= i < k ==> r.links[i] == rt.links[i])
            && (forall i :: k <= i < |rt.links| ==> Settles(rt.links[i], r.links[i], rt.connected))
    decreases |rt.links| - k
  {
    if k < |rt.links| {
      var r := ReconcileSlot(rt, k);
      SlotSettles(rt, k);
      ReconcileSlotKeeps(rt, k, limit);
      ReconcileExact(r, k + 1, limit);
    }
  }

  // --- a whole poll ---

  lemma {:induction false} SameVoices(a: seq<Link>, b: seq<Link>, connected: seq<Byte>, now: Word32,
      q: seq<Transport.Packet>)
    requires |a| == |b| && forall i :: 0 <= i < |a| ==> Settles(a[i], b[i], connected)
    ensures Voices(a, connected, now) == Voices(b, connected, now)
    ensures Spared(q, a, connected, now) == Spared(q, b, connected, now)
    decreases |a|
  {
    if a != [] {
      assert Settles(a[0], b[0], connected);
      forall i | 0 <= i < |a| - 1 ensures Settles(a[1..][i], b[1..][i], connected) {
        assert Settles(a[i + 1], b[i + 1], connected);
      }
      SameVoices(a[1..], b[1..], connected, now, if Over(a[0], connected, now) then Transport.DropPeer(q, a[0].id)
          else q);
    }
  }

  /** What a poll puts on the wire: the packets that were queued, less those for sessions that end, and what is due. */
  ghost predicate Beats(rt: Runtime, r: Runtime, connected: seq<Byte>, now: Word32) {
    var f, f' := rt.transport.fifo, r.transport.fifo;
    var kept, vs := Spared(f.queue, rt.links, connected, now), Voices(rt.links, connected, now);
    && f'.queue == [] && f'.delivered == f.delivered + |kept| + |vs| && r.stats.sent == rt.stats.sent + |vs|
    && |f'.wire| == |f.wire| + |kept| + |vs| && f.wire + kept <= f'.wire
    && forall i :: 0 <= i < |vs| ==> Uttered(r, f'.wire[|f.wire + kept| + i], vs[i])
  }

  /**
   One poll, with room in the queue for a message on each link, sends for every link whose peer is connected exactly
   what is due at the time it moves to, in slot order, behind what was queued.
   */
  lemma PollSpeaks(rt: Runtime)
    requires Coherent(rt) && rt.enabled && |rt.transport.fifo.queue| <= 8
    ensures Beats(rt, Poll(rt), Transport.Tick(rt.transport).connected, Wrap32(rt.now + 100))
  {
    var limit := SESSION_TIMEOUT_MS + Transport.POLL_TICK_MS;
    var t := Ticked(rt);
    TickedKeeps(rt);
    TickKeepsFifo(rt.transport);
    ReconcileExact(t, 0, limit);
    ReconcileKeeps(t, 0, limit);
    var a := ReconcileFrom(t, 0);
    ServiceFromExact(a, 0, limit);
    SameVoices(t.links, a.links, t.connected, t.now, rt.transport.fifo.queue);
    FlushedBeats(rt, a, ServiceFrom(a, 0));
  }

  lemma TickKeepsFifo(t: Transport.State)
    requires Tables.WellFormed(t)
    ensures Transport.Tick(t).fifo == t.fifo
  {
    var s := t.(lastPoll := Wrap32(t.lastPoll + Transport.POLL_TICK_MS));
    if t.enabled { TransportPoll.PollExact(s); }
  }

  lemma FlushedBeats(rt: Runtime, a: Runtime, last: Runtime)
    requires a.transport.fifo == rt.transport.fifo && a.stats == rt.stats && Serviced(a, last, 0)
    requires Voices(a.links, a.connected, a.now) == Voices(rt.links, a.connected, a.now)
    requires var q := rt.transport.fifo.queue;
            Spared(q, a.links, a.connected, a.now) == Spared(q, rt.links, a.connected, a.now)
    ensures Beats(rt, Flush(last), a.connected, a.now)
  {
    assert a.links[0..] == a.links;
    var kept, vs := Spared(rt.transport.fifo.queue, rt.links, a.connected, a.now), Voices(rt.links, a.connected, a.now);
    QueuedBeats(rt, last, a.connected, a.now, kept, vs);
  }

  lemma QueuedBeats(rt: Runtime, last: Runtime, connected: seq<Byte>, now: Word32, kept: seq<Transport.Packet>,
      vs: seq<Voice>)
    requires kept == Spared(rt.transport.fifo.queue, rt.links, connected, now) && vs == Voices(rt.links, connected, now)
    requires Queued(last, kept, vs) && last.stats.sent == rt.stats.sent + |vs|
    requires last.transport.fifo.wire == rt.transport.fifo.wire
    requires last.transport.fifo.delivered == rt.transport.fifo.delivered
    ensures Beats(rt, Flush(last), connected, now)
  {
    FlushedQueue(last, Flush(last), kept, vs);
  }

  lemma FlushedQueue(last: Runtime, r: Runtime, kept: seq<Transport.Packet>, vs: seq<Voice>)
    requires Queued(last, kept, vs) && r == Flush(last)
    ensures var was, f := last.transport.fifo.wire, r.transport.fifo;
            && f.queue == [] && |f.wire| == |was| + |kept| + |vs| && was + kept <= f.wire
            && f.delivered == last.transport.fifo.delivered + |kept| + |vs| && r.stats == last.stats
            && forall i :: 0 <= i < |vs| ==> Uttered(r, f.wire[|was + kept| + i], vs[i])
  {
    var was, q, wire := last.transport.fifo.wire, last.transport.fifo.queue, r.transport.fifo.wire;
    assert wire == was + q;
    forall i | 0 <= i < |vs| ensures Uttered(r, wire[|was + kept| + i], vs[i]) {
      assert wire[|was + kept| + i] == q[|kept| + i];
      assert Uttered(last, q[|kept| + i], vs[i]);
    }
  }
}
