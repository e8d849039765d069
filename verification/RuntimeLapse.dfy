/**
 The gap in explicit disconnects: between the poll that times a session out and the next one, the runtime still lists
 the peer but the transport has already let it go, unsuppressed. A disconnect in that gap reports success and changes
 nothing, and the next poll reconnects the peer.
 */
module RuntimeLapse {
  import opened Machine
  import opened RuntimeSpec
  import opened RuntimeInvariant
  import opened RuntimeSteps
  import opened RuntimeRuns
  import RuntimeHold
  import Protocol
  import Transport = TransportSpec
  import Tables = TransportInvariant
  import TransportPoll
  import Hold = TransportHold

  /** Slot j holds a remembered, audio-ready peer last reported at the given time. */
  predicate Primed(t: Transport.State, id: Byte, j: nat, seen: Word32) {
    && j < |t.discovered| && Transport.Holds(t.discovered[j], id) && t.discovered[j].audioReady
    && t.discovered[j].lastSeen == seen && id in t.remembered
  }

  /** The peer is gone and nothing keeps the next poll from fetching it back. */
  predicate Loose(t: Transport.State, id: Byte, j: nat, seen: Word32) {
    Primed(t, id, j, seen) && id !in t.connected && !Hold.Suppressed(t.discovered[j])
  }

  /** Disconnecting another peer and lifting its flags leaves this one's entry alone. */
  lemma OthersApart(t: Transport.State, x: Byte, id: Byte, j: nat, seen: Word32)
    requires Tables.WellFormed(t) && Primed(t, id, j, seen) && x != id
    ensures var t' := Transport.ClearDisconnectFlags(Transport.Disconnect(t, x).state, x);
            && Primed(t', id, j, seen) && t'.discovered[j] == t.discovered[j]
               && (id in t'.connected <==> id in t.connected)
  {
    Tables.DisconnectKeeps(t, x);
  }

  lemma LetGo(t: Transport.State, id: Byte, j: nat, seen: Word32)
    requires Tables.WellFormed(t) && Primed(t, id, j, seen) && id in t.connected
    ensures Loose(Transport.ClearDisconnectFlags(Transport.Disconnect(t, id).state, id), id, j, seen)
  {
    Tables.DisconnectKeeps(t, id);
    var d := Transport.Disconnect(t, id).state;
    TransportPoll.FindHolder(t.discovered, t.localId, j);
    TransportPoll.FindHolder(d.discovered, d.localId, j);
  }

  /** One service step neither disturbs the entry nor, once the peer is loose, ties it down again. */
  lemma ServiceSlotPrimed(rt: Runtime, k: nat, id: Byte, j: nat, seen: Word32, limit: nat)
    requires CoherentWithin(rt, limit) && k < |rt.links| && Primed(rt.transport, id, j, seen)
    ensures var r := ServiceSlot(rt, k);
            && Primed(r.transport, id, j, seen) && r.connected == rt.connected
            && (Loose(rt.transport, id, j, seen) ==> Loose(r.transport, id, j, seen))
            && (Expiring(rt, k, id) ==> Loose(r.transport, id, j, seen))
            && (!Owns(rt.links[k], id) || !rt.links[k].active ==>
               (id in r.transport.connected <==> id in rt.transport.connected))
  {
    var l := rt.links[k];
    if l.valid && l.id in rt.connected {
      if !l.active {
        QueueMessageSent(rt, l.id, Protocol.HELLO, Identity(rt.localId), 0);
      } else if Elapsed(rt.now, l.lastActivity) >= SESSION_TIMEOUT_MS {
        TimeOutPrimed(rt, k, id, j, seen, limit);
      } else {
        QueueMessageSent(rt, l.id, Protocol.KEEPALIVE, [], 0);
      }
    }
  }

  lemma TimeOutPrimed(rt: Runtime, k: nat, id: Byte, j: nat, seen: Word32, limit: nat)
    requires CoherentWithin(rt, limit) && k < |rt.links| && Primed(rt.transport, id, j, seen)
    requires rt.links[k].active && rt.links[k].id in rt.connected
    ensures var r := TimeOut(rt, k);
            && Primed(r.transport, id, j, seen) && r.connected == rt.connected
            && (Loose(rt.transport, id, j, seen) || rt.links[k].id == id ==> Loose(r.transport, id, j, seen))
            && (rt.links[k].id != id ==> (id in r.transport.connected <==> id in rt.transport.connected))
  {
    var l := rt.links[k];
    TimeOutIsTearDown(rt, k);
    RuntimeHold.NoteKeepsTransport(rt, l.id);
    if l.id == id {
      LetGo(rt.transport, id, j, seen);
    } else {
      OthersApart(rt.transport, l.id, id, j, seen);
    }
  }

  lemma {:induction false} ServiceStaysLoose(rt: Runtime, k: nat, id: Byte, j: nat, seen: Word32, limit: nat)
    requires CoherentWithin(rt, limit) && k <= |rt.links| && Loose(rt.transport, id, j, seen)
    ensures Loose(ServiceFrom(rt, k).transport, id, j, seen) && ServiceFrom(rt, k).connected == rt.connected
    decreases |rt.links| - k
  {
    if k < |rt.links| {
      ServiceSlotPrimed(rt, k, id, j, seen, limit);
      ServiceSlotKeeps(rt, k, limit);
      ServiceStaysLoose(ServiceSlot(rt, k), k + 1, id, j, seen, limit);
    }
  }

  /** The silent session sits in some slot from k on. */
  ghost predicate Expiring(rt: Runtime, slot: nat, id: Byte) {
    && slot < |rt.links| && Owns(rt.links[slot], id) && rt.links[slot].active && id in rt.connected
    && Elapsed(rt.now, rt.links[slot].lastActivity) >= SESSION_TIMEOUT_MS
  }

  lemma {:induction false} ServiceLoosens(rt: Runtime, k: nat, slot: nat, id: Byte, j: nat, seen: Word32, limit: nat)
    requires CoherentWithin(rt, limit) && k <= slot && Expiring(rt, slot, id) && Primed(rt.transport, id, j, seen)
    ensures Loose(ServiceFrom(rt, k).transport, id, j, seen) && ServiceFrom(rt, k).connected == rt.connected
    decreases |rt.links| - k
  {
    var s := ServiceSlot(rt, k);
    ServiceSlotPrimed(rt, k, id, j, seen, limit);
    ServiceSlotKeeps(rt, k, limit);
    if k == slot {
      ServiceStaysLoose(s, k + 1, id, j, seen, limit);
    } else {
      OtherSlotKept(rt, k, slot, limit);
      ServiceLoosens(s, k + 1, slot, id, j, seen, limit);
    }
  }

  /** Tearing one slot's session down, and releasing the slot, touches no other slot. */
  lemma TearDownApart(rt: Runtime, k: nat, slot: nat)
    requires LinksOk(rt.links) && k < |rt.links| && slot < |rt.links| && k != slot && rt.links[k].valid
    ensures var r := NoteDisconnected(rt, rt.links[k].id);
            && r.links[slot] == rt.links[slot] && r.now == rt.now && r.links[k].id == rt.links[k].id
            && Release(r, rt.links[k].id).links[slot] == rt.links[slot]
  {
    FindOwner(rt.links, k);
    FindOwner(rt.links[k := ResetLink(rt.links[k])], k);
  }

  /** Servicing one slot leaves the session in another as it is. */
  lemma OtherSlotKept(rt: Runtime, k: nat, slot: nat, limit: nat)
    requires CoherentWithin(rt, limit) && k < |rt.links| && slot < |rt.links| && k != slot && rt.links[slot].valid
    ensures var l, l' := rt.links[slot], ServiceSlot(rt, k).links[slot];
            l'.valid && l'.id == l.id && l'.active == l.active && l'.lastActivity == l.lastActivity
    ensures ServiceSlot(rt, k).now == rt.now
  {
    var l := rt.links[k];
    if l.valid && l.id in rt.connected {
      if !l.active {
        QueueMessageSent(rt, l.id, Protocol.HELLO, Identity(rt.localId), 0);
        assert LinkKept(rt.links[slot], ServiceSlot(rt, k).links[slot]);
      } else if Elapsed(rt.now, l.lastActivity) >= SESSION_TIMEOUT_MS {
        TimeOutIsTearDown(rt, k);
        TearDownApart(rt, k, slot);
      } else {
        QueueMessageSent(rt, l.id, Protocol.KEEPALIVE, [], 0);
        assert LinkKept(rt.links[slot], ServiceSlot(rt, k).links[slot]);
      }
    }
  }

  lemma ReconcileSlotSpares(rt: Runtime, k: nat, slot: nat)
    requires LinksOk(rt.links) && k < |rt.links| && slot < |rt.links|
    requires rt.links[slot].active && rt.links[slot].id in rt.connected
    ensures ReconcileSlot(rt, k).links[slot] == rt.links[slot]
  {
    var l := rt.links[k];
    if l.valid && l.id !in rt.connected {
      TearDownApart(rt, k, slot);
    }
  }

  /** Reconciling keeps the session of a connected peer. */
  lemma {:induction false} ReconcileKeepsSession(rt: Runtime, k: nat, slot: nat, limit: nat)
    requires CoherentWithin(rt, limit) && k <= |rt.links| && slot < |rt.links|
    requires rt.links[slot].active && rt.links[slot].id in rt.connected
    ensures ReconcileFrom(rt, k).links[slot] == rt.links[slot]
    decreases |rt.links| - k
  {
    if k < |rt.links| {
      ReconcileSlotSpares(rt, k, slot);
      ReconcileSlotKeeps(rt, k, limit);
      ReconcileKeepsSession(ReconcileSlot(rt, k), k + 1, slot, limit);
    }
  }

  lemma TickPrimed(t: Transport.State, id: Byte, j: nat, seen: Word32)
    requires Tables.WellFormed(t) && t.enabled && Primed(t, id, j, seen) && id in t.connected
    ensures Primed(Transport.Tick(t), id, j, seen) && id in Transport.Tick(t).connected
    ensures Transport.Tick(t).lastPoll == Wrap32(t.lastPoll + Transport.POLL_TICK_MS)
  {
    TransportPoll.PollExact(t.(lastPoll := Wrap32(t.lastPoll + Transport.POLL_TICK_MS)));
  }

  lemma TearDownKeepsClock(t: Transport.State, id: Byte)
    ensures Transport.ClearDisconnectFlags(Transport.Disconnect(t, id).state, id).lastPoll == t.lastPoll
  {
  }

  lemma ServiceSlotClock(rt: Runtime, k: nat, limit: nat)
    requires CoherentWithin(rt, limit) && k < |rt.links|
    ensures ServiceSlot(rt, k).transport.lastPoll == rt.transport.lastPoll && ServiceSlot(rt, k).enabled == rt.enabled
  {
    var l := rt.links[k];
    if l.valid && l.id in rt.connected {
      if !l.active {
        QueueMessageSent(rt, l.id, Protocol.HELLO, Identity(rt.localId), 0);
      } else if Elapsed(rt.now, l.lastActivity) >= SESSION_TIMEOUT_MS {
        TimeOutIsTearDown(rt, k);
        TearDownKeepsClock(rt.transport, l.id);
      } else {
        QueueMessageSent(rt, l.id, Protocol.KEEPALIVE, [], 0);
      }
    }
  }

  lemma {:induction false} ServiceKeepsClock(rt: Runtime, k: nat, limit: nat)
    requires CoherentWithin(rt, limit) && k <= |rt.links|
    ensures ServiceFrom(rt, k).transport.lastPoll == rt.transport.lastPoll && ServiceFrom(rt, k).enabled == rt.enabled
    decreases |rt.links| - k
  {
    if k < |rt.links| {
      ServiceSlotClock(rt, k, limit);
      ServiceSlotKeeps(rt, k, limit);
      ServiceKeepsClock(ServiceSlot(rt, k), k + 1, limit);
    }
  }

  /** The poll that times a session out: the runtime still lists the peer, the transport has it loose. */
  lemma PollLoosens(rt: Runtime, slot: nat, id: Byte, j: nat, seen: Word32)
    requires Coherent(rt) && rt.enabled && slot < |rt.links| && rt.links[slot].active && rt.links[slot].id == id
    requires Elapsed(rt.now, rt.links[slot].lastActivity) >= SESSION_TIMEOUT_MS - Transport.POLL_TICK_MS
    requires Primed(rt.transport, id, j, seen)
    ensures var r := Poll(rt);
            && Loose(r.transport, id, j, seen) && id in r.connected && r.enabled
            && r.transport.lastPoll == Wrap32(rt.transport.lastPoll + Transport.POLL_TICK_MS)
  {
    var limit := SESSION_TIMEOUT_MS + Transport.POLL_TICK_MS;
    var a := Ticked(rt);
    ElapsedTick(rt.now, rt.links[slot].lastActivity);
    TickPrimed(rt.transport, id, j, seen);
    TickedKeeps(rt);
    ReconcileKeeps(a, 0, limit);
    ReconcileFrame(a, 0);
    ReconcileKeepsSession(a, 0, slot, limit);
    var b := ReconcileFrom(a, 0);
    assert Expiring(b, slot, id);
    ServiceLoosens(b, 0, slot, id, j, seen, limit);
    ServiceKeepsClock(b, 0, limit);
  }

  // --- the disconnect in the gap ---

  lemma DisconnectChangesNothing(rt: Runtime, id: Byte)
    requires Coherent(rt) && id in rt.connected && id !in rt.transport.connected
    ensures var d := Disconnect(rt, id);
            && d.ok && d.rt.transport == Transport.Fault(rt.transport, Transport.NotConnected)
               && d.rt.enabled == rt.enabled
            && !Active(d.rt.links, id)
  {
    RuntimeHold.DisconnectTransport(rt, id);
    assert Farewell(rt, id) == rt;
    DisconnectKeeps(rt, id);
  }

  lemma {:induction false} ServiceSpares(rt: Runtime, k: nat, id: Byte, j: nat, seen: Word32, limit: nat)
    requires CoherentWithin(rt, limit) && k <= |rt.links| && Primed(rt.transport, id, j, seen)
    requires id in rt.transport.connected && !Active(rt.links, id)
    ensures id in ServiceFrom(rt, k).transport.connected
    decreases |rt.links| - k
  {
    if k < |rt.links| {
      var s := ServiceSlot(rt, k);
      ServiceSlotPrimed(rt, k, id, j, seen, limit);
      ServiceSlotServices(rt, k, limit);
      ServiceSlotKeeps(rt, k, limit);
      ServiceSpares(s, k + 1, id, j, seen, limit);
    }
  }

  predicate Fresh(t: Transport.State, seen: Word32, ticks: nat) {
    var at := Wrap32(t.lastPoll + ticks * Transport.POLL_TICK_MS);
    at < seen || at - seen <= Transport.DISCOVERY_TIMEOUT_MS
  }

  lemma FreshNext(t: Transport.State, t': Transport.State, seen: Word32)
    requires t'.lastPoll == Wrap32(t.lastPoll + Transport.POLL_TICK_MS) && Fresh(t, seen, 2)
    ensures Fresh(t', seen, 1)
  {
  }

  lemma TickFetches(t: Transport.State, id: Byte, j: nat, seen: Word32)
    requires Tables.WellFormed(t) && t.enabled && Loose(t, id, j, seen) && Fresh(t, seen, 1)
    ensures Primed(Transport.Tick(t), id, j, seen) && id in Transport.Tick(t).connected
  {
    var s := t.(lastPoll := Wrap32(t.lastPoll + Transport.POLL_TICK_MS));
    TransportPoll.PollExact(s);
    assert TransportPoll.Wanted(s, s.discovered[j]);
    TransportPoll.PollConnects(s, id);
  }

  /** A loose peer that is not stale at the next tick is fetched back by the next poll. */
  lemma PollFetches(rt: Runtime, id: Byte, j: nat, seen: Word32)
    requires Coherent(rt) && rt.enabled && !Active(rt.links, id)
    requires Loose(rt.transport, id, j, seen) && Fresh(rt.transport, seen, 1)
    ensures id in Poll(rt).transport.connected
  {
    var limit := SESSION_TIMEOUT_MS + Transport.POLL_TICK_MS;
    TickFetches(rt.transport, id, j, seen);
    var a := Ticked(rt);
    TickedKeeps(rt);
    ReconcileKeeps(a, 0, limit);
    ReconcileFrame(a, 0);
    var b := ReconcileFrom(a, 0);
    assert !Active(b.links, id);
    ServiceSpares(b, 0, id, j, seen, limit);
  }

  lemma GapDisconnectUndone(rt: Runtime, id: Byte, j: nat, seen: Word32)
    requires Coherent(rt) && rt.enabled && id in rt.connected
    requires Loose(rt.transport, id, j, seen) && Fresh(rt.transport, seen, 1)
    ensures Disconnect(rt, id).ok && id in Poll(Disconnect(rt, id).rt).transport.connected
  {
    DisconnectChangesNothing(rt, id);
    DisconnectKeeps(rt, id);
    PollFetches(Disconnect(rt, id).rt, id, j, seen);
  }

  /**
   From any reachable state with a session one tick short of timing out whose peer is remembered, ready for audio and
   recently reported: poll, disconnect that peer with reported success, poll again, and it is connected.
   */
  lemma DisconnectUndone(rt: Runtime, slot: nat, id: Byte, j: nat, seen: Word32)
    requires Coherent(rt) && rt.enabled && slot < |rt.links| && rt.links[slot].active && rt.links[slot].id == id
    requires Elapsed(rt.now, rt.links[slot].lastActivity) >= SESSION_TIMEOUT_MS - Transport.POLL_TICK_MS
    requires Primed(rt.transport, id, j, seen) && Fresh(rt.transport, seen, 2)
    ensures Disconnect(Poll(rt), id).ok
    ensures id in Poll(Disconnect(Poll(rt), id).rt).transport.connected
  {
    PollLoosens(rt, slot, id, j, seen);
    PollKeeps(rt);
    FreshNext(rt.transport, Poll(rt).transport, seen);
    GapDisconnectUndone(Poll(rt), id, j, seen);
  }
}
