/** When each command on the transport succeeds, and what the caller then finds in the tables. */
module TransportOutcomes {
  import opened Machine
  import opened Sequences
  import opened TransportSpec
  import opened TransportInvariant

  /** What the transport knows about a peer: its entry, or the blank one it would be given. */
  function Entry(ps: seq<Peer>, id: Byte): Peer {
    var k := Find(ps, id);
    if k < |ps| then ps[k] else NO_PEER.(valid := true, id := id)
  }

  ghost predicate Findable(ps: seq<Peer>, id: Byte) { Known(ps, id) || CountValid(ps) < |ps| }

  predicate Memorable(t: State, id: Byte) { id in t.remembered || |t.remembered| < MAX_PEERS }

  /** Reported as ready, or never reported and without a pairing under way. */
  predicate AudioCapable(p: Peer) { p.audioReady || (p.lastSeen == 0 && !p.pending) }

  /** Only the slot of id was written, and it was free or id's own before. */
  ghost predicate OnlyEntryOf(ps: seq<Peer>, ps': seq<Peer>, id: Byte) {
    && |ps'| == |ps|
    && forall i :: 0 <= i < |ps| ==> ps'[i] == ps[i] || (Holds(ps'[i], id) && (Holds(ps[i], id) || !ps[i].valid))
  }

  lemma FindIff(ps: seq<Peer>, id: Byte)
    ensures Find(ps, id) < |ps| <==> Known(ps, id)
    ensures FindFree(ps) < |ps| <==> CountValid(ps) < |ps|
  {
    CountFull(ps);
    if Find(ps, id) < |ps| { assert Holds(ps[Find(ps, id)], id); }
  }

  /** Opening an entry succeeds exactly for a peer id that is known or still fits, and gives its entry. */
  lemma OpenOutcome(t: State, id: Byte)
    requires WellFormed(t)
    ensures var o := Open(t, id);
            && (o.slot < |t.discovered| <==> id != 0 && id != t.localId && Findable(t.discovered, id))
            && (o.slot < |t.discovered| ==> o.state.discovered[o.slot] == Entry(t.discovered, id))
            && (o.slot == |t.discovered| ==> o.state == t)
            && OnlyEntryOf(t.discovered, o.state.discovered, id)
            && o.state.connected == t.connected && o.state.remembered == t.remembered && o.state.lastPoll == t.lastPoll
  {
    FindIff(t.discovered, id);
  }

  lemma EntryAt(ps: seq<Peer>, localId: Byte, k: nat)
    requires DiscoveredOk(ps, localId) && k < |ps| && ps[k].valid
    ensures Entry(ps, ps[k].id) == ps[k]
  {
    assert Holds(ps[k], ps[k].id);
  }

  /** A connect succeeds exactly under these conditions; the peer limit never refuses it. */
  lemma ConnectOkIff(t: State, id: Byte)
    requires WellFormed(t)
    ensures Connect(t, id).ok <==>
            && t.enabled && id != 0 && Memorable(t, id)
            && (id in t.connected
                || (id != t.localId && Findable(t.discovered, id) && AudioCapable(Entry(t.discovered, id))))
    ensures Connect(t, id).state.connected == if Connect(t, id).ok && id !in t.connected then t.connected + [id]
            else t.connected
  {
    var r := Remember(t, id);
    if t.enabled && id != 0 && r.ok && id !in t.connected {
      RememberKeeps(t, id);
      OpenOutcome(r.state, id);
      var o := Open(r.state, id);
      if o.slot < |t.discovered| {
        OpenKeepsWellFormed(r.state, id);
        ConnectSlotOutcome(o.state, o.slot, id);
      }
    }
  }

  lemma ConnectSlotOutcome(t: State, k: nat, id: Byte)
    requires WellFormed(t) && k < |t.discovered| && Holds(t.discovered[k], id) && id !in t.connected
    ensures var r := ConnectSlot(t, k, id); var p := t.discovered[k];
            && (r.ok <==> AudioCapable(p))
            && r.state.connected == (if r.ok then t.connected + [id] else t.connected)
            && (r.ok ==> r.state.discovered == t.discovered[k := Connected(p, t.lastPoll)])
  {
    RoomForDiscovered(t, k);
    var p := AssumeReady(t.discovered[k]);
    if p.audioReady {
      var p' := p.(pending := true, disconnectRequested := false, reconnectBlocked := false);
      assert t.discovered[k := p'][k := Connected(p, t.lastPoll)] == t.discovered[k := Connected(p, t.lastPoll)];
    }
  }

  function Connected(p: Peer, at: Word32): Peer {
    p.(audioReady := true, paired := true, pending := false, disconnectRequested := false, reconnectBlocked := false,
        lastConnected := at)
  }

  /**
   What a connect that succeeds leaves: the peer remembered, connected and unsuppressed, every other entry as it was.
   */
  lemma ConnectMakes(t: State, id: Byte)
    requires WellFormed(t) && Connect(t, id).ok && id !in t.connected
    ensures var t' := Connect(t, id).state;
            && id in t'.remembered && id in t'.connected
            && Entry(t'.discovered, id) == Connected(Entry(t.discovered, id), t.lastPoll)
            && OnlyEntryOf(t.discovered, t'.discovered, id)
  {
    var r := Remember(t, id);
    RememberKeeps(t, id);
    OpenOutcome(r.state, id);
    var o := Open(r.state, id);
    OpenKeepsWellFormed(r.state, id);
    ConnectSlotOutcome(o.state, o.slot, id);
    ConnectKeeps(t, id);
    var t' := Connect(t, id).state;
    EntryAt(t'.discovered, t'.localId, o.slot);
  }

  /** A restore succeeds exactly when the peer is or can be remembered, connects nothing and lifts any suppression. */
  lemma RestoreOutcome(t: State, id: Byte)
    requires WellFormed(t)
    ensures var r := Restore(t, id);
            && (r.ok <==> id != 0 && Memorable(t, id))
            && r.state.connected == t.connected
            && (r.ok ==> id in r.state.remembered)
            && (r.ok && id != t.localId && Findable(t.discovered, id) ==>
                  Entry(r.state.discovered, id)
                  == Entry(t.discovered, id).(paired := true, disconnectRequested := false, reconnectBlocked := false))
            && OnlyEntryOf(t.discovered, r.state.discovered, id)
  {
    if id != 0 && Remember(t, id).ok {
      RememberKeeps(t, id);
      var r := Remember(t, id).state;
      OpenOutcome(r, id);
      var o := Open(r, id);
      if o.slot < |t.discovered| {
        RestoreKeeps(t, id);
        var t' := Restore(t, id).state;
        EntryAt(t'.discovered, t'.localId, o.slot);
      }
    }
  }

  /** A report succeeds exactly for a foreign peer with an entry or room for one, and refreshes that entry only. */
  lemma ReportOutcome(t: State, id: Byte, ready: bool)
    requires WellFormed(t)
    ensures var r := Report(t, id, ready); var p := Entry(t.discovered, id);
            && (r.ok <==> id != 0 && id != t.localId && Findable(t.discovered, id))
            && r.state.connected == t.connected && r.state.remembered == t.remembered
            && (r.ok ==> Entry(r.state.discovered, id)
                         == p.(audioReady := ready, lastSeen := t.lastPoll, paired := p.paired || id in t.remembered))
            && OnlyEntryOf(t.discovered, r.state.discovered, id)
  {
    OpenOutcome(t, id);
    var o := Open(t, id);
    if o.slot < |t.discovered| && id != 0 && id != t.localId {
      ReportKeeps(t, id, ready);
      var t' := Report(t, id, ready).state;
      EntryAt(t'.discovered, t'.localId, o.slot);
    }
  }

  /**
   A packet is queued exactly when the transport is on, the packet carries something, one of its ends is connected and
   fewer than sixteen are queued. It goes to the end, cut to 256 bytes. A full queue counts it as dropped.
   */
  lemma QueueOutcome(t: State, source: Byte, target: Byte, payload: seq<Byte>, number: nat)
    ensures var r := QueuePacket(t, source, target, payload, number); var f := t.fifo;
            var open := t.enabled && payload != [] && (source in t.connected || target in t.connected);
            && (r.ok <==> open && |f.queue| < 16)
            && r.state == t.(fifo := r.state.fifo, status := r.state.status)
            && (r.ok ==> r.state.fifo == f.(
                  queue := f.queue + [Packet(source, target, payload[..if |payload| < 256 then |payload| else 256],
                      number)],
                  queued := f.queued + 1, lastSource := source, lastTarget := target))
            && (!r.ok ==> r.state.fifo == f.(dropped := f.dropped + if open then 1 else 0))
  {
    assert payload[..|payload|] == payload;
  }

  /** The entry of a peer taken out at the given time: suppressed, and one attempt further. */
  function Suppressing(p: Peer, at: Word32): Peer {
    p.(paired := true, pending := false, disconnectRequested := true, reconnectBlocked := true,
    lastDisconnected := at, reconnectAttempts := Wrap16(p.reconnectAttempts + 1))
  }

  /**
   A disconnect succeeds exactly for a connected peer. It takes that peer and its packets out, suppresses it, and leaves
   the order of the others, their entries and what is remembered alone.
   */
  lemma DisconnectOutcome(t: State, id: Byte)
    requires WellFormed(t)
    ensures var r := Disconnect(t, id); var p := Entry(t.discovered, id);
            && (r.ok <==> id in t.connected)
            && r.state.connected == RemoveFirst(t.connected, id) && r.state.remembered == t.remembered
            && (forall x :: x in r.state.connected <==> x in t.connected && x != id)
            && (r.ok ==> Entry(r.state.discovered, id) == Suppressing(p, t.lastPoll))
            && (r.ok ==> r.state.fifo.queue == DropPeer(t.fifo.queue, id))
            && OnlyEntryOf(t.discovered, r.state.discovered, id)
  {
    RemoveFirstMembers(t.connected, id);
    if id in t.connected { DisconnectEntry(t, id); }
  }

  lemma DisconnectEntry(t: State, id: Byte)
    requires WellFormed(t) && id in t.connected
    ensures var t' := Disconnect(t, id).state; var p := Entry(t.discovered, id);
            && Entry(t'.discovered, id) == Suppressing(p, t.lastPoll)
            && OnlyEntryOf(t.discovered, t'.discovered, id)
  {
    FindIff(t.discovered, id);
    DisconnectKeeps(t, id);
    var k, t' := Find(t.discovered, id), Disconnect(t, id).state;
    EntryAt(t'.discovered, t'.localId, k);
  }

  // --- refusals, and the codes they leave ---

  /**
   Why a connect is refused and what it leaves: nothing when it is not even tried, the peer limit when it cannot be
   remembered, and otherwise the peer remembered, with a pairing pending when only its audio is missing.
   */
  lemma ConnectRefused(t: State, id: Byte)
    requires WellFormed(t) && !Connect(t, id).ok
    ensures var t' := Connect(t, id).state; var known := id != t.localId && Findable(t.discovered, id);
            && t'.connected == t.connected && t'.fifo == t.fifo
            && (!t.enabled || id == 0 ==> t' == t)
            && (t.enabled && id != 0 && !Memorable(t, id) ==>
               t' == t.(status := Status(true, PeerLimit, t.status.pendingPair)))
            && (t.enabled && id != 0 && Memorable(t, id) ==>
                  && id in t'.remembered
                  && t'.status == Status(true, if known then AudioUnavailable else Undiscovered, t.status.pendingPair)
                  && (known ==> Entry(t'.discovered, id) == Entry(t.discovered, id).(pending := true))
                  && (!known ==> t'.discovered == t.discovered))
  {
    RememberKeeps(t, id);
    var r := Remember(t, id);
    if t.enabled && id != 0 && r.ok && id !in t.connected {
      OpenOutcome(r.state, id);
      OpenKeepsWellFormed(r.state, id);
      if Open(r.state, id).slot < |t.discovered| { SlotRefused(t, id); }
    }
  }

  lemma SlotRefused(t: State, id: Byte)
    requires WellFormed(t) && t.enabled && id != 0 && Remember(t, id).ok && id !in t.connected && !Connect(t, id).ok
    requires Open(Remember(t, id).state, id).slot < |t.discovered|
    ensures var t' := Connect(t, id).state;
            && id in t'.remembered && t'.connected == t.connected
            && t'.status == Status(true, AudioUnavailable, t.status.pendingPair)
            && Entry(t'.discovered, id) == Entry(t.discovered, id).(pending := true)
  {
    var r := Remember(t, id).state;
    RememberKeeps(t, id);
    OpenOutcome(r, id);
    OpenKeepsWellFormed(r, id);
    var o := Open(r, id);
    ConnectSlotOutcome(o.state, o.slot, id);
    var t' := Connect(t, id).state;
    ConnectKeeps(t, id);
    EntryAt(t'.discovered, t'.localId, o.slot);
  }

  /** What succeeds clears the last error and, when it settles a pairing, the pending one; the sticky flag stays. */
  lemma SuccessClears(t: State, id: Byte, ready: bool)
    requires WellFormed(t)
    ensures Connect(t, id).ok ==> Connect(t, id).state.status
                                  == Status(t.status.error, NoError, if id in t.connected then t.status.pendingPair
                                      else 0)
    ensures Disconnect(t, id).ok ==> Disconnect(t, id).state.status == Status(t.status.error, NoError, 0)
    ensures Restore(t, id).ok ==> Restore(t, id).state.status == Status(t.status.error, NoError, t.status.pendingPair)
    ensures Report(t, id, ready).ok ==>
              Report(t, id, ready).state.status == Status(t.status.error, NoError, t.status.pendingPair)
  {
    if Connect(t, id).ok { ConnectClears(t, id); }
    if Disconnect(t, id).ok { DisconnectClears(t, id); }
    if Restore(t, id).ok { RestoreClears(t, id); }
    if Report(t, id, ready).ok { ReportClears(t, id, ready); }
  }

  lemma DisconnectClears(t: State, id: Byte)
    requires Disconnect(t, id).ok
    ensures Disconnect(t, id).state.status == Status(t.status.error, NoError, 0)
  {
  }

  lemma RestoreClears(t: State, id: Byte)
    requires Restore(t, id).ok
    ensures Restore(t, id).state.status == Status(t.status.error, NoError, t.status.pendingPair)
  {
  }

  lemma ReportClears(t: State, id: Byte, ready: bool)
    requires Report(t, id, ready).ok
    ensures Report(t, id, ready).state.status == Status(t.status.error, NoError, t.status.pendingPair)
  {
  }

  lemma ConnectClears(t: State, id: Byte)
    requires WellFormed(t) && Connect(t, id).ok
    ensures Connect(t, id).state.status
            == Status(t.status.error, NoError, if id in t.connected then t.status.pendingPair else 0)
  {
    if id !in t.connected {
      RememberKeeps(t, id);
      var r := Remember(t, id).state;
      OpenOutcome(r, id);
      OpenKeepsWellFormed(r, id);
      var o := Open(r, id);
      RoomForDiscovered(o.state, o.slot);
    }
  }

  /** What is refused sets the sticky flag and says why, except a full queue, which sets only the code. */
  lemma RefusalTells(t: State, id: Byte, ready: bool, source: Byte, payload: seq<Byte>, number: nat)
    requires WellFormed(t)
    ensures !Disconnect(t, id).ok ==>
            Disconnect(t, id).state == t.(status := Status(true, NotConnected, t.status.pendingPair))
    ensures !Restore(t, id).ok ==>
              Restore(t, id).state == if id == 0 then t else t.(status := Status(true, PeerLimit, t.status.pendingPair))
    ensures !Report(t, id, ready).ok ==> Report(t, id, ready).state == if id == 0 || id == t.localId then t
                                         else t.(status := Status(true, PeerLimit, t.status.pendingPair))
    ensures var q := QueuePacket(t, source, id, payload, number);
            var listed := source in t.connected || id in t.connected;
            q.state.status == (if !t.enabled || payload == [] then t.status
                               else if !listed then Status(true, NotConnected, t.status.pendingPair)
                               else if q.ok then t.status.(lastError := NoError) else t.status.(lastError := QueueFull))
  {
    OpenOutcome(t, id);
  }

  /**
   A clear succeeds exactly when there was something of the peer to clear: its remembered place, an entry where it looks
   for one, or a pending pairing. It forgets the peer, and connects or disconnects nobody.
   */
  lemma ClearOutcome(t: State, id: Byte)
    requires WellFormed(t)
    ensures var c := ClearPairing(t, id);
            && (c.ok <==> id != 0 && (id in t.remembered || Known(t.discovered[..t.discoveredCount], id)
                                      || t.status.pendingPair == id))
            && c.state.connected == t.connected && c.state.fifo == t.fifo
            && (id != 0 ==> forall x :: x in c.state.remembered <==> x in t.remembered && x != id)
            && (id != 0 ==>
                  c.state.status == t.status.(pendingPair := if t.status.pendingPair == id then 0
                      else t.status.pendingPair))
  {
    if id != 0 {
      WithoutMembers(t.remembered, id);
      KeepOthersShape(t.discovered[..t.discoveredCount], id);
    }
  }

  /** Switching clears the sticky flag, and switching off the pending pairing too; the tables and the queue stay. */
  lemma SwitchOutcome(t: State, on: bool)
    ensures SetEnabled(t, on) == t.(enabled := on, backendReady := on,
                                 status := Status(false, t.status.lastError, if on then t.status.pendingPair else 0))
  {
    assert SetEnabled(t, on).connected == t.connected;
  }
}
