/** What one poll of the transport does to every slot at once, and that a second poll at the same clock does nothing. */
module TransportPoll {
  import opened Machine
  import opened TransportSpec
  import opened TransportInvariant

  /** The peers a poll reconnects, judged on the tables before the poll. */
  predicate Wanted(t: State, p: Peer) {
    p.valid && !Stale(t, p) && Reconnectable(t, p)
  }

  predicate Forgotten(t: State, p: Peer) {
    Stale(t, p) && Purgeable(t, p)
  }

  function AfterPoll(t: State, p: Peer): Peer {
    if Forgotten(t, p) then NO_PEER
    else if Wanted(t, p) then p.(paired := true, pending := false, lastConnected := t.lastPoll)
    else p
  }

  function WantedIds(t: State, ps: seq<Peer>): seq<Byte> {
    if ps == [] then []
    else
      var last := ps[|ps| - 1];
      WantedIds(t, ps[..|ps| - 1]) + if Wanted(t, last) then [last.id] else []
  }

  lemma {:induction false} WantedMembers(t: State, ps: seq<Peer>, id: Byte)
    ensures id in WantedIds(t, ps) <==> exists k :: 0 <= k < |ps| && Wanted(t, ps[k]) && ps[k].id == id
  {
    if ps != [] {
      WantedMembers(t, ps[..|ps| - 1], id);
    }
  }

  ghost predicate PolledUpTo(t: State, s: State, slot: nat) {
    && slot <= |t.discovered| == |s.discovered|
    && s.localId == t.localId && s.lastPoll == t.lastPoll && s.remembered == t.remembered && s.enabled == t.enabled
    && s.fifo == t.fifo && s.backendReady == t.backendReady
    && (forall j :: 0 <= j < slot ==> s.discovered[j] == AfterPoll(t, t.discovered[j]))
    && (forall j :: slot <= j < |t.discovered| ==> s.discovered[j] == t.discovered[j])
    && s.connected == t.connected + WantedIds(t, t.discovered[..slot])
  }

  lemma FindHolder(ps: seq<Peer>, localId: Byte, k: nat)
    requires DiscoveredOk(ps, localId) && k < |ps| && ps[k].valid
    ensures Find(ps, ps[k].id) == k
  {
    var f := Find(ps, ps[k].id);
    assert Holds(ps[k], ps[k].id);
  }

  /** Connecting a peer that is remembered, known and ready rewrites its slot and appends its id. */
  lemma ConnectKnown(t: State, slot: nat)
    requires WellFormed(t) && t.enabled && slot < |t.discovered| && t.discovered[slot].valid
    requires Reconnectable(t, t.discovered[slot])
    ensures var p := t.discovered[slot];
            var t' := Connect(t, p.id).state;
            && t'.discovered == t.discovered[slot := p.(paired := true, pending := false, lastConnected := t.lastPoll)]
            && t'.connected == t.connected + [p.id]
            && t' == Fine(Pending(t.(discovered := t'.discovered, connected := t'.connected), 0))
  {
    var p := t.discovered[slot];
    FindHolder(t.discovered, t.localId, slot);
    assert Open(t, p.id) == Opened(t, slot);
    RoomForDiscovered(t, slot);
    var p' := p.(pending := true, disconnectRequested := false, reconnectBlocked := false);
    var t1 := Pending(t.(discovered := t.discovered[slot := p']), p.id);
    var done := p.(paired := true, pending := false, lastConnected := t.lastPoll);
    assert t.discovered[slot := p'][slot := done] == t.discovered[slot := done];
    assert Connect(t, p.id) == ConnectSlot(t, slot, p.id);
    assert ConnectSlot(t, slot, p.id).state == MarkConnected(t1, slot);
  }

  /** No earlier slot wanted the id this slot holds, so the slot is judged as on the tables before the poll. */
  lemma JudgedAsBefore(t: State, s: State, slot: nat)
    requires DiscoveredOk(t.discovered, t.localId) && slot < |t.discovered| && PolledUpTo(t, s, slot)
    requires t.discovered[slot].valid
    ensures t.discovered[slot].id in s.connected <==> t.discovered[slot].id in t.connected
  {
    var p, before := t.discovered[slot], t.discovered[..slot];
    WantedMembers(t, before, p.id);
  }

  lemma WantedUpTo(t: State, slot: nat)
    requires slot < |t.discovered|
    ensures WantedIds(t, t.discovered[..slot + 1]) == WantedIds(t, t.discovered[..slot]) +
            if Wanted(t, t.discovered[slot]) then [t.discovered[slot].id] else []
  {
    var upTo := t.discovered[..slot + 1];
    assert upTo[..|upTo| - 1] == t.discovered[..slot] && upTo[|upTo| - 1] == t.discovered[slot];
  }

  lemma ConnectStep(t: State, s: State, slot: nat)
    requires WellFormed(t) && t.enabled && WellFormed(s) && slot < |t.discovered| && PolledUpTo(t, s, slot)
    requires Wanted(t, t.discovered[slot])
    ensures PolledUpTo(t, PollSlot(s, slot), slot + 1)
  {
    JudgedAsBefore(t, s, slot);
    ConnectKnown(s, slot);
    WantedUpTo(t, slot);
    var ids := WantedIds(t, t.discovered[..slot]);
    assert (t.connected + ids) + [t.discovered[slot].id] == t.connected + (ids + [t.discovered[slot].id]);
  }

  /** A slot that is not wanted adds nothing to the connected list. */
  lemma IdleFrame(t: State, s: State, s': State, slot: nat)
    requires slot < |t.discovered| && PolledUpTo(t, s, slot) && !Wanted(t, t.discovered[slot])
    requires s' == s.(discovered := s'.discovered, discoveredCount := s'.discoveredCount)
    requires s'.discovered == s.discovered[slot := AfterPoll(t, t.discovered[slot])]
    ensures PolledUpTo(t, s', slot + 1)
  {
    WantedUpTo(t, slot);
    var ids := WantedIds(t, t.discovered[..slot]);
    assert ids + [] == ids;
  }

  /** What polling does to a slot that is not wanted: it is purged when it is stale and nobody holds on to it. */
  lemma IdleSlot(t: State, s: State, slot: nat)
    requires WellFormed(t) && slot < |t.discovered| && PolledUpTo(t, s, slot) && !Wanted(t, t.discovered[slot])
    ensures PollSlot(s, slot) == if t.discovered[slot].valid && Forgotten(t, t.discovered[slot])
            then Purge(s, slot) else s
    ensures t.discovered[slot].valid && Forgotten(t, t.discovered[slot]) ==> Purgeable(s, s.discovered[slot])
  {
    if t.discovered[slot].valid {
      JudgedAsBefore(t, s, slot);
    }
  }

  lemma IdleStep(t: State, s: State, slot: nat)
    requires WellFormed(t) && slot < |t.discovered| && PolledUpTo(t, s, slot)
    requires !Wanted(t, t.discovered[slot])
    ensures PolledUpTo(t, PollSlot(s, slot), slot + 1)
  {
    IdleSlot(t, s, slot);
    IdleFrame(t, s, PollSlot(s, slot), slot);
  }

  lemma SlotStep(t: State, s: State, slot: nat)
    requires WellFormed(t) && t.enabled && WellFormed(s) && slot < |t.discovered| && PolledUpTo(t, s, slot)
    ensures PolledUpTo(t, PollSlot(s, slot), slot + 1)
  {
    if Wanted(t, t.discovered[slot]) {
      ConnectStep(t, s, slot);
    } else {
      IdleStep(t, s, slot);
    }
  }

  lemma {:induction false} PollFromExact(t: State, s: State, slot: nat)
    requires WellFormed(t) && t.enabled && WellFormed(s) && slot <= |t.discovered| && PolledUpTo(t, s, slot)
    ensures PolledUpTo(t, PollFrom(s, slot), |t.discovered|)
    decreases |t.discovered| - slot
  {
    if slot < |t.discovered| {
      SlotStep(t, s, slot);
      PollSlotKeeps(s, slot);
      PollFromExact(t, PollSlot(s, slot), slot + 1);
    }
  }

  /**
   One poll connects exactly the wanted peers, in slot order, forgets exactly the stale ones nobody holds on to,
   and changes no other slot.
   */
  lemma PollExact(t: State)
    requires WellFormed(t) && t.enabled
    ensures var t' := Poll(t);
            && |t'.discovered| == |t.discovered|
            && (forall k :: 0 <= k < |t.discovered| ==> t'.discovered[k] == AfterPoll(t, t.discovered[k]))
            && t'.connected == t.connected + WantedIds(t, t.discovered)
            && t'.remembered == t.remembered && t'.fifo == t.fifo
            && t'.lastPoll == t.lastPoll && t'.enabled == t.enabled && t'.localId == t.localId
            && t'.backendReady == t.backendReady
    ensures WellFormed(Poll(t))
  {
    assert t.discovered[..0] == [];
    PollFromExact(t, t, 0);
    PollFromKeeps(t, 0);
    assert t.discovered[..|t.discovered|] == t.discovered;
  }

  /** A peer is connected after a poll exactly when it was before or a wanted entry names it. */
  lemma PollConnects(t: State, id: Byte)
    requires WellFormed(t) && t.enabled
    ensures id in Poll(t).connected <==>
            id in t.connected || exists k ::
                0 <= k < |t.discovered| && Wanted(t, t.discovered[k]) && t.discovered[k].id == id
  {
    PollExact(t);
    WantedMembers(t, t.discovered, id);
  }

  /**
   What becomes of one entry, spelled out: it is forgotten after more than five seconds without a report unless somebody
   holds on to it, reconnected when it is remembered, ready and not suppressed, and otherwise left as it was.
   */
  lemma EntryFate(t: State, k: nat)
    requires WellFormed(t) && t.enabled && k < |t.discovered| && t.discovered[k].valid
    ensures |Poll(t).discovered| == |t.discovered|
    ensures var p, p' := t.discovered[k], Poll(t).discovered[k];
            var stale := t.lastPoll - p.lastSeen > 5000;
            if stale && p.id !in t.connected && p.id !in t.remembered && !p.pending then p' == NO_PEER
            else if !stale && p.id !in t.connected && p.id in t.remembered && p.audioReady && !p.reconnectBlocked
                    && !p.disconnectRequested
            then p' == p.(paired := true, pending := false, lastConnected := t.lastPoll) && p.id in Poll(t).connected
            else p' == p
  {
    PollExact(t);
    PollConnects(t, t.discovered[k].id);
  }

  lemma {:induction false} NothingWanted(t: State, ps: seq<Peer>)
    requires forall k :: 0 <= k < |ps| ==> !Wanted(t, ps[k])
    ensures WantedIds(t, ps) == []
  {
    if ps != [] {
      NothingWanted(t, ps[..|ps| - 1]);
    }
  }

  /** Polling again at the same clock leaves all tables as they are. */
  lemma PollTwice(t: State)
    requires WellFormed(t) && t.enabled
    ensures var t' := Poll(t);
            && Poll(t').discovered == t'.discovered && Poll(t').connected == t'.connected
            && Poll(t').remembered == t'.remembered && Poll(t').discoveredCount == t'.discoveredCount
  {
    var t' := Poll(t);
    PollExact(t);
    PollExact(t');
    forall k | 0 <= k < |t.discovered|
      ensures !Wanted(t', t'.discovered[k]) && AfterPoll(t', t'.discovered[k]) == t'.discovered[k]
    {
      var p := t.discovered[k];
      WantedMembers(t, t.discovered, p.id);
    }
    NothingWanted(t', t'.discovered);
    assert Poll(t').discovered == t'.discovered;
  }
}
