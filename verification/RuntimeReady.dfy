/** When the stored count of ready sessions is exact, and when active sessions have ids. */
module RuntimeReady {
  import opened Machine
  import opened RuntimeSpec
  import opened RuntimeInvariant
  import opened RuntimeSteps
  import opened RuntimeRuns
  import Protocol
  import Transport = TransportSpec

  predicate IsReady(l: Link) { l.valid && l.active && l.state == Ready }

  ghost predicate ReadyExact(rt: Runtime) { rt.readyCount == CountReady(rt.links) }

  ghost predicate SameReady(a: Runtime, b: Runtime) {
    && b.readyCount == a.readyCount && |b.links| == |a.links|
    && forall i :: 0 <= i < |a.links| ==> IsReady(b.links[i]) == IsReady(a.links[i])
  }

  lemma {:induction false} CountSame(a: seq<Link>, b: seq<Link>)
    requires |a| == |b| && forall i :: 0 <= i < |a| ==> IsReady(a[i]) == IsReady(b[i])
    ensures CountReady(a) == CountReady(b)
  {
    if a != [] { CountSame(a[1..], b[1..]); }
  }

  lemma {:induction false} CountZero(links: seq<Link>)
    ensures CountReady(links) == 0 <==> forall i :: 0 <= i < |links| ==> !IsReady(links[i])
  {
    if links != [] {
      CountZero(links[1..]);
      assert forall i :: 0 < i < |links| ==> links[i] == links[1..][i - 1];
    }
  }

  lemma {:induction false} CountFlip(links: seq<Link>, k: nat, l: Link)
    requires k < |links|
    ensures CountReady(links[k := l]) ==
            CountReady(links) - (if IsReady(links[k]) then 1 else 0) + (if IsReady(l) then 1 else 0)
  {
    if k == 0 {
      assert links[k := l][1..] == links[1..];
    } else {
      assert links[k := l][1..] == links[1..][k - 1 := l];
      CountFlip(links[1..], k - 1, l);
    }
  }

  lemma SameReadyExact(a: Runtime, b: Runtime)
    requires SameReady(a, b)
    ensures ReadyExact(b) <==> ReadyExact(a)
  {
    CountSame(a.links, b.links);
  }

  lemma SentSameReady(a: Runtime, b: Runtime)
    requires LinksOk(a.links) && Sent(a, b)
    ensures SameReady(a, b)
  {
    forall i | 0 <= i < |a.links| ensures IsReady(b.links[i]) == IsReady(a.links[i]) {
      assert LinkKept(a.links[i], b.links[i]);
    }
  }

  lemma SentExact(a: Runtime, b: Runtime)
    requires LinksOk(a.links) && Sent(a, b)
    ensures ReadyExact(b) <==> ReadyExact(a)
  {
    SentSameReady(a, b);
    SameReadyExact(a, b);
  }

  // --- the steps that recount ---

  lemma NoteExact(rt: Runtime, id: Byte)
    requires ReadyExact(rt)
    ensures ReadyExact(NoteDisconnected(rt, id))
  {
  }

  lemma ReleaseExact(rt: Runtime, id: Byte, limit: nat)
    requires CoherentWithin(rt, limit) && id !in rt.transport.connected && ReadyExact(rt)
    ensures ReadyExact(Release(rt, id))
  {
    var k := FindLink(rt.links, id);
    if k < |rt.links| && !rt.links[k].remembered {
      assert !rt.links[k].active;
      SameReadyExact(rt, Release(rt, id));
    }
  }

  lemma ReconcileSlotExact(rt: Runtime, k: nat, limit: nat)
    requires CoherentWithin(rt, limit) && k < |rt.links| && ReadyExact(rt)
    ensures ReadyExact(ReconcileSlot(rt, k))
  {
    var l := rt.links[k];
    if l.valid {
      if l.id in rt.connected {
        SameReadyExact(rt, ReconcileSlot(rt, k));
      } else {
        var r := NoteDisconnected(rt, l.id);
        NoteExact(rt, l.id);
        AlreadyParted(rt, l.id, limit);
        NoteDisconnectedKeeps(rt, l.id, rt.transport, limit);
        assert r.(transport := rt.transport) == r;
        FindOwner(rt.links, k);
        ReleaseExact(r, l.id, limit);
      }
    }
  }

  lemma {:induction false} ReconcileExact(rt: Runtime, k: nat, limit: nat)
    requires CoherentWithin(rt, limit) && k <= |rt.links| && ReadyExact(rt)
    ensures ReadyExact(ReconcileFrom(rt, k))
    decreases |rt.links| - k
  {
    if k < |rt.links| {
      ReconcileSlotExact(rt, k, limit);
      ReconcileSlotKeeps(rt, k, limit);
      ReconcileExact(ReconcileSlot(rt, k), k + 1, limit);
    }
  }

  lemma ServiceSlotExact(rt: Runtime, k: nat, limit: nat)
    requires CoherentWithin(rt, limit) && k < |rt.links| && ReadyExact(rt)
    ensures ReadyExact(ServiceSlot(rt, k))
  {
    var l := rt.links[k];
    if l.valid && l.id in rt.connected {
      if !l.active {
        QueueMessageSent(rt, l.id, Protocol.HELLO, Identity(rt.localId), 0);
        SentExact(rt, SendHello(rt, l.id, Protocol.HELLO).rt);
      } else if Elapsed(rt.now, l.lastActivity) >= SESSION_TIMEOUT_MS {
        TimeOutIsTearDown(rt, k);
        NoteExact(rt, l.id);
      } else {
        QueueMessageSent(rt, l.id, Protocol.KEEPALIVE, [], 0);
        SentExact(rt, QueueMessage(rt, l.id, Protocol.KEEPALIVE, [], 0).rt);
      }
    }
  }

  lemma {:induction false} ServiceExact(rt: Runtime, k: nat, limit: nat)
    requires CoherentWithin(rt, limit) && k <= |rt.links| && ReadyExact(rt)
    ensures ReadyExact(ServiceFrom(rt, k))
    decreases |rt.links| - k
  {
    if k < |rt.links| {
      ServiceSlotExact(rt, k, limit);
      ServiceSlotKeeps(rt, k, limit);
      ServiceExact(ServiceSlot(rt, k), k + 1, limit);
    }
  }

  lemma PollExact(rt: Runtime)
    requires Coherent(rt) && ReadyExact(rt)
    ensures ReadyExact(Poll(rt))
  {
    if rt.enabled {
      var limit := SESSION_TIMEOUT_MS + Transport.POLL_TICK_MS;
      TickedKeeps(rt);
      ReconcileExact(Ticked(rt), 0, limit);
      ReconcileKeeps(Ticked(rt), 0, limit);
      ServiceExact(ReconcileFrom(Ticked(rt), 0), 0, limit);
    }
  }

  lemma ConnectExact(rt: Runtime, id: Byte)
    requires Coherent(rt) && ReadyExact(rt)
    ensures ReadyExact(Connect(rt, id).rt)
  {
    OpenLinkShape(rt.links, id);
    var r := Connect(rt, id).rt;
    var o := OpenLink(rt.links, id);
    forall i | 0 <= i < |rt.links| ensures IsReady(r.links[i]) == IsReady(rt.links[i]) {
    }
    SameReadyExact(rt, r);
  }

  lemma SeverExact(rt: Runtime, id: Byte)
    requires Coherent(rt) && ReadyExact(rt)
    ensures ReadyExact(Sever(rt, id))
  {
    SeverShape(rt, id);
    var r := Severed(rt, id);
    NoteExact(rt, id);
    assert ReadyExact(r);
    ReleaseExact(r, id, SESSION_TIMEOUT_MS);
  }

  lemma DisconnectExact(rt: Runtime, id: Byte)
    requires Coherent(rt) && ReadyExact(rt)
    ensures ReadyExact(Disconnect(rt, id).rt)
  {
    if id in rt.connected {
      FarewellKeeps(rt, id);
      SentExact(rt, Farewell(rt, id));
      SeverExact(Farewell(rt, id), id);
    }
  }

  // --- the steps that do not recount ---

  /** No session but that of `id` is ready. */
  ghost predicate OnlyReady(links: seq<Link>, id: Byte) {
    forall i :: 0 <= i < |links| && IsReady(links[i]) ==> links[i].id == id
  }

  ghost predicate NoneReady(links: seq<Link>) {
    forall i :: 0 <= i < |links| ==> !IsReady(links[i])
  }

  lemma SeverReady(rt: Runtime, id: Byte)
    requires Coherent(rt)
    ensures NoneReady(Sever(rt, id).links) <==> OnlyReady(rt.links, id)
  {
    SeverShape(rt, id);
    var r := Severed(rt, id);
    NoteReady(rt, id);
    ReleaseReady(r, id);
  }

  /** Disconnecting ends the session of its own peer and no other. */
  lemma DisconnectReady(rt: Runtime, id: Byte)
    requires Coherent(rt) && id in rt.connected
    ensures NoneReady(Disconnect(rt, id).rt.links) <==> OnlyReady(rt.links, id)
  {
    FarewellKeeps(rt, id);
    var r := Farewell(rt, id);
    SentSameReady(rt, r);
    assert forall i :: 0 <= i < |rt.links| && IsReady(rt.links[i]) ==> LinkKept(rt.links[i], r.links[i]);
    assert forall i :: 0 <= i < |rt.links| && IsReady(rt.links[i]) ==> r.links[i].id == rt.links[i].id;
    SeverReady(r, id);
  }

  lemma NoteReady(rt: Runtime, id: Byte)
    requires LinksOk(rt.links)
    ensures NoneReady(NoteDisconnected(rt, id).links) <==> OnlyReady(rt.links, id)
    ensures var r := NoteDisconnected(rt, id);
            forall i :: 0 <= i < |r.links| && Owns(r.links[i], id) ==> !r.links[i].active
  {
    var k := FindLink(rt.links, id);
    var r := NoteDisconnected(rt, id);
    if k < |rt.links| {
      FindOwner(rt.links, k);
      assert forall i :: 0 <= i < |rt.links| && i != k ==> r.links[i] == rt.links[i];
    }
    assert forall i :: 0 <= i < |rt.links| && Owns(rt.links[i], id) ==> i == k;
  }

  lemma ReleaseReady(rt: Runtime, id: Byte)
    requires forall i :: 0 <= i < |rt.links| && Owns(rt.links[i], id) ==> !rt.links[i].active
    ensures NoneReady(Release(rt, id).links) <==> NoneReady(rt.links)
  {
    var r := Release(rt, id);
    assert forall i :: 0 <= i < |rt.links| ==> IsReady(r.links[i]) == IsReady(rt.links[i]);
  }

  /** Clearing zeroes the count: right exactly when no other peer's session was ready. */
  lemma ClearExactIff(rt: Runtime, id: Byte)
    requires Coherent(rt)
    ensures ReadyExact(ClearPairing(rt, id)) <==> OnlyReady(rt.links, id)
  {
    var c := ClearPairing(rt, id);
    CountZero(c.links);
    var r := if id != 0 then Disconnect(rt, id).rt else rt;
    DisconnectKeeps(rt, id);
    if id in rt.connected && id != 0 {
      DisconnectReady(rt, id);
    } else {
      assert forall i :: 0 <= i < |rt.links| && IsReady(rt.links[i]) ==>
          rt.links[i].id in rt.connected && rt.links[i].id != 0;
    }
    assert NoneReady(r.links) <==> OnlyReady(rt.links, id);
    ClearedSlots(r, id);
  }

  lemma ClearedSlots(rt: Runtime, id: Byte)
    requires Coherent(rt) && id !in rt.transport.connected
    ensures var k := FindLink(rt.links, id);
            var links := if k < |rt.links| then rt.links[k := NO_LINK] else rt.links;
            NoneReady(links) <==> NoneReady(rt.links)
  {
    var k := FindLink(rt.links, id);
    if k < |rt.links| {
      assert !rt.links[k].active;
      var links := rt.links[k := NO_LINK];
      assert forall i :: 0 <= i < |rt.links| ==> IsReady(links[i]) == IsReady(rt.links[i]);
    }
  }

  // --- switching off ---

  /** A link whose peer is gone: reconciling tears it down, and that recounts. */
  predicate Orphan(rt: Runtime, k: nat)
    requires k < |rt.links|
  {
    rt.links[k].valid && rt.links[k].id !in rt.connected
  }

  lemma ReconcileSlotTouches(rt: Runtime, k: nat, limit: nat)
    requires CoherentWithin(rt, limit) && k < |rt.links|
    ensures var r := ReconcileSlot(rt, k);
            && r.connected == rt.connected
            && (forall i :: 0 <= i < |rt.links| && i != k ==> r.links[i] == rt.links[i])
            && IsReady(r.links[k]) == IsReady(rt.links[k])
            && (if Orphan(rt, k) then ReadyExact(r) else r.readyCount == rt.readyCount)
  {
    var l := rt.links[k];
    if Orphan(rt, k) {
      assert !l.active;
      OrphanTornDown(rt, k, limit);
    }
  }

  /** The link of a peer that is gone is reset or freed, and the count taken again. */
  lemma OrphanTornDown(rt: Runtime, k: nat, limit: nat)
    requires CoherentWithin(rt, limit) && k < |rt.links| && Orphan(rt, k) && !rt.links[k].active
    ensures var r := ReconcileSlot(rt, k);
            && r.connected == rt.connected && ReadyExact(r) && !IsReady(r.links[k])
            && (forall i :: 0 <= i < |rt.links| && i != k ==> r.links[i] == rt.links[i])
  {
    var l := rt.links[k];
    FindOwner(rt.links, k);
    var r := NoteDisconnected(rt, l.id);
    FindOwner(r.links, k);
    CountSame(r.links, ReconcileSlot(rt, k).links);
  }

  /** Reconciling ends no ready session, and recounts exactly when there is an orphan to tear down. */
  lemma {:induction false} ReconcileRecounts(rt: Runtime, k: nat, limit: nat)
    requires CoherentWithin(rt, limit) && k <= |rt.links|
    ensures var r := ReconcileFrom(rt, k);
            && (forall i :: 0 <= i < |rt.links| ==> IsReady(r.links[i]) == IsReady(rt.links[i]))
            && (if exists j :: k <= j < |rt.links| && Orphan(rt, j) then ReadyExact(r)
               else r.readyCount == rt.readyCount)
    decreases |rt.links| - k
  {
    if k < |rt.links| {
      var s := ReconcileSlot(rt, k);
      ReconcileSlotTouches(rt, k, limit);
      ReconcileSlotKeeps(rt, k, limit);
      ReconcileRecounts(s, k + 1, limit);
      assert forall j :: k + 1 <= j < |rt.links| ==> Orphan(s, j) == Orphan(rt, j);
      if ReadyExact(s) {
        ReconcileExact(s, k + 1, limit);
      }
    }
  }

  function SwitchedOff(rt: Runtime): Runtime {
    Sync(rt.(enabled := false, transport := Transport.SetEnabled(rt.transport, false), readyCount := 0))
  }

  lemma SwitchedOffCoherent(rt: Runtime)
    requires Coherent(rt)
    ensures Coherent(SwitchedOff(rt))
  {
    var r := rt.(enabled := false, transport := Transport.SetEnabled(rt.transport, false), readyCount := 0);
    assert Coherent(r);
    SyncKeeps(r, SESSION_TIMEOUT_MS);
  }

  /** Some link's peer is not connected in the transport. */
  ghost predicate Stranded(rt: Runtime) {
    exists j :: 0 <= j < |rt.links| && rt.links[j].valid && rt.links[j].id !in rt.transport.connected
  }

  /**
   Switching off zeroes the count without ending a connected session, so the count is right afterwards exactly when
   no session was ready or some link had lost its peer.
   */
  lemma DisableExactIff(rt: Runtime)
    requires Coherent(rt)
    ensures ReadyExact(SetEnabled(rt, false)) <==>
            NoneReady(rt.links) || Stranded(rt)
  {
    var r := SwitchedOff(rt);
    SwitchedOffCoherent(rt);
    ReconcileRecounts(r, 0, SESSION_TIMEOUT_MS);
    CountSame(rt.links, ReconcileFrom(r, 0).links);
    CountZero(rt.links);
    assert forall j :: 0 <= j < |rt.links| ==>
        Orphan(r, j) == (rt.links[j].valid && rt.links[j].id !in rt.transport.connected);
  }

  lemma EnableExact(rt: Runtime)
    requires Coherent(rt) && ReadyExact(rt)
    ensures ReadyExact(SetEnabled(rt, true))
  {
    var r := rt.(enabled := true, transport := Transport.SetEnabled(rt.transport, true));
    assert Coherent(r);
    SyncKeeps(r, SESSION_TIMEOUT_MS);
    ReconcileExact(Sync(r), 0, SESSION_TIMEOUT_MS);
  }

  // --- restoring ---

  /** A peer with a ready session is connected, hence remembered and linked, so restoring it cannot be refused. */
  lemma RestoreReadied(rt: Runtime, id: Byte)
    requires Coherent(rt) && Readied(rt.links, id)
    ensures RestorePairing(rt, id).ok
  {
    var k :| 0 <= k < |rt.links| && IsReady(rt.links[k]) && rt.links[k].id == id;
    FindOwner(rt.links, k);
    assert id in rt.transport.remembered;
  }

  /** Restoring puts the link back to idle without recounting: the count is right exactly when it was not ready. */
  lemma RestoreExactIff(rt: Runtime, id: Byte)
    requires Coherent(rt) && ReadyExact(rt)
    ensures ReadyExact(RestorePairing(rt, id).rt) <==> !Readied(rt.links, id)
  {
    var r := RestorePairing(rt, id);
    OpenLinkShape(rt.links, id);
    var o := OpenLink(rt.links, id);
    if r.ok {
      var l := o.links[o.slot];
      CountFlip(o.links, o.slot, l.(remembered := true, state := Idle));
      CountSame(rt.links, o.links);
      if Readied(rt.links, id) {
        var k :| 0 <= k < |rt.links| && IsReady(rt.links[k]) && rt.links[k].id == id;
        FindOwner(rt.links, k);
      }
    } else {
      SameReadyExact(rt, r.rt);
      if Readied(rt.links, id) { RestoreReadied(rt, id); }
    }
  }

  ghost predicate Readied(links: seq<Link>, id: Byte) {
    exists k :: 0 <= k < |links| && IsReady(links[k]) && links[k].id == id
  }
}
