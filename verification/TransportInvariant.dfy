/** Well-formedness of the transport tables, kept by every operation and so by every run. */
module TransportInvariant {
  import opened Machine
  import opened Sequences
  import opened TransportSpec

  function CountValid(ps: seq<Peer>): (n: nat)
    ensures n <= |ps|
  {
    if ps == [] then 0 else (if ps[0].valid then 1 else 0) + CountValid(ps[1..])
  }

  ghost predicate Known(ps: seq<Peer>, id: Byte) {
    exists k :: 0 <= k < |ps| && Holds(ps[k], id)
  }

  ghost predicate DiscoveredOk(ps: seq<Peer>, localId: Byte) {
    && |ps| == MAX_PEERS
    && (forall i :: 0 <= i < |ps| && ps[i].valid ==> ps[i].id != 0 && ps[i].id != localId)
    && (forall i :: 0 <= i < |ps| && !ps[i].valid ==> ps[i] == NO_PEER)
    && (forall i, j :: 0 <= i < j < |ps| && ps[i].valid && ps[j].valid ==> ps[i].id != ps[j].id)
  }

  ghost predicate ListsOk(t: State) {
    && |t.connected| <= MAX_PEERS && |t.remembered| <= MAX_PEERS
    && NoDup(t.connected) && NoDup(t.remembered)
    && 0 !in t.remembered && t.localId !in t.connected && t.localId != 0
    && (forall id :: id in t.connected ==> id in t.remembered)
  }

  ghost predicate QueueOk(t: State) {
    && |t.fifo.queue| <= QUEUE_DEPTH
    && AllReachable(t.connected, t.fifo.queue)
  }

  ghost predicate AllReachable(connected: seq<Byte>, queue: seq<Packet>) {
    forall k :: 0 <= k < |queue| ==> Endpoint(connected, queue[k])
  }

  predicate Endpoint(connected: seq<Byte>, p: Packet) {
    p.source in connected || p.target in connected
  }

  /** The four tables agree: connected peers are remembered and discovered, and the stored counts are exact. */
  ghost predicate WellFormed(t: State) {
    && DiscoveredOk(t.discovered, t.localId)
    && ListsOk(t)
    && (forall id :: id in t.connected ==> Known(t.discovered, id))
    && t.discoveredCount == CountValid(t.discovered)
    && QueueOk(t)
  }

  // --- counting ---

  lemma {:induction false} CountUpdate(ps: seq<Peer>, k: nat, p: Peer)
    requires k < |ps|
    ensures CountValid(ps[k := p]) ==
            CountValid(ps) - (if ps[k].valid then 1 else 0) + (if p.valid then 1 else 0)
  {
    if k == 0 {
      assert ps[k := p][1..] == ps[1..];
    } else {
      assert ps[k := p][1..] == ps[1..][k - 1 := p];
      CountUpdate(ps[1..], k - 1, p);
    }
  }

  lemma {:induction false} CountSplit(a: seq<Peer>, b: seq<Peer>)
    ensures CountValid(a + b) == CountValid(a) + CountValid(b)
  {
    if a == [] {
      assert a + b == b;
    } else {
      assert (a + b)[1..] == a[1..] + b;
      CountSplit(a[1..], b);
    }
  }

  lemma {:induction false} CountFull(ps: seq<Peer>)
    ensures CountValid(ps) == |ps| <==> forall i :: 0 <= i < |ps| ==> ps[i].valid
    ensures CountValid(ps) == 0 <==> forall i :: 0 <= i < |ps| ==> !ps[i].valid
  {
    if ps != [] {
      CountFull(ps[1..]);
      assert forall i :: 0 < i < |ps| ==> ps[i] == ps[1..][i - 1];
      assert forall i :: 0 <= i < |ps| - 1 ==> ps[1..][i] == ps[i + 1];
    }
  }

  lemma EmptySlots(n: nat)
    ensures CountValid(seq(n, _ => NO_PEER)) == 0
  {
    CountFull(seq(n, _ => NO_PEER));
  }

  // --- one slot rewritten in place ---

  /** Rewriting the bookkeeping of a slot without touching what it holds keeps the tables well formed. */
  lemma UpdateSlotKeeps(t: State, t': State, k: nat, p: Peer)
    requires DiscoveredOk(t.discovered, t.localId) && k < |t.discovered|
    requires t.discovered[k].valid && p.valid && p.id == t.discovered[k].id
    requires t'.discovered == t.discovered[k := p] && t'.localId == t.localId
    ensures DiscoveredOk(t'.discovered, t'.localId)
    ensures CountValid(t'.discovered) == CountValid(t.discovered)
    ensures forall id :: Known(t.discovered, id) ==> Known(t'.discovered, id)
  {
    CountUpdate(t.discovered, k, p);
    forall id | Known(t.discovered, id) ensures Known(t'.discovered, id) {
      var i :| 0 <= i < |t.discovered| && Holds(t.discovered[i], id);
      assert Holds(t'.discovered[i], id);
    }
  }

  /** Opening an entry keeps the tables, loses no entry, and fails only on a bad id or a full table. */
  lemma OpenKeeps(t: State, id: Byte)
    requires DiscoveredOk(t.discovered, t.localId) && t.discoveredCount == CountValid(t.discovered)
    ensures var o := Open(t, id);
            && DiscoveredOk(o.state.discovered, o.state.localId)
            && o.state.discoveredCount == CountValid(o.state.discovered)
            && o.state == t.(discovered := o.state.discovered, discoveredCount := o.state.discoveredCount)
            && (forall i :: 0 <= i < |t.discovered| && (t.discovered[i].valid || i != o.slot) ==>
                  o.state.discovered[i] == t.discovered[i])
            && (forall x :: Known(t.discovered, x) ==> Known(o.state.discovered, x))
            && (o.slot == |t.discovered| <==>
                id == 0 || id == t.localId || (!Known(t.discovered, id) && t.discoveredCount == MAX_PEERS))
  {
    var o := Open(t, id);
    var k := Lookup(t, id);
    CountFull(t.discovered);
    if k < |t.discovered| || id == 0 || id == t.localId {
    } else {
      assert !Known(t.discovered, id);
      var f := FindFree(t.discovered);
      if f < |t.discovered| {
        var p := NO_PEER.(valid := true, id := id);
        CountUpdate(t.discovered, f, p);
        assert o.state.discovered == t.discovered[f := p];
        forall x | Known(t.discovered, x) ensures Known(o.state.discovered, x) {
          var i :| 0 <= i < |t.discovered| && Holds(t.discovered[i], x);
          assert Holds(o.state.discovered[i], x);
        }
      }
    }
  }

  // --- each operation ---

  /** The connected table has room for every discovered peer that is not yet in it. */
  lemma RoomForDiscovered(t: State, slot: nat)
    requires DiscoveredOk(t.discovered, t.localId) && slot < |t.discovered| && t.discovered[slot].valid
    requires NoDup(t.connected) && forall id :: id in t.connected ==> Known(t.discovered, id)
    requires t.discovered[slot].id !in t.connected
    ensures |t.connected| < MAX_PEERS
  {
    var id := t.discovered[slot].id;
    var ids := seq(|t.discovered|, i requires 0 <= i < |t.discovered| => t.discovered[i].id);
    var more := t.connected + [id];
    AppendKeepsNoDup(t.connected, id);
    forall x | x in more ensures x in ids {
      if x == id {
        assert ids[slot] == id;
      } else {
        assert Known(t.discovered, x);
        var k :| 0 <= k < |t.discovered| && Holds(t.discovered[k], x);
        assert ids[k] == x;
      }
    }
    Pigeonhole(more, ids);
  }

  /** The peer-limit branch of marking a peer connected is dead. */
  lemma MarkConnectedKeeps(t: State, slot: nat)
    requires WellFormed(t) && slot < |t.discovered| && t.discovered[slot].valid
    requires t.discovered[slot].id in t.remembered
    ensures WellFormed(MarkConnected(t, slot))
    ensures MarkConnected(t, slot).status.lastError == NoError
    ensures t.discovered[slot].id in MarkConnected(t, slot).connected
  {
    var t' := MarkConnected(t, slot);
    var p := t.discovered[slot];
    UpdateSlotKeeps(t, t', slot, t'.discovered[slot]);
    assert Holds(t'.discovered[slot], p.id);
    if p.id !in t.connected {
      RoomForDiscovered(t, slot);
      AppendKeepsNoDup(t.connected, p.id);
    }
  }

  lemma RememberKeeps(t: State, id: Byte)
    requires WellFormed(t)
    ensures WellFormed(Remember(t, id).state)
    ensures Remember(t, id).ok ==> id in Remember(t, id).state.remembered
    ensures Remember(t, id).ok <==> id != 0 && (id in t.remembered || |t.remembered| < MAX_PEERS)
  {
    var r := Remember(t, id);
    if r.ok && id !in t.remembered {
      AppendKeepsNoDup(t.remembered, id);
    }
  }

  lemma OpenKeepsWellFormed(t: State, id: Byte)
    requires WellFormed(t)
    ensures WellFormed(Open(t, id).state)
  {
    OpenKeeps(t, id);
  }

  lemma UpdateSlotWellFormed(t: State, t': State, k: nat, p: Peer)
    requires WellFormed(t) && k < |t.discovered|
    requires t.discovered[k].valid && p.valid && p.id == t.discovered[k].id
    requires t' == t.(discovered := t.discovered[k := p], status := t'.status)
    ensures WellFormed(t')
  {
    UpdateSlotKeeps(t, t', k, p);
  }

  lemma ConnectKeeps(t: State, id: Byte)
    requires WellFormed(t)
    ensures var c := Connect(t, id);
            && WellFormed(c.state)
            && (c.ok ==> id in c.state.connected)
            && (!c.ok ==> c.state.connected == t.connected)
            && (forall x :: x in c.state.connected <==> x in t.connected || (c.ok && x == id))
  {
    if t.enabled && id != 0 {
      RememberKeeps(t, id);
      var r := Remember(t, id);
      if r.ok && id !in r.state.connected {
        OpenKeepsWellFormed(r.state, id);
        OpenKeeps(r.state, id);
        var o := Open(r.state, id);
        if o.slot < |o.state.discovered| {
          ConnectSlotKeeps(o.state, o.slot, id);
        }
      }
    }
  }

  lemma ConnectSlotKeeps(t: State, slot: nat, id: Byte)
    requires WellFormed(t) && slot < |t.discovered| && Holds(t.discovered[slot], id)
    requires id in t.remembered && id !in t.connected
    ensures var c := ConnectSlot(t, slot, id);
            && WellFormed(c.state)
            && c.ok == AssumeReady(t.discovered[slot]).audioReady
            && c.state.connected == if c.ok then t.connected + [id] else t.connected
  {
    var p := AssumeReady(t.discovered[slot]);
    if p.audioReady {
      var p' := p.(pending := true, disconnectRequested := false, reconnectBlocked := false);
      var t1 := Pending(t.(discovered := t.discovered[slot := p']), id);
      UpdateSlotWellFormed(t, t1, slot, p');
      MarkConnectedKeeps(t1, slot);
      RoomForDiscovered(t1, slot);
    } else {
      UpdateSlotWellFormed(t, ConnectSlot(t, slot, id).state, slot, p.(pending := true));
    }
  }

  lemma {:induction false} DropPeerMembers(q: seq<Packet>, id: Byte)
    ensures forall p :: p in DropPeer(q, id) <==> p in q && p.source != id && p.target != id
  {
    if q != [] {
      assert q == [q[0]] + q[1..];
      DropPeerMembers(q[1..], id);
    }
  }

  lemma DropPacketsKeeps(t: State, id: Byte, before: seq<Byte>)
    requires DiscoveredOk(t.discovered, t.localId) && ListsOk(t)
    requires forall x :: x in t.connected ==> Known(t.discovered, x)
    requires t.discoveredCount == CountValid(t.discovered)
    requires |t.fifo.queue| <= QUEUE_DEPTH && id != 0
    requires forall x :: x in before ==> x in t.connected || x == id
    requires forall k :: 0 <= k < |t.fifo.queue| ==>
            t.fifo.queue[k].source in before || t.fifo.queue[k].target in before
    ensures WellFormed(DropPackets(t, id))
  {
    DropPeerMembers(t.fifo.queue, id);
    var t' := DropPackets(t, id);
    forall k | 0 <= k < |t'.fifo.queue| ensures Endpoint(t'.connected, t'.fifo.queue[k]) {
      assert t'.fifo.queue[k] in t'.fifo.queue;
      assert t'.fifo.queue[k] in t.fifo.queue;
    }
  }

  lemma DisconnectKeeps(t: State, id: Byte)
    requires WellFormed(t)
    ensures var d := Disconnect(t, id);
            && WellFormed(d.state)
            && (d.ok <==> id in t.connected)
            && (forall x :: x in d.state.connected <==> x in t.connected && x != id)
            && (d.ok ==> forall p :: p in d.state.fifo.queue <==> p in t.fifo.queue && p.source != id && p.target != id)
            && (!d.ok ==> d.state == Fault(t, NotConnected))
  {
    if id in t.connected {
      RemoveFirstMembers(t.connected, id);
      var t1 := t.(connected := RemoveFirst(t.connected, id));
      var k := Lookup(t1, id);
      assert Known(t.discovered, id);
      assert k < |t1.discovered|;
      var t2 := NoteDisconnected(t1, k);
      UpdateSlotKeeps(t1, t2, k, t2.discovered[k]);
      forall i | 0 <= i < |t2.fifo.queue|
        ensures t2.fifo.queue[i].source in t.connected || t2.fifo.queue[i].target in t.connected
      {
        assert Endpoint(t.connected, t.fifo.queue[i]);
      }
      DropPacketsKeeps(t2, id, t.connected);
      DropPeerMembers(t.fifo.queue, id);
      var t3 := DropPackets(t2, id);
    }
  }

  lemma RestoreKeeps(t: State, id: Byte)
    requires WellFormed(t)
    ensures WellFormed(Restore(t, id).state) && Restore(t, id).state.connected == t.connected
    ensures Restore(t, id).state.fifo == t.fifo
  {
    if id != 0 {
      RememberKeeps(t, id);
      var r := Remember(t, id);
      if r.ok {
        OpenKeepsWellFormed(r.state, id);
        var o := Open(r.state, id);
        var t' := Restore(t, id).state;
        if o.slot < |o.state.discovered| {
          UpdateSlotWellFormed(o.state, t', o.slot, t'.discovered[o.slot]);
        } else {
        }
      }
    }
  }

  lemma ReportKeeps(t: State, id: Byte, audioReady: bool)
    requires WellFormed(t)
    ensures WellFormed(Report(t, id, audioReady).state) && Report(t, id, audioReady).state.connected == t.connected
    ensures Report(t, id, audioReady).ok <==>
            id != 0 && id != t.localId && (Known(t.discovered, id) || t.discoveredCount < MAX_PEERS)
  {
    if id != 0 && id != t.localId {
      OpenKeeps(t, id);
      OpenKeepsWellFormed(t, id);
      var o := Open(t, id);
      var t' := Report(t, id, audioReady).state;
      if o.slot < |o.state.discovered| {
        UpdateSlotWellFormed(o.state, t', o.slot, t'.discovered[o.slot]);
      } else {
      }
    }
  }

  lemma ClearFlagsKeeps(t: State, id: Byte)
    requires WellFormed(t)
    ensures WellFormed(ClearDisconnectFlags(t, id))
  {
    var k := Find(t.discovered, id);
    if id != 0 && k < |t.discovered| {
      var t' := ClearDisconnectFlags(t, id);
      UpdateSlotWellFormed(t, t', k, t'.discovered[k]);
    }
  }

  // --- clearing a pairing, with its compaction over the first discoveredCount slots ---

  /** Where each kept slot comes from. */
  lemma {:induction false} KeepOthersShape(ps: seq<Peer>, id: Byte)
    ensures forall i :: 0 <= i < |KeepOthers(ps, id)| ==> !Holds(KeepOthers(ps, id)[i], id)
    ensures forall p :: p in KeepOthers(ps, id) <==> p in ps && !Holds(p, id)
    ensures CountValid(KeepOthers(ps, id)) + (|ps| - |KeepOthers(ps, id)|) == CountValid(ps)
    ensures |KeepOthers(ps, id)| == |ps| <==> !Known(ps, id)
  {
    if ps != [] {
      var rest := ps[1..];
      assert ps == [ps[0]] + rest;
      KeepOthersShape(rest, id);
      if Known(rest, id) {
        var k :| 0 <= k < |rest| && Holds(rest[k], id);
        assert Holds(ps[k + 1], id);
      }
      if Known(ps, id) && !Holds(ps[0], id) {
        var k :| 0 <= k < |ps| && Holds(ps[k], id);
        assert Holds(rest[k - 1], id);
      }
    }
  }

  ghost predicate Distinct(ps: seq<Peer>) {
    forall i, j :: 0 <= i < j < |ps| && ps[i].valid && ps[j].valid ==> ps[i].id != ps[j].id
  }

  lemma DistinctCons(p: Peer, rest: seq<Peer>)
    ensures Distinct([p] + rest) <==> Distinct(rest) && (p.valid ==> !Known(rest, p.id))
  {
    var ps := [p] + rest;
    assert forall i :: 0 <= i < |rest| ==> ps[i + 1] == rest[i];
    if Distinct(ps) && p.valid {
      assert forall i :: 0 <= i < |rest| && rest[i].valid ==> ps[0].id != ps[i + 1].id;
    }
  }

  lemma {:induction false} KeepOthersDistinct(ps: seq<Peer>, id: Byte)
    requires Distinct(ps)
    ensures Distinct(KeepOthers(ps, id))
    ensures |ps| - |KeepOthers(ps, id)| <= 1
  {
    if ps != [] {
      var p, rest, kept := ps[0], ps[1..], KeepOthers(ps[1..], id);
      assert ps == [p] + rest;
      DistinctCons(p, rest);
      KeepOthersDistinct(rest, id);
      KeepOthersShape(rest, id);
      if !Holds(p, id) {
        assert Known(kept, p.id) ==> Known(rest, p.id) by {
          if Known(kept, p.id) {
            var k :| 0 <= k < |kept| && Holds(kept[k], p.id);
            assert kept[k] in rest;
          }
        }
        DistinctCons(p, kept);
      }
    }
  }

  lemma CompactMembers(ps: seq<Peer>, count: nat, id: Byte)
    requires count <= |ps|
    ensures forall p :: p in Compact(ps, count, id) ==> p in ps || p == NO_PEER
    ensures forall p :: p in ps && p.valid && p.id != id ==> p in Compact(ps, count, id)
  {
    var head := ps[..count];
    var kept := KeepOthers(head, id);
    var r := Compact(ps, count, id);
    KeepOthersShape(head, id);
    forall i | 0 <= i < |r| ensures r[i] in ps || r[i] == NO_PEER {
      if i < |kept| {
        assert r[i] == kept[i];
        assert kept[i] in head;
      } else if i >= count {
        assert r[i] == ps[i];
      }
    }
    forall p | p in ps && p.valid && p.id != id ensures p in r {
      var k :| 0 <= k < |ps| && ps[k] == p;
      if k < count {
        assert head[k] == p;
        assert p in kept;
        var m :| 0 <= m < |kept| && kept[m] == p;
        assert r[m] == p;
      } else {
        assert r[k] == p;
      }
    }
  }

  lemma DistinctConcat(a: seq<Peer>, b: seq<Peer>)
    requires Distinct(a) && Distinct(b)
    requires forall p, q :: p in a && q in b && p.valid && q.valid ==> p.id != q.id
    ensures Distinct(a + b)
  {
    forall i, j | 0 <= i < j < |a + b| && (a + b)[i].valid && (a + b)[j].valid
      ensures (a + b)[i].id != (a + b)[j].id
    {
      if i < |a| <= j {
        assert (a + b)[i] in a && (a + b)[j] in b;
      }
    }
  }

  lemma CrossDistinct(a: seq<Peer>, b: seq<Peer>)
    requires Distinct(a + b)
    ensures Distinct(a) && Distinct(b)
    ensures forall p: Peer, q: Peer :: p in a && q in b && p.valid && q.valid ==> p.id != q.id
  {
    forall p: Peer, q: Peer | p in a && q in b && p.valid && q.valid ensures p.id != q.id {
      var i :| 0 <= i < |a| && a[i] == p;
      var j :| 0 <= j < |b| && b[j] == q;
      assert (a + b)[i] == p && (a + b)[|a| + j] == q;
    }
    assert forall i :: 0 <= i < |a| ==> (a + b)[i] == a[i];
    assert forall j :: 0 <= j < |b| ==> b[j] == (a + b)[|a| + j];
  }

  lemma CompactDistinct(ps: seq<Peer>, count: nat, id: Byte)
    requires Distinct(ps) && count <= |ps|
    ensures Distinct(Compact(ps, count, id))
  {
    var head, tail := ps[..count], ps[count..];
    assert ps == head + tail;
    CrossDistinct(head, tail);
    var kept := KeepOthers(head, id);
    var gap := seq(count - |kept|, _ => NO_PEER);
    KeepOthersShape(head, id);
    KeepOthersDistinct(head, id);
    DistinctConcat(kept, gap);
    assert forall p: Peer :: p in kept + gap && p.valid ==> p in head;
    DistinctConcat(kept + gap, tail);
  }

  lemma CompactCount(ps: seq<Peer>, count: nat, id: Byte)
    requires count <= |ps|
    ensures CountValid(ps) - CountValid(Compact(ps, count, id)) == count - |KeepOthers(ps[..count], id)|
  {
    var head, tail := ps[..count], ps[count..];
    var kept := KeepOthers(head, id);
    var gap := seq(count - |kept|, _ => NO_PEER);
    KeepOthersShape(head, id);
    EmptySlots(count - |kept|);
    CountSplit(kept + gap, tail);
    CountSplit(kept, gap);
    assert ps == head + tail;
    CountSplit(head, tail);
  }

  lemma CompactKeeps(ps: seq<Peer>, localId: Byte, count: nat, id: Byte)
    requires DiscoveredOk(ps, localId) && count <= |ps|
    ensures DiscoveredOk(Compact(ps, count, id), localId)
    ensures forall x :: x != id && Known(ps, x) ==> Known(Compact(ps, count, id), x)
  {
    var r := Compact(ps, count, id);
    CompactMembers(ps, count, id);
    CompactDistinct(ps, count, id);
    forall i | 0 <= i < |r|
      ensures if r[i].valid then r[i].id != 0 && r[i].id != localId else r[i] == NO_PEER
    {
      assert r[i] in r;
    }
    forall x | x != id && Known(ps, x) ensures Known(r, x) {
      var k :| 0 <= k < |ps| && Holds(ps[k], x);
      assert ps[k] in r;
      var m :| 0 <= m < |r| && r[m] == ps[k];
      assert Holds(r[m], x);
    }
  }

  /** Clearing keeps the tables well formed exactly when the peer is not connected, which the runtime ensures. */
  lemma ClearKeepsIff(t: State, id: Byte)
    requires WellFormed(t)
    ensures WellFormed(ClearPairing(t, id).state) <==> id !in t.connected
    ensures ClearPairing(t, id).state.connected == t.connected
    ensures ClearPairing(t, id).state.fifo == t.fifo
  {
    if id != 0 {
      var t' := ClearPairing(t, id).state;
      WithoutMembers(t.remembered, id);
      CompactKeeps(t.discovered, t.localId, t.discoveredCount, id);
      CompactCount(t.discovered, t.discoveredCount, id);
      if id in t.connected {
        assert id !in t'.remembered;
      }
    }
  }

  // --- polling ---

  lemma PurgeKeeps(t: State, slot: nat)
    requires WellFormed(t) && slot < |t.discovered|
    ensures WellFormed(Purge(t, slot))
  {
    var t' := Purge(t, slot);
    if Purgeable(t, t.discovered[slot]) {
      CountUpdate(t.discovered, slot, NO_PEER);
      forall x | x in t'.connected ensures Known(t'.discovered, x) {
        assert Known(t.discovered, x);
        var k :| 0 <= k < |t.discovered| && Holds(t.discovered[k], x);
        assert Holds(t'.discovered[k], x);
      }
    }
  }

  lemma PollSlotKeeps(t: State, slot: nat)
    requires WellFormed(t) && slot < |t.discovered|
    ensures WellFormed(PollSlot(t, slot))
  {
    var p := t.discovered[slot];
    PurgeKeeps(t, slot);
    if p.valid {
      ConnectKeeps(t, p.id);
    }
  }

  lemma {:induction false} PollFromKeeps(t: State, slot: nat)
    requires WellFormed(t) && slot <= |t.discovered|
    ensures WellFormed(PollFrom(t, slot))
    decreases |t.discovered| - slot
  {
    if slot < |t.discovered| {
      PollSlotKeeps(t, slot);
      PollFromKeeps(PollSlot(t, slot), slot + 1);
    }
  }

  lemma TickKeeps(t: State)
    requires WellFormed(t)
    ensures WellFormed(Tick(t))
  {
    var t' := t.(lastPoll := Wrap32(t.lastPoll + POLL_TICK_MS));
    if t.enabled {
      PollFromKeeps(t', 0);
    }
  }

  // --- the queue ---

  lemma QueuePacketKeeps(t: State, source: Byte, target: Byte, payload: seq<Byte>, number: nat)
    requires WellFormed(t)
    ensures WellFormed(QueuePacket(t, source, target, payload, number).state)
  {
    var t' := QueuePacket(t, source, target, payload, number).state;
    forall k | 0 <= k < |t'.fifo.queue| ensures Endpoint(t'.connected, t'.fifo.queue[k]) {
      if k < |t.fifo.queue| { assert Endpoint(t.connected, t.fifo.queue[k]); }
    }
  }

  lemma DequeueKeeps(t: State)
    requires WellFormed(t) && t.fifo.queue != []
    ensures WellFormed(Dequeue(t))
  {
    var t' := Dequeue(t);
    forall k | 0 <= k < |t'.fifo.queue| ensures Endpoint(t'.connected, t'.fifo.queue[k]) {
      assert Endpoint(t.connected, t.fifo.queue[k + 1]);
    }
  }

  // --- runs ---

  datatype Event =
    | Connecting(id: Byte)
    | Disconnecting(id: Byte)
    | Restoring(id: Byte)
    | Clearing(id: Byte)
    | Reporting(id: Byte, audioReady: bool)
    | Ticking
    | Enabling(enabled: bool)
    | Queueing(source: Byte, target: Byte, payload: seq<Byte>, number: nat)
    | Dequeueing
    | LiftingFlags(id: Byte)

  function Step(t: State, e: Event): State {
    match e
    case Connecting(id) => Connect(t, id).state
    case Disconnecting(id) => Disconnect(t, id).state
    case Restoring(id) => Restore(t, id).state
    case Clearing(id) => ClearPairing(t, id).state
    case Reporting(id, ready) => Report(t, id, ready).state
    case Ticking => Tick(t)
    case Enabling(b) => SetEnabled(t, b)
    case Queueing(s, d, payload, n) => QueuePacket(t, s, d, payload, n).state
    case Dequeueing => if t.fifo.queue == [] then t else Dequeue(t)
    case LiftingFlags(id) => ClearDisconnectFlags(t, id)
  }

  /** The runtime clears the pairing of a peer only after disconnecting it. */
  predicate Allowed(t: State, e: Event) { e.Clearing? ==> e.id !in t.connected }

  lemma StepKeeps(t: State, e: Event)
    requires WellFormed(t) && Allowed(t, e)
    ensures WellFormed(Step(t, e))
  {
    match e
    case Connecting(id) => ConnectKeeps(t, id);
    case Disconnecting(id) => DisconnectKeeps(t, id);
    case Restoring(id) => RestoreKeeps(t, id);
    case Clearing(id) => ClearKeepsIff(t, id);
    case Reporting(id, ready) => ReportKeeps(t, id, ready);
    case Ticking => TickKeeps(t);
    case Enabling(b) =>
    case Queueing(s, d, payload, n) => QueuePacketKeeps(t, s, d, payload, n);
    case Dequeueing => if t.fifo.queue != [] { DequeueKeeps(t); }
    case LiftingFlags(id) => ClearFlagsKeeps(t, id);
  }

  ghost predicate Reaches(t: State, events: seq<Event>, last: State)
    decreases |events|
  {
    if events == [] then last == t
    else Allowed(t, events[0]) && Reaches(Step(t, events[0]), events[1..], last)
  }

  lemma InitWellFormed(localId: Byte)
    ensures WellFormed(Init(localId))
  {
    EmptySlots(MAX_PEERS);
  }

  lemma {:induction false} RunKeepsWellFormed(t: State, events: seq<Event>, last: State)
    requires WellFormed(t) && Reaches(t, events, last)
    ensures WellFormed(last)
    decreases |events|
  {
    if events != [] {
      StepKeeps(t, events[0]);
      RunKeepsWellFormed(Step(t, events[0]), events[1..], last);
    }
  }
}
