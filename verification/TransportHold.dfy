/** An explicit disconnect suppresses reconnection until a deliberate connect or restore of the same peer. */
module TransportHold {
  import opened Machine
  import opened Sequences
  import opened TransportSpec
  import opened TransportInvariant
  import opened TransportPoll

  predicate Suppressed(p: Peer) { p.disconnectRequested || p.reconnectBlocked }

  /** Not connected, and a remembered id still has its entry, with a flag that keeps every poll away from it. */
  ghost predicate Held(t: State, id: Byte) {
    && id !in t.connected
    && (id in t.remembered ==> Known(t.discovered, id))
    && (id in t.remembered ==> forall k :: 0 <= k < |t.discovered| && Holds(t.discovered[k], id) ==>
       Suppressed(t.discovered[k]))
  }

  /** The events that are not a deliberate connect or restore of id, nor the session layer lifting its flags. */
  predicate Leaves(e: Event, id: Byte) {
    match e
    case Connecting(x) => x != id
    case Restoring(x) => x != id
    case LiftingFlags(x) => x != id
    case _ => true
  }

  lemma DisconnectHolds(t: State, id: Byte)
    requires WellFormed(t) && id in t.connected
    ensures Held(Disconnect(t, id).state, id)
  {
    DisconnectKeeps(t, id);
    var t' := Disconnect(t, id).state;
    var k := Find(t.discovered, id);
    assert Known(t.discovered, id);
    assert k < |t.discovered|;
    assert Holds(t'.discovered[k], id) && Suppressed(t'.discovered[k]);
  }

  /** Entries of id are carried over unchanged, and if id was remembered its entry stays. */
  ghost predicate CarriesOver(t: State, t': State, id: Byte) {
    && (id in t'.remembered ==> id in t.remembered)
    && (id in t'.remembered && Known(t.discovered, id) ==> Known(t'.discovered, id))
    && (forall k ::
          0 <= k < |t'.discovered| && Holds(t'.discovered[k], id) && id in t'.remembered && Known(t.discovered, id) ==>
          exists j :: 0 <= j < |t.discovered| && Holds(t.discovered[j], id) &&
                      (Suppressed(t.discovered[j]) ==> Suppressed(t'.discovered[k])))
  }

  lemma CarriedHold(t: State, t': State, id: Byte)
    requires Held(t, id) && CarriesOver(t, t', id) && id !in t'.connected
    ensures Held(t', id)
  {
  }

  /** Opening an entry for any id carries the entries of every other known id over. */
  lemma OpenCarries(t: State, x: Byte, id: Byte)
    requires WellFormed(t)
    ensures CarriesOver(t, Open(t, x).state, id)
  {
    OpenKeeps(t, x);
    var t' := Open(t, x).state;
    if Known(t.discovered, id) {
      var j :| 0 <= j < |t.discovered| && Holds(t.discovered[j], id);
      assert t'.discovered[j] == t.discovered[j];
      forall k | 0 <= k < |t'.discovered| && Holds(t'.discovered[k], id)
        ensures exists j :: 0 <= j < |t.discovered| && Holds(t.discovered[j], id) &&
                            (Suppressed(t.discovered[j]) ==> Suppressed(t'.discovered[k]))
      {
        assert k == j;
      }
    }
  }

  /** Rewriting the slot of another peer does not release the hold. */
  lemma SlotChangeHolds(t: State, t': State, slot: nat, id: Byte)
    requires Held(t, id) && slot < |t.discovered| && |t'.discovered| == |t.discovered|
    requires !Holds(t.discovered[slot], id) && !Holds(t'.discovered[slot], id)
    requires (id in t'.remembered ==> id in t.remembered) && id !in t'.connected
    requires forall k :: 0 <= k < |t.discovered| && k != slot ==> t'.discovered[k] == t.discovered[k]
    ensures Held(t', id)
  {
    if id in t'.remembered {
      var j :| 0 <= j < |t.discovered| && Holds(t.discovered[j], id);
      assert Holds(t'.discovered[j], id);
    }
  }

  lemma ConnectSlotFrame(t: State, slot: nat, x: Byte)
    requires slot < |t.discovered| && Holds(t.discovered[slot], x)
    ensures var t' := ConnectSlot(t, slot, x).state;
            && |t'.discovered| == |t.discovered| && t'.remembered == t.remembered && Holds(t'.discovered[slot], x)
            && (forall k :: 0 <= k < |t.discovered| && k != slot ==> t'.discovered[k] == t.discovered[k])
  {
  }

  lemma HoldAfterConnect(t: State, x: Byte, id: Byte)
    requires WellFormed(t) && Held(t, id) && x != id
    ensures Held(Connect(t, x).state, id)
  {
    ConnectKeeps(t, x);
    if t.enabled && x != 0 && Remember(t, x).ok && x !in t.connected {
      var r := Remember(t, x).state;
      RememberKeeps(t, x);
      OpenKeeps(r, x);
      OpenCarries(r, x, id);
      var o := Open(r, x);
      CarriedHold(r, o.state, id);
      if o.slot < |o.state.discovered| {
        ConnectSlotFrame(o.state, o.slot, x);
        SlotChangeHolds(o.state, ConnectSlot(o.state, o.slot, x).state, o.slot, id);
      }
    }
  }

  lemma HoldAfterRestore(t: State, x: Byte, id: Byte)
    requires WellFormed(t) && Held(t, id) && x != id
    ensures Held(Restore(t, x).state, id)
  {
    if x != 0 && Remember(t, x).ok {
      var r := Remember(t, x).state;
      RememberKeeps(t, x);
      OpenKeeps(r, x);
      OpenCarries(r, x, id);
      var o := Open(r, x);
      CarriedHold(r, o.state, id);
      if o.slot < |o.state.discovered| {
        SlotChangeHolds(o.state, RestoreSlot(o.state, o.slot), o.slot, id);
      }
    }
  }

  lemma HoldAfterReport(t: State, x: Byte, ready: bool, id: Byte)
    requires WellFormed(t) && Held(t, id)
    ensures Held(Report(t, x, ready).state, id)
  {
    if x != 0 && x != t.localId {
      OpenKeeps(t, x);
      OpenCarries(t, x, id);
      var o := Open(t, x);
      var t' := Report(t, x, ready).state;
      CarriedHold(t, o.state, id);
      if o.slot < |o.state.discovered| {
        if x != id {
          SlotChangeHolds(o.state, t', o.slot, id);
        } else {
          assert Holds(t'.discovered[o.slot], id);
        }
      }
    }
  }

  lemma HoldAfterDisconnect(t: State, x: Byte, id: Byte)
    requires WellFormed(t) && Held(t, id)
    ensures Held(Disconnect(t, x).state, id)
  {
    DisconnectKeeps(t, x);
    var t' := Disconnect(t, x).state;
    if x in t.connected {
      var k := Lookup(t, x);
      assert Known(t.discovered, x);
      SlotChangeHolds(t, t', k, id);
    }
  }

  /** Clearing id forgets it; clearing another peer compacts the table without losing the entry of id. */
  lemma HoldAfterClear(t: State, x: Byte, id: Byte)
    requires WellFormed(t) && Held(t, id)
    ensures Held(ClearPairing(t, x).state, id)
  {
    if x != 0 {
      var t' := ClearPairing(t, x).state;
      WithoutMembers(t.remembered, x);
      CompactKeeps(t.discovered, t.localId, t.discoveredCount, x);
      CompactMembers(t.discovered, t.discoveredCount, x);
      if id in t'.remembered {
        forall k | 0 <= k < |t'.discovered| && Holds(t'.discovered[k], id) ensures Suppressed(t'.discovered[k]) {
          assert t'.discovered[k] in t'.discovered;
          var j :| 0 <= j < |t.discovered| && t.discovered[j] == t'.discovered[k];
        }
      }
    }
  }

  lemma HoldAfterTick(t: State, id: Byte)
    requires WellFormed(t) && Held(t, id)
    ensures Held(Tick(t), id)
  {
    var s := t.(lastPoll := Wrap32(t.lastPoll + POLL_TICK_MS));
    if t.enabled {
      PollExact(s);
      WantedMembers(s, s.discovered, id);
      var t' := Poll(s);
      if id in t.remembered {
        var j :| 0 <= j < |t.discovered| && Holds(t.discovered[j], id);
        assert Holds(s.discovered[j], id);
        assert t'.discovered[j] == AfterPoll(s, s.discovered[j]);
        assert Holds(t'.discovered[j], id);
      }
    }
  }

  lemma HoldAfterLift(t: State, x: Byte, id: Byte)
    requires WellFormed(t) && Held(t, id) && x != id
    ensures Held(ClearDisconnectFlags(t, x), id)
  {
    var k := Find(t.discovered, x);
    if x != 0 && k < |t.discovered| {
      SlotChangeHolds(t, ClearDisconnectFlags(t, x), k, id);
    }
  }

  lemma HoldStep(t: State, e: Event, id: Byte)
    requires WellFormed(t) && Held(t, id) && Leaves(e, id)
    ensures Held(Step(t, e), id)
  {
    match e
    case Connecting(x) => HoldAfterConnect(t, x, id);
    case Disconnecting(x) => HoldAfterDisconnect(t, x, id);
    case Restoring(x) => HoldAfterRestore(t, x, id);
    case Clearing(x) => HoldAfterClear(t, x, id);
    case Reporting(x, ready) => HoldAfterReport(t, x, ready, id);
    case Ticking => HoldAfterTick(t, id);
    case Enabling(b) =>
    case Queueing(s, d, payload, n) =>
    case Dequeueing =>
    case LiftingFlags(x) => HoldAfterLift(t, x, id);
  }

  lemma {:induction false} HoldOverRun(t: State, events: seq<Event>, last: State, id: Byte)
    requires WellFormed(t) && Held(t, id) && Reaches(t, events, last)
    requires forall e :: e in events ==> Leaves(e, id)
    ensures Held(last, id)
    decreases |events|
  {
    if events != [] {
      HoldStep(t, events[0], id);
      StepKeeps(t, events[0]);
      HoldOverRun(Step(t, events[0]), events[1..], last, id);
    }
  }

  /** A disconnected peer is not connected at the end of any run that never connects or restores it deliberately. */
  lemma DisconnectSticks(t: State, id: Byte, events: seq<Event>, last: State)
    requires WellFormed(t) && id in t.connected
    requires Reaches(Disconnect(t, id).state, events, last)
    requires forall e :: e in events ==> Leaves(e, id)
    ensures id !in last.connected
  {
    DisconnectKeeps(t, id);
    DisconnectHolds(t, id);
    HoldOverRun(Disconnect(t, id).state, events, last, id);
  }

  /** Clearing a pairing leaves the entry behind exactly when purging left a hole below it. */
  lemma ClearForgetsIff(t: State, id: Byte)
    requires WellFormed(t) && id != 0 && id !in t.connected
    ensures Known(ClearPairing(t, id).state.discovered, id) <==>
            exists k :: t.discoveredCount <= k < |t.discovered| && Holds(t.discovered[k], id)
  {
    var ps, n := t.discovered, t.discoveredCount;
    CompactKnown(ps, n, id);
  }

  lemma KnownConcat(a: seq<Peer>, b: seq<Peer>, id: Byte)
    ensures Known(a + b, id) <==> Known(a, id) || Known(b, id)
  {
    if Known(a, id) {
      var k :| 0 <= k < |a| && Holds(a[k], id);
      assert Holds((a + b)[k], id);
    }
    if Known(b, id) {
      var k :| 0 <= k < |b| && Holds(b[k], id);
      assert Holds((a + b)[|a| + k], id);
    }
  }

  lemma CompactKnown(ps: seq<Peer>, n: nat, id: Byte)
    requires n <= |ps|
    ensures Known(Compact(ps, n, id), id) <==> exists k :: n <= k < |ps| && Holds(ps[k], id)
  {
    var kept := KeepOthers(ps[..n], id);
    var gap := seq(n - |kept|, _ => NO_PEER);
    KeepOthersShape(ps[..n], id);
    KnownConcat(kept, gap, id);
    KnownConcat(kept + gap, ps[n..], id);
    if k :| n <= k < |ps| && Holds(ps[k], id) {
      assert Holds(ps[n..][k - n], id);
    }
  }
}
