/**
 The promise that an explicitly disconnected peer stays away until it is deliberately connected or restored: for which
 states it is kept over every run that follows, and for which some run breaks it.
 */
module RuntimePromise {
  import opened Machine
  import opened Sequences
  import opened RuntimeSpec
  import opened RuntimeInvariant
  import opened RuntimeRuns
  import opened RuntimeHold
  import RuntimeLapse
  import Transport = TransportSpec
  import Tables = TransportInvariant
  import Hold = TransportHold
  import Outcomes = TransportOutcomes

  /** No run without a deliberate connect or restore of id brings it back. */
  ghost predicate StaysAway(rt: Runtime, id: Byte) {
    forall events, last :: Reaches(rt, events, last) && (forall e :: e in events ==> !Deliberate(e, id))
                           ==> id !in last.transport.connected
  }

  lemma AwayNow(rt: Runtime, id: Byte)
    requires StaysAway(rt, id)
    ensures id !in rt.transport.connected
  {
    assert Reaches(rt, [], rt);
  }

  lemma AwayNext(rt: Runtime, e: Event, id: Byte)
    requires StaysAway(rt, id) && Possible(rt, e) && !Deliberate(e, id)
    ensures StaysAway(Step(rt, e), id)
  {
    forall events, last | Reaches(Step(rt, e), events, last) && forall x :: x in events ==> !Deliberate(x, id)
      ensures id !in last.transport.connected
    {
      var all := [e] + events;
      assert all[0] == e && all[1..] == events;
      assert Reaches(rt, all, last);
    }
  }

  // --- a run that brings back a peer nothing suppresses ---

  /** Remembered, not connected, and without a suppressing flag, whether or not it has an entry. */
  ghost predicate Recoverable(t: Transport.State, id: Byte) {
    && id in t.remembered && id !in t.connected && id != t.localId
    && forall k :: 0 <= k < |t.discovered| && Transport.Holds(t.discovered[k], id) ==> !Hold.Suppressed(t.discovered[k])
  }

  lemma NotHeldRecoverable(t: Transport.State, id: Byte)
    requires Tables.WellFormed(t) && id !in t.connected && id != t.localId
    ensures Hold.Held(t, id) <==> !Recoverable(t, id)
  {
  }

  lemma EnableRecovers(rt: Runtime, id: Byte)
    requires Coherent(rt) && Recoverable(rt.transport, id)
    ensures var r := Step(rt, Enabling(true)); Coherent(r) && r.enabled && Recoverable(r.transport, id)
  {
    SetEnabledKeeps(rt, true);
    ReconcileFrame(Sync(Switched(rt, true)), 0);
  }

  /** The transport after a clear, when the peer is not about to be cleared. */
  lemma ClearTransport(rt: Runtime, x: Byte)
    requires Coherent(rt) && x != 0
    ensures var t := Disconnect(rt, x).rt.transport;
            && ClearPairing(rt, x).transport == Transport.ClearPairing(t, x).state && Tables.WellFormed(t)
               && x !in t.connected
            && t.remembered == rt.transport.remembered && Outcomes.OnlyEntryOf(rt.transport.discovered, t.discovered, x)
            && (forall y :: y in t.connected ==> y in rt.transport.connected)
            && Disconnect(rt, x).rt.enabled == rt.enabled
            && t.localId == rt.transport.localId
  {
    DisconnectKeeps(rt, x);
    if x in rt.connected {
      DisconnectTransport(rt, x);
      FarewellKeeps(rt, x);
      var f := Farewell(rt, x);
      Outcomes.DisconnectOutcome(f.transport, x);
      RemoveFirstMembers(f.transport.connected, x);
    }
  }

  /** Clearing another peer frees a place in a full table without giving the peer an entry. */
  lemma ClearFrees(t: Transport.State, x: Byte, id: Byte)
    requires Tables.WellFormed(t) && x != 0 && x != id && x !in t.connected
    requires Tables.Known(t.discovered, x) && !Tables.Known(t.discovered, id)
            && Tables.CountValid(t.discovered) == |t.discovered|
    ensures var t' := Transport.ClearPairing(t, x).state;
            && !Tables.Known(t'.discovered, id) && Tables.CountValid(t'.discovered) < |t'.discovered|
            && (id in t.remembered ==> id in t'.remembered) && t'.connected == t.connected && t'.localId == t.localId
  {
    var t' := Transport.ClearPairing(t, x).state;
    var n := t.discoveredCount;
    assert t.discovered[..n] == t.discovered;
    Tables.CompactMembers(t.discovered, n, x);
    Tables.CompactCount(t.discovered, n, x);
    Tables.KeepOthersShape(t.discovered, x);
    WithoutMembers(t.remembered, x);
    forall k | 0 <= k < |t'.discovered| ensures !Transport.Holds(t'.discovered[k], id) {
      assert t'.discovered[k] in t'.discovered;
    }
  }

  /** A peer without an entry and without room for one: clearing the peer in the first slot makes room. */
  lemma RoomRecovers(rt: Runtime, id: Byte)
    requires Coherent(rt) && rt.enabled && Recoverable(rt.transport, id)
            && !Outcomes.Findable(rt.transport.discovered, id)
    ensures var x := rt.transport.discovered[0].id; var r := Step(rt, Clearing(x));
            && x != id && Coherent(r) && r.enabled
            && Recoverable(r.transport, id) && Outcomes.Findable(r.transport.discovered, id)
  {
    var ps := rt.transport.discovered;
    var x := ps[0].id;
    Tables.CountFull(ps);
    assert !Transport.Holds(ps[0], id);
    ClearPairingKeeps(rt, x);
    ClearTransport(rt, x);
    FullApart(ps, Disconnect(rt, x).rt.transport.discovered, id);
    ClearFrees(Disconnect(rt, x).rt.transport, x, id);
    UnknownRecoverable(Step(rt, Clearing(x)).transport, id);
  }

  lemma UnknownRecoverable(t: Transport.State, id: Byte)
    requires id in t.remembered && id !in t.connected && id != t.localId && !Tables.Known(t.discovered, id)
    ensures Recoverable(t, id)
  {
  }

  /** A full table that lacks id stays full and without it while only the entry in the first slot is written. */
  lemma FullApart(ps: seq<Transport.Peer>, ps': seq<Transport.Peer>, id: Byte)
    requires ps != [] && Tables.CountValid(ps) == |ps| && !Tables.Known(ps, id)
    requires ps[0].id != id && Outcomes.OnlyEntryOf(ps, ps', ps[0].id)
    ensures Tables.CountValid(ps') == |ps'| && !Tables.Known(ps', id) && Tables.Known(ps', ps[0].id)
  {
    Tables.CountFull(ps);
    Tables.CountFull(ps');
    assert forall i :: 0 <= i < |ps| ==> !Transport.Holds(ps[i], id);
    assert Transport.Holds(ps[0], ps[0].id) && Transport.Holds(ps'[0], ps[0].id);
  }

  lemma ReportRecovers(rt: Runtime, id: Byte)
    requires Coherent(rt) && rt.enabled && Recoverable(rt.transport, id)
            && Outcomes.Findable(rt.transport.discovered, id)
    ensures var r := Step(rt, Reporting(id, true)); Coherent(r) && id in Poll(r).transport.connected
  {
    var t := rt.transport;
    var r := Step(rt, Reporting(id, true));
    ReportKeeps(rt, id, true);
    var j := ReportLoosens(t, id);
    RuntimeLapse.PollFetches(r, id, j, t.lastPoll);
  }

  /** A report of a peer that nothing suppresses leaves it to be fetched. */
  lemma ReportLoosens(t: Transport.State, id: Byte) returns (j: nat)
    requires Tables.WellFormed(t) && t.enabled && Recoverable(t, id) && Outcomes.Findable(t.discovered, id)
    ensures RuntimeLapse.Loose(Transport.Report(t, id, true).state, id, j, t.lastPoll)
  {
    var t' := Transport.Report(t, id, true).state;
    Tables.ReportKeeps(t, id, true);
    Outcomes.ReportOutcome(t, id, true);
    Outcomes.FindIff(t.discovered, id);
    assert !Hold.Suppressed(Outcomes.Entry(t.discovered, id)) && !Hold.Suppressed(Outcomes.Entry(t'.discovered, id));
    j := Transport.Find(t'.discovered, id);
  }

  /** Switch on, make room if there is none, hear of the peer, poll. */
  lemma RecoverableReturns(rt: Runtime, id: Byte)
    requires Coherent(rt) && Recoverable(rt.transport, id)
    ensures !StaysAway(rt, id)
  {
    if StaysAway(rt, id) {
      EnableRecovers(rt, id);
      AwayNext(rt, Enabling(true), id);
      var a := Step(rt, Enabling(true));
      if Outcomes.Findable(a.transport.discovered, id) {
        FoundReturns(a, id);
      } else {
        RoomRecovers(a, id);
        AwayNext(a, Clearing(a.transport.discovered[0].id), id);
        FoundReturns(Step(a, Clearing(a.transport.discovered[0].id)), id);
      }
    }
  }

  lemma FoundReturns(rt: Runtime, id: Byte)
    requires Coherent(rt) && rt.enabled && Recoverable(rt.transport, id)
            && Outcomes.Findable(rt.transport.discovered, id)
    ensures !StaysAway(rt, id)
  {
    if StaysAway(rt, id) {
      ReportRecovers(rt, id);
      AwayNext(rt, Reporting(id, true), id);
      var r := Step(rt, Reporting(id, true));
      AwayNext(r, Polling, id);
      AwayNow(Step(r, Polling), id);
    }
  }

  /**
   An explicit disconnect of a listed peer reports success, but keeps its promise exactly when the transport still had
   the peer, or was suppressing it already. Otherwise some run without a deliberate connect or restore brings the peer
   back.
   */
  lemma DisconnectPromiseIff(rt: Runtime, id: Byte)
    requires Coherent(rt) && id in rt.connected
    ensures Disconnect(rt, id).ok
    ensures StaysAway(Disconnect(rt, id).rt, id) <==> id in rt.transport.connected || Held(rt, id)
  {
    var d := Disconnect(rt, id).rt;
    DisconnectHoldsIff(rt, id);
    DisconnectKeeps(rt, id);
    if Held(d, id) {
      forall events, last | Reaches(d, events, last) && forall e :: e in events ==> !Deliberate(e, id)
        ensures id !in last.transport.connected
      {
        HeldOverRun(d, events, last, id);
      }
    } else {
      NotHeldRecoverable(d.transport, id);
      RecoverableReturns(d, id);
    }
  }
}
