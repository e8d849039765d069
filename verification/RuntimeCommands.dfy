/** What switching, clearing and restoring leave in the tables, and what a disconnect says first. */
module RuntimeCommands {
  import opened Machine
  import opened Sequences
  import opened RuntimeSpec
  import opened RuntimeInvariant
  import opened RuntimeSteps
  import opened RuntimeRuns
  import opened RuntimeOutcomes
  import opened RuntimeSend
  import opened RuntimeReplies
  import opened RuntimeService
  import RuntimeHold
  import RuntimePromise
  import Protocol
  import Transport = TransportSpec
  import TableOutcomes = TransportOutcomes

  /**
   A restore succeeds exactly when the peer can be remembered in the transport and has, or can get, a link. That link is
   then remembered and idle; no other link, no list and no session id changes.
   */
  lemma RestoreOutcome(rt: Runtime, id: Byte)
    requires Coherent(rt)
    ensures var o := RestorePairing(rt, id); var l, l' := LinkOf(rt.links, id), LinkOf(o.rt.links, id);
            && (o.ok <==> id != 0 && TableOutcomes.Memorable(rt.transport, id) && Linkable(rt.links, id))
            && (o.ok ==> Linked(o.rt.links, id) && l' == l.(remembered := true, state := Idle)
                         && id in o.rt.transport.remembered)
            && OnlyLinkOf(rt.links, o.rt.links, id)
            && o.rt == rt.(links := o.rt.links, transport := o.rt.transport)
            && o.rt.transport.connected == rt.transport.connected && o.rt.transport.fifo == rt.transport.fifo
  {
    if id != 0 {
      TableOutcomes.RestoreOutcome(rt.transport, id);
      OpenLinkOutcome(rt.links, id);
      RestoredOthers(rt, id);
      if RestorePairing(rt, id).ok { RestoredLink(rt, id); }
    }
  }

  lemma RestoredOthers(rt: Runtime, id: Byte)
    requires id != 0
    ensures OnlyLinkOf(rt.links, RestorePairing(rt, id).rt.links, id)
  {
    OpenLinkOutcome(rt.links, id);
  }

  lemma RestoredLink(rt: Runtime, id: Byte)
    requires Coherent(rt) && id != 0 && RestorePairing(rt, id).ok
    ensures var r := RestorePairing(rt, id).rt;
            Linked(r.links, id) && LinkOf(r.links, id) == LinkOf(rt.links, id).(remembered := true, state := Idle)
  {
    OpenLinkOutcome(rt.links, id);
    OpenLinkShape(rt.links, id);
    var k, r := OpenLink(rt.links, id).slot, RestorePairing(rt, id).rt;
    assert Owns(r.links[k], id);
    LinkFound(r.links, k, id);
  }

  /**
   A clear takes the peer out of every table: it is not remembered, connected or listed, and has no link. Other peers
   keep their links, connections and remembered places. The stored ready count is zeroed even when there is nothing to
   clear.
   */
  lemma ClearOutcome(rt: Runtime, id: Byte)
    requires Coherent(rt)
    ensures var r := ClearPairing(rt, id);
            && (id == 0 ==> r == rt.(readyCount := 0))
            && (id != 0 ==>
                  && id !in r.transport.remembered && id !in r.transport.connected && id !in r.connected
                  && id !in r.intercom.peers && !Linked(r.links, id) && r.readyCount == 0
                  && OthersStay(rt, r, id))
  {
    if id != 0 {
      ClearedTables(rt, id);
      ClearedLinks(rt, id);
    }
  }

  ghost predicate OthersStay(rt: Runtime, r: Runtime, id: Byte) {
    && |r.links| == |rt.links|
    && (forall x :: x != id ==> (x in r.transport.remembered <==> x in rt.transport.remembered))
    && (forall x :: x != id ==> (x in r.transport.connected <==> x in rt.transport.connected))
    && (forall x :: x != id ==> (x in r.intercom.peers <==> x in rt.intercom.peers))
    && (forall i :: 0 <= i < |rt.links| && rt.links[i].valid && rt.links[i].id != id ==> r.links[i] == rt.links[i])
  }

  lemma ClearedTables(rt: Runtime, id: Byte)
    requires Coherent(rt) && id != 0
    ensures var r := ClearPairing(rt, id);
            && id !in r.transport.remembered && id !in r.transport.connected && id !in r.connected
               && id !in r.intercom.peers
            && (forall x :: x != id ==> (x in r.transport.remembered <==> x in rt.transport.remembered))
            && (forall x :: x != id ==> (x in r.transport.connected <==> x in rt.transport.connected))
            && (forall x :: x != id ==> (x in r.intercom.peers <==> x in rt.intercom.peers))
  {
    RuntimePromise.ClearTransport(rt, id);
    DisconnectOutcome(rt, id);
    DisconnectKeeps(rt, id);
    RemoveFirstMembers(rt.transport.connected, id);
    WithoutMembers(rt.transport.remembered, id);
    if id !in rt.connected { assert !Active(rt.links, id); }
  }

  lemma ClearedLinks(rt: Runtime, id: Byte)
    requires Coherent(rt) && id != 0
    ensures var r := ClearPairing(rt, id);
            && !Linked(r.links, id)
            && (forall i :: 0 <= i < |rt.links| && rt.links[i].valid && rt.links[i].id != id ==>
               r.links[i] == rt.links[i])
  {
    DisconnectOutcome(rt, id);
    DisconnectKeeps(rt, id);
    ErasedLinks(Disconnect(rt, id).rt, id);
  }

  /** Freeing the link of a peer, the last part of a clear. */
  lemma ErasedLinks(d: Runtime, id: Byte)
    requires LinksOk(d.links) && id != 0
    ensures var k := FindLink(d.links, id); var links := if k < |d.links| then d.links[k := NO_LINK] else d.links;
            && !Linked(links, id)
            && (forall i :: 0 <= i < |d.links| && d.links[i].valid && d.links[i].id != id ==> links[i] == d.links[i])
  {
    var k := FindLink(d.links, id);
    if k < |d.links| { OnlyOwner(d.links, k, id); }
  }

  /**
   A disconnect says goodbye on a live session before it takes the peer out, so the message counts as sent and is purged
   with the rest of the peer's packets. Without a session it says nothing.
   */
  lemma DisconnectSays(rt: Runtime, id: Byte) returns (f: Runtime)
    requires Coherent(rt) && id in rt.connected
    ensures if Active(rt.links, id) then Answers(rt, f, id, 6, []) else f == rt
    ensures Disconnect(rt, id).rt.transport == Transport.Disconnect(f.transport, id).state
    ensures Disconnect(rt, id).rt.stats == f.stats
  {
    f := Farewell(rt, id);
    RuntimeHold.DisconnectTransport(rt, id);
    MessageAnswers(rt, id, Protocol.GOODBYE, []);
    var k := FindLink(rt.links, id);
    if k < |rt.links| {
      OnlyOwner(rt.links, k, id);
      assert Active(rt.links, id) ==> rt.links[k].active;
    } else {
      assert forall i :: 0 <= i < |rt.links| && rt.links[i].active ==> Owns(rt.links[i], rt.links[i].id);
    }
    SeverStats(f, id);
  }

  lemma SeverStats(rt: Runtime, id: Byte)
    ensures Sever(rt, id).stats == rt.stats
  {
  }

  /**
   Switching sets the runtime and the transport on or off together, lists whom the transport has connected, and settles
   every link with that list. The tables of the transport, its queue and all counters stay.
   */
  lemma SwitchOutcome(rt: Runtime, on: bool)
    requires Coherent(rt)
    ensures var r := SetEnabled(rt, on);
            && Coherent(r) && r.enabled == on && r.connected == rt.transport.connected
            && r.transport == rt.transport.(enabled := on, backendReady := on, status := r.transport.status)
            && r.now == rt.now && r.stats == rt.stats && r.relay == rt.relay && r.sessions == rt.sessions
            && forall i :: 0 <= i < |rt.links| ==> Settles(rt.links[i], r.links[i], rt.transport.connected)
  {
    SetEnabledKeeps(rt, on);
    var s := Sync(Switched(rt, on));
    SyncKeeps(Switched(rt, on), SESSION_TIMEOUT_MS);
    ReconcileExact(s, 0, SESSION_TIMEOUT_MS);
  }
}
