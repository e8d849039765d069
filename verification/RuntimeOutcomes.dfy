/** When a connect or a disconnect through the runtime succeeds, and what the caller then finds in all four tables. */
module RuntimeOutcomes {
  import opened Machine
  import opened Sequences
  import opened RuntimeSpec
  import opened RuntimeInvariant
  import opened RuntimeRuns
  import RuntimeHold
  import Protocol
  import Transport = TransportSpec
  import Tables = TransportInvariant
  import Outcomes = TransportOutcomes

  /** Only the link of id was written, in a slot that was free or id's own before. */
  ghost predicate OnlyLinkOf(links: seq<Link>, links': seq<Link>, id: Byte) {
    && |links'| == |links|
    && forall i :: 0 <= i < |links| ==>
                     links'[i] == links[i] || (Owns(links'[i], id) && (Owns(links[i], id) || !links[i].valid))
  }

  ghost predicate Linked(links: seq<Link>, id: Byte) { exists k :: 0 <= k < |links| && Owns(links[k], id) }

  ghost predicate Linkable(links: seq<Link>, id: Byte) {
    Linked(links, id) || exists k :: 0 <= k < |links| && !links[k].valid
  }

  lemma OpenLinkOutcome(links: seq<Link>, id: Byte)
    requires id != 0
    ensures var o := OpenLink(links, id);
            && (o.slot < |links| <==> Linkable(links, id)) && OnlyLinkOf(links, o.links, id)
            && (o.slot < |links| ==> o.links[o.slot] == if Linked(links, id) then links[o.slot] else FreshLink(id))
  {
    var k := FindLink(links, id);
    if k < |links| { assert Owns(links[k], id); }
  }

  lemma SendOnTouches(rt: Runtime, k: nat, kind: Byte, payload: seq<Byte>, flags: Word16)
    requires k < |rt.links|
    ensures var r := SendOn(rt, k, kind, payload, flags).rt;
            r.links == rt.links[k := r.links[k]] && r.links[k].id == rt.links[k].id
                && r.links[k].valid == rt.links[k].valid
  {
    var l := rt.links[k];
    assert rt.links[k := Consume(l)][k] == Consume(l);
  }

  /** A message is sent on its target's link and touches no other. */
  lemma SendTouches(rt: Runtime, id: Byte, kind: Byte, payload: seq<Byte>, flags: Word16)
    ensures OnlyLinkOf(rt.links, QueueMessage(rt, id, kind, payload, flags).rt.links, id)
  {
    if HasTransport(rt) && id != 0 {
      OpenLinkOutcome(rt.links, id);
      var o := OpenLink(rt.links, id);
      var r := rt.(links := o.links);
      if o.slot < |rt.links| && id in rt.connected {
        SendOnTouches(EnsureSession(r, o.slot, kind), o.slot, kind, payload, flags);
      }
    }
  }

  /**
   An active session counts as connected already; otherwise there must be a link to put the peer in, and the transport
   must be able to remember it and have it connected or know it, or have room to, as capable of audio.
   */
  lemma ConnectOkIff(rt: Runtime, id: Byte)
    requires Coherent(rt)
    ensures Connect(rt, id).ok <==>
            && rt.enabled && id != 0 && Linkable(rt.links, id)
            && (Active(rt.links, id)
                || (Outcomes.Memorable(rt.transport, id)
                    && (id in rt.transport.connected
                        || (id != rt.localId && Outcomes.Findable(rt.transport.discovered, id)
                            && Outcomes.AudioCapable(Outcomes.Entry(rt.transport.discovered, id))))))
  {
    if id != 0 && rt.enabled {
      OpenLinkOutcome(rt.links, id);
      ActiveInSlot(rt.links, id);
      Outcomes.ConnectOkIff(rt.transport, id);
    }
  }

  /** A peer's session, if any, is in the slot that is opened for it. */
  lemma ActiveInSlot(links: seq<Link>, id: Byte)
    requires LinksOk(links) && id != 0
    ensures var o := OpenLink(links, id); Active(links, id) <==> o.slot < |links| && o.links[o.slot].active
  {
    OpenLinkOutcome(links, id);
    if Active(links, id) {
      var k :| 0 <= k < |links| && links[k].active && links[k].id == id;
      assert Owns(links[k], id);
    }
  }

  lemma ConnectShape(rt: Runtime, id: Byte)
    requires Coherent(rt) && Connect(rt, id).ok && !Active(rt.links, id)
    ensures var o := OpenLink(rt.links, id); var t := Transport.Connect(rt.transport, id);
            && id != 0 && o.slot < |rt.links| && t.ok
            && Connect(rt, id).rt == rt.(transport := t.state, connected := t.state.connected, links :=
               o.links[o.slot := o.links[o.slot].(valid := true, id := id, state := LinkState.Connecting,
                   lastHandshake := 0)])
  {
    ActiveInSlot(rt.links, id);
  }

  lemma WaitingLinks(links: seq<Link>, id: Byte, l: Link)
    requires LinksOk(links) && id != 0 && OpenLink(links, id).slot < |links| && !Active(links, id)
    requires l == OpenLink(links, id).links[OpenLink(links, id).slot].(valid := true, id := id,
            state := LinkState.Connecting, lastHandshake := 0)
    ensures var links' := OpenLink(links, id).links[OpenLink(links, id).slot := l];
            OnlyLinkOf(links, links', id) && Waiting(links', id) && !Active(links', id)
  {
    OpenLinkOutcome(links, id);
    ActiveInSlot(links, id);
    var o := OpenLink(links, id);
    assert Owns(o.links[o.slot := l][o.slot], id);
  }

  /**
   A successful connect: every list has the peer, its link waits for the handshake, and no session or other link moved.
   */
  lemma ConnectMakes(rt: Runtime, id: Byte)
    requires Coherent(rt) && Connect(rt, id).ok && !Active(rt.links, id)
    ensures var r := Connect(rt, id).rt;
            && id in r.transport.connected && r.connected == r.transport.connected && id in r.transport.remembered
            && OnlyLinkOf(rt.links, r.links, id) && Waiting(r.links, id)
            && r.intercom == rt.intercom && r.readyCount == rt.readyCount && r.transport.fifo == rt.transport.fifo
            && !Active(r.links, id)
  {
    ConnectShape(rt, id);
    Outcomes.ConnectOkIff(rt.transport, id);
    Tables.ConnectKeeps(rt.transport, id);
    WaitingLinks(rt.links, id, Connect(rt, id).rt.links[OpenLink(rt.links, id).slot]);
  }

  /** The peer's link is in its first state, with no session. */
  ghost predicate Waiting(links: seq<Link>, id: Byte) {
    exists k :: 0 <= k < |links| && Owns(links[k], id) && links[k].state == LinkState.Connecting && !links[k].active
  }

  /**
   A disconnect succeeds exactly for a listed peer. It takes the peer out of every list and ends its session; every
   other peer keeps its connection, its place in the relay list and its link.
   */
  lemma DisconnectOutcome(rt: Runtime, id: Byte)
    requires Coherent(rt)
    ensures var d := Disconnect(rt, id); var r := d.rt;
            && (d.ok <==> id in rt.connected)
            && (d.ok ==>
                  && id !in r.connected && id !in r.transport.connected && id !in r.intercom.peers
                     && !Active(r.links, id)
                  && r.connected == r.transport.connected == RemoveFirst(rt.transport.connected, id)
                  && (forall x :: x != id ==> (x in r.intercom.peers <==> x in rt.intercom.peers))
                  && (forall i :: 0 <= i < |rt.links| && rt.links[i].valid && rt.links[i].id != id ==>
                     r.links[i] == rt.links[i]))
            && (!d.ok ==> r == rt)
  {
    if id in rt.connected {
      FarewellKeeps(rt, id);
      SendTouches(rt, id, Protocol.GOODBYE, [], 0);
      var f := Farewell(rt, id);
      assert f.transport.connected == rt.transport.connected && f.intercom == rt.intercom;
      SeverOutcome(f, id);
      RuntimeHold.DisconnectTransport(rt, id);
      Outcomes.DisconnectOutcome(f.transport, id);
      DisconnectKeeps(rt, id);
    }
  }

  lemma SeverOutcome(rt: Runtime, id: Byte)
    requires Coherent(rt)
    ensures var r := Sever(rt, id);
            && r.connected == r.transport.connected && id !in r.intercom.peers && !Active(r.links, id)
            && (forall x :: x != id ==> (x in r.intercom.peers <==> x in rt.intercom.peers))
            && (forall i :: 0 <= i < |rt.links| && rt.links[i].valid && rt.links[i].id != id ==>
               r.links[i] == rt.links[i])
  {
    SeverShape(rt, id);
    SeverKeeps(rt, id);
    var n := NoteDisconnected(rt, id);
    NoteApart(rt, id);
    ReleaseApart(n, id);
    RemoveFirstMembers(rt.intercom.peers, id);
  }

  lemma NoteApart(rt: Runtime, id: Byte)
    requires Coherent(rt)
    ensures var n := NoteDisconnected(rt, id);
            && (forall x :: x != id ==> (x in n.intercom.peers <==> x in rt.intercom.peers))
            && (forall i :: 0 <= i < |rt.links| && rt.links[i].id != id ==> n.links[i] == rt.links[i])
  {
    RemoveFirstMembers(rt.intercom.peers, id);
  }

  lemma ReleaseApart(rt: Runtime, id: Byte)
    ensures forall i :: 0 <= i < |rt.links| && rt.links[i].id != id ==> Release(rt, id).links[i] == rt.links[i]
  {
  }
}
