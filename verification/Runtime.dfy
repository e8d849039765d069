/** The session runtime as the firmware keeps it: one object over fixed tables, the transport and the relay list. */
module Runtime {
  import opened Machine
  import opened Sequences
  import opened Bitwise
  import opened SerialWindow
  import Protocol
  import AudioFrame
  import SessionIds
  import Spec = RuntimeSpec
  import TransportSpec
  import IntercomSpec
  import T = Transport
  import I = Intercom

  class Runtime {
    const links: array<Spec.Link>
    const connectedPeers: array<Byte>
    const relayTargets: array<Byte>
    const transport: T.Transport
    const intercom: I.Intercom
    var connectedCount: nat
    var enabled: bool
    var localId: Byte
    var now: Word32
    var sessions: Spec.Sessions
    var readyCount: nat
    var messagesSent: nat
    var messagesReceived: nat
    var messagesDropped: nat
    var pendingTargets: nat
    var relayTargetCount: nat
    var lastRelayCount: nat
    var relayInvocations: nat
    var lastRelaySource: Byte
    var lastRelayTarget: Byte

    ghost function Footprint(): set<object> {
      {this, links, connectedPeers, relayTargets, intercom, intercom.peers, transport, transport.connectedPeers,
       transport.rememberedPeers, transport.discoveredPeers, transport.packets}
    }

    /** The tables have their sizes, the counts fit, and no two of them share storage. */
    ghost predicate Valid()
      reads this, intercom, transport, transport.connectedPeers
    {
      && links.Length == connectedPeers.Length == relayTargets.Length == MAX_PEERS
      && connectedCount <= MAX_PEERS && pendingTargets <= MAX_PEERS
      && transport.Valid() && intercom.Valid()
      && links as object != connectedPeers && links as object != relayTargets && links as object != intercom.peers
      && links as object !in transport.Footprint()
      && connectedPeers != relayTargets && connectedPeers != intercom.peers && relayTargets != intercom.peers
      && connectedPeers as object !in transport.Footprint()
      && relayTargets as object !in transport.Footprint()
      && intercom.peers as object !in transport.Footprint()
    }

    ghost function View(): Spec.Runtime
      requires Valid()
      reads this, links, connectedPeers, relayTargets, intercom, intercom.peers, transport, transport.connectedPeers
      reads transport.rememberedPeers, transport.discoveredPeers, transport.packets
    {
      Spec.Runtime(enabled, localId, now, sessions, links[..], connectedPeers[..connectedCount], readyCount,
                   Spec.Stats(messagesSent, messagesReceived, messagesDropped),
                   Spec.RelayLog(relayTargets[..pendingTargets], relayTargetCount, lastRelayCount, relayInvocations,
                                 lastRelaySource, lastRelayTarget),
                   intercom.View(), transport.View())
    }

    constructor (intercom: I.Intercom, id: Byte)
      requires intercom.Valid() && id != 0
      ensures Valid() && this.intercom == intercom && fresh(Footprint() - {intercom, intercom.peers})
      ensures View() == Spec.Init(intercom.View(), id)
    {
      this.intercom := intercom;
      links := new Spec.Link[MAX_PEERS](_ => Spec.NO_LINK);
      connectedPeers := new Byte[MAX_PEERS](_ => 0);
      relayTargets := new Byte[MAX_PEERS](_ => 0);
      transport := new T.Transport(id);
      connectedCount, pendingTargets := 0, 0;
      enabled, localId, now := true, id, 0;
      sessions := Spec.Sessions(SessionIds.FirstId(id), []);
      readyCount, messagesSent, messagesReceived, messagesDropped := 0, 0, 0, 0;
      relayTargetCount, lastRelayCount, relayInvocations := 0, 0, 0;
      lastRelaySource, lastRelayTarget := 0, 0;
      new;
      assert links[..] == seq(MAX_PEERS, _ => Spec.NO_LINK);
    }

    // --- the parts, one at a time ---

    method SetLink(k: nat, l: Spec.Link)
      requires Valid() && k < MAX_PEERS
      modifies links
      ensures Valid() && View() == Spec.SetLink(old(View()), k, l)
    {
      links[k] := l;
      assert links[..] == old(links[..])[k := l];
    }

    method CountDropped()
      requires Valid()
      modifies this`messagesDropped
      ensures Valid() && View() == Spec.Dropped(old(View()))
    {
      messagesDropped := messagesDropped + 1;
    }

    method FindLink(id: Byte) returns (k: nat)
      requires Valid()
      ensures k == Spec.FindLink(View().links, id)
    {
      if id == 0 {
        return MAX_PEERS;
      }
      k := 0;
      while k < MAX_PEERS
        invariant 0 <= k <= MAX_PEERS
        invariant forall j :: 0 <= j < k ==> !Spec.Owns(links[j], id)
      {
        if links[k].valid && links[k].id == id {
          break;
        }
        k := k + 1;
      }
      assert forall j :: 0 <= j < k ==> !Spec.Owns(links[..][j], id);
    }

    /** Finds the link of a peer or claims a free slot for it. */
    method GetLink(id: Byte) returns (k: nat)
      requires Valid()
      modifies links
      ensures Valid()
      ensures var o := Spec.OpenLink(old(View()).links, id); View() == old(View()).(links := o.links) && k == o.slot
    {
      k := FindLink(id);
      if k < MAX_PEERS || id == 0 {
        return;
      }
      k := 0;
      while k < MAX_PEERS
        invariant 0 <= k <= MAX_PEERS
        invariant forall j :: 0 <= j < k ==> links[j].valid
      {
        if !links[k].valid {
          assert Spec.FirstFree(links[..]) == k;
          SetLink(k, Spec.FreshLink(id));
          return;
        }
        k := k + 1;
      }
      assert Spec.FirstFree(links[..]) == k;
    }

    method IsLinked(id: Byte) returns (b: bool)
      requires Valid()
      ensures b == (id in View().connected)
    {
      var k := FindPeer(id);
      b := k < connectedCount;
    }

    method FindPeer(id: Byte) returns (k: nat)
      requires Valid()
      ensures k == IndexOf(View().connected, id)
    {
      k := 0;
      while k < connectedCount
        invariant 0 <= k <= connectedCount
        invariant forall j :: 0 <= j < k ==> connectedPeers[j] != id
      {
        if connectedPeers[k] == id {
          return;
        }
        k := k + 1;
      }
    }

    method RefreshReady()
      requires Valid()
      modifies this`readyCount
      ensures Valid() && View() == Spec.Refresh(old(View()))
    {
      var count := 0;
      for k := 0 to MAX_PEERS
        invariant count == Spec.CountReady(links[..k])
      {
        CountOneMore(links[..], k);
        if links[k].valid && links[k].active && links[k].state == Spec.Ready {
          count := count + 1;
        }
        assert links[..k + 1] == links[..][..k + 1] && links[..k] == links[..][..k];
      }
      assert links[..MAX_PEERS] == links[..];
      readyCount := count;
    }

    /** Copies the transport's connected array over the runtime's own. */
    method Sync()
      requires Valid()
      modifies this`connectedCount, connectedPeers
      ensures Valid() && View() == Spec.Sync(old(View()))
    {
      connectedCount := transport.connectedCount;
      for k := 0 to connectedCount
        invariant connectedCount == transport.connectedCount
        invariant forall j :: 0 <= j < k ==> connectedPeers[j] == transport.connectedPeers[j]
      {
        connectedPeers[k] := transport.connectedPeers[k];
      }
      for k := connectedCount to MAX_PEERS
        invariant connectedCount == transport.connectedCount
        invariant forall j :: 0 <= j < connectedCount ==> connectedPeers[j] == transport.connectedPeers[j]
      {
        connectedPeers[k] := 0;
      }
      assert connectedPeers[..connectedCount] == transport.connectedPeers[..connectedCount];
    }

    // --- the transport and the relay list under the runtime ---

    method AddToIntercom(id: Byte)
      requires Valid()
      modifies intercom`count, intercom.peers
      ensures Valid() && View() == old(View()).(intercom := IntercomSpec.AddPeer(old(View()).intercom, id).state)
    {
      var _ := intercom.AddPeer(id);
    }

    method RemoveFromIntercom(id: Byte)
      requires Valid()
      modifies intercom`count, intercom.peers
      ensures Valid() && View() == old(View()).(intercom := IntercomSpec.RemovePeer(old(View()).intercom, id).state)
    {
      var _ := intercom.RemovePeer(id);
    }

    method TransportDisconnect(id: Byte)
      requires Valid()
      modifies transport, transport.connectedPeers, transport.discoveredPeers, transport.packets
      ensures Valid() && View() == old(View()).(transport := TransportSpec.Disconnect(old(View()).transport, id).state)
    {
      var _ := transport.Disconnect(id);
    }

    method Enqueue(target: Byte, payload: seq<Byte>, number: nat) returns (ok: bool)
      requires Valid()
      modifies transport, transport.packets
      ensures Valid()
      ensures var q := TransportSpec.QueuePacket(old(View()).transport, localId, target, payload, number);
              View() == old(View()).(transport := q.state) && ok == q.ok
    {
      ok := transport.QueuePacket(localId, target, payload, number);
    }

    /** Dequeues until the queue is empty. */
    method Flush()
      requires Valid()
      modifies transport, transport.packets
      ensures Valid() && View() == Spec.Flush(old(View()))
    {
      ghost var drained := TransportSpec.Drain(transport.View());
      TransportSpec.DrainStep(transport.View());
      var packet := transport.DequeuePacket();
      while packet.Some?
        invariant Valid() && TransportSpec.Drain(transport.View()) == drained
        invariant packet == None ==> transport.View().fifo.queue == []
        invariant View() == old(View()).(transport := transport.View())
        decreases |transport.View().fifo.queue|, packet.Some?
      {
        TransportSpec.DrainStep(transport.View());
        packet := transport.DequeuePacket();
      }
      TransportSpec.DrainStep(transport.View());
    }

    // --- sending ---

    predicate HasTransport()
      reads this, transport
    {
      enabled && transport.backendReady
    }

    /** Draws the next session id for a peer. */
    method GenerateSessionId(id: Byte) returns (session: Word32)
      requires Valid()
      modifies this`sessions
      ensures Valid()
      ensures var was := old(sessions); var g := SessionIds.Generate(was.next, localId, id);
              session == g.id && View() == old(View()).(sessions := Spec.Sessions(g.next, was.given + [g.id]))
    {
      var next: Word32 := sessions.next;
      if next == 0 {
        next := SessionIds.FirstId(localId);
      }
      session := Xor32(next, id * 0x1_0000);
      if session == 0 {
        session := 1;
      }
      sessions := Spec.Sessions(Wrap32(next + 1), sessions.given + [session]);
    }

    method EnsureSession(k: nat, kind: Byte)
      requires Valid() && k < MAX_PEERS
      modifies this`sessions, links
      ensures Valid() && View() == Spec.EnsureSession(old(View()), k, kind)
    {
      if kind == Protocol.HELLO && links[k].session == 0 {
        var session := GenerateSessionId(links[k].id);
        SetLink(k, links[k].(session := session));
      }
    }

    /** Takes the next number off a link, encodes the message and offers it to the transport. */
    method SendOn(k: nat, kind: Byte, payload: seq<Byte>, flags: Word16) returns (ok: bool)
      requires Valid() && k < MAX_PEERS
      modifies this`messagesSent, this`messagesDropped, links, transport, transport.packets
      ensures Valid() && Spec.Outcome(View(), ok) == Spec.SendOn(old(View()), k, kind, payload, flags)
    {
      var l := links[k];
      var message := ComposeOn(k, kind, payload, flags);
      ghost var consumed := Spec.SetLink(View(), k, Spec.Consume(l));
      SetLink(k, l.(nextTx := Wrap16(l.nextTx + 1), issued := l.issued + 1));
      assert View() == consumed;
      var encoded, bytes := EncodePacket(message);
      if !encoded {
        return false;
      }
      ok := Offer(k, kind, bytes, message, l.issued);
      assert Spec.Outcome(View(), ok) == Spec.Offer(consumed, k, kind, message, l.issued);
    }

    method ComposeOn(k: nat, kind: Byte, payload: seq<Byte>, flags: Word16) returns (message: Protocol.Message)
      requires Valid() && k < MAX_PEERS
      ensures message == Spec.Compose(View(), links[k], kind, payload, flags)
    {
      var l := links[k];
      message := Protocol.Message(Protocol.VERSION, kind, l.session, l.nextTx, l.lastRx, localId, l.id, flags,
                                  payload[..Wrap16(|payload|)]);
    }

    /** Encodes into a buffer of the size of a packet. */
    static method EncodePacket(message: Protocol.Message) returns (encoded: bool, bytes: seq<Byte>)
      ensures encoded <==>
              Protocol.Encodable(message) && Protocol.HEADER_BYTES + |message.payload| <= TransportSpec.MAX_PACKET
      ensures encoded ==> bytes == Protocol.Encode(message)
    {
      var buffer := new Byte[TransportSpec.MAX_PACKET](_ => 0);
      var length;
      encoded, length := Protocol.EncodeInto(buffer, message);
      bytes := if encoded then buffer[..length] else [];
      assert encoded ==> buffer[..length] == buffer[..][..length];
    }

    method Offer(k: nat, kind: Byte, bytes: seq<Byte>, ghost message: Protocol.Message, number: nat) returns (ok: bool)
      requires Valid() && k < MAX_PEERS && bytes == Protocol.Encode(message)
      modifies this`messagesSent, this`messagesDropped, links, transport, transport.packets
      ensures Valid() && Spec.Outcome(View(), ok) == Spec.Offer(old(View()), k, kind, message, number)
    {
      ok := Enqueue(links[k].id, bytes, number);
      if !ok {
        NoteRefused(k);
        return;
      }
      messagesSent := messagesSent + 1;
      NoteSent(k, kind);
    }

    method NoteRefused(k: nat)
      requires Valid() && k < MAX_PEERS
      modifies this`messagesDropped, links
      ensures Valid()
      ensures var l := old(links[k]);
              View() == Spec.Dropped(Spec.SetLink(old(View()), k, l.(dropped := Wrap32(l.dropped + 1))))
    {
      CountDropped();
      SetLink(k, links[k].(dropped := Wrap32(links[k].dropped + 1)));
    }

    method NoteSent(k: nat, kind: Byte)
      requires Valid() && k < MAX_PEERS
      modifies links
      ensures Valid() && View() == Spec.SetLink(old(View()), k, Spec.NoteSent(old(links[k]), kind, now))
    {
      var l := links[k];
      if kind == Protocol.HELLO || kind == Protocol.HELLO_ACK {
        SetLink(k, l.(lastHandshake := now, helloSent := true,
                       state := if l.state != Spec.Ready then Spec.Handshaking else l.state));
      } else {
        assert links[..] == links[..][k := l];
      }
    }

    method QueueMessage(id: Byte, kind: Byte, payload: seq<Byte>, flags: Word16) returns (ok: bool)
      requires Valid()
      modifies this`messagesSent, this`messagesDropped, this`sessions, links, transport, transport.packets
      ensures Valid() && Spec.Outcome(View(), ok) == Spec.QueueMessage(old(View()), id, kind, payload, flags)
    {
      if !HasTransport() || id == 0 {
        return false;
      }
      var k := GetLink(id);
      if k == MAX_PEERS {
        return false;
      }
      var linked := IsLinked(id);
      if !linked {
        return false;
      }
      EnsureSession(k, kind);
      if kind != Protocol.HELLO && links[k].session == 0 {
        return false;
      }
      ok := SendOn(k, kind, payload, flags);
    }

    method SendHello(id: Byte, kind: Byte) returns (ok: bool)
      requires Valid()
      modifies this`messagesSent, this`messagesDropped, this`sessions, links, transport, transport.packets
      ensures Valid() && Spec.Outcome(View(), ok) == Spec.SendHello(old(View()), id, kind)
    {
      ok := QueueMessage(id, kind, Spec.Identity(localId), 0);
    }

    method SendError(id: Byte, code: Byte, reason: seq<Byte>)
      requires Valid()
      modifies this`messagesSent, this`messagesDropped, this`sessions, links, transport, transport.packets
      ensures Valid() && View() == Spec.SendError(old(View()), id, code, reason)
    {
      var payload := Protocol.ErrorPayload(Protocol.ERROR_BUFFER_BYTES, code, reason);
      var _ := QueueMessage(id, Protocol.ERROR, payload, 0);
    }

    // --- session life cycle ---

    method MarkReady(k: nat, id: Byte, session: Word32)
      requires Valid() && k < MAX_PEERS
      modifies this`readyCount, links, intercom`count, intercom.peers
      ensures Valid() && View() == Spec.MarkReady(old(View()), k, id, session)
    {
      var l := links[k];
      SetLink(k, l.(valid := true, id := id, session := if session != 0 then session else l.session,
      active := true, helloReceived := true, helloSent := true, state := Spec.Ready, lastActivity := now));
      AddToIntercom(id);
      RefreshReady();
    }

    method NoteDisconnected(id: Byte)
      requires Valid()
      modifies this`readyCount, links, intercom`count, intercom.peers
      ensures Valid() && View() == Spec.NoteDisconnected(old(View()), id)
    {
      var k := FindLink(id);
      if k == MAX_PEERS {
        return;
      }
      var l := links[k];
      SetLink(k, l.(active := false, session := 0, helloReceived := false, helloSent := false, lastRx := 0,
                   lastAudio := 0, nextTx := 1, issued := 1,
                   state := if l.remembered then Spec.Idle else Spec.Degraded));
      RemoveFromIntercom(id);
      RefreshReady();
    }

    method ReleaseLink(id: Byte)
      requires Valid()
      modifies links
      ensures Valid() && View() == Spec.Release(old(View()), id)
    {
      var k := FindLink(id);
      if k == MAX_PEERS || links[k].remembered {
        return;
      }
      SetLink(k, Spec.NO_LINK);
    }

    method ReconcileSlot(k: nat)
      requires Valid() && k < MAX_PEERS
      modifies this`readyCount, links, intercom`count, intercom.peers
      ensures Valid() && View() == Spec.ReconcileSlot(old(View()), k)
    {
      var l := links[k];
      if !l.valid {
        return;
      }
      var linked := IsLinked(l.id);
      if linked {
        if !l.active && l.state == Spec.Idle {
          SetLink(k, l.(state := Spec.Connecting));
        }
        return;
      }
      NoteDisconnected(l.id);
      if !links[k].remembered {
        ReleaseLink(links[k].id);
      }
    }

    method Reconcile()
      requires Valid()
      modifies this`readyCount, links, intercom`count, intercom.peers
      ensures Valid() && View() == Spec.ReconcileFrom(old(View()), 0)
    {
      ghost var was := View();
      for k := 0 to MAX_PEERS
        invariant Valid() && Spec.ReconcileFrom(View(), k) == Spec.ReconcileFrom(was, 0)
      {
        ReconcileSlot(k);
      }
    }

    method TimeOut(k: nat)
      requires Valid() && k < MAX_PEERS
      modifies this`readyCount, links, intercom`count, intercom.peers
      modifies transport, transport.connectedPeers, transport.discoveredPeers, transport.packets
      ensures Valid() && View() == Spec.TimeOut(old(View()), k)
    {
      var l := links[k];
      SetLink(k, l.(state := Spec.Degraded, active := false));
      RefreshReady();
      NoteDisconnected(l.id);
      TransportDisconnect(l.id);
      TransportClearFlags(l.id);
    }

    method TransportClearFlags(id: Byte)
      requires Valid()
      modifies transport.discoveredPeers
      ensures Valid() && View()
              == old(View()).(transport := TransportSpec.ClearDisconnectFlags(old(View()).transport, id))
    {
      transport.ClearDisconnectFlags(id);
    }

    method ServiceIdle(k: nat)
      requires Valid() && k < MAX_PEERS
      modifies this`messagesSent, this`messagesDropped, this`sessions, links, transport, transport.packets
      ensures Valid() && View() == Spec.ServiceIdle(old(View()), k)
    {
      var due := HelloDue(k);
      if due {
        var _ := SendHello(links[k].id, Protocol.HELLO);
      }
    }

    /** No hello was sent yet, or the last one has gone unanswered for the retry interval. */
    method HelloDue(k: nat) returns (due: bool)
      requires Valid() && k < MAX_PEERS
      ensures var l := links[k];
              due <==> !l.helloSent || Spec.Elapsed(now, l.lastHandshake) >= Spec.HANDSHAKE_RETRY_MS
    {
      due := !links[k].helloSent || Wrap32(now - links[k].lastHandshake) >= Spec.HANDSHAKE_RETRY_MS;
    }

    method KeepAlive(k: nat)
      requires Valid() && k < MAX_PEERS
      modifies this`messagesSent, this`messagesDropped, this`sessions, links, transport, transport.packets
      ensures Valid() && View() == Spec.KeepAlive(old(View()), k)
    {
      if Wrap32(now - links[k].lastActivity) >= Spec.KEEPALIVE_MS {
        var _ := QueueMessage(links[k].id, Protocol.KEEPALIVE, [], 0);
      }
    }

    method ServiceSession(k: nat)
      requires Valid() && k < MAX_PEERS
      modifies this`messagesSent, this`messagesDropped, this`sessions, this`readyCount, links
      modifies intercom`count, intercom.peers, transport, transport.connectedPeers, transport.discoveredPeers,
          transport.packets
      ensures Valid() && View() == Spec.ServiceSession(old(View()), k)
    {
      ghost var was := View();
      var silence := Wrap32(now - links[k].lastActivity);
      assert silence == Spec.Elapsed(was.now, was.links[k].lastActivity);
      if silence >= Spec.SESSION_TIMEOUT_MS {
        assert Spec.ServiceSession(was, k) == Spec.TimeOut(was, k);
        TimeOut(k);
      } else {
        assert Spec.ServiceSession(was, k) == Spec.KeepAlive(was, k);
        KeepAlive(k);
      }
    }

    method ServiceSlot(k: nat)
      requires Valid() && k < MAX_PEERS
      modifies Footprint()
      ensures Valid() && View() == Spec.ServiceSlot(old(View()), k)
    {
      var l := links[k];
      if !l.valid {
        return;
      }
      var linked := IsLinked(l.id);
      if !linked {
        return;
      }
      if !l.active {
        ServiceIdle(k);
      } else {
        ServiceSession(k);
      }
    }

    method Service()
      requires Valid()
      modifies Footprint()
      ensures Valid() && View() == Spec.Service(old(View()))
    {
      if !HasTransport() {
        return;
      }
      ghost var was := View();
      for k := 0 to MAX_PEERS
        invariant Valid() && Spec.ServiceFrom(View(), k) == Spec.ServiceFrom(was, 0)
      {
        ServiceSlot(k);
      }
    }

    method AdvanceClocks()
      requires Valid()
      modifies this`now, transport, transport.connectedPeers, transport.rememberedPeers, transport.discoveredPeers
      ensures Valid() && View() == old(View()).(now := Wrap32(old(now) + TransportSpec.POLL_TICK_MS),
                                   transport := TransportSpec.Tick(old(View()).transport))
    {
      now := Wrap32(now + TransportSpec.POLL_TICK_MS);
      transport.Tick();
    }

    method Tick()
      requires Valid()
      modifies this`now, this`connectedCount, connectedPeers
      modifies transport, transport.connectedPeers, transport.rememberedPeers, transport.discoveredPeers
      ensures Valid() && View() == Spec.Ticked(old(View()))
    {
      AdvanceClocks();
      Sync();
    }

    method Poll()
      requires Valid()
      modifies Footprint()
      ensures Valid() && View() == Spec.Poll(old(View()))
    {
      if !enabled {
        return;
      }
      Tick();
      Reconcile();
      Service();
      Flush();
    }

    // --- commands ---

    method SetEnabled(on: bool)
      requires Valid()
      modifies Footprint()
      ensures Valid() && View() == Spec.SetEnabled(old(View()), on)
    {
      Switch(on);
      Sync();
      Reconcile();
    }

    method Switch(on: bool)
      requires Valid()
      modifies this`enabled, this`readyCount, transport
      ensures Valid()
      ensures View() == old(View()).(enabled := on, transport := TransportSpec.SetEnabled(old(View()).transport, on),
                        readyCount := if on then old(readyCount) else 0)
    {
      enabled := on;
      transport.SetEnabled(on);
      if !on {
        readyCount := 0;
      }
    }

    method TransportConnect(id: Byte) returns (ok: bool)
      requires Valid()
      modifies transport, transport.connectedPeers, transport.rememberedPeers, transport.discoveredPeers
      ensures Valid()
      ensures var c := TransportSpec.Connect(old(View()).transport, id);
              View() == old(View()).(transport := c.state) && ok == c.ok
    {
      ok := transport.Connect(id);
    }

    method ConnectLink(k: nat, id: Byte) returns (ok: bool)
      requires Valid() && k < MAX_PEERS
      modifies this`connectedCount, connectedPeers, links
      modifies transport, transport.connectedPeers, transport.rememberedPeers, transport.discoveredPeers
      ensures Valid() && Spec.Outcome(View(), ok) == Spec.ConnectLink(old(View()), k, id)
    {
      ok := TransportConnect(id);
      if !ok {
        return;
      }
      SetLink(k, links[k].(valid := true, id := id, state := Spec.Connecting, lastHandshake := 0));
      Sync();
    }

    method Connect(id: Byte) returns (ok: bool)
      requires Valid()
      modifies this`connectedCount, connectedPeers, links
      modifies transport, transport.connectedPeers, transport.rememberedPeers, transport.discoveredPeers
      ensures Valid() && Spec.Outcome(View(), ok) == Spec.Connect(old(View()), id)
    {
      if id == 0 || !enabled {
        return false;
      }
      var k := GetLink(id);
      if k == MAX_PEERS {
        return false;
      }
      var linked := IsLinked(id);
      if links[k].active && linked {
        return true;
      }
      ok := ConnectLink(k, id);
    }

    method Farewell(id: Byte)
      requires Valid()
      modifies this`messagesSent, this`messagesDropped, this`sessions, links, transport, transport.packets
      ensures Valid() && View() == Spec.Farewell(old(View()), id)
    {
      var k := FindLink(id);
      if k < MAX_PEERS && links[k].active {
        var _ := QueueMessage(id, Protocol.GOODBYE, [], 0);
      }
    }

    /** Shifts the peer at `index` out of the connected array and clears the freed slot. */
    method Unlist(index: nat)
      requires Valid() && index < connectedCount
      modifies this`connectedCount, connectedPeers
      ensures Valid() && View() == old(View()).(connected := RemoveAt(old(View()).connected, index))
    {
      ghost var was := connectedPeers[..connectedCount];
      for shift := index + 1 to connectedCount
        invariant connectedCount == |was|
        invariant forall j :: 0 <= j < shift - 1 ==> connectedPeers[j] == RemoveAt(was, index)[j]
        invariant forall j :: shift <= j < connectedCount ==> connectedPeers[j] == was[j]
      {
        connectedPeers[shift - 1] := connectedPeers[shift];
      }
      connectedCount := connectedCount - 1;
      connectedPeers[connectedCount] := 0;
      assert connectedPeers[..connectedCount] == RemoveAt(was, index);
    }

    method Sever(index: nat, id: Byte)
      requires Valid() && index < connectedCount && index == IndexOf(View().connected, id)
      modifies Footprint()
      ensures Valid() && View() == Spec.Sever(old(View()), id)
    {
      Uproot(index, id);
      NoteDisconnected(id);
      LetGo(id);
    }

    /** The start of a disconnect: the peer leaves the connected list and the transport. */
    method Uproot(index: nat, id: Byte)
      requires Valid() && index < connectedCount && index == IndexOf(View().connected, id)
      modifies Footprint()
      ensures Valid()
      ensures var was := old(View());
              View() == was.(connected := RemoveFirst(was.connected, id),
                  transport := TransportSpec.Disconnect(was.transport, id).state)
    {
      Unlist(index);
      TransportDisconnect(id);
    }

    /** The end of a disconnect: the peer leaves the relay list and, unless remembered, its link. */
    method LetGo(id: Byte)
      requires Valid()
      modifies Footprint()
      ensures Valid()
      ensures var r := old(View()).(intercom := IntercomSpec.RemovePeer(old(View()).intercom, id).state);
              View() == Spec.Sync(Spec.Release(r, id))
    {
      RemoveFromIntercom(id);
      ReleaseLink(id);
      Sync();
    }

    method Disconnect(id: Byte) returns (ok: bool)
      requires Valid()
      modifies Footprint()
      ensures Valid() && Spec.Outcome(View(), ok) == Spec.Disconnect(old(View()), id)
    {
      var index := FindPeer(id);
      if index >= connectedCount {
        return false;
      }
      FarewellKeepsList(View(), id);
      Farewell(id);
      Sever(index, id);
      ok := true;
    }

    method TransportClearPairing(id: Byte)
      requires Valid()
      modifies transport, transport.rememberedPeers, transport.discoveredPeers
      ensures Valid() && View()
              == old(View()).(transport := TransportSpec.ClearPairing(old(View()).transport, id).state)
    {
      var _ := transport.ClearPairing(id);
    }

    method ClearPairing(id: Byte)
      requires Valid()
      modifies Footprint()
      ensures Valid() && View() == Spec.ClearPairing(old(View()), id)
    {
      if id != 0 {
        var _ := Disconnect(id);
      }
      var k := FindLink(id);
      if k < MAX_PEERS {
        SetLink(k, Spec.NO_LINK);
      }
      TransportClearPairing(id);
      readyCount := 0;
    }

    method TransportRestore(id: Byte) returns (ok: bool)
      requires Valid()
      modifies transport, transport.rememberedPeers, transport.discoveredPeers
      ensures Valid()
      ensures var c := TransportSpec.Restore(old(View()).transport, id);
              View() == old(View()).(transport := c.state) && ok == c.ok
    {
      ok := transport.RestorePairing(id);
    }

    method RestorePairing(id: Byte) returns (ok: bool)
      requires Valid()
      modifies links, transport, transport.rememberedPeers, transport.discoveredPeers
      ensures Valid() && Spec.Outcome(View(), ok) == Spec.RestorePairing(old(View()), id)
    {
      if id == 0 {
        return false;
      }
      ok := TransportRestore(id);
      if !ok {
        return;
      }
      var k := GetLink(id);
      if k == MAX_PEERS {
        return false;
      }
      SetLink(k, links[k].(remembered := true, state := Spec.Idle));
    }

    // --- relaying audio ---

    method RecordRelay(source: Byte, target: Byte)
      requires Valid()
      modifies this`relayInvocations, this`pendingTargets, this`lastRelaySource, this`lastRelayTarget, relayTargets
      ensures Valid() && View() == old(View()).(relay := Spec.RecordRelay(old(View()).relay, source, target))
    {
      relayInvocations := relayInvocations + 1;
      var pending := HasPendingTarget(target);
      if pending || pendingTargets >= MAX_PEERS {
        return;
      }
      NoteRelay(source, target);
      AppendTarget(target);
    }

    method NoteRelay(source: Byte, target: Byte)
      requires Valid()
      modifies this`lastRelaySource, this`lastRelayTarget
      ensures Valid()
      ensures View() == old(View()).(relay := old(View()).relay.(lastSource := source, lastTarget := target))
    {
      lastRelaySource, lastRelayTarget := source, target;
    }

    method HasPendingTarget(target: Byte) returns (b: bool)
      requires Valid()
      ensures b == (target in View().relay.targets)
    {
      for k := 0 to pendingTargets
        invariant forall j :: 0 <= j < k ==> relayTargets[j] != target
      {
        if relayTargets[k] == target {
          assert target in relayTargets[..pendingTargets];
          return true;
        }
      }
      b := false;
    }

    method AppendTarget(target: Byte)
      requires Valid() && pendingTargets < MAX_PEERS
      modifies this`pendingTargets, relayTargets
      ensures Valid()
      ensures var log := old(View()).relay; View() == old(View()).(relay := log.(targets := log.targets + [target]))
    {
      relayTargets[pendingTargets] := target;
      pendingTargets := pendingTargets + 1;
      assert relayTargets[..pendingTargets] == old(relayTargets[..pendingTargets]) + [target];
    }

    method RelayOne(source: Byte, target: Byte, payload: seq<Byte>)
      requires Valid()
      modifies this`relayInvocations, this`pendingTargets, this`lastRelaySource, this`lastRelayTarget, relayTargets
      modifies this`messagesSent, this`messagesDropped, this`sessions, links, transport, transport.packets
      ensures Valid() && View() == Spec.RelayOne(old(View()), source, target, payload)
    {
      RecordRelay(source, target);
      var _ := QueueMessage(target, Protocol.AUDIO, payload, 0);
    }

    /** Walks the relay list and relays to everyone but the source. */
    method Rebroadcast(source: Byte, payload: seq<Byte>) returns (relayed: nat)
      requires Valid()
      modifies this`relayInvocations, this`pendingTargets, this`lastRelaySource, this`lastRelayTarget, relayTargets
      modifies this`messagesSent, this`messagesDropped, this`sessions, links, transport, transport.packets
      ensures Valid()
      ensures var was := old(View());
              if IntercomSpec.Relays(was.intercom, payload) then
                View() == Spec.RelayTo(was, source, was.intercom.peers, payload)
                && relayed == |Without(was.intercom.peers, source)|
              else View() == was && relayed == 0
    {
      if !intercom.enabled || !intercom.pttPressed || payload == [] {
        return 0;
      }
      relayed := RelayAll(source, payload);
    }

    method RelayAll(source: Byte, payload: seq<Byte>) returns (relayed: nat)
      requires Valid()
      modifies this`relayInvocations, this`pendingTargets, this`lastRelaySource, this`lastRelayTarget, relayTargets
      modifies this`messagesSent, this`messagesDropped, this`sessions, links, transport, transport.packets
      ensures Valid()
      ensures var was := old(View()); View() == Spec.RelayTo(was, source, was.intercom.peers, payload)
      ensures relayed == |Without(old(View()).intercom.peers, source)|
    {
      relayed := 0;
      ghost var was, peers := View(), intercom.peers[..intercom.count];
      assert peers[0..] == peers;
      for k := 0 to intercom.count
        invariant Valid() && intercom.peers[..intercom.count] == peers
        invariant Spec.RelayTo(View(), source, peers[k..], payload) == Spec.RelayTo(was, source, peers, payload)
        invariant relayed == |Without(peers[..k], source)|
      {
        ghost var now := View();
        assert intercom.peers[k] == intercom.peers[..intercom.count][k];
        RelayStep(peers, k, source);
        assert Spec.RelayTo(now, source, peers[k..], payload)
            == Spec.RelayTo(Spec.RelayNext(now, source, peers[k], payload), source, peers[k + 1..], payload);
        var sent := RelayUnlessSource(source, intercom.peers[k], payload);
        if sent {
          relayed := relayed + 1;
        }
      }
      assert peers[..|peers|] == peers;
    }

    method RelayUnlessSource(source: Byte, target: Byte, payload: seq<Byte>) returns (sent: bool)
      requires Valid()
      modifies this`relayInvocations, this`pendingTargets, this`lastRelaySource, this`lastRelayTarget, relayTargets
      modifies this`messagesSent, this`messagesDropped, this`sessions, links, transport, transport.packets
      ensures Valid() && sent == (target != source)
      ensures View() == Spec.RelayNext(old(View()), source, target, payload)
    {
      sent := target != source;
      if sent {
        RelayOne(source, target, payload);
      }
    }

    method StartRelay()
      requires Valid()
      modifies this`pendingTargets, this`lastRelayCount, this`lastRelaySource, this`lastRelayTarget
      ensures Valid() && View() == Spec.StartRelay(old(View()))
    {
      pendingTargets := 0;
      lastRelayCount, lastRelaySource, lastRelayTarget := 0, 0, 0;
    }

    method Broadcast(source: Byte, payload: seq<Byte>)
      requires Valid()
      modifies Footprint()
      ensures Valid() && View() == Spec.Broadcast(old(View()), source, payload)
    {
      StartRelay();
      var relayed := Rebroadcast(source, payload);
      FinishRelay(relayed);
      Flush();
    }

    method FinishRelay(relayed: nat)
      requires Valid()
      modifies this`lastRelayCount, this`relayTargetCount
      ensures Valid() && View() == Spec.FinishRelay(old(View()), relayed)
    {
      lastRelayCount := relayed;
      relayTargetCount := pendingTargets;
    }

    method HandleAudio(source: Byte, payload: seq<Byte>)
      requires Valid()
      modifies Footprint()
      ensures Valid() && View() == Spec.HandleAudio(old(View()), source, payload)
    {
      if !HasTransport() || payload == [] {
        return;
      }
      Broadcast(source, payload);
    }

    /** Relays a locally captured frame, encoded into the runtime's packet buffer. */
    method ProcessLocalAudio(source: Byte, frame: AudioFrame.Frame) returns (ok: bool)
      requires Valid()
      modifies Footprint()
      ensures Valid() && Spec.Outcome(View(), ok) == Spec.LocalAudio(old(View()), source, frame)
    {
      if !HasTransport() || readyCount == 0 || !intercom.enabled || !intercom.pttPressed || intercom.count == 0 {
        return false;
      }
      var buffer := new Byte[TransportSpec.MAX_PACKET](_ => 0);
      var encoded, length := AudioFrame.EncodeInto(buffer, frame);
      if !encoded {
        return false;
      }
      assert buffer[..length] == buffer[..][..length] == AudioFrame.Encode(frame);
      Broadcast(source, buffer[..length]);
      ok := lastRelayCount > 0;
    }

    // --- receiving ---

    method ReceiveHello(k: nat, m: Protocol.Message) returns (ok: bool)
      requires Valid() && k < MAX_PEERS
      modifies Footprint()
      ensures Valid() && Spec.Outcome(View(), ok) == Spec.ReceiveHello(old(View()), k, m)
    {
      if m.sessionId == 0 {
        CountDropped();
        SendError(m.source, Protocol.SESSION_ERROR, Spec.REASON_NO_ID);
        return false;
      }
      SetLink(k, links[k].(session := m.sessionId, helloReceived := true, state := Spec.Handshaking));
      MarkReady(k, m.source, m.sessionId);
      ok := SendHello(m.source, Protocol.HELLO_ACK);
    }

    method ReceiveAck(k: nat, m: Protocol.Message) returns (ok: bool)
      requires Valid() && k < MAX_PEERS
      modifies Footprint()
      ensures Valid() && Spec.Outcome(View(), ok) == Spec.ReceiveAck(old(View()), k, m)
    {
      if links[k].session == 0 || m.sessionId != links[k].session {
        CountDropped();
        return false;
      }
      MarkReady(k, m.source, links[k].session);
      ok := true;
    }

    method ReceiveKeepalive(k: nat, m: Protocol.Message) returns (ok: bool)
      requires Valid() && k < MAX_PEERS
      modifies Footprint()
      ensures Valid() && Spec.Outcome(View(), ok) == Spec.ReceiveKeepalive(old(View()), k, m)
    {
      if links[k].session != m.sessionId {
        CountDropped();
        return false;
      }
      MarkReady(k, m.source, links[k].session);
      ok := true;
    }

    /** Counts the frames missing before this one and remembers its sequence. */
    method NoteHeard(k: nat, sequence: Word16)
      requires Valid() && k < MAX_PEERS
      modifies links
      ensures Valid()
      ensures var l := old(links[k]);
              View() == Spec.SetLink(old(View()), k,
                  l.(missing := Wrap32(l.missing + Gap(l.lastAudio, sequence)), lastAudio := sequence))
    {
      var l := links[k];
      if l.lastAudio != 0 {
        var expected := Wrap16(l.lastAudio + 1);
        var gap := Wrap16(sequence - expected);
        if gap > 0 && gap < 0x8000 {
          l := l.(missing := Wrap32(l.missing + gap));
        }
      }
      SetLink(k, l.(lastAudio := sequence));
    }

    method RefuseAudio(source: Byte)
      requires Valid()
      modifies Footprint()
      ensures Valid() && View()
              == Spec.SendError(Spec.Dropped(old(View())), source, Protocol.SESSION_ERROR, Spec.REASON_NOT_READY)
    {
      CountDropped();
      SendError(source, Protocol.SESSION_ERROR, Spec.REASON_NOT_READY);
    }

    method ReceiveAudio(k: nat, m: Protocol.Message) returns (ok: bool)
      requires Valid() && k < MAX_PEERS
      modifies Footprint()
      ensures Valid() && Spec.Outcome(View(), ok) == Spec.ReceiveAudio(old(View()), k, m)
    {
      if !links[k].active || links[k].session != m.sessionId {
        RefuseAudio(m.source);
        return false;
      }
      TakeAudio(k, m);
      ok := true;
    }

    /** Audio of the link's session. */
    method TakeAudio(k: nat, m: Protocol.Message)
      requires Valid() && k < MAX_PEERS && links[k].active && links[k].session == m.sessionId
      modifies Footprint()
      ensures Valid() && Spec.Outcome(View(), true) == Spec.ReceiveAudio(old(View()), k, m)
    {
      NoteHeard(k, m.sequence);
      PlayOn(m.source, m.payload);
    }

    /** Received audio is relayed unless it is empty. */
    method PlayOn(source: Byte, payload: seq<Byte>)
      requires Valid()
      modifies Footprint()
      ensures Valid() && View() == if payload == [] then old(View()) else Spec.Broadcast(old(View()), source, payload)
    {
      if payload != [] {
        Broadcast(source, payload);
      }
    }

    method ReceiveGoodbye(id: Byte)
      requires Valid()
      modifies Footprint()
      ensures Valid()
      ensures var r := Spec.NoteDisconnected(old(View()), id);
              View() == r.(transport := TransportSpec.Disconnect(r.transport, id).state)
    {
      NoteDisconnected(id);
      TransportDisconnect(id);
    }

    method Dispatch(k: nat, m: Protocol.Message) returns (ok: bool)
      requires Valid() && k < MAX_PEERS
      modifies Footprint()
      ensures Valid() && Spec.Outcome(View(), ok) == Spec.Dispatch(old(View()), k, m)
    {
      if m.kind == Protocol.HELLO {
        ok := ReceiveHello(k, m);
      } else if m.kind == Protocol.HELLO_ACK {
        ok := ReceiveAck(k, m);
      } else if m.kind == Protocol.KEEPALIVE {
        ok := ReceiveKeepalive(k, m);
      } else if m.kind == Protocol.AUDIO {
        ok := ReceiveAudio(k, m);
      } else {
        ok := DispatchRest(k, m);
      }
    }

    method DispatchRest(k: nat, m: Protocol.Message) returns (ok: bool)
      requires Valid() && k < MAX_PEERS
      modifies Footprint()
      ensures Valid() && Spec.Outcome(View(), ok) == Spec.DispatchRest(old(View()), k, m)
    {
      if m.kind == Protocol.ERROR {
        SetLink(k, links[k].(state := Spec.Degraded));
        CountDropped();
        ok := false;
      } else if m.kind == Protocol.GOODBYE {
        ReceiveGoodbye(m.source);
        ok := true;
      } else {
        CountDropped();
        ok := false;
      }
    }

    method Receive(k: nat, m: Protocol.Message) returns (ok: bool)
      requires Valid() && k < MAX_PEERS
      modifies Footprint()
      ensures Valid() && Spec.Outcome(View(), ok) == Spec.Receive(old(View()), k, m)
    {
      var l := links[k].(lastActivity := now);
      if Newer(m.sequence, l.lastRx) {
        SetLink(k, l.(lastRx := m.sequence));
      } else if m.sequence == l.lastRx || (m.kind == Protocol.AUDIO && Stale(m.sequence, l.lastRx)) {
        SetLink(k, l.(dropped := Wrap32(l.dropped + 1)));
        CountDropped();
        return false;
      } else {
        SetLink(k, l);
      }
      ok := Dispatch(k, m);
    }

    method Refuse(source: Byte, code: Byte, reason: seq<Byte>)
      requires Valid()
      modifies Footprint()
      ensures Valid() && View() == Spec.SendError(Spec.Dropped(old(View())), source, code, reason)
    {
      CountDropped();
      SendError(source, code, reason);
    }

    method HandlePayload(source: Byte, bytes: seq<Byte>) returns (ok: bool)
      requires Valid()
      modifies Footprint()
      ensures Valid() && Spec.Outcome(View(), ok) == Spec.HandlePayload(old(View()), source, bytes)
    {
      if !HasTransport() || bytes == [] {
        return false;
      }
      var decoded := Protocol.Decode(bytes);
      if decoded.None? {
        Refuse(source, Protocol.DECODE_ERROR, Spec.REASON_DECODE);
        return false;
      }
      var m := decoded.value;
      if m.source != source || (m.target != 0 && m.target != localId) {
        Refuse(source, Protocol.TARGET_ERROR, Spec.REASON_ROUTE);
        return false;
      }
      ok := Admit(source, m);
    }

    method Admit(source: Byte, m: Protocol.Message) returns (ok: bool)
      requires Valid()
      modifies Footprint()
      ensures Valid() && Spec.Outcome(View(), ok) == Spec.Admit(old(View()), source, m)
    {
      var k := GetLink(source);
      if k == MAX_PEERS {
        CountDropped();
        return false;
      }
      ok := AdmitOn(k, m);
    }

    /** A message for which there is a link is counted and goes through its filter. */
    method AdmitOn(k: nat, m: Protocol.Message) returns (ok: bool)
      requires Valid() && k < MAX_PEERS
      modifies Footprint()
      ensures Valid() && Spec.Outcome(View(), ok) == Spec.Receive(Spec.Received(old(View())), k, m)
    {
      CountReceived();
      ok := Receive(k, m);
    }

    method CountReceived()
      requires Valid()
      modifies this`messagesReceived
      ensures Valid() && View() == Spec.Received(old(View()))
    {
      messagesReceived := messagesReceived + 1;
    }
  }

  lemma RelayStep(peers: seq<Byte>, k: nat, source: Byte)
    requires k < |peers|
    ensures peers[k..] != [] && peers[k..][0] == peers[k] && peers[k..][1..] == peers[k + 1..]
    ensures |Without(peers[..k + 1], source)| == |Without(peers[..k], source)| + if peers[k] == source then 0 else 1
  {
    assert peers[..k + 1] == peers[..k] + [peers[k]];
    WithoutAppend(peers[..k], peers[k], source);
  }

  /** Saying goodbye does not touch the connected list. */
  lemma FarewellKeepsList(rt: Spec.Runtime, id: Byte)
    ensures Spec.Farewell(rt, id).connected == rt.connected
  {
  }

  lemma {:induction false} CountOneMore(links: seq<Spec.Link>, k: nat)
    requires k < |links|
    ensures Spec.CountReady(links[..k + 1]) == Spec.CountReady(links[..k]) +
            if links[k].valid && links[k].active && links[k].state == Spec.Ready then 1 else 0
  {
    if k > 0 {
      assert links[..k + 1][1..] == links[1..][..k] && links[..k][1..] == links[1..][..k - 1];
      CountOneMore(links[1..], k - 1);
    }
  }
}
