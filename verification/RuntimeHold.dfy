/**
 Explicit disconnects at the level of the runtime: when they suppress reconnection, that they keep doing so over every
 run, and the one way a disconnect reported as successful fails to.
 */
module RuntimeHold {
  import opened Machine
  import opened RuntimeSpec
  import opened RuntimeInvariant
  import opened RuntimeSteps
  import opened RuntimeRuns
  import RuntimeReadyRuns
  import SerialWindow
  import Protocol
  import AudioFrame
  import Transport = TransportSpec
  import Tables = TransportInvariant
  import Hold = TransportHold

  ghost predicate Held(rt: Runtime, id: Byte) { Hold.Held(rt.transport, id) }

  /** Holding looks only at the three tables, which sending leaves alone. */
  lemma SameTablesHeld(t: Transport.State, t': Transport.State, id: Byte)
    requires t'.connected == t.connected && t'.remembered == t.remembered && t'.discovered == t.discovered
    ensures Hold.Held(t', id) <==> Hold.Held(t, id)
  {
  }

  lemma SentHeld(a: Runtime, b: Runtime, id: Byte)
    requires Sent(a, b)
    ensures Held(b, id) <==> Held(a, id)
  {
    SameTablesHeld(a.transport, b.transport, id);
  }

  // --- the steps of a poll ---

  lemma TimeOutHeld(rt: Runtime, k: nat, id: Byte, limit: nat)
    requires CoherentWithin(rt, limit) && k < |rt.links| && rt.links[k].valid && rt.links[k].id != id && Held(rt, id)
    ensures Held(TimeOut(rt, k), id)
  {
    var x := rt.links[k].id;
    TimeOutIsTearDown(rt, k);
    Tables.DisconnectKeeps(rt.transport, x);
    Hold.HoldAfterDisconnect(rt.transport, x, id);
    Hold.HoldAfterLift(Transport.Disconnect(rt.transport, x).state, x, id);
  }

  lemma ServiceSlotHeld(rt: Runtime, k: nat, id: Byte, limit: nat)
    requires CoherentWithin(rt, limit) && k < |rt.links| && Held(rt, id)
    ensures Held(ServiceSlot(rt, k), id)
  {
    var l := rt.links[k];
    if l.valid && l.id in rt.connected {
      if !l.active {
        QueueMessageSent(rt, l.id, Protocol.HELLO, Identity(rt.localId), 0);
        SentHeld(rt, ServiceSlot(rt, k), id);
      } else if Elapsed(rt.now, l.lastActivity) >= SESSION_TIMEOUT_MS {
        assert l.id in rt.transport.connected;
        TimeOutHeld(rt, k, id, limit);
      } else {
        QueueMessageSent(rt, l.id, Protocol.KEEPALIVE, [], 0);
        SentHeld(rt, ServiceSlot(rt, k), id);
      }
    }
  }

  lemma {:induction false} ServiceHeld(rt: Runtime, k: nat, id: Byte, limit: nat)
    requires CoherentWithin(rt, limit) && k <= |rt.links| && Held(rt, id)
    ensures Held(ServiceFrom(rt, k), id)
    decreases |rt.links| - k
  {
    if k < |rt.links| {
      ServiceSlotHeld(rt, k, id, limit);
      ServiceSlotKeeps(rt, k, limit);
      ServiceHeld(ServiceSlot(rt, k), k + 1, id, limit);
    }
  }

  lemma PollHeld(rt: Runtime, id: Byte)
    requires Coherent(rt) && Held(rt, id)
    ensures Held(Poll(rt), id)
  {
    if rt.enabled {
      var limit := SESSION_TIMEOUT_MS + Transport.POLL_TICK_MS;
      Hold.HoldAfterTick(rt.transport, id);
      TickedKeeps(rt);
      ReconcileKeeps(Ticked(rt), 0, limit);
      ReconcileFrame(Ticked(rt), 0);
      var r := ReconcileFrom(Ticked(rt), 0);
      ServiceHeld(r, 0, id, limit);
      SameTablesHeld(Service(r).transport, Flush(Service(r)).transport, id);
    }
  }

  // --- the other operations ---

  lemma ConnectHeld(rt: Runtime, x: Byte, id: Byte)
    requires Coherent(rt) && Held(rt, id) && x != id
    ensures Held(Connect(rt, x).rt, id)
  {
    Hold.HoldAfterConnect(rt.transport, x, id);
  }

  lemma NoteKeepsTransport(rt: Runtime, id: Byte)
    ensures NoteDisconnected(rt, id).transport == rt.transport
  {
  }

  /** All a disconnect does to the transport is disconnect the peer there, after a possible goodbye. */
  lemma DisconnectTransport(rt: Runtime, x: Byte)
    requires Coherent(rt) && x in rt.connected
    ensures Disconnect(rt, x).rt.transport == Transport.Disconnect(Farewell(rt, x).transport, x).state
    ensures Disconnect(rt, x).ok
  {
    FarewellKeeps(rt, x);
    SeverShape(Farewell(rt, x), x);
  }

  lemma DisconnectHeld(rt: Runtime, x: Byte, id: Byte)
    requires Coherent(rt) && Held(rt, id)
    ensures Held(Disconnect(rt, x).rt, id)
  {
    if x in rt.connected {
      DisconnectTransport(rt, x);
      FarewellKeeps(rt, x);
      SentHeld(rt, Farewell(rt, x), id);
      Hold.HoldAfterDisconnect(Farewell(rt, x).transport, x, id);
    }
  }

  lemma ClearHeld(rt: Runtime, x: Byte, id: Byte)
    requires Coherent(rt) && Held(rt, id)
    ensures Held(ClearPairing(rt, x), id)
  {
    DisconnectHeld(rt, x, id);
    DisconnectKeeps(rt, x);
    var r := if x != 0 then Disconnect(rt, x).rt else rt;
    Hold.HoldAfterClear(r.transport, x, id);
  }

  lemma PayloadHeld(rt: Runtime, source: Byte, bytes: seq<Byte>, id: Byte)
    requires Coherent(rt) && Held(rt, id) && source in rt.transport.connected
    ensures Held(HandlePayload(rt, source, bytes).rt, id)
  {
    if HasTransport(rt) && bytes != [] {
      DroppedKeeps(rt);
      SendErrorKeeps(Dropped(rt), source, Protocol.DECODE_ERROR, REASON_DECODE);
      SentHeld(Dropped(rt), SendError(Dropped(rt), source, Protocol.DECODE_ERROR, REASON_DECODE), id);
      SendErrorKeeps(Dropped(rt), source, Protocol.TARGET_ERROR, REASON_ROUTE);
      SentHeld(Dropped(rt), SendError(Dropped(rt), source, Protocol.TARGET_ERROR, REASON_ROUTE), id);
      OpenLinkKeeps(rt, source, SESSION_TIMEOUT_MS);
      var o := OpenLink(rt.links, source);
      if Protocol.Decode(bytes).Some? && Routed(rt, source, Protocol.Decode(bytes).value) && o.slot < |o.links| {
        ReceiveHeld(Admitted(rt, source), o.slot, Protocol.Decode(bytes).value, id);
      }
    }
  }

  lemma ReceiveHeld(rt: Runtime, k: nat, m: Protocol.Message, id: Byte)
    requires Coherent(rt) && k < |rt.links| && Owns(rt.links[k], m.source) && m.source in rt.transport.connected
    requires Held(rt, id)
    ensures Held(Receive(rt, k, m).rt, id)
  {
    if Accepted(rt, k, m) {
      TouchedKeeps(rt, k, m);
      DispatchHeld(Touched(rt, k, m), k, m, id);
    }
  }

  predicate Accepted(rt: Runtime, k: nat, m: Protocol.Message)
    requires k < |rt.links|
  {
    !SerialWindow.Judge(m.sequence, rt.links[k].lastRx, m.kind == Protocol.AUDIO).Drop?
  }

  lemma DispatchHeld(rt: Runtime, k: nat, m: Protocol.Message, id: Byte)
    requires Coherent(rt) && k < |rt.links| && Owns(rt.links[k], m.source) && m.source in rt.transport.connected
    requires Held(rt, id)
    ensures Held(Dispatch(rt, k, m).rt, id)
  {
    if m.kind == Protocol.HELLO {
      if m.sessionId == 0 {
        DroppedKeeps(rt);
        SendErrorKeeps(Dropped(rt), m.source, Protocol.SESSION_ERROR, REASON_NO_ID);
        SentHeld(Dropped(rt), ReceiveHello(rt, k, m).rt, id);
      } else {
        var l := rt.links[k].(session := m.sessionId, helloReceived := true, state := Handshaking);
        var s := MarkReady(SetLink(rt, k, l), k, m.source, m.sessionId);
        assert LinkOk(s.links[k]);
        QueueMessageSent(s, m.source, Protocol.HELLO_ACK, Identity(rt.localId), 0);
        SentHeld(s, ReceiveHello(rt, k, m).rt, id);
      }
    } else if m.kind == Protocol.AUDIO {
      RuntimeReadyRuns.AudioEndsSending(rt, k, m);
      if !rt.links[k].active || rt.links[k].session != m.sessionId {
        SentHeld(Dropped(rt), ReceiveAudio(rt, k, m).rt, id);
      } else {
        SentHeld(RuntimeReadyRuns.Heard(rt, k, m), ReceiveAudio(rt, k, m).rt, id);
      }
    } else if m.kind == Protocol.GOODBYE {
      NoteKeepsTransport(rt, m.source);
      Hold.HoldAfterDisconnect(rt.transport, m.source, id);
    }
  }

  predicate Deliberate(e: Event, id: Byte) { e == Event.Connecting(id) || e == Restoring(id) }

  lemma CommandHeld(rt: Runtime, e: Event, id: Byte)
    requires Coherent(rt) && IsCommand(e) && Held(rt, id) && !Deliberate(e, id)
    ensures Held(Step(rt, e), id)
  {
    match e
    case Connecting(x) => ConnectHeld(rt, x, id);
    case Disconnecting(x) => DisconnectHeld(rt, x, id);
    case Clearing(x) => ClearHeld(rt, x, id);
    case Restoring(x) => Hold.HoldAfterRestore(rt.transport, x, id);
    case Enabling(b) =>
      var r := Switched(rt, b);
      ReconcileFrame(Sync(r), 0);
      SameTablesHeld(rt.transport, r.transport, id);
    case Polling => PollHeld(rt, id);
  }

  lemma InputHeld(rt: Runtime, e: Event, id: Byte)
    requires Coherent(rt) && !IsCommand(e) && Possible(rt, e) && Held(rt, id)
    ensures Held(Step(rt, e), id)
  {
    match e
    case Capturing(source, frame) =>
      if AudioFrame.Encodable(frame) {
        BroadcastKeeps(rt, source, AudioFrame.Encode(frame), SESSION_TIMEOUT_MS);
        SentHeld(rt, Broadcast(rt, source, AudioFrame.Encode(frame)), id);
      }
    case Injecting(source, payload) =>
      BroadcastKeeps(rt, source, payload, SESSION_TIMEOUT_MS);
      SentHeld(rt, Broadcast(rt, source, payload), id);
    case Receiving(source, bytes) => PayloadHeld(rt, source, bytes, id);
    case Reporting(x, ready) => Hold.HoldAfterReport(rt.transport, x, ready, id);
    case PressingTalk(b) =>
    case SwitchingIntercom(b) =>
  }

  lemma StepHeld(rt: Runtime, e: Event, id: Byte)
    requires Coherent(rt) && Possible(rt, e) && Held(rt, id) && !Deliberate(e, id)
    ensures Held(Step(rt, e), id)
  {
    if IsCommand(e) { CommandHeld(rt, e, id); } else { InputHeld(rt, e, id); }
  }

  /** A held peer stays disconnected over every run without a deliberate connect or restore of it. */
  lemma {:induction false} HeldOverRun(rt: Runtime, events: seq<Event>, last: Runtime, id: Byte)
    requires Coherent(rt) && Held(rt, id) && Reaches(rt, events, last)
    requires forall e :: e in events ==> !Deliberate(e, id)
    ensures Held(last, id) && id !in last.transport.connected && !Active(last.links, id)
    decreases |events|
  {
    if events != [] {
      StepHeld(rt, events[0], id);
      StepKeeps(rt, events[0]);
      HeldOverRun(Step(rt, events[0]), events[1..], last, id);
    }
  }

  /**
   An explicit disconnect always reports success for a peer in the runtime's list, but it suppresses reconnection
   exactly when the transport still had the peer or was suppressing it already.
   */
  lemma DisconnectHoldsIff(rt: Runtime, id: Byte)
    requires Coherent(rt) && id in rt.connected
    ensures Disconnect(rt, id).ok
    ensures Held(Disconnect(rt, id).rt, id) <==> id in rt.transport.connected || Held(rt, id)
  {
    DisconnectTransport(rt, id);
    FarewellKeeps(rt, id);
    var r0 := Farewell(rt, id);
    SentHeld(rt, r0, id);
    Tables.DisconnectKeeps(r0.transport, id);
    if id in rt.transport.connected {
      Hold.DisconnectHolds(r0.transport, id);
    } else {
      SameTablesHeld(r0.transport, Disconnect(rt, id).rt.transport, id);
    }
  }

  /** So a peer disconnected while the transport had it stays away until it is deliberately connected or restored. */
  lemma DisconnectSticks(rt: Runtime, id: Byte, events: seq<Event>, last: Runtime)
    requires Coherent(rt) && id in rt.transport.connected
    requires Reaches(Disconnect(rt, id).rt, events, last)
    requires forall e :: e in events ==> !Deliberate(e, id)
    ensures id !in last.transport.connected && !Active(last.links, id)
  {
    DisconnectHoldsIff(rt, id);
    DisconnectKeeps(rt, id);
    HeldOverRun(Disconnect(rt, id).rt, events, last, id);
  }
}
