/**
 What one link hears over a run, between two losses of its peer: its last sequence is the 16-bit filter's position on
 the messages that arrived from that peer, and its missing-frame count is the sum of gaps in the audio it accepted,
 whatever polls, relays, commands and other peers come in between.
 */
module RuntimeHeard {
  import opened Machine
  import opened SerialWindow
  import opened RuntimeSpec
  import opened RuntimeInvariant
  import opened RuntimeSteps
  import opened RuntimeRuns
  import RuntimeOutcomes
  import RuntimeReadyRuns
  import Protocol
  import AudioFrame
  import Transport = TransportSpec
  import Tables = TransportInvariant

  /** The three fields that record what was heard. */
  predicate SameEar(l: Link, l': Link) {
    l'.lastRx == l.lastRx && l'.lastAudio == l.lastAudio && l'.missing == l.missing
  }

  /** Slot k holds the link of a peer that the transport has connected. */
  predicate Online(rt: Runtime, k: nat, id: Byte) {
    k < |rt.links| && Owns(rt.links[k], id) && id in rt.transport.connected
  }

  // --- steps that hear nothing ---

  lemma SentEar(a: Runtime, b: Runtime, k: nat)
    requires Sent(a, b) && k < |a.links| && a.links[k].valid
    ensures SameEar(a.links[k], b.links[k]) && Owns(b.links[k], a.links[k].id)
  {
    assert LinkKept(a.links[k], b.links[k]);
  }

  lemma ConnectEar(rt: Runtime, x: Byte, k: nat)
    requires LinksOk(rt.links) && k < |rt.links| && rt.links[k].valid
    ensures SameEar(rt.links[k], Connect(rt, x).rt.links[k])
  {
    OpenLinkShape(rt.links, x);
  }

  lemma RestoreEar(rt: Runtime, x: Byte, k: nat)
    requires LinksOk(rt.links) && k < |rt.links| && rt.links[k].valid
    ensures SameEar(rt.links[k], RestorePairing(rt, x).rt.links[k])
  {
    OpenLinkShape(rt.links, x);
  }

  lemma DisconnectEar(rt: Runtime, x: Byte, k: nat, id: Byte)
    requires Coherent(rt) && Online(rt, k, id) && id in Disconnect(rt, x).rt.transport.connected
    ensures Disconnect(rt, x).rt.links[k] == rt.links[k]
  {
    RuntimeOutcomes.DisconnectOutcome(rt, x);
    DisconnectKeeps(rt, x);
  }

  lemma ClearEar(rt: Runtime, x: Byte, k: nat, id: Byte)
    requires Coherent(rt) && Online(rt, k, id) && Online(ClearPairing(rt, x), k, id)
    ensures SameEar(rt.links[k], ClearPairing(rt, x).links[k])
  {
    var r := if x != 0 then Disconnect(rt, x).rt else rt;
    assert r.transport.connected == ClearPairing(rt, x).transport.connected;
    if x != 0 { DisconnectEar(rt, x, k, id); }
    var j := FindLink(r.links, x);
    if j == k { DisconnectKeeps(rt, x); }
  }

  lemma ReconcileSlotEar(rt: Runtime, j: nat, k: nat, limit: nat)
    requires CoherentWithin(rt, limit) && j < |rt.links| && k < |rt.links|
    requires rt.links[k].valid && rt.links[k].id in rt.connected
    ensures var r := ReconcileSlot(rt, j);
            && SameEar(rt.links[k], r.links[k]) && Owns(r.links[k], rt.links[k].id)
            && r.connected == rt.connected && r.transport == rt.transport
  {
    var l := rt.links[j];
    if l.valid && l.id !in rt.connected {
      FindOwner(rt.links, j);
      FindOwner(NoteDisconnected(rt, l.id).links, j);
    }
  }

  lemma {:induction false} ReconcileEar(rt: Runtime, j: nat, k: nat, limit: nat)
    requires CoherentWithin(rt, limit) && j <= |rt.links| && k < |rt.links|
    requires rt.links[k].valid && rt.links[k].id in rt.connected
    ensures var r := ReconcileFrom(rt, j);
            && SameEar(rt.links[k], r.links[k]) && Owns(r.links[k], rt.links[k].id)
            && r.connected == rt.connected && r.transport == rt.transport
    decreases |rt.links| - j
  {
    if j < |rt.links| {
      ReconcileSlotEar(rt, j, k, limit);
      ReconcileSlotKeeps(rt, j, limit);
      ReconcileEar(ReconcileSlot(rt, j), j + 1, k, limit);
    }
  }

  /** Servicing connects nobody. */
  lemma ServiceSlotShrinks(rt: Runtime, j: nat, limit: nat)
    requires CoherentWithin(rt, limit) && j < |rt.links|
    ensures forall x :: x in ServiceSlot(rt, j).transport.connected ==> x in rt.transport.connected
  {
    var l := rt.links[j];
    if l.valid && l.id in rt.connected {
      if !l.active {
        QueueMessageSent(rt, l.id, Protocol.HELLO, Identity(rt.localId), 0);
      } else if Elapsed(rt.now, l.lastActivity) >= SESSION_TIMEOUT_MS {
        TimeOutIsTearDown(rt, j);
        Tables.DisconnectKeeps(rt.transport, l.id);
      } else {
        QueueMessageSent(rt, l.id, Protocol.KEEPALIVE, [], 0);
      }
    }
  }

  lemma {:induction false} ServiceShrinks(rt: Runtime, j: nat, limit: nat)
    requires CoherentWithin(rt, limit) && j <= |rt.links|
    ensures forall x :: x in ServiceFrom(rt, j).transport.connected ==> x in rt.transport.connected
    decreases |rt.links| - j
  {
    if j < |rt.links| {
      ServiceSlotShrinks(rt, j, limit);
      ServiceSlotKeeps(rt, j, limit);
      ServiceShrinks(ServiceSlot(rt, j), j + 1, limit);
    }
  }

  /** A time-out touches the link of its own peer, which it takes out of the transport. */
  lemma TimeOutEar(rt: Runtime, j: nat, k: nat)
    requires LinksOk(rt.links) && j < |rt.links| && k < |rt.links| && rt.links[j].valid && rt.links[k].valid
    requires Tables.WellFormed(rt.transport) && rt.links[k].id in TimeOut(rt, j).transport.connected
    ensures TimeOut(rt, j).links[k] == rt.links[k]
  {
    TimeOutIsTearDown(rt, j);
    FindOwner(rt.links, j);
    Tables.DisconnectKeeps(rt.transport, rt.links[j].id);
  }

  lemma ServiceSlotEar(rt: Runtime, j: nat, k: nat, id: Byte, limit: nat)
    requires CoherentWithin(rt, limit) && j < |rt.links| && k < |rt.links| && Owns(rt.links[k], id)
    requires id in ServiceSlot(rt, j).transport.connected
    ensures SameEar(rt.links[k], ServiceSlot(rt, j).links[k]) && Owns(ServiceSlot(rt, j).links[k], id)
  {
    var l := rt.links[j];
    if l.valid && l.id in rt.connected {
      if !l.active {
        QueueMessageSent(rt, l.id, Protocol.HELLO, Identity(rt.localId), 0);
        SentEar(rt, ServiceSlot(rt, j), k);
      } else if Elapsed(rt.now, l.lastActivity) >= SESSION_TIMEOUT_MS {
        TimeOutEar(rt, j, k);
      } else {
        QueueMessageSent(rt, l.id, Protocol.KEEPALIVE, [], 0);
        SentEar(rt, ServiceSlot(rt, j), k);
      }
    }
  }

  lemma {:induction false} ServiceEar(rt: Runtime, j: nat, k: nat, id: Byte, limit: nat)
    requires CoherentWithin(rt, limit) && j <= |rt.links| && k < |rt.links| && Owns(rt.links[k], id)
    requires id in ServiceFrom(rt, j).transport.connected
    ensures SameEar(rt.links[k], ServiceFrom(rt, j).links[k])
    decreases |rt.links| - j
  {
    if j < |rt.links| {
      ServiceSlotKeeps(rt, j, limit);
      ServiceShrinks(ServiceSlot(rt, j), j + 1, limit);
      ServiceSlotEar(rt, j, k, id, limit);
      ServiceEar(ServiceSlot(rt, j), j + 1, k, id, limit);
    }
  }

  lemma PollEar(rt: Runtime, k: nat, id: Byte)
    requires Coherent(rt) && Online(rt, k, id) && Online(Poll(rt), k, id)
    ensures SameEar(rt.links[k], Poll(rt).links[k])
  {
    if rt.enabled {
      var limit := SESSION_TIMEOUT_MS + Transport.POLL_TICK_MS;
      var a := Ticked(rt);
      TickExact(rt.transport);
      TickedKeeps(rt);
      ReconcileEar(a, 0, k, limit);
      ReconcileKeeps(a, 0, limit);
      ServiceEar(ReconcileFrom(a, 0), 0, k, id, limit);
    }
  }

  lemma EnableEar(rt: Runtime, b: bool, k: nat, id: Byte)
    requires Coherent(rt) && Online(rt, k, id)
    ensures SameEar(rt.links[k], SetEnabled(rt, b).links[k])
  {
    var r := Switched(rt, b);
    assert Coherent(r);
    SyncKeeps(r, SESSION_TIMEOUT_MS);
    ReconcileEar(Sync(r), 0, k, SESSION_TIMEOUT_MS);
  }

  // --- a message from the peer ---

  /** The message a payload from id brings to id's link, once decoded and routed. */
  function HeardFrom(rt: Runtime, e: Event, id: Byte): Option<Protocol.Message> {
    if e.Receiving? && e.source == id && HasTransport(rt) && e.bytes != []
       && Protocol.Decode(e.bytes).Some? && Routed(rt, id, Protocol.Decode(e.bytes).value)
    then Protocol.Decode(e.bytes) else None
  }

  predicate IsAudio(m: Protocol.Message) { m.kind == Protocol.AUDIO }

  /** The link lets the message through its filter, and as audio of its own session. */
  predicate Accepts(l: Link, m: Protocol.Message) {
    IsAudio(m) && Judge(m.sequence, l.lastRx, true) != Drop && l.active && l.session == m.sessionId
  }

  /** What hearing a message does to the three fields. */
  predicate Hears(l: Link, l': Link, m: Protocol.Message) {
    && l'.lastRx == Moved(l.lastRx, m.sequence, Judge(m.sequence, l.lastRx, IsAudio(m)))
    && if Accepts(l, m) then l'.lastAudio == m.sequence
                             && l'.missing == Wrap32(l.missing + Gap(l.lastAudio, m.sequence))
       else l'.lastAudio == l.lastAudio && l'.missing == l.missing
  }

  predicate StepHears(l: Link, l': Link, heard: Option<Protocol.Message>) {
    match heard
    case None => SameEar(l, l')
    case Some(m) => Hears(l, l', m)
  }

  /** What dispatching a message that passed the filter does to the three fields. */
  predicate Dispatched(l: Link, l': Link, m: Protocol.Message) {
    && l'.lastRx == l.lastRx
    && if IsAudio(m) && l.active && l.session == m.sessionId
       then l'.lastAudio == m.sequence && l'.missing == Wrap32(l.missing + Gap(l.lastAudio, m.sequence))
       else l'.lastAudio == l.lastAudio && l'.missing == l.missing
  }

  lemma AudioEar(rt: Runtime, k: nat, m: Protocol.Message)
    requires Coherent(rt) && Online(rt, k, m.source) && IsAudio(m)
    ensures Dispatched(rt.links[k], ReceiveAudio(rt, k, m).rt.links[k], m)
  {
    RuntimeReadyRuns.AudioEndsSending(rt, k, m);
    if !rt.links[k].active || rt.links[k].session != m.sessionId {
      SentEar(Dropped(rt), ReceiveAudio(rt, k, m).rt, k);
    } else {
      SentEar(RuntimeReadyRuns.Heard(rt, k, m), ReceiveAudio(rt, k, m).rt, k);
    }
  }

  lemma DispatchEar(rt: Runtime, k: nat, m: Protocol.Message)
    requires Coherent(rt) && Online(rt, k, m.source) && m.source in Dispatch(rt, k, m).rt.transport.connected
    ensures Dispatched(rt.links[k], Dispatch(rt, k, m).rt.links[k], m)
  {
    if m.kind == Protocol.HELLO {
      HelloEar(rt, k, m);
    } else if m.kind == Protocol.AUDIO {
      AudioEar(rt, k, m);
    } else if m.kind == Protocol.HELLO_ACK || m.kind == Protocol.KEEPALIVE {
      ReadyEar(rt, k, m);
    } else {
      RestEar(rt, k, m);
    }
  }

  lemma ReadyEar(rt: Runtime, k: nat, m: Protocol.Message)
    requires k < |rt.links|
    ensures SameEar(rt.links[k], ReceiveAck(rt, k, m).rt.links[k])
    ensures SameEar(rt.links[k], ReceiveKeepalive(rt, k, m).rt.links[k])
  {
  }

  /** A goodbye takes the peer out of the transport, and an error only degrades the link. */
  lemma RestEar(rt: Runtime, k: nat, m: Protocol.Message)
    requires Coherent(rt) && Online(rt, k, m.source) && m.source in DispatchRest(rt, k, m).rt.transport.connected
    ensures SameEar(rt.links[k], DispatchRest(rt, k, m).rt.links[k])
  {
    if m.kind == Protocol.GOODBYE { Tables.DisconnectKeeps(rt.transport, m.source); }
  }

  lemma HelloEar(rt: Runtime, k: nat, m: Protocol.Message)
    requires Coherent(rt) && Online(rt, k, m.source)
    ensures SameEar(rt.links[k], ReceiveHello(rt, k, m).rt.links[k])
  {
    if m.sessionId == 0 {
      DroppedKeeps(rt);
      SendErrorKeeps(Dropped(rt), m.source, Protocol.SESSION_ERROR, REASON_NO_ID);
      SentEar(Dropped(rt), ReceiveHello(rt, k, m).rt, k);
    } else {
      var l := rt.links[k].(session := m.sessionId, helloReceived := true, state := Handshaking);
      var s := MarkReady(SetLink(rt, k, l), k, m.source, m.sessionId);
      assert LinkOk(s.links[k]);
      QueueMessageSent(s, m.source, Protocol.HELLO_ACK, Identity(rt.localId), 0);
      SentEar(s, ReceiveHello(rt, k, m).rt, k);
    }
  }

  lemma ReceiveEar(rt: Runtime, k: nat, m: Protocol.Message)
    requires Coherent(rt) && Online(rt, k, m.source) && m.source in Receive(rt, k, m).rt.transport.connected
    ensures Hears(rt.links[k], Receive(rt, k, m).rt.links[k], m)
  {
    if Judge(m.sequence, rt.links[k].lastRx, IsAudio(m)) != Drop {
      TouchedKeeps(rt, k, m);
      DispatchEar(Touched(rt, k, m), k, m);
      TouchedHears(rt.links[k], Touched(rt, k, m).links[k], Receive(rt, k, m).rt.links[k], m);
    }
  }

  lemma TouchedHears(l: Link, touched: Link, l': Link, m: Protocol.Message)
    requires touched.lastRx == Moved(l.lastRx, m.sequence, Judge(m.sequence, l.lastRx, IsAudio(m)))
    requires touched.lastAudio == l.lastAudio && touched.missing == l.missing
    requires touched.active == l.active && touched.session == l.session
    requires Judge(m.sequence, l.lastRx, IsAudio(m)) != Drop && Dispatched(touched, l', m)
    ensures Hears(l, l', m)
  {
  }

  // --- a message from another peer ---

  lemma HelloApart(rt: Runtime, j: nat, k: nat, m: Protocol.Message)
    requires Coherent(rt) && j < |rt.links| && k < |rt.links| && j != k && rt.links[k].valid
            && Owns(rt.links[j], m.source)
    ensures SameEar(rt.links[k], ReceiveHello(rt, j, m).rt.links[k])
  {
    if m.sessionId == 0 {
      DroppedKeeps(rt);
      SendErrorKeeps(Dropped(rt), m.source, Protocol.SESSION_ERROR, REASON_NO_ID);
      SentEar(Dropped(rt), ReceiveHello(rt, j, m).rt, k);
    } else {
      var l := rt.links[j].(session := m.sessionId, helloReceived := true, state := Handshaking);
      var s := MarkReady(SetLink(rt, j, l), j, m.source, m.sessionId);
      assert LinkOk(s.links[j]);
      QueueMessageSent(s, m.source, Protocol.HELLO_ACK, Identity(rt.localId), 0);
      SentEar(s, ReceiveHello(rt, j, m).rt, k);
    }
  }

  lemma AudioApart(rt: Runtime, j: nat, k: nat, m: Protocol.Message)
    requires Coherent(rt) && j < |rt.links| && k < |rt.links| && j != k && rt.links[k].valid
            && Owns(rt.links[j], m.source)
    ensures SameEar(rt.links[k], ReceiveAudio(rt, j, m).rt.links[k])
  {
    RuntimeReadyRuns.AudioEndsSending(rt, j, m);
    if !rt.links[j].active || rt.links[j].session != m.sessionId {
      SentEar(Dropped(rt), ReceiveAudio(rt, j, m).rt, k);
    } else {
      SentEar(RuntimeReadyRuns.Heard(rt, j, m), ReceiveAudio(rt, j, m).rt, k);
    }
  }

  lemma DispatchApart(rt: Runtime, j: nat, k: nat, m: Protocol.Message)
    requires Coherent(rt) && j < |rt.links| && k < |rt.links| && j != k && rt.links[k].valid
            && Owns(rt.links[j], m.source)
    ensures SameEar(rt.links[k], Dispatch(rt, j, m).rt.links[k])
  {
    if m.kind == Protocol.HELLO {
      HelloApart(rt, j, k, m);
    } else if m.kind == Protocol.AUDIO {
      AudioApart(rt, j, k, m);
    } else if m.kind == Protocol.GOODBYE {
      FindOwner(rt.links, j);
    }
  }

  lemma ReceiveApart(rt: Runtime, j: nat, k: nat, m: Protocol.Message)
    requires Coherent(rt) && j < |rt.links| && k < |rt.links| && j != k && rt.links[k].valid
            && Owns(rt.links[j], m.source)
    ensures SameEar(rt.links[k], Receive(rt, j, m).rt.links[k])
  {
    if Judge(m.sequence, rt.links[j].lastRx, IsAudio(m)) != Drop {
      TouchedKeeps(rt, j, m);
      DispatchApart(Touched(rt, j, m), j, k, m);
    }
  }

  lemma RefusedEar(rt: Runtime, source: Byte, code: Byte, reason: seq<Byte>, k: nat)
    requires Coherent(rt) && k < |rt.links| && rt.links[k].valid
    ensures SameEar(rt.links[k], SendError(Dropped(rt), source, code, reason).links[k])
  {
    DroppedKeeps(rt);
    SendErrorKeeps(Dropped(rt), source, code, reason);
    SentEar(Dropped(rt), SendError(Dropped(rt), source, code, reason), k);
  }

  /** The link a message from source is received on: k itself when it comes from k's peer, another one otherwise. */
  lemma SlotOf(rt: Runtime, k: nat, id: Byte, source: Byte)
    requires Coherent(rt) && Online(rt, k, id)
    ensures var o := OpenLink(rt.links, source);
            && (source == id ==> o.slot == k && o.links == rt.links) && (source != id ==> o.slot != k)
            && o.links[k] == rt.links[k] && Coherent(Admitted(rt, source))
  {
    OpenLinkKeeps(rt, source, SESSION_TIMEOUT_MS);
    OpenLinkShape(rt.links, source);
    FindOwner(rt.links, k);
  }

  /** A payload that decodes, is routed here and passes the filter is dispatched. */
  lemma PayloadDispatched(rt: Runtime, source: Byte, bytes: seq<Byte>, m: Protocol.Message, k: nat)
    requires HasTransport(rt) && bytes != [] && Protocol.Decode(bytes) == Some(m) && Routed(rt, source, m)
    requires OpenLink(rt.links, source).slot == k < |rt.links|
    requires Judge(m.sequence, OpenLink(rt.links, source).links[k].lastRx, m.kind == Protocol.AUDIO) != Drop
    ensures HandlePayload(rt, source, bytes) == Dispatch(Touched(Admitted(rt, source), k, m), k, m)
  {
    assert HandlePayload(rt, source, bytes) == Admit(rt, source, m);
    AdmittedDispatched(rt, source, m, k);
  }

  lemma AdmittedDispatched(rt: Runtime, source: Byte, m: Protocol.Message, k: nat)
    requires OpenLink(rt.links, source).slot == k < |rt.links|
    requires Judge(m.sequence, OpenLink(rt.links, source).links[k].lastRx, m.kind == Protocol.AUDIO) != Drop
    ensures Admit(rt, source, m) == Dispatch(Touched(Admitted(rt, source), k, m), k, m)
  {
    assert Admit(rt, source, m) == Receive(Admitted(rt, source), k, m);
  }

  lemma PayloadEar(rt: Runtime, source: Byte, bytes: seq<Byte>, k: nat, id: Byte)
    requires Coherent(rt) && Online(rt, k, id) && Online(HandlePayload(rt, source, bytes).rt, k, id)
    ensures var l, l' := rt.links[k], HandlePayload(rt, source, bytes).rt.links[k];
            StepHears(l, l', HeardFrom(rt, Receiving(source, bytes), id))
  {
    if HasTransport(rt) && bytes != [] {
      RefusedEar(rt, source, Protocol.DECODE_ERROR, REASON_DECODE, k);
      RefusedEar(rt, source, Protocol.TARGET_ERROR, REASON_ROUTE, k);
      if Protocol.Decode(bytes).Some? && Routed(rt, source, Protocol.Decode(bytes).value) {
        AdmitEar(rt, Protocol.Decode(bytes).value, k, id);
      }
    }
  }

  /** A routed message is heard on the link of the peer it comes from. */
  lemma AdmitEar(rt: Runtime, m: Protocol.Message, k: nat, id: Byte)
    requires Coherent(rt) && Online(rt, k, id) && Online(Admit(rt, m.source, m).rt, k, id)
    ensures var l, l' := rt.links[k], Admit(rt, m.source, m).rt.links[k];
            StepHears(l, l', if m.source == id then Some(m) else None)
  {
    SlotOf(rt, k, id, m.source);
    var o := OpenLink(rt.links, m.source);
    if o.slot < |o.links| {
      if m.source == id {
        ReceiveEar(Admitted(rt, id), k, m);
      } else {
        ReceiveApart(Admitted(rt, m.source), o.slot, k, m);
      }
    }
  }

  // --- any step ---

  /** A step after which the peer is still online changes what its link has heard by the message it brings, if any. */
  lemma StepEar(rt: Runtime, e: Event, k: nat, id: Byte)
    requires Coherent(rt) && Online(rt, k, id) && Online(Step(rt, e), k, id)
    ensures var l, l' := rt.links[k], Step(rt, e).links[k];
            StepHears(l, l', HeardFrom(rt, e, id))
  {
    if IsCommand(e) {
      CommandEar(rt, e, k, id);
    } else if e.Receiving? {
      PayloadEar(rt, e.source, e.bytes, k, id);
    } else {
      InputEar(rt, e, k, id);
    }
  }

  lemma CommandEar(rt: Runtime, e: Event, k: nat, id: Byte)
    requires Coherent(rt) && IsCommand(e) && Online(rt, k, id) && Online(Step(rt, e), k, id)
    ensures SameEar(rt.links[k], Step(rt, e).links[k])
  {
    match e
    case Connecting(x) => ConnectEar(rt, x, k);
    case Disconnecting(x) => DisconnectEar(rt, x, k, id);
    case Clearing(x) => ClearEar(rt, x, k, id);
    case Restoring(x) => RestoreEar(rt, x, k);
    case Enabling(b) => EnableEar(rt, b, k, id);
    case Polling => PollEar(rt, k, id);
  }

  lemma InputEar(rt: Runtime, e: Event, k: nat, id: Byte)
    requires Coherent(rt) && !IsCommand(e) && !e.Receiving? && Online(rt, k, id)
    ensures SameEar(rt.links[k], Step(rt, e).links[k])
  {
    match e
    case Capturing(source, frame) =>
      if AudioFrame.Encodable(frame) {
        BroadcastKeeps(rt, source, AudioFrame.Encode(frame), SESSION_TIMEOUT_MS);
        SentEar(rt, Broadcast(rt, source, AudioFrame.Encode(frame)), k);
      }
    case Injecting(source, payload) =>
      BroadcastKeeps(rt, source, payload, SESSION_TIMEOUT_MS);
      SentEar(rt, Broadcast(rt, source, payload), k);
    case Reporting(x, ready) =>
    case PressingTalk(b) =>
    case SwitchingIntercom(b) =>
  }
}
