/** Coherence over every public operation and every run from start-up. */
module RuntimeRuns {
  import opened Machine
  import opened Sequences
  import opened SerialWindow
  import opened RuntimeSpec
  import opened RuntimeInvariant
  import opened RuntimeSteps
  import Protocol
  import AudioFrame
  import Intercom = IntercomSpec
  import Transport = TransportSpec
  import Tables = TransportInvariant
  import TransportPoll

  // --- the transport changing under the runtime ---

  ghost predicate SameSettings(t: Transport.State, t': Transport.State) {
    t'.enabled == t.enabled && t'.backendReady == t.backendReady && t'.localId == t.localId
  }

  lemma TransportChange(rt: Runtime, t': Transport.State, connected: seq<Byte>, limit: nat)
    requires CoherentWithin(rt, limit)
    requires Tables.WellFormed(t') && SameSettings(rt.transport, t') && t'.fifo == rt.transport.fifo
    requires forall id :: id in rt.transport.connected ==> id in t'.connected
    requires NoDup(connected) && |connected| <= MAX_PEERS && forall id :: id in t'.connected ==> id in connected
    requires rt.localId !in connected
    ensures CoherentWithin(rt.(transport := t', connected := connected), limit)
  {
  }

  // --- polling ---

  lemma ElapsedTick(now: Word32, since: Word32)
    requires Elapsed(now, since) < SESSION_TIMEOUT_MS
    ensures Elapsed(Wrap32(now + Transport.POLL_TICK_MS), since) == Elapsed(now, since) + Transport.POLL_TICK_MS
  {
  }

  lemma TickExact(t: Transport.State)
    requires Tables.WellFormed(t) && t.enabled
    ensures Tables.WellFormed(Transport.Tick(t)) && SameSettings(t, Transport.Tick(t))
            && Transport.Tick(t).fifo == t.fifo
    ensures forall id :: id in t.connected ==> id in Transport.Tick(t).connected
  {
    TransportPoll.PollExact(t.(lastPoll := Wrap32(t.lastPoll + Transport.POLL_TICK_MS)));
  }

  lemma TickedKeeps(rt: Runtime)
    requires Coherent(rt) && rt.enabled
    ensures CoherentWithin(Ticked(rt), SESSION_TIMEOUT_MS + Transport.POLL_TICK_MS)
  {
    var limit := SESSION_TIMEOUT_MS + Transport.POLL_TICK_MS;
    var r := rt.(now := Wrap32(rt.now + Transport.POLL_TICK_MS));
    forall i | 0 <= i < |r.links| && r.links[i].active ensures Elapsed(r.now, r.links[i].lastActivity) < limit {
      ElapsedTick(rt.now, r.links[i].lastActivity);
    }
    assert CoherentWithin(r, limit);
    TickExact(rt.transport);
    TransportChange(r, Transport.Tick(rt.transport), Transport.Tick(rt.transport).connected, limit);
  }

  ghost predicate Reconciled(a: Runtime, b: Runtime) {
    && b.enabled == a.enabled && b.now == a.now && b.transport == a.transport && b.connected == a.connected
    && Subsessions(a, b)
  }

  lemma NoteDisconnectedFrame(rt: Runtime, id: Byte)
    ensures Reconciled(rt, NoteDisconnected(rt, id))
  {
  }

  lemma ReleaseFrame(rt: Runtime, id: Byte)
    ensures Reconciled(rt, Release(rt, id))
  {
  }

  lemma ReconcileSlotFrame(rt: Runtime, k: nat)
    requires k < |rt.links|
    ensures Reconciled(rt, ReconcileSlot(rt, k))
  {
    NoteDisconnectedFrame(rt, rt.links[k].id);
    var r := NoteDisconnected(rt, rt.links[k].id);
    ReleaseFrame(r, r.links[k].id);
  }

  lemma {:induction false} ReconcileFrame(rt: Runtime, k: nat)
    requires k <= |rt.links|
    ensures Reconciled(rt, ReconcileFrom(rt, k))
    decreases |rt.links| - k
  {
    if k < |rt.links| {
      ReconcileSlotFrame(rt, k);
      ReconcileFrame(ReconcileSlot(rt, k), k + 1);
    }
  }

  /** After every poll while enabled, each active session was heard from less than five seconds ago. */
  lemma PollKeeps(rt: Runtime)
    requires Coherent(rt)
    ensures Coherent(Poll(rt))
    ensures rt.enabled ==> Subsessions(rt, Poll(rt)) && Poll(rt).now == Wrap32(rt.now + Transport.POLL_TICK_MS)
  {
    if rt.enabled {
      var limit := SESSION_TIMEOUT_MS + Transport.POLL_TICK_MS;
      var a := Ticked(rt);
      TickedKeeps(rt);
      ReconcileKeeps(a, 0, limit);
      ReconcileFrame(a, 0);
      SettleKeeps(ReconcileFrom(a, 0), limit);
    }
  }

  lemma SettleKeeps(rt: Runtime, limit: nat)
    requires CoherentWithin(rt, limit) && rt.enabled
    ensures Coherent(Flush(Service(rt))) && Subsessions(rt, Flush(Service(rt))) && Flush(Service(rt)).now == rt.now
  {
    ServiceKeeps(rt, 0, limit);
    FlushKeeps(Service(rt), SESSION_TIMEOUT_MS);
  }

  // --- commands ---

  lemma ConnectLinkKeeps(rt: Runtime, k: nat, id: Byte)
    requires Coherent(rt) && k < |rt.links| && Owns(rt.links[k], id) && !rt.links[k].active
    ensures Coherent(ConnectLink(rt, k, id).rt)
  {
    Tables.ConnectKeeps(rt.transport, id);
    ConnectSettings(rt.transport, id);
    var t := Transport.Connect(rt.transport, id).state;
    if Transport.Connect(rt.transport, id).ok {
      TransportChange(rt, t, t.connected, SESSION_TIMEOUT_MS);
      var r := Sync(rt.(transport := t));
      var l := rt.links[k].(valid := true, id := id, state := LinkState.Connecting, lastHandshake := 0);
      RewriteKeeps(r, SetLink(r, k, l), k, l, SESSION_TIMEOUT_MS);
    } else {
      TransportChange(rt, t, rt.connected, SESSION_TIMEOUT_MS);
    }
  }

  lemma ConnectSlotSettings(t: Transport.State, k: nat, id: Byte)
    requires k < |t.discovered|
    ensures SameSettings(t, Transport.ConnectSlot(t, k, id).state)
  {
  }

  lemma ConnectSettings(t: Transport.State, id: Byte)
    ensures SameSettings(t, Transport.Connect(t, id).state)
  {
    var r := Transport.Remember(t, id);
    var o := Transport.Open(r.state, id);
    assert SameSettings(t, r.state) && SameSettings(t, o.state);
    if o.slot < |o.state.discovered| { ConnectSlotSettings(o.state, o.slot, id); }
  }

  lemma ConnectKeeps(rt: Runtime, id: Byte)
    requires Coherent(rt)
    ensures Coherent(Connect(rt, id).rt)
  {
    if id != 0 && rt.enabled {
      OpenLinkKeeps(rt, id, SESSION_TIMEOUT_MS);
      var o := OpenLink(rt.links, id);
      var r := rt.(links := o.links);
      if o.slot < |rt.links| && !(r.links[o.slot].active && id in rt.connected) {
        assert !r.links[o.slot].active;
        ConnectLinkKeeps(r, o.slot, id);
      }
    }
  }

  lemma FarewellKeeps(rt: Runtime, id: Byte)
    requires Coherent(rt)
    ensures Coherent(Farewell(rt, id)) && Sent(rt, Farewell(rt, id))
  {
    QueueMessageKeeps(rt, id, Protocol.GOODBYE, [], 0, SESSION_TIMEOUT_MS);
    QueueMessageSent(rt, id, Protocol.GOODBYE, [], 0);
  }

  /** The peer's session ended, and the peer taken out of the transport and the connected list. */
  function Severed(rt: Runtime, id: Byte): (r: Runtime)
    ensures |r.links| == |rt.links|
  {
    NoteDisconnected(rt, id).(transport := Transport.Disconnect(rt.transport, id).state,
        connected := RemoveFirst(rt.connected, id))
  }

  /** What is left after severing a peer, in terms of its session's end alone. */
  lemma SeverShape(rt: Runtime, id: Byte)
    requires Coherent(rt)
    ensures Coherent(Severed(rt, id)) && id !in Severed(rt, id).transport.connected
    ensures Sever(rt, id) == Sync(Release(Severed(rt, id), id))
  {
    var t := Transport.Disconnect(rt.transport, id).state;
    DisconnectParts(rt, id, SESSION_TIMEOUT_MS);
    NoteDisconnectedKeeps(rt, id, t, SESSION_TIMEOUT_MS);
    RemoveFirstMembers(rt.connected, id);
    var x := NoteDisconnected(rt, id).(transport := t);
    TransportChange(x, t, RemoveFirst(rt.connected, id), SESSION_TIMEOUT_MS);
    var r2 := NoteDisconnected(rt.(connected := RemoveFirst(rt.connected, id), transport := t), id);
    assert r2 == x.(connected := RemoveFirst(rt.connected, id));
    assert id !in r2.intercom.peers;
    assert r2.(intercom := Intercom.RemovePeer(r2.intercom, id).state) == r2;
  }

  lemma SeverKeeps(rt: Runtime, id: Byte)
    requires Coherent(rt)
    ensures Coherent(Sever(rt, id)) && id !in Sever(rt, id).transport.connected
  {
    SeverShape(rt, id);
    var r := Severed(rt, id);
    ReleaseKeeps(r, id, SESSION_TIMEOUT_MS);
    SyncKeeps(Release(r, id), SESSION_TIMEOUT_MS);
  }

  lemma DisconnectKeeps(rt: Runtime, id: Byte)
    requires Coherent(rt)
    ensures Coherent(Disconnect(rt, id).rt)
    ensures id !in Disconnect(rt, id).rt.transport.connected
  {
    if id in rt.connected {
      FarewellKeeps(rt, id);
      SeverKeeps(Farewell(rt, id), id);
    }
  }

  lemma ClearPairingKeeps(rt: Runtime, id: Byte)
    requires Coherent(rt)
    ensures Coherent(ClearPairing(rt, id))
  {
    DisconnectKeeps(rt, id);
    var r := if id != 0 then Disconnect(rt, id).rt else rt;
    var k := FindLink(r.links, id);
    if k < |r.links| {
      EraseKeeps(r, k, SESSION_TIMEOUT_MS);
    }
    var r' := if k < |r.links| then SetLink(r, k, NO_LINK) else r;
    Tables.ClearKeepsIff(r'.transport, id);
    TransportChange(r', Transport.ClearPairing(r'.transport, id).state, r'.connected, SESSION_TIMEOUT_MS);
  }

  lemma RestoreKeeps(rt: Runtime, id: Byte)
    requires Coherent(rt)
    ensures Coherent(RestorePairing(rt, id).rt)
  {
    if id != 0 {
      Tables.RestoreKeeps(rt.transport, id);
      var t := Transport.Restore(rt.transport, id);
      TransportChange(rt, t.state, rt.connected, SESSION_TIMEOUT_MS);
      if t.ok {
        var r := rt.(transport := t.state);
        OpenLinkKeeps(r, id, SESSION_TIMEOUT_MS);
        var o := OpenLink(r.links, id);
        var r' := r.(links := o.links);
        if o.slot < |r.links| {
          var l := r'.links[o.slot].(remembered := true, state := Idle);
          RewriteKeeps(r', RestorePairing(rt, id).rt, o.slot, l, SESSION_TIMEOUT_MS);
        }
      }
    }
  }

  /** The switch thrown, before the lists are synchronised and the links reconciled. */
  function Switched(rt: Runtime, enabled: bool): Runtime {
    rt.(enabled := enabled, transport := Transport.SetEnabled(rt.transport, enabled),
        readyCount := if enabled then rt.readyCount else 0)
  }

  lemma SetEnabledKeeps(rt: Runtime, enabled: bool)
    requires Coherent(rt)
    ensures Coherent(SetEnabled(rt, enabled))
  {
    var r := Switched(rt, enabled);
    assert Coherent(r);
    SyncKeeps(r, SESSION_TIMEOUT_MS);
    ReconcileKeeps(Sync(r), 0, SESSION_TIMEOUT_MS);
  }

  lemma ReportKeeps(rt: Runtime, id: Byte, audioReady: bool)
    requires Coherent(rt)
    ensures Coherent(rt.(transport := Transport.Report(rt.transport, id, audioReady).state))
  {
    Tables.ReportKeeps(rt.transport, id, audioReady);
    var t := Transport.Report(rt.transport, id, audioReady).state;
    TransportChange(rt, t, rt.connected, SESSION_TIMEOUT_MS);
  }

  // --- receiving ---

  /** The message would make the session of the link in slot k ready. */
  predicate Establishes(l: Link, m: Protocol.Message) {
    || (m.kind == Protocol.HELLO && m.sessionId != 0)
    || (m.kind == Protocol.HELLO_ACK && l.session != 0 && m.sessionId == l.session)
    || (m.kind == Protocol.KEEPALIVE && m.sessionId == l.session)
  }

  lemma DroppedKeeps(rt: Runtime)
    requires Coherent(rt)
    ensures Coherent(Dropped(rt))
  {
  }

  lemma SendErrorKeeps(rt: Runtime, id: Byte, code: Byte, reason: seq<Byte>)
    requires Coherent(rt)
    ensures Coherent(SendError(rt, id, code, reason)) && Sent(rt, SendError(rt, id, code, reason))
  {
    var payload := Protocol.ErrorPayload(Protocol.ERROR_BUFFER_BYTES, code, reason);
    QueueMessageKeeps(rt, id, Protocol.ERROR, payload, 0, SESSION_TIMEOUT_MS);
    QueueMessageSent(rt, id, Protocol.ERROR, payload, 0);
  }

  lemma HelloKeeps(rt: Runtime, k: nat, m: Protocol.Message)
    requires Coherent(rt) && k < |rt.links| && Owns(rt.links[k], m.source) && m.kind == Protocol.HELLO
    requires m.sessionId != 0 ==> m.source in rt.transport.connected
    ensures Coherent(ReceiveHello(rt, k, m).rt)
  {
    if m.sessionId == 0 {
      DroppedKeeps(rt);
      SendErrorKeeps(Dropped(rt), m.source, Protocol.SESSION_ERROR, REASON_NO_ID);
    } else {
      var l := rt.links[k].(session := m.sessionId, helloReceived := true, state := Handshaking);
      var r := SetLink(rt, k, l);
      RewriteKeeps(rt, r, k, l, SESSION_TIMEOUT_MS);
      MarkReadyKeeps(r, k, m.source, m.sessionId, SESSION_TIMEOUT_MS);
      var s := MarkReady(r, k, m.source, m.sessionId);
      QueueMessageKeeps(s, m.source, Protocol.HELLO_ACK, Identity(rt.localId), 0, SESSION_TIMEOUT_MS);
    }
  }

  lemma AudioKeeps(rt: Runtime, k: nat, m: Protocol.Message)
    requires Coherent(rt) && k < |rt.links| && Owns(rt.links[k], m.source)
    ensures Coherent(ReceiveAudio(rt, k, m).rt)
  {
    var l := rt.links[k];
    if !l.active || l.session != m.sessionId {
      DroppedKeeps(rt);
      SendErrorKeeps(Dropped(rt), m.source, Protocol.SESSION_ERROR, REASON_NOT_READY);
    } else {
      var l' := l.(missing := Wrap32(l.missing + Gap(l.lastAudio, m.sequence)), lastAudio := m.sequence);
      var r := SetLink(rt, k, l');
      RewriteKeeps(rt, r, k, l', SESSION_TIMEOUT_MS);
      BroadcastKeeps(r, m.source, m.payload, SESSION_TIMEOUT_MS);
    }
  }

  lemma GoodbyeKeeps(rt: Runtime, id: Byte)
    requires Coherent(rt)
    ensures var r := NoteDisconnected(rt, id);
            Coherent(r.(transport := Transport.Disconnect(r.transport, id).state))
  {
    DisconnectParts(rt, id, SESSION_TIMEOUT_MS);
    NoteDisconnectedKeeps(rt, id, Transport.Disconnect(rt.transport, id).state, SESSION_TIMEOUT_MS);
  }

  lemma DispatchKeeps(rt: Runtime, k: nat, m: Protocol.Message)
    requires Coherent(rt) && k < |rt.links| && Owns(rt.links[k], m.source)
    requires Establishes(rt.links[k], m) ==> m.source in rt.transport.connected
    ensures Coherent(Dispatch(rt, k, m).rt)
  {
    if m.kind == Protocol.HELLO {
      HelloKeeps(rt, k, m);
    } else if m.kind == Protocol.HELLO_ACK || m.kind == Protocol.KEEPALIVE {
      if Establishes(rt.links[k], m) {
        MarkReadyKeeps(rt, k, m.source, rt.links[k].session, SESSION_TIMEOUT_MS);
      }
    } else if m.kind == Protocol.AUDIO {
      AudioKeeps(rt, k, m);
    } else if m.kind == Protocol.ERROR {
      RewriteKeeps(rt, Dispatch(rt, k, m).rt, k, rt.links[k].(state := Degraded), SESSION_TIMEOUT_MS);
    } else if m.kind == Protocol.GOODBYE {
      GoodbyeKeeps(rt, m.source);
    }
  }

  function Touched(rt: Runtime, k: nat, m: Protocol.Message): (r: Runtime)
    requires k < |rt.links|
    ensures |r.links| == |rt.links|
  {
    var l := rt.links[k].(lastActivity := rt.now);
    SetLink(rt, k, if Judge(m.sequence, l.lastRx, m.kind == Protocol.AUDIO) == Advance
        then l.(lastRx := m.sequence) else l)
  }

  lemma TouchedKeeps(rt: Runtime, k: nat, m: Protocol.Message)
    requires Coherent(rt) && k < |rt.links| && rt.links[k].valid
    ensures Coherent(Touched(rt, k, m))
  {
    RewriteKeeps(rt, Touched(rt, k, m), k, Touched(rt, k, m).links[k], SESSION_TIMEOUT_MS);
  }

  lemma DuplicateKeeps(rt: Runtime, k: nat)
    requires Coherent(rt) && k < |rt.links| && rt.links[k].valid
    ensures var l := rt.links[k].(lastActivity := rt.now);
            Coherent(Dropped(SetLink(rt, k, l.(dropped := Wrap32(l.dropped + 1)))))
  {
    var l := rt.links[k];
    var l' := l.(lastActivity := rt.now, dropped := Wrap32(l.dropped + 1));
    RewriteKeeps(rt, SetLink(rt, k, l'), k, l', SESSION_TIMEOUT_MS);
    DroppedKeeps(SetLink(rt, k, l'));
  }

  lemma ReceiveKeeps(rt: Runtime, k: nat, m: Protocol.Message)
    requires Coherent(rt) && k < |rt.links| && Owns(rt.links[k], m.source)
    requires Judge(m.sequence, rt.links[k].lastRx, m.kind == Protocol.AUDIO) != Drop && Establishes(rt.links[k], m)
             ==> m.source in rt.transport.connected
    ensures Coherent(Receive(rt, k, m).rt)
  {
    if Judge(m.sequence, rt.links[k].lastRx, m.kind == Protocol.AUDIO) == Drop {
      DuplicateKeeps(rt, k);
    } else {
      TouchedKeeps(rt, k, m);
      DispatchKeeps(Touched(rt, k, m), k, m);
    }
  }

  /** The payload gets past routing, link allocation and the duplicate filter, and makes the session ready. */
  predicate Promotes(rt: Runtime, source: Byte, bytes: seq<Byte>) {
    && HasTransport(rt) && bytes != [] && Protocol.Decode(bytes).Some?
    && var m := Protocol.Decode(bytes).value;
       && Routed(rt, source, m)
       && var o := OpenLink(rt.links, source);
          && o.slot < |o.links|
          && Judge(m.sequence, o.links[o.slot].lastRx, m.kind == Protocol.AUDIO) != Drop
          && Establishes(o.links[o.slot], m)
  }

  function Admitted(rt: Runtime, source: Byte): (r: Runtime)
    ensures |r.links| == |rt.links|
  {
    Received(rt.(links := OpenLink(rt.links, source).links))
  }

  lemma PayloadKeeps(rt: Runtime, source: Byte, bytes: seq<Byte>)
    requires Coherent(rt)
    requires Promotes(rt, source, bytes) ==> source in rt.transport.connected
    ensures Coherent(HandlePayload(rt, source, bytes).rt)
  {
    if HasTransport(rt) && bytes != [] {
      DroppedKeeps(rt);
      SendErrorKeeps(Dropped(rt), source, Protocol.DECODE_ERROR, REASON_DECODE);
      SendErrorKeeps(Dropped(rt), source, Protocol.TARGET_ERROR, REASON_ROUTE);
      if Protocol.Decode(bytes).Some? && Routed(rt, source, Protocol.Decode(bytes).value) {
        AdmitKeeps(rt, Protocol.Decode(bytes).value);
      }
    }
  }

  lemma AdmitKeeps(rt: Runtime, m: Protocol.Message)
    requires Coherent(rt)
    requires var o := OpenLink(rt.links, m.source);
             && o.slot < |o.links| && Judge(m.sequence, o.links[o.slot].lastRx, m.kind == Protocol.AUDIO) != Drop
             && Establishes(o.links[o.slot], m)
             ==> m.source in rt.transport.connected
    ensures Coherent(Admit(rt, m.source, m).rt)
  {
    OpenLinkKeeps(rt, m.source, SESSION_TIMEOUT_MS);
    var o := OpenLink(rt.links, m.source);
    if o.slot < |o.links| { ReceiveKeeps(Admitted(rt, m.source), o.slot, m); }
  }

  lemma DispatchActivates(rt: Runtime, k: nat, m: Protocol.Message)
    requires LinksOk(rt.links) && k < |rt.links| && rt.links[k].valid && m.source == rt.links[k].id
    requires Establishes(rt.links[k], m)
    ensures var r := Dispatch(rt, k, m).rt;
            Active(r.links, m.source) && r.transport.connected == rt.transport.connected
  {
    if m.kind == Protocol.HELLO {
      var l := rt.links[k].(session := m.sessionId, helloReceived := true, state := Handshaking);
      var s := MarkReady(SetLink(rt, k, l), k, m.source, m.sessionId);
      assert LinkOk(s.links[k]);
      HelloAckSent(s, k, m.source);
      var o := SendHello(s, m.source, Protocol.HELLO_ACK).rt;
      assert o.links[k].active && o.links[k].id == m.source;
    } else {
      var s := MarkReady(rt, k, m.source, rt.links[k].session);
      assert s.links[k].active && s.links[k].id == m.source;
    }
  }

  /** A session that became ready for a peer the transport does not hold breaks the agreement of the tables. */
  lemma PromotionActivates(rt: Runtime, source: Byte, bytes: seq<Byte>)
    requires Coherent(rt) && Promotes(rt, source, bytes)
    ensures var r := HandlePayload(rt, source, bytes).rt;
            Active(r.links, source) && r.transport.connected == rt.transport.connected
  {
    var m := Protocol.Decode(bytes).value;
    var k := OpenLink(rt.links, source).slot;
    OpenLinkKeeps(rt, source, SESSION_TIMEOUT_MS);
    TouchedKeeps(Admitted(rt, source), k, m);
    DispatchActivates(Touched(Admitted(rt, source), k, m), k, m);
  }

  lemma HelloAckSent(rt: Runtime, k: nat, id: Byte)
    requires LinksOk(rt.links) && k < |rt.links| && rt.links[k].valid
    ensures Sent(rt, SendHello(rt, id, Protocol.HELLO_ACK).rt)
    ensures LinkKept(rt.links[k], SendHello(rt, id, Protocol.HELLO_ACK).rt.links[k])
  {
    QueueMessageSent(rt, id, Protocol.HELLO_ACK, Identity(rt.localId), 0);
  }

  /**
   A received payload keeps the tables in agreement exactly when it comes from a transport-connected peer or
   does not make a session ready.
   */
  lemma PayloadKeepsIff(rt: Runtime, source: Byte, bytes: seq<Byte>)
    requires Coherent(rt)
    ensures Coherent(HandlePayload(rt, source, bytes).rt) <==>
            source in rt.transport.connected || !Promotes(rt, source, bytes)
  {
    if source in rt.transport.connected || !Promotes(rt, source, bytes) {
      PayloadKeeps(rt, source, bytes);
    } else {
      PromotionActivates(rt, source, bytes);
      var r := HandlePayload(rt, source, bytes).rt;
      var k :| 0 <= k < |r.links| && r.links[k].active && r.links[k].id == source;
    }
  }

  // --- runs ---

  datatype Event =
    | Connecting(id: Byte)
    | Disconnecting(id: Byte)
    | Clearing(id: Byte)
    | Restoring(id: Byte)
    | Enabling(enabled: bool)
    | Polling
    | Capturing(source: Byte, frame: AudioFrame.Frame)
    | Injecting(source: Byte, payload: seq<Byte>)
    | Receiving(source: Byte, bytes: seq<Byte>)
    | Reporting(id: Byte, audioReady: bool)
    | PressingTalk(pressed: bool)
    | SwitchingIntercom(enabled: bool)

  function Step(rt: Runtime, e: Event): Runtime {
    match e
    case Connecting(id) => Connect(rt, id).rt
    case Disconnecting(id) => Disconnect(rt, id).rt
    case Clearing(id) => ClearPairing(rt, id)
    case Restoring(id) => RestorePairing(rt, id).rt
    case Enabling(b) => SetEnabled(rt, b)
    case Polling => Poll(rt)
    case Capturing(source, frame) => LocalAudio(rt, source, frame).rt
    case Injecting(source, payload) => HandleAudio(rt, source, payload)
    case Receiving(source, bytes) => HandlePayload(rt, source, bytes).rt
    case Reporting(id, ready) => rt.(transport := Transport.Report(rt.transport, id, ready).state)
    case PressingTalk(b) => rt.(intercom := rt.intercom.(pttPressed := b))
    case SwitchingIntercom(b) => rt.(intercom := rt.intercom.(enabled := b))
  }

  /** Payloads are handed up by the transport, so they come from peers it has connected. */
  predicate Possible(rt: Runtime, e: Event) { e.Receiving? ==> e.source in rt.transport.connected }

  /** The operations the application calls, as opposed to what arrives from the radio, the microphone or a button. */
  predicate IsCommand(e: Event) {
    e.Connecting? || e.Disconnecting? || e.Clearing? || e.Restoring? || e.Enabling? || e.Polling?
  }

  lemma CommandKeeps(rt: Runtime, e: Event)
    requires Coherent(rt) && IsCommand(e)
    ensures Coherent(Step(rt, e))
  {
    match e
    case Connecting(id) => ConnectKeeps(rt, id);
    case Disconnecting(id) => DisconnectKeeps(rt, id);
    case Clearing(id) => ClearPairingKeeps(rt, id);
    case Restoring(id) => RestoreKeeps(rt, id);
    case Enabling(b) => SetEnabledKeeps(rt, b);
    case Polling => PollKeeps(rt);
  }

  lemma InputKeeps(rt: Runtime, e: Event)
    requires Coherent(rt) && !IsCommand(e) && Possible(rt, e)
    ensures Coherent(Step(rt, e))
  {
    match e
    case Capturing(source, frame) =>
      if AudioFrame.Encodable(frame) { BroadcastKeeps(rt, source, AudioFrame.Encode(frame), SESSION_TIMEOUT_MS); }
    case Injecting(source, payload) => BroadcastKeeps(rt, source, payload, SESSION_TIMEOUT_MS);
    case Receiving(source, bytes) => PayloadKeeps(rt, source, bytes);
    case Reporting(id, ready) => ReportKeeps(rt, id, ready);
    case PressingTalk(b) =>
    case SwitchingIntercom(b) =>
  }

  lemma StepKeeps(rt: Runtime, e: Event)
    requires Coherent(rt) && Possible(rt, e)
    ensures Coherent(Step(rt, e))
  {
    if IsCommand(e) { CommandKeeps(rt, e); } else { InputKeeps(rt, e); }
  }

  ghost predicate Reaches(rt: Runtime, events: seq<Event>, last: Runtime)
    decreases |events|
  {
    if events == [] then last == rt
    else Possible(rt, events[0]) && Reaches(Step(rt, events[0]), events[1..], last)
  }

  lemma {:induction false} RunKeeps(rt: Runtime, events: seq<Event>, last: Runtime)
    requires Coherent(rt) && Reaches(rt, events, last)
    ensures Coherent(last)
    decreases |events|
  {
    if events != [] {
      StepKeeps(rt, events[0]);
      RunKeeps(Step(rt, events[0]), events[1..], last);
    }
  }

  lemma InitCoherent(intercom: Intercom.State, localId: Byte)
    requires intercom.peers == [] && localId != 0
    ensures Coherent(Init(intercom, localId))
  {
    Tables.InitWellFormed(localId);
    var rt := Init(intercom, localId);
    assert forall id :: !Active(rt.links, id);
  }

  /**
   From an empty intercom, over every run: the relay list is exactly the active sessions, once each; each of them is
   connected in the transport; and every transport-connected peer is in the runtime's own list.
   */
  lemma RelayListExact(intercom: Intercom.State, localId: Byte, events: seq<Event>, rt: Runtime)
    requires intercom.peers == [] && localId != 0 && Reaches(Init(intercom, localId), events, rt)
    ensures NoDup(rt.intercom.peers) && |rt.intercom.peers| <= MAX_PEERS
    ensures forall id :: id in rt.intercom.peers <==> Active(rt.links, id)
    ensures forall id :: id in rt.intercom.peers ==> id in rt.transport.connected
    ensures forall id :: id in rt.transport.connected ==> id in rt.connected
  {
    InitCoherent(intercom, localId);
    RunKeeps(Init(intercom, localId), events, rt);
    Pigeonhole(rt.intercom.peers, rt.connected);
  }

  /**
   Over every run, each queued packet is a well-formed message from here to its connected target, in numbered order.
   */
  lemma QueueSound(intercom: Intercom.State, localId: Byte, events: seq<Event>, rt: Runtime)
    requires intercom.peers == [] && localId != 0 && Reaches(Init(intercom, localId), events, rt)
    ensures PacketsOk(rt.transport.fifo.queue, rt.localId, rt.links, rt.transport.connected)
  {
    InitCoherent(intercom, localId);
    RunKeeps(Init(intercom, localId), events, rt);
  }
}
