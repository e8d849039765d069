/**
 What a received message does, kind by kind: the session it opens or ends, the answer it gets, and how it is counted.
 */
module RuntimeReplies {
  import opened Machine
  import opened Sequences
  import opened SerialWindow
  import opened RuntimeSpec
  import opened RuntimeInvariant
  import opened RuntimeSteps
  import opened RuntimeRuns
  import opened RuntimeHeard
  import opened RuntimeSend
  import RuntimeOutcomes
  import Protocol
  import Transport = TransportSpec
  import Tables = TransportInvariant

  /** A message is queued for the peer when it can be sent, and otherwise counted as far as it got. */
  ghost predicate Answers(rt: Runtime, r: Runtime, id: Byte, kind: Byte, payload: seq<Byte>) {
    && Sent(rt, r)
    && if Sendable(rt, id, kind, payload) then Emits(rt, r, id, kind, payload, 0)
       else Declines(rt, r, id, Composable(rt, id, kind, payload))
  }

  lemma MessageAnswers(rt: Runtime, id: Byte, kind: Byte, payload: seq<Byte>)
    requires SettingsOk(rt) && LinksOk(rt.links) && kind != Protocol.INVALID
    ensures var o := QueueMessage(rt, id, kind, payload, 0);
            Answers(rt, o.rt, id, kind, payload) && (o.ok <==> Sendable(rt, id, kind, payload))
  {
    QueueMessageExact(rt, id, kind, payload, 0);
    QueueMessageSent(rt, id, kind, payload, 0);
  }

  function Discounted(rt: Runtime): Runtime { rt.(stats := rt.stats.(dropped := rt.stats.dropped + 1)) }

  /** The error message for a code and a reason. */
  lemma ErrorAnswers(rt: Runtime, id: Byte, code: Byte, reason: seq<Byte>)
    requires SettingsOk(rt) && LinksOk(rt.links) && |reason| < 63
    ensures Answers(rt, SendError(rt, id, code, reason), id, 5, [code] + reason)
  {
    var p := Protocol.ErrorPayload(Protocol.ERROR_BUFFER_BYTES, code, reason);
    assert p == [p[0]] + p[1..] && p[1..] == reason;
    MessageAnswers(rt, id, Protocol.ERROR, p);
  }

  // --- before a link is looked for ---

  /**
   Bytes that do not decode are refused and answered with error 1, a message for or from somebody else with error 2.
   */
  lemma MalformedAnswered(rt: Runtime, source: Byte, bytes: seq<Byte>)
    requires Coherent(rt) && HasTransport(rt) && bytes != []
    ensures var o := HandlePayload(rt, source, bytes); var d := Protocol.Decode(bytes);
            && (d == None ==> !o.ok && Answers(Discounted(rt), o.rt, source, 5, [1] + REASON_DECODE))
            && (d.Some? && !(d.value.source == source && (d.value.target == 0 || d.value.target == rt.localId)) ==>
                  !o.ok && Answers(Discounted(rt), o.rt, source, 5, [2] + REASON_ROUTE))
  {
    if Protocol.Decode(bytes) == None {
      UndecodableAnswered(rt, source, bytes);
    } else if !Routed(rt, source, Protocol.Decode(bytes).value) {
      MisroutedAnswered(rt, source, bytes);
    }
  }

  lemma UndecodableAnswered(rt: Runtime, source: Byte, bytes: seq<Byte>)
    requires Coherent(rt) && HasTransport(rt) && bytes != [] && Protocol.Decode(bytes) == None
    ensures var o := HandlePayload(rt, source, bytes);
            !o.ok && Answers(Discounted(rt), o.rt, source, 5, [1] + REASON_DECODE)
  {
    var d := Discounted(rt);
    ErrorAnswers(d, source, Protocol.DECODE_ERROR, REASON_DECODE);
    assert HandlePayload(rt, source, bytes)
        == Outcome(SendError(d, source, Protocol.DECODE_ERROR, REASON_DECODE), false);
  }

  lemma MisroutedAnswered(rt: Runtime, source: Byte, bytes: seq<Byte>)
    requires Coherent(rt) && HasTransport(rt) && bytes != [] && Protocol.Decode(bytes).Some?
    requires !Routed(rt, source, Protocol.Decode(bytes).value)
    ensures var o := HandlePayload(rt, source, bytes);
            !o.ok && Answers(Discounted(rt), o.rt, source, 5, [2] + REASON_ROUTE)
  {
    var d := Discounted(rt);
    ErrorAnswers(d, source, Protocol.TARGET_ERROR, REASON_ROUTE);
    assert HandlePayload(rt, source, bytes)
        == Outcome(SendError(d, source, Protocol.TARGET_ERROR, REASON_ROUTE), false);
  }

  /** Without a transport or without bytes nothing happens; without room for a link the message is dropped. */
  lemma NobodyHome(rt: Runtime, source: Byte, bytes: seq<Byte>)
    ensures var o := HandlePayload(rt, source, bytes); var d := Protocol.Decode(bytes);
            && (!HasTransport(rt) || bytes == [] ==> o == Outcome(rt, false))
            && (HasTransport(rt) && bytes != [] && d.Some? && Routed(rt, source, d.value) && source != 0 ==>
                  RuntimeOutcomes.Linkable(rt.links, source) || o == Outcome(Discounted(rt), false))
  {
    if source != 0 { RuntimeOutcomes.OpenLinkOutcome(rt.links, source); }
  }

  // --- on its link ---

  /** The message is for here and the peer it comes from has the link in slot k, opened for it if need be. */
  ghost predicate Comes(rt: Runtime, k: nat, bytes: seq<Byte>, m: Protocol.Message) {
    && Coherent(rt) && HasTransport(rt) && bytes != [] && Protocol.Decode(bytes) == Some(m) && Routed(rt, m.source, m)
    && k == OpenLink(rt.links, m.source).slot && k < |rt.links|
  }

  /** The filter lets it through; its link then notes the time and, if it is newer, the sequence. */
  ghost predicate Enters(rt: Runtime, k: nat, bytes: seq<Byte>, m: Protocol.Message) {
    Comes(rt, k, bytes, m) && Judge(m.sequence, OpenLink(rt.links, m.source).links[k].lastRx, m.kind == 4) != Drop
  }

  function Noted(rt: Runtime, k: nat, m: Protocol.Message): Runtime
    requires k < |rt.links|
  {
    Touched(Admitted(rt, m.source), k, m)
  }

  lemma NotedOk(rt: Runtime, k: nat, bytes: seq<Byte>, m: Protocol.Message)
    requires Comes(rt, k, bytes, m)
    ensures var x := Noted(rt, k, m);
            && Coherent(x) && Owns(x.links[k], m.source) && HasTransport(x) && x.localId == rt.localId
            && x.stats == rt.stats.(received := rt.stats.received + 1)
    ensures Enters(rt, k, bytes, m) ==> HandlePayload(rt, m.source, bytes) == Dispatch(Noted(rt, k, m), k, m)
  {
    OpenLinkKeeps(rt, m.source, SESSION_TIMEOUT_MS);
    TouchedKeeps(Admitted(rt, m.source), k, m);
    if Enters(rt, k, bytes, m) { PayloadDispatched(rt, m.source, bytes, m, k); }
  }

  /** A duplicate, or stale audio, is only counted. */
  lemma DuplicateCounted(rt: Runtime, k: nat, bytes: seq<Byte>, m: Protocol.Message)
    requires Comes(rt, k, bytes, m) && !Enters(rt, k, bytes, m)
    ensures var o := HandlePayload(rt, m.source, bytes); var links := OpenLink(rt.links, m.source).links;
            var l := links[k];
            && !o.ok
            && o.rt == rt.(links := links[k := l.(lastActivity := rt.now, dropped := Wrap32(l.dropped + 1))],
                           stats := Stats(rt.stats.sent, rt.stats.received + 1, rt.stats.dropped + 1))
  {
  }

  /** The session on the link in slot k starts, or goes on: ready, just heard from, counted, and listed for relaying. */
  ghost predicate Starts(x: Runtime, s: Runtime, k: nat, session: Word32) {
    && k < |x.links|
    && s == x.(links := x.links[k := x.links[k].(session := session, active := true, helloReceived := true,
       helloSent := true,
                                                 state := Ready, lastActivity := x.now)],
               intercom := x.intercom.(peers := s.intercom.peers), readyCount := CountReady(s.links))
    && (forall id :: id in s.intercom.peers <==> id in x.intercom.peers || id == x.links[k].id)
  }

  lemma MarkReadyStarts(x: Runtime, k: nat, session: Word32)
    requires Coherent(x) && k < |x.links| && x.links[k].valid
    ensures Starts(x, MarkReady(x, k, x.links[k].id, session), k, if session != 0 then session else x.links[k].session)
  {
    var id := x.links[k].id;
    if !x.links[k].active { RoomForActive(x.links, x.intercom.peers, k); } else { assert Active(x.links, id); }
  }

  /** A hello without a session id is refused and answered with error 3. */
  lemma NamelessHelloAnswered(rt: Runtime, k: nat, bytes: seq<Byte>, m: Protocol.Message)
    requires Enters(rt, k, bytes, m) && m.kind == 1 && m.sessionId == 0
    ensures var o := HandlePayload(rt, m.source, bytes);
            !o.ok && Answers(Discounted(Noted(rt, k, m)), o.rt, m.source, 5, [3] + REASON_NO_ID)
  {
    NotedOk(rt, k, bytes, m);
    ErrorAnswers(Discounted(Noted(rt, k, m)), m.source, Protocol.SESSION_ERROR, REASON_NO_ID);
  }

  /** A hello starts its session on the peer's link, and is answered with a HELLO_ACK under that session. */
  lemma HelloAnswered(rt: Runtime, k: nat, bytes: seq<Byte>, m: Protocol.Message) returns (s: Runtime)
    requires Enters(rt, k, bytes, m) && m.kind == 1 && m.sessionId != 0
    ensures Starts(Noted(rt, k, m), s, k, m.sessionId)
    ensures var o := HandlePayload(rt, m.source, bytes); var text := Identity(rt.localId);
            Answers(s, o.rt, m.source, 2, text) && (o.ok <==> Sendable(s, m.source, 2, text))
  {
    NotedOk(rt, k, bytes, m);
    var x := Noted(rt, k, m);
    s := HelloStarted(x, k, m);
    HelloOwned(x, s, k, m.sessionId);
    MessageAnswers(s, m.source, Protocol.HELLO_ACK, Identity(rt.localId));
  }

  lemma HelloStarted(x: Runtime, k: nat, m: Protocol.Message) returns (s: Runtime)
    requires Coherent(x) && k < |x.links| && Owns(x.links[k], m.source) && m.kind == 1 && m.sessionId != 0
    ensures Starts(x, s, k, m.sessionId)
    ensures Dispatch(x, k, m) == SendHello(s, m.source, Protocol.HELLO_ACK)
  {
    var l := x.links[k].(session := m.sessionId, helloReceived := true, state := Handshaking);
    s := MarkReady(SetLink(x, k, l), k, m.source, m.sessionId);
    MarkReadyStarts(x, k, m.sessionId);
    assert s.links == MarkReady(x, k, m.source, m.sessionId).links;
  }

  lemma HelloOwned(x: Runtime, s: Runtime, k: nat, session: Word32)
    requires Coherent(x) && k < |x.links| && x.links[k].valid && Starts(x, s, k, session)
    ensures SettingsOk(s) && LinksOk(s.links)
  {
  }

  /** A HELLO_ACK makes the session ready exactly when it names the session the link has; otherwise it is dropped. */
  lemma AckExact(rt: Runtime, k: nat, bytes: seq<Byte>, m: Protocol.Message)
    requires Enters(rt, k, bytes, m) && m.kind == 2
    ensures var o := HandlePayload(rt, m.source, bytes); var x := Noted(rt, k, m);
            && (o.ok <==> x.links[k].session != 0 && m.sessionId == x.links[k].session)
            && (if o.ok then Starts(x, o.rt, k, m.sessionId) else o.rt == Discounted(x))
  {
    NotedOk(rt, k, bytes, m);
    MarkReadyStarts(Noted(rt, k, m), k, Noted(rt, k, m).links[k].session);
  }

  /** A KEEPALIVE keeps the session ready exactly when it names the session the link has, be it none. */
  lemma KeepaliveExact(rt: Runtime, k: nat, bytes: seq<Byte>, m: Protocol.Message)
    requires Enters(rt, k, bytes, m) && m.kind == 3
    ensures var o := HandlePayload(rt, m.source, bytes); var x := Noted(rt, k, m);
            && (o.ok <==> m.sessionId == x.links[k].session)
            && (if o.ok then Starts(x, o.rt, k, m.sessionId) else o.rt == Discounted(x))
  {
    NotedOk(rt, k, bytes, m);
    MarkReadyStarts(Noted(rt, k, m), k, Noted(rt, k, m).links[k].session);
  }

  /** Audio that the filter passes but that is not of the active session is refused and answered with error 3. */
  lemma StrayAudioAnswered(rt: Runtime, k: nat, bytes: seq<Byte>, m: Protocol.Message)
    requires Enters(rt, k, bytes, m) && m.kind == 4
    requires var l := Noted(rt, k, m).links[k]; !l.active || l.session != m.sessionId
    ensures var o := HandlePayload(rt, m.source, bytes);
            !o.ok && Answers(Discounted(Noted(rt, k, m)), o.rt, m.source, 5, [3] + REASON_NOT_READY)
  {
    NotedOk(rt, k, bytes, m);
    ErrorAnswers(Discounted(Noted(rt, k, m)), m.source, Protocol.SESSION_ERROR, REASON_NOT_READY);
  }

  /** An ERROR degrades the link and is counted as dropped; it changes no session and gets no answer. */
  lemma ErrorDegrades(rt: Runtime, k: nat, bytes: seq<Byte>, m: Protocol.Message)
    requires Enters(rt, k, bytes, m) && m.kind == 5
    ensures var o := HandlePayload(rt, m.source, bytes); var x := Noted(rt, k, m);
            !o.ok && o.rt == Discounted(x).(links := x.links[k := x.links[k].(state := Degraded)])
  {
    NotedOk(rt, k, bytes, m);
  }

  /** A message of no known kind is dropped. */
  lemma UnknownDropped(rt: Runtime, k: nat, bytes: seq<Byte>, m: Protocol.Message)
    requires Enters(rt, k, bytes, m) && m.kind > 6
    ensures HandlePayload(rt, m.source, bytes) == Outcome(Discounted(Noted(rt, k, m)), false)
  {
    NotedOk(rt, k, bytes, m);
  }

  /**
   A GOODBYE ends the session: the link is idle or degraded, numbered from one and without a session, the peer is in no
   list that audio is relayed by and out of the transport, with its packets. It stays in the runtime's list until the
   next poll.
   */
  lemma GoodbyeEnds(rt: Runtime, k: nat, bytes: seq<Byte>, m: Protocol.Message)
    requires Enters(rt, k, bytes, m) && m.kind == 6
    ensures HandlePayload(rt, m.source, bytes).ok && Leaves(Noted(rt, k, m), HandlePayload(rt, m.source, bytes).rt, k)
  {
    NotedOk(rt, k, bytes, m);
    GoodbyeLeaves(Noted(rt, k, m), k, m);
  }

  ghost predicate Leaves(x: Runtime, r: Runtime, k: nat) {
    && Ended(x, r, k)
    && var id, t, t' := x.links[k].id, x.transport, r.transport;
       && t'.fifo.queue == (if id in t.connected then Transport.DropPeer(t.fifo.queue, id) else t.fifo.queue)
       && (forall p :: p in t'.connected <==> p in t.connected && p != id)
  }

  lemma GoodbyeLeaves(x: Runtime, k: nat, m: Protocol.Message)
    requires Coherent(x) && k < |x.links| && Owns(x.links[k], m.source) && m.kind == 6
    ensures Dispatch(x, k, m).ok && Leaves(x, Dispatch(x, k, m).rt, k)
  {
    var id := x.links[k].id;
    NoteEnds(x, k);
    PeerLeaves(x.transport, id);
    GoodbyeIs(x, k, m);
    EndedThere(x, NoteDisconnected(x, id), Dispatch(x, k, m).rt, k);
  }

  lemma GoodbyeIs(x: Runtime, k: nat, m: Protocol.Message)
    requires k < |x.links| && m.kind == 6
    ensures var n := NoteDisconnected(x, m.source);
            Dispatch(x, k, m) == Outcome(n.(transport := Transport.Disconnect(n.transport, m.source).state), true)
  {
  }

  lemma EndedThere(x: Runtime, n: Runtime, r: Runtime, k: nat)
    requires Ended(x, n, k) && r == n.(transport := r.transport)
    ensures Ended(x, r, k)
  {
  }

  lemma NoteEnds(x: Runtime, k: nat)
    requires LinksOk(x.links) && NoDup(x.intercom.peers) && k < |x.links| && x.links[k].valid
    ensures Ended(x, NoteDisconnected(x, x.links[k].id), k)
            && NoteDisconnected(x, x.links[k].id).transport == x.transport
  {
    FindOwner(x.links, k);
    RemoveFirstMembers(x.intercom.peers, x.links[k].id);
  }

  lemma PeerLeaves(t: Transport.State, id: Byte)
    requires Tables.WellFormed(t)
    ensures var t' := Transport.Disconnect(t, id).state;
            && t'.fifo.queue == (if id in t.connected then Transport.DropPeer(t.fifo.queue, id) else t.fifo.queue)
            && (forall x :: x in t'.connected <==> x in t.connected && x != id)
  {
    Tables.DisconnectKeeps(t, id);
  }

  ghost predicate Ended(x: Runtime, r: Runtime, k: nat) {
    && k < |x.links|
    && var l := x.links[k];
       && r.links == x.links[k := l.(active := false, session := 0, helloReceived := false, helloSent := false,
          lastRx := 0,
                             lastAudio := 0, nextTx := 1, issued := 1, state := if l.remembered then Idle
                                 else Degraded)]
       && (forall id :: id in r.intercom.peers <==> id in x.intercom.peers && id != l.id)
       && r.readyCount == CountReady(r.links) && r.stats == x.stats && r.relay == x.relay && r.connected == x.connected
  }
}
