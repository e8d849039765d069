/**
 When the runtime takes an audio message of a peer that is online: the first time, a second time, and after a hello that
 replaces the session.
 */
module RuntimeAudio {
  import opened Machine
  import opened SerialWindow
  import opened RuntimeSpec
  import opened RuntimeInvariant
  import opened RuntimeSteps
  import opened RuntimeRuns
  import opened RuntimeHeard
  import RuntimeOutcomes
  import opened RuntimeRelay
  import opened RuntimeSend
  import opened Sequences
  import RuntimeReadyRuns
  import Protocol

  /** The bytes hold a message for here from the peer that is online in slot k. */
  ghost predicate Arrives(rt: Runtime, k: nat, bytes: seq<Byte>, m: Protocol.Message) {
    && Coherent(rt) && Online(rt, k, m.source) && HasTransport(rt)
    && bytes != [] && Protocol.Decode(bytes) == Some(m) && Routed(rt, m.source, m)
  }

  // --- relaying leaves the source's link alone ---

  lemma {:induction false} RelayToSpares(rt: Runtime, source: Byte, peers: seq<Byte>, payload: seq<Byte>, k: nat)
    requires k < |rt.links| && Owns(rt.links[k], source)
    ensures RelayTo(rt, source, peers, payload).links[k] == rt.links[k]
    decreases |peers|
  {
    if peers != [] {
      var next := RelayNext(rt, source, peers[0], payload);
      if peers[0] != source {
        RuntimeOutcomes.SendTouches(rt.(relay := RecordRelay(rt.relay, source, peers[0])), peers[0], Protocol.AUDIO,
                                    payload, 0);
      }
      RelayToSpares(next, source, peers[1..], payload, k);
    }
  }

  lemma BroadcastSpares(rt: Runtime, source: Byte, payload: seq<Byte>, k: nat)
    requires k < |rt.links| && Owns(rt.links[k], source)
    ensures Broadcast(rt, source, payload).links[k] == rt.links[k]
  {
    RelayToSpares(StartRelay(rt), source, rt.intercom.peers, payload, k);
  }

  // --- one audio message ---

  /** The link after taking an audio message. */
  function Taking(l: Link, m: Protocol.Message, now: Word32): Link {
    l.(lastActivity := now, lastRx := Moved(l.lastRx, m.sequence, Judge(m.sequence, l.lastRx, true)),
    lastAudio := m.sequence, missing := Wrap32(l.missing + Gap(l.lastAudio, m.sequence)))
  }

  lemma ArrivesDispatched(rt: Runtime, k: nat, bytes: seq<Byte>, m: Protocol.Message)
    requires Arrives(rt, k, bytes, m)
    ensures var a := Admitted(rt, m.source);
            && Coherent(a) && a.links == rt.links && a.transport == rt.transport && a.now == rt.now
            && a.enabled == rt.enabled && a.localId == rt.localId
    ensures Judge(m.sequence, rt.links[k].lastRx, IsAudio(m)) != Drop ==>
              HandlePayload(rt, m.source, bytes) == Dispatch(Touched(Admitted(rt, m.source), k, m), k, m)
    ensures Judge(m.sequence, rt.links[k].lastRx, IsAudio(m)) == Drop ==> !HandlePayload(rt, m.source, bytes).ok
  {
    SlotOf(rt, k, m.source, m.source);
    if Judge(m.sequence, rt.links[k].lastRx, IsAudio(m)) != Drop {
      PayloadDispatched(rt, m.source, bytes, m, k);
    }
  }

  lemma AudioDispatched(rt: Runtime, k: nat, m: Protocol.Message)
    requires Coherent(rt) && Online(rt, k, m.source) && IsAudio(m)
    ensures var d := Dispatch(rt, k, m);
            && (d.ok <==> rt.links[k].active && rt.links[k].session == m.sessionId)
            && (d.ok ==> d.rt.links[k] == RuntimeReadyRuns.Heard(rt, k, m).links[k]
                         && Sent(RuntimeReadyRuns.Heard(rt, k, m), d.rt))
  {
    RuntimeReadyRuns.AudioEndsSending(rt, k, m);
    if rt.links[k].active && rt.links[k].session == m.sessionId {
      BroadcastSpares(RuntimeReadyRuns.Heard(rt, k, m), m.source, m.payload, k);
    }
  }

  /** Audio is taken exactly when the filter passes it and it belongs to the session; the link then records it. */
  lemma AudioTaken(rt: Runtime, k: nat, bytes: seq<Byte>, m: Protocol.Message)
    requires Arrives(rt, k, bytes, m) && IsAudio(m)
    ensures var h := HandlePayload(rt, m.source, bytes);
            && (h.ok <==> Accepts(rt.links[k], m))
            && (h.ok ==> Arrives(h.rt, k, bytes, m) && h.rt.links[k] == Taking(rt.links[k], m, rt.now)
                         && h.rt.now == rt.now && h.rt.localId == rt.localId)
  {
    ArrivesDispatched(rt, k, bytes, m);
    if Judge(m.sequence, rt.links[k].lastRx, true) != Drop {
      var a := Admitted(rt, m.source);
      TouchedKeeps(a, k, m);
      AudioDispatched(Touched(a, k, m), k, m);
      PayloadKeeps(rt, m.source, bytes);
      TakenAfter(a, HandlePayload(rt, m.source, bytes).rt, k, m);
    }
  }

  /** The link of a message that was let through and counted. */
  lemma TakenAfter(a: Runtime, r: Runtime, k: nat, m: Protocol.Message)
    requires k < |a.links| == |r.links| && IsAudio(m) && Judge(m.sequence, a.links[k].lastRx, true) != Drop
    ensures var h := RuntimeReadyRuns.Heard(Touched(a, k, m), k, m);
            r.links[k] == h.links[k] ==> r.links[k] == Taking(a.links[k], m, a.now)
  {
  }

  /**
   The same audio message, arriving twice in a row, is taken twice exactly when it is half the number space away from
   the link's position: too far to be newer, and not far enough to be stale.
   */
  lemma TakenTwiceIff(rt: Runtime, k: nat, bytes: seq<Byte>, m: Protocol.Message)
    requires Arrives(rt, k, bytes, m) && IsAudio(m)
    requires rt.links[k].active && rt.links[k].session == m.sessionId
    ensures var h := HandlePayload(rt, m.source, bytes);
            h.ok && HandlePayload(h.rt, m.source, bytes).ok <==> m.sequence == Wrap16(rt.links[k].lastRx + 0x8000)
  {
    AudioTaken(rt, k, bytes, m);
    PassesTwice(m.sequence, rt.links[k].lastRx);
    if Accepts(rt.links[k], m) { TakenAgain(rt, k, bytes, m); }
  }

  /** The second copy meets the position that the first one left. */
  lemma TakenAgain(rt: Runtime, k: nat, bytes: seq<Byte>, m: Protocol.Message)
    requires Arrives(rt, k, bytes, m) && Accepts(rt.links[k], m)
    ensures var p := Moved(rt.links[k].lastRx, m.sequence, Judge(m.sequence, rt.links[k].lastRx, true));
            HandlePayload(HandlePayload(rt, m.source, bytes).rt, m.source, bytes).ok
            <==> Judge(m.sequence, p, true) != Drop
  {
    AudioTaken(rt, k, bytes, m);
    AudioTaken(HandlePayload(rt, m.source, bytes).rt, k, bytes, m);
  }

  lemma PassesTwice(sequence: Word16, last: Word16)
    ensures Judge(sequence, last, true) == Pass <==> sequence == Wrap16(last + 0x8000)
    ensures var v := Judge(sequence, last, true);
            v != Drop && Judge(sequence, Moved(last, sequence, v), true) != Drop <==> v == Pass
  {
  }

  // --- what taken audio does beyond the sender's link ---

  /** The runtime that relays differs from rt in the source's own link at most. */
  ghost predicate HeardBy(rt: Runtime, x: Runtime, k: nat, source: Byte) {
    && k < |rt.links| && Owns(rt.links[k], source) && LinksOk(rt.links) && LinksOk(x.links)
    && x.links == rt.links[k := x.links[k]] && Owns(x.links[k], source)
    && x.links[k].active == rt.links[k].active && x.links[k].session == rt.links[k].session
    && x.intercom == rt.intercom && x.relay == rt.relay && x.transport == rt.transport && x.localId == rt.localId
    && x.stats.sent == rt.stats.sent
  }

  lemma SameTarget(rt: Runtime, x: Runtime, k: nat, source: Byte, id: Byte)
    requires HeardBy(rt, x, k, source) && id != source
    ensures LinkOf(x.links, id) == LinkOf(rt.links, id)
  {
    var j := FindLink(rt.links, id);
    if id != 0 && j < |rt.links| {
      assert Owns(x.links[j], id);
      OnlyOwner(x.links, j, id);
      LinkFound(x.links, j, id);
    } else {
      assert forall i :: 0 <= i < |x.links| ==> !Owns(x.links[i], id) || id == 0;
    }
  }

  lemma SameNames(rt: Runtime, x: Runtime, k: nat, source: Byte)
    requires HeardBy(rt, x, k, source)
    ensures RuntimeReadyRuns.Named(rt.links) <==> RuntimeReadyRuns.Named(x.links)
  {
    assert forall i :: 0 <= i < |rt.links| ==>
        x.links[i].active == rt.links[i].active && x.links[i].session == rt.links[i].session;
  }

  lemma RelayedAlike(rt: Runtime, x: Runtime, b: Runtime, k: nat, source: Byte, payload: seq<Byte>)
    requires HeardBy(rt, x, k, source) && Records(x, b, source)
    ensures Records(rt, b, source) && (Roomy(rt, source) <==> Roomy(x, source))
    ensures Short(payload) && Plays(x, b, source, payload) ==> Plays(rt, b, source, payload)
  {
    SameNames(rt, x, k, source);
    WithoutMembers(rt.intercom.peers, source);
    var targets := Targets(rt, source);
    forall i | 0 <= i < |targets| ensures LinkOf(x.links, targets[i]) == LinkOf(rt.links, targets[i]) {
      assert targets[i] in targets;
      SameTarget(rt, x, k, source, targets[i]);
    }
  }

  lemma HeardByDispatch(rt: Runtime, k: nat, bytes: seq<Byte>, m: Protocol.Message)
    requires Arrives(rt, k, bytes, m) && IsAudio(m) && Accepts(rt.links[k], m)
    ensures var x := RuntimeReadyRuns.Heard(Touched(Admitted(rt, m.source), k, m), k, m);
            && HeardBy(rt, x, k, m.source) && Coherent(x) && HasTransport(x)
            && x.stats == rt.stats.(received := rt.stats.received + 1)
            && HandlePayload(rt, m.source, bytes)
               == Outcome(if m.payload == [] then x else Broadcast(x, m.source, m.payload), true)
  {
    ArrivesDispatched(rt, k, bytes, m);
    var a := Admitted(rt, m.source);
    TouchedKeeps(a, k, m);
    RuntimeReadyRuns.AudioEndsSending(Touched(a, k, m), k, m);
  }

  /**
   Audio that is taken and carries something is relayed: its targets are recorded, the queue is emptied, and when every
   session has an id, the payload fits a packet and the queue has room, each target is sent it. No session changes.
   Empty audio is counted and goes nowhere.
   */
  lemma AudioRelayed(rt: Runtime, k: nat, bytes: seq<Byte>, m: Protocol.Message)
    requires Arrives(rt, k, bytes, m) && IsAudio(m) && Accepts(rt.links[k], m)
    ensures var r := HandlePayload(rt, m.source, bytes).rt;
            && r.stats.received == rt.stats.received + 1
            && (m.payload == [] ==> r.relay == rt.relay && r.transport == rt.transport && r.stats.sent == rt.stats.sent)
            && (m.payload != [] ==>
                  && Records(rt, r, m.source) && r.transport.fifo.queue == []
                  && (Short(m.payload) && Roomy(rt, m.source) ==> Plays(rt, r, m.source, m.payload)))
  {
    HeardByDispatch(rt, k, bytes, m);
    var x := RuntimeReadyRuns.Heard(Touched(Admitted(rt, m.source), k, m), k, m);
    if m.payload != [] {
      BroadcastDelivers(x, m.source, m.payload);
      RelayedAlike(rt, x, Broadcast(x, m.source, m.payload), k, m.source, m.payload);
      BroadcastReceives(x, m.source, m.payload);
    }
  }

  lemma {:induction false} RelayToReceives(rt: Runtime, source: Byte, peers: seq<Byte>, payload: seq<Byte>)
    ensures RelayTo(rt, source, peers, payload).stats.received == rt.stats.received
    decreases |peers|
  {
    if peers != [] { RelayToReceives(RelayNext(rt, source, peers[0], payload), source, peers[1..], payload); }
  }

  lemma BroadcastReceives(rt: Runtime, source: Byte, payload: seq<Byte>)
    ensures Broadcast(rt, source, payload).stats.received == rt.stats.received
  {
    RelayToReceives(StartRelay(rt), source, rt.intercom.peers, payload);
  }

  // --- a hello that replaces the session ---

  lemma HelloDispatched(rt: Runtime, k: nat, m: Protocol.Message)
    requires Coherent(rt) && Online(rt, k, m.source) && m.kind == Protocol.HELLO && m.sessionId != 0
    ensures var r := Dispatch(rt, k, m).rt;
            && r.links[k].active && r.links[k].session == m.sessionId && r.links[k].lastRx == rt.links[k].lastRx
            && r.links[k].lastAudio == rt.links[k].lastAudio && r.links[k].missing == rt.links[k].missing
            && Owns(r.links[k], m.source) && r.transport.connected == rt.transport.connected
            && r.enabled == rt.enabled && r.transport.backendReady == rt.transport.backendReady
               && r.localId == rt.localId
  {
    var l := rt.links[k].(session := m.sessionId, helloReceived := true, state := Handshaking);
    var s := MarkReady(SetLink(rt, k, l), k, m.source, m.sessionId);
    assert LinkOk(s.links[k]);
    QueueMessageSent(s, m.source, Protocol.HELLO_ACK, Identity(rt.localId), 0);
  }

  /** A hello is taken unless it repeats the link's position, and opens its session without moving the position back. */
  lemma HelloOpens(rt: Runtime, k: nat, bytes: seq<Byte>, m: Protocol.Message)
    requires Arrives(rt, k, bytes, m) && m.kind == Protocol.HELLO && m.sessionId != 0
    requires m.sequence != rt.links[k].lastRx
    ensures var r := HandlePayload(rt, m.source, bytes).rt; var l, l' := rt.links[k], r.links[k];
            && Coherent(r) && Online(r, k, m.source) && HasTransport(r) && r.localId == rt.localId
            && l'.active && l'.session == m.sessionId && l'.lastAudio == l.lastAudio && l'.missing == l.missing
            && l'.lastRx == if Newer(m.sequence, l.lastRx) then m.sequence else l.lastRx
  {
    ArrivesDispatched(rt, k, bytes, m);
    var a := Admitted(rt, m.source);
    TouchedKeeps(a, k, m);
    HelloDispatched(Touched(a, k, m), k, m);
    PayloadKeeps(rt, m.source, bytes);
  }

  /**
   Audio of the session that a hello has just opened is taken exactly when it is neither at nor behind the position that
   the link kept from before, or moved to with the hello.
   */
  lemma FreshAudioIff(rt: Runtime, k: nat, hello: seq<Byte>, h: Protocol.Message, audio: seq<Byte>, m: Protocol.Message)
    requires Arrives(rt, k, hello, h) && h.kind == Protocol.HELLO && h.sessionId != 0
    requires h.sequence != rt.links[k].lastRx
    requires Arrives(rt, k, audio, m) && IsAudio(m) && m.sessionId == h.sessionId && m.source == h.source
    ensures var p := if Newer(h.sequence, rt.links[k].lastRx) then h.sequence else rt.links[k].lastRx;
            HandlePayload(HandlePayload(rt, h.source, hello).rt, m.source, audio).ok
            <==> Ahead(m.sequence, p)
  {
    HelloOpens(rt, k, hello, h);
    PassedIff(HandlePayload(rt, h.source, hello).rt, k, audio, m);
  }

  /** Audio of an open session, against the position its link stands at. */
  lemma PassedIff(rt: Runtime, k: nat, bytes: seq<Byte>, m: Protocol.Message)
    requires Arrives(rt, k, bytes, m) && IsAudio(m) && rt.links[k].active && rt.links[k].session == m.sessionId
    ensures HandlePayload(rt, m.source, bytes).ok <==> Ahead(m.sequence, rt.links[k].lastRx)
  {
    AudioTaken(rt, k, bytes, m);
    AheadPasses(m.sequence, rt.links[k].lastRx);
  }

  lemma AheadPasses(sequence: Word16, position: Word16)
    ensures Judge(sequence, position, true) != Drop <==> Ahead(sequence, position)
  {
  }

  /** Neither at the position nor behind it, in serial order. */
  predicate Ahead(sequence: Word16, position: Word16) { sequence != position && !Stale(sequence, position) }

  /**
   So a peer that starts over from sequence 1 without a goodbye has its session accepted, and its audio refused up to
   the position it had reached before.
   */
  lemma RestartRefusedIff(rt: Runtime, k: nat, hello: seq<Byte>, h: Protocol.Message, audio: seq<Byte>,
      m: Protocol.Message)
    requires Arrives(rt, k, hello, h) && h.kind == Protocol.HELLO && h.sessionId != 0 && h.sequence == 1
    requires Arrives(rt, k, audio, m) && IsAudio(m) && m.sessionId == h.sessionId && m.source == h.source
    requires 1 < rt.links[k].lastRx <= 0x8000 && 1 < m.sequence < 0x8000
    ensures HandlePayload(HandlePayload(rt, h.source, hello).rt, m.source, audio).ok
            <==> rt.links[k].lastRx < m.sequence
  {
    FreshAudioIff(rt, k, hello, h, audio, m);
    RestartBehind(rt.links[k].lastRx, m.sequence);
  }

  lemma RestartBehind(position: Word16, sequence: Word16)
    requires 1 < position <= 0x8000 && 1 < sequence < 0x8000
    ensures !Newer(1, position) && (Ahead(sequence, position) <==> position < sequence)
  {
  }
}
