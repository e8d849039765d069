/** The ready count and the session ids over received payloads and over runs. */
module RuntimeReadyRuns {
  import opened Machine
  import opened SerialWindow
  import opened RuntimeSpec
  import opened RuntimeInvariant
  import opened RuntimeSteps
  import opened RuntimeRuns
  import opened RuntimeReady
  import RuntimeSilence
  import Protocol
  import AudioFrame
  import Intercom = IntercomSpec

  lemma SetLinkExact(rt: Runtime, k: nat, l: Link)
    requires k < |rt.links| && IsReady(l) == IsReady(rt.links[k])
    ensures ReadyExact(SetLink(rt, k, l)) <==> ReadyExact(rt)
  {
    CountFlip(rt.links, k, l);
  }

  lemma HelloExact(rt: Runtime, k: nat, m: Protocol.Message)
    requires LinksOk(rt.links) && k < |rt.links| && Owns(rt.links[k], m.source) && ReadyExact(rt)
    ensures ReadyExact(ReceiveHello(rt, k, m).rt)
  {
    if m.sessionId == 0 {
      QueueMessageSent(Dropped(rt), m.source, Protocol.ERROR,
                       Protocol.ErrorPayload(Protocol.ERROR_BUFFER_BYTES, Protocol.SESSION_ERROR, REASON_NO_ID), 0);
      SentExact(Dropped(rt), ReceiveHello(rt, k, m).rt);
    } else {
      var l := rt.links[k].(session := m.sessionId, helloReceived := true, state := Handshaking);
      var s := MarkReady(SetLink(rt, k, l), k, m.source, m.sessionId);
      assert LinkOk(s.links[k]);
      QueueMessageSent(s, m.source, Protocol.HELLO_ACK, Identity(rt.localId), 0);
      SentExact(s, ReceiveHello(rt, k, m).rt);
    }
  }

  /** The link after an accepted audio message has been counted, before it is relayed. */
  function Heard(rt: Runtime, k: nat, m: Protocol.Message): Runtime
    requires k < |rt.links|
  {
    var l := rt.links[k];
    SetLink(rt, k, l.(missing := Wrap32(l.missing + Gap(l.lastAudio, m.sequence)), lastAudio := m.sequence))
  }

  /** Whether it is refused or relayed, received audio ends with sending. */
  lemma AudioEndsSending(rt: Runtime, k: nat, m: Protocol.Message)
    requires Coherent(rt) && k < |rt.links| && Owns(rt.links[k], m.source)
    ensures var r := ReceiveAudio(rt, k, m).rt;
            if !rt.links[k].active || rt.links[k].session != m.sessionId then Sent(Dropped(rt), r)
            else Coherent(Heard(rt, k, m)) && Sent(Heard(rt, k, m), r)
  {
    if !rt.links[k].active || rt.links[k].session != m.sessionId {
      DroppedKeeps(rt);
      SendErrorKeeps(Dropped(rt), m.source, Protocol.SESSION_ERROR, REASON_NOT_READY);
    } else {
      var r := Heard(rt, k, m);
      RewriteKeeps(rt, r, k, r.links[k], SESSION_TIMEOUT_MS);
      BroadcastKeeps(r, m.source, m.payload, SESSION_TIMEOUT_MS);
    }
  }

  lemma AudioExact(rt: Runtime, k: nat, m: Protocol.Message)
    requires Coherent(rt) && k < |rt.links| && Owns(rt.links[k], m.source) && ReadyExact(rt)
    ensures ReadyExact(ReceiveAudio(rt, k, m).rt)
  {
    AudioEndsSending(rt, k, m);
    if !rt.links[k].active || rt.links[k].session != m.sessionId {
      SentExact(Dropped(rt), ReceiveAudio(rt, k, m).rt);
    } else {
      SetLinkExact(rt, k, Heard(rt, k, m).links[k]);
      SentExact(Heard(rt, k, m), ReceiveAudio(rt, k, m).rt);
    }
  }

  lemma DispatchExactIff(rt: Runtime, k: nat, m: Protocol.Message)
    requires Coherent(rt) && k < |rt.links| && Owns(rt.links[k], m.source) && ReadyExact(rt)
    ensures ReadyExact(Dispatch(rt, k, m).rt) <==> !(m.kind == Protocol.ERROR && IsReady(rt.links[k]))
  {
    if m.kind == Protocol.HELLO {
      HelloExact(rt, k, m);
    } else if m.kind == Protocol.AUDIO {
      AudioExact(rt, k, m);
    } else if m.kind == Protocol.ERROR {
      CountFlip(rt.links, k, rt.links[k].(state := Degraded));
    } else if m.kind == Protocol.GOODBYE {
      NoteExact(rt, m.source);
    }
  }

  /** The payload is an error report that the filter lets through to a ready session. */
  predicate Degrades(rt: Runtime, source: Byte, bytes: seq<Byte>) {
    && HasTransport(rt) && bytes != [] && Protocol.Decode(bytes).Some?
    && var m := Protocol.Decode(bytes).value;
       && m.kind == Protocol.ERROR && Routed(rt, source, m)
       && var o := OpenLink(rt.links, source);
          o.slot < |o.links| && Judge(m.sequence, o.links[o.slot].lastRx, false) != Drop && IsReady(o.links[o.slot])
  }

  /** A message that the filter lets through. */
  lemma PassedExactIff(rt: Runtime, k: nat, m: Protocol.Message)
    requires Coherent(rt) && k < |rt.links| && Owns(rt.links[k], m.source) && ReadyExact(rt)
    ensures ReadyExact(Dispatch(Touched(rt, k, m), k, m).rt) <==> !(m.kind == Protocol.ERROR && IsReady(rt.links[k]))
  {
    TouchedKeeps(rt, k, m);
    SetLinkExact(rt, k, Touched(rt, k, m).links[k]);
    DispatchExactIff(Touched(rt, k, m), k, m);
  }

  lemma ReceiveExactIff(rt: Runtime, k: nat, m: Protocol.Message)
    requires Coherent(rt) && k < |rt.links| && Owns(rt.links[k], m.source) && ReadyExact(rt)
    ensures ReadyExact(Receive(rt, k, m).rt) <==>
            !(m.kind == Protocol.ERROR && Judge(m.sequence, rt.links[k].lastRx, false) != Drop && IsReady(rt.links[k]))
  {
    var l := rt.links[k];
    if Judge(m.sequence, l.lastRx, m.kind == Protocol.AUDIO) == Drop {
      SetLinkExact(rt, k, l.(lastActivity := rt.now, dropped := Wrap32(l.dropped + 1)));
    } else {
      PassedExactIff(rt, k, m);
      assert Receive(rt, k, m) == Dispatch(Touched(rt, k, m), k, m);
    }
  }

  /** A received payload keeps the ready count exact unless it is an error report for a ready session. */
  lemma PayloadExactIff(rt: Runtime, source: Byte, bytes: seq<Byte>)
    requires Coherent(rt) && ReadyExact(rt)
    ensures ReadyExact(HandlePayload(rt, source, bytes).rt) <==> !Degrades(rt, source, bytes)
  {
    if HasTransport(rt) && bytes != [] {
      DroppedKeeps(rt);
      SendErrorKeeps(Dropped(rt), source, Protocol.DECODE_ERROR, REASON_DECODE);
      SentExact(Dropped(rt), SendError(Dropped(rt), source, Protocol.DECODE_ERROR, REASON_DECODE));
      SendErrorKeeps(Dropped(rt), source, Protocol.TARGET_ERROR, REASON_ROUTE);
      SentExact(Dropped(rt), SendError(Dropped(rt), source, Protocol.TARGET_ERROR, REASON_ROUTE));
      AdmittedExact(rt, source);
      var o := OpenLink(rt.links, source);
      if Protocol.Decode(bytes).Some? && Routed(rt, source, Protocol.Decode(bytes).value) && o.slot < |o.links| {
        ReceiveExactIff(Admitted(rt, source), o.slot, Protocol.Decode(bytes).value);
      }
    }
  }

  lemma AdmittedExact(rt: Runtime, source: Byte)
    requires Coherent(rt)
    ensures Coherent(Admitted(rt, source)) && (ReadyExact(Admitted(rt, source)) <==> ReadyExact(rt))
  {
    OpenLinkKeeps(rt, source, SESSION_TIMEOUT_MS);
    OpenLinkShape(rt.links, source);
    SameReadyExact(rt, Admitted(rt, source));
  }

  /** The steps after which an exact ready count is still exact. */
  ghost predicate Recounted(rt: Runtime, e: Event) {
    match e
    case Receiving(source, bytes) => !Degrades(rt, source, bytes)
    case Clearing(id) => OnlyReady(rt.links, id)
    case Restoring(id) => !Readied(rt.links, id)
    case Enabling(b) => b || NoneReady(rt.links) || Stranded(rt)
    case _ => true
  }

  lemma BroadcastExact(rt: Runtime, source: Byte, payload: seq<Byte>)
    requires Coherent(rt) && ReadyExact(rt)
    ensures ReadyExact(Broadcast(rt, source, payload))
  {
    BroadcastKeeps(rt, source, payload, SESSION_TIMEOUT_MS);
    SentExact(rt, Broadcast(rt, source, payload));
  }

  /** An exact count stays exact over a step precisely when the step is one of these. */
  lemma StepExactIff(rt: Runtime, e: Event)
    requires Coherent(rt) && ReadyExact(rt)
    ensures ReadyExact(Step(rt, e)) <==> Recounted(rt, e)
  {
    if IsCommand(e) { CommandExactIff(rt, e); } else { InputExactIff(rt, e); }
  }

  lemma CommandExactIff(rt: Runtime, e: Event)
    requires Coherent(rt) && ReadyExact(rt) && IsCommand(e)
    ensures ReadyExact(Step(rt, e)) <==> Recounted(rt, e)
  {
    match e
    case Connecting(id) => ConnectExact(rt, id);
    case Disconnecting(id) => DisconnectExact(rt, id);
    case Clearing(id) => ClearExactIff(rt, id);
    case Restoring(id) => RestoreExactIff(rt, id);
    case Enabling(b) => if b { EnableExact(rt); } else { DisableExactIff(rt); }
    case Polling => PollExact(rt);
  }

  lemma InputExactIff(rt: Runtime, e: Event)
    requires Coherent(rt) && ReadyExact(rt) && !IsCommand(e)
    ensures ReadyExact(Step(rt, e)) <==> Recounted(rt, e)
  {
    match e
    case Capturing(source, frame) =>
      if AudioFrame.Encodable(frame) { BroadcastExact(rt, source, AudioFrame.Encode(frame)); }
    case Injecting(source, payload) => BroadcastExact(rt, source, payload);
    case Receiving(source, bytes) => PayloadExactIff(rt, source, bytes);
    case Reporting(id, ready) =>
    case PressingTalk(b) =>
    case SwitchingIntercom(b) =>
  }

  ghost predicate AlwaysRecounted(rt: Runtime, events: seq<Event>)
    decreases |events|
  {
    events == [] || (Recounted(rt, events[0]) && AlwaysRecounted(Step(rt, events[0]), events[1..]))
  }

  /** Over every run of such steps from start-up the count is the number of active ready links. */
  lemma {:induction false} RunExact(rt: Runtime, events: seq<Event>, last: Runtime)
    requires Coherent(rt) && ReadyExact(rt) && Reaches(rt, events, last) && AlwaysRecounted(rt, events)
    ensures ReadyExact(last)
    decreases |events|
  {
    if events != [] {
      StepExactIff(rt, events[0]);
      StepKeeps(rt, events[0]);
      RunExact(Step(rt, events[0]), events[1..], last);
    }
  }

  // --- session ids ---

  /** Every active session has an id. */
  ghost predicate Named(links: seq<Link>) {
    forall j :: 0 <= j < |links| && links[j].active ==> links[j].session != 0
  }

  lemma SentNamed(a: Runtime, b: Runtime)
    requires LinksOk(a.links) && Sent(a, b)
    requires Named(a.links)
    ensures Named(b.links)
  {
    RuntimeSilence.SentSubsessions(a, b);
  }

  /** The keepalive names session 0 and the link has no session either. */
  predicate Nameless(rt: Runtime, e: Event) {
    e.Receiving? && Promotes(rt, e.source, e.bytes)
    && var m := Protocol.Decode(e.bytes).value; m.kind == Protocol.KEEPALIVE && m.sessionId == 0
  }

  lemma DispatchNamedIff(rt: Runtime, k: nat, m: Protocol.Message)
    requires Coherent(rt) && k < |rt.links| && Owns(rt.links[k], m.source) && Named(rt.links)
    ensures Named(Dispatch(rt, k, m).rt.links) <==>
            !(m.kind == Protocol.KEEPALIVE && m.sessionId == 0 && rt.links[k].session == 0)
  {
    if m.kind == Protocol.HELLO {
      HelloNamed(rt, k, m);
    } else if m.kind == Protocol.HELLO_ACK || m.kind == Protocol.KEEPALIVE {
      var r := Dispatch(rt, k, m).rt;
      assert forall i :: 0 <= i < |rt.links| && i != k ==> r.links[i] == rt.links[i];
      assert r.links[k].active ==> (r.links[k].session == 0 <==> rt.links[k].session == 0);
    } else if m.kind == Protocol.AUDIO {
      AudioNamed(rt, k, m);
    } else if m.kind == Protocol.GOODBYE {
      RuntimeSilence.NoteSubsessions(rt, m.source);
    }
  }

  lemma HelloNamed(rt: Runtime, k: nat, m: Protocol.Message)
    requires Coherent(rt) && k < |rt.links| && Owns(rt.links[k], m.source) && Named(rt.links)
    ensures Named(ReceiveHello(rt, k, m).rt.links)
  {
    if m.sessionId == 0 {
      DroppedKeeps(rt);
      SendErrorKeeps(Dropped(rt), m.source, Protocol.SESSION_ERROR, REASON_NO_ID);
      SentNamed(Dropped(rt), ReceiveHello(rt, k, m).rt);
    } else {
      var l := rt.links[k].(session := m.sessionId, helloReceived := true, state := Handshaking);
      var s := MarkReady(SetLink(rt, k, l), k, m.source, m.sessionId);
      assert LinkOk(s.links[k]);
      QueueMessageSent(s, m.source, Protocol.HELLO_ACK, Identity(rt.localId), 0);
      SentNamed(s, ReceiveHello(rt, k, m).rt);
    }
  }

  lemma AudioNamed(rt: Runtime, k: nat, m: Protocol.Message)
    requires Coherent(rt) && k < |rt.links| && Owns(rt.links[k], m.source) && Named(rt.links)
    ensures Named(ReceiveAudio(rt, k, m).rt.links)
  {
    AudioEndsSending(rt, k, m);
    if !rt.links[k].active || rt.links[k].session != m.sessionId {
      SentNamed(Dropped(rt), ReceiveAudio(rt, k, m).rt);
    } else {
      SentNamed(Heard(rt, k, m), ReceiveAudio(rt, k, m).rt);
    }
  }

  lemma PayloadNamedIff(rt: Runtime, source: Byte, bytes: seq<Byte>)
    requires Coherent(rt) && Named(rt.links)
    ensures Named(HandlePayload(rt, source, bytes).rt.links) <==> !Nameless(rt, Receiving(source, bytes))
  {
    if HasTransport(rt) && bytes != [] {
      DroppedKeeps(rt);
      SendErrorKeeps(Dropped(rt), source, Protocol.DECODE_ERROR, REASON_DECODE);
      SentNamed(Dropped(rt), SendError(Dropped(rt), source, Protocol.DECODE_ERROR, REASON_DECODE));
      SendErrorKeeps(Dropped(rt), source, Protocol.TARGET_ERROR, REASON_ROUTE);
      SentNamed(Dropped(rt), SendError(Dropped(rt), source, Protocol.TARGET_ERROR, REASON_ROUTE));
      AdmittedNamed(rt, source);
      var o := OpenLink(rt.links, source);
      if Protocol.Decode(bytes).Some? && Routed(rt, source, Protocol.Decode(bytes).value) && o.slot < |o.links| {
        ReceiveNamedIff(Admitted(rt, source), o.slot, Protocol.Decode(bytes).value);
      }
    }
  }

  lemma AdmittedNamed(rt: Runtime, source: Byte)
    requires Coherent(rt) && Named(rt.links)
    ensures Coherent(Admitted(rt, source)) && Named(Admitted(rt, source).links)
  {
    OpenLinkKeeps(rt, source, SESSION_TIMEOUT_MS);
    OpenLinkShape(rt.links, source);
  }

  lemma ReceiveNamedIff(rt: Runtime, k: nat, m: Protocol.Message)
    requires Coherent(rt) && k < |rt.links| && Owns(rt.links[k], m.source) && Named(rt.links)
    ensures Named(Receive(rt, k, m).rt.links) <==>
            !(m.kind == Protocol.KEEPALIVE && m.sessionId == 0 && rt.links[k].session == 0
              && Judge(m.sequence, rt.links[k].lastRx, false) != Drop)
  {
    if Judge(m.sequence, rt.links[k].lastRx, m.kind == Protocol.AUDIO) != Drop {
      TouchedKeeps(rt, k, m);
      DispatchNamedIff(Touched(rt, k, m), k, m);
    }
  }

  /** Active sessions keep having ids over a step precisely when the step is not a keepalive for no session. */
  lemma StepNamedIff(rt: Runtime, e: Event)
    requires Coherent(rt) && Named(rt.links)
    ensures Named(Step(rt, e).links) <==> !Nameless(rt, e)
  {
    if e.Receiving? {
      PayloadNamedIff(rt, e.source, e.bytes);
    } else {
      RuntimeSilence.QuietStep(rt, e);
    }
  }

  ghost predicate AlwaysNamed(rt: Runtime, events: seq<Event>)
    decreases |events|
  {
    events == [] || (!Nameless(rt, events[0]) && AlwaysNamed(Step(rt, events[0]), events[1..]))
  }

  lemma {:induction false} RunNamed(rt: Runtime, events: seq<Event>, last: Runtime)
    requires Coherent(rt) && Named(rt.links) && Reaches(rt, events, last) && AlwaysNamed(rt, events)
    ensures Named(last.links)
    decreases |events|
  {
    if events != [] {
      StepNamedIff(rt, events[0]);
      StepKeeps(rt, events[0]);
      RunNamed(Step(rt, events[0]), events[1..], last);
    }
  }

  /**
   From an empty intercom, over every run without the steps named above: the stored count is the number of ready links,
   a ready link is active, and an active link has a session id and both halves of the handshake.
   */
  lemma SessionsAgree(intercom: Intercom.State, localId: Byte, events: seq<Event>, rt: Runtime)
    requires intercom.peers == [] && localId != 0 && Reaches(Init(intercom, localId), events, rt)
    requires AlwaysRecounted(Init(intercom, localId), events) && AlwaysNamed(Init(intercom, localId), events)
    ensures ReadyExact(rt)
    ensures forall k :: 0 <= k < |rt.links| && rt.links[k].state == Ready ==> rt.links[k].active
    ensures forall k :: 0 <= k < |rt.links| && rt.links[k].active ==>
                          rt.links[k].session != 0 && rt.links[k].helloSent && rt.links[k].helloReceived
  {
    var start := Init(intercom, localId);
    InitCoherent(intercom, localId);
    CountZero(start.links);
    RunExact(start, events, rt);
    RunNamed(start, events, rt);
    RunKeeps(start, events, rt);
  }
}
