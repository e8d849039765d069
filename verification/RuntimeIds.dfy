/**
 The session ids a runtime gives out for its own hellos, over whole runs: distinct, non-zero and tagged with its id.
 */
module RuntimeIds {
  import opened Machine
  import opened SerialWindow
  import opened RuntimeSpec
  import opened RuntimeRuns
  import SessionIds
  import Protocol
  import AudioFrame
  import Intercom = IntercomSpec

  /** The counter stands behind the ids given so far, each of which has the shape of its place, for the first 65536. */
  ghost predicate Tagged(rt: Runtime) {
    && rt.localId != 0
    && (|rt.sessions.given| <= 0x1_0000 ==>
          && rt.sessions.next == rt.localId * 0x100_0000 + 1 + |rt.sessions.given|
          && forall i :: 0 <= i < |rt.sessions.given| ==> SessionIds.Shaped(rt.sessions.given[i], rt.localId, i))
  }

  /** From a to b ids may have been given out, each from the counter. */
  ghost predicate Issues(a: Runtime, b: Runtime) {
    b.localId == a.localId && a.sessions.given <= b.sessions.given && (Tagged(a) ==> Tagged(b))
  }

  lemma IssuesTwice(a: Runtime, b: Runtime, c: Runtime)
    requires Issues(a, b) && Issues(b, c)
    ensures Issues(a, c)
  {
  }

  lemma SameIssues(a: Runtime, b: Runtime)
    requires b.localId == a.localId && b.sessions == a.sessions
    ensures Issues(a, b)
  {
  }

  lemma AssignIssues(rt: Runtime, k: nat)
    requires k < |rt.links|
    ensures Issues(rt, AssignSession(rt, k))
  {
    var n, r := |rt.sessions.given|, AssignSession(rt, k);
    if Tagged(rt) && n < 0x1_0000 {
      SessionIds.EarlyId(rt.localId, n, rt.links[k].id);
      assert forall i :: 0 <= i < n ==> r.sessions.given[i] == rt.sessions.given[i];
    }
  }

  lemma SendOnSame(rt: Runtime, k: nat, kind: Byte, payload: seq<Byte>, flags: Word16)
    requires k < |rt.links|
    ensures var r := SendOn(rt, k, kind, payload, flags).rt; r.localId == rt.localId && r.sessions == rt.sessions
  {
  }

  lemma QueueIssues(rt: Runtime, id: Byte, kind: Byte, payload: seq<Byte>, flags: Word16)
    ensures Issues(rt, QueueMessage(rt, id, kind, payload, flags).rt)
  {
    var o := OpenLink(rt.links, id);
    var r := rt.(links := o.links);
    if HasTransport(rt) && id != 0 && o.slot < |rt.links| && id in rt.connected {
      AssignIssues(r, o.slot);
      SendOnSame(EnsureSession(r, o.slot, kind), o.slot, kind, payload, flags);
    }
  }

  lemma {:induction false} RelayToIssues(rt: Runtime, source: Byte, peers: seq<Byte>, payload: seq<Byte>)
    ensures Issues(rt, RelayTo(rt, source, peers, payload))
    decreases |peers|
  {
    if peers != [] {
      var a := rt.(relay := RecordRelay(rt.relay, source, peers[0]));
      QueueIssues(a, peers[0], Protocol.AUDIO, payload, 0);
      var b := RelayNext(rt, source, peers[0], payload);
      assert Issues(rt, b);
      RelayToIssues(b, source, peers[1..], payload);
      IssuesTwice(rt, b, RelayTo(b, source, peers[1..], payload));
    }
  }

  lemma BroadcastIssues(rt: Runtime, source: Byte, payload: seq<Byte>)
    ensures Issues(rt, Broadcast(rt, source, payload))
  {
    var r := StartRelay(rt);
    RelayToIssues(r, source, rt.intercom.peers, payload);
    var r' := if Intercom.Relays(rt.intercom, payload) then RelayTo(r, source, rt.intercom.peers, payload) else r;
    assert Issues(rt, r');
    SameIssues(r', Broadcast(rt, source, payload));
    IssuesTwice(rt, r', Broadcast(rt, source, payload));
  }

  // --- the operations ---

  lemma NoteSame(rt: Runtime, id: Byte)
    ensures NoteDisconnected(rt, id).sessions == rt.sessions && NoteDisconnected(rt, id).localId == rt.localId
    ensures Release(rt, id).sessions == rt.sessions && Release(rt, id).localId == rt.localId
  {
  }

  lemma ReconcileSlotSame(rt: Runtime, k: nat)
    requires k < |rt.links|
    ensures ReconcileSlot(rt, k).sessions == rt.sessions && ReconcileSlot(rt, k).localId == rt.localId
  {
    NoteSame(rt, rt.links[k].id);
    var r := NoteDisconnected(rt, rt.links[k].id);
    NoteSame(r, r.links[k].id);
  }

  lemma {:induction false} ReconcileSame(rt: Runtime, k: nat)
    requires k <= |rt.links|
    ensures ReconcileFrom(rt, k).sessions == rt.sessions && ReconcileFrom(rt, k).localId == rt.localId
    decreases |rt.links| - k
  {
    if k < |rt.links| {
      ReconcileSlotSame(rt, k);
      ReconcileSame(ReconcileSlot(rt, k), k + 1);
    }
  }

  lemma TimeOutSame(rt: Runtime, k: nat)
    requires k < |rt.links|
    ensures TimeOut(rt, k).sessions == rt.sessions && TimeOut(rt, k).localId == rt.localId
  {
    NoteSame(Refresh(SetLink(rt, k, rt.links[k].(state := Degraded, active := false))), rt.links[k].id);
  }

  lemma ServiceSlotIssues(rt: Runtime, k: nat)
    requires k < |rt.links|
    ensures Issues(rt, ServiceSlot(rt, k))
  {
    QueueIssues(rt, rt.links[k].id, Protocol.HELLO, Identity(rt.localId), 0);
    QueueIssues(rt, rt.links[k].id, Protocol.KEEPALIVE, [], 0);
    TimeOutSame(rt, k);
  }

  lemma {:induction false} ServiceIssues(rt: Runtime, k: nat)
    requires k <= |rt.links|
    ensures Issues(rt, ServiceFrom(rt, k))
    decreases |rt.links| - k
  {
    if k < |rt.links| {
      ServiceSlotIssues(rt, k);
      ServiceIssues(ServiceSlot(rt, k), k + 1);
      IssuesTwice(rt, ServiceSlot(rt, k), ServiceFrom(ServiceSlot(rt, k), k + 1));
    }
  }

  lemma PollIssues(rt: Runtime)
    ensures Issues(rt, Poll(rt))
  {
    var a := Ticked(rt);
    ReconcileSame(a, 0);
    var b := ReconcileFrom(a, 0);
    ServiceIssues(b, 0);
    SameIssues(rt, b);
    IssuesTwice(rt, b, Service(b));
  }

  lemma ConnectSame(rt: Runtime, id: Byte)
    ensures Connect(rt, id).rt.sessions == rt.sessions && Connect(rt, id).rt.localId == rt.localId
    ensures RestorePairing(rt, id).rt.sessions == rt.sessions && RestorePairing(rt, id).rt.localId == rt.localId
  {
  }

  lemma SeverSame(rt: Runtime, id: Byte)
    ensures Sever(rt, id).sessions == rt.sessions && Sever(rt, id).localId == rt.localId
  {
  }

  lemma DisconnectIssues(rt: Runtime, id: Byte)
    ensures Issues(rt, Disconnect(rt, id).rt)
  {
    QueueIssues(rt, id, Protocol.GOODBYE, [], 0);
    var f := Farewell(rt, id);
    SeverSame(f, id);
    SameIssues(f, Sever(f, id));
    assert Issues(rt, f);
    IssuesTwice(rt, f, Sever(f, id));
  }

  lemma DispatchIssues(rt: Runtime, k: nat, m: Protocol.Message)
    requires k < |rt.links|
    ensures Issues(rt, Dispatch(rt, k, m).rt)
  {
    if m.kind == Protocol.HELLO {
      HelloIssues(rt, k, m);
    } else if m.kind == Protocol.AUDIO {
      AudioIssues(rt, k, m);
    } else if m.kind == Protocol.GOODBYE {
      NoteSame(rt, m.source);
    }
  }

  lemma ErrorIssues(rt: Runtime, id: Byte, code: Byte, reason: seq<Byte>)
    ensures Issues(rt, SendError(Dropped(rt), id, code, reason))
  {
    QueueIssues(Dropped(rt), id, Protocol.ERROR, Protocol.ErrorPayload(Protocol.ERROR_BUFFER_BYTES, code, reason), 0);
    IssuesTwice(rt, Dropped(rt), SendError(Dropped(rt), id, code, reason));
  }

  lemma HelloIssues(rt: Runtime, k: nat, m: Protocol.Message)
    requires k < |rt.links|
    ensures Issues(rt, ReceiveHello(rt, k, m).rt)
  {
    if m.sessionId == 0 {
      ErrorIssues(rt, m.source, Protocol.SESSION_ERROR, REASON_NO_ID);
    } else {
      var l := rt.links[k].(session := m.sessionId, helloReceived := true, state := Handshaking);
      var s := MarkReady(SetLink(rt, k, l), k, m.source, m.sessionId);
      QueueIssues(s, m.source, Protocol.HELLO_ACK, Identity(rt.localId), 0);
      SameIssues(rt, s);
      IssuesTwice(rt, s, ReceiveHello(rt, k, m).rt);
    }
  }

  lemma AudioIssues(rt: Runtime, k: nat, m: Protocol.Message)
    requires k < |rt.links|
    ensures Issues(rt, ReceiveAudio(rt, k, m).rt)
  {
    var l := rt.links[k];
    if !l.active || l.session != m.sessionId {
      ErrorIssues(rt, m.source, Protocol.SESSION_ERROR, REASON_NOT_READY);
    } else {
      var r := SetLink(rt, k, l.(missing := Wrap32(l.missing + Gap(l.lastAudio, m.sequence)), lastAudio := m.sequence));
      BroadcastIssues(r, m.source, m.payload);
      SameIssues(rt, r);
      IssuesTwice(rt, r, Broadcast(r, m.source, m.payload));
    }
  }

  lemma PayloadIssues(rt: Runtime, source: Byte, bytes: seq<Byte>)
    ensures Issues(rt, HandlePayload(rt, source, bytes).rt)
  {
    ErrorIssues(rt, source, Protocol.DECODE_ERROR, REASON_DECODE);
    ErrorIssues(rt, source, Protocol.TARGET_ERROR, REASON_ROUTE);
    var o := OpenLink(rt.links, source);
    if Protocol.Decode(bytes).Some? && o.slot < |o.links| {
      var m := Protocol.Decode(bytes).value;
      var r := Touched(Admitted(rt, source), o.slot, m);
      DispatchIssues(r, o.slot, m);
      SameIssues(rt, r);
      IssuesTwice(rt, r, Dispatch(r, o.slot, m).rt);
    }
  }

  // --- runs ---

  lemma StepIssues(rt: Runtime, e: Event)
    ensures Issues(rt, Step(rt, e))
  {
    if IsCommand(e) { CommandIssues(rt, e); } else { InputIssues(rt, e); }
  }

  lemma CommandIssues(rt: Runtime, e: Event)
    requires IsCommand(e)
    ensures Issues(rt, Step(rt, e))
  {
    match e
    case Connecting(id) => ConnectSame(rt, id);
    case Disconnecting(id) => DisconnectIssues(rt, id);
    case Clearing(id) => DisconnectIssues(rt, id);
    case Restoring(id) => ConnectSame(rt, id);
    case Enabling(b) => ReconcileSame(Sync(Switched(rt, b)), 0);
    case Polling => PollIssues(rt);
  }

  lemma InputIssues(rt: Runtime, e: Event)
    requires !IsCommand(e)
    ensures Issues(rt, Step(rt, e))
  {
    match e
    case Capturing(source, frame) =>
      if AudioFrame.Encodable(frame) { BroadcastIssues(rt, source, AudioFrame.Encode(frame)); }
    case Injecting(source, payload) => BroadcastIssues(rt, source, payload);
    case Receiving(source, bytes) => PayloadIssues(rt, source, bytes);
    case Reporting(id, ready) =>
    case PressingTalk(b) =>
    case SwitchingIntercom(b) =>
  }

  lemma {:induction false} RunIssues(rt: Runtime, events: seq<Event>, last: Runtime)
    requires Reaches(rt, events, last)
    ensures Issues(rt, last)
    decreases |events|
  {
    if events != [] {
      StepIssues(rt, events[0]);
      RunIssues(Step(rt, events[0]), events[1..], last);
      IssuesTwice(rt, Step(rt, events[0]), last);
    }
  }

  /**
   Over every run from start-up in which at most 65536 hellos opened a session, their ids are non-zero, carry the local
   id on top and are pairwise distinct, whichever peers they went to and however sessions were torn down in between.
   */
  lemma GivenDistinct(intercom: Intercom.State, localId: Byte, events: seq<Event>, rt: Runtime)
    requires localId != 0 && Reaches(Init(intercom, localId), events, rt) && |rt.sessions.given| <= 0x1_0000
    ensures var ids := rt.sessions.given;
            && (forall i :: 0 <= i < |ids| ==> ids[i] != 0 && ids[i] / 0x100_0000 == localId)
            && (forall i, j :: 0 <= i < j < |ids| ==> ids[i] != ids[j])
  {
    RunIssues(Init(intercom, localId), events, rt);
    var ids := rt.sessions.given;
    assert Tagged(rt) && rt.localId == localId;
    assert forall i :: 0 <= i < |ids| ==> SessionIds.Shaped(ids[i], localId, i);
    forall i, j | 0 <= i < j < |ids| ensures ids[i] != ids[j] {
      SessionIds.ShapedApart(ids[i], ids[j], localId, i, j);
    }
  }

  /** So the id under which a link says hello after a teardown was never given to any link before. */
  lemma HelloIdFresh(intercom: Intercom.State, localId: Byte, events: seq<Event>, rt: Runtime, k: nat)
    requires localId != 0 && Reaches(Init(intercom, localId), events, rt) && |rt.sessions.given| < 0x1_0000
    requires k < |rt.links| && rt.links[k].session == 0
    ensures var id := EnsureSession(rt, k, Protocol.HELLO).links[k].session; id != 0 && id !in rt.sessions.given
  {
    RunIssues(Init(intercom, localId), events, rt);
    var r := AssignSession(rt, k);
    AssignIssues(rt, k);
    var n, ids := |rt.sessions.given|, r.sessions.given;
    assert ids[n] == r.links[k].session;
    forall i | 0 <= i < n ensures ids[i] != ids[n] {
      SessionIds.ShapedApart(ids[i], ids[n], localId, i, n);
    }
  }
}
