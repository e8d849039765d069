/** Sessions only age: without inbound payloads, fifty polls end every session. */
module RuntimeSilence {
  import opened Machine
  import opened Sequences
  import opened RuntimeSpec
  import opened RuntimeInvariant
  import opened RuntimeSteps
  import opened RuntimeRuns
  import AudioFrame
  import Transport = TransportSpec

  predicate Polls(rt: Runtime, e: Event) { e.Polling? && rt.enabled }

  lemma SentSubsessions(a: Runtime, b: Runtime)
    requires LinksOk(a.links) && Sent(a, b)
    ensures Subsessions(a, b) && b.now == a.now
  {
    forall j | 0 <= j < |a.links| && b.links[j].active ensures SameSession(a.links[j], b.links[j]) {
      assert LinkKept(a.links[j], b.links[j]);
    }
  }

  lemma NoteSubsessions(rt: Runtime, id: Byte)
    ensures Subsessions(rt, NoteDisconnected(rt, id)) && NoteDisconnected(rt, id).now == rt.now
  {
  }

  lemma ConnectSubsessions(rt: Runtime, id: Byte)
    requires Coherent(rt)
    ensures Subsessions(rt, Connect(rt, id).rt) && Connect(rt, id).rt.now == rt.now
  {
    OpenLinkShape(rt.links, id);
  }

  lemma SeverSubsessions(rt: Runtime, id: Byte)
    requires Coherent(rt)
    ensures Subsessions(rt, Sever(rt, id)) && Sever(rt, id).now == rt.now
  {
    SeverShape(rt, id);
    NoteSubsessions(rt, id);
    assert forall j :: 0 <= j < |rt.links| && Sever(rt, id).links[j].active ==>
                         Sever(rt, id).links[j] == NoteDisconnected(rt, id).links[j];
  }

  lemma DisconnectSubsessions(rt: Runtime, id: Byte)
    requires Coherent(rt)
    ensures Subsessions(rt, Disconnect(rt, id).rt) && Disconnect(rt, id).rt.now == rt.now
  {
    if id in rt.connected {
      FarewellKeeps(rt, id);
      SentSubsessions(rt, Farewell(rt, id));
      SeverSubsessions(Farewell(rt, id), id);
    }
  }

  lemma ClearSubsessions(rt: Runtime, id: Byte)
    requires Coherent(rt)
    ensures Subsessions(rt, ClearPairing(rt, id)) && ClearPairing(rt, id).now == rt.now
  {
    DisconnectSubsessions(rt, id);
  }

  lemma RestoreSubsessions(rt: Runtime, id: Byte)
    requires Coherent(rt)
    ensures Subsessions(rt, RestorePairing(rt, id).rt) && RestorePairing(rt, id).rt.now == rt.now
  {
    OpenLinkShape(rt.links, id);
  }

  /** The session table got no new or fresher sessions, and only an enabled poll moved the clock. */
  ghost predicate Quiet(rt: Runtime, e: Event) {
    && Subsessions(rt, Step(rt, e))
    && Step(rt, e).now == if Polls(rt, e) then Wrap32(rt.now + Transport.POLL_TICK_MS) else rt.now
  }

  lemma CommandQuiet(rt: Runtime, e: Event)
    requires Coherent(rt) && IsCommand(e)
    ensures Quiet(rt, e)
  {
    match e
    case Connecting(id) => ConnectSubsessions(rt, id);
    case Disconnecting(id) => DisconnectSubsessions(rt, id);
    case Clearing(id) => ClearSubsessions(rt, id);
    case Restoring(id) => RestoreSubsessions(rt, id);
    case Enabling(b) =>
      var r := Switched(rt, b);
      ReconcileFrame(Sync(r), 0);
    case Polling => PollKeeps(rt);
  }

  lemma InputQuiet(rt: Runtime, e: Event)
    requires Coherent(rt) && !IsCommand(e) && !e.Receiving?
    ensures Quiet(rt, e)
  {
    match e
    case Capturing(source, frame) =>
      if AudioFrame.Encodable(frame) {
        BroadcastKeeps(rt, source, AudioFrame.Encode(frame), SESSION_TIMEOUT_MS);
        SentSubsessions(rt, Broadcast(rt, source, AudioFrame.Encode(frame)));
      }
    case Injecting(source, payload) =>
      BroadcastKeeps(rt, source, payload, SESSION_TIMEOUT_MS);
      SentSubsessions(rt, Broadcast(rt, source, payload));
    case Reporting(id, ready) =>
    case PressingTalk(b) =>
    case SwitchingIntercom(b) =>
  }

  /** No step but a received payload starts or refreshes a session, and only an enabled poll moves the clock. */
  lemma QuietStep(rt: Runtime, e: Event)
    requires Coherent(rt) && !e.Receiving?
    ensures Quiet(rt, e)
  {
    if IsCommand(e) { CommandQuiet(rt, e); } else { InputQuiet(rt, e); }
  }

  /** The number of polls along a run that happen while the runtime is enabled. */
  function EnabledPolls(rt: Runtime, events: seq<Event>): nat
    decreases |events|
  {
    if events == [] then 0
    else (if Polls(rt, events[0]) then 1 else 0) + EnabledPolls(Step(rt, events[0]), events[1..])
  }

  /** Every session of b was one of a, heard from last at the same time, and is n ticks older. */
  ghost predicate Aged(a: Runtime, b: Runtime, n: nat) {
    && |b.links| == |a.links|
    && forall j :: 0 <= j < |a.links| && b.links[j].active ==>
                     a.links[j].active &&
                     Elapsed(b.now, b.links[j].lastActivity)
                     == Elapsed(a.now, a.links[j].lastActivity) + n * Transport.POLL_TICK_MS
  }

  lemma QuietStepAges(rt: Runtime, e: Event)
    requires Coherent(rt) && !e.Receiving?
    ensures Aged(rt, Step(rt, e), if Polls(rt, e) then 1 else 0)
  {
    QuietStep(rt, e);
    var r := Step(rt, e);
    forall j | 0 <= j < |rt.links| && r.links[j].active
      ensures Polls(rt, e) ==> Elapsed(r.now, r.links[j].lastActivity)
                               == Elapsed(rt.now, rt.links[j].lastActivity) + Transport.POLL_TICK_MS
    {
      if Polls(rt, e) {
        ElapsedTick(rt.now, rt.links[j].lastActivity);
      }
    }
  }

  lemma {:induction false} QuietRunAges(rt: Runtime, events: seq<Event>, last: Runtime)
    requires Coherent(rt) && Reaches(rt, events, last)
    requires forall e :: e in events ==> !e.Receiving?
    ensures Aged(rt, last, EnabledPolls(rt, events)) && Coherent(last)
    decreases |events|
  {
    if events != [] {
      QuietStepAges(rt, events[0]);
      StepKeeps(rt, events[0]);
      var next := Step(rt, events[0]);
      QuietRunAges(next, events[1..], last);
    }
  }

  lemma {:induction false} NoneActive(links: seq<Link>)
    requires forall j :: 0 <= j < |links| ==> !links[j].active
    ensures CountActive(links) == 0
  {
    if links != [] { NoneActive(links[1..]); }
  }

  /**
   After any run with fifty enabled polls and no inbound payload no session is left, the relay list is empty
   and the runtime no longer calls itself operational.
   */
  lemma FiftyQuietPolls(rt: Runtime, events: seq<Event>, last: Runtime)
    requires Coherent(rt) && Reaches(rt, events, last)
    requires forall e :: e in events ==> !e.Receiving?
    requires EnabledPolls(rt, events) >= 50
    ensures forall j :: 0 <= j < |last.links| ==> !last.links[j].active
    ensures last.intercom.peers == [] && !Operational(last)
  {
    QuietRunAges(rt, events, last);
    assert forall j :: 0 <= j < |last.links| ==> !last.links[j].active;
    NoneActive(last.links);
    EmptyOrHas(last.intercom.peers);
  }
}
