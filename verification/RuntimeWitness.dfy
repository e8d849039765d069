/**
 Runs from start-up that the code can really go through and that break what its counters and documentation suggest: one
 for each case that the exactness results single out.
 */
module RuntimeWitness {
  import opened Machine
  import opened RuntimeSpec
  import opened RuntimeInvariant
  import opened RuntimeSteps
  import opened RuntimeRuns
  import opened RuntimeReady
  import opened RuntimeReadyRuns
  import opened RuntimeHeard
  import RuntimeOutcomes
  import RuntimeLapse
  import Protocol
  import Intercom = IntercomSpec
  import Transport = TransportSpec
  import Tables = TransportInvariant
  import Outcomes = TransportOutcomes

  function Start(): Runtime { Init(Intercom.INITIAL, 1) }

  lemma ReachesOne(rt: Runtime, e: Event)
    requires Possible(rt, e)
    ensures Reaches(rt, [e], Step(rt, e))
  {
    assert [e][1..] == [];
    assert Reaches(Step(rt, e), [], Step(rt, e));
  }

  lemma {:induction false} ReachesJoin(rt: Runtime, a: seq<Event>, mid: Runtime, b: seq<Event>, last: Runtime)
    requires Reaches(rt, a, mid) && Reaches(mid, b, last)
    ensures Reaches(rt, a + b, last)
    decreases |a|
  {
    if a == [] {
      assert a + b == b;
    } else {
      assert (a + b)[0] == a[0] && (a + b)[1..] == a[1..] + b;
      ReachesJoin(Step(rt, a[0]), a[1..], mid, b, last);
    }
  }

  /** One more event at the end. */
  lemma ReachesMore(rt: Runtime, a: seq<Event>, mid: Runtime, e: Event)
    requires Reaches(rt, a, mid) && Possible(mid, e)
    ensures Reaches(rt, a + [e], Step(mid, e))
  {
    ReachesOne(mid, e);
    ReachesJoin(rt, a, mid, [e], Step(mid, e));
  }

  // --- peer 7 connects ---

  /** A message from peer 7 without payload. */
  function Mail(kind: Byte, session: Word32, sequence: Word16): Protocol.Message {
    Protocol.Message(Protocol.VERSION, kind, session, sequence, 0, 7, 0, 0, [])
  }

  function Arriving(m: Protocol.Message): Event { Receiving(7, Protocol.Encode(m)) }

  function JoinedLink(): Link { FreshLink(7).(state := LinkState.Connecting) }

  /** Peer 7 is connected, its link is fresh and no other link is in use. */
  ghost predicate Joined(rt: Runtime) {
    && Coherent(rt) && rt.enabled && rt.now == 0 && rt.transport.lastPoll == 0 && rt.localId == 1
    && rt.links == seq(MAX_PEERS, _ => NO_LINK)[0 := JoinedLink()]
    && 7 in rt.transport.connected && rt.readyCount == 0
    && RuntimeLapse.Primed(rt.transport, 7, Transport.Find(rt.transport.discovered, 7), 0)
  }

  lemma StartTables()
    ensures Coherent(Start()) && Tables.CountValid(Start().transport.discovered) == 0
    ensures OpenLink(Start().links, 7) == Opened(seq(MAX_PEERS, _ => NO_LINK)[0 := FreshLink(7)], 0)
  {
    InitCoherent(Intercom.INITIAL, 1);
    Tables.EmptySlots(MAX_PEERS);
  }

  lemma ConnectClock(t: Transport.State, id: Byte)
    ensures Transport.Connect(t, id).state.lastPoll == t.lastPoll
  {
    var r := Transport.Remember(t, id);
    var o := Transport.Open(r.state, id);
    if o.slot < |o.state.discovered| { ConnectSlotClock(o.state, o.slot, id); }
  }

  lemma ConnectSlotClock(t: Transport.State, k: nat, id: Byte)
    requires k < |t.discovered|
    ensures Transport.ConnectSlot(t, k, id).state.lastPoll == t.lastPoll
  {
  }

  lemma StartConnects()
    ensures var t, t' := Start().transport, Transport.Connect(Start().transport, 7);
            && t'.ok && 7 in t'.state.connected && t'.state.lastPoll == 0
            && RuntimeLapse.Primed(t'.state, 7, Transport.Find(t'.state.discovered, 7), 0)
  {
    var t := Start().transport;
    StartTables();
    Outcomes.FindIff(t.discovered, 7);
    Outcomes.ConnectOkIff(t, 7);
    Outcomes.ConnectMakes(t, 7);
    ConnectClock(t, 7);
  }

  lemma StartJoins()
    ensures Connect(Start(), 7).ok && !Active(Start().links, 7)
  {
    StartTables();
    StartConnects();
    Outcomes.ConnectOkIff(Start().transport, 7);
    assert !Start().links[0].valid;
    RuntimeOutcomes.ConnectOkIff(Start(), 7);
  }

  lemma JoinedLinks()
    ensures var l := FreshLink(7).(valid := true, id := 7, state := LinkState.Connecting, lastHandshake := 0);
            l == JoinedLink() && seq(MAX_PEERS, _ => NO_LINK)[0 := FreshLink(7)][0 := l]
                == seq(MAX_PEERS, _ => NO_LINK)[0 := JoinedLink()]
  {
  }

  lemma ConnectJoins(start: Runtime)
    requires start == Start()
    ensures Joined(Connect(start, 7).rt)
  {
    StartTables();
    StartConnects();
    StartJoins();
    ConnectKeeps(start, 7);
    RuntimeOutcomes.ConnectShape(start, 7);
    JoinedLinks();
  }

  lemma Joins(start: Runtime) returns (rt: Runtime)
    requires start == Start()
    ensures Reaches(start, [Event.Connecting(7)], rt) && Joined(rt)
  {
    ConnectJoins(start);
    ReachesOne(start, Event.Connecting(7));
    rt := Connect(start, 7).rt;
  }

  // --- peer 7 says hello ---

  predicate SessionLink(l: Link) {
    && Owns(l, 7) && l.active && l.state == Ready && l.lastActivity == 0 && l.session == 5
    && l.lastRx == 1 && l.lastAudio == 0 && l.missing == 0
  }

  /** Peer 7 has a ready session in slot 0, just heard from, and no other link is in use. */
  ghost predicate InSession(rt: Runtime) {
    && Coherent(rt) && rt.enabled && rt.now == 0 && rt.transport.lastPoll == 0 && rt.localId == 1
    && 7 in rt.transport.connected && ReadyExact(rt)
    && SessionLink(rt.links[0])
    && (forall i :: 1 <= i < |rt.links| ==> !rt.links[i].valid)
    && RuntimeLapse.Primed(rt.transport, 7, Transport.Find(rt.transport.discovered, 7), 0)
  }

  lemma MailDecodes(m: Protocol.Message)
    requires m.version == Protocol.VERSION && m.kind != 0 && m.payload == []
    ensures Protocol.Decode(Protocol.Encode(m)) == Some(m) && Protocol.Encode(m) != []
  {
    Protocol.DecodeEncode(m);
  }

  lemma JoinedSlot(rt: Runtime)
    requires Joined(rt)
    ensures OpenLink(rt.links, 7) == Opened(rt.links, 0) && rt.links[0] == JoinedLink()
    ensures ReadyExact(rt) && Named(rt.links) && 7 in rt.connected
  {
    FindOwner(rt.links, 0);
    CountZero(rt.links);
  }

  lemma HelloSent(rt: Runtime)
    requires Joined(rt)
    ensures var m := Mail(Protocol.HELLO, 5, 1);
            var a := Touched(Admitted(rt, 7), 0, m);
            var s := MarkReady(SetLink(a, 0, a.links[0].(session := 5, helloReceived := true, state := Handshaking)),
                0, 7, 5);
            && ReceiveHello(a, 0, m).rt == SendHello(s, 7, Protocol.HELLO_ACK).rt && LinksOk(s.links)
            && SessionLink(s.links[0]) && (forall i :: 1 <= i < |s.links| ==> !s.links[i].valid)
            && s.transport == rt.transport && s.enabled == rt.enabled && s.now == rt.now && s.localId == rt.localId
  {
    JoinedSlot(rt);
  }

  lemma HelloStarts(rt: Runtime, bytes: seq<Byte>)
    requires Joined(rt) && bytes != [] && Protocol.Decode(bytes) == Some(Mail(Protocol.HELLO, 5, 1))
    ensures Possible(rt, Receiving(7, bytes)) && InSession(HandlePayload(rt, 7, bytes).rt)
  {
    var m := Mail(Protocol.HELLO, 5, 1);
    JoinedSlot(rt);
    PayloadKeeps(rt, 7, bytes);
    PayloadExactIff(rt, 7, bytes);
    PayloadDispatched(rt, 7, bytes, m, 0);
    HelloSent(rt);
    var a := Touched(Admitted(rt, 7), 0, m);
    var s := MarkReady(SetLink(a, 0, a.links[0].(session := 5, helloReceived := true, state := Handshaking)), 0, 7, 5);
    HelloAnswered(s, HandlePayload(rt, 7, bytes).rt);
  }

  lemma HelloAnswered(s: Runtime, r: Runtime)
    requires LinksOk(s.links) && LinksOk(r.links) && r == SendHello(s, 7, Protocol.HELLO_ACK).rt
    requires SessionLink(s.links[0]) && forall i :: 1 <= i < |s.links| ==> !s.links[i].valid
    ensures SessionLink(r.links[0]) && forall i :: 1 <= i < |r.links| ==> !r.links[i].valid
    ensures r.transport.connected == s.transport.connected && r.transport.lastPoll == s.transport.lastPoll
    ensures r.transport.discovered == s.transport.discovered && r.transport.remembered == s.transport.remembered
    ensures r.now == s.now && r.enabled == s.enabled && r.localId == s.localId
  {
    QueueMessageSent(s, 7, Protocol.HELLO_ACK, Identity(s.localId), 0);
    RuntimeOutcomes.SendTouches(s, 7, Protocol.HELLO_ACK, Identity(s.localId), 0);
    SettledSession(s, r);
  }

  lemma SettledSession(s: Runtime, r: Runtime)
    requires LinksOk(s.links) && LinksOk(r.links) && Sent(s, r) && RuntimeOutcomes.OnlyLinkOf(s.links, r.links, 7)
    requires SessionLink(s.links[0]) && forall i :: 1 <= i < |s.links| ==> !s.links[i].valid
    ensures SessionLink(r.links[0]) && forall i :: 1 <= i < |r.links| ==> !r.links[i].valid
    ensures r.transport.connected == s.transport.connected && r.transport.lastPoll == s.transport.lastPoll
    ensures r.transport.discovered == s.transport.discovered && r.transport.remembered == s.transport.remembered
  {
    assert LinkKept(s.links[0], r.links[0]);
  }

  /** Peer 7 connects and says hello. */
  function Opening(): seq<Event> { [Event.Connecting(7)] + [Arriving(Mail(Protocol.HELLO, 5, 1))] }

  lemma Opens(start: Runtime) returns (rt: Runtime)
    requires start == Start()
    ensures Reaches(start, Opening(), rt) && InSession(rt)
  {
    var mid := Joins(start);
    rt := SaysHello(start, [Event.Connecting(7)], mid);
  }

  lemma SaysHello(start: Runtime, events: seq<Event>, mid: Runtime) returns (rt: Runtime)
    requires Reaches(start, events, mid) && Joined(mid)
    ensures Reaches(start, events + [Arriving(Mail(Protocol.HELLO, 5, 1))], rt) && InSession(rt)
  {
    var m := Mail(Protocol.HELLO, 5, 1);
    MailDecodes(m);
    rt := Delivered(start, events, mid, m);
    HelloStarts(mid, Protocol.Encode(m));
  }

  /** A message from the connected peer 7 is one more step. */
  lemma Delivered(start: Runtime, events: seq<Event>, mid: Runtime, m: Protocol.Message) returns (rt: Runtime)
    requires Reaches(start, events, mid) && 7 in mid.transport.connected
    ensures Reaches(start, events + [Arriving(m)], rt) && rt == HandlePayload(mid, 7, Protocol.Encode(m)).rt
  {
    ReachesMore(start, events, mid, Arriving(m));
    rt := Step(mid, Arriving(m));
  }

  lemma SessionSlot(rt: Runtime)
    requires InSession(rt)
    ensures OpenLink(rt.links, 7) == Opened(rt.links, 0) && Readied(rt.links, 7)
            && rt.readyCount == CountReady(rt.links) == 1
  {
    FindOwner(rt.links, 0);
    assert IsReady(rt.links[0]) && rt.links[0].id == 7;
    CountZero(rt.links[1..]);
    assert forall i :: 0 <= i < |rt.links| - 1 ==> !rt.links[1..][i].valid;
  }

  // --- the ready count gone wrong ---

  /** An ERROR from a peer in session leaves the stored count at one with no ready link. */
  lemma ErrorDrifts(start: Runtime) returns (rt: Runtime)
    requires start == Start()
    ensures Reaches(start, Opening() + [Arriving(Mail(Protocol.ERROR, 5, 2))], rt)
    ensures rt.readyCount == 1 && CountReady(rt.links) == 0
  {
    var mid := Opens(start);
    MailDecodes(Mail(Protocol.ERROR, 5, 2));
    rt := Delivered(start, Opening(), mid, Mail(Protocol.ERROR, 5, 2));
    ErrorCounts(mid, Protocol.Encode(Mail(Protocol.ERROR, 5, 2)));
  }

  lemma ErrorCounts(rt: Runtime, bytes: seq<Byte>)
    requires InSession(rt) && bytes != [] && Protocol.Decode(bytes) == Some(Mail(Protocol.ERROR, 5, 2))
    ensures var r := HandlePayload(rt, 7, bytes).rt; r.readyCount == 1 && CountReady(r.links) == 0
  {
    SessionSlot(rt);
    PayloadDispatched(rt, 7, bytes, Mail(Protocol.ERROR, 5, 2), 0);
    CountZero(HandlePayload(rt, 7, bytes).rt.links);
  }

  /** Clearing a peer nobody knows zeroes the stored count beside a ready link. */
  lemma ClearDrifts(start: Runtime) returns (rt: Runtime)
    requires start == Start()
    ensures Reaches(start, Opening() + [Clearing(9)], rt) && rt.readyCount == 0 && !ReadyExact(rt)
  {
    var mid := Opens(start);
    ReachesMore(start, Opening(), mid, Clearing(9));
    rt := ClearPairing(mid, 9);
    assert IsReady(mid.links[0]) && mid.links[0].id != 9;
    ClearExactIff(mid, 9);
  }

  /** Switching off zeroes the stored count beside a ready link. */
  lemma DisableDrifts(start: Runtime) returns (rt: Runtime)
    requires start == Start()
    ensures Reaches(start, Opening() + [Enabling(false)], rt) && !ReadyExact(rt)
  {
    var mid := Opens(start);
    rt := Disables(start, Opening(), mid);
    SessionDisabled(mid);
  }

  lemma Disables(start: Runtime, events: seq<Event>, mid: Runtime) returns (rt: Runtime)
    requires Reaches(start, events, mid)
    ensures Reaches(start, events + [Enabling(false)], rt) && rt == SetEnabled(mid, false)
  {
    ReachesMore(start, events, mid, Enabling(false));
    rt := Step(mid, Enabling(false));
  }

  lemma SessionDisabled(rt: Runtime)
    requires InSession(rt)
    ensures !ReadyExact(SetEnabled(rt, false))
  {
    assert IsReady(rt.links[0]);
    DisableExactIff(rt);
  }

  /** Restoring a peer in session idles its link without recounting. */
  lemma RestoreDrifts(start: Runtime) returns (rt: Runtime)
    requires start == Start()
    ensures Reaches(start, Opening() + [Restoring(7)], rt) && !ReadyExact(rt)
  {
    var mid := Opens(start);
    rt := Restores(start, Opening(), mid);
    SessionRestored(mid);
  }

  lemma Restores(start: Runtime, events: seq<Event>, mid: Runtime) returns (rt: Runtime)
    requires Reaches(start, events, mid)
    ensures Reaches(start, events + [Restoring(7)], rt) && rt == RestorePairing(mid, 7).rt
  {
    ReachesMore(start, events, mid, Restoring(7));
    rt := Step(mid, Restoring(7));
  }

  lemma SessionRestored(rt: Runtime)
    requires InSession(rt)
    ensures !ReadyExact(RestorePairing(rt, 7).rt)
  {
    SessionSlot(rt);
    RestoreExactIff(rt, 7);
  }

  // --- a session without an id ---

  predicate NamelessLink(l: Link) { Owns(l, 7) && l.active && l.state == Ready && l.session == 0 }

  /** A KEEPALIVE with session id 0, before any hello, makes the link active and ready without a session id. */
  lemma KeepaliveNameless(start: Runtime) returns (rt: Runtime)
    requires start == Start()
    ensures Reaches(start, [Event.Connecting(7)] + [Arriving(Mail(Protocol.KEEPALIVE, 0, 1))], rt)
    ensures |rt.links| == MAX_PEERS && NamelessLink(rt.links[0])
  {
    var mid := Joins(start);
    MailDecodes(Mail(Protocol.KEEPALIVE, 0, 1));
    rt := Delivered(start, [Event.Connecting(7)], mid, Mail(Protocol.KEEPALIVE, 0, 1));
    KeepaliveReadies(mid, Protocol.Encode(Mail(Protocol.KEEPALIVE, 0, 1)));
  }

  lemma KeepaliveReadies(rt: Runtime, bytes: seq<Byte>)
    requires Joined(rt) && bytes != [] && Protocol.Decode(bytes) == Some(Mail(Protocol.KEEPALIVE, 0, 1))
    ensures Possible(rt, Receiving(7, bytes))
    ensures var r := HandlePayload(rt, 7, bytes).rt;
            |r.links| == MAX_PEERS && NamelessLink(r.links[0])
  {
    JoinedSlot(rt);
    PayloadDispatched(rt, 7, bytes, Mail(Protocol.KEEPALIVE, 0, 1), 0);
  }
}
