/**
 A run from start-up that ends with two links under one session id: one peer keeps waiting for the answer to its hello
 while its neighbour connects, is said hello to and disconnects 65535 times.
 */
module RuntimeCollision {
  import opened Machine
  import opened RuntimeSpec
  import opened RuntimeInvariant
  import opened RuntimeSteps
  import opened RuntimeRuns
  import opened RuntimeWitness
  import opened RuntimeLapseRun
  import RuntimeLapse
  import RuntimeHold
  import RuntimeIds
  import RuntimeOutcomes
  import SessionIds
  import Protocol
  import Intercom = IntercomSpec
  import Transport = TransportSpec
  import TransportPoll
  import Tables = TransportInvariant
  import Outcomes = TransportOutcomes

  /** The links in front of slot s wait for an answer to a hello under an id of their own. */
  ghost predicate Settled(rt: Runtime, s: nat, b: Byte) {
    && s < |rt.links|
    && forall i :: 0 <= i < s ==> var l := rt.links[i];
         l.valid && !l.active && l.session != 0 && l.id in rt.transport.connected && l.id != b
  }

  ghost predicate EmptyFrom(links: seq<Link>, s: nat) { forall i :: s <= i < |links| ==> !links[i].valid }

  ghost predicate SameSessions(a: seq<Link>, b: seq<Link>, s: nat) {
    s <= |a| == |b| && forall i :: 0 <= i < s ==> b[i].id == a[i].id && b[i].session == a[i].session
  }

  /** The session counter after n ids. */
  predicate Counted(rt: Runtime, n: nat) {
    rt.sessions.next == SessionIds.FirstId(rt.localId) + n && |rt.sessions.given| == n
  }

  /** A connect of the peer would succeed. */
  ghost predicate Dialable(t: Transport.State, b: Byte) {
    && Outcomes.Memorable(t, b) && Outcomes.Findable(t.discovered, b)
    && Outcomes.AudioCapable(Outcomes.Entry(t.discovered, b))
  }

  ghost predicate Running(rt: Runtime, s: nat, b: Byte, n: nat) {
    Coherent(rt) && rt.enabled && b != 0 && b != rt.localId && Settled(rt, s, b) && Counted(rt, n)
  }

  /** Slot s is the first free one, and the peer can be connected. */
  ghost predicate Vacant(rt: Runtime, s: nat, b: Byte, n: nat) {
    Running(rt, s, b, n) && EmptyFrom(rt.links, s) && Dialable(rt.transport, b) && b !in rt.transport.connected
  }

  /** The peer is connected in slot s, and has not been said hello to. */
  ghost predicate Dialed(rt: Runtime, s: nat, b: Byte, n: nat, j: nat, seen: Word32) {
    && Running(rt, s, b, n) && EmptyFrom(rt.links, s + 1)
    && rt.links[s] == FreshLink(b).(state := LinkState.Connecting)
    && RuntimeLapse.Primed(rt.transport, b, j, seen) && b in rt.transport.connected
  }

  /** The peer is connected in slot s, and has been said hello to under the latest id. */
  ghost predicate Greeted(rt: Runtime, s: nat, b: Byte, n: nat, j: nat, seen: Word32) {
    && Running(rt, s, b, n) && EmptyFrom(rt.links, s + 1)
    && Owns(rt.links[s], b) && !rt.links[s].active && !rt.links[s].remembered
    && RuntimeLapse.Primed(rt.transport, b, j, seen) && b in rt.transport.connected
  }

  // --- connecting ---

  lemma FreeSlot(links: seq<Link>, s: nat, b: Byte)
    requires s < |links| && (forall i :: 0 <= i < s ==> links[i].valid && links[i].id != b) && EmptyFrom(links, s)
            && b != 0
    ensures OpenLink(links, b) == Opened(links[s := FreshLink(b)], s)
  {
    assert forall i :: 0 <= i < |links| ==> !Owns(links[i], b);
    assert !links[s].valid && FirstFree(links) == s;
  }

  lemma OwnSlot(links: seq<Link>, s: nat, b: Byte)
    requires s < |links| && (forall i :: 0 <= i < s ==> links[i].id != b) && Owns(links[s], b) && b != 0
    ensures FindLink(links, b) == s && OpenLink(links, b) == Opened(links, s)
  {
  }

  lemma DialTransport(t: Transport.State, b: Byte) returns (j: nat, seen: Word32)
    requires Tables.WellFormed(t) && t.enabled && b != 0 && b != t.localId && Dialable(t, b) && b !in t.connected
    ensures var c := Transport.Connect(t, b);
            && c.ok && c.state.connected == t.connected + [b] && RuntimeLapse.Primed(c.state, b, j, seen)
            && Outcomes.OnlyEntryOf(t.discovered, c.state.discovered, b)
  {
    Outcomes.ConnectOkIff(t, b);
    Outcomes.ConnectMakes(t, b);
    Tables.ConnectKeeps(t, b);
    var c := Transport.Connect(t, b);
    assert Tables.Known(c.state.discovered, b);
    Outcomes.FindIff(c.state.discovered, b);
    j := Transport.Find(c.state.discovered, b);
    seen := c.state.discovered[j].lastSeen;
  }

  lemma Dials(rt: Runtime, s: nat, b: Byte, n: nat) returns (j: nat, seen: Word32)
    requires Vacant(rt, s, b, n)
    ensures Dialed(Connect(rt, b).rt, s, b, n, j, seen) && SameSessions(rt.links, Connect(rt, b).rt.links, s)
    ensures Connect(rt, b).rt.transport == Transport.Connect(rt.transport, b).state
            && Connect(rt, b).rt.localId == rt.localId
    ensures Outcomes.OnlyEntryOf(rt.transport.discovered, Connect(rt, b).rt.transport.discovered, b)
  {
    j, seen := DialTransport(rt.transport, b);
    FreeSlot(rt.links, s, b);
    assert !rt.links[s].valid;
    assert !Active(rt.links, b);
    RuntimeOutcomes.ConnectOkIff(rt, b);
    RuntimeOutcomes.ConnectShape(rt, b);
    ConnectKeeps(rt, b);
    DialedLinks(rt.links, s, b);
  }

  lemma DialedLinks(links: seq<Link>, s: nat, b: Byte)
    requires s < |links|
    ensures links[s := FreshLink(b)][s := FreshLink(b).(valid := true, id := b, state := LinkState.Connecting,
            lastHandshake := 0)]
            == links[s := FreshLink(b).(state := LinkState.Connecting)]
  {
  }

  // --- a poll: the links in front at most repeat their hello, the peer is said hello to ---

  /** Reconciling links whose peers are all connected only wakes idle ones. */
  ghost predicate Woken(rt: Runtime, r: Runtime) {
    && r == rt.(links := r.links) && |r.links| == |rt.links|
    && forall i :: 0 <= i < |rt.links| ==>
         r.links[i] == rt.links[i] || r.links[i] == rt.links[i].(state := LinkState.Connecting)
  }

  ghost predicate AllConnected(rt: Runtime) {
    forall i :: 0 <= i < |rt.links| && rt.links[i].valid ==> rt.links[i].id in rt.connected
  }

  lemma {:induction false} ReconcileWakes(rt: Runtime, k: nat)
    requires k <= |rt.links| && AllConnected(rt)
    ensures Woken(rt, ReconcileFrom(rt, k))
    decreases |rt.links| - k
  {
    if k < |rt.links| {
      ReconcileWakes(ReconcileSlot(rt, k), k + 1);
    }
  }

  /** Links from slot k on that are empty are not serviced. */
  lemma {:induction false} NothingServiced(rt: Runtime, k: nat)
    requires k <= |rt.links| && EmptyFrom(rt.links, k)
    ensures ServiceFrom(rt, k) == rt
    decreases |rt.links| - k
  {
    if k < |rt.links| {
      NothingServiced(rt, k + 1);
    }
  }

  /** What saying hello on slot k leaves as it was. */
  ghost predicate OnlySlot(rt: Runtime, r: Runtime, k: nat) {
    && k < |rt.links| == |r.links| && Sent(rt, r)
    && (forall i :: 0 <= i < |rt.links| && i != k ==> r.links[i] == rt.links[i])
  }

  lemma HelloOn(rt: Runtime, k: nat, b: Byte)
    requires LinksOk(rt.links) && HasTransport(rt) && k < |rt.links| && Owns(rt.links[k], b) && b in rt.connected
    ensures SendHello(rt, b, Protocol.HELLO)
            == SendOn(EnsureSession(rt, k, Protocol.HELLO), k, Protocol.HELLO, Identity(rt.localId), 0)
    ensures OnlySlot(rt, SendHello(rt, b, Protocol.HELLO).rt, k)
  {
    OwnSlot(rt.links, k, b);
    QueueMessageSent(rt, b, Protocol.HELLO, Identity(rt.localId), 0);
    RuntimeOutcomes.SendTouches(rt, b, Protocol.HELLO, Identity(rt.localId), 0);
  }

  /** A hello repeated under the link's id gives no new one. */
  lemma HelloAgain(rt: Runtime, k: nat, b: Byte)
    requires LinksOk(rt.links) && HasTransport(rt) && k < |rt.links| && Owns(rt.links[k], b) && b in rt.connected
    requires rt.links[k].session != 0
    ensures var r := SendHello(rt, b, Protocol.HELLO).rt; OnlySlot(rt, r, k) && r.sessions == rt.sessions
  {
    HelloOn(rt, k, b);
    RuntimeIds.SendOnSame(rt, k, Protocol.HELLO, Identity(rt.localId), 0);
  }

  /** The first hello on a link takes the next id. */
  lemma HelloFirst(rt: Runtime, k: nat, b: Byte)
    requires LinksOk(rt.links) && HasTransport(rt) && k < |rt.links| && Owns(rt.links[k], b) && b in rt.connected
    requires rt.links[k].session == 0
    ensures var r := SendHello(rt, b, Protocol.HELLO).rt; var g := SessionIds.Generate(rt.sessions.next, rt.localId, b);
            OnlySlot(rt, r, k) && r.links[k].session == g.id
                && r.sessions == Sessions(g.next, rt.sessions.given + [g.id])
  {
    HelloOn(rt, k, b);
    var a := AssignSession(rt, k);
    assert EnsureSession(rt, k, Protocol.HELLO) == a;
    RuntimeIds.SendOnSame(a, k, Protocol.HELLO, Identity(rt.localId), 0);
    SendOnSession(a, k);
  }

  lemma SendOnSession(rt: Runtime, k: nat)
    requires k < |rt.links|
    ensures SendOn(rt, k, Protocol.HELLO, Identity(rt.localId), 0).rt.links[k].session == rt.links[k].session
  {
  }

  /**
   Ready for servicing: the links in front wait for an answer, slot s for its first hello, and no more links follow.
   */
  ghost predicate Front(rt: Runtime, s: nat, b: Byte, limit: nat) {
    && CoherentWithin(rt, limit) && HasTransport(rt) && s < |rt.links| && EmptyFrom(rt.links, s + 1)
    && (forall i :: 0 <= i < s ==> Waits(rt, rt.links[i], b))
    && Owns(rt.links[s], b) && b in rt.connected && b != 0
    && !rt.links[s].active && !rt.links[s].helloSent && rt.links[s].session == 0
  }

  predicate Waits(rt: Runtime, l: Link, b: Byte) {
    l.valid && !l.active && l.session != 0 && l.id in rt.connected && l.id != b
  }

  /** The peer in slot s was given the next id, and nobody else was given any. */
  ghost predicate Gave(rt: Runtime, r: Runtime, s: nat, b: Byte) {
    var g := SessionIds.Generate(rt.sessions.next, rt.localId, b);
    && Sent(rt, r) && SameSessions(rt.links, r.links, s) && EmptyFrom(r.links, s + 1)
    && s < |r.links| && r.links[s].session == g.id && r.sessions == Sessions(g.next, rt.sessions.given + [g.id])
  }

  lemma FrontStep(rt: Runtime, k: nat, s: nat, b: Byte, limit: nat)
    requires Front(rt, s, b, limit) && k < s
    ensures var r := ServiceSlot(rt, k);
            && Front(r, s, b, limit) && Sent(rt, r) && r.sessions == rt.sessions
            && SameSessions(rt.links, r.links, s)
  {
    var l := rt.links[k];
    assert Waits(rt, l, b);
    if !l.helloSent || Elapsed(rt.now, l.lastHandshake) >= HANDSHAKE_RETRY_MS {
      HelloAgain(rt, k, l.id);
      QueueMessageKeeps(rt, l.id, Protocol.HELLO, Identity(rt.localId), 0, limit);
      FrontStays(rt, SendHello(rt, l.id, Protocol.HELLO).rt, k, s, b, limit);
    } else {
      SentSame(rt);
    }
  }

  lemma SentSame(rt: Runtime)
    requires LinksOk(rt.links)
    ensures Sent(rt, rt)
  {
  }

  lemma FrontStays(rt: Runtime, r: Runtime, k: nat, s: nat, b: Byte, limit: nat)
    requires Front(rt, s, b, limit) && k < s && OnlySlot(rt, r, k) && CoherentWithin(r, limit)
    ensures Front(r, s, b, limit) && SameSessions(rt.links, r.links, s)
  {
    assert LinkKept(rt.links[k], r.links[k]);
    assert Waits(rt, rt.links[k], b) && Waits(r, r.links[k], b);
    assert forall i :: 0 <= i < s && i != k ==> Waits(rt, rt.links[i], b) == Waits(r, r.links[i], b);
  }

  lemma {:induction false} ServiceGreets(rt: Runtime, k: nat, s: nat, b: Byte, limit: nat)
    requires Front(rt, s, b, limit) && k <= s
    ensures Gave(rt, ServiceFrom(rt, k), s, b)
    decreases s - k
  {
    var r := ServiceSlot(rt, k);
    if k < s {
      FrontStep(rt, k, s, b, limit);
      ServiceGreets(r, k + 1, s, b, limit);
      SentTwice(rt, r, ServiceFrom(r, k + 1));
    } else {
      FrontGreets(rt, s, b, limit);
    }
  }

  lemma FrontGreets(rt: Runtime, s: nat, b: Byte, limit: nat)
    requires Front(rt, s, b, limit)
    ensures Gave(rt, ServiceFrom(rt, s), s, b)
  {
    HelloFirst(rt, s, b);
    NothingServiced(ServiceSlot(rt, s), s + 1);
  }

  lemma TickKeepsConnected(t: Transport.State)
    requires Tables.WellFormed(t) && t.enabled
    ensures forall x :: x in t.connected ==> x in Transport.Tick(t).connected
    ensures Tables.WellFormed(Transport.Tick(t)) && Transport.Tick(t).remembered == t.remembered
  {
    TransportPoll.PollExact(t.(lastPoll := Wrap32(t.lastPoll + Transport.POLL_TICK_MS)));
  }

  lemma TickedFront(rt: Runtime, s: nat, b: Byte, n: nat, j: nat, seen: Word32)
    requires Dialed(rt, s, b, n, j, seen)
    ensures var r := ReconcileFrom(Ticked(rt), 0);
            && Front(r, s, b, SESSION_TIMEOUT_MS + Transport.POLL_TICK_MS) && SameSessions(rt.links, r.links, s)
            && r.transport == Transport.Tick(rt.transport) && r.sessions == rt.sessions && r.localId == rt.localId
            && !r.links[s].remembered && r.enabled
  {
    var limit := SESSION_TIMEOUT_MS + Transport.POLL_TICK_MS;
    var a := Ticked(rt);
    TickKeepsConnected(rt.transport);
    TickedKeeps(rt);
    forall i | 0 <= i < |a.links| && a.links[i].valid ensures a.links[i].id in a.connected {
      assert i <= s;
    }
    ReconcileWakes(a, 0);
    ReconcileKeeps(a, 0, limit);
    WokenFront(a, ReconcileFrom(a, 0), s, b, limit);
  }

  lemma WokenFront(a: Runtime, r: Runtime, s: nat, b: Byte, limit: nat)
    requires Woken(a, r) && Front(a, s, b, limit) && CoherentWithin(r, limit)
    ensures Front(r, s, b, limit) && SameSessions(a.links, r.links, s) && r.links[s].remembered == a.links[s].remembered
  {
    assert forall i :: 0 <= i < s ==> Waits(a, a.links[i], b) && Waits(r, r.links[i], b);
  }

  /** The id that a hello to b gets when n have been given out before. */
  function IdAt(localId: Byte, b: Byte, n: nat): Word32
    requires n <= 0x1_0000
  {
    SessionIds.Generate(SessionIds.FirstId(localId) + n, localId, b).id
  }

  lemma SameTwice(a: seq<Link>, b: seq<Link>, c: seq<Link>, s: nat)
    requires SameSessions(a, b, s) && SameSessions(b, c, s)
    ensures SameSessions(a, c, s)
  {
  }

  lemma NextCount(localId: Byte, b: Byte, n: nat)
    requires localId != 0 && n <= 0x1_0000
    ensures SessionIds.FirstId(localId) + n + 1 < 0x1_0000_0000
    ensures SessionIds.Generate(SessionIds.FirstId(localId) + n, localId, b).next
            == Wrap32(SessionIds.FirstId(localId) + n + 1)
  {
  }

  lemma StillWaits(a: Runtime, r: Runtime, i: nat, b: Byte)
    requires Sent(a, r) && i < |a.links| && Waits(a, a.links[i], b)
    ensures r.links[i].valid && !r.links[i].active && r.links[i].session == a.links[i].session
            && r.links[i].id == a.links[i].id
  {
    assert LinkKept(a.links[i], r.links[i]);
  }

  lemma GreetedAfter(a: Runtime, r: Runtime, s: nat, b: Byte, n: nat, j: nat, seen: Word32, limit: nat)
    requires Front(a, s, b, limit) && Gave(a, r, s, b) && Counted(a, n) && n <= 0x1_0000
    requires a.connected == a.transport.connected && !a.links[s].remembered && a.localId != 0 && b != a.localId
    requires RuntimeLapse.Primed(a.transport, b, j, seen) && Coherent(Flush(r))
    requires SessionIds.FirstId(a.localId) + n + 1 < 0x1_0000_0000
    ensures Greeted(Flush(r), s, b, n + 1, j, seen)
    ensures r.links[s].session == IdAt(a.localId, b, n)
  {
    NextCount(a.localId, b, n);
    assert LinkKept(a.links[s], r.links[s]);
    forall i | 0 <= i < s
      ensures r.links[i].valid && !r.links[i].active && r.links[i].session == a.links[i].session
              && r.links[i].id == a.links[i].id
              && Waits(a, a.links[i], b)
    {
      StillWaits(a, r, i, b);
    }
  }

  /** The first part of a poll leads to a reconciled runtime, from which servicing gives the peer its id. */
  lemma Reconciles(rt: Runtime, s: nat, b: Byte, n: nat, j: nat, seen: Word32, a: Runtime, r: Runtime)
    requires Dialed(rt, s, b, n, j, seen) && a == ReconcileFrom(Ticked(rt), 0) && r == ServiceFrom(a, 0)
    ensures Front(a, s, b, SESSION_TIMEOUT_MS + Transport.POLL_TICK_MS) && Gave(a, r, s, b) && Counted(a, n)
    ensures a.connected == a.transport.connected && !a.links[s].remembered && a.localId == rt.localId
    ensures RuntimeLapse.Primed(a.transport, b, j, seen) && SameSessions(rt.links, r.links, s)
    ensures Poll(rt) == Flush(r) && a.transport == Transport.Tick(rt.transport)
  {
    TickedFront(rt, s, b, n, j, seen);
    RuntimeLapse.TickPrimed(rt.transport, b, j, seen);
    ServiceGreets(a, 0, s, b, SESSION_TIMEOUT_MS + Transport.POLL_TICK_MS);
    SameTwice(rt.links, a.links, r.links, s);
    ReconcileFrame(Ticked(rt), 0);
  }

  lemma Greets(rt: Runtime, s: nat, b: Byte, n: nat, j: nat, seen: Word32)
    requires Dialed(rt, s, b, n, j, seen) && n <= 0x1_0000
    ensures Greeted(Poll(rt), s, b, n + 1, j, seen) && Poll(rt).links[s].session == IdAt(rt.localId, b, n)
    ensures SameSessions(rt.links, Poll(rt).links, s) && Poll(rt).localId == rt.localId
  {
    var a := ReconcileFrom(Ticked(rt), 0);
    var r := ServiceFrom(a, 0);
    Reconciles(rt, s, b, n, j, seen, a, r);
    PollKeeps(rt);
    NextCount(rt.localId, b, n);
    GreetedAfter(a, r, s, b, n, j, seen, SESSION_TIMEOUT_MS + Transport.POLL_TICK_MS);
  }

  // --- disconnecting ---

  lemma SeveredLinks(rt: Runtime, s: nat, b: Byte)
    requires s < |rt.links| && (forall i :: 0 <= i < s ==> rt.links[i].id != b) && Owns(rt.links[s], b) && b != 0
    requires !rt.links[s].remembered
    ensures Sever(rt, b).links == rt.links[s := NO_LINK]
  {
    OwnSlot(rt.links, s, b);
    var l := ResetLink(rt.links[s]);
    OwnSlot(rt.links[s := l], s, b);
    assert rt.links[s := l][s := NO_LINK] == rt.links[s := NO_LINK];
  }

  lemma DropTransport(t: Transport.State, b: Byte, j: nat, seen: Word32)
    requires Tables.WellFormed(t) && RuntimeLapse.Primed(t, b, j, seen) && b in t.connected
    ensures var t' := Transport.Disconnect(t, b).state;
            Dialable(t', b) && b !in t'.connected && forall x :: x in t'.connected <==> x in t.connected && x != b
  {
    Outcomes.DisconnectOutcome(t, b);
    Tables.DisconnectKeeps(t, b);
    var t' := Transport.Disconnect(t, b).state;
    assert Transport.Holds(t'.discovered[j], b);
    Outcomes.EntryAt(t'.discovered, t'.localId, j);
    Outcomes.EntryAt(t.discovered, t.localId, j);
  }

  lemma Drops(rt: Runtime, s: nat, b: Byte, n: nat, j: nat, seen: Word32)
    requires Greeted(rt, s, b, n, j, seen)
    ensures var r := Disconnect(rt, b).rt;
            Vacant(r, s, b, n) && SameSessions(rt.links, r.links, s) && r.localId == rt.localId
  {
    OwnSlot(rt.links, s, b);
    assert Farewell(rt, b) == rt;
    RuntimeHold.DisconnectTransport(rt, b);
    DropTransport(rt.transport, b, j, seen);
    RuntimeIds.SeverSame(rt, b);
    DisconnectKeeps(rt, b);
    SeverShape(rt, b);
    SeveredFront(rt, s, b, n, j, seen);
  }

  lemma SeveredFront(rt: Runtime, s: nat, b: Byte, n: nat, j: nat, seen: Word32)
    requires Greeted(rt, s, b, n, j, seen)
    ensures var links := Sever(rt, b).links;
            && EmptyFrom(links, s) && SameSessions(rt.links, links, s) && s < |links|
            && forall i :: 0 <= i < s ==> links[i] == rt.links[i]
  {
    SeveredLinks(rt, s, b);
  }

  // --- over and over ---

  function Once(b: Byte): seq<Event> { [Event.Connecting(b)] + [Polling] + [Disconnecting(b)] }

  function Times(b: Byte, count: nat): seq<Event> {
    if count == 0 then [] else Times(b, count - 1) + Once(b)
  }

  lemma GreetsOnce(rt: Runtime, s: nat, b: Byte, n: nat) returns (last: Runtime, j: nat, seen: Word32)
    requires Vacant(rt, s, b, n) && n <= 0x1_0000
    ensures Reaches(rt, [Event.Connecting(b)] + [Polling], last) && last == Poll(Connect(rt, b).rt)
    ensures Greeted(last, s, b, n + 1, j, seen) && SameSessions(rt.links, last.links, s) && last.localId == rt.localId
    ensures last.links[s].session == IdAt(rt.localId, b, n)
  {
    j, seen := Dials(rt, s, b, n);
    var mid := Connect(rt, b).rt;
    ReachesOne(rt, Event.Connecting(b));
    last := PollsOn(rt, [Event.Connecting(b)], mid);
    Greets(mid, s, b, n, j, seen);
    SameTwice(rt.links, mid.links, last.links, s);
  }

  lemma CyclesOnce(rt: Runtime, s: nat, b: Byte, n: nat) returns (last: Runtime)
    requires Vacant(rt, s, b, n) && n <= 0x1_0000
    ensures Reaches(rt, Once(b), last) && Vacant(last, s, b, n + 1)
    ensures SameSessions(rt.links, last.links, s) && last.localId == rt.localId
  {
    var mid, j, seen := GreetsOnce(rt, s, b, n);
    ReachesMore(rt, [Event.Connecting(b)] + [Polling], mid, Disconnecting(b));
    Drops(mid, s, b, n + 1, j, seen);
    last := Disconnect(mid, b).rt;
  }

  lemma {:induction false} Cycles(rt: Runtime, s: nat, b: Byte, n: nat, count: nat) returns (last: Runtime)
    requires Vacant(rt, s, b, n) && n + count <= 0x1_0000
    ensures Reaches(rt, Times(b, count), last) && Vacant(last, s, b, n + count)
    ensures SameSessions(rt.links, last.links, s) && last.localId == rt.localId
    decreases count
  {
    if count == 0 {
      last := rt;
    } else {
      var mid := Cycles(rt, s, b, n, count - 1);
      last := CyclesOnce(mid, s, b, n + count - 1);
      ReachesJoin(rt, Times(b, count - 1), mid, Once(b), last);
    }
  }

  // --- from start-up ---

  /** The transport knows nobody but a. */
  ghost predicate Only(t: Transport.State, a: Byte) {
    && Tables.WellFormed(t) && t.enabled && |t.remembered| <= 1
    && (forall x :: x in t.connected ==> x == a)
    && (forall i :: 0 <= i < |t.discovered| && t.discovered[i].valid ==> t.discovered[i].id == a)
  }

  lemma OnlyTick(t: Transport.State, a: Byte)
    requires Only(t, a)
    ensures Only(Transport.Tick(t), a)
  {
    var s := t.(lastPoll := Wrap32(t.lastPoll + Transport.POLL_TICK_MS));
    TransportPoll.PollExact(s);
    forall x | x in Transport.Tick(t).connected ensures x == a { TransportPoll.PollConnects(s, x); }
  }

  lemma OnlyDialable(t: Transport.State, a: Byte, b: Byte)
    requires Only(t, a) && b != a
    ensures Dialable(t, b) && b !in t.connected
  {
    assert !Tables.Known(t.discovered, b);
    Outcomes.FindIff(t.discovered, b);
    Tables.CountFull(t.discovered);
    assert !(t.discovered[0].valid && t.discovered[1].valid);
  }

  lemma ConnectRemembers(t: Transport.State, a: Byte)
    ensures |Transport.Connect(t, a).state.remembered| <= |t.remembered| + 1
  {
  }

  lemma StartVacant(start: Runtime, localId: Byte, a: Byte)
    requires start == Init(Intercom.INITIAL, localId) && localId != 0 && a != 0 && a != localId
    ensures Vacant(start, 0, a, 0) && start.localId == localId
    ensures start.transport.remembered == [] && start.transport.connected == []
    ensures forall i :: 0 <= i < |start.transport.discovered| ==> !start.transport.discovered[i].valid
  {
    InitCoherent(Intercom.INITIAL, localId);
    Tables.EmptySlots(MAX_PEERS);
    Outcomes.FindIff(start.transport.discovered, a);
  }

  lemma FirstTables(start: Runtime, localId: Byte, a: Byte)
    requires start == Init(Intercom.INITIAL, localId) && localId != 0 && a != 0 && a != localId
    ensures Only(Poll(Connect(start, a).rt).transport, a)
  {
    StartVacant(start, localId, a);
    var j, seen := Dials(start, 0, a, 0);
    var mid := Connect(start, a).rt;
    ConnectRemembers(start.transport, a);
    Outcomes.ConnectOkIff(start.transport, a);
    OnlyTick(mid.transport, a);
    PollKeeps(mid);
    PollTables(mid, 0, a, 0, j, seen);
  }

  lemma PollTables(mid: Runtime, s: nat, a: Byte, n: nat, j: nat, seen: Word32)
    requires Dialed(mid, s, a, n, j, seen)
    ensures var t, t' := Transport.Tick(mid.transport), Poll(mid).transport;
            t'.discovered == t.discovered && t'.remembered == t.remembered && t'.connected == t.connected
            && t'.enabled == t.enabled
  {
    var r := ReconcileFrom(Ticked(mid), 0);
    Reconciles(mid, s, a, n, j, seen, r, ServiceFrom(r, 0));
  }

  /** The first peer waits in slot 0 under the first id, and its neighbour can be connected next. */
  lemma FirstWaits(start: Runtime, localId: Byte, a: Byte, b: Byte) returns (rt: Runtime)
    requires start == Init(Intercom.INITIAL, localId) && localId != 0 && a != 0 && a != localId
    requires b != 0 && b != localId && b != a
    ensures Reaches(start, [Event.Connecting(a)] + [Polling], rt) && Vacant(rt, 1, b, 1) && rt.localId == localId
    ensures rt.links[0].id == a && rt.links[0].session == IdAt(localId, a, 0)
  {
    StartVacant(start, localId, a);
    var j, seen;
    rt, j, seen := GreetsOnce(start, 0, a, 0);
    FirstTables(start, localId, a);
    OnlyDialable(rt.transport, a, b);
  }

  lemma SecondMeets(start: Runtime, events: seq<Event>, rt: Runtime, b: Byte, n: nat) returns (last: Runtime)
    requires Reaches(start, events, rt) && Vacant(rt, 1, b, n) && n <= 0x1_0000
    ensures Reaches(start, events + ([Event.Connecting(b)] + [Polling]), last)
    ensures |last.links| == MAX_PEERS && Owns(last.links[1], b) && last.links[1].session == IdAt(rt.localId, b, n)
    ensures last.links[0].valid && last.links[0].id == rt.links[0].id && last.links[0].session == rt.links[0].session
    ensures last.links[0].id in last.transport.connected && b in last.transport.connected
    ensures |last.sessions.given| == n + 1
  {
    var j, seen;
    last, j, seen := GreetsOnce(rt, 1, b, n);
    ReachesJoin(start, events, rt, [Event.Connecting(b)] + [Polling], last);
  }

  /** The peer is connected and greeted, its neighbour comes and goes, and comes to stay. */
  function Crowding(a: Byte, b: Byte, count: nat): seq<Event> {
    [Event.Connecting(a)] + [Polling] + Times(b, count) + ([Event.Connecting(b)] + [Polling])
  }

  lemma SameId(localId: Byte, a: Byte, b: Byte)
    requires localId != 0 && a % 2 == 0 && b == a + 1
    ensures IdAt(localId, a, 0) == IdAt(localId, b, 0x1_0000)
  {
    SessionIds.CarryCollides(localId, a, b);
  }

  /**
   The bound of 65536 ids is tight over runs: after one more, two links of one runtime, to connected neighbouring peers,
   carry the same session id.
   */
  lemma NeighboursCollide(start: Runtime, localId: Byte, a: Byte, b: Byte, count: nat) returns (rt: Runtime)
    requires start == Init(Intercom.INITIAL, localId) && localId != 0 && a != localId && b != localId
    requires a != 0 && a % 2 == 0 && b == a + 1 && count == 0xFFFF
    ensures Reaches(start, Crowding(a, b, count), rt) && |rt.sessions.given| == 0x1_0001
    ensures |rt.links| == MAX_PEERS && Owns(rt.links[0], a) && Owns(rt.links[1], b)
    ensures a in rt.transport.connected && b in rt.transport.connected
    ensures rt.links[0].session == rt.links[1].session
  {
    var first := FirstWaits(start, localId, a, b);
    rt := Crowds(start, [Event.Connecting(a)] + [Polling], first, b, count);
    SameId(localId, a, b);
  }

  lemma Crowds(start: Runtime, events: seq<Event>, first: Runtime, b: Byte, count: nat) returns (last: Runtime)
    requires Reaches(start, events, first) && Vacant(first, 1, b, 1) && 1 + count <= 0x1_0000
    ensures Reaches(start, events + Times(b, count) + ([Event.Connecting(b)] + [Polling]), last)
    ensures |last.links| == MAX_PEERS && Owns(last.links[1], b)
    ensures last.links[1].session == IdAt(first.localId, b, 1 + count)
    ensures last.links[0].valid && last.links[0].id == first.links[0].id
    ensures last.links[0].session == first.links[0].session
    ensures last.links[0].id in last.transport.connected && b in last.transport.connected
    ensures |last.sessions.given| == 2 + count
  {
    var mid := Cycles(first, 1, b, 1, count);
    ReachesJoin(start, events, first, Times(b, count), mid);
    last := SecondMeets(start, events + Times(b, count), mid, b, 1 + count);
  }
}
