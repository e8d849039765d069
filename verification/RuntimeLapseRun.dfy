/**
 A run from start-up into the gap of an explicit disconnect: a session opened, then silent for just under five seconds,
 its peer still being reported; the poll that times it out, a disconnect reported as successful, and a poll that
 connects the peer again.
 */
module RuntimeLapseRun {
  import opened Machine
  import opened RuntimeSpec
  import opened RuntimeInvariant
  import opened RuntimeSteps
  import opened RuntimeRuns
  import opened RuntimeLapse
  import opened RuntimeWitness
  import Protocol
  import Transport = TransportSpec
  import Tables = TransportInvariant
  import Outcomes = TransportOutcomes

  /** Slot k holds an active session of a remembered, audio-ready peer, last heard from at the given time. */
  ghost predicate Lively(rt: Runtime, k: nat, id: Byte, j: nat, seen: Word32, since: Word32) {
    && k < |rt.links| && rt.links[k].active && rt.links[k].id == id && rt.links[k].lastActivity == since
    && Primed(rt.transport, id, j, seen)
  }

  lemma ServiceSlotSpares(rt: Runtime, i: nat, k: nat, id: Byte, j: nat, seen: Word32, since: Word32, limit: nat)
    requires CoherentWithin(rt, limit) && i < |rt.links| && Lively(rt, k, id, j, seen, since)
    requires Elapsed(rt.now, since) < SESSION_TIMEOUT_MS
    ensures Lively(ServiceSlot(rt, i), k, id, j, seen, since) && ServiceSlot(rt, i).now == rt.now
  {
    ServiceSlotPrimed(rt, i, id, j, seen, limit);
    if i == k {
      QueueMessageSent(rt, id, Protocol.KEEPALIVE, [], 0);
      assert LinkKept(rt.links[k], QueueMessage(rt, id, Protocol.KEEPALIVE, [], 0).rt.links[k]);
    } else {
      OtherSlotKept(rt, i, k, limit);
    }
  }

  lemma {:induction false} ServiceSparesSession(rt: Runtime, i: nat, k: nat, id: Byte, j: nat, seen: Word32,
      since: Word32, limit: nat)
    requires CoherentWithin(rt, limit) && i <= |rt.links| && Lively(rt, k, id, j, seen, since)
    requires Elapsed(rt.now, since) < SESSION_TIMEOUT_MS
    ensures Lively(ServiceFrom(rt, i), k, id, j, seen, since) && ServiceFrom(rt, i).now == rt.now
    decreases |rt.links| - i
  {
    if i < |rt.links| {
      ServiceSlotSpares(rt, i, k, id, j, seen, since, limit);
      ServiceSlotKeeps(rt, i, limit);
      ServiceSparesSession(ServiceSlot(rt, i), i + 1, k, id, j, seen, since, limit);
    }
  }

  /** A poll that does not time the session out keeps it, unheard. */
  lemma PollSpares(rt: Runtime, k: nat, id: Byte, j: nat, seen: Word32, since: Word32)
    requires Coherent(rt) && rt.enabled && Lively(rt, k, id, j, seen, since)
    requires Elapsed(rt.now, since) + Transport.POLL_TICK_MS < SESSION_TIMEOUT_MS
    ensures var r := Poll(rt);
            && Lively(r, k, id, j, seen, since) && r.enabled
            && Elapsed(r.now, since) == Elapsed(rt.now, since) + Transport.POLL_TICK_MS
            && r.transport.lastPoll == Wrap32(rt.transport.lastPoll + Transport.POLL_TICK_MS)
  {
    var limit := SESSION_TIMEOUT_MS + Transport.POLL_TICK_MS;
    var b := ReconcileFrom(Ticked(rt), 0);
    ElapsedTick(rt.now, since);
    ReconciledLively(rt, k, id, j, seen, since, limit);
    ServiceSparesSession(b, 0, k, id, j, seen, since, limit);
    ServiceKeepsClock(b, 0, limit);
  }

  /** Up to its servicing a poll leaves a session of a connected peer alone. */
  lemma ReconciledLively(rt: Runtime, k: nat, id: Byte, j: nat, seen: Word32, since: Word32, limit: nat)
    requires Coherent(rt) && rt.enabled && Lively(rt, k, id, j, seen, since)
    requires limit == SESSION_TIMEOUT_MS + Transport.POLL_TICK_MS
    ensures var b := ReconcileFrom(Ticked(rt), 0);
            && CoherentWithin(b, limit) && Lively(b, k, id, j, seen, since) && b.enabled
            && b.now == Wrap32(rt.now + Transport.POLL_TICK_MS)
            && b.transport.lastPoll == Wrap32(rt.transport.lastPoll + Transport.POLL_TICK_MS)
  {
    var a := Ticked(rt);
    TickPrimed(rt.transport, id, j, seen);
    TickedKeeps(rt);
    ReconcileKeeps(a, 0, limit);
    ReconcileFrame(a, 0);
    ReconcileKeepsSession(a, 0, k, limit);
  }

  function Polls(n: nat): seq<Event> {
    if n == 0 then [] else Polls(n - 1) + [Polling]
  }

  lemma PollsOn(rt: Runtime, events: seq<Event>, mid: Runtime) returns (last: Runtime)
    requires Reaches(rt, events, mid)
    ensures Reaches(rt, events + [Polling], last) && last == Poll(mid)
  {
    ReachesMore(rt, events, mid, Polling);
    last := Poll(mid);
  }

  /**
   Coherent, switched on, with a lively session that has been silent since the transport's clock started, n ticks ago.
   */
  ghost predicate Silent(rt: Runtime, k: nat, id: Byte, j: nat, seen: Word32, since: Word32, n: nat) {
    && Coherent(rt) && rt.enabled && Lively(rt, k, id, j, seen, since)
    && Elapsed(rt.now, since) == Ticks(n) && rt.transport.lastPoll == Ticks(n)
  }

  function Ticks(n: nat): nat { n * Transport.POLL_TICK_MS }

  lemma NextTick(n: nat)
    ensures Ticks(n + 1) == Ticks(n) + Transport.POLL_TICK_MS
  {
  }

  lemma ShortOfWrap(x: nat)
    requires x < SESSION_TIMEOUT_MS
    ensures Wrap32(x) == x
  {
  }

  lemma SilentPoll(rt: Runtime, k: nat, id: Byte, j: nat, seen: Word32, since: Word32, n: nat)
    requires Silent(rt, k, id, j, seen, since, n) && Ticks(n + 1) < SESSION_TIMEOUT_MS
    ensures Silent(Poll(rt), k, id, j, seen, since, n + 1)
  {
    NextTick(n);
    PollKeeps(rt);
    PollSpares(rt, k, id, j, seen, since);
    ShortOfWrap(Ticks(n) + Transport.POLL_TICK_MS);
  }

  /** Any number of polls that stays short of the timeout keeps the session. */
  lemma {:induction false} SilentPolls(rt: Runtime, n: nat, k: nat, id: Byte, j: nat, seen: Word32, since: Word32)
    returns (last: Runtime)
    requires Silent(rt, k, id, j, seen, since, 0) && Ticks(n) < SESSION_TIMEOUT_MS
    ensures Reaches(rt, Polls(n), last) && Silent(last, k, id, j, seen, since, n)
    decreases n
  {
    if n == 0 {
      last := rt;
    } else {
      assert Ticks(n - 1) < Ticks(n);
      var mid := SilentPolls(rt, n - 1, k, id, j, seen, since);
      last := NextSilent(rt, Polls(n - 1), mid, k, id, j, seen, since, n - 1);
    }
  }

  lemma NextSilent(rt: Runtime, events: seq<Event>, mid: Runtime, k: nat, id: Byte, j: nat, seen: Word32,
      since: Word32, n: nat)
    returns (last: Runtime)
    requires Reaches(rt, events, mid) && Silent(mid, k, id, j, seen, since, n) && Ticks(n + 1) < SESSION_TIMEOUT_MS
    ensures Reaches(rt, events + [Polling], last) && Silent(last, k, id, j, seen, since, n + 1)
  {
    SilentPoll(mid, k, id, j, seen, since, n);
    last := PollsOn(rt, events, mid);
  }

  /** A report of the peer makes its entry fresh. */
  lemma ReportRefreshes(rt: Runtime, k: nat, id: Byte, j: nat, seen: Word32, since: Word32) returns (j': nat)
    requires Coherent(rt) && Lively(rt, k, id, j, seen, since)
    ensures var r := rt.(transport := Transport.Report(rt.transport, id, true).state);
            Coherent(r) && Lively(r, k, id, j', rt.transport.lastPoll, since)
                && r.transport.lastPoll == rt.transport.lastPoll
  {
    var t := rt.transport;
    var t' := Transport.Report(t, id, true).state;
    ReportKeeps(rt, id, true);
    assert Transport.Holds(t.discovered[j], id) && Tables.Known(t.discovered, id);
    Outcomes.ReportOutcome(t, id, true);
    Outcomes.FindIff(t'.discovered, id);
    j' := Transport.Find(t'.discovered, id);
  }

  lemma Reported(start: Runtime, events: seq<Event>, mid: Runtime, id: Byte) returns (rt: Runtime)
    requires Reaches(start, events, mid)
    ensures Reaches(start, events + [Reporting(id, true)], rt)
    ensures rt == mid.(transport := Transport.Report(mid.transport, id, true).state)
  {
    ReachesMore(start, events, mid, Reporting(id, true));
    rt := Step(mid, Reporting(id, true));
  }

  lemma DisconnectsAndPolls(rt: Runtime, id: Byte) returns (last: Runtime)
    ensures Reaches(rt, [Disconnecting(id)] + [Polling], last) && last == Poll(Disconnect(rt, id).rt)
  {
    ReachesOne(rt, Disconnecting(id));
    last := PollsOn(rt, [Disconnecting(id)], Disconnect(rt, id).rt);
  }

  lemma SessionSilent(rt: Runtime, j: nat)
    requires InSession(rt) && j == Transport.Find(rt.transport.discovered, 7)
    ensures Silent(rt, 0, 7, j, 0, 0, 0)
  {
  }

  lemma OpensSilent(start: Runtime, events: seq<Event>)
      returns (a: Runtime, k: nat, id: Byte, j: nat, seen: Word32, since: Word32)
    requires start == Start() && events == Opening()
    ensures id == 7 && Reaches(start, events, a) && Silent(a, k, id, j, seen, since, 0)
  {
    a := Opens(start);
    k, id, j, seen, since := 0, 7, Transport.Find(a.transport.discovered, 7), 0, 0;
    SessionSilent(a, j);
  }

  /** A session opened, n polls, a report of the peer, and one more poll. */
  function Silence(n: nat): seq<Event> { Opening() + Polls(n) + [Reporting(7, true)] + [Polling] }

  /**
   The promise that an explicit disconnect suppresses reconnection fails from start-up: after 49 silent polls and the
   one that times the session out, the disconnect reports success, and the next poll has the peer connected again.
   */
  lemma LapseHappens(start: Runtime, n: nat) returns (before: Runtime, after: Runtime)
    requires start == Start() && n == 49
    ensures Reaches(start, Silence(n), before) && 7 in before.connected && Disconnect(before, 7).ok
    ensures Reaches(before, [Disconnecting(7)] + [Polling], after) && 7 in after.transport.connected
  {
    var a, k, id, j, seen, since := OpensSilent(start, Opening());
    before, after := SilenceLapses(start, Opening(), a, k, id, j, seen, since, n);
  }

  lemma SilenceLapses(start: Runtime, events: seq<Event>, a: Runtime, k: nat, id: Byte, j: nat, seen: Word32,
      since: Word32, n: nat)
    returns (before: Runtime, after: Runtime)
    requires Reaches(start, events, a) && Silent(a, k, id, j, seen, since, 0) && n == 49
    ensures Reaches(start, events + Polls(n) + [Reporting(id, true)] + [Polling], before)
    ensures id in before.connected && Disconnect(before, id).ok
    ensures Reaches(before, [Disconnecting(id)] + [Polling], after) && id in after.transport.connected
  {
    var b := StaysSilent(start, events, a, n, k, id, j, seen, since);
    before, after := Lapses(start, events + Polls(n), b, k, id, j, seen, since, n);
  }

  /** A run followed by n silent polls. */
  lemma StaysSilent(start: Runtime, events: seq<Event>, a: Runtime, n: nat, k: nat, id: Byte, j: nat, seen: Word32,
      since: Word32)
    returns (b: Runtime)
    requires Reaches(start, events, a) && Silent(a, k, id, j, seen, since, 0) && Ticks(n) < SESSION_TIMEOUT_MS
    ensures Reaches(start, events + Polls(n), b) && Silent(b, k, id, j, seen, since, n)
  {
    b := SilentPolls(a, n, k, id, j, seen, since);
    ReachesJoin(start, events, a, Polls(n), b);
  }

  /**
   One tick short of the timeout: a report, the poll that times out, a disconnect, and the poll that connects again.
   */
  lemma Lapses(start: Runtime, events: seq<Event>, b: Runtime, k: nat, id: Byte, j: nat, seen: Word32,
      since: Word32, n: nat)
    returns (before: Runtime, after: Runtime)
    requires Reaches(start, events, b) && Silent(b, k, id, j, seen, since, n) && Ticks(n + 1) == SESSION_TIMEOUT_MS
    ensures Reaches(start, events + [Reporting(id, true)] + [Polling], before) && id in before.connected
            && Disconnect(before, id).ok
    ensures Reaches(before, [Disconnecting(id)] + [Polling], after) && id in after.transport.connected
  {
    var c := Reported(start, events, b, id);
    var j' := ReportRefreshes(b, k, id, j, seen, since);
    NextTick(n);
    before := PollsOn(start, events + [Reporting(id, true)], c);
    Undone(c, k, id, j', b.transport.lastPoll, since, n);
    after := DisconnectsAndPolls(before, id);
  }

  lemma Undone(c: Runtime, k: nat, id: Byte, j: nat, at: Word32, since: Word32, n: nat)
    requires Silent(c, k, id, j, at, since, n) && at == Ticks(n) && Ticks(n + 1) == SESSION_TIMEOUT_MS
    ensures id in Poll(c).connected && Disconnect(Poll(c), id).ok
    ensures id in Poll(Disconnect(Poll(c), id).rt).transport.connected
  {
    NextTick(n);
    DisconnectUndone(c, k, id, j, at);
    PollLoosens(c, k, id, j, at);
  }
}
