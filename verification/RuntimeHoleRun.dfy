/**
 A run from start-up after which clearing a pairing leaves the peer in the transport's table: two peers are reported,
 the first falls silent long enough to be purged, and the clear then stops short of the slot of the second.
 */
module RuntimeHoleRun {
  import opened Machine
  import opened RuntimeSpec
  import opened RuntimeInvariant
  import opened RuntimeRuns
  import opened RuntimeWitness
  import opened RuntimeLapseRun
  import Transport = TransportSpec
  import Tables = TransportInvariant
  import Hold = TransportHold
  import TransportPoll

  /** Switched on, with nobody linked, connected or remembered, and the given table of reported peers. */
  ghost predicate Alone(rt: Runtime, ps: seq<Transport.Peer>, at: Word32) {
    && Coherent(rt) && rt.enabled && rt.localId == 1 && rt.connected == []
    && (forall i :: 0 <= i < |rt.links| ==> !rt.links[i].valid)
    && rt.transport.connected == [] && rt.transport.remembered == []
    && rt.transport.discovered == ps && rt.transport.lastPoll == at
  }

  lemma {:induction false} NothingReconciled(rt: Runtime, k: nat)
    requires k <= |rt.links| && forall i :: 0 <= i < |rt.links| ==> !rt.links[i].valid
    ensures ReconcileFrom(rt, k) == rt && ServiceFrom(rt, k) == rt
    decreases |rt.links| - k
  {
    if k < |rt.links| {
      NothingReconciled(rt, k + 1);
    }
  }

  /** A poll with nobody remembered only purges. */
  lemma AlonePolls(rt: Runtime, ps: seq<Transport.Peer>, at: Word32, ps': seq<Transport.Peer>, s: Transport.State)
    requires Alone(rt, ps, at) && s == rt.transport.(lastPoll := Wrap32(at + Transport.POLL_TICK_MS))
    requires |ps'| == |ps| && forall k :: 0 <= k < |ps| ==> ps'[k] == TransportPoll.AfterPoll(s, ps[k])
    ensures Alone(Poll(rt), ps', Wrap32(at + Transport.POLL_TICK_MS))
  {
    PollKeeps(rt);
    TicksAlone(rt.transport, ps, ps', s);
    NothingReconciled(Ticked(rt), 0);
  }

  lemma TicksAlone(t: Transport.State, ps: seq<Transport.Peer>, ps': seq<Transport.Peer>, s: Transport.State)
    requires Tables.WellFormed(t) && t.enabled && t.connected == [] && t.remembered == [] && t.discovered == ps
    requires s == t.(lastPoll := Wrap32(t.lastPoll + Transport.POLL_TICK_MS))
    requires |ps'| == |ps| && forall k :: 0 <= k < |ps| ==> ps'[k] == TransportPoll.AfterPoll(s, ps[k])
    ensures var r := Transport.Tick(t);
            r.connected == [] && r.remembered == [] && r.discovered == ps' && r.lastPoll == s.lastPoll
  {
    TransportPoll.PollExact(s);
    TransportPoll.NothingWanted(s, s.discovered);
    assert Transport.Poll(s).discovered == ps';
  }

  /** While nobody has been silent for more than five seconds, polls leave the table alone. */
  lemma {:induction false} AloneSpared(rt: Runtime, n: nat, ps: seq<Transport.Peer>) returns (last: Runtime)
    requires Alone(rt, ps, 0) && Ticks(n) <= Transport.DISCOVERY_TIMEOUT_MS
    ensures Reaches(rt, Polls(n), last) && Alone(last, ps, Ticks(n))
    decreases n
  {
    if n == 0 {
      last := rt;
    } else {
      assert Ticks(n) == Ticks(n - 1) + Transport.POLL_TICK_MS;
      var mid := AloneSpared(rt, n - 1, ps);
      last := NextSpared(rt, Polls(n - 1), mid, ps, Ticks(n - 1));
    }
  }

  lemma NextSpared(rt: Runtime, events: seq<Event>, mid: Runtime, ps: seq<Transport.Peer>, at: Word32)
      returns (last: Runtime)
    requires Reaches(rt, events, mid) && Alone(mid, ps, at)
            && at + Transport.POLL_TICK_MS <= Transport.DISCOVERY_TIMEOUT_MS
    ensures Reaches(rt, events + [Polling], last) && Alone(last, ps, at + Transport.POLL_TICK_MS)
  {
    AlonePolls(mid, ps, at, ps, mid.transport.(lastPoll := at + Transport.POLL_TICK_MS));
    last := PollsOn(rt, events, mid);
  }

  /** The entry of a peer that was reported ready and never paired. */
  function Heard(id: Byte, at: Word32): Transport.Peer {
    Transport.NO_PEER.(valid := true, id := id, audioReady := true, lastSeen := at)
  }

  /** A first report takes the first free slot, a later one renews the slot it took. */
  lemma ReportWrites(t: Transport.State, id: Byte, k: nat)
    requires Tables.WellFormed(t) && t.remembered == [] && k < |t.discovered| && id != 0 && id != t.localId
    requires forall j :: 0 <= j < |t.discovered| ==>
            (j < k && t.discovered[k] == Transport.NO_PEER ==> t.discovered[j].valid)
    requires forall j :: 0 <= j < |t.discovered| && j != k ==> !Transport.Holds(t.discovered[j], id)
    requires t.discovered[k] == Transport.NO_PEER || exists at: Word32 :: t.discovered[k] == Heard(id, at)
    ensures Transport.Report(t, id, true).state.discovered == t.discovered[k := Heard(id, t.lastPoll)]
    ensures Transport.Report(t, id, true).state.lastPoll == t.lastPoll
            && Transport.Report(t, id, true).state.remembered == []
  {
    var f := Transport.Find(t.discovered, id);
    var free := Transport.FindFree(t.discovered);
    if t.discovered[k] == Transport.NO_PEER {
      assert f == |t.discovered| && free == k;
      assert t.discovered[k := Transport.NO_PEER.(valid := true, id := id)][k := Heard(id, t.lastPoll)]
          == t.discovered[k := Heard(id, t.lastPoll)];
    } else {
      assert Transport.Holds(t.discovered[k], id);
      assert f == k;
    }
  }

  lemma AloneReports(start: Runtime, events: seq<Event>, rt: Runtime, ps: seq<Transport.Peer>, at: Word32,
      id: Byte, k: nat)
    returns (last: Runtime)
    requires Reaches(start, events, rt) && Alone(rt, ps, at) && k < |ps| && id != 0 && id != 1
    requires forall j :: 0 <= j < |ps| ==> (j < k && ps[k] == Transport.NO_PEER ==> ps[j].valid)
    requires forall j :: 0 <= j < |ps| && j != k ==> !Transport.Holds(ps[j], id)
    requires ps[k] == Transport.NO_PEER || exists was: Word32 :: ps[k] == Heard(id, was)
    ensures Reaches(start, events + [Reporting(id, true)], last)
    ensures Alone(last, ps[k := Heard(id, at)], at)
  {
    ReportWrites(rt.transport, id, k);
    ReportKeeps(rt, id, true);
    ReachesMore(start, events, rt, Reporting(id, true));
    last := Step(rt, Reporting(id, true));
  }

  function Blank(): (ps: seq<Transport.Peer>)
    ensures |ps| == MAX_PEERS && forall k :: 0 <= k < |ps| ==> ps[k] == Transport.NO_PEER
  {
    seq(MAX_PEERS, _ => Transport.NO_PEER)
  }

  lemma StartAlone(start: Runtime)
    requires start == Start()
    ensures Alone(start, Blank(), 0)
  {
    StartTables();
  }

  /** A hole below the peer in slot 1. */
  lemma HoleCount(p: Transport.Peer)
    requires p.valid
    ensures Tables.CountValid(Blank()[1 := p]) == 1
  {
    Tables.EmptySlots(MAX_PEERS);
    Tables.CountUpdate(Blank(), 1, p);
  }

  lemma HoleMissed(rt: Runtime, ps: seq<Transport.Peer>, at: Word32)
    requires Alone(rt, ps, at) && ps == Blank()[1 := Heard(3, 5000)]
    ensures Tables.Known(ClearPairing(rt, 3).transport.discovered, 3)
  {
    HoleCount(Heard(3, 5000));
    Hold.ClearForgetsIff(rt.transport, 3);
    assert Transport.Holds(rt.transport.discovered[1], 3);
  }

  /** Peers 2 and 3 are reported, n polls pass, only peer 3 is reported again, and another poll purges peer 2. */
  function Purging(n: nat): seq<Event> {
    [Reporting(2, true)] + [Reporting(3, true)] + Polls(n) + [Reporting(3, true)] + [Polling]
  }

  lemma BothReported(start: Runtime) returns (rt: Runtime)
    requires start == Start()
    ensures Reaches(start, [Reporting(2, true)] + [Reporting(3, true)], rt)
    ensures Alone(rt, Blank()[0 := Heard(2, 0)][1 := Heard(3, 0)], 0)
  {
    StartAlone(start);
    assert Reaches(start, [], start);
    var a := AloneReports(start, [], start, Blank(), 0, 2, 0);
    assert [] + [Reporting(2, true)] == [Reporting(2, true)];
    rt := AloneReports(start, [Reporting(2, true)], a, Blank()[0 := Heard(2, 0)], 0, 3, 1);
  }

  lemma OnePurged(start: Runtime, events: seq<Event>, rt: Runtime, ps: seq<Transport.Peer>) returns (last: Runtime)
    requires Reaches(start, events, rt) && Alone(rt, ps, 5000) && ps == Blank()[0 := Heard(2, 0)][1 := Heard(3, 5000)]
    ensures Reaches(start, events + [Polling], last) && Alone(last, Blank()[1 := Heard(3, 5000)], 5100)
  {
    var s := rt.transport.(lastPoll := 5100);
    AlonePolls(rt, ps, 5000, Blank()[1 := Heard(3, 5000)], s);
    last := PollsOn(start, events, rt);
  }

  /** Clearing peer 3 then leaves it in the transport's table. */
  lemma ClearMisses(start: Runtime, n: nat) returns (rt: Runtime)
    requires start == Start() && n == 50
    ensures Reaches(start, Purging(n) + [Clearing(3)], rt) && Tables.Known(rt.transport.discovered, 3)
  {
    var a := BothReported(start);
    rt := PurgedThenCleared(start, [Reporting(2, true)] + [Reporting(3, true)], a,
        Blank()[0 := Heard(2, 0)][1 := Heard(3, 0)], n);
  }

  lemma PurgedThenCleared(start: Runtime, events: seq<Event>, a: Runtime, ps: seq<Transport.Peer>, n: nat)
      returns (rt: Runtime)
    requires Reaches(start, events, a) && Alone(a, ps, 0) && n == 50
    requires ps == Blank()[0 := Heard(2, 0)][1 := Heard(3, 0)]
    ensures Reaches(start, events + Polls(n) + [Reporting(3, true)] + [Polling] + [Clearing(3)], rt)
    ensures Tables.Known(rt.transport.discovered, 3)
  {
    var b := AloneSpared(a, n, ps);
    ReachesJoin(start, events, a, Polls(n), b);
    rt := MissesAfter(start, events + Polls(n), b, ps);
  }

  lemma MissesAfter(start: Runtime, events: seq<Event>, b: Runtime, ps: seq<Transport.Peer>) returns (rt: Runtime)
    requires Reaches(start, events, b) && Alone(b, ps, 5000)
    requires ps == Blank()[0 := Heard(2, 0)][1 := Heard(3, 0)]
    ensures Reaches(start, events + [Reporting(3, true)] + [Polling] + [Clearing(3)], rt)
    ensures Tables.Known(rt.transport.discovered, 3)
  {
    var c := AloneReports(start, events, b, ps, 5000, 3, 1);
    var qs := ps[1 := Heard(3, 5000)];
    assert qs == Blank()[0 := Heard(2, 0)][1 := Heard(3, 5000)];
    var d := OnePurged(start, events + [Reporting(3, true)], c, qs);
    ReachesMore(start, events + [Reporting(3, true)] + [Polling], d, Clearing(3));
    HoleMissed(d, Blank()[1 := Heard(3, 5000)], 5100);
    rt := Step(d, Clearing(3));
  }
}
