/** What a broadcast records and what it puts on the wire. */
module RuntimeRelay {
  import opened Machine
  import opened Sequences
  import opened RuntimeSpec
  import opened RuntimeInvariant
  import opened RuntimeSteps
  import opened RuntimeOutcomes
  import opened RuntimeSend
  import RuntimeReadyRuns
  import Protocol
  import Intercom = IntercomSpec
  import Transport = TransportSpec

  lemma SendKeepsLog(rt: Runtime, id: Byte, kind: Byte, payload: seq<Byte>, flags: Word16)
    ensures QueueMessage(rt, id, kind, payload, flags).rt.relay == rt.relay
  {
  }

  /** Neither the duplicate nor the limit branch of recording fires while relaying to distinct peers. */
  lemma {:induction false} RelayToRecords(rt: Runtime, source: Byte, peers: seq<Byte>, payload: seq<Byte>)
    requires NoDup(peers) && |rt.relay.targets| + |peers| <= MAX_PEERS
    requires forall id :: id in peers ==> id !in rt.relay.targets
    ensures var log := RelayTo(rt, source, peers, payload).relay;
            && log.targets == rt.relay.targets + Without(peers, source)
            && log.invocations == rt.relay.invocations + |Without(peers, source)|
            && log.targetCount == rt.relay.targetCount && log.lastCount == rt.relay.lastCount
    decreases |peers|
  {
    if peers != [] {
      var id := peers[0];
      var r := rt.(relay := RecordRelay(rt.relay, source, id));
      SendKeepsLog(r, id, Protocol.AUDIO, payload, 0);
      var next := if id == source then rt else RelayOne(rt, source, id, payload);
      assert forall x :: x in peers[1..] ==> x in peers && x != id;
      RelayToRecords(next, source, peers[1..], payload);
      assert rt.relay.targets + [id] + Without(peers[1..], source)
          == rt.relay.targets + ([id] + Without(peers[1..], source));
    }
  }

  /**
   When the intercom relays, the recorded targets are its peers but for the source, in order and once each, every one
   of them counted as an invocation, and the two counts agree.
   */
  lemma BroadcastTargets(rt: Runtime, source: Byte, payload: seq<Byte>)
    requires Coherent(rt)
    ensures var log := Broadcast(rt, source, payload).relay;
            var expected := if Intercom.Relays(rt.intercom, payload) then Without(rt.intercom.peers, source) else [];
            && log.targets == expected && log.targetCount == |expected| && log.lastCount == |expected|
            && log.invocations == rt.relay.invocations + |expected|
            && NoDup(expected) && forall id :: id in expected <==>
                  Intercom.Relays(rt.intercom, payload) && id != source && Active(rt.links, id)
  {
    WithoutMembers(rt.intercom.peers, source);
    RoomForAll(rt);
    RelayToRecords(StartRelay(rt), source, rt.intercom.peers, payload);
  }

  lemma RoomForAll(rt: Runtime)
    requires Coherent(rt)
    ensures |rt.intercom.peers| <= MAX_PEERS
  {
    Pigeonhole(rt.intercom.peers, rt.connected);
  }

  /** The last relay is the source's to the last target, or none. */
  lemma BroadcastLast(rt: Runtime, source: Byte, payload: seq<Byte>)
    requires Coherent(rt)
    ensures var b := Broadcast(rt, source, payload).relay;
            if b.targets == [] then b.lastSource == 0 && b.lastTarget == 0
            else b.lastSource == source && b.lastTarget == b.targets[|b.targets| - 1]
  {
    RoomForAll(rt);
    RelayToLast(StartRelay(rt), source, rt.intercom.peers, payload);
  }

  ghost predicate LastRelay(log: RelayLog, source: Byte) {
    if log.targets == [] then log.lastSource == 0 && log.lastTarget == 0
    else log.lastSource == source && log.lastTarget == log.targets[|log.targets| - 1]
  }

  lemma {:induction false} RelayToLast(rt: Runtime, source: Byte, peers: seq<Byte>, payload: seq<Byte>)
    requires LastRelay(rt.relay, source) && NoDup(peers) && |rt.relay.targets| + |peers| <= MAX_PEERS
    requires forall id :: id in peers ==> id !in rt.relay.targets
    ensures LastRelay(RelayTo(rt, source, peers, payload).relay, source)
    decreases |peers|
  {
    if peers != [] {
      var id := peers[0];
      SendKeepsLog(rt.(relay := RecordRelay(rt.relay, source, id)), id, Protocol.AUDIO, payload, 0);
      assert forall x :: x in peers[1..] ==> x in peers && x != id;
      RelayToLast(RelayNext(rt, source, id, payload), source, peers[1..], payload);
    }
  }

  // --- the packets ---

  /** A peer that the runtime can send audio to right now. */
  ghost predicate Hearing(rt: Runtime, id: Byte) {
    && id in rt.connected && id in rt.transport.connected && id != 0
    && Linked(rt.links, id) && LinkOf(rt.links, id).session != 0
  }

  /** A payload that an AUDIO message can carry in one packet. */
  predicate Short(payload: seq<Byte>) { payload != [] && |payload| <= 238 }

  /** The AUDIO message for a peer: in its link's session, under its next number, acknowledging what was heard last. */
  function AudioFor(rt: Runtime, id: Byte, payload: seq<Byte>): Protocol.Message
    requires Short(payload)
  {
    var l := LinkOf(rt.links, id);
    Protocol.Message(1, 4, l.session, l.nextTx, l.lastRx, rt.localId, id, 0, payload)
  }

  /** The packets are one AUDIO message with the payload for each target, in order. */
  ghost predicate Audible(rt: Runtime, packets: seq<Transport.Packet>, targets: seq<Byte>, payload: seq<Byte>)
    requires Short(payload)
  {
    |packets| == |targets| && forall i :: 0 <= i < |targets| ==> Says(packets[i], AudioFor(rt, targets[i], payload))
  }

  lemma RelayOneQueues(rt: Runtime, source: Byte, id: Byte, payload: seq<Byte>)
    requires Coherent(rt) && HasTransport(rt) && Hearing(rt, id) && Short(payload)
    requires |rt.transport.fifo.queue| < 16
    ensures var r := RelayOne(rt, source, id, payload); var f, f' := rt.transport.fifo, r.transport.fifo;
            && Coherent(r) && Sent(rt, r) && OnlyLinkOf(rt.links, r.links, id)
            && f'.wire == f.wire && f'.delivered == f.delivered && r.stats == rt.stats.(sent := rt.stats.sent + 1)
            && |f'.queue| == |f.queue| + 1 && f'.queue == f.queue + [f'.queue[|f.queue|]]
            && Says(f'.queue[|f.queue|], AudioFor(rt, id, payload))
  {
    var a := rt.(relay := RecordRelay(rt.relay, source, id));
    RelayLogKeeps(rt, a.relay, SESSION_TIMEOUT_MS);
    AudioEmitted(a, id, payload);
    QueueMessageKeeps(a, id, Protocol.AUDIO, payload, 0, SESSION_TIMEOUT_MS);
    QueueMessageSent(a, id, Protocol.AUDIO, payload, 0);
    SendTouches(a, id, Protocol.AUDIO, payload, 0);
  }

  lemma AudioEmitted(rt: Runtime, id: Byte, payload: seq<Byte>)
    requires SettingsOk(rt) && LinksOk(rt.links) && HasTransport(rt) && Hearing(rt, id) && Short(payload)
    requires |rt.transport.fifo.queue| < 16
    ensures var r := QueueMessage(rt, id, Protocol.AUDIO, payload, 0).rt;
            var f, f' := rt.transport.fifo, r.transport.fifo;
            && f'.wire == f.wire && f'.delivered == f.delivered && r.stats == rt.stats.(sent := rt.stats.sent + 1)
            && |f'.queue| == |f.queue| + 1 && f'.queue == f.queue + [f'.queue[|f.queue|]]
            && Says(f'.queue[|f.queue|], AudioFor(rt, id, payload))
  {
    QueueMessageExact(rt, id, Protocol.AUDIO, payload, 0);
    WholePayload(payload);
  }

  lemma SameLinkOf(a: seq<Link>, b: seq<Link>, id: Byte, x: Byte)
    requires OnlyLinkOf(a, b, id) && x != id && x != 0 && Linked(a, x) && LinksOk(a) && LinksOk(b)
    ensures Linked(b, x) && LinkOf(b, x) == LinkOf(a, x)
  {
    var k :| 0 <= k < |a| && Owns(a[k], x);
    OnlyOwner(a, k, x);
    LinkFound(a, k, x);
    OnlyOwner(b, k, x);
    LinkFound(b, k, x);
  }

  lemma OthersStillHear(rt: Runtime, r: Runtime, id: Byte, rest: seq<Byte>, payload: seq<Byte>)
    requires LinksOk(rt.links) && LinksOk(r.links) && Sent(rt, r) && OnlyLinkOf(rt.links, r.links, id) && Short(payload)
    requires forall x :: x in rest ==> Hearing(rt, x) && x != id
    ensures forall x :: x in rest ==> Hearing(r, x) && AudioFor(r, x, payload) == AudioFor(rt, x, payload)
  {
    forall x | x in rest ensures Hearing(r, x) && AudioFor(r, x, payload) == AudioFor(rt, x, payload) {
      SameLinkOf(rt.links, r.links, id, x);
    }
  }

  lemma AudibleNext(rt: Runtime, r: Runtime, q: seq<Transport.Packet>, p: Transport.Packet, id: Byte,
      packets: seq<Transport.Packet>, targets: seq<Byte>, payload: seq<Byte>)
    requires Short(payload) && Says(p, AudioFor(rt, id, payload)) && Audible(r, packets, targets, payload)
    requires forall x :: x in targets ==> AudioFor(r, x, payload) == AudioFor(rt, x, payload)
    ensures Audible(rt, [p] + packets, [id] + targets, payload)
    ensures (q + [p]) + packets == q + ([p] + packets)
  {
  }

  /** What relaying to a list of peers adds to the queue. */
  ghost predicate RelaysTo(rt: Runtime, r: Runtime, targets: seq<Byte>, payload: seq<Byte>)
    requires Short(payload)
  {
    var f, f' := rt.transport.fifo, r.transport.fifo;
    && f'.wire == f.wire && f'.delivered == f.delivered && |f'.queue| == |f.queue| + |targets|
    && r.stats == rt.stats.(sent := rt.stats.sent + |targets|)
    && f'.queue == f.queue + f'.queue[|f.queue|..] && Audible(rt, f'.queue[|f.queue|..], targets, payload)
  }

  lemma RelaysToNext(rt: Runtime, r: Runtime, last: Runtime, id: Byte, targets: seq<Byte>, payload: seq<Byte>)
    requires Short(payload) && RelaysTo(r, last, targets, payload) && r.localId == rt.localId
    requires var f, f' := rt.transport.fifo, r.transport.fifo;
             && f'.wire == f.wire && f'.delivered == f.delivered && r.stats == rt.stats.(sent := rt.stats.sent + 1)
             && |f'.queue| == |f.queue| + 1 && f'.queue == f.queue + [f'.queue[|f.queue|]]
             && Says(f'.queue[|f.queue|], AudioFor(rt, id, payload))
    requires forall x :: x in targets ==> AudioFor(r, x, payload) == AudioFor(rt, x, payload)
    ensures RelaysTo(rt, last, [id] + targets, payload)
  {
    var q, q', q'' := rt.transport.fifo.queue, r.transport.fifo.queue, last.transport.fifo.queue;
    AudibleNext(rt, r, q, q'[|q|], id, q''[|q'|..], targets, payload);
    assert q''[|q|..] == [q'[|q|]] + q''[|q'|..];
  }

  /** With room in the queue, relaying appends one AUDIO packet with the payload for each target, in relay order. */
  lemma {:induction false} RelayQueues(rt: Runtime, source: Byte, peers: seq<Byte>, payload: seq<Byte>)
    requires Coherent(rt) && HasTransport(rt) && Short(payload) && NoDup(peers)
    requires forall id :: id in peers ==> Hearing(rt, id)
    requires |rt.transport.fifo.queue| + |Without(peers, source)| <= 16
    ensures RelaysTo(rt, RelayTo(rt, source, peers, payload), Without(peers, source), payload)
    decreases |peers|
  {
    if peers != [] {
      var id, rest := peers[0], peers[1..];
      assert forall x :: x in rest ==> x in peers && x != id;
      if id == source {
        RelayQueues(rt, source, rest, payload);
      } else {
        var r := RelayOne(rt, source, id, payload);
        RelayFirst(rt, source, id, rest, payload);
        RelayQueues(r, source, rest, payload);
        RelayRest(rt, r, source, id, rest, payload);
      }
    }
  }

  /** After the first peer the others are where they were. */
  lemma RelayFirst(rt: Runtime, source: Byte, id: Byte, rest: seq<Byte>, payload: seq<Byte>)
    requires Coherent(rt) && HasTransport(rt) && Short(payload) && Hearing(rt, id) && |rt.transport.fifo.queue| < 16
    requires forall x :: x in rest ==> Hearing(rt, x) && x != id
    ensures var r := RelayOne(rt, source, id, payload);
            && Coherent(r) && HasTransport(r) && |r.transport.fifo.queue| == |rt.transport.fifo.queue| + 1
            && forall x :: x in rest ==> Hearing(r, x)
  {
    RelayOneQueues(rt, source, id, payload);
    OthersStillHear(rt, RelayOne(rt, source, id, payload), id, rest, payload);
  }

  lemma RelayRest(rt: Runtime, r: Runtime, source: Byte, id: Byte, rest: seq<Byte>, payload: seq<Byte>)
    requires Coherent(rt) && HasTransport(rt) && Short(payload) && Hearing(rt, id) && |rt.transport.fifo.queue| < 16
    requires forall x :: x in rest ==> Hearing(rt, x) && x != id
    requires r == RelayOne(rt, source, id, payload)
    requires RelaysTo(r, RelayTo(r, source, rest, payload), Without(rest, source), payload)
    ensures RelaysTo(rt, RelayTo(r, source, rest, payload), [id] + Without(rest, source), payload)
  {
    RelayOneQueues(rt, source, id, payload);
    OthersStillHear(rt, r, id, rest, payload);
    WithoutMembers(rest, source);
    RelaysToNext(rt, r, RelayTo(r, source, rest, payload), id, Without(rest, source), payload);
  }

  // --- a whole broadcast ---

  /** Every listed peer can be sent audio when each session has an id. */
  lemma ListedHear(rt: Runtime, id: Byte)
    requires Coherent(rt) && RuntimeReadyRuns.Named(rt.links) && id in rt.intercom.peers
    ensures Hearing(rt, id)
  {
    var k :| 0 <= k < |rt.links| && rt.links[k].active && rt.links[k].id == id;
    assert Owns(rt.links[k], id);
    OnlyOwner(rt.links, k, id);
    LinkFound(rt.links, k, id);
  }

  /** The peers that audio from a source goes to. */
  function Targets(rt: Runtime, source: Byte): seq<Byte> {
    if rt.intercom.enabled && rt.intercom.pttPressed then Without(rt.intercom.peers, source) else []
  }

  /** What a broadcast records: who it went to, in order and once each. */
  ghost predicate Records(rt: Runtime, b: Runtime, source: Byte) {
    var targets := Targets(rt, source);
    && b.relay.targets == targets && b.relay.targetCount == |targets| && b.relay.lastCount == |targets|
    && b.relay.invocations == rt.relay.invocations + |targets| && LastRelay(b.relay, source)
  }

  /** What a broadcast puts on the wire: what was queued before, and one AUDIO message per target. */
  ghost predicate Plays(rt: Runtime, b: Runtime, source: Byte, payload: seq<Byte>)
    requires Short(payload)
  {
    var targets, f, f' := Targets(rt, source), rt.transport.fifo, b.transport.fifo;
    && f'.queue == [] && f'.delivered == f.delivered + |f.queue| + |targets|
    && |f'.wire| == |f.wire| + |f.queue| + |targets| && f.wire + f.queue <= f'.wire
    && Audible(rt, f'.wire[|f.wire| + |f.queue|..], targets, payload)
    && b.stats.sent == rt.stats.sent + |targets|
  }

  /** Every session has an id, and the queue has room for the targets. */
  ghost predicate Roomy(rt: Runtime, source: Byte) {
    RuntimeReadyRuns.Named(rt.links) && |rt.transport.fifo.queue| + |Targets(rt, source)| <= 16
  }

  /**
   A broadcast records its targets, leaves every table and session alone, and empties the queue. When every session has
   an id, the payload fits a packet and the queue has room, each target is sent it, in order, behind what was queued.
   */
  lemma BroadcastDelivers(rt: Runtime, source: Byte, payload: seq<Byte>)
    requires Coherent(rt) && HasTransport(rt) && payload != []
    ensures var b := Broadcast(rt, source, payload);
            && Records(rt, b, source) && Sent(rt, b) && Coherent(b) && b.transport.fifo.queue == []
            && (Short(payload) && Roomy(rt, source) ==> Plays(rt, b, source, payload))
  {
    BroadcastTargets(rt, source, payload);
    BroadcastLast(rt, source, payload);
    BroadcastKeeps(rt, source, payload, SESSION_TIMEOUT_MS);
    if Short(payload) && Roomy(rt, source) { BroadcastPlays(rt, source, payload); }
  }

  lemma BroadcastPlays(rt: Runtime, source: Byte, payload: seq<Byte>)
    requires Coherent(rt) && HasTransport(rt) && Short(payload) && Roomy(rt, source)
    ensures Plays(rt, Broadcast(rt, source, payload), source, payload)
  {
    var r := StartRelay(rt);
    var f := rt.transport.fifo;
    if Intercom.Relays(rt.intercom, payload) {
      RelayLogKeeps(rt, r.relay, SESSION_TIMEOUT_MS);
      forall id | id in rt.intercom.peers ensures Hearing(r, id) { ListedHear(r, id); }
      RelayQueues(r, source, rt.intercom.peers, payload);
      DrainedPlays(rt, RelayTo(r, source, rt.intercom.peers, payload), Broadcast(rt, source, payload), source, payload);
    } else {
      assert f.wire + f.queue == Broadcast(rt, source, payload).transport.fifo.wire;
    }
  }

  lemma DrainedPlays(rt: Runtime, r: Runtime, b: Runtime, source: Byte, payload: seq<Byte>)
    requires Short(payload) && RelaysTo(rt, r, Targets(rt, source), payload)
    requires b.transport == Transport.Drain(r.transport) && b.stats == r.stats
    ensures Plays(rt, b, source, payload)
  {
    var f, q := rt.transport.fifo, r.transport.fifo.queue;
    DrainedWire(f.wire, f.queue, q, q[|f.queue|..]);
  }

  lemma DrainedWire(wire: seq<Transport.Packet>, was: seq<Transport.Packet>, q: seq<Transport.Packet>,
      more: seq<Transport.Packet>)
    requires q == was + more
    ensures wire + was <= wire + q && (wire + q)[|wire| + |was|..] == more && |wire + q| == |wire| + |was| + |more|
  {
    assert wire + q == (wire + was) + more;
  }
}
