/**
 The packet queue against a ledger of everything it ever accepted. The ledger only ever marks an accepted packet
 delivered or purged; the queue is what is still pending, in the order of acceptance.
 */
module TransportLedger {
  import opened Machine
  import opened Sequences
  import opened TransportSpec
  import opened TransportInvariant

  datatype Fate = Pending | Delivered | Purged

  datatype Ledger = Ledger(accepted: seq<Packet>, fates: seq<Fate>, refused: nat)

  const EMPTY_LEDGER := Ledger([], [], 0)

  /** The packets with the given fate, in the order of acceptance. */
  function Pick(ps: seq<Packet>, fates: seq<Fate>, fate: Fate): seq<Packet>
    requires |ps| == |fates|
  {
    if ps == [] then []
    else (if fates[0] == fate then [ps[0]] else []) + Pick(ps[1..], fates[1..], fate)
  }

  function Count(fates: seq<Fate>, fate: Fate): nat {
    if fates == [] then 0 else (if fates[0] == fate then 1 else 0) + Count(fates[1..], fate)
  }

  function DeliverFirst(fates: seq<Fate>): (r: seq<Fate>)
    ensures |r| == |fates|
  {
    if fates == [] then []
    else if fates[0] == Pending then [Delivered] + fates[1..]
    else [fates[0]] + DeliverFirst(fates[1..])
  }

  function PurgePeer(ps: seq<Packet>, fates: seq<Fate>, id: Byte): (r: seq<Fate>)
    requires |ps| == |fates|
    ensures |r| == |fates|
  {
    if ps == [] then []
    else [if fates[0] == Pending && (ps[0].source == id || ps[0].target == id) then Purged else fates[0]]
         + PurgePeer(ps[1..], fates[1..], id)
  }

  /** A packet is offered when the transport is on, it carries something and one of its ends is connected. */
  predicate Offered(t: State, source: Byte, target: Byte, payload: seq<Byte>) {
    t.enabled && payload != [] && (source in t.connected || target in t.connected)
  }

  function Record(l: Ledger, t: State, e: Event): Ledger
    requires |l.accepted| == |l.fates|
  {
    match e
    case Queueing(s, d, payload, n) =>
      if !Offered(t, s, d, payload) then l
      else if Count(l.fates, Pending) == QUEUE_DEPTH then l.(refused := l.refused + 1)
      else
        l.(accepted := l.accepted
            + [Packet(s, d, payload[..if |payload| < MAX_PACKET then |payload| else MAX_PACKET], n)],
        fates := l.fates + [Pending])
    case Dequeueing => l.(fates := DeliverFirst(l.fates))
    case Disconnecting(id) => if id in t.connected then l.(fates := PurgePeer(l.accepted, l.fates, id)) else l
    case _ => l
  }

  ghost predicate FirstInFirstOut(fates: seq<Fate>) {
    forall i, j :: 0 <= i < j < |fates| && fates[j] == Delivered ==> fates[i] != Pending
  }

  /** The queue, what was handed out and the three counters, read off the ledger. */
  ghost predicate Accounts(l: Ledger, t: State) {
    && |l.accepted| == |l.fates|
    && t.fifo.queue == Pick(l.accepted, l.fates, Pending)
    && t.fifo.queued == |l.accepted|
    && t.fifo.delivered == Count(l.fates, Delivered)
    && t.fifo.wire == Pick(l.accepted, l.fates, Delivered)
    && t.fifo.dropped == l.refused + Count(l.fates, Purged)
    && FirstInFirstOut(l.fates)
  }

  // --- the ledger's own arithmetic ---

  lemma {:induction false} Partition(fates: seq<Fate>)
    ensures |fates| == Count(fates, Pending) + Count(fates, Delivered) + Count(fates, Purged)
  {
    if fates != [] { Partition(fates[1..]); }
  }

  lemma {:induction false} PickLength(ps: seq<Packet>, fates: seq<Fate>, fate: Fate)
    requires |ps| == |fates|
    ensures |Pick(ps, fates, fate)| == Count(fates, fate)
  {
    if ps != [] { PickLength(ps[1..], fates[1..], fate); }
  }

  lemma {:induction false} AppendPending(ps: seq<Packet>, fates: seq<Fate>, p: Packet)
    requires |ps| == |fates|
    ensures Pick(ps + [p], fates + [Pending], Pending) == Pick(ps, fates, Pending) + [p]
    ensures Pick(ps + [p], fates + [Pending], Delivered) == Pick(ps, fates, Delivered)
    ensures Count(fates + [Pending], Delivered) == Count(fates, Delivered)
    ensures Count(fates + [Pending], Purged) == Count(fates, Purged)
  {
    if ps == [] {
      assert ps + [p] == [p] && fates + [Pending] == [Pending];
    } else {
      assert (ps + [p])[1..] == ps[1..] + [p] && (fates + [Pending])[1..] == fates[1..] + [Pending];
      AppendPending(ps[1..], fates[1..], p);
    }
  }

  lemma {:induction false} DeliverFirstPicks(ps: seq<Packet>, fates: seq<Fate>)
    requires |ps| == |fates| && Pick(ps, fates, Pending) != []
    ensures Pick(ps, DeliverFirst(fates), Pending) == Pick(ps, fates, Pending)[1..]
    ensures Count(DeliverFirst(fates), Delivered) == Count(fates, Delivered) + 1
    ensures Count(DeliverFirst(fates), Purged) == Count(fates, Purged)
  {
    if fates[0] == Pending {
      assert ([Delivered] + fates[1..])[1..] == fates[1..];
    } else {
      var rest := DeliverFirst(fates[1..]);
      assert ([fates[0]] + rest)[1..] == rest;
      DeliverFirstPicks(ps[1..], fates[1..]);
    }
  }

  /** The packet delivered is the next one after all that were delivered before. */
  lemma {:induction false} DeliverFirstSends(ps: seq<Packet>, fates: seq<Fate>)
    requires |ps| == |fates| && Pick(ps, fates, Pending) != [] && FirstInFirstOut(fates)
    ensures Pick(ps, DeliverFirst(fates), Delivered) == Pick(ps, fates, Delivered) + [Pick(ps, fates, Pending)[0]]
  {
    if fates[0] == Pending {
      assert ([Delivered] + fates[1..])[1..] == fates[1..];
      forall i | 0 <= i < |fates| - 1 ensures fates[1..][i] != Delivered { assert fates[1..][i] == fates[i + 1]; }
      NoneDelivered(ps[1..], fates[1..]);
    } else {
      var rest := DeliverFirst(fates[1..]);
      assert ([fates[0]] + rest)[1..] == rest;
      forall i, j | 0 <= i < j < |fates| - 1 && fates[1..][j] == Delivered ensures fates[1..][i] != Pending {
        assert fates[1..][j] == fates[j + 1] && fates[1..][i] == fates[i + 1];
      }
      DeliverFirstSends(ps[1..], fates[1..]);
      var sent := Pick(ps[1..], fates[1..], Delivered);
      var next := Pick(ps[1..], fates[1..], Pending)[0];
      assert Pick(ps, fates, Pending)[0] == next;
      assert ([ps[0]] + sent) + [next] == [ps[0]] + (sent + [next]);
      assert [] + sent == sent && [] + (sent + [next]) == sent + [next];
    }
  }

  lemma {:induction false} NoneDelivered(ps: seq<Packet>, fates: seq<Fate>)
    requires |ps| == |fates| && forall i :: 0 <= i < |fates| ==> fates[i] != Delivered
    ensures Pick(ps, fates, Delivered) == []
  {
    if ps != [] { NoneDelivered(ps[1..], fates[1..]); }
  }

  lemma {:induction false} DeliverFirstNone(ps: seq<Packet>, fates: seq<Fate>)
    requires |ps| == |fates| && Pick(ps, fates, Pending) == []
    ensures DeliverFirst(fates) == fates
  {
    if fates != [] {
      DeliverFirstNone(ps[1..], fates[1..]);
    }
  }

  lemma DeliverFirstOrder(fates: seq<Fate>)
    requires FirstInFirstOut(fates)
    ensures FirstInFirstOut(DeliverFirst(fates))
    ensures forall i :: 0 <= i < |fates| && DeliverFirst(fates)[i] == Pending ==> fates[i] == Pending
    ensures forall i :: 0 <= i < |fates| && DeliverFirst(fates)[i] != fates[i] ==>
                          DeliverFirst(fates)[i] == Delivered && forall j :: 0 <= j < i ==> fates[j] != Pending
  {
    DeliverFirstAt(fates);
  }

  /** Delivering marks the first pending packet. */
  lemma {:induction false} DeliverFirstAt(fates: seq<Fate>)
    ensures var k := IndexOf(fates, Pending);
            DeliverFirst(fates) == if k < |fates| then fates[k := Delivered] else fates
  {
    if fates != [] && fates[0] != Pending {
      DeliverFirstAt(fates[1..]);
      assert fates == [fates[0]] + fates[1..];
    }
  }

  lemma {:induction false} PurgePicks(ps: seq<Packet>, fates: seq<Fate>, id: Byte)
    requires |ps| == |fates|
    ensures Pick(ps, PurgePeer(ps, fates, id), Pending) == DropPeer(Pick(ps, fates, Pending), id)
    ensures Count(PurgePeer(ps, fates, id), Delivered) == Count(fates, Delivered)
    ensures Count(PurgePeer(ps, fates, id), Purged) - Count(fates, Purged)
            == |Pick(ps, fates, Pending)| - |DropPeer(Pick(ps, fates, Pending), id)|
  {
    if ps != [] {
      PurgePicks(ps[1..], fates[1..], id);
      var rest := PurgePeer(ps[1..], fates[1..], id);
      var all := PurgePeer(ps, fates, id);
      assert all[1..] == rest;
      var before, after := Pick(ps[1..], fates[1..], Pending), Pick(ps[1..], rest, Pending);
      assert Pick(ps, all, Pending) == (if all[0] == Pending then [ps[0]] else []) + after;
      if fates[0] == Pending {
        assert ([ps[0]] + before)[1..] == before;
        assert [] + after == after;
      } else {
        assert [] + before == before && [] + after == after;
      }
    }
  }

  /** Purging takes nothing off the wire. */
  lemma {:induction false} PurgeKeepsSent(ps: seq<Packet>, fates: seq<Fate>, id: Byte)
    requires |ps| == |fates|
    ensures Pick(ps, PurgePeer(ps, fates, id), Delivered) == Pick(ps, fates, Delivered)
  {
    if ps != [] {
      PurgeKeepsSent(ps[1..], fates[1..], id);
      assert PurgePeer(ps, fates, id)[1..] == PurgePeer(ps[1..], fates[1..], id);
    }
  }

  /** Purging only ever turns pending packets into purged ones. */
  lemma {:induction false} PurgeOnlyPending(ps: seq<Packet>, fates: seq<Fate>, id: Byte)
    requires |ps| == |fates|
    ensures var r := PurgePeer(ps, fates, id);
            forall i :: 0 <= i < |fates| ==> r[i] == fates[i] || (fates[i] == Pending && r[i] == Purged)
  {
    if ps != [] {
      var rest, all := PurgePeer(ps[1..], fates[1..], id), PurgePeer(ps, fates, id);
      PurgeOnlyPending(ps[1..], fates[1..], id);
      assert forall i :: 0 < i < |fates| ==> all[i] == rest[i - 1] && fates[i] == fates[1..][i - 1];
    }
  }

  // --- events that leave the queue alone ---

  lemma {:induction false} PollLeavesQueue(t: State, slot: nat)
    requires slot <= |t.discovered|
    ensures PollFrom(t, slot).fifo == t.fifo
    decreases |t.discovered| - slot
  {
    if slot < |t.discovered| {
      PollLeavesQueue(PollSlotSized(t, slot), slot + 1);
    }
  }

  lemma OthersLeaveQueue(t: State, e: Event)
    requires !e.Queueing? && !e.Dequeueing? && !e.Disconnecting?
    ensures Step(t, e).fifo == t.fifo
  {
    match e
    case Ticking => PollLeavesQueue(t.(lastPoll := Wrap32(t.lastPoll + POLL_TICK_MS)), 0);
    case _ =>
  }

  lemma DisconnectPurges(t: State, id: Byte)
    requires WellFormed(t) && id in t.connected
    ensures var t' := Disconnect(t, id).state;
            && t'.fifo.queue == DropPeer(t.fifo.queue, id) && t'.fifo.queued == t.fifo.queued
            && t'.fifo.wire == t.fifo.wire
               && t'.fifo.delivered == t.fifo.delivered
            && t'.fifo.dropped == t.fifo.dropped + (|t.fifo.queue| - |t'.fifo.queue|)
  {
  }

  // --- the refinement ---

  lemma RecordQueueing(l: Ledger, t: State, e: Event)
    requires Accounts(l, t) && e.Queueing? && |t.fifo.queue| <= QUEUE_DEPTH
    ensures Accounts(Record(l, t, e), Step(t, e))
  {
    PickLength(l.accepted, l.fates, Pending);
    if Offered(t, e.source, e.target, e.payload) && |t.fifo.queue| < QUEUE_DEPTH {
      AppendPending(l.accepted, l.fates, Record(l, t, e).accepted[|l.accepted|]);
      assert e.payload[..|e.payload|] == e.payload;
    }
  }

  lemma RecordDequeueing(l: Ledger, t: State)
    requires Accounts(l, t)
    ensures Accounts(Record(l, t, Dequeueing), Step(t, Dequeueing))
  {
    if t.fifo.queue == [] {
      DeliverFirstNone(l.accepted, l.fates);
    } else {
      DeliverFirstPicks(l.accepted, l.fates);
      DeliverFirstSends(l.accepted, l.fates);
      DeliverFirstOrder(l.fates);
    }
  }

  lemma RecordDisconnecting(l: Ledger, t: State, id: Byte)
    requires Accounts(l, t) && WellFormed(t)
    ensures Accounts(Record(l, t, Disconnecting(id)), Step(t, Disconnecting(id)))
  {
    if id in t.connected {
      DisconnectPurges(t, id);
      PurgePicks(l.accepted, l.fates, id);
      PurgeKeepsSent(l.accepted, l.fates, id);
      PurgeOnlyPending(l.accepted, l.fates, id);
    }
  }

  lemma RecordStep(l: Ledger, t: State, e: Event)
    requires Accounts(l, t) && WellFormed(t)
    ensures Accounts(Record(l, t, e), Step(t, e))
  {
    match e
    case Queueing(_, _, _, _) => RecordQueueing(l, t, e);
    case Dequeueing => RecordDequeueing(l, t);
    case Disconnecting(id) => RecordDisconnecting(l, t, id);
    case _ => OthersLeaveQueue(t, e);
  }

  ghost predicate RunsTo(l: Ledger, t: State, events: seq<Event>, l': Ledger, t': State)
    decreases |events|
  {
    if events == [] then l' == l && t' == t
    else
      && |l.accepted| == |l.fates| && Allowed(t, events[0])
      && RunsTo(Record(l, t, events[0]), Step(t, events[0]), events[1..], l', t')
  }

  lemma {:induction false} RunAccounts(l: Ledger, t: State, events: seq<Event>, l': Ledger, t': State)
    requires Accounts(l, t) && WellFormed(t) && RunsTo(l, t, events, l', t')
    ensures Accounts(l', t') && WellFormed(t')
    decreases |events|
  {
    if events != [] {
      RecordStep(l, t, events[0]);
      StepKeeps(t, events[0]);
      RunAccounts(Record(l, t, events[0]), Step(t, events[0]), events[1..], l', t');
    }
  }

  /**
   Over every run from start-up: the queue is what was accepted minus what was delivered and purged, in order,
   the counters balance, and every queued packet has a connected end.
   */
  lemma QueueConservation(localId: Byte, events: seq<Event>, l: Ledger, t: State)
    requires RunsTo(EMPTY_LEDGER, Init(localId), events, l, t)
    ensures Accounts(l, t)
    ensures t.fifo.queued == t.fifo.delivered + Count(l.fates, Purged) + |t.fifo.queue|
    ensures t.fifo.dropped == l.refused + Count(l.fates, Purged)
    ensures forall k :: 0 <= k < |t.fifo.queue| ==> Endpoint(t.connected, t.fifo.queue[k])
  {
    InitWellFormed(localId);
    RunAccounts(EMPTY_LEDGER, Init(localId), events, l, t);
    Partition(l.fates);
    PickLength(l.accepted, l.fates, Pending);
  }
}
