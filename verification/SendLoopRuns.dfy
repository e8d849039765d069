/**
 What one turn on a channel does to the outbound queue, and what every run of the radio build keeps:
 packets reach each headset in the order they were queued, at most once each, and none is unaccounted for.
 */
module SendLoopRuns {
  import opened Machine
  import opened Sequences
  import opened SendLoopSpec
  import T = TransportSpec

  // --- one turn ---

  /** The queue as it is in every reachable state: the history numbers rise from front to back. */
  ghost predicate Rising(q: seq<Packet>) { forall i, j :: 0 <= i < j < |q| ==> q[i].number < q[j].number }

  ghost predicate Fits(q: seq<Packet>) {
    |q| <= T.QUEUE_DEPTH && forall p :: p in q ==> 1 <= |p.payload| <= T.MAX_PACKET
  }

  lemma {:induction false} AttendedExact(q: seq<Packet>, peers: seq<Backend>)
    ensures forall p :: p in Attended(q, peers) <==> p in q && !Orphan(p, peers)
    ensures Rising(q) ==> Rising(Attended(q, peers))
  {
    if q != [] {
      assert q == [q[0]] + q[1..];
      AttendedExact(q[1..], peers);
      if Rising(q) { RisingJoin([q[0]], Attended(q[1..], peers)); }
    }
  }

  lemma {:induction false} DropPeerRises(q: seq<Packet>, id: Byte)
    requires Rising(q)
    ensures Rising(T.DropPeer(q, id))
    ensures forall p :: p in T.DropPeer(q, id) <==> p in q && p.source != id && p.target != id
  {
    if q != [] {
      assert q == [q[0]] + q[1..];
      DropPeerRises(q[1..], id);
      RisingJoin([q[0]], T.DropPeer(q[1..], id));
    }
  }

  lemma RisingJoin(a: seq<Packet>, b: seq<Packet>)
    requires Rising(a)
    requires Rising(b) && forall x, y :: x in a && y in b ==> x.number < y.number
    ensures Rising(a + b)
  {
  }

  /** Cutting a rising queue at k parts it by number. */
  lemma RisingCut(q: seq<Packet>, k: nat)
    requires Rising(q) && k < |q|
    ensures Rising(q[..k]) && Rising(q[k + 1..])
    ensures forall p :: p in q[..k] <==> p in q && p.number < q[k].number
    ensures forall p :: p in q[k + 1..] <==> p in q && p.number > q[k].number
    ensures forall p :: p in q && p.number == q[k].number ==> p == q[k]
  {
    forall p | p in q ensures p in q[..k] <==> p.number < q[k].number {
      var i :| 0 <= i < |q| && q[i] == p;
      if i < k { assert q[..k][i] == p; }
    }
    forall p | p in q ensures p in q[k + 1..] <==> p.number > q[k].number {
      var i :| 0 <= i < |q| && q[i] == p;
      if i > k { assert q[k + 1..][i - k - 1] == p; }
    }
  }

  /** The sweep without the packet that has the channel. */
  lemma RestExact(q: seq<Packet>, peers: seq<Backend>, k: nat)
    requires Rising(q) && k < |q|
    ensures var rest := Attended(q[..k], peers) + q[k + 1..];
            && Rising(rest)
            && (forall p :: p in rest <==> p in q && p != q[k] && !(p.number < q[k].number && Orphan(p, peers)))
  {
    RisingCut(q, k);
    AttendedExact(q[..k], peers);
    RisingJoin(Attended(q[..k], peers), q[k + 1..]);
  }

  /** The sweep with it. */
  lemma SweepExact(q: seq<Packet>, peers: seq<Backend>, k: nat)
    requires Rising(q) && k < |q|
    ensures var kept := Attended(q[..k], peers);
            && Rising(kept + q[k..]) && (kept + q[k..])[|kept|] == q[k]
            && RemoveAt(kept + q[k..], |kept|) == kept + q[k + 1..]
            && (forall p :: p in kept + q[k..] <==> p in q && !(p.number < q[k].number && Orphan(p, peers)))
  {
    var kept := Attended(q[..k], peers);
    RisingCut(q, k);
    AttendedExact(q[..k], peers);
    assert q[k..] == [q[k]] + q[k + 1..];
    RisingJoin([q[k]], q[k + 1..]);
    RisingJoin(kept, q[k..]);
    RemoveAtJoin(kept, q[k..]);
  }

  /** Entry k is the one the radio side uses for the packet's target. */
  ghost predicate Serves(peers: seq<Backend>, k: nat, p: Packet) {
    && k < |peers| && peers[k].valid && peers[k].id == p.target
    && forall j :: 0 <= j < k ==> !(peers[j].valid && peers[j].id == p.target)
  }

  ghost predicate HasChannel(p: Packet, peers: seq<Backend>, cid: Word16) {
    exists k: nat :: Serves(peers, k, p) && peers[k].cid == cid
  }

  /** The headset has a frame limit, and the packet is longer. */
  predicate TooBig(p: Packet, peers: seq<Backend>) {
    var k := Owner(peers, p.target);
    k < |peers| && peers[k].mtu != 0 && |p.payload| > peers[k].mtu
  }

  lemma OwnerServes(peers: seq<Backend>, p: Packet)
    ensures forall k: nat :: Serves(peers, k, p) ==> k == Owner(peers, p.target)
    ensures Owner(peers, p.target) < |peers| ==> Serves(peers, Owner(peers, p.target), p)
  {
  }

  lemma ChannelOwned(p: Packet, peers: seq<Backend>, cid: Word16)
    ensures HasChannel(p, peers, cid) <==> Owns(p, peers, cid)
  {
    OwnerServes(peers, p);
    var k := Owner(peers, p.target);
    if Owns(p, peers, cid) { assert Serves(peers, k, p) && peers[k].cid == cid; }
  }

  /**
   A turn offers the first packet whose headset has the channel, unless it is too big; nothing else is ever offered.
   */
  lemma TurnOffers(s: State, peers: seq<Backend>, cid: Word16, sent: bool, granted: bool)
    ensures var offered := CanSend(s, peers, cid, sent, granted).offered; var q := s.queue;
            && (offered != [] ==>
                  exists i ::
                    && 0 <= i < |q| && offered == [q[i]] && HasChannel(q[i], peers, cid) && !TooBig(q[i], peers)
                    && forall j :: 0 <= j < i ==> !HasChannel(q[j], peers, cid))
            && (offered == [] ==>
                  || (forall i :: 0 <= i < |q| ==> !HasChannel(q[i], peers, cid))
                  || (exists i ::
                        && 0 <= i < |q| && HasChannel(q[i], peers, cid) && TooBig(q[i], peers)
                        && forall j :: 0 <= j < i ==> !HasChannel(q[j], peers, cid)))
  {
    var q, k := s.queue, FirstOwned(s.queue, peers, cid);
    forall i | 0 <= i < |q| ensures HasChannel(q[i], peers, cid) <==> Owns(q[i], peers, cid) {
      ChannelOwned(q[i], peers, cid);
    }
    if k < |q| { assert Swept(s, peers, k).queue[|Attended(q[..k], peers)|] == q[k]; }
  }

  /** Which queued packets a turn on a channel takes away. */
  ghost predicate Goes(q: seq<Packet>, peers: seq<Backend>, cid: Word16, sent: bool, p: Packet) {
    var k := FirstOwned(q, peers, cid);
    if k == |q| then Orphan(p, peers)
    else
      var due := q[k];
      || (p.number < due.number && Orphan(p, peers))
      || (p == due && (sent || TooBig(due, peers)))
      || (!sent && !TooBig(due, peers) && due.target != 0 && (p.source == due.target || p.target == due.target))
  }

  /** The packets a turn hands to the radio: at most the earliest one that has the channel. */
  ghost function Due(q: seq<Packet>, peers: seq<Backend>, cid: Word16): seq<Packet> {
    var k := FirstOwned(q, peers, cid);
    if k < |q| && !TooBig(q[k], peers) then [q[k]] else []
  }

  ghost predicate TurnDoes(s: State, peers: seq<Backend>, cid: Word16, sent: bool, r: Outcome) {
    && r.offered == Due(s.queue, peers, cid)
    && Rising(r.state.queue)
    && (forall p :: p in r.state.queue <==> p in s.queue && !Goes(s.queue, peers, cid, sent, p))
    && r.state.delivered == s.delivered + (if sent then |r.offered| else 0)
    && |s.queue| - |r.state.queue| == (r.state.delivered - s.delivered) + (r.state.dropped - s.dropped)
    && s.dropped <= r.state.dropped && r.state.queued == s.queued && (r.state.pending ==> r.state.pendingCid != 0)
  }

  /**
   A turn hands the radio the earliest packet whose target has the channel and nothing else, takes away exactly the
   packets that `Goes` names, leaves the rest in order, and books every one it takes as delivered or dropped.
   */
  lemma CanSendExact(s: State, peers: seq<Backend>, cid: Word16, sent: bool, granted: bool)
    requires Rising(s.queue)
    ensures TurnDoes(s, peers, cid, sent, CanSend(s, peers, cid, sent, granted))
  {
    var q, k := s.queue, FirstOwned(s.queue, peers, cid);
    if k == |q| {
      assert q[..k] == q && q[k..] == [];
      AttendedExact(q, peers);
      assert Attended(q, peers) + [] == Attended(q, peers);
    } else {
      SettleExact(s, peers, cid, sent, granted);
    }
  }

  lemma SettleExact(s: State, peers: seq<Backend>, cid: Word16, sent: bool, granted: bool)
    requires Rising(s.queue) && FirstOwned(s.queue, peers, cid) < |s.queue|
    ensures var k := FirstOwned(s.queue, peers, cid);
            var w := Swept(s, peers, k);
            TurnDoes(s, peers, cid, sent, Settle(w, |Attended(s.queue[..k], peers)|, peers, sent, granted))
  {
    var q, k := s.queue, FirstOwned(s.queue, peers, cid);
    SweepExact(q, peers, k);
    RestExact(q, peers, k);
    SettleDoes(s, Swept(s, peers, k), |Attended(q[..k], peers)|, peers, cid, sent, granted);
  }

  lemma SettleDoes(s: State, w: State, i: nat, peers: seq<Backend>, cid: Word16, sent: bool, granted: bool)
    requires FirstOwned(s.queue, peers, cid) < |s.queue|
    requires i < |w.queue| && w.queue[i] == s.queue[FirstOwned(s.queue, peers, cid)]
    requires Rising(w.queue) && Rising(RemoveAt(w.queue, i))
    requires var due := w.queue[i];
             && (forall p :: p in w.queue <==> p in s.queue && !(p.number < due.number && Orphan(p, peers)))
             && (forall p ::
                   p in RemoveAt(w.queue, i) <==>
                   p in s.queue && p != due && !(p.number < due.number && Orphan(p, peers)))
    requires |s.queue| - |w.queue| == w.dropped - s.dropped >= 0 && !w.pending
    requires w.queued == s.queued && w.delivered == s.delivered
    ensures TurnDoes(s, peers, cid, sent, Settle(w, i, peers, sent, granted))
  {
    var due := w.queue[i];
    if TooBig(due, peers) {
      RequestFrame(w.(queue := RemoveAt(w.queue, i), dropped := w.dropped + 1), peers, granted);
    } else if sent {
      DeliverFrame(w, i, peers, granted);
    } else {
      DropPeerRises(w.queue, due.target);
    }
  }

  lemma RequestFrame(s: State, peers: seq<Backend>, granted: bool)
    requires !s.pending
    ensures var r := Request(s, peers, granted);
            r == s.(pending := r.pending, pendingCid := r.pendingCid) && (r.pending ==> r.pendingCid != 0)
  {
  }

  lemma DeliverFrame(s: State, i: nat, peers: seq<Backend>, granted: bool)
    requires i < |s.queue| && !s.pending
    ensures var r := Deliver(s, i, peers, granted);
            && r.queue == RemoveAt(s.queue, i) && r.dropped == s.dropped && r.delivered == s.delivered + 1
            && r.queued == s.queued && (r.pending ==> r.pendingCid != 0)
  {
  }

  /** After a delivery or a refusal the next turn is asked for exactly when some queued packet has an open channel. */
  lemma RequestExact(s: State, peers: seq<Backend>, granted: bool)
    requires !s.pending
    ensures var r := Request(s, peers, granted);
            && (r.pending <==> granted && exists p :: p in s.queue && Open(p, peers))
            && (r.pending ==>
                  exists i :: (
                    && 0 <= i < |s.queue| && Open(s.queue[i], peers)
                    && r.pendingCid == peers[Owner(peers, s.queue[i].target)].cid
                    && forall j :: 0 <= j < i ==> !Open(s.queue[j], peers)))
  {
    var k := FirstOpen(s.queue, peers);
    if k < |s.queue| { assert s.queue[k] in s.queue; }
  }

  /**
   What a turn leaves besides the queue: a failed send is remembered as an error, a sent packet as the last one, and the
   next turn is asked for exactly after a packet was sent or refused for its size while another one has an open channel.
   */
  lemma TurnSettles(s: State, peers: seq<Backend>, cid: Word16, sent: bool, granted: bool)
    ensures var r := CanSend(s, peers, cid, sent, granted); var k := FirstOwned(s.queue, peers, cid);
            && (r.state.error <==> s.error || (r.offered != [] && !sent))
            && (if sent && r.offered != []
                then r.state.lastSource == r.offered[0].source && r.state.lastTarget == r.offered[0].target
                else r.state.lastSource == s.lastSource && r.state.lastTarget == s.lastTarget)
            && (r.state.pending <==>
                  && k < |s.queue| && (sent || TooBig(s.queue[k], peers)) && granted
                  && exists p :: p in r.state.queue && Open(p, peers))
  {
    var k := FirstOwned(s.queue, peers, cid);
    var w := Swept(s, peers, k);
    if k < |s.queue| {
      var i := |Attended(s.queue[..k], peers)|;
      assert w.queue[i] == s.queue[k];
      SettleNotes(w, i, peers, sent, granted);
      SettleAsks(w, i, peers, sent, granted);
      assert CanSend(s, peers, cid, sent, granted) == Settle(w, i, peers, sent, granted);
    } else {
      assert CanSend(s, peers, cid, sent, granted) == Outcome(w, []);
    }
  }

  lemma SettleNotes(w: State, i: nat, peers: seq<Backend>, sent: bool, granted: bool)
    requires i < |w.queue|
    ensures var r := Settle(w, i, peers, sent, granted);
            && (r.state.error <==> w.error || (r.offered != [] && !sent))
            && (if sent && r.offered != []
                then r.state.lastSource == r.offered[0].source && r.state.lastTarget == r.offered[0].target
                else r.state.lastSource == w.lastSource && r.state.lastTarget == w.lastTarget)
  {
  }

  lemma SettleAsks(w: State, i: nat, peers: seq<Backend>, sent: bool, granted: bool)
    requires i < |w.queue| && !w.pending
    ensures var r := Settle(w, i, peers, sent, granted).state;
            r.pending <==> (sent || TooBig(w.queue[i], peers)) && granted && exists p ::
                p in r.queue && Open(p, peers)
  {
    if TooBig(w.queue[i], peers) {
      RequestExact(w.(queue := RemoveAt(w.queue, i), dropped := w.dropped + 1), peers, granted);
    } else if sent {
      RequestExact(w.(queue := RemoveAt(w.queue, i), delivered := w.delivered + 1, lastSource := w.queue[i].source,
                   lastTarget := w.queue[i].target), peers, granted);
    }
  }

  // --- whole runs ---

  /** `Lost` is a disconnection that does not come from a closed channel; `Ask` is the request made by each poll. */
  datatype Event =
    | Enqueue(source: Byte, target: Byte, payload: seq<Byte>)
    | Turn(peers: seq<Backend>, cid: Word16, sent: bool, granted: bool)
    | Ask(peers: seq<Backend>, granted: bool)
    | Closed(id: Byte)
    | Lost(id: Byte)
    | Disable

  /**
   A run's state with its history: every packet ever queued, every packet the radio took, and what was turned away.
   */
  datatype Trace = Trace(s: State, accepted: seq<Packet>, wire: seq<Packet>, refused: nat, discarded: nat)

  /** The packet that an offer makes: from its source to its target, cut to 256 bytes. */
  function Offered(source: Byte, target: Byte, payload: seq<Byte>, number: nat): Packet {
    T.Packet(source, target, payload[..if |payload| < 256 then |payload| else 256], number)
  }

  const START := Trace(INIT, [], [], 0, 0)

  function Step(t: Trace, e: Event): Trace {
    match e
    case Enqueue(source, target, payload) =>
      var s' := SendLoopSpec.Enqueue(t.s, source, target, payload);
      if payload == [] then t.(s := s')
      else if |t.s.queue| < 16 then t.(s := s', accepted := t.accepted
          + [Offered(source, target, payload, |t.accepted|)])
      else t.(s := s', refused := t.refused + 1)
    case Turn(peers, cid, sent, granted) =>
      var r := CanSend(t.s, peers, cid, sent, granted);
      t.(s := r.state, wire := t.wire + if sent then r.offered else [])
    case Ask(peers, granted) => t.(s := Request(t.s, peers, granted))
    case Closed(id) => t.(s := SendLoopSpec.Closed(t.s, id))
    case Lost(id) => t.(s := DropFor(t.s, id))
    case Disable => t.(s := SendLoopSpec.Disable(t.s), discarded := t.discarded + |t.s.queue|)
  }

  function Run(t: Trace, es: seq<Event>): Trace
    decreases |es|
  {
    if es == [] then t else Run(Step(t, es[0]), es[1..])
  }

  /** Every packet of q is, unchanged, the one that was queued under its number. */
  ghost predicate Known(q: seq<Packet>, accepted: seq<Packet>) {
    forall i :: 0 <= i < |q| ==> q[i].number < |accepted| && accepted[q[i].number] == q[i]
  }

  /** Packets for one headset went out in the order they were queued, none twice. */
  ghost predicate InOrder(wire: seq<Packet>) {
    forall i, j :: 0 <= i < j < |wire| && wire[i].target == wire[j].target ==> wire[i].number < wire[j].number
  }

  /** Whatever is still queued for a headset was queued after everything it has been sent. */
  ghost predicate Behind(q: seq<Packet>, wire: seq<Packet>) {
    forall i, p :: 0 <= i < |wire| && p in q && wire[i].target == p.target ==> wire[i].number < p.number
  }

  ghost predicate History(q: seq<Packet>, accepted: seq<Packet>, wire: seq<Packet>) {
    Rising(q) && Known(q, accepted) && Known(wire, accepted) && InOrder(wire) && Behind(q, wire)
  }

  ghost predicate Balanced(t: Trace) {
    && |t.accepted| == t.s.queued && |t.wire| == t.s.delivered
    && t.s.queued + t.refused == t.s.delivered + t.s.dropped + |t.s.queue| + t.discarded
  }

  ghost predicate Orderly(t: Trace) {
    && History(t.s.queue, t.accepted, t.wire) && Fits(t.s.queue)
    && Balanced(t) && (t.s.pending ==> t.s.pendingCid != 0)
  }

  lemma HistoryGrows(q: seq<Packet>, accepted: seq<Packet>, wire: seq<Packet>, p: Packet)
    requires History(q, accepted, wire) && p.number == |accepted|
    ensures History(q + [p], accepted + [p], wire)
  {
    RisingJoin(q, [p]);
  }

  lemma HistoryShrinks(q: seq<Packet>, accepted: seq<Packet>, wire: seq<Packet>, q': seq<Packet>)
    requires History(q, accepted, wire) && Rising(q') && forall p :: p in q' ==> p in q
    ensures History(q', accepted, wire)
  {
    forall i | 0 <= i < |q'| ensures q'[i].number < |accepted| && accepted[q'[i].number] == q'[i] {
      assert q'[i] in q;
    }
  }

  lemma HistoryTakes(q: seq<Packet>, accepted: seq<Packet>, wire: seq<Packet>, q': seq<Packet>, due: Packet)
    requires History(q, accepted, wire) && Rising(q') && due in q
    requires forall p :: p in q' ==> p in q && p != due
    requires forall p :: p in q && p.target == due.target ==> due == p || due.number < p.number
    ensures History(q', accepted, wire + [due])
  {
    HistoryShrinks(q, accepted, wire, q');
  }

  lemma EnqueueKeeps(t: Trace, source: Byte, target: Byte, payload: seq<Byte>)
    requires Orderly(t)
    ensures Orderly(Step(t, Enqueue(source, target, payload)))
  {
    EnqueueExact(t.s, source, target, payload);
    if payload != [] && |t.s.queue| < 16 {
      HistoryGrows(t.s.queue, t.accepted, t.wire, Offered(source, target, payload, |t.accepted|));
    }
  }

  /** An offer is queued exactly when it carries something and fewer than sixteen are queued, and counted either way. */
  lemma EnqueueExact(s: State, source: Byte, target: Byte, payload: seq<Byte>)
    ensures var s' := SendLoopSpec.Enqueue(s, source, target, payload);
            if payload == [] then s' == s
            else if |s.queue| >= 16 then s' == s.(dropped := s.dropped + 1)
            else s' == s.(queue := s.queue + [Offered(source, target, payload, s.queued)], queued := s.queued + 1,
                          lastSource := source, lastTarget := target)
  {
    assert payload[..|payload|] == payload;
  }

  /**
   A closed channel forgets the outstanding request; it and a lost peer take exactly the peer's packets, as dropped.
   */
  lemma ClosedExact(s: State, id: Byte)
    requires Rising(s.queue)
    ensures var r, c := DropFor(s, id), SendLoopSpec.Closed(s, id);
            && Rising(r.queue)
            && (forall p :: p in r.queue <==> p in s.queue && (id == 0 || (p.source != id && p.target != id)))
            && r == s.(queue := r.queue, dropped := s.dropped + (|s.queue| - |r.queue|))
            && c == r.(pending := false, pendingCid := 0)
  {
    DropPeerRises(s.queue, id);
  }

  /** What is left behind a packet that has just been taken for a headset was queued after it. */
  lemma DueIsFirst(q: seq<Packet>, peers: seq<Backend>, cid: Word16, p: Packet)
    requires Rising(q) && p in q && FirstOwned(q, peers, cid) < |q|
    ensures var due := q[FirstOwned(q, peers, cid)]; p.target == due.target ==> due == p || due.number < p.number
  {
    var k := FirstOwned(q, peers, cid);
    var i :| 0 <= i < |q| && q[i] == p;
    assert i < k ==> !Owns(q[i], peers, cid);
  }

  lemma TurnKeepsHistory(t: Trace, peers: seq<Backend>, cid: Word16, sent: bool, r: Outcome)
    requires History(t.s.queue, t.accepted, t.wire) && TurnDoes(t.s, peers, cid, sent, r)
    ensures History(r.state.queue, t.accepted, t.wire + if sent then r.offered else [])
  {
    var q := t.s.queue;
    if sent && r.offered != [] {
      forall p | p in q
        ensures p.target == r.offered[0].target ==> r.offered[0] == p || r.offered[0].number < p.number
      {
        DueIsFirst(q, peers, cid, p);
      }
      HistoryTakes(q, t.accepted, t.wire, r.state.queue, r.offered[0]);
    } else {
      assert t.wire + [] == t.wire;
      HistoryShrinks(q, t.accepted, t.wire, r.state.queue);
    }
  }

  lemma TurnKeeps(t: Trace, peers: seq<Backend>, cid: Word16, sent: bool, r: Outcome)
    requires Orderly(t) && TurnDoes(t.s, peers, cid, sent, r)
    ensures Orderly(t.(s := r.state, wire := t.wire + if sent then r.offered else []))
  {
    TurnKeepsHistory(t, peers, cid, sent, r);
  }

  lemma DropKeeps(t: Trace, id: Byte)
    requires Orderly(t)
    ensures Orderly(Step(t, Lost(id))) && Orderly(Step(t, Closed(id)))
  {
    DropPeerRises(t.s.queue, id);
    HistoryShrinks(t.s.queue, t.accepted, t.wire, T.DropPeer(t.s.queue, id));
  }

  lemma StepKeeps(t: Trace, e: Event)
    requires Orderly(t)
    ensures Orderly(Step(t, e))
  {
    match e
    case Enqueue(source, target, payload) => EnqueueKeeps(t, source, target, payload);
    case Turn(peers, cid, sent, granted) =>
      CanSendExact(t.s, peers, cid, sent, granted);
      TurnKeeps(t, peers, cid, sent, CanSend(t.s, peers, cid, sent, granted));
    case Ask(peers, granted) =>
    case Closed(id) => DropKeeps(t, id);
    case Lost(id) => DropKeeps(t, id);
    case Disable => HistoryShrinks(t.s.queue, t.accepted, t.wire, []);
  }

  lemma {:induction false} RunKeeps(t: Trace, es: seq<Event>)
    requires Orderly(t)
    ensures Orderly(Run(t, es))
    decreases |es|
  {
    if es != [] {
      StepKeeps(t, es[0]);
      RunKeeps(Step(t, es[0]), es[1..]);
    }
  }

  /**
   Over every run from start-up: what the radio took for each headset is in queueing order without repeats, each such
   packet is unchanged from when it was queued, and every packet offered is delivered, dropped, pending or discarded.
   */
  lemma RunDelivers(es: seq<Event>)
    ensures var t := Run(START, es);
            && InOrder(t.wire) && Known(t.wire, t.accepted) && Behind(t.s.queue, t.wire) && Balanced(t)
  {
    RunKeeps(START, es);
  }
}
