/**
 The outbound queue of the radio build and the step taken when the radio reports that a channel can send,
 as functions on values. The radio's answers (was the send accepted, was the next request accepted) are parameters.
 The class in SendLoop.dfy performs the same steps in place on the sixteen-slot array.
 */
module SendLoopSpec {
  import opened Machine
  import opened Sequences
  import T = TransportSpec

  type Packet = T.Packet

  /**
   What the radio side knows about one headset: its channel (0 while closed) and the channel's frame limit (0: none).
   */
  datatype Backend = Backend(valid: bool, id: Byte, cid: Word16, mtu: Word16)

  datatype State = State(
    queue: seq<Packet>, queued: nat, delivered: nat, dropped: nat, error: bool,
    lastSource: Byte, lastTarget: Byte, pending: bool, pendingCid: Word16)

  /** `offered` is the packets handed to the radio by the step, in order, whether or not it took them. */
  datatype Outcome = Outcome(state: State, offered: seq<Packet>)

  const INIT := State([], 0, 0, 0, false, 0, 0, false, 0)

  // --- which headset a packet belongs to ---

  /** The first valid entry for a peer id, or the table size. */
  function Owner(peers: seq<Backend>, id: Byte): (k: nat)
    ensures k <= |peers|
    ensures k < |peers| ==> peers[k].valid && peers[k].id == id
    ensures forall j :: 0 <= j < k ==> !(peers[j].valid && peers[j].id == id)
  {
    if peers == [] || (peers[0].valid && peers[0].id == id) then 0 else 1 + Owner(peers[1..], id)
  }

  predicate Orphan(p: Packet, peers: seq<Backend>) { Owner(peers, p.target) == |peers| }

  predicate Owns(p: Packet, peers: seq<Backend>, cid: Word16) {
    !Orphan(p, peers) && peers[Owner(peers, p.target)].cid == cid
  }

  predicate Open(p: Packet, peers: seq<Backend>) {
    !Orphan(p, peers) && peers[Owner(peers, p.target)].cid != 0
  }

  predicate Oversized(p: Packet, peers: seq<Backend>) {
    !Orphan(p, peers) && var mtu := peers[Owner(peers, p.target)].mtu; mtu != 0 && |p.payload| > mtu
  }

  /** The earliest packet whose target owns the channel, or the queue's length. */
  function FirstOwned(q: seq<Packet>, peers: seq<Backend>, cid: Word16): (k: nat)
    ensures k <= |q|
    ensures k < |q| ==> Owns(q[k], peers, cid)
    ensures forall j :: 0 <= j < k ==> !Owns(q[j], peers, cid)
  {
    if q == [] || Owns(q[0], peers, cid) then 0 else 1 + FirstOwned(q[1..], peers, cid)
  }

  function FirstOpen(q: seq<Packet>, peers: seq<Backend>): (k: nat)
    ensures k <= |q|
    ensures k < |q| ==> Open(q[k], peers)
    ensures forall j :: 0 <= j < k ==> !Open(q[j], peers)
  {
    if q == [] || Open(q[0], peers) then 0 else 1 + FirstOpen(q[1..], peers)
  }

  /** The packets whose target is known to the radio side, in order. */
  function Attended(q: seq<Packet>, peers: seq<Backend>): (r: seq<Packet>)
    ensures |r| <= |q|
  {
    if q == [] then []
    else if Orphan(q[0], peers) then Attended(q[1..], peers)
    else [q[0]] + Attended(q[1..], peers)
  }

  // --- the operations ---

  function Enqueue(s: State, source: Byte, target: Byte, payload: seq<Byte>): State {
    if payload == [] then s
    else if |s.queue| >= T.QUEUE_DEPTH then s.(dropped := s.dropped + 1)
    else
      var body := if |payload| > T.MAX_PACKET then payload[..T.MAX_PACKET] else payload;
      s.(queue := s.queue + [T.Packet(source, target, body, s.queued)], queued := s.queued + 1,
      lastSource := source, lastTarget := target)
  }

  function DropFor(s: State, id: Byte): State {
    if id == 0 then s
    else
      var kept := T.DropPeer(s.queue, id);
      s.(queue := kept, dropped := s.dropped + (|s.queue| - |kept|))
  }

  /** Asks the radio for a turn on the channel of the earliest packet that has an open one. */
  function Request(s: State, peers: seq<Backend>, granted: bool): State {
    if s.pending then s
    else
      var k := FirstOpen(s.queue, peers);
      if k == |s.queue| then s
      else if granted then s.(pending := true, pendingCid := peers[Owner(peers, s.queue[k].target)].cid)
      else s.(pending := false, pendingCid := 0)
  }

  /** The queue once the packets without a headset before position k are gone, and packet k itself with them. */
  function Swept(s: State, peers: seq<Backend>, k: nat): State
    requires k <= |s.queue|
  {
    var kept := Attended(s.queue[..k], peers);
    s.(queue := kept + s.queue[k..], dropped := s.dropped + (k - |kept|), pending := false, pendingCid := 0)
  }

  function Reject(s: State, i: nat, peers: seq<Backend>, granted: bool): State
    requires i < |s.queue|
  {
    Request(s.(queue := RemoveAt(s.queue, i), dropped := s.dropped + 1), peers, granted)
  }

  function Deliver(s: State, i: nat, peers: seq<Backend>, granted: bool): State
    requires i < |s.queue|
  {
    var p := s.queue[i];
    Request(s.(queue := RemoveAt(s.queue, i), delivered := s.delivered + 1, lastSource := p.source,
                 lastTarget := p.target), peers, granted)
  }

  /** The packet at position i is refused for its size, fails to go, or is delivered. */
  function Settle(s: State, i: nat, peers: seq<Backend>, sent: bool, granted: bool): Outcome
    requires i < |s.queue|
  {
    var p := s.queue[i];
    if Oversized(p, peers) then Outcome(Reject(s, i, peers, granted), [])
    else if !sent then Outcome(DropFor(s.(error := true), p.target), [p])
    else Outcome(Deliver(s, i, peers, granted), [p])
  }

  function CanSend(s: State, peers: seq<Backend>, cid: Word16, sent: bool, granted: bool): Outcome {
    var k := FirstOwned(s.queue, peers, cid);
    var swept := Swept(s, peers, k);
    if k == |s.queue| then Outcome(swept, [])
    else Settle(swept, |Attended(s.queue[..k], peers)|, peers, sent, granted)
  }

  /** Turning the radio off empties the queue without counting what it held. */
  function Disable(s: State): State { s.(queue := [], pending := false) }

  /** A channel closed under the peer: the outstanding request is forgotten and the peer's packets go. */
  function Closed(s: State, id: Byte): State { DropFor(s.(pending := false, pendingCid := 0), id) }
}
