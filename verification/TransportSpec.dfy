/**
 The transport tables and packet queue as values, and every host-path transport operation as a function on them.
 The class in Transport.dfy performs the same operations in place on fixed arrays.
 */
module TransportSpec {
  import opened Machine
  import opened Sequences

  const QUEUE_DEPTH: nat := 16
  const MAX_PACKET: nat := 256
  const DISCOVERY_TIMEOUT_MS: nat := 5000
  const POLL_TICK_MS: nat := 100

  datatype Error = NoError | PeerLimit | NotConnected | QueueFull | Undiscovered | AudioUnavailable

  datatype Peer = Peer(
    valid: bool, paired: bool, pending: bool, audioReady: bool,
    disconnectRequested: bool, reconnectBlocked: bool, id: Byte,
    lastSeen: Word32, lastConnected: Word32, lastDisconnected: Word32, reconnectAttempts: Word16)

  const NO_PEER := Peer(false, false, false, false, false, false, 0, 0, 0, 0, 0)

  /** `number` is a history variable: the unbounded count behind the packet's 16-bit sequence. No branch reads it. */
  datatype Packet = Packet(source: Byte, target: Byte, payload: seq<Byte>, number: nat)

  /**
   `connected`, `remembered` and `queue` are the filled prefixes of their arrays; `discovered` has all eight slots.
   */
  datatype State = State(
    enabled: bool, backendReady: bool, localId: Byte, lastPoll: Word32, status: Status,
    connected: seq<Byte>, remembered: seq<Byte>, discovered: seq<Peer>, discoveredCount: nat,
    fifo: Fifo)

  datatype Status = Status(error: bool, lastError: Error, pendingPair: Byte)

  /** `wire` is a history variable: every packet handed out, in order. No branch reads it. */
  datatype Fifo = Fifo(queue: seq<Packet>, queued: nat, delivered: nat, dropped: nat, lastSource: Byte,
    lastTarget: Byte, wire: seq<Packet>)

  datatype Outcome = Outcome(state: State, ok: bool)

  /** An operation went wrong: the sticky error flag and the code. */
  function Fault(t: State, e: Error): State { t.(status := t.status.(error := true, lastError := e)) }

  /** An operation went right: only the code is cleared. */
  function Fine(t: State): State { t.(status := t.status.(lastError := NoError)) }

  function Pending(t: State, id: Byte): State { t.(status := t.status.(pendingPair := id)) }

  function Init(localId: Byte): State {
    State(true, true, if localId != 0 then localId else 1, 0, Status(false, NoError, 0),
          [], [], seq(MAX_PEERS, _ => NO_PEER), 0, Fifo([], 0, 0, 0, 0, 0, []))
  }

  function SetEnabled(t: State, enabled: bool): State {
    t.(enabled := enabled, backendReady := enabled,
    status := t.status.(error := false, pendingPair := if enabled then t.status.pendingPair else 0))
  }

  // --- the discovered table ---

  predicate Holds(p: Peer, id: Byte) { p.valid && p.id == id }

  /** The first slot that holds id, or the table size. */
  function Find(ps: seq<Peer>, id: Byte): (k: nat)
    ensures k <= |ps|
    ensures k < |ps| ==> Holds(ps[k], id)
    ensures forall j :: 0 <= j < k ==> !Holds(ps[j], id)
  {
    if ps == [] || Holds(ps[0], id) then 0 else 1 + Find(ps[1..], id)
  }

  function FindFree(ps: seq<Peer>): (k: nat)
    ensures k <= |ps|
    ensures k < |ps| ==> !ps[k].valid
    ensures forall j :: 0 <= j < k ==> ps[j].valid
  {
    if ps == [] || !ps[0].valid then 0 else 1 + FindFree(ps[1..])
  }

  /** Looks id up without creating an entry; the local id and 0 are never found. */
  function Lookup(t: State, id: Byte): (k: nat)
    ensures k <= |t.discovered|
    ensures k < |t.discovered| ==> Holds(t.discovered[k], id) && id != 0 && id != t.localId
  {
    if id == 0 || id == t.localId then |t.discovered| else Find(t.discovered, id)
  }

  datatype Opened = Opened(state: State, slot: nat)

  /** Looks id up and claims the first free slot when it is missing; slot == table size means failure. */
  function Open(t: State, id: Byte): (o: Opened)
    ensures |o.state.discovered| == |t.discovered| && o.slot <= |t.discovered|
    ensures o.slot < |t.discovered| ==> Holds(o.state.discovered[o.slot], id)
    ensures o.state.fifo == t.fifo
  {
    var k := Lookup(t, id);
    if k < |t.discovered| || id == 0 || id == t.localId then Opened(t, k)
    else
      var f := FindFree(t.discovered);
      if f == |t.discovered| then Opened(t, f)
      else
        Opened(t.(discovered := t.discovered[f := NO_PEER.(valid := true, id := id)],
               discoveredCount := if t.discoveredCount < MAX_PEERS then t.discoveredCount + 1 else t.discoveredCount),
                   f)
  }

  // --- the remembered table ---

  predicate IsRemembered(t: State, id: Byte) { id != 0 && id in t.remembered }

  function Remember(t: State, id: Byte): (r: Outcome)
    ensures r.state.fifo == t.fifo && r.state.connected == t.connected && r.state.discovered == t.discovered
  {
    if id == 0 then Outcome(t, false)
    else if id in t.remembered then Outcome(t, true)
    else if |t.remembered| >= MAX_PEERS then Outcome(Fault(t, PeerLimit), false)
    else Outcome(t.(remembered := t.remembered + [id]), true)
  }

  // --- connections ---

  function MarkConnected(t: State, slot: nat): (t': State)
    requires slot < |t.discovered|
    ensures t'.fifo == t.fifo
  {
    var p := t.discovered[slot];
    var t' := t.(discovered := t.discovered[slot := p.(paired := true, pending := false, lastConnected := t.lastPoll)]);
    if p.id in t.connected then Fine(Pending(t', 0))
    else if |t.connected| >= MAX_PEERS then Fault(t', PeerLimit)
    else Fine(Pending(t'.(connected := t.connected + [p.id]), 0))
  }

  /** A peer that was never reported and has no pairing under way is taken to be ready for audio. */
  function AssumeReady(p: Peer): Peer {
    if !p.audioReady && p.lastSeen == 0 && !p.pending then p.(audioReady := true) else p
  }

  function Connect(t: State, id: Byte): (r: Outcome)
    ensures r.state.fifo == t.fifo
  {
    if !t.enabled || id == 0 then Outcome(t, false)
    else
      var r := Remember(t, id);
      if !r.ok then r
      else if id in r.state.connected then Outcome(Fine(r.state), true)
      else
        var o := Open(r.state, id);
        if o.slot == |o.state.discovered| then Outcome(Fault(o.state, Undiscovered), false)
        else ConnectSlot(o.state, o.slot, id)
  }

  function ConnectSlot(t: State, slot: nat, id: Byte): (r: Outcome)
    requires slot < |t.discovered|
    ensures r.state.fifo == t.fifo
  {
    var p := AssumeReady(t.discovered[slot]);
    if !(p.valid && p.audioReady) then
      Outcome(Fault(t.(discovered := t.discovered[slot := p.(pending := true)]), AudioUnavailable), false)
    else
      var p' := p.(pending := true, disconnectRequested := false, reconnectBlocked := false);
      var t' := MarkConnected(Pending(t.(discovered := t.discovered[slot := p']), id), slot);
      Outcome(t', id in t'.connected)
  }

  predicate Involves(p: Packet, id: Byte) { p.source == id || p.target == id }

  /** The packets that do not involve id, in order. */
  function DropPeer(q: seq<Packet>, id: Byte): (r: seq<Packet>)
    ensures |r| <= |q|
  {
    if q == [] then []
    else if q[0].source == id || q[0].target == id then DropPeer(q[1..], id)
    else [q[0]] + DropPeer(q[1..], id)
  }

  function DropPackets(t: State, id: Byte): State {
    if id == 0 then t
    else
      var kept := DropPeer(t.fifo.queue, id);
      t.(fifo := t.fifo.(queue := kept, dropped := t.fifo.dropped + (|t.fifo.queue| - |kept|)))
  }

  function NoteDisconnected(t: State, slot: nat): State
    requires slot < |t.discovered|
  {
    var p := t.discovered[slot];
    t.(discovered := t.discovered[slot := p.(paired := IsRemembered(t, p.id), pending := false,
    disconnectRequested := true, reconnectBlocked := true, lastDisconnected := t.lastPoll,
    reconnectAttempts := Wrap16(p.reconnectAttempts + 1))])
  }

  function Disconnect(t: State, id: Byte): Outcome {
    if id !in t.connected then Outcome(Fault(t, NotConnected), false)
    else
      var t1 := t.(connected := RemoveFirst(t.connected, id));
      var k := Lookup(t1, id);
      var t2 := if k < |t1.discovered| then NoteDisconnected(t1, k) else t1;
      Outcome(Fine(Pending(DropPackets(t2, id), 0)), true)
  }

  function Restore(t: State, id: Byte): (r: Outcome)
    ensures r.state.fifo == t.fifo
  {
    if id == 0 then Outcome(t, false)
    else
      var r := Remember(t, id);
      if !r.ok then r
      else
        var o := Open(r.state, id);
        var t' := if o.slot == |o.state.discovered| then o.state else RestoreSlot(o.state, o.slot);
        Outcome(Fine(t'), true)
  }

  function RestoreSlot(t: State, slot: nat): State
    requires slot < |t.discovered|
  {
    t.(discovered := t.discovered[slot := t.discovered[slot].(
    paired := true, disconnectRequested := false, reconnectBlocked := false)])
  }

  /** The slots that do not hold id, in order; empty slots are kept like any other. */
  function KeepOthers(ps: seq<Peer>, id: Byte): (r: seq<Peer>)
    ensures |r| <= |ps|
  {
    if ps == [] then []
    else if Holds(ps[0], id) then KeepOthers(ps[1..], id)
    else [ps[0]] + KeepOthers(ps[1..], id)
  }

  /** Compacts the first `count` slots only, as the code does; what lies beyond them is not looked at. */
  function Compact(ps: seq<Peer>, count: nat, id: Byte): (r: seq<Peer>)
    requires count <= |ps|
    ensures |r| == |ps|
  {
    var kept := KeepOthers(ps[..count], id);
    kept + seq(count - |kept|, _ => NO_PEER) + ps[count..]
  }

  /** The slots a clear looks at. */
  function Scanned(t: State): (n: nat)
    ensures n <= |t.discovered|
    ensures t.discoveredCount <= |t.discovered| ==> n == t.discoveredCount
  {
    if t.discoveredCount <= |t.discovered| then t.discoveredCount else |t.discovered|
  }

  function ClearPairing(t: State, id: Byte): Outcome {
    if id == 0 then Outcome(t, false)
    else
      var n := Scanned(t);
      var kept := KeepOthers(t.discovered[..n], id);
      Outcome(t.(remembered := Without(t.remembered, id),
              discovered := Compact(t.discovered, n, id),
              discoveredCount := |kept|,
              status := t.status.(pendingPair := if t.status.pendingPair == id then 0 else t.status.pendingPair)),
              id in t.remembered || |kept| < n || t.status.pendingPair == id)
  }

  function Report(t: State, id: Byte, audioReady: bool): Outcome {
    if id == 0 || id == t.localId then Outcome(t, false)
    else
      var o := Open(t, id);
      if o.slot == |o.state.discovered| then Outcome(Fault(o.state, PeerLimit), false)
      else
        var p := o.state.discovered[o.slot];
        var p' := p.(audioReady := audioReady, lastSeen := t.lastPoll, paired := p.paired || IsRemembered(t, id));
        Outcome(Fine(o.state.(discovered := o.state.discovered[o.slot := p'])), true)
  }

  /** The session layer lifts both suppression flags when it tears a silent link down itself. */
  function ClearDisconnectFlags(t: State, id: Byte): State {
    var k := Find(t.discovered, id);
    if id == 0 || k == |t.discovered| then t
    else t.(discovered := t.discovered[k := t.discovered[k].(disconnectRequested := false, reconnectBlocked := false)])
  }

  // --- polling ---

  predicate Stale(t: State, p: Peer) {
    t.lastPoll >= p.lastSeen && t.lastPoll - p.lastSeen > DISCOVERY_TIMEOUT_MS
  }

  predicate Purgeable(t: State, p: Peer) {
    p.valid && p.id !in t.connected && !IsRemembered(t, p.id) && !p.pending
  }

  function Purge(t: State, slot: nat): State
    requires slot < |t.discovered|
  {
    if !Purgeable(t, t.discovered[slot]) then t
    else t.(discovered := t.discovered[slot := NO_PEER],
         discoveredCount := if t.discoveredCount > 0 then t.discoveredCount - 1 else 0)
  }

  predicate Reconnectable(t: State, p: Peer) {
    IsRemembered(t, p.id) && p.id !in t.connected && p.valid && p.audioReady && !p.reconnectBlocked
        && !p.disconnectRequested
  }

  function PollSlot(t: State, slot: nat): State
    requires slot < |t.discovered|
  {
    var p := t.discovered[slot];
    if !p.valid then t
    else if Stale(t, p) then Purge(t, slot)
    else if !Reconnectable(t, p) then t
    else Connect(t, p.id).state
  }

  function PollFrom(t: State, slot: nat): State
    requires slot <= |t.discovered|
    decreases |t.discovered| - slot
  {
    if slot == |t.discovered| then t
    else PollFrom(PollSlotSized(t, slot), slot + 1)
  }

  function PollSlotSized(t: State, slot: nat): (t': State)
    requires slot < |t.discovered|
    ensures t' == PollSlot(t, slot)
    ensures |t'.discovered| == |t.discovered| && t'.fifo == t.fifo
  {
    PollSlot(t, slot)
  }

  function Poll(t: State): State {
    if t.enabled then PollFrom(t, 0) else t
  }

  /** One host tick: the wrapper advances the transport clock, then polls. */
  function Tick(t: State): State {
    Poll(t.(lastPoll := Wrap32(t.lastPoll + POLL_TICK_MS)))
  }

  predicate Candidate(t: State, p: Peer) {
    p.valid && p.id != 0 && !p.pending && p.audioReady && p.id !in t.connected
  }

  // --- the packet queue ---

  function QueuePacket(t: State, source: Byte, target: Byte, payload: seq<Byte>, number: nat): Outcome {
    if !t.enabled || payload == [] then Outcome(t, false)
    else if source !in t.connected && target !in t.connected then
      Outcome(Fault(t, NotConnected), false)
    else if |t.fifo.queue| >= QUEUE_DEPTH then
      Outcome(t.(fifo := t.fifo.(dropped := t.fifo.dropped + 1), status := t.status.(lastError := QueueFull)), false)
    else
      var kept := if |payload| > MAX_PACKET then payload[..MAX_PACKET] else payload;
      Outcome(Fine(t.(fifo := t.fifo.(queue := t.fifo.queue + [Packet(source, target, kept, number)],
              queued := t.fifo.queued + 1, lastSource := source, lastTarget := target))), true)
  }

  function Dequeue(t: State): State
    requires t.fifo.queue != []
  {
    t.(fifo := t.fifo.(queue := t.fifo.queue[1..], delivered := t.fifo.delivered + 1,
       wire := t.fifo.wire + [t.fifo.queue[0]]))
  }

  /** What dequeuing until the queue is empty leaves. */
  function Drain(t: State): State {
    t.(fifo := t.fifo.(queue := [], delivered := t.fifo.delivered + |t.fifo.queue|,
       wire := t.fifo.wire + t.fifo.queue))
  }

  lemma DrainStep(t: State)
    ensures t.fifo.queue == [] ==> Drain(t) == t
    ensures t.fifo.queue != [] ==> Drain(Dequeue(t)) == Drain(t)
  {
    var f := t.fifo;
    if f.queue == [] {
      assert f.wire + [] == f.wire;
    } else {
      assert f.wire + f.queue == (f.wire + [f.queue[0]]) + f.queue[1..];
    }
  }
}
