/**
 The session runtime on the host as a value, and every public operation as a function on it.
 The class in Runtime.dfy performs the same operations in place.
 */
module RuntimeSpec {
  import opened Machine
  import opened Sequences
  import opened SerialWindow
  import SessionIds
  import Protocol
  import AudioFrame
  import Intercom = IntercomSpec
  import Transport = TransportSpec

  const HANDSHAKE_RETRY_MS: nat := 1000
  const KEEPALIVE_MS: nat := 1500
  const SESSION_TIMEOUT_MS: nat := 5000

  datatype LinkState = Idle | Connecting | Handshaking | Ready | Degraded

  /** `issued` is a history variable: the unbounded number behind nextTx since the last reset. No branch reads it. */
  datatype Link = Link(
    valid: bool, remembered: bool, active: bool, helloSent: bool, helloReceived: bool, id: Byte,
    session: Word32, nextTx: Word16, lastRx: Word16, lastAudio: Word16,
    lastActivity: Word32, lastHandshake: Word32, dropped: Word32, missing: Word32, state: LinkState, issued: nat)

  const NO_LINK := Link(false, false, false, false, false, 0, 0, 0, 0, 0, 0, 0, 0, 0, Idle, 0)

  function FreshLink(id: Byte): Link { NO_LINK.(valid := true, id := id, nextTx := 1, issued := 1) }

  /** The session counter; `given` is a history variable, every id given out so far in order. No branch reads it. */
  datatype Sessions = Sessions(next: Word32, given: seq<Word32>)

  datatype Stats = Stats(sent: nat, received: nat, dropped: nat)

  /** `targets` is the recorded prefix of the relay target array. */
  datatype RelayLog = RelayLog(
    targets: seq<Byte>, targetCount: nat, lastCount: nat, invocations: nat, lastSource: Byte, lastTarget: Byte)

  datatype Runtime = Runtime(
    enabled: bool, localId: Byte, now: Word32, sessions: Sessions, links: seq<Link>, connected: seq<Byte>,
    readyCount: nat, stats: Stats, relay: RelayLog, intercom: Intercom.State, transport: Transport.State)

  datatype Outcome = Outcome(rt: Runtime, ok: bool)

  function Init(intercom: Intercom.State, localId: Byte): Runtime {
    Runtime(true, localId, 0, Sessions(SessionIds.FirstId(localId), []), seq(MAX_PEERS, _ => NO_LINK), [],
            0, Stats(0, 0, 0), RelayLog([], 0, 0, 0, 0, 0), intercom, Transport.Init(localId))
  }

  predicate HasTransport(rt: Runtime) { rt.enabled && rt.transport.backendReady }

  predicate Operational(rt: Runtime) { HasTransport(rt) && rt.readyCount > 0 }

  // --- the link table ---

  predicate Owns(l: Link, id: Byte) { l.valid && l.id == id }

  function FirstOwner(links: seq<Link>, id: Byte): (k: nat)
    ensures k <= |links|
    ensures k < |links| ==> Owns(links[k], id)
    ensures forall j :: 0 <= j < k ==> !Owns(links[j], id)
  {
    if links == [] || Owns(links[0], id) then 0 else 1 + FirstOwner(links[1..], id)
  }

  function FirstFree(links: seq<Link>): (k: nat)
    ensures k <= |links|
    ensures k < |links| ==> !links[k].valid
    ensures forall j :: 0 <= j < k ==> links[j].valid
  {
    if links == [] || !links[0].valid then 0 else 1 + FirstFree(links[1..])
  }

  function FindLink(links: seq<Link>, id: Byte): (k: nat)
    ensures k <= |links|
    ensures k < |links| ==> Owns(links[k], id) && id != 0
  {
    if id == 0 then |links| else FirstOwner(links, id)
  }

  datatype Opened = Opened(links: seq<Link>, slot: nat)

  /** Finds the link of id, or claims the first free slot for it; slot == table size means there is none. */
  function OpenLink(links: seq<Link>, id: Byte): (o: Opened)
    ensures |o.links| == |links| && o.slot <= |links|
    ensures o.slot < |links| ==> Owns(o.links[o.slot], id)
    ensures forall i :: 0 <= i < |links| && i != o.slot ==> o.links[i] == links[i]
  {
    var k := FindLink(links, id);
    if k < |links| || id == 0 then Opened(links, k)
    else
      var f := FirstFree(links);
      if f == |links| then Opened(links, f) else Opened(links[f := FreshLink(id)], f)
  }

  function SetLink(rt: Runtime, k: nat, l: Link): (r: Runtime)
    requires k < |rt.links|
    ensures |r.links| == |rt.links|
  {
    rt.(links := rt.links[k := l])
  }

  function CountReady(links: seq<Link>): (n: nat)
    ensures n <= |links|
  {
    if links == [] then 0
    else (if links[0].valid && links[0].active && links[0].state == Ready then 1 else 0) + CountReady(links[1..])
  }

  function Refresh(rt: Runtime): Runtime { rt.(readyCount := CountReady(rt.links)) }

  function Sync(rt: Runtime): Runtime { rt.(connected := rt.transport.connected) }

  // --- sending ---

  function AssignSession(rt: Runtime, k: nat): (r: Runtime)
    requires k < |rt.links|
    ensures |r.links| == |rt.links|
  {
    var g := SessionIds.Generate(rt.sessions.next, rt.localId, rt.links[k].id);
    SetLink(rt, k, rt.links[k].(session := g.id)).(sessions := Sessions(g.next, rt.sessions.given + [g.id]))
  }

  /** Only a HELLO may open a session that has no id yet. */
  function EnsureSession(rt: Runtime, k: nat, kind: Byte): (r: Runtime)
    requires k < |rt.links|
    ensures |r.links| == |rt.links|
  {
    if kind == Protocol.HELLO && rt.links[k].session == 0 then AssignSession(rt, k) else rt
  }

  function Consume(l: Link): Link { l.(nextTx := Wrap16(l.nextTx + 1), issued := l.issued + 1) }

  /** The 16-bit length field keeps only the low bits of an over-long payload's length. */
  function Carried(payload: seq<Byte>): (p: Protocol.Payload)
    ensures |payload| < 0x1_0000 ==> p == payload
  {
    payload[..Wrap16(|payload|)]
  }

  function Compose(rt: Runtime, l: Link, kind: Byte, payload: seq<Byte>, flags: Word16): Protocol.Message {
    Protocol.Message(Protocol.VERSION, kind, l.session, l.nextTx, l.lastRx, rt.localId, l.id, flags, Carried(payload))
  }

  function NoteSent(l: Link, kind: Byte, now: Word32): Link {
    if kind == Protocol.HELLO || kind == Protocol.HELLO_ACK then
      l.(lastHandshake := now, helloSent := true, state := if l.state == Ready then Ready else Handshaking)
    else l
  }

  function Dropped(rt: Runtime): Runtime { rt.(stats := rt.stats.(dropped := rt.stats.dropped + 1)) }

  /** The outcome of offering an encoded message to the transport, its number already taken from the link. */
  function Offer(rt: Runtime, k: nat, kind: Byte, message: Protocol.Message, number: nat): (o: Outcome)
    requires k < |rt.links|
    ensures |o.rt.links| == |rt.links|
  {
    var l := rt.links[k];
    var q := Transport.QueuePacket(rt.transport, rt.localId, l.id, Protocol.Encode(message), number);
    var r := rt.(transport := q.state);
    if !q.ok then Outcome(Dropped(SetLink(r, k, l.(dropped := Wrap32(l.dropped + 1)))), false)
    else Outcome(SetLink(r, k, NoteSent(l, kind, rt.now)).(stats := rt.stats.(sent := rt.stats.sent + 1)), true)
  }

  /** Numbers, encodes and queues a message on the link in slot k, whose peer is connected and has a session. */
  function SendOn(rt: Runtime, k: nat, kind: Byte, payload: seq<Byte>, flags: Word16): (o: Outcome)
    requires k < |rt.links|
    ensures |o.rt.links| == |rt.links|
  {
    var l := rt.links[k];
    var message := Compose(rt, l, kind, payload, flags);
    var r := SetLink(rt, k, Consume(l));
    if !Protocol.Encodable(message) || Protocol.HEADER_BYTES + |message.payload| > Transport.MAX_PACKET
        then Outcome(r, false)
    else Offer(r, k, kind, message, l.issued)
  }

  function QueueMessage(rt: Runtime, id: Byte, kind: Byte, payload: seq<Byte>, flags: Word16): (out: Outcome)
    ensures |out.rt.links| == |rt.links|
  {
    if !HasTransport(rt) || id == 0 then Outcome(rt, false)
    else
      var o := OpenLink(rt.links, id);
      var k := o.slot;
      var r := rt.(links := o.links);
      if k == |rt.links| || id !in rt.connected then Outcome(r, false)
      else
        var r' := EnsureSession(r, k, kind);
        if kind != Protocol.HELLO && r'.links[k].session == 0 then Outcome(r', false)
        else SendOn(r', k, kind, payload, flags)
  }

  /** "pico-intercom-" and the decimal local id. */
  function Identity(localId: Byte): (b: seq<Byte>)
    ensures 15 <= |b| <= 17
  {
    [112, 105, 99, 111, 45, 105, 110, 116, 101, 114, 99, 111, 109, 45]
    + (if localId >= 100 then [48 + localId / 100] else [])
    + (if localId >= 10 then [48 + localId / 10 % 10] else [])
    + [48 + localId % 10]
  }

  function SendHello(rt: Runtime, id: Byte, kind: Byte): (o: Outcome)
    ensures |o.rt.links| == |rt.links|
  {
    QueueMessage(rt, id, kind, Identity(rt.localId), 0)
  }

  function SendError(rt: Runtime, id: Byte, code: Byte, reason: seq<Byte>): (r: Runtime)
    ensures |r.links| == |rt.links|
  {
    QueueMessage(rt, id, Protocol.ERROR, Protocol.ErrorPayload(Protocol.ERROR_BUFFER_BYTES, code, reason), 0).rt
  }

  // --- session life cycle ---

  function MarkReady(rt: Runtime, k: nat, id: Byte, session: Word32): (r: Runtime)
    requires k < |rt.links|
    ensures |r.links| == |rt.links|
  {
    var l := rt.links[k];
    var r := SetLink(rt, k, l.(valid := true, id := id, session := if session != 0 then session else l.session,
             active := true, helloReceived := true, helloSent := true, state := Ready, lastActivity := rt.now));
    Refresh(r.(intercom := Intercom.AddPeer(rt.intercom, id).state))
  }

  function ResetLink(l: Link): Link {
    l.(active := false, session := 0, helloReceived := false, helloSent := false, lastRx := 0, lastAudio := 0,
    nextTx := 1, issued := 1, state := if l.remembered then Idle else Degraded)
  }

  function NoteDisconnected(rt: Runtime, id: Byte): (r: Runtime)
    ensures |r.links| == |rt.links|
  {
    var k := FindLink(rt.links, id);
    if k == |rt.links| then rt
    else Refresh(SetLink(rt, k, ResetLink(rt.links[k])).(intercom := Intercom.RemovePeer(rt.intercom, id).state))
  }

  function Release(rt: Runtime, id: Byte): (r: Runtime)
    ensures |r.links| == |rt.links|
  {
    var k := FindLink(rt.links, id);
    if k == |rt.links| || rt.links[k].remembered then rt else SetLink(rt, k, NO_LINK)
  }

  function ReconcileSlot(rt: Runtime, k: nat): (r: Runtime)
    requires k < |rt.links|
    ensures |r.links| == |rt.links|
  {
    var l := rt.links[k];
    if !l.valid then rt
    else if l.id in rt.connected then
      if !l.active && l.state == Idle then SetLink(rt, k, l.(state := Connecting)) else rt
    else
      var r := NoteDisconnected(rt, l.id);
      if !r.links[k].remembered then Release(r, r.links[k].id) else r
  }

  function ReconcileFrom(rt: Runtime, k: nat): (r: Runtime)
    requires k <= |rt.links|
    ensures |r.links| == |rt.links|
    decreases |rt.links| - k
  {
    if k == |rt.links| then rt else ReconcileFrom(ReconcileSlot(rt, k), k + 1)
  }

  function Elapsed(now: Word32, since: Word32): Word32 { Wrap32(now - since) }

  /** Tears down a session whose peer has been silent too long and leaves the peer free to reconnect. */
  function TimeOut(rt: Runtime, k: nat): (r: Runtime)
    requires k < |rt.links|
    ensures |r.links| == |rt.links|
  {
    var l := rt.links[k];
    var r1 := Refresh(SetLink(rt, k, l.(state := Degraded, active := false)));
    var r2 := NoteDisconnected(r1, l.id);
    r2.(transport := Transport.ClearDisconnectFlags(Transport.Disconnect(r2.transport, l.id).state, l.id))
  }

  /** A connected link without a session says hello at once, and again after each retry interval. */
  function ServiceIdle(rt: Runtime, k: nat): (r: Runtime)
    requires k < |rt.links|
    ensures |r.links| == |rt.links|
  {
    var l := rt.links[k];
    if !l.helloSent || Elapsed(rt.now, l.lastHandshake) >= HANDSHAKE_RETRY_MS
    then SendHello(rt, l.id, Protocol.HELLO).rt else rt
  }

  function KeepAlive(rt: Runtime, k: nat): (r: Runtime)
    requires k < |rt.links|
    ensures |r.links| == |rt.links|
  {
    if Elapsed(rt.now, rt.links[k].lastActivity) >= KEEPALIVE_MS
    then QueueMessage(rt, rt.links[k].id, Protocol.KEEPALIVE, [], 0).rt else rt
  }

  function ServiceSession(rt: Runtime, k: nat): (r: Runtime)
    requires k < |rt.links|
    ensures |r.links| == |rt.links|
  {
    var l := rt.links[k];
    if Elapsed(rt.now, l.lastActivity) >= SESSION_TIMEOUT_MS then TimeOut(rt, k) else KeepAlive(rt, k)
  }

  function ServiceSlot(rt: Runtime, k: nat): (r: Runtime)
    requires k < |rt.links|
    ensures |r.links| == |rt.links|
  {
    var l := rt.links[k];
    if !l.valid || l.id !in rt.connected then rt
    else if !l.active then ServiceIdle(rt, k)
    else ServiceSession(rt, k)
  }

  function ServiceFrom(rt: Runtime, k: nat): (r: Runtime)
    requires k <= |rt.links|
    ensures |r.links| == |rt.links|
    decreases |rt.links| - k
  {
    if k == |rt.links| then rt else ServiceFrom(ServiceSlot(rt, k), k + 1)
  }

  function Service(rt: Runtime): (r: Runtime)
    ensures |r.links| == |rt.links|
  {
    if HasTransport(rt) then ServiceFrom(rt, 0) else rt
  }

  function Flush(rt: Runtime): Runtime { rt.(transport := Transport.Drain(rt.transport)) }

  function Ticked(rt: Runtime): Runtime {
    Sync(rt.(now := Wrap32(rt.now + Transport.POLL_TICK_MS), transport := Transport.Tick(rt.transport)))
  }

  /** One host tick: both clocks advance, the transport polls, the tables are reconciled and every link is serviced. */
  function Poll(rt: Runtime): Runtime {
    if !rt.enabled then rt
    else
      Flush(Service(ReconcileFrom(Ticked(rt), 0)))
  }

  // --- commands ---

  function SetEnabled(rt: Runtime, enabled: bool): Runtime {
    var r := rt.(enabled := enabled, transport := Transport.SetEnabled(rt.transport, enabled),
             readyCount := if enabled then rt.readyCount else 0);
    ReconcileFrom(Sync(r), 0)
  }

  function Connect(rt: Runtime, id: Byte): Outcome {
    if id == 0 || !rt.enabled then Outcome(rt, false)
    else
      var o := OpenLink(rt.links, id);
      var r := rt.(links := o.links);
      if o.slot == |rt.links| then Outcome(r, false)
      else if r.links[o.slot].active && id in rt.connected then Outcome(r, true)
      else ConnectLink(r, o.slot, id)
  }

  /** Connects the transport for the link in slot k and starts its handshake over. */
  function ConnectLink(rt: Runtime, k: nat, id: Byte): Outcome
    requires k < |rt.links|
  {
    var c := Transport.Connect(rt.transport, id);
    var r := rt.(transport := c.state);
    if !c.ok then Outcome(r, false)
    else
      var l := r.links[k].(valid := true, id := id, state := Connecting, lastHandshake := 0);
      Outcome(Sync(SetLink(r, k, l)), true)
  }

  /** A live session is told goodbye before the tables are changed. */
  function Farewell(rt: Runtime, id: Byte): (r: Runtime)
    ensures |r.links| == |rt.links|
  {
    var k := FindLink(rt.links, id);
    if k < |rt.links| && rt.links[k].active then QueueMessage(rt, id, Protocol.GOODBYE, [], 0).rt else rt
  }

  /** Takes a listed peer out of the connected list, the transport, the relay list and, unless remembered, the links. */
  function Sever(rt: Runtime, id: Byte): Runtime {
    var r1 := rt.(connected := RemoveFirst(rt.connected, id),
        transport := Transport.Disconnect(rt.transport, id).state);
    var r2 := NoteDisconnected(r1, id);
    Sync(Release(r2.(intercom := Intercom.RemovePeer(r2.intercom, id).state), id))
  }

  function Disconnect(rt: Runtime, id: Byte): Outcome {
    if id !in rt.connected then Outcome(rt, false) else Outcome(Sever(Farewell(rt, id), id), true)
  }

  function ClearPairing(rt: Runtime, id: Byte): Runtime {
    var r := if id != 0 then Disconnect(rt, id).rt else rt;
    var k := FindLink(r.links, id);
    var r' := if k < |r.links| then SetLink(r, k, NO_LINK) else r;
    r'.(transport := Transport.ClearPairing(r'.transport, id).state, readyCount := 0)
  }

  function RestorePairing(rt: Runtime, id: Byte): Outcome {
    if id == 0 then Outcome(rt, false)
    else
      var t := Transport.Restore(rt.transport, id);
      var r := rt.(transport := t.state);
      if !t.ok then Outcome(r, false)
      else
        var o := OpenLink(r.links, id);
        var r' := r.(links := o.links);
        if o.slot == |r.links| then Outcome(r', false)
        else Outcome(SetLink(r', o.slot, r'.links[o.slot].(remembered := true, state := Idle)), true)
  }

  // --- relaying audio ---

  function RecordRelay(log: RelayLog, source: Byte, target: Byte): RelayLog {
    var log' := log.(invocations := log.invocations + 1);
    if target in log.targets || |log.targets| >= MAX_PEERS then log'
    else log'.(lastSource := source, lastTarget := target, targets := log.targets + [target])
  }

  function RelayOne(rt: Runtime, source: Byte, target: Byte, payload: seq<Byte>): (r: Runtime)
    ensures |r.links| == |rt.links|
  {
    QueueMessage(rt.(relay := RecordRelay(rt.relay, source, target)), target, Protocol.AUDIO, payload, 0).rt
  }

  function RelayNext(rt: Runtime, source: Byte, target: Byte, payload: seq<Byte>): (r: Runtime)
    ensures |r.links| == |rt.links|
  {
    if target == source then rt else RelayOne(rt, source, target, payload)
  }

  /** Relays to the listed peers in order, the source excepted. */
  function RelayTo(rt: Runtime, source: Byte, peers: seq<Byte>, payload: seq<Byte>): (r: Runtime)
    ensures |r.links| == |rt.links|
    decreases |peers|
  {
    if peers == [] then rt
    else
      RelayTo(RelayNext(rt, source, peers[0], payload), source, peers[1..], payload)
  }

  function StartRelay(rt: Runtime): Runtime {
    rt.(relay := rt.relay.(targets := [], lastCount := 0, lastSource := 0, lastTarget := 0))
  }

  function Broadcast(rt: Runtime, source: Byte, payload: seq<Byte>): (r: Runtime)
    ensures |r.links| == |rt.links|
  {
    var r := StartRelay(rt);
    var relays := Intercom.Relays(rt.intercom, payload);
    var r' := if relays then RelayTo(r, source, rt.intercom.peers, payload) else r;
    var count := if relays then |Without(rt.intercom.peers, source)| else 0;
    Flush(FinishRelay(r', count))
  }

  function FinishRelay(rt: Runtime, count: nat): Runtime {
    rt.(relay := rt.relay.(lastCount := count, targetCount := |rt.relay.targets|))
  }

  /** Audio handed to the runtime from outside, without a protocol header. */
  function HandleAudio(rt: Runtime, source: Byte, payload: seq<Byte>): Runtime {
    if !HasTransport(rt) || payload == [] then rt else Broadcast(rt, source, payload)
  }

  /** A locally captured frame. */
  function LocalAudio(rt: Runtime, source: Byte, frame: AudioFrame.Frame): Outcome {
    if !Operational(rt) || !rt.intercom.enabled || !rt.intercom.pttPressed || rt.intercom.peers == []
        then Outcome(rt, false)
    else if !AudioFrame.Encodable(frame) then Outcome(rt, false)
    else
      var r := Broadcast(rt, source, AudioFrame.Encode(frame));
      Outcome(r, r.relay.lastCount > 0)
  }

  // --- receiving ---

  const REASON_DECODE: seq<Byte> := [105, 110, 118, 97, 108, 105, 100, 32, 112, 97, 99, 107, 101, 116]
  const REASON_ROUTE: seq<Byte> :=
    [112, 101, 101, 114, 32, 114, 111, 117, 116, 105, 110, 103, 32, 109, 105, 115, 109, 97, 116, 99, 104]
  const REASON_NO_ID: seq<Byte> :=
    [109, 105, 115, 115, 105, 110, 103, 32, 115, 101, 115, 115, 105, 111, 110, 32, 105, 100]
  const REASON_NOT_READY: seq<Byte> :=
    [115, 101, 115, 115, 105, 111, 110, 32, 110, 111, 116, 32, 114, 101, 97, 100, 121]

  predicate Routed(rt: Runtime, source: Byte, m: Protocol.Message) {
    m.source == source && (m.target == 0 || m.target == rt.localId)
  }

  function HandlePayload(rt: Runtime, source: Byte, bytes: seq<Byte>): Outcome {
    if !HasTransport(rt) || bytes == [] then Outcome(rt, false)
    else
      match Protocol.Decode(bytes)
      case None => Outcome(SendError(Dropped(rt), source, Protocol.DECODE_ERROR, REASON_DECODE), false)
      case Some(m) =>
        if !Routed(rt, source, m)
            then Outcome(SendError(Dropped(rt), source, Protocol.TARGET_ERROR, REASON_ROUTE), false)
        else Admit(rt, source, m)
  }

  /** Finds or makes the link of a routed message's sender. */
  function Admit(rt: Runtime, source: Byte, m: Protocol.Message): Outcome {
    var o := OpenLink(rt.links, source);
    if o.slot == |rt.links| then Outcome(Dropped(rt.(links := o.links)), false)
    else Receive(Received(rt.(links := o.links)), o.slot, m)
  }

  /** One more message received. */
  function Received(rt: Runtime): Runtime { rt.(stats := rt.stats.(received := rt.stats.received + 1)) }

  /** Runs a routed message for the link in slot k through the duplicate filter. */
  function Receive(rt: Runtime, k: nat, m: Protocol.Message): (o: Outcome)
    requires k < |rt.links|
    ensures |o.rt.links| == |rt.links|
  {
    var l := rt.links[k].(lastActivity := rt.now);
    match Judge(m.sequence, l.lastRx, m.kind == Protocol.AUDIO)
    case Advance => Dispatch(SetLink(rt, k, l.(lastRx := m.sequence)), k, m)
    case Pass => Dispatch(SetLink(rt, k, l), k, m)
    case Drop => Outcome(Dropped(SetLink(rt, k, l.(dropped := Wrap32(l.dropped + 1)))), false)
  }

  function Dispatch(rt: Runtime, k: nat, m: Protocol.Message): (o: Outcome)
    requires k < |rt.links|
    ensures |o.rt.links| == |rt.links|
  {
    if m.kind == Protocol.HELLO then ReceiveHello(rt, k, m)
    else if m.kind == Protocol.HELLO_ACK then ReceiveAck(rt, k, m)
    else if m.kind == Protocol.KEEPALIVE then ReceiveKeepalive(rt, k, m)
    else if m.kind == Protocol.AUDIO then ReceiveAudio(rt, k, m)
    else DispatchRest(rt, k, m)
  }

  function DispatchRest(rt: Runtime, k: nat, m: Protocol.Message): (o: Outcome)
    requires k < |rt.links|
    ensures |o.rt.links| == |rt.links|
  {
    if m.kind == Protocol.ERROR then Outcome(Dropped(SetLink(rt, k, rt.links[k].(state := Degraded))), false)
    else if m.kind == Protocol.GOODBYE then
      var r := NoteDisconnected(rt, m.source);
      Outcome(r.(transport := Transport.Disconnect(r.transport, m.source).state), true)
    else Outcome(Dropped(rt), false)
  }

  function ReceiveHello(rt: Runtime, k: nat, m: Protocol.Message): (o: Outcome)
    requires k < |rt.links|
    ensures |o.rt.links| == |rt.links|
  {
    if m.sessionId == 0 then
      Outcome(SendError(Dropped(rt), m.source, Protocol.SESSION_ERROR, REASON_NO_ID), false)
    else
      var l := rt.links[k].(session := m.sessionId, helloReceived := true, state := Handshaking);
      SendHello(MarkReady(SetLink(rt, k, l), k, m.source, m.sessionId), m.source, Protocol.HELLO_ACK)
  }

  function ReceiveAck(rt: Runtime, k: nat, m: Protocol.Message): (o: Outcome)
    requires k < |rt.links|
    ensures |o.rt.links| == |rt.links|
  {
    var l := rt.links[k];
    if l.session == 0 || m.sessionId != l.session then Outcome(Dropped(rt), false)
    else Outcome(MarkReady(rt, k, m.source, l.session), true)
  }

  function ReceiveKeepalive(rt: Runtime, k: nat, m: Protocol.Message): (o: Outcome)
    requires k < |rt.links|
    ensures |o.rt.links| == |rt.links|
  {
    var l := rt.links[k];
    if l.session != m.sessionId then Outcome(Dropped(rt), false)
    else Outcome(MarkReady(rt, k, m.source, l.session), true)
  }

  function ReceiveAudio(rt: Runtime, k: nat, m: Protocol.Message): (o: Outcome)
    requires k < |rt.links|
    ensures |o.rt.links| == |rt.links|
  {
    var l := rt.links[k];
    if !l.active || l.session != m.sessionId then
      Outcome(SendError(Dropped(rt), m.source, Protocol.SESSION_ERROR, REASON_NOT_READY), false)
    else
      var l' := l.(missing := Wrap32(l.missing + Gap(l.lastAudio, m.sequence)), lastAudio := m.sequence);
      var r := SetLink(rt, k, l');
      Outcome(if m.payload == [] then r else Broadcast(r, m.source, m.payload), true)
  }
}
