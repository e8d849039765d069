/** The transport as the firmware keeps it: fixed arrays with counts, edited in place. */
module Transport {
  import opened Machine
  import opened Sequences
  import Spec = TransportSpec

  const EMPTY_PACKET := Spec.Packet(0, 0, [], 0)

  class Transport {
    const connectedPeers: array<Byte>
    const rememberedPeers: array<Byte>
    const discoveredPeers: array<Spec.Peer>
    const packets: array<Spec.Packet>
    var connectedCount: nat
    var rememberedCount: nat
    var discoveredCount: nat
    var packetCount: nat
    var enabled: bool
    var backendReady: bool
    var localId: Byte
    var lastPoll: Word32
    var error: bool
    var lastError: Spec.Error
    var pendingPair: Byte
    var packetsQueued: nat
    var packetsDelivered: nat
    var packetsDropped: nat
    var lastSource: Byte
    var lastTarget: Byte
    var wire: seq<Spec.Packet>

    ghost function Footprint(): set<object> {
      {this, connectedPeers, rememberedPeers, discoveredPeers, packets}
    }

    /** Counts stay within the arrays, and the unused tail of the connected array is cleared. */
    ghost predicate Valid()
      reads this, connectedPeers
    {
      && connectedPeers.Length == rememberedPeers.Length == discoveredPeers.Length == MAX_PEERS
      && packets.Length == Spec.QUEUE_DEPTH
      && connectedPeers != rememberedPeers
      && connectedPeers as object != discoveredPeers && connectedPeers as object != packets
      && rememberedPeers as object != discoveredPeers && rememberedPeers as object != packets
      && discoveredPeers as object != packets
      && connectedCount <= MAX_PEERS && rememberedCount <= MAX_PEERS && discoveredCount <= MAX_PEERS
      && packetCount <= Spec.QUEUE_DEPTH
      && forall i :: connectedCount <= i < MAX_PEERS ==> connectedPeers[i] == 0
    }

    ghost function View(): Spec.State
      requires Valid()
      reads this, connectedPeers, rememberedPeers, discoveredPeers, packets
    {
      Spec.State(enabled, backendReady, localId, lastPoll, Spec.Status(error, lastError, pendingPair),
                 connectedPeers[..connectedCount], rememberedPeers[..rememberedCount], discoveredPeers[..],
                     discoveredCount,
                 Spec.Fifo(packets[..packetCount], packetsQueued, packetsDelivered, packetsDropped, lastSource,
                           lastTarget, wire))
    }

    constructor (id: Byte)
      ensures Valid() && fresh(Footprint()) && View() == Spec.Init(id)
    {
      connectedPeers := new Byte[MAX_PEERS](_ => 0);
      rememberedPeers := new Byte[MAX_PEERS](_ => 0);
      discoveredPeers := new Spec.Peer[MAX_PEERS](_ => Spec.NO_PEER);
      packets := new Spec.Packet[Spec.QUEUE_DEPTH](_ => EMPTY_PACKET);
      connectedCount, rememberedCount, discoveredCount, packetCount := 0, 0, 0, 0;
      enabled, backendReady := true, true;
      localId := if id != 0 then id else 1;
      lastPoll := 0;
      error, lastError, pendingPair := false, Spec.NoError, 0;
      packetsQueued, packetsDelivered, packetsDropped := 0, 0, 0;
      lastSource, lastTarget, wire := 0, 0, [];
      new;
      assert discoveredPeers[..] == seq(MAX_PEERS, _ => Spec.NO_PEER);
    }

    method SetEnabled(on: bool)
      requires Valid()
      modifies this
      ensures Valid() && View() == Spec.SetEnabled(old(View()), on)
    {
      enabled := on;
      error := false;
      backendReady := on;
      if !on {
        pendingPair := 0;
      }
    }

    // --- outcome flags ---

    method Fault(e: Spec.Error)
      requires Valid()
      modifies this`error, this`lastError
      ensures Valid() && View() == Spec.Fault(old(View()), e)
    {
      error := true;
      lastError := e;
    }

    method Fine()
      requires Valid()
      modifies this`lastError
      ensures Valid() && View() == Spec.Fine(old(View()))
    {
      lastError := Spec.NoError;
    }

    method SetPending(id: Byte)
      requires Valid()
      modifies this`pendingPair
      ensures Valid() && View() == Spec.Pending(old(View()), id)
    {
      pendingPair := id;
    }

    // --- searching ---

    method FindConnectedIndex(id: Byte) returns (k: nat)
      requires Valid()
      ensures k == IndexOf(View().connected, id)
    {
      k := 0;
      while k < connectedCount
        invariant 0 <= k <= connectedCount
        invariant forall j :: 0 <= j < k ==> connectedPeers[j] != id
      {
        if connectedPeers[k] == id {
          return;
        }
        k := k + 1;
      }
    }

    method HasPeer(id: Byte) returns (b: bool)
      requires Valid()
      ensures b == (id in View().connected)
    {
      var k := FindConnectedIndex(id);
      b := k < connectedCount;
    }

    method IsRemembered(id: Byte) returns (b: bool)
      requires Valid()
      ensures b == Spec.IsRemembered(View(), id)
    {
      if id == 0 {
        return false;
      }
      for k := 0 to rememberedCount
        invariant forall j :: 0 <= j < k ==> rememberedPeers[j] != id
      {
        if rememberedPeers[k] == id {
          assert id in rememberedPeers[..rememberedCount];
          return true;
        }
      }
      b := false;
    }

    method FindDiscoveredIndex(id: Byte) returns (k: nat)
      requires Valid()
      ensures k == Spec.Find(View().discovered, id)
    {
      k := 0;
      while k < MAX_PEERS
        invariant 0 <= k <= MAX_PEERS
        invariant forall j :: 0 <= j < k ==> !Spec.Holds(discoveredPeers[j], id)
      {
        if discoveredPeers[k].valid && discoveredPeers[k].id == id {
          break;
        }
        k := k + 1;
      }
      FindUnique(discoveredPeers[..], id, k);
    }

    // --- one slot at a time ---

    method SetSlot(k: nat, p: Spec.Peer)
      requires Valid() && k < MAX_PEERS
      modifies discoveredPeers
      ensures Valid() && View() == old(View()).(discovered := old(View().discovered)[k := p])
    {
      discoveredPeers[k] := p;
      assert discoveredPeers[..] == old(discoveredPeers[..])[k := p];
    }

    /** Looks an entry up and, when asked to, claims the first free slot for a missing one. */
    method GetDiscovered(id: Byte, create: bool) returns (k: nat)
      requires Valid()
      modifies this`discoveredCount, discoveredPeers
      ensures Valid()
      ensures !create ==> View() == old(View()) && k == Spec.Lookup(old(View()), id)
      ensures create ==> Spec.Opened(View(), k) == Spec.Open(old(View()), id)
    {
      if id == 0 || id == localId {
        return MAX_PEERS;
      }
      var found := FindDiscoveredIndex(id);
      if found < MAX_PEERS || !create {
        return found;
      }
      k := 0;
      while k < MAX_PEERS
        invariant 0 <= k <= MAX_PEERS
        invariant forall j :: 0 <= j < k ==> discoveredPeers[j].valid
        invariant Valid() && View() == old(View())
      {
        if !discoveredPeers[k].valid {
          FreeUnique(discoveredPeers[..], k);
          SetSlot(k, Spec.NO_PEER.(valid := true, id := id));
          if discoveredCount < MAX_PEERS {
            discoveredCount := discoveredCount + 1;
          }
          return;
        }
        k := k + 1;
      }
      FreeUnique(discoveredPeers[..], k);
    }

    method RememberPeer(id: Byte) returns (ok: bool)
      requires Valid()
      modifies this, rememberedPeers
      ensures Valid() && Spec.Outcome(View(), ok) == Spec.Remember(old(View()), id)
    {
      if id == 0 {
        return false;
      }
      var known := IsRemembered(id);
      if known {
        return true;
      }
      if rememberedCount >= MAX_PEERS {
        Fault(Spec.PeerLimit);
        return false;
      }
      rememberedPeers[rememberedCount] := id;
      rememberedCount := rememberedCount + 1;
      assert rememberedPeers[..rememberedCount] == old(rememberedPeers[..rememberedCount]) + [id];
      ok := true;
    }

    method MarkConnected(k: nat)
      requires Valid() && k < MAX_PEERS
      modifies this, connectedPeers, discoveredPeers
      ensures Valid() && View() == Spec.MarkConnected(old(View()), k)
    {
      var p := discoveredPeers[k];
      SetSlot(k, p.(paired := true, pending := false, lastConnected := lastPoll));
      var listed := HasPeer(p.id);
      if listed {
        SetPending(0);
        Fine();
        return;
      }
      if connectedCount >= MAX_PEERS {
        Fault(Spec.PeerLimit);
        return;
      }
      Enlist(p.id);
      SetPending(0);
      Fine();
    }

    method Enlist(id: Byte)
      requires Valid() && connectedCount < MAX_PEERS
      modifies this`connectedCount, connectedPeers
      ensures Valid() && View() == old(View()).(connected := old(View()).connected + [id])
    {
      connectedPeers[connectedCount] := id;
      connectedCount := connectedCount + 1;
      assert connectedPeers[..connectedCount] == old(connectedPeers[..connectedCount]) + [id];
    }

    method Purge(k: nat)
      requires Valid() && k < MAX_PEERS
      modifies this`discoveredCount, discoveredPeers
      ensures Valid() && View() == Spec.Purge(old(View()), k)
    {
      var p := discoveredPeers[k];
      var listed := HasPeer(p.id);
      var remembered := IsRemembered(p.id);
      if !p.valid || listed || remembered || p.pending {
        return;
      }
      SetSlot(k, Spec.NO_PEER);
      if discoveredCount > 0 {
        discoveredCount := discoveredCount - 1;
      }
    }

    /** Shifts every packet that involves the peer out of the queue, in place. */
    method RemovePackets(id: Byte) returns (removed: nat)
      requires Valid()
      modifies this`packetCount, packets
      ensures Valid() && packets[..packetCount] == Spec.DropPeer(old(packets[..packetCount]), id)
      ensures removed == old(packetCount) - packetCount
    {
      removed := 0;
      var index := 0;
      ghost var was := packets[..packetCount];
      while index < packetCount
        invariant Valid() && 0 <= index <= packetCount && packetCount + removed == |was|
        invariant Shifting(packets[..packetCount], index, id) == Shifting(was, 0, id)
        decreases packetCount - index
      {
        assert packets[index] == packets[..packetCount][index];
        if packets[index].source != id && packets[index].target != id {
          index := index + 1;
        } else {
          ShiftOut(index);
          removed := removed + 1;
        }
      }
      ShiftingIsFilter(was, 0, id);
      assert was[0..] == was;
    }

    method DropPackets(id: Byte)
      requires Valid()
      modifies this`packetCount, this`packetsDropped, packets
      ensures Valid() && View() == Spec.DropPackets(old(View()), id)
    {
      if id == 0 {
        return;
      }
      var removed := RemovePackets(id);
      packetsDropped := packetsDropped + removed;
    }

    /** Moves the packets after `index` one place down and forgets the last. */
    method ShiftOut(index: nat)
      requires Valid() && index < packetCount
      modifies this`packetCount, packets
      ensures Valid() && packets[..packetCount] == RemoveAt(old(packets[..packetCount]), index)
    {
      ghost var was := packets[..packetCount];
      for shift := index + 1 to packetCount
        invariant packetCount == |was|
        invariant forall j :: 0 <= j < shift - 1 ==> packets[j] == RemoveAt(was, index)[j]
        invariant forall j :: shift <= j < packetCount ==> packets[j] == was[j]
      {
        packets[shift - 1] := packets[shift];
      }
      packetCount := packetCount - 1;
    }

    // --- connecting and disconnecting ---

    method Connect(id: Byte) returns (ok: bool)
      requires Valid()
      modifies this, connectedPeers, rememberedPeers, discoveredPeers
      ensures Valid() && Spec.Outcome(View(), ok) == Spec.Connect(old(View()), id)
    {
      if !enabled || id == 0 {
        return false;
      }
      var remembered := RememberPeer(id);
      if !remembered {
        return false;
      }
      var listed := HasPeer(id);
      if listed {
        Fine();
        return true;
      }
      var k := GetDiscovered(id, true);
      if k == MAX_PEERS {
        Fault(Spec.Undiscovered);
        return false;
      }
      ok := ConnectSlot(k, id);
    }

    method ConnectSlot(k: nat, id: Byte) returns (ok: bool)
      requires Valid() && k < MAX_PEERS
      modifies this, connectedPeers, discoveredPeers
      ensures Valid() && Spec.Outcome(View(), ok) == Spec.ConnectSlot(old(View()), k, id)
    {
      var p := discoveredPeers[k];
      if !p.audioReady && p.lastSeen == 0 && !p.pending {
        p := p.(audioReady := true);
      }
      if !(p.valid && p.audioReady) {
        SetSlot(k, p.(pending := true));
        Fault(Spec.AudioUnavailable);
        return false;
      }
      ConnectReady(k, id, p);
      ok := HasPeer(id);
    }

    /** Marks the slot of a peer that is ready for audio, freed of its suppression, as connected. */
    method ConnectReady(k: nat, id: Byte, p: Spec.Peer)
      requires Valid() && k < MAX_PEERS
      modifies this, connectedPeers, discoveredPeers
      ensures Valid()
      ensures var was := old(View());
              var p' := p.(pending := true, disconnectRequested := false, reconnectBlocked := false);
              View() == Spec.MarkConnected(Spec.Pending(was.(discovered := was.discovered[k := p']), id), k)
    {
      SetSlot(k, p.(pending := true, disconnectRequested := false, reconnectBlocked := false));
      SetPending(id);
      MarkConnected(k);
    }

    /** Shifts the peer at `index` out of the connected array and clears the freed tail slot. */
    method Unlist(index: nat)
      requires Valid() && index < connectedCount
      modifies this`connectedCount, connectedPeers
      ensures Valid() && View() == old(View()).(connected := RemoveAt(old(View()).connected, index))
    {
      ghost var was := connectedPeers[..connectedCount];
      for shift := index + 1 to connectedCount
        invariant connectedCount == |was| && Valid()
        invariant forall j :: 0 <= j < shift - 1 ==> connectedPeers[j] == RemoveAt(was, index)[j]
        invariant forall j :: shift <= j < connectedCount ==> connectedPeers[j] == was[j]
      {
        connectedPeers[shift - 1] := connectedPeers[shift];
      }
      connectedCount := connectedCount - 1;
      connectedPeers[connectedCount] := 0;
      assert connectedPeers[..connectedCount] == RemoveAt(was, index);
    }

    method Disconnect(id: Byte) returns (ok: bool)
      requires Valid()
      modifies this, connectedPeers, discoveredPeers, packets
      ensures Valid() && Spec.Outcome(View(), ok) == Spec.Disconnect(old(View()), id)
    {
      var index := FindConnectedIndex(id);
      if index >= connectedCount {
        Fault(Spec.NotConnected);
        return false;
      }
      Unlist(index);
      var k := GetDiscovered(id, false);
      if k < MAX_PEERS {
        NoteDisconnected(k);
      }
      DropPackets(id);
      SetPending(0);
      Fine();
      ok := true;
    }

    method NoteDisconnected(k: nat)
      requires Valid() && k < MAX_PEERS
      modifies discoveredPeers
      ensures Valid() && View() == Spec.NoteDisconnected(old(View()), k)
    {
      var p := discoveredPeers[k];
      var remembered := IsRemembered(p.id);
      SetSlot(k, p.(paired := remembered, pending := false, disconnectRequested := true, reconnectBlocked := true,
      lastDisconnected := lastPoll, reconnectAttempts := Wrap16(p.reconnectAttempts + 1)));
    }

    method RestorePairing(id: Byte) returns (ok: bool)
      requires Valid()
      modifies this, rememberedPeers, discoveredPeers
      ensures Valid() && Spec.Outcome(View(), ok) == Spec.Restore(old(View()), id)
    {
      if id == 0 {
        return false;
      }
      var remembered := RememberPeer(id);
      if !remembered {
        return false;
      }
      var k := GetDiscovered(id, true);
      if k < MAX_PEERS {
        SetSlot(k, discoveredPeers[k].(paired := true, disconnectRequested := false, reconnectBlocked := false));
      }
      Fine();
      ok := true;
    }

    // --- clearing a pairing ---

    /** Copies a remembered peer down over the gap, unless it is in place already. */
    method MoveDown(kept: nat, index: nat)
      requires rememberedPeers.Length == MAX_PEERS && kept <= index < MAX_PEERS
      modifies rememberedPeers
      ensures rememberedPeers[..kept + 1] == old(rememberedPeers[..kept]) + [old(rememberedPeers[index])]
      ensures forall j :: index < j < MAX_PEERS ==> rememberedPeers[j] == old(rememberedPeers[j])
    {
      if kept != index {
        rememberedPeers[kept] := rememberedPeers[index];
      }
    }

    /** Closes the gap a forgotten peer leaves among the remembered ones. */
    method Forget(id: Byte) returns (changed: bool)
      requires Valid()
      modifies this`rememberedCount, rememberedPeers
      ensures Valid() && View() == old(View()).(remembered := Without(old(View()).remembered, id))
      ensures changed == (id in old(View()).remembered)
    {
      changed, rememberedCount := KeepRemembered(id);
    }

    method KeepRemembered(id: Byte) returns (changed: bool, kept: nat)
      requires Valid()
      modifies rememberedPeers
      ensures kept <= rememberedCount && rememberedPeers[..kept] == Without(old(rememberedPeers[..rememberedCount]), id)
      ensures changed == (id in old(rememberedPeers[..rememberedCount]))
    {
      changed, kept := false, 0;
      ghost var was := rememberedPeers[..rememberedCount];
      for index := 0 to rememberedCount
        invariant rememberedCount == |was| && 0 <= kept <= index
        invariant rememberedPeers[..kept] == Without(was[..index], id)
        invariant forall j :: index <= j < |was| ==> rememberedPeers[j] == was[j]
        invariant changed == (id in was[..index])
      {
        WithoutOneMore(was, index, id);
        if rememberedPeers[index] == id {
          changed := true;
        } else {
          MoveDown(kept, index);
          kept := kept + 1;
        }
      }
      assert was[..|was|] == was;
    }

    /** Moves the entries that stay to the front, over the first discoveredCount slots. */
    method Gather(id: Byte) returns (changed: bool, kept: nat)
      requires Valid()
      modifies discoveredPeers
      ensures Valid() && kept <= discoveredCount
      ensures discoveredPeers[..kept] == Spec.KeepOthers(old(discoveredPeers[..discoveredCount]), id)
      ensures discoveredPeers[discoveredCount..] == old(discoveredPeers[discoveredCount..])
      ensures changed == (kept < discoveredCount)
    {
      changed, kept := false, 0;
      ghost var was := discoveredPeers[..];
      for index := 0 to discoveredCount
        invariant 0 <= kept <= index && changed == (kept < index)
        invariant discoveredPeers[..kept] == Spec.KeepOthers(was[..index], id)
        invariant forall j :: index <= j < MAX_PEERS ==> discoveredPeers[j] == was[j]
      {
        KeepOneMore(was, index, id);
        if discoveredPeers[index].valid && discoveredPeers[index].id == id {
          changed := true;
        } else {
          ghost var before := discoveredPeers[..kept];
          if kept != index {
            discoveredPeers[kept] := discoveredPeers[index];
          }
          assert discoveredPeers[..kept + 1] == before + [was[index]];
          kept := kept + 1;
        }
      }
    }

    method ForgetEntry(id: Byte) returns (changed: bool)
      requires Valid()
      modifies this`discoveredCount, discoveredPeers
      ensures Valid()
      ensures var was := old(View());
              && View() == was.(discovered := Spec.Compact(was.discovered, Spec.Scanned(was), id),
                           discoveredCount := |Spec.KeepOthers(was.discovered[..Spec.Scanned(was)], id)|)
              && changed == (View().discoveredCount < was.discoveredCount)
    {
      ghost var was := discoveredPeers[..];
      var count := discoveredCount;
      var kept;
      changed, kept := Gather(id);
      ghost var front := discoveredPeers[..kept];
      for index := kept to count
        invariant discoveredCount == count && discoveredPeers[..kept] == front
        invariant forall j :: kept <= j < index ==> discoveredPeers[j] == Spec.NO_PEER
        invariant discoveredPeers[count..] == was[count..]
      {
        discoveredPeers[index] := Spec.NO_PEER;
      }
      assert was[..count] == old(discoveredPeers[..discoveredCount]);
      assert discoveredPeers[..] == front + seq(count - kept, _ => Spec.NO_PEER) + was[count..];
      discoveredCount := kept;
    }

    method ClearPairing(id: Byte) returns (changed: bool)
      requires Valid()
      modifies this, rememberedPeers, discoveredPeers
      ensures Valid() && Spec.Outcome(View(), changed) == Spec.ClearPairing(old(View()), id)
    {
      if id == 0 {
        return false;
      }
      var forgot := Forget(id);
      var dropped := ForgetEntry(id);
      changed := forgot || dropped;
      if pendingPair == id {
        pendingPair := 0;
        changed := true;
      }
    }

    // --- reports and polling ---

    method ReportPeer(id: Byte, audioReady: bool) returns (ok: bool)
      requires Valid()
      modifies this, discoveredPeers
      ensures Valid() && Spec.Outcome(View(), ok) == Spec.Report(old(View()), id, audioReady)
    {
      if id == 0 || id == localId {
        return false;
      }
      var k := GetDiscovered(id, true);
      if k == MAX_PEERS {
        Fault(Spec.PeerLimit);
        return false;
      }
      var p := discoveredPeers[k];
      var remembered := IsRemembered(id);
      SetSlot(k, p.(audioReady := audioReady, lastSeen := lastPoll, paired := p.paired || remembered));
      Fine();
      ok := true;
    }

    /** Lifts both suppression flags of the peer's entry. */
    method ClearDisconnectFlags(id: Byte)
      requires Valid()
      modifies discoveredPeers
      ensures Valid() && View() == Spec.ClearDisconnectFlags(old(View()), id)
    {
      if id == 0 {
        return;
      }
      var k := FindDiscoveredIndex(id);
      if k < MAX_PEERS {
        SetSlot(k, discoveredPeers[k].(disconnectRequested := false, reconnectBlocked := false));
      }
    }

    method PollSlot(k: nat)
      requires Valid() && k < MAX_PEERS
      modifies this, connectedPeers, rememberedPeers, discoveredPeers
      ensures Valid() && View() == Spec.PollSlot(old(View()), k)
    {
      var p := discoveredPeers[k];
      if !p.valid {
        return;
      }
      if lastPoll >= p.lastSeen && lastPoll - p.lastSeen > Spec.DISCOVERY_TIMEOUT_MS {
        Purge(k);
        return;
      }
      var remembered := IsRemembered(p.id);
      var listed := HasPeer(p.id);
      if !remembered || listed || !p.audioReady || p.reconnectBlocked || p.disconnectRequested {
        return;
      }
      var _ := Connect(p.id);
    }

    method Poll() returns (ready: bool)
      requires Valid()
      modifies this, connectedPeers, rememberedPeers, discoveredPeers
      ensures Valid() && View() == Spec.Poll(old(View()))
      ensures ready == (old(enabled) && View().backendReady)
    {
      if !enabled {
        return false;
      }
      ghost var was := View();
      for k := 0 to MAX_PEERS
        invariant Valid() && Spec.PollFrom(View(), k) == Spec.PollFrom(was, 0)
      {
        PollSlot(k);
      }
      ready := backendReady;
    }

    /** The host wrapper's tick: the clock advances by a tick before polling. */
    method Tick()
      requires Valid()
      modifies this, connectedPeers, rememberedPeers, discoveredPeers
      ensures Valid() && View() == Spec.Tick(old(View()))
    {
      lastPoll := Wrap32(lastPoll + Spec.POLL_TICK_MS);
      var _ := Poll();
    }

    /** The first discovered peer that could be paired with now. */
    method SelectPairingCandidate() returns (r: Option<Byte>)
      requires Valid()
      ensures match r
              case Some(id) => exists k ::
                  0 <= k < MAX_PEERS && Spec.Candidate(View(), discoveredPeers[k]) && discoveredPeers[k].id == id
                                           && forall j :: 0 <= j < k ==> !Spec.Candidate(View(), discoveredPeers[j])
              case None => forall k :: 0 <= k < MAX_PEERS ==> !Spec.Candidate(View(), discoveredPeers[k])
    {
      for k := 0 to MAX_PEERS
        invariant forall j :: 0 <= j < k ==> !Spec.Candidate(View(), discoveredPeers[j])
      {
        var p := discoveredPeers[k];
        var listed := HasPeer(p.id);
        if p.valid && p.id != 0 && !p.pending && p.audioReady && !listed {
          return Some(p.id);
        }
      }
      r := None;
    }

    // --- the packet queue ---

    method QueuePacket(source: Byte, target: Byte, payload: seq<Byte>, number: nat) returns (ok: bool)
      requires Valid()
      modifies this, packets
      ensures Valid() && Spec.Outcome(View(), ok) == Spec.QueuePacket(old(View()), source, target, payload, number)
    {
      if !enabled || payload == [] {
        return false;
      }
      var fromListed := HasPeer(source);
      var toListed := HasPeer(target);
      if !fromListed && !toListed {
        Fault(Spec.NotConnected);
        return false;
      }
      if packetCount >= Spec.QUEUE_DEPTH {
        packetsDropped := packetsDropped + 1;
        lastError := Spec.QueueFull;
        return false;
      }
      var kept := if |payload| > Spec.MAX_PACKET then payload[..Spec.MAX_PACKET] else payload;
      Append(Spec.Packet(source, target, kept, number));
      Fine();
      ok := true;
    }

    method Append(p: Spec.Packet)
      requires Valid() && packetCount < Spec.QUEUE_DEPTH
      modifies this`packetCount, this`packetsQueued, this`lastSource, this`lastTarget, packets
      ensures Valid()
      ensures var f := old(View()).fifo;
              View() == old(View()).(fifo := f.(queue := f.queue + [p], queued := f.queued + 1,
                                     lastSource := p.source, lastTarget := p.target))
    {
      packets[packetCount] := p;
      packetCount := packetCount + 1;
      assert packets[..packetCount] == old(packets[..packetCount]) + [p];
      packetsQueued := packetsQueued + 1;
      lastSource, lastTarget := p.source, p.target;
    }

    method DequeuePacket() returns (r: Option<Spec.Packet>)
      requires Valid()
      modifies this, packets
      ensures Valid()
      ensures old(View()).fifo.queue == [] ==> r == None && View() == old(View())
      ensures old(View()).fifo.queue != [] ==>
              r == Some(old(View()).fifo.queue[0]) && View() == Spec.Dequeue(old(View()))
    {
      if packetCount == 0 {
        return None;
      }
      r := Some(packets[0]);
      DropFront();
      wire := wire + [r.value];
      packetsDelivered := packetsDelivered + 1;
    }

    method DropFront()
      requires Valid() && packetCount > 0
      modifies this`packetCount, packets
      ensures Valid()
      ensures var f := old(View()).fifo; View() == old(View()).(fifo := f.(queue := f.queue[1..]))
    {
      RemoveFront(packets[..packetCount]);
      ShiftOut(0);
    }
  }

  // --- the search functions are determined by what they find ---

  lemma {:induction false} FindUnique(ps: seq<Spec.Peer>, id: Byte, k: nat)
    requires k <= |ps| && (k < |ps| ==> Spec.Holds(ps[k], id)) && forall j :: 0 <= j < k ==> !Spec.Holds(ps[j], id)
    ensures Spec.Find(ps, id) == k
  {
  }

  lemma {:induction false} FreeUnique(ps: seq<Spec.Peer>, k: nat)
    requires k <= |ps| && (k < |ps| ==> !ps[k].valid) && forall j :: 0 <= j < k ==> ps[j].valid
    ensures Spec.FindFree(ps) == k
  {
  }

  /** The in-place removal as it runs: what is left of q when the loop has reached position i. */
  function Shifting(q: seq<Spec.Packet>, i: nat, id: Byte): seq<Spec.Packet>
    requires i <= |q|
    decreases |q| - i
  {
    if i == |q| then q
    else if Spec.Involves(q[i], id) then Shifting(RemoveAt(q, i), i, id)
    else Shifting(q, i + 1, id)
  }

  lemma {:induction false} ShiftingIsFilter(q: seq<Spec.Packet>, i: nat, id: Byte)
    requires i <= |q|
    ensures Shifting(q, i, id) == q[..i] + Spec.DropPeer(q[i..], id)
    decreases |q| - i
  {
    if i == |q| {
      assert q[i..] == [] && q[..i] == q;
    } else if Spec.Involves(q[i], id) {
      ShiftingIsFilter(RemoveAt(q, i), i, id);
      assert RemoveAt(q, i)[..i] == q[..i] && RemoveAt(q, i)[i..] == q[i..][1..];
    } else {
      ShiftingIsFilter(q, i + 1, id);
      assert q[..i + 1] == q[..i] + [q[i]] && q[i..][1..] == q[i + 1..];
    }
  }

  lemma {:induction false} KeepOneMore(ps: seq<Spec.Peer>, k: nat, id: Byte)
    requires k < |ps|
    ensures Spec.KeepOthers(ps[..k + 1], id) == Spec.KeepOthers(ps[..k], id) + if Spec.Holds(ps[k], id) then []
            else [ps[k]]
  {
    if k > 0 {
      assert ps[..k + 1][1..] == ps[1..][..k] && ps[..k][1..] == ps[1..][..k - 1];
      KeepOneMore(ps[1..], k - 1, id);
    }
  }
}
