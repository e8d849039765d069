/** The outbound queue of the radio build, edited in place in its fixed array. */
module SendLoop {
  import opened Machine
  import opened Sequences
  import T = TransportSpec
  import Spec = SendLoopSpec
  import Removal = Transport

  /** A machine word's `++` and `--`. */
  method Increment(i: Word32) returns (r: Word32)
    ensures r == if i == 0xFFFF_FFFF then 0 else i + 1
  {
    r := Wrap32(i + 1);
  }

  method Decrement(i: Word32) returns (r: Word32)
    ensures r == if i == 0 then 0xFFFF_FFFF else i - 1
  {
    r := Wrap32(i - 1);
  }

  class Outbound {
    const packets: array<T.Packet>
    var packetCount: nat
    var packetsQueued: nat
    var packetsDelivered: nat
    var packetsDropped: nat
    var error: bool
    var lastSource: Byte
    var lastTarget: Byte
    var canSendPending: bool
    var pendingSendCid: Word16

    ghost predicate Valid()
      reads this, packets
    {
      packets.Length == T.QUEUE_DEPTH && packetCount <= T.QUEUE_DEPTH
    }

    ghost function View(): Spec.State
      requires Valid()
      reads this, packets
    {
      Spec.State(packets[..packetCount], packetsQueued, packetsDelivered, packetsDropped, error,
                 lastSource, lastTarget, canSendPending, pendingSendCid)
    }

    constructor ()
      ensures Valid() && fresh(packets) && View() == Spec.INIT
    {
      packets := new T.Packet[T.QUEUE_DEPTH](_ => T.Packet(0, 0, [], 0));
      packetCount, packetsQueued, packetsDelivered, packetsDropped := 0, 0, 0, 0;
      error, lastSource, lastTarget := false, 0, 0;
      canSendPending, pendingSendCid := false, 0;
    }

    /** Appends a packet, cut to the size of a slot, or refuses it when the queue is full. */
    method Enqueue(source: Byte, target: Byte, payload: seq<Byte>) returns (ok: bool)
      requires Valid()
      modifies this, packets
      ensures Valid() && View() == Spec.Enqueue(old(View()), source, target, payload)
      ensures ok == (payload != [] && old(packetCount) < T.QUEUE_DEPTH)
    {
      if payload == [] {
        return false;
      }
      if packetCount >= T.QUEUE_DEPTH {
        packetsDropped := packetsDropped + 1;
        return false;
      }
      var body := payload;
      if |body| > T.MAX_PACKET {
        body := body[..T.MAX_PACKET];
      }
      packets[packetCount] := T.Packet(source, target, body, packetsQueued);
      packetCount := packetCount + 1;
      packetsQueued := packetsQueued + 1;
      lastSource, lastTarget := source, target;
      return true;
    }

    /** Hands out the packet at `index` and shifts the later ones down over it. */
    method RemoveAtIndex(index: nat) returns (packet: T.Packet)
      requires Valid() && index < packetCount
      modifies this`packetCount, packets
      ensures Valid() && packet == old(packets[index])
      ensures packets[..packetCount] == RemoveAt(old(packets[..packetCount]), index)
    {
      packet := packets[index];
      ghost var was := packets[..packetCount];
      for shift := index + 1 to packetCount
        invariant packetCount == |was|
        invariant forall j :: 0 <= j < shift - 1 ==> packets[j] == RemoveAt(was, index)[j]
        invariant forall j :: shift <= j < packetCount ==> packets[j] == was[j]
      {
        packets[shift - 1] := packets[shift];
      }
      packetCount := packetCount - 1;
    }

    /** Removes every packet that involves the peer, in one pass over the array. */
    method RemoveFor(id: Byte) returns (removed: nat)
      requires Valid()
      modifies this`packetCount, packets
      ensures Valid() && packets[..packetCount] == T.DropPeer(old(packets[..packetCount]), id)
      ensures removed == old(packetCount) - packetCount
    {
      removed := 0;
      var index := 0;
      ghost var was := packets[..packetCount];
      while index < packetCount
        invariant Valid() && 0 <= index <= packetCount && packetCount + removed == |was|
        invariant Removal.Shifting(packets[..packetCount], index, id) == Removal.Shifting(was, 0, id)
        decreases packetCount - index
      {
        assert packets[index] == packets[..packetCount][index];
        if packets[index].target != id && packets[index].source != id {
          index := index + 1;
        } else {
          var dropped := RemoveAtIndex(index);
          removed := removed + 1;
        }
      }
      Removal.ShiftingIsFilter(was, 0, id);
      assert was[0..] == was;
    }

    method DropFor(id: Byte)
      requires Valid()
      modifies this`packetCount, this`packetsDropped, packets
      ensures Valid() && View() == Spec.DropFor(old(View()), id)
    {
      if id == 0 {
        return;
      }
      var removed := RemoveFor(id);
      packetsDropped := packetsDropped + removed;
    }

    /** Looks the headset of a peer up, without making an entry for it. */
    static method FindOwner(peers: seq<Spec.Backend>, id: Byte) returns (k: nat)
      ensures k == Spec.Owner(peers, id)
    {
      k := 0;
      while k < |peers|
        invariant k <= |peers|
        invariant forall j :: 0 <= j < k ==> !(peers[j].valid && peers[j].id == id)
      {
        if peers[k].valid && peers[k].id == id {
          break;
        }
        k := k + 1;
      }
      OwnerUnique(peers, id, k);
    }

    /** Asks the radio for a turn for the first packet with an open channel; `granted` is the radio's answer. */
    method Request(peers: seq<Spec.Backend>, granted: bool)
      requires Valid()
      modifies this`canSendPending, this`pendingSendCid
      ensures Valid() && View() == Spec.Request(old(View()), peers, granted)
    {
      if packetCount == 0 || canSendPending {
        return;
      }
      var index := 0;
      while index < packetCount
        invariant index <= packetCount && View() == old(View())
        invariant forall j :: 0 <= j < index ==> !Spec.Open(packets[j], peers)
      {
        var owner := FindOwner(peers, packets[index].target);
        assert packets[index] == View().queue[index];
        if owner < |peers| && peers[owner].cid != 0 {
          FirstOpenUnique(packets[..packetCount], peers, index);
          canSendPending := true;
          pendingSendCid := peers[owner].cid;
          if !granted {
            canSendPending := false;
            pendingSendCid := 0;
          }
          return;
        }
        index := index + 1;
      }
      FirstOpenUnique(packets[..packetCount], peers, index);
    }

    /** Takes the packet at `index` out as too large for its channel. */
    method Reject(index: nat, peers: seq<Spec.Backend>, granted: bool)
      requires Valid() && index < packetCount
      modifies this, packets
      ensures Valid() && View() == Spec.Reject(old(View()), index, peers, granted)
    {
      var packet := RemoveAtIndex(index);
      packetsDropped := packetsDropped + 1;
      if packetCount > 0 {
        Request(peers, granted);
      }
    }

    /** Takes the packet at `index` out as delivered. */
    method Deliver(index: nat, peers: seq<Spec.Backend>, granted: bool)
      requires Valid() && index < packetCount
      modifies this, packets
      ensures Valid() && View() == Spec.Deliver(old(View()), index, peers, granted)
    {
      var packet := RemoveAtIndex(index);
      packetsDelivered := packetsDelivered + 1;
      lastSource, lastTarget := packet.source, packet.target;
      if packetCount > 0 {
        Request(peers, granted);
      }
    }

    /** The packet at `index` has the channel: it is too large for it, fails to go, or goes. */
    method Settle(index: nat, peers: seq<Spec.Backend>, owner: nat, sent: bool, granted: bool)
        returns (offered: seq<T.Packet>)
      requires Valid() && index < packetCount && owner < |peers|
      requires owner == Spec.Owner(peers, packets[index].target)
      modifies this, packets
      ensures Valid() && Spec.Outcome(View(), offered) == Spec.Settle(old(View()), index, peers, sent, granted)
    {
      var packet := packets[index];
      assert packet == View().queue[index];
      if peers[owner].mtu != 0 && |packet.payload| > peers[owner].mtu {
        offered := [];
        Reject(index, peers, granted);
      } else if !sent {
        offered := [packet];
        error := true;
        DropFor(packet.target);
      } else {
        offered := [packet];
        Deliver(index, peers, granted);
      }
    }

    /**
     The scan of a turn up to the packet that has the channel. The index is a machine word:
     removing the packet at position 0 takes it below zero, and the loop's increment brings it back.
     */
    method Sweep(peers: seq<Spec.Backend>, cid: Word16) returns (index: Word32)
      requires Valid()
      modifies this`packetCount, this`packetsDropped, packets
      ensures Valid()
      ensures var q := old(packets[..packetCount]); var k := Spec.FirstOwned(q, peers, cid);
              var kept := Spec.Attended(q[..k], peers);
              && index == |kept| && packets[..packetCount] == kept + q[k..]
              && packetsDropped == old(packetsDropped) + (k - |kept|)
    {
      index := 0;
      ghost var was := packets[..packetCount];
      while index < packetCount
        invariant Valid() && 0 <= index <= packetCount
        invariant Sweeping(packets[..packetCount], index, peers, cid) == Sweeping(was, 0, peers, cid)
        invariant packetsDropped + packetCount == old(packetsDropped) + |was|
        decreases packetCount - index
      {
        assert packets[index] == packets[..packetCount][index];
        var owner := FindOwner(peers, packets[index].target);
        if owner == |peers| {
          var dropped := RemoveAtIndex(index);
          packetsDropped := packetsDropped + 1;
          index := Decrement(index);
        } else if peers[owner].cid == cid {
          break;
        }
        index := Increment(index);
      }
      SweepingIsFilter(was, peers, cid);
    }

    /** The sweep, seen from outside: the request is spent and the packets without a headset in front are gone. */
    method Begin(peers: seq<Spec.Backend>, cid: Word16) returns (index: Word32)
      requires Valid()
      modifies this, packets
      ensures Valid()
      ensures var was := old(View()); var k := Spec.FirstOwned(was.queue, peers, cid);
              View() == Spec.Swept(was, peers, k) && index == |Spec.Attended(was.queue[..k], peers)|
    {
      canSendPending, pendingSendCid := false, 0;
      index := Sweep(peers, cid);
    }

    /** The radio's turn for a channel: `sent` and `granted` are its answers, `offered` what it was handed. */
    method CanSendNow(peers: seq<Spec.Backend>, cid: Word16, sent: bool, granted: bool) returns (offered: seq<T.Packet>)
      requires Valid()
      modifies this, packets
      ensures Valid() && Spec.Outcome(View(), offered) == Spec.CanSend(old(View()), peers, cid, sent, granted)
    {
      ghost var was, k := View(), Spec.FirstOwned(View().queue, peers, cid);
      var index := Begin(peers, cid);
      SweptAt(was, peers, cid);
      if index == packetCount {
        return [];
      }
      assert packets[index] == View().queue[index];
      var owner := FindOwner(peers, packets[index].target);
      offered := Settle(index, peers, owner, sent, granted);
    }

    /** The radio is switched off. */
    method Disable()
      requires Valid()
      modifies this`packetCount, this`canSendPending
      ensures Valid() && View() == Spec.Disable(old(View()))
    {
      packetCount := 0;
      canSendPending := false;
    }

    /** A channel closed. */
    method Closed(id: Byte)
      requires Valid()
      modifies this, packets
      ensures Valid() && View() == Spec.Closed(old(View()), id)
    {
      canSendPending, pendingSendCid := false, 0;
      DropFor(id);
    }
  }

  lemma {:induction false} OwnerUnique(peers: seq<Spec.Backend>, id: Byte, k: nat)
    requires k <= |peers| && (k < |peers| ==> peers[k].valid && peers[k].id == id)
    requires forall j :: 0 <= j < k ==> !(peers[j].valid && peers[j].id == id)
    ensures Spec.Owner(peers, id) == k
  {
  }

  lemma {:induction false} FirstOpenUnique(q: seq<T.Packet>, peers: seq<Spec.Backend>, k: nat)
    requires k <= |q| && (k < |q| ==> Spec.Open(q[k], peers))
    requires forall j :: 0 <= j < k ==> !Spec.Open(q[j], peers)
    ensures Spec.FirstOpen(q, peers) == k
  {
  }

  /** Where the sweep stops: at the packet that has the channel, or at the end. */
  lemma SweptAt(s: Spec.State, peers: seq<Spec.Backend>, cid: Word16)
    ensures var k := Spec.FirstOwned(s.queue, peers, cid); var i := |Spec.Attended(s.queue[..k], peers)|;
            var q := Spec.Swept(s, peers, k).queue;
            i <= |q| && (i == |q| <==> k == |s.queue|) && (i < |q| ==> Spec.Owns(q[i], peers, cid))
  {
  }

  /** The scan as it runs: the queue it leaves and where it stops, once it has reached position i of q. */
  function Sweeping(q: seq<T.Packet>, i: nat, peers: seq<Spec.Backend>, cid: Word16): (seq<T.Packet>, nat)
    requires i <= |q|
    decreases |q| - i
  {
    if i == |q| then (q, i)
    else if Spec.Orphan(q[i], peers) then Sweeping(RemoveAt(q, i), i, peers, cid)
    else if Spec.Owns(q[i], peers, cid) then (q, i)
    else Sweeping(q, i + 1, peers, cid)
  }

  /** The packets kept in front of the one that has the channel. */
  function Before(q: seq<T.Packet>, peers: seq<Spec.Backend>, cid: Word16): seq<T.Packet> {
    if q == [] || Spec.Owns(q[0], peers, cid) then []
    else if Spec.Orphan(q[0], peers) then Before(q[1..], peers, cid)
    else [q[0]] + Before(q[1..], peers, cid)
  }

  /** That packet and everything behind it. */
  function From(q: seq<T.Packet>, peers: seq<Spec.Backend>, cid: Word16): seq<T.Packet> {
    if q == [] || Spec.Owns(q[0], peers, cid) then q else From(q[1..], peers, cid)
  }

  lemma {:induction false} CutAtOwned(q: seq<T.Packet>, peers: seq<Spec.Backend>, cid: Word16)
    ensures var k := Spec.FirstOwned(q, peers, cid);
            Before(q, peers, cid) == Spec.Attended(q[..k], peers) && From(q, peers, cid) == q[k..]
  {
    if q != [] && !Spec.Owns(q[0], peers, cid) {
      var k := Spec.FirstOwned(q, peers, cid);
      CutAtOwned(q[1..], peers, cid);
      assert q[..k][1..] == q[1..][..k - 1] && q[k..] == q[1..][k - 1..];
    }
  }

  lemma {:induction false} SweepingCuts(q: seq<T.Packet>, i: nat, peers: seq<Spec.Backend>, cid: Word16)
    requires i <= |q|
    ensures Sweeping(q, i, peers, cid)
            == (q[..i] + Before(q[i..], peers, cid) + From(q[i..], peers, cid), i + |Before(q[i..], peers, cid)|)
    decreases |q| - i
  {
    if i == |q| {
      assert q[i..] == [] && q == q[..i] + [] + [];
    } else if Spec.Orphan(q[i], peers) {
      SweepingCuts(RemoveAt(q, i), i, peers, cid);
      assert RemoveAt(q, i)[..i] == q[..i] && RemoveAt(q, i)[i..] == q[i..][1..];
    } else if Spec.Owns(q[i], peers, cid) {
      assert q == q[..i] + [] + q[i..];
    } else {
      SweepingCuts(q, i + 1, peers, cid);
      assert q[i + 1..] == q[i..][1..];
      JoinMiddle(q[..i], q[i], Before(q[i + 1..], peers, cid));
      assert q[..i + 1] == q[..i] + [q[i]];
    }
  }

  lemma SweepingIsFilter(q: seq<T.Packet>, peers: seq<Spec.Backend>, cid: Word16)
    ensures var k := Spec.FirstOwned(q, peers, cid); var kept := Spec.Attended(q[..k], peers);
            Sweeping(q, 0, peers, cid) == (kept + q[k..], |kept|)
  {
    SweepingCuts(q, 0, peers, cid);
    CutAtOwned(q, peers, cid);
    assert q[0..] == q && q[..0] == [];
    assert [] + Before(q, peers, cid) == Before(q, peers, cid);
  }

  lemma JoinMiddle<A>(a: seq<A>, x: A, b: seq<A>)
    ensures a + ([x] + b) == (a + [x]) + b
  {
  }
}
