/** The relay list as the firmware keeps it: an eight-slot array and a count. */
module Intercom {
  import opened Machine
  import opened Sequences
  import Spec = IntercomSpec

  class Intercom {
    const peers: array<Byte>
    var count: nat
    var enabled: bool
    var pttPressed: bool

    ghost predicate Valid()
      reads this
    {
      peers.Length == MAX_PEERS && count <= MAX_PEERS
    }

    ghost function View(): Spec.State
      requires Valid()
      reads this, peers
    {
      Spec.State(peers[..count], enabled, pttPressed)
    }

    constructor ()
      ensures Valid() && fresh(peers) && View() == Spec.INITIAL
    {
      peers := new Byte[MAX_PEERS](_ => 0);
      count := 0;
      enabled, pttPressed := true, true;
    }

    method Enable(on: bool)
      requires Valid()
      modifies this`enabled
      ensures Valid() && View() == old(View()).(enabled := on)
    {
      enabled := on;
    }

    method SetPtt(pressed: bool)
      requires Valid()
      modifies this`pttPressed
      ensures Valid() && View() == old(View()).(pttPressed := pressed)
    {
      pttPressed := pressed;
    }

    method FindPeerIndex(id: Byte) returns (k: nat)
      requires Valid()
      ensures k == IndexOf(View().peers, id)
    {
      k := 0;
      while k < count
        invariant 0 <= k <= count
        invariant forall j :: 0 <= j < k ==> peers[j] != id
      {
        if peers[k] == id {
          return;
        }
        k := k + 1;
      }
    }

    method AddPeer(id: Byte) returns (ok: bool)
      requires Valid()
      modifies this`count, peers
      ensures Valid() && Spec.Outcome(View(), ok) == Spec.AddPeer(old(View()), id)
    {
      if count >= MAX_PEERS {
        return false;
      }
      var k := FindPeerIndex(id);
      if k < count {
        return true;
      }
      peers[count] := id;
      count := count + 1;
      assert peers[..count] == old(peers[..count]) + [id];
      ok := true;
    }

    method RemovePeer(id: Byte) returns (ok: bool)
      requires Valid()
      modifies this`count, peers
      ensures Valid() && Spec.Outcome(View(), ok) == Spec.RemovePeer(old(View()), id)
    {
      var k := FindPeerIndex(id);
      if k >= count {
        return false;
      }
      ghost var was := peers[..count];
      for shift := k + 1 to count
        invariant count == |was|
        invariant forall j :: 0 <= j < shift - 1 ==> peers[j] == RemoveAt(was, k)[j]
        invariant forall j :: shift <= j < count ==> peers[j] == was[j]
      {
        peers[shift - 1] := peers[shift];
      }
      count := count - 1;
      assert peers[..count] == RemoveAt(was, k);
      ok := true;
    }
  }
}
