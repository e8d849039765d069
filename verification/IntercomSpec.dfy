/** The relay list of the intercom as a value. */
module IntercomSpec {
  import opened Machine
  import opened Sequences

  /** `peers` is the filled prefix of the eight-slot array. */
  datatype State = State(peers: seq<Byte>, enabled: bool, pttPressed: bool)

  const INITIAL := State([], true, true)

  datatype Outcome = Outcome(state: State, ok: bool)

  /** A full list refuses even a peer it already holds. */
  function AddPeer(s: State, id: Byte): Outcome {
    if |s.peers| >= MAX_PEERS then Outcome(s, false)
    else if id in s.peers then Outcome(s, true)
    else Outcome(s.(peers := s.peers + [id]), true)
  }

  function RemovePeer(s: State, id: Byte): Outcome {
    if id !in s.peers then Outcome(s, false)
    else Outcome(s.(peers := RemoveFirst(s.peers, id)), true)
  }

  /** Whether a payload offered for rebroadcast goes out at all. */
  predicate Relays(s: State, payload: seq<Byte>) { s.enabled && s.pttPressed && payload != [] }

  /** Adding succeeds exactly while the list is not full; then the peer is in it once, behind the others. */
  lemma AddPeerOutcome(s: State, id: Byte)
    ensures var a := AddPeer(s, id);
            && (a.ok <==> |s.peers| < 8)
            && a.state == s.(peers := a.state.peers)
            && (forall x :: x in a.state.peers <==> x in s.peers || (a.ok && x == id))
            && s.peers <= a.state.peers && |a.state.peers| <= |s.peers| + 1
            && (NoDup(s.peers) ==> NoDup(a.state.peers))
  {
    if |s.peers| < 8 && id !in s.peers && NoDup(s.peers) { AppendKeepsNoDup(s.peers, id); }
  }

  /** Removing succeeds exactly for a listed peer, and takes only that peer out. */
  lemma RemovePeerOutcome(s: State, id: Byte)
    requires NoDup(s.peers)
    ensures var r := RemovePeer(s, id);
            && (r.ok <==> id in s.peers)
            && r.state == s.(peers := r.state.peers) && NoDup(r.state.peers)
            && (forall x :: x in r.state.peers <==> x in s.peers && x != id)
  {
    RemoveFirstMembers(s.peers, id);
  }
}
