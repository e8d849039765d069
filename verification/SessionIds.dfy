/** Locally generated session ids: a counter with the local peer id on top and the target mixed into the third byte. */
module SessionIds {
  import opened Machine
  import opened Bitwise

  function FirstId(localId: Byte): Word32 { localId * 0x100_0000 + 1 }

  datatype Generated = Generated(id: Word32, next: Word32)

  function Generate(next: Word32, localId: Byte, peer: Byte): (g: Generated)
    ensures g.id != 0
  {
    var counter := if next == 0 then FirstId(localId) else next;
    var id := Xor32(counter, peer * 0x1_0000);
    Generated(if id == 0 then 1 else id, Wrap32(counter + 1))
  }

  /** The ids handed out one after another to the given peers. */
  function Ids(next: Word32, localId: Byte, peers: seq<Byte>): (ids: seq<Word32>)
    ensures |ids| == |peers|
    decreases peers
  {
    if peers == [] then []
    else
      var g := Generate(next, localId, peers[0]);
      [g.id] + Ids(g.next, localId, peers[1..])
  }

  /** Mixing a peer into the third byte leaves the local id on top and the counter's low sixteen bits. */
  lemma MixKeeps(counter: Word32, peer: Byte)
    ensures Xor32(counter, peer * 0x1_0000) % 0x1_0000 == counter % 0x1_0000
    ensures Xor32(counter, peer * 0x1_0000) / 0x100_0000 == counter / 0x100_0000
  {
    var mixed := peer * 0x1_0000;
    assert mixed / 0x100_0000 == 0 && mixed % 0x1_0000 == 0;
    XorAtWord(counter, mixed);
    XorZero(counter / 0x100_0000);
    XorZero(counter % 0x1_0000);
  }

  predicate Shaped(id: Word32, localId: Byte, k: nat) {
    id % 0x1_0000 == (1 + k) % 0x1_0000 && id / 0x100_0000 == localId
  }

  lemma CounterParts(localId: Byte, low: nat)
    requires low < 0x100_0000
    ensures (localId * 0x100_0000 + low) / 0x100_0000 == localId
    ensures (localId * 0x100_0000 + low) % 0x1_0000 == low % 0x1_0000
    ensures (localId * 0x100_0000 + low) / 0x1_0000 == 0x100 * localId + low / 0x1_0000
  {
  }

  lemma EarlyId(localId: Byte, k: nat, peer: Byte)
    requires localId != 0 && k < 0x1_0000
    ensures var g := Generate(localId * 0x100_0000 + 1 + k, localId, peer);
            Shaped(g.id, localId, k) && g.next == Wrap32(localId * 0x100_0000 + 2 + k)
  {
    var counter: Word32 := localId * 0x100_0000 + 1 + k;
    MixKeeps(counter, peer);
    CounterParts(localId, 1 + k);
    assert Generate(counter, localId, peer).id == Xor32(counter, peer * 0x1_0000);
  }

  lemma {:induction false} EarlyIds(next: Word32, localId: Byte, k: nat, peers: seq<Byte>)
    requires localId != 0 && k + |peers| <= 0x1_0000 && peers != []
    requires next == localId * 0x100_0000 + 1 + k
    ensures forall i :: 0 <= i < |peers| ==> Shaped(Ids(next, localId, peers)[i], localId, k + i)
    decreases peers
  {
    EarlyId(localId, k, peers[0]);
    var g := Generate(next, localId, peers[0]);
    var ids, rest := Ids(next, localId, peers), Ids(g.next, localId, peers[1..]);
    if |peers| > 1 {
      EarlyIds(g.next, localId, k + 1, peers[1..]);
    }
    forall i | 0 <= i < |peers| ensures Shaped(ids[i], localId, k + i) {
      if i > 0 {
        assert ids[i] == rest[i - 1];
        assert Shaped(rest[i - 1], localId, k + 1 + (i - 1));
      }
    }
  }

  lemma ShapedApart(a: Word32, b: Word32, localId: Byte, i: nat, j: nat)
    requires localId != 0 && Shaped(a, localId, i) && Shaped(b, localId, j) && i < j < 0x1_0000
    ensures a != b && a != 0
  {
  }

  /**
   Start-up's first 65536 ids are non-zero, carry the local id on top and are pairwise distinct, whatever the peers.
   */
  lemma FirstIdsDistinct(localId: Byte, peers: seq<Byte>)
    requires localId != 0 && |peers| <= 0x1_0000
    ensures var ids := Ids(FirstId(localId), localId, peers);
            && (forall i :: 0 <= i < |ids| ==> ids[i] != 0 && ids[i] / 0x100_0000 == localId)
            && (forall i, j :: 0 <= i < j < |ids| ==> ids[i] != ids[j])
  {
    if peers != [] {
      EarlyIds(FirstId(localId), localId, 0, peers);
      var ids := Ids(FirstId(localId), localId, peers);
      forall i | 0 <= i < |ids| ensures ids[i] != 0 && ids[i] / 0x100_0000 == localId {
        assert Shaped(ids[i], localId, 0 + i);
      }
      forall i, j | 0 <= i < j < |ids| ensures ids[i] != ids[j] {
        assert Shaped(ids[i], localId, 0 + i) && Shaped(ids[j], localId, 0 + j);
        ShapedApart(ids[i], ids[j], localId, i, j);
      }
    }
  }

  lemma XorNeighbours(a: nat, b: nat)
    requires a % 2 == 0 && b % 2 == 0
    ensures Xor(a, b) == Xor(a + 1, b + 1)
  {
    XorDouble(a / 2, 0, b / 2, 0);
    XorDouble(a / 2, 1, b / 2, 1);
  }

  /** The bytes above the low sixteen bits of a mixed counter, while those bits hold 1. */
  lemma MixedParts(localId: Byte, carry: nat, peer: Byte)
    requires carry <= 1
    ensures var c: Word32 := localId * 0x100_0000 + carry * 0x1_0000 + 1;
            Xor32(c, peer * 0x1_0000) / 0x1_0000 == Xor(0x100 * localId + carry, peer)
            && Xor32(c, peer * 0x1_0000) % 0x1_0000 == 1
  {
    var c: Word32 := localId * 0x100_0000 + carry * 0x1_0000 + 1;
    XorAtWord(c, peer * 0x1_0000);
    Halves(0x100 * localId + carry, 1);
    Halves(peer, 0);
    XorZero(1);
  }

  lemma Halves(high: nat, low: Word16)
    ensures (high * 0x1_0000 + low) / 0x1_0000 == high && (high * 0x1_0000 + low) % 0x1_0000 == low
  {
  }

  /**
   The bound is tight: the counter's carry into the mixed byte gives neighbouring peers one id, 65536 generations apart.
   */
  lemma CarryCollides(localId: Byte, even: Byte, odd: Byte)
    requires localId != 0 && even % 2 == 0 && odd == even + 1
    ensures Generate(FirstId(localId), localId, even).id
            == Generate(FirstId(localId) + 0x1_0000, localId, odd).id
  {
    MixedParts(localId, 0, even);
    MixedParts(localId, 1, odd);
    XorNeighbours(0x100 * localId, even);
    SameHalves(Xor32(FirstId(localId), even * 0x1_0000), Xor32(FirstId(localId) + 0x1_0000, odd * 0x1_0000));
  }

  lemma SameHalves(x: nat, y: nat)
    requires x / 0x1_0000 == y / 0x1_0000 && x % 0x1_0000 == y % 0x1_0000
    ensures x == y
  {
  }
}
