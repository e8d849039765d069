/** The host pairing store: a bounded map from peer ids to names, kept as a text file that each save rewrites. */
module PairingStore {
  import opened Machine
  import opened Sequences
  import opened PairingText

  function Ids(ps: seq<Pairing>): (ids: seq<Byte>)
    ensures |ids| == |ps| && forall i :: 0 <= i < |ps| ==> ids[i] == ps[i].id
  {
    seq(|ps|, i requires 0 <= i < |ps| => ps[i].id)
  }

  /** The first entry per id, in order. */
  function Dedup(ps: seq<Pairing>): (r: seq<Pairing>)
    ensures |r| <= |ps|
  {
    if ps == [] then []
    else
      var front, last := Dedup(ps[..|ps| - 1]), ps[|ps| - 1];
      if last.id in Ids(front) then front else front + [last]
  }

  /** Replaces the entry of p's id in place, or appends p if there is room. */
  function Put(ps: seq<Pairing>, p: Pairing): Option<seq<Pairing>> {
    var k := IndexOf(Ids(ps), p.id);
    if k < |ps| then Some(ps[k := p])
    else if |ps| >= MAX_COUNT then None
    else Some(ps + [p])
  }

  /** What is kept of a name buffer: up to its terminator, and at most 63 characters. */
  function Normalise(buffer: string): (name: string)
    ensures |name| <= MAX_NAME && NUL !in name
  {
    assert forall c :: c in Fit(CString(buffer)) ==> c in CString(buffer);
    Fit(CString(buffer))
  }

  function Load(file: Option<string>): (ps: seq<Pairing>)
    ensures |ps| <= MAX_COUNT
  {
    match file case None => [] case Some(text) => Read(text, MAX_COUNT)
  }

  /** The new file, or None when the save fails and the file stays as it was. */
  function Save(file: Option<string>, id: Byte, buffer: string): Option<string> {
    match Put(Dedup(Load(file)), Pairing(id, Normalise(buffer)))
    case None => None
    case Some(ps) => Some(Print(ps))
  }

  // --- the bounded map ---

  ghost predicate Unique(ps: seq<Pairing>) { NoDup(Ids(ps)) }

  /** The map a duplicate-free list stands for. */
  function AsMap(ps: seq<Pairing>): map<Byte, string> {
    if ps == [] then map[] else AsMap(ps[..|ps| - 1])[ps[|ps| - 1].id := ps[|ps| - 1].name]
  }

  /**
   A save changes only its own id: it fails exactly when eight other ids are present, keeps the order, adds the id at
   the end if it is new, and otherwise updates the map at that id alone.
   */
  lemma PutIsBoundedMap(ps: seq<Pairing>, p: Pairing)
    requires Unique(ps) && |ps| <= MAX_COUNT
    ensures Put(ps, p).None? <==> |ps| == MAX_COUNT && p.id !in Ids(ps)
    ensures Put(ps, p).Some? ==>
              var r := Put(ps, p).value;
              && Unique(r) && |r| <= MAX_COUNT
              && Ids(r) == (if p.id in Ids(ps) then Ids(ps) else Ids(ps) + [p.id])
              && AsMap(r) == AsMap(ps)[p.id := p.name]
  {
    if Put(ps, p).Some? {
      var r, k := Put(ps, p).value, IndexOf(Ids(ps), p.id);
      assert Ids(r) == if k < |ps| then Ids(ps) else Ids(ps) + [p.id];
      if k < |ps| {
        ReplaceMaps(ps, p, k);
      } else {
        assert r[..|r| - 1] == ps;
      }
    }
  }

  lemma {:induction false} ReplaceMaps(ps: seq<Pairing>, p: Pairing, k: nat)
    requires Unique(ps) && k < |ps| && ps[k].id == p.id
    ensures AsMap(ps[k := p]) == AsMap(ps)[p.id := p.name]
  {
    var n := |ps| - 1;
    var front, r := ps[..n], ps[k := p];
    if k == n {
      assert r[..n] == front;
    } else {
      assert r[..n] == front[k := p];
      assert forall i :: 0 <= i < n ==> Ids(front)[i] == Ids(ps)[i];
      assert Ids(ps)[k] != Ids(ps)[n];
      ReplaceMaps(front, p, k);
    }
  }

  lemma IdsAppend(front: seq<Pairing>, last: Pairing)
    ensures Ids(front + [last]) == Ids(front) + [last.id]
    ensures Unique(front + [last]) <==> Unique(front) && last.id !in Ids(front)
  {
    var ids := Ids(front);
    assert Ids(front + [last]) == ids + [last.id];
    var all := ids + [last.id];
    assert all[|ids|] == last.id && forall i :: 0 <= i < |ids| ==> all[i] == ids[i];
    if NoDup(all) {
      assert forall i :: 0 <= i < |ids| ==> all[i] != all[|ids|];
    } else if last.id !in ids && NoDup(ids) {
      AppendKeepsNoDup(ids, last.id);
    }
  }

  lemma {:induction false} DedupUnique(ps: seq<Pairing>)
    ensures Unique(Dedup(ps))
    ensures forall id :: id in Ids(Dedup(ps)) <==> id in Ids(ps)
    ensures Unique(ps) ==> Dedup(ps) == ps
  {
    if ps != [] {
      var front, last := ps[..|ps| - 1], ps[|ps| - 1];
      DedupUnique(front);
      assert ps == front + [last];
      IdsAppend(front, last);
      IdsAppend(Dedup(front), last);
    }
  }

  // --- runs of saves ---

  /** The file is missing or is the printed form of the duplicate-free list it loads as. */
  ghost predicate Kept(file: Option<string>) {
    var ps := Load(file);
    Unique(ps) && AllStorable(ps) && AllSafe(ps) && (file.Some? ==> file == Some(Print(ps)))
  }

  lemma PutKeepsAll(ps: seq<Pairing>, p: Pairing)
    requires AllStorable(ps) && AllSafe(ps) && Storable(p) && Put(ps, p).Some?
    ensures AllStorable(Put(ps, p).value)
    ensures AllSafe(Put(ps, p).value) <==> LineSafe(p.name)
  {
    var r, k := Put(ps, p).value, IndexOf(Ids(ps), p.id);
    assert p in r by { assert r[k] == p; }
    forall q | q in r ensures q == p || q in ps {
      var j :| 0 <= j < |r| && r[j] == q;
      if j != k { assert ps[j] == q; }
    }
  }

  /**
   A save into a kept file behaves as the bounded map: it fails exactly when the map refuses, and what is loaded
   afterwards is the updated list exactly when the stored name is line-safe.
   */
  lemma SaveLoads(file: Option<string>, id: Byte, buffer: string)
    requires Kept(file)
    ensures var p := Pairing(id, Normalise(buffer));
            var put, saved := Put(Load(file), p), Save(file, id, buffer);
            && (saved.None? <==> |Load(file)| == MAX_COUNT && id !in Ids(Load(file)))
            && (saved.None? <==> put.None?)
            && (saved.Some? ==> (Load(saved) == put.value <==> LineSafe(p.name)))
            && (saved.Some? && LineSafe(p.name) ==> Kept(saved))
  {
    var ps, p := Load(file), Pairing(id, Normalise(buffer));
    DedupUnique(ps);
    PutIsBoundedMap(ps, p);
    if Put(ps, p).Some? {
      PutKeepsAll(ps, p);
      ReadPrintIff(Put(ps, p).value, MAX_COUNT);
    }
  }

  datatype Request = Request(id: Byte, buffer: string)

  /** A failed save leaves the file alone. */
  function SaveAll(file: Option<string>, requests: seq<Request>): Option<string>
    decreases |requests|
  {
    if requests == [] then file
    else
      var saved := Save(file, requests[0].id, requests[0].buffer);
      SaveAll(if saved.Some? then saved else file, requests[1..])
  }

  function PutAll(ps: seq<Pairing>, requests: seq<Request>): seq<Pairing>
    decreases |requests|
  {
    if requests == [] then ps
    else
      var put := Put(ps, Pairing(requests[0].id, Normalise(requests[0].buffer)));
      PutAll(if put.Some? then put.value else ps, requests[1..])
  }

  /** Every request that the map accepts, the others applied before it, has a line-safe name. */
  predicate SafeSaves(ps: seq<Pairing>, requests: seq<Request>)
    decreases |requests|
  {
    requests == [] ||
    var p := Pairing(requests[0].id, Normalise(requests[0].buffer));
    var put := Put(ps, p);
    (put.Some? ==> LineSafe(p.name)) && SafeSaves(if put.Some? then put.value else ps, requests[1..])
  }

  /** After each of the saves the file loads as the map after the same updates. */
  ghost predicate Tracks(file: Option<string>, ps: seq<Pairing>, requests: seq<Request>) {
    forall n :: 0 <= n <= |requests| ==> Load(SaveAll(file, requests[..n])) == PutAll(ps, requests[..n])
  }

  lemma PrefixRest(requests: seq<Request>, n: nat)
    requires 0 < n <= |requests|
    ensures requests[..n][0] == requests[0] && requests[..n][1..] == requests[1..][..n - 1]
  {
  }

  lemma TracksCons(file: Option<string>, ps: seq<Pairing>, file': Option<string>, ps': seq<Pairing>,
      requests: seq<Request>)
    requires requests != [] && Load(file) == ps
    requires var saved := Save(file, requests[0].id, requests[0].buffer); file' == if saved.Some? then saved else file
    requires var put := Put(ps, Pairing(requests[0].id, Normalise(requests[0].buffer)));
             ps' == if put.Some? then put.value else ps
    ensures Tracks(file, ps, requests) <==> Tracks(file', ps', requests[1..])
  {
    forall n | 0 < n <= |requests|
      ensures SaveAll(file, requests[..n]) == SaveAll(file', requests[1..][..n - 1])
              && PutAll(ps, requests[..n]) == PutAll(ps', requests[1..][..n - 1])
    {
      PrefixRest(requests, n);
    }
    if Tracks(file, ps, requests) {
      forall n | 0 <= n <= |requests[1..]|
        ensures Load(SaveAll(file', requests[1..][..n])) == PutAll(ps', requests[1..][..n])
      {
        assert Load(SaveAll(file, requests[..n + 1])) == PutAll(ps, requests[..n + 1]);
        assert requests[1..][..(n + 1) - 1] == requests[1..][..n];
      }
    }
  }

  /**
   Over any run of saves into a kept file, a missing one included, the file loads as the map all along if and only if
   every save that goes through has a line-safe name.
   */
  lemma {:induction false} SavesRefineMap(file: Option<string>, requests: seq<Request>)
    requires Kept(file)
    ensures Tracks(file, Load(file), requests) <==> SafeSaves(Load(file), requests)
    ensures SafeSaves(Load(file), requests) ==>
              Kept(SaveAll(file, requests)) && Load(SaveAll(file, requests)) == PutAll(Load(file), requests)
    decreases |requests|
  {
    if requests != [] {
      var r, ps := requests[0], Load(file);
      var p := Pairing(r.id, Normalise(r.buffer));
      var saved, put := Save(file, r.id, r.buffer), Put(ps, p);
      var file', ps' := if saved.Some? then saved else file, if put.Some? then put.value else ps;
      SaveLoads(file, r.id, r.buffer);
      TracksCons(file, ps, file', ps', requests);
      if put.Some? && !LineSafe(p.name) {
        assert requests[1..][..0] == [];
        assert Load(SaveAll(file', requests[1..][..0])) != PutAll(ps', requests[1..][..0]);
      } else {
        SavesRefineMap(file', requests[1..]);
      }
    }
  }

  // --- the store itself ---

  class Store {
    var file: Option<string>

    constructor ()
      ensures file == None
    {
      file := None;
    }

    /** Loads, rebuilds the list with one entry per id, replaces or appends, and rewrites the file. */
    method SavePairing(id: Byte, buffer: string) returns (ok: bool)
      modifies this
      ensures ok == Save(old(file), id, buffer).Some?
      ensures file == if ok then Save(old(file), id, buffer) else old(file)
    {
      var blank := Pairing(0, []);
      var existing := new Pairing[MAX_COUNT](_ => blank);
      var count := 0;
      if file.Some? {
        count := ReadHandle(file.value, existing);
      }
      assert existing[..count] == Load(file);
      var updated := new Pairing[MAX_COUNT](_ => blank);
      var kept := Rebuild(existing, count, updated);
      var p := Pairing(id, Normalise(buffer));
      ok, kept := Insert(updated, kept, p);
      if ok {
        var text := WriteHandle(updated, kept);
        file := Some(text);
      }
    }

    method LoadPairings(pairings: array<Pairing>) returns (count: nat)
      requires pairings.Length == MAX_COUNT
      modifies pairings
      ensures count <= MAX_COUNT && pairings[..count] == Load(file)
    {
      count := 0;
      if file.Some? {
        count := ReadHandle(file.value, pairings);
      }
    }

    method Clear()
      modifies this
      ensures file == None && Load(file) == []
    {
      file := None;
    }
  }

  method HasId(pairings: array<Pairing>, count: nat, id: Byte) returns (k: nat)
    requires count <= pairings.Length
    ensures k == IndexOf(Ids(pairings[..count]), id)
  {
    k := 0;
    while k < count
      invariant 0 <= k <= count
      invariant forall j :: 0 <= j < k ==> pairings[j].id != id
    {
      if pairings[k].id == id {
        return;
      }
      k := k + 1;
    }
  }

  method Rebuild(existing: array<Pairing>, count: nat, updated: array<Pairing>) returns (kept: nat)
    requires existing != updated && count <= existing.Length <= updated.Length
    modifies updated
    ensures kept <= count && updated[..kept] == Dedup(existing[..count])
  {
    kept := 0;
    for k := 0 to count
      invariant kept <= k && updated[..kept] == Dedup(existing[..k])
    {
      assert existing[..k + 1][..k] == existing[..k] && existing[..k + 1][k] == existing[k];
      var at := HasId(updated, kept, existing[k].id);
      if at < kept {
        continue;
      }
      PairingText.Store(updated, kept, existing[k]);
      kept := kept + 1;
    }
  }

  method Insert(updated: array<Pairing>, count: nat, p: Pairing) returns (ok: bool, total: nat)
    requires count <= updated.Length == MAX_COUNT
    modifies updated
    ensures ok == Put(old(updated[..count]), p).Some?
    ensures ok ==> total <= MAX_COUNT && updated[..total] == Put(old(updated[..count]), p).value
  {
    var k := HasId(updated, count, p.id);
    if k < count {
      updated[k] := p;
      assert updated[..count] == old(updated[..count])[k := p];
      return true, count;
    }
    if count >= MAX_COUNT {
      return false, count;
    }
    PairingText.Store(updated, count, p);
    return true, count + 1;
  }
}
