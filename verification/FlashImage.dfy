/** The flash image of the pairing list: 768 bytes guarded by an FNV-1a checksum over all but the checksum field. */
module FlashImage {
  import opened Machine
  import opened Sequences
  import opened Bytes
  import opened Bitwise
  import Protocol

  const SIZE: nat := 768
  const MAGIC: Word32 := 0x50495043
  const VERSION: Word32 := 1
  const COUNT_AT: nat := 8
  const CHECKSUM_AT: nat := 12
  const ENTRIES_AT: nat := 16
  const ENTRY_BYTES: nat := 65
  const OFFSET_BASIS: Word32 := 0x811C9DC5
  const PRIME: Word32 := 16777619
  const PRIME_INVERSE: Word32 := 0x359C449B

  type Image = s: seq<Byte> | |s| == 768 witness seq(768, _ => 0)
  type Entry = s: seq<Byte> | |s| == 65 witness seq(65, _ => 0)

  function WordAt(b: seq<Byte>, at: nat): Word32
    requires at + 4 <= |b|
  {
    ReadU32(b[at], b[at + 1], b[at + 2], b[at + 3])
  }

  predicate Hashed(i: nat) { !(CHECKSUM_AT <= i < CHECKSUM_AT + 4) }

  /** One FNV-1a round. */
  function Round(h: Word32, b: Byte): Word32 { Wrap32(Xor32(h, b) * PRIME) }

  function HashUpTo(b: seq<Byte>, n: nat): Word32
    requires n <= |b|
  {
    if n == 0 then OFFSET_BASIS
    else
      var h := HashUpTo(b, n - 1);
      if Hashed(n - 1) then Round(h, b[n - 1]) else h
  }

  function Checksum(image: Image): Word32 { HashUpTo(image, |image|) }

  predicate Valid(image: Image) {
    && WordAt(image, 0) == MAGIC && WordAt(image, 4) == VERSION && WordAt(image, COUNT_AT) <= 8
    && WordAt(image, CHECKSUM_AT) == Checksum(image)
  }

  method ComputeChecksum(image: array<Byte>) returns (checksum: Word32)
    requires image.Length == SIZE
    ensures checksum == Checksum(image[..])
  {
    checksum := OFFSET_BASIS;
    for index := 0 to SIZE
      invariant checksum == HashUpTo(image[..], index)
    {
      if index >= CHECKSUM_AT && index < CHECKSUM_AT + 4 {
        continue;
      }
      checksum := Xor32(checksum, image[index]);
      checksum := Wrap32(checksum * PRIME);
    }
  }

  // --- a round loses nothing ---

  /** Multiplying by the prime can be undone modulo 2^32. */
  lemma MultiplyUndone(x: Word32)
    ensures Wrap32(Wrap32(x * PRIME) * PRIME_INVERSE) == x
  {
    var p := x * PRIME;
    var q := p / 0x1_0000_0000;
    assert p == q * 0x1_0000_0000 + Wrap32(p);
    var c := 3513497;
    assert PRIME * PRIME_INVERSE == c * 0x1_0000_0000 + 1;
    assert Wrap32(p) * PRIME_INVERSE == x * (PRIME * PRIME_INVERSE) - q * PRIME_INVERSE * 0x1_0000_0000;
    assert Wrap32(p) * PRIME_INVERSE == x + (x * c - q * PRIME_INVERSE) * 0x1_0000_0000;
  }

  lemma RoundInjectiveInState(g: Word32, h: Word32, b: Byte)
    requires Round(g, b) == Round(h, b)
    ensures g == h
  {
    MultiplyUndone(Xor32(g, b));
    MultiplyUndone(Xor32(h, b));
    XorUndo(g, b);
    XorUndo(h, b);
  }

  lemma RoundInjectiveInByte(h: Word32, a: Byte, b: Byte)
    requires Round(h, a) == Round(h, b)
    ensures a == b
  {
    MultiplyUndone(Xor32(h, a));
    MultiplyUndone(Xor32(h, b));
    XorUndo(h, a);
    XorUndo(h, b);
  }

  /** The hash of one letter, "a", as the FNV-1a reference gives it: the start value, the mixing and the prime. */
  lemma KnownHash(b: seq<Byte>)
    requires |b| > 0 && b[0] == 97
    ensures HashUpTo(b, 1) == 0xE40C292C
  {
    var start := HashUpTo(b, 0);
    assert start == 0x811C9DC5 && Hashed(0) && HashUpTo(b, 1) == Round(start, b[0]);
    StartRound(start, b[0]);
  }

  lemma StartRound(start: Word32, b: Byte)
    requires start == 0x811C9DC5 && b == 97
    ensures Round(start, b) == 0xE40C292C
  {
    MixedStart();
    Multiplied(Xor32(start, b));
  }

  lemma Multiplied(x: Word32)
    requires x == 0x811C9DA4
    ensures Wrap32(x * PRIME) == 0xE40C292C
  {
    assert x * PRIME == 8461672 * 0x1_0000_0000 + 0xE40C292C;
  }

  lemma MixedStart()
    ensures Xor(0x811C9DC5, 97) == 0x811C9DA4
  {
    XorZero(16922939);
    XorDouble(16922939, 1, 0, 1);
    XorDouble(33845879, 0, 1, 1);
    XorDouble(67691758, 0, 3, 0);
    XorDouble(135383516, 0, 6, 0);
    XorDouble(270767032, 1, 12, 0);
    XorDouble(541534065, 0, 24, 0);
    XorDouble(1083068130, 1, 48, 1);
  }

  // --- one changed byte ---

  lemma {:induction false} SameHash(a: seq<Byte>, b: seq<Byte>, n: nat)
    requires n <= |a| && n <= |b| && forall i :: 0 <= i < n && Hashed(i) ==> a[i] == b[i]
    ensures HashUpTo(a, n) == HashUpTo(b, n)
  {
    if n > 0 { SameHash(a, b, n - 1); }
  }

  /** A single difference in a hashed byte is carried to the end of the loop. */
  lemma {:induction false} DifferentHash(a: seq<Byte>, b: seq<Byte>, n: nat, at: nat)
    requires at < n <= |a| && n <= |b| && Hashed(at) && a[at] != b[at]
    requires forall i :: 0 <= i < n && i != at ==> a[i] == b[i]
    ensures HashUpTo(a, n) != HashUpTo(b, n)
  {
    if at == n - 1 {
      SameHash(a, b, n - 1);
      if HashUpTo(a, n) == HashUpTo(b, n) {
        RoundInjectiveInByte(HashUpTo(a, n - 1), a[at], b[at]);
      }
    } else {
      DifferentHash(a, b, n - 1, at);
      if HashUpTo(a, n) == HashUpTo(b, n) && Hashed(n - 1) {
        RoundInjectiveInState(HashUpTo(a, n - 1), HashUpTo(b, n - 1), a[n - 1]);
      }
    }
  }

  lemma WordBytes(a: seq<Byte>, b: seq<Byte>, at: nat)
    requires at + 4 <= |a| && at + 4 <= |b|
    ensures WordAt(a, at) == WordAt(b, at) <==> a[at..at + 4] == b[at..at + 4]
  {
    WriteRead32(a[at], a[at + 1], a[at + 2], a[at + 3]);
    WriteRead32(b[at], b[at + 1], b[at + 2], b[at + 3]);
    assert a[at..at + 4] == [a[at], a[at + 1], a[at + 2], a[at + 3]];
    assert b[at..at + 4] == [b[at], b[at + 1], b[at + 2], b[at + 3]];
  }

  /** Two images that differ in exactly one byte are never both valid. */
  lemma OneByteDetected(a: Image, b: Image, at: nat)
    requires at < SIZE && a[at] != b[at] && forall i :: 0 <= i < SIZE && i != at ==> a[i] == b[i]
    ensures !(Valid(a) && Valid(b))
  {
    WordBytes(a, b, CHECKSUM_AT);
    if Hashed(at) {
      DifferentHash(a, b, SIZE, at);
      assert a[CHECKSUM_AT..CHECKSUM_AT + 4] == b[CHECKSUM_AT..CHECKSUM_AT + 4];
    } else {
      SameHash(a, b, SIZE);
      assert a[CHECKSUM_AT..CHECKSUM_AT + 4][at - CHECKSUM_AT] != b[CHECKSUM_AT..CHECKSUM_AT + 4][at - CHECKSUM_AT];
    }
  }

  // --- saving into the image ---

  function EntryAt(image: Image, k: nat): Entry
    requires k < 8
  {
    image[ENTRIES_AT + ENTRY_BYTES * k..ENTRIES_AT + ENTRY_BYTES * k + ENTRY_BYTES]
  }

  function Entries(image: Image, count: nat): (es: seq<Entry>)
    requires count <= 8
    ensures |es| == count && forall k :: 0 <= k < count ==> es[k] == EntryAt(image, k)
  {
    seq(count, k requires 0 <= k < count => EntryAt(image, k))
  }

  /** An image that is not valid loads as an empty list. */
  function Load(image: Image): (es: seq<Entry>)
    ensures |es| <= 8
  {
    if Valid(image) then Entries(image, WordAt(image, COUNT_AT)) else []
  }

  function Overwrite(image: Image, at: nat, bytes: seq<Byte>): (r: Image)
    requires at + |bytes| <= SIZE
    ensures r[at..at + |bytes|] == bytes
    ensures forall i :: 0 <= i < SIZE && !(at <= i < at + |bytes|) ==> r[i] == image[i]
  {
    image[..at] + bytes + image[at + |bytes|..]
  }

  function WithEntry(image: Image, k: nat, e: Entry): Image
    requires k < 8
  {
    Overwrite(image, ENTRIES_AT + ENTRY_BYTES * k, e)
  }

  /** Magic, version and count in place and the checksum field cleared. */
  function Stamp(image: Image, count: nat): Image
    requires count <= 8
  {
    Overwrite(Overwrite(Overwrite(Overwrite(image, 0, U32(MAGIC)), 4, U32(VERSION)), COUNT_AT, U32(count)),
        CHECKSUM_AT, U32(0))
  }

  function Seal(image: Image, count: nat): Image
    requires count <= 8
  {
    Overwrite(Stamp(image, count), CHECKSUM_AT, U32(Checksum(Stamp(image, count))))
  }

  /** The first entry whose id byte matches. */
  function FindEntry(es: seq<Entry>, id: Byte): (k: nat)
    ensures k <= |es|
    ensures k < |es| ==> es[k][0] == id
    ensures forall j :: 0 <= j < k ==> es[j][0] != id
  {
    if es == [] || es[0][0] == id then 0 else 1 + FindEntry(es[1..], id)
  }

  // --- the pairing as it is stored ---

  /** The characters of an entry's name up to its terminator, or up to the 63 that leave room for one. */
  function NameBytes(e: Entry): (n: nat)
    ensures n <= 63 && forall i :: 0 <= i < n ==> e[1..][i] != 0
  {
    var end := IndexOf(e[1..], 0);
    if end < 63 then end else 63
  }

  /** The caller's pairing with its name cut at the terminator and everything behind it cleared. */
  function Normalise(e: Entry): (r: Entry)
    ensures r[0] == e[0]
  {
    e[..1 + NameBytes(e)] + seq(64 - NameBytes(e), _ => 0)
  }

  /** Normalising is settled after one pass: the name ends in a terminator and nothing is left behind it. */
  lemma NormaliseSettles(e: Entry)
    ensures var r := Normalise(e);
            && r[64] == 0 && NameBytes(r) == NameBytes(e) && Normalise(r) == r
            && (forall i :: 0 <= i <= NameBytes(e) ==> r[i] == e[i])
            && (forall i :: NameBytes(e) < i < ENTRY_BYTES ==> r[i] == 0)
  {
    var r, n := Normalise(e), NameBytes(e);
    assert forall i :: 0 <= i <= n ==> r[i] == e[i];
    assert forall i :: 0 <= i < n ==> r[1..][i] == e[1 + i];
    assert n < 64 ==> r[1..][n] == 0;
    assert IndexOf(r[1..], 0) == n;
  }

  // --- saving ---

  /**
   Whatever was in flash is the starting point; only a valid image contributes entries. A full one is sealed as it is.
   */
  function Save(image: Image, e: Entry): Image {
    var n, k := |Load(image)|, FindEntry(Load(image), e[0]);
    Seal(Place(image, k, e), if k < n || n == 8 then n else n + 1)
  }

  function Place(image: Image, k: nat, e: Entry): Image {
    if k < 8 then WithEntry(image, k, e) else image
  }

  lemma WordRead(image: Image, at: nat, w: Word32)
    requires at + 4 <= SIZE && image[at..at + 4] == U32(w)
    ensures WordAt(image, at) == w
  {
    assert image[at] == image[at..at + 4][0] && image[at + 1] == image[at..at + 4][1];
    assert image[at + 2] == image[at..at + 4][2] && image[at + 3] == image[at..at + 4][3];
    ReadWritten32(w);
  }

  lemma WordKept(image: Image, at: nat, bytes: seq<Byte>, other: nat)
    requires at + |bytes| <= SIZE && other + 4 <= SIZE && (other + 4 <= at || at + |bytes| <= other)
    ensures WordAt(Overwrite(image, at, bytes), other) == WordAt(image, other)
  {
  }

  lemma WordWritten(image: Image, at: nat, w: Word32)
    requires at + 4 <= SIZE
    ensures WordAt(Overwrite(image, at, U32(w)), at) == w
  {
    WordRead(Overwrite(image, at, U32(w)), at, w);
  }

  lemma Stamped(image: Image, count: nat)
    requires count <= 8
    ensures var d := Stamp(image, count);
            && WordAt(d, 0) == MAGIC && WordAt(d, 4) == VERSION && WordAt(d, COUNT_AT) == count
            && forall i :: ENTRIES_AT <= i < SIZE ==> d[i] == image[i]
  {
    var a := Overwrite(image, 0, U32(MAGIC));
    WordWritten(image, 0, MAGIC);
    var b := Overwrite(a, 4, U32(VERSION));
    WordWritten(a, 4, VERSION);
    WordKept(a, 4, U32(VERSION), 0);
    var c := Overwrite(b, COUNT_AT, U32(count));
    WordWritten(b, COUNT_AT, count);
    WordKept(b, COUNT_AT, U32(count), 0);
    WordKept(b, COUNT_AT, U32(count), 4);
    WordKept(c, CHECKSUM_AT, U32(0), 0);
    WordKept(c, CHECKSUM_AT, U32(0), 4);
    WordKept(c, CHECKSUM_AT, U32(0), COUNT_AT);
  }

  /** Filling in the checksum of an image makes the field agree with the rest, which it is not part of. */
  lemma ChecksumFits(d: Image)
    ensures var r := Overwrite(d, CHECKSUM_AT, U32(Checksum(d)));
            && WordAt(r, CHECKSUM_AT) == Checksum(r)
            && WordAt(r, 0) == WordAt(d, 0) && WordAt(r, 4) == WordAt(d, 4)
               && WordAt(r, COUNT_AT) == WordAt(d, COUNT_AT)
  {
    var w := Checksum(d);
    var r := Overwrite(d, CHECKSUM_AT, U32(w));
    SameHash(d, r, SIZE);
    WordWritten(d, CHECKSUM_AT, w);
    WordKept(d, CHECKSUM_AT, U32(w), 0);
    WordKept(d, CHECKSUM_AT, U32(w), 4);
    WordKept(d, CHECKSUM_AT, U32(w), COUNT_AT);
  }

  /** Sealing makes an image valid with the given count and leaves every byte from the entries on alone. */
  lemma SealValid(image: Image, count: nat)
    requires count <= 8
    ensures Valid(Seal(image, count)) && WordAt(Seal(image, count), COUNT_AT) == count
    ensures forall i :: ENTRIES_AT <= i < SIZE ==> Seal(image, count)[i] == image[i]
  {
    Stamped(image, count);
    ChecksumFits(Stamp(image, count));
  }

  lemma SameSlice(a: seq<Byte>, b: seq<Byte>, from: nat, to: nat)
    requires from <= to <= |a| && to <= |b| && forall i :: from <= i < to ==> a[i] == b[i]
    ensures a[from..to] == b[from..to]
  {
  }

  lemma OtherEntry(image: Image, k: nat, e: Entry, j: nat)
    requires k < 8 && j < 8
    ensures EntryAt(WithEntry(image, k, e), j) == if j == k then e else EntryAt(image, j)
  {
    if j != k {
      var at := ENTRIES_AT + ENTRY_BYTES * j;
      SameSlice(WithEntry(image, k, e), image, at, at + ENTRY_BYTES);
    }
  }

  lemma SameEntries(r: Image, image: Image, count: nat)
    requires count <= 8 && forall i :: ENTRIES_AT <= i < SIZE ==> r[i] == image[i]
    ensures Entries(r, count) == Entries(image, count)
  {
    forall k | 0 <= k < count ensures EntryAt(r, k) == EntryAt(image, k) {
      SameSlice(r, image, ENTRIES_AT + ENTRY_BYTES * k, ENTRIES_AT + ENTRY_BYTES * k + ENTRY_BYTES);
    }
  }

  lemma SealedLoad(image: Image, count: nat)
    requires count <= 8
    ensures Load(Seal(image, count)) == Entries(image, count)
  {
    SealValid(image, count);
    SameEntries(Seal(image, count), image, count);
  }

  /** The entries in place after an update, before sealing. */
  lemma PlacedEntries(image: Image, n: nat, e: Entry)
    requires n <= 8
    ensures var es := Entries(image, n);
            var k := FindEntry(es, e[0]);
            Entries(Place(image, k, e), if k < n || n == 8 then n else n + 1)
            == if k < n then es[k := e] else if n < 8 then es + [e] else es
  {
    var k := FindEntry(Entries(image, n), e[0]);
    if k < n {
      ReplacedEntries(image, n, k, e);
    } else if n < 8 {
      AppendedEntries(image, n, e);
    }
  }

  lemma LoadIsEntries(image: Image)
    ensures Load(image) == Entries(image, |Load(image)|)
  {
  }

  lemma SaveValid(image: Image, e: Entry)
    ensures Valid(Save(image, e))
  {
    var n, k := |Load(image)|, FindEntry(Load(image), e[0]);
    SealValid(Place(image, k, e), if k < n || n == 8 then n else n + 1);
  }

  /** Where a valid image keeps what: magic number, version and count in front, then the entries, 65 bytes each. */
  lemma ValidLayout(image: Image)
    requires Valid(image)
    ensures Words(image, 0x50495043, 1, |Load(image)|)
    ensures forall k :: 0 <= k < |Load(image)| ==> Load(image)[k] == image[16 + 65 * k..16 + 65 * k + 65]
  {
    WordsSpelled(image, |Load(image)|);
  }

  /** The first twelve bytes, low bytes first. */
  predicate Words(b: seq<Byte>, magic: Word32, version: Word32, count: Word32)
    requires |b| >= 12
  {
    && b[0] == magic % 256 && b[1] == magic / 256 % 256 && b[2] == magic / 65536 % 256 && b[3] == magic / 16777216
    && b[4] == version % 256 && b[5] == version / 256 % 256 && b[6] == version / 65536 % 256
    && b[7] == version / 16777216
    && b[8] == count % 256 && b[9] == count / 256 % 256 && b[10] == count / 65536 % 256 && b[11] == count / 16777216
  }

  lemma WordsSpelled(image: Image, count: Word32)
    requires WordAt(image, 0) == MAGIC && WordAt(image, 4) == VERSION && WordAt(image, COUNT_AT) == count
    ensures Words(image, 0x50495043, 1, count)
  {
    WordSpelled(image, 0, MAGIC);
    WordSpelled(image, 4, VERSION);
    WordSpelled(image, COUNT_AT, count);
  }

  lemma WordSpelled(image: Image, at: nat, w: Word32)
    requires at + 4 <= SIZE && WordAt(image, at) == w
    ensures image[at] == w % 256 && image[at + 1] == w / 256 % 256
    ensures image[at + 2] == w / 65536 % 256 && image[at + 3] == w / 16777216
  {
    WriteRead32(image[at], image[at + 1], image[at + 2], image[at + 3]);
    assert U32(w) == [image[at], image[at + 1], image[at + 2], image[at + 3]];
  }

  /**
   What a save loads as afterwards: the entry of its id replaced, or appended while there is room. When the image is
   full of other ids the save still succeeds, and changes nothing.
   */
  lemma SaveLoads(image: Image, e: Entry)
    ensures var es := Load(image);
            var k := FindEntry(es, e[0]);
            Load(Save(image, e)) == if k < |es| then es[k := e] else if |es| < 8 then es + [e] else es
  {
    var n, k := |Load(image)|, FindEntry(Load(image), e[0]);
    LoadIsEntries(image);
    PlacedEntries(image, n, e);
    SealedLoad(Place(image, k, e), if k < n || n == 8 then n else n + 1);
  }

  lemma ReplacedEntries(image: Image, count: nat, k: nat, e: Entry)
    requires k < count <= 8
    ensures Entries(WithEntry(image, k, e), count) == Entries(image, count)[k := e]
  {
    forall j | 0 <= j < count ensures EntryAt(WithEntry(image, k, e), j) == Entries(image, count)[k := e][j] {
      OtherEntry(image, k, e, j);
    }
  }

  lemma AppendedEntries(image: Image, count: nat, e: Entry)
    requires count < 8
    ensures Entries(WithEntry(image, count, e), count + 1) == Entries(image, count) + [e]
  {
    forall j | 0 <= j <= count ensures EntryAt(WithEntry(image, count, e), j) == (Entries(image, count) + [e])[j] {
      OtherEntry(image, count, e, j);
    }
  }

  /** A saved entry can be loaded back exactly when its id was known or the image was not full. */
  lemma SavedIff(image: Image, pairing: Entry)
    ensures var e := Normalise(pairing);
            e in Load(Save(image, e)) <==> FindEntry(Load(image), pairing[0]) < |Load(image)| || |Load(image)| < 8
  {
    var e := Normalise(pairing);
    SaveLoads(image, e);
    var es := Load(image);
    var k := FindEntry(es, e[0]);
    var r := Load(Save(image, e));
    if k < |es| {
      assert r[k] == e;
    } else if |es| < 8 {
      assert r[|es|] == e;
    }
  }

  // --- the in-place form ---

  method OverwriteInPlace(image: array<Byte>, at: nat, bytes: seq<Byte>)
    requires image.Length == SIZE && at + |bytes| <= SIZE
    modifies image
    ensures image[..] == Overwrite(old(image[..]), at, bytes)
  {
    Protocol.CopyBytes(image, at, bytes);
  }

  method StampInPlace(image: array<Byte>, count: nat)
    requires image.Length == SIZE && count <= 8
    modifies image
    ensures image[..] == Stamp(old(image[..]), count)
  {
    OverwriteInPlace(image, 0, U32(MAGIC));
    OverwriteInPlace(image, 4, U32(VERSION));
    OverwriteInPlace(image, COUNT_AT, U32(count));
    OverwriteInPlace(image, CHECKSUM_AT, U32(0));
  }

  method SealInPlace(image: array<Byte>, count: nat)
    requires image.Length == SIZE && count <= 8
    modifies image
    ensures image[..] == Seal(old(image[..]), count)
  {
    StampInPlace(image, count);
    var checksum := ComputeChecksum(image);
    OverwriteInPlace(image, CHECKSUM_AT, U32(checksum));
  }

  method FindInPlace(image: array<Byte>, count: nat, id: Byte) returns (k: nat)
    requires image.Length == SIZE && count <= 8
    ensures k == FindEntry(Entries(image[..], count), id)
  {
    k := 0;
    while k < count
      invariant 0 <= k <= count
      invariant forall j :: 0 <= j < k ==> Entries(image[..], count)[j][0] != id
    {
      assert Entries(image[..], count)[k][0] == image[ENTRIES_AT + ENTRY_BYTES * k];
      if image[ENTRIES_AT + ENTRY_BYTES * k] == id {
        return;
      }
      k := k + 1;
    }
  }

  /** Replaces the entry of the same id, or fills the next free place. */
  method PutInPlace(image: array<Byte>, count: nat, e: Entry) returns (total: nat)
    requires image.Length == SIZE && count <= 8
    modifies image
    ensures var k := FindEntry(Entries(old(image[..]), count), e[0]);
            && total == (if k < count || count == 8 then count else count + 1)
            && image[..] == Place(old(image[..]), k, e)
  {
    var k := FindInPlace(image, count, e[0]);
    total := count;
    if k < 8 {
      OverwriteInPlace(image, ENTRIES_AT + ENTRY_BYTES * k, e);
      if k == count {
        total := count + 1;
      }
    }
  }

  method IsValid(image: array<Byte>) returns (valid: bool)
    requires image.Length == SIZE
    ensures valid == Valid(image[..])
  {
    var bytes: Image := image[..];
    var checksum := ComputeChecksum(image);
    valid := WordAt(bytes, 0) == MAGIC && WordAt(bytes, 4) == VERSION && WordAt(bytes, COUNT_AT) <= 8
             && WordAt(bytes, CHECKSUM_AT) == checksum;
  }

  method LoadedCount(image: array<Byte>) returns (count: nat)
    requires image.Length == SIZE
    ensures count <= 8 && Entries(image[..], count) == Load(image[..])
  {
    var valid := IsValid(image);
    if valid {
      return WordAt(image[..], COUNT_AT);
    }
    count := 0;
  }

  /** The image rebuilt in memory from what was read, with the normalised entry put in. */
  method SaveInPlace(image: array<Byte>, e: Entry)
    requires image.Length == SIZE
    modifies image
    ensures image[..] == Save(old(image[..]), e)
  {
    ghost var was: Image := image[..];
    var count := LoadedCount(image);
    assert count == |Load(was)|;
    var total := PutInPlace(image, count, e);
    SealInPlace(image, total);
  }

  /** The name copied up to its terminator into a cleared entry. */
  method NormaliseInPlace(pairing: Entry) returns (e: Entry)
    ensures e == Normalise(pairing)
  {
    var length := 0;
    while length < 64 && pairing[1 + length] != 0
      invariant 0 <= length <= 64 && forall j :: 0 <= j < length ==> pairing[1..][j] != 0
    {
      assert pairing[1..][length] == pairing[1 + length];
      length := length + 1;
    }
    assert length < 64 ==> pairing[1..][length] == 0;
    assert IndexOf(pairing[1..], 0) == length;
    var copied := if length < 63 then length else 63;
    e := seq(ENTRY_BYTES, i requires 0 <= i < ENTRY_BYTES => if i <= copied then pairing[i] else 0);
  }

  /** Writes the image when the driver lets it, then reads it back: what was written must be there and be valid. */
  method WriteImage(flash: array<Byte>, image: seq<Byte>, written: bool) returns (ok: bool)
    requires flash.Length == SIZE == |image|
    modifies flash
    ensures flash[..] == if written then image else old(flash[..])
    ensures ok == (written && Valid(image))
  {
    if !written {
      return false;
    }
    OverwriteInPlace(flash, 0, image);
    assert flash[..] == flash[..][0..SIZE];
    ok := IsValid(flash);
    ok := ok && flash[..] == image;
  }

  /**
   Saves a pairing: reads the image, puts the normalised pairing in, writes it back and reports whether that worked. It
   did exactly when the driver wrote: whether the pairing itself found room makes no difference to the report.
   */
  method SavePairing(flash: array<Byte>, pairing: Entry, written: bool) returns (ok: bool)
    requires flash.Length == SIZE
    modifies flash
    ensures ok == written
    ensures flash[..] == if written then Save(old(flash[..]), Normalise(pairing)) else old(flash[..])
  {
    var e := NormaliseInPlace(pairing);
    var image := new Byte[SIZE](i requires 0 <= i < SIZE reads flash => flash[i]);
    assert image[..] == flash[..];
    SaveInPlace(image, e);
    SaveValid(flash[..], e);
    ok := WriteImage(flash, image[..], written);
  }
}
