/**
 The text form of the pairing list: one "id,name" line per peer, as printed and as read back with fgets and sscanf.
 */
module PairingText {
  import opened Machine
  import opened Sequences

  const MAX_COUNT: nat := 8
  const MAX_NAME: nat := 63
  const LINE_CHARS: nat := 127
  const NUL: char := 0 as char
  const CR: char := '\r'
  const LF: char := '\n'

  /** `name` is the string in the fixed name buffer, up to its terminator. */
  datatype Pairing = Pairing(id: Byte, name: string)

  // --- printing ---

  function Digits(n: nat): (d: string)
    ensures |d| >= 1
  {
    if n < 10 then [('0' as int + n) as char] else Digits(n / 10) + [('0' as int + n % 10) as char]
  }

  function Line(id: Byte, text: string): string { Digits(id) + ([','] + (text + [LF])) }

  function PrintOne(p: Pairing): string { Line(p.id, p.name) }

  function Print(ps: seq<Pairing>): string {
    if ps == [] then [] else PrintOne(ps[0]) + Print(ps[1..])
  }

  /** One line of the file as it looks. */
  lemma PrintsLine()
    ensures Print([Pairing(12, "Ann"), Pairing(7, "")]) == "12,Ann\n7,\n"
  {
    var a, b := Pairing(12, "Ann"), Pairing(7, "");
    assert Digits(12) == Digits(1) + ['2'] == "12" && Digits(7) == "7";
    assert PrintOne(a) == "12,Ann\n" && PrintOne(b) == "7,\n";
    assert Print([b]) == PrintOne(b) + Print([b][1..]);
    assert [a, b][1..] == [b];
  }

  // --- reading ---

  /** How much fgets takes: through the first newline, or a full buffer, or all there is. */
  function ChunkLength(s: string, limit: nat): (n: nat)
    ensures n <= |s| && n <= limit
    ensures s != [] && limit > 0 ==> n > 0
  {
    if s == [] || limit == 0 then 0
    else if s[0] == LF then 1
    else 1 + ChunkLength(s[1..], limit - 1)
  }

  /** The part of a buffer before its terminator. */
  function CString(s: string): (r: string)
    ensures |r| <= |s|
  {
    s[..IndexOf(s, NUL)]
  }

  predicate IsSpace(c: char) { c == ' ' || 9 <= c as int <= 13 }

  predicate IsDigit(c: char) { '0' <= c <= '9' }

  function SkipSpace(s: string): string {
    if s == [] || !IsSpace(s[0]) then s else SkipSpace(s[1..])
  }

  function LeadingDigits(s: string): string {
    if s == [] || !IsDigit(s[0]) then [] else [s[0]] + LeadingDigits(s[1..])
  }

  function DigitValue(c: char): nat
    requires IsDigit(c)
  {
    c as int - '0' as int
  }

  function Value(d: string): nat
    requires forall c :: c in d ==> IsDigit(c)
  {
    if d == [] then 0
    else
      assert d[|d| - 1] in d;
      10 * Value(d[..|d| - 1]) + DigitValue(d[|d| - 1])
  }

  /** An optionally signed decimal number in byte range; a negative number is out of range. */
  function ScanId(s: string): Option<Byte> {
    var t := SkipSpace(s);
    var negative := t != [] && t[0] == '-';
    var d := LeadingDigits(if t != [] && (t[0] == '-' || t[0] == '+') then t[1..] else t);
    LeadingAreDigits(if t != [] && (t[0] == '-' || t[0] == '+') then t[1..] else t);
    if d == [] || Value(d) > 0xFF || (negative && Value(d) != 0) then None else Some(Value(d))
  }

  /** Drops line feeds and carriage returns from the end. */
  function Trim(s: string): (r: string)
    ensures |r| <= |s| && r == s[..|r|]
    ensures r != [] ==> r[|r| - 1] != LF && r[|r| - 1] != CR
  {
    if s != [] && (s[|s| - 1] == LF || s[|s| - 1] == CR) then Trim(s[..|s| - 1]) else s
  }

  /** What fits into the name buffer of a string. */
  function Fit(s: string): (r: string)
    ensures |r| <= MAX_NAME && |r| <= |s|
  {
    s[..if |s| < MAX_NAME then |s| else MAX_NAME]
  }

  function ParseLine(chunk: string): Option<Pairing> {
    var line := CString(chunk);
    var k := IndexOf(line, ',');
    if k == |line| then None
    else
      match ScanId(line[..k])
      case None => None
      case Some(id) => Some(Pairing(id, Fit(Trim(line[k + 1..]))))
  }

  /** Reads lines until the text ends or `room` entries have been stored; lines that do not parse are skipped. */
  function Read(s: string, room: nat): (ps: seq<Pairing>)
    ensures |ps| <= room
    decreases |s|
  {
    if room == 0 || s == [] then []
    else
      var n := ChunkLength(s, LINE_CHARS);
      match ParseLine(s[..n])
      case None => Read(s[n..], room)
      case Some(p) => [p] + Read(s[n..], room - 1)
  }

  // --- digits ---

  lemma {:induction false} LeadingAreDigits(s: string)
    ensures forall c :: c in LeadingDigits(s) ==> IsDigit(c)
  {
    if s != [] && IsDigit(s[0]) { LeadingAreDigits(s[1..]); }
  }

  lemma {:induction false} DigitsAreDigits(n: nat)
    ensures forall c :: c in Digits(n) ==> IsDigit(c)
  {
    if n >= 10 { DigitsAreDigits(n / 10); }
  }

  lemma {:induction false} ValueOfDigits(n: nat)
    requires forall c :: c in Digits(n) ==> IsDigit(c)
    ensures Value(Digits(n)) == n
  {
    var d := Digits(n);
    if n >= 10 {
      DigitsAreDigits(n / 10);
      ValueOfDigits(n / 10);
      assert d[..|d| - 1] == Digits(n / 10);
    } else {
      assert d[..0] == [];
      assert Value(d[..|d| - 1]) == 0;
    }
  }

  lemma ByteDigits(id: Byte)
    ensures |Digits(id)| <= 3
  {
    if id >= 10 {
      assert |Digits(id / 10)| <= 2 by {
        if id / 10 >= 10 { assert Digits(id / 10) == Digits(id / 100) + [Digits(id / 10)[1]]; }
      }
    }
  }

  lemma {:induction false} LeadingAll(d: string)
    requires forall c :: c in d ==> IsDigit(c)
    ensures LeadingDigits(d) == d
  {
    if d != [] {
      assert d[0] in d;
      assert forall c :: c in d[1..] ==> c in d;
      LeadingAll(d[1..]);
    }
  }

  lemma ScanDigits(id: Byte)
    ensures ScanId(Digits(id)) == Some(id)
  {
    var d := Digits(id);
    DigitsAreDigits(id);
    assert d[0] in d;
    LeadingAll(d);
    ValueOfDigits(id);
  }

  // --- one printed line ---

  /** The name fills its buffer properly: at most 63 characters, none of them the terminator. */
  predicate Storable(p: Pairing) { |p.name| <= MAX_NAME && NUL !in p.name }

  /** Printing the name keeps it on one line that ends where the name ends. */
  predicate LineSafe(name: string) { LF !in name && (name != [] ==> name[|name| - 1] != CR) }

  /** The part of a name that lands on its first line. */
  function FirstLine(name: string): string { name[..IndexOf(name, LF)] }

  lemma {:induction false} ChunkOfLine(a: string, b: string, limit: nat)
    requires LF !in a && |a| < limit
    ensures ChunkLength(a + [LF] + b, limit) == |a| + 1
  {
    var s := a + [LF] + b;
    if a != [] {
      assert s[1..] == a[1..] + [LF] + b;
      ChunkOfLine(a[1..], b, limit - 1);
    }
  }

  lemma {:induction false} TrimSafe(s: string)
    requires s == [] || (s[|s| - 1] != CR && s[|s| - 1] != LF)
    ensures Trim(s) == s && Trim(s + [LF]) == s
  {
    assert (s + [LF])[..|s|] == s;
  }

  lemma TrimFeed(s: string)
    ensures Trim(s + [LF]) == Trim(s)
  {
    assert (s + [LF])[..|s|] == s;
  }

  lemma IndexAt(s: string, c: char, k: nat)
    requires k < |s| && s[k] == c && forall j :: 0 <= j < k ==> s[j] != c
    ensures IndexOf(s, c) == k
  {
  }

  lemma NoTerminator(s: string)
    requires NUL !in s
    ensures CString(s) == s
  {
    assert s[..|s|] == s;
  }

  lemma LineParts(id: Byte, text: string)
    ensures var line, d := Line(id, text), Digits(id);
            IndexOf(line, ',') == |d| && line[..|d|] == d && line[|d| + 1..] == text + [LF]
  {
    var line, d := Line(id, text), Digits(id);
    DigitsAreDigits(id);
    Joined(d, text + [LF]);
    assert forall j :: 0 <= j < |d| ==> line[j] == d[j] && d[j] in d;
    IndexAt(line, ',', |d|);
  }

  lemma Joined(d: string, rest: string)
    ensures var line := d + ([','] + rest);
            line[..|d|] == d && line[|d|] == ',' && line[|d| + 1..] == rest
  {
  }

  lemma LineHasNo(id: Byte, text: string, c: char)
    requires !IsDigit(c) && c != ',' && c != LF && c !in text
    ensures c !in Line(id, text)
  {
    DigitsAreDigits(id);
  }

  /** The first line of a printed entry, read back. */
  lemma ParsePrinted(id: Byte, text: string)
    requires NUL !in text
    ensures ParseLine(Line(id, text)) == Some(Pairing(id, Fit(Trim(text))))
  {
    LineHasNo(id, text, NUL);
    NoTerminator(Line(id, text));
    LineParts(id, text);
    ScanDigits(id);
    TrimFeed(text);
  }

  /** What a printed name leaves after its first line, followed by the rest of the text. */
  function Leftover(name: string, rest: string): string {
    var k := IndexOf(name, LF);
    if k < |name| then name[k + 1..] + ([LF] + rest) else rest
  }

  lemma FirstLineSplits(name: string, rest: string)
    ensures LF !in FirstLine(name) && name + ([LF] + rest) == FirstLine(name) + ([LF] + Leftover(name, rest))
  {
    var k := IndexOf(name, LF);
    if k < |name| {
      assert name == FirstLine(name) + [LF] + name[k + 1..];
    } else {
      assert FirstLine(name) == name;
    }
  }

  lemma LineShort(id: Byte, text: string)
    requires |text| <= MAX_NAME && LF !in text
    ensures forall tail :: ChunkLength(Line(id, text) + tail, LINE_CHARS) == |Line(id, text)|
  {
    ByteDigits(id);
    DigitsAreDigits(id);
    var a := Digits(id) + ([','] + text);
    assert LF !in Digits(id);
    assert a + [LF] == Line(id, text);
    forall tail ensures ChunkLength(Line(id, text) + tail, LINE_CHARS) == |Line(id, text)| {
      ChunkOfLine(a, tail, LINE_CHARS);
    }
  }

  /** A printed entry is its first line followed by whatever the name put after it. */
  lemma PrintedSplits(p: Pairing, rest: string)
    ensures PrintOne(p) + rest == Line(p.id, FirstLine(p.name)) + Leftover(p.name, rest)
  {
    FirstLineSplits(p.name, rest);
    var f, tail := FirstLine(p.name), Leftover(p.name, rest);
    assert PrintOne(p) + rest == Digits(p.id) + ([','] + (p.name + ([LF] + rest)));
    assert Line(p.id, f) + tail == Digits(p.id) + ([','] + (f + ([LF] + tail)));
  }

  lemma ReadPrinted(p: Pairing, rest: string, room: nat)
    requires Storable(p) && room > 0
    ensures Read(PrintOne(p) + rest, room) ==
            [Pairing(p.id, Trim(FirstLine(p.name)))] + Read(Leftover(p.name, rest), room - 1)
  {
    var f, s, tail := FirstLine(p.name), PrintOne(p) + rest, Leftover(p.name, rest);
    PrintedSplits(p, rest);
    FirstLineSplits(p.name, rest);
    LineShort(p.id, f);
    ParsePrinted(p.id, f);
    var n := ChunkLength(s, LINE_CHARS);
    assert s[..n] == Line(p.id, f) && s[n..] == tail;
    assert Fit(Trim(f)) == Trim(f);
  }

  /** A name survives its line exactly when it is line-safe. */
  lemma NameSurvivesIff(name: string)
    ensures Trim(FirstLine(name)) == name <==> LineSafe(name)
  {
    var f := FirstLine(name);
    if LF !in name {
      assert f == name;
      if LineSafe(name) {
        TrimSafe(name);
        if name != [] { assert name[|name| - 1] in name; }
      }
    }
  }

  // --- the round trip ---

  ghost predicate AllSafe(ps: seq<Pairing>) { forall p :: p in ps ==> LineSafe(p.name) }

  ghost predicate AllStorable(ps: seq<Pairing>) { forall p :: p in ps ==> Storable(p) }

  lemma AllOfCons(p: Pairing, rest: seq<Pairing>)
    ensures AllSafe([p] + rest) <==> LineSafe(p.name) && AllSafe(rest)
    ensures AllStorable([p] + rest) <==> Storable(p) && AllStorable(rest)
  {
    assert p in [p] + rest;
    assert forall q :: q in [p] + rest <==> q == p || q in rest;
  }

  /** Reading what was printed gives the list back exactly when the first name is line-safe and the rest comes back. */
  lemma HeadIff(p: Pairing, rest: seq<Pairing>, room: nat)
    requires Storable(p) && room > 0
    ensures Read(PrintOne(p) + Print(rest), room) == [p] + rest
            <==> LineSafe(p.name) && Read(Print(rest), room - 1) == rest
  {
    var first, tail := Pairing(p.id, Trim(FirstLine(p.name))), Read(Leftover(p.name, Print(rest)), room - 1);
    ReadPrinted(p, Print(rest), room);
    NameSurvivesIff(p.name);
    assert ([first] + tail)[0] == first && ([p] + rest)[0] == p;
    SameTail(p, tail, rest);
    assert LineSafe(p.name) ==> Leftover(p.name, Print(rest)) == Print(rest);
  }

  ghost predicate Survives(ps: seq<Pairing>, room: nat) { Read(Print(ps), room) == ps }

  lemma SurvivesStep(ps: seq<Pairing>, room: nat)
    requires ps != [] && Storable(ps[0]) && room > 0
    ensures Survives(ps, room) <==> LineSafe(ps[0].name) && Survives(ps[1..], room - 1)
  {
    assert ps == [ps[0]] + ps[1..];
    HeadIff(ps[0], ps[1..], room);
  }

  lemma AllOfRest(ps: seq<Pairing>)
    requires ps != []
    ensures AllSafe(ps) <==> LineSafe(ps[0].name) && AllSafe(ps[1..])
    ensures AllStorable(ps) <==> Storable(ps[0]) && AllStorable(ps[1..])
  {
    assert ps == [ps[0]] + ps[1..];
    AllOfCons(ps[0], ps[1..]);
  }

  lemma NoneSurvives(room: nat)
    ensures Survives([], room) && AllSafe([])
  {
    assert Print([]) == [] && Read([], room) == [];
  }

  lemma {:induction false} SurvivesIff(ps: seq<Pairing>, room: nat)
    requires |ps| <= room && AllStorable(ps)
    ensures Survives(ps, room) == AllSafe(ps)
    decreases |ps|
  {
    if ps == [] {
      NoneSurvives(room);
    } else {
      AllOfRest(ps);
      SurvivesIff(ps[1..], room - 1);
      SurvivesSafely(ps, room);
    }
  }

  lemma SurvivesSafely(ps: seq<Pairing>, room: nat)
    requires ps != [] && Storable(ps[0]) && room > 0 && Survives(ps[1..], room - 1) == AllSafe(ps[1..])
    ensures Survives(ps, room) == AllSafe(ps)
  {
    AllOfRest(ps);
    SurvivesStep(ps, room);
  }

  /** Printing then reading a list is the identity exactly when every name is line-safe. */
  lemma ReadPrintIff(ps: seq<Pairing>, room: nat)
    requires |ps| <= room && AllStorable(ps)
    ensures Read(Print(ps), room) == ps <==> AllSafe(ps)
  {
    SurvivesIff(ps, room);
  }

  lemma SameTail<T>(x: T, a: seq<T>, b: seq<T>)
    ensures [x] + a == [x] + b <==> a == b
  {
    assert ([x] + a)[1..] == a && ([x] + b)[1..] == b;
  }

  // --- the in-place forms ---

  lemma PrefixTail<T>(s: seq<T>, k: nat)
    requires 0 < k <= |s|
    ensures s[..k] != [] && s[..k][0] == s[0] && s[..k][1..] == s[1..][..k - 1]
  {
  }

  lemma {:induction false} PrintOneMore(ps: seq<Pairing>, k: nat)
    requires k < |ps|
    ensures Print(ps[..k + 1]) == Print(ps[..k]) + PrintOne(ps[k])
  {
    if k > 0 {
      PrefixTail(ps, k);
      PrefixTail(ps, k + 1);
      PrintOneMore(ps[1..], k - 1);
    }
  }

  method WriteHandle(pairings: array<Pairing>, count: nat) returns (text: string)
    requires count <= pairings.Length
    ensures text == Print(pairings[..count])
  {
    text := [];
    for k := 0 to count
      invariant text == Print(pairings[..k])
    {
      PrintOneMore(pairings[..], k);
      assert pairings[..][..k + 1] == pairings[..k + 1] && pairings[..][..k] == pairings[..k];
      text := text + PrintOne(pairings[k]);
    }
  }

  method TrimNewline(value: string) returns (r: string)
    ensures r == Trim(value)
  {
    r := value;
    while |r| > 0 && (r[|r| - 1] == LF || r[|r| - 1] == CR)
      invariant Trim(r) == Trim(value)
    {
      r := r[..|r| - 1];
    }
  }

  /** One line, taken apart as the reader does: the separator, the number, then the trimmed name. */
  method ParseInto(chunk: string) returns (r: Option<Pairing>)
    ensures r == ParseLine(chunk)
  {
    var line := CString(chunk);
    var separator := IndexOf(line, ',');
    if separator == |line| {
      return None;
    }
    var id := ScanId(line[..separator]);
    if id == None {
      return None;
    }
    var name := TrimNewline(line[separator + 1..]);
    r := Some(Pairing(id.value, Fit(name)));
  }

  /** Reading one more line, with what has been loaded so far in front. */
  lemma ReadStep(loaded: seq<Pairing>, s: string, room: nat)
    requires s != [] && room > 0
    ensures var n := ChunkLength(s, LINE_CHARS);
            loaded + Read(s, room) == match ParseLine(s[..n])
                                      case None => loaded + Read(s[n..], room)
                                      case Some(p) => (loaded + [p]) + Read(s[n..], room - 1)
  {
    var n := ChunkLength(s, LINE_CHARS);
    var entry := ParseLine(s[..n]);
    if entry.Some? {
      JoinThree(loaded, [entry.value], Read(s[n..], room - 1));
    }
  }

  lemma JoinThree<T>(a: seq<T>, b: seq<T>, c: seq<T>)
    ensures a + (b + c) == (a + b) + c
  {
  }

  lemma JoinEmpty<T>(s: seq<T>)
    ensures [] + s == s && s + [] == s
  {
  }

  method Store(pairings: array<Pairing>, count: nat, p: Pairing)
    requires count < pairings.Length
    modifies pairings
    ensures pairings[..count + 1] == old(pairings[..count]) + [p]
  {
    pairings[count] := p;
  }

  /** Fills the caller's array with the entries of a file. */
  method ReadHandle(text: string, pairings: array<Pairing>) returns (count: nat)
    requires pairings.Length == MAX_COUNT
    modifies pairings
    ensures count <= MAX_COUNT && pairings[..count] == Read(text, MAX_COUNT)
  {
    count := 0;
    var handle := text;
    assert pairings[..0] == [];
    JoinEmpty(Read(text, MAX_COUNT));
    while count < MAX_COUNT && handle != []
      invariant count <= MAX_COUNT
      invariant pairings[..count] + Read(handle, MAX_COUNT - count) == Read(text, MAX_COUNT)
      decreases |handle|
    {
      ReadStep(pairings[..count], handle, MAX_COUNT - count);
      var n := ChunkLength(handle, LINE_CHARS);
      var entry := ParseInto(handle[..n]);
      handle := handle[n..];
      if entry.Some? {
        Store(pairings, count, entry.value);
        count := count + 1;
      }
    }
    JoinEmpty(pairings[..count]);
  }
}
