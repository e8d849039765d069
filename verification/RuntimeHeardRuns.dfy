/**
 The sequence filter and the missing-frame count over a run of the whole runtime. While one peer stays online in one
 slot, its link decides on every arriving message as a filter on unbounded message numbers would, accepts audio at most
 once and in order, and counts the frames in between.
 */
module RuntimeHeardRuns {
  import opened Machine
  import opened SerialWindow
  import opened RuntimeSpec
  import opened RuntimeInvariant
  import opened RuntimeRuns
  import opened RuntimeHeard
  import Protocol

  /** The peer is online in slot k all along the run: between two losses of it, so without a reset of its link. */
  ghost predicate Stays(rt: Runtime, events: seq<Event>, k: nat, id: Byte)
    decreases |events|
  {
    Online(rt, k, id) && (events == [] || Stays(Step(rt, events[0]), events[1..], k, id))
  }

  /**
   A message that arrived: its sequence field, whether it is audio, the link's verdict on it, and whether the link took
   it as audio of its session.
   */
  datatype Note = Note(sequence: Word16, audio: bool, verdict: Verdict, taken: bool)

  function NoteOf(l: Link, heard: Option<Protocol.Message>): (ns: seq<Note>)
    ensures |ns| <= 1
  {
    match heard
    case None => []
    case Some(m) => [Note(m.sequence, IsAudio(m), Judge(m.sequence, l.lastRx, IsAudio(m)), Accepts(l, m))]
  }

  /** The messages that arrive from the peer along the run. */
  ghost function Notes(rt: Runtime, events: seq<Event>, k: nat, id: Byte): seq<Note>
    requires Stays(rt, events, k, id)
    decreases |events|
  {
    if events == [] then []
    else NoteOf(rt.links[k], HeardFrom(rt, events[0], id)) + Notes(Step(rt, events[0]), events[1..], k, id)
  }

  /** The fields of a link that record what it heard. */
  datatype Ear = Ear(lastRx: Word16, lastAudio: Word16, missing: Word32)

  function EarOf(l: Link): Ear { Ear(l.lastRx, l.lastAudio, l.missing) }

  function Hearing(ear: Ear, n: Note): Ear {
    var lastRx := Moved(ear.lastRx, n.sequence, Judge(n.sequence, ear.lastRx, n.audio));
    if n.taken then Ear(lastRx, n.sequence, Wrap32(ear.missing + Gap(ear.lastAudio, n.sequence)))
    else ear.(lastRx := lastRx)
  }

  function After(ear: Ear, ns: seq<Note>): Ear
    decreases |ns|
  {
    if ns == [] then ear else After(Hearing(ear, ns[0]), ns[1..])
  }

  /** The verdicts are the filter's, and only audio that it lets through is taken. */
  predicate Filtered(ear: Ear, ns: seq<Note>)
    decreases |ns|
  {
    ns == [] ||
    (ns[0].verdict == Judge(ns[0].sequence, ear.lastRx, ns[0].audio)
        && (ns[0].taken ==> ns[0].audio && ns[0].verdict != Drop)
     && Filtered(Hearing(ear, ns[0]), ns[1..]))
  }

  lemma NoteHears(l: Link, l': Link, heard: Option<Protocol.Message>)
    requires StepHears(l, l', heard)
    ensures var ns := NoteOf(l, heard);
            if ns == [] then EarOf(l') == EarOf(l)
            else
              && EarOf(l') == Hearing(EarOf(l), ns[0])
              && ns[0].verdict == Judge(ns[0].sequence, l.lastRx, ns[0].audio)
              && (ns[0].taken ==> ns[0].audio && ns[0].verdict != Drop)
  {
  }

  lemma AfterCons(ear: Ear, a: seq<Note>, b: seq<Note>)
    requires |a| <= 1
    ensures a == [] ==> a + b == b
    ensures a != [] ==> (a + b)[0] == a[0] && (a + b)[1..] == b
  {
  }

  /** Whatever else happens while the peer stays online, its link holds what its messages, in order of arrival, left. */
  lemma {:induction false} NotesFollow(rt: Runtime, events: seq<Event>, last: Runtime, k: nat, id: Byte)
    requires Coherent(rt) && Reaches(rt, events, last) && Stays(rt, events, k, id)
    ensures Online(last, k, id)
    ensures var ns := Notes(rt, events, k, id);
            EarOf(last.links[k]) == After(EarOf(rt.links[k]), ns) && Filtered(EarOf(rt.links[k]), ns)
    decreases |events|
  {
    if events != [] {
      var next := Step(rt, events[0]);
      var heard := HeardFrom(rt, events[0], id);
      StepKeeps(rt, events[0]);
      StepEar(rt, events[0], k, id);
      NoteHears(rt.links[k], next.links[k], heard);
      NotesFollow(next, events[1..], last, k, id);
      AfterCons(EarOf(rt.links[k]), NoteOf(rt.links[k], heard), Notes(next, events[1..], k, id));
    }
  }

  // --- true numbers behind the sequence fields ---

  /** Each sequence field is the low sixteen bits of its message's unbounded number. */
  ghost predicate Stamped(ns: seq<Note>, numbers: seq<int>) {
    |numbers| == |ns| && forall i :: 0 <= i < |ns| ==> Wrap16(numbers[i]) == ns[i].sequence
  }

  /** The arrivals as deliveries over the channel. */
  function Deliveries(ns: seq<Note>, numbers: seq<int>): (ds: seq<Delivery>)
    requires |numbers| == |ns|
    ensures |ds| == |ns|
  {
    if ns == [] then [] else [Delivery(numbers[0], ns[0].audio)] + Deliveries(ns[1..], numbers[1..])
  }

  /** The true numbers of the audio the link took. */
  function Taken(ns: seq<Note>, numbers: seq<int>): seq<int>
    requires |numbers| == |ns|
  {
    if ns == [] then [] else (if ns[0].taken then [numbers[0]] else []) + Taken(ns[1..], numbers[1..])
  }

  lemma StampedRest(ns: seq<Note>, numbers: seq<int>)
    requires Stamped(ns, numbers) && ns != []
    ensures Wrap16(numbers[0]) == ns[0].sequence && Stamped(ns[1..], numbers[1..])
    ensures Deliveries(ns, numbers)[0] == Delivery(numbers[0], ns[0].audio)
    ensures Deliveries(ns, numbers)[1..] == Deliveries(ns[1..], numbers[1..])
  {
  }

  lemma {:induction false} PositionOf(ear: Ear, ns: seq<Note>, numbers: seq<int>)
    requires Stamped(ns, numbers)
    ensures After(ear, ns).lastRx == Position(ear.lastRx, Deliveries(ns, numbers))
    decreases |ns|
  {
    if ns != [] {
      StampedRest(ns, numbers);
      PositionOf(Hearing(ear, ns[0]), ns[1..], numbers[1..]);
    }
  }

  lemma IncreasingCons(n: int, us: seq<int>, at: int)
    requires Increasing(us) && at < n && forall i :: 0 <= i < |us| ==> n < us[i]
    ensures Increasing([n] + us) && forall i :: 0 <= i < |[n] + us| ==> at < ([n] + us)[i]
  {
  }

  lemma {:induction false} TakenInOrder(ear: Ear, ns: seq<Note>, numbers: seq<int>, at: int)
    requires Stamped(ns, numbers) && Filtered(ear, ns) && ear.lastRx == Wrap16(at)
            && AllDecidable(at, Deliveries(ns, numbers))
    ensures var us := Taken(ns, numbers); Increasing(us) && forall i :: 0 <= i < |us| ==> at < us[i]
    decreases |ns|
  {
    if ns != [] {
      StampedRest(ns, numbers);
      var n, audio := numbers[0], ns[0].audio;
      JudgeExact(n, at, audio);
      TakenInOrder(Hearing(ear, ns[0]), ns[1..], numbers[1..], MovedTrue(at, n, JudgeTrue(n, at, audio)));
      if ns[0].taken { IncreasingCons(n, Taken(ns[1..], numbers[1..]), at); }
    }
  }

  lemma WrapTwice(a: int, b: int)
    ensures Wrap32(Wrap32(a) + b) == Wrap32(a + b)
  {
  }

  lemma MissingCons(lastAudio: Word16, n: int, us: seq<int>)
    ensures Missing(lastAudio, [n] + us) == Gap(lastAudio, Wrap16(n)) + Missing(Wrap16(n), us)
  {
    assert ([n] + us)[1..] == us;
  }

  lemma MissingStep(ear: Ear, n: int, us: seq<int>)
    ensures Wrap32(Wrap32(ear.missing + Gap(ear.lastAudio, Wrap16(n))) + Missing(Wrap16(n), us))
            == Wrap32(ear.missing + Missing(ear.lastAudio, [n] + us))
  {
    MissingCons(ear.lastAudio, n, us);
    WrapTwice(ear.missing + Gap(ear.lastAudio, Wrap16(n)), Missing(Wrap16(n), us));
  }

  lemma {:induction false} MissingOf(ear: Ear, ns: seq<Note>, numbers: seq<int>)
    requires Stamped(ns, numbers)
    ensures var us := Taken(ns, numbers); After(ear, ns).missing == Wrap32(ear.missing + Missing(ear.lastAudio, us))
    decreases |ns|
  {
    if ns != [] {
      StampedRest(ns, numbers);
      MissingOf(Hearing(ear, ns[0]), ns[1..], numbers[1..]);
      MissingNext(ear, ns[0], numbers[0], Taken(ns[1..], numbers[1..]));
    }
  }

  /** What one arrival adds to the count, in front of the frames taken after it. */
  lemma MissingNext(ear: Ear, n: Note, number: int, us: seq<int>)
    requires Wrap16(number) == n.sequence
    ensures var next := Hearing(ear, n);
            Wrap32(next.missing + Missing(next.lastAudio, us))
            == Wrap32(ear.missing + Missing(ear.lastAudio, (if n.taken then [number] else []) + us))
  {
    if n.taken {
      MissingStep(ear, number, us);
    } else {
      assert [] + us == us;
    }
  }

  // --- what a link is left with, from its notes alone ---

  /** The link l has become l' by hearing ns. */
  predicate Heard(l: Link, l': Link, ns: seq<Note>) { EarOf(l') == After(EarOf(l), ns) && Filtered(EarOf(l), ns) }

  /** The 16-bit position on the arrivals and the sum of gaps in the audio taken. */
  predicate Follows(l: Link, l': Link, ns: seq<Note>, numbers: seq<int>)
    requires |numbers| == |ns|
  {
    && l'.lastRx == Position(l.lastRx, Deliveries(ns, numbers))
    && l'.missing == Wrap32(l.missing + Missing(l.lastAudio, Taken(ns, numbers)))
  }

  lemma HeardFollows(l: Link, l': Link, ns: seq<Note>, numbers: seq<int>)
    requires Heard(l, l', ns) && Stamped(ns, numbers)
    ensures Follows(l, l', ns, numbers)
  {
    PositionOf(EarOf(l), ns, numbers);
    MissingOf(EarOf(l), ns, numbers);
  }

  /** The verdicts the link gave, in order of arrival. */
  function Said(ns: seq<Note>): (vs: seq<Verdict>)
    ensures |vs| == |ns|
  {
    if ns == [] then [] else [ns[0].verdict] + Said(ns[1..])
  }

  lemma {:induction false} SaidIs(ear: Ear, ns: seq<Note>, numbers: seq<int>)
    requires Stamped(ns, numbers) && Filtered(ear, ns)
    ensures Said(ns) == Verdicts(ear.lastRx, Deliveries(ns, numbers))
    decreases |ns|
  {
    if ns != [] {
      StampedRest(ns, numbers);
      SaidIs(Hearing(ear, ns[0]), ns[1..], numbers[1..]);
    }
  }

  /** The position of a filter on the true numbers, never fallen, and the audio taken in strictly rising order. */
  ghost predicate InOrder(l': Link, ns: seq<Note>, numbers: seq<int>, at: int)
    requires |numbers| == |ns|
  {
    var ds, us := Deliveries(ns, numbers), Taken(ns, numbers);
    && l'.lastRx == Wrap16(PositionTrue(at, ds)) && PositionTrue(at, ds) >= at
    && Increasing(us) && forall i :: 0 <= i < |us| ==> at < us[i]
  }

  lemma HeardKeepsOrder(l: Link, l': Link, ns: seq<Note>, numbers: seq<int>, at: int)
    requires Heard(l, l', ns) && Stamped(ns, numbers) && l.lastRx == Wrap16(at)
    requires AllDecidable(at, Deliveries(ns, numbers))
    ensures InOrder(l', ns, numbers, at)
  {
    HeardFollows(l, l', ns, numbers);
    FilterRefines(at, Deliveries(ns, numbers));
    AudioInOrder(at, Deliveries(ns, numbers));
    TakenInOrder(EarOf(l), ns, numbers, at);
  }

  lemma WrapDifference(m: Word32, added: nat, rest: int)
    ensures Wrap32(rest + (Wrap32(m + added) - m)) == Wrap32(rest + added)
  {
    WrapTwice(m + added, rest - m);
  }

  /**
   Frames taken, the growth of the count and frames skipped after a zero sequence span the true numbers modulo 2^32.
   */
  predicate Spans(l: Link, l': Link, us: seq<int>)
    requires us != [] && Stepping(us)
  {
    Wrap32(|us| + Unseen(us) + (l'.missing - l.missing)) == Wrap32(us[|us| - 1] - us[0] + 1)
  }

  /** Frames taken and the growth of the count alone do. */
  predicate CountedExactly(l: Link, l': Link, us: seq<int>)
    requires us != []
  {
    Wrap32(|us| + (l'.missing - l.missing)) == Wrap32(us[|us| - 1] - us[0] + 1)
  }

  lemma CountSpans(l: Link, l': Link, us: seq<int>)
    requires us != [] && Stepping(us) && l'.missing == Wrap32(l.missing + Missing(0, us))
    ensures Spans(l, l', us)
  {
    MissingTelescopes(us);
    WrapDifference(l.missing, Missing(0, us), |us| + Unseen(us));
  }

  lemma SmallDifference(x: int, d: nat)
    requires d < 0x1_0000_0000
    ensures Wrap32(x - d) == Wrap32(x) <==> d == 0
  {
  }

  lemma CountExactIff(l: Link, l': Link, us: seq<int>)
    requires us != [] && Stepping(us) && us[|us| - 1] - us[0] < 0x1_0000_0000
    requires l'.missing == Wrap32(l.missing + Missing(0, us))
    ensures CountedExactly(l, l', us) <==> NoneUnseen(us)
  {
    UnseenIff(us);
    CountedIff(l, l', us, Unseen(us), us[|us| - 1] - us[0] + 1);
  }

  lemma CountedIff(l: Link, l': Link, us: seq<int>, unseen: nat, span: int)
    requires us != [] && Stepping(us) && unseen == Unseen(us) && span == us[|us| - 1] - us[0] + 1 <= 0x1_0000_0000
    requires l'.missing == Wrap32(l.missing + Missing(0, us))
    ensures Wrap32(|us| + (l'.missing - l.missing)) == Wrap32(span) <==> unseen == 0
  {
    MissingTelescopes(us);
    WrappedIff(|us|, l.missing, l'.missing, Missing(0, us), unseen, span);
  }

  lemma WrappedIff(taken: nat, m: Word32, m': Word32, added: nat, unseen: nat, span: int)
    requires m' == Wrap32(m + added) && taken + added + unseen == span && unseen < 0x1_0000_0000
    ensures Wrap32(taken + (m' - m)) == Wrap32(span) <==> unseen == 0
  {
    WrapDifference(m, added, taken);
    assert taken + added == span - unseen;
    SmallDifference(span, unseen);
  }

  // --- the results over runs of the runtime ---

  /** A run from rt to last along which id stays online in slot k, and the messages it brings from there. */
  ghost predicate Listens(rt: Runtime, events: seq<Event>, last: Runtime, k: nat, id: Byte, ns: seq<Note>) {
    Coherent(rt) && Reaches(rt, events, last) && Stays(rt, events, k, id) && ns == Notes(rt, events, k, id)
  }

  lemma RunHeard(rt: Runtime, events: seq<Event>, last: Runtime, k: nat, id: Byte, ns: seq<Note>)
    requires Listens(rt, events, last, k, id, ns)
    ensures Online(rt, k, id) && Online(last, k, id) && Heard(rt.links[k], last.links[k], ns)
  {
    NotesFollow(rt, events, last, k, id);
  }

  /**
   The link's last sequence is where the 16-bit filter stands after the arrivals, and its missing count has grown by the
   gaps in the audio it took, modulo 2^32. The numbers may be the sequence fields themselves.
   */
  lemma LinkFollows(rt: Runtime, events: seq<Event>, last: Runtime, k: nat, id: Byte, ns: seq<Note>, numbers: seq<int>)
    requires Listens(rt, events, last, k, id, ns) && Stamped(ns, numbers)
    ensures Online(rt, k, id) && Online(last, k, id) && Follows(rt.links[k], last.links[k], ns, numbers)
  {
    RunHeard(rt, events, last, k, id, ns);
    HeardFollows(rt.links[k], last.links[k], ns, numbers);
  }

  /**
   The link's verdicts are those of a filter on the true numbers exactly when every message arrives at a distance from
   the position on them that sixteen bits can decide, as within half the number space. Then the link ends where that
   filter ends, its position has not fallen, and the audio it took rises strictly in true number from above where it
   started: at most once, and in order.
   */
  lemma HeardInOrder(rt: Runtime, events: seq<Event>, last: Runtime, k: nat, id: Byte, ns: seq<Note>,
      numbers: seq<int>, at: int)
    requires Listens(rt, events, last, k, id, ns) && Stamped(ns, numbers) && rt.links[k].lastRx == Wrap16(at)
    ensures Online(last, k, id)
    ensures Said(ns) == VerdictsTrue(at, Deliveries(ns, numbers)) <==> AllDecidable(at, Deliveries(ns, numbers))
    ensures AllDecidable(at, Deliveries(ns, numbers)) ==> InOrder(last.links[k], ns, numbers, at)
    ensures Windowed(at, Deliveries(ns, numbers)) ==> AllDecidable(at, Deliveries(ns, numbers))
  {
    RunHeard(rt, events, last, k, id, ns);
    FilterRefines(at, Deliveries(ns, numbers));
    SaidIs(EarOf(rt.links[k]), ns, numbers);
    if AllDecidable(at, Deliveries(ns, numbers)) {
      HeardKeepsOrder(rt.links[k], last.links[k], ns, numbers, at);
    }
  }

  /** The count telescopes when no audio was heard before. */
  lemma MissingSpans(rt: Runtime, events: seq<Event>, last: Runtime, k: nat, id: Byte, ns: seq<Note>, numbers: seq<int>)
    requires Listens(rt, events, last, k, id, ns) && Stamped(ns, numbers) && rt.links[k].lastAudio == 0
    requires Taken(ns, numbers) != [] && Stepping(Taken(ns, numbers))
    ensures Online(last, k, id) && Spans(rt.links[k], last.links[k], Taken(ns, numbers))
  {
    LinkFollows(rt, events, last, k, id, ns, numbers);
    CountSpans(rt.links[k], last.links[k], Taken(ns, numbers));
  }

  /** The link's count is exact, modulo 2^32, precisely when nothing was lost right after a frame with sequence zero. */
  lemma MissingCountIff(rt: Runtime, events: seq<Event>, last: Runtime, k: nat, id: Byte, ns: seq<Note>,
      numbers: seq<int>)
    requires Listens(rt, events, last, k, id, ns) && Stamped(ns, numbers) && rt.links[k].lastAudio == 0
    requires var us := Taken(ns, numbers); us != [] && Stepping(us) && us[|us| - 1] - us[0] < 0x1_0000_0000
    ensures Online(last, k, id)
    ensures var us := Taken(ns, numbers); CountedExactly(rt.links[k], last.links[k], us) <==> NoneUnseen(us)
  {
    LinkFollows(rt, events, last, k, id, ns, numbers);
    CountExactIff(rt.links[k], last.links[k], Taken(ns, numbers));
  }
}
