/**
 Runs from start-up in which audio is taken twice, in which a lost frame is not counted, and in which the audio of an
 accepted session is refused.
 */
module RuntimeAudioRun {
  import opened Machine
  import opened SerialWindow
  import opened RuntimeSpec
  import opened RuntimeInvariant
  import opened RuntimeRuns
  import opened RuntimeHeard
  import opened RuntimeHeardRuns
  import opened RuntimeAudio
  import opened RuntimeWitness
  import Protocol

  /** Peer 7 is online in slot 0, with a session of its own. */
  ghost predicate Live(rt: Runtime) {
    Coherent(rt) && HasTransport(rt) && rt.localId == 1 && Online(rt, 0, 7) && rt.links[0].active
  }

  /** Peer 7 is in the given session, and its link has heard this much. */
  ghost predicate Streaming(rt: Runtime, session: Word32, ear: Ear) {
    Live(rt) && rt.links[0].session == session && EarOf(rt.links[0]) == ear
  }

  function Audio(session: Word32, sequence: Word16): Protocol.Message { Mail(Protocol.AUDIO, session, sequence) }

  predicate FromSeven(m: Protocol.Message) { m == Mail(m.kind, m.sessionId, m.sequence) && m.kind != 0 }

  lemma LiveArrives(rt: Runtime, m: Protocol.Message)
    requires Live(rt) && FromSeven(m)
    ensures Arrives(rt, 0, Protocol.Encode(m), m)
  {
    MailDecodes(m);
  }

  /** The ear after audio with this sequence. */
  function Played(ear: Ear, sequence: Word16): Ear {
    Ear(Moved(ear.lastRx, sequence, Judge(sequence, ear.lastRx, true)), sequence,
        Wrap32(ear.missing + Gap(ear.lastAudio, sequence)))
  }

  lemma StreamTakes(rt: Runtime, session: Word32, ear: Ear, m: Protocol.Message)
    requires Streaming(rt, session, ear) && m == Audio(session, m.sequence)
    requires Judge(m.sequence, ear.lastRx, true) != Drop
    ensures HandlePayload(rt, 7, Protocol.Encode(m)).ok
    ensures Streaming(HandlePayload(rt, 7, Protocol.Encode(m)).rt, session, Played(ear, m.sequence))
  {
    LiveArrives(rt, m);
    AudioTaken(rt, 0, Protocol.Encode(m), m);
    TakingEar(rt.links[0], m, rt.now);
    StillLive(HandlePayload(rt, 7, Protocol.Encode(m)).rt, Protocol.Encode(m), m);
  }

  lemma TakingEar(l: Link, m: Protocol.Message, now: Word32)
    ensures var l' := Taking(l, m, now);
            EarOf(l') == Played(EarOf(l), m.sequence) && l'.session == l.session && l'.active == l.active
  {
  }

  lemma StillLive(rt: Runtime, bytes: seq<Byte>, m: Protocol.Message)
    requires Arrives(rt, 0, bytes, m) && m.source == 7 && rt.localId == 1 && rt.links[0].active
    ensures Live(rt)
  {
  }

  /** One more audio message that the filter passes. */
  lemma Plays(start: Runtime, events: seq<Event>, rt: Runtime, session: Word32, ear: Ear, m: Protocol.Message)
    returns (next: Runtime)
    requires Reaches(start, events, rt) && Streaming(rt, session, ear) && m == Audio(session, m.sequence)
    requires Judge(m.sequence, ear.lastRx, true) != Drop
    ensures HandlePayload(rt, 7, Protocol.Encode(m)).ok
    ensures Reaches(start, events + [Arriving(m)], next) && Streaming(next, session, Played(ear, m.sequence))
  {
    StreamTakes(rt, session, ear, m);
    next := Delivered(start, events, rt, m);
  }

  lemma OpensStream(start: Runtime, events: seq<Event>) returns (a: Runtime)
    requires start == Start() && events == Opening()
    ensures Reaches(start, events, a) && Streaming(a, 5, Ear(1, 0, 0))
  {
    a := Opens(start);
  }

  // --- taken twice ---

  lemma HalfwayAgain()
    ensures Judge(0x8001, 1, true) == Pass && Played(Ear(1, 0, 0), 0x8001) == Ear(1, 0x8001, 0)
  {
  }

  /** From start-up: a session whose peer sends one audio message twice, and both copies are taken. */
  lemma DuplicateTaken(start: Runtime, m: Protocol.Message) returns (a: Runtime, b: Runtime, c: Runtime)
    requires start == Start() && m == Audio(5, 0x8001)
    ensures Reaches(start, Opening(), a) && HandlePayload(a, 7, Protocol.Encode(m)).ok
    ensures Reaches(start, Opening() + [Arriving(m)], b) && HandlePayload(b, 7, Protocol.Encode(m)).ok
    ensures Reaches(start, Opening() + [Arriving(m)] + [Arriving(m)], c)
  {
    a := OpensStream(start, Opening());
    b, c := PlaysTwice(start, Opening(), a, m, 5, Ear(1, 0, 0));
  }

  lemma PlaysTwice(start: Runtime, events: seq<Event>, a: Runtime, m: Protocol.Message, session: Word32, ear: Ear)
    returns (b: Runtime, c: Runtime)
    requires Reaches(start, events, a) && Streaming(a, session, ear) && ear == Ear(1, 0, 0)
    requires m == Audio(session, m.sequence) && m.sequence == 0x8001
    ensures HandlePayload(a, 7, Protocol.Encode(m)).ok && Reaches(start, events + [Arriving(m)], b)
    ensures HandlePayload(b, 7, Protocol.Encode(m)).ok && Reaches(start, events + [Arriving(m)] + [Arriving(m)], c)
  {
    HalfwayAgain();
    b := Plays(start, events, a, session, ear, m);
    c := Plays(start, events + [Arriving(m)], b, session, Played(ear, m.sequence), m);
  }

  // --- lost and not counted ---

  /** Audio of one session with these sequences, in order. */
  function Playing(session: Word32, ss: seq<Word16>): seq<Event>
    decreases |ss|
  {
    if ss == [] then [] else [Arriving(Audio(session, ss[0]))] + Playing(session, ss[1..])
  }

  lemma PlayingRest(events: seq<Event>, session: Word32, ss: seq<Word16>)
    requires ss != []
    ensures events + [Arriving(Audio(session, ss[0]))] + Playing(session, ss[1..]) == events + Playing(session, ss)
  {
  }

  function PlayedAll(ear: Ear, ss: seq<Word16>): Ear
    decreases |ss|
  {
    if ss == [] then ear else PlayedAll(Played(ear, ss[0]), ss[1..])
  }

  predicate AllPassed(ear: Ear, ss: seq<Word16>)
    decreases |ss|
  {
    ss == [] || (Judge(ss[0], ear.lastRx, true) != Drop && AllPassed(Played(ear, ss[0]), ss[1..]))
  }

  /** A stream that the filter passes is taken whole. */
  lemma {:induction false} PlaysAll(start: Runtime, events: seq<Event>, a: Runtime, session: Word32, ear: Ear,
      ss: seq<Word16>)
    returns (rt: Runtime)
    requires Reaches(start, events, a) && Streaming(a, session, ear) && AllPassed(ear, ss)
    ensures Reaches(start, events + Playing(session, ss), rt) && Streaming(rt, session, PlayedAll(ear, ss))
    decreases |ss|
  {
    if ss == [] {
      rt := a;
      assert events + [] == events;
    } else {
      var m := Audio(session, ss[0]);
      var next := Plays(start, events, a, session, ear, m);
      PlayingRest(events, session, ss);
      rt := PlaysAll(start, events + [Arriving(m)], next, session, Played(ear, m.sequence), ss[1..]);
    }
  }

  /** By their true numbers 0x8000, 0xFFFF, 0x10000 and 0x10002: 0x7FFF frames in between never arrive. */
  function Broken(): seq<Word16> { [0x8000, 0xFFFF, 0, 2] }

  lemma BrokenCount()
    ensures AllPassed(Ear(1, 0, 0), Broken()) && PlayedAll(Ear(1, 0, 0), Broken()) == Ear(2, 2, 0x7FFE)
  {
    assert Played(Ear(1, 0, 0), 0x8000) == Ear(0x8000, 0x8000, 0);
    assert Played(Ear(0x8000, 0x8000, 0), 0xFFFF) == Ear(0xFFFF, 0xFFFF, 0x7FFE);
    assert Played(Ear(0xFFFF, 0xFFFF, 0x7FFE), 0) == Ear(0, 0, 0x7FFE);
    assert Played(Ear(0, 0, 0x7FFE), 2) == Ear(2, 2, 0x7FFE);
  }

  /** From start-up: 0x7FFF frames are lost and 0x7FFE are counted. */
  lemma LossUncounted(start: Runtime, ss: seq<Word16>) returns (rt: Runtime)
    requires start == Start() && ss == Broken()
    ensures Reaches(start, Opening() + Playing(5, ss), rt)
    ensures |rt.links| == MAX_PEERS && Owns(rt.links[0], 7) && rt.links[0].missing == 0x7FFE
  {
    var a := OpensStream(start, Opening());
    BrokenCount();
    rt := PlaysAll(start, Opening(), a, 5, Ear(1, 0, 0), ss);
  }

  // --- refused in its own session ---

  lemma StreamRestarts(rt: Runtime, session: Word32, ear: Ear, h: Protocol.Message)
    requires Streaming(rt, session, ear) && FromSeven(h) && h.kind == Protocol.HELLO && h.sessionId != 0
    requires h.sequence != ear.lastRx && !Newer(h.sequence, ear.lastRx)
    ensures Streaming(HandlePayload(rt, 7, Protocol.Encode(h)).rt, h.sessionId, ear)
  {
    LiveArrives(rt, h);
    HelloOpens(rt, 0, Protocol.Encode(h), h);
  }

  lemma StreamRefuses(rt: Runtime, session: Word32, ear: Ear, m: Protocol.Message)
    requires Streaming(rt, session, ear) && m == Audio(session, m.sequence)
            && Judge(m.sequence, ear.lastRx, true) == Drop
    ensures !HandlePayload(rt, 7, Protocol.Encode(m)).ok
  {
    LiveArrives(rt, m);
    AudioTaken(rt, 0, Protocol.Encode(m), m);
  }

  lemma RestartsFrom(start: Runtime, events: seq<Event>, b: Runtime, session: Word32, ear: Ear, h: Protocol.Message,
      again: Protocol.Message)
    returns (rt: Runtime)
    requires Reaches(start, events, b) && Streaming(b, session, ear)
    requires FromSeven(h) && h.kind == Protocol.HELLO && h.sessionId != 0
    requires h.sequence != ear.lastRx && !Newer(h.sequence, ear.lastRx)
    requires again == Audio(h.sessionId, again.sequence) && Judge(again.sequence, ear.lastRx, true) == Drop
    ensures Reaches(start, events + [Arriving(h)], rt) && Streaming(rt, h.sessionId, ear)
    ensures !HandlePayload(rt, 7, Protocol.Encode(again)).ok
  {
    StreamRestarts(b, session, ear, h);
    rt := Delivered(start, events, b, h);
    StreamRefuses(rt, h.sessionId, ear, again);
  }

  lemma RestartVerdicts()
    ensures Judge(0x100, 1, true) == Advance && Played(Ear(1, 0, 0), 0x100) == Ear(0x100, 0x100, 0)
    ensures !Newer(1, 0x100) && Judge(2, 0x100, true) == Drop
  {
  }

  lemma RestartsAfter(start: Runtime, events: seq<Event>, a: Runtime, ear: Ear, m: Protocol.Message,
      h: Protocol.Message,
      again: Protocol.Message)
    returns (rt: Runtime)
    requires Reaches(start, events, a) && Streaming(a, 5, ear) && ear == Ear(1, 0, 0)
    requires m == Audio(5, m.sequence) && m.sequence == 0x100
    requires FromSeven(h) && h.kind == Protocol.HELLO && h.sessionId == 6 && h.sequence == 1
    requires again == Audio(h.sessionId, again.sequence) && again.sequence == 2
    ensures Reaches(start, events + [Arriving(m)] + [Arriving(h)], rt) && Streaming(rt, h.sessionId, Played(ear, 0x100))
    ensures !HandlePayload(rt, 7, Protocol.Encode(again)).ok
  {
    RestartVerdicts();
    var b := Plays(start, events, a, 5, ear, m);
    rt := RestartsFrom(start, events + [Arriving(m)], b, 5, Played(ear, 0x100), h, again);
  }

  /**
   From start-up: peer 7 plays sequence 0x100, starts over with a hello under a new session, which is accepted, and the
   first audio of that session is refused.
   */
  lemma FreshAudioRefused(start: Runtime, m: Protocol.Message, h: Protocol.Message, again: Protocol.Message)
    returns (rt: Runtime)
    requires start == Start() && m == Audio(5, 0x100) && h == Mail(Protocol.HELLO, 6, 1) && again == Audio(6, 2)
    ensures Reaches(start, Opening() + [Arriving(m)] + [Arriving(h)], rt)
    ensures |rt.links| == MAX_PEERS && rt.links[0].active && rt.links[0].session == 6
    ensures !HandlePayload(rt, 7, Protocol.Encode(again)).ok
  {
    var a := OpensStream(start, Opening());
    rt := RestartsAfter(start, Opening(), a, Ear(1, 0, 0), m, h, again);
  }
}
