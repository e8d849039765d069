/**
 The 16-bit duplicate filter of a link, in the serial-number arithmetic of section 3.2 of RFC 1982, against the same
 filter on unbounded message numbers; and the missing-frame count built on the sequences the filter lets through.
 */
module SerialWindow {
  import opened Machine

  predicate Newer(sequence: Word16, previous: Word16) {
    var delta := Wrap16(sequence - previous);
    delta != 0 && delta < 0x8000
  }

  predicate Stale(sequence: Word16, previous: Word16) {
    var delta := Wrap16(previous - sequence);
    delta != 0 && delta < 0x8000
  }

  /** Advance: accept and move the receive position. Pass: accept without moving it. */
  datatype Verdict = Advance | Pass | Drop

  function Judge(sequence: Word16, last: Word16, audio: bool): Verdict {
    if Newer(sequence, last) then Advance
    else if sequence == last || (audio && Stale(sequence, last)) then Drop
    else Pass
  }

  /** The filter on true message numbers that the 16-bit one stands for. */
  function JudgeTrue(number: int, last: int, audio: bool): Verdict {
    if number > last then Advance
    else if number == last || audio then Drop
    else Pass
  }

  /** The residues at which the 16-bit filter takes the right decision for a message this far from the position. */
  predicate Decidable(distance: int, audio: bool) {
    var residue := distance % 0x1_0000;
    if distance > 0 then 1 <= residue < 0x8000
    else if distance == 0 then true
    else if audio then residue == 0 || residue > 0x8000
    else residue >= 0x8000
  }

  /** The 16-bit filter agrees with the unbounded one exactly at the decidable distances. */
  lemma JudgeExact(number: int, last: int, audio: bool)
    ensures Judge(Wrap16(number), Wrap16(last), audio) == JudgeTrue(number, last, audio)
            <==> Decidable(number - last, audio)
  {
    ResidueDecides(Wrap16(number), Wrap16(last));
    ResidueOf(number, last);
  }

  /** Newer, same and stale, by the residue of the distance. */
  lemma ResidueDecides(sequence: Word16, last: Word16)
    ensures var residue := Wrap16(sequence - last);
            && (Newer(sequence, last) <==> 1 <= residue < 0x8000)
            && (sequence == last <==> residue == 0) && (Stale(sequence, last) <==> residue > 0x8000)
  {
    assert Wrap16(last - sequence) == if sequence == last then 0 else 0x1_0000 - Wrap16(sequence - last);
  }

  lemma ResidueOf(number: int, last: int)
    ensures Wrap16(Wrap16(number) - Wrap16(last)) == (number - last) % 0x1_0000
  {
  }

  lemma WindowDecidable(distance: int, audio: bool)
    requires -0x7FFF <= distance <= 0x7FFF
    ensures Decidable(distance, audio)
  {
  }

  /** Half-way round, neither newer nor stale: late audio is let through without moving the position. */
  lemma HalfwayPasses(last: int)
    ensures Judge(Wrap16(last - 0x8000), Wrap16(last), true) == Pass
    ensures JudgeTrue(last - 0x8000, last, true) == Drop
  {
    assert Wrap16(Wrap16(last - 0x8000) - Wrap16(last)) == 0x8000;
    assert Wrap16(Wrap16(last) - Wrap16(last - 0x8000)) == 0x8000;
  }

  // --- a whole session of deliveries over a channel that loses, repeats and reorders ---

  datatype Delivery = Delivery(number: int, audio: bool)

  function Moved(last: Word16, sequence: Word16, v: Verdict): Word16 { if v == Advance then sequence else last }

  function MovedTrue(last: int, number: int, v: Verdict): int { if v == Advance then number else last }

  /** The verdicts of the 16-bit filter on the arriving sequence fields, in order. */
  function Verdicts(last: Word16, ds: seq<Delivery>): (vs: seq<Verdict>)
    ensures |vs| == |ds|
    decreases ds
  {
    if ds == [] then []
    else
      var v := Judge(Wrap16(ds[0].number), last, ds[0].audio);
      [v] + Verdicts(Moved(last, Wrap16(ds[0].number), v), ds[1..])
  }

  function VerdictsTrue(last: int, ds: seq<Delivery>): (vs: seq<Verdict>)
    ensures |vs| == |ds|
    decreases ds
  {
    if ds == [] then []
    else
      var v := JudgeTrue(ds[0].number, last, ds[0].audio);
      [v] + VerdictsTrue(MovedTrue(last, ds[0].number, v), ds[1..])
  }

  function Position(last: Word16, ds: seq<Delivery>): Word16
    decreases ds
  {
    if ds == [] then last
    else Position(Moved(last, Wrap16(ds[0].number), Judge(Wrap16(ds[0].number), last, ds[0].audio)), ds[1..])
  }

  function PositionTrue(last: int, ds: seq<Delivery>): int
    decreases ds
  {
    if ds == [] then last
    else PositionTrue(MovedTrue(last, ds[0].number, JudgeTrue(ds[0].number, last, ds[0].audio)), ds[1..])
  }

  /** Every message arrives within half the number space of the position the receiver has reached. */
  predicate Windowed(last: int, ds: seq<Delivery>)
    decreases ds
  {
    ds == [] ||
    (-0x7FFF <= ds[0].number - last <= 0x7FFF
     && Windowed(MovedTrue(last, ds[0].number, JudgeTrue(ds[0].number, last, ds[0].audio)), ds[1..]))
  }

  /** Every message arrives at a distance from the true position that sixteen bits can decide. */
  predicate AllDecidable(last: int, ds: seq<Delivery>)
    decreases ds
  {
    ds == [] ||
    (Decidable(ds[0].number - last, ds[0].audio)
     && AllDecidable(MovedTrue(last, ds[0].number, JudgeTrue(ds[0].number, last, ds[0].audio)), ds[1..]))
  }

  lemma {:induction false} WindowedDecidable(last: int, ds: seq<Delivery>)
    requires Windowed(last, ds)
    ensures AllDecidable(last, ds)
    decreases ds
  {
    if ds != [] {
      WindowDecidable(ds[0].number - last, ds[0].audio);
      WindowedDecidable(MovedTrue(last, ds[0].number, JudgeTrue(ds[0].number, last, ds[0].audio)), ds[1..]);
    }
  }

  /**
   The 16-bit filter gives the verdicts of the one on true numbers exactly when every distance is decidable, and then
   stands at the same position. Staying within half the number space is enough for that.
   */
  lemma {:induction false} FilterRefines(last: int, ds: seq<Delivery>)
    ensures Verdicts(Wrap16(last), ds) == VerdictsTrue(last, ds) <==> AllDecidable(last, ds)
    ensures AllDecidable(last, ds) ==> Position(Wrap16(last), ds) == Wrap16(PositionTrue(last, ds))
    ensures Windowed(last, ds) ==> AllDecidable(last, ds)
    decreases ds
  {
    if Windowed(last, ds) { WindowedDecidable(last, ds); }
    if ds != [] {
      var d := ds[0];
      var v, w := Verdicts(Wrap16(last), ds), VerdictsTrue(last, ds);
      JudgeExact(d.number, last, d.audio);
      if Decidable(d.number - last, d.audio) {
        var next := MovedTrue(last, d.number, JudgeTrue(d.number, last, d.audio));
        FilterRefines(next, ds[1..]);
        assert v[1..] == Verdicts(Wrap16(next), ds[1..]) && w[1..] == VerdictsTrue(next, ds[1..]);
        assert v == w <==> v[1..] == w[1..] by { assert v == [v[0]] + v[1..] && w == [w[0]] + w[1..]; }
      } else {
        assert v[0] != w[0];
      }
    }
  }

  /** The true numbers of the audio messages the 16-bit filter accepts, in order of arrival. */
  function AcceptedAudio(last: Word16, ds: seq<Delivery>): seq<int>
    decreases ds
  {
    if ds == [] then []
    else
      var v := Judge(Wrap16(ds[0].number), last, ds[0].audio);
      (if v != Drop && ds[0].audio then [ds[0].number] else [])
      + AcceptedAudio(Moved(last, Wrap16(ds[0].number), v), ds[1..])
  }

  ghost predicate Increasing(s: seq<int>) { forall i, j :: 0 <= i < j < |s| ==> s[i] < s[j] }

  /** Audio is accepted at most once and in order, whatever the channel did, and the position never falls. */
  lemma {:induction false} AudioInOrder(last: int, ds: seq<Delivery>)
    requires AllDecidable(last, ds)
    ensures Increasing(AcceptedAudio(Wrap16(last), ds))
    ensures forall i :: 0 <= i < |AcceptedAudio(Wrap16(last), ds)| ==> last < AcceptedAudio(Wrap16(last), ds)[i]
    ensures PositionTrue(last, ds) >= last
    decreases ds
  {
    if ds != [] {
      var d := ds[0];
      JudgeExact(d.number, last, d.audio);
      AudioInOrder(MovedTrue(last, d.number, JudgeTrue(d.number, last, d.audio)), ds[1..]);
    }
  }

  /** Without any assumption on the channel, one message never moves the 16-bit position back in serial order. */
  lemma NeverBack(last: Word16, sequence: Word16, audio: bool)
    ensures var next := Moved(last, sequence, Judge(sequence, last, audio));
            next == last || (Newer(next, last) && !Stale(next, last))
  {
    var delta := Wrap16(sequence - last);
    assert Wrap16(last - sequence) == if delta == 0 then 0 else 0x1_0000 - delta;
  }

  // --- missing frames ---

  /** What one accepted audio sequence adds to the count; a zero last sequence means nothing was heard yet. */
  function Gap(lastAudio: Word16, sequence: Word16): nat {
    if lastAudio == 0 then 0
    else
      var expected := Wrap16(lastAudio + 1);
      var gap := Wrap16(sequence - expected);
      if 0 < gap < 0x8000 then gap else 0
  }

  function Missing(lastAudio: Word16, us: seq<int>): nat
    decreases us
  {
    if us == [] then 0 else Gap(lastAudio, Wrap16(us[0])) + Missing(Wrap16(us[0]), us[1..])
  }

  predicate Stepping(us: seq<int>) {
    |us| <= 1 || (0 < us[1] - us[0] <= 0x8000 && Stepping(us[1..]))
  }

  /** The frames skipped right after a frame whose 16-bit sequence is zero; the count does not see these. */
  function Unseen(us: seq<int>): nat
    requires Stepping(us)
  {
    if |us| <= 1 then 0
    else (if Wrap16(us[0]) == 0 then us[1] - us[0] - 1 else 0) + Unseen(us[1..])
  }

  lemma GapExact(u: int, next: int)
    requires 0 < next - u <= 0x8000
    ensures Gap(Wrap16(u), Wrap16(next)) == if Wrap16(u) == 0 then 0 else next - u - 1
  {
    if Wrap16(u) != 0 {
      assert Wrap16(Wrap16(next) - Wrap16(Wrap16(u) + 1)) == (next - u - 1) % 0x1_0000;
    }
  }

  lemma {:induction false} MissingFrom(us: seq<int>)
    requires us != [] && Stepping(us)
    ensures Missing(Wrap16(us[0]), us[1..]) + |us| + Unseen(us) == us[|us| - 1] - us[0] + 1
  {
    if |us| > 1 {
      GapExact(us[0], us[1]);
      MissingFrom(us[1..]);
    }
  }

  /**
   Over the audio accepted in one session, frames heard plus frames counted missing plus frames unseen span the whole
   range of true numbers.
   */
  lemma MissingTelescopes(us: seq<int>)
    requires us != [] && Stepping(us)
    ensures |us| + Missing(0, us) + Unseen(us) == us[|us| - 1] - us[0] + 1
  {
    MissingFrom(us);
  }

  predicate HeardNext(us: seq<int>, i: nat)
    requires i + 1 < |us|
  {
    Wrap16(us[i]) == 0 ==> us[i + 1] == us[i] + 1
  }

  /** Nothing was lost right after a frame whose sequence is zero. */
  ghost predicate NoneUnseen(us: seq<int>) { forall i :: 0 <= i < |us| - 1 ==> HeardNext(us, i) }

  lemma {:induction false} UnseenIff(us: seq<int>)
    requires Stepping(us)
    ensures Unseen(us) == 0 <==> NoneUnseen(us)
  {
    if |us| > 1 {
      UnseenIff(us[1..]);
      assert forall i :: 0 <= i < |us| - 2 ==> HeardNext(us[1..], i) == HeardNext(us, i + 1);
      if NoneUnseen(us) {
        assert HeardNext(us, 0);
      } else {
        var i :| 0 <= i < |us| - 1 && !HeardNext(us, i);
        if i > 0 {
          assert !HeardNext(us[1..], i - 1);
        }
      }
    }
  }

  /** The count is exact precisely when nothing was lost right after a frame numbered a multiple of 65536. */
  lemma MissingExactIff(us: seq<int>)
    requires us != [] && Stepping(us)
    ensures |us| + Missing(0, us) == us[|us| - 1] - us[0] + 1 <==> NoneUnseen(us)
  {
    MissingTelescopes(us);
    UnseenIff(us);
  }
}
