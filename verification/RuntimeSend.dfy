/** What queueing a protocol message puts into the packet queue, when it does, and what it leaves behind otherwise. */
module RuntimeSend {
  import opened Machine
  import opened RuntimeSpec
  import opened RuntimeInvariant
  import opened RuntimeOutcomes
  import PairingText
  import Protocol
  import Transport = TransportSpec
  import TableOutcomes = TransportOutcomes

  /** The packet carries exactly this message. */
  predicate Says(p: Transport.Packet, m: Protocol.Message) {
    p.source == m.source && p.target == m.target && Protocol.Decode(p.payload) == Some(m)
  }

  /** The link of a peer, or the fresh one it would be given. */
  function LinkOf(links: seq<Link>, id: Byte): Link {
    var k := FindLink(links, id);
    if k < |links| then links[k] else FreshLink(id)
  }

  /** There is a link to a listed peer, with a session or about to get one, and the message fits a packet. */
  ghost predicate Composable(rt: Runtime, id: Byte, kind: Byte, payload: seq<Byte>) {
    && HasTransport(rt) && id != 0 && Linkable(rt.links, id) && id in rt.connected
    && (kind == 1 || LinkOf(rt.links, id).session != 0) && |payload| % 0x1_0000 <= 238
  }

  /** One of the ends is connected in the transport. */
  predicate Reachable(rt: Runtime, id: Byte) { rt.localId in rt.transport.connected || id in rt.transport.connected }

  /** Both ends are in place, the message fits a packet and the queue has room. */
  ghost predicate Sendable(rt: Runtime, id: Byte, kind: Byte, payload: seq<Byte>) {
    Composable(rt, id, kind, payload) && Reachable(rt, id) && |rt.transport.fifo.queue| < 16
  }

  /**
   One packet went to the end of the queue. It carries a version 1 message of the given kind, flags and payload, from
   here to the peer, under the session of the peer's link, with the link's next number and acknowledging what it heard
   last.
   */
  ghost predicate Emits(rt: Runtime, r: Runtime, id: Byte, kind: Byte, payload: seq<Byte>, flags: Word16) {
    var l, l' := LinkOf(rt.links, id), LinkOf(r.links, id);
    var f, f' := rt.transport.fifo, r.transport.fifo;
    && |f'.queue| == |f.queue| + 1
    && Says(f'.queue[|f.queue|], Protocol.Message(1, kind, l'.session, l.nextTx, l.lastRx, rt.localId, id, flags,
                                                  payload[..|payload| % 0x1_0000]))
    && f'.queue[|f.queue|].number == l.issued
    && f' == f.(queue := f.queue + [f'.queue[|f.queue|]], queued := f.queued + 1, lastSource := rt.localId,
       lastTarget := id)
    && r.stats == rt.stats.(sent := rt.stats.sent + 1) && r.relay == rt.relay
    && Follows(l, l', kind, rt.now)
  }

  /** The link after the message: numbered on, within a session, and with the handshake noted when it was a hello. */
  predicate Follows(l: Link, l': Link, kind: Byte, now: Word32) {
    && l'.valid && l'.session != 0 && (l.session != 0 ==> l'.session == l.session)
    && l'.nextTx == Wrap16(l.nextTx + 1) && l'.issued == l.issued + 1 && l'.dropped == l.dropped
    && (if kind == 1 || kind == 2 then
          l'.helloSent && l'.lastHandshake == now && l'.state == if l.state == Ready then Ready else Handshaking
        else l'.helloSent == l.helloSent && l'.lastHandshake == l.lastHandshake && l'.state == l.state)
  }

  /**
   Nothing was queued. A message that was composed is counted as dropped, here and on its link, whose number is gone;
   the transport counts it too when it was the queue that had no room.
   */
  predicate Declines(rt: Runtime, r: Runtime, id: Byte, composed: bool) {
    var l, l' := LinkOf(rt.links, id), LinkOf(r.links, id); var f := rt.transport.fifo;
    && r.transport.fifo == f.(dropped := f.dropped + if composed && Reachable(rt, id) then 1 else 0)
    && r.stats == rt.stats.(dropped := rt.stats.dropped + if composed then 1 else 0) && r.relay == rt.relay
    && (composed ==>
          l'.dropped == Wrap32(l.dropped + 1) && l'.nextTx == Wrap16(l.nextTx + 1) && l'.issued == l.issued + 1)
  }

  lemma LinkFound(links: seq<Link>, k: nat, id: Byte)
    requires k < |links| && id != 0 && Owns(links[k], id) && forall j :: 0 <= j < |links| && j != k ==>
            !Owns(links[j], id)
    ensures FindLink(links, id) == k && LinkOf(links, id) == links[k]
  {
  }

  lemma OnlyOwner(links: seq<Link>, k: nat, id: Byte)
    requires LinksOk(links) && k < |links| && Owns(links[k], id)
    ensures forall j :: 0 <= j < |links| && j != k ==> !Owns(links[j], id)
  {
  }

  /** A payload that fits a packet is carried whole. */
  lemma WholePayload(payload: seq<Byte>)
    requires |payload| <= 238
    ensures payload[..|payload| % 0x1_0000] == payload
  {
  }

  // --- numbered, encoded and offered on a link ---

  lemma QueuedPacket(t: Transport.State, source: Byte, target: Byte, payload: seq<Byte>, number: nat)
    requires payload != [] && |payload| <= Transport.MAX_PACKET
    ensures var q := Transport.QueuePacket(t, source, target, payload, number); var f := t.fifo;
            && (q.ok <==> t.enabled && (source in t.connected || target in t.connected) && |f.queue| < 16)
            && q.state.fifo == (if q.ok then
                 f.(queue := f.queue + [Transport.Packet(source, target, payload, number)], queued := f.queued + 1,
                    lastSource := source, lastTarget := target)
               else f.(dropped := f.dropped + if t.enabled && (source in t.connected || target in t.connected) then 1
                   else 0))
  {
    TableOutcomes.QueueOutcome(t, source, target, payload, number);
    assert payload[..|payload|] == payload;
  }

  lemma OfferExact(rt: Runtime, k: nat, kind: Byte, m: Protocol.Message, number: nat)
    requires k < |rt.links| && Protocol.HEADER_BYTES + |m.payload| <= Transport.MAX_PACKET
    ensures var o := Offer(rt, k, kind, m, number); var l, l' := rt.links[k], o.rt.links[k]; var f := rt.transport.fifo;
            && (o.ok <==> rt.transport.enabled && |f.queue| < 16 && Reachable(rt, l.id))
            && o.rt.links == rt.links[k := l'] && o.rt.relay == rt.relay
            && (o.ok ==>
                  && o.rt.transport.fifo
                     == f.(queue := f.queue + [Transport.Packet(rt.localId, l.id, Protocol.Encode(m), number)],
                           queued := f.queued + 1, lastSource := rt.localId, lastTarget := l.id)
                  && o.rt.stats == rt.stats.(sent := rt.stats.sent + 1)
                  && l' == l.(helloSent := l'.helloSent, lastHandshake := l'.lastHandshake, state := l'.state)
                  && (if kind == 1 || kind == 2 then
                        l'.helloSent && l'.lastHandshake == rt.now && l'.state == if l.state == Ready then Ready
                            else Handshaking
                      else l' == l))
            && (!o.ok ==>
                  && o.rt.transport.fifo
                     == f.(dropped := f.dropped + if rt.transport.enabled && Reachable(rt, l.id) then 1 else 0)
                  && o.rt.stats == rt.stats.(dropped := rt.stats.dropped + 1)
                     && l' == l.(dropped := Wrap32(l.dropped + 1)))
  {
    QueuedPacket(rt.transport, rt.localId, rt.links[k].id, Protocol.Encode(m), number);
  }

  /** The message that goes out on a link, written out. */
  lemma ComposedMessage(rt: Runtime, l: Link, kind: Byte, payload: seq<Byte>, flags: Word16)
    requires kind != Protocol.INVALID
    ensures var m := Compose(rt, l, kind, payload, flags);
            && m == Protocol.Message(1, kind, l.session, l.nextTx, l.lastRx, rt.localId, l.id, flags,
                                     payload[..|payload| % 0x1_0000])
            && Protocol.Encodable(m) && Protocol.Decode(Protocol.Encode(m)) == Some(m)
            && (Protocol.HEADER_BYTES + |m.payload| <= Transport.MAX_PACKET <==> |payload| % 0x1_0000 <= 238)
  {
    Protocol.DecodeEncode(Compose(rt, l, kind, payload, flags));
  }

  lemma SendOnRefuses(rt: Runtime, k: nat, kind: Byte, payload: seq<Byte>, flags: Word16)
    requires k < |rt.links| && kind != Protocol.INVALID && |payload| % 0x1_0000 > 238
    ensures var o := SendOn(rt, k, kind, payload, flags); !o.ok && Declines(rt, o.rt, rt.links[k].id, false)
  {
    ComposedMessage(rt, rt.links[k], kind, payload, flags);
  }

  lemma SendOnOffers(rt: Runtime, k: nat, kind: Byte, payload: seq<Byte>, flags: Word16)
    requires k < |rt.links| && kind != Protocol.INVALID && |payload| % 0x1_0000 <= 238
    ensures var l := rt.links[k];
            SendOn(rt, k, kind, payload, flags)
            == Offer(SetLink(rt, k, Consume(l)), k, kind, Compose(rt, l, kind, payload, flags), l.issued)
  {
    ComposedMessage(rt, rt.links[k], kind, payload, flags);
  }

  lemma ConsumedFollows(l: Link, l': Link, kind: Byte, now: Word32)
    requires l.valid && l.session != 0
    requires var c := Consume(l);
             && l' == c.(helloSent := l'.helloSent, lastHandshake := l'.lastHandshake, state := l'.state)
             && (if kind == 1 || kind == 2 then
                   l'.helloSent && l'.lastHandshake == now && l'.state == if l.state == Ready then Ready
                       else Handshaking
                 else l' == c)
    ensures Follows(l, l', kind, now)
  {
  }

  /** Sending on the link in slot k, whose peer is connected and has a session. */
  lemma SendOnExact(rt: Runtime, k: nat, kind: Byte, payload: seq<Byte>, flags: Word16)
    requires LinksOk(rt.links) && k < |rt.links| && rt.links[k].valid && rt.links[k].session != 0
            && kind != Protocol.INVALID
    requires rt.transport.enabled
    ensures var o := SendOn(rt, k, kind, payload, flags); var id := rt.links[k].id;
            && (o.ok <==> |rt.transport.fifo.queue| < 16 && |payload| % 0x1_0000 <= 238 && Reachable(rt, id))
            && (o.ok ==> Emits(rt, o.rt, id, kind, payload, flags))
            && (!o.ok ==> Declines(rt, o.rt, id, |payload| % 0x1_0000 <= 238))
  {
    if |payload| % 0x1_0000 > 238 {
      SendOnRefuses(rt, k, kind, payload, flags);
    } else {
      SendOnOk(rt, k, kind, payload, flags);
      if SendOn(rt, k, kind, payload, flags).ok {
        SentEmits(rt, k, kind, payload, flags);
      } else {
        SentDeclines(rt, k, kind, payload, flags);
      }
    }
  }

  lemma SendOnOk(rt: Runtime, k: nat, kind: Byte, payload: seq<Byte>, flags: Word16)
    requires k < |rt.links| && kind != Protocol.INVALID && |payload| % 0x1_0000 <= 238 && rt.transport.enabled
    ensures SendOn(rt, k, kind, payload, flags).ok <==> |rt.transport.fifo.queue| < 16 && Reachable(rt, rt.links[k].id)
  {
    var l := rt.links[k];
    ComposedMessage(rt, l, kind, payload, flags);
    SendOnOffers(rt, k, kind, payload, flags);
    OfferExact(SetLink(rt, k, Consume(l)), k, kind, Compose(rt, l, kind, payload, flags), l.issued);
  }

  lemma SentDeclines(rt: Runtime, k: nat, kind: Byte, payload: seq<Byte>, flags: Word16)
    requires LinksOk(rt.links) && k < |rt.links| && rt.links[k].valid && kind != Protocol.INVALID
            && rt.transport.enabled
    requires |payload| % 0x1_0000 <= 238 && !SendOn(rt, k, kind, payload, flags).ok
    ensures Declines(rt, SendOn(rt, k, kind, payload, flags).rt, rt.links[k].id, true)
  {
    var l := rt.links[k];
    ComposedMessage(rt, l, kind, payload, flags);
    SendOnOffers(rt, k, kind, payload, flags);
    OfferExact(SetLink(rt, k, Consume(l)), k, kind, Compose(rt, l, kind, payload, flags), l.issued);
    ConsumedDeclines(rt, SendOn(rt, k, kind, payload, flags).rt, k);
  }

  lemma ConsumedDeclines(rt: Runtime, r: Runtime, k: nat)
    requires LinksOk(rt.links) && k < |rt.links| && rt.links[k].valid
    requires var l, f := rt.links[k], rt.transport.fifo;
             && r.links == rt.links[k := Consume(l).(dropped := Wrap32(l.dropped + 1))] && r.relay == rt.relay
             && r.transport.fifo == f.(dropped := f.dropped + if Reachable(rt, l.id) then 1 else 0)
             && r.stats == rt.stats.(dropped := rt.stats.dropped + 1)
    ensures Declines(rt, r, rt.links[k].id, true)
  {
    var id := rt.links[k].id;
    OnlyOwner(rt.links, k, id);
    LinkFound(rt.links, k, id);
    LinkFound(r.links, k, id);
  }

  lemma SentEmits(rt: Runtime, k: nat, kind: Byte, payload: seq<Byte>, flags: Word16)
    requires LinksOk(rt.links) && k < |rt.links| && rt.links[k].valid && rt.links[k].session != 0
            && kind != Protocol.INVALID
    requires |payload| % 0x1_0000 <= 238 && SendOn(rt, k, kind, payload, flags).ok
    ensures Emits(rt, SendOn(rt, k, kind, payload, flags).rt, rt.links[k].id, kind, payload, flags)
  {
    var l := rt.links[k];
    ComposedMessage(rt, l, kind, payload, flags);
    SendOnOffers(rt, k, kind, payload, flags);
    OfferExact(SetLink(rt, k, Consume(l)), k, kind, Compose(rt, l, kind, payload, flags), l.issued);
    var r := SendOn(rt, k, kind, payload, flags).rt;
    ConsumedFollows(l, r.links[k], kind, rt.now);
    OnlyOwner(rt.links, k, l.id);
    LinkFound(rt.links, k, l.id);
    LinkFound(r.links, k, l.id);
  }

  // --- with the link looked for first ---

  /** The link opened for a message, with a session if the message may open one. */
  lemma OpenedLink(rt: Runtime, id: Byte, kind: Byte)
    requires LinksOk(rt.links) && id != 0 && OpenLink(rt.links, id).slot < |rt.links|
    ensures var o := OpenLink(rt.links, id); var r := EnsureSession(rt.(links := o.links), o.slot, kind);
            var l, l' := LinkOf(rt.links, id), r.links[o.slot];
            && Linkable(rt.links, id) && LinksOk(r.links) && Owns(l', id) && l' == l.(session := l'.session)
            && l'.session == (if kind == 1 && l.session == 0 then l'.session else l.session)
            && (kind == 1 ==> l'.session != 0)
            && r == rt.(links := r.links, sessions := r.sessions)
  {
    OpenLinkShape(rt.links, id);
    OpenLinkOutcome(rt.links, id);
  }

  lemma OpenedEmits(rt: Runtime, r: Runtime, k: nat, last: Runtime, id: Byte, kind: Byte, payload: seq<Byte>,
      flags: Word16)
    requires LinksOk(r.links) && k < |r.links| && Owns(r.links[k], id) && id != 0
    requires r == rt.(links := r.links, sessions := r.sessions)
    requires r.links[k] == LinkOf(rt.links, id).(session := r.links[k].session)
    requires LinkOf(rt.links, id).session != 0 ==> r.links[k].session == LinkOf(rt.links, id).session
    requires Emits(r, last, id, kind, payload, flags)
    ensures Emits(rt, last, id, kind, payload, flags)
  {
    OnlyOwner(r.links, k, id);
    LinkFound(r.links, k, id);
  }

  lemma OpenedDeclines(rt: Runtime, r: Runtime, k: nat, last: Runtime, id: Byte, composed: bool)
    requires LinksOk(r.links) && k < |r.links| && Owns(r.links[k], id) && id != 0
    requires r == rt.(links := r.links, sessions := r.sessions)
    requires r.links[k] == LinkOf(rt.links, id).(session := r.links[k].session)
    requires Declines(r, last, id, composed)
    ensures Declines(rt, last, id, composed)
  {
    OnlyOwner(r.links, k, id);
    LinkFound(r.links, k, id);
  }

  /** A message is queued exactly when it can be sent; then it is the last packet of the queue, as written out above. */
  lemma QueueMessageExact(rt: Runtime, id: Byte, kind: Byte, payload: seq<Byte>, flags: Word16)
    requires SettingsOk(rt) && LinksOk(rt.links) && kind != Protocol.INVALID
    ensures var o := QueueMessage(rt, id, kind, payload, flags);
            && (o.ok <==> Sendable(rt, id, kind, payload))
            && (o.ok ==> Emits(rt, o.rt, id, kind, payload, flags))
            && (!o.ok ==> Declines(rt, o.rt, id, Composable(rt, id, kind, payload)))
  {
    if HasTransport(rt) && id != 0 {
      OpenLinkOutcome(rt.links, id);
      var k := OpenLink(rt.links, id).slot;
      if k < |rt.links| && id in rt.connected {
        OpenedLink(rt, id, kind);
        OpenedSends(rt, id, kind, payload, flags);
      }
    }
  }

  lemma OpenedSends(rt: Runtime, id: Byte, kind: Byte, payload: seq<Byte>, flags: Word16)
    requires SettingsOk(rt) && LinksOk(rt.links) && kind != Protocol.INVALID && HasTransport(rt) && id != 0
    requires OpenLink(rt.links, id).slot < |rt.links| && id in rt.connected
    ensures var o := QueueMessage(rt, id, kind, payload, flags);
            && (o.ok <==> Sendable(rt, id, kind, payload))
            && (o.ok ==> Emits(rt, o.rt, id, kind, payload, flags))
            && (!o.ok ==> Declines(rt, o.rt, id, Composable(rt, id, kind, payload)))
  {
    var o := OpenLink(rt.links, id);
    var k, r := o.slot, EnsureSession(rt.(links := o.links), o.slot, kind);
    OpenedLink(rt, id, kind);
    if r.links[k].session != 0 {
      assert QueueMessage(rt, id, kind, payload, flags) == SendOn(r, k, kind, payload, flags);
      OpenedSendsOn(rt, r, k, id, kind, payload, flags);
    }
  }

  lemma OpenedSendsOn(rt: Runtime, r: Runtime, k: nat, id: Byte, kind: Byte, payload: seq<Byte>, flags: Word16)
    requires LinksOk(r.links) && k < |r.links| && Owns(r.links[k], id) && id != 0
    requires r == rt.(links := r.links, sessions := r.sessions) && r.transport.enabled
    requires r.links[k] == LinkOf(rt.links, id).(session := r.links[k].session)
    requires LinkOf(rt.links, id).session != 0 ==> r.links[k].session == LinkOf(rt.links, id).session
    requires r.links[k].session != 0 && kind != Protocol.INVALID
    ensures var o := SendOn(r, k, kind, payload, flags); var fits := |payload| % 0x1_0000 <= 238;
            && (o.ok <==> fits && |rt.transport.fifo.queue| < 16 && Reachable(rt, id))
            && (o.ok ==> Emits(rt, o.rt, id, kind, payload, flags)) && (!o.ok ==> Declines(rt, o.rt, id, fits))
  {
    SendOnExact(r, k, kind, payload, flags);
    if SendOn(r, k, kind, payload, flags).ok {
      OpenedEmits(rt, r, k, SendOn(r, k, kind, payload, flags).rt, id, kind, payload, flags);
    } else {
      OpenedDeclines(rt, r, k, SendOn(r, k, kind, payload, flags).rt, id, |payload| % 0x1_0000 <= 238);
    }
  }

  // --- the texts on the wire ---

  predicate Spells(bytes: seq<Byte>, text: string) {
    |bytes| == |text| && forall i :: 0 <= i < |bytes| ==> bytes[i] == text[i] as int
  }

  /** A hello names this end by its id. */
  lemma HelloText(localId: Byte)
    ensures Spells(Identity(localId)[..14], "pico-intercom-")
            && Spells(Identity(localId)[14..], PairingText.Digits(localId))
  {
    var n := localId as nat;
    DigitsSpelled(n);
    var text := Identity(localId);
    assert text[..14] == [112, 105, 99, 111, 45, 105, 110, 116, 101, 114, 99, 111, 109, 45];
    assert text[14..] == (if n >= 100 then [48 + n / 100] else []) + (if n >= 10 then [48 + n / 10 % 10] else [])
        + [48 + n % 10];
  }

  function Digit(n: nat): string
    requires n < 10
  {
    [('0' as int + n) as char]
  }

  lemma DigitsSpelled(n: nat)
    requires n < 1000
    ensures PairingText.Digits(n)
            == (if n >= 100 then Digit(n / 100) else []) + (if n >= 10 then Digit(n / 10 % 10) else []) + Digit(n % 10)
  {
    if n >= 100 {
      assert PairingText.Digits(n / 10) == PairingText.Digits(n / 10 / 10) + Digit(n / 10 % 10);
    }
  }

  /** An error says what was wrong. */
  lemma ErrorTexts()
    ensures Spells(REASON_DECODE, "invalid packet") && Spells(REASON_ROUTE, "peer routing mismatch")
    ensures Spells(REASON_NO_ID, "missing session id") && Spells(REASON_NOT_READY, "session not ready")
  {
  }
}
