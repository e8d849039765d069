/** What audio does that comes in without a protocol message: captured here, or handed over by the application. */
module RuntimeCapture {
  import opened Machine
  import opened Sequences
  import opened RuntimeSpec
  import opened RuntimeInvariant
  import opened RuntimeSteps
  import opened RuntimeRelay
  import AudioFrame

  /** What a broadcast of audio from a source does, all told. */
  ghost predicate Broadcasts(rt: Runtime, b: Runtime, source: Byte, payload: seq<Byte>) {
    && Records(rt, b, source) && Sent(rt, b) && Coherent(b) && b.transport.fifo.queue == []
    && (Short(payload) && Roomy(rt, source) ==> Plays(rt, b, source, payload))
  }

  /** Audio handed over is broadcast when there is some and the transport is up; otherwise nothing happens. */
  lemma HandleAudioExact(rt: Runtime, source: Byte, payload: seq<Byte>)
    requires Coherent(rt)
    ensures var b := HandleAudio(rt, source, payload);
            if rt.enabled && rt.transport.backendReady && payload != [] then Broadcasts(rt, b, source, payload)
                else b == rt
  {
    if HasTransport(rt) && payload != [] { BroadcastDelivers(rt, source, payload); }
  }

  /** Somebody is in session, the talk button is held, the relay is on, and the frame can be encoded. */
  predicate Talking(rt: Runtime, frame: AudioFrame.Frame) {
    && rt.enabled && rt.transport.backendReady && rt.readyCount > 0
    && rt.intercom.enabled && rt.intercom.pttPressed && rt.intercom.peers != []
    && 0 < frame.count <= 32 && frame.bits == 16
  }

  /**
   A captured frame is relayed exactly while talking, and reported as relayed exactly when some listed peer is not its
   source. It is broadcast in a form from which a receiver reads it back, silent past its count. Otherwise nothing
   happens.
   */
  lemma LocalAudioExact(rt: Runtime, source: Byte, frame: AudioFrame.Frame)
    requires Coherent(rt)
    ensures var o := LocalAudio(rt, source, frame);
            && (o.ok <==> Talking(rt, frame) && exists id :: id in rt.intercom.peers && id != source)
            && (Talking(rt, frame) ==>
                  var payload := AudioFrame.Encode(frame);
                  && Broadcasts(rt, o.rt, source, payload) && Short(payload)
                  && (frame.version == 1 && frame.channels == 1 ==>
                        AudioFrame.Decode(payload)
                        == Some(frame.(samples := AudioFrame.Padded(frame.samples[..frame.count])))))
            && (!Talking(rt, frame) ==> o.rt == rt)
  {
    if Talking(rt, frame) {
      var payload := AudioFrame.Encode(frame);
      BroadcastDelivers(rt, source, payload);
      AudioFrame.DecodeEncode(frame);
      WithoutMembers(rt.intercom.peers, source);
      SomeTarget(rt.intercom.peers, source);
    }
  }

  lemma SomeTarget(peers: seq<Byte>, source: Byte)
    ensures |Without(peers, source)| > 0 <==> exists id :: id in peers && id != source
  {
    WithoutMembers(peers, source);
    if |Without(peers, source)| > 0 { assert Without(peers, source)[0] in Without(peers, source); }
  }
}
