/** The event loop's view of the runtime object: each call performs the step the run theorems are about. */
module RuntimeEvents {
  import opened Machine
  import Invariant = RuntimeInvariant
  import Runs = RuntimeRuns
  import R = Runtime
  import TransportSpec

  /** Performs one event; a coherent runtime stays coherent when payloads come from connected peers. */
  method Perform(r: R.Runtime, e: Runs.Event)
    requires r.Valid()
    modifies r.Footprint()
    ensures r.Valid() && r.View() == Runs.Step(old(r.View()), e)
    ensures Invariant.Coherent(old(r.View())) && Runs.Possible(old(r.View()), e) ==> Invariant.Coherent(r.View())
  {
    ghost var before := r.View();
    if Runs.IsCommand(e) {
      Command(r, e);
    } else {
      Input(r, e);
    }
    assert r.View() == Runs.Step(before, e);
    if Invariant.Coherent(before) && Runs.Possible(before, e) {
      Runs.StepKeeps(before, e);
    }
  }

  method Command(r: R.Runtime, e: Runs.Event)
    requires r.Valid() && Runs.IsCommand(e)
    modifies r.Footprint()
    ensures r.Valid() && r.View() == Runs.Step(old(r.View()), e)
  {
    match e
    case Connecting(id) => var _ := r.Connect(id);
    case Disconnecting(id) => var _ := r.Disconnect(id);
    case Clearing(id) => r.ClearPairing(id);
    case Restoring(id) => var _ := r.RestorePairing(id);
    case Enabling(on) => r.SetEnabled(on);
    case Polling => r.Poll();
  }

  method Input(r: R.Runtime, e: Runs.Event)
    requires r.Valid() && !Runs.IsCommand(e)
    modifies r.Footprint()
    ensures r.Valid() && r.View() == Runs.Step(old(r.View()), e)
  {
    match e
    case Capturing(source, frame) => var _ := r.ProcessLocalAudio(source, frame);
    case Injecting(source, payload) => r.HandleAudio(source, payload);
    case Receiving(source, bytes) => var _ := r.HandlePayload(source, bytes);
    case Reporting(id, ready) => Report(r, id, ready);
    case PressingTalk(pressed) => Press(r, pressed);
    case SwitchingIntercom(on) => Switch(r, on);
  }

  method Report(r: R.Runtime, id: Byte, ready: bool)
    requires r.Valid()
    modifies r.Footprint()
    ensures r.Valid()
    ensures r.View() == old(r.View()).(transport := TransportSpec.Report(old(r.View()).transport, id, ready).state)
  {
    var _ := r.transport.ReportPeer(id, ready);
  }

  method Press(r: R.Runtime, pressed: bool)
    requires r.Valid()
    modifies r.Footprint()
    ensures r.Valid()
    ensures r.View() == old(r.View()).(intercom := old(r.View()).intercom.(pttPressed := pressed))
  {
    r.intercom.SetPtt(pressed);
  }

  method Switch(r: R.Runtime, on: bool)
    requires r.Valid()
    modifies r.Footprint()
    ensures r.Valid()
    ensures r.View() == old(r.View()).(intercom := old(r.View()).intercom.(enabled := on))
  {
    r.intercom.Enable(on);
  }
}
