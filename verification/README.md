# Pico intercom: a verified model

A Dafny model of the host build of the Pico Bluetooth intercom: the session runtime, the transport below it, the two wire
formats, the pairing store and the outbound send step of the radio build, with proofs of what each of them keeps over
whole runs.

The program is a set of fixed tables edited in place. Every component appears twice: as a class (or an in-place method)
with the fields, loops and branches of the C code, and as functions on values that say what each operation computes. The
methods are proved to end in exactly the state those functions give; the theorems are proved about the functions.

| files | component |
|---|---|
| `Machine`, `Sequences`, `Bytes`, `Bitwise` | integer widths, finite tables and the pigeonhole principle, byte order, exclusive or |
| `RuntimeSpec`, `Runtime`, `RuntimeEvents` | the session runtime: specification, object, event step |
| `RuntimeInvariant`, `RuntimeSteps`, `RuntimeRuns` | the invariant that ties links, connected list, transport tables, packet queue and relay list together |
| `RuntimeSilence`, `RuntimeReady`, `RuntimeReadyRuns`, `RuntimeRelay`, `RuntimeHold`, `RuntimeLapse`, `RuntimePromise`, `RuntimeOutcomes` | time-outs, the ready count, relaying, explicit disconnects, outcomes of commands |
| `RuntimeSend`, `RuntimeService`, `RuntimeReplies`, `RuntimeCapture`, `RuntimeCommands` | what is put on the wire, by a poll, in answer to a message, for captured audio and by commands |
| `RuntimeHeard`, `RuntimeHeardRuns`, `RuntimeAudio`, `RuntimeIds` | what a link hears, which audio it takes and which session ids are given out over runs of the whole runtime |
| `RuntimeWitness`, `RuntimeLapseRun`, `RuntimeHoleRun`, `RuntimeAudioRun`, `RuntimeCollision` | runs from start-up that break what the counters and the documentation suggest |
| `SerialWindow`, `SessionIds` | the 16-bit sequence filter, missing-frame count, session ids |
| `IntercomSpec`, `Intercom` | the relay list |
| `TransportSpec`, `Transport`, `TransportInvariant`, `TransportPoll`, `TransportHold`, `TransportLedger`, `TransportOutcomes` | the transport tables and packet queue |
| `Protocol`, `AudioFrame` | the message and audio frame formats |
| `PairingText`, `PairingStore`, `FlashImage` | the pairing file, the bounded map kept in it, and the flash image with its checksum |
| `SendLoopSpec`, `SendLoop`, `SendLoopRuns` | the outbound queue and the CAN_SEND_NOW step |

Bytes and 16- and 32-bit words are subset types with explicit wrap-around. Four history values are kept beside the
program's own: the count `issued` behind a link's 16-bit transmit sequence, the `number` of a queued packet, the list
`given` of the session ids handed out, and the `wire` of all packets the transport handed out. No branch reads them.

Where the code departs from its documentation, or from what its counters suggest, the model follows the code and a lemma
states exactly when the two agree:

- An explicit disconnect in the one poll between a session's time-out and the next poll reports success but does not
  suppress reconnection; the firmware's own README (lines 85-86) promises it does. `RuntimePromise.DisconnectPromiseIff` says exactly when the
  promise is kept, `RuntimeLapseRun.LapseHappens` is a run from start-up that breaks it.
- A received ERROR, a clear, a disable and a restore can leave the stored ready count wrong (`RuntimeReadyRuns.StepExactIff`;
  runs from start-up: `RuntimeWitness.ErrorDrifts`, `ClearDrifts`, `DisableDrifts`, `RestoreDrifts`).
- A KEEPALIVE with session id 0 can make a link without a session active (`RuntimeReadyRuns.StepNamedIff`; a run from
  start-up: `RuntimeWitness.KeepaliveNameless`).
- AUDIO exactly 0x8000 behind is accepted without advancing, and so is its duplicate; the firmware's own README (lines
  64-67) promises that duplicates are dropped (`RuntimeHeardRuns.HeardInOrder`, `RuntimeAudio.TakenTwiceIff`; a run from
  start-up: `RuntimeAudioRun.DuplicateTaken`).
- A HELLO that replaces a session keeps the old receive position, so a peer that starts over has its audio dropped as
  stale until it passes that (`RuntimeAudio.FreshAudioIff`; a run from start-up: `RuntimeAudioRun.FreshAudioRefused`).
- A frame lost right after a frame with sequence 0 is not counted missing (`RuntimeHeardRuns.MissingCountIff`; a run from
  start-up: `RuntimeAudioRun.LossUncounted`).
- Session ids repeat after 65536 (`RuntimeIds.GivenDistinct`; a run from start-up: `RuntimeCollision.NeighboursCollide`).
- A transport clear can miss an entry that lies behind a hole (`TransportHold.ClearForgetsIff`; a run
  from start-up: `RuntimeHoleRun.ClearMisses`).
- A flash save into a full image reports success without adding (`FlashImage.SavedIff`, `FlashImage.SavePairing`).

## Model

| member | source | states |
|---|---|---|
| `RuntimeRuns.RelayListExact` | src/bluetooth.c:535-604 | From an empty intercom, after every run of commands, polls, payloads from connected peers and local audio: the relay list is duplicate-free and is exactly the ids of the active sessions, each of them is connected in the transport, and every transport-connected peer is in the runtime's own list |
| `RuntimeRuns.QueueSound` | src/bluetooth.c:444-511 | After every such run each queued packet decodes, names the local peer and its own target, carries a non-zero session id and is at most 256 bytes; per target the unbounded numbers behind the 16-bit sequences rise and stay below the link's next one, teardown resets included |
| `RuntimeRuns.RunKeeps` | src/bluetooth.c:1121-1269 | The invariant over links, connected list, transport tables, packet queue and relay list (with every active session silent for less than 5000 ms) survives every run |
| `RuntimeRuns.StepKeeps` | src/bluetooth.c:820-1317 | Each public operation keeps that invariant, provided payloads come from transport-connected peers |
| `RuntimeRuns.PayloadKeepsIff` | src/bluetooth.c:1121-1243 | For an arbitrary sender the invariant survives a payload exactly when the sender is transport-connected or the payload does not start a session |
| `RuntimeRuns.PollKeeps` | src/bluetooth.c:1245-1257 | An enabled poll keeps the invariant, so afterwards every active session has been silent for less than 5000 ms modulo 2^32; it starts or refreshes no session and moves the clock by one tick |
| `RuntimeSteps.RoomForActive` | src/intercom.c:38-49 | By pigeonhole over the eight links, a peer whose session becomes active always finds room in the relay list |
| `RuntimeSteps.MarkReadyKeeps` | src/bluetooth.c:535-554 | Marking a session ready keeps the invariant, the relay list included |
| `RuntimeSteps.NoteDisconnectedKeeps` | src/bluetooth.c:556-579 | Ending a session keeps the invariant although it resets the link's transmit sequence while packets of that peer are being purged |
| `RuntimeSteps.ReconcileKeeps` | src/bluetooth.c:581-604 | Reconciling every link with the connected list keeps the invariant |
| `RuntimeSteps.ServiceKeeps` | src/bluetooth.c:606-650 | Servicing every link (hello retries, keepalives, time-outs) keeps the invariant and leaves no session silent for 5000 ms |
| `RuntimeSteps.BroadcastKeeps` | src/bluetooth.c:1294-1307 | Relaying a payload to every listed peer keeps the invariant and touches no session |
| `RuntimeInvariant.QueueMessageKeeps` | src/bluetooth.c:444-511 | Queueing one message of any kind keeps the invariant, the soundness and order of the packet queue included |
| `RuntimeSilence.FiftyQuietPolls` | src/bluetooth.c:606-650 | After any run that holds fifty enabled polls and no inbound payload no session is active, the relay list is empty and the runtime is not operational |
| `RuntimeSilence.QuietRunAges` | src/bluetooth.c:105-115 | Without inbound payloads a session only ages: its elapsed silence grows by exactly 100 ms per enabled poll, clock wrap included |
| `RuntimeSilence.QuietStep` | src/bluetooth.c:606-650 | No step but a received payload starts or refreshes a session, and only an enabled poll moves the clock |
| `RuntimeReadyRuns.SessionsAgree` | src/bluetooth.c:179-191 | Over every run from an empty intercom that avoids the named exceptions: the stored ready count is the number of ready links, ready implies active, and active implies a non-zero session id and both hello flags |
| `RuntimeReadyRuns.StepExactIff` | src/bluetooth.c:179-191 | An exact ready count stays exact over a step if and only if the step is none of: an ERROR that degrades a ready link, a clear or a disable that zeroes the count while other links are ready, a restore of a ready link |
| `RuntimeReadyRuns.PayloadExactIff` | src/bluetooth.c:1217-1224 | A received payload keeps the ready count exact if and only if it is not an accepted ERROR for a ready link |
| `RuntimeReadyRuns.StepNamedIff` | src/bluetooth.c:1190-1209 | Active sessions keep non-zero ids over a step if and only if the step is not an accepted KEEPALIVE with session id 0 for a link without a session |
| `RuntimeReadyRuns.RunExact` | src/bluetooth.c:179-191 | The ready count is exact after every run of steps of that kind |
| `RuntimeWitness.ErrorDrifts` | src/bluetooth.c:1221-1224 | A run from start-up (connect, hello, ERROR) ends with a stored ready count of one and no ready link |
| `RuntimeWitness.ClearDrifts` | src/bluetooth.c:214-243 | A run from start-up in which clearing an unknown peer zeroes the count beside a ready link |
| `RuntimeWitness.DisableDrifts` | src/bluetooth.c:760-794 | A run from start-up in which disabling leaves the count wrong |
| `RuntimeWitness.RestoreDrifts` | src/bluetooth.c:1066-1085 | A run from start-up in which restoring a peer in session leaves the count wrong |
| `RuntimeWitness.KeepaliveNameless` | src/bluetooth.c:1190-1197 | A run from start-up in which a KEEPALIVE with session id 0 makes a link active and ready without a session id |
| `RuntimeReady.ClearExactIff` | src/bluetooth.c:214-243 | Clearing a pairing leaves the ready count exact if and only if no other link was ready |
| `RuntimeReady.DisableExactIff` | src/bluetooth.c:760-794 | Disabling leaves the ready count exact if and only if no link was ready or some link's peer was not connected in the transport, which makes reconciling recount |
| `RuntimeReady.RestoreExactIff` | src/bluetooth.c:1066-1085 | Restoring a pairing leaves the ready count exact if and only if the peer had no ready link |
| `RuntimeHold.DisconnectSticks` | src/bluetooth.c:859-898 | A peer disconnected while the transport had it stays out of the transport and without a session over every run without a deliberate connect or restore of it |
| `RuntimeHold.DisconnectHoldsIff` | src/bluetooth.c:859-898 | A disconnect reports success for every listed peer, but suppresses reconnection if and only if the transport still had the peer or was suppressing it already |
| `RuntimeHold.HeldOverRun` | src/bluetooth.c:1245-1257 | Suppression survives every run of other operations |
| `RuntimeLapse.DisconnectUndone` | src/bluetooth.c:606-650 | From any coherent state with a session one tick short of timing out whose remembered, audio-ready peer was recently reported: poll, disconnect with reported success, poll again, and the peer is connected |
| `RuntimeLapseRun.LapseHappens` | src/bluetooth.c:606-650 | A run from start-up into that gap: connect, hello, 49 silent polls, a report of the peer and the poll that times the session out; the disconnect then reports success and the next poll has the peer connected again |
| `RuntimePromise.DisconnectPromiseIff` | src/bluetooth.c:859-898 | After a disconnect of a listed peer every run without a deliberate connect or restore of it keeps it out of the transport, if and only if the transport still had the peer or was suppressing it already; otherwise some such run connects it again |
| `RuntimeRelay.BroadcastTargets` | src/bluetooth.c:262-305 | For every payload the recorded targets are the intercom peers without the source, in order and once each, and the counts of targets, last relay and callbacks all agree with them; when relaying is off they are empty |
| `RuntimeRelay.RelayToRecords` | src/bluetooth.c:272-305 | Recording a relay to a duplicate-free list never takes the duplicate or the limit branch |
| `RuntimeRelay.RelayQueues` | src/bluetooth.c:652-660 | When every peer has a session with an id and the queue has room, relaying appends one packet per target, in order: a version 1 AUDIO message with the payload, from here to the target, under its link's session, next sequence and last heard sequence |
| `RuntimeRelay.BroadcastDelivers` | src/bluetooth.c:262-305 | A whole broadcast records its targets, changes no session or table and empties the queue; when every session has an id, the payload fits a packet and the queue has room, the wire gets what was queued and then that AUDIO message for each target |
| `RuntimeAudio.AudioRelayed` | src/bluetooth.c:1201-1221 | Of a received payload: AUDIO that is taken and carries something is relayed just so to the listed peers but its sender, with all relay counts; empty AUDIO goes nowhere |
| `RuntimeCapture.LocalAudioExact` | src/bluetooth.c:1271-1308 | Local audio succeeds if and only if the runtime is operational, relay and talk button are on, the frame can be encoded and some listed peer is not the source; while talking the frame is broadcast just so, in bytes from which a mono version-1 frame is read back; otherwise nothing happens |
| `RuntimeCapture.HandleAudioExact` | src/bluetooth.c:1310-1317 | Audio handed over is broadcast just so if and only if there is some and the transport is up; otherwise nothing happens |
| `RuntimeSend.QueueMessageExact` | src/bluetooth.c:444-511 | A message is queued if and only if the transport is up, the peer is listed, has or can get a link, has a session or is being said hello to, the message fits a packet, an end is connected and fewer than sixteen are queued. Then the last packet decodes to a version 1 message of that kind, flags and payload, under the session its link then has, with the link's next sequence and last heard sequence, from here to the peer. What is refused after it was composed is counted here, on the link and, for a full queue, in the transport |
| `RuntimeSend.HelloText` | src/bluetooth.c:527-534 | A hello carries "pico-intercom-" and the decimal local id |
| `RuntimeSend.ErrorTexts` | src/bluetooth.c:1127-1208 | The reasons sent in errors, spelled out |
| `RuntimeService.PollSpeaks` | src/bluetooth.c:606-650 | A poll, with room in the queue for a message on each link, puts on the wire what was queued, less the packets for sessions that end, and then in slot order exactly what is due: a HELLO on a connected link without a session that was never sent or is a second old, an empty KEEPALIVE on a session with an id silent for 1500 to 4999 ms, each under its link's session and numbers |
| `RuntimeService.ServiceSlotExact` | src/bluetooth.c:606-650 | One connected link is serviced exactly so: nothing changes below 1500 ms of silence, one message goes out on its link alone when one is due, and from 5000 ms the session is reset and its packets purged |
| `RuntimeService.ReconcileExact` | src/bluetooth.c:581-604 | Reconciling wakes idle links of connected peers, resets remembered links of others and frees the rest, and changes nothing but links, relay list and ready count |
| `RuntimeReplies.MalformedAnswered` | src/bluetooth.c:1121-1150 | Bytes that do not decode are refused and answered with ERROR 1, messages for or from somebody else with ERROR 2, reason included, as far as an answer can be sent |
| `RuntimeReplies.DuplicateCounted` | src/bluetooth.c:1153-1163 | A message that the filter drops changes only the time its link was heard from and three counters |
| `RuntimeReplies.HelloAnswered` | src/bluetooth.c:1165-1178 | A HELLO with a session id makes that session active, ready and listed on its sender's link and is answered with a HELLO_ACK under it |
| `RuntimeReplies.NamelessHelloAnswered` | src/bluetooth.c:1165-1173 | A HELLO without a session id is refused and answered with ERROR 3 |
| `RuntimeReplies.AckExact` | src/bluetooth.c:1179-1189 | A HELLO_ACK makes the session ready if and only if it names the link's non-zero session; otherwise it is only counted as dropped |
| `RuntimeReplies.KeepaliveExact` | src/bluetooth.c:1190-1197 | A KEEPALIVE keeps the session ready if and only if it names the session the link has, zero included |
| `RuntimeReplies.StrayAudioAnswered` | src/bluetooth.c:1201-1209 | AUDIO that is not of the active session is refused and answered with ERROR 3 |
| `RuntimeReplies.ErrorDegrades` | src/bluetooth.c:1221-1231 | An ERROR degrades its link, is counted as dropped and gets no answer |
| `RuntimeReplies.GoodbyeEnds` | src/bluetooth.c:1232-1237 | A GOODBYE resets the link, takes the peer out of the relay list and the transport, and purges its packets |
| `RuntimeCommands.RestoreOutcome` | src/bluetooth.c:1066-1085 | A restore succeeds if and only if the peer can be remembered and has or can get a link; the link is then remembered and idle, and no other link, no list and no packet changes |
| `RuntimeCommands.ClearOutcome` | src/bluetooth.c:214-243 | A clear leaves the peer not remembered, not connected, not listed and without a link; other peers keep their links, connections and remembered places |
| `RuntimeCommands.DisconnectSays` | src/bluetooth.c:859-898 | A disconnect queues a GOODBYE on a live session before it takes the peer and its packets out, and says nothing without one |
| `RuntimeCommands.SwitchOutcome` | src/bluetooth.c:760-794 | Switching sets runtime and transport on or off together, takes over the transport's connected list and settles every link with it; tables, queue and counters stay |
| `RuntimeOutcomes.ConnectOkIff` | src/bluetooth.c:820-857 | A connect succeeds if and only if the runtime is enabled, the id is non-zero, a link exists or is free, and either the session is active, or the peer is or can be remembered and is in the transport already or has (or can get) an audio-capable entry |
| `RuntimeOutcomes.ConnectMakes` | src/bluetooth.c:820-857 | A successful connect without a session puts the peer in the transport and the runtime list, leaves its link waiting for the handshake, and changes no other link, no session and no queued packet |
| `RuntimeOutcomes.DisconnectOutcome` | src/bluetooth.c:859-898 | A disconnect succeeds if and only if the peer is listed; it then is in no list and has no session, while every other peer keeps its connection, relay entry and link |
| `RuntimeOutcomes.SendTouches` | src/bluetooth.c:444-511 | Queueing a message writes no link but its target's |
| `Runtime.Runtime.Connect` | src/bluetooth.c:820-857 | The in-place form of connect, over the fixed tables, ends in exactly the state and result of its specification function, about which the theorems above are proved |
| `Runtime.Runtime.Disconnect` | src/bluetooth.c:859-898 | The in-place form of disconnect, over the fixed tables, ends in exactly the state and result of its specification function, about which the theorems above are proved |
| `Runtime.Runtime.ClearPairing` | src/bluetooth.c:214-243 | The in-place form of clearing a pairing, over the fixed tables, ends in exactly the state and result of its specification function, about which the theorems above are proved |
| `Runtime.Runtime.RestorePairing` | src/bluetooth.c:1066-1085 | The in-place form of restoring a pairing, over the fixed tables, ends in exactly the state and result of its specification function, about which the theorems above are proved |
| `Runtime.Runtime.SetEnabled` | src/bluetooth.c:760-794 | The in-place form of enabling and disabling, over the fixed tables, ends in exactly the state and result of its specification function, about which the theorems above are proved |
| `Runtime.Runtime.Poll` | src/bluetooth.c:1245-1257 | The in-place form of the poll, over the fixed tables, ends in exactly the state and result of its specification function, about which the theorems above are proved |
| `Runtime.Runtime.QueueMessage` | src/bluetooth.c:444-511 | The in-place form of queueing a protocol message, over the fixed tables, ends in exactly the state and result of its specification function, about which the theorems above are proved |
| `Runtime.Runtime.MarkReady` | src/bluetooth.c:535-554 | The in-place form of marking a session ready, over the fixed tables, ends in exactly the state and result of its specification function, about which the theorems above are proved |
| `Runtime.Runtime.NoteDisconnected` | src/bluetooth.c:556-579 | The in-place form of ending a session, over the fixed tables, ends in exactly the state and result of its specification function, about which the theorems above are proved |
| `Runtime.Runtime.Reconcile` | src/bluetooth.c:581-604 | The in-place form of the reconciling loop, over the fixed tables, ends in exactly the state and result of its specification function, about which the theorems above are proved |
| `Runtime.Runtime.Service` | src/bluetooth.c:606-650 | The in-place form of the servicing loop, over the fixed tables, ends in exactly the state and result of its specification function, about which the theorems above are proved |
| `Runtime.Runtime.Rebroadcast` | src/bluetooth.c:652-660 | The in-place form of the relay fan-out over the intercom list, over the fixed tables, ends in exactly the state and result of its specification function, about which the theorems above are proved |
| `Runtime.Runtime.ProcessLocalAudio` | src/bluetooth.c:1271-1308 | The in-place form of local audio capture to relay, over the fixed tables, ends in exactly the state and result of its specification function, about which the theorems above are proved |
| `Runtime.Runtime.HandleAudio` | src/bluetooth.c:1310-1317 | The in-place form of handling an audio payload, over the fixed tables, ends in exactly the state and result of its specification function, about which the theorems above are proved |
| `Runtime.Runtime.HandlePayload` | src/bluetooth.c:1121-1243 | The in-place form of receiving a payload, over the fixed tables, ends in exactly the state and result of its specification function, about which the theorems above are proved |
| `Runtime.Runtime.GenerateSessionId` | src/bluetooth.c:245-260 | The in-place form of session id generation, over the fixed tables, ends in exactly the state and result of its specification function, about which the theorems above are proved |
| `RuntimeEvents.Perform` | src/bluetooth.c:1245-1317 | Performing any event on the runtime object takes its view through exactly the step of the run theorems and keeps a coherent object coherent |
| `RuntimeHeardRuns.LinkFollows` | src/bluetooth.c:1153-1218 | Over every run of the runtime along which a peer stays online in its slot, whatever polls, relays, commands and other peers come in between: the link ends with its last sequence where the 16-bit filter stands after the messages that arrived from that peer, and its missing count grown, modulo 2^32, by the gaps in the audio it took for its session |
| `RuntimeHeardRuns.HeardInOrder` | src/bluetooth.c:1153-1163 | Over every such run the verdicts the link gave are those of a filter on unbounded numbers if and only if each message arrived at a distance from the true position that sixteen bits can decide (any within 0x7FFF among them); then the link ends at that filter's position modulo 2^16, the position has not fallen, and the audio it took is strictly increasing in true number: at most once and in order |
| `RuntimeAudio.TakenTwiceIff` | src/bluetooth.c:1153-1218 | The same AUDIO of the session arriving twice in a row is taken twice if and only if its sequence is exactly 0x8000 away from the link's position |
| `RuntimeAudio.AudioTaken` | src/bluetooth.c:1153-1218 | AUDIO from an online peer is taken if and only if the filter passes it and it belongs to the active session; the link records its sequence and gap, relaying included, and nothing else changes on it |
| `RuntimeAudio.FreshAudioIff` | src/bluetooth.c:1165-1178 | A HELLO that replaces a session keeps the receive position, so AUDIO of the new session is taken if and only if it is neither at nor behind the old position, or the HELLO's own sequence where that is newer |
| `RuntimeAudio.RestartRefusedIff` | src/bluetooth.c:1165-1178 | Of a peer that starts over from sequence 1 without a goodbye, AUDIO is taken if and only if its sequence has passed the position reached before (both in the lower half of the number space) |
| `RuntimeAudioRun.DuplicateTaken` | src/bluetooth.c:1153-1163 | A run from start-up in which one AUDIO message arrives twice in a row and both copies are taken |
| `RuntimeAudioRun.LossUncounted` | src/bluetooth.c:1210-1218 | A run from start-up in which 0x7FFF frames are lost and the missing count ends at 0x7FFE |
| `RuntimeAudioRun.FreshAudioRefused` | src/bluetooth.c:1165-1178 | A run from start-up in which a peer starts over, its new session is accepted and the first AUDIO of that session is refused |
| `RuntimeHeardRuns.MissingSpans` | src/bluetooth.c:1210-1218 | Over every such run that starts before any audio was heard, when consecutive frames taken lie at most 0x8000 apart: frames taken, growth of the link's missing count and frames skipped right after a zero sequence span the true numbers modulo 2^32 |
| `RuntimeHeardRuns.MissingCountIff` | src/bluetooth.c:1210-1218 | The link's missing count is exact over such a run if and only if no frame was lost right after one whose 16-bit sequence is zero |
| `RuntimeHeard.StepEar` | src/bluetooth.c:1121-1243 | Any single step that leaves a peer online changes what its link has heard exactly by the message the step brings from that peer, and not at all when it brings none |
| `SerialWindow.FilterRefines` | src/bluetooth.c:72-80 | The filter itself: over any delivery sequence the 16-bit filter gives the verdicts of the same filter on unbounded numbers if and only if every distance along the true positions is decidable, as any within 0x7FFF is; then its position is that filter's modulo 2^16 |
| `SerialWindow.AudioInOrder` | src/bluetooth.c:1153-1163 | At decidable distances the AUDIO that this filter passes is strictly increasing in true number and its position never falls |
| `SerialWindow.NeverBack` | src/bluetooth.c:72-80 | With no assumption on the channel one message never moves the 16-bit position back in serial order |
| `SerialWindow.JudgeExact` | src/bluetooth.c:1153-1163 | The 16-bit verdict equals the true one exactly at the distances that the window admits |
| `SerialWindow.HalfwayPasses` | src/bluetooth.c:1155-1163 | AUDIO 0x8000 behind the position is accepted without advancing although it is old: the counterexample that bounds the window |
| `SerialWindow.MissingTelescopes` | src/bluetooth.c:1210-1218 | The sum of gaps itself: over any list of frames that rises in steps of at most 0x8000, frames heard plus gaps counted plus frames skipped right after a zero sequence span the whole range of true numbers |
| `SerialWindow.MissingExactIff` | src/bluetooth.c:1210-1218 | That sum alone spans the range if and only if no frame was lost right after one whose 16-bit sequence is zero |
| `RuntimeIds.GivenDistinct` | src/bluetooth.c:465-467 | Over every run of the runtime from start-up in which hellos opened at most 65536 sessions, the ids they were given are non-zero, carry the local peer id in the top byte and are pairwise distinct, teardowns and peers regardless |
| `RuntimeIds.HelloIdFresh` | src/bluetooth.c:245-260 | Before that many, the id under which a link without a session says hello was never given to any link before |
| `SessionIds.FirstIdsDistinct` | src/bluetooth.c:245-260 | The generator itself: its first 65536 ids are non-zero, tagged and pairwise distinct, for any choice of peers |
| `SessionIds.CarryCollides` | src/bluetooth.c:245-260 | The bound is tight: 65536 generations later the counter's carry gives a neighbouring peer the same id |
| `RuntimeCollision.NeighboursCollide` | src/bluetooth.c:245-260 | Tight for the runtime too: a run from start-up, 65537 ids long, after which the links of two connected neighbouring peers carry the same session id |
| `TransportInvariant.RunKeepsWellFormed` | src/bluetooth_transport.c:15-573 | Over every run whose clears apply to non-connected peers: the three tables are duplicate-free and at most eight, connected is contained in remembered and discovered, the stored discovered count is exact despite holes, and every queued packet has a connected endpoint |
| `TransportInvariant.RoomForDiscovered` | src/bluetooth_transport.c:134-164 | By pigeonhole the peer-limit branch of marking a discovered peer connected cannot be reached |
| `TransportInvariant.ClearKeepsIff` | src/bluetooth_transport.c:368-412 | A clear keeps the tables well formed if and only if the peer is not connected, which the runtime ensures |
| `TransportInvariant.StepKeeps` | src/bluetooth_transport.c:226-555 | Every transport operation keeps the tables well formed |
| `TransportPoll.PollExact` | src/bluetooth_transport.c:448-477 | One poll rewrites each discovered slot as judged on the tables before the poll (reconnected, purged or untouched) and appends to the connected list exactly the wanted peers, in slot order |
| `TransportPoll.EntryFate` | src/bluetooth_transport.c:166-182 | What one poll makes of one entry, condition by condition: forgotten after more than 5000 ms without a report unless it is connected, remembered or being paired; reconnected when it is remembered, audio-ready and not suppressed; otherwise unchanged |
| `TransportPoll.PollConnects` | src/bluetooth_transport.c:448-477 | After a poll a peer is connected if and only if it was before or some slot held it remembered, audio-ready, unblocked, not disconnect-requested and not stale |
| `TransportPoll.PollTwice` | src/bluetooth_transport.c:448-477 | A second poll at the same clock changes no table |
| `TransportHold.DisconnectSticks` | src/bluetooth_transport.c:300-342 | A disconnected peer stays disconnected over every run of reports, polls, queueing, operations on other peers and clearing of itself, until a deliberate connect, restore or lifting of its flags |
| `TransportHold.HoldOverRun` | src/bluetooth_transport.c:166-182 | Over every such run a held peer stays held: not connected, and while it is remembered its entry survives purging and compaction with a suppressing flag set |
| `TransportHold.ClearForgetsIff` | src/bluetooth_transport.c:387-404 | A clear leaves the named entry in place if and only if it lies beyond the first discovered-count slots |
| `RuntimeHoleRun.ClearMisses` | src/bluetooth_transport.c:387-404 | A run from start-up (two peers reported, fifty polls, one reported again, a poll that purges the other) after which clearing the remaining peer leaves it in the table |
| `TransportLedger.QueueConservation` | src/bluetooth_transport.c:184-210 | Over every run the queue is the accepted packets minus those delivered and purged, in order of acceptance, and the packets handed out are those delivered, in that order; queued = delivered + purged + pending, dropped = rejected + purged, and each queued packet has a connected endpoint |
| `TransportLedger.RecordStep` | src/bluetooth_transport.c:503-555 | Every operation keeps that ledger: a queueing appends or rejects, a dequeue delivers the oldest pending packet, a disconnect purges exactly the packets that involve the peer |
| `TransportOutcomes.ConnectOkIff` | src/bluetooth_transport.c:255-298 | A connect succeeds if and only if the transport is enabled, the peer is or can be remembered, and it is connected already or has (or can get) an entry that is audio-capable; the connected list grows by exactly that peer |
| `TransportOutcomes.ConnectMakes` | src/bluetooth_transport.c:255-298 | A successful connect leaves the peer remembered, connected and unsuppressed and writes no other entry |
| `TransportOutcomes.RestoreOutcome` | src/bluetooth_transport.c:344-366 | A restore succeeds if and only if the peer is or can be remembered, connects nothing, lifts suppression and writes no other entry |
| `TransportOutcomes.ReportOutcome` | src/bluetooth_transport.c:414-446 | A report succeeds if and only if the peer is foreign and has or can get an entry, and refreshes only that entry |
| `TransportOutcomes.DisconnectOutcome` | src/bluetooth_transport.c:300-342 | A disconnect succeeds if and only if the peer is connected; it removes that peer and the packets that involve it, suppresses it, and keeps the order of the others, their entries and the remembered list |
| `TransportOutcomes.ConnectRefused` | src/bluetooth_transport.c:255-298 | A refused connect leaves the tables alone when it was not tried or the peer cannot be remembered, and otherwise the peer remembered, with a pairing pending when only its audio is missing; the error code says which |
| `TransportOutcomes.ClearOutcome` | src/bluetooth_transport.c:368-412 | A clear succeeds if and only if the peer was remembered, had an entry among the scanned slots or was the pending pairing; it forgets the peer and connects or disconnects nobody |
| `TransportOutcomes.QueueOutcome` | src/bluetooth_transport.c:503-540 | A packet is queued if and only if the transport is on, it carries something, an end is connected and fewer than sixteen are queued; it goes to the end, cut to 256 bytes, and a full queue counts it as dropped |
| `TransportOutcomes.SuccessClears` | src/bluetooth_transport.c:255-446 | What succeeds clears the last error and, when it settles a pairing, the pending one |
| `TransportOutcomes.RefusalTells` | src/bluetooth_transport.c:300-540 | What is refused sets the sticky flag and its code, except a full queue, which sets only the code |
| `Transport.Transport.Connect` | src/bluetooth_transport.c:255-298 | The in-place form of connect ends in exactly the state and result of its specification function |
| `Transport.Transport.Disconnect` | src/bluetooth_transport.c:300-342 | The in-place form of disconnect ends in exactly the state and result of its specification function |
| `Transport.Transport.RestorePairing` | src/bluetooth_transport.c:344-366 | The in-place form of restore ends in exactly the state and result of its specification function |
| `Transport.Transport.ClearPairing` | src/bluetooth_transport.c:368-412 | The in-place form of clear, with its compaction loop ends in exactly the state and result of its specification function |
| `Transport.Transport.ReportPeer` | src/bluetooth_transport.c:414-446 | The in-place form of report ends in exactly the state and result of its specification function |
| `Transport.Transport.Poll` | src/bluetooth_transport.c:448-477 | The in-place form of the polling loop ends in exactly the state and result of its specification function |
| `Transport.Transport.QueuePacket` | src/bluetooth_transport.c:503-540 | The in-place form of queueing a packet ends in exactly the state and result of its specification function |
| `Transport.Transport.Purge` | src/bluetooth_transport.c:166-182 | The in-place form of purging a stale entry ends in exactly the state and result of its specification function |
| `Transport.Transport.RememberPeer` | src/bluetooth_transport.c:85-104 | The in-place form of remembering a peer ends in exactly the state and result of its specification function |
| `Transport.Transport.MarkConnected` | src/bluetooth_transport.c:134-164 | The in-place form of marking a peer connected ends in exactly the state and result of its specification function |
| `Transport.Transport.RemovePackets` | src/bluetooth_transport.c:184-210 | The in-place removal loop terminates and leaves exactly the packets that involve the peer at neither end, in order |
| `Transport.Transport.DequeuePacket` | src/bluetooth_transport.c:542-555 | Delivers the oldest packet and shifts the rest, or nothing when empty |
| `Transport.Transport.SelectPairingCandidate` | src/bluetooth_transport.c:479-497 | Finds the first discovered peer that is a pairing candidate, if any |
| `IntercomSpec.AddPeerOutcome` | src/intercom.c:38-49 | Adding succeeds if and only if fewer than eight are listed, even for a listed peer, and keeps the list free of repeats |
| `IntercomSpec.RemovePeerOutcome` | src/intercom.c:51-68 | Removing succeeds if and only if the peer is listed, and takes only it out |
| `Intercom.Intercom.AddPeer` | src/intercom.c:38-49 | Appends an unlisted peer while there is room and refuses otherwise, in place, as the specification function says |
| `Intercom.Intercom.RemovePeer` | src/intercom.c:51-68 | Shifts the peer out of the array in place and reports whether it was there, as the specification function says |
| `Protocol.DecodeEncode` | src/intercom_protocol.c:30-102 | A message that can be encoded is read back unchanged when its version is 1, and refused otherwise |
| `Protocol.EncodeDecode` | src/intercom_protocol.c:70-102 | Bytes that decode are exactly the encoding of what they decode to |
| `Protocol.Layout` | src/intercom_protocol.c:30-68 | Every byte of the format: magic number, version, kind, then the little-endian fields at their offsets and the payload from byte 18 |
| `Protocol.EncodeInto` | src/intercom_protocol.c:30-68 | The in-place encoder succeeds exactly for encodable messages that fit, writes the encoding at the front and leaves the rest of the buffer |
| `Protocol.ErrorPayload` | src/intercom_protocol.c:104-122 | The error payload is the code followed by as much of the reason as fits the buffer |
| `AudioFrame.DecodeEncode` | src/audio.c:137-225 | A mono version-1 frame is read back with its samples, signed ones included, silent past the count; every other encodable frame is refused |
| `AudioFrame.EncodeDecode` | src/audio.c:183-225 | Bytes that decode to a frame are exactly the encoding of that frame |
| `AudioFrame.NestedFrameSurvives` | src/audio.c:137-181 | A frame nested in an AUDIO message takes at most 98 bytes and survives both layers |
| `AudioFrame.EncodedFields` | src/audio.c:137-181 | Every header field is at its offset |
| `AudioFrame.SampleLayout` | src/audio.c:137-181 | Sample i is the little-endian two's complement word at byte 16 + 2i |
| `AudioFrame.EncodeInto` | src/audio.c:137-181 | The in-place encoder succeeds exactly for encodable frames that fit and writes the encoding at the front |
| `AudioFrame.DecodeFrom` | src/audio.c:183-225 | The offset-driven decoder computes the specified frame or refusal |
| `PairingText.ReadPrintIff` | src/pairings.c:124-170 | Printing then reading a list of at most eight storable entries is the identity if and only if no name contains a newline or ends in a carriage return |
| `PairingText.PrintsLine` | src/pairings.c:124-136 | Two printed entries, character by character |
| `PairingText.ReadHandle` | src/pairings.c:138-170 | The line reader fills the caller's array with the specified entries |
| `PairingText.WriteHandle` | src/pairings.c:124-136 | The printer loop writes the specified lines |
| `PairingStore.PutIsBoundedMap` | src/pairings.c:339-408 | A save changes only its own peer id in a duplicate-free, order-keeping map and fails if and only if eight other ids are present |
| `PairingStore.SaveLoads` | src/pairings.c:339-440 | From a well-kept file, loading after a save gives the updated list if and only if the stored name is line-safe; the save fails exactly when the map is full |
| `PairingStore.SavesRefineMap` | src/pairings.c:339-440 | Over any run of saves into a well-kept file, it loads as the map after the same updates all along if and only if every save that the map accepts has a line-safe name |
| `PairingStore.DedupUnique` | src/pairings.c:57-66 | Loading keeps the first entry per id: no id twice, none lost, and a list without repeats unchanged |
| `PairingStore.Store.SavePairing` | src/pairings.c:339-408 | The in-place save (load, rebuild, insert, rewrite) leaves exactly the specified file |
| `PairingStore.Store.LoadPairings` | src/pairings.c:410-440 | The in-place load returns the specified entries and leaves the file alone |
| `PairingStore.Store.Clear` | src/pairings.c:442-460 | Clearing removes the file, after which nothing is loaded |
| `FlashImage.OneByteDetected` | src/pairings.c:174-205 | Two images that differ in exactly one byte are not both valid |
| `FlashImage.RoundInjectiveInState` | src/pairings.c:174-189 | One FNV-1a step is injective in the running hash |
| `FlashImage.RoundInjectiveInByte` | src/pairings.c:174-189 | One FNV-1a step is injective in the byte |
| `FlashImage.MultiplyUndone` | src/pairings.c:174-189 | Multiplying by 16777619 modulo 2^32 is undone by multiplying by 0x359C449B |
| `FlashImage.SaveValid` | src/pairings.c:269-307 | A flash save always leaves a valid image, whatever was there |
| `FlashImage.SaveLoads` | src/pairings.c:243-307 | Loading after a flash save gives the entries with the saved one replaced or appended, and the old entries when eight others fill the image |
| `FlashImage.SavedIff` | src/pairings.c:297-306 | The saved pairing, as it is normalised for storing, is present afterwards if and only if its id was there or there was room |
| `FlashImage.SavePairing` | src/pairings.c:269-307 | Normalises the pairing, saves it and writes the image; it reports success exactly when the driver wrote, whether or not the pairing found room, and a failed write leaves flash as it was |
| `FlashImage.NormaliseSettles` | src/pairings.c:107-121 | The stored name is the caller's up to its terminator or 63 characters, always ends in a terminator with nothing behind it, and storing it again changes nothing |
| `FlashImage.KnownHash` | src/pairings.c:174-189 | The hash of the one byte 0x61 is 0xE40C292C, as FNV-1a defines it: start value, mixing and prime |
| `FlashImage.ValidLayout` | src/pairings.c:191-205 | A valid image has the magic number, version and count in its first twelve bytes, low bytes first, and its entries from byte 16, 65 bytes each |
| `FlashImage.ComputeChecksum` | src/pairings.c:174-189 | The byte loop computes the specified checksum, skipping the checksum field |
| `FlashImage.SaveInPlace` | src/pairings.c:281-306 | The in-place update of the image leaves exactly the specified image |
| `SendLoopRuns.CanSendExact` | src/bluetooth_le_audio.c:890-948 | One turn hands the radio at most one packet, the earliest whose target owns the channel; it takes away exactly that packet when sent or too large, the earlier packets without a headset, and on failure every packet that involves the peer; survivors keep their order and every removal is booked once |
| `SendLoopRuns.RunDelivers` | src/bluetooth_le_audio.c:496-560 | Over every run of the radio build, what was taken for each headset is, in queueing order without repeats, what was offered: each packet has its offer's source, target and first 256 payload bytes; what is still queued comes after, and every packet offered is delivered, dropped, pending or discarded |
| `SendLoopRuns.EnqueueExact` | src/bluetooth_le_audio.c:496-522 | An offer is queued if and only if it carries something and fewer than sixteen are queued, at the end, with its source, target and first 256 bytes, and a refused one is counted |
| `SendLoopRuns.TurnOffers` | src/bluetooth_le_audio.c:890-948 | What a turn hands the radio, from the entries themselves: the first packet whose target's entry has the channel, unless it exceeds that entry's frame limit, and nothing else |
| `SendLoopRuns.TurnSettles` | src/bluetooth_le_audio.c:890-948 | A failed send is remembered as an error and a sent packet as the last one; the next turn is asked for if and only if one was sent or refused for its size while another has an open channel and the radio grants it |
| `SendLoopRuns.ClosedExact` | src/bluetooth_le_audio.c:538-560 | A lost peer takes exactly its packets with it, counted as dropped, and a closed channel the outstanding request too |
| `SendLoopRuns.StepKeeps` | src/bluetooth_le_audio.c:496-948 | Every step of the radio build keeps that history |
| `SendLoopRuns.RequestExact` | src/bluetooth_le_audio.c:835-856 | A next turn is requested if and only if some queued packet has an open channel and the radio grants it, and for the earliest such packet |
| `SendLoop.Outbound.CanSendNow` | src/bluetooth_le_audio.c:890-948 | The scan with its index wrapping below zero terminates and ends in exactly the state of its specification function |
| `SendLoop.Outbound.Sweep` | src/bluetooth_le_audio.c:899-912 | The scan removes exactly the packets without a headset in front of the first packet that has the channel and stops there |
| `SendLoop.Outbound.RemoveFor` | src/bluetooth_le_audio.c:538-560 | The in-place removal loop leaves exactly the packets that do not involve the peer, in order |
| `SendLoop.Outbound.RemoveAtIndex` | src/bluetooth_le_audio.c:524-536 | Hands out the packet at the index and shifts the later ones down over it |
| `SendLoop.Outbound.Enqueue` | src/bluetooth_le_audio.c:496-522 | Appends the packet, cut to 256 bytes, or rejects it when sixteen are queued, and counts which |
| `SendLoop.Outbound.Request` | src/bluetooth_le_audio.c:835-856 | The request loop ends in exactly the state of its specification function |

## Left out

- The radio build outside the send step: BTstack events, inquiry, SDP, RFCOMM channels, CYW43 start-up, and the headset entries it keeps; in the send step the radio's answers are parameters.
- The connecting, disconnecting and `rfcomm_disconnect` bookkeeping that follows a failed send; the packet queue and counters after it are modelled.
- `src/main.c`: GPIO, button timing, LEDs, logging and the endless loop.
- Per-peer state arrays and state names, peer display names, addresses, and the SDP and connect retry fields: they decide no modelled branch.
- The copy of the last relayed payload. Runtime error codes, pairing-progress flags, command aliases and command counters, and the runtime's copies of transport counters.
- The pairing button's runtime flow; the choice of candidate is modelled in the transport.
- The wrapper's own `paired_peer_id` and `connected` flags; its `enabled` flag equals the transport's on the host.
- Audio capture, synthetic waveform and playback queue; the captured frame is a parameter. Reception statistics beyond the missing-frame count.
- Platform start-up, which always succeeds on the host, and null-argument checks, which the types rule out.
- `size_t` counters are unbounded here; they would wrap after 2^32 packets.
- File and flash errors: the host file is an optional character sequence; whether a flash write goes through is a parameter, and one that fails leaves flash as it was, never partly written. Paths are not modelled.
- Numbers in the pairing file that are negative or too large for an `unsigned` are treated as out of range; C leaves the conversion undefined.
- Liveness of the remote end: that a headset answers, or that a GOODBYE reaches the peer (a disconnect purges the peer's queued packets at once).
- RuntimeReadyRuns.RunExact: states one direction over runs, because a wrong count can be repaired by any later recount; each single step is stated both ways.
