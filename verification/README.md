# Verified models of the audio and value point components

A Dafny model of three stateful parts of the Thunder code base, with proofs of what they keep, deliver and
refuse. `dafny verify dfyconfig.toml` checks everything.

**The Bluetooth audio session.** An AVDTP stream endpoint (`StreamEndpoint`) is driven by a local client, by
remote signals and by devices that come and go. `SinkSession` and `SourceSession` are the two sessions built
on it, as transition systems: an operation is split wherever the source code lets other threads run, so that
the theorems hold for every interleaving. `AudioSession` has the objects behind them, with methods that are
proved against the same functions; `SignalIsOperate` and `UninterruptedIsOperate` say that these are the steps of
an interleaving that nothing interrupts. `MediaTransport` and `AudioPlayer` are the byte pipeline of the sink:
shared buffer, local buffer with in-place moves, RTP packets (section 5.1 of RFC 3550), and a millisecond
clock. `DeviceLatency` is the latency arithmetic in front of it. `StateReports` (on `WorkerJob`) is the
decoupled reporting of state changes; `SignallingServer` and `LatchedConnections` are the connections that
time out unless a session has latched them.

**The 4MOD voice decoder.** `VoiceReassembly` collects 128-byte packages from notifications, in place;
`VoiceHistory` says what a package, a completion and a loss are in terms of the packets received, and proves
that the counters agree. `ImaDecoder` decodes a package: IMA ADPCM as in section 4.5.1 of RFC 3551, but with
the low nibble first and saturation at plus and minus 32767, as the code has it.

**The value point.** `ValuePoint` is the object: a cached value, registered clients, and flag bits that merge
notifications into one job. `ValuePointRuns` is everything it does with other threads in between: clients,
poller and job. `Scaling` is its conversion between ranges.

`Words` has the fixed-width integers and the conversions that lose bits, `Rates` facts about quotients.

How to read the claims:

- What the code asserts of others is taken as a hypothesis: the frame sizes of the codec, the device that the source
  looks up. What it asserts of the state that is modelled (the fit of a read, the latency limit, the pointers and the
  buffer of the source, the submitted job) is proved, or its exact condition is.
- Where a desirable property fails, the code is modelled as it is and the condition is exact. These are the failures,
  each with the members that state the condition and, where it does not speak for itself, give a run or an input:
  - the sink falls out of step with its endpoint, when a source refuses to relinquish or a discovery ends while an open
    endpoint is attached: `SinkSession.StepBreaksExactly`; `RefusalHappens`, `EarlyDiscoveryHappens`;
  - a handler of the sink uses a player that is not there, after the loss of the device:
    `SinkSession.NullPlayerExactly`; `NullPlayerHappens`;
  - the source uses a channel, a receiver or a buffer that is not there: `SourceSession.NullChannelExactly`,
    `NullReceiverExactly`, `NullBufferExactly`; `NullChannelHappens`, `NullReceiverHappens`, `NullBufferHappens`;
  - after an attempt to open that left a buffer which is not open, the source writes a packet to it, or asserts in vain
    that it has none: `SourceSession.UnopenedBufferExactly`, `NoBufferExactly`; `UnopenedBufferHappens`,
    `LeftOverHappens`;
  - the source does not report that it is streaming, when a transport channel is assigned after the start:
    `SourceSession.AgreementBreaksExactly`; `LateTransportHappens`;
  - a dispatch of a state report calls an empty closure, which ends the process, when a change comes between the start
    of the one before and its taking the closure: `StateReports.EmptyCallExactly`; `EmptyDispatchHappens`;
  - a read does not fit the local buffer, when that holds data and the shared one exceeds two preferred frames:
    `AudioPlayer.FitsExactly`; `MisfitHappens`;
  - bytes are lost, when a read returns 64K or more: `AudioPlayer.AudioPlayer.Read`, `NothingLost`; `FullReadHappens`;
  - nothing is sent and nothing read, and `Stop` leaves data behind, when the local buffer holds a frame or more but its
    length modulo 64K is less: `AudioPlayer.AudioPlayer.Send`, `Worker`, `Stop`; `StuckHappens`; not if preferred frame
    and shared buffer together are at most 64K;
  - a client sees the time go back, when it looks while the odometer is being reset and there was any play time:
    `AudioPlayer.AudioPlayer.Stall`, `Finish`;
  - a value does not come back from a conversion, since only one direction uses the lower end of the span, or cannot be
    converted at all: `Scaling.RoundTripExactly`, `AllComeBackExactly`, `ScalingFailsExactly`; `LowerEndIsNotUndone`,
    `DefaultLimitsFail`;
  - a latched connection is closed, when two sessions share it: `LatchedConnections.UnassignBreaksExactly`;
    `SharedConnectionIsClosed`;
  - connections time out early, when the timeout is above 71 minutes: `SignallingServer.TimeoutIsExact`;
  - a header is longer than the package, or its step index is not in the table: `VoiceReassembly.Reassembler.AddFrame`,
    `ImaDecoder.PcmDecoder.Decode`;
  - the decoder answers with more bytes than it has written: `ImaDecoder.AnswerIsBytesWritten`.
- The codec, the packet layout, the answers of the remote device and the reads from the shared buffer are
  arbitrary, within the limits stated on the methods that stand for them (`Ingest`, `Get`). The clock never
  goes back and a sleep lasts at least as long as asked.
- Two things are kept although one would expect otherwise: a reconfiguration is accepted only while the endpoint
  is idle, and `DecodeStream` takes a quarter of the output length in bytes for the room in samples, so that it
  uses only half of it.

## Model

| member | source | states |
|---|---|---|
| SinkSession.SessionInvariant | ThunderNanoServices/BluetoothAudio/BluetoothAudioSink.h:1013-1248 | in every interleaving without one of the two breaking events: between endpoint calls an attached endpoint is idle, configured, opened or started, there is a player exactly in the last two, the reported state says which, no acquisition replaces a live player, and nothing uses a missing one |
| SinkSession.StepBreaksExactly | ThunderNanoServices/BluetoothAudio/BluetoothAudioSink.h:1963-1983 | from a state in step, an event leads out of step if and only if it is a refusing source on the way down or a discovery with an open endpoint attached |
| SinkSession.CleanRunsStayInStep | ThunderNanoServices/BluetoothAudio/AudioEndpoint.h:240-596 | sink and endpoint stay in step over every run without these events, also in the middle of a call |
| SinkSession.NullPlayerExactly | ThunderNanoServices/BluetoothAudio/BluetoothAudioSink.h:1179-1205 | from a state in step a missing player is used exactly when a start or suspend is handled while the endpoint is detached; a client call never does |
| SinkSession.CleanRunsFinish | ThunderNanoServices/BluetoothAudio/BluetoothAudioSink.h:1013-1327 | no run without the two breaking events and without the loss of the device ever uses a missing player |
| SinkSession.NullPlayerHappens | ThunderNanoServices/BluetoothAudio/BluetoothAudioSink.h:1179-1205 | a run with such a loss that does: the device is lost while the endpoint is open, and the remote starts it |
| SinkSession.SignalIsOperate | ThunderNanoServices/BluetoothAudio/AudioEndpoint.h:417-596 | a signal, taken step by step and not interrupted, comes to the same end as the operation in one piece, for every operation and answer |
| SinkSession.OperateInStep | ThunderNanoServices/BluetoothAudio/AudioEndpoint.h:417-596 | a whole operation keeps the step exactly if no source refuses an admitted close or abort of a session with a player |
| SinkSession.FailedRequestChangesNothing | ThunderNanoServices/BluetoothAudio/BluetoothAudioSink.h:1013-1224 | a refused client request leaves everything as it was, unless it is a relinquish that the source refused |
| SinkSession.RefusalLeavesPlayerBehind | ThunderNanoServices/BluetoothAudio/BluetoothAudioSink.h:1963-1983 | after such a refusal the endpoint is idle and the player still there |
| SinkSession.RefusalHappens | ThunderNanoServices/BluetoothAudio/BluetoothAudioSink.h:1963-1983 | a run in which a source refuses, after which the endpoint is idle and the player still there |
| SinkSession.EarlyDiscoveryHappens | ThunderNanoServices/BluetoothAudio/BluetoothAudioSink.h:1310-1327 | a run in which the device is lost and found again before its endpoint was told |
| SinkSession.LeftBehindForGood | ThunderNanoServices/BluetoothAudio/BluetoothAudioSink.h:1013-1224 | from there no request and no signal helps; only the loss of the device does |
| SinkSession.WholeSession | ThunderNanoServices/BluetoothAudio/AudioEndpoint.h:417-596 | a session configured and suspended by the remote, opened and started by the client, and aborted, passes through the states one expects |
| SinkSession.OperationHasEffect | ThunderNanoServices/BluetoothAudio/AudioEndpoint.h:417-596 | for each operation, state by state: exactly when it succeeds, and the session after success and after failure |
| SinkSession.RequestHasEffect | ThunderNanoServices/BluetoothAudio/BluetoothAudioSink.h:1013-1224 | a client request of a session in step succeeds exactly if endpoint, remote, source and player allow it, and has then had its effect: configured without a player; opened with one and ready; started and streaming; opened and ready; idle without a player |
| SinkSession.RefusalsAreExact | ThunderNanoServices/BluetoothAudio/BluetoothAudioSink.h:1013-1224 | which error a refused client request answers: the first check that fails decides, from the missing endpoint to the answer of the player |
| SinkSession.DeviceHasEffect | ThunderNanoServices/BluetoothAudio/BluetoothAudioSink.h:1293-1418 | the loss, the connection and the discovery of a device change pointer, player and report as they should, and never the endpoint or a call in progress |
| AudioSession.AudioEndpoint.OnSetConfiguration | ThunderNanoServices/BluetoothAudio/AudioEndpoint.h:417-473 | illegal in any state but idle; configured exactly if it succeeds; endpoint and handler change as the session model says, for either kind of handler, and stay in step (a sink) or bound (a source) |
| AudioSession.AudioEndpoint.OnOpen | ThunderNanoServices/BluetoothAudio/AudioEndpoint.h:474-496 | likewise, from configured only, to opened |
| AudioSession.AudioEndpoint.OnClose | ThunderNanoServices/BluetoothAudio/AudioEndpoint.h:497-522 | as above; ends idle whatever the handler answers, and passes its answer on; out of step afterwards exactly if a source refused |
| AudioSession.AudioEndpoint.OnStart | ThunderNanoServices/BluetoothAudio/AudioEndpoint.h:523-546 | likewise, from opened only, to started |
| AudioSession.AudioEndpoint.OnSuspend | ThunderNanoServices/BluetoothAudio/AudioEndpoint.h:547-571 | likewise, from started only, back to opened |
| AudioSession.AudioEndpoint.OnAbort | ThunderNanoServices/BluetoothAudio/AudioEndpoint.h:572-596 | as above; ends idle whatever the handler answers, and succeeds when idle already; out of step afterwards exactly if a source refused |
| AudioSession.AudioEndpoint.Disconnected | ThunderNanoServices/BluetoothAudio/AudioEndpoint.h:392-409 | ends idle without asking the remote |
| AudioSession.AudioEndpoint.Abort | ThunderNanoServices/BluetoothAudio/AudioEndpoint.h:372-391 | refused when idle; changes nothing if the remote refuses; aborts otherwise |
| AudioSession.AudioEndpoint.Configure | ThunderNanoServices/BluetoothAudio/AudioEndpoint.h:240-287 | for either kind of handler: the remote is asked first, then as on a signal, but without a channel |
| AudioSession.AudioEndpoint.Open | ThunderNanoServices/BluetoothAudio/AudioEndpoint.h:330-350 | for either kind of handler: own check, remote, then as on a signal; nothing changes if the check or the remote refuses |
| AudioSession.AudioEndpoint.Start | ThunderNanoServices/BluetoothAudio/AudioEndpoint.h:288-308 | likewise |
| AudioSession.AudioEndpoint.Suspend | ThunderNanoServices/BluetoothAudio/AudioEndpoint.h:309-329 | likewise |
| AudioSession.AudioEndpoint.Close | ThunderNanoServices/BluetoothAudio/AudioEndpoint.h:351-371 | likewise |
| AudioSession.AudioSink.OnSetConfiguration | ThunderNanoServices/BluetoothAudio/BluetoothAudioSink.h:1045-1066 | refused without an endpoint (illegal state) and while a player exists (unavailable) |
| AudioSession.AudioSink.OnAcquire | ThunderNanoServices/BluetoothAudio/BluetoothAudioSink.h:1092-1135 | a player that works is kept and the state becomes ready; one that does not is discarded again; which error is answered |
| AudioSession.AudioSink.OnRelinquish | ThunderNanoServices/BluetoothAudio/BluetoothAudioSink.h:1225-1248 | with the source's answer in front: the player goes only if the source agrees |
| AudioSession.AudioSink.OnSetSpeed | ThunderNanoServices/BluetoothAudio/BluetoothAudioSink.h:1179-1205 | with the source's answer in front: the state follows the player |
| AudioSession.AudioSink.SetConfiguration | ThunderNanoServices/BluetoothAudio/BluetoothAudioSink.h:1013-1044 | succeeds exactly if an idle endpoint is attached, the remote agrees and the configuration is valid, and then the endpoint is configured; new state and result are those of the session model, and sink and endpoint stay in step |
| AudioSession.AudioSink.Acquire | ThunderNanoServices/BluetoothAudio/BluetoothAudioSink.h:1067-1091 | succeeds exactly if the endpoint is configured, the remote agrees, and transport and player come up, and then it is opened with a player and ready; otherwise likewise |
| AudioSession.AudioSink.SetSpeed | ThunderNanoServices/BluetoothAudio/BluetoothAudioSink.h:1136-1178 | speed 100 succeeds exactly if the endpoint is started already, or opened and remote, source and player agree, and then it is started and streaming; speed 0 the other way round; no other speed does; otherwise likewise |
| AudioSession.AudioSink.Relinquish | ThunderNanoServices/BluetoothAudio/BluetoothAudioSink.h:1206-1224 | succeeds exactly if the endpoint is open and remote and source agree, and then it is idle and the player gone; they fall out of step exactly if the source refuses |
| AudioSession.AudioSink.OnDeviceDisconnected | ThunderNanoServices/BluetoothAudio/BluetoothAudioSink.h:1310-1327 | the player and the endpoint pointer go; the endpoint itself is not touched |
| SourceSession.SessionInvariant | ThunderNanoServices/BluetoothAudio/BluetoothAudioSource.h:740-963 | in every interleaving of handlers, under the main lock, and packets, under the buffer lock: the endpoint pointer is set exactly while the endpoint is not idle, a send buffer never exists without it, and no packet and no teardown meets a null one |
| SourceSession.RunsAreBound | ThunderNanoServices/BluetoothAudio/BluetoothAudioSource.h:619-691 | the invariant behind it, also in the middle of a call: an open endpoint has a usable buffer, a closing one has dropped it |
| SourceSession.StepKeepsBound | ThunderNanoServices/BluetoothAudio/BluetoothAudioSource.h:809-936 | each single step keeps it |
| SourceSession.BoundTogether | ThunderNanoServices/BluetoothAudio/BluetoothAudioSource.h:619-643 | if every configuration finds its device, the three pointers are set together, exactly while the endpoint is not idle |
| SourceSession.NullBufferExactly | ThunderNanoServices/BluetoothAudio/BluetoothAudioSource.h:809-860 | a packet already inside loses its buffer exactly when the receiver refuses it, since it is then dropped without the buffer lock |
| SourceSession.NullReceiverExactly | ThunderNanoServices/BluetoothAudio/BluetoothAudioSource.h:904-933 | the receiver is missing exactly when it was removed in mid-session and the speed is set afterwards |
| SourceSession.NullChannelExactly | ThunderNanoServices/BluetoothAudio/BluetoothAudioSource.h:740-808 | from any state outside a call, a configuration without a channel, such as a reconfiguration, or with one that is gone never succeeds: it leaves endpoint, pointers and buffer as they were, or uses the missing channel, and that exactly if an idle endpoint is offered a configuration that everybody else accepts |
| SourceSession.WithoutChannelNoSession | ThunderNanoServices/BluetoothAudio/AudioEndpoint.h:240-287 | in every run in which no configuration brings a channel, whatever else happens, the endpoint stays idle, nothing is assigned and no packet gets in |
| SourceSession.CalmRunsFinish | ThunderNanoServices/BluetoothAudio/BluetoothAudioSource.h:740-963 | no run in which configurations bring a channel that is there, buffers open, and the receiver is neither removed nor refuses a buffer, uses anything that is not there or not open |
| SourceSession.NullChannelHappens | ThunderNanoServices/BluetoothAudio/AudioEndpoint.h:470-473 | a reconfiguration of an idle endpoint uses the missing channel |
| SourceSession.NullReceiverHappens | ThunderNanoServices/BluetoothAudio/BluetoothAudioSource.h:904-933 | a run that removes the receiver in mid-session and then starts uses the missing receiver |
| SourceSession.NullBufferHappens | ThunderNanoServices/BluetoothAudio/BluetoothAudioSource.h:809-860 | a run in which a packet gets inside before the receiver refuses the buffer uses the missing buffer |
| SourceSession.UnopenedBufferExactly | ThunderNanoServices/BluetoothAudio/BluetoothAudioSource.h:86-102 | in every run, a packet that is about to be written meets a buffer that is not open exactly if the latest attempt in the same session left one |
| SourceSession.UnopenedBufferHappens | ThunderNanoServices/BluetoothAudio/BluetoothAudioSource.h:937-963 | a run in which a packet arrives after the buffer could not be opened |
| SourceSession.AssertionsHold | ThunderNanoServices/BluetoothAudio/BluetoothAudioSource.h:619-643 | in every run the other assertions hold: nothing is assigned when a configuration is handled, and there is an endpoint whenever there is a signalling channel or a packet |
| SourceSession.UninterruptedIsOperate | ThunderNanoServices/BluetoothAudio/AudioEndpoint.h:417-596 | an operation, taken step by step and not interrupted, comes to the same end as in one piece |
| SourceSession.OperateIsBound | ThunderNanoServices/BluetoothAudio/AudioEndpoint.h:417-596 | a whole operation keeps the invariant |
| SourceSession.NoBufferExactly | ThunderNanoServices/BluetoothAudio/BluetoothAudioSource.h:818-818 | the assertion that there is no buffer yet holds at an acquisition, in every run, exactly unless the latest attempt in the same session left a buffer that could not be opened |
| SourceSession.LeftOverHappens | ThunderNanoServices/BluetoothAudio/BluetoothAudioSource.h:818-850 | a second attempt after such a failure meets the buffer that is left |
| SourceSession.AgreementBreaksExactly | ThunderNanoServices/BluetoothAudio/BluetoothAudioSource.h:644-660 | streaming is reported exactly while the endpoint is started; only a transport channel assigned after the start breaks this |
| SourceSession.ReportIsRight | ThunderNanoServices/BluetoothAudio/BluetoothAudioSource.h:904-933 | in every run without such an assignment the report is right, also in the middle of a call |
| SourceSession.LateTransportHappens | ThunderNanoServices/BluetoothAudio/BluetoothAudioSource.h:644-660 | a run with such an assignment, after which a started source reports ready |
| SourceSession.TeardownCompletes | ThunderNanoServices/BluetoothAudio/BluetoothAudioSource.h:861-903 | whatever the receiver answers, a close or an abort ends with everything released |
| SourceSession.OperationHasEffect | ThunderNanoServices/BluetoothAudio/BluetoothAudioSource.h:740-936 | for each operation, state by state: the whole session after success and after each way to fail |
| SourceSession.TransportExactly | ThunderNanoServices/BluetoothAudio/BluetoothAudioSource.h:644-717 | in every run the transport channel is assigned exactly if a second channel has opened, outside the middle of a call, while the endpoint was not idle, and the session has not been unassigned since |
| SourceSession.PacketPasses | ThunderNanoServices/BluetoothAudio/BluetoothAudioSource.h:937-963 | a packet gets in whenever there is a buffer, and one that nothing interrupts is written, if the buffer is open, and leaves the session as it was |
| SourceSession.InstallHasEffect | ThunderNanoServices/BluetoothAudio/BluetoothAudioSource.h:967-992 | the receiver is installed or removed outside the middle of a call, and nothing else is touched |
| AudioSession.AudioSource.OnSetConfiguration | ThunderNanoServices/BluetoothAudio/BluetoothAudioSource.h:740-808 | which error for which failure; asks the receiver if the format is good; assigns endpoint, device and channel, latches the channel and reports connected exactly if everything is good, and a bad connection otherwise |
| AudioSession.AudioSource.OnAcquire | ThunderNanoServices/BluetoothAudio/BluetoothAudioSource.h:809-860 | which error, which of the three buffers is left, what is reported and whether the receiver was asked, for each way to fail |
| AudioSession.AudioSource.OnRelinquish | ThunderNanoServices/BluetoothAudio/BluetoothAudioSource.h:861-903 | always succeeds, has asked the receiver to stop and to relinquish, in this order, and leaves nothing assigned or latched |
| AudioSession.AudioSource.Unassign | ThunderNanoServices/BluetoothAudio/BluetoothAudioSource.h:661-691 | clears all four pointers, gives the device back, unlatches the channels that were assigned, resets the reconnection event and reports disconnected |
| AudioSession.AudioSource.Assign | ThunderNanoServices/BluetoothAudio/BluetoothAudioSource.h:619-643 | sets endpoint, device and channel, latches the channel and reports connected |
| AudioSession.AudioSource.OnChannelOpened | ThunderNanoServices/BluetoothAudio/BluetoothAudioSource.h:644-717 | whenever there is a signalling channel, the transport channel is assigned and latched afterwards, and ready is reported if it was not before; exactly the channels that are assigned are latched, as after every other operation of the source |
| AudioSession.AudioSource.OnSetSpeed | ThunderNanoServices/BluetoothAudio/BluetoothAudioSource.h:904-933 | asks the receiver, and reports streaming or ready exactly if it agrees and the speed is 100 or 0; any other speed is not supported |
| StateReports.ReportsAreTruthful | ThunderNanoServices/BluetoothAudio/BluetoothAudioSink.h:1251-1272 | in every run that does not end in an empty call, the states delivered are a subsequence of the changes made, and when the job neither waits nor runs the last one delivered is the current one |
| StateReports.ChangesAreReal | ThunderNanoServices/BluetoothAudio/BluetoothAudioSink.h:1251-1272 | in every run the changes are the values set that differ from the one before, and the current state is the last of them |
| StateReports.SubsequenceSelects | ThunderNanoServices/BluetoothAudio/BluetoothAudioSink.h:1251-1272 | a subsequence is a choice of positions in increasing order |
| StateReports.ReportsSettle | ThunderNanoServices/BluetoothAudio/SignallingServer.h:53-86 | from every state that a run reaches, finishing what runs and at most one more dispatch ends in the call of an empty closure exactly if a dispatch was overtaken and its closure not replaced; otherwise the last report is the current state |
| StateReports.EmptyCallExactly | ThunderNanoServices/BluetoothAudio/SignallingServer.h:78-86 | in every run, a call is empty exactly if a change was made between the start of one dispatch and its taking the closure, and none before the next dispatch took its own |
| StateReports.RunFailsExactly | ThunderNanoServices/BluetoothAudio/SignallingServer.h:78-86 | a whole run ends in an empty call exactly if it makes a call at such a moment |
| StateReports.DoomedExactly | ThunderNanoServices/BluetoothAudio/SignallingServer.h:78-86 | a state leads to an empty call exactly if the events so far end in a beginning of that pattern |
| StateReports.EmptyDispatchHappens | ThunderNanoServices/BluetoothAudio/SignallingServer.h:78-86 | nine events from the start that end in an empty call |
| StateReports.DecoupledJob.Submit | ThunderNanoServices/BluetoothAudio/SignallingServer.h:53-60 | the job object follows the run model, and is not idle afterwards, as is asserted |
| StateReports.DecoupledJob.Dispatch | ThunderNanoServices/BluetoothAudio/SignallingServer.h:78-86 | delivers the closure that was stored last and survives exactly if there is one, as the run model does |
| SignallingServer.SocketServer.EvaluateConnections | ThunderNanoServices/BluetoothAudio/SignallingServer.h:341-380 | from the fields: an open connection of either kind is closed exactly if it is not latched and its last activity lies the timeout or longer back, whatever the clock does; latch and last activity stay; closed clients are forgotten |
| SignallingServer.SocketServer.Cleanup | ThunderNanoServices/BluetoothAudio/SignallingServer.h:347-350 | keeps exactly the clients that are open |
| SignallingServer.TimeoutIsExact | ThunderNanoServices/BluetoothAudio/SignallingServer.h:252-259 | the 32-bit conversion of the timeout is exact up to 4294967 ms, and comes out shorter beyond |
| SignallingServer.Connection.Latch | ThunderNanoServices/BluetoothAudio/SignallingServer.h:170-175 | changes the latch and nothing else |
| SignallingServer.Connection.OnEvent | ThunderNanoServices/BluetoothAudio/SignallingServer.h:178-205 | any traffic renews the activity time |
| LatchedConnections.HeldConnectionsAreSpared | ThunderNanoServices/BluetoothAudio/SignallingServer.h:341-380 | in every run with one session per connection, no evaluation touches a connection that a session holds |
| LatchedConnections.HeldConnectionStaysOpen | ThunderNanoServices/BluetoothAudio/BluetoothAudioSource.h:619-675 | from assignment to unassignment, a connection that the device does not close stays open and latched |
| LatchedConnections.UnassignBreaksExactly | ThunderNanoServices/BluetoothAudio/BluetoothAudioSource.h:661-675 | ending a session leaves the others' connections latched exactly if it shares none with them |
| LatchedConnections.StepKeepsLatches | ThunderNanoServices/BluetoothAudio/SignallingServer.h:163-175 | no event unlatches a held connection while each serves one session |
| LatchedConnections.EvaluationIsExact | ThunderNanoServices/BluetoothAudio/SignallingServer.h:352-378 | an evaluation closes exactly the open connections that are not latched and whose last activity lies the timeout or longer back, and changes nothing else |
| LatchedConnections.ClosedExactlyWhenIdle | ThunderNanoServices/BluetoothAudio/SignallingServer.h:341-380 | after its last activity, in any run in which nobody latches it, a connection is closed exactly if some evaluation comes the timeout after that activity or later |
| LatchedConnections.SharedConnectionIsClosed | ThunderNanoServices/BluetoothAudio/BluetoothAudioSource.h:661-675 | with a shared connection, the end of one session lets the next evaluation close it under the other |
| MediaTransport.Transport.Transmit | ThunderNanoServices/BluetoothAudio/BluetoothAudioSink.h:247-276 | one packet with the first bytes of the data, the current sequence number and timestamp; then both advance, the timestamp by the samples sent; nothing taken changes nothing |
| MediaTransport.Transport.SampleCountIsExact | ThunderNanoServices/BluetoothAudio/BluetoothAudioSink.h:266-275 | the samples that the timestamp advances by are the whole ones in the bytes sent, for all channels |
| MediaTransport.Transport.WholeFramesExactly | ThunderNanoServices/BluetoothAudio/BluetoothAudioSink.h:247-276 | what a packet takes is a multiple of a raw frame |
| MediaTransport.TimestampCountsSamples | ThunderNanoServices/BluetoothAudio/BluetoothAudioSink.h:266-275 | each packet's timestamp is the number of samples sent before it since the odometer was reset, modulo 2^32 |
| MediaTransport.SequenceCountsPackets | ThunderNanoServices/BluetoothAudio/BluetoothAudioSink.h:266-275 | within a session two packets' sequence numbers differ by their distance, modulo 2^16 |
| MediaTransport.WriteAheadIsBounded | ThunderNanoServices/BluetoothAudio/BluetoothAudioSink.h:510-530 | after every packet the play time is ahead of the clock by at most the threshold, that packet's duration and a millisecond |
| MediaTransport.Transport.Reset | ThunderNanoServices/BluetoothAudio/BluetoothAudioSink.h:217-241 | resets the odometer and begins a new sequence |
| MediaTransport.Transport.ResetOdometer | ThunderNanoServices/BluetoothAudio/BluetoothAudioSink.h:242-245 | the timestamp starts again at 0; sequence numbers go on |
| AudioPlayer.AudioPlayer.Worker | ThunderNanoServices/BluetoothAudio/BluetoothAudioSink.h:472-544 | every turn keeps the byte order (what was read is what was sent followed by what is left in the array), the pacing and the drift bound, never turns the time back, and once the end is signalled reads nothing and either sends or is the last turn, after which a steady transport has left less than a frame modulo 64K, and less than a frame if preferred frame and shared buffer are at most 64K together; a stuck buffer stays as it is; a read does not fit only with data in the buffer and a shared buffer of more than two preferred frames |
| AudioPlayer.AudioPlayer.NothingLost | ThunderNanoServices/BluetoothAudio/BluetoothAudioSink.h:472-544 | the payload of the packets since Play followed by what is left is everything that was counted; it is everything that was read exactly if the longest read was shorter than 64K, as with any smaller shared buffer |
| AudioPlayer.AudioPlayer.TopUp | ThunderNanoServices/BluetoothAudio/BluetoothAudioSink.h:477-508 | at least one read; then there is the preferred amount, or the source is dry; less than a frame counts as a stall, which resets the odometer once; or a read does not fit |
| AudioPlayer.AudioPlayer.Replenish | ThunderNanoServices/BluetoothAudio/BluetoothAudioSink.h:477-508 | moves and refills in place without leaving the array, terminates, and keeps the byte order |
| AudioPlayer.AudioPlayer.MoveToFront | ThunderNanoServices/BluetoothAudio/BluetoothAudioSink.h:480-480 | the overlapping move keeps the unread bytes |
| AudioPlayer.AudioPlayer.Read | ThunderNanoServices/BluetoothAudio/BluetoothAudioSink.h:482-489 | what is read goes behind what is there; the count is cut off to 16 bits, and bytes are lost exactly if 64K or more were returned |
| AudioPlayer.AudioPlayer.Stall | ThunderNanoServices/BluetoothAudio/BluetoothAudioSink.h:494-503 | the play time is banked, the start time renewed and the odometer reset, so that the time shown stands still; between the two it shows the play time twice |
| AudioPlayer.AudioPlayer.Finish | ThunderNanoServices/BluetoothAudio/BluetoothAudioSink.h:418-421 | likewise at a stop, where a new sequence begins as well |
| AudioPlayer.AudioPlayer.Pace | ThunderNanoServices/BluetoothAudio/BluetoothAudioSink.h:510-518 | sleeps exactly if the play time is more than 10 ms ahead of the time elapsed, and then until the play time; afterwards the play time is within the threshold of the time that has really passed, even if its 32-bit value has wrapped around |
| AudioPlayer.AudioPlayer.Send | ThunderNanoServices/BluetoothAudio/BluetoothAudioSink.h:520-530 | cursor and count move by what was sent; a steady transport sends, at least a frame, exactly if the length cut off to 16 bits is a frame or more; the packet is logged with the time at which it left |
| AudioPlayer.AudioPlayer.PlayOut | ThunderNanoServices/BluetoothAudio/BluetoothAudioSink.h:510-543 | nothing is sent unless the length cut off to 16 bits is a frame or more, and a steady transport sends exactly then; the thread blocks exactly after an empty turn at the end of the stream |
| AudioPlayer.AudioPlayer.Play | ThunderNanoServices/BluetoothAudio/BluetoothAudioSink.h:396-413 | starts with an empty buffer and a fresh start time if it can, and changes nothing if it cannot; the time shown goes on from where it was |
| AudioPlayer.AudioPlayer.Stop | ThunderNanoServices/BluetoothAudio/BluetoothAudioSink.h:414-429 | one reset of the odometer, then drains in at most one turn more than there are bytes; a steady transport leaves less than a frame modulo 64K, and less than a frame if preferred frame and shared buffer are at most 64K together; no byte is read, and the time does not go back |
| AudioPlayer.AudioPlayer.Time | ThunderNanoServices/BluetoothAudio/BluetoothAudioSink.h:430-443 | without 32-bit wrap, Time * clock <= 1000 * samples < (Time + resets + 1) * clock |
| AudioPlayer.AudioPlayer.SetLatency | ThunderNanoServices/BluetoothAudio/BluetoothAudioSink.h:444-451 | within the asserted limit the 32-bit product is exact for every clock rate and one or two channels |
| AudioPlayer.AudioPlayer.Delay | ThunderNanoServices/BluetoothAudio/BluetoothAudioSink.h:452-465 | the latency and the samples still in the local buffer |
| AudioPlayer.AudioPlayer.constructor | ThunderNanoServices/BluetoothAudio/BluetoothAudioSink.h:337-388 | establishes the invariant, with the buffer, if there is one, of the size computed |
| AudioPlayer.BufferSuffices | ThunderNanoServices/BluetoothAudio/BluetoothAudioSink.h:367-368 | the buffer holds every read the player may make exactly if the shared buffer is at most two preferred frames, or a frame is one byte |
| AudioPlayer.FitsExactly | ThunderNanoServices/BluetoothAudio/BluetoothAudioSink.h:482-484 | each read fits exactly if the shared buffer is at most two preferred frames, or the local one is empty |
| AudioPlayer.MisfitHappens | ThunderNanoServices/BluetoothAudio/BluetoothAudioSink.h:482-484 | two reads of which the second does not fit |
| AudioPlayer.FullReadHappens | ThunderNanoServices/BluetoothAudio/BluetoothAudioSink.h:486-491 | a read of 64K fits and counts as none |
| AudioPlayer.StuckHappens | ThunderNanoServices/BluetoothAudio/BluetoothAudioSink.h:519-520 | two reads that fit leave 64K, of which the length passed on is 0 |
| AudioPlayer.LargeBufferHoldsOneRead | ThunderNanoServices/BluetoothAudio/BluetoothAudioSink.h:367-368 | a larger shared buffer leaves room for a read into an empty buffer only |
| AudioPlayer.BufferSizeFits | ThunderNanoServices/BluetoothAudio/BluetoothAudioSink.h:367-368 | the size never overflows 32 bits |
| AudioPlayer.BufferSizeIsExact | ThunderNanoServices/BluetoothAudio/BluetoothAudioSink.h:367-368 | the size is the first multiple of the shared buffer beyond two preferred frames |
| AudioPlayer.TimeIsClose | ThunderNanoServices/BluetoothAudio/BluetoothAudioSink.h:430-443 | summed floors are below the exact time by less than a millisecond for each summand |
| AudioPlayer.BankKeepsDrift | ThunderNanoServices/BluetoothAudio/BluetoothAudioSink.h:494-503 | each reset adds less than a millisecond to the drift |
| DeviceLatency.GuardsSuffice | ThunderNanoServices/BluetoothAudio/BluetoothAudioSink.cpp:42-42 | clamp and guard always give the player the true sum, between 0 and 20000, through unsigned storage and a wrapping addition |
| DeviceLatency.AdjustmentIsExact | ThunderNanoServices/BluetoothAudio/BluetoothAudioSink.h:874-902 | the sum is the true one exactly when that is not negative, so the lower guard cannot be relaxed |
| DeviceLatency.StoredIsExact | ThunderNanoServices/BluetoothAudio/BluetoothAudioSink.h:1117-1117 | so it is for a player created later, from what is stored |
| DeviceLatency.ReadsBack | ThunderNanoServices/BluetoothAudio/BluetoothAudioSink.h:851-854 | a latency reads back as it was set, negative ones too |
| DeviceLatency.Sink.SetLatency | ThunderNanoServices/BluetoothAudio/BluetoothAudioSink.h:874-902 | rejected exactly outside the guard; stored even without a player; otherwise the player is set to the true sum in samples |
| DeviceLatency.Sink.Acquire | ThunderNanoServices/BluetoothAudio/BluetoothAudioSink.h:1117-1117 | a new player gets the latency that was set before |
| VoiceReassembly.Reassembler.AddFrame | ThunderNanoServices/BluetoothRemoteControl/4ModDecoders.cpp:102-151 | for every packet whatsoever: a header that does not fit is the only exception; otherwise the object, updated in place, is the fold of the packets received, and the answer, the package and both counters are those of the step |
| VoiceReassembly.Reassembler.Begin | ThunderNanoServices/BluetoothRemoteControl/4ModDecoders.cpp:109-120 | a header of at most 131 bytes replaces the package: its first two bytes, high one first, are the predictor, the third the step index, the rest the payload; a group it cuts short counts as a drop |
| VoiceReassembly.Reassembler.Continue | ThunderNanoServices/BluetoothRemoteControl/4ModDecoders.cpp:121-125 | a full packet is appended exactly if there are at most 127 bytes afterwards |
| VoiceReassembly.Reassembler.Finish | ThunderNanoServices/BluetoothRemoteControl/4ModDecoders.cpp:127-147 | a short packet is appended if it fits, and the group ends: complete exactly with 128 bytes, dropped otherwise |
| VoiceReassembly.Reassembler.Reset | ThunderNanoServices/BluetoothRemoteControl/4ModDecoders.cpp:73-76 | starts both statistics anew and leaves a package under way alone |
| VoiceHistory.AnswersAreExact | ThunderNanoServices/BluetoothRemoteControl/4ModDecoders.cpp:102-151 | on every history, true is answered exactly at a completion and a drop counted exactly at a loss, both defined on the history alone |
| VoiceHistory.RegularStream | ThunderNanoServices/BluetoothRemoteControl/4ModDecoders.cpp:102-151 | with packets of 20 bytes or fewer: exactly at an 11-byte packet after a maximal run of 20-byte ones whose length is a positive multiple of 6; the package is the last six without the first three bytes, and those 11 |
| VoiceHistory.HeaderOfPackage | ThunderNanoServices/BluetoothRemoteControl/4ModDecoders.cpp:109-113 | and its header is the first of those six packets |
| VoiceHistory.DropsAreCounted | ThunderNanoServices/BluetoothRemoteControl/4ModDecoders.cpp:118-143 | the drop counter of a reassembler is the number of packets since its last reset that show a loss, and the frame counter the number of all packets since, modulo 2^32 |
| VoiceHistory.DropsAreLosses | ThunderNanoServices/BluetoothRemoteControl/4ModDecoders.cpp:102-151 | from any position in any history, drops are counted exactly at the packets that show a loss |
| VoiceHistory.RunMeansHistory | ThunderNanoServices/BluetoothRemoteControl/4ModDecoders.cpp:102-151 | counter and bytes are those of the current group of the trailing run; the first two bytes of the last header are quotient and remainder of the predictor by 256, and the third is the step index |
| VoiceHistory.TrailingRunIsMaximal | ThunderNanoServices/BluetoothRemoteControl/4ModDecoders.cpp:108-129 | the run is the longest one of full packets that ends the history |
| VoiceHistory.Resynchronises | ThunderNanoServices/BluetoothRemoteControl/4ModDecoders.cpp:108-151 | after any loss, the next whole group is delivered exactly if what was received before ends on a group boundary |
| ImaDecoder.PcmDecoder.Decode | ThunderNanoServices/BluetoothRemoteControl/4ModDecoders.cpp:182-194 | in terms of the packets received: a completed package is decoded from the signed big-endian predictor and the step index of its own header; nothing is written otherwise; a header of more than 131 bytes, or at completion a step index above 88, is the only exception |
| ImaDecoder.PcmDecoder.DecodePackage | ThunderNanoServices/BluetoothRemoteControl/4ModDecoders.cpp:187-190 | the package that is there is decoded from the predictor and the step index that are stored |
| ImaDecoder.PcmDecoder.DecodeStream | ThunderNanoServices/BluetoothRemoteControl/4ModDecoders.cpp:258-284 | writes exactly the first min(2 * lengthIn, lengthOut / 4) samples of the recursive decoder, low nibble first, and nothing else |
| ImaDecoder.PcmDecoder.DecodeNibble | ThunderNanoServices/BluetoothRemoteControl/4ModDecoders.cpp:197-257 | the branches on 16-bit values are one step of the recursive decoder, which NextIsExact pins |
| ImaDecoder.NextIsExact | ThunderNanoServices/BluetoothRemoteControl/4ModDecoders.cpp:197-257 | one sample from the bits of the nibble: step, half and quarter added to an eighth, each rounded down, with the sign, clamped to plus and minus 32767; the index clamped to 0 and 88 |
| ImaDecoder.StepsGrowByTenth | ThunderNanoServices/BluetoothRemoteControl/4ModDecoders.cpp:204-217 | the step table grows strictly from 7, each entry by a tenth but for rounding, up to the last, which is the largest that fits |
| ImaDecoder.NibblesOfByte | ThunderNanoServices/BluetoothRemoteControl/4ModDecoders.cpp:265-268 | the low nibble of each byte comes first |
| ImaDecoder.AnswerIsBytesWritten | ThunderNanoServices/BluetoothRemoteControl/4ModDecoders.cpp:258-284 | the result is the number of bytes written exactly if the output has room for eight bytes a byte of input |
| ImaDecoder.DifferenceIsClose | ThunderNanoServices/BluetoothRemoteControl/4ModDecoders.cpp:221-243 | the truncated fractions are within 17 eighths below (2m + 1) eighths of the step and fit 16 bits; exact for steps divisible by 8 |
| ImaDecoder.DifferenceIsMonotone | ThunderNanoServices/BluetoothRemoteControl/4ModDecoders.cpp:221-243 | larger magnitudes never move the predictor less |
| ImaDecoder.IndexTable | ThunderNanoServices/BluetoothRemoteControl/4ModDecoders.cpp:199-202 | the index table, from the magnitude |
| ImaDecoder.PredictorSaturates | ThunderNanoServices/BluetoothRemoteControl/4ModDecoders.cpp:238-256 | after any nibbles the predictor is within plus and minus 32767, except exactly where a header put it at -32768 and every nibble since moved it by nothing |
| ImaDecoder.SamplesAreStates | ThunderNanoServices/BluetoothRemoteControl/4ModDecoders.cpp:258-284 | sample k is the predictor after k + 1 nibbles |
| ImaDecoder.ErrorNeverGrows | ThunderNanoServices/BluetoothRemoteControl/4ModDecoders.cpp:197-257 | two decodes that differ in the predictor only never move apart |
| ImaDecoder.MirrorImage | ThunderNanoServices/BluetoothRemoteControl/4ModDecoders.cpp:238-256 | flipping every sign bit decodes the mirror image |
| ValuePointRuns.NobodyIsLeftBehind | ThunderInterfaces/definitions/ValuePoint.h:354-474 | in every run, when poller and job rest, every registered client has had an update since the cached value last changed |
| ValuePointRuns.StepLeavesNobodyStale | ThunderInterfaces/definitions/ValuePoint.h:279-474 | at every step each registered client has had one, or an update is raised, or is coming in a delivery begun since the change, or the poller is about to raise it |
| ValuePointRuns.PendingExactlyWhenRaised | ThunderInterfaces/definitions/ValuePoint.h:455-474 | in every run the job is pending exactly if a bit is raised, but for the moment between the poller's raising it and its submission |
| ValuePointRuns.JobIsNeverIdle | ThunderInterfaces/definitions/ValuePoint.h:548-562 | in every run the job finds something to tell |
| ValuePointRuns.CallbacksAreSafe | ThunderInterfaces/definitions/ValuePoint.h:563-582 | in every run, whoever unregisters or releases meanwhile, a client that is called has a reference and has not been destroyed |
| ValuePointRuns.DeliveriesAreExact | ThunderInterfaces/definitions/ValuePoint.h:548-582 | in every run a finished delivery has called each client of its snapshot exactly once for each bit, latest first, and nobody else |
| ValuePointRuns.DeliveriesReturnReferences | ThunderInterfaces/definitions/ValuePoint.h:281-309 | in every run, between deliveries the value point holds one reference to each registered client and none to others |
| ValuePointRuns.RunsAreSound | ThunderInterfaces/definitions/ValuePoint.h:97-109 | all four invariants hold in every reachable state |
| ValuePointRuns.RunsComeToRest | ThunderInterfaces/definitions/ValuePoint.h:455-582 | from any state of any run, left alone, poller and job stop within a bound given by the number of clients, in whatever order they step; they stop exactly at rest, with nothing raised, and with every registered client told of the value |
| ValuePointRuns.OwnStepsCountDown | ThunderInterfaces/definitions/ValuePoint.h:97-109 | each step of poller and job that does anything lowers a bound on the steps left |
| ValuePointRuns.OperationsMoveThePoint | ThunderInterfaces/definitions/ValuePoint.h:354-452 | each operation of the runs is that of the object |
| ValuePointRuns.RegisterHasEffect | ThunderInterfaces/definitions/ValuePoint.h:279-294 | registering adds a client that is not there yet, takes a reference and updates it; otherwise nothing happens |
| ValuePointRuns.UnregisterHasEffect | ThunderInterfaces/definitions/ValuePoint.h:295-309 | unregistering takes out that client alone and gives up its reference, which destroys it exactly if that was the last |
| ValuePointRuns.OwnersHaveEffect | ThunderInterfaces/definitions/ValuePoint.h:279-309 | references of others are counted one by one, and a client is destroyed exactly with the last of all |
| ValuePointRuns.InformedMeansUpdated | ThunderInterfaces/definitions/ValuePoint.h:279-294 | a client counts as informed exactly by an update call that is made to it, and no longer once the cached value has changed |
| ValuePoint.EveryClientOnce | ThunderInterfaces/definitions/ValuePoint.h:563-582 | the calls of a delivery hold each client's call exactly once for each bit |
| ValuePoint.LaterClientsFirst | ThunderInterfaces/definitions/ValuePoint.h:563-582 | clients that registered later are all called before those that registered earlier |
| ValuePointRuns.DeliveryStaysOnCourse | ThunderInterfaces/definitions/ValuePoint.h:563-582 | at each step of a delivery, the calls made and those to come are the calls of its snapshot, whatever happens in between |
| ValuePointRuns.StepKeepsReferences | ThunderInterfaces/definitions/ValuePoint.h:279-309 | each step keeps a client's count equal to the references of others, its registration and its place in a delivery |
| ValuePointRuns.StepKeepsJobInStep | ThunderInterfaces/definitions/ValuePoint.h:455-474 | each step keeps the bits and the state of the job in step |
| ValuePoint.WithoutIsExact | ThunderInterfaces/definitions/ValuePoint.h:295-309 | unregistering takes out that client and no other |
| ValuePoint.ValuePoint.Updated | ThunderInterfaces/definitions/ValuePoint.h:455-474 | raises the bit; submits the job with the first bit only; does nothing without clients |
| ValuePoint.ValuePoint.Metadata | ThunderInterfaces/definitions/ValuePoint.h:512-531 | likewise for the other bit |
| ValuePoint.ValuePoint.GetValue | ThunderInterfaces/definitions/ValuePoint.h:354-372 | which of the three answers; a value that is read is the cached one afterwards, with the bit raised and the job submitted if it changed and there are clients, unless the poller is in charge |
| ValuePoint.ValuePoint.SetValue | ThunderInterfaces/definitions/ValuePoint.h:374-405 | written exactly if the point is writable and active and the device holds another value; successful exactly if it holds the value already or accepts it; then the value is cached, with the bit raised and the job submitted if the cache changed and there are clients; on failure nothing changes |
| ValuePoint.ValuePoint.Evaluate | ThunderInterfaces/definitions/ValuePoint.h:412-427 | caches a reading that differs, says exactly then that it did, and notifies nobody |
| ValuePoint.ValuePoint.Activate | ThunderInterfaces/definitions/ValuePoint.h:429-439 | ends activated; the metadata bit is raised, with the job if it is the first, exactly if it was not active and there are clients |
| ValuePoint.ValuePoint.Deactivate | ThunderInterfaces/definitions/ValuePoint.h:440-452 | ends deactivated and without polling; the metadata bit likewise |
| ValuePoint.ValuePoint.Register | ThunderInterfaces/definitions/ValuePoint.h:279-294 | adds a new client at the end, takes a reference and updates it at once, with the lock held; a known one is left alone |
| ValuePoint.ValuePoint.Unregister | ThunderInterfaces/definitions/ValuePoint.h:295-309 | takes out that client and no other, and gives up its reference |
| ValuePoint.ValuePoint.Notify | ThunderInterfaces/definitions/ValuePoint.h:548-562 | makes exactly the calls of one delivery, never with the lock held, and leaves every count of references as it was |
| ValuePoint.ValuePoint.RecursiveCall | ThunderInterfaces/definitions/ValuePoint.h:563-582 | the same from any position on; the lock is released at the innermost call |
| Scaling.RoundTrip | ThunderInterfaces/definitions/ValuePoint.h:491-511 | with a span that starts at 0 and is no longer than the range, every value comes back |
| Scaling.RoundTripNeedsRoom | ThunderInterfaces/definitions/ValuePoint.h:491-511 | with a span that starts at 0, all values come back exactly if the range is no shorter |
| Scaling.RoundTripExactly | ThunderInterfaces/definitions/ValuePoint.h:491-511 | for any value, negative ones too, and any lower end: it comes back exactly if what rounding and the lower end add stays within half a unit of the range |
| Scaling.AllComeBackExactly | ThunderInterfaces/definitions/ValuePoint.h:491-511 | for any lower end, all values of the span come back exactly under two inequalities in range, lower end and span, with the greatest common divisor of span and range |
| Scaling.EndComesBack | ThunderInterfaces/definitions/ValuePoint.h:491-511 | the upper end of the span comes back exactly if -range <= 2 * span * min < range |
| Scaling.AllComeBack | ThunderInterfaces/definitions/ValuePoint.h:491-511 | every value comes back if span - range <= 2 * span * min < range - span |
| Scaling.NegativeStaysAway | ThunderInterfaces/definitions/ValuePoint.h:491-511 | with a span that starts at 0 and is shorter than the range, no negative value comes back |
| Scaling.RoundsToNearest | ThunderInterfaces/definitions/ValuePoint.h:502-511 | the result is within half a unit of the exact one, halves rounded up |
| Scaling.ToRangeIsExact | ThunderInterfaces/definitions/ValuePoint.h:501-511 | for every value, negative ones too: half the span is added and the quotient rounded toward zero; the identity where the range is as long as the span |
| Scaling.FromRangeIsExact | ThunderInterfaces/definitions/ValuePoint.h:491-500 | the other way: half the range is added, the quotient rounded toward zero, for negative values too; the identity where the range is as long as the span |
| Scaling.ToRangeIsMonotone | ThunderInterfaces/definitions/ValuePoint.h:502-511 | the conversion is monotone |
| Scaling.EndsMeet | ThunderInterfaces/definitions/ValuePoint.h:502-511 | the ends of the span go to the ends of the range |
| Scaling.StaysIn32Bits | ThunderInterfaces/definitions/ValuePoint.h:491-511 | no intermediate result overflows if the largest does not |
| Scaling.LowerEndIsNotUndone | ThunderInterfaces/definitions/ValuePoint.h:491-511 | for every lower end outside half the range to either side, in these steps, the end of the span does not come back |
| Scaling.ScalingFailsExactly | ThunderInterfaces/definitions/ValuePoint.h:125-146 | for limits in either order: converting to a range divides by zero exactly if the limits are equal and the range is not 0, converting from it exactly if they differ and it is 0; the value itself if the range is as long as the limits are apart; otherwise the results are those of the other lemmas |
| Scaling.LimitsAreOrdered | ThunderInterfaces/definitions/ValuePoint.h:133-134 | the limits in order: the lower one is not above either, and lower end and span make up the two |
| Scaling.DefaultLimitsFail | ThunderInterfaces/definitions/ValuePoint.h:125-146 | so it is with the limits that a point has when none are given |

## Left out

- VoiceReassembly.Reassembler.AddFrame: what comes after a header of more than 131 bytes; `_offset`, which the constructor leaves unset, starts at 0.
- ImaDecoder.PcmDecoder.Decode: what comes of a step index above 88.
- AudioPlayer.AudioPlayer.Stop: that the thread may send a packet while the play time is banked and the transport reset; what a client sees in between is stated.
- LatchedConnections.HeldConnectionStaysOpen: a close takes effect at once, and traffic on a connection is an event of its own.
- Scaling.RoundTripExactly: on unbounded integers; the code computes in 32 bits, and StaysIn32Bits says when that makes no difference for the values of a span. Ranges below 0 are not covered.
- SinkSession.SessionInvariant: the player is there or not; its inside is AudioPlayer. The start of a discovery, which asserts that no endpoint is attached, is not an event.
- StateReports.ReportsAreTruthful: a change of state and the submission of its report are one step, although the lock is released in between; deferred and revoked reports are not modelled.
- ValuePointRuns.NobodyIsLeftBehind: without direct calls of Evaluate or Cache from outside, which change the cached value without raising an update.
- The order in which the locks of endpoint, sink and server are taken, and deadlocks.
- Rescheduling and revoking jobs; how the worker pool schedules threads.
- The reconnection attempt of the source, and the references of the sink to its signalling channel: they depend on proxies that are not part of this model.
- Sockets, service discovery, shared memory, JSON, COM-RPC, persistence and tracing.
- The SBC codec, the layout of RTP packets, and the AVDTP base classes.
- The plain ADPCM output of the voice decoder, the type fields and the limits of value points, KeyId, BufferReader: correct to model, and easy.
