# BLE message transport of the identity credential library, in Dafny

This project models the two GATT roles that carry mdoc messages (ISO/IEC
18013-5 data retrieval over Bluetooth Low Energy) in the identity credential
library:

- `GattClient`, the central. It discovers the service, raises the MTU, reads
  and checks the ident characteristic, enables notifications on Server2Client
  and then on State, and writes 0x01 to State. When that write completes it
  reports the peer as connected.
- `GattServer`, the peripheral. It publishes the service and keeps one peer at
  a time. It answers ident reads with the derived token and interprets writes
  to State and Client2Server.

Both roles carry messages the same way. A message is cut into frames of one
header byte and at most MTU − 4 payload bytes. The header is 0x01 when more
frames follow and 0x00 on the last frame. Frames are sent one at a time, and
each waits for the previous write (or notification) to complete. The receiver
appends payloads until a last frame arrives, then delivers the whole message
to its listener.

The model is in four files:

- `transport.dfy`, module `Transport`, holds what both roles share:
  - the frame format, as the function `Frames` and the method `Chunk`, which
    is the do/while loop of `sendMessage`;
  - reassembly, as `Reassemble` and `ReceiveAll`;
  - the single-outstanding-write queue, as `Outbox`, `Drain`, `Complete` and
    `Settle`;
  - the lemmas relating them: frame contents, frame count, uniqueness of the
    framing, the round trip, and draining to quiescence.
- `gatt_client.dfy`, module `Client`, and `gatt_server.dfy`, module `Server`,
  hold the two classes. Their fields mirror the Java fields. Each callback of
  the Bluetooth stack is a method, and each call into the stack is a
  `CallOutcome` parameter:
  - `Accepted`: the call returned true or an object;
  - `Refused`: it returned false or null;
  - `SecurityFailure`: it threw `SecurityException`.
- Each class keeps three ghost logs:
  - `events`: what its listener was told;
  - `requests`: the stack calls that were taken;
  - `wire`: the data frames the stack accepted.
- A null dereference that would throw out of a callback sets `faulted` and
  ends the callback. Any state change made before the throw is kept.
- `scenarios.dfy`, module `Scenarios`, drives the classes through sequences of
  callbacks:
  - the client's whole handshake;
  - the handshake stopping on a wrong ident value;
  - the server's single-peer rule;
  - a message going from the client's chunker through write completions into
    the server's reassembler.

## Model

Source paths are relative to the repository root.

| member | source | states |
|---|---|---|
| Transport.MaxChunkSize | identity/src/main/java/com/android/identity/GattClient.java:425-427 | the chunk size is 19 when no MTU was negotiated, and MTU − 4 (at least 1) for any MTU of 5 or more |
| Transport.Frames | identity/src/main/java/com/android/identity/GattClient.java:429-446 | the do/while loop always emits at least one frame |
| Transport.FramesSpellMessage | identity/src/main/java/com/android/identity/GattClient.java:429-446 | every frame has a header and at most k payload bytes; all frames but the last are headed 0x01 and full; the last is headed 0x00 and carries a payload unless it is the only frame; the payloads concatenate to the message |
| Transport.FrameCount | identity/src/main/java/com/android/identity/GattClient.java:429-446 | a message of n > 0 bytes takes ceil(n / k) frames, and the empty message takes one |
| Transport.EmptyMessageIsOneFrame | identity/src/main/java/com/android/identity/GattClient.java:429-446 | the empty message is sent as the single frame [0x00] |
| Transport.FramesUnique | identity/src/main/java/com/android/identity/GattClient.java:429-446 | any well-formed greedy framing of a message is exactly the chunker's output |
| Transport.Chunk | identity/src/main/java/com/android/identity/GattClient.java:429-446 | the do/while loop produces exactly the frames of `Frames` |
| Transport.Reassemble | identity/src/main/java/com/android/identity/GattClient.java:355-369 | a non-empty frame appends its payload; a message is delivered if and only if the header is 0x00; it is the buffer plus the payload, and the buffer is then empty |
| Transport.ReceiveAppend | identity/src/main/java/com/android/identity/GattServer.java:238-249 | receiving two runs of frames one after the other is the same as receiving their concatenation, for both buffer and messages |
| Transport.ReceiveOneMore | identity/src/main/java/com/android/identity/GattServer.java:238-249 | one more non-empty frame changes the receiver exactly as one step of `Reassemble` does |
| Transport.ReceiveFrames | identity/src/main/java/com/android/identity/GattClient.java:352-369 | the frames of one message, fed to a receiver holding `pre`, deliver `pre` + message once and leave the buffer empty |
| Transport.RoundTrip | identity/src/main/java/com/android/identity/GattClient.java:417-448 | the frames of any sequence of messages, fed in order to an empty receiver, deliver exactly those messages and leave nothing pending |
| Transport.Drain | identity/src/main/java/com/android/identity/GattClient.java:388-414 | nothing happens while a write is outstanding or when nothing is queued; a write becomes outstanding if and only if a frame was polled and the write accepted; an accepted drain with a frame queued puts exactly the head frame on the wire and removes it from the queue; a refused write loses the polled frame |
| Transport.Complete | identity/src/main/java/com/android/identity/GattClient.java:340-348 | a failed completion changes nothing, so the flag stays set; a successful one clears the flag and, when a frame is queued, polls the head frame, which reaches the wire and becomes the outstanding write if and only if the stack accepts it; with nothing queued only the flag changes |
| Transport.FailedCompletionStalls | identity/src/main/java/com/android/identity/GattClient.java:340-348 | after a failed completion, later drains send nothing: the queue stalls |
| Transport.SettleSendsQueue | identity/src/main/java/com/android/identity/GattClient.java:388-414 | when every write is accepted and completes, the queued frames reach the wire exactly and in order |
| Transport.SendAndReceive | identity/src/main/java/com/android/identity/GattClient.java:417-448 | messages queued behind earlier frames all reach the wire after them, and the peer's reassembler delivers exactly those messages |
| Transport.FortyBytesAtMtu23 | identity/src/main/java/com/android/identity/GattClient.java:417-446 | a 40-byte message at MTU 23 is the frames 0x01 + 19 bytes, 0x01 + 19 bytes, 0x00 + 2 bytes |
| Client.GattClient.constructor | identity/src/main/java/com/android/identity/GattClient.java:68-83 | the four UUIDs are kept; there is no listener, connection, handle, buffer, queued frame or outstanding write, and the MTU is 0 |
| Client.GattClient.SetListener | identity/src/main/java/com/android/identity/GattClient.java:85-87 | the listener is set or cleared |
| Client.GattClient.Report | identity/src/main/java/com/android/identity/GattClient.java:462-490 | an event reaches the listener only if one is set and callbacks are not inhibited |
| Client.GattClient.Connect | identity/src/main/java/com/android/identity/GattClient.java:89-99 | the derived 16-byte token is kept; the connection is opened, not opened, or a SecurityException is reported |
| Client.GattClient.Disconnect | identity/src/main/java/com/android/identity/GattClient.java:101-111 | every later report is inhibited; an open connection is dropped, and the disconnect is recorded as taken only when it did not throw |
| Client.GattClient.OnConnectionStateChange | identity/src/main/java/com/android/identity/GattClient.java:114-128 | "connected" requests high priority and then service discovery (or reports a SecurityException); "disconnected" reports the peer disconnected; other states do nothing |
| Client.GattClient.MissingCharacteristic | identity/src/main/java/com/android/identity/GattClient.java:136-163 | names a characteristic the service lacks, or none if and only if State, Client2Server, Server2Client and the configured Ident are all present |
| Client.GattClient.OnServicesDiscovered | identity/src/main/java/com/android/identity/GattClient.java:131-189 | characteristics are looked up in order and the first missing one is reported and stops the handshake; otherwise the MTU of 517 is requested, and a refusal or SecurityException is reported; a failed discovery changes nothing |
| Client.GattClient.RequestNotifications | identity/src/main/java/com/android/identity/GattClient.java:244-270 | notifications are enabled locally and then the enable value is written to the configuration descriptor; each failure is reported and stops there; a missing characteristic faults |
| Client.GattClient.AfterIdentObtained | identity/src/main/java/com/android/identity/GattClient.java:244-270 | the notification request is made for Server2Client |
| Client.GattClient.OnMtuChanged | identity/src/main/java/com/android/identity/GattClient.java:192-219 | the MTU is recorded whatever the status; a failure status is reported; otherwise the ident characteristic is read if there is one, else notifications on Server2Client are requested |
| Client.GattClient.OnCharacteristicRead | identity/src/main/java/com/android/identity/GattClient.java:222-242 | a read of anything but Ident is an error; an ident value that differs from the token is an error; an equal value goes on to Server2Client notifications |
| Client.GattClient.WriteState | identity/src/main/java/com/android/identity/GattClient.java:303-313 | one byte is written to State, or the refusal or SecurityException is reported; with no handle or connection it faults |
| Client.GattClient.OnDescriptorWrite | identity/src/main/java/com/android/identity/GattClient.java:273-322 | Server2Client's descriptor written leads to State's notifications; State's descriptor written leads to 0x01 on State; any other descriptor write is an error |
| Client.GattClient.DrainWritingQueue | identity/src/main/java/com/android/identity/GattClient.java:388-414 | the send queue moves exactly as `Drain` says; a refused write is reported, and a missing handle or connection faults |
| Client.GattClient.SendMessage | identity/src/main/java/com/android/identity/GattClient.java:417-448 | the MTU defaults to 23; the message's `Frames` are appended to the queue and the queue is drained once |
| Client.GattClient.OnCharacteristicWrite | identity/src/main/java/com/android/identity/GattClient.java:325-349 | a completed State write reports the peer connected, or reports its failure status; a completed Client2Server write moves the queue as `Complete` says; the queue is untouched otherwise |
| Client.GattClient.OnCharacteristicChanged | identity/src/main/java/com/android/identity/GattClient.java:352-386 | Server2Client values reassemble as `Reassemble` says, and an empty one is an error; a one-byte State value 0x02 is a termination, any other is an error; State never touches the buffer |
| Client.GattClient.SendTransportSpecificTermination | identity/src/main/java/com/android/identity/GattClient.java:450-460 | 0x02 is written to State, or the failure is reported |
| Server.GattServer.constructor | identity/src/main/java/com/android/identity/GattServer.java:68-84 | the four UUIDs are kept; there is no listener, server, peer, buffer, queued frame or outstanding notification, and the MTU is 0 |
| Server.GattServer.SetListener | identity/src/main/java/com/android/identity/GattServer.java:86-88 | the listener is set or cleared |
| Server.GattServer.Report | identity/src/main/java/com/android/identity/GattServer.java:379-407 | an event reaches the listener only if one is set and callbacks are not inhibited |
| Server.GattServer.Start | identity/src/main/java/com/android/identity/GattServer.java:90-159 | succeeds if and only if the server opens and publishing does not throw; the token is kept; every failure path and the calls it made are stated |
| Server.GattServer.Stop | identity/src/main/java/com/android/identity/GattServer.java:161-173 | every later report is inhibited; the current peer is cancelled and the server closed; a throwing cancel skips the close, and a call that throws is not recorded as taken |
| Server.GattServer.OnConnectionStateChange | identity/src/main/java/com/android/identity/GattServer.java:176-194 | only the first peer is kept; a disconnection of another device is ignored; the peer's disconnection clears it and is reported; a disconnection with no peer faults |
| Server.GattServer.Respond | identity/src/main/java/com/android/identity/GattServer.java:203-211 | a success response is sent, or a SecurityException is reported; with no server it faults |
| Server.GattServer.OnCharacteristicReadRequest | identity/src/main/java/com/android/identity/GattServer.java:197-216 | a read of Ident is answered with the token; any other read is reported and gets no response |
| Server.GattServer.OnCharacteristicWriteRequest | identity/src/main/java/com/android/identity/GattServer.java:219-266 | a one-byte State write is 0x01 (peer connected), 0x02 (termination) or an error; a Client2Server write reassembles as `Reassemble` says and is answered if the peer asked; an empty one is an error; other writes are errors |
| Server.GattServer.OnDescriptorWriteRequest | identity/src/main/java/com/android/identity/GattServer.java:277-297 | the write is answered if and only if the peer asked for a response; nothing else happens |
| Server.GattServer.OnMtuChanged | identity/src/main/java/com/android/identity/GattServer.java:300-303 | the MTU is replaced by the reported one |
| Server.GattServer.DrainWritingQueue | identity/src/main/java/com/android/identity/GattServer.java:305-333 | the send queue moves exactly as `Drain` says; a refused notification is reported, and a missing characteristic or server faults |
| Server.GattServer.OnNotificationSent | identity/src/main/java/com/android/identity/GattServer.java:336-344 | the queue moves as `Complete` says; a failure status is reported and stalls the queue |
| Server.GattServer.SendMessage | identity/src/main/java/com/android/identity/GattServer.java:346-377 | the MTU defaults to 23; the message's `Frames` are appended to the queue and the queue is drained once |
| Server.GattServer.SendTransportSpecificTermination | identity/src/main/java/com/android/identity/GattServer.java:409-420 | 0x02 is notified on State to the current peer, or the failure is reported |
| Scenarios.ClientHandshake | identity/src/main/java/com/android/identity/GattClient.java:114-338 | with every call accepted, the stack sees exactly connect, priority, discovery, MTU 517, ident read, Server2Client notifications and descriptor, State notifications and descriptor, then 0x01 on State; the listener hears only "peer connected" |
| Scenarios.ClientConnects | identity/src/main/java/com/android/identity/GattClient.java:89-128 | a new client with a listener connects, and the connection coming up asks only for high priority and then service discovery, with no event |
| Scenarios.ClientDiscovers | identity/src/main/java/com/android/identity/GattClient.java:131-219 | discovering a complete service and then changing the MTU leads to the MTU request and the ident read, with no event |
| Scenarios.ClientChecksIdent | identity/src/main/java/com/android/identity/GattClient.java:222-270 | an ident value equal to the token leads to the Server2Client notification request and its descriptor write |
| Scenarios.ClientHandshakeCompletes | identity/src/main/java/com/android/identity/GattClient.java:273-338 | the two descriptor writes and the State write complete the handshake with one "peer connected" |
| Scenarios.IdentMismatchStopsHandshake | identity/src/main/java/com/android/identity/GattClient.java:236-240 | a wrong ident value is reported once, and the handshake makes no call after the read |
| Scenarios.PublishedServiceIsComplete | identity/src/main/java/com/android/identity/GattServer.java:106-148 | with the same State, Client2Server and Server2Client UUIDs, a service holding exactly the server's published characteristics leaves the client nothing missing if and only if any expected ident characteristic was published; with the same ident UUID too, nothing is missing |
| Scenarios.ServerSinglePeer | identity/src/main/java/com/android/identity/GattServer.java:176-194 | a second device neither replaces the first nor is reported, and its disconnection is ignored; the first device's disconnection is reported once |
| Scenarios.ServerReceives | identity/src/main/java/com/android/identity/GattServer.java:238-249 | a run of Client2Server writes leaves the server's buffer and events exactly as `ReceiveAll` says |
| Scenarios.ClientFlushes | identity/src/main/java/com/android/identity/GattClient.java:340-348 | successful completions of accepted writes put every queued frame on the wire, in order |
| Scenarios.ClientSendsWhole | identity/src/main/java/com/android/identity/GattClient.java:325-448 | an idle client's message, with every write accepted and completed, reaches the wire as exactly its `Frames`, with no event |
| Scenarios.ClientToServer | identity/src/main/java/com/android/identity/GattClient.java:417-448 | a message sent by an idle client reaches the wire as its `Frames`, and the server delivers exactly that message once, with an empty buffer after |

## Left out

- Android types are reduced to what the logic uses:
  - Bluetooth devices are addresses.
  - UUIDs are numbers.
  - A discovered service is a map from characteristic UUID to the set of its descriptor UUIDs.
  - Properties, permissions and the descriptor values set on the server side are not modelled.
  - The listener is a flag for whether one is set; its calls are the `events` log.
- Logging (`Util.Logger`, `Log.w`, `Log.e`) has no effect on behaviour and is left out.
- The HKDF derivation of the ident token (`Util.computeHkdf`) is not part of this model. `Connect` and `Start` take the 16-byte token as a parameter.
- Asynchrony and threading are left out. Callbacks are methods the caller invokes in any order, one at a time.
- The outcome of every Bluetooth stack call is a parameter. Its effect on the remote device is the `requests` and `wire` logs.
- Client.GattClient.OnConnectionStateChange: its two stack calls, for the connection priority and for service discovery, share one try block. A SecurityException is modelled as thrown before the first call. A throw between the two calls would leave the priority request taken, and the model does not distinguish that case.
- Client.GattClient.SendMessage and Server.GattServer.SendMessage: these require a negotiated MTU of 0 or at least 5.
  - For a chunk size of 0 the Java loop never terminates on a non-empty message; for a negative one it fails.
  - The Bluetooth stack never reports an MTU below 23, so this does not occur in use.
- Server.GattServer.DrainWritingQueue and Server.GattServer.SendTransportSpecificTermination: the server notifies its current peer, which may be null. What the stack does with a notification to no device is left to the outcome parameter, and the server's `wire` does not record which peer each frame went to.
- Integers are unbounded. Java's 32-bit `int` offsets and lengths cannot overflow for messages the stack can carry, so wrap-around is not modelled.
- The characteristic value byte arrays are assumed non-null, since the stack hands them over. The status argument of `onCharacteristicRead` and `onDescriptorWrite` is unused by the code, so it is not a parameter.
- `onDescriptorReadRequest` of the server does nothing but log, so it is not modelled.
- The application-facing owners of these classes, the test files and the presentation code are not part of this model.
- Behaviour that is easy to misread, kept as the code has it:
  - A server read request on a characteristic other than Ident is reported and never answered.
  - A server write request is answered only when it carries a non-empty Client2Server frame: a one-byte State write, an empty Client2Server write and a write to any other characteristic are never answered, even when a response was asked for.
  - `start` keeps the opened server when publishing the service throws.
  - The boolean that `addService` returns is not looked at.
  - The client's completion of a State write reports "peer connected" even when the write was the 0x02 termination.
