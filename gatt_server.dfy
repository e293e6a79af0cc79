/**
 * GattServer: the GATT peripheral. It publishes the mdoc service (State,
 * Client2Server, Server2Client and optionally Ident), accepts one peer at a
 * time, answers ident reads with the derived token, takes State writes (0x01
 * ready, 0x02 termination) and Client2Server writes (frames to reassemble),
 * and sends messages as notifications on Server2Client.
 *
 * Every callback of BluetoothGattServerCallback is a method; each call into
 * the Bluetooth stack is an outcome parameter (CallOutcome). The ghost fields
 * record what leaves the object: `events` what the listener was told,
 * `requests` the calls the stack took, `wire` the data frames it accepted for
 * notification on Server2Client. `faulted` records a null dereference that
 * throws out of a callback.
 */
module Server {
  import opened Transport

  /** A remote device, by its Bluetooth address. */
  type Address = seq<char>

  /** The calls into the Bluetooth stack that the stack took (data frames aside). */
  datatype Request =
    | OpenGattServer
    | AddService(characteristics: seq<Uuid>)
    | SendResponse(device: Address, requestId: int, status: int, value: Option<seq<Byte>>)
    | NotifyCharacteristicChanged(peer: Option<Address>, uuid: Uuid, notified: seq<Byte>)
    | CancelConnection(device: Address)
    | CloseServer

  class GattServer {
    const stateUuid: Uuid
    const client2ServerUuid: Uuid
    const server2ClientUuid: Uuid
    const identUuid: Option<Uuid>

    var hasListener: bool
    var inhibitCallbacks: bool
    /** mGattServer != null */
    var serverOpen: bool
    /** the characteristics of the service have been built (mCharacteristic* != null) */
    var hasCharacteristics: bool
    var identValue: Option<seq<Byte>>
    var currentConnection: Option<Address>
    var incoming: seq<Byte>
    var writingQueue: seq<Frame>
    var writeIsOutstanding: bool
    var negotiatedMtu: int
    var faulted: bool

    ghost var events: seq<Event>
    ghost var requests: seq<Request>
    ghost var wire: seq<Frame>

    /** The report* gate: the listener hears events only while one is set and
        callbacks are not inhibited. */
    function Heard(es: seq<Event>): seq<Event>
      reads this
    {
      if hasListener && !inhibitCallbacks then es else []
    }

    /** What a callback did that can be seen from outside: events es passed to
        the gate, requests rs taken by the stack, and whether it threw. */
    twostate predicate Effect(es: seq<Event>, rs: seq<Request>, fault: bool)
      reads this
    {
      && events == old(events) + Heard(es)
      && requests == old(requests) + rs
      && faulted == (old(faulted) || fault)
    }

    /** The sending side as the Outbox of the transport. */
    ghost function Sender(): Outbox
      reads this
    {
      Outbox(writingQueue, writeIsOutstanding, wire)
    }

    constructor (stateUuid: Uuid, client2ServerUuid: Uuid, server2ClientUuid: Uuid, identUuid: Option<Uuid>)
      ensures this.stateUuid == stateUuid && this.client2ServerUuid == client2ServerUuid
      ensures this.server2ClientUuid == server2ClientUuid && this.identUuid == identUuid
      ensures !hasListener && !inhibitCallbacks && !serverOpen && !hasCharacteristics && identValue.None?
      ensures currentConnection.None? && incoming == [] && writingQueue == [] && !writeIsOutstanding
      ensures negotiatedMtu == 0 && !faulted && events == [] && requests == [] && wire == []
    {
      this.stateUuid := stateUuid;
      this.client2ServerUuid := client2ServerUuid;
      this.server2ClientUuid := server2ClientUuid;
      this.identUuid := identUuid;
      hasListener, inhibitCallbacks, serverOpen, hasCharacteristics := false, false, false, false;
      identValue, currentConnection := None, None;
      incoming, writingQueue, writeIsOutstanding, negotiatedMtu := [], [], false, 0;
      faulted, events, requests, wire := false, [], [], [];
    }

    method SetListener(present: bool)
      modifies this`hasListener
      ensures hasListener == present
    {
      hasListener := present;
    }

    /** All five report* methods: the event reaches the listener only through the gate. */
    method Report(e: Event)
      modifies this`events
      ensures events == old(events) + Heard([e])
      ensures old(inhibitCallbacks) ==> events == old(events)
    {
      if hasListener && !inhibitCallbacks {
        events := events + [e];
      }
    }

    /** The characteristics start() puts in the service, in order. */
    function ServiceCharacteristics(): (cs: seq<Uuid>)
      ensures |cs| == if identUuid.Some? then 4 else 3
      ensures cs[..3] == [stateUuid, client2ServerUuid, server2ClientUuid]
      ensures identUuid.Some? ==> cs[3] == identUuid.value
    {
      [stateUuid, client2ServerUuid, server2ClientUuid] + (if identUuid.Some? then [identUuid.value] else [])
    }

    /** start: keeps the derived ident token (the HKDF output is the parameter),
        opens the GATT server and publishes the service. It fails when opening
        throws or yields no server, and when publishing throws; the boolean
        addService returns is not looked at. */
    method Start(token: seq<Byte>, open: CallOutcome, addService: CallOutcome) returns (ok: bool)
      requires |token| == 16
      modifies this`identValue, this`serverOpen, this`hasCharacteristics, this`events, this`requests
      ensures ok <==> open == Accepted && addService != SecurityFailure
      ensures identValue == Some(token)
      ensures open == SecurityFailure ==>
                && serverOpen == old(serverOpen) && hasCharacteristics == old(hasCharacteristics)
                && Effect([Error(SecurityException)], [], false)
      ensures open == Refused ==>
                !serverOpen && hasCharacteristics == old(hasCharacteristics) && Effect([], [], false)
      ensures open == Accepted ==> serverOpen && hasCharacteristics
      ensures open == Accepted && addService == SecurityFailure ==>
                Effect([Error(SecurityException)], [OpenGattServer], false)
      ensures open == Accepted && addService == Refused ==> Effect([], [OpenGattServer], false)
      ensures open == Accepted && addService == Accepted ==>
                Effect([], [OpenGattServer, AddService(ServiceCharacteristics())], false)
    {
      identValue := Some(token);
      match open {
        case SecurityFailure =>
          Report(Error(SecurityException));
          return false;
        case Refused =>
          serverOpen := false;
          return false;
        case Accepted =>
          serverOpen := true;
          requests := requests + [OpenGattServer];
      }
      hasCharacteristics := true;
      match addService {
        case SecurityFailure =>
          Report(Error(SecurityException));
          return false;
        case Refused =>
        case Accepted =>
          requests := requests + [AddService(ServiceCharacteristics())];
      }
      return true;
    }

    /** stop: inhibits every later report, drops the current peer's connection
        and closes the server. A SecurityException is only logged: thrown by the
        cancel it skips the close, thrown by the close it ends the shutdown.
        A call that throws is not recorded as taken. */
    method Stop(cancelThrows: bool, closeThrows: bool)
      modifies this`inhibitCallbacks, this`requests
      ensures inhibitCallbacks
      ensures requests == old(requests) +
                if !serverOpen then []
                else if currentConnection.None? then (if closeThrows then [] else [CloseServer])
                else if cancelThrows then []
                else [CancelConnection(currentConnection.value)] + (if closeThrows then [] else [CloseServer])
    {
      inhibitCallbacks := true;
      if serverOpen {
        if currentConnection.Some? {
          if cancelThrows {
            return;
          }
          requests := requests + [CancelConnection(currentConnection.value)];
        }
        if !closeThrows {
          requests := requests + [CloseServer];
        }
      }
    }

    /** onConnectionStateChange: one peer at a time. A second connection is
        ignored; a disconnection from another device is ignored; the current
        peer's disconnection clears it and is reported. With no current peer
        the disconnection branch dereferences null. */
    method OnConnectionStateChange(device: Address, newState: int)
      modifies this`currentConnection, this`events, this`faulted
      ensures old(inhibitCallbacks) ==> events == old(events)
      ensures newState == StateConnected ==>
                && currentConnection == (if old(currentConnection).Some? then old(currentConnection) else Some(device))
                && events == old(events) && faulted == old(faulted)
      ensures newState == StateDisconnected && old(currentConnection).None? ==>
                currentConnection.None? && events == old(events) && faulted
      ensures newState == StateDisconnected && old(currentConnection).Some? && old(currentConnection).value != device ==>
                currentConnection == old(currentConnection) && events == old(events) && faulted == old(faulted)
      ensures newState == StateDisconnected && old(currentConnection) == Some(device) ==>
                currentConnection.None? && events == old(events) + Heard([PeerDisconnected]) && faulted == old(faulted)
      ensures newState != StateConnected && newState != StateDisconnected ==> unchanged(this)
    {
      if newState == StateConnected {
        if currentConnection.Some? {
          return;
        }
        currentConnection := Some(device);
      } else if newState == StateDisconnected {
        if currentConnection.None? {
          faulted := true;
          return;
        }
        if device != currentConnection.value {
          return;
        }
        currentConnection := None;
        Report(PeerDisconnected);
      }
    }

    /** The effect of answering a request with sendResponse(GATT_SUCCESS, value),
        whose boolean result is not looked at. */
    twostate predicate Responded(device: Address, requestId: int, value: Option<seq<Byte>>, send: CallOutcome)
      reads this
    {
      if !serverOpen then Effect([], [], true)
      else match send
        case Accepted => Effect([], [SendResponse(device, requestId, GattSuccess, value)], false)
        case Refused => Effect([], [], false)
        case SecurityFailure => Effect([Error(SecurityException)], [], false)
    }

    method Respond(device: Address, requestId: int, value: Option<seq<Byte>>, send: CallOutcome)
      modifies this`events, this`requests, this`faulted
      ensures Responded(device, requestId, value, send)
    {
      if !serverOpen {
        faulted := true;
        return;
      }
      match send
      case Accepted =>
        requests := requests + [SendResponse(device, requestId, GattSuccess, value)];
      case Refused =>
      case SecurityFailure =>
        Report(Error(SecurityException));
    }

    /** onCharacteristicReadRequest: a read of Ident is answered with the
        token; a read of anything else is reported and left unanswered. */
    method OnCharacteristicReadRequest(device: Address, requestId: int, uuid: Uuid, send: CallOutcome)
      modifies this`events, this`requests, this`faulted
      ensures old(inhibitCallbacks) ==> events == old(events)
      ensures identUuid == Some(uuid) ==> Responded(device, requestId, identValue, send)
      ensures identUuid != Some(uuid) ==> Effect([Error(UnexpectedRead(uuid))], [], false)
    {
      if identUuid.Some? && uuid == identUuid.value {
        Respond(device, requestId, identValue, send);
      } else {
        Report(Error(UnexpectedRead(uuid)));
      }
    }

    /** onCharacteristicWriteRequest: a one-byte State write is 0x01 (peer
        connected), 0x02 (termination) or an error; a Client2Server write feeds
        the reassembler and is answered when the peer asked for a response; an
        empty Client2Server value is reported and not answered; a State write
        of another length is an unexpected write. */
    method OnCharacteristicWriteRequest(device: Address, requestId: int, uuid: Uuid, responseNeeded: bool,
                                        value: seq<Byte>, send: CallOutcome)
      modifies this`incoming, this`events, this`requests, this`faulted
      ensures old(inhibitCallbacks) ==> events == old(events)
      ensures uuid == stateUuid && |value| == 1 ==>
                && incoming == old(incoming)
                && Effect([if value[0] == StateStart then PeerConnected
                           else if value[0] == StateEnd then TransportSpecificSessionTermination
                           else Error(InvalidStateByte(value[0]))], [], false)
      ensures !(uuid == stateUuid && |value| == 1) && uuid == client2ServerUuid && |value| == 0 ==>
                incoming == old(incoming) && Effect([Error(InvalidLength(client2ServerUuid, 0))], [], false)
      ensures !(uuid == stateUuid && |value| == 1) && uuid == client2ServerUuid && |value| >= 1 ==>
                incoming == Reassemble(old(incoming), value).buffer
      ensures !(uuid == stateUuid && |value| == 1) && uuid == client2ServerUuid && |value| >= 1 && !responseNeeded ==>
                var r := Reassemble(old(incoming), value);
                Effect(if r.message.Some? then [MessageReceived(r.message.value)] else [], [], false)
      ensures !(uuid == stateUuid && |value| == 1) && uuid == client2ServerUuid && |value| >= 1 && responseNeeded ==>
                var r := Reassemble(old(incoming), value);
                var delivered := if r.message.Some? then [MessageReceived(r.message.value)] else [];
                if !serverOpen then Effect(delivered, [], true)
                else match send
                  case Accepted => Effect(delivered, [SendResponse(device, requestId, GattSuccess, None)], false)
                  case Refused => Effect(delivered, [], false)
                  case SecurityFailure => Effect(delivered + [Error(SecurityException)], [], false)
      ensures !(uuid == stateUuid && |value| == 1) && uuid != client2ServerUuid ==>
                incoming == old(incoming) && Effect([Error(UnexpectedWrite(uuid))], [], false)
    {
      if uuid == stateUuid && |value| == 1 {
        if value[0] == StateStart {
          Report(PeerConnected);
        } else if value[0] == StateEnd {
          Report(TransportSpecificSessionTermination);
        } else {
          Report(Error(InvalidStateByte(value[0])));
        }
      } else if uuid == client2ServerUuid {
        if |value| < 1 {
          Report(Error(InvalidLength(client2ServerUuid, |value|)));
          return;
        }
        incoming := incoming + value[1..];
        if value[0] == LastFrame {
          var entireMessage := incoming;
          incoming := [];
          Report(MessageReceived(entireMessage));
        }
        if responseNeeded {
          Respond(device, requestId, None, send);
        }
      } else {
        Report(Error(UnexpectedWrite(uuid)));
      }
    }

    /** onDescriptorWriteRequest: no descriptor value is interpreted; the write
        is answered when the peer asked for a response. */
    method OnDescriptorWriteRequest(device: Address, requestId: int, responseNeeded: bool, send: CallOutcome)
      modifies this`events, this`requests, this`faulted
      ensures old(inhibitCallbacks) ==> events == old(events)
      ensures responseNeeded ==> Responded(device, requestId, None, send)
      ensures !responseNeeded ==> Effect([], [], false)
    {
      if responseNeeded {
        Respond(device, requestId, None, send);
      }
    }

    /** onMtuChanged: the new MTU replaces the old one, whatever it is. */
    method OnMtuChanged(mtu: int)
      modifies this`negotiatedMtu
      ensures negotiatedMtu == mtu
    {
      negotiatedMtu := mtu;
    }

    /** Whether a notification of the polled chunk on Server2Client is taken by the stack. */
    predicate NotifyAccepted(outcome: CallOutcome)
      reads this
    {
      hasCharacteristics && serverOpen && outcome == Accepted
    }

    /** The effect of drainWritingQueue beyond the Outbox: when a chunk was
        polled, a refused notification is reported, and a null characteristic
        or server throws. */
    twostate predicate Drained(polled: bool, outcome: CallOutcome)
      reads this
    {
      if !polled then Effect([], [], false)
      else if !hasCharacteristics || !serverOpen then Effect([], [], true)
      else match outcome
        case Accepted => Effect([], [], false)
        case Refused => Effect([Error(NotifyFailed(server2ClientUuid))], [], false)
        case SecurityFailure => Effect([Error(SecurityException)], [], false)
    }

    /** drainWritingQueue: a no-op while a notification is outstanding;
        otherwise it polls one chunk and notifies it to the current peer; only
        a notification the stack took sets the outstanding flag, and a chunk
        whose notification failed is lost. */
    method DrainWritingQueue(outcome: CallOutcome)
      modifies this`writingQueue, this`writeIsOutstanding, this`wire, this`events, this`faulted
      ensures Sender() == Drain(old(Sender()), NotifyAccepted(outcome))
      ensures Drained(!old(writeIsOutstanding) && old(writingQueue) != [], outcome)
    {
      if writeIsOutstanding {
        return;
      }
      if writingQueue == [] {
        return;
      }
      var chunk := writingQueue[0];
      writingQueue := writingQueue[1..];
      if !hasCharacteristics || !serverOpen {
        faulted := true;
        return;
      }
      match outcome {
        case Refused =>
          Report(Error(NotifyFailed(server2ClientUuid)));
          return;
        case SecurityFailure =>
          Report(Error(SecurityException));
          return;
        case Accepted =>
      }
      wire := wire + [chunk];
      writeIsOutstanding := true;
    }

    /** onNotificationSent: success clears the outstanding flag and drains the
        next chunk; failure is reported and leaves the flag set, so the queue
        stalls. */
    method OnNotificationSent(status: int, outcome: CallOutcome)
      modifies this`writingQueue, this`writeIsOutstanding, this`wire, this`events, this`faulted
      ensures old(inhibitCallbacks) ==> events == old(events)
      ensures Sender() == Complete(old(Sender()), status, NotifyAccepted(outcome))
      ensures status == GattSuccess ==> Drained(old(writingQueue) != [], outcome)
      ensures status != GattSuccess ==> Effect([Error(NotificationSentStatus(status))], [], false)
    {
      if status != GattSuccess {
        Report(Error(NotificationSentStatus(status)));
        return;
      }
      writeIsOutstanding := false;
      DrainWritingQueue(outcome);
    }

    /** sendMessage: an MTU never negotiated becomes 23; the message is queued
        as the frames of Transport.Frames and the queue is drained. The stack
        never reports an MTU below 23, so a chunk size below 1 does not occur. */
    method SendMessage(data: seq<Byte>, outcome: CallOutcome)
      requires negotiatedMtu == 0 || negotiatedMtu >= 5
      modifies this`negotiatedMtu, this`writingQueue, this`writeIsOutstanding, this`wire, this`events, this`faulted
      ensures negotiatedMtu == EffectiveMtu(old(negotiatedMtu))
      ensures Sender() == Drain(old(Sender()).(queue := old(writingQueue) + Frames(data, MaxChunkSize(old(negotiatedMtu)))),
                                NotifyAccepted(outcome))
      ensures Drained(!old(writeIsOutstanding), outcome)
    {
      if negotiatedMtu == 0 {
        negotiatedMtu := DefaultMtu;
      }
      var maxChunkSize := negotiatedMtu - 4;
      var chunks := Chunk(data, maxChunkSize);
      writingQueue := writingQueue + chunks;
      DrainWritingQueue(outcome);
    }

    /** sendTransportSpecificTermination: notifies 0x02 on State to the current peer. */
    method SendTransportSpecificTermination(notify: CallOutcome)
      modifies this`events, this`requests, this`faulted
      ensures !hasCharacteristics || !serverOpen ==> Effect([], [], true)
      ensures hasCharacteristics && serverOpen ==>
                match notify
                case Accepted => Effect([], [NotifyCharacteristicChanged(currentConnection, stateUuid, [StateEnd])], false)
                case Refused => Effect([Error(NotifyFailed(stateUuid))], [], false)
                case SecurityFailure => Effect([Error(SecurityException)], [], false)
    {
      if !hasCharacteristics || !serverOpen {
        faulted := true;
        return;
      }
      match notify
      case Accepted =>
        requests := requests + [NotifyCharacteristicChanged(currentConnection, stateUuid, [StateEnd])];
      case Refused =>
        Report(Error(NotifyFailed(stateUuid)));
      case SecurityFailure =>
        Report(Error(SecurityException));
    }
  }
}
