/**
 * GattClient: the GATT central. It discovers the mdoc service, negotiates the
 * MTU, optionally checks the ident characteristic against the token derived
 * from the session key, enables notifications on Server2Client and then on
 * State, writes 0x01 to State and reports the peer as connected. Messages go
 * out as frames written to Client2Server and come in as notifications on
 * Server2Client.
 *
 * Every callback of BluetoothGattCallback is a method; each call the client
 * makes into the Bluetooth stack is an outcome parameter (CallOutcome). The
 * ghost fields record what leaves the object: `events` what the listener was
 * told, `requests` the calls the stack took, `wire` the data frames the stack
 * accepted for Client2Server. `faulted` records a null dereference that
 * throws out of a callback.
 */
module Client {
  import opened Transport

  /** A discovered characteristic, seen through the UUIDs of its descriptors. */
  type Characteristic = set<Uuid>

  /** A discovered service: characteristic UUID to characteristic. */
  type Service = map<Uuid, Characteristic>

  /** The largest ATT MTU, requested after service discovery. */
  const MaxMtu: int := 517

  /** The calls into the Bluetooth stack that the stack took (data frames aside). */
  datatype Request =
    | ConnectGatt
    | RequestConnectionPriorityHigh
    | DiscoverServices
    | RequestMtu(mtu: int)
    | ReadIdent
    | SetNotification(uuid: Uuid)
    | WriteDescriptor(charUuid: Uuid, descUuid: Uuid, value: seq<Byte>)
    | WriteCharacteristic(uuid: Uuid, value: seq<Byte>)
    | DisconnectGatt

  /** BluetoothGattService.getCharacteristic */
  function Lookup(service: Service, uuid: Uuid): (c: Option<Characteristic>)
    ensures c.Some? <==> uuid in service
    ensures c.Some? ==> c.value == service[uuid]
  {
    if uuid in service then Some(service[uuid]) else None
  }

  class GattClient {
    const stateUuid: Uuid
    const client2ServerUuid: Uuid
    const server2ClientUuid: Uuid
    const identUuid: Option<Uuid>

    var hasListener: bool
    var inhibitCallbacks: bool
    /** mGatt != null */
    var gattOpen: bool
    var identValue: Option<seq<Byte>>
    var charState: Option<Characteristic>
    var charClient2Server: Option<Characteristic>
    var charServer2Client: Option<Characteristic>
    var charIdent: Option<Characteristic>
    var incoming: seq<Byte>
    var writingQueue: seq<Frame>
    var writeIsOutstanding: bool
    var negotiatedMtu: int
    var faulted: bool

    ghost var events: seq<Event>
    ghost var requests: seq<Request>
    ghost var wire: seq<Frame>

    /** The report* gate: the listener hears events only while one is set and
        callbacks are not inhibited. */
    function Heard(es: seq<Event>): seq<Event>
      reads this
    {
      if hasListener && !inhibitCallbacks then es else []
    }

    /** What a callback did that can be seen from outside: events es passed to
        the gate, requests rs taken by the stack, and whether it threw. */
    twostate predicate Effect(es: seq<Event>, rs: seq<Request>, fault: bool)
      reads this
    {
      && events == old(events) + Heard(es)
      && requests == old(requests) + rs
      && faulted == (old(faulted) || fault)
    }

    /** The sending side as the Outbox of the transport. */
    ghost function Sender(): Outbox
      reads this
    {
      Outbox(writingQueue, writeIsOutstanding, wire)
    }

    constructor (stateUuid: Uuid, client2ServerUuid: Uuid, server2ClientUuid: Uuid, identUuid: Option<Uuid>)
      ensures this.stateUuid == stateUuid && this.client2ServerUuid == client2ServerUuid
      ensures this.server2ClientUuid == server2ClientUuid && this.identUuid == identUuid
      ensures !hasListener && !inhibitCallbacks && !gattOpen && identValue.None?
      ensures charState.None? && charClient2Server.None? && charServer2Client.None? && charIdent.None?
      ensures incoming == [] && writingQueue == [] && !writeIsOutstanding && negotiatedMtu == 0
      ensures !faulted && events == [] && requests == [] && wire == []
    {
      this.stateUuid := stateUuid;
      this.client2ServerUuid := client2ServerUuid;
      this.server2ClientUuid := server2ClientUuid;
      this.identUuid := identUuid;
      hasListener, inhibitCallbacks, gattOpen, identValue := false, false, false, None;
      charState, charClient2Server, charServer2Client, charIdent := None, None, None, None;
      incoming, writingQueue, writeIsOutstanding, negotiatedMtu := [], [], false, 0;
      faulted, events, requests, wire := false, [], [], [];
    }

    method SetListener(present: bool)
      modifies this`hasListener
      ensures hasListener == present
    {
      hasListener := present;
    }

    /** All five report* methods: the event reaches the listener only through the gate. */
    method Report(e: Event)
      modifies this`events
      ensures events == old(events) + Heard([e])
      ensures old(inhibitCallbacks) ==> events == old(events)
    {
      if hasListener && !inhibitCallbacks {
        events := events + [e];
      }
    }

    /** connect: keeps the ident token derived from the session key (the HKDF
        output is the parameter) and opens the GATT connection. */
    method Connect(token: seq<Byte>, outcome: CallOutcome)
      requires |token| == 16
      modifies this`identValue, this`gattOpen, this`events, this`requests
      ensures identValue == Some(token)
      ensures outcome == Accepted ==> gattOpen && Effect([], [ConnectGatt], false)
      ensures outcome == Refused ==> !gattOpen && Effect([], [], false)
      ensures outcome == SecurityFailure ==> gattOpen == old(gattOpen) && Effect([Error(SecurityException)], [], false)
    {
      identValue := Some(token);
      match outcome
      case Accepted =>
        gattOpen := true;
        requests := requests + [ConnectGatt];
      case Refused =>
        gattOpen := false;
      case SecurityFailure =>
        Report(Error(SecurityException));
    }

    /** disconnect: inhibits every later report and closes the connection; a
        SecurityException there is only logged, is not recorded as a call the
        stack took, and the connection is dropped all the same. */
    method Disconnect(disconnectThrows: bool)
      modifies this`inhibitCallbacks, this`gattOpen, this`requests
      ensures inhibitCallbacks && !gattOpen
      ensures requests == old(requests) + (if old(gattOpen) && !disconnectThrows then [DisconnectGatt] else [])
    {
      inhibitCallbacks := true;
      if gattOpen {
        if !disconnectThrows {
          requests := requests + [DisconnectGatt];
        }
        gattOpen := false;
      }
    }

    method OnConnectionStateChange(newState: int, securityFailure: bool)
      modifies this`events, this`requests
      ensures old(inhibitCallbacks) ==> events == old(events)
      ensures newState == StateConnected && !securityFailure ==>
                Effect([], [RequestConnectionPriorityHigh, DiscoverServices], false)
      ensures newState == StateConnected && securityFailure ==> Effect([Error(SecurityException)], [], false)
      ensures newState == StateDisconnected ==> Effect([PeerDisconnected], [], false)
      ensures newState != StateConnected && newState != StateDisconnected ==> Effect([], [], false)
    {
      if newState == StateConnected {
        if securityFailure {
          Report(Error(SecurityException));
        } else {
          requests := requests + [RequestConnectionPriorityHigh, DiscoverServices];
        }
      } else if newState == StateDisconnected {
        Report(PeerDisconnected);
      }
    }

    /** The first characteristic that onServicesDiscovered looks up and the
        service lacks: State, Client2Server, Server2Client, then Ident when one
        is configured. */
    function MissingCharacteristic(service: Service): (missing: Option<Uuid>)
      ensures missing.Some? ==> missing.value !in service
      ensures missing.Some? ==> missing.value in {stateUuid, client2ServerUuid, server2ClientUuid}
                                || identUuid == Some(missing.value)
      ensures missing.None? <==> stateUuid in service && client2ServerUuid in service
                                 && server2ClientUuid in service
                                 && (identUuid.Some? ==> identUuid.value in service)
    {
      if stateUuid !in service then Some(stateUuid)
      else if client2ServerUuid !in service then Some(client2ServerUuid)
      else if server2ClientUuid !in service then Some(server2ClientUuid)
      else if identUuid.Some? && identUuid.value !in service then Some(identUuid.value)
      else None
    }

    /** onServicesDiscovered: looks up the characteristics in order and stops
        at the first missing one; when the service itself is absent the lookups
        are skipped. Then the MTU is requested. A failed discovery is ignored. */
    method OnServicesDiscovered(status: int, service: Option<Service>, mtuOutcome: CallOutcome)
      modifies this`charState, this`charClient2Server, this`charServer2Client, this`charIdent
      modifies this`gattOpen, this`events, this`requests
      ensures old(inhibitCallbacks) ==> events == old(events)
      ensures status != GattSuccess ==> unchanged(this)
      ensures status == GattSuccess && service.None? ==>
                && charState == old(charState) && charClient2Server == old(charClient2Server)
                && charServer2Client == old(charServer2Client) && charIdent == old(charIdent)
      ensures status == GattSuccess && service.Some? ==>
                var s := service.value;
                && charState == Lookup(s, stateUuid)
                && charClient2Server == (if stateUuid in s then Lookup(s, client2ServerUuid) else old(charClient2Server))
                && charServer2Client == (if stateUuid in s && client2ServerUuid in s
                                         then Lookup(s, server2ClientUuid) else old(charServer2Client))
                && charIdent == (if stateUuid in s && client2ServerUuid in s && server2ClientUuid in s && identUuid.Some?
                                 then Lookup(s, identUuid.value) else old(charIdent))
      ensures status == GattSuccess && service.Some? && MissingCharacteristic(service.value).Some? ==>
                && gattOpen == old(gattOpen)
                && Effect([Error(CharacteristicNotFound(MissingCharacteristic(service.value).value))], [], false)
      ensures status == GattSuccess && (service.None? || MissingCharacteristic(service.value).None?) ==>
                match mtuOutcome
                case Accepted => gattOpen && Effect([], [RequestMtu(MaxMtu)], false)
                case Refused => gattOpen == old(gattOpen) && Effect([Error(RequestMtuFailed)], [], false)
                case SecurityFailure => gattOpen == old(gattOpen) && Effect([Error(SecurityException)], [], false)
    {
      if status != GattSuccess {
        return;
      }
      if service.Some? {
        var s := service.value;
        charState := Lookup(s, stateUuid);
        if charState.None? {
          Report(Error(CharacteristicNotFound(stateUuid)));
          return;
        }
        charClient2Server := Lookup(s, client2ServerUuid);
        if charClient2Server.None? {
          Report(Error(CharacteristicNotFound(client2ServerUuid)));
          return;
        }
        charServer2Client := Lookup(s, server2ClientUuid);
        if charServer2Client.None? {
          Report(Error(CharacteristicNotFound(server2ClientUuid)));
          return;
        }
        if identUuid.Some? {
          charIdent := Lookup(s, identUuid.value);
          if charIdent.None? {
            Report(Error(CharacteristicNotFound(identUuid.value)));
            return;
          }
        }
      }
      match mtuOutcome {
        case Refused =>
          Report(Error(RequestMtuFailed));
          return;
        case SecurityFailure =>
          Report(Error(SecurityException));
          return;
        case Accepted =>
      }
      requests := requests + [RequestMtu(MaxMtu)];
      gattOpen := true;
    }

    /** The effect of enabling notifications on one characteristic: turn them
        on locally, then write ENABLE_NOTIFICATION_VALUE to its Client
        Characteristic Configuration descriptor. A null characteristic throws. */
    twostate predicate NotificationsRequested(uuid: Uuid, handle: Option<Characteristic>,
                                              notify: CallOutcome, desc: CallOutcome)
      reads this
    {
      if handle.None? then Effect([], [], true)
      else match notify
        case Refused => Effect([Error(SetNotificationFailed(uuid))], [], false)
        case SecurityFailure => Effect([Error(SecurityException)], [], false)
        case Accepted =>
          if ClientCharacteristicConfigUuid !in handle.value then
            Effect([Error(ConfigDescriptorMissing(uuid))], [SetNotification(uuid)], false)
          else match desc
            case Refused => Effect([Error(WriteDescriptorFailed(uuid))], [SetNotification(uuid)], false)
            case SecurityFailure => Effect([Error(SecurityException)], [SetNotification(uuid)], false)
            case Accepted =>
              Effect([], [SetNotification(uuid),
                          WriteDescriptor(uuid, ClientCharacteristicConfigUuid, EnableNotificationValue)], false)
    }

    /** The shared body of afterIdentObtained and the first branch of onDescriptorWrite. */
    method RequestNotifications(uuid: Uuid, handle: Option<Characteristic>, notify: CallOutcome, desc: CallOutcome)
      modifies this`events, this`requests, this`faulted
      ensures NotificationsRequested(uuid, handle, notify, desc)
    {
      if handle.None? {
        faulted := true;
        return;
      }
      match notify {
        case Refused =>
          Report(Error(SetNotificationFailed(uuid)));
          return;
        case SecurityFailure =>
          Report(Error(SecurityException));
          return;
        case Accepted =>
      }
      requests := requests + [SetNotification(uuid)];
      if ClientCharacteristicConfigUuid !in handle.value {
        Report(Error(ConfigDescriptorMissing(uuid)));
        return;
      }
      match desc
      case Refused =>
        Report(Error(WriteDescriptorFailed(uuid)));
      case SecurityFailure =>
        Report(Error(SecurityException));
      case Accepted =>
        requests := requests + [WriteDescriptor(uuid, ClientCharacteristicConfigUuid, EnableNotificationValue)];
    }

    /** afterIdentObtained: enable notifications on Server2Client. */
    method AfterIdentObtained(notify: CallOutcome, desc: CallOutcome)
      modifies this`events, this`requests, this`faulted
      ensures NotificationsRequested(server2ClientUuid, charServer2Client, notify, desc)
    {
      RequestNotifications(server2ClientUuid, charServer2Client, notify, desc);
    }

    /** onMtuChanged: records the MTU before looking at the status; then reads
        the ident characteristic if there is one, or goes straight on. */
    method OnMtuChanged(mtu: int, status: int, read: CallOutcome, notify: CallOutcome, desc: CallOutcome)
      modifies this`negotiatedMtu, this`events, this`requests, this`faulted
      ensures negotiatedMtu == mtu
      ensures old(inhibitCallbacks) ==> events == old(events)
      ensures status != GattSuccess ==> Effect([Error(MtuChangeFailed(status))], [], false)
      ensures status == GattSuccess && charIdent.Some? ==>
                match read
                case Accepted => Effect([], [ReadIdent], false)
                case Refused => Effect([Error(ReadIdentFailed)], [], false)
                case SecurityFailure => Effect([Error(SecurityException)], [], false)
      ensures status == GattSuccess && charIdent.None? ==>
                NotificationsRequested(server2ClientUuid, charServer2Client, notify, desc)
    {
      negotiatedMtu := mtu;
      if status != GattSuccess {
        Report(Error(MtuChangeFailed(status)));
        return;
      }
      if charIdent.Some? {
        match read
        case Accepted =>
          requests := requests + [ReadIdent];
        case Refused =>
          Report(Error(ReadIdentFailed));
        case SecurityFailure =>
          Report(Error(SecurityException));
      } else {
        AfterIdentObtained(notify, desc);
      }
    }

    /** onCharacteristicRead: only the ident characteristic is expected, and its
        value must equal the derived token byte for byte; otherwise the
        handshake stops with an error. The read status is not looked at. */
    method OnCharacteristicRead(uuid: Uuid, value: seq<Byte>, notify: CallOutcome, desc: CallOutcome)
      modifies this`events, this`requests, this`faulted
      ensures old(inhibitCallbacks) ==> events == old(events)
      ensures identUuid != Some(uuid) ==> Effect([Error(UnexpectedRead(uuid))], [], false)
      ensures identUuid == Some(uuid) && identValue != Some(value) ==> Effect([Error(IdentMismatch)], [], false)
      ensures identUuid == Some(uuid) && identValue == Some(value) ==>
                NotificationsRequested(server2ClientUuid, charServer2Client, notify, desc)
    {
      if identUuid != Some(uuid) {
        Report(Error(UnexpectedRead(uuid)));
        return;
      }
      if identValue != Some(value) {
        Report(Error(IdentMismatch));
        return;
      }
      AfterIdentObtained(notify, desc);
    }

    /** The effect of writing one byte to the State characteristic through mGatt. */
    twostate predicate StateWritten(b: Byte, write: CallOutcome)
      reads this
    {
      if charState.None? || !gattOpen then Effect([], [], true)
      else match write
        case Accepted => Effect([], [WriteCharacteristic(stateUuid, [b])], false)
        case Refused => Effect([Error(WriteFailed(stateUuid))], [], false)
        case SecurityFailure => Effect([Error(SecurityException)], [], false)
    }

    /** The shared body of the last handshake step and sendTransportSpecificTermination. */
    method WriteState(b: Byte, write: CallOutcome)
      modifies this`events, this`requests, this`faulted
      ensures StateWritten(b, write)
    {
      if charState.None? || !gattOpen {
        faulted := true;
        return;
      }
      match write
      case Accepted =>
        requests := requests + [WriteCharacteristic(stateUuid, [b])];
      case Refused =>
        Report(Error(WriteFailed(stateUuid)));
      case SecurityFailure =>
        Report(Error(SecurityException));
    }

    /** onDescriptorWrite: Server2Client's configuration written leads to
        State's; State's written leads to writing 0x01 to State. The status is
        not looked at. */
    method OnDescriptorWrite(charUuid: Uuid, descUuid: Uuid, notify: CallOutcome, desc: CallOutcome, write: CallOutcome)
      modifies this`events, this`requests, this`faulted
      ensures old(inhibitCallbacks) ==> events == old(events)
      ensures charUuid == server2ClientUuid && descUuid == ClientCharacteristicConfigUuid ==>
                NotificationsRequested(stateUuid, charState, notify, desc)
      ensures !(charUuid == server2ClientUuid && descUuid == ClientCharacteristicConfigUuid)
              && charUuid == stateUuid && descUuid == ClientCharacteristicConfigUuid ==>
                StateWritten(StateStart, write)
      ensures !(charUuid == server2ClientUuid && descUuid == ClientCharacteristicConfigUuid)
              && !(charUuid == stateUuid && descUuid == ClientCharacteristicConfigUuid) ==>
                Effect([Error(UnexpectedDescriptorWrite(charUuid, descUuid))], [], false)
    {
      if charUuid == server2ClientUuid && descUuid == ClientCharacteristicConfigUuid {
        RequestNotifications(stateUuid, charState, notify, desc);
      } else if charUuid == stateUuid && descUuid == ClientCharacteristicConfigUuid {
        WriteState(StateStart, write);
      } else {
        Report(Error(UnexpectedDescriptorWrite(charUuid, descUuid)));
      }
    }

    /** Whether a write of the polled chunk to Client2Server is taken by the stack. */
    predicate WriteAccepted(outcome: CallOutcome)
      reads this
    {
      charClient2Server.Some? && gattOpen && outcome == Accepted
    }

    /** The effect of drainWritingQueue beyond the Outbox: when a chunk was
        polled, a refused write is reported, and a null characteristic or
        mGatt throws. */
    twostate predicate Drained(polled: bool, outcome: CallOutcome)
      reads this
    {
      if !polled then Effect([], [], false)
      else if charClient2Server.None? || !gattOpen then Effect([], [], true)
      else match outcome
        case Accepted => Effect([], [], false)
        case Refused => Effect([Error(WriteFailed(client2ServerUuid))], [], false)
        case SecurityFailure => Effect([Error(SecurityException)], [], false)
    }

    /** drainWritingQueue: a no-op while a write is outstanding; otherwise it
        polls one chunk and writes it; only a write the stack took sets the
        outstanding flag, and a chunk whose write failed is lost. */
    method DrainWritingQueue(outcome: CallOutcome)
      modifies this`writingQueue, this`writeIsOutstanding, this`wire, this`events, this`faulted
      ensures Sender() == Drain(old(Sender()), WriteAccepted(outcome))
      ensures Drained(!old(writeIsOutstanding) && old(writingQueue) != [], outcome)
    {
      if writeIsOutstanding {
        return;
      }
      if writingQueue == [] {
        return;
      }
      var chunk := writingQueue[0];
      writingQueue := writingQueue[1..];
      if charClient2Server.None? || !gattOpen {
        faulted := true;
        return;
      }
      match outcome {
        case Refused =>
          Report(Error(WriteFailed(client2ServerUuid)));
          return;
        case SecurityFailure =>
          Report(Error(SecurityException));
          return;
        case Accepted =>
      }
      wire := wire + [chunk];
      writeIsOutstanding := true;
    }

    /** sendMessage: an MTU never negotiated becomes 23; the message is queued
        as the frames of Transport.Frames and the queue is drained. The stack
        never reports an MTU below 23, so a chunk size below 1 does not occur. */
    method SendMessage(data: seq<Byte>, outcome: CallOutcome)
      requires negotiatedMtu == 0 || negotiatedMtu >= 5
      modifies this`negotiatedMtu, this`writingQueue, this`writeIsOutstanding, this`wire, this`events, this`faulted
      ensures negotiatedMtu == EffectiveMtu(old(negotiatedMtu))
      ensures Sender() == Drain(old(Sender()).(queue := old(writingQueue) + Frames(data, MaxChunkSize(old(negotiatedMtu)))),
                                WriteAccepted(outcome))
      ensures Drained(!old(writeIsOutstanding), outcome)
    {
      if negotiatedMtu == 0 {
        negotiatedMtu := DefaultMtu;
      }
      var maxChunkSize := negotiatedMtu - 4;
      var chunks := Chunk(data, maxChunkSize);
      writingQueue := writingQueue + chunks;
      DrainWritingQueue(outcome);
    }

    /** onCharacteristicWrite: a completed State write reports the peer as
        connected; a completed Client2Server write clears the outstanding flag
        and drains the next chunk; a failed one is reported and leaves the flag
        set, so the queue stalls. */
    method OnCharacteristicWrite(uuid: Uuid, status: int, outcome: CallOutcome)
      modifies this`writingQueue, this`writeIsOutstanding, this`wire, this`events, this`faulted
      ensures old(inhibitCallbacks) ==> events == old(events)
      ensures uuid == stateUuid ==> Sender() == old(Sender())
      ensures uuid == stateUuid && status == GattSuccess ==> Effect([PeerConnected], [], false)
      ensures uuid == stateUuid && status != GattSuccess ==> Effect([Error(WriteStatus(stateUuid, status))], [], false)
      ensures uuid != stateUuid && uuid == client2ServerUuid ==>
                Sender() == Complete(old(Sender()), status, WriteAccepted(outcome))
      ensures uuid != stateUuid && uuid == client2ServerUuid && status == GattSuccess ==>
                Drained(old(writingQueue) != [], outcome)
      ensures uuid != stateUuid && uuid == client2ServerUuid && status != GattSuccess ==>
                Effect([Error(WriteStatus(client2ServerUuid, status))], [], false)
      ensures uuid != stateUuid && uuid != client2ServerUuid ==> Sender() == old(Sender()) && Effect([], [], false)
    {
      if uuid == stateUuid {
        if status != GattSuccess {
          Report(Error(WriteStatus(stateUuid, status)));
          return;
        }
        Report(PeerConnected);
      } else if uuid == client2ServerUuid {
        if status != GattSuccess {
          Report(Error(WriteStatus(client2ServerUuid, status)));
          return;
        }
        writeIsOutstanding := false;
        DrainWritingQueue(outcome);
      }
    }

    /** onCharacteristicChanged: Server2Client notifications feed the
        reassembler; State notifications carry one byte, 0x02 for session
        termination, and never touch the reassembly buffer. */
    method OnCharacteristicChanged(uuid: Uuid, value: seq<Byte>)
      modifies this`incoming, this`events
      ensures old(inhibitCallbacks) ==> events == old(events)
      ensures uuid == server2ClientUuid && |value| == 0 ==>
                incoming == old(incoming) && Effect([Error(InvalidLength(server2ClientUuid, 0))], [], false)
      ensures uuid == server2ClientUuid && |value| >= 1 ==>
                var r := Reassemble(old(incoming), value);
                && incoming == r.buffer
                && Effect(if r.message.Some? then [MessageReceived(r.message.value)] else [], [], false)
      ensures uuid != server2ClientUuid ==> incoming == old(incoming)
      ensures uuid != server2ClientUuid && uuid == stateUuid ==>
                Effect([if |value| != 1 then Error(InvalidLength(stateUuid, |value|))
                        else if value[0] == StateEnd then TransportSpecificSessionTermination
                        else Error(InvalidStateByte(value[0]))], [], false)
      ensures uuid != server2ClientUuid && uuid != stateUuid ==> Effect([], [], false)
    {
      if uuid == server2ClientUuid {
        if |value| < 1 {
          Report(Error(InvalidLength(server2ClientUuid, |value|)));
          return;
        }
        incoming := incoming + value[1..];
        if value[0] == LastFrame {
          var entireMessage := incoming;
          incoming := [];
          Report(MessageReceived(entireMessage));
        }
      } else if uuid == stateUuid {
        if |value| != 1 {
          Report(Error(InvalidLength(stateUuid, |value|)));
          return;
        }
        if value[0] == StateEnd {
          Report(TransportSpecificSessionTermination);
        } else {
          Report(Error(InvalidStateByte(value[0])));
        }
      }
    }

    /** sendTransportSpecificTermination: writes 0x02 to State. */
    method SendTransportSpecificTermination(write: CallOutcome)
      modifies this`events, this`requests, this`faulted
      ensures StateWritten(StateEnd, write)
    {
      WriteState(StateEnd, write);
    }
  }
}
