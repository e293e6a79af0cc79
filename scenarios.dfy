/**
 * Runs of callbacks through both roles, as the Bluetooth stack would deliver
 * them: the client's handshake in order, the handshake stopping on a wrong
 * ident value, the server's single-peer rule, and a message going from the
 * client's chunker over the wire into the server's reassembler.
 */
module Scenarios {
  import opened Transport
  import Client
  import Server

  /** The successful central handshake: discovery, MTU, ident read and check,
      Server2Client notifications, State notifications, 0x01 to State, and
      only then "peer connected". */
  method ClientHandshake(token: seq<Byte>, state: Uuid, c2s: Uuid, s2c: Uuid, ident: Uuid)
    returns (c: Client.GattClient)
    requires |token| == 16
    requires state != c2s && state != s2c && state != ident && c2s != s2c && c2s != ident && s2c != ident
    ensures c.requests == [Client.ConnectGatt, Client.RequestConnectionPriorityHigh, Client.DiscoverServices,
                           Client.RequestMtu(Client.MaxMtu), Client.ReadIdent,
                           Client.SetNotification(s2c),
                           Client.WriteDescriptor(s2c, ClientCharacteristicConfigUuid, EnableNotificationValue),
                           Client.SetNotification(state),
                           Client.WriteDescriptor(state, ClientCharacteristicConfigUuid, EnableNotificationValue),
                           Client.WriteCharacteristic(state, [StateStart])]
    ensures c.events == [PeerConnected]
    ensures c.negotiatedMtu == Client.MaxMtu && c.gattOpen && !c.faulted
  {
    c := ClientConnects(token, state, c2s, s2c, ident);
    ClientDiscovers(c);
    ClientChecksIdent(c, token);
    ClientHandshakeCompletes(c);
  }

  /** A new client with a listener connects and the connection comes up: it
      asks for high priority and for service discovery, and reports nothing. */
  method ClientConnects(token: seq<Byte>, state: Uuid, c2s: Uuid, s2c: Uuid, ident: Uuid)
    returns (c: Client.GattClient)
    requires |token| == 16
    ensures fresh(c)
    ensures c.stateUuid == state && c.client2ServerUuid == c2s && c.server2ClientUuid == s2c
    ensures c.identUuid == Some(ident) && c.identValue == Some(token)
    ensures c.hasListener && !c.inhibitCallbacks && !c.faulted && c.events == []
    ensures c.requests == [Client.ConnectGatt, Client.RequestConnectionPriorityHigh, Client.DiscoverServices]
  {
    c := new Client.GattClient(state, c2s, s2c, Some(ident));
    c.SetListener(true);
    c.Connect(token, Accepted);
    c.OnConnectionStateChange(StateConnected, false);
  }

  /** Discovery of a service that has all four characteristics, with the
      configuration descriptor on State and Server2Client, then the MTU
      exchange: the client goes on to read the ident characteristic. */
  method ClientDiscovers(c: Client.GattClient)
    requires c.hasListener && !c.inhibitCallbacks && !c.faulted && c.events == []
    requires c.identUuid.Some?
    requires var ident := c.identUuid.value;
             && c.stateUuid != c.client2ServerUuid && c.stateUuid != c.server2ClientUuid && c.stateUuid != ident
             && c.client2ServerUuid != c.server2ClientUuid && c.client2ServerUuid != ident
             && c.server2ClientUuid != ident
    modifies c`charState, c`charClient2Server, c`charServer2Client, c`charIdent
    modifies c`gattOpen, c`negotiatedMtu, c`events, c`requests, c`faulted
    ensures c.requests == old(c.requests) + [Client.RequestMtu(Client.MaxMtu), Client.ReadIdent]
    ensures c.events == [] && !c.faulted && c.gattOpen && c.negotiatedMtu == Client.MaxMtu
    ensures c.charState == Some({ClientCharacteristicConfigUuid})
    ensures c.charServer2Client == Some({ClientCharacteristicConfigUuid})
  {
    var service := map[c.stateUuid := {ClientCharacteristicConfigUuid}, c.client2ServerUuid := {},
                       c.server2ClientUuid := {ClientCharacteristicConfigUuid}, c.identUuid.value := {}];
    assert c.MissingCharacteristic(service).None?;
    c.OnServicesDiscovered(GattSuccess, Some(service), Accepted);
    assert c.charIdent == Some({});
    c.OnMtuChanged(Client.MaxMtu, GattSuccess, Accepted, Accepted, Accepted);
  }

  /** The ident value read back equals the token: notifications on
      Server2Client are enabled next. */
  method ClientChecksIdent(c: Client.GattClient, token: seq<Byte>)
    requires c.hasListener && !c.inhibitCallbacks && !c.faulted && c.events == []
    requires c.identUuid.Some? && c.identValue == Some(token)
    requires c.charServer2Client == Some({ClientCharacteristicConfigUuid})
    modifies c`events, c`requests, c`faulted
    ensures c.requests == old(c.requests) +
              [Client.SetNotification(c.server2ClientUuid),
               Client.WriteDescriptor(c.server2ClientUuid, ClientCharacteristicConfigUuid, EnableNotificationValue)]
    ensures c.events == [] && !c.faulted
  {
    c.OnCharacteristicRead(c.identUuid.value, token, Accepted, Accepted);
  }

  /** The end of the handshake: Server2Client's configuration written leads to
      State's, State's leads to 0x01 on State, and that write's completion is
      "peer connected", the first event the listener hears. */
  method ClientHandshakeCompletes(c: Client.GattClient)
    requires c.hasListener && !c.inhibitCallbacks && c.gattOpen && !c.faulted && c.events == []
    requires c.charState == Some({ClientCharacteristicConfigUuid})
    requires c.stateUuid != c.server2ClientUuid && c.stateUuid != c.client2ServerUuid
    modifies c`events, c`requests, c`faulted, c`writingQueue, c`writeIsOutstanding, c`wire
    ensures c.requests == old(c.requests) +
              [Client.SetNotification(c.stateUuid),
               Client.WriteDescriptor(c.stateUuid, ClientCharacteristicConfigUuid, EnableNotificationValue),
               Client.WriteCharacteristic(c.stateUuid, [StateStart])]
    ensures c.events == [PeerConnected] && !c.faulted
  {
    c.OnDescriptorWrite(c.server2ClientUuid, ClientCharacteristicConfigUuid, Accepted, Accepted, Accepted);
    assert c.events == [] && !c.faulted;
    c.OnDescriptorWrite(c.stateUuid, ClientCharacteristicConfigUuid, Accepted, Accepted, Accepted);
    assert c.events == [] && !c.faulted;
    c.OnCharacteristicWrite(c.stateUuid, GattSuccess, Accepted);
  }

  /** Ident mismatch: a peer whose ident value differs from the derived token
      gets an error and the handshake goes no further than the read. */
  method IdentMismatchStopsHandshake(token: seq<Byte>, other: seq<Byte>, state: Uuid, c2s: Uuid, s2c: Uuid, ident: Uuid)
    returns (c: Client.GattClient)
    requires |token| == 16 && other != token
    requires state != c2s && state != s2c && state != ident && c2s != s2c && c2s != ident && s2c != ident
    ensures c.requests == [Client.ConnectGatt, Client.RequestConnectionPriorityHigh, Client.DiscoverServices,
                           Client.RequestMtu(Client.MaxMtu), Client.ReadIdent]
    ensures c.events == [Error(IdentMismatch)]
  {
    c := ClientConnects(token, state, c2s, s2c, ident);
    ClientDiscovers(c);
    c.OnCharacteristicRead(ident, other, Accepted, Accepted);
  }

  /** Single peer: a second device neither replaces the first nor is reported,
      its disconnection is ignored, and the first device's disconnection is. */
  method ServerSinglePeer(first: Server.Address, second: Server.Address, state: Uuid, c2s: Uuid, s2c: Uuid)
    returns (s: Server.GattServer)
    requires first != second
    ensures s.currentConnection.None? && s.events == [PeerDisconnected] && !s.faulted
  {
    s := new Server.GattServer(state, c2s, s2c, None);
    s.SetListener(true);
    s.OnConnectionStateChange(first, StateConnected);
    s.OnConnectionStateChange(second, StateConnected);
    assert s.currentConnection == Some(first);
    s.OnConnectionStateChange(second, StateDisconnected);
    assert s.currentConnection == Some(first) && s.events == [];
    s.OnConnectionStateChange(first, StateDisconnected);
  }

  /** The two roles agree on the service: when the client and the server use
      the same State, Client2Server and Server2Client UUIDs, and the service
      the client discovers holds exactly what start() published, the client
      finds every characteristic it needs if and only if any ident
      characteristic it expects is among the published ones. */
  lemma PublishedServiceIsComplete(s: Server.GattServer, c: Client.GattClient, service: Client.Service)
    requires s.stateUuid == c.stateUuid && s.client2ServerUuid == c.client2ServerUuid
    requires s.server2ClientUuid == c.server2ClientUuid
    requires forall u :: u in service <==> u in s.ServiceCharacteristics()
    ensures c.MissingCharacteristic(service).None? <==>
              (c.identUuid.Some? ==> c.identUuid.value in s.ServiceCharacteristics())
    ensures s.identUuid == c.identUuid ==> c.MissingCharacteristic(service).None?
  {
  }

  /** The listener events that delivering these messages produces. */
  function Delivered(messages: seq<seq<Byte>>): (es: seq<Event>)
    ensures |es| == |messages|
    ensures forall i :: 0 <= i < |messages| ==> es[i] == MessageReceived(messages[i])
  {
    if messages == [] then [] else [MessageReceived(messages[0])] + Delivered(messages[1..])
  }

  lemma {:induction false} DeliveredAppend(xs: seq<seq<Byte>>, ys: seq<seq<Byte>>)
    ensures Delivered(xs + ys) == Delivered(xs) + Delivered(ys)
    decreases |xs|
  {
    if xs != [] {
      assert (xs + ys)[1..] == xs[1..] + ys;
      DeliveredAppend(xs[1..], ys);
    }
  }

  /** The next Client2Server write request of a run (no response asked for):
      the server moves from having received frames[..i] to frames[..i + 1]. */
  method ServerReceivesNext(s: Server.GattServer, device: Server.Address,
                            ghost start: seq<Byte>, ghost heard: seq<Event>, frames: seq<Frame>, i: int)
    requires s.hasListener && !s.inhibitCallbacks
    requires s.client2ServerUuid != s.stateUuid
    requires 0 <= i < |frames| && |frames[i]| >= 1
    requires s.incoming == ReceiveAll(start, frames[..i]).buffer
    requires s.events == heard + Delivered(ReceiveAll(start, frames[..i]).messages)
    modifies s`incoming, s`events, s`requests, s`faulted
    ensures s.incoming == ReceiveAll(start, frames[..i + 1]).buffer
    ensures s.events == heard + Delivered(ReceiveAll(start, frames[..i + 1]).messages)
    ensures s.faulted == old(s.faulted) && s.requests == old(s.requests)
  {
    ReceivedPrefix(start, frames, i);
    s.OnCharacteristicWriteRequest(device, i, s.client2ServerUuid, false, frames[i], Accepted);
  }

  /** A run of Client2Server write requests (no response asked for) arriving at
      a server with a listener: the server's buffer and events follow ReceiveAll. */
  method ServerReceives(s: Server.GattServer, device: Server.Address, frames: seq<Frame>)
    requires s.hasListener && !s.inhibitCallbacks
    requires s.client2ServerUuid != s.stateUuid
    requires forall i :: 0 <= i < |frames| ==> |frames[i]| >= 1
    modifies s`incoming, s`events, s`requests, s`faulted
    ensures s.incoming == ReceiveAll(old(s.incoming), frames).buffer
    ensures s.events == old(s.events) + Delivered(ReceiveAll(old(s.incoming), frames).messages)
    ensures s.faulted == old(s.faulted) && s.requests == old(s.requests)
  {
    ghost var start, heard := s.incoming, s.events;
    assert frames[..0] == [];
    var i := 0;
    while i < |frames|
      invariant 0 <= i <= |frames|
      invariant s.incoming == ReceiveAll(start, frames[..i]).buffer
      invariant s.events == heard + Delivered(ReceiveAll(start, frames[..i]).messages)
      invariant s.faulted == old(s.faulted) && s.requests == old(s.requests)
    {
      ServerReceivesNext(s, device, start, heard, frames, i);
      i := i + 1;
    }
    assert frames[..i] == frames;
  }

  /** One more frame of a run, in terms of the events the listener hears. */
  lemma ReceivedPrefix(buffer: seq<Byte>, frames: seq<Frame>, i: int)
    requires 0 <= i < |frames| && |frames[i]| >= 1
    ensures var before := ReceiveAll(buffer, frames[..i]);
            var r := Reassemble(before.buffer, frames[i]);
            && ReceiveAll(buffer, frames[..i + 1]).buffer == r.buffer
            && Delivered(ReceiveAll(buffer, frames[..i + 1]).messages)
               == Delivered(before.messages) + Delivered(if r.message.Some? then [r.message.value] else [])
  {
    var before := ReceiveAll(buffer, frames[..i]);
    var r := Reassemble(before.buffer, frames[i]);
    ReceiveOneMore(buffer, frames[..i], frames[i]);
    assert frames[..i + 1] == frames[..i] + [frames[i]];
    DeliveredAppend(before.messages, if r.message.Some? then [r.message.value] else []);
  }

  /** Write completions for a client whose every write succeeds and is taken
      by the stack: the queued frames all reach the wire, in order. */
  method ClientFlushes(c: Client.GattClient)
    requires c.charClient2Server.Some? && c.gattOpen
    requires c.writeIsOutstanding || c.writingQueue == []
    requires c.client2ServerUuid != c.stateUuid
    modifies c`writingQueue, c`writeIsOutstanding, c`wire, c`events, c`faulted
    ensures c.wire == old(c.wire) + old(c.writingQueue)
    ensures c.writingQueue == [] && c.events == old(c.events) && c.faulted == old(c.faulted)
  {
    while c.writingQueue != []
      invariant c.charClient2Server.Some? && c.gattOpen
      invariant c.writeIsOutstanding || c.writingQueue == []
      invariant c.wire + c.writingQueue == old(c.wire) + old(c.writingQueue)
      invariant c.events == old(c.events) && c.faulted == old(c.faulted)
      decreases |c.writingQueue|
    {
      c.OnCharacteristicWrite(c.client2ServerUuid, GattSuccess, Accepted);
    }
  }

  /** An idle client sending one message, with every write accepted and
      completed: the message's frames reach the wire, in order. */
  method ClientSendsWhole(c: Client.GattClient, data: seq<Byte>)
    requires c.charClient2Server.Some? && c.gattOpen && !c.writeIsOutstanding && c.writingQueue == []
    requires c.negotiatedMtu == 0 || c.negotiatedMtu >= 5
    requires c.client2ServerUuid != c.stateUuid
    modifies c`negotiatedMtu, c`writingQueue, c`writeIsOutstanding, c`wire, c`events, c`faulted
    ensures c.wire == old(c.wire) + Frames(data, MaxChunkSize(old(c.negotiatedMtu)))
    ensures c.writingQueue == [] && c.events == old(c.events) && c.faulted == old(c.faulted)
  {
    ghost var k := MaxChunkSize(c.negotiatedMtu);
    c.SendMessage(data, Accepted);
    assert c.wire + c.writingQueue == old(c.wire) + Frames(data, k);
    assert c.writeIsOutstanding;
    ClientFlushes(c);
  }

  /** The frames of one message, received from an empty buffer, are non-empty
      and make the listener hear that message once. */
  lemma OneMessageDelivered(data: seq<Byte>, k: int)
    requires k >= 1
    ensures forall i :: 0 <= i < |Frames(data, k)| ==> |Frames(data, k)[i]| >= 1
    ensures ReceiveAll([], Frames(data, k)).buffer == []
    ensures Delivered(ReceiveAll([], Frames(data, k)).messages) == [MessageReceived(data)]
  {
    FramesSpellMessage(data, k);
    ReceiveFrames([], data, k);
    assert [] + data == data;
  }

  /** End to end: a message sent by an idle client goes out frame by frame,
      one outstanding write at a time, and the server delivers exactly that
      message to its listener, once. */
  method ClientToServer(c: Client.GattClient, s: Server.GattServer, device: Server.Address, data: seq<Byte>)
    requires c.charClient2Server.Some? && c.gattOpen && !c.writeIsOutstanding && c.writingQueue == []
    requires c.negotiatedMtu == 0 || c.negotiatedMtu >= 5
    requires c.client2ServerUuid != c.stateUuid
    requires s.hasListener && !s.inhibitCallbacks && s.incoming == []
    requires s.client2ServerUuid != s.stateUuid
    modifies c, s
    ensures c.wire == old(c.wire) + Frames(data, MaxChunkSize(old(c.negotiatedMtu)))
    ensures s.events == old(s.events) + [MessageReceived(data)]
    ensures s.incoming == []
  {
    var k := MaxChunkSize(c.negotiatedMtu);
    ClientSendsWhole(c, data);
    OneMessageDelivered(data, k);
    ServerReceives(s, device, Frames(data, k));
  }
}
