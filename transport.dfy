/**
 * The chunked message transport that the mdoc BLE data retrieval of
 * ISO/IEC 18013-5 runs over GATT characteristics, shared by both connection
 * roles (GattClient, the central, and GattServer, the peripheral).
 *
 * A message is cut into frames of one header byte (0x01: more frames follow,
 * 0x00: last frame) and at most MTU-4 payload bytes; frames are written one at
 * a time, the next only after the previous write completed; the receiver
 * appends payloads until a last frame arrives and then delivers the whole
 * message.
 */
module Transport {

  type Byte = bv8
  type Frame = seq<Byte>

  /** A 128-bit Bluetooth UUID; only equality is used. */
  type Uuid = nat

  datatype Option<T> = None | Some(value: T)

  /** BluetoothGatt.GATT_SUCCESS */
  const GattSuccess: int := 0

  /** BluetoothProfile.STATE_DISCONNECTED and STATE_CONNECTED */
  const StateDisconnected: int := 0
  const StateConnected: int := 2

  /** Client Characteristic Configuration descriptor, 0x2902 in the Bluetooth base UUID
      (Bluetooth Core Specification Vol 3, Part G, section 3.3.3.3). */
  const ClientCharacteristicConfigUuid: Uuid := 0x0000_2902_0000_1000_8000_0080_5f9b_34fb

  /** BluetoothGattDescriptor.ENABLE_NOTIFICATION_VALUE */
  const EnableNotificationValue: seq<Byte> := [0x01, 0x00]

  /** The link MTU assumed when none was negotiated. */
  const DefaultMtu: int := 23

  /** Frame header bytes. */
  const MoreFrames: Byte := 0x01
  const LastFrame: Byte := 0x00

  /** Bytes written to the state characteristic. */
  const StateStart: Byte := 0x01
  const StateEnd: Byte := 0x02

  /** How a call into the Bluetooth stack came back: it returned true (or an
      object), it returned false (or null), or it threw SecurityException. */
  datatype CallOutcome = Accepted | Refused | SecurityFailure

  /** Why an error was reported to the listener. */
  datatype Cause =
    | SecurityException
    | CharacteristicNotFound(uuid: Uuid)
    | RequestMtuFailed
    | MtuChangeFailed(status: int)
    | ReadIdentFailed
    | UnexpectedRead(uuid: Uuid)
    | IdentMismatch
    | SetNotificationFailed(uuid: Uuid)
    | ConfigDescriptorMissing(uuid: Uuid)
    | WriteDescriptorFailed(uuid: Uuid)
    | UnexpectedDescriptorWrite(charUuid: Uuid, descUuid: Uuid)
    | WriteStatus(uuid: Uuid, status: int)
    | WriteFailed(uuid: Uuid)
    | InvalidLength(uuid: Uuid, length: nat)
    | InvalidStateByte(b: Byte)
    | NotifyFailed(uuid: Uuid)
    | NotificationSentStatus(status: int)
    | UnexpectedWrite(uuid: Uuid)

  /** One call of the application's Listener. */
  datatype Event =
    | PeerConnected
    | PeerDisconnected
    | MessageReceived(message: seq<Byte>)
    | TransportSpecificSessionTermination
    | Error(cause: Cause)

  // ---------------------------------------------------------------------------
  // Sending: chunking

  /** The MTU sendMessage chunks by: an MTU of 0 means "never negotiated". */
  function EffectiveMtu(negotiatedMtu: int): (mtu: int)
    ensures negotiatedMtu == 0 ==> mtu == DefaultMtu
    ensures negotiatedMtu != 0 ==> mtu == negotiatedMtu
  {
    if negotiatedMtu == 0 then DefaultMtu else negotiatedMtu
  }

  /** Payload bytes per frame: three bytes of ATT header and one header byte of our own. */
  function MaxChunkSize(negotiatedMtu: int): (k: int)
    ensures negotiatedMtu == 0 ==> k == 19
    ensures negotiatedMtu >= 5 ==> k == negotiatedMtu - 4 >= 1
  {
    EffectiveMtu(negotiatedMtu) - 4
  }

  /** The frames a message is cut into, greedily, k payload bytes at a time. */
  function Frames(data: seq<Byte>, k: int): (fs: seq<Frame>)
    requires k >= 1
    ensures |fs| >= 1
    decreases |data|
  {
    if |data| <= k then [[LastFrame] + data]
    else [[MoreFrames] + data[..k]] + Frames(data[k..], k)
  }

  /** The payload of a frame: everything after its header byte. */
  function Payload(f: Frame): seq<Byte> {
    if f == [] then [] else f[1..]
  }

  /** The payloads of a sequence of frames, concatenated. */
  function Payloads(fs: seq<Frame>): seq<Byte> {
    if fs == [] then [] else Payload(fs[0]) + Payloads(fs[1..])
  }

  /** What the wire format asks of one message's frames: each has a header and
      at most k payload bytes; every frame but the last says "more", the last says "last". */
  ghost predicate WellFramed(fs: seq<Frame>, k: int) {
    && |fs| >= 1
    && (forall i :: 0 <= i < |fs| ==> 1 <= |fs[i]| <= k + 1)
    && (forall i :: 0 <= i < |fs| - 1 ==> fs[i][0] == MoreFrames)
    && fs[|fs| - 1][0] == LastFrame
  }

  /** The greedy shape of the chunker: every frame but the last is full, and
      the last carries a payload unless it is the only frame. */
  ghost predicate Greedy(fs: seq<Frame>, k: int) {
    && |fs| >= 1
    && (forall i :: 0 <= i < |fs| - 1 ==> |fs[i]| == k + 1)
    && (|fs| > 1 ==> |fs[|fs| - 1]| >= 2)
  }

  /** Chunk contents: the frames are well formed and their payloads spell out the message. */
  lemma {:induction false} FramesSpellMessage(data: seq<Byte>, k: int)
    requires k >= 1
    ensures WellFramed(Frames(data, k), k)
    ensures Greedy(Frames(data, k), k)
    ensures Payloads(Frames(data, k)) == data
  {
    FramesShape(data, k);
    FramesPayloads(data, k);
  }

  lemma {:induction false} FramesShape(data: seq<Byte>, k: int)
    requires k >= 1
    ensures WellFramed(Frames(data, k), k) && Greedy(Frames(data, k), k)
    decreases |data|
  {
    if |data| > k {
      var rest := Frames(data[k..], k);
      FramesShape(data[k..], k);
      var fs := Frames(data, k);
      assert fs == [[MoreFrames] + data[..k]] + rest;
      forall i | 0 <= i < |fs| ensures 1 <= |fs[i]| <= k + 1 {
        if i > 0 { assert fs[i] == rest[i - 1]; }
      }
      forall i | 0 <= i < |fs| - 1 ensures fs[i][0] == MoreFrames && |fs[i]| == k + 1 {
        if i > 0 { assert fs[i] == rest[i - 1]; }
      }
      assert fs[|fs| - 1] == rest[|rest| - 1];
    }
  }

  lemma {:induction false} FramesPayloads(data: seq<Byte>, k: int)
    requires k >= 1
    ensures Payloads(Frames(data, k)) == data
    decreases |data|
  {
    var fs := Frames(data, k);
    if |data| <= k {
      assert fs == [[LastFrame] + data];
      PayloadsFirst(fs);
      assert fs[1..] == [];
    } else {
      FramesFirst(data, k);
      FramesPayloads(data[k..], k);
      PayloadsFirst(fs);
      assert data[..k] + data[k..] == data;
    }
  }

  /** A message longer than k: its first frame is 0x01 and k bytes, and the others frame the rest. */
  lemma FramesFirst(data: seq<Byte>, k: int)
    requires k >= 1 && |data| > k
    ensures Frames(data, k)[0] == [MoreFrames] + data[..k]
    ensures Frames(data, k)[1..] == Frames(data[k..], k)
    ensures Payload(Frames(data, k)[0]) == data[..k]
  {
    assert Frames(data, k) == [[MoreFrames] + data[..k]] + Frames(data[k..], k);
  }

  lemma PayloadsFirst(fs: seq<Frame>)
    requires |fs| >= 1
    ensures Payloads(fs) == Payload(fs[0]) + Payloads(fs[1..])
  {
  }

  /** Frame count: a message of n bytes takes ceil(n/k) frames, and an empty one exactly one frame. */
  lemma {:induction false} FrameCount(data: seq<Byte>, k: int)
    requires k >= 1
    ensures |Frames(data, k)| == if |data| == 0 then 1 else (|data| + k - 1) / k
    decreases |data|
  {
    if |data| == 0 {
    } else if |data| <= k {
      DivOne(|data| + k - 1, k);
    } else {
      FrameCount(data[k..], k);
      DivStep(|data| - 1, k);
    }
  }

  lemma DivOne(n: int, k: int)
    requires 1 <= k <= n < 2 * k
    ensures n / k == 1
  {
  }

  lemma DivStep(n: int, k: int)
    requires k >= 1 && n >= 0
    ensures (n + k) / k == n / k + 1
  {
    assert n + k == (n / k + 1) * k + n % k;
    DivUnique(n + k, k, n / k + 1, n % k);
  }

  lemma DivUnique(m: int, k: int, a: int, b: int)
    requires k >= 1 && 0 <= b < k && m == a * k + b
    ensures m / k == a
  {
    var q, r := m / k, m % k;
    assert m == q * k + r && 0 <= r < k;
    assert (a - q) * k == r - b;
    if a > q {
      MulAtLeast(a - q, k);
    } else if a < q {
      MulAtLeast(q - a, k);
    }
  }

  lemma {:induction false} MulAtLeast(x: int, k: int)
    requires x >= 1 && k >= 1
    ensures x * k >= k
    decreases x
  {
    if x > 1 {
      MulAtLeast(x - 1, k);
      assert x * k == (x - 1) * k + k;
    }
  }

  /** The empty message is the single frame [0x00]. */
  lemma EmptyMessageIsOneFrame(k: int)
    requires k >= 1
    ensures Frames([], k) == [[LastFrame]]
  {
    assert [LastFrame] + [] == [LastFrame];
  }

  /** Frames is the only greedy well-formed framing of a message, so the
      chunker's output is determined by the wire format alone. */
  lemma {:induction false} FramesUnique(fs: seq<Frame>, data: seq<Byte>, k: int)
    requires k >= 1
    requires WellFramed(fs, k) && Greedy(fs, k) && Payloads(fs) == data
    ensures fs == Frames(data, k)
    decreases |fs|
  {
    if |fs| == 1 {
      assert fs[1..] == [];
      assert Payloads(fs) == Payload(fs[0]) + Payloads(fs[1..]);
      assert data == fs[0][1..] && |data| <= k;
      assert fs[0] == [LastFrame] + data;
      assert fs == [fs[0]];
    } else {
      var tail := fs[1..];
      TailFramed(fs, k);
      FramesUnique(tail, Payloads(tail), k);
      assert |fs[0]| == k + 1 && fs[0][0] == MoreFrames;
      HeadSplit(fs, data, k);
      assert fs == [fs[0]] + tail;
    }
  }

  /** Dropping the first frame of a multi-frame framing keeps it well formed and greedy. */
  lemma TailFramed(fs: seq<Frame>, k: int)
    requires |fs| >= 2 && WellFramed(fs, k) && Greedy(fs, k)
    ensures WellFramed(fs[1..], k) && Greedy(fs[1..], k)
  {
    var tail := fs[1..];
    forall i | 0 <= i < |tail| ensures 1 <= |tail[i]| <= k + 1 { assert tail[i] == fs[i + 1]; }
    forall i | 0 <= i < |tail| - 1 ensures tail[i][0] == MoreFrames && |tail[i]| == k + 1 {
      assert tail[i] == fs[i + 1];
    }
    assert tail[|tail| - 1] == fs[|fs| - 1];
  }

  /** The first frame of a multi-frame greedy framing is 0x01 and the first k
      bytes of the message; the other frames carry the rest. */
  lemma HeadSplit(fs: seq<Frame>, data: seq<Byte>, k: int)
    requires k >= 1 && |fs| >= 2
    requires |fs[0]| == k + 1 && fs[0][0] == MoreFrames && |fs[|fs| - 1]| >= 2
    requires Payloads(fs) == data
    ensures |data| > k
    ensures fs[0] == [MoreFrames] + data[..k]
    ensures Payloads(fs[1..]) == data[k..]
  {
    var tail := fs[1..];
    PayloadsFirst(fs);
    assert tail[|tail| - 1] == fs[|fs| - 1];
    PayloadsLength(tail);
    PayloadLengthsAtLeastLast(tail);
    assert data == fs[0][1..] + Payloads(tail);
    assert fs[0] == [fs[0][0]] + fs[0][1..];
  }

  /** The length of the payloads is the sum of the payload lengths. */
  function PayloadLengths(fs: seq<Frame>): nat {
    if fs == [] then 0 else |Payload(fs[0])| + PayloadLengths(fs[1..])
  }

  lemma {:induction false} PayloadsLength(fs: seq<Frame>)
    ensures |Payloads(fs)| == PayloadLengths(fs)
  {
    if fs != [] { PayloadsLength(fs[1..]); }
  }

  lemma {:induction false} PayloadLengthsAtLeastLast(fs: seq<Frame>)
    requires |fs| >= 1 && |fs[|fs| - 1]| >= 2
    ensures PayloadLengths(fs) >= 1
  {
    if |fs| > 1 {
      assert fs[1..][|fs| - 2] == fs[|fs| - 1];
      PayloadLengthsAtLeastLast(fs[1..]);
    }
  }

  /** One pass of the do/while loop: the frame cut at offset, then the frames of what is left. */
  lemma FramesFrom(data: seq<Byte>, offset: int, k: int)
    requires k >= 1 && 0 <= offset <= |data|
    ensures var size := if |data| - offset > k then k else |data| - offset;
            var more := offset + k < |data|;
            && (more <==> offset + size < |data|)
            && Frames(data[offset..], k)
               == [[if more then MoreFrames else LastFrame] + data[offset..offset + size]]
                  + (if more then Frames(data[offset + size..], k) else [])
  {
    var rest := data[offset..];
    if offset + k < |data| {
      assert rest[..k] == data[offset..offset + k];
      assert rest[k..] == data[offset + k..];
    } else {
      assert rest == data[offset..|data|];
    }
  }

  /** The loop invariant of Chunk carried across one pass. */
  lemma ChunkStep(data: seq<Byte>, k: int, frames: seq<Frame>, offset: int, size: int, chunk: Frame)
    requires k >= 1 && 0 <= offset <= |data|
    requires frames + Frames(data[offset..], k) == Frames(data, k)
    requires size == if |data| - offset > k then k else |data| - offset
    requires chunk == [if offset + k < |data| then MoreFrames else LastFrame] + data[offset..offset + size]
    ensures offset + size <= |data|
    ensures frames + [chunk] + (if offset + size < |data| then Frames(data[offset + size..], k) else [])
            == Frames(data, k)
  {
    FramesFrom(data, offset, k);
    var later := if offset + size < |data| then Frames(data[offset + size..], k) else [];
    assert Frames(data[offset..], k) == [chunk] + later;
    assert frames + [chunk] + later == frames + ([chunk] + later);
  }

  /** The do/while loop of sendMessage: it cuts data into frames of at most
      maxChunkSize payload bytes, always emitting at least one frame. */
  method Chunk(data: seq<Byte>, maxChunkSize: int) returns (frames: seq<Frame>)
    requires maxChunkSize >= 1
    ensures frames == Frames(data, maxChunkSize)
  {
    frames := [];
    var offset := 0;
    var again := true;  // the do/while condition, tested after each pass
    while again
      invariant 0 <= offset <= |data|
      invariant frames + (if again then Frames(data[offset..], maxChunkSize) else []) == Frames(data, maxChunkSize)
      decreases |data| - offset, again
    {
      var moreChunksComing := offset + maxChunkSize < |data|;
      var size := |data| - offset;
      if size > maxChunkSize {
        size := maxChunkSize;
      }
      var chunk := [if moreChunksComing then MoreFrames else LastFrame] + data[offset..offset + size];
      ChunkStep(data, maxChunkSize, frames, offset, size, chunk);
      frames := frames + [chunk];
      offset := offset + size;
      again := offset < |data|;
    }
  }

  // ---------------------------------------------------------------------------
  // Receiving: reassembly

  /** The receive buffer after one frame, and the message it completes, if any. */
  datatype Rx = Rx(buffer: seq<Byte>, message: Option<seq<Byte>>)

  /** One non-empty frame arriving: its payload is appended; a 0x00 header
      delivers the whole buffer and empties it; any other header continues. */
  function Reassemble(buffer: seq<Byte>, frame: Frame): (r: Rx)
    requires |frame| >= 1
    ensures r.message.Some? <==> frame[0] == LastFrame
    ensures r.message.Some? ==> r.buffer == [] && r.message.value == buffer + Payload(frame)
    ensures r.message.None? ==> r.buffer == buffer + Payload(frame)
  {
    var grown := buffer + frame[1..];
    if frame[0] == LastFrame then Rx([], Some(grown)) else Rx(grown, None)
  }

  /** What a receiver holds after a run of frames: its buffer and the messages delivered. */
  datatype Inbox = Inbox(buffer: seq<Byte>, messages: seq<seq<Byte>>)

  /** Frames fed one by one to the receiver; an empty frame is reported and dropped. */
  function ReceiveAll(buffer: seq<Byte>, frames: seq<Frame>): Inbox
    decreases |frames|
  {
    if frames == [] then Inbox(buffer, [])
    else if frames[0] == [] then ReceiveAll(buffer, frames[1..])
    else
      var r := Reassemble(buffer, frames[0]);
      var after := ReceiveAll(r.buffer, frames[1..]);
      Inbox(after.buffer, (if r.message.Some? then [r.message.value] else []) + after.messages)
  }

  /** Receiving two runs of frames in a row is receiving their concatenation. */
  lemma {:induction false} ReceiveAppend(buffer: seq<Byte>, xs: seq<Frame>, ys: seq<Frame>)
    ensures ReceiveAll(buffer, xs + ys).buffer == ReceiveAll(ReceiveAll(buffer, xs).buffer, ys).buffer
    ensures ReceiveAll(buffer, xs + ys).messages
         == ReceiveAll(buffer, xs).messages + ReceiveAll(ReceiveAll(buffer, xs).buffer, ys).messages
    decreases |xs|
  {
    if xs == [] {
      assert xs + ys == ys;
    } else {
      assert (xs + ys)[0] == xs[0];
      assert (xs + ys)[1..] == xs[1..] + ys;
      if xs[0] == [] {
        ReceiveAppend(buffer, xs[1..], ys);
      } else {
        var r := Reassemble(buffer, xs[0]);
        var delivered := if r.message.Some? then [r.message.value] else [];
        ReceiveAppend(r.buffer, xs[1..], ys);
        var mid := ReceiveAll(r.buffer, xs[1..]);
        assert ReceiveAll(buffer, xs) == Inbox(mid.buffer, delivered + mid.messages);
        assert ReceiveAll(buffer, xs + ys)
            == Inbox(ReceiveAll(mid.buffer, ys).buffer,
                     delivered + (mid.messages + ReceiveAll(mid.buffer, ys).messages));
        assert delivered + (mid.messages + ReceiveAll(mid.buffer, ys).messages)
            == (delivered + mid.messages) + ReceiveAll(mid.buffer, ys).messages;
      }
    }
  }

  /** Receiving one more non-empty frame after a run of frames. */
  lemma ReceiveOneMore(buffer: seq<Byte>, xs: seq<Frame>, f: Frame)
    requires |f| >= 1
    ensures var before := ReceiveAll(buffer, xs);
            var r := Reassemble(before.buffer, f);
            ReceiveAll(buffer, xs + [f])
              == Inbox(r.buffer, before.messages + (if r.message.Some? then [r.message.value] else []))
  {
    ReceiveAppend(buffer, xs, [f]);
    var before := ReceiveAll(buffer, xs);
    var r := Reassemble(before.buffer, f);
    assert ReceiveAll(r.buffer, []) == Inbox(r.buffer, []);
    assert [f][1..] == [];
  }

  /** Reassembly: the frames of one message, fed to a receiver holding pre,
      deliver pre followed by the message, once, and leave the buffer empty. */
  lemma {:induction false} ReceiveFrames(pre: seq<Byte>, data: seq<Byte>, k: int)
    requires k >= 1
    ensures ReceiveAll(pre, Frames(data, k)) == Inbox([], [pre + data])
    decreases |data|
  {
    var fs := Frames(data, k);
    if |data| <= k {
      assert fs[1..] == [];
    } else {
      assert fs[0] == [MoreFrames] + data[..k];
      assert fs[1..] == Frames(data[k..], k);
      ReceiveFrames(pre + data[..k], data[k..], k);
      assert pre + data[..k] + data[k..] == pre + data;
    }
  }

  /** The frames of several messages sent back to back. */
  function FramesOf(messages: seq<seq<Byte>>, k: int): (fs: seq<Frame>)
    requires k >= 1
    ensures |fs| >= |messages|
  {
    if messages == [] then [] else Frames(messages[0], k) + FramesOf(messages[1..], k)
  }

  /** Chunk round trip: feeding the frames of any messages, in order, to an
      empty receiver delivers exactly those messages and leaves nothing pending. */
  lemma {:induction false} RoundTrip(messages: seq<seq<Byte>>, k: int)
    requires k >= 1
    ensures ReceiveAll([], FramesOf(messages, k)) == Inbox([], messages)
    decreases |messages|
  {
    if messages != [] {
      var first, rest := Frames(messages[0], k), FramesOf(messages[1..], k);
      assert FramesOf(messages, k) == first + rest;
      ReceiveAppend([], first, rest);
      ReceiveFrames([], messages[0], k);
      assert [] + messages[0] == messages[0];
      assert ReceiveAll([], first) == Inbox([], [messages[0]]);
      RoundTrip(messages[1..], k);
      assert [messages[0]] + messages[1..] == messages;
    }
  }

  // ---------------------------------------------------------------------------
  // Sending: the write queue and its single outstanding write

  /** The sending side: the queued frames, whether a write is outstanding, and
      the frames the Bluetooth stack has accepted for transmission, in order. */
  datatype Outbox = Outbox(queue: seq<Frame>, outstanding: bool, wire: seq<Frame>)

  /** drainWritingQueue: unless a write is outstanding, poll the head frame and
      hand it to the stack; only an accepted write becomes outstanding. A
      refused write loses the polled frame. */
  function Drain(o: Outbox, accepted: bool): (r: Outbox)
    ensures o.outstanding || o.queue == [] ==> r == o
    ensures r.outstanding <==> o.outstanding || (o.queue != [] && accepted)
    ensures accepted && !o.outstanding && o.queue != [] ==> r.wire == o.wire + [o.queue[0]] && r.queue == o.queue[1..]
    ensures accepted ==> r.wire + r.queue == o.wire + o.queue
    ensures !accepted && !o.outstanding && o.queue != [] ==> r.wire == o.wire && r.queue == o.queue[1..]
    ensures |o.wire| <= |r.wire| <= |o.wire| + 1
  {
    if o.outstanding || o.queue == [] then o
    else if accepted then Outbox(o.queue[1..], true, o.wire + [o.queue[0]])
    else o.(queue := o.queue[1..])
  }

  /** A write (or notification) completion: success clears the flag and drains
      the next frame; failure leaves everything as it is, flag included. */
  function Complete(o: Outbox, status: int, accepted: bool): (r: Outbox)
    ensures status != GattSuccess ==> r == o
    ensures status == GattSuccess && o.queue == [] ==> r == o.(outstanding := false)
    ensures status == GattSuccess && o.queue != [] ==>
              && r.outstanding == accepted
              && r.queue == o.queue[1..]
              && r.wire == o.wire + (if accepted then [o.queue[0]] else [])
  {
    if status != GattSuccess then o else Drain(o.(outstanding := false), accepted)
  }

  /** Drain discipline: after a failed completion nothing drains any more. */
  lemma FailedCompletionStalls(o: Outbox, status: int, a1: bool, a2: bool)
    requires o.outstanding && status != GattSuccess
    ensures Drain(Complete(o, status, a1), a2) == o
  {
  }

  /** The sender run to quiescence: every completion succeeds and every write is accepted. */
  function Settle(o: Outbox): Outbox
    decreases |o.queue|
  {
    if o.queue == [] then o else Settle(Complete(o, GattSuccess, true))
  }

  /** When every write is accepted and completes, the queued frames reach the
      wire exactly and in order, one outstanding write at a time. */
  lemma {:induction false} SettleSendsQueue(o: Outbox)
    ensures Settle(o).wire == o.wire + o.queue
    ensures Settle(o).queue == []
    decreases |o.queue|
  {
    if o.queue != [] {
      var next := Complete(o, GattSuccess, true);
      assert next.wire == o.wire + [o.queue[0]] && next.queue == o.queue[1..];
      SettleSendsQueue(next);
      assert o.wire + [o.queue[0]] + o.queue[1..] == o.wire + o.queue;
    }
  }

  /** End to end: messages queued behind whatever is already queued or
      outstanding reach the peer's reassembler, which delivers exactly them
      once the frames queued before them have been received. */
  lemma SendAndReceive(o: Outbox, messages: seq<seq<Byte>>, negotiatedMtu: int)
    requires negotiatedMtu == 0 || negotiatedMtu >= 5
    ensures var k := MaxChunkSize(negotiatedMtu);
            var sent := Settle(Drain(o.(queue := o.queue + FramesOf(messages, k)), true));
            && sent.queue == []
            && sent.wire == o.wire + o.queue + FramesOf(messages, k)
            && ReceiveAll([], sent.wire[|o.wire| + |o.queue|..]) == Inbox([], messages)
  {
    var k := MaxChunkSize(negotiatedMtu);
    var frames := FramesOf(messages, k);
    var drained := Drain(o.(queue := o.queue + frames), true);
    assert drained.wire + drained.queue == o.wire + (o.queue + frames);
    SettleSendsQueue(drained);
    var sent := Settle(drained);
    assert sent.wire == (o.wire + o.queue) + frames;
    assert sent.wire[|o.wire + o.queue|..] == frames;
    RoundTrip(messages, k);
  }

  /** The worked example: a 40-byte message at MTU 23 goes out as 20, 20 and 3
      byte frames headed 0x01, 0x01, 0x00. */
  lemma FortyBytesAtMtu23(data: seq<Byte>)
    requires |data| == 40
    ensures var fs := Frames(data, MaxChunkSize(23));
            && fs == [[MoreFrames] + data[..19], [MoreFrames] + data[19..38], [LastFrame] + data[38..]]
            && |fs[0]| == 20 && |fs[1]| == 20 && |fs[2]| == 3
  {
    var k := MaxChunkSize(23);
    assert k == 19;
    assert data[19..][..19] == data[19..38];
    assert data[19..][19..] == data[38..];
    assert Frames(data[38..], k) == [[LastFrame] + data[38..]];
    assert Frames(data[19..], k) == [[MoreFrames] + data[19..38]] + Frames(data[38..], k);
    assert Frames(data, k) == [[MoreFrames] + data[..19]] + Frames(data[19..], k);
  }
}
