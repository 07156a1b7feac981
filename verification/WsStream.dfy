/** The receiving side of a websocket connection: frames and fragmented messages
    (sections 5.2 to 5.5 of RFC 6455), decoded in the receive buffer itself. */
module WsStream {
  import opened Bytes
  import opened Wrappers
  import opened WsFrame

  const FIN: nat := 128
  const OP_CONTINUE: nat := 0
  const OP_TEXT: nat := 1
  const OP_BINARY: nat := 2
  const OP_CLOSE: nat := 8
  const OP_PING: nat := 9
  const OP_PONG: nat := 10

  /** What the connection's user observes. */
  datatype Event =
    | Message(flags: byte, data: seq<byte>)  // MG_EV_WS_MSG
    | Control(flags: byte, data: seq<byte>)  // MG_EV_WS_CTL
    | Pong(data: seq<byte>)                  // a pong frame is queued for sending
    | UnknownOp(op: nat)                     // MG_EV_ERROR
    | Orphan(length: nat)                    // a message ends that never began: its length wraps around

  /** The events a frame causes by itself, before fragments are joined. */
  function FrameEvents(flags: byte, data: seq<byte>): seq<Event> {
    var op := flags % 16;
    if op == OP_CONTINUE || op == OP_PONG || op == OP_CLOSE then [Control(flags, data)]
    else if op == OP_PING then [Pong(data), Control(flags, data)]
    else if op == OP_TEXT || op == OP_BINARY then (if flags >= FIN then [Message(flags, data)] else [])
    else [UnknownOp(op)]
  }

  /** `held` is the part of the buffer before `ofs`: the flags byte and the payload so far of an
      unfinished message. The result is the events of one frame and the new held part. */
  function Absorb(held: seq<byte>, flags: byte, data: seq<byte>): (seq<Event>, seq<byte>) {
    var events := FrameEvents(flags, data);
    if flags % 16 != 0 then
      (events, if flags >= FIN then held else held + [flags] + data)
    else if flags < FIN then (events, held + data)
    else
      var whole := held + data;
      (events + [if whole == [] then Orphan(SIZE_LIMIT - 1) else Message(whole[0], whole[1..])], [])
  }

  /** What each kind of frame causes, by opcode and final bit: a text or binary frame is a message, or the first
      fragment of one; a continuation joins it, and the last one delivers it with the flags of the first. */
  lemma AbsorbMeaning(held: seq<byte>, flags: byte, data: seq<byte>)
    ensures var op, last, (events, held') := flags % 16, flags >= 128, Absorb(held, flags, data);
            && (op in {1, 2} && last ==> events == [Message(flags, data)])
            && (op in {1, 2} && !last ==> events == [])
            && (op in {8, 10} ==> events == [Control(flags, data)])
            && (op == 9 ==> events == [Pong(data), Control(flags, data)])
            && (op in {3, 4, 5, 6, 7, 11, 12, 13, 14, 15} ==> events == [UnknownOp(op)])
            && (op == 0 && !last ==> events == [Control(flags, data)] && held' == held + data)
            && (op == 0 && last ==> |events| == 2 && events[0] == Control(flags, data) && held' == [])
            && (op == 0 && last && held != [] ==> events[1] == Message(held[0], held[1..] + data))
            && (op == 0 && last && held == [] ==>
                  events[1] == if data == [] then Orphan(0xffff_ffff_ffff_ffff) else Message(data[0], data[1..]))
            && (op != 0 ==> held' == if last then held else held + [flags] + data)
  {
    assert held == [] ==> held + data == data;
    assert held != [] ==> (held + data)[1..] == held[1..] + data;
  }

  /** The pong frames queued by the events, the k-th frame this side sends being masked with keys(k). */
  function PongFrames(events: seq<Event>, keys: nat -> Option<MaskKey>, k: nat): seq<byte> {
    if events == [] then []
    else if !events[0].Pong? then PongFrames(events[1..], keys, k)
    else PongFrame(events[0].data, keys(k)) + PongFrames(events[1..], keys, k + 1)
  }

  /** The answer to a ping; a size_t always counts the data. */
  function PongFrame(data: seq<byte>, key: Option<MaskKey>): seq<byte> {
    if |data| < SIZE_LIMIT then Encode(FIN + OP_PONG, data, key) else []
  }

  function PongCount(events: seq<Event>): nat {
    if events == [] then 0 else (if events[0].Pong? then 1 else 0) + PongCount(events[1..])
  }

  lemma {:induction false} PongsAppend(a: seq<Event>, b: seq<Event>, keys: nat -> Option<MaskKey>, k: nat)
    ensures PongFrames(a + b, keys, k) == PongFrames(a, keys, k) + PongFrames(b, keys, k + PongCount(a))
    ensures PongCount(a + b) == PongCount(a) + PongCount(b)
    decreases |a|
  {
    hide PongFrame;
    if a == [] {
      assert a + b == b;
    } else {
      assert (a + b)[0] == a[0] && (a + b)[1..] == a[1..] + b;
      var k' := if a[0].Pong? then k + 1 else k;
      PongsAppend(a[1..], b, keys, k');
      if a[0].Pong? {
        Associate(PongFrame(a[0].data, keys(k)), PongFrames(a[1..], keys, k'), PongFrames(b, keys, k' + PongCount(a[1..])));
      }
    }
  }

  datatype Decoded = Decoded(events: seq<Event>, held: seq<byte>, rest: seq<byte>)

  /** Consumes every complete frame at the front of `pending`. */
  function Decode(held: seq<byte>, pending: seq<byte>): Decoded
    decreases |pending|
  {
    var size := FrameSize(pending);
    if size == 0 then Decoded([], held, pending)
    else
      var (events, held') := Absorb(held, ReadHeader(pending).flags, Payload(pending));
      var later := Decode(held', pending[size..]);
      Decoded(events + later.events, later.held, later.rest)
  }

  /** Decoding a first part and then the rest together with what was left over is decoding it all at once. */
  lemma {:induction false} DecodeAppend(held: seq<byte>, a: seq<byte>, b: seq<byte>)
    ensures var first := Decode(held, a);
            var second := Decode(first.held, first.rest + b);
            Decode(held, a + b) == Decoded(first.events + second.events, second.held, second.rest)
    decreases |a|
  {
    var size := FrameSize(a);
    hide FrameSize, ReadHeader, Payload, Absorb;
    if size > 0 {
      CompleteFrameIsStable(a, b);
      assert (a + b)[size..] == a[size..] + b;
      var (events, held') := Absorb(held, ReadHeader(a).flags, Payload(a));
      DecodeAppend(held', a[size..], b);
      var first := Decode(held', a[size..]);
      var second := Decode(first.held, first.rest + b);
      Associate(events, first.events, second.events);
    }
  }

  /** The bytes arriving chunk by chunk, each arrival decoded at once. */
  function DecodeChunks(held: seq<byte>, rest: seq<byte>, chunks: seq<seq<byte>>): Decoded
    decreases |chunks|
  {
    if chunks == [] then Decoded([], held, rest)
    else
      var now := Decode(held, rest + chunks[0]);
      var later := DecodeChunks(now.held, now.rest, chunks[1..]);
      Decoded(now.events + later.events, later.held, later.rest)
  }

  lemma {:induction false} DecodeChunksIsDecode(held: seq<byte>, rest: seq<byte>, chunks: seq<seq<byte>>)
    requires FrameSize(rest) == 0
    ensures DecodeChunks(held, rest, chunks) == Decode(held, rest + Concat(chunks))
    decreases |chunks|
  {
    hide FrameSize, ReadHeader, Payload, Absorb;
    if chunks == [] {
      assert rest + Concat(chunks) == rest;
    } else {
      var now := Decode(held, rest + chunks[0]);
      RestIsIncomplete(held, rest + chunks[0]);
      DecodeChunksIsDecode(now.held, now.rest, chunks[1..]);
      DecodeAppend(held, rest + chunks[0], Concat(chunks[1..]));
      assert rest + Concat(chunks) == rest + chunks[0] + Concat(chunks[1..]);
    }
  }

  lemma {:induction false} RestIsIncomplete(held: seq<byte>, pending: seq<byte>)
    ensures FrameSize(Decode(held, pending).rest) == 0
    decreases |pending|
  {
    var size := FrameSize(pending);
    if size > 0 {
      var (_, held') := Absorb(held, ReadHeader(pending).flags, Payload(pending));
      RestIsIncomplete(held', pending[size..]);
    }
  }

  /** The observable events depend on the byte stream only, not on how it was cut into arrivals. */
  lemma ChunkingIsInvisible(chunks: seq<seq<byte>>, chunks': seq<seq<byte>>)
    requires Concat(chunks) == Concat(chunks')
    ensures DecodeChunks([], [], chunks) == DecodeChunks([], [], chunks')
  {
    DecodeChunksIsDecode([], [], chunks);
    DecodeChunksIsDecode([], [], chunks');
  }

  // ----- from frames to messages -----

  datatype WireFrame = WireFrame(flags: byte, payload: seq<byte>, key: Option<MaskKey>)

  type Sendable = f: WireFrame | |f.payload| <= MAX_DATA_LEN witness WireFrame(0, [], None)

  function Wire(frames: seq<Sendable>): seq<byte> {
    if frames == [] then []
    else Encode(frames[0].flags, frames[0].payload, frames[0].key) + Wire(frames[1..])
  }

  function AbsorbAll(held: seq<byte>, frames: seq<Sendable>): (seq<Event>, seq<byte>)
    decreases |frames|
  {
    if frames == [] then ([], held)
    else
      var (now, held') := Absorb(held, frames[0].flags, frames[0].payload);
      var (later, held'') := AbsorbAll(held', frames[1..]);
      (now + later, held'')
  }

  /** Decoding the wire form of frames absorbs exactly those frames and then goes on behind them. */
  lemma {:induction false} DecodeWire(held: seq<byte>, frames: seq<Sendable>, rest: seq<byte>)
    ensures var (events, held') := AbsorbAll(held, frames);
            var later := Decode(held', rest);
            Decode(held, Wire(frames) + rest) == Decoded(events + later.events, later.held, later.rest)
    decreases |frames|
  {
    hide FrameSize, ReadHeader, Payload, Absorb, Encode;
    if frames == [] {
      assert Wire(frames) + rest == rest;
    } else {
      var f := frames[0];
      var tail := Wire(frames[1..]) + rest;
      var s := Encode(f.flags, f.payload, f.key) + tail;
      assert Wire(frames) + rest == s;
      FrameRoundTrip(f.flags, f.payload, f.key, tail);
      EncodeNotEmpty(f.flags, f.payload, f.key);
      var (now, held') := Absorb(held, f.flags, f.payload);
      DecodeWire(held', frames[1..], rest);
      var (events, held'') := AbsorbAll(held', frames[1..]);
      Associate(now, events, Decode(held'', rest).events);
    }
  }

  lemma EncodeNotEmpty(flags: byte, payload: seq<byte>, key: Option<MaskKey>)
    requires |payload| < SIZE_LIMIT
    ensures |Encode(flags, payload, key)| > 0
  {
  }

  lemma {:induction false} AbsorbAppend(held: seq<byte>, a: seq<Sendable>, b: seq<Sendable>)
    ensures var (first, held') := AbsorbAll(held, a);
            var (second, held'') := AbsorbAll(held', b);
            AbsorbAll(held, a + b) == (first + second, held'')
    decreases |a|
  {
    hide Absorb;
    if a == [] {
      assert a + b == b;
      var (second, _) := AbsorbAll(held, b);
      assert [] + second == second;
    } else {
      assert (a + b)[1..] == a[1..] + b;
      var (now, held') := Absorb(held, a[0].flags, a[0].payload);
      AbsorbAppend(held', a[1..], b);
      var (first, middle) := AbsorbAll(held', a[1..]);
      var (second, _) := AbsorbAll(middle, b);
      Associate(now, first, second);
    }
  }

  /** A close, ping or pong frame, allowed between the fragments of a message. */
  datatype ControlFrame = ControlFrame(op: nat, payload: seq<byte>, key: Option<MaskKey>)

  type Ctl = c: ControlFrame | c.op in {OP_CLOSE, OP_PING, OP_PONG} && |c.payload| <= MAX_DATA_LEN
    witness ControlFrame(OP_PING, [], None)

  /** One fragment of a message and the control frames sent before the next one. */
  datatype Fragment = Fragment(payload: seq<byte>, key: Option<MaskKey>, controls: seq<Ctl>)

  type Part = p: Fragment | |p.payload| <= MAX_DATA_LEN witness Fragment([], None, [])

  datatype Sent = Sent(op: nat, parts: seq<Part>)

  type WholeMessage = m: Sent | m.op in {OP_TEXT, OP_BINARY} && m.parts != []
    witness Sent(OP_TEXT, [Fragment([], None, [])])

  function ControlFrames(controls: seq<Ctl>): seq<Sendable> {
    if controls == [] then []
    else [WireFrame(FIN + controls[0].op, controls[0].payload, controls[0].key)] + ControlFrames(controls[1..])
  }

  /** Section 5.4 of RFC 6455: the opcode is on the first frame, the FIN bit on the last. */
  function FragmentFrames(op: nat, parts: seq<Part>): seq<Sendable>
    requires op < 16
    decreases |parts|
  {
    if parts == [] then []
    else
      [WireFrame(op + (if |parts| == 1 then FIN else 0), parts[0].payload, parts[0].key)]
      + ControlFrames(parts[0].controls) + FragmentFrames(OP_CONTINUE, parts[1..])
  }

  function MessageFrames(messages: seq<WholeMessage>): seq<Sendable> {
    if messages == [] then []
    else FragmentFrames(messages[0].op, messages[0].parts) + MessageFrames(messages[1..])
  }

  function Content(parts: seq<Part>): seq<byte> {
    if parts == [] then [] else parts[0].payload + Content(parts[1..])
  }

  /** The messages among the events, each as opcode and payload. */
  function Messages(events: seq<Event>): seq<(nat, seq<byte>)> {
    if events == [] then []
    else (if events[0].Message? then [(events[0].flags % 16, events[0].data)] else []) + Messages(events[1..])
  }

  function Expected(messages: seq<WholeMessage>): seq<(nat, seq<byte>)> {
    if messages == [] then []
    else [(messages[0].op, Content(messages[0].parts))] + Expected(messages[1..])
  }

  lemma {:induction false} MessagesAppend(a: seq<Event>, b: seq<Event>)
    ensures Messages(a + b) == Messages(a) + Messages(b)
  {
    if a == [] {
      assert a + b == b;
    } else {
      assert (a + b)[0] == a[0] && (a + b)[1..] == a[1..] + b;
      MessagesAppend(a[1..], b);
      var head := if a[0].Message? then [(a[0].flags % 16, a[0].data)] else [];
      Associate(head, Messages(a[1..]), Messages(b));
    }
  }

  lemma AbsorbControl(held: seq<byte>, c: Ctl)
    ensures var (events, held') := Absorb(held, FIN + c.op, c.payload);
            held' == held && Messages(events) == []
  {
    var ctl := Control(FIN + c.op, c.payload);
    var (events, _) := Absorb(held, FIN + c.op, c.payload);
    assert [ctl][1..] == [] && Messages([ctl]) == [];
    if c.op == OP_PING {
      assert events == [Pong(c.payload), ctl] && events[1..] == [ctl];
    } else {
      assert events == [ctl];
    }
  }

  lemma AbsorbWhole(op: nat, data: seq<byte>)
    requires op in {OP_TEXT, OP_BINARY}
    ensures var (events, held) := Absorb([], op + FIN, data);
            held == [] && Messages(events) == [(op, data)]
  {
  }

  lemma AbsorbFirst(op: nat, data: seq<byte>)
    requires op in {OP_TEXT, OP_BINARY}
    ensures var (events, held) := Absorb([], op, data);
            held == [op] + data && Messages(events) == []
  {
  }

  lemma AbsorbMiddle(held: seq<byte>, data: seq<byte>)
    ensures var (events, held') := Absorb(held, OP_CONTINUE, data);
            held' == held + data && Messages(events) == []
  {
  }

  lemma AbsorbLast(held: seq<byte>, data: seq<byte>)
    requires held != []
    ensures var (events, held') := Absorb(held, OP_CONTINUE + FIN, data);
            held' == [] && Messages(events) == [(held[0] % 16, held[1..] + data)]
  {
    var whole := held + data;
    assert whole[1..] == held[1..] + data;
    var m := Message(whole[0], whole[1..]);
    var (events, _) := Absorb(held, OP_CONTINUE + FIN, data);
    assert [m][1..] == [] && Messages([m]) == [(held[0] % 16, held[1..] + data)];
    assert events == [Control(FIN, data), m] && events[1..] == [m];
  }

  lemma {:induction false} ControlsChangeNothing(held: seq<byte>, controls: seq<Ctl>)
    ensures var (events, held') := AbsorbAll(held, ControlFrames(controls));
            held' == held && Messages(events) == []
  {
    hide Absorb;
    if controls != [] {
      var frames := ControlFrames(controls);
      assert frames[1..] == ControlFrames(controls[1..]);
      AbsorbControl(held, controls[0]);
      ControlsChangeNothing(held, controls[1..]);
      var (now, _) := Absorb(held, frames[0].flags, frames[0].payload);
      var (later, _) := AbsorbAll(held, ControlFrames(controls[1..]));
      MessagesAppend(now, later);
    }
  }

  /** A frame, the control frames behind it, and whatever follows. */
  lemma FrontFragment(held: seq<byte>, f: Sendable, controls: seq<Ctl>, later: seq<Sendable>)
    ensures var (now, held') := Absorb(held, f.flags, f.payload);
            var (rest, held'') := AbsorbAll(held', later);
            var (events, end) := AbsorbAll(held, [f] + ControlFrames(controls) + later);
            end == held'' && Messages(events) == Messages(now) + Messages(rest)
  {
    hide Absorb;
    var (now, held') := Absorb(held, f.flags, f.payload);
    var (ctl, _) := AbsorbAll(held', ControlFrames(controls));
    var (rest, _) := AbsorbAll(held', later);
    var frames := [f] + ControlFrames(controls) + later;
    assert frames[1..] == ControlFrames(controls) + later;
    AbsorbAppend(held', ControlFrames(controls), later);
    ControlsChangeNothing(held', controls);
    MessagesAppend(now, ctl + rest);
    MessagesAppend(ctl, rest);
  }

  /** Once a message has begun, its remaining fragments complete it. */
  lemma {:induction false} RemainingFragmentsComplete(held: seq<byte>, parts: seq<Part>)
    requires held != [] && parts != []
    ensures var (events, held') := AbsorbAll(held, FragmentFrames(OP_CONTINUE, parts));
            held' == [] && Messages(events) == [(held[0] % 16, held[1..] + Content(parts))]
    decreases |parts|
  {
    if |parts| == 1 {
      LastFragmentCompletes(held, parts);
    } else {
      var p := parts[0];
      RemainingFragmentsComplete(held + p.payload, parts[1..]);
      MiddleFragmentJoins(held, parts);
      assert Content(parts) == p.payload + Content(parts[1..]);
      hide *;
      assert (held + p.payload)[1..] + Content(parts[1..]) == held[1..] + (p.payload + Content(parts[1..]));
    }
  }

  lemma LastFragmentCompletes(held: seq<byte>, parts: seq<Part>)
    requires held != [] && |parts| == 1
    ensures var (events, held') := AbsorbAll(held, FragmentFrames(OP_CONTINUE, parts));
            held' == [] && Messages(events) == [(held[0] % 16, held[1..] + Content(parts))]
  {
    var p := parts[0];
    assert parts[1..] == [] && Content(parts) == p.payload + [] == p.payload;
    FrontFragment(held, WireFrame(FIN, p.payload, p.key), p.controls, []);
    AbsorbLast(held, p.payload);
    hide Absorb, ControlFrames;
    assert Messages([]) == [];
  }

  lemma MiddleFragmentJoins(held: seq<byte>, parts: seq<Part>)
    requires held != [] && |parts| > 1
    ensures var (rest, held') := AbsorbAll(held + parts[0].payload, FragmentFrames(OP_CONTINUE, parts[1..]));
            var (events, end) := AbsorbAll(held, FragmentFrames(OP_CONTINUE, parts));
            end == held' && Messages(events) == Messages(rest)
  {
    var p := parts[0];
    FrontFragment(held, WireFrame(0, p.payload, p.key), p.controls, FragmentFrames(OP_CONTINUE, parts[1..]));
    AbsorbMiddle(held, p.payload);
    hide Absorb, ControlFrames, AbsorbAll, Messages;
    var (rest, _) := AbsorbAll(held + p.payload, FragmentFrames(OP_CONTINUE, parts[1..]));
    assert [] + Messages(rest) == Messages(rest);
  }

  lemma WholeFrameArrives(op: nat, p: Part)
    requires op in {OP_TEXT, OP_BINARY}
    ensures var (events, held) := AbsorbAll([], FragmentFrames(op, [p]));
            held == [] && Messages(events) == [(op, Content([p]))]
  {
    AbsorbWhole(op, p.payload);
    assert FragmentFrames(OP_CONTINUE, [p][1..]) == [] && Content([p]) == p.payload;
    hide Absorb;
    FrontFragment([], WireFrame(op + FIN, p.payload, p.key), p.controls, []);
  }

  lemma FragmentedMessageArrives(op: nat, parts: seq<Part>)
    requires op in {OP_TEXT, OP_BINARY} && |parts| > 1
    ensures var (events, held) := AbsorbAll([], FragmentFrames(op, parts));
            held == [] && Messages(events) == [(op, Content(parts))]
  {
    var p := parts[0];
    AbsorbFirst(op, p.payload);
    hide Absorb, AbsorbAll, Messages;
    FrontFragment([], WireFrame(op, p.payload, p.key), p.controls, FragmentFrames(OP_CONTINUE, parts[1..]));
    var held := [op] + p.payload;
    RemainingFragmentsComplete(held, parts[1..]);
    assert held[1..] == p.payload;
  }

  lemma MessageArrives(m: WholeMessage)
    ensures var (events, held) := AbsorbAll([], FragmentFrames(m.op, m.parts));
            held == [] && Messages(events) == [(m.op, Content(m.parts))]
  {
    if |m.parts| == 1 {
      assert m.parts == [m.parts[0]];
      WholeFrameArrives(m.op, m.parts[0]);
    } else {
      FragmentedMessageArrives(m.op, m.parts);
    }
  }

  lemma {:induction false} MessagesArrive(messages: seq<WholeMessage>)
    ensures var (events, held) := AbsorbAll([], MessageFrames(messages));
            held == [] && Messages(events) == Expected(messages)
  {
    hide Absorb;
    if messages != [] {
      var first := FragmentFrames(messages[0].op, messages[0].parts);
      MessageArrives(messages[0]);
      MessagesArrive(messages[1..]);
      AbsorbAppend([], first, MessageFrames(messages[1..]));
      var (now, _) := AbsorbAll([], first);
      var (later, _) := AbsorbAll([], MessageFrames(messages[1..]));
      MessagesAppend(now, later);
    }
  }

  /** Whole path: any messages, fragmented and masked in any way, with control frames anywhere in between,
      delivered in any chunks, are handed over exactly and in order, and nothing is left in the buffer. */
  lemma StreamDeliversMessages(messages: seq<WholeMessage>, lead: seq<Ctl>, chunks: seq<seq<byte>>)
    requires Concat(chunks) == Wire(ControlFrames(lead) + MessageFrames(messages))
    ensures var d := DecodeChunks([], [], chunks);
            Messages(d.events) == Expected(messages) && d.held == [] && d.rest == []
  {
    assert FrameSize([]) == 0 && Decode([], []) == Decoded([], [], []);
    hide *;
    var frames := ControlFrames(lead) + MessageFrames(messages);
    DecodeChunksIsDecode([], [], chunks);
    assert [] + Concat(chunks) == Concat(chunks) && Wire(frames) + [] == Wire(frames);
    DecodeWire([], frames, []);
    ControlsChangeNothing([], lead);
    MessagesArrive(messages);
    AbsorbAppend([], ControlFrames(lead), MessageFrames(messages));
    var (a, _) := AbsorbAll([], ControlFrames(lead));
    var (b, _) := AbsorbAll([], MessageFrames(messages));
    MessagesAppend(a, b);
    assert a + b + [] == a + b && [] + Expected(messages) == Expected(messages);
  }

  // ----- every frame is reported -----

  /** The frames among the events that are handed over as control frames. */
  function Controls(events: seq<Event>): seq<(nat, seq<byte>)> {
    if events == [] then []
    else (if events[0].Control? then [(events[0].flags, events[0].data)] else []) + Controls(events[1..])
  }

  /** The payloads that are answered with a pong. */
  function Answered(events: seq<Event>): seq<seq<byte>> {
    if events == [] then [] else (if events[0].Pong? then [events[0].data] else []) + Answered(events[1..])
  }

  /** The frames with opcode 0 (continuation), 8 (close), 9 (ping) or 10 (pong). */
  function ControlsSent(frames: seq<Sendable>): seq<(nat, seq<byte>)> {
    if frames == [] then []
    else (if frames[0].flags % 16 in {0, 8, 9, 10} then [(frames[0].flags, frames[0].payload)] else [])
         + ControlsSent(frames[1..])
  }

  /** The payloads of the frames with opcode 9. */
  function PingsSent(frames: seq<Sendable>): seq<seq<byte>> {
    if frames == [] then []
    else (if frames[0].flags % 16 == 9 then [frames[0].payload] else []) + PingsSent(frames[1..])
  }

  lemma ReportsAppend(a: seq<Event>, b: seq<Event>)
    ensures Controls(a + b) == Controls(a) + Controls(b) && Answered(a + b) == Answered(a) + Answered(b)
  {
    ControlsAppend(a, b);
    AnsweredAppend(a, b);
  }

  lemma {:induction false} ControlsAppend(a: seq<Event>, b: seq<Event>)
    ensures Controls(a + b) == Controls(a) + Controls(b)
    decreases |a|
  {
    if a == [] {
      assert a + b == b;
    } else {
      var first := if a[0].Control? then [(a[0].flags, a[0].data)] else [];
      assert (a + b)[0] == a[0] && (a + b)[1..] == a[1..] + b;
      assert Controls(a) == first + Controls(a[1..]) && Controls(a + b) == first + Controls(a[1..] + b);
      hide *;
      ControlsAppend(a[1..], b);
      Associate(first, Controls(a[1..]), Controls(b));
    }
  }

  lemma {:induction false} AnsweredAppend(a: seq<Event>, b: seq<Event>)
    ensures Answered(a + b) == Answered(a) + Answered(b)
    decreases |a|
  {
    if a == [] {
      assert a + b == b;
    } else {
      var first := if a[0].Pong? then [a[0].data] else [];
      assert (a + b)[0] == a[0] && (a + b)[1..] == a[1..] + b;
      assert Answered(a) == first + Answered(a[1..]) && Answered(a + b) == first + Answered(a[1..] + b);
      hide *;
      AnsweredAppend(a[1..], b);
      Associate(first, Answered(a[1..]), Answered(b));
    }
  }

  lemma AbsorbReports(held: seq<byte>, flags: byte, data: seq<byte>)
    ensures var events := Absorb(held, flags, data).0;
            && Controls(events) == (if flags % 16 in {0, 8, 9, 10} then [(flags, data)] else [])
            && Answered(events) == if flags % 16 == 9 then [data] else []
  {
    var own := FrameEvents(flags, data);
    var more := Absorb(held, flags, data).0[|own|..];
    OneReported(Control(flags, data));
    OneReported(Pong(data));
    ReportsAppend([Pong(data)], [Control(flags, data)]);
    assert [Pong(data)] + [Control(flags, data)] == [Pong(data), Control(flags, data)];
    if own != [] {
      OneReported(own[0]);
      assert |own| == 1 ==> own == [own[0]];
    }
    assert Absorb(held, flags, data).0 == own + more && (more != [] ==> more == [more[0]]);
    if more != [] {
      OneReported(more[0]);
    }
    ReportsAppend(own, more);
  }

  lemma OneReported(e: Event)
    ensures Controls([e]) == (if e.Control? then [(e.flags, e.data)] else [])
    ensures Answered([e]) == if e.Pong? then [e.data] else []
  {
    assert [e][1..] == [];
  }

  lemma {:induction false} FramesReported(held: seq<byte>, frames: seq<Sendable>)
    ensures var events := AbsorbAll(held, frames).0;
            Controls(events) == ControlsSent(frames) && Answered(events) == PingsSent(frames)
    decreases |frames|
  {
    if frames != [] {
      var f := frames[0];
      AbsorbReports(held, f.flags, f.payload);
      hide Absorb;
      var (now, held') := Absorb(held, f.flags, f.payload);
      FramesReported(held', frames[1..]);
      ReportsAppend(now, AbsorbAll(held', frames[1..]).0);
    }
  }

  /** Any frames, in any chunks: exactly the continuation, close, ping and pong frames are reported as control frames,
      in order with flags and payload, and exactly the payloads of the pings are answered. */
  lemma StreamReportsControls(frames: seq<Sendable>, chunks: seq<seq<byte>>)
    requires Concat(chunks) == Wire(frames)
    ensures var d := DecodeChunks([], [], chunks);
            Controls(d.events) == ControlsSent(frames) && Answered(d.events) == PingsSent(frames) && d.rest == []
  {
    assert FrameSize([]) == 0;
    hide FrameSize, ReadHeader, Payload, Absorb, Encode;
    DecodeChunksIsDecode([], [], chunks);
    assert [] + Concat(chunks) == Concat(chunks) && Wire(frames) + [] == Wire(frames);
    DecodeWire([], frames, []);
    FramesReported([], frames);
    var (events, held) := AbsorbAll([], frames);
    NothingLeft(held);
    assert events + [] == events;
  }

  lemma NothingLeft(held: seq<byte>)
    ensures Decode(held, []) == Decoded([], held, [])
  {
  }

  /** The frames a receiver sees of the queued pongs: one final frame with opcode 10 for each ping, with its payload. */
  function PongsSeen(events: seq<Event>, keys: nat -> Option<MaskKey>, k: nat): seq<WireFrame> {
    if events == [] then []
    else if !events[0].Pong? then PongsSeen(events[1..], keys, k)
    else [WireFrame(0x8a, events[0].data, keys(k))] + PongsSeen(events[1..], keys, k + 1)
  }

  predicate PingsFit(events: seq<Event>) {
    forall i :: 0 <= i < |events| && events[i].Pong? ==> |events[i].data| <= MAX_DATA_LEN
  }

  lemma {:induction false} PongsOnTheWire(events: seq<Event>, keys: nat -> Option<MaskKey>, k: nat)
    requires PingsFit(events)
    ensures var frames := PongsSeen(events, keys, k);
            (forall i :: 0 <= i < |frames| ==> |frames[i].payload| <= MAX_DATA_LEN) && PongFrames(events, keys, k) == Wire(frames)
    decreases |events|
  {
    if events != [] {
      assert forall i :: 0 <= i < |events[1..]| ==> events[1..][i] == events[i + 1];
      hide Encode;
      PongsOnTheWire(events[1..], keys, if events[0].Pong? then k + 1 else k);
    }
  }
}
