/** `mg_ws_cb`: the read callback of a websocket connection, working on the receive buffer in place. */
module WsConnection {
  import opened Bytes
  import opened IoBuffer
  import opened Wrappers
  import opened WsFrame
  import opened WsStream

  /** Deleting the middle of three pieces. */
  lemma CutOut(a: seq<byte>, b: seq<byte>, c: seq<byte>)
    ensures (a + b + c)[..|a|] + (a + b + c)[|a| + |b|..] == a + c
  {
  }

  lemma HeaderStartsWithFlags(s: seq<byte>)
    requires FrameSize(s) > 0
    ensures 2 <= ReadHeader(s).headerLen && ReadHeader(s).flags == s[0]
    ensures FrameSize(s) == ReadHeader(s).headerLen + |Payload(s)| && |Payload(s)| <= MAX_DATA_LEN
  {
  }

  /** A processed buffer seen as held part, frame and rest. */
  lemma FrameView(t: seq<byte>, ofs: nat, at: nat, data: seq<byte>, len: nat)
    requires ofs < at && at + |data| <= len <= |t|
    ensures var pending := t[..len][ofs..];
            Copied(t, at, data)[..len] == t[..len][..ofs] + ([t[ofs]] + pending[1..at - ofs])
                                          + (data + pending[at + |data| - ofs..])
  {
    var pending := t[..len][ofs..];
    SplitAt(t, ofs, at);
    SliceOf(t, ofs, len, 1, at - ofs);
    SliceOf(t, ofs, len, at + |data| - ofs, len - ofs);
    CopiedFront(t, at, data, len);
    hide Copied;
    assert t[..len][..ofs] == t[..ofs];
    assert pending[at + |data| - ofs..] == pending[at + |data| - ofs..len - ofs];
  }

  lemma SplitAt(t: seq<byte>, ofs: nat, at: nat)
    requires ofs < at <= |t|
    ensures t[..at] == t[..ofs] + ([t[ofs]] + t[ofs + 1..at])
  {
  }

  lemma SliceOf(t: seq<byte>, ofs: nat, len: nat, i: nat, j: nat)
    requires ofs <= len <= |t| && i <= j <= len - ofs
    ensures t[..len][ofs..][i..j] == t[ofs + i..ofs + j]
  {
    assert t[..len][ofs..] == t[ofs..ofs + (len - ofs)];
    SubSlice(t, ofs, len - ofs, i, j);
  }

  lemma CopiedFront(t: seq<byte>, at: nat, data: seq<byte>, len: nat)
    requires at + |data| <= len <= |t|
    ensures Copied(t, at, data)[..len] == t[..at] + (data + t[at + |data|..len])
  {
  }

  lemma PongsOfFrame(flags: byte, data: seq<byte>, keys: nat -> Option<MaskKey>, k: nat)
    requires |data| <= MAX_DATA_LEN
    ensures PongFrames(FrameEvents(flags, data), keys, k)
         == if flags % 16 == OP_PING then Encode(FIN + OP_PONG, data, keys(k)) else []
    ensures PongCount(FrameEvents(flags, data)) == if flags % 16 == OP_PING then 1 else 0
  {
    hide Encode;
    var control := [Control(flags, data)];
    assert control[1..] == [] && [Pong(data), Control(flags, data)][1..] == control;
    assert PongFrames([], keys, k + 1) == [] && PongCount([]) == 0;
    assert PongFrames(control, keys, k + 1) == [] && PongCount(control) == 0;
    if flags % 16 == OP_PING {
      assert FrameEvents(flags, data) == [Pong(data), Control(flags, data)];
      var pong := Encode(FIN + OP_PONG, data, keys(k));
      assert PongFrames(FrameEvents(flags, data), keys, k) == pong + [] == pong;
    } else {
      assert FrameEvents(flags, data) != [] ==> !FrameEvents(flags, data)[0].Pong? && FrameEvents(flags, data)[1..] == [];
    }
  }

  /** The message that a frame completes, if it is a final continuation. */
  function Completed(held: seq<byte>, flags: byte, data: seq<byte>): seq<Event> {
    if flags % 16 != 0 || flags < FIN then []
    else
      var whole := held + data;
      [if whole == [] then Orphan(SIZE_LIMIT - 1) else Message(whole[0], whole[1..])]
  }

  lemma PongsOfAbsorb(held: seq<byte>, flags: byte, data: seq<byte>, keys: nat -> Option<MaskKey>, k: nat)
    ensures var events := Absorb(held, flags, data).0;
            && events == FrameEvents(flags, data) + Completed(held, flags, data)
            && PongFrames(events, keys, k) == PongFrames(FrameEvents(flags, data), keys, k)
            && PongCount(events) == PongCount(FrameEvents(flags, data))
  {
    var own, more := FrameEvents(flags, data), Completed(held, flags, data);
    hide FrameEvents;
    assert own + [] == own;
    PongsAppend(own, more, keys, k);
    assert more != [] ==> more[1..] == [];
  }

  /** Some event is a frame with opcode 8 (close) or one with an unknown opcode. */
  predicate Ended(events: seq<Event>) {
    exists i :: 0 <= i < |events| && ((events[i].Control? && events[i].flags % 16 == 8) || events[i].UnknownOp?)
  }

  lemma EndedAppend(a: seq<Event>, b: seq<Event>)
    ensures Ended(a + b) <==> Ended(a) || Ended(b)
  {
    var c := a + b;
    assert forall i :: 0 <= i < |a| ==> c[i] == a[i];
    if Ended(b) {
      var i :| 0 <= i < |b| && ((b[i].Control? && b[i].flags % 16 == 8) || b[i].UnknownOp?);
      assert c[|a| + i] == b[i];
    }
  }

  lemma FrameEnds(held: seq<byte>, flags: byte, data: seq<byte>)
    ensures Ended(Absorb(held, flags, data).0) <==> ClosesOn(flags)
  {
    var own, more := FrameEvents(flags, data), Completed(held, flags, data);
    EndedAppend(own, more);
    assert own + [] == own;
    assert !Ended(more);
    if ClosesOn(flags) {
      assert (own[0].Control? && own[0].flags % 16 == 8) || own[0].UnknownOp?;
    }
  }

  /** An empty close frame is the two bytes 88 00, and it ends the connection. */
  lemma CloseFrameEnds()
    ensures var d := Decode([], [0x88, 0x00]);
            d == Decoded([Control(0x88, [])], [], []) && Ended(d.events)
  {
    var s := [0x88, 0x00];
    assert FrameSize(s) == 2 && Payload(s) == [] && s[2..] == [];
    assert Absorb([], 0x88, []) == ([Control(0x88, [])], []);
    assert Decode([], s[2..]) == Decoded([], [], []);
    assert Ended([Control(0x88, [])]) by {
      assert [Control(0x88, [])][0].Control?;
    }
  }

  predicate ClosesOn(flags: byte) {
    flags % 16 !in {OP_CONTINUE, OP_TEXT, OP_BINARY, OP_PING, OP_PONG}
  }

  class Connection {
    const recv: IoBuf
    const send: IoBuf
    /** The random key of each frame this side sends, none on the server's side. */
    const keys: nat -> Option<MaskKey>
    var ofs: nat          // kept in pfn_data between calls
    var frames: nat       // sent so far
    var events: seq<Event>
    var isClosing: bool

    ghost predicate Valid()
      reads this, recv, send
    {
      recv.Valid() && ofs <= recv.len && send.Valid() && recv != send && recv.buf != send.buf
    }

    ghost function Held(): seq<byte>
      reads this, recv, recv.buf
      requires recv.Valid() && ofs <= recv.len
    {
      recv.Contents()[..ofs]
    }

    ghost function Pending(): seq<byte>
      reads this, recv, recv.buf
      requires recv.Valid() && ofs <= recv.len
    {
      recv.Contents()[ofs..]
    }

    constructor (keys: nat -> Option<MaskKey>)
      ensures Valid() && fresh(recv) && fresh(recv.buf) && fresh(send) && fresh(send.buf)
      ensures Held() == [] && Pending() == [] && send.Contents() == [] && events == [] && !isClosing
      ensures this.keys == keys && frames == 0
    {
      recv := new IoBuf();
      send := new IoBuf();
      ofs, frames, events, isClosing := 0, 0, [], false;
      this.keys := keys;
    }

    /** Deletes from the buffer while keeping what is before `at`, given what is there. */
    method Strip(at: nat, count: nat, ghost a: seq<byte>, ghost b: seq<byte>, ghost c: seq<byte>)
      requires recv.Valid() && recv.Contents() == a + b + c && |a| == at && |b| == count
      modifies recv`len, recv.buf
      ensures recv.Valid() && recv.Contents() == a + c
    {
      CutOut(a, b, c);
      recv.Del(at, count);
    }

    /** The events of a frame by its opcode; a ping is answered at once. */
    method Dispatch(flags: byte, data: seq<byte>)
      requires send.Valid() && |data| <= MAX_DATA_LEN
      modifies this`events, this`isClosing, this`frames, send, send.buf
      ensures events == old(events) + FrameEvents(flags, data)
      ensures isClosing == (old(isClosing) || ClosesOn(flags))
      ensures send.Valid() && (send.buf == old(send.buf) || fresh(send.buf))
      ensures send.Contents() == old(send.Contents()) + PongFrames(FrameEvents(flags, data), keys, old(frames))
      ensures frames == old(frames) + PongCount(FrameEvents(flags, data))
    {
      PongsOfFrame(flags, data, keys, frames);
      hide PongFrames, PongCount;
      var op := flags % 16;
      if op == OP_CONTINUE {
        events := events + [Control(flags, data)];
      } else if op == OP_PING {
        var sent := Send(send, data, OP_PONG, keys(frames));
        frames := frames + 1;
        events := events + [Pong(data), Control(flags, data)];
      } else if op == OP_PONG {
        events := events + [Control(flags, data)];
      } else if op == OP_TEXT || op == OP_BINARY {
        if flags >= FIN {
          events := events + [Message(flags, data)];
        }
      } else if op == OP_CLOSE {
        events := events + [Control(flags, data)];
        isClosing := true;
      } else {
        events := events + [UnknownOp(op)];
        isClosing := true;
      }
    }

    /** Joins a fragment to the held part: its header goes, but a first frame leaves its flags byte. */
    method JoinFragment(msg: WsMsg, ghost held: seq<byte>, ghost head: seq<byte>, ghost data: seq<byte>, ghost rest: seq<byte>)
      requires Valid() && ofs == |held| && recv.Contents() == held + ([msg.flags] + head) + (data + rest)
      requires msg.headerLen == 1 + |head| && msg.dataLen == |data|
      modifies this`ofs, recv`len, recv.buf
      ensures Valid() && Pending() == rest
      ensures Held() == if msg.flags % 16 != 0 then held + [msg.flags] + data else held + data
    {
      var len, headerLen := msg.headerLen + msg.dataLen, msg.headerLen;
      if msg.flags % 16 != 0 {
        ofs, len, headerLen := ofs + 1, len - 1, headerLen - 1;
        assert recv.Contents() == (held + [msg.flags]) + head + (data + rest);
        Strip(ofs, headerLen, held + [msg.flags], head, data + rest);
        assert recv.Contents() == (held + [msg.flags] + data) + rest;
      } else {
        Strip(ofs, headerLen, held, [msg.flags] + head, data + rest);
        assert recv.Contents() == (held + data) + rest;
      }
      len := len - headerLen;
      ofs := ofs + len;
    }

    /** The last fragment has been joined: everything before `ofs` is one message. */
    method FinishMessage(ghost whole: seq<byte>, ghost rest: seq<byte>)
      requires Valid() && Held() == whole && Pending() == rest
      modifies this`ofs, this`events, recv`len, recv.buf
      ensures Valid() && Held() == [] && Pending() == rest
      ensures events == old(events) + [if whole == [] then Orphan(SIZE_LIMIT - 1) else Message(whole[0], whole[1..])]
    {
      assert recv.Contents() == [] + whole + rest;
      if ofs == 0 {
        events := events + [Orphan((ofs + SIZE_LIMIT - 1) % SIZE_LIMIT)];
      } else {
        assert recv.buf[0] == whole[0] && recv.buf[1..ofs] == whole[1..];
        events := events + [Message(recv.buf[0], recv.buf[1..ofs])];
      }
      Strip(0, ofs, [], whole, rest);
      ofs := 0;
    }

    /** One unmasked frame at `ofs` is reported, then its bytes are joined to the held part or removed. */
    method TakeFrame(msg: WsMsg, ghost held: seq<byte>, ghost head: seq<byte>, ghost data: seq<byte>, ghost rest: seq<byte>)
      requires Valid() && ofs == |held| && recv.Contents() == held + ([msg.flags] + head) + (data + rest)
      requires msg.headerLen == 1 + |head| && msg.dataLen == |data| <= MAX_DATA_LEN
      modifies this`ofs, this`events, this`isClosing, this`frames, recv`len, recv.buf, send, send.buf
      ensures Valid() && (send.buf == old(send.buf) || fresh(send.buf))
      ensures Held() == Absorb(held, msg.flags, data).1 && Pending() == rest
      ensures events == old(events) + Absorb(held, msg.flags, data).0
      ensures send.Contents() == old(send.Contents()) + PongFrames(Absorb(held, msg.flags, data).0, keys, old(frames))
      ensures frames == old(frames) + PongCount(Absorb(held, msg.flags, data).0)
      ensures isClosing == (old(isClosing) || ClosesOn(msg.flags))
    {
      hide FrameEvents, PongFrames, PongCount, ClosesOn;
      var start := ofs + msg.headerLen;
      FrameData(held, [msg.flags] + head, data, rest);
      PongsOfAbsorb(held, msg.flags, data, keys, frames);
      Dispatch(msg.flags, recv.buf[start..start + msg.dataLen]);
      MoveFrame(msg, held, head, data, rest);
    }

    /** What happens to the bytes of the frame, and the message they may complete. */
    method MoveFrame(msg: WsMsg, ghost held: seq<byte>, ghost head: seq<byte>, ghost data: seq<byte>, ghost rest: seq<byte>)
      requires Valid() && ofs == |held| && recv.Contents() == held + ([msg.flags] + head) + (data + rest)
      requires msg.headerLen == 1 + |head| && msg.dataLen == |data|
      modifies this`ofs, this`events, recv`len, recv.buf
      ensures Valid() && Held() == Absorb(held, msg.flags, data).1 && Pending() == rest
      ensures events == old(events) + Completed(held, msg.flags, data)
    {
      var op, final := msg.flags % 16, msg.flags >= FIN;
      if !final || op == 0 {
        JoinFragment(msg, held, head, data, rest);
      }
      if final && op != 0 {
        DropFrame(msg, held, head, data, rest);
      }
      if final && op == 0 {
        FinishMessage(held + data, rest);
      }
    }

    /** An unfragmented frame is removed from the buffer. */
    method DropFrame(msg: WsMsg, ghost held: seq<byte>, ghost head: seq<byte>, ghost data: seq<byte>, ghost rest: seq<byte>)
      requires Valid() && ofs == |held| && recv.Contents() == held + ([msg.flags] + head) + (data + rest)
      requires msg.headerLen == 1 + |head| && msg.dataLen == |data|
      modifies recv`len, recv.buf
      ensures Valid() && Held() == held && Pending() == rest
    {
      assert recv.Contents() == held + ([msg.flags] + head + data) + rest;
      Strip(ofs, msg.headerLen + msg.dataLen, held, [msg.flags] + head + data, rest);
    }

    lemma FrameData(held: seq<byte>, head: seq<byte>, data: seq<byte>, rest: seq<byte>)
      requires recv.Valid() && recv.Contents() == held + head + (data + rest)
      ensures recv.buf[|held| + |head|..|held| + |head| + |data|] == data
    {
    }

    /** Looks for a frame behind the held part; a complete one is unmasked in the buffer. */
    method NextFrame() returns (size: nat, msg: WsMsg)
      requires Valid()
      modifies recv.buf
      ensures Valid() && size == FrameSize(old(Pending())) && msg == ReadHeader(old(Pending()))
      ensures size == 0 ==> recv.Contents() == old(recv.Contents())
      ensures size > 0 ==>
                var pending := old(Pending());
                && 1 <= msg.headerLen <= size <= |pending| && msg.dataLen == |Payload(pending)| <= MAX_DATA_LEN
                && recv.Contents() == old(Held()) + ([msg.flags] + pending[1..msg.headerLen])
                                      + (Payload(pending) + pending[size..])
    {
      hide FrameSize, ReadHeader, Payload, Copied;
      ghost var t, pending := recv.buf[..], Pending();
      assert t[ofs..ofs + (recv.len - ofs)] == pending;
      size, msg := Process(recv.buf, ofs, recv.len - ofs);
      if size > 0 {
        HeaderStartsWithFlags(pending);
        FrameView(t, ofs, ofs + msg.headerLen, Payload(pending), recv.len);
      }
    }

    /** Everything complete in the buffer is decoded and answered; the buffer ends as the specification's state. */
    method OnRead()
      requires Valid()
      modifies this`ofs, this`events, this`isClosing, this`frames, recv`len, recv.buf, send, send.buf
      ensures Valid() && (send.buf == old(send.buf) || fresh(send.buf))
      ensures var d := Decode(old(Held()), old(Pending()));
              && Held() == d.held && Pending() == d.rest && events == old(events) + d.events
              && send.Contents() == old(send.Contents()) + PongFrames(d.events, keys, old(frames))
              && frames == old(frames) + PongCount(d.events)
      ensures isClosing <==> old(isClosing) || Ended(events[|old(events)|..])
    {
      hide FrameSize, ReadHeader, Payload, Absorb, PongFrames, PongCount, Decode, Ended, ClosesOn;
      ghost var goal := Decode(Held(), Pending());
      ghost var done: seq<Event> := [];
      NothingDone(keys, frames);
      NothingEnded();
      while true
        invariant Valid() && (send.buf == old(send.buf) || fresh(send.buf))
        invariant Reaches(goal, done, Held(), Pending())
        invariant events == old(events) + done
        invariant send.Contents() == old(send.Contents()) + PongFrames(done, keys, old(frames))
        invariant frames == old(frames) + PongCount(done)
        invariant isClosing <==> old(isClosing) || Ended(done)
        decreases |Pending()|
      {
        ghost var held, pending := Held(), Pending();
        DecodeNext(goal, done, held, pending);
        var size, msg := NextFrame();
        if size == 0 { break; }
        ghost var now := Absorb(held, msg.flags, Payload(pending)).0;
        PongsAppend(done, now, keys, old(frames));
        EndedAppend(done, now);
        FrameEnds(held, msg.flags, Payload(pending));
        TakeFrame(msg, held, pending[1..msg.headerLen], Payload(pending), pending[size..]);
        Associate(old(events), done, now);
        Associate(old(send.Contents()), PongFrames(done, keys, old(frames)), PongFrames(now, keys, old(frames) + PongCount(done)));
        done := done + now;
      }
      assert events[|old(events)|..] == done;
    }

    /** Bytes arrive from the socket and are decoded at once. */
    method Receive(chunk: seq<byte>)
      requires Valid()
      modifies this, recv, recv.buf, send, send.buf
      ensures Valid() && (recv.buf == old(recv.buf) || fresh(recv.buf)) && (send.buf == old(send.buf) || fresh(send.buf))
      ensures var d := Decode(old(Held()), old(Pending()) + chunk);
              && Held() == d.held && Pending() == d.rest && events == old(events) + d.events
              && send.Contents() == old(send.Contents()) + PongFrames(d.events, keys, old(frames))
              && frames == old(frames) + PongCount(d.events)
      ensures isClosing <==> old(isClosing) || Ended(events[|old(events)|..])
    {
      ghost var held, pending := Held(), Pending();
      recv.Add(recv.len, chunk, IO_SIZE);
      assert recv.Contents() == held + (pending + chunk);
      OnRead();
    }

    /** The chunks of a whole session, one after the other. */
    method ReceiveAll(chunks: seq<seq<byte>>)
      requires Valid() && FrameSize(Pending()) == 0
      modifies this, recv, recv.buf, send, send.buf
      ensures Valid()
      ensures var d := Decode(old(Held()), old(Pending()) + Concat(chunks));
              && Held() == d.held && Pending() == d.rest && events == old(events) + d.events
              && send.Contents() == old(send.Contents()) + PongFrames(d.events, keys, old(frames))
      ensures isClosing <==> old(isClosing) || Ended(events[|old(events)|..])
    {
      hide FrameSize, Decode, PongFrames, PongCount, Ended;
      NothingEnded();
      ghost var held, pending := Held(), Pending();
      ghost var d := Decoded([], held, pending);
      NothingDone(keys, frames);
      NothingRead(held, pending);
      for i := 0 to |chunks|
        invariant Valid() && (recv.buf == old(recv.buf) || fresh(recv.buf)) && (send.buf == old(send.buf) || fresh(send.buf))
        invariant d == Decode(held, pending + Concat(chunks[..i]))
        invariant Held() == d.held && Pending() == d.rest && events == old(events) + d.events
        invariant send.Contents() == old(send.Contents()) + PongFrames(d.events, keys, old(frames))
        invariant frames == old(frames) + PongCount(d.events)
        invariant isClosing <==> old(isClosing) || Ended(d.events)
      {
        ghost var now := Decode(d.held, d.rest + chunks[i]);
        EndedAppend(d.events, now.events);
        ConcatLast(pending, chunks, i);
        DecodeAppend(held, pending + Concat(chunks[..i]), chunks[i]);
        PongsAppend(d.events, now.events, keys, old(frames));
        Associate(old(events), d.events, now.events);
        Associate(old(send.Contents()), PongFrames(d.events, keys, old(frames)),
                  PongFrames(now.events, keys, old(frames) + PongCount(d.events)));
        ghost var so := events;
        Receive(chunks[i]);
        assert events[|so|..] == now.events;
        d := Decoded(d.events + now.events, now.held, now.rest);
      }
      assert chunks[..|chunks|] == chunks;
      assert events[|old(events)|..] == d.events;
    }

    /** A fresh connection that receives any messages, fragmented and masked in any way, with control frames anywhere in
        between and in any chunks, hands over exactly the messages in order and keeps nothing in its buffer. */
    method ReceiveMessages(chunks: seq<seq<byte>>, ghost messages: seq<WholeMessage>, ghost lead: seq<Ctl>)
      requires Valid() && recv.Contents() == [] && events == []
      requires Concat(chunks) == Wire(ControlFrames(lead) + MessageFrames(messages))
      modifies this, recv, recv.buf, send, send.buf
      ensures Valid() && recv.Contents() == []
      ensures Messages(events) == Expected(messages)
      ensures send.Contents() == old(send.Contents()) + PongFrames(events, keys, old(frames))
      ensures isClosing <==> old(isClosing) || Ended(events)
    {
      assert Held() == [] && Pending() == [] && FrameSize([]) == 0;
      ghost var d := Decode([], [] + Concat(chunks));
      StreamDeliversMessages(messages, lead, chunks);
      DecodeChunksIsDecode([], [], chunks);
      hide *;
      ReceiveAll(chunks);
      assert [] + d.events == d.events && events[0..] == events;
      assert recv.Contents() == Held() + Pending() by { Whole(); }
    }

    lemma Whole()
      requires Valid()
      ensures recv.Contents() == Held() + Pending()
    {
    }
  }

  lemma NothingRead(held: seq<byte>, pending: seq<byte>)
    requires FrameSize(pending) == 0
    ensures Decode(held, pending + Concat([])) == Decoded([], held, pending)
  {
    assert pending + [] == pending;
  }

  lemma ConcatLast(front: seq<byte>, chunks: seq<seq<byte>>, i: nat)
    requires i < |chunks|
    ensures front + Concat(chunks[..i + 1]) == front + Concat(chunks[..i]) + chunks[i]
  {
    ConcatSnoc(chunks[..i], chunks[i]);
    assert chunks[..i + 1] == chunks[..i] + [chunks[i]];
  }

  /** After the events in `done`, decoding what is left reaches the goal. */
  predicate Reaches(goal: Decoded, done: seq<Event>, held: seq<byte>, pending: seq<byte>) {
    var d := Decode(held, pending);
    d.held == goal.held && d.rest == goal.rest && done + d.events == goal.events
  }

  lemma NothingEnded()
    ensures !Ended([])
  {
  }

  lemma NothingDone(keys: nat -> Option<MaskKey>, k: nat)
    ensures PongFrames([], keys, k) == [] && PongCount([]) == 0
  {
  }

  lemma DecodeNext(goal: Decoded, done: seq<Event>, held: seq<byte>, pending: seq<byte>)
    requires Reaches(goal, done, held, pending)
    ensures var size := FrameSize(pending);
            if size == 0 then goal == Decoded(done, held, pending)
            else
              var (now, held') := Absorb(held, ReadHeader(pending).flags, Payload(pending));
              Reaches(goal, done + now, held', pending[size..])
  {
    hide FrameSize, ReadHeader, Payload, Absorb;
    if FrameSize(pending) == 0 {
      assert done + [] == done;
    } else {
      var (now, held') := Absorb(held, ReadHeader(pending).flags, Payload(pending));
      Associate(done, now, Decode(held', pending[FrameSize(pending)..]).events);
    }
  }
}
