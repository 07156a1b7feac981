/** Websocket frames (section 5.2 of RFC 6455): reading, writing and masking one frame. */
module WsFrame {
  import opened Bytes
  import opened IoBuffer
  import opened Wrappers

  const MAX_DATA_LEN: nat := 1024 * 1024 * 1024
  const IO_SIZE: nat := 2048
  const SIZE_LIMIT: nat := 0x1_0000_0000_0000_0000  // a size_t is below this

  datatype WsMsg = WsMsg(flags: byte, headerLen: nat, dataLen: nat)

  // ----- what a receiver sees -----

  /** The header fields as far as the bytes received so far determine them; headerLen is 0 while they do not. */
  function ReadHeader(s: seq<byte>): WsMsg {
    if |s| < 2 then WsMsg(0, 0, 0)
    else
      var n := s[1] % 128;
      var maskLen := if s[1] >= 128 then 4 else 0;
      if n < 126 && |s| >= maskLen then WsMsg(s[0], 2 + maskLen, n)
      else if n == 126 && |s| >= 4 + maskLen then WsMsg(s[0], 4 + maskLen, FromBigEndian(s[2..4]))
      else if |s| >= 10 + maskLen then
        WsMsg(s[0], 10 + maskLen, FromBigEndian(s[2..6]) * 0x1_0000_0000 + FromBigEndian(s[6..10]))
      else WsMsg(s[0], 0, 0)
  }

  /** Length of the complete frame at the start of `s`, or 0 when there is none (yet). */
  function FrameSize(s: seq<byte>): (size: nat)
    ensures size <= |s|
  {
    var msg := ReadHeader(s);
    if msg.dataLen > MAX_DATA_LEN || msg.headerLen + msg.dataLen > |s| then 0
    else msg.headerLen + msg.dataLen
  }

  function ApplyMask(data: seq<byte>, key: seq<byte>): (r: seq<byte>)
    requires |key| == 4
    ensures |r| == |data|
  {
    seq(|data|, i requires 0 <= i < |data| => Xor(data[i], key[i % 4]))
  }

  lemma MaskTwice(data: seq<byte>, key: seq<byte>)
    requires |key| == 4
    ensures ApplyMask(ApplyMask(data, key), key) == data
  {
    forall i | 0 <= i < |data| ensures ApplyMask(ApplyMask(data, key), key)[i] == data[i] {
      XorTwice(data[i], key[i % 4]);
    }
  }

  /** Masking inverts in each byte exactly the bits that are set in its key byte. */
  lemma MaskInverts(data: seq<byte>, key: seq<byte>)
    requires |key| == 4
    ensures forall i :: 0 <= i < |data| ==> Inverts(ApplyMask(data, key)[i], data[i], key[i % 4])
  {
    forall i | 0 <= i < |data| ensures Inverts(ApplyMask(data, key)[i], data[i], key[i % 4]) {
      XorIff(Xor(data[i], key[i % 4]), data[i], key[i % 4]);
    }
  }

  /** When a frame is complete, and how long it then is, from its bytes: the payload length is in the second byte, or
      behind it in two or eight bytes, and at most 1 GB; a key of four bytes follows if the highest bit is set. */
  lemma FrameSizeMeaning(s: seq<byte>)
    ensures FrameSize(s) > 0 <==>
            |s| >= 2 && var m, n := if s[1] >= 128 then 4 else 0, s[1] % 128;
              && (n < 126 ==> |s| >= 2 + m + n)
              && (n == 126 ==> |s| >= 4 + m && |s| >= 4 + m + (256 * s[2] + s[3]))
              && (n == 127 ==> |s| >= 10 + m && Length64(s) <= 0x4000_0000 && |s| >= 10 + m + Length64(s))
    ensures FrameSize(s) > 0 ==>
            var m, n := if s[1] >= 128 then 4 else 0, s[1] % 128;
            var h := ReadHeader(s).headerLen;
            && ReadHeader(s).flags == s[0]
            && h == m + (if n < 126 then 2 else if n == 126 then 4 else 10)
            && FrameSize(s) == h + if n < 126 then n else if n == 126 then 256 * s[2] + s[3] else Length64(s)
  {
    if |s| >= 4 {
      assert s[2..4] == [s[2], s[3]];
      FromBigEndianMeaning(s[2], s[3], 0, 0);
    }
    if |s| >= 10 {
      assert s[2..6] == [s[2], s[3], s[4], s[5]] && s[6..10] == [s[6], s[7], s[8], s[9]];
      FromBigEndianMeaning(s[2], s[3], s[4], s[5]);
      FromBigEndianMeaning(s[6], s[7], s[8], s[9]);
    }
    hide FromBigEndian;
  }

  /** Bytes 2 to 9 as one number in network byte order. */
  function Length64(s: seq<byte>): nat
    requires |s| >= 10
  {
    Length32(s[2], s[3], s[4], s[5]) * 0x1_0000_0000 + Length32(s[6], s[7], s[8], s[9])
  }

  function Length32(a: nat, b: nat, c: nat, d: nat): nat {
    0x100_0000 * a + 0x1_0000 * b + 256 * c + d
  }

  /** The unmasked payload of the complete frame at the start of `s`. */
  function Payload(s: seq<byte>): (r: seq<byte>)
    requires FrameSize(s) > 0
    ensures |r| == ReadHeader(s).dataLen
  {
    var msg := ReadHeader(s);
    var data := s[msg.headerLen..msg.headerLen + msg.dataLen];
    if s[1] >= 128 then ApplyMask(data, s[msg.headerLen - 4..msg.headerLen]) else data
  }

  lemma PrefixSlice(s: seq<byte>, more: seq<byte>, i: nat, j: nat)
    requires i <= j <= |s|
    ensures (s + more)[i..j] == s[i..j]
  {
  }

  lemma CompleteHeaderIsStable(s: seq<byte>, more: seq<byte>)
    requires ReadHeader(s).headerLen > 0
    ensures 2 <= ReadHeader(s).headerLen && |s| >= 2
    ensures ReadHeader(s + more) == ReadHeader(s)
    ensures s[1] >= 128 ==> ReadHeader(s).headerLen >= 6
  {
    if |s| >= 4 { PrefixSlice(s, more, 2, 4); }
    if |s| >= 10 {
      PrefixSlice(s, more, 2, 6);
      PrefixSlice(s, more, 6, 10);
    }
  }

  /** More bytes never change the reading of a frame that is already complete. */
  lemma CompleteFrameIsStable(s: seq<byte>, more: seq<byte>)
    requires FrameSize(s) > 0
    ensures ReadHeader(s + more) == ReadHeader(s)
    ensures FrameSize(s + more) == FrameSize(s)
    ensures Payload(s + more) == Payload(s)
  {
    var h, size := ReadHeader(s).headerLen, FrameSize(s);
    assert h > 0;
    CompleteHeaderIsStable(s, more);
    assert FrameSize(s + more) == size;
    hide *;
    PayloadSlices(s);
    PayloadSlices(s + more);
    PrefixSlice(s, more, h, size);
    if s[1] >= 128 {
      PrefixSlice(s, more, h - 4, h);
    }
  }

  // ----- what a sender produces -----

  type MaskKey = k: seq<byte> | |k| == 4 witness [0, 0, 0, 0]

  /** Frame header in the shortest length form; a masked frame has its key appended. */
  function Header(flags: byte, len: nat, key: Option<MaskKey>): seq<byte>
    requires len < SIZE_LIMIT
  {
    var bit := if key.Some? then 128 else 0;
    (if len < 126 then [flags, len + bit]
     else if len < 65536 then [flags, 126 + bit] + BigEndian(len, 2)
     else [flags, 127 + bit] + BigEndian(len / 0x1_0000_0000, 4) + BigEndian(len % 0x1_0000_0000, 4))
    + (if key.Some? then key.value else [])
  }

  function Encode(flags: byte, payload: seq<byte>, key: Option<MaskKey>): seq<byte>
    requires |payload| < SIZE_LIMIT
  {
    Header(flags, |payload|, key) + (if key.Some? then ApplyMask(payload, key.value) else payload)
  }

  lemma Powers()
    ensures Pow256(2) == 65536 && Pow256(4) == 0x1_0000_0000
  {
    assert Pow256(2) == 65536;
  }

  /** The header a sender writes is read back exactly, whatever follows it. */
  lemma HeaderIsReadBack(flags: byte, len: nat, key: Option<MaskKey>, rest: seq<byte>)
    requires len < SIZE_LIMIT
    ensures var h := Header(flags, len, key);
            && ReadHeader(h + rest) == WsMsg(flags, |h|, len)
            && ((h + rest)[1] >= 128 <==> key.Some?)
            && (key.Some? ==> |h| >= 4 && h[|h| - 4..] == key.value)
  {
    if 126 <= len < 65536 {
      MediumHeaderIsReadBack(flags, len, key, rest);
    } else if 65536 <= len {
      LongHeaderIsReadBack(flags, len, key, rest);
    }
  }

  lemma MediumHeaderIsReadBack(flags: byte, len: nat, key: Option<MaskKey>, rest: seq<byte>)
    requires 126 <= len < 65536
    ensures var h := Header(flags, len, key);
            ReadHeader(h + rest) == WsMsg(flags, |h|, len)
  {
    Powers();
    BigEndianRoundTrip(len, 2);
    var h := Header(flags, len, key);
    var t := h + rest;
    assert |h| == if key.Some? then 8 else 4;
    assert t[0] == flags && t[1] == if key.Some? then 254 else 126;
    assert t[2..4] == BigEndian(len, 2);
  }

  lemma LongHeaderIsReadBack(flags: byte, len: nat, key: Option<MaskKey>, rest: seq<byte>)
    requires 65536 <= len < SIZE_LIMIT
    ensures var h := Header(flags, len, key);
            ReadHeader(h + rest) == WsMsg(flags, |h|, len)
  {
    Powers();
    var hi, lo := len / 0x1_0000_0000, len % 0x1_0000_0000;
    BigEndianRoundTrip(hi, 4);
    BigEndianRoundTrip(lo, 4);
    var h := Header(flags, len, key);
    var t := h + rest;
    assert |h| == if key.Some? then 14 else 10;
    assert t[0] == flags && t[1] == if key.Some? then 255 else 127;
    assert t[2..6] == BigEndian(hi, 4);
    assert t[6..10] == BigEndian(lo, 4);
  }

  /** Reading an encoded frame gives back flags and payload and takes exactly the frame's bytes. */
  lemma FrameRoundTrip(flags: byte, payload: seq<byte>, key: Option<MaskKey>, rest: seq<byte>)
    requires |payload| <= MAX_DATA_LEN
    ensures var s := Encode(flags, payload, key) + rest;
            && FrameSize(s) == |Encode(flags, payload, key)|
            && ReadHeader(s).flags == flags
            && Payload(s) == payload
            && s[FrameSize(s)..] == rest
  {
    var h := Header(flags, |payload|, key);
    var body := if key.Some? then ApplyMask(payload, key.value) else payload;
    HeaderIsReadBack(flags, |payload|, key, body + rest);
    if key.Some? {
      MaskTwice(payload, key.value);
    }
    hide Header, ReadHeader, ApplyMask;
    ThreeParts(h, body, rest);
  }

  lemma ThreeParts(h: seq<byte>, body: seq<byte>, rest: seq<byte>)
    ensures var s := h + body + rest;
            && s == h + (body + rest) && s[|h|..|h| + |body|] == body && s[|h| + |body|..] == rest
            && (|h| >= 4 ==> s[|h| - 4..|h|] == h[|h| - 4..])
  {
  }

  /** No strict prefix of an encoded frame is taken for a frame. */
  lemma StrictPrefixIsIncomplete(flags: byte, payload: seq<byte>, key: Option<MaskKey>, k: nat)
    requires |payload| <= MAX_DATA_LEN
    requires k < |Encode(flags, payload, key)|
    ensures FrameSize(Encode(flags, payload, key)[..k]) == 0
  {
    hide FrameSize, ReadHeader, Payload, Encode;
    var s := Encode(flags, payload, key);
    if FrameSize(s[..k]) > 0 {
      CompleteFrameIsStable(s[..k], s[k..]);
      assert s[..k] + s[k..] == s == s + [];
      FrameRoundTrip(flags, payload, key, []);
      assert false;
    }
  }

  // ----- the in-place implementations -----

  /** Each byte from `at` to `end` has exactly those bits inverted that are set in its one of the four bytes before
      `at`; all other bytes are as they were. */
  predicate MaskedBetween(now: seq<byte>, was: seq<byte>, at: nat, end: nat) {
    && 4 <= at <= end <= |was| == |now|
    && (forall k :: at <= k < end ==> Inverts(now[k], was[k], was[at - 4 + (k - at) % 4]))
    && (forall k :: 0 <= k < |was| && !(at <= k < end) ==> now[k] == was[k])
  }

  /** XORs `n` bytes at `at` with the four bytes just before them. */
  method MaskInPlace(buf: array<byte>, at: nat, n: nat)
    requires 4 <= at && at + n <= buf.Length
    modifies buf
    ensures buf[..] == Copied(old(buf[..]), at, ApplyMask(old(buf[..])[at..at + n], old(buf[..])[at - 4..at]))
    ensures MaskedBetween(buf[..], old(buf[..]), at, at + n)
  {
    ghost var was := buf[..];
    hide *;
    for i := 0 to n
      invariant forall k :: 0 <= k < at ==> buf[k] == was[k]
      invariant forall k :: at <= k < at + i ==> buf[k] == Xor(was[k], was[at - 4 + (k - at) % 4])
      invariant forall k :: at + i <= k < buf.Length ==> buf[k] == was[k]
    {
      buf[at + i] := Xor(buf[at + i], buf[at - 4 + i % 4]);
    }
    IsMasked(buf[..], was, at, n);
    InvertedBetween(buf[..], was, at, n);
  }

  lemma InvertedBetween(now: seq<byte>, was: seq<byte>, at: nat, n: nat)
    requires 4 <= at && at + n <= |was| == |now|
    requires forall k :: 0 <= k < at ==> now[k] == was[k]
    requires forall k :: at <= k < at + n ==> now[k] == Xor(was[k], was[at - 4 + (k - at) % 4])
    requires forall k :: at + n <= k < |was| ==> now[k] == was[k]
    ensures MaskedBetween(now, was, at, at + n)
  {
    hide Xor, Inverts;
    forall k | at <= k < at + n ensures Inverts(now[k], was[k], was[at - 4 + (k - at) % 4]) {
      XorIff(now[k], was[k], was[at - 4 + (k - at) % 4]);
    }
  }

  lemma IsMasked(now: seq<byte>, was: seq<byte>, at: nat, n: nat)
    requires 4 <= at && at + n <= |was| == |now|
    requires forall k :: 0 <= k < at ==> now[k] == was[k]
    requires forall k :: at <= k < at + n ==> now[k] == Xor(was[k], was[at - 4 + (k - at) % 4])
    requires forall k :: at + n <= k < |was| ==> now[k] == was[k]
    ensures now == Copied(was, at, ApplyMask(was[at..at + n], was[at - 4..at]))
  {
    var key := was[at - 4..at];
    var masked := ApplyMask(was[at..at + n], key);
    forall k | 0 <= k < n ensures now[at + k] == masked[k] {
      assert key[k % 4] == was[at - 4 + k % 4];
      assert now[at + k] == Xor(was[at + k], was[at - 4 + (at + k - at) % 4]);
    }
    hide Xor, ApplyMask;
    IsCopied(now, was, at, masked);
  }

  lemma IsCopied(now: seq<byte>, was: seq<byte>, at: nat, data: seq<byte>)
    requires at + |data| <= |was| == |now|
    requires forall k :: 0 <= k < at ==> now[k] == was[k]
    requires forall k :: 0 <= k < |data| ==> now[at + k] == data[k]
    requires forall k :: at + |data| <= k < |was| ==> now[k] == was[k]
    ensures now == Copied(was, at, data)
  {
    assert now[..at] == was[..at] && now[at + |data|..] == was[at + |data|..];
    assert now[at..at + |data|] == data;
    assert now == now[..at] + now[at..at + |data|] + now[at + |data|..];
  }

  lemma SubSlice(t: seq<byte>, ofs: nat, len: nat, i: nat, j: nat)
    requires i <= j <= len && ofs + len <= |t|
    ensures t[ofs..ofs + len][i..j] == t[ofs + i..ofs + j]
  {
    var a, b := t[ofs..ofs + len][i..j], t[ofs + i..ofs + j];
    forall k | 0 <= k < |a| ensures a[k] == b[k] {
      assert a[k] == t[ofs..ofs + len][i + k] == t[ofs + (i + k)];
      assert b[k] == t[(ofs + i) + k];
    }
    assert |a| == |b|;
  }

  /** The header part of `ws_process`: nothing is written. */
  method ScanHeader(buf: array<byte>, ofs: nat, len: nat) returns (msg: WsMsg, maskLen: nat)
    requires ofs + len <= buf.Length
    ensures msg == ReadHeader(buf[..][ofs..ofs + len])
    ensures maskLen == if len >= 2 && buf[ofs + 1] >= 128 then 4 else 0
  {
    ghost var t := buf[..];
    ghost var s := t[ofs..ofs + len];
    var n := 0;
    var flags: byte, headerLen, dataLen := 0, 0, 0;
    maskLen := 0;
    if len >= 2 {
      assert s[0] == buf[ofs] && s[1] == buf[ofs + 1];
      n := buf[ofs + 1] % 128;
      maskLen := if buf[ofs + 1] >= 128 then 4 else 0;
      flags := buf[ofs];
      if n < 126 && len >= maskLen {
        dataLen := n;
        headerLen := 2 + maskLen;
      } else if n == 126 && len >= 4 + maskLen {
        headerLen := 4 + maskLen;
        SubSlice(t, ofs, len, 2, 4);
        assert buf[ofs + 2..ofs + 4] == s[2..4];
        dataLen := FromBigEndian(buf[ofs + 2..ofs + 4]);
      } else if len >= 10 + maskLen {
        headerLen := 10 + maskLen;
        SubSlice(t, ofs, len, 2, 6);
        SubSlice(t, ofs, len, 6, 10);
        assert buf[ofs + 2..ofs + 6] == s[2..6] && buf[ofs + 6..ofs + 10] == s[6..10];
        dataLen := FromBigEndian(buf[ofs + 2..ofs + 6]) * 0x1_0000_0000 + FromBigEndian(buf[ofs + 6..ofs + 10]);
      }
    }
    msg := WsMsg(flags, headerLen, dataLen);
  }

  /** The buffer contents after looking for a frame in t[ofs..ofs + len]: a complete one has its payload unmasked. */
  function Processed(t: seq<byte>, ofs: nat, len: nat): (r: seq<byte>)
    requires ofs + len <= |t|
    ensures |r| == |t|
  {
    var s := t[ofs..ofs + len];
    if FrameSize(s) == 0 then t else Copied(t, ofs + ReadHeader(s).headerLen, Payload(s))
  }

  lemma PayloadSlices(s: seq<byte>)
    requires FrameSize(s) > 0
    ensures var h, size := ReadHeader(s).headerLen, FrameSize(s);
            && |s| >= 2 && h <= size <= |s|
            && (s[1] >= 128 ==> h >= 4 && Payload(s) == ApplyMask(s[h..size], s[h - 4..h]))
            && (s[1] < 128 ==> Payload(s) == s[h..size])
  {
    CompleteHeaderIsStable(s, []);
  }

  /** The payload in terms of the buffer the frame lies in. */
  lemma PayloadInBuffer(t: seq<byte>, ofs: nat, len: nat)
    requires ofs + len <= |t| && FrameSize(t[ofs..ofs + len]) > 0
    ensures var s := t[ofs..ofs + len];
            var at, end := ofs + ReadHeader(s).headerLen, ofs + FrameSize(s);
            && |s| >= 2 && at <= end <= |t|
            && (s[1] >= 128 ==> at >= 4 && Payload(s) == ApplyMask(t[at..end], t[at - 4..at]))
            && (s[1] < 128 ==> Payload(s) == t[at..end])
  {
    hide *;
    var s := t[ofs..ofs + len];
    PayloadSlices(s);
    var h := ReadHeader(s).headerLen;
    SubSlice(t, ofs, len, h, FrameSize(s));
    if s[1] >= 128 {
      SubSlice(t, ofs, len, h - 4, h);
    }
  }

  lemma CopyOnto(t: seq<byte>, at: nat, end: nat)
    requires at <= end <= |t|
    ensures Copied(t, at, t[at..end]) == t
  {
  }

  /** Looks for a frame in buf[ofs..ofs + len]; a complete one is unmasked where it stands. */
  method Process(buf: array<byte>, ofs: nat, len: nat) returns (size: nat, msg: WsMsg)
    requires ofs + len <= buf.Length
    modifies buf
    ensures var s := old(buf[..])[ofs..ofs + len];
            size == FrameSize(s) && msg == ReadHeader(s)
    ensures buf[..] == Processed(old(buf[..]), ofs, len)
    ensures if size > 0 && old(buf[ofs + 1]) >= 128
            then MaskedBetween(buf[..], old(buf[..]), ofs + msg.headerLen, ofs + size) else buf[..] == old(buf[..])
  {
    hide ReadHeader, Payload, Copied, ApplyMask, MaskedBetween;
    ghost var t := buf[..];
    var maskLen;
    msg, maskLen := ScanHeader(buf, ofs, len);
    if msg.dataLen > MAX_DATA_LEN || msg.headerLen + msg.dataLen > len {
      return 0, msg;
    }
    size := msg.headerLen + msg.dataLen;
    if size == 0 {
      return;
    }
    PayloadInBuffer(t, ofs, len);
    if maskLen > 0 {
      MaskInPlace(buf, ofs + msg.headerLen, msg.dataLen);
    } else {
      CopyOnto(t, ofs + msg.headerLen, ofs + size);
    }
  }

  /** Writes a frame header for `len` payload bytes; `key` stands for the four random bytes of a client. */
  method MakeHeader(len: nat, op: byte, key: Option<MaskKey>, buf: array<byte>) returns (n: nat)
    requires len < SIZE_LIMIT && buf.Length >= 14
    modifies buf
    ensures n <= 14 && buf[..n] == Header(op % 128 + 128, len, key)
  {
    Powers();
    buf[0] := op % 128 + 128;
    if len < 126 {
      buf[1] := len;
      n := 2;
    } else if len < 65536 {
      buf[1] := 126;
      Copy(buf, 2, BigEndian(len, 2));
      n := 4;
    } else {
      buf[1] := 127;
      Copy(buf, 2, BigEndian(len / 0x1_0000_0000, 4));
      Copy(buf, 6, BigEndian(len % 0x1_0000_0000, 4));
      n := 10;
    }
    if key.Some? {
      buf[1] := buf[1] + 128;
      Copy(buf, n, key.value);
      n := n + 4;
    }
  }

  /** Appends one frame to the bytes waiting to be sent; a client masks the payload where it stands. */
  method Send(send: IoBuf, data: seq<byte>, op: byte, key: Option<MaskKey>) returns (sent: nat)
    requires send.Valid() && |data| < SIZE_LIMIT
    modifies send, send.buf
    ensures send.Valid() && (send.buf == old(send.buf) || fresh(send.buf))
    ensures sent == |Encode(op % 128 + 128, data, key)|
    ensures send.Contents() == old(send.Contents()) + Encode(op % 128 + 128, data, key)
    ensures EndsIn(send.Contents(), data, key)
  {
    hide Header, ApplyMask, Copied, Moved, EndsIn;
    var header := new byte[14];
    var n := MakeHeader(|data|, op, key, header);
    var head := header[..n];
    ghost var was := send.Contents();
    EndOfFrame(was, op % 128 + 128, data, key);
    AppendBoth(send, head, data);
    if key.Some? {
      KeyEndsHeader(op % 128 + 128, |data|, key);
      KeyBeforeData(was, head, data);
      MaskTail(send, send.len - |data|);
      Associate(was, head, ApplyMask(data, key.value));
    } else {
      Associate(was, head, data);
    }
    sent := n + |data|;
  }

  /** The last bytes are the data in the clear, or the key and the data with the bits of the key inverted. */
  predicate EndsIn(s: seq<byte>, data: seq<byte>, key: Option<MaskKey>) {
    var at := |s| - |data|;
    && at >= 0 && (key.None? ==> s[at..] == data)
    && (key.Some? ==> at >= 4 && s[at - 4..at] == key.value
                      && forall i :: 0 <= i < |data| ==> Inverts(s[at + i], data[i], key.value[i % 4]))
  }

  lemma EndOfFrame(was: seq<byte>, flags: byte, data: seq<byte>, key: Option<MaskKey>)
    requires |data| < SIZE_LIMIT
    ensures EndsIn(was + Encode(flags, data, key), data, key)
  {
    var head := Header(flags, |data|, key);
    if key.Some? {
      KeyEndsHeader(flags, |data|, key);
      MaskInverts(data, key.value);
      var body := ApplyMask(data, key.value);
      assert Encode(flags, data, key) == head + body;
      hide *;
      Associate(was, head, body);
      EndAppended(was, head);
      EndsMasked(was + head, body, data, key.value);
    } else {
      assert Encode(flags, data, key) == head + data;
      hide *;
      Associate(was, head, data);
      EndsClear(was + head, data);
    }
  }

  lemma EndAppended(was: seq<byte>, head: seq<byte>)
    requires |head| >= 4
    ensures (was + head)[|was + head| - 4..] == head[|head| - 4..]
  {
  }

  lemma EndsClear(front: seq<byte>, data: seq<byte>)
    ensures EndsIn(front + data, data, None)
  {
  }

  lemma EndsMasked(front: seq<byte>, body: seq<byte>, data: seq<byte>, key: MaskKey)
    requires |front| >= 4 && front[|front| - 4..] == key && |body| == |data|
    requires forall i :: 0 <= i < |data| ==> Inverts(body[i], data[i], key[i % 4])
    ensures EndsIn(front + body, data, Some(key))
  {
    hide Inverts;
    assert (front + body)[|front| - 4..|front|] == front[|front| - 4..];
  }

  method AppendBoth(send: IoBuf, head: seq<byte>, data: seq<byte>)
    requires send.Valid()
    modifies send, send.buf
    ensures send.Valid() && (send.buf == old(send.buf) || fresh(send.buf))
    ensures send.Contents() == old(send.Contents()) + head + data
  {
    hide Copied, Moved;
    send.Add(send.len, head, IO_SIZE);
    send.Add(send.len, data, IO_SIZE);
  }

  lemma Associate<T>(a: seq<T>, b: seq<T>, c: seq<T>)
    ensures (a + b) + c == a + (b + c)
  {
  }

  lemma KeyBeforeData(was: seq<byte>, head: seq<byte>, data: seq<byte>)
    requires |head| >= 4
    ensures var s := was + head + data;
            var at := |s| - |data|;
            s[..at] == was + head && s[at..] == data && s[at - 4..at] == head[|head| - 4..]
  {
  }

  lemma KeyEndsHeader(flags: byte, len: nat, key: Option<MaskKey>)
    requires len < SIZE_LIMIT && key.Some?
    ensures var h := Header(flags, len, key);
            |h| >= 4 && h[|h| - 4..] == key.value
  {
  }

  /** Masks what follows the first `at` bytes with the key just before it. */
  method MaskTail(send: IoBuf, at: nat)
    requires send.Valid() && 4 <= at <= send.len
    modifies send.buf
    ensures send.Contents() == old(send.Contents())[..at]
                               + ApplyMask(old(send.Contents())[at..], old(send.Contents())[at - 4..at])
  {
    ghost var t := send.buf[..];
    MaskedTail(t, at, send.len);
    hide Copied, ApplyMask;
    MaskInPlace(send.buf, at, send.len - at);
  }

  lemma MaskedTail(t: seq<byte>, at: nat, len: nat)
    requires 4 <= at <= len <= |t|
    ensures Copied(t, at, ApplyMask(t[at..len], t[at - 4..at]))[..len]
         == t[..len][..at] + ApplyMask(t[..len][at..], t[..len][at - 4..at])
  {
    assert t[..len][at..] == t[at..len] && t[..len][at - 4..at] == t[at - 4..at];
    var masked := ApplyMask(t[at..len], t[at - 4..at]);
    assert Copied(t, at, masked)[..len] == t[..at] + masked;
  }

  // ----- the examples of section 5.7 of RFC 6455 -----

  /** "Hello" and its masking key. */
  const HELLO: seq<byte> := [0x48, 0x65, 0x6c, 0x6c, 0x6f]
  const HELLO_KEY: MaskKey := [0x37, 0xfa, 0x21, 0x3d]

  lemma HelloByte0()
    ensures Xor(0x48, 0x37) == 0x7f
  {
    BytePow();
    assert XorBits(4, 3, 4) == 7;
    XorNext(0x09, 0x06, 4, 0x07);
    XorNext(0x12, 0x0d, 5, 0x0f);
    XorNext(0x24, 0x1b, 6, 0x1f);
    XorNext(0x48, 0x37, 7, 0x3f);
    hide XorBits;
  }

  lemma HelloByte1()
    ensures Xor(0x65, 0xfa) == 0x9f
  {
    BytePow();
    assert XorBits(6, 15, 4) == 9;
    XorNext(0x0c, 0x1f, 4, 0x09);
    XorNext(0x19, 0x3e, 5, 0x13);
    XorNext(0x32, 0x7d, 6, 0x27);
    XorNext(0x65, 0xfa, 7, 0x4f);
    hide XorBits;
  }

  lemma HelloByte2()
    ensures Xor(0x6c, 0x21) == 0x4d
  {
    BytePow();
    assert XorBits(6, 2, 4) == 4;
    XorNext(0x0d, 0x04, 4, 0x04);
    XorNext(0x1b, 0x08, 5, 0x09);
    XorNext(0x36, 0x10, 6, 0x13);
    XorNext(0x6c, 0x21, 7, 0x26);
    hide XorBits;
  }

  lemma HelloByte3()
    ensures Xor(0x6c, 0x3d) == 0x51
  {
    BytePow();
    assert XorBits(6, 3, 4) == 5;
    XorNext(0x0d, 0x07, 4, 0x05);
    XorNext(0x1b, 0x0f, 5, 0x0a);
    XorNext(0x36, 0x1e, 6, 0x14);
    XorNext(0x6c, 0x3d, 7, 0x28);
    hide XorBits;
  }

  lemma HelloByte4()
    ensures Xor(0x6f, 0x37) == 0x58
  {
    BytePow();
    assert XorBits(6, 3, 4) == 5;
    XorNext(0x0d, 0x06, 4, 0x05);
    XorNext(0x1b, 0x0d, 5, 0x0b);
    XorNext(0x37, 0x1b, 6, 0x16);
    XorNext(0x6f, 0x37, 7, 0x2c);
    hide XorBits;
  }

  lemma MaskedHello()
    ensures ApplyMask(HELLO, HELLO_KEY) == [0x7f, 0x9f, 0x4d, 0x51, 0x58]
  {
    HelloByte0();
    HelloByte1();
    HelloByte2();
    HelloByte3();
    HelloByte4();
    hide Xor;
  }

  /** A text frame in the clear and masked. */
  lemma HelloFrames()
    ensures Encode(0x81, HELLO, None) == [0x81, 0x05, 0x48, 0x65, 0x6c, 0x6c, 0x6f]
    ensures Encode(0x81, HELLO, Some(HELLO_KEY)) == [0x81, 0x85, 0x37, 0xfa, 0x21, 0x3d, 0x7f, 0x9f, 0x4d, 0x51, 0x58]
  {
    MaskedHello();
    assert Header(0x81, 5, None) == [0x81, 0x05];
    assert Header(0x81, 5, Some(HELLO_KEY)) == [0x81, 0x85, 0x37, 0xfa, 0x21, 0x3d];
    hide ApplyMask, Header;
  }

  /** The masked frame is read as "Hello". */
  lemma MaskedHelloIsRead()
    ensures var s := [0x81, 0x85, 0x37, 0xfa, 0x21, 0x3d, 0x7f, 0x9f, 0x4d, 0x51, 0x58];
            FrameSize(s) == 11 && Payload(s) == HELLO
  {
    HelloFrames();
    FrameRoundTrip(0x81, HELLO, Some(HELLO_KEY), []);
    hide *;
    assert Encode(0x81, HELLO, Some(HELLO_KEY)) + [] == Encode(0x81, HELLO, Some(HELLO_KEY));
  }

  /** 256 bytes of binary data in one frame. */
  lemma MediumFrame(data: seq<byte>)
    requires |data| == 256
    ensures Encode(0x82, data, None) == [0x82, 0x7e, 0x01, 0x00] + data
  {
    BigEndianMeaning(256);
    hide BigEndian;
  }

  /** 64 KiB of binary data in one frame. */
  lemma LongFrame(data: seq<byte>)
    requires |data| == 65536
    ensures Encode(0x82, data, None) == [0x82, 0x7f, 0, 0, 0, 0, 0, 1, 0, 0] + data
  {
    LongHeader();
    hide Header;
  }

  lemma LongHeader()
    ensures Header(0x82, 65536, None) == [0x82, 0x7f, 0, 0, 0, 0, 0, 1, 0, 0]
  {
    BigEndianMeaning(0);
    BigEndianMeaning(65536);
    hide BigEndian;
    var hi, lo := BigEndian(0, 4), BigEndian(65536, 4);
    assert hi == [0, 0, 0, 0] && lo == [0, 1, 0, 0];
    assert 65536 / 0x1_0000_0000 == 0 && 65536 % 0x1_0000_0000 == 65536;
    assert [0x82, 0x7f] + hi + lo + [] == [0x82, 0x7f, 0, 0, 0, 0, 0, 1, 0, 0];
  }
}
