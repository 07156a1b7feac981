/** Streaming SHA-1 (FIPS 180-4) around an arbitrary block transform. */
module Sha1 {
  import opened Bytes
  import opened Wrappers

  const WORD: int := 0x1_0000_0000

  const DOUBLE_WORD: int := 0x1_0000_0000_0000_0000

  type word = n: int | 0 <= n < 0x1_0000_0000

  /** The five words of the hash state. */
  type Words = s: seq<word> | |s| == 5 witness [0, 0, 0, 0, 0]

  const INITIAL: Words := [0x67452301, 0xEFCDAB89, 0x98BADCFE, 0x10325476, 0xC3D2E1F0]

  type Transform = (Words, seq<byte>) -> Words

  // ----- the message as blocks -----

  /** Transforming the whole 64-byte blocks of m, from the front. */
  function Fold(f: Transform, s: Words, m: seq<byte>): (r: Words)
    ensures |m| < 64 ==> r == s
    decreases |m|
  {
    if |m| < 64 then s else Fold(f, f(s, m[..64]), m[64..])
  }

  lemma FoldBlock(f: Transform, s: Words, m: seq<byte>)
    requires |m| >= 64
    ensures Fold(f, s, m) == Fold(f, f(s, m[..64]), m[64..])
  {
  }

  /** The bytes after the last whole block. */
  function Tail(m: seq<byte>): (t: seq<byte>)
    ensures |t| == |m| % 64 < 64
  {
    m[|m| - |m| % 64..]
  }

  lemma {:induction false} FoldAppend(f: Transform, s: Words, m: seq<byte>, data: seq<byte>)
    ensures Fold(f, s, m + data) == Fold(f, Fold(f, s, m), Tail(m) + data)
    decreases |m|
  {
    if |m| < 64 {
      assert Tail(m) == m;
    } else {
      assert (m + data)[..64] == m[..64] && (m + data)[64..] == m[64..] + data;
      assert Tail(m) == Tail(m[64..]);
      FoldAppend(f, f(s, m[..64]), m[64..], data);
    }
  }

  // ----- the bit counters -----

  function Low(n: nat): word {
    8 * n % WORD
  }

  function High(n: nat): word {
    8 * n / WORD % WORD
  }

  /** The two counters after `len` more bytes, as 32-bit arithmetic with an explicit carry. */
  function Count(low: word, high: word, len: nat): (word, word) {
    var low' := (low + len % WORD * 8 % WORD) % WORD;
    var high' := if low' < low then (high + 1) % WORD else high;
    (low', (high' + len / 0x2000_0000 % WORD) % WORD)
  }

  /** Quotient and remainder are determined by their sum. */
  lemma Divides(v: nat, q: nat, r: nat)
    requires v == q * WORD + r && r < WORD
    ensures v / WORD == q && v % WORD == r
  {
  }

  lemma Whole(v: nat)
    ensures v == v / WORD * WORD + v % WORD && 0 <= v % WORD < WORD
  {
  }

  lemma ShiftLeft(len: nat)
    ensures len % WORD * 8 % WORD == 8 * len % WORD
  {
    var q, r := len / WORD, len % WORD;
    Whole(len);
    Whole(r * 8);
    Divides(8 * len, 8 * q + r * 8 / WORD, r * 8 % WORD);
  }

  lemma ShiftRight(len: nat)
    ensures 8 * len / WORD == len / 0x2000_0000
  {
    var q, r := len / 0x2000_0000, len % 0x2000_0000;
    assert len == q * 0x2000_0000 + r;
    Divides(8 * len, q, 8 * r);
  }

  lemma AddMod(a: nat, b: nat)
    ensures var x, y := a % WORD, b % WORD;
            && (x + y) % WORD == (a + b) % WORD
            && ((a + b) % WORD < x <==> x + y >= WORD)
            && (a + b) / WORD == a / WORD + b / WORD + if x + y >= WORD then 1 else 0
  {
    var x, y := a % WORD, b % WORD;
    var q := a / WORD + b / WORD;
    Whole(a);
    Whole(b);
    if x + y >= WORD {
      Divides(x + y, 1, x + y - WORD);
      Divides(a + b, q + 1, x + y - WORD);
    } else {
      Divides(x + y, 0, x + y);
      Divides(a + b, q, x + y);
    }
  }

  lemma AddThreeMod(a: nat, c: nat, b: nat)
    ensures ((a % WORD + c) % WORD + b % WORD) % WORD == (a + b + c) % WORD
  {
    var u := a % WORD + c;
    var v := u % WORD + b % WORD;
    Whole(a);
    Whole(b);
    Whole(u);
    Whole(v);
    Divides(a + b + c, a / WORD + b / WORD + u / WORD + v / WORD, v % WORD);
  }

  /** The counters are the low and the high word of the 64-bit bit length. */
  lemma CountAdds(n: nat, len: nat)
    ensures Count(Low(n), High(n), len) == (Low(n + len), High(n + len))
  {
    ShiftLeft(len);
    ShiftRight(len);
    CarryAdds(8 * n, 8 * len);
    assert 8 * n + 8 * len == 8 * (n + len);
  }

  lemma CarryAdds(a: nat, b: nat)
    ensures var low := (a % WORD + b % WORD) % WORD;
            var high := if low < a % WORD then (a / WORD % WORD + 1) % WORD else a / WORD % WORD;
            low == (a + b) % WORD && (high + b / WORD % WORD) % WORD == (a + b) / WORD % WORD
  {
    AddMod(a, b);
    AddMod(a / WORD, b / WORD);
    AddThreeMod(a / WORD, 1, b / WORD);
  }

  // ----- padding -----

  function Zeros(k: nat): (z: seq<byte>)
    ensures |z| == k && forall i :: 0 <= i < k ==> z[i] == 0
  {
    seq(k, _ => 0)
  }

  function BitLength(n: nat): (b: seq<byte>)
    ensures |b| == 8
  {
    BigEndian(High(n), 4) + BigEndian(Low(n), 4)
  }

  /** Section 5.1.1 of FIPS 180-4. */
  function Pad(m: seq<byte>): seq<byte> {
    m + [0x80] + Zeros((55 - |m|) % 64) + BitLength(|m|)
  }

  lemma LastByte(v: nat, m: nat, k: nat)
    ensures BigEndian(256 * v + m, k + 1) == BigEndian(v + m / 256, k) + [m % 256]
  {
  }

  lemma JoinFour(front: seq<byte>, a: byte, b: byte, c: byte, d: byte)
    ensures front + [a] + [b] + [c] + [d] == front + ([] + [a] + [b] + [c] + [d])
  {
  }

  lemma LastFourBytes(n: nat, m: nat)
    requires m < WORD
    ensures BigEndian(0x1_0000_0000 * n + m, 8)
         == BigEndian(n, 4) + [m / 256 / 256 / 256 % 256] + [m / 256 / 256 % 256] + [m / 256 % 256] + [m % 256]
  {
    var m1 := m / 256;
    var m2 := m1 / 256;
    var m3 := m2 / 256;
    LastByte(0x100_0000 * n, m, 7);
    LastByte(0x1_0000 * n, m1, 6);
    LastByte(0x100 * n, m2, 5);
    LastByte(n, m3, 4);
    hide BigEndian;
    assert m3 / 256 == 0;
  }

  lemma FourBytes(m: nat)
    requires m < WORD
    ensures BigEndian(m, 4) == [] + [m / 256 / 256 / 256 % 256] + [m / 256 / 256 % 256] + [m / 256 % 256] + [m % 256]
  {
    LastByte(0, m, 3);
    LastByte(0, m / 256, 2);
    LastByte(0, m / 256 / 256, 1);
    LastByte(0, m / 256 / 256 / 256, 0);
  }

  /** The bytes of two words are those of the double word. */
  lemma BigEndianSplit(n: nat, m: nat)
    requires m < WORD
    ensures BigEndian(n * WORD + m, 8) == BigEndian(n, 4) + BigEndian(m, 4)
  {
    LastFourBytes(n, m);
    FourBytes(m);
    JoinFour(BigEndian(n, 4), m / 256 / 256 / 256 % 256, m / 256 / 256 % 256, m / 256 % 256, m % 256);
    hide BigEndian;
    assert n * WORD == 0x1_0000_0000 * n;
  }

  lemma HighAndLow(n: nat)
    ensures 8 * n % DOUBLE_WORD == High(n) * WORD + Low(n)
  {
    var b, q := 8 * n, 8 * n / WORD;
    Whole(b);
    Whole(q);
    DoubleRemainder(b, q / WORD, q % WORD * WORD + b % WORD);
  }

  lemma DoubleRemainder(v: nat, q: nat, r: nat)
    requires v == q * DOUBLE_WORD + r && r < DOUBLE_WORD
    ensures v % DOUBLE_WORD == r
  {
  }

  lemma BitLengthIsBigEndian(n: nat)
    ensures BitLength(n) == BigEndian(8 * n % DOUBLE_WORD, 8)
  {
    HighAndLow(n);
    hide High, Low, BigEndian;
    BigEndianSplit(High(n), Low(n));
  }

  lemma ZerosMissing(n: nat, k: nat, z: nat)
    requires k == (55 - n) % 64 && z <= k
    ensures (n + 1 + z) % 64 == 56 <==> z == k
  {
    var q, r := n / 64, n % 64;
    assert n == 64 * q + r && k == if r <= 55 then 55 - r else 119 - r;
  }

  lemma PadLength(m: seq<byte>)
    ensures |Pad(m)| == |m| + 9 + (55 - |m|) % 64
    ensures |Pad(m)| % 64 == 0
  {
    hide BitLength;
    FillsBlock(|m|);
  }

  lemma FillsBlock(n: nat)
    ensures (n + 9 + (55 - n) % 64) % 64 == 0
  {
    var q, r := n / 64, n % 64;
    assert n == 64 * q + r;
    assert (55 - n) % 64 == if r <= 55 then 55 - r else 119 - r;
  }

  /** The padded message is whole blocks, no shorter than any other with a one bit and a 64-bit length; and the
      length field holds the number of message bits, modulo 2 to the 64. */
  lemma PaddingIsMinimal(m: seq<byte>)
    ensures |Pad(m)| % 64 == 0 && |m| + 9 <= |Pad(m)| < |m| + 9 + 64
    ensures Pad(m)[..|m|] == m && Pad(m)[|m|] == 0x80
    ensures forall i :: |m| < i < |Pad(m)| - 8 ==> Pad(m)[i] == 0
    ensures Pad(m)[|Pad(m)| - 8..] == BigEndian(8 * |m| % 0x1_0000_0000_0000_0000, 8)
  {
    PadLength(m);
    BitLengthIsBigEndian(|m|);
    hide BitLength, BigEndian;
    assert |m + [0x80] + Zeros((55 - |m|) % 64)| == |Pad(m)| - 8;
  }

  // ----- the context -----

  function WordBytes(s: seq<word>): (b: seq<byte>)
    ensures |b| == 4 * |s|
  {
    if s == [] then [] else WordBytes(s[..|s| - 1]) + BigEndian(s[|s| - 1], 4)
  }

  /** The digest of a message (section 6.1 of FIPS 180-4). */
  function Digest(f: Transform, m: seq<byte>): (d: seq<byte>)
    ensures |d| == 20
  {
    WordBytes(Fold(f, INITIAL, Pad(m)))
  }

  lemma ByteOfWord(w: word, i: nat)
    requires i < 4
    ensures BigEndian(w, 4)[i] == w / Pow256(3 - i) % 256
  {
    var a, b, c := w / 256, w / 0x1_0000, w / 0x100_0000;
    assert a / 256 == b && b / 256 == c;
    assert Pow256(1) == 256 && Pow256(2) == 0x1_0000 && Pow256(3) == 0x100_0000;
    assert BigEndian(w, 4) == BigEndian(a, 3) + [w % 256];
    assert BigEndian(a, 3) == BigEndian(b, 2) + [a % 256];
    assert BigEndian(b, 2) == BigEndian(c, 1) + [b % 256];
    assert BigEndian(c, 1) == BigEndian(c / 256, 0) + [c % 256];
  }

  lemma {:induction false} WordBytesAt(s: seq<word>, i: nat)
    requires i < 4 * |s|
    ensures WordBytes(s)[i] == BigEndian(s[i / 4], 4)[i % 4]
  {
    if i / 4 < |s| - 1 {
      WordBytesAt(s[..|s| - 1], i);
    }
  }

  /** Each state comes from the one before by transforming the next 64 bytes. */
  predicate Chained(f: Transform, states: seq<Words>, m: seq<byte>) {
    |states| == |m| / 64 + 1 && forall i :: 0 <= i < |m| / 64 ==> states[i + 1] == f(states[i], m[64 * i..64 * i + 64])
  }

  lemma {:induction false} FoldIsLast(f: Transform, s: Words, m: seq<byte>) returns (states: seq<Words>)
    ensures Chained(f, states, m) && states[0] == s && states[|m| / 64] == Fold(f, s, m)
    decreases |m|
  {
    if |m| < 64 {
      states := [s];
    } else {
      var rest := FoldIsLast(f, f(s, m[..64]), m[64..]);
      states := [s] + rest;
      hide Fold;
      forall i | 0 <= i < |m| / 64 ensures states[i + 1] == f(states[i], m[64 * i..64 * i + 64]) {
        if i > 0 {
          assert m[64..][64 * (i - 1)..64 * (i - 1) + 64] == m[64 * i..64 * i + 64];
        }
      }
    }
  }

  /** The digest is the bytes of the last of the states that the blocks of the padded message lead through. */
  lemma DigestMeaning(f: Transform, m: seq<byte>)
    ensures exists states :: && Chained(f, states, Pad(m))
                             && states[0] == [0x67452301, 0xEFCDAB89, 0x98BADCFE, 0x10325476, 0xC3D2E1F0]
                             && Spelt(states[|Pad(m)| / 64], Digest(f, m))
  {
    var states := FoldIsLast(f, INITIAL, Pad(m));
    WordsSpelt(states[|Pad(m)| / 64]);
    hide Chained, Fold, Pad, WordBytes, Spelt;
  }

  /** The words, most significant byte first. */
  predicate Spelt(s: Words, b: seq<byte>) {
    |b| == 20 && forall i :: 0 <= i < 5 ==>
      && b[4 * i] == s[i] / 0x100_0000 && b[4 * i + 1] == s[i] / 0x1_0000 % 256
      && b[4 * i + 2] == s[i] / 0x100 % 256 && b[4 * i + 3] == s[i] % 256
  }

  lemma WordsSpelt(s: Words)
    ensures Spelt(s, WordBytes(s))
  {
    hide WordBytes, BigEndian;
    forall i | 0 <= i < 5
      ensures && WordBytes(s)[4 * i] == s[i] / 0x100_0000 && WordBytes(s)[4 * i + 1] == s[i] / 0x1_0000 % 256
              && WordBytes(s)[4 * i + 2] == s[i] / 0x100 % 256 && WordBytes(s)[4 * i + 3] == s[i] % 256
    {
      WordSpelt(s, i);
    }
  }

  lemma BytesOfWord(w: word)
    ensures BigEndian(w, 4) == [w / 0x100_0000, w / 0x1_0000 % 256, w / 0x100 % 256, w % 256]
  {
    FourBytes(w);
    hide *;
    assert w / 256 / 256 == w / 0x1_0000;
    assert w / 0x1_0000 / 256 == w / 0x100_0000 && w / 0x100_0000 < 256;
  }

  lemma WordSpelt(s: Words, i: nat)
    requires i < 5
    ensures && WordBytes(s)[4 * i] == s[i] / 0x100_0000 && WordBytes(s)[4 * i + 1] == s[i] / 0x1_0000 % 256
            && WordBytes(s)[4 * i + 2] == s[i] / 0x100 % 256 && WordBytes(s)[4 * i + 3] == s[i] % 256
  {
    WordAt(s, i, 0);
    WordAt(s, i, 1);
    WordAt(s, i, 2);
    WordAt(s, i, 3);
    BytesOfWord(s[i]);
    hide *;
  }

  lemma WordAt(s: Words, i: nat, k: nat)
    requires i < 5 && k < 4
    ensures WordBytes(s)[4 * i + k] == BigEndian(s[i], 4)[k]
  {
    hide BigEndian;
    WordBytesAt(s, 4 * i + k);
    assert (4 * i + k) / 4 == i && (4 * i + k) % 4 == k;
  }

  class Context {
    const transform: Transform
    const buffer: array<byte>
    var state: Words
    var low: word
    var high: word
    /** Everything fed since `Init`. */
    ghost var fed: seq<byte>

    ghost predicate Valid()
      reads this, buffer
    {
      && buffer.Length == 64
      && state == Fold(transform, INITIAL, fed)
      && low == Low(|fed|) && high == High(|fed|)
      && buffer[..|fed| % 64] == Tail(fed)
    }

    lemma LowCounts()
      requires Valid()
      ensures low / 8 % 64 == |fed| % 64
    {
      HeldBytes(|fed|);
    }

    constructor (f: Transform)
      ensures transform == f && buffer.Length == 64 && fresh(buffer)
    {
      transform, buffer := f, new byte[64];
      state, low, high := [0, 0, 0, 0, 0], 0, 0;
    }

    method Init()
      requires buffer.Length == 64
      modifies this
      ensures Valid() && fed == [] && low == 0 && high == 0
      ensures state == [0x67452301, 0xEFCDAB89, 0x98BADCFE, 0x10325476, 0xC3D2E1F0]
    {
      state, low, high := INITIAL, 0, 0;
      fed := [];
    }

    method Update(data: seq<byte>)
      requires Valid()
      modifies this, buffer
      ensures Valid() && fed == old(fed) + data
    {
      var held, len := low / 8 % 64, |data|;
      ghost var m, tail := fed, Tail(fed);
      Held();
      hide *;
      AddCount(len);
      assert low == Low(|m + data|) && high == High(|m + data|);
      FoldAppend(transform, INITIAL, m, data);
      FoldFirst(transform, state, tail + data);
      var j, i := held, 0;
      if j + len > 63 {
        Store(j, data, 0, 64 - j);
        FirstBlock(buffer[..], tail, data);
        assert buffer[..64] == buffer[..];
        i := TransformBlocks(data, j);
        j := 0;
        TailFrom(m, data, i);
      } else {
        TailGrows(m, data);
      }
      Store(j, data, i, len);
      fed := fed + data;
      ValidAgain();
    }

    lemma Held()
      requires Valid()
      ensures buffer.Length == 64 && state == Fold(transform, INITIAL, fed)
      ensures low == Low(|fed|) && high == High(|fed|)
      ensures low / 8 % 64 == |Tail(fed)| == |fed| % 64 && buffer[..low / 8 % 64] == Tail(fed)
    {
      LowCounts();
      hide Fold, Low, High;
    }

    lemma ValidAgain()
      requires buffer.Length == 64 && state == Fold(transform, INITIAL, fed)
      requires low == Low(|fed|) && high == High(|fed|) && buffer[..|fed| % 64] == Tail(fed)
      ensures Valid()
    {
    }

    /** Transforms the full buffer, then whole blocks of data as long as there are any. */
    method TransformBlocks(data: seq<byte>, held: nat) returns (i: nat)
      requires buffer.Length == 64 && held < 64 <= held + |data|
      modifies this`state
      ensures i <= |data| < i + 64 && (i + held) % 64 == 0
      ensures state == Fold(transform, transform(old(state), buffer[..]), data[64 - held..])
    {
      hide Fold;
      i := 64 - held;
      state := transform(state, buffer[..]);
      ghost var goal := Fold(transform, state, data[i..]);
      while i + 63 < |data|
        invariant i <= |data| && (i + held) % 64 == 0
        invariant Fold(transform, state, data[i..]) == goal
      {
        FoldBlock(transform, state, data[i..]);
        assert data[i..][..64] == data[i..i + 64] && data[i..][64..] == data[i + 64..];
        state := transform(state, data[i..i + 64]);
        i := i + 64;
      }
    }

    /** A one bit, and zeros until eight bytes short of a block. */
    method AddPadding()
      requires Valid()
      modifies this, buffer
      ensures Valid() && fed == old(fed) + [0x80] + Zeros((55 - |old(fed)|) % 64)
    {
      ghost var n, k, z := |fed|, (55 - |fed|) % 64, 0;
      Update([0x80]);
      LowCounts();
      hide Valid;
      ZerosMissing(n, k, z);
      while low / 8 % 64 != 56
        invariant Valid() && low / 8 % 64 == |fed| % 64 && z <= k && n + 1 + z == |fed|
        invariant fed == old(fed) + [0x80] + Zeros(z)
        invariant |fed| % 64 == 56 <==> z == k
        decreases k - z
      {
        Update([0]);
        LowCounts();
        z := z + 1;
        ZerosMissing(n, k, z);
      }
    }

    /** Feeds the padding and the length of what was fed before. */
    method Finish()
      requires Valid()
      modifies this, buffer
      ensures Valid() && fed == Pad(old(fed))
    {
      var lengthBytes := LengthBytes();
      ghost var m := fed;
      PadParts(m);
      assert low == Low(|m|) && high == High(|m|);
      hide *;
      AddPadding();
      Update(lengthBytes);
    }

    /** Takes the digest and wipes the context. */
    method Final() returns (digest: array<byte>)
      requires Valid()
      modifies this, buffer
      ensures fresh(digest) && digest[..] == Digest(transform, old(fed))
      ensures state == [0, 0, 0, 0, 0] && low == 0 && high == 0 && buffer[..] == Zeros(64)
    {
      ghost var m := fed;
      assert buffer.Length == 64;
      hide *;
      Finish();
      Digested(m);
      digest := StateBytes();
      Wipe();
    }

    lemma PadParts(m: seq<byte>)
      ensures Pad(m) == m + [0x80] + Zeros((55 - |m|) % 64) + (BigEndian(High(|m|), 4) + BigEndian(Low(|m|), 4))
    {
      hide BigEndian, Zeros, High, Low;
    }

    lemma Digested(m: seq<byte>)
      requires Valid() && fed == Pad(m)
      ensures WordBytes(state) == Digest(transform, m)
    {
      hide Fold, Pad, WordBytes;
    }

    method Wipe()
      requires buffer.Length == 64
      modifies this, buffer
      ensures state == [0, 0, 0, 0, 0] && low == 0 && high == 0 && buffer[..] == Zeros(64)
    {
      state, low, high := [0, 0, 0, 0, 0], 0, 0;
      forall k | 0 <= k < buffer.Length {
        buffer[k] := 0;
      }
    }

    /** Adds the bits of `len` bytes to the counters. */
    method AddCount(len: nat)
      modifies this`low, this`high
      ensures forall n: nat :: old(low) == Low(n) && old(high) == High(n) ==> low == Low(n + len) && high == High(n + len)
    {
      forall n: nat | low == Low(n) && high == High(n)
        ensures Count(low, high, len) == (Low(n + len), High(n + len))
      {
        CountAdds(n, len);
      }
      var before := low;
      low := (low + len % WORD * 8 % WORD) % WORD;
      if low < before {
        high := (high + 1) % WORD;
      }
      high := (high + len / 0x2000_0000 % WORD) % WORD;
    }

    /** The two counters, most significant byte first. */
    method LengthBytes() returns (b: seq<byte>)
      ensures b == BigEndian(high, 4) + BigEndian(low, 4)
    {
      b := [];
      for i := 0 to 8
        invariant b == (BigEndian(high, 4) + BigEndian(low, 4))[..i]
      {
        var word := if i >= 4 then low else high;
        ByteOfWord(word, i % 4);
        b := b + [word / Pow256(3 - i % 4) % 256];
      }
    }

    method StateBytes() returns (digest: array<byte>)
      ensures fresh(digest) && digest[..] == WordBytes(state)
    {
      digest := new byte[20];
      for i := 0 to 20
        invariant forall k :: 0 <= k < i ==> digest[k] == WordBytes(state)[k]
      {
        ByteOfWord(state[i / 4], i % 4);
        WordBytesAt(state, i);
        digest[i] := state[i / 4] / Pow256(3 - i % 4) % 256;
      }
    }

    /** Copies data[from..to] to the buffer, from index j on. */
    method Store(j: nat, data: seq<byte>, from: nat, to: nat)
      requires from <= to <= |data| && j + (to - from) <= buffer.Length
      modifies buffer
      ensures buffer[..] == old(buffer[..j]) + data[from..to] + old(buffer[j + (to - from)..])
      ensures buffer[..j + (to - from)] == old(buffer[..j]) + data[from..to]
    {
      for k := 0 to to - from
        invariant forall x :: 0 <= x < buffer.Length ==>
          buffer[x] == if j <= x < j + k then data[from + (x - j)] else old(buffer[x])
      {
        buffer[j + k] := data[from + k];
      }
    }
  }

  /** The byte counter modulo 64, read from the low word. */
  lemma HeldBytes(n: nat)
    ensures Low(n) / 8 % 64 == n % 64
  {
    var q, r := n / 0x2000_0000, n % 0x2000_0000;
    assert n == q * 0x2000_0000 + r;
    Divides(8 * n, q, 8 * r);
    SameInBlock(n, q * 0x80_0000, r);
    assert 8 * r / 8 == r;
  }

  lemma SameInBlock(n: nat, q: nat, r: nat)
    requires n == 64 * q + r
    ensures n % 64 == r % 64
  {
  }

  /** However a message is cut into updates, the digest is that of the whole message. */
  method Hash(f: Transform, chunks: seq<seq<byte>>) returns (digest: array<byte>)
    ensures digest[..] == Digest(f, Concat(chunks))
  {
    var context := new Context(f);
    context.Init();
    hide *;
    ConcatNothing(chunks);
    for i := 0 to |chunks|
      invariant context.Valid() && fresh(context) && fresh(context.buffer) && context.transform == f
      invariant context.fed == Concat(chunks[..i])
    {
      ConcatNext(chunks, i);
      context.Update(chunks[i]);
    }
    assert chunks[..|chunks|] == chunks;
    digest := context.Final();
  }

  lemma ConcatNothing(chunks: seq<seq<byte>>)
    ensures Concat(chunks[..0]) == []
  {
  }

  lemma ConcatNext(chunks: seq<seq<byte>>, i: nat)
    requires i < |chunks|
    ensures Concat(chunks[..i + 1]) == Concat(chunks[..i]) + chunks[i]
  {
    ConcatSnoc(chunks[..i], chunks[i]);
    assert chunks[..i + 1] == chunks[..i] + [chunks[i]];
  }

  lemma FoldFirst(f: Transform, s: Words, m: seq<byte>)
    ensures Fold(f, s, m) == if |m| < 64 then s else Fold(f, f(s, m[..64]), m[64..])
  {
  }

  /** The full buffer is the first block of the held bytes and the data. */
  lemma FirstBlock(buffer: seq<byte>, tail: seq<byte>, data: seq<byte>)
    requires |tail| < 64 <= |tail + data| && |buffer| >= 64 && buffer[..64] == tail + data[..64 - |tail|]
    ensures (tail + data)[..64] == buffer[..64] && (tail + data)[64..] == data[64 - |tail|..]
  {
  }

  lemma TailGrows(m: seq<byte>, data: seq<byte>)
    requires |m| % 64 + |data| < 64
    ensures Tail(m + data) == Tail(m) + data && |m + data| % 64 == |m| % 64 + |data|
  {
    var q, r := |m| / 64, |m| % 64;
    assert |m + data| == 64 * q + (r + |data|);
  }

  lemma TailFrom(m: seq<byte>, data: seq<byte>, i: nat)
    requires i <= |data| < i + 64 && (i + |m| % 64) % 64 == 0
    ensures Tail(m + data) == data[i..] && |m + data| % 64 == |data| - i
  {
    var q, r := |m| / 64, |m| % 64;
    assert i + r == 64 * ((i + r) / 64);
    assert |m + data| == 64 * (q + (i + r) / 64) + (|data| - i);
  }
}
