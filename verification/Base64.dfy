/** Base64 (section 4 of RFC 4648), built one byte at a time. */
module Base64 {
  import opened Wrappers

  /** Character of a sextet. */
  function Idx(c: bv8): bv8 {
    if c < 26 then c + 65
    else if c < 52 then c - 26 + 97
    else if c < 62 then c - 52 + 48
    else if c == 62 then 43 else 47
  }

  const EQUALS: bv8 := 61
  const PAD: bv8 := 64
  const BAD: bv8 := 255

  /** Sextet of a character, `PAD` for the equals sign, `BAD` for characters outside the alphabet. */
  function Rev(c: bv8): (r: bv8)
    ensures r < 64 || r == BAD || r == PAD
    ensures r == PAD <==> c == EQUALS
  {
    if 65 <= c <= 90 then c - 65
    else if 97 <= c <= 122 then c + 26 - 97
    else if 48 <= c <= 57 then c + 52 - 48
    else if c == 43 then 62
    else if c == 47 then 63
    else if c == EQUALS then PAD
    else BAD
  }

  lemma RevIdx(c: bv8)
    requires c < 64
    ensures Rev(Idx(c)) == c && Idx(c) != EQUALS
  {
  }

  // ----- the encoding of RFC 4648 -----

  /** Three bytes as one 24-bit group, and its four sextets from the left. */
  function Sextets(a: bv8, b: bv8, c: bv8): (s: seq<bv8>)
    ensures |s| == 4
  {
    var g := (a as bv24 << 16) | (b as bv24 << 8) | c as bv24;
    [((g >> 18) & 63) as bv8, ((g >> 12) & 63) as bv8, ((g >> 6) & 63) as bv8, (g & 63) as bv8]
  }

  lemma SextetBits(a: bv8, b: bv8, c: bv8)
    ensures Sextets(a, b, c) == [a >> 2, ((a & 3) << 4) | (b >> 4), ((b & 15) << 2) | (c >> 6), c & 63]
  {
  }

  /** Zero bits complete the last group; what carries no input bit becomes an equals sign. */
  function Encoding(x: seq<bv8>): (e: seq<bv8>)
    ensures |e| == (|x| + 2) / 3 * 4
  {
    if |x| == 0 then []
    else if |x| == 1 then
      var s := Sextets(x[0], 0, 0);
      [Idx(s[0]), Idx(s[1]), EQUALS, EQUALS]
    else if |x| == 2 then
      var s := Sextets(x[0], x[1], 0);
      [Idx(s[0]), Idx(s[1]), Idx(s[2]), EQUALS]
    else
      var s := Sextets(x[0], x[1], x[2]);
      [Idx(s[0]), Idx(s[1]), Idx(s[2]), Idx(s[3])] + Encoding(x[3..])
  }

  // ----- one byte at a time -----

  /** Bytes in the last, incomplete group. */
  function Rem(n: nat): (r: nat)
    ensures r < 3
  {
    if n < 3 then n else Rem(n - 3)
  }

  /** Number of complete sextets, plus one at the end of a group. */
  function Length(n: nat): nat {
    if n < 3 then n else 4 + Length(n - 3)
  }

  lemma {:induction false} LengthFacts(n: nat)
    ensures Length(n) % 4 == Rem(n) == n % 3
    ensures Length(n) == n / 3 * 4 + n % 3
    ensures Length(n + 1) == Length(n) + if Rem(n) == 2 then 2 else 1
    ensures Rem(n + 1) == if Rem(n) == 2 then 0 else Rem(n) + 1
  {
    if n >= 3 {
      LengthFacts(n - 3);
    }
  }

  lemma LengthStep(n: nat)
    ensures Length(n + 1) == Length(n) + if Rem(n) == 2 then 2 else 1
  {
    LengthFacts(n);
  }

  /** Characters of the complete sextets of x. */
  function Chars(x: seq<bv8>): (to: seq<bv8>)
    ensures |to| == Length(|x|)
  {
    if |x| == 0 then []
    else if |x| == 1 then [Idx(Sextets(x[0], 0, 0)[0])]
    else if |x| == 2 then [Idx(Sextets(x[0], x[1], 0)[0]), Idx(Sextets(x[0], x[1], 0)[1])]
    else
      var s := Sextets(x[0], x[1], x[2]);
      [Idx(s[0]), Idx(s[1]), Idx(s[2]), Idx(s[3])] + Chars(x[3..])
  }

  /** The sextet whose low bits are still missing, 0 if there is none. */
  function Partial(x: seq<bv8>): bv8 {
    if |x| == 0 then 0
    else if |x| == 1 then Sextets(x[0], 0, 0)[1]
    else if |x| == 2 then Sextets(x[0], x[1], 0)[2]
    else Partial(x[3..])
  }

  /** The n characters at the front of `to`, and the partial sextet after them, represent x. */
  predicate Represents(to: seq<bv8>, n: nat, x: seq<bv8>) {
    && n == Length(|x|) && n < |to|
    && to[..n] == Chars(x)
    && (Rem(|x|) != 0 ==> to[n] == Partial(x))
  }

  // The bits of a byte that complete a sextet, and those that begin the next one.

  function Begin(ch: bv8): bv8 {
    ch >> 2
  }

  function Rest2(ch: bv8): bv8 {
    (ch & 3) << 4
  }

  function Join4(partial: bv8, ch: bv8): bv8 {
    partial | (ch >> 4)
  }

  function Rest4(ch: bv8): bv8 {
    (ch & 15) << 2
  }

  function Join2(partial: bv8, ch: bv8): bv8 {
    partial | (ch >> 6)
  }

  function Rest6(ch: bv8): bv8 {
    ch & 63
  }

  /** The character completed by the next byte. */
  function Completed(partial: bv8, ch: bv8, rem: nat): bv8 {
    Idx(if rem == 0 then Begin(ch) else if rem == 1 then Join4(partial, ch) else Join2(partial, ch))
  }

  /** What the next byte leaves: a partial sextet, or at the end of a group one more character. */
  function Left(ch: bv8, rem: nat): bv8 {
    if rem == 0 then Rest2(ch) else if rem == 1 then Rest4(ch) else Idx(Rest6(ch))
  }

  lemma FirstByte(ch: bv8)
    ensures Completed(0, ch, 0) == Idx(Sextets(ch, 0, 0)[0]) && Left(ch, 0) == Sextets(ch, 0, 0)[1]
  {
    SextetBits(ch, 0, 0);
    hide Idx, Sextets;
  }

  lemma SecondByte(a: bv8, ch: bv8)
    ensures var s, t := Sextets(a, 0, 0), Sextets(a, ch, 0);
            Completed(s[1], ch, 1) == Idx(t[1]) && Left(ch, 1) == t[2] && s[0] == t[0]
  {
    SextetBits(a, 0, 0);
    SextetBits(a, ch, 0);
    hide Idx, Sextets;
  }

  lemma ThirdByte(a: bv8, b: bv8, ch: bv8)
    ensures var s, t := Sextets(a, b, 0), Sextets(a, b, ch);
            Completed(s[2], ch, 2) == Idx(t[2]) && Left(ch, 2) == Idx(t[3]) && s[0] == t[0] && s[1] == t[1]
  {
    SextetBits(a, b, 0);
    SextetBits(a, b, ch);
    hide Idx, Sextets;
  }

  /** The characters the next byte adds. */
  function Added(partial: bv8, ch: bv8, rem: nat): (c: seq<bv8>)
    ensures |c| == if rem == 2 then 2 else 1
    ensures c[0] == Completed(partial, ch, rem) && (rem == 2 ==> c[1] == Left(ch, rem))
  {
    if rem == 2 then [Completed(partial, ch, rem), Left(ch, rem)] else [Completed(partial, ch, rem)]
  }

  lemma GrowNone(ch: bv8)
    ensures Chars([ch]) == Chars([]) + Added(Partial([]), ch, 0) && Partial([ch]) == Left(ch, 0)
  {
    FirstByte(ch);
    hide Idx, Sextets, Completed, Left;
  }

  lemma GrowOne(a: bv8, ch: bv8)
    ensures Chars([a, ch]) == Chars([a]) + Added(Partial([a]), ch, 1) && Partial([a, ch]) == Left(ch, 1)
  {
    SecondByte(a, ch);
    hide Idx, Sextets, Completed, Left;
  }

  lemma GrowTwo(a: bv8, b: bv8, ch: bv8)
    ensures Chars([a, b, ch]) == Chars([a, b]) + Added(Partial([a, b]), ch, 2)
  {
    ThirdByte(a, b, ch);
    hide Idx, Sextets, Completed, Left;
    assert [a, b, ch][3..] == [] && Chars([]) == [];
  }

  lemma GrowsBy(x: seq<bv8>, y: seq<bv8>, was: seq<bv8>, now: seq<bv8>, ch: bv8, r: nat)
    requires x == was && y == now
    requires Chars(now) == Chars(was) + Added(Partial(was), ch, r) && (r != 2 ==> Partial(now) == Left(ch, r))
    ensures Chars(y) == Chars(x) + Added(Partial(x), ch, r) && (r != 2 ==> Partial(y) == Left(ch, r))
  {
  }

  lemma GrowInGroup(x: seq<bv8>, ch: bv8)
    requires |x| < 3
    ensures Chars(x + [ch]) == Chars(x) + Added(Partial(x), ch, |x|)
    ensures |x| != 2 ==> Partial(x + [ch]) == Left(ch, |x|)
  {
    hide *;
    if |x| == 0 {
      GrowNone(ch);
      GrowsBy(x, x + [ch], [], [ch], ch, 0);
    } else if |x| == 1 {
      GrowOne(x[0], ch);
      GrowsBy(x, x + [ch], [x[0]], [x[0], ch], ch, 1);
    } else {
      GrowTwo(x[0], x[1], ch);
      GrowsBy(x, x + [ch], [x[0], x[1]], [x[0], x[1], ch], ch, 2);
    }
  }

  /** The characters of one whole group. */
  function Quad(a: bv8, b: bv8, c: bv8): seq<bv8> {
    var s := Sextets(a, b, c);
    [Idx(s[0]), Idx(s[1]), Idx(s[2]), Idx(s[3])]
  }

  lemma CharsStep(x: seq<bv8>)
    requires |x| >= 3
    ensures Chars(x) == Quad(x[0], x[1], x[2]) + Chars(x[3..]) && Partial(x) == Partial(x[3..])
    ensures Rem(|x|) == Rem(|x[3..]|)
  {
    hide Idx, Sextets;
  }

  lemma Associate(a: seq<bv8>, b: seq<bv8>, c: seq<bv8>)
    ensures a + (b + c) == a + b + c
  {
  }

  /** One more byte completes the partial sextet. */
  lemma {:induction false} CharsGrow(x: seq<bv8>, ch: bv8)
    ensures var r, y := Rem(|x|), x + [ch];
            Chars(y) == Chars(x) + Added(Partial(x), ch, r) && (r != 2 ==> Partial(y) == Left(ch, r))
    decreases |x|
  {
    if |x| < 3 {
      GrowInGroup(x, ch);
      assert Rem(|x|) == |x|;
      hide *;
    } else {
      var y := x + [ch];
      hide *;
      CharsGrow(x[3..], ch);
      assert y[3..] == x[3..] + [ch] && y[0] == x[0] && y[1] == x[1] && y[2] == x[2];
      CharsStep(x);
      CharsStep(y);
      Associate(Quad(x[0], x[1], x[2]), Chars(x[3..]), Added(Partial(x), ch, Rem(|x|)));
    }
  }

  lemma RepresentsNext(to: seq<bv8>, to': seq<bv8>, n: nat, n': nat, x: seq<bv8>, ch: bv8)
    requires Represents(to, n, x) && |to| == |to'| && n' == n + (if Rem(|x|) == 2 then 2 else 1)
    requires to'[..n] == to[..n] && n' < |to'|
    requires to'[n] == Completed(to[n], ch, Rem(|x|)) && n + 1 < |to'| && to'[n + 1] == Left(ch, Rem(|x|))
    ensures Represents(to', n', x + [ch])
  {
    hide Chars, Partial, Completed, Left, Length, Rem;
    CharsGrow(x, ch);
    LengthFacts(|x|);
    NoPartial(to[n], Partial(x), ch);
    if Rem(|x|) == 2 {
      assert to'[..n'] == to[..n] + [to'[n], to'[n + 1]];
    } else {
      assert to'[..n'] == to[..n] + [to'[n]];
    }
  }

  lemma NoPartial(p: bv8, q: bv8, ch: bv8)
    ensures Completed(p, ch, 0) == Completed(q, ch, 0)
  {
  }

  method Update(ch: bv8, to: array<bv8>, n: nat, ghost x: seq<bv8>) returns (n': nat)
    requires Length(|x| + 1) < to.Length && Represents(to[..], n, x)
    modifies to
    ensures Represents(to[..], n', x + [ch])
    ensures n' == n + if n % 4 == 2 then 2 else 1
  {
    LengthFacts(|x|);
    ghost var was := to[..];
    assert n == Length(|x|);
    hide Represents, Idx, Chars, Partial, Length, Rem, Begin, Rest2, Join4, Rest4, Join2, Rest6;
    var rem := n % 4 % 3;
    n' := n;
    if rem == 0 {
      to[n'] := Idx(Begin(ch));
      n' := n' + 1;
      to[n'] := Rest2(ch);
    } else if rem == 1 {
      to[n'] := Idx(Join4(to[n'], ch));
      n' := n' + 1;
      to[n'] := Rest4(ch);
    } else {
      to[n'] := Idx(Join2(to[n'], ch));
      n' := n' + 1;
      to[n'] := Idx(Rest6(ch));
      n' := n' + 1;
    }
    RepresentsNext(was, to[..], n, n', x, ch);
  }

  /** What the characters of x still need. */
  function Ending(partial: bv8, rem: nat): seq<bv8> {
    if rem == 0 then []
    else if rem == 1 then [Completed(partial, 0, 1), EQUALS, EQUALS]
    else [Completed(partial, 0, 2), EQUALS]
  }

  lemma {:induction false} EncodingEnds(x: seq<bv8>)
    ensures Encoding(x) == Chars(x) + Ending(Partial(x), Rem(|x|))
    ensures |Encoding(x)| == Length(|x|) + if Rem(|x|) == 0 then 0 else 4 - Rem(|x|)
    decreases |x|
  {
    hide Completed, Idx, Sextets;
    if |x| == 1 {
      SecondByte(x[0], 0);
    } else if |x| == 2 {
      ThirdByte(x[0], x[1], 0);
    } else if |x| > 2 {
      EncodingEnds(x[3..]);
    }
  }

  /** Where the equals signs start, and what precedes them. */
  lemma BeforeEquals(to: seq<bv8>, x: seq<bv8>)
    requires Represents(to, Length(|x| + 1), x + [0])
    ensures var e, n := Encoding(x), Length(|x|);
            Rem(|x|) > 0 ==> n + 1 < |e| && n + 1 < |to| && to[..n + 1] == e[..n + 1]
                             && forall k :: n + 1 <= k < |e| ==> e[k] == EQUALS
  {
    hide Encoding, Completed, Left, Partial, Length, Rem, Chars;
    EncodingEnds(x);
    CharsGrow(x, 0);
    LengthStep(|x|);
    var c, r, p := Chars(x), Rem(|x|), Partial(x);
    var mid := Added(p, 0, r);
    assert to[..|c + mid|] == c + mid;
    hide Represents;
    if r > 0 {
      SharedPrefix(to, c, mid, Ending(p, r));
    }
  }

  lemma SharedPrefix(to: seq<bv8>, c: seq<bv8>, mid: seq<bv8>, end: seq<bv8>)
    requires |c + mid| <= |to| && to[..|c + mid|] == c + mid && mid != [] && end != [] && mid[0] == end[0]
    ensures to[..|c| + 1] == (c + end)[..|c| + 1]
    ensures forall k :: |c| + 1 <= k < |c + end| ==> (c + end)[k] == end[k - |c|]
  {
    assert to[..|c| + 1] == to[..|c + mid|][..|c| + 1];
  }

  method Final(to: array<bv8>, n: nat, ghost x: seq<bv8>) returns (n': nat)
    requires |Encoding(x)| < to.Length && Represents(to[..], n, x)
    modifies to
    ensures n' < to.Length && to[..n'] == Encoding(x) && to[n'] == 0
  {
    LengthFacts(|x|);
    EncodingEnds(x);
    ghost var e := Encoding(x);
    assert |e| % 4 == 0 && (n % 4 == 0 ==> to[..n] == e);
    hide *;
    if n % 4 == 0 {
      n' := n;
    } else {
      n' := CompletePartial(to, n, x);
      n' := Fill(to, n', e);
    }
    to[n'] := 0;
  }

  /** Completes the partial sextet with zero bits, without the character after it. */
  method CompletePartial(to: array<bv8>, n: nat, ghost x: seq<bv8>) returns (n': nat)
    requires |Encoding(x)| < to.Length && Represents(to[..], n, x) && n % 4 != 0
    modifies to
    ensures var e := Encoding(x);
            && |e| - 4 < n' <= |e| && to[..n'] == e[..n']
            && forall k :: n' <= k < |e| ==> e[k] == EQUALS
  {
    LengthFacts(|x|);
    EncodingEnds(x);
    assert n == Length(|x|) && 1 <= n % 4 <= 2 && |Encoding(x)| == n + (4 - n % 4) && Rem(|x|) > 0;
    assert Length(|x| + 1) < to.Length;
    hide *;
    n' := Update(0, to, n, x);
    BeforeEquals(to[..], x);
    if n % 4 == 2 {
      n' := n' - 1;
    }
    assert n' == n + 1;
  }

  /** Equals signs up to the next multiple of four. */
  method Fill(to: array<bv8>, n: nat, ghost e: seq<bv8>) returns (n': nat)
    requires |e| < to.Length && |e| % 4 == 0 && |e| - 4 < n <= |e| && to[..n] == e[..n]
    requires forall k :: n <= k < |e| ==> e[k] == EQUALS
    modifies to
    ensures n' == |e| && to[..n'] == e
  {
    n' := n;
    while n' % 4 != 0
      invariant n <= n' <= |e| && forall k :: 0 <= k < n' ==> to[k] == e[k]
      decreases |e| - n'
    {
      to[n'] := EQUALS;
      n' := n' + 1;
    }
  }

  method Encode(p: seq<bv8>, to: array<bv8>) returns (len: nat)
    requires to.Length > (|p| + 2) / 3 * 4
    modifies to
    ensures len == (|p| + 2) / 3 * 4 && to[..len] == Encoding(p) && to[len] == 0
  {
    len := 0;
    for i := 0 to |p|
      invariant Represents(to[..], len, p[..i])
    {
      assert p[..i + 1] == p[..i] + [p[i]];
      LengthFits(i + 1, |p|);
      len := Update(p[i], to, len, p[..i]);
    }
    assert p[..|p|] == p;
    len := Final(to, len, p);
  }

  lemma LengthFits(m: nat, n: nat)
    requires m <= n
    ensures Length(m) <= (n + 2) / 3 * 4
  {
    LengthFacts(m);
  }

  // ----- decoding -----

  /** Four sextets as one 24-bit group, and its three bytes from the left. */
  function Bytes(a: bv8, b: bv8, c: bv8, d: bv8): (x: seq<bv8>)
    requires a < 64 && b < 64 && c < 64 && d < 64
    ensures |x| == 3
  {
    var g := (a as bv24 << 18) | (b as bv24 << 12) | (c as bv24 << 6) | d as bv24;
    [((g >> 16) & 255) as bv8, ((g >> 8) & 255) as bv8, (g & 255) as bv8]
  }

  lemma ByteBits(a: bv8, b: bv8, c: bv8, d: bv8)
    requires a < 64 && b < 64 && c < 64 && d < 64
    ensures Bytes(a, b, c, d) == [(a << 2) | (b >> 4), (b << 4) | (c >> 2), (c << 6) | d]
  {
  }

  lemma BytesOfSextets(a: bv8, b: bv8, c: bv8)
    ensures var s := Sextets(a, b, c);
            s[0] < 64 && s[1] < 64 && s[2] < 64 && s[3] < 64 && Bytes(s[0], s[1], s[2], s[3]) == [a, b, c]
  {
    SextetBits(a, b, c);
    Recombine(a, b, c);
    ByteBits(a >> 2, ((a & 3) << 4) | (b >> 4), ((b & 15) << 2) | (c >> 6), c & 63);
    hide Sextets, Bytes;
  }

  lemma Recombine(a: bv8, b: bv8, c: bv8)
    ensures var p, q, r, s := a >> 2, ((a & 3) << 4) | (b >> 4), ((b & 15) << 2) | (c >> 6), c & 63;
            && p < 64 && q < 64 && r < 64 && s < 64
            && (p << 2) | (q >> 4) == a && (q << 4) | (r >> 2) == b && (r << 6) | s == c
  {
  }

  predicate WellFormed(a: bv8, b: bv8, c: bv8, d: bv8) {
    Rev(a) < 64 && Rev(b) < 64 && Rev(c) != BAD && Rev(d) != BAD
  }

  /** Bytes of four characters. A third equals sign position wins over the fourth. */
  function Group(a: bv8, b: bv8, c: bv8, d: bv8): (x: seq<bv8>)
    requires WellFormed(a, b, c, d)
    ensures |x| == if c == EQUALS then 1 else if d == EQUALS then 2 else 3
  {
    var r, s := if c == EQUALS then 0 else Rev(c), if d == EQUALS then 0 else Rev(d);
    Bytes(Rev(a), Rev(b), r, s)[..if c == EQUALS then 1 else if d == EQUALS then 2 else 3]
  }

  /** All whole groups; further characters are ignored. */
  function Decoding(s: seq<bv8>): (x: Option<seq<bv8>>)
    ensures x.Some? ==> |x.value| <= |s| / 4 * 3
  {
    if |s| < 4 then Some([])
    else if !WellFormed(s[0], s[1], s[2], s[3]) then None
    else
      Prepend(Group(s[0], s[1], s[2], s[3]), Decoding(s[4..]))
  }

  /** The three bytes of four sextets, by shifts on single bytes. */
  function First(a: bv8, b: bv8): bv8 {
    (a << 2) | (b >> 4)
  }

  function Second(b: bv8, c: bv8): bv8 {
    (b << 4) | (c >> 2)
  }

  function Third(c: bv8, d: bv8): bv8 {
    (c << 6) | d
  }

  lemma GroupBits(a: bv8, b: bv8, c: bv8, d: bv8)
    requires WellFormed(a, b, c, d)
    ensures var x := Group(a, b, c, d);
            && x[0] == First(Rev(a), Rev(b))
            && (c != EQUALS ==> x[1] == Second(Rev(b), Rev(c)))
            && (c != EQUALS && d != EQUALS ==> x[2] == Third(Rev(c), Rev(d)))
  {
    ByteBits(Rev(a), Rev(b), if c == EQUALS then 0 else Rev(c), if d == EQUALS then 0 else Rev(d));
    hide Bytes, Rev;
  }

  function Prepend(front: seq<bv8>, rest: Option<seq<bv8>>): Option<seq<bv8>> {
    match rest
    case None => None
    case Some(x) => Some(front + x)
  }

  lemma PrependTwice(a: seq<bv8>, b: seq<bv8>, rest: Option<seq<bv8>>)
    ensures Prepend(a, Prepend(b, rest)) == Prepend(a + b, rest)
  {
    if rest.Some? {
      assert a + (b + rest.value) == a + b + rest.value;
    }
  }

  /** Writes the bytes of the four characters at src[i]. */
  method PutGroup(src: seq<bv8>, i: nat, dst: array<bv8>, len: nat) returns (len': nat)
    requires i + 3 < |src| && len + 3 <= dst.Length && WellFormed(src[i], src[i + 1], src[i + 2], src[i + 3])
    modifies dst
    ensures var x := Group(src[i], src[i + 1], src[i + 2], src[i + 3]);
            len' == len + |x| && forall k :: 0 <= k < |x| ==> dst[len + k] == x[k]
    ensures forall k :: 0 <= k < len ==> dst[k] == old(dst[k])
  {
    var a, b, c, d := Rev(src[i]), Rev(src[i + 1]), Rev(src[i + 2]), Rev(src[i + 3]);
    GroupBits(src[i], src[i + 1], src[i + 2], src[i + 3]);
    hide *;
    len' := len;
    dst[len'] := First(a, b);
    len' := len' + 1;
    if src[i + 2] != EQUALS {
      dst[len'] := Second(b, c);
      len' := len' + 1;
      if src[i + 3] != EQUALS {
        dst[len'] := Third(c, d);
        len' := len' + 1;
      }
    }
  }

  /** Returns 0 for malformed text. */
  method Decode(src: seq<bv8>, dst: array<bv8>) returns (len: nat)
    requires dst.Length > |src| / 4 * 3
    modifies dst
    ensures match Decoding(src)
            case None => len == 0
            case Some(x) => len == |x| && dst[..len] == x && dst[len] == 0
  {
    len := 0;
    var i := 0;
    PrependNothing(Decoding(src));
    assert src[0..] == src;
    hide *;
    ghost var g := 0;
    while i + 3 < |src|
      invariant i == 4 * g && g <= |src| / 4 && len <= 3 * g
      invariant Decoding(src) == Prepend(dst[..len], Decoding(src[i..]))
    {
      var ok;
      ok, len := DecodeGroup(src, i, dst, len);
      if !ok {
        return 0;
      }
      i := i + 4;
      g := g + 1;
    }
    DecodingEnd(dst[..len], src[i..]);
    dst[len] := 0;
  }

  method DecodeGroup(src: seq<bv8>, i: nat, dst: array<bv8>, len: nat) returns (ok: bool, len': nat)
    requires i + 3 < |src| && len + 3 <= dst.Length
    modifies dst
    ensures len <= len' <= len + 3
    ensures Prepend(old(dst[..len]), Decoding(src[i..]))
            == if ok then Prepend(dst[..len'], Decoding(src[i + 4..])) else None
  {
    OneGroup(src, i, dst[..len]);
    hide *;
    var a, b, c, d := Rev(src[i]), Rev(src[i + 1]), Rev(src[i + 2]), Rev(src[i + 3]);
    if a == PAD || a == BAD || b == PAD || b == BAD || c == BAD || d == BAD {
      return false, len;
    }
    len' := PutGroup(src, i, dst, len);
    assert dst[..len'] == old(dst[..len]) + Group(src[i], src[i + 1], src[i + 2], src[i + 3]);
    ok := true;
  }

  lemma OneGroup(src: seq<bv8>, i: nat, done: seq<bv8>)
    requires i + 3 < |src|
    ensures var a, b, c, d := src[i], src[i + 1], src[i + 2], src[i + 3];
            && (WellFormed(a, b, c, d) <==> Rev(a) != PAD && Rev(a) != BAD && Rev(b) != PAD && Rev(b) != BAD
                                            && Rev(c) != BAD && Rev(d) != BAD)
            && Prepend(done, Decoding(src[i..]))
               == if WellFormed(a, b, c, d) then Prepend(done + Group(a, b, c, d), Decoding(src[i + 4..])) else None
  {
    assert src[i..][4..] == src[i + 4..];
    hide Rev, Group;
    DecodingStep(src[i..]);
    if WellFormed(src[i], src[i + 1], src[i + 2], src[i + 3]) {
      PrependTwice(done, Group(src[i], src[i + 1], src[i + 2], src[i + 3]), Decoding(src[i + 4..]));
    }
  }

  lemma DecodingStep(s: seq<bv8>)
    requires |s| >= 4
    ensures Decoding(s) == if WellFormed(s[0], s[1], s[2], s[3])
                           then Prepend(Group(s[0], s[1], s[2], s[3]), Decoding(s[4..])) else None
  {
  }

  lemma DecodingEnd(front: seq<bv8>, s: seq<bv8>)
    requires |s| < 4
    ensures Prepend(front, Decoding(s)) == Some(front)
  {
    assert front + [] == front;
  }

  lemma PrependNothing(rest: Option<seq<bv8>>)
    ensures Prepend([], rest) == rest
  {
    if rest.Some? {
      assert [] + rest.value == rest.value;
    }
  }

  lemma FullGroup(a: bv8, b: bv8, c: bv8, d: bv8)
    requires a < 64 && b < 64 && c < 64 && d < 64
    ensures WellFormed(Idx(a), Idx(b), Idx(c), Idx(d)) && Group(Idx(a), Idx(b), Idx(c), Idx(d)) == Bytes(a, b, c, d)
    ensures WellFormed(Idx(a), Idx(b), Idx(c), EQUALS) && Group(Idx(a), Idx(b), Idx(c), EQUALS) == Bytes(a, b, c, 0)[..2]
    ensures WellFormed(Idx(a), Idx(b), EQUALS, EQUALS) && Group(Idx(a), Idx(b), EQUALS, EQUALS) == Bytes(a, b, 0, 0)[..1]
  {
    RevIdx(a);
    RevIdx(b);
    RevIdx(c);
    RevIdx(d);
    assert Rev(EQUALS) == PAD;
    hide Rev, Idx, Bytes;
  }

  lemma LastGroup(a: bv8, b: bv8)
    ensures var s := Sextets(a, b, 0);
            var e := [Idx(s[0]), Idx(s[1]), Idx(s[2]), EQUALS];
            WellFormed(e[0], e[1], e[2], e[3]) && Group(e[0], e[1], e[2], e[3]) == [a, b]
    ensures var s := Sextets(a, 0, 0);
            var e := [Idx(s[0]), Idx(s[1]), EQUALS, EQUALS];
            WellFormed(e[0], e[1], e[2], e[3]) && Group(e[0], e[1], e[2], e[3]) == [a]
  {
    BytesOfSextets(a, b, 0);
    BytesOfSextets(a, 0, 0);
    SextetBits(a, b, 0);
    SextetBits(a, 0, 0);
    var s, t := Sextets(a, b, 0), Sextets(a, 0, 0);
    FullGroup(s[0], s[1], s[2], 0);
    FullGroup(t[0], t[1], 0, 0);
    assert s[3] == 0 && t[2] == 0 && t[3] == 0;
    hide Sextets, Bytes, Idx, Rev, Group, WellFormed;
  }

  /** Decoding undoes encoding. */
  lemma {:induction false} DecodeEncode(x: seq<bv8>)
    ensures Decoding(Encoding(x)) == Some(x)
    decreases |x|
  {
    hide Sextets, Idx, Rev, Group, Bytes, WellFormed;
    if |x| > 2 {
      var s := Sextets(x[0], x[1], x[2]);
      BytesOfSextets(x[0], x[1], x[2]);
      FullGroup(s[0], s[1], s[2], s[3]);
      DecodeEncode(x[3..]);
      assert Encoding(x)[4..] == Encoding(x[3..]);
      assert x == [x[0], x[1], x[2]] + x[3..];
    } else if |x| > 0 {
      LastGroup(x[0], if |x| == 2 then x[1] else 0);
      assert Encoding(x)[4..] == [] && Decoding([]) == Some([]);
      assert x + [] == x == if |x| == 2 then [x[0], x[1]] else [x[0]];
    }
  }

  // ----- which texts are encodings -----

  /** The last group: equals signs only at its end, and no bits beyond the last byte. */
  predicate CanonicalEnd(a: bv8, b: bv8, c: bv8, d: bv8) {
    && Rev(a) < 64 && Rev(b) < 64
    && (if c == EQUALS then d == EQUALS && Rev(b) & 15 == 0
        else Rev(c) < 64 && (if d == EQUALS then Rev(c) & 3 == 0 else Rev(d) < 64))
  }

  predicate Canonical(s: seq<bv8>) {
    if |s| == 0 then true
    else if |s| < 4 then false
    else if |s| == 4 then CanonicalEnd(s[0], s[1], s[2], s[3])
    else Rev(s[0]) < 64 && Rev(s[1]) < 64 && Rev(s[2]) < 64 && Rev(s[3]) < 64 && Canonical(s[4..])
  }

  lemma IdxRev(c: bv8)
    requires Rev(c) < 64
    ensures Idx(Rev(c)) == c
  {
  }

  lemma {:induction false} EncodingIsCanonical(x: seq<bv8>)
    ensures Canonical(Encoding(x))
    decreases |x|
  {
    if |x| > 0 {
      var b, c := if |x| > 1 then x[1] else 0, if |x| > 2 then x[2] else 0;
      var s := Sextets(x[0], b, c);
      BytesOfSextets(x[0], b, c);
      SextetBits(x[0], b, c);
      RevIdx(s[0]);
      RevIdx(s[1]);
      RevIdx(s[2]);
      RevIdx(s[3]);
      EmptyBits(x[0], b, c);
      hide Sextets, Idx, Rev, Bytes;
      if |x| > 3 {
        EncodingIsCanonical(x[3..]);
        assert Encoding(x)[4..] == Encoding(x[3..]);
      }
    }
  }

  lemma EmptyBits(a: bv8, b: bv8, c: bv8)
    ensures var s := Sextets(a, b, c);
            (b == 0 ==> s[1] & 15 == 0) && (c == 0 ==> s[2] & 3 == 0)
  {
    SextetBits(a, b, c);
    hide Sextets;
  }

  lemma EndIsEncoded(a: bv8, b: bv8, c: bv8, d: bv8)
    requires CanonicalEnd(a, b, c, d)
    ensures WellFormed(a, b, c, d) && Encoding(Group(a, b, c, d)) == [a, b, c, d]
    ensures c != EQUALS && d != EQUALS ==> |Group(a, b, c, d)| == 3
  {
    if c == EQUALS {
      EndOfOne(a, b);
    } else if d == EQUALS {
      EndOfTwo(a, b, c);
    } else {
      EndOfThree(a, b, c, d);
    }
    hide *;
  }

  lemma EndOfOne(a: bv8, b: bv8)
    requires CanonicalEnd(a, b, EQUALS, EQUALS)
    ensures WellFormed(a, b, EQUALS, EQUALS) && Encoding(Group(a, b, EQUALS, EQUALS)) == [a, b, EQUALS, EQUALS]
  {
    GroupBits(a, b, EQUALS, EQUALS);
    OneByte(Group(a, b, EQUALS, EQUALS));
    ResplitFirst(Rev(a), Rev(b));
    ResplitLast(Rev(a), Rev(b), 0);
    IdxRev(a);
    IdxRev(b);
    hide *;
  }

  lemma EndOfTwo(a: bv8, b: bv8, c: bv8)
    requires CanonicalEnd(a, b, c, EQUALS) && c != EQUALS
    ensures WellFormed(a, b, c, EQUALS) && Encoding(Group(a, b, c, EQUALS)) == [a, b, c, EQUALS]
  {
    GroupBits(a, b, c, EQUALS);
    TwoBytes(Group(a, b, c, EQUALS));
    ResplitFirst(Rev(a), Rev(b));
    ResplitSecond(Rev(a), Rev(b), Rev(c));
    ResplitLast(Rev(a), Rev(b), Rev(c));
    IdxRev(a);
    IdxRev(b);
    IdxRev(c);
    hide *;
  }

  lemma EndOfThree(a: bv8, b: bv8, c: bv8, d: bv8)
    requires CanonicalEnd(a, b, c, d) && c != EQUALS && d != EQUALS
    ensures WellFormed(a, b, c, d) && |Group(a, b, c, d)| == 3 && Encoding(Group(a, b, c, d)) == [a, b, c, d]
  {
    GroupBits(a, b, c, d);
    ThreeBytes(Group(a, b, c, d));
    ResplitFirst(Rev(a), Rev(b));
    ResplitSecond(Rev(a), Rev(b), Rev(c));
    ResplitThird(Rev(b), Rev(c), Rev(d));
    IdxRev(a);
    IdxRev(b);
    IdxRev(c);
    IdxRev(d);
    hide *;
  }

  /** The four sextets of three bytes, by shifts on single bytes. */
  function Sextet0(a: bv8): bv8 {
    a >> 2
  }

  function Sextet1(a: bv8, b: bv8): bv8 {
    ((a & 3) << 4) | (b >> 4)
  }

  function Sextet2(b: bv8, c: bv8): bv8 {
    ((b & 15) << 2) | (c >> 6)
  }

  function Sextet3(c: bv8): bv8 {
    c & 63
  }

  lemma OneByte(x: seq<bv8>)
    requires |x| == 1
    ensures Encoding(x) == [Idx(Sextet0(x[0])), Idx(Sextet1(x[0], 0)), EQUALS, EQUALS]
  {
    SextetBits(x[0], 0, 0);
    hide Idx, Sextets;
  }

  lemma TwoBytes(x: seq<bv8>)
    requires |x| == 2
    ensures Encoding(x) == [Idx(Sextet0(x[0])), Idx(Sextet1(x[0], x[1])), Idx(Sextet2(x[1], 0)), EQUALS]
  {
    SextetBits(x[0], x[1], 0);
    hide Idx, Sextets;
  }

  lemma ThreeBytes(x: seq<bv8>)
    requires |x| == 3
    ensures Encoding(x) == [Idx(Sextet0(x[0])), Idx(Sextet1(x[0], x[1])), Idx(Sextet2(x[1], x[2])), Idx(Sextet3(x[2]))]
  {
    SextetBits(x[0], x[1], x[2]);
    assert Encoding(x[3..]) == [];
    hide Idx, Sextets;
  }

  lemma ResplitFirst(a: bv8, b: bv8)
    requires a < 64 && b < 64
    ensures Sextet0(First(a, b)) == a
  {
  }

  lemma ResplitSecond(a: bv8, b: bv8, c: bv8)
    requires a < 64 && b < 64 && c < 64
    ensures Sextet1(First(a, b), Second(b, c)) == b
  {
  }

  lemma ResplitThird(b: bv8, c: bv8, d: bv8)
    requires b < 64 && c < 64 && d < 64
    ensures Sextet2(Second(b, c), Third(c, d)) == c && Sextet3(Third(c, d)) == d
  {
  }

  lemma ResplitLast(a: bv8, b: bv8, c: bv8)
    requires a < 64 && b < 64 && c < 64
    ensures b & 15 == 0 ==> Sextet1(First(a, b), 0) == b
    ensures c & 3 == 0 ==> Sextet2(Second(b, c), 0) == c
  {
  }

  /** The decoder also accepts texts no encoder writes; the canonical ones are exactly those that encode what
      they decode to. */
  lemma {:induction false} CanonicalText(s: seq<bv8>)
    ensures Canonical(s) <==> Decoding(s).Some? && Encoding(Decoding(s).value) == s
    decreases |s|
  {
    if Decoding(s).Some? {
      EncodingIsCanonical(Decoding(s).value);
    }
    if Canonical(s) {
      CanonicalDecodes(s);
    }
  }

  lemma {:induction false} CanonicalDecodes(s: seq<bv8>)
    requires Canonical(s)
    ensures Decoding(s).Some? && Encoding(Decoding(s).value) == s
    decreases |s|
  {
    hide Encoding, Decoding, CanonicalEnd, Group, WellFormed;
    if |s| == 0 {
      NothingEncoded();
    } else {
      FirstFour(s);
      EndIsEncoded(s[0], s[1], s[2], s[3]);
      var x := Group(s[0], s[1], s[2], s[3]);
      DecodingStep(s);
      assert s == [s[0], s[1], s[2], s[3]] + s[4..];
      if |s| == 4 {
        NothingEncoded();
        assert x + [] == x;
      } else {
        CanonicalDecodes(s[4..]);
        FirstGroup(x, Decoding(s[4..]).value);
      }
    }
  }

  lemma NothingEncoded()
    ensures Encoding([]) == [] && Decoding([]) == Some([])
  {
  }

  lemma FirstFour(s: seq<bv8>)
    requires Canonical(s) && s != []
    ensures |s| >= 4 && CanonicalEnd(s[0], s[1], s[2], s[3])
    ensures if |s| == 4 then s[4..] == [] else Canonical(s[4..]) && s[2] != EQUALS && s[3] != EQUALS
  {
  }

  lemma FirstGroup(x: seq<bv8>, rest: seq<bv8>)
    requires |x| == 3
    ensures Encoding(x + rest) == Encoding(x) + Encoding(rest)
  {
    hide Idx, Sextets;
    assert (x + rest)[3..] == rest && x[3..] == [];
    assert Encoding([]) == [];
  }

  // ----- the alphabet, character by character -----

  /** Table 1 of RFC 4648: A to Z, a to z, 0 to 9, the plus sign and the slash. */
  lemma Alphabet()
    ensures [Idx(0), Idx(1), Idx(2), Idx(3), Idx(4), Idx(5), Idx(6), Idx(7), Idx(8), Idx(9), Idx(10), Idx(11), Idx(12),
             Idx(13), Idx(14), Idx(15), Idx(16), Idx(17), Idx(18), Idx(19), Idx(20), Idx(21), Idx(22), Idx(23), Idx(24),
             Idx(25)]
         == [65, 66, 67, 68, 69, 70, 71, 72, 73, 74, 75, 76, 77, 78, 79, 80, 81, 82, 83, 84, 85, 86, 87, 88, 89, 90]
    ensures [Idx(26), Idx(27), Idx(28), Idx(29), Idx(30), Idx(31), Idx(32), Idx(33), Idx(34), Idx(35), Idx(36), Idx(37),
             Idx(38), Idx(39), Idx(40), Idx(41), Idx(42), Idx(43), Idx(44), Idx(45), Idx(46), Idx(47), Idx(48), Idx(49),
             Idx(50), Idx(51)]
         == [97, 98, 99, 100, 101, 102, 103, 104, 105, 106, 107, 108, 109, 110, 111, 112, 113, 114, 115, 116, 117, 118,
             119, 120, 121, 122]
    ensures [Idx(52), Idx(53), Idx(54), Idx(55), Idx(56), Idx(57), Idx(58), Idx(59), Idx(60), Idx(61), Idx(62), Idx(63)]
         == [48, 49, 50, 51, 52, 53, 54, 55, 56, 57, 43, 47]
  {
  }

  /** The test vectors of section 10 of RFC 4648: "f", "fo", "foo", "foob", "fooba" and "foobar". */
  lemma TestVectors()
    ensures Encoding([]) == []
    ensures Encoding([102]) == [90, 103, 61, 61]
    ensures Encoding([102, 111]) == [90, 109, 56, 61]
    ensures Encoding([102, 111, 111]) == [90, 109, 57, 118]
    ensures Encoding([102, 111, 111, 98]) == [90, 109, 57, 118, 89, 103, 61, 61]
    ensures Encoding([102, 111, 111, 98, 97]) == [90, 109, 57, 118, 89, 109, 69, 61]
    ensures Encoding([102, 111, 111, 98, 97, 114]) == [90, 109, 57, 118, 89, 109, 70, 121]
  {
    ThreeBytes([102, 111, 111]);
    OneByte([98]);
    TwoBytes([98, 97]);
    ThreeBytes([98, 97, 114]);
    OneByte([102]);
    TwoBytes([102, 111]);
    hide Encoding;
    Foo([98]);
    Foo([98, 97]);
    Foo([98, 97, 114]);
  }

  lemma Foo(rest: seq<bv8>)
    ensures Encoding([102, 111, 111] + rest) == Encoding([102, 111, 111]) + Encoding(rest)
  {
    hide *;
    FirstGroup([102, 111, 111], rest);
  }

  predicate InAlphabet(c: bv8) {
    65 <= c <= 90 || 97 <= c <= 122 || 48 <= c <= 57 || c == 43 || c == 47
  }

  /** Characters 4g to 4g + 3 are no group: one is outside the alphabet, and no equals sign at the third or fourth. */
  predicate Malformed(s: seq<bv8>, g: nat) {
    && 4 * g + 3 < |s|
    && !(InAlphabet(s[4 * g]) && InAlphabet(s[4 * g + 1])
         && (InAlphabet(s[4 * g + 2]) || s[4 * g + 2] == 61) && (InAlphabet(s[4 * g + 3]) || s[4 * g + 3] == 61))
  }

  lemma {:induction false} DecodingFailsIff(s: seq<bv8>)
    ensures Decoding(s) == None <==> exists g: nat :: Malformed(s, g)
    decreases |s|
  {
    if |s| >= 4 {
      assert Malformed(s, 0) <==> !WellFormed(s[0], s[1], s[2], s[3]);
      DecodingStep(s);
      DecodingFailsIff(s[4..]);
      hide *;
      forall g: nat | Malformed(s[4..], g) ensures Malformed(s, g + 1) { MalformedLater(s, g); }
      forall g: nat | Malformed(s, g) && g != 0 ensures Malformed(s[4..], g - 1) { MalformedLater(s, g - 1); }
    }
  }

  lemma MalformedLater(s: seq<bv8>, g: nat)
    requires |s| >= 4
    ensures Malformed(s, g + 1) <==> Malformed(s[4..], g)
  {
    hide InAlphabet;
    if 4 * g + 7 < |s| {
      assert s[4..][4 * g] == s[4 * (g + 1)] && s[4..][4 * g + 1] == s[4 * (g + 1) + 1];
    }
  }

  // What a group adds to the bytes of the text after it, from the sextets of its characters. After a third equals
  // sign the fourth character no longer matters.

  lemma GroupOfThree(p: bv8, q: bv8, r: bv8, s: bv8, rest: seq<bv8>, x: seq<bv8>)
    requires p < 64 && q < 64 && r < 64 && s < 64 && Decoding(rest) == Some(x)
    ensures Decoding([Idx(p), Idx(q), Idx(r), Idx(s)] + rest)
         == Some([(p << 2) | (q >> 4), (q << 4) | (r >> 2), (r << 6) | s] + x)
  {
    RevIdx(p);
    RevIdx(q);
    RevIdx(r);
    RevIdx(s);
    hide *;
    GroupDecoded(Idx(p), Idx(q), Idx(r), Idx(s), rest, x);
    SextetsShifted(p, q, r, s);
  }

  lemma GroupOfTwo(p: bv8, q: bv8, r: bv8, rest: seq<bv8>, x: seq<bv8>)
    requires p < 64 && q < 64 && r < 64 && Decoding(rest) == Some(x)
    ensures Decoding([Idx(p), Idx(q), Idx(r), 61] + rest) == Some([(p << 2) | (q >> 4), (q << 4) | (r >> 2)] + x)
  {
    RevIdx(p);
    RevIdx(q);
    RevIdx(r);
    hide *;
    GroupDecoded(Idx(p), Idx(q), Idx(r), EQUALS, rest, x);
    SextetsShifted(p, q, r, 0);
  }

  lemma GroupOfOne(p: bv8, q: bv8, d: bv8, rest: seq<bv8>, x: seq<bv8>)
    requires p < 64 && q < 64 && (InAlphabet(d) || d == 61) && Decoding(rest) == Some(x)
    ensures Decoding([Idx(p), Idx(q), 61, d] + rest) == Some([(p << 2) | (q >> 4)] + x)
  {
    RevIdx(p);
    RevIdx(q);
    assert Rev(d) != BAD;
    hide *;
    GroupDecoded(Idx(p), Idx(q), EQUALS, d, rest, x);
    SextetsShifted(p, q, 0, 0);
  }

  lemma SextetsShifted(p: bv8, q: bv8, r: bv8, s: bv8)
    ensures First(p, q) == (p << 2) | (q >> 4) && Second(q, r) == (q << 4) | (r >> 2) && Third(r, s) == (r << 6) | s
  {
  }

  lemma GroupDecoded(a: bv8, b: bv8, c: bv8, d: bv8, rest: seq<bv8>, x: seq<bv8>)
    requires Rev(a) < 64 && Rev(b) < 64 && Rev(c) != BAD && Rev(d) != BAD && Decoding(rest) == Some(x)
    ensures Decoding([a, b, c, d] + rest)
         == Some(if c == EQUALS then [First(Rev(a), Rev(b))] + x
                 else if d == EQUALS then [First(Rev(a), Rev(b)), Second(Rev(b), Rev(c))] + x
                 else [First(Rev(a), Rev(b)), Second(Rev(b), Rev(c)), Third(Rev(c), Rev(d))] + x)
  {
    hide Rev, First, Second, Third;
    DecodingStep([a, b, c, d] + rest);
    assert ([a, b, c, d] + rest)[4..] == rest;
    GroupBits(a, b, c, d);
    var g := Group(a, b, c, d);
    hide Group, Decoding;
    if c == EQUALS {
      assert g == [g[0]];
    } else if d == EQUALS {
      assert g == [g[0], g[1]];
    } else {
      assert g == [g[0], g[1], g[2]];
    }
  }
}
