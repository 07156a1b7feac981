/** The growable byte buffer behind every connection: `buf.Length` bytes allocated, the first `len` in use. */
module IoBuffer {
  import opened Bytes

  // ----- memmove and memcpy -----

  function Moved(s: seq<byte>, dst: nat, src: nat, n: nat): (r: seq<byte>)
    requires src + n <= |s| && dst + n <= |s|
    ensures |r| == |s|
  {
    s[..dst] + s[src..src + n] + s[dst + n..]
  }

  function Copied(s: seq<byte>, dst: nat, data: seq<byte>): (r: seq<byte>)
    requires dst + |data| <= |s|
    ensures |r| == |s|
  {
    s[..dst] + data + s[dst + |data|..]
  }

  lemma IsMoved(now: seq<byte>, was: seq<byte>, dst: nat, src: nat, n: nat)
    requires |now| == |was| && dst + n <= |was| && src + n <= |was|
    requires forall k :: 0 <= k < dst ==> now[k] == was[k]
    requires forall k :: dst <= k < dst + n ==> now[k] == was[k - dst + src]
    requires forall k :: dst + n <= k < |was| ==> now[k] == was[k]
    ensures now == Moved(was, dst, src, n)
  {
  }

  /** `memmove(a + dst, a + src, n)`, copying upwards or downwards as the overlap demands. */
  method Move(a: array<byte>, dst: nat, src: nat, n: nat)
    requires src + n <= a.Length && dst + n <= a.Length
    modifies a
    ensures a[..] == Moved(old(a[..]), dst, src, n)
  {
    if dst <= src {
      MoveDown(a, dst, src, n);
    } else {
      MoveUp(a, dst, src, n);
    }
  }

  method MoveDown(a: array<byte>, dst: nat, src: nat, n: nat)
    requires dst <= src && src + n <= a.Length
    modifies a
    ensures a[..] == Moved(old(a[..]), dst, src, n)
  {
    ghost var was := a[..];
    for i := 0 to n
      invariant forall k :: 0 <= k < dst ==> a[k] == was[k]
      invariant forall k :: dst <= k < dst + i ==> a[k] == was[k - dst + src]
      invariant forall k :: dst + i <= k < a.Length ==> a[k] == was[k]
    {
      a[dst + i] := a[src + i];
    }
    IsMoved(a[..], was, dst, src, n);
  }

  method MoveUp(a: array<byte>, dst: nat, src: nat, n: nat)
    requires src < dst && dst + n <= a.Length
    modifies a
    ensures a[..] == Moved(old(a[..]), dst, src, n)
  {
    ghost var was := a[..];
    for i := n downto 0
      invariant forall k :: 0 <= k < dst + i ==> a[k] == was[k]
      invariant forall k :: dst + i <= k < dst + n ==> a[k] == was[k - dst + src]
      invariant forall k :: dst + n <= k < a.Length ==> a[k] == was[k]
    {
      a[dst + i] := a[src + i];
    }
    IsMoved(a[..], was, dst, src, n);
  }

  /** `memcpy(a + dst, data, |data|)`. */
  method Copy(a: array<byte>, dst: nat, data: seq<byte>)
    requires dst + |data| <= a.Length
    modifies a
    ensures a[..] == Copied(old(a[..]), dst, data)
  {
    ghost var was := a[..];
    for i := 0 to |data|
      invariant forall k :: 0 <= k < dst ==> a[k] == was[k]
      invariant forall k :: dst <= k < dst + i ==> a[k] == data[k - dst]
      invariant forall k :: dst + i <= k < a.Length ==> a[k] == was[k]
    {
      a[dst + i] := data[i];
    }
    assert a[..dst] == was[..dst];
    assert a[dst..dst + |data|] == data;
    assert a[dst + |data|..] == was[dst + |data|..];
  }

  /** Opening a gap of |data| bytes at `ofs` and filling it inserts `data` into the first `n` bytes. */
  lemma Insertion(was: seq<byte>, data: seq<byte>, ofs: nat, n: nat)
    requires ofs <= n && n + |data| <= |was|
    ensures Copied(Moved(was, ofs + |data|, ofs, n - ofs), ofs, data)[..n + |data|]
         == was[..n][..ofs] + data + was[..n][ofs..]
  {
  }

  /** Closing a gap of `n` bytes at `o` and wiping the tail deletes them from the first `len`. */
  lemma Deletion(was: seq<byte>, o: nat, n: nat, len: nat, zeros: seq<byte>)
    requires o + n <= len <= |was| && |zeros| == n
    ensures Copied(Moved(was, o, o + n, len - o - n), len - n, zeros)[..len - n]
         == was[..len][..o] + was[..len][o + n..]
  {
  }

  lemma CopiedToFront(was: seq<byte>, data: seq<byte>)
    requires |data| <= |was|
    ensures var now := Copied(was, 0, data);
            now[..|data|] == data && forall k :: |data| <= k < |was| ==> now[k] == was[k]
  {
  }

  /** Copying behind the first `n` bytes appends to them, with a gap up to `ofs`. */
  lemma Appending(was: seq<byte>, data: seq<byte>, n: nat, ofs: nat)
    requires n <= ofs && ofs + |data| <= |was|
    ensures Copied(was, ofs, data)[..ofs + |data|] == was[..n] + was[n..ofs] + data
  {
  }

  /** The allocation after growing from `size` bytes for `needed` ones. */
  function Grown(size: nat, needed: nat, chunkSize: nat): nat
    requires chunkSize > 0
  {
    if needed <= size then size else needed + chunkSize - (needed + chunkSize) % chunkSize
  }

  /** Growing makes more room than needed, up to one chunk more, in whole chunks. */
  lemma GrownMeaning(size: nat, needed: nat, chunkSize: nat)
    requires chunkSize > 0
    ensures var grown := Grown(size, needed, chunkSize);
            if needed <= size then grown == size else grown % chunkSize == 0 && needed < grown <= needed + chunkSize
  {
    var v := needed + chunkSize;
    assert v == v / chunkSize * chunkSize + v % chunkSize;
    MultipleOf(v / chunkSize, chunkSize);
  }

  lemma MultipleOf(q: nat, d: nat)
    requires d > 0
    ensures q * d % d == 0
  {
    var r := q * d % d;
    Remainder(q - q * d / d, r, d);
  }

  lemma Remainder(k: int, r: nat, d: nat)
    requires r < d && k * d == r
    ensures r == 0
  {
  }

  /** What lies between the contents and an offset behind them: the old bytes, or zeros after growing. */
  function Gap(was: seq<byte>, len: nat, ofs: nat, n: nat): seq<byte>
    requires len <= ofs
  {
    if len + n <= |was| && ofs <= |was| then was[len..ofs] else seq(ofs - len, _ => 0)
  }

  class IoBuf {
    var buf: array<byte>
    var len: nat

    ghost predicate Valid()
      reads this
    {
      len <= buf.Length
    }

    ghost function Contents(): (s: seq<byte>)
      reads this, buf
      requires Valid()
    {
      buf[..][..len]
    }

    constructor ()
      ensures Valid() && fresh(buf) && Contents() == []
    {
      buf := new byte[0];
      len := 0;
    }

    /** A fresh allocation of `newSize` bytes, unless that is the size already. Only a size that holds the contents, or
        none at all, leaves the buffer valid: a smaller one keeps the front but also the old length. */
    method Resize(newSize: nat)
      requires Valid()
      modifies this
      ensures buf.Length == newSize && (buf == old(buf) || fresh(buf))
      ensures Valid() <==> newSize == 0 || old(len) <= newSize
      ensures newSize == 0 ==> len == 0
      ensures newSize > 0 ==> len == old(len)
      ensures var kept := if old(len) < newSize then old(len) else newSize; buf[..kept] == old(buf[..kept])
      ensures buf != old(buf) ==> forall k :: old(len) <= k < newSize ==> buf[k] == 0
    {
      if newSize == 0 {
        buf, len := new byte[0], 0;
      } else if newSize != buf.Length {
        var p := new byte[newSize](_ => 0);
        var kept := buf[..if newSize < len then newSize else len];
        hide Copied;
        CopiedToFront(p[..], kept);
        Copy(p, 0, kept);
        buf := p;
      }
    }

    /** Inserts `data` at `ofs`; the allocation grows to a multiple of the chunk size when it has to. An offset behind
        the contents leaves a gap as the allocation has it; the data must then fit, since only the length of the data
        is counted when growing. */
    method Add(ofs: nat, data: seq<byte>, chunkSize: nat)
      requires Valid() && chunkSize > 0
      requires ofs <= len || ofs + |data| <= Grown(buf.Length, len + |data|, chunkSize)
      modifies this, buf
      ensures Valid() && (buf == old(buf) || fresh(buf))
      ensures ofs <= old(len) ==> Contents() == old(Contents())[..ofs] + data + old(Contents())[ofs..]
      ensures ofs > old(len) ==> Contents() == old(Contents()) + Gap(old(buf[..]), old(len), ofs, |data|) + data
    {
      ghost var t, n := buf[..], len;
      Grow(len + |data|, chunkSize);
      ghost var grown := buf[..];
      if ofs < len {
        hide *;
        Insert(ofs, data);
      } else {
        assert grown[n..ofs] == Gap(t, n, ofs, |data|);
        assert ofs == n ==> t[..n][..ofs] == t[..n] && t[..n][ofs..] == [];
        hide *;
        Append(ofs, data);
      }
    }

    /** Moves what is behind `ofs` up and copies into the gap. */
    method Insert(ofs: nat, data: seq<byte>)
      requires Valid() && ofs <= len && len + |data| <= buf.Length
      modifies this`len, buf
      ensures Valid() && Contents() == old(Contents())[..ofs] + data + old(Contents())[ofs..]
    {
      hide Moved, Copied;
      Insertion(buf[..], data, ofs, len);
      Move(buf, ofs + |data|, ofs, len - ofs);
      Copy(buf, ofs, data);
      len := len + |data|;
    }

    /** Copies behind the contents. */
    method Append(ofs: nat, data: seq<byte>)
      requires Valid() && len <= ofs && ofs + |data| <= buf.Length
      modifies this`len, buf
      ensures Valid() && Contents() == old(Contents()) + old(buf[..])[old(len)..ofs] + data
    {
      Appending(buf[..], data, len, ofs);
      hide Copied;
      Copy(buf, ofs, data);
      len := len + (ofs - len);
      len := len + |data|;
    }

    /** Makes room for `needed` bytes in all. */
    method Grow(needed: nat, chunkSize: nat)
      requires Valid() && chunkSize > 0 && len <= needed
      modifies this
      ensures Valid() && len == old(len) && Contents() == old(Contents())
      ensures buf.Length == Grown(old(buf.Length), needed, chunkSize) && needed <= buf.Length
      ensures if needed <= old(buf.Length) then buf == old(buf)
              else fresh(buf) && forall k :: len <= k < buf.Length ==> buf[k] == 0
    {
      var newSize := needed;
      if newSize > buf.Length {
        newSize := newSize + chunkSize;
        newSize := newSize - newSize % chunkSize;
        ghost var was := Contents();
        Resize(newSize);
        assert buf[..][..len] == was;
      }
    }

    /** Deletes up to `count` bytes from `ofs` on and wipes the freed tail. */
    method Del(ofs: nat, count: nat)
      requires Valid()
      modifies this`len, buf
      ensures Valid()
      ensures var o := if ofs > old(len) then old(len) else ofs;
              var n := if o + count > old(len) then old(len) - o else count;
              Contents() == old(Contents())[..o] + old(Contents())[o + n..]
    {
      hide Moved, Copied;
      var o := if ofs > len then len else ofs;
      var n := if o + count > len then len - o else count;
      var zeros: seq<byte> := seq(n, _ => 0);
      Deletion(buf[..], o, n, len, zeros);
      Move(buf, o, o + n, len - o - n);
      Copy(buf, len - n, zeros);
      len := len - n;
    }
  }
}
