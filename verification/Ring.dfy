/** Bytes, memory copies, and a byte ring seen as a sequence. */
module Ring {
  import opened Bits

  type byte = x: int | 0 <= x < 256

  function Min(a: int, b: int): int { if a < b then a else b }

  /** memcpy of `src` into `dst` from index `at` on. */
  method MemCpy(dst: array<byte>, at: nat, src: seq<byte>)
    requires at + |src| <= dst.Length
    modifies dst
    ensures dst[..] == Patch(old(dst[..]), at, src)
  {
    var i := 0;
    while i < |src|
      invariant 0 <= i <= |src|
      invariant forall x :: 0 <= x < dst.Length ==>
        dst[x] == if at <= x < at + i then src[x - at] else old(dst[x])
    {
      dst[at + i] := src[i];
      i := i + 1;
    }
    forall x | 0 <= x < dst.Length
      ensures dst[x] == Patch(old(dst[..]), at, src)[x]
    {
      PatchAt(old(dst[..]), at, src, x);
    }
  }

  /** Index `i` steps past position `p` of a ring; `p` may be one past the end. */
  function Wrap(p: nat, i: nat, size: nat): (x: nat)
    requires p <= size && i <= size
    ensures x <= size && (i < size ==> x < size || p == size)
  {
    if p + i < size then p + i else p + i - size
  }

  /** The `n` bytes that follow position `p`, wrapping at the end of the buffer. */
  function Window(buf: seq<byte>, p: nat, n: nat): (w: seq<byte>)
    requires n <= |buf| && p <= |buf|
    ensures |w| == n
  {
    seq(n, i requires 0 <= i < n => buf[Wrap(p, i, |buf|)])
  }

  /** The buffer after `data` was stored from position `at` on, wrapping once. */
  function WrapWrite(buf: seq<byte>, at: nat, data: seq<byte>): (r: seq<byte>)
    requires |data| <= |buf| && at <= |buf|
    ensures |r| == |buf|
  {
    seq(|buf|, x requires 0 <= x < |buf| =>
      var d := if x >= at then x - at else x - at + |buf|;
      if d < |data| then data[d] else buf[x])
  }

  /** A sequence with `data` copied into it from `at` on. */
  function Patch(buf: seq<byte>, at: nat, data: seq<byte>): (r: seq<byte>)
    requires at + |data| <= |buf|
    ensures |r| == |buf|
  {
    buf[..at] + data + buf[at + |data|..]
  }

  lemma {:induction false} PatchAt(buf: seq<byte>, at: nat, data: seq<byte>, x: nat)
    requires at + |data| <= |buf| && x < |buf|
    ensures Patch(buf, at, data)[x] == if at <= x < at + |data| then data[x - at] else buf[x]
  {
  }

  /** Two contiguous copies store exactly what one wrapping store would. */
  lemma {:induction false} TwoCopies(buf: seq<byte>, at: nat, data: seq<byte>, l: nat)
    requires at <= |buf| && |data| <= |buf| && l == Min(|data|, |buf| - at)
    ensures Patch(Patch(buf, at, data[..l]), 0, data[l..]) == WrapWrite(buf, at, data)
  {
    var first := Patch(buf, at, data[..l]);
    var both, goal := Patch(first, 0, data[l..]), WrapWrite(buf, at, data);
    forall x | 0 <= x < |buf|
      ensures both[x] == goal[x]
    {
      PatchAt(buf, at, data[..l], x);
      PatchAt(first, 0, data[l..], x);
    }
  }

  /** Two memcpy calls that store `data` from position `at` on, wrapping at the end. */
  method CopyRound(buf: array<byte>, at: nat, data: seq<byte>)
    requires at <= buf.Length && |data| <= buf.Length
    modifies buf
    ensures buf[..] == WrapWrite(old(buf[..]), at, data)
  {
    var l := Min(|data|, buf.Length - at);
    TwoCopies(buf[..], at, data, l);
    MemCpy(buf, at, data[..l]);
    MemCpy(buf, 0, data[l..]);
  }

  /** Reading a window as two contiguous copies. */
  lemma {:induction false} WindowSplits(buf: seq<byte>, p: nat, n: nat, l: nat)
    requires n <= |buf| && p <= |buf| && l == Min(n, |buf| - p)
    ensures Window(buf, p, n) == buf[p..p + l] + buf[..n - l]
  {
  }

  /** Storing behind a window extends it, and touches nothing inside it. */
  lemma {:induction false} WindowExtends(buf: seq<byte>, p: nat, n: nat, at: nat, data: seq<byte>)
    requires n + |data| <= |buf| && p <= |buf| && at <= |buf|
    requires SamePlace(at, Wrap(p, n, |buf|), |buf|)
    ensures Window(WrapWrite(buf, at, data), p, n + |data|) == Window(buf, p, n) + data
  {
  }

  /** Positions 0 and `size` name the same place of a ring. */
  predicate SamePlace(a: nat, b: nat, size: nat) { a == b || (a == 0 && b == size) || (a == size && b == 0) }

  /** Dropping the front of a window. */
  lemma {:induction false} WindowDrops(buf: seq<byte>, p: nat, n: nat, k: nat, q: nat)
    requires k <= n <= |buf| && p <= |buf| && q <= |buf| && SamePlace(q, Wrap(p, k, |buf|), |buf|)
    ensures Window(buf, q, n - k) == Window(buf, p, n)[k..]
    ensures Window(buf, p, k) == Window(buf, p, n)[..k]
  {
  }
}
