/** The kernel-style byte FIFO whose two free-running 32-bit counters are never
    reduced modulo the buffer size. */
module Kfifo {
  import opened Bits
  import opened Ring

  /** The place of a running total in a buffer of `size` bytes. */
  function Place(total: nat, size: nat): (p: nat)
    ensures p <= size && (size > 0 ==> p < size)
  {
    if size == 0 then 0 else if total < size then total else Place(total - size, size)
  }

  lemma {:induction false} PlaceIsMod(total: nat, size: nat)
    requires size > 0
    ensures Place(total, size) == total % size
  {
    if total < size {
      ModUnique(total, size, 0, total);
    } else {
      PlaceIsMod(total - size, size);
      var q := (total - size) / size;
      assert size * (q + 1) == size * q + size;
      ModUnique(total, size, q + 1, (total - size) % size);
    }
  }

  lemma {:induction false} PlaceSteps(total: nat, n: nat, size: nat)
    requires n <= size
    ensures Place(total + n, size) == Wrap(Place(total, size), n, size)
  {
    if size > 0 && total >= size {
      PlaceSteps(total - size, n, size);
    }
  }

  /** An `unsigned int` result whose mathematical value is at most one range away. */
  method Wrap32(x: int) returns (r: nat)
    requires -U32_RANGE <= x < 2 * U32_RANGE
    ensures r == if x < 0 then x + U32_RANGE else if x < U32_RANGE then x else x - U32_RANGE
  {
    r := x % U32_RANGE;
  }

  /** `counter += n` on a counter that stands for a running total. */
  method Advance(counter: nat, ghost total: nat, ghost turns: nat, n: nat) returns (r: nat, ghost turns': nat)
    requires counter < U32_RANGE && total == turns * 0x1_0000_0000 + counter && n < U32_RANGE
    ensures r < U32_RANGE && total + n == turns' * 0x1_0000_0000 + r
  {
    turns' := if counter + n < U32_RANGE then turns else turns + 1;
    r := Wrap32(counter + n);
  }

  class Fifo {
    var input: nat
    var output: nat
    var mask: nat
    const size: nat
    const buffer: array<byte>
    ghost const order: nat
    ghost var put: nat
    ghost var got: nat
    ghost var putTurns: nat
    ghost var gotTurns: nat

    /** The counters hold the totals modulo 2^32, and the buffer holds the difference. */
    ghost predicate Valid()
      reads this, buffer
    {
      && buffer.Length == size <= 0x8000_0000
      && (size == 0 || (order <= 31 && size == Pow2(order)))
      && mask == (if size == 0 then U32_RANGE - 1 else size - 1)
      && input < U32_RANGE && put == putTurns * 0x1_0000_0000 + input
      && output < U32_RANGE && got == gotTurns * 0x1_0000_0000 + output
      && got <= put <= got + size
      && (size == 0 ==> put == 0)
    }

    ghost function Contents(): seq<byte>
      reads this, buffer
      requires Valid()
    {
      Window(buffer[..], Place(got, size), put - got)
    }

    /** kfifo_init; the BUG_ON test admits exactly zero and the powers of two. */
    constructor (storage: array<byte>, n: nat)
      requires storage.Length == n < U32_RANGE
      requires n == 0 || And(n, n - 1) == 0
      ensures Valid() && Contents() == [] && size == n && buffer == storage
    {
      buffer, size := storage, n;
      input, output := 0, 0;
      var m := Wrap32(n - 1);
      mask := m;
      put, got, putTurns, gotTurns := 0, 0, 0, 0;
      ghost var k: nat := 0;
      if n > 0 {
        k := OrderOf(n);
        PowerSmall(k);
      }
      order := k;
    }

    /** `counter & (size - 1)`: the place of a counter in the buffer, however often
        it has wrapped. */
    method Index(counter: nat, ghost total: nat, ghost turns: nat) returns (at: nat)
      requires Valid() && counter < U32_RANGE && total == turns * 0x1_0000_0000 + counter
      requires size == 0 ==> total == 0
      ensures at == Place(total, size)
    {
      CounterOf(total, turns, counter);
      at := And(counter, mask);
      if size > 0 {
        MaskedCounter(total, order);
      } else {
        Pow2At32();
        AndMask(0, 32);
      }
    }

    /** kfifo_data_size: `in - out` in 32 bits is the number of bytes queued. */
    method DataSize() returns (used: nat)
      requires Valid()
      ensures used == |Contents()| == put - got
    {
      used := Wrap32(input - output);
    }

    /** kfifo_unused: the room left. */
    method Unused() returns (room: nat)
      requires Valid()
      ensures room == size - |Contents()|
    {
      var used := DataSize();
      var total := Wrap32(mask + 1);
      room := Wrap32(total - used);
    }

    /** `size - in + out` as kfifo_put computes it. */
    method Room() returns (room: nat)
      requires Valid()
      ensures room == size - |Contents()| == size - (put - got)
    {
      room := Wrap32(size - input + output);
    }

    /** The two memcpy calls of kfifo_put. */
    method CopyIn(data: seq<byte>)
      requires Valid() && |data| <= size - (put - got)
      modifies buffer
      ensures buffer[..] == WrapWrite(old(buffer[..]), Place(put, size), data)
    {
      var at := Index(input, put, putTurns);
      CopyRound(buffer, at, data);
    }

    /** kfifo_copy_out: the two memcpy calls of kfifo_get and kfifo_out_peek. */
    method CopyOut(n: nat) returns (r: seq<byte>)
      requires Valid() && n <= put - got
      ensures r == Contents()[..n]
    {
      var at := Index(output, got, gotTurns);
      var total := Wrap32(mask + 1);
      var l := Min(n, total - at);
      r := buffer[at..at + l] + buffer[..n - l];
      WindowSplits(buffer[..], at, n, l);
      WindowDrops(buffer[..], at, put - got, n, Wrap(at, n, size));
    }

    /** kfifo_put: stores as much as fits and reports how much that was. */
    method Put(data: seq<byte>) returns (n: nat)
      requires Valid() && |data| < U32_RANGE
      modifies this, buffer
      ensures Valid()
      ensures n == Min(|data|, size - |old(Contents())|)
      ensures Contents() == old(Contents()) + data[..n]
    {
      var room := Room();
      n := Min(|data|, room);
      Append(data[..n]);
    }

    /** The copies and the counter of kfifo_put, for data that fits. */
    method Append(data: seq<byte>)
      requires Valid() && |data| <= size - (put - got)
      modifies this`input, this`put, this`putTurns, buffer
      ensures Valid() && Contents() == old(Contents()) + data
    {
      PutExtends(buffer[..], got, put, data);
      CopyIn(data);
      input, putTurns := Advance(input, put, putTurns, |data|);
      put := put + |data|;
    }

    /** kfifo_get: removes up to `len` bytes from the front. */
    method Get(len: nat) returns (r: seq<byte>)
      requires Valid() && len < U32_RANGE
      modifies this
      ensures Valid() && buffer[..] == old(buffer[..])
      ensures r == old(Contents())[..Min(len, |old(Contents())|)]
      ensures Contents() == old(Contents())[|r|..]
    {
      var used := DataSize();
      var n := Min(len, used);
      r := CopyOut(n);
      Skip(n);
    }

    /** `out += len` in kfifo_get. */
    method Skip(n: nat)
      requires Valid() && n <= put - got
      modifies this`output, this`got, this`gotTurns
      ensures Valid() && Contents() == old(Contents())[n..]
    {
      GetDrops(buffer[..], got, put, n);
      output, gotTurns := Advance(output, got, gotTurns, n);
      got := got + n;
    }

    /** kfifo_out_peek: what the next kfifo_get would return; nothing changes. */
    method Peek(len: nat) returns (r: seq<byte>)
      requires Valid() && len < U32_RANGE
      ensures r == Contents()[..Min(len, |Contents()|)]
    {
      var used := DataSize();
      r := CopyOut(if len > used then used else len);
    }
  }

  lemma {:induction false} PutExtends(buf: seq<byte>, got: nat, put: nat, data: seq<byte>)
    requires got <= put && put + |data| <= got + |buf|
    ensures Window(WrapWrite(buf, Place(put, |buf|), data), Place(got, |buf|), put + |data| - got)
            == Window(buf, Place(got, |buf|), put - got) + data
  {
    PlaceSteps(got, put - got, |buf|);
    WindowExtends(buf, Place(got, |buf|), put - got, Place(put, |buf|), data);
  }

  lemma {:induction false} GetDrops(buf: seq<byte>, got: nat, put: nat, n: nat)
    requires got + n <= put <= got + |buf|
    ensures Window(buf, Place(got + n, |buf|), put - (got + n)) == Window(buf, Place(got, |buf|), put - got)[n..]
  {
    PlaceSteps(got, n, |buf|);
    WindowDrops(buf, Place(got, |buf|), put - got, n, Place(got + n, |buf|));
  }

  lemma {:induction false} CounterOf(total: nat, turns: nat, counter: nat)
    requires counter < U32_RANGE && total == turns * 0x1_0000_0000 + counter
    ensures counter == U32(total)
  {
  }

  lemma {:induction false} MaskedCounter(total: nat, order: nat)
    requires order <= 31
    ensures And(U32(total), Pow2(order) - 1) == Place(total, Pow2(order))
  {
    AndMask(U32(total), order);
    WrapKeepsIndex(total, order);
    PlaceIsMod(total, Pow2(order));
  }

  lemma {:induction false} PowerSmall(order: nat)
    requires order <= 31
    ensures Pow2(order) <= 0x8000_0000
  {
    Pow2At32();
    Pow2Monotone(order, 31);
  }

  lemma {:induction false} OrderOf(n: nat) returns (k: nat)
    requires 0 < n < U32_RANGE && And(n, n - 1) == 0
    ensures k <= 31 && n == Pow2(k)
  {
    PowerOfTwoTest(n);
    k :| n == Pow2(k);
    Pow2At32();
    if k >= 32 {
      Pow2Monotone(32, k);
    }
  }

  // ---------- whole runs ----------

  datatype Op = PutOp(data: seq<byte>) | GetOp(len: nat) | PeekOp(len: nat)

  predicate Callable(ops: seq<Op>) {
    forall i :: 0 <= i < |ops| ==> (if ops[i].PutOp? then |ops[i].data| else ops[i].len) < U32_RANGE
  }

  /** What a call returns: the number of bytes a put stored, or the bytes read. */
  datatype Answer = Stored(count: nat) | Bytes(data: seq<byte>)

  /** One call on a plain queue of the given capacity. */
  function Answered(q: seq<byte>, op: Op, capacity: nat): (Answer, seq<byte>)
    requires |q| <= capacity
  {
    match op
    case PutOp(d) =>
      var n := Min(|d|, capacity - |q|);
      (Stored(n), q + d[..n])
    case GetOp(n) => (Bytes(q[..Min(n, |q|)]), q[Min(n, |q|)..])
    case PeekOp(n) => (Bytes(q[..Min(n, |q|)]), q)
  }

  /** A plain bounded queue answering the same calls. */
  function Queue(ops: seq<Op>, capacity: nat): (r: (seq<Answer>, seq<byte>))
    ensures |r.1| <= capacity && |r.0| == |ops|
    decreases |ops|
  {
    if ops == [] then ([], [])
    else
      var (outs, q) := Queue(ops[..|ops| - 1], capacity);
      var (a, q') := Answered(q, ops[|ops| - 1], capacity);
      (outs + [a], q')
  }

  /** Every sequence of calls on a fresh kfifo answers as the plain queue does: the
      counts the puts return, the bytes the gets and peeks return, and what is left.
      So the bytes got, followed by those left, are the bytes the puts reported stored. */
  method RunAll(ops: seq<Op>, size: nat) returns (outs: seq<Answer>, left: seq<byte>)
    requires size < U32_RANGE && (size == 0 || And(size, size - 1) == 0) && Callable(ops)
    ensures (outs, left) == Queue(ops, size)
    ensures |outs| == |ops| && Delivered(ops, outs) + left == Accepted(ops, outs)
  {
    var storage := new byte[size];
    var f := new Fifo(storage, size);
    outs := [];
    var i := 0;
    while i < |ops|
      invariant 0 <= i <= |ops|
      invariant f.Valid() && f.size == size && fresh(f) && f.buffer == storage && fresh(storage)
      invariant Queue(ops[..i], size) == (outs, f.Contents())
    {
      QueueNext(ops, i, size);
      var a := Perform(f, ops[i]);
      outs := outs + [a];
      i := i + 1;
    }
    assert ops[..i] == ops;
    ghost var q := f.Contents();
    left := f.Peek(size);
    assert left == q;
    FirstInFirstOut(ops, size);
  }

  lemma {:induction false} QueueNext(ops: seq<Op>, i: nat, capacity: nat)
    requires i < |ops|
    ensures var (outs, q) := Queue(ops[..i], capacity); var (a, q') := Answered(q, ops[i], capacity);
            Queue(ops[..i + 1], capacity) == (outs + [a], q')
  {
    assert ops[..i + 1][..i] == ops[..i];
  }

  /** One call on the fifo. */
  method Perform(f: Fifo, op: Op) returns (a: Answer)
    requires f.Valid() && Callable([op])
    modifies f, f.buffer
    ensures f.Valid() && (a, f.Contents()) == Answered(old(f.Contents()), op, f.size)
  {
    assert (if [op][0].PutOp? then |[op][0].data| else [op][0].len) < U32_RANGE;
    match op {
      case PutOp(d) =>
        var n := f.Put(d);
        a := Stored(n);
      case GetOp(n) =>
        var r := f.Get(n);
        a := Bytes(r);
      case PeekOp(n) =>
        var r := f.Peek(n);
        a := Bytes(r);
    }
  }

  /** The bytes the puts reported stored, in call order. */
  function Accepted(ops: seq<Op>, outs: seq<Answer>): seq<byte>
    requires |ops| == |outs|
    decreases |ops|
  {
    if ops == [] then []
    else
      var op, a := ops[|ops| - 1], outs[|outs| - 1];
      Accepted(ops[..|ops| - 1], outs[..|outs| - 1]) +
      if op.PutOp? && a.Stored? && a.count <= |op.data| then op.data[..a.count] else []
  }

  /** The bytes the gets returned, in call order. */
  function Delivered(ops: seq<Op>, outs: seq<Answer>): seq<byte>
    requires |ops| == |outs|
    decreases |ops|
  {
    if ops == [] then []
    else
      var op, a := ops[|ops| - 1], outs[|outs| - 1];
      Delivered(ops[..|ops| - 1], outs[..|outs| - 1]) + if op.GetOp? && a.Bytes? then a.data else []
  }

  /** Gets return the accepted bytes in order; what is left is what is queued. */
  lemma {:induction false} FirstInFirstOut(ops: seq<Op>, capacity: nat)
    ensures var (outs, q) := Queue(ops, capacity); Delivered(ops, outs) + q == Accepted(ops, outs)
    decreases |ops|
  {
    if ops != [] {
      var rest := ops[..|ops| - 1];
      FirstInFirstOut(rest, capacity);
      var (outs, q) := Queue(rest, capacity);
      assert Queue(ops, capacity).0[..|ops| - 1] == outs;
    }
  }
}
