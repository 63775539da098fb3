/** The FTP server's RETR path: a file is pumped through an sfifo into a TCP
    connection that may refuse any write, also between the two halves of a
    wrapped one. */
module Ftp {
  import opened Bits
  import opened Ring

  // ---------- sfifo ----------

  /** `(writepos - readpos) & (size - 1)` for positions 0..size, both ends included. */
  function UsedFor(r: nat, w: nat, size: nat): (u: nat)
    requires r <= size && w <= size && size > 0
    ensures u < size && SamePlace(w, Wrap(r, u, size), size)
  {
    var d := w - r;
    if d >= size then 0 else if d >= 0 then d else if d + size > 0 then d + size else 0
  }

  lemma {:induction false} UsedIsMask(r: nat, w: nat, k: nat)
    requires r <= Pow2(k) && w <= Pow2(k)
    ensures And(w - r, Pow2(k) - 1) == UsedFor(r, w, Pow2(k))
  {
    var size := Pow2(k);
    AndMask(w - r, k);
    var d := w - r;
    ModUnique(d, size, if d == size then 1 else if d >= 0 then 0 else -1, UsedFor(r, w, size));
  }

  class Sfifo {
    const buffer: array<byte>
    const size: nat
    ghost const order: nat
    var readpos: nat
    var writepos: nat

    ghost predicate Valid()
      reads this
    {
      buffer.Length == size == Pow2(order) && readpos <= size && writepos <= size
    }

    ghost function Contents(): (c: seq<byte>)
      reads this, buffer
      requires Valid()
      ensures |c| < size
    {
      Window(buffer[..], readpos, UsedFor(readpos, writepos, size))
    }

    /** sfifo_init: the smallest power of two above the requested room.  The
        doubling loop leaves the positive `int` range unless `room < 2^30`, see
        InitTerminates. */
    constructor (room: int)
      requires room < 0x4000_0000
      ensures Valid() && fresh(buffer) && Contents() == []
      ensures size > room && (size == 1 || size / 2 <= room)
    {
      var n, k := 1, 0;
      while n <= room
        invariant n == Pow2(k) && (n == 1 || n / 2 <= room)
        decreases room - n
      {
        n, k := 2 * n, k + 1;
      }
      buffer := new byte[n];
      size, order := n, k;
      readpos, writepos := 0, 0;
    }

    /** sfifo_used */
    method Used() returns (u: nat)
      requires Valid()
      ensures u == |Contents()|
    {
      UsedIsMask(readpos, writepos, order);
      u := And(writepos - readpos, size - 1);
    }

    /** The copies of sfifo_write, once the length is known to fit. */
    method Store(data: seq<byte>)
      requires Valid() && |data| < size
      modifies this`writepos, buffer
      ensures writepos <= size && SamePlace(writepos, Wrap(old(writepos), |data|, size), size)
      ensures buffer[..] == WrapWrite(old(buffer[..]), old(writepos), data)
    {
      var at := writepos;
      var l := Min(|data|, size - at);
      ghost var before := buffer[..];
      TwoCopies(before, at, data, l);
      if at + |data| > size {
        MemCpy(buffer, at, data[..l]);
        MemCpy(buffer, 0, data[l..]);
        writepos := |data| - l;
      } else {
        MemCpy(buffer, at, data);
        assert data[..l] == data && data[l..] == [];
        assert Patch(buffer[..], 0, []) == buffer[..];
        writepos := at + |data|;
      }
    }

    /** sfifo_write: stores as much as fits. */
    method Write(data: seq<byte>) returns (total: nat)
      requires Valid()
      modifies this`writepos, buffer
      ensures Valid() && readpos == old(readpos)
      ensures total == Min(|data|, size - 1 - |old(Contents())|)
      ensures Contents() == old(Contents()) + data[..total]
    {
      var used := Used();
      total := Min(|data|, size - 1 - used);
      var stored := data[..total];
      StoreExtends(buffer[..], readpos, writepos, stored);
      Store(stored);
      StoreCounts(readpos, old(writepos), writepos, size, total);
    }

    /** Copies out the first `n` bytes, which do not wrap, and moves readpos past them. */
    method Consume(n: nat, to: nat) returns (bytes: seq<byte>)
      requires Valid() && n <= |Contents()| && readpos + n <= size
      requires to <= size && SamePlace(to, readpos + n, size)
      modifies this`readpos
      ensures Valid() && readpos == to
      ensures bytes == old(Contents())[..n] && Contents() == old(Contents())[n..]
    {
      bytes := buffer[readpos..readpos + n];
      WindowDrops(buffer[..], readpos, UsedFor(readpos, writepos, size), n, to);
      readpos := to;
    }
  }

  lemma {:induction false} StoreExtends(buf: seq<byte>, r: nat, w: nat, data: seq<byte>)
    requires |buf| > 0 && r <= |buf| && w <= |buf| && UsedFor(r, w, |buf|) + |data| < |buf|
    ensures var used := UsedFor(r, w, |buf|);
            Window(WrapWrite(buf, w, data), r, used + |data|) == Window(buf, r, used) + data
  {
    WindowExtends(buf, r, UsedFor(r, w, |buf|), w, data);
  }

  lemma {:induction false} StoreCounts(r: nat, w: nat, w': nat, size: nat, n: nat)
    requires size > 0 && r <= size && w <= size && w' <= size && UsedFor(r, w, size) + n < size
    requires SamePlace(w', Wrap(w, n, size), size)
    ensures UsedFor(r, w', size) == UsedFor(r, w, size) + n
  {
  }

  /** `size <<= 1` on a 32-bit int, after k doublings from 1. */
  function Doubled(k: nat): int {
    if k < 31 then Pow2(k) else if k == 31 then -0x8000_0000 else 0
  }

  /** The doubling loop of sfifo_init stops exactly for requests below 2^30. */
  lemma {:induction false} InitTerminates(room: int)
    requires -0x8000_0000 <= room < 0x8000_0000
    ensures (exists k: nat :: Doubled(k) > room && forall j: nat :: j < k ==> Doubled(j) <= room) <==> room < 0x4000_0000
  {
    Thirty();
    if room < 0x4000_0000 {
      var k := 0;
      while Doubled(k) <= room
        invariant 0 <= k <= 30 && forall j: nat :: j < k ==> Doubled(j) <= room
        decreases 30 - k
      {
        k := k + 1;
      }
    } else {
      forall k: nat ensures Doubled(k) <= room {
        if k < 31 { Pow2Monotone(k, 30); }
      }
    }
  }

  lemma {:induction false} Thirty()
    ensures Pow2(30) == 0x4000_0000
  {
    Pow2At32();
    assert Pow2(31) == 2 * Pow2(30);
  }

  // ---------- the transfer ----------

  /** What the environment decides during one call: the TCP send window, the
      results of the two tcp_write calls, and how much vfs_read yields. */
  datatype Event = Event(sndbuf: nat, firstOk: bool, lastOk: bool, readLen: nat)

  predicate Possible(e: Event) { e.sndbuf < 0x1_0000 }

  /** A call in which the window is open, every write is taken and the file is readable. */
  predicate Good(e: Event) { e.sndbuf > 0 && e.firstOk && e.lastOk && e.readLen > 0 }

  lemma {:induction false} Regroup(taken: seq<byte>, queued: seq<byte>, n: nat)
    requires n <= |queued|
    ensures (taken + queued[..n]) + queued[n..] == taken + queued
  {
  }

  class Transfer {
    const file: seq<byte>
    const fifo: Sfifo
    var connected: bool
    var fileOpen: bool
    var cursor: nat
    var accepted: seq<byte>
    var replied226: bool

    /** Bytes TCP took, followed by bytes queued, are the bytes read so far. */
    ghost predicate Valid()
      reads this, fifo, fifo.buffer
    {
      && fifo.Valid() && fifo.size > 2000 && cursor <= |file|
      && accepted + fifo.Contents() == file[..cursor]
      && (!fileOpen ==> cursor == |file|)
      && (replied226 ==> !fileOpen && fifo.Contents() == [])
    }

    constructor (contents: seq<byte>)
      ensures Valid() && fresh(fifo) && fresh(fifo.buffer) && file == contents
      ensures fileOpen && cursor == 0 && accepted == [] && connected && !replied226
    {
      file := contents;
      fifo := new Sfifo(2000);
      connected, fileOpen, cursor, accepted, replied226 := true, true, 0, [], false;
    }

    ghost function Remaining(): nat
      reads this, fifo, fifo.buffer
      requires Valid()
    {
      2 * (|file| - cursor) + |fifo.Contents()| + (if fileOpen then 1 else 0)
    }

    /** A tcp_write that was taken: `n` contiguous bytes, readpos then moving to `to`. */
    method Taken(n: nat, to: nat)
      requires fifo.Valid() && n <= |fifo.Contents()| && fifo.readpos + n <= fifo.size
      requires to <= fifo.size && SamePlace(to, fifo.readpos + n, fifo.size)
      modifies this`accepted, fifo`readpos
      ensures fifo.Valid() && fifo.readpos == to
      ensures |accepted| == |old(accepted)| + n
      ensures accepted + fifo.Contents() == old(accepted) + old(fifo.Contents())
    {
      Regroup(accepted, fifo.Contents(), n);
      var bytes := fifo.Consume(n, to);
      accepted := accepted + bytes;
    }

    /** How many of `queued` bytes TCP takes: none of a refused write, and of a write that
        wraps the first half if only the second is refused. */
    ghost function Takes(e: Event, queued: nat): nat
      reads this, fifo
      requires fifo.Valid()
    {
      var len, head := Min(e.sndbuf, queued), fifo.size - fifo.readpos;
      if e.lastOk then if len <= head || e.firstOk then len else 0
      else if len > head && e.firstOk then head else 0
    }

    /** send_data: hands queued bytes to TCP; a refused write loses nothing. */
    method SendData(e: Event)
      requires fifo.Valid() && Possible(e)
      modifies this`accepted, fifo`readpos
      ensures fifo.Valid()
      ensures accepted + fifo.Contents() == old(accepted) + old(fifo.Contents())
      ensures |accepted| == |old(accepted)| + old(Takes(e, |fifo.Contents()|)) && |fifo.Contents()| <= |old(fifo.Contents())|
      ensures e.firstOk && e.lastOk ==> |fifo.Contents()| == |old(fifo.Contents())| - Min(e.sndbuf, |old(fifo.Contents())|)
    {
      var used := fifo.Used();
      if used > 0 {
        var len := if e.sndbuf < used then e.sndbuf else used % 0x1_0000;
        assert len == Min(e.sndbuf, used);
        if fifo.readpos + len > fifo.size {
          var head := (fifo.size - fifo.readpos) % 0x1_0000;
          assert head == fifo.size - fifo.readpos;
          if !e.firstOk {
            return;
          }
          Taken(head, 0);
          len := len - head;
        }
        if !e.lastOk {
          return;
        }
        Taken(len, fifo.readpos + len);
      }
    }

    /** One vfs_read into the fifo. */
    method Fill(len: nat)
      requires Valid() && fileOpen && cursor + len <= |file| && |fifo.Contents()| + len < fifo.size
      modifies this`cursor, fifo`writepos, fifo.buffer
      ensures Valid() && cursor == old(cursor) + len && |fifo.Contents()| == |old(fifo.Contents())| + len
    {
      var bytes := file[cursor..cursor + len];
      var stored := fifo.Write(bytes);
      assert bytes[..stored] == bytes;
      cursor := cursor + len;
      assert file[..cursor] == file[..old(cursor)] + bytes;
    }

    /** How much of the file one callback reads. */
    ghost function Reads(e: Event): nat
      reads this, fifo, fifo.buffer
      requires Valid()
    {
      if connected && fileOpen then Min(e.readLen, Min(Min(2048, fifo.size - 1 - |fifo.Contents()|), |file| - cursor)) else 0
    }

    /** One read of the file and what is sent after it. */
    method Pump(len: nat, e: Event)
      requires Valid() && Possible(e) && fileOpen && !replied226
      requires 0 < len && cursor + len <= |file| && |fifo.Contents()| + len < fifo.size
      modifies this`cursor, this`accepted, fifo`readpos, fifo`writepos, fifo.buffer
      ensures Valid() && cursor == old(cursor) + len
      ensures |accepted| == |old(accepted)| + old(Takes(e, |fifo.Contents()| + len))
      ensures Remaining() < old(Remaining())
    {
      Fill(len);
      SendData(e);
    }

    /** A callback while the file is open. */
    method SendOpen(e: Event)
      requires Valid() && Possible(e) && connected && fileOpen && !replied226
      modifies this`cursor, this`accepted, this`fileOpen, fifo`readpos, fifo`writepos, fifo.buffer
      ensures Valid() && cursor == old(cursor) + old(Reads(e))
      ensures |accepted| == |old(accepted)| +
        if old(|fifo.Contents()| < fifo.size - 1 && Reads(e) == 0) then 0 else old(Takes(e, |fifo.Contents()| + Reads(e)))
      ensures Good(e) ==> Remaining() < old(Remaining())
    {
      var used := fifo.Used();
      var len := fifo.size - 1 - used;
      if len == 0 {
        SendData(e);
        return;
      }
      if len > 2048 {
        len := 2048;
      }
      len := Min(e.readLen, Min(len, |file| - cursor));
      if len == 0 {
        if cursor == |file| {
          fileOpen := false;
        }
        return;
      }
      Pump(len, e);
    }

    /** send_file: one callback.  It reads into the fifo and sends what is queued then,
        unless there was room to read and nothing came.  226 is sent only with the file
        closed at its end and nothing left to send, and every good call gets closer to
        that. */
    method SendFile(e: Event)
      requires Valid() && Possible(e) && !replied226
      modifies this, fifo, fifo.buffer
      ensures Valid() && connected == old(connected)
      ensures cursor == old(cursor) + old(Reads(e))
      ensures |accepted| == |old(accepted)| +
        if old(connected && !(fileOpen && |fifo.Contents()| < fifo.size - 1 && Reads(e) == 0))
        then old(Takes(e, |fifo.Contents()| + Reads(e))) else 0
      ensures replied226 <==> connected && !old(fileOpen) && old(fifo.Contents()) == []
      ensures replied226 ==> accepted == file
      ensures !connected ==> accepted == old(accepted) && fileOpen == old(fileOpen)
      ensures Good(e) && connected ==> replied226 || Remaining() < old(Remaining())
    {
      if !connected {
        return;
      }
      if fileOpen {
        SendOpen(e);
      } else {
        var used := fifo.Used();
        if used > 0 {
          SendData(e);
          return;
        }
        replied226 := true;
      }
    }
  }

  /** A whole transfer: for every pattern of windows, refused writes and short
      reads, what TCP took is a prefix of the file; 226 means all of it was taken;
      and 2 * |file| + 2 good calls are always enough to get there. */
  method Retrieve(file: seq<byte>, events: seq<Event>) returns (accepted: seq<byte>, replied: bool)
    requires forall i :: 0 <= i < |events| ==> Possible(events[i])
    ensures accepted <= file
    ensures replied ==> accepted == file
    ensures (forall i :: 0 <= i < |events| ==> Good(events[i])) && |events| >= 2 * |file| + 2 ==> replied
  {
    var t := new Transfer(file);
    var i := 0;
    while i < |events| && !t.replied226
      invariant 0 <= i <= |events| && t.Valid() && t.connected && t.file == file
      invariant fresh(t) && fresh(t.fifo) && fresh(t.fifo.buffer)
      invariant t.replied226 ==> t.accepted == file
      invariant (forall j :: 0 <= j < |events| ==> Good(events[j])) && !t.replied226 ==> t.Remaining() + i <= 2 * |file| + 1
    {
      t.SendFile(events[i]);
      i := i + 1;
    }
    accepted, replied := t.accepted, t.replied226;
    assert accepted == file[..|accepted|] by {
      assert accepted == (accepted + t.fifo.Contents())[..|accepted|];
      assert file[..t.cursor][..|accepted|] == file[..|accepted|];
    }
  }
}
