/** The HTTP over-the-air writer: the body of a response, in whatever pieces it
    arrives, is gathered in a 1024-byte buffer and laid onto a flash partition. */
module OtaFlash {
  import opened Bits
  import opened Ring
  import opened Flash

  const WR_BUF: nat := 1024

  /** What was done to the flash in this session. */
  datatype Event = Erased(sector: nat) | Programmed(at: nat, len: nat)

  /** A cell is programmed only after its sector was erased, at most once, and its
      sector is not erased after that; every erase stays inside the partition. */
  ghost predicate Disciplined(log: seq<Event>, start: nat, end: nat) {
    log == [] || (Disciplined(log[..|log| - 1], start, end) && Allowed(log[..|log| - 1], log[|log| - 1], start, end))
  }

  ghost predicate Allowed(before: seq<Event>, e: Event, start: nat, end: nat) {
    match e
    case Erased(s) =>
      && s % SECTOR == 0 && start <= s && s + SECTOR <= end
      && forall i :: 0 <= i < |before| && before[i].Programmed? ==> !Overlap(before[i].at, before[i].len, s, SECTOR)
    case Programmed(at, len) =>
      && (forall x :: at <= x < at + len ==> ErasedAt(before, x))
      && forall i :: 0 <= i < |before| && before[i].Programmed? ==> !Overlap(before[i].at, before[i].len, at, len)
  }

  /** A sector that holds `x` was erased. */
  ghost predicate ErasedAt(log: seq<Event>, x: nat) {
    exists i :: 0 <= i < |log| && log[i].Erased? && log[i].sector <= x < log[i].sector + SECTOR
  }

  ghost predicate ProgrammedAt(log: seq<Event>, x: nat) {
    exists i :: 0 <= i < |log| && log[i].Programmed? && log[i].at <= x < log[i].at + log[i].len
  }

  predicate Overlap(a: nat, n: nat, b: nat, m: nat) { a < b + m && b < a + n }

  /** Where `blocks` blocks of 1024 bytes end. */
  function Place(start: nat, blocks: nat): nat { start + 1024 * blocks }

  /** The sector in which the block begins. */
  function Sector(start: nat, blocks: nat): nat { start + 0x1000 * (blocks / 4) }

  /** It is that of the block's first cell, and the block ends inside it. */
  lemma {:induction false} PlaceAligned(start: nat, blocks: nat)
    requires start % SECTOR == 0
    ensures SectorOf(Place(start, blocks)) == Sector(start, blocks) && Sector(start, blocks) % SECTOR == 0
    ensures Place(start, blocks) % SECTOR == 0 <==> blocks % 4 == 0
    ensures blocks % 4 == 0 ==> Sector(start, blocks) == Place(start, blocks)
  {
    var q, b, r := start / SECTOR, blocks / 4, blocks % 4;
    assert blocks == 4 * b + r;
    ModUnique(Place(start, blocks), SECTOR, q + b, 1024 * r);
    ModUnique(Sector(start, blocks), SECTOR, q + b, 0);
  }

  lemma {:induction false} BlockEnds(start: nat, blocks: nat)
    ensures Sector(start, blocks) <= Place(start, blocks) && Place(start, blocks) + WR_BUF <= Sector(start, blocks) + SECTOR
    ensures (blocks + 1) % 4 != 0 ==> Sector(start, blocks + 1) == Sector(start, blocks)
    ensures Place(start, blocks + 1) == Place(start, blocks) + WR_BUF
  {
  }

  lemma {:induction false} ErasedIn(log: seq<Event>, start: nat, blocks: nat, x: nat)
    requires Erased(Sector(start, blocks)) in log && Place(start, blocks) <= x < Place(start, blocks) + WR_BUF
    ensures ErasedAt(log, x)
  {
    BlockEnds(start, blocks);
    var i :| 0 <= i < |log| && log[i] == Erased(Sector(start, blocks));
  }

  /** All that was programmed lies below `at`, and the sector begun below it was erased. */
  ghost predicate Below(log: seq<Event>, start: nat, blocks: nat) {
    && (forall i :: 0 <= i < |log| && log[i].Programmed? ==> log[i].at + log[i].len <= Place(start, blocks))
    && (blocks % 4 != 0 ==> Erased(Sector(start, blocks)) in log)
  }

  lemma {:induction false} DisciplinedSnoc(log: seq<Event>, e: Event, start: nat, end: nat)
    requires Disciplined(log, start, end) && Allowed(log, e, start, end)
    ensures Disciplined(log + [e], start, end)
  {
    assert (log + [e])[..|log|] == log;
  }

  /** Erasing at the next free place. */
  lemma {:induction false} MayErase(log: seq<Event>, start: nat, end: nat, blocks: nat)
    requires start % SECTOR == 0 && end % SECTOR == 0 && Disciplined(log, start, end) && Below(log, start, blocks)
    requires Place(start, blocks) % SECTOR == 0 && Place(start, blocks) < end
    ensures Disciplined(log + [Erased(Place(start, blocks))], start, end)
    ensures Below(log + [Erased(Place(start, blocks))], start, blocks)
  {
    var e := Erased(Place(start, blocks));
    RoomForSector(Place(start, blocks), end);
    DisciplinedSnoc(log, e, start, end);
  }

  lemma {:induction false} RoomForSector(a: nat, end: nat)
    requires a % SECTOR == 0 && end % SECTOR == 0 && a < end
    ensures a + SECTOR <= end
  {
    var p, q := a / SECTOR, end / SECTOR;
    assert a == 0x1000 * p && end == 0x1000 * q;
  }

  lemma {:induction false} ProgramAllowed(log: seq<Event>, start: nat, end: nat, blocks: nat, len: nat)
    requires Below(log, start, blocks) && len <= WR_BUF && Erased(Sector(start, blocks)) in log
    ensures Allowed(log, Programmed(Place(start, blocks), len), start, end)
  {
    forall x | Place(start, blocks) <= x < Place(start, blocks) + len
      ensures ErasedAt(log, x)
    {
      ErasedIn(log, start, blocks, x);
    }
  }

  lemma {:induction false} BelowGrows(log: seq<Event>, start: nat, blocks: nat)
    requires Below(log, start, blocks) && Erased(Sector(start, blocks)) in log
    ensures Below(log + [Programmed(Place(start, blocks), WR_BUF)], start, blocks + 1)
  {
    BlockEnds(start, blocks);
  }

  /** Programming at the next free place, once its sector is erased. */
  lemma {:induction false} MayProgram(log: seq<Event>, start: nat, end: nat, blocks: nat, len: nat)
    requires Disciplined(log, start, end) && Below(log, start, blocks) && len <= WR_BUF
    requires Erased(Sector(start, blocks)) in log
    ensures Disciplined(log + [Programmed(Place(start, blocks), len)], start, end)
    ensures len == WR_BUF ==> Below(log + [Programmed(Place(start, blocks), len)], start, blocks + 1)
  {
    ProgramAllowed(log, start, end, blocks, len);
    DisciplinedSnoc(log, Programmed(Place(start, blocks), len), start, end);
    BelowGrows(log, start, blocks);
  }

  /** What is done to the flash before block `blocks` is written, and for the blocks before it. */
  ghost function Begun(start: nat, blocks: nat): seq<Event>
    decreases blocks, 1
  {
    LogOf(start, blocks) + if blocks % 4 == 0 then [Erased(Place(start, blocks))] else []
  }

  ghost function LogOf(start: nat, blocks: nat): seq<Event>
    decreases blocks, 0
  {
    if blocks == 0 then [] else Begun(start, blocks - 1) + [Programmed(Place(start, blocks - 1), WR_BUF)]
  }

  /** Any number of blocks that begin inside the partition keep the discipline. */
  lemma {:induction false} LogSound(start: nat, end: nat, blocks: nat)
    requires start % SECTOR == 0 && end % SECTOR == 0 && Place(start, blocks) < end
    ensures Disciplined(LogOf(start, blocks), start, end) && Below(LogOf(start, blocks), start, blocks)
    decreases blocks
  {
    if blocks > 0 {
      LogSound(start, end, blocks - 1);
      BegunSound(start, end, blocks - 1);
      MayProgram(Begun(start, blocks - 1), start, end, blocks - 1, WR_BUF);
    }
  }

  lemma {:induction false} BegunSound(start: nat, end: nat, blocks: nat)
    requires start % SECTOR == 0 && end % SECTOR == 0 && Place(start, blocks) < end
    requires Disciplined(LogOf(start, blocks), start, end) && Below(LogOf(start, blocks), start, blocks)
    ensures Disciplined(Begun(start, blocks), start, end) && Below(Begun(start, blocks), start, blocks)
    ensures Erased(Sector(start, blocks)) in Begun(start, blocks)
  {
    PlaceAligned(start, blocks);
    if blocks % 4 == 0 {
      MayErase(LogOf(start, blocks), start, end, blocks);
    } else {
      assert Begun(start, blocks) == LogOf(start, blocks);
    }
  }

  /** And so does the rest of the body behind them. */
  lemma {:induction false} LastSound(start: nat, end: nat, blocks: nat, len: nat)
    requires start % SECTOR == 0 && end % SECTOR == 0 && Place(start, blocks) < end && len <= WR_BUF
    ensures Disciplined(Begun(start, blocks) + [Programmed(Place(start, blocks), len)], start, end)
  {
    LogSound(start, end, blocks);
    BegunSound(start, end, blocks);
    MayProgram(Begun(start, blocks), start, end, blocks, len);
  }

  /** A whole block is refused only in the last quarter of the last sector. */
  lemma {:induction false} RefusedInside(start: nat, end: nat, blocks: nat)
    requires start % SECTOR == 0 && end % SECTOR == 0 && Place(start, blocks) < end <= Place(start, blocks) + WR_BUF
    ensures blocks % 4 != 0
  {
    PlaceAligned(start, blocks);
    if blocks % 4 == 0 {
      RoomForSector(Place(start, blocks), end);
    }
  }

  /** The log accounts for what became of a flash that held `was`: a cell that changed
      lies in an erased sector, and one that is not blank there was programmed. */
  ghost predicate Accounts(was: seq<byte>, now: seq<byte>, log: seq<Event>) {
    |now| == |was| && forall x {:trigger CellAccounted(was[x], now[x], log, x)} :: 0 <= x < |now| ==> CellAccounted(was[x], now[x], log, x)
  }

  ghost predicate CellAccounted(was: byte, now: byte, log: seq<Event>, x: nat) {
    if ErasedAt(log, x) then now == 255 || ProgrammedAt(log, x) else now == was
  }

  lemma {:induction false} NothingDone(flash: seq<byte>)
    ensures Accounts(flash, flash, [])
  {
    forall x | 0 <= x < |flash|
      ensures CellAccounted(flash[x], flash[x], [], x)
    {
    }
  }

  lemma {:induction false} LogGrows(log: seq<Event>, e: Event, x: nat)
    ensures ProgrammedAt(log + [e], x) <==> ProgrammedAt(log, x) || (e.Programmed? && e.at <= x < e.at + e.len)
    ensures ErasedAt(log + [e], x) <==> ErasedAt(log, x) || (e.Erased? && e.sector <= x < e.sector + SECTOR)
  {
    var r := log + [e];
    assert r[|log|] == e && forall i :: 0 <= i < |log| ==> r[i] == log[i];
    if ProgrammedAt(log, x) {
      var i :| 0 <= i < |log| && log[i].Programmed? && log[i].at <= x < log[i].at + log[i].len;
      assert r[i] == log[i];
    }
    if ErasedAt(log, x) {
      var i :| 0 <= i < |log| && log[i].Erased? && log[i].sector <= x < log[i].sector + SECTOR;
      assert r[i] == log[i];
    }
  }

  lemma {:induction false} EraseAccounts(was: seq<byte>, now: seq<byte>, log: seq<Event>, a: nat)
    requires Accounts(was, now, log) && a % SECTOR == 0
    ensures Accounts(was, Erase(now, a), log + [Erased(a)])
  {
    forall x | 0 <= x < |now|
      ensures CellAccounted(was[x], Erase(now, a)[x], log + [Erased(a)], x)
    {
      assert CellAccounted(was[x], now[x], log, x);
      LogGrows(log, Erased(a), x);
      SameSector(x, a);
    }
  }

  lemma {:induction false} WriteAccounts(was: seq<byte>, now: seq<byte>, log: seq<Event>, at: nat, data: seq<byte>)
    requires Accounts(was, now, log) && forall x :: at <= x < at + |data| ==> ErasedAt(log, x)
    ensures Accounts(was, Write(now, at, data), log + [Programmed(at, |data|)])
  {
    forall x | 0 <= x < |now|
      ensures CellAccounted(was[x], Write(now, at, data)[x], log + [Programmed(at, |data|)], x)
    {
      assert CellAccounted(was[x], now[x], log, x);
      LogGrows(log, Programmed(at, |data|), x);
    }
  }

  lemma {:induction false} ErasesInside(log: seq<Event>, start: nat, end: nat, x: nat)
    requires Disciplined(log, start, end)
    ensures ErasedAt(log, x) ==> start <= x < end
  {
    if log != [] {
      ErasesInside(log[..|log| - 1], start, end, x);
      LogGrows(log[..|log| - 1], log[|log| - 1], x);
      assert log == log[..|log| - 1] + [log[|log| - 1]];
    }
  }

  /** Erases stay inside the partition, so all other cells keep what they held. */
  lemma {:induction false} OutsideKept(was: seq<byte>, now: seq<byte>, log: seq<Event>, start: nat, end: nat)
    requires Accounts(was, now, log) && Disciplined(log, start, end)
    ensures |now| == |was| && forall x :: 0 <= x < |now| && (x < start || end <= x) ==> now[x] == was[x]
  {
    forall x | 0 <= x < |now| && (x < start || end <= x)
      ensures now[x] == was[x]
    {
      assert CellAccounted(was[x], now[x], log, x);
      ErasesInside(log, start, end, x);
    }
  }

  /** The cells from the next free place to the end of its sector are erased. */
  ghost predicate SectorBlank(flash: seq<byte>, start: nat, blocks: nat) {
    forall x :: Place(start, blocks) <= x < Sector(start, blocks) + SECTOR && x < |flash| ==> flash[x] == 255
  }

  /** They are unless the place begins a sector. */
  ghost predicate BlankAhead(flash: seq<byte>, start: nat, blocks: nat) {
    blocks % 4 != 0 ==> SectorBlank(flash, start, blocks)
  }

  /** Erasing the sector at the next free place, if one begins there. */
  function Opened(flash: seq<byte>, addr: nat): (r: seq<byte>)
    ensures |r| == |flash|
  {
    if addr % SECTOR == 0 then Erase(flash, addr) else flash
  }

  /** After that the rest of the sector is erased, and nothing below was touched. */
  lemma {:induction false} OpenedBlank(flash: seq<byte>, start: nat, blocks: nat)
    requires start % SECTOR == 0 && BlankAhead(flash, start, blocks) && Place(start, blocks) <= |flash|
    ensures SectorBlank(Opened(flash, Place(start, blocks)), start, blocks)
    ensures Opened(flash, Place(start, blocks))[..Place(start, blocks)] == flash[..Place(start, blocks)]
  {
    PlaceAligned(start, blocks);
    forall x | 0 <= x < |flash|
      ensures x < Place(start, blocks) ==> Opened(flash, Place(start, blocks))[x] == flash[x]
      ensures Place(start, blocks) <= x < Sector(start, blocks) + SECTOR ==> Opened(flash, Place(start, blocks))[x] == 255
    {
      SameSector(x, Place(start, blocks));
    }
  }

  /** A block on erased cells: the data is there and the rest is kept. */
  lemma {:induction false} BlockLaid(flash: seq<byte>, start: nat, blocks: nat, data: seq<byte>)
    requires SectorBlank(flash, start, blocks) && |data| <= WR_BUF && Place(start, blocks) + |data| <= |flash|
    ensures var a := Place(start, blocks); Write(flash, a, data)[start..a + |data|] == flash[start..a] + data
  {
    var a := Place(start, blocks);
    var w, goal := Write(flash, a, data), flash[start..a] + data;
    BlockEnds(start, blocks);
    forall i | 0 <= i < |goal|
      ensures w[start..a + |data|][i] == goal[i]
    {
      assert w[start..a + |data|][i] == w[start + i];
    }
  }

  /** After a whole block the rest of its sector is still erased. */
  lemma {:induction false} BlankLaid(flash: seq<byte>, start: nat, blocks: nat, data: seq<byte>)
    requires SectorBlank(flash, start, blocks) && |data| == WR_BUF
    ensures BlankAhead(Write(flash, Place(start, blocks), data), start, blocks + 1)
  {
    BlockEnds(start, blocks);
  }

  lemma {:induction false} PageGrows(before: seq<byte>, page: seq<byte>, i: nat, n: nat)
    requires i + n <= |page|
    ensures before + page[..i] + page[i..i + n] == before + page[..i + n]
  {
    assert page[..i] + page[i..i + n] == page[..i + n];
  }

  /** How many whole blocks of a body of `n` bytes fit before the end of a partition:
      the write that would end exactly there is refused. */
  function Kept(n: nat, length: nat): nat
    requires length > 0
  {
    Min(n / 1024, (length - 1) / 1024)
  }

  /** Those blocks. */
  function Front(s: seq<byte>, length: nat): (t: seq<byte>)
    requires length > 0
    ensures |t| == 1024 * Kept(|s|, length)
  {
    s[..1024 * Kept(|s|, length)]
  }

  /** What follows the last whole block of a stream, kept or not. */
  function Tail(s: seq<byte>): (t: seq<byte>)
    ensures |t| == |s| % 1024
  {
    s[|s| - |s| % 1024..]
  }

  /** A stream cut at its last block boundary, for a partition of `cap` + 1 blocks. */
  lemma {:induction false} CutAt(s: seq<byte>, whole: nat, n: nat, cap: nat, length: nat)
    requires |s| == 1024 * whole + n && n < 1024 && length == 1024 * (cap + 1)
    ensures Kept(|s|, length) == Min(whole, cap) && Tail(s) == s[1024 * whole..]
  {
    ModUnique(|s|, 1024, whole, n);
    ModUnique(length - 1, 1024, cap, 1023);
  }

  lemma {:induction false} WholeBlocks(start: nat, length: nat) returns (cap: nat)
    requires start % SECTOR == 0 && (start + length) % SECTOR == 0 && 0 < length
    ensures length == 1024 * (cap + 1)
  {
    var p, q := start / SECTOR, (start + length) / SECTOR;
    assert start == 0x1000 * p && start + length == 0x1000 * q;
    cap := 4 * (q - p) - 1;
  }

  /** A full buffer makes the next block of the stream. */
  lemma {:induction false} BlockFilled(s: seq<byte>, piece: seq<byte>, whole: nat)
    requires 1024 * whole <= |s| && |s| + |piece| == 1024 * whole + 1024
    ensures s[..1024 * whole] + (s[1024 * whole..] + piece) == s + piece
  {
  }

  lemma {:induction false} ProgramAccounts(was: seq<byte>, now: seq<byte>, log: seq<Event>, start: nat, blocks: nat, data: seq<byte>)
    requires Accounts(was, now, log) && |data| <= WR_BUF && Erased(Sector(start, blocks)) in log
    ensures var a := Place(start, blocks); Accounts(was, Write(now, a, data), log + [Programmed(a, |data|)])
  {
    forall x | Place(start, blocks) <= x < Place(start, blocks) + |data|
      ensures ErasedAt(log, x)
    {
      ErasedIn(log, start, blocks, x);
    }
    WriteAccounts(was, now, log, Place(start, blocks), data);
  }

  /** A write at the next free place: what is on flash then, and what the log says of it. */
  lemma {:induction false} BlockWritten(was: seq<byte>, flash: seq<byte>, log: seq<Event>, start: nat, blocks: nat, data: seq<byte>,
                                        now: seq<byte>, next: nat)
    requires |data| <= WR_BUF && Place(start, blocks) + |data| <= |flash|
    requires SectorBlank(flash, start, blocks) && Accounts(was, flash, log) && Erased(Sector(start, blocks)) in log
    requires now == Write(flash, Place(start, blocks), data) && next == blocks + if |data| == WR_BUF then 1 else 0
    ensures now[start..Place(start, blocks) + |data|] == flash[start..Place(start, blocks)] + data
    ensures Accounts(was, now, log + [Programmed(Place(start, blocks), |data|)])
    ensures |data| == WR_BUF ==> Place(start, next) == Place(start, blocks) + WR_BUF && BlankAhead(now, start, next)
  {
    BlockEnds(start, blocks);
    BlockLaid(flash, start, blocks, data);
    if |data| == WR_BUF {
      BlankLaid(flash, start, blocks, data);
    }
    ProgramAccounts(was, flash, log, start, blocks, data);
  }

  class Writer {
    const flash: array<byte>
    const start: nat
    const length: nat
    const wrBuf: array<byte>
    var lastLen: nat
    var address: nat
    ghost const first: seq<byte>
    ghost const cap: nat
    ghost var whole: nat
    ghost var blocks: nat
    ghost var log: seq<Event>
    ghost var stream: seq<byte>

    ghost predicate Placed()
      reads this, flash
    {
      && start % SECTOR == 0 && (start + length) % SECTOR == 0 && start + length <= flash.Length
      && length == 1024 * (cap + 1)
      && wrBuf != flash && wrBuf.Length == WR_BUF
      && address == Place(start, blocks) < start + length && log == LogOf(start, blocks)
      && BlankAhead(flash[..], start, blocks) && Accounts(first, flash[..], log)
    }

    /** The whole blocks of the stream are on flash, as far as they fit, and the rest of it is pending. */
    ghost predicate Valid()
      reads this, flash, wrBuf
    {
      && Placed() && lastLen < WR_BUF && |stream| == 1024 * whole + lastLen && wrBuf[..lastLen] == stream[1024 * whole..]
      && blocks == Min(whole, cap) && flash[start..address] == stream[..1024 * blocks]
    }

    /** http_flash_init. */
    constructor (memory: array<byte>, partition: nat, size: nat)
      requires partition % SECTOR == 0 && (partition + size) % SECTOR == 0 && 0 < size && partition + size <= memory.Length
      ensures Valid() && flash == memory && start == partition && length == size && stream == [] && fresh(wrBuf)
      ensures first == memory[..]
    {
      ghost var n := WholeBlocks(partition, size);
      flash, start, length, first, cap := memory, partition, size, memory[..], n;
      wrBuf := new byte[WR_BUF];
      lastLen, address := 0, partition;
      whole, blocks, log, stream := 0, 0, [], [];
      new;
      NothingDone(flash[..]);
    }

    /** http_flash_wr(wr_buf, len): erases when a sector begins here, then writes if
        the data ends before the partition does. */
    method FlashWr(len: nat) returns (ghost wrote: bool)
      requires Placed() && len <= WR_BUF
      modifies flash, this`address, this`blocks, this`log
      ensures wrote == (old(address) + len < start + length) && address == old(address) + if wrote then len else 0
      ensures blocks == old(blocks) + if wrote && len == WR_BUF then 1 else 0
      ensures flash[start..address] == old(flash[start..address]) + if wrote then wrBuf[..len] else []
      ensures log == Begun(start, old(blocks)) + if wrote then [Programmed(old(address), len)] else []
      ensures Accounts(first, flash[..], log)
      ensures len == WR_BUF ==> Placed()
    {
      OpenSector();
      wrote := address + len < start + length;
      if address + len < start + length {
        PutBlock(len);
      } else if len == WR_BUF {
        RefusedInside(start, start + length, blocks);
      }
    }

    /** The write of http_flash_wr. */
    method PutBlock(len: nat)
      requires wrBuf != flash && wrBuf.Length == WR_BUF && len <= WR_BUF && start % SECTOR == 0
      requires address == Place(start, blocks) && address + len <= flash.Length && SectorBlank(flash[..], start, blocks)
      requires Accounts(first, flash[..], log) && Erased(Sector(start, blocks)) in log
      modifies flash, this`address, this`blocks, this`log
      ensures address == old(address) + len && blocks == old(blocks) + if len == WR_BUF then 1 else 0
      ensures flash[start..address] == old(flash[start..address]) + wrBuf[..len]
      ensures log == old(log) + [Programmed(old(address), len)] && Accounts(first, flash[..], log)
      ensures len == WR_BUF ==> address == Place(start, blocks) && BlankAhead(flash[..], start, blocks)
    {
      ghost var f, log0, blocks0 := flash[..], log, blocks;
      ProgramBlock(len);
      BlockWritten(first, f, log0, start, blocks0, wrBuf[..len], flash[..], blocks);
    }

    /** ddev_write, and the address behind it. */
    method ProgramBlock(len: nat)
      requires wrBuf != flash && len <= wrBuf.Length
      modifies flash, this`address, this`blocks, this`log
      ensures flash[..] == Write(old(flash[..]), old(address), wrBuf[..len]) && log == old(log) + [Programmed(old(address), len)]
      ensures address == old(address) + len && blocks == old(blocks) + if len == WR_BUF then 1 else 0
    {
      WriteFlash(flash, address, wrBuf[..len]);
      log := log + [Programmed(address, len)];
      address := address + len;
      blocks := if len == WR_BUF then blocks + 1 else blocks;
    }

    /** The erase at the head of http_flash_wr. */
    method OpenSector()
      requires Placed()
      modifies flash, this`log
      ensures flash[..] == Opened(old(flash[..]), address) && log == Begun(start, blocks)
      ensures flash[start..address] == old(flash[start..address]) && SectorBlank(flash[..], start, blocks)
      ensures Accounts(first, flash[..], log) && Erased(Sector(start, blocks)) in log
    {
      PlaceAligned(start, blocks);
      OpenedBlank(flash[..], start, blocks);
      LogSound(start, start + length, blocks);
      BegunSound(start, start + length, blocks);
      ghost var below := flash[..address];
      if address % SECTOR == 0 {
        EraseAccounts(first, flash[..], log, address);
        EraseSector(flash, address);
        log := log + [Erased(address)];
      }
      assert flash[..address] == below;
      assert flash[start..address] == flash[..address][start..];
    }

    /** One round of the copy loop: the piece joins the buffer, and a full buffer goes to flash. */
    method TakePiece(piece: seq<byte>)
      requires Valid() && |piece| <= WR_BUF - lastLen
      modifies this, flash, wrBuf
      ensures Valid() && stream == old(stream) + piece
    {
      ghost var was := stream;
      MemCpy(wrBuf, lastLen, piece);
      lastLen := lastLen + |piece|;
      stream := stream + piece;
      assert wrBuf[..lastLen] == was[1024 * whole..] + piece;
      assert stream[1024 * whole..] == was[1024 * whole..] + piece;
      if lastLen >= WR_BUF {
        BlockFilled(was, piece, whole);
        var wrote := FlashWr(WR_BUF);
        whole := whole + 1;
        lastLen := 0;
      }
    }

    /** http_wr_to_flash. */
    method Receive(page: seq<byte>)
      requires Valid()
      modifies this, flash, wrBuf
      ensures Valid() && stream == old(stream) + page
    {
      ghost var before := stream;
      var i := 0;
      while i < |page|
        invariant 0 <= i <= |page| && Valid() && stream == before + page[..i]
      {
        i := Round(page, i, before);
      }
      assert page[..i] == page;
    }

    /** One round of the loop in http_wr_to_flash. */
    method Round(page: seq<byte>, i: nat, ghost before: seq<byte>) returns (next: nat)
      requires Valid() && i < |page| && stream == before + page[..i]
      modifies this, flash, wrBuf
      ensures Valid() && i < next <= |page| && stream == before + page[..next]
    {
      var n := Min(|page| - i, WR_BUF - lastLen);
      PageGrows(before, page, i, n);
      TakePiece(page[i..i + n]);
      next := i + n;
    }

    /** The last write and the end of the session: the pending rest of the stream goes
        behind the blocks that are there. */
    method Finish()
      requires Valid()
      modifies this, flash
      ensures start <= address < start + length
      ensures flash[start..address] == Front(stream, length) + Tail(stream)
      ensures Disciplined(log, start, start + length) && Accounts(first, flash[..], log)
      ensures stream == old(stream)
    {
      CutAt(stream, whole, lastLen, cap, length);
      LastSound(start, start + length, blocks, lastLen);
      var wrote := FlashWr(lastLen);
      lastLen := 0;
    }
  }

  function Concat(pages: seq<seq<byte>>): seq<byte> {
    if pages == [] then [] else Concat(pages[..|pages| - 1]) + pages[|pages| - 1]
  }

  /** Blocks and rest are the whole body exactly when it is shorter than the partition. */
  lemma {:induction false} WholeBodyIff(body: seq<byte>, length: nat)
    requires 0 < length && length % 1024 == 0
    ensures |Front(body, length) + Tail(body)| < length
    ensures Front(body, length) + Tail(body) == body <==> |body| < length
  {
    if |body| < length {
      assert |body| / 1024 <= (length - 1) / 1024;
      assert body[..|body| - |body| % 1024] + Tail(body) == body;
    }
  }

  lemma {:induction false} ConcatNext(pages: seq<seq<byte>>, i: nat)
    requires i < |pages|
    ensures Concat(pages[..i + 1]) == Concat(pages[..i]) + pages[i]
  {
    assert pages[..i + 1][..i] == pages[..i];
  }

  method ReceiveAll(w: Writer, pages: seq<seq<byte>>)
    requires w.Valid() && w.stream == []
    modifies w, w.flash, w.wrBuf
    ensures w.Valid() && w.stream == Concat(pages)
  {
    var i := 0;
    while i < |pages|
      invariant 0 <= i <= |pages| && w.Valid() && w.stream == Concat(pages[..i])
    {
      w.Receive(pages[i]);
      ConcatNext(pages, i);
      i := i + 1;
    }
    assert pages[..i] == pages;
  }

  method Session(memory: array<byte>, partition: nat, size: nat, pages: seq<seq<byte>>) returns (w: Writer)
    requires partition % SECTOR == 0 && (partition + size) % SECTOR == 0 && 0 < size && partition + size <= memory.Length
    modifies memory
    ensures fresh(w) && partition <= w.address < partition + size
    ensures memory[partition..w.address] == Front(Concat(pages), size) + Tail(Concat(pages))
    ensures Disciplined(w.log, partition, partition + size) && Accounts(old(memory[..]), memory[..], w.log)
  {
    w := new Writer(memory, partition, size);
    ReceiveAll(w, pages);
    w.Finish();
  }

  /** A whole Content-Length download, however it is split: the partition begins with as
      many whole blocks of the body as end before the partition does and, behind them,
      the rest of the body from its last block boundary on. That is the body exactly
      when it is shorter than the partition; of a longer one the middle is missing. In
      either case the flash was used with erase before program, and no cell outside the
      partition changed. */
  method Download(memory: array<byte>, partition: nat, size: nat, pages: seq<seq<byte>>) returns (written: nat, ghost log: seq<Event>)
    requires partition % SECTOR == 0 && (partition + size) % SECTOR == 0 && 0 < size && partition + size <= memory.Length
    modifies memory
    ensures written < size
    ensures memory[partition..partition + written] == Front(Concat(pages), size) + Tail(Concat(pages))
    ensures memory[partition..partition + written] == Concat(pages) <==> |Concat(pages)| < size
    ensures Disciplined(log, partition, partition + size) && Accounts(old(memory[..]), memory[..], log)
    ensures forall x :: 0 <= x < memory.Length && (x < partition || partition + size <= x) ==> memory[x] == old(memory[x])
  {
    var w := Session(memory, partition, size, pages);
    var _ := WholeBlocks(partition, size);
    WholeBodyIff(Concat(pages), size);
    written, log := w.address - partition, w.log;
    OutsideKept(old(memory[..]), memory[..], log, partition, partition + size);
  }
}
