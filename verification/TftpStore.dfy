/** store_block: lays the payload of each TFTP block onto NOR flash, folds the CRC
    over the blocks, and writes the image header when the last block's CRC agrees. */
module TftpStore {
  import opened Bits
  import opened Ring
  import opened Flash

  type Crc = (nat, byte) -> nat

  const HEAD_LEN: nat := 24
  const CRC_LEN: nat := 4
  const WINDOW_LOW: nat := 0x27000
  const WINDOW_HIGH: nat := 0x200000

  /** The block header, SEND_PTK_HD. */
  datatype Head = Head(totalLen: nat, number: nat, total: nat, exAddr: nat, hdAddr: nat, os0Addr: nat, os1Addr: nat)

  /** A packet with a whole header. */
  type Block = b: seq<byte> | |b| >= HEAD_LEN witness seq(HEAD_LEN, _ => 0)

  /** The receive buffer behind the opcode and the block number. */
  const ROOM: nat := 1596
  type Buffer = b: seq<byte> | |b| == 1596 witness seq(1596, _ => 0)

  function HeadOf(b: Block): (h: Head)
    ensures h.number < 0x1_0000 && h.total < 0x1_0000
    ensures h.totalLen < U32_RANGE && h.exAddr < U32_RANGE && h.hdAddr < U32_RANGE
    ensures h.os0Addr < U32_RANGE && h.os1Addr < U32_RANGE
  {
    Head(Le32(b[0..4]), Le16(b[4..6]), Le16(b[6..8]), Le32(b[8..12]), Le32(b[12..16]), Le32(b[16..20]), Le32(b[20..24]))
  }

  /** co_crc32: any checksum that folds over the bytes. */
  function Fold(f: Crc, seed: nat, s: seq<byte>): nat {
    if s == [] then seed else f(Fold(f, seed, s[..|s| - 1]), s[|s| - 1])
  }

  lemma {:induction false} FoldAppend(f: Crc, seed: nat, a: seq<byte>, b: seq<byte>)
    ensures Fold(f, seed, a + b) == Fold(f, Fold(f, seed, a), b)
    decreases |b|
  {
    if b == [] {
      assert a + b == a;
    } else {
      assert (a + b)[..|a + b| - 1] == a + b[..|b| - 1];
      FoldAppend(f, seed, a, b[..|b| - 1]);
    }
  }

  /** The image header, IMG_HEAD, with status 1. */
  function ImageHead(h: Head, crc: nat): (s: seq<byte>)
    requires h.totalLen < U32_RANGE && h.exAddr < U32_RANGE && h.hdAddr < U32_RANGE
    requires h.os0Addr < U32_RANGE && h.os1Addr < U32_RANGE && crc < U32_RANGE
    ensures |s| == 32
  {
    Bytes32(h.os1Addr) + Bytes32(h.totalLen) + Bytes32(h.exAddr) + Bytes32(h.os0Addr)
    + Bytes32(h.hdAddr) + Bytes32(crc) + Bytes32(1) + Bytes32(0)
  }

  /** os_data_addr, tftp_crc, the flash, how often an image header was written, and
      whether a write took more bytes than the receive buffer has. */
  datatype Store = Store(addr: nat, crc: nat, flash: seq<byte>, headers: nat, overrun: bool)

  predicate InWindow(addr: nat) { WINDOW_LOW <= addr < WINDOW_HIGH }

  /** The CRC bytes that end the image. */
  function Trailer(b: Block): nat { Le32(b[|b| - CRC_LEN..]) }

  /** What the last block does after its payload is on flash. */
  function Conclude(f: Crc, st: Store, b: Block): (r: Store)
    ensures r.addr == st.addr && |r.flash| == |st.flash| && r.overrun == st.overrun
  {
    var crc := Fold(f, st.crc, b[..|b| - CRC_LEN]);
    if crc != Trailer(b) then st.(crc := crc)
    else
      var h := HeadOf(b);
      st.(crc := crc, headers := st.headers + 1,
          flash := Write(Erase(st.flash, h.hdAddr), h.hdAddr, ImageHead(h, crc)))
  }

  /** Where block `index` goes, and the CRC it continues. */
  function Begin(st: Store, index: nat, b: Block): Store {
    if index == 0 then st.(addr := HeadOf(b).os1Addr, crc := 0) else st
  }

  function Prepared(st: Store): (r: Store)
    ensures |r.flash| == |st.flash|
  {
    if st.addr % SECTOR == 0 then st.(flash := Erase(st.flash, st.addr)) else st
  }

  /** The payload, the CRC and the address, for a block that starts in the window. */
  function Finish(f: Crc, s: Store, b: Block): (r: Store)
    ensures |r.flash| == |s.flash| && r.overrun == s.overrun
  {
    var w := s.(flash := Write(s.flash, s.addr, b[HEAD_LEN..]));
    var c := if HeadOf(b).number != HeadOf(b).total then w.(crc := Fold(f, w.crc, b)) else Conclude(f, w, b);
    c.(addr := c.addr + (|b| - HEAD_LEN))
  }

  /** store_block(index, b, |b|) for a packet with a whole header. */
  function StoreBlock(f: Crc, st: Store, index: nat, b: Block): (r: Store)
    ensures |r.flash| == |st.flash| && r.overrun == st.overrun
  {
    var s := Prepared(Begin(st, index, b));
    if !InWindow(s.addr) then s else Finish(f, s, b)
  }

  /** The first argument of store_block for the i-th block, from its 16-bit number. */
  function IndexOf(i: nat): nat { IndexFrom((i + 1) % 0x1_0000) }

  /** `TftpBlock - 1` as an unsigned argument. */
  function IndexFrom(number: nat): nat { if number == 0 then 0xFFFF_FFFF else number - 1 }

  lemma {:induction false} IndexFirst(i: nat)
    requires i < 0x1_0000
    ensures IndexOf(i) == 0 <==> i == 0
  {
  }

  /** Storing the blocks of a sequence one after the other. */
  function StoreAll(f: Crc, st: Store, bs: seq<Block>): (r: Store)
    ensures |r.flash| == |st.flash| && r.overrun == st.overrun
  {
    if bs == [] then st
    else StoreBlock(f, StoreAll(f, st, bs[..|bs| - 1]), IndexOf(|bs| - 1), bs[|bs| - 1])
  }

  // ---------- calls of store_block with any length ----------

  /** A call: the receive buffer from the data on, which behind the packet's own bytes
      still holds those of earlier ones, and the length of the packet. */
  datatype Call = Call(index: nat, src: Buffer, len: nat)

  /** `len - TFTP_PKT_HD_LEN` in unsigned 32 bits. */
  function PayloadLen(len: nat): nat { U32(len - HEAD_LEN) }

  /** The write stays inside the receive buffer exactly for packets with a whole header. */
  lemma {:induction false} WriteFits(len: nat)
    requires len <= ROOM
    ensures PayloadLen(len) <= ROOM - HEAD_LEN <==> len >= HEAD_LEN
    ensures len >= HEAD_LEN ==> PayloadLen(len) == len - HEAD_LEN
  {
    if len < HEAD_LEN {
      ModUnique(len - HEAD_LEN, U32_RANGE, -1, len - HEAD_LEN + U32_RANGE);
    } else {
      ModUnique(len - HEAD_LEN, U32_RANGE, 0, len - HEAD_LEN);
    }
  }

  /** store_block(index, src, len); nothing is said about what follows an overrun. */
  function StoreCall(f: Crc, st: Store, c: Call): (r: Store)
    requires c.len <= ROOM
    ensures |r.flash| == |st.flash|
  {
    if st.overrun then st
    else
      var s := Prepared(Begin(st, c.index, c.src));
      if !InWindow(s.addr) then s
      else
        WriteFits(c.len);
        if PayloadLen(c.len) > ROOM - HEAD_LEN then s.(overrun := true) else Finish(f, s, c.src[..c.len])
  }

  predicate Lengths(log: seq<Call>) { forall i :: 0 <= i < |log| ==> log[i].len <= ROOM }

  function StoreCalls(f: Crc, st: Store, log: seq<Call>): (r: Store)
    requires Lengths(log)
    ensures |r.flash| == |st.flash|
  {
    if log == [] then st else StoreCall(f, StoreCalls(f, st, log[..|log| - 1]), log[|log| - 1])
  }

  lemma {:induction false} HeadFromBuffer(src: Buffer, len: nat)
    requires HEAD_LEN <= len <= ROOM
    ensures HeadOf(src[..len]) == HeadOf(src)
  {
    var b := src[..len];
    assert b[0..4] == src[0..4] && b[4..6] == src[4..6] && b[6..8] == src[6..8] && b[8..12] == src[8..12];
    assert b[12..16] == src[12..16] && b[16..20] == src[16..20] && b[20..24] == src[20..24];
  }

  /** A packet with a whole header is stored whatever the buffer holds behind it. */
  lemma {:induction false} LongCall(f: Crc, st: Store, c: Call)
    requires HEAD_LEN <= c.len <= ROOM && !st.overrun
    ensures StoreCall(f, st, c) == StoreBlock(f, st, c.index, c.src[..c.len])
  {
    WriteFits(c.len);
    HeadFromBuffer(c.src, c.len);
  }

  /** A shorter packet overruns exactly when its address is inside the window. */
  lemma {:induction false} ShortCall(f: Crc, st: Store, c: Call)
    requires c.len < HEAD_LEN && !st.overrun
    ensures StoreCall(f, st, c).overrun <==> InWindow(Begin(st, c.index, c.src).addr)
    ensures StoreCall(f, st, c).headers == st.headers
  {
    WriteFits(c.len);
  }

  /** The data address in the header at the front of the buffer. */
  function Named(x: Buffer): nat { Le32(x[20..24]) }

  /** Where a call would write. */
  function Aim(st: Store, c: Call): nat { if c.index == 0 then Named(c.src) else st.addr }

  lemma {:induction false} ShortAim(f: Crc, st: Store, c: Call)
    requires c.len < HEAD_LEN && !st.overrun
    ensures StoreCall(f, st, c).overrun <==> InWindow(Aim(st, c))
    ensures StoreCall(f, st, c).addr == Aim(st, c)
  {
    WriteFits(c.len);
  }

  predicate AllShort(log: seq<Call>) { forall i :: 0 <= i < |log| ==> log[i].len < HEAD_LEN }

  /** A call that starts over at an address in the window. */
  predicate Restarts(c: Call) { c.index == 0 && InWindow(Named(c.src)) }

  /** Short packets only: without a call that starts over inside the window none overruns,
      and the address stays outside. */
  lemma {:induction false} ShortCalls(f: Crc, st: Store, log: seq<Call>)
    requires AllShort(log) && Lengths(log) && !st.overrun && (log != [] ==> log[0].index == 0)
    ensures (exists i :: 0 <= i < |log| && Restarts(log[i])) || !StoreCalls(f, st, log).overrun
    ensures (exists i :: 0 <= i < |log| && Restarts(log[i])) || log == [] || !InWindow(StoreCalls(f, st, log).addr)
  {
    if log != [] {
      var n := |log| - 1;
      var c := log[n];
      ShortCalls(f, st, log[..n]);
      if exists i :: 0 <= i < n && Restarts(log[..n][i]) {
        var i :| 0 <= i < n && Restarts(log[..n][i]);
        assert Restarts(log[i]);
      } else {
        ShortAim(f, StoreCalls(f, st, log[..n]), c);
        assert Restarts(c) ==> Restarts(log[n]);
      }
    }
  }

  lemma {:induction false} OverrunStays(f: Crc, st: Store, log: seq<Call>, i: nat)
    requires Lengths(log) && i <= |log| && StoreCalls(f, st, log[..i]).overrun
    ensures StoreCalls(f, st, log).overrun
    decreases |log| - i
  {
    if i < |log| {
      assert log[..i + 1][..i] == log[..i];
      OverrunStays(f, st, log, i + 1);
    } else {
      assert log[..i] == log;
    }
  }

  /** A short call that starts over inside the window overruns. */
  lemma {:induction false} RestartOverruns(f: Crc, st: Store, log: seq<Call>, i: nat)
    requires Lengths(log) && i < |log| && log[i].len < HEAD_LEN && Restarts(log[i])
    ensures StoreCalls(f, st, log).overrun
  {
    assert log[..i + 1][..i] == log[..i];
    var before := StoreCalls(f, st, log[..i]);
    if !before.overrun {
      ShortAim(f, before, log[i]);
    }
    OverrunStays(f, st, log, i + 1);
  }

  /** The calls carry these packets, in order and once each. */
  ghost predicate Carries(log: seq<Call>, ps: seq<seq<byte>>) {
    |log| == |ps| && forall i :: 0 <= i < |log| ==>
      log[i].index == IndexOf(i) && log[i].len == |ps[i]| <= ROOM && log[i].src[..|ps[i]|] == ps[i]
  }

  /** Calls that carry packets with whole headers store those blocks and never overrun. */
  lemma {:induction false} CallsStoreBlocks(f: Crc, st: Store, log: seq<Call>, bs: seq<Block>)
    requires Carries(log, bs) && !st.overrun
    ensures Lengths(log) && StoreCalls(f, st, log) == StoreAll(f, st, bs)
  {
    if log != [] {
      var n := |log| - 1;
      CallsStoreBlocks(f, st, log[..n], bs[..n]);
      LongCall(f, StoreAll(f, st, bs[..n]), log[n]);
    }
  }

  // ---------- one block anywhere ----------

  /** A block whose address lies outside the window leaves the flash as it is, except
      that the sector that begins at this address is erased all the same. */
  lemma {:induction false} OutsideWindow(f: Crc, st: Store, index: nat, b: Block)
    requires var a := if index == 0 then Le32(b[20..24]) else st.addr; a < 0x27000 || a >= 0x20_0000
    ensures var a, r := if index == 0 then Le32(b[20..24]) else st.addr, StoreBlock(f, st, index, b);
            && r.addr == a && r.headers == st.headers
            && forall x :: 0 <= x < |st.flash| ==>
                 r.flash[x] == if a % 0x1000 == 0 && a <= x < a + 0x1000 then 255 else st.flash[x]
  {
    var a := if index == 0 then Le32(b[20..24]) else st.addr;
    forall x | 0 <= x < |st.flash|
      ensures StoreBlock(f, st, index, b).flash[x] == if a % 0x1000 == 0 && a <= x < a + 0x1000 then 255 else st.flash[x]
    {
      SameSector(x, a);
    }
  }

  /** Inside the window the address advances by the payload, and the image header is
      written exactly for a block that says it is the last, whose CRC, continued from
      the blocks before it, agrees with its last four bytes. */
  lemma {:induction false} InsideWindow(f: Crc, st: Store, index: nat, b: Block)
    requires var a := if index == 0 then Le32(b[20..24]) else st.addr; 0x27000 <= a < 0x20_0000
    ensures var r, seed := StoreBlock(f, st, index, b), if index == 0 then 0 else st.crc;
            var last, crc := Le16(b[4..6]) == Le16(b[6..8]), Fold(f, seed, b[..|b| - 4]);
            && r.addr == (if index == 0 then Le32(b[20..24]) else st.addr) + |b| - 24
            && r.crc == (if last then crc else Fold(f, seed, b))
            && r.headers == st.headers + if last && crc == Le32(b[|b| - 4..]) then 1 else 0
  {
  }

  // ---------- the image ----------

  function Payload(bs: seq<Block>): seq<byte> {
    if bs == [] then [] else Payload(bs[..|bs| - 1]) + bs[|bs| - 1][HEAD_LEN..]
  }

  function All(bs: seq<Block>): seq<byte> {
    if bs == [] then [] else All(bs[..|bs| - 1]) + bs[|bs| - 1]
  }

  /** Block headers count 1..N, and an N that fits their 16 bits. */
  predicate Numbered(bs: seq<Block>) {
    |bs| > 0 && forall i :: 0 <= i < |bs| ==> HeadOf(bs[i]).number == i + 1 && HeadOf(bs[i]).total == |bs|
  }

  function Start(bs: seq<Block>): nat
    requires |bs| > 0
  {
    HeadOf(bs[0]).os1Addr
  }

  /** Where block `i` goes. */
  function At(bs: seq<Block>, i: nat): (a: nat)
    requires |bs| > 0 && i <= |bs|
    ensures a >= Start(bs)
  {
    Start(bs) + |Payload(bs[..i])|
  }

  lemma {:induction false} AtNext(bs: seq<Block>, i: nat)
    requires i < |bs|
    ensures At(bs, i + 1) == At(bs, i) + |bs[i]| - HEAD_LEN
    ensures Payload(bs[..i + 1]) == Payload(bs[..i]) + bs[i][HEAD_LEN..]
    ensures All(bs[..i + 1]) == All(bs[..i]) + bs[i]
  {
    assert bs[..i + 1][..i] == bs[..i];
  }

  lemma {:induction false} AtMonotone(bs: seq<Block>, i: nat, j: nat)
    requires |bs| > 0 && i <= j <= |bs|
    ensures At(bs, i) <= At(bs, j) && Payload(bs[..i]) <= Payload(bs[..j])
    decreases j
  {
    if i < j {
      AtMonotone(bs, i, j - 1);
      AtNext(bs, j - 1);
    }
  }

  /** Every block starts inside the window and the data ends inside it. */
  predicate Fits(bs: seq<Block>) {
    && |bs| > 0 && WINDOW_LOW <= Start(bs)
    && At(bs, |bs| - 1) < WINDOW_HIGH && At(bs, |bs|) <= WINDOW_HIGH
  }

  /** The image header and its sector lie outside the data area. */
  predicate HeaderAway(bs: seq<Block>) {
    |bs| > 0 &&
    var hd := HeadOf(bs[|bs| - 1]).hdAddr;
    SectorOf(hd) >= At(bs, |bs|) || (SectorOf(hd) + SECTOR <= Start(bs) && hd + 32 <= Start(bs))
  }

  lemma {:induction false} BlockInWindow(bs: seq<Block>, i: nat)
    requires Fits(bs) && i < |bs|
    ensures InWindow(At(bs, i)) && At(bs, 0) == Start(bs)
  {
    AtMonotone(bs, i, |bs| - 1);
  }

  // ---------- what each flash cell ends up holding ----------

  /** Some block stored so far began exactly at the sector of `x`, so it was erased. */
  ghost predicate Wiped(bs: seq<Block>, k: nat, x: nat)
    requires |bs| > 0 && k <= |bs|
  {
    exists i :: 0 <= i < k && At(bs, i) == SectorOf(x)
  }

  ghost function Raw(m0: seq<byte>, bs: seq<Block>, k: nat, x: nat): byte
    requires |bs| > 0 && k <= |bs| && x < |m0|
  {
    if Wiped(bs, k, x) then 255 else m0[x]
  }

  ghost function Cell(m0: seq<byte>, bs: seq<Block>, k: nat, x: nat): byte
    requires |bs| > 0 && k <= |bs| && x < |m0|
  {
    if Start(bs) <= x < At(bs, k) then Program(Raw(m0, bs, k, x), Payload(bs[..k])[x - Start(bs)]) else Raw(m0, bs, k, x)
  }

  lemma {:induction false} WipedNext(bs: seq<Block>, k: nat, x: nat)
    requires k < |bs|
    ensures Wiped(bs, k + 1, x) <==> Wiped(bs, k, x) || At(bs, k) == SectorOf(x)
  {
  }

  /** Storing block `k` turns the cell of step k into the cell of step k + 1. */
  lemma {:induction false} CellStep(m0: seq<byte>, bs: seq<Block>, k: nat, x: nat)
    requires k < |bs| && x < |m0|
    ensures var a, d := At(bs, k), bs[k][HEAD_LEN..];
            var wiped := if At(bs, k) % SECTOR == 0 && SectorOf(x) == SectorOf(At(bs, k)) then 255 else Cell(m0, bs, k, x);
            Cell(m0, bs, k + 1, x) == if a <= x < a + |d| then Program(wiped, d[x - a]) else wiped
  {
    AtNext(bs, k);
    WipedNext(bs, k, x);
    if At(bs, k) == SectorOf(x) {
      assert SectorOf(At(bs, k)) == At(bs, k);
    }
  }

  /** The state after k < N blocks, and after all N up to the header. */
  ghost predicate Laid(m0: seq<byte>, bs: seq<Block>, k: nat, flash: seq<byte>)
    requires |bs| > 0 && k <= |bs|
  {
    |flash| == |m0| && forall x :: 0 <= x < |m0| ==> flash[x] == Cell(m0, bs, k, x)
  }

  lemma {:induction false} LaidNext(m0: seq<byte>, bs: seq<Block>, k: nat, s: Store)
    requires k < |bs| && Laid(m0, bs, k, s.flash) && s.addr == At(bs, k)
    ensures Laid(m0, bs, k + 1, Write(Prepared(s).flash, s.addr, bs[k][HEAD_LEN..]))
  {
    forall x | 0 <= x < |m0|
      ensures Write(Prepared(s).flash, s.addr, bs[k][HEAD_LEN..])[x] == Cell(m0, bs, k + 1, x)
    {
      CellStep(m0, bs, k, x);
    }
  }

  lemma {:induction false} LaidFirst(bs: seq<Block>, m0: seq<byte>)
    requires |bs| > 0
    ensures Laid(m0, bs, 0, m0)
  {
  }

  /** The state before the last block: everything laid, no header, CRC over all blocks. */
  lemma {:induction false} BeforeLast(f: Crc, st: Store, bs: seq<Block>, k: nat)
    requires Numbered(bs) && Fits(bs) && k < |bs|
    ensures var r := StoreAll(f, st, bs[..k]);
            && Laid(st.flash, bs, k, r.flash) && r.headers == st.headers
            && (k > 0 ==> r.addr == At(bs, k) && r.crc == Fold(f, 0, All(bs[..k])))
    decreases k
  {
    if k == 0 {
      LaidFirst(bs, st.flash);
    } else {
      BeforeLast(f, st, bs, k - 1);
      StoreStep(f, st, bs, k - 1);
    }
  }

  /** The block a store begins with: its address and CRC, whichever block it is. */
  lemma {:induction false} BeginsAt(f: Crc, st: Store, bs: seq<Block>, k: nat)
    requires Numbered(bs) && Fits(bs) && k < |bs|
    requires var r := StoreAll(f, st, bs[..k]); k > 0 ==> r.addr == At(bs, k) && r.crc == Fold(f, 0, All(bs[..k]))
    ensures var s := Begin(StoreAll(f, st, bs[..k]), IndexOf(k), bs[k]);
            s.addr == At(bs, k) && s.crc == Fold(f, 0, All(bs[..k])) && InWindow(s.addr)
  {
    BlockInWindow(bs, k);
    NumberedShort(bs);
    IndexFirst(k);
  }

  /** The headers have 16 bits for the number of blocks. */
  lemma {:induction false} NumberedShort(bs: seq<Block>)
    requires Numbered(bs)
    ensures |bs| < 0x1_0000
  {
    assert HeadOf(bs[0]).total == |bs|;
  }

  lemma {:induction false} StoreStep(f: Crc, st: Store, bs: seq<Block>, k: nat)
    requires Numbered(bs) && Fits(bs) && k + 1 < |bs|
    requires var r := StoreAll(f, st, bs[..k]);
             && Laid(st.flash, bs, k, r.flash) && r.headers == st.headers
             && (k > 0 ==> r.addr == At(bs, k) && r.crc == Fold(f, 0, All(bs[..k])))
    ensures var r := StoreAll(f, st, bs[..k + 1]);
            && Laid(st.flash, bs, k + 1, r.flash) && r.headers == st.headers
            && r.addr == At(bs, k + 1) && r.crc == Fold(f, 0, All(bs[..k + 1]))
  {
    assert bs[..k + 1][..k] == bs[..k];
    var r := StoreAll(f, st, bs[..k]);
    BeginsAt(f, st, bs, k);
    LaidNext(st.flash, bs, k, Begin(r, IndexOf(k), bs[k]));
    AtNext(bs, k);
    FoldAppend(f, 0, All(bs[..k]), bs[k]);
  }

  /** The CRC over the whole image except the four bytes that hold it. */
  function ImageCrc(f: Crc, bs: seq<Block>): nat
    requires |bs| > 0
  {
    var b := bs[|bs| - 1];
    Fold(f, 0, All(bs[..|bs| - 1]) + b[..|b| - CRC_LEN])
  }

  predicate CrcAgrees(f: Crc, bs: seq<Block>)
    requires |bs| > 0
  {
    ImageCrc(f, bs) == Trailer(bs[|bs| - 1])
  }

  /** The byte of the image header that goes to address `x`. */
  function HeaderByte(bs: seq<Block>, x: nat): byte
    requires |bs| > 0 && HeadOf(bs[|bs| - 1]).hdAddr <= x < HeadOf(bs[|bs| - 1]).hdAddr + 32
  {
    var b := bs[|bs| - 1];
    ImageHead(HeadOf(b), Trailer(b))[x - HeadOf(b).hdAddr]
  }

  /** What writing the image header, if the CRC agrees, makes of a cell: its sector is
      erased first, and its 32 bytes may run into the next sector. */
  function AfterHeader(f: Crc, bs: seq<Block>, x: nat, cell: byte): byte
    requires |bs| > 0
  {
    var hd := HeadOf(bs[|bs| - 1]).hdAddr;
    if !CrcAgrees(f, bs) then cell
    else
      var c := if SectorOf(x) == SectorOf(hd) then 255 else cell;
      if hd <= x < hd + 32 then Program(c, HeaderByte(bs, x)) else c
  }

  /** Storing all blocks: every cell of the flash, and a header written exactly when the
      CRC folded over exactly these blocks agrees with the image's trailer. */
  lemma {:induction false} WholeImage(f: Crc, st: Store, bs: seq<Block>)
    requires Numbered(bs) && Fits(bs)
    ensures var r := StoreAll(f, st, bs);
            && r.headers == st.headers + (if CrcAgrees(f, bs) then 1 else 0)
            && Completed(f, st.flash, bs, r.flash)
  {
    var w := LastLaid(f, st, bs);
    forall x | 0 <= x < |st.flash|
      ensures StoreAll(f, st, bs).flash[x] == AfterHeader(f, bs, x, Cell(st.flash, bs, |bs|, x))
    {
      ConcludeCell(f, w, bs, x);
    }
  }

  /** The state when the last payload is about to be written. */
  ghost function BeforeLastWrite(f: Crc, st: Store, bs: seq<Block>): Store
    requires |bs| > 0
  {
    Prepared(Begin(StoreAll(f, st, bs[..|bs| - 1]), IndexOf(|bs| - 1), bs[|bs| - 1]))
  }

  /** The state between the last payload write and the CRC test. */
  ghost function LastWritten(f: Crc, st: Store, bs: seq<Block>): Store
    requires |bs| > 0
  {
    var s := BeforeLastWrite(f, st, bs);
    s.(flash := Write(s.flash, s.addr, bs[|bs| - 1][HEAD_LEN..]))
  }

  lemma {:induction false} LastConcludes(f: Crc, st: Store, bs: seq<Block>)
    requires Numbered(bs) && InWindow(BeforeLastWrite(f, st, bs).addr)
    ensures StoreAll(f, st, bs).flash == Conclude(f, LastWritten(f, st, bs), bs[|bs| - 1]).flash
    ensures StoreAll(f, st, bs).headers == Conclude(f, LastWritten(f, st, bs), bs[|bs| - 1]).headers
  {
    FinishConcludes(f, BeforeLastWrite(f, st, bs), bs[|bs| - 1]);
  }

  lemma {:induction false} LastLaid(f: Crc, st: Store, bs: seq<Block>) returns (w: Store)
    requires Numbered(bs) && Fits(bs)
    ensures w == LastWritten(f, st, bs) && InWindow(BeforeLastWrite(f, st, bs).addr)
    ensures StoreAll(f, st, bs).flash == Conclude(f, w, bs[|bs| - 1]).flash
    ensures StoreAll(f, st, bs).headers == Conclude(f, w, bs[|bs| - 1]).headers
    ensures Laid(st.flash, bs, |bs|, w.flash) && w.headers == st.headers
    ensures var b := bs[|bs| - 1]; Fold(f, w.crc, b[..|b| - CRC_LEN]) == ImageCrc(f, bs)
  {
    var k := |bs| - 1;
    BeforeLast(f, st, bs, k);
    BeginsAt(f, st, bs, k);
    LaidNext(st.flash, bs, k, Begin(StoreAll(f, st, bs[..k]), IndexOf(k), bs[k]));
    assert bs[..k + 1] == bs;
    w := LastWritten(f, st, bs);
    LastConcludes(f, st, bs);
    LastCrc(f, w.crc, bs);
  }

  lemma {:induction false} LastCrc(f: Crc, crc: nat, bs: seq<Block>)
    requires |bs| > 0 && crc == Fold(f, 0, All(bs[..|bs| - 1]))
    ensures var b := bs[|bs| - 1]; Fold(f, crc, b[..|b| - CRC_LEN]) == ImageCrc(f, bs)
  {
    FoldAppend(f, 0, All(bs[..|bs| - 1]), bs[|bs| - 1][..|bs[|bs| - 1]| - CRC_LEN]);
  }

  lemma {:induction false} FinishConcludes(f: Crc, s: Store, b: Block)
    requires HeadOf(b).number == HeadOf(b).total
    ensures var c := Conclude(f, s.(flash := Write(s.flash, s.addr, b[HEAD_LEN..])), b);
            Finish(f, s, b).flash == c.flash && Finish(f, s, b).headers == c.headers
  {
  }

  lemma {:induction false} ConcludeCell(f: Crc, w: Store, bs: seq<Block>, x: nat)
    requires |bs| > 0 && x < |w.flash|
    requires var b := bs[|bs| - 1]; Fold(f, w.crc, b[..|b| - CRC_LEN]) == ImageCrc(f, bs)
    ensures Conclude(f, w, bs[|bs| - 1]).flash[x] == AfterHeader(f, bs, x, w.flash[x])
  {
  }

  /** Where the next block would go once all are stored. */
  lemma {:induction false} AddrAfter(f: Crc, st: Store, bs: seq<Block>)
    requires Numbered(bs) && Fits(bs)
    ensures StoreAll(f, st, bs).addr == At(bs, |bs|)
  {
    var k := |bs| - 1;
    BeforeLast(f, st, bs, k);
    BeginsAt(f, st, bs, k);
    AtNext(bs, k);
    assert bs[..k + 1] == bs;
  }

  /** With an agreeing CRC a header inside one sector is on flash as it should be. */
  lemma {:induction false} HeaderInSector(f: Crc, st: Store, bs: seq<Block>)
    requires Numbered(bs) && Fits(bs) && CrcAgrees(f, bs)
    requires var hd := HeadOf(bs[|bs| - 1]).hdAddr; hd + 32 <= |st.flash| && SectorOf(hd) == SectorOf(hd + 31)
    ensures var h := HeadOf(bs[|bs| - 1]);
            StoreAll(f, st, bs).flash[h.hdAddr..h.hdAddr + 32] == ImageHead(h, ImageCrc(f, bs))
  {
    WholeImage(f, st, bs);
    HeaderThere(f, st.flash, bs, StoreAll(f, st, bs).flash);
  }

  lemma {:induction false} HeaderThere(f: Crc, m0: seq<byte>, bs: seq<Block>, flash: seq<byte>)
    requires |bs| > 0 && CrcAgrees(f, bs) && Completed(f, m0, bs, flash)
    requires var hd := HeadOf(bs[|bs| - 1]).hdAddr; hd + 32 <= |m0| && SectorOf(hd) == SectorOf(hd + 31)
    ensures var h := HeadOf(bs[|bs| - 1]); flash[h.hdAddr..h.hdAddr + 32] == ImageHead(h, ImageCrc(f, bs))
  {
    var hd := HeadOf(bs[|bs| - 1]).hdAddr;
    var there, goal := flash[hd..hd + 32], ImageHead(HeadOf(bs[|bs| - 1]), ImageCrc(f, bs));
    forall i | 0 <= i < 32
      ensures there[i] == goal[i]
    {
      ByteInSector(f, bs, hd + i, Cell(m0, bs, |bs|, hd + i));
      assert there[i] == flash[hd + i] && HeaderByte(bs, hd + i) == goal[i];
    }
  }

  /** Reading the words of an image header back. */
  lemma {:induction false} WordsOf(h: Head, crc: nat, flash: seq<byte>, at: nat)
    requires h.totalLen < U32_RANGE && h.exAddr < U32_RANGE && h.hdAddr < U32_RANGE
    requires h.os0Addr < U32_RANGE && h.os1Addr < U32_RANGE && crc < U32_RANGE
    requires at + 32 <= |flash| && flash[at..at + 32] == ImageHead(h, crc)
    ensures Le32(flash[at..at + 4]) == h.os1Addr && Le32(flash[at + 4..at + 8]) == h.totalLen
    ensures Le32(flash[at + 8..at + 12]) == h.exAddr && Le32(flash[at + 12..at + 16]) == h.os0Addr
    ensures Le32(flash[at + 16..at + 20]) == h.hdAddr && Le32(flash[at + 20..at + 24]) == crc
    ensures Le32(flash[at + 24..at + 28]) == 1 && Le32(flash[at + 28..at + 32]) == 0
  {
    var s := ImageHead(h, crc);
    WordAt(s, flash, at, 0, h.os1Addr);
    WordAt(s, flash, at, 4, h.totalLen);
    WordAt(s, flash, at, 8, h.exAddr);
    WordAt(s, flash, at, 12, h.os0Addr);
    WordAt(s, flash, at, 16, h.hdAddr);
    WordAt(s, flash, at, 20, crc);
    WordAt(s, flash, at, 24, 1);
    WordAt(s, flash, at, 28, 0);
  }

  lemma {:induction false} WordAt(s: seq<byte>, flash: seq<byte>, at: nat, i: nat, w: nat)
    requires i + 4 <= |s| && at + |s| <= |flash| && flash[at..at + |s|] == s
    requires w < U32_RANGE && s[i..i + 4] == Bytes32(w)
    ensures Le32(flash[at + i..at + i + 4]) == w
  {
    var t, u := flash[at + i..at + i + 4], s[i..i + 4];
    forall j | 0 <= j < 4
      ensures t[j] == u[j]
    {
      assert flash[at..at + |s|][i + j] == s[i + j];
    }
    assert t == u;
    WordRoundTrip(w);
  }

  /** The eight words of an image header in flash, each against the last packet's own
      bytes: the addresses and the length from its header, the CRC from its last four
      bytes, status 1 and zero. */
  lemma {:induction false} HeaderWords(f: Crc, st: Store, bs: seq<Block>)
    requires Numbered(bs) && Fits(bs) && CrcAgrees(f, bs)
    requires var hd := HeadOf(bs[|bs| - 1]).hdAddr; hd + 32 <= |st.flash| && SectorOf(hd) == SectorOf(hd + 31)
    ensures var b := bs[|bs| - 1];
            var hd, flash := Le32(b[12..16]), StoreAll(f, st, bs).flash;
            && hd + 32 <= |flash|
            && Le32(flash[hd..hd + 4]) == Le32(b[20..24])
            && Le32(flash[hd + 4..hd + 8]) == Le32(b[0..4])
            && Le32(flash[hd + 8..hd + 12]) == Le32(b[8..12])
            && Le32(flash[hd + 12..hd + 16]) == Le32(b[16..20])
            && Le32(flash[hd + 16..hd + 20]) == Le32(b[12..16])
            && Le32(flash[hd + 20..hd + 24]) == Le32(b[|b| - 4..])
            && Le32(flash[hd + 24..hd + 28]) == 1
            && Le32(flash[hd + 28..hd + 32]) == 0
  {
    var b := bs[|bs| - 1];
    HeaderInSector(f, st, bs);
    WordsOf(HeadOf(b), Trailer(b), StoreAll(f, st, bs).flash, HeadOf(b).hdAddr);
  }

  lemma {:induction false} ByteInSector(f: Crc, bs: seq<Block>, x: nat, cell: byte)
    requires |bs| > 0 && CrcAgrees(f, bs)
    requires var hd := HeadOf(bs[|bs| - 1]).hdAddr; hd <= x < hd + 32 && SectorOf(hd) == SectorOf(hd + 31)
    ensures AfterHeader(f, bs, x, cell) == HeaderByte(bs, x)
  {
    var hd := HeadOf(bs[|bs| - 1]).hdAddr;
    SameSector(hd + 31, hd);
    SameSector(x, hd);
  }

  // ---------- when the data area is right ----------

  ghost predicate DataRight(f: Crc, st: Store, bs: seq<Block>)
    requires Fits(bs) && |st.flash| >= WINDOW_HIGH
  {
    StoreAll(f, st, bs).flash[Start(bs)..At(bs, |bs|)] == Payload(bs)
  }

  /** Some block begins at the sector of every cell that receives a byte other than zero. */
  ghost predicate SectorsBegun(bs: seq<Block>)
    requires |bs| > 0
  {
    assert bs[..|bs|] == bs;
    forall x :: Start(bs) <= x < At(bs, |bs|) ==> Wiped(bs, |bs|, x) || Payload(bs)[x - Start(bs)] == 0
  }

  /** A flash of `n` equal bytes. */
  function Filled(n: nat, v: byte): (s: seq<byte>)
    ensures |s| == n
  {
    seq(n, _ => v)
  }

  /** A data area that holds the expected cells holds the payload. */
  lemma {:induction false} CellsRight(m0: seq<byte>, bs: seq<Block>, k: nat, flash: seq<byte>)
    requires |bs| > 0 && SectorsBegun(bs) && k <= |bs| && At(bs, k) <= |m0| == |flash|
    requires forall x :: Start(bs) <= x < At(bs, k) ==> flash[x] == Cell(m0, bs, k, x)
    ensures flash[Start(bs)..At(bs, k)] == Payload(bs[..k])
  {
    forall i | 0 <= i < |Payload(bs[..k])|
      ensures flash[Start(bs) + i] == Payload(bs[..k])[i]
    {
      PrefixCell(m0, bs, k, i);
    }
  }

  /** What erased the sector of a stored byte was done when the byte was stored. */
  lemma {:induction false} WipedInTime(bs: seq<Block>, k: nat, x: nat)
    requires |bs| > 0 && k <= |bs| && x < At(bs, k) && Wiped(bs, |bs|, x)
    ensures Wiped(bs, k, x)
  {
    var i :| 0 <= i < |bs| && At(bs, i) == SectorOf(x);
    if i >= k {
      AtMonotone(bs, k, i);
    }
  }

  /** Before the last block too, the data area is the payload received so far. */
  lemma {:induction false} PrefixRight(f: Crc, st: Store, bs: seq<Block>, k: nat)
    requires Numbered(bs) && Fits(bs) && |st.flash| >= WINDOW_HIGH && SectorsBegun(bs) && k < |bs|
    ensures At(bs, k) <= |st.flash| && StoreAll(f, st, bs[..k]).flash[Start(bs)..At(bs, k)] == Payload(bs[..k])
  {
    BeforeLast(f, st, bs, k);
    AtMonotone(bs, k, |bs|);
    CellsRight(st.flash, bs, k, StoreAll(f, st, bs[..k]).flash);
  }

  lemma {:induction false} PrefixCell(m0: seq<byte>, bs: seq<Block>, k: nat, i: nat)
    requires |bs| > 0 && SectorsBegun(bs) && k <= |bs| && i < |Payload(bs[..k])| && Start(bs) + i < |m0|
    ensures Cell(m0, bs, k, Start(bs) + i) == Payload(bs[..k])[i]
  {
    var x := Start(bs) + i;
    AtMonotone(bs, k, |bs|);
    assert bs[..|bs|] == bs;
    if Wiped(bs, |bs|, x) {
      WipedInTime(bs, k, x);
    }
    ZeroFits(Raw(m0, bs, k, x), Payload(bs[..k])[i]);
  }

  /** A zero byte can be programmed onto any cell, and a zero cell accepts only that. */
  lemma {:induction false} ZeroFits(cell: byte, data: byte)
    ensures data == 0 ==> Program(cell, data) == 0
    ensures cell == 0 ==> Program(cell, data) == 0
  {
    ZeroAnd(cell);
  }

  lemma {:induction false} ZeroAnd(m: nat)
    ensures And(0, m) == 0
  {
    if m > 0 {
      ZeroAnd(m / 2);
    }
  }

  /** A data byte is right whatever the flash held before: in the header's sector if the
      header leaves that byte, elsewhere if it is zero, or if a block began at its sector
      and the header does not clear bits of it. */
  ghost predicate ByteSafe(f: Crc, bs: seq<Block>, x: nat)
    requires |bs| > 0 && Start(bs) <= x < At(bs, |bs|)
  {
    assert bs[..|bs|] == bs;
    var p := Payload(bs)[x - Start(bs)];
    if CrcAgrees(f, bs) && SectorOf(x) == SectorOf(HeadOf(bs[|bs| - 1]).hdAddr) then AfterHeader(f, bs, x, 0) == p
    else p == 0 || (Wiped(bs, |bs|, x) && AfterHeader(f, bs, x, p) == p)
  }

  ghost predicate DataSafe(f: Crc, bs: seq<Block>)
    requires |bs| > 0
  {
    forall x :: Start(bs) <= x < At(bs, |bs|) ==> ByteSafe(f, bs, x)
  }

  lemma {:induction false} SafeByte(f: Crc, m0: seq<byte>, bs: seq<Block>, x: nat)
    requires |bs| > 0 && Start(bs) <= x < At(bs, |bs|) <= |m0| && ByteSafe(f, bs, x)
    ensures |Payload(bs)| == At(bs, |bs|) - Start(bs)
    ensures AfterHeader(f, bs, x, Cell(m0, bs, |bs|, x)) == Payload(bs)[x - Start(bs)]
  {
    assert bs[..|bs|] == bs;
    var p := Payload(bs)[x - Start(bs)];
    ZeroFits(Raw(m0, bs, |bs|, x), p);
    HeaderOnZero(f, bs, x);
  }

  lemma {:induction false} HeaderOnZero(f: Crc, bs: seq<Block>, x: nat)
    requires |bs| > 0
    ensures SectorOf(x) != SectorOf(HeadOf(bs[|bs| - 1]).hdAddr) || !CrcAgrees(f, bs) ==> AfterHeader(f, bs, x, 0) == 0
  {
    if HeadOf(bs[|bs| - 1]).hdAddr <= x < HeadOf(bs[|bs| - 1]).hdAddr + 32 {
      ZeroFits(0, HeaderByte(bs, x));
    }
  }

  /** On a zeroed flash a byte is right only if it is safe. */
  lemma {:induction false} RightByte(f: Crc, m0: seq<byte>, bs: seq<Block>, x: nat)
    requires |bs| > 0 && Start(bs) <= x < At(bs, |bs|) <= |m0| && m0[x] == 0
    ensures |Payload(bs)| == At(bs, |bs|) - Start(bs)
    ensures AfterHeader(f, bs, x, Cell(m0, bs, |bs|, x)) == Payload(bs)[x - Start(bs)] ==> ByteSafe(f, bs, x)
  {
    assert bs[..|bs|] == bs;
    ZeroFits(0, Payload(bs)[x - Start(bs)]);
    HeaderOnZero(f, bs, x);
  }

  /** A flash with all blocks and, if the CRC agrees, the image header on it. */
  ghost predicate Completed(f: Crc, m0: seq<byte>, bs: seq<Block>, flash: seq<byte>)
    requires |bs| > 0
  {
    |flash| == |m0| && forall x :: 0 <= x < |m0| ==> flash[x] == AfterHeader(f, bs, x, Cell(m0, bs, |bs|, x))
  }

  lemma {:induction false} SafeArea(f: Crc, m0: seq<byte>, bs: seq<Block>, flash: seq<byte>)
    requires |bs| > 0 && At(bs, |bs|) <= |m0| && Completed(f, m0, bs, flash) && DataSafe(f, bs)
    ensures flash[Start(bs)..At(bs, |bs|)] == Payload(bs)
  {
    assert bs[..|bs|] == bs;
    var area := flash[Start(bs)..At(bs, |bs|)];
    forall i | 0 <= i < |Payload(bs)|
      ensures area[i] == Payload(bs)[i]
    {
      SafeByte(f, m0, bs, Start(bs) + i);
    }
  }

  lemma {:induction false} RightArea(f: Crc, m0: seq<byte>, bs: seq<Block>, flash: seq<byte>)
    requires |bs| > 0 && At(bs, |bs|) <= |m0| && Completed(f, m0, bs, flash) && m0 == Filled(|m0|, 0)
    requires flash[Start(bs)..At(bs, |bs|)] == Payload(bs)
    ensures DataSafe(f, bs)
  {
    forall x | Start(bs) <= x < At(bs, |bs|)
      ensures ByteSafe(f, bs, x)
    {
      RightByte(f, m0, bs, x);
      assert flash[x] == flash[Start(bs)..At(bs, |bs|)][x - Start(bs)];
    }
  }

  lemma {:induction false} RightWhenSafe(f: Crc, st: Store, bs: seq<Block>)
    requires Numbered(bs) && Fits(bs) && |st.flash| >= WINDOW_HIGH && DataSafe(f, bs)
    ensures DataRight(f, st, bs)
  {
    WholeImage(f, st, bs);
    SafeArea(f, st.flash, bs, StoreAll(f, st, bs).flash);
  }

  lemma {:induction false} SafeWhenRight(f: Crc, st: Store, bs: seq<Block>)
    requires Numbered(bs) && Fits(bs) && |st.flash| >= WINDOW_HIGH
    requires st.flash == Filled(|st.flash|, 0) && DataRight(f, st, bs)
    ensures DataSafe(f, bs)
  {
    WholeImage(f, st, bs);
    RightArea(f, st.flash, bs, StoreAll(f, st, bs).flash);
  }

  ghost predicate AlwaysRight(f: Crc, bs: seq<Block>, size: nat)
    requires Fits(bs) && size >= WINDOW_HIGH
  {
    forall st: Store :: |st.flash| == size ==> DataRight(f, st, bs)
  }

  /** The data area ends up holding the payload whatever the flash held before, exactly
      when each of its bytes is safe. */
  lemma {:induction false} DataAreaIff(f: Crc, bs: seq<Block>, size: nat)
    requires Numbered(bs) && Fits(bs) && size >= WINDOW_HIGH
    ensures AlwaysRight(f, bs, size) <==> DataSafe(f, bs)
  {
    if DataSafe(f, bs) {
      forall st: Store | |st.flash| == size
        ensures DataRight(f, st, bs)
      {
        RightWhenSafe(f, st, bs);
      }
    } else {
      var st := Store(0, 0, Filled(size, 0), 0, false);
      if DataRight(f, st, bs) {
        SafeWhenRight(f, st, bs);
      }
    }
  }

  /** With the image header away from the data, or none written, what counts is that a
      block begins at every sector that receives anything but zeros. */
  lemma {:induction false} SafeIffBegun(f: Crc, bs: seq<Block>)
    requires HeaderAway(bs) || (|bs| > 0 && !CrcAgrees(f, bs))
    ensures DataSafe(f, bs) <==> SectorsBegun(bs)
  {
    assert bs[..|bs|] == bs;
    forall x | Start(bs) <= x < At(bs, |bs|)
      ensures ByteSafe(f, bs, x) <==> Wiped(bs, |bs|, x) || Payload(bs)[x - Start(bs)] == 0
    {
      UntouchedByHeader(f, bs, x, Payload(bs)[x - Start(bs)]);
    }
  }

  lemma {:induction false} UntouchedByHeader(f: Crc, bs: seq<Block>, x: nat, cell: byte)
    requires HeaderAway(bs) || (|bs| > 0 && !CrcAgrees(f, bs))
    requires Start(bs) <= x < At(bs, |bs|)
    ensures AfterHeader(f, bs, x, cell) == cell
    ensures CrcAgrees(f, bs) ==> SectorOf(x) != SectorOf(HeadOf(bs[|bs| - 1]).hdAddr)
  {
    SameSector(x, HeadOf(bs[|bs| - 1]).hdAddr);
  }

  /** Blocks of the size the client asks for: 1024 bytes of payload, four to a sector. */
  predicate FullBlocks(bs: seq<Block>, payload: nat) {
    forall i :: 0 <= i < |bs| ==> |bs[i]| <= HEAD_LEN + payload && (i + 1 < |bs| ==> |bs[i]| == HEAD_LEN + payload)
  }

  lemma {:induction false} FullBlocksAt(bs: seq<Block>, payload: nat, i: nat)
    requires FullBlocks(bs, payload) && i < |bs|
    ensures At(bs, i) == Start(bs) + payload * i
    ensures At(bs, i + 1) <= Start(bs) + payload * i + payload
    decreases i
  {
    AtNext(bs, i);
    if i > 0 {
      FullBlocksAt(bs, payload, i - 1);
      AtNext(bs, i - 1);
      assert payload * i == payload * (i - 1) + payload;
    }
  }

  /** With the requested block size and a sector-aligned start the data area is always right. */
  lemma {:induction false} RequestedSizeBegins(bs: seq<Block>)
    requires Fits(bs) && FullBlocks(bs, 1024) && Start(bs) % SECTOR == 0
    ensures SectorsBegun(bs)
  {
    FullBlocksAt(bs, 1024, |bs| - 1);
    forall x | Start(bs) <= x < At(bs, |bs|)
      ensures Wiped(bs, |bs|, x)
    {
      var i := SectorAfter(Start(bs), x);
      FullBlocksAt(bs, 1024, i);
    }
  }

  lemma {:induction false} SectorAfter(start: nat, x: nat) returns (i: nat)
    requires start % SECTOR == 0 && start <= x
    ensures SectorOf(x) == start + 1024 * i
  {
    var a, b := start / SECTOR, x / SECTOR;
    assert start == 0x1000 * a && SectorOf(x) == 0x1000 * b && a <= b;
    i := 4 * (b - a);
  }

  /** With the default block size the second sector is reached in the middle of the
      ninth block, so it is never erased: what it held before shows through. */
  lemma {:induction false} DefaultSizeStraddles(bs: seq<Block>)
    requires Fits(bs) && FullBlocks(bs, 488) && Start(bs) % SECTOR == 0
    requires |Payload(bs)| > SECTOR && Payload(bs)[SECTOR] != 0
    ensures !SectorsBegun(bs)
  {
    var x := Start(bs) + SECTOR;
    assert bs[..|bs|] == bs;
    SecondSector(Start(bs));
    forall i | 0 <= i < |bs|
      ensures At(bs, i) != x
    {
      FullBlocksAt(bs, 488, i);
    }
    assert !Wiped(bs, |bs|, x);
  }

  lemma {:induction false} SecondSector(start: nat)
    requires start % SECTOR == 0
    ensures SectorOf(start + SECTOR) == start + SECTOR
  {
    SameSector(start + SECTOR, start);
  }

  // ---------- images that meet the conditions ----------

  function Ones(n: nat): (s: seq<byte>)
    ensures |s| == n
  {
    seq(n, _ => 1)
  }

  /** Header of block `i` of `n`: data at 0x8C000, and the image header at the same
      address or, away from it, at 0x10000. */
  function SampleHead(i: nat, n: nat, away: bool): (s: seq<byte>)
    requires i < 0xFFFF && n < 0x1_0000
    ensures |s| == HEAD_LEN
  {
    [0, 0, 0, 0, (i + 1) % 256, (i + 1) / 256, n % 256, n / 256, 0, 0, 0, 0]
    + (if away then [0, 0, 1, 0] else [0, 0xC0, 8, 0]) + [0, 0, 0, 0, 0, 0xC0, 8, 0]
  }

  function SampleBlock(i: nat, n: nat, payload: nat, away: bool): Block
    requires i < 0xFFFF && n < 0x1_0000
  {
    SampleHead(i, n, away) + Ones(payload)
  }

  function SampleImage(n: nat, payload: nat, away: bool): (bs: seq<Block>)
    requires n < 0x1_0000
    ensures |bs| == n
  {
    seq(n, i requires 0 <= i < n => SampleBlock(i, n, payload, away))
  }

  lemma {:induction false} SampleHeadOf(i: nat, n: nat, payload: nat, away: bool)
    requires i < 0xFFFF && n < 0x1_0000
    ensures var h := HeadOf(SampleBlock(i, n, payload, away));
            h.number == i + 1 && h.total == n && h.hdAddr == (if away then 0x1_0000 else 0x8C000) && h.os1Addr == 0x8C000
  {
    var b, s := SampleBlock(i, n, payload, away), SampleHead(i, n, away);
    assert b[4] == s[4] && b[5] == s[5] && b[6] == s[6] && b[7] == s[7];
    assert b[12] == s[12] && b[13] == s[13] && b[14] == s[14] && b[15] == s[15];
    assert b[20] == s[20] && b[21] == s[21] && b[22] == s[22] && b[23] == s[23];
  }

  /** The length of `k` payloads. */
  function Times(payload: nat, k: nat): nat { if k == 0 then 0 else Times(payload, k - 1) + payload }

  lemma {:induction false} SamplePayload(n: nat, payload: nat, away: bool, k: nat)
    requires k <= n < 0x1_0000
    ensures Payload(SampleImage(n, payload, away)[..k]) == Ones(Times(payload, k))
    decreases k
  {
    if k > 0 {
      SamplePayload(n, payload, away, k - 1);
      AtNext(SampleImage(n, payload, away), k - 1);
      SampleData(k - 1, n, payload, away);
      OnesAppend(Times(payload, k - 1), payload);
    }
  }

  lemma {:induction false} SampleData(i: nat, n: nat, payload: nat, away: bool)
    requires i < 0xFFFF && n < 0x1_0000
    ensures SampleBlock(i, n, payload, away)[HEAD_LEN..] == Ones(payload)
  {
  }

  lemma {:induction false} OnesAppend(a: nat, b: nat)
    ensures Ones(a) + Ones(b) == Ones(a + b)
  {
  }

  lemma {:induction false} NineTimes()
    ensures Times(488, 9) == 4392 && Times(488, 1) == 488
  {
    assert Times(488, 4) == 1952;
  }

  /** Images of any number of equal blocks that end inside the window meet the conditions. */
  lemma {:induction false} SampleMeets(n: nat, payload: nat, away: bool)
    requires 0 < n < 0x1_0000 && 0 < payload && Times(payload, n) <= WINDOW_HIGH - 0x8C000
    ensures var bs := SampleImage(n, payload, away);
            && Numbered(bs) && Fits(bs) && FullBlocks(bs, payload) && (away ==> HeaderAway(bs))
            && Start(bs) == 0x8C000 && Payload(bs) == Ones(Times(payload, n)) && At(bs, n) == 0x8C000 + Times(payload, n)
            && HeadOf(bs[n - 1]).hdAddr == if away then 0x1_0000 else 0x8C000
  {
    var bs := SampleImage(n, payload, away);
    forall i | 0 <= i < n
      ensures var h := HeadOf(bs[i]);
              h.number == i + 1 && h.total == n && h.hdAddr == (if away then 0x1_0000 else 0x8C000) && h.os1Addr == 0x8C000
    {
      SampleHeadOf(i, n, payload, away);
    }
    SamplePayload(n, payload, away, n);
    SamplePayload(n, payload, away, n - 1);
    assert bs[..n] == bs;
  }

  /** Nine blocks of the default size are enough to reach a sector that is never erased. */
  lemma {:induction false} DefaultSizeExample(f: Crc)
    ensures var bs := SampleImage(9, 488, true);
            && Numbered(bs) && Fits(bs) && HeaderAway(bs) && FullBlocks(bs, 488) && !SectorsBegun(bs)
            && !AlwaysRight(f, bs, WINDOW_HIGH)
  {
    var bs := SampleImage(9, 488, true);
    NineTimes();
    SampleMeets(9, 488, true);
    assert Payload(bs)[SECTOR] == 1;
    DefaultSizeStraddles(bs);
    SafeIffBegun(f, bs);
    DataAreaIff(f, bs, WINDOW_HIGH);
  }

  /** A checksum that agrees with every trailer of ones. */
  function AgreeingCrc(): Crc { (_, _) => 0x0101_0101 }

  lemma {:induction false} OnesAgree(bs: seq<Block>)
    requires |bs| > 0 && |bs[|bs| - 1]| >= HEAD_LEN + CRC_LEN && bs[|bs| - 1][|bs[|bs| - 1]| - CRC_LEN..] == [1, 1, 1, 1]
    ensures CrcAgrees(AgreeingCrc(), bs)
  {
    var b := bs[|bs| - 1];
    var s := All(bs[..|bs| - 1]) + b[..|b| - CRC_LEN];
    assert s != [];
    assert Fold(AgreeingCrc(), 0, s) == 0x0101_0101;
  }

  /** An image whose header is to go to its own data: every sector is begun and the CRC
      agrees, and writing the header destroys the data. */
  lemma {:induction false} HeaderInDataExample()
    ensures var bs := SampleImage(1, 488, false);
            && Numbered(bs) && Fits(bs) && SectorsBegun(bs) && CrcAgrees(AgreeingCrc(), bs)
            && !AlwaysRight(AgreeingCrc(), bs, WINDOW_HIGH)
  {
    var bs, f := SampleImage(1, 488, false), AgreeingCrc();
    NineTimes();
    SampleMeets(1, 488, false);
    OneBlockBegins(bs);
    var b := bs[0];
    assert b[|b| - CRC_LEN..] == [1, 1, 1, 1];
    OnesAgree(bs);
    var x := Start(bs);
    assert HeaderByte(bs, x) == 0x8C000 % 256;
    assert bs[..1] == bs && Payload(bs)[0] == 1;
    assert !ByteSafe(f, bs, x);
    DataAreaIff(f, bs, WINDOW_HIGH);
  }

  /** One block from an aligned start stays in the sector it begins. */
  lemma {:induction false} OneBlockBegins(bs: seq<Block>)
    requires |bs| == 1 && Start(bs) % SECTOR == 0 && |bs[0]| <= HEAD_LEN + SECTOR
    ensures SectorsBegun(bs)
  {
    AtNext(bs, 0);
    assert bs[..1] == bs && At(bs, 0) == Start(bs);
    forall x | Start(bs) <= x < At(bs, 1)
      ensures Wiped(bs, 1, x)
    {
      SameSector(x, Start(bs));
      assert At(bs, 0) == SectorOf(x);
    }
  }
}
