/** NOR flash: erasing sets a whole sector to ones, programming can only clear bits.
    Also the little-endian words stored on it. */
module Flash {
  import opened Bits
  import opened Ring

  const SECTOR: nat := 0x1000

  /** What a cell holds after `data` was programmed onto it: an erased cell takes
      any byte, a cell full of zeros takes none. */
  function Program(cell: byte, data: byte): (r: byte)
    ensures r <= cell && (cell == 255 ==> r == data)
  {
    AndBound(data, cell);
    AndFull(data, cell);
    And(data, cell)
  }

  /** Programming clears the bits that are zero in the data and sets none. */
  lemma {:induction false} OnlyClears(cell: byte, data: byte, i: nat)
    ensures Bit(Program(cell, data), i) <==> Bit(cell, i) && Bit(data, i)
  {
    AndBits(data, cell, i);
  }

  lemma {:induction false} AndBound(x: int, m: nat)
    ensures 0 <= And(x, m) <= m
    decreases m
  {
    if m > 0 {
      AndBound(x / 2, m / 2);
    }
  }

  lemma {:induction false} AndFull(x: byte, m: nat)
    ensures m == 255 ==> And(x, m) == x
  {
    EightBits();
    AndOnes(x, m, 8);
  }

  lemma {:induction false} AndOnes(x: nat, m: nat, k: nat)
    ensures x <= m == Pow2(k) - 1 ==> And(x, m) == x
  {
    if x <= m == Pow2(k) - 1 {
      AndMask(x, k);
      ModUnique(x, Pow2(k), 0, x);
    }
  }

  lemma {:induction false} EightBits()
    ensures Pow2(8) == 256
  {
    assert Pow2(4) == 16;
  }

  /** The first address of the sector that holds `addr`. */
  function SectorOf(addr: nat): (s: nat)
    ensures s <= addr < s + SECTOR && s % SECTOR == 0
  {
    addr - addr % SECTOR
  }

  lemma {:induction false} SameSector(x: nat, a: nat)
    ensures SectorOf(x) == SectorOf(a) <==> SectorOf(a) <= x < SectorOf(a) + SECTOR
  {
    var q := SectorOf(a) / SECTOR;
    if SectorOf(a) <= x < SectorOf(a) + SECTOR {
      ModUnique(x, SECTOR, q, x - SectorOf(a));
    }
  }

  function Erase(flash: seq<byte>, addr: nat): (r: seq<byte>)
    ensures |r| == |flash|
  {
    seq(|flash|, x requires 0 <= x < |flash| => if SectorOf(x) == SectorOf(addr) then 255 else flash[x])
  }

  function Write(flash: seq<byte>, at: nat, data: seq<byte>): (r: seq<byte>)
    ensures |r| == |flash|
  {
    seq(|flash|, x requires 0 <= x < |flash| =>
      if at <= x < at + |data| then Program(flash[x], data[x - at]) else flash[x])
  }

  /** CMD_FLASH_ERASE_SECTOR. */
  method EraseSector(flash: array<byte>, addr: nat)
    modifies flash
    ensures flash[..] == Erase(old(flash[..]), addr)
  {
    ghost var goal := Erase(flash[..], addr);
    var base := SectorOf(addr);
    var x := 0;
    while x < flash.Length
      invariant 0 <= x <= flash.Length
      invariant forall y :: 0 <= y < flash.Length ==> flash[y] == if y < x then goal[y] else old(flash[y])
    {
      if SectorOf(x) == base {
        flash[x] := 255;
      }
      x := x + 1;
    }
  }

  /** flash_write. */
  method WriteFlash(flash: array<byte>, at: nat, data: seq<byte>)
    modifies flash
    ensures flash[..] == Write(old(flash[..]), at, data)
  {
    ghost var goal := Write(flash[..], at, data);
    var i := 0;
    while i < |data| && at + i < flash.Length
      invariant 0 <= i <= |data|
      invariant forall y :: 0 <= y < flash.Length ==> flash[y] == if y < at + i then goal[y] else old(flash[y])
    {
      flash[at + i] := Program(flash[at + i], data[i]);
      i := i + 1;
    }
  }

  /** The sector that step `i` of bk_flash_erase names, with the address in 32 bits. */
  function SectorAt(base: nat, i: nat): nat { SectorOf(U32(base + 0x1000 * i)) }

  ghost predicate Covered(base: nat, first: nat, last: nat, x: nat) {
    exists i :: first <= i <= last && SectorAt(base, i) == SectorOf(x)
  }

  /** bk_flash_erase: every sector from the one of the offset to the one of the last byte,
      whose offset is computed in unsigned 32 bits, so that a size of zero at offset zero
      names all of them. */
  method EraseRange(flash: array<byte>, base: nat, offset: nat, size: nat)
    requires base < U32_RANGE && offset < U32_RANGE && size < U32_RANGE
    modifies flash
    ensures forall x :: 0 <= x < flash.Length ==>
      flash[x] == if Covered(base, offset / SECTOR, U32(offset + size - 1) / SECTOR, x) then 255 else old(flash[x])
  {
    var first, last := offset / SECTOR, U32(offset + size - 1) / SECTOR;
    var i := first;
    while i <= last
      invariant first <= i && (i <= last + 1 || i == first)
      invariant forall x :: 0 <= x < flash.Length ==>
        flash[x] == if exists k :: first <= k < i && SectorAt(base, k) == SectorOf(x) then 255 else old(flash[x])
    {
      ghost var before, a := flash[..], U32(base + 0x1000 * i);
      EraseSector(flash, U32(base + 0x1000 * i));
      forall x | 0 <= x < flash.Length
        ensures flash[x] == if exists k :: first <= k < i + 1 && SectorAt(base, k) == SectorOf(x) then 255 else old(flash[x])
      {
        assert flash[x] == Erase(before, a)[x];
        assert SectorAt(base, i) == SectorOf(a);
      }
      i := i + 1;
    }
  }

  /** From an aligned base, a range that does not wrap covers whole sectors up to its end. */
  lemma {:induction false} CoveredRange(base: nat, size: nat, x: nat)
    requires base % SECTOR == 0 && 0 < size && base + size <= U32_RANGE
    ensures Covered(base, 0, (size - 1) / SECTOR, x) <==> base <= x < base + ((size - 1) / SECTOR + 1) * SECTOR
  {
    var last := (size - 1) / SECTOR;
    if Covered(base, 0, last, x) {
      var i :| 0 <= i <= last && SectorAt(base, i) == SectorOf(x);
      StepAligned(base, size, i);
    }
    if base <= x < base + (last + 1) * SECTOR {
      var i := SectorIndex(base, x);
      StepAligned(base, size, i);
    }
  }

  lemma {:induction false} StepAligned(base: nat, size: nat, i: nat)
    requires base % SECTOR == 0 && 0 < size && base + size <= U32_RANGE && i <= (size - 1) / SECTOR
    ensures SectorAt(base, i) == base + 0x1000 * i
  {
    var a := base + 0x1000 * i;
    ModUnique(a, U32_RANGE, 0, a);
    ModUnique(a, SECTOR, base / SECTOR + i, 0);
  }

  lemma {:induction false} SectorIndex(base: nat, x: nat) returns (i: nat)
    requires base % SECTOR == 0 && base <= x
    ensures SectorOf(x) == base + 0x1000 * i
  {
    i := x / SECTOR - base / SECTOR;
    assert base == 0x1000 * (base / SECTOR) && SectorOf(x) == 0x1000 * (x / SECTOR);
  }

  /** bk_flash_erase of a range from the start of an aligned partition. */
  method EraseFront(flash: array<byte>, base: nat, size: nat)
    requires base % SECTOR == 0 && 0 < size && base + size <= U32_RANGE && base < U32_RANGE && size < U32_RANGE
    modifies flash
    ensures forall x :: 0 <= x < flash.Length ==>
      flash[x] == if base <= x < base + ((size - 1) / SECTOR + 1) * SECTOR then 255 else old(flash[x])
  {
    EraseRange(flash, base, 0, size);
    ModUnique(size - 1, U32_RANGE, 0, size - 1);
    ghost var end := base + ((size - 1) / SECTOR + 1) * SECTOR;
    forall x | 0 <= x < flash.Length
      ensures flash[x] == if base <= x < end then 255 else old(flash[x])
    {
      CoveredRange(base, size, x);
    }
  }

  // ---------- words ----------

  function Le16(s: seq<byte>): (w: nat)
    requires |s| == 2
    ensures w < 0x1_0000
  {
    (s[0] as int) + 256 * (s[1] as int)
  }

  function Le32(s: seq<byte>): (w: nat)
    requires |s| == 4
    ensures w < U32_RANGE
  {
    (s[0] as int) + 256 * ((s[1] as int) + 256 * ((s[2] as int) + 256 * (s[3] as int)))
  }

  function Bytes32(w: nat): (s: seq<byte>)
    requires w < U32_RANGE
    ensures |s| == 4
  {
    [w % 256, w / 256 % 256, w / 256 / 256 % 256, w / 256 / 256 / 256 % 256]
  }

  lemma {:induction false} WordRoundTrip(w: nat)
    requires w < U32_RANGE
    ensures Le32(Bytes32(w)) == w
  {
    var a := w / 256;
    var b := a / 256;
    var c := b / 256;
    assert c < 256;
    assert Bytes32(w) == [w % 256, a % 256, b % 256, c];
  }
}
