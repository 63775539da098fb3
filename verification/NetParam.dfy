/** The network parameter table: a type-length-value list at the start of a flash
    partition, rewritten as a whole by every save. */
module NetParam {
  import opened Bits
  import opened Ring
  import opened Flash
  import opened Options

  const INFO_TLV_HEADER: nat := 0x0056_4c54
  const HEAD: nat := 8

  const AUTO_CONNECT: nat := 0x1111_1111
  const WIFI_MODE: nat := 0x2222_2222
  const DHCP_MODE: nat := 0x3333_3333
  const WIFI_MAC: nat := 0x4444_4444
  const SSID_KEY: nat := 0x5555_5555
  const IP_CONFIG: nat := 0x6666_6666
  const RF_CFG_TSSI: nat := 0x7777_7777
  const RF_CFG_DIST: nat := 0x8888_8888
  const RF_CFG_MODE: nat := 0x9999_9999
  const CHARGE_CONFIG: nat := 0xaaaa_aaaa
  const RF_CFG_TSSI_B: nat := 0xbbbb_bbbb

  type Word32 = k: nat | k < 0x1_0000_0000
  type Kind = Word32

  const KINDS: seq<Kind> := [
    AUTO_CONNECT, WIFI_MODE, DHCP_MODE, WIFI_MAC, SSID_KEY, IP_CONFIG,
    RF_CFG_TSSI, RF_CFG_DIST, RF_CFG_MODE, CHARGE_CONFIG, RF_CFG_TSSI_B]

  predicate Declared(k: Kind) { k in KINDS }

  /** info_item_len: the size of an item with its head. */
  function ItemLen(k: Kind): nat {
    if k == WIFI_MAC then 16 else if k == SSID_KEY then 104 else if k == IP_CONFIG then 56 else 12
  }

  /** How much a save reads from each of its three arguments. */
  function Takes(k: Kind): (nat, nat, nat) {
    if k == WIFI_MAC then (6, 0, 0)
    else if k == SSID_KEY then (32, 64, 0)
    else if k == IP_CONFIG then (16, 16, 16)
    else if k == CHARGE_CONFIG then (3, 0, 0)
    else (4, 0, 0)
  }

  type Value = v: seq<byte> | |v| < 0x1_0000_0000

  datatype Args = Args(p0: seq<byte>, p1: seq<byte>, p2: seq<byte>)

  predicate Enough(k: Kind, a: Args) {
    Takes(k).0 <= |a.p0| && Takes(k).1 <= |a.p1| && Takes(k).2 <= |a.p2|
  }

  /** The bytes a save copies into the item. */
  function Copied(k: Kind, a: Args): (v: seq<byte>)
    requires Enough(k, a)
    ensures |v| == Takes(k).0 + Takes(k).1 + Takes(k).2 <= ItemLen(k) - HEAD
  {
    a.p0[..Takes(k).0] + a.p1[..Takes(k).1] + a.p2[..Takes(k).2]
  }

  function Zeros(n: nat): (z: seq<byte>)
    ensures |z| == n
  {
    seq(n, _ => 0)
  }

  /** The value of an item: what was copied, zero padded to its stored length. */
  function Padded(k: Kind, a: Args): (v: Value)
    requires Enough(k, a)
    ensures |v| == ItemLen(k) - HEAD
  {
    Copied(k, a) + Zeros(ItemLen(k) - HEAD - |Copied(k, a)|)
  }

  // ---------- the table as bytes ----------

  datatype Item = Item(kind: Kind, value: Value)

  predicate Sized(it: Item) { |it.value| == ItemLen(it.kind) - HEAD && Ends(it) }

  /** Nothing but zeros behind the bytes a save copies. */
  predicate Ends(it: Item) {
    forall i :: Takes(it.kind).0 + Takes(it.kind).1 + Takes(it.kind).2 <= i < |it.value| ==> it.value[i] == 0
  }

  /** Distinct kinds, each with its own length. */
  predicate Formed(items: seq<Item>) {
    && (forall i :: 0 <= i < |items| ==> Sized(items[i]))
    && (forall i, j :: 0 <= i < j < |items| ==> items[i].kind != items[j].kind)
  }

  function HeadBytes(kind: Kind, len: Word32): (s: seq<byte>)
    ensures |s| == HEAD
  {
    Bytes32(kind) + Bytes32(len)
  }

  function ItemBytes(it: Item): (s: seq<byte>)
    ensures |s| == HEAD + |it.value|
  {
    HeadBytes(it.kind, |it.value|) + it.value
  }

  function Body(items: seq<Item>): seq<byte> {
    if items == [] then [] else Body(items[..|items| - 1]) + ItemBytes(items[|items| - 1])
  }

  function Table(items: seq<Item>): (s: seq<byte>)
    requires |Body(items)| < 0x1_0000_0000
    ensures |s| == HEAD + |Body(items)|
  {
    HeadBytes(INFO_TLV_HEADER, |Body(items)|) + Body(items)
  }

  lemma {:induction false} BodySnoc(items: seq<Item>, it: Item)
    ensures Body(items + [it]) == Body(items) + ItemBytes(it)
  {
    assert (items + [it])[..|items|] == items;
  }

  lemma {:induction false} BodyAppend(a: seq<Item>, b: seq<Item>)
    ensures Body(a + b) == Body(a) + Body(b)
    decreases |b|
  {
    if b == [] {
      assert a + b == a;
    } else {
      var front, it := b[..|b| - 1], b[|b| - 1];
      assert b == front + [it] && a + b == (a + front) + [it];
      BodyAppend(a, front);
      BodySnoc(front, it);
      BodySnoc(a + front, it);
      AppendAssoc(Body(a), Body(front), ItemBytes(it));
    }
  }

  lemma {:induction false} AppendAssoc(a: seq<byte>, b: seq<byte>, c: seq<byte>)
    ensures (a + b) + c == a + (b + c)
  {
  }

  /** The table around item `j`. */
  lemma {:induction false} BodyAround(items: seq<Item>, j: nat)
    requires j < |items|
    ensures Body(items) == Body(items[..j]) + ItemBytes(items[j]) + Body(items[j + 1..])
    ensures Body(items[..j + 1]) == Body(items[..j]) + ItemBytes(items[j])
  {
    assert items[..j + 1][..j] == items[..j];
    assert items == items[..j + 1] + items[j + 1..];
    BodyAppend(items[..j + 1], items[j + 1..]);
  }

  /** The partition begins with this table. */
  ghost predicate Holds(flash: seq<byte>, start: nat, items: seq<Item>) {
    && start + HEAD + |Body(items)| <= |flash| < U32_RANGE
    && flash[start..start + HEAD + |Body(items)|] == Table(items)
  }

  function Word(flash: seq<byte>, addr: nat): (w: nat)
    requires addr + 4 <= |flash|
    ensures w < U32_RANGE
  {
    Le32(flash[addr..addr + 4])
  }

  lemma {:induction false} HeadWords(k: Kind, len: Word32, rest: seq<byte>)
    ensures var s := HeadBytes(k, len) + rest; Word(s, 0) == k && Word(s, 4) == len && s[HEAD..] == rest
  {
    var s := HeadBytes(k, len) + rest;
    WordRoundTrip(k);
    WordRoundTrip(len);
    assert s[0..4] == Bytes32(k) && s[4..8] == Bytes32(len);
  }

  lemma {:induction false} WordShift(flash: seq<byte>, from: nat, n: nat, at: nat)
    requires from + n <= |flash| && at + 4 <= n
    ensures Word(flash, from + at) == Word(flash[from..from + n], at)
  {
    SliceOfSlice(flash, from, n, at, at + 4);
  }

  lemma {:induction false} HeadAt(flash: seq<byte>, start: nat, items: seq<Item>)
    requires Holds(flash, start, items)
    ensures Word(flash, start) == INFO_TLV_HEADER && Word(flash, start + 4) == |Body(items)|
  {
    HeadInFlash(flash, start, INFO_TLV_HEADER, |Body(items)|, Body(items));
  }

  /** Where item `j` begins. */
  ghost function Where(start: nat, items: seq<Item>, j: nat): nat
    requires j <= |items|
  {
    start + HEAD + |Body(items[..j])|
  }

  lemma {:induction false} Regroup(a: seq<byte>, b: seq<byte>, c: seq<byte>, d: seq<byte>)
    ensures a + (b + c + d) == (a + b) + c + d
  {
  }

  lemma {:induction false} Middle(a: seq<byte>, b: seq<byte>, c: seq<byte>)
    ensures (a + b + c)[|a|..|a| + |b|] == b
  {
  }

  lemma {:induction false} SliceOfSlice(s: seq<byte>, from: nat, n: nat, lo: nat, hi: nat)
    requires from + n <= |s| && lo <= hi <= n
    ensures s[from..from + n][lo..hi] == s[from + lo..from + hi]
  {
    var t, u := s[from..from + n][lo..hi], s[from + lo..from + hi];
    forall i | 0 <= i < hi - lo
      ensures t[i] == u[i]
    {
      assert s[from..from + n][lo + i] == s[from + (lo + i)];
    }
  }

  lemma {:induction false} TableAround(items: seq<Item>, j: nat, head: seq<byte>)
    requires j < |items|
    ensures head + Body(items) == (head + Body(items[..j])) + ItemBytes(items[j]) + Body(items[j + 1..])
  {
    BodyAround(items, j);
    Regroup(head, Body(items[..j]), ItemBytes(items[j]), Body(items[j + 1..]));
  }

  lemma {:induction false} ItemEnds(start: nat, items: seq<Item>, j: nat)
    requires j < |items|
    ensures Where(start, items, j + 1) == Where(start, items, j) + HEAD + |items[j].value|
    ensures Where(start, items, j + 1) <= start + HEAD + |Body(items)|
  {
    BodyAround(items, j);
  }

  lemma {:induction false} TableSlice(items: seq<Item>, j: nat, head: seq<byte>)
    requires j < |items|
    ensures var at := |head| + |Body(items[..j])|;
            at + |ItemBytes(items[j])| <= |head + Body(items)| && (head + Body(items))[at..at + |ItemBytes(items[j])|] == ItemBytes(items[j])
  {
    TableAround(items, j, head);
    Middle(head + Body(items[..j]), ItemBytes(items[j]), Body(items[j + 1..]));
  }

  lemma {:induction false} ItemSlice(flash: seq<byte>, start: nat, items: seq<Item>, j: nat)
    requires Holds(flash, start, items) && j < |items|
    ensures Where(start, items, j + 1) == Where(start, items, j) + HEAD + |items[j].value|
    ensures Where(start, items, j + 1) <= start + HEAD + |Body(items)| <= |flash|
    ensures flash[Where(start, items, j)..Where(start, items, j + 1)] == ItemBytes(items[j])
  {
    var at, n := HEAD + |Body(items[..j])|, HEAD + |items[j].value|;
    ItemEnds(start, items, j);
    TableSlice(items, j, HeadBytes(INFO_TLV_HEADER, |Body(items)|));
    SliceOfSlice(flash, start, HEAD + |Body(items)|, at, at + n);
  }

  /** Reading an item's head and value from flash. */
  lemma {:induction false} ItemAt(flash: seq<byte>, start: nat, items: seq<Item>, j: nat)
    requires Holds(flash, start, items) && j < |items|
    ensures var at, len := Where(start, items, j), |items[j].value|;
            && at + HEAD + len <= |flash|
            && at + HEAD + len == Where(start, items, j + 1)
            && Word(flash, at) == items[j].kind && Word(flash, at + 4) == len
            && flash[at + HEAD..at + HEAD + len] == items[j].value
  {
    ItemSlice(flash, start, items, j);
    HeadInFlash(flash, Where(start, items, j), items[j].kind, |items[j].value|, items[j].value);
  }

  lemma {:induction false} HeadInFlash(flash: seq<byte>, at: nat, k: Kind, len: Word32, rest: seq<byte>)
    requires at + HEAD + |rest| <= |flash| && flash[at..at + HEAD + |rest|] == HeadBytes(k, len) + rest
    ensures Word(flash, at) == k && Word(flash, at + 4) == len && flash[at + HEAD..at + HEAD + |rest|] == rest
  {
    var n := HEAD + |rest|;
    HeadWords(k, len, rest);
    WordShift(flash, at, n, 0);
    WordShift(flash, at, n, 4);
    SliceOfSlice(flash, at, n, HEAD, n);
  }

  // ---------- the table as a map ----------

  function Find(items: seq<Item>, k: Kind): (j: nat)
    ensures j <= |items|
    ensures j < |items| ==> items[j].kind == k
    ensures forall i :: 0 <= i < j ==> items[i].kind != k
  {
    if items == [] then 0 else if items[0].kind == k then 0 else 1 + Find(items[1..], k)
  }

  function Lookup(items: seq<Item>, k: Kind): Option<seq<byte>> {
    var j := Find(items, k);
    if j < |items| then Some(items[j].value) else None
  }

  function Put(items: seq<Item>, k: Kind, v: Value): seq<Item> {
    var j := Find(items, k);
    if j < |items| then items[j := Item(k, v)] else items + [Item(k, v)]
  }

  lemma {:induction false} FindUnique(items: seq<Item>, k: Kind, j: nat)
    requires j <= |items| && (j < |items| ==> items[j].kind == k)
    requires forall i :: 0 <= i < j ==> items[i].kind != k
    ensures Find(items, k) == j
  {
    var f := Find(items, k);
  }

  /** A save changes one key and keeps the table well formed. */
  lemma {:induction false} PutIsUpdate(items: seq<Item>, k: Kind, v: Value)
    requires Formed(items) && Sized(Item(k, v))
    ensures Formed(Put(items, k, v))
    ensures forall k': Kind :: Lookup(Put(items, k, v), k') == if k' == k then Some(v) else Lookup(items, k')
  {
    var j, r := Find(items, k), Put(items, k, v);
    forall k': Kind
      ensures Lookup(r, k') == if k' == k then Some(v) else Lookup(items, k')
    {
      PutLookup(items, k, v, k');
    }
  }

  lemma {:induction false} PutGoal(items: seq<Item>, k: Kind, a: Args) returns (goal: seq<Item>)
    requires Formed(items) && Enough(k, a)
    ensures goal == Put(items, k, Padded(k, a)) && Formed(goal) && goal != [] && Body(goal) == Around(items, k, Padded(k, a))
  {
    goal := Put(items, k, Padded(k, a));
    PaddedSized(k, a);
    PutIsUpdate(items, k, Padded(k, a));
    PutAround(items, k, Padded(k, a));
  }

  lemma {:induction false} PutLookup(items: seq<Item>, k: Kind, v: Value, k': Kind)
    ensures Lookup(Put(items, k, v), k') == if k' == k then Some(v) else Lookup(items, k')
  {
    var j, f, r := Find(items, k), Find(items, k'), Put(items, k, v);
    if k' == k {
      FindUnique(r, k, j);
    } else if f < |items| {
      FindUnique(r, k', f);
    } else {
      FindUnique(r, k', |r|);
    }
  }

  /** The parameters as the calls made them. */
  datatype Call = Call(kind: Kind, args: Args)

  predicate Callable(calls: seq<Call>) { forall i :: 0 <= i < |calls| ==> Enough(calls[i].kind, calls[i].args) }

  function ItemsAfter(calls: seq<Call>): seq<Item>
    requires Callable(calls)
  {
    if calls == [] then []
    else
      var c := calls[|calls| - 1];
      Put(ItemsAfter(calls[..|calls| - 1]), c.kind, Padded(c.kind, c.args))
  }

  /** The last value saved under a key. */
  function LastSaved(calls: seq<Call>, k: Kind): Option<seq<byte>>
    requires Callable(calls)
  {
    if calls == [] then None
    else
      var c := calls[|calls| - 1];
      if c.kind == k then Some(Padded(k, c.args)) else LastSaved(calls[..|calls| - 1], k)
  }

  lemma {:induction false} PaddedSized(k: Kind, a: Args)
    requires Enough(k, a)
    ensures Sized(Item(k, Padded(k, a)))
  {
  }

  /** After any sequence of saves the table is well formed and maps every kind to the
      value saved last under it. */
  lemma {:induction false} SavesAreMap(calls: seq<Call>, k: Kind)
    requires Callable(calls)
    ensures Formed(ItemsAfter(calls)) && Lookup(ItemsAfter(calls), k) == LastSaved(calls, k)
  {
    if calls != [] {
      var c := calls[|calls| - 1];
      SavesAreMap(calls[..|calls| - 1], k);
      PaddedSized(c.kind, c.args);
      PutIsUpdate(ItemsAfter(calls[..|calls| - 1]), c.kind, Padded(c.kind, c.args));
    }
  }

  // ---------- the size of the table ----------

  predicate Has(items: seq<Item>, k: Kind) { exists i :: 0 <= i < |items| && items[i].kind == k }

  /** What the first `n` kinds of a list contribute to a table. */
  function Parts(items: seq<Item>, ks: seq<Kind>, n: nat): nat
    requires n <= |ks|
    decreases n
  {
    if n == 0 then 0 else Parts(items, ks, n - 1) + if Has(items, ks[n - 1]) then ItemLen(ks[n - 1]) else 0
  }

  /** The size of a table with all of them. */
  function Total(ks: seq<Kind>, n: nat): nat
    requires n <= |ks|
    decreases n
  {
    if n == 0 then 0 else Total(ks, n - 1) + ItemLen(ks[n - 1])
  }

  lemma {:induction false} PartSnoc(items: seq<Item>, it: Item, k: Kind)
    ensures Has(items + [it], k) <==> Has(items, k) || it.kind == k
  {
    var r := items + [it];
    if it.kind == k {
      assert r[|items|].kind == k;
    }
    if Has(items, k) {
      var i :| 0 <= i < |items| && items[i].kind == k;
      assert r[i].kind == k;
    }
  }

  lemma {:induction false} PartsSnoc(items: seq<Item>, it: Item, ks: seq<Kind>, n: nat)
    requires n <= |ks| && !Has(items, it.kind) && forall i, j :: 0 <= i < j < |ks| ==> ks[i] != ks[j]
    ensures Parts(items + [it], ks, n) == Parts(items, ks, n) + if it.kind in ks[..n] then ItemLen(it.kind) else 0
    decreases n
  {
    if n > 0 {
      PartSnoc(items, it, ks[n - 1]);
      PartsSnoc(items, it, ks, n - 1);
      assert ks[..n] == ks[..n - 1] + [ks[n - 1]];
    }
  }

  lemma {:induction false} PartsBounded(items: seq<Item>, ks: seq<Kind>, n: nat)
    requires n <= |ks|
    ensures Parts(items, ks, n) <= Total(ks, n) && (items == [] ==> Parts(items, ks, n) == 0)
    decreases n
  {
    if n > 0 {
      PartsBounded(items, ks, n - 1);
    }
  }

  predicate AllDeclared(items: seq<Item>) { forall i :: 0 <= i < |items| ==> Declared(items[i].kind) }

  lemma {:induction false} BodyIsParts(items: seq<Item>, ks: seq<Kind>)
    requires Formed(items) && forall i, j :: 0 <= i < j < |ks| ==> ks[i] != ks[j]
    requires forall i :: 0 <= i < |items| ==> items[i].kind in ks
    ensures |Body(items)| == Parts(items, ks, |ks|)
  {
    if items == [] {
      PartsBounded(items, ks, |ks|);
    } else {
      var rest, it := items[..|items| - 1], items[|items| - 1];
      BodyIsParts(rest, ks);
      assert items == rest + [it];
      assert ks[..|ks|] == ks;
      PartsSnoc(rest, it, ks, |ks|);
    }
  }

  lemma {:induction false} TotalDeclared()
    ensures |KINDS| == 11 && Total(KINDS, 11) == 272
  {
    assert Total(KINDS, 4) == 52;
    assert Total(KINDS, 8) == 236;
  }

  /** A table of declared items is at most 280 bytes, far below one sector. */
  lemma {:induction false} TableSmall(items: seq<Item>)
    requires Formed(items) && AllDeclared(items)
    ensures HEAD + |Body(items)| <= 280
  {
    BodyIsParts(items, KINDS);
    PartsBounded(items, KINDS, |KINDS|);
    TotalDeclared();
  }

  // ---------- the code ----------

  /** A well-formed table, or no table mark at all. */
  ghost predicate Represents(flash: seq<byte>, start: nat, items: seq<Item>)
    requires start + HEAD <= |flash|
  {
    Formed(items) && if items == [] then Word(flash, start) != INFO_TLV_HEADER else Holds(flash, start, items)
  }

  /** The partition on its flash; `items` is what the table stands for. */
  class Store {
    const flash: array<byte>
    const start: nat
    ghost var items: seq<Item>

    ghost predicate Valid()
      reads this, flash
    {
      0 < start && start % SECTOR == 0 && start + HEAD <= flash.Length < U32_RANGE && Represents(flash[..], start, items)
    }

    /** A partition whose first word is not the table mark, such as a blank one. */
    constructor (memory: array<byte>, at: nat)
      requires 0 < at && at % SECTOR == 0 && at + HEAD <= memory.Length < U32_RANGE
      requires Word(memory[..], at) != INFO_TLV_HEADER
      ensures Valid() && items == [] && flash == memory && start == at
    {
      flash, start, items := memory, at, [];
    }

    /** ddev_read of a type-length head. */
    method ReadHead(addr: nat) returns (kind: Kind, len: Word32)
      requires addr + HEAD <= flash.Length
      ensures kind == Word(flash[..], addr) && len == Word(flash[..], addr + 4)
    {
      ghost var f := flash[..];
      assert flash[addr..addr + 4] == f[addr..addr + 4];
      assert flash[addr + 4..addr + 8] == f[addr + 4..addr + 8];
      kind, len := Le32(flash[addr..addr + 4]), Le32(flash[addr + 4..addr + 8]);
    }

    /** search_info_tbl: whether there is a table, and its length with the head. */
    method SearchTable() returns (found: bool, len: nat)
      requires Valid()
      ensures found == (items != [])
      ensures found ==> len == HEAD + |Body(items)|
    {
      var mark, n := ReadHead(start);
      if items != [] {
        HeadAt(flash[..], start, items);
      }
      found, len := mark == INFO_TLV_HEADER, n + HEAD;
    }

    /** The kind of the item at `addr`, and where the next one begins. */
    method ReadItem(addr: nat, ghost j: nat) returns (kind: Kind, next: nat)
      requires Valid() && j < |items| && addr == Where(start, items, j)
      ensures kind == items[j].kind && next == Where(start, items, j + 1)
    {
      ItemAt(flash[..], start, items, j);
      var len;
      kind, len := ReadHead(addr);
      next := addr + HEAD + len;
    }

    /** search_info_item: the address of the item's head, or 0. */
    method SearchItem(kind: Kind) returns (addr: nat)
      requires Valid() && items != []
      ensures var j := Find(items, kind); addr == if j < |items| then Where(start, items, j) else 0
    {
      ghost var f, j: nat := flash[..], 0;
      HeadAt(f, start, items);
      var _, n := ReadHead(start);
      var end := start + HEAD + n;
      addr := start + HEAD;
      assert items[..0] == [];
      EndsAt(items, 0);
      while addr < end
        invariant j <= |items| && addr == Where(start, items, j) <= end
        invariant j <= Find(items, kind)
        invariant addr == end <==> j == |items|
        decreases |items| - j
      {
        var k, next := ReadItem(addr, j);
        if k == kind {
          break;
        }
        addr := next;
        j := j + 1;
        EndsAt(items, j);
      }
      if addr >= end {
        addr := 0;
      }
    }

    /** The copies of the switch statement in save_info_item, and the item's head. */
    method FillItem(buf: array<byte>, at: nat, k: Kind, a: Args)
      requires Enough(k, a) && at + ItemLen(k) <= buf.Length
      modifies buf
      ensures buf[..] == Patch(Patch(old(buf[..]), at + HEAD, Copied(k, a)), at, HeadBytes(k, ItemLen(k) - HEAD))
    {
      var x, y, z := a.p0[..Takes(k).0], a.p1[..Takes(k).1], a.p2[..Takes(k).2];
      ghost var b := buf[..];
      MemCpy(buf, at + HEAD, x);
      MemCpy(buf, at + HEAD + |x|, y);
      PatchTwice(b, at + HEAD, x, y);
      MemCpy(buf, at + HEAD + |x + y|, z);
      PatchTwice(b, at + HEAD, x + y, z);
      MemCpy(buf, at, HeadBytes(k, ItemLen(k) - HEAD));
    }

    /** The zeroed buffer with the old table, and the offset of the item in it. */
    method NewBuffer(k: Kind) returns (buf: array<byte>, at: nat)
      requires Valid()
      ensures fresh(buf) && at == HEAD + |Body(items[..Find(items, k)])|
      ensures SmallBody(items) && buf[..] == OldBuffer(items, k)
    {
      var found, len := SearchTable();
      assert items[..|items|] == items;
      if !found {
        buf := ZeroedAfter([], HEAD + ItemLen(k));
        at := HEAD;
      } else {
        var addr := SearchItem(k);
        assert flash[start..start + len] == flash[..][start..start + len];
        buf := ZeroedAfter(flash[start..start + len], if addr == 0 then ItemLen(k) else 0);
        at := if addr == 0 then len else addr - start;
      }
    }

    /** Everything save_info_item does in its buffer. */
    method BuildTable(k: Kind, a: Args, ghost goal: seq<Item>) returns (buf: array<byte>)
      requires Valid() && Enough(k, a) && Body(goal) == Around(items, k, Padded(k, a)) && SmallBody(goal)
      ensures fresh(buf) && buf[..] == Table(goal)
    {
      var at;
      buf, at := NewBuffer(k);
      ghost var j := Find(items, k);
      ghost var head, slot := OldBufferParts(items, k);
      AssembledTable(OldBuffer(items, k), Body(goal), head, Body(items[..j]), slot, After(items, j), k, a);
      FinishTable(buf, at, k, a);
    }

    method FinishTable(buf: array<byte>, at: nat, k: Kind, a: Args)
      requires Enough(k, a) && HEAD <= buf.Length < U32_RANGE && at + ItemLen(k) <= buf.Length
      modifies buf
      ensures buf[..] == Finished(old(buf[..]), at, k, a)
    {
      FillItem(buf, at, k, a);
      MemCpy(buf, 0, HeadBytes(INFO_TLV_HEADER, buf.Length - HEAD));
    }

    /** save_info_item; `memory` says whether the buffer can be allocated.  If so, the
        value under `k` becomes the padded arguments and nothing else changes; cells
        outside the sectors of the new table keep their contents. */
    method Save(k: Kind, a: Args, memory: bool) returns (ret: bool)
      requires Valid() && Enough(k, a)
      requires start + HEAD + |Body(Put(items, k, Padded(k, a)))| <= flash.Length
      modifies this, flash
      ensures Valid() && ret == memory
      ensures items == if memory then Put(old(items), k, Padded(k, a)) else old(items)
      ensures memory ==> Untouched(old(flash[..]), flash[..], start, SectorsEnd(start, HEAD + |Body(items)|))
      ensures !memory ==> flash[..] == old(flash[..])
    {
      ret := memory;
      if memory {
        SaveAllocated(k, a);
      }
    }

    method SaveAllocated(k: Kind, a: Args)
      requires Valid() && Enough(k, a)
      requires start + HEAD + |Body(Put(items, k, Padded(k, a)))| <= flash.Length
      modifies this, flash
      ensures Valid() && items == Put(old(items), k, Padded(k, a))
      ensures Untouched(old(flash[..]), flash[..], start, SectorsEnd(start, HEAD + |Body(items)|))
    {
      ghost var goal := PutGoal(items, k, a);
      Replace(k, a, goal);
    }

    method Replace(k: Kind, a: Args, ghost goal: seq<Item>)
      requires Valid() && Enough(k, a) && Body(goal) == Around(items, k, Padded(k, a))
      requires Formed(goal) && goal != [] && start + HEAD + |Body(goal)| <= flash.Length
      modifies this, flash
      ensures Valid() && items == goal
      ensures Untouched(old(flash[..]), flash[..], start, SectorsEnd(start, HEAD + |Body(items)|))
    {
      var buf := BuildTable(k, a, goal);
      Install(buf, goal);
    }

    /** The address and length of an item's value, if it is there. */
    method Locate(k: Kind) returns (found: bool, addr: nat, len: nat)
      requires Valid()
      ensures found == Lookup(items, k).Some?
      ensures found ==> addr + len <= flash.Length && flash[addr..addr + len] == Lookup(items, k).value
      ensures found ==> len == ItemLen(k) - HEAD
    {
      addr, len := 0, 0;
      var table, _ := SearchTable();
      found := table;
      if found {
        addr := SearchItem(k);
        found := addr != 0;
        if found {
          ItemAt(flash[..], start, items, Find(items, k));
          var _, n := ReadHead(addr);
          addr, len := addr + HEAD, n;
          assert flash[addr..addr + len] == flash[..][addr..addr + len];
        }
      }
    }

    /** get_info_item; `wants` says which of the three result pointers are not null. */
    method Get(k: Kind, wants: (bool, bool, bool)) returns (ret: bool, r: Args)
      requires Valid()
      ensures ret == (Lookup(items, k).Some? && Declared(k) && Asked(k, wants))
      ensures ret ==> wants.0 && (k == SSID_KEY ==> wants.1) && (k == IP_CONFIG ==> wants.1 && wants.2)
      ensures Lookup(items, k).Some? && Declared(k) && wants.0 && wants.1 && wants.2 ==> ret
      ensures ret ==> r == Split(k, Lookup(items, k).value)
    {
      r := Args([], [], []);
      var found, addr, len := Locate(k);
      ret := found && Declared(k) && Asked(k, wants);
      if ret {
        r := ReadValue(k, addr, len);
      }
    }

    /** The reads of the switch statement in get_info_item. */
    method ReadValue(k: Kind, addr: nat, len: nat) returns (r: Args)
      requires addr + len <= flash.Length && len == ItemLen(k) - HEAD
      ensures r == Split(k, flash[addr..addr + len])
    {
      ghost var v := flash[addr..addr + len];
      if k == SSID_KEY {
        r := Args(flash[addr..addr + 32], flash[addr + 32..addr + 96], []);
        assert r.p0 == v[..32] && r.p1 == v[32..96];
      } else if k == IP_CONFIG {
        r := Args(flash[addr..addr + 16], flash[addr + 16..addr + 32], flash[addr + 32..addr + 48]);
        assert r.p0 == v[..16] && r.p1 == v[16..32] && r.p2 == v[32..48];
      } else {
        r := Args(flash[addr..addr + len], [], []);
      }
    }

    /** The flash operations of a save. */
    method Install(buf: array<byte>, ghost goal: seq<Item>)
      requires Valid() && Formed(goal) && goal != [] && start + HEAD + |Body(goal)| <= flash.Length
      requires buf[..] == Table(goal)
      modifies this, flash
      ensures Valid() && items == goal
      ensures Untouched(old(flash[..]), flash[..], start, SectorsEnd(start, HEAD + |Body(items)|))
    {
      ghost var n := HEAD + |Body(goal)|;
      assert buf.Length == n;
      Rewrite(flash, start, buf[..]);
      assert Untouched(old(flash[..]), flash[..], start, SectorsEnd(start, n));
      items := goal;
    }
  }

  /** The pointers a get insists on. */
  predicate Asked(k: Kind, wants: (bool, bool, bool)) {
    wants.0 && (k == SSID_KEY || k == IP_CONFIG ==> wants.1) && (k == IP_CONFIG ==> wants.2)
  }

  /** A value as get_info_item hands it out. */
  function Split(k: Kind, v: seq<byte>): Args
    requires |v| == ItemLen(k) - HEAD
  {
    if k == SSID_KEY then Args(v[..32], v[32..96], [])
    else if k == IP_CONFIG then Args(v[..16], v[16..32], v[32..48])
    else Args(v, [], [])
  }

  /** Getting what was saved: the arguments come back, the first one zero padded. */
  lemma {:induction false} SplitPadded(k: Kind, a: Args)
    requires Enough(k, a)
    ensures Split(k, Padded(k, a)) ==
      Args(a.p0[..Takes(k).0] + Zeros(ItemLen(k) - HEAD - |Copied(k, a)|), a.p1[..Takes(k).1], a.p2[..Takes(k).2])
  {
    var v, x, y, z := Padded(k, a), a.p0[..Takes(k).0], a.p1[..Takes(k).1], a.p2[..Takes(k).2];
    assert v[|x|..|x| + |y|] == y && v[|x| + |y|..|x| + |y| + |z|] == z;
  }

  /** What each item stores of the arguments and gives back: the MAC address six bytes in
      eight, the name and the key of the network 32 and 64, the three addresses 16 each,
      the charge calibration three bytes in four, any other parameter four. */
  lemma {:induction false} SavedComesBack(k: Kind, a: Args)
    requires Enough(k, a)
    ensures k == WIFI_MAC ==> |Padded(k, a)| == 8 && Split(k, Padded(k, a)) == Args(a.p0[..6] + [0, 0], [], [])
    ensures k == SSID_KEY ==> |Padded(k, a)| == 96 && Split(k, Padded(k, a)) == Args(a.p0[..32], a.p1[..64], [])
    ensures k == IP_CONFIG ==> |Padded(k, a)| == 48 && Split(k, Padded(k, a)) == Args(a.p0[..16], a.p1[..16], a.p2[..16])
    ensures k == CHARGE_CONFIG ==> |Padded(k, a)| == 4 && Split(k, Padded(k, a)) == Args(a.p0[..3] + [0], [], [])
    ensures k !in [WIFI_MAC, SSID_KEY, IP_CONFIG, CHARGE_CONFIG] ==>
      |Padded(k, a)| == 4 && Split(k, Padded(k, a)) == Args(a.p0[..4], [], [])
  {
    SplitPadded(k, a);
    assert Zeros(2) == [0, 0] && Zeros(1) == [0];
  }

  /** The eleven parameter types are the multiples of 0x11111111 up to 0xbbbbbbbb. */
  lemma {:induction false} DeclaredKinds(k: Kind)
    ensures Declared(k) <==> k % 0x1111_1111 == 0 && 1 <= k / 0x1111_1111 <= 11
  {
    var d := k / 0x1111_1111;
    if k % 0x1111_1111 == 0 && 1 <= d <= 11 {
      assert k == KINDS[d - 1];
    }
    if Declared(k) {
      var i :| 0 <= i < |KINDS| && KINDS[i] == k;
      assert k == 0x1111_1111 * (i + 1);
      ModUnique(k, 0x1111_1111, i + 1, 0);
    }
  }

  predicate DeclaredCalls(calls: seq<Call>) { forall i :: 0 <= i < |calls| ==> Declared(calls[i].kind) }

  lemma {:induction false} CallsDeclared(calls: seq<Call>)
    requires Callable(calls) && DeclaredCalls(calls)
    ensures AllDeclared(ItemsAfter(calls)) && Formed(ItemsAfter(calls))
  {
    if calls != [] {
      CallsDeclared(calls[..|calls| - 1]);
      SavesAreMap(calls, 0);
    }
  }

  /** Any sequence of saves of declared items on a partition without a table, then a
      get: the answer is the last value saved under that kind, and the partition never
      needs more than 280 bytes. */
  method SaveAllThenGet(memory: array<byte>, at: nat, calls: seq<Call>, k: Kind) returns (ret: bool, r: Args)
    requires 0 < at && at % SECTOR == 0 && at + 280 <= memory.Length < U32_RANGE
    requires Word(memory[..], at) != INFO_TLV_HEADER && Callable(calls) && DeclaredCalls(calls)
    modifies memory
    ensures ret == (Declared(k) && LastSaved(calls, k).Some?)
    ensures ret ==> |LastSaved(calls, k).value| == ItemLen(k) - HEAD && r == Split(k, LastSaved(calls, k).value)
  {
    var store := new Store(memory, at);
    var i := 0;
    assert calls[..0] == [];
    while i < |calls|
      invariant 0 <= i <= |calls| && store.flash == memory && store.start == at && fresh(store)
      invariant store.Valid() && store.items == ItemsAfter(calls[..i])
    {
      assert calls[..i + 1][..i] == calls[..i];
      CallsDeclared(calls[..i + 1]);
      TableSmall(ItemsAfter(calls[..i + 1]));
      var _ := store.Save(calls[i].kind, calls[i].args, true);
      i := i + 1;
    }
    assert calls[..i] == calls;
    SavesAreMap(calls, k);
    ret, r := store.Get(k, (true, true, true));
  }

  /** os_zalloc of room for `front` and `more` bytes, and the copy of `front`. */
  method ZeroedAfter(front: seq<byte>, more: nat) returns (buf: array<byte>)
    ensures fresh(buf) && buf[..] == front + Zeros(more) && (more == 0 ==> buf[..] == front)
  {
    buf := new byte[|front| + more](_ => 0);
    MemCpy(buf, 0, front);
  }

  /** bk_flash_erase and bk_flash_write of a whole table. */
  method Rewrite(flash: array<byte>, start: nat, data: seq<byte>)
    requires start % SECTOR == 0 && 0 < |data| && start + |data| <= flash.Length < U32_RANGE
    modifies flash
    ensures flash[..][start..start + |data|] == data
    ensures Untouched(old(flash[..]), flash[..], start, SectorsEnd(start, |data|))
  {
    EraseFront(flash, start, |data|);
    ghost var blank := flash[..];
    WriteFlash(flash, start, data);
    forall i | 0 <= i < |data|
      ensures flash[start + i] == data[i]
    {
      assert blank[start + i] == 255;
      assert flash[..][start + i] == Program(blank[start + i], data[i]);
    }
  }

  predicate SmallBody(items: seq<Item>) { HEAD + |Body(items)| < U32_RANGE }

  /** What the buffer of a save holds before the item is filled in. */
  function OldBuffer(items: seq<Item>, k: Kind): seq<byte>
    requires SmallBody(items)
  {
    if items == [] then [] + Zeros(HEAD + ItemLen(k))
    else if Find(items, k) < |items| then Table(items)
    else Table(items) + Zeros(ItemLen(k))
  }

  /** The buffer around the item's slot. */
  lemma {:induction false} OldBufferParts(items: seq<Item>, k: Kind) returns (head: seq<byte>, slot: seq<byte>)
    requires Formed(items) && SmallBody(items)
    ensures |head| == HEAD && Slot(k, slot)
    ensures var j := Find(items, k); OldBuffer(items, k) == head + Body(items[..j]) + slot + After(items, j)
  {
    var j := Find(items, k);
    head, slot := Zeros(HEAD), Zeros(ItemLen(k));
    if items != [] {
      head := HeadBytes(INFO_TLV_HEADER, |Body(items)|);
      if j < |items| {
        slot := ItemBytes(items[j]);
        SlotOfItem(items[j]);
        OldPart(items, j, head);
      } else {
        NewPart(items, k, head);
      }
    } else {
      BlankPart(k);
    }
  }

  lemma {:induction false} OldPart(items: seq<Item>, j: nat, head: seq<byte>)
    requires SmallBody(items) && j < |items| && head == HeadBytes(INFO_TLV_HEADER, |Body(items)|)
    ensures Table(items) == head + Body(items[..j]) + ItemBytes(items[j]) + After(items, j)
  {
    TableAround(items, j, head);
  }

  lemma {:induction false} NewPart(items: seq<Item>, k: Kind, head: seq<byte>)
    requires SmallBody(items) && items != [] && Find(items, k) == |items| && head == HeadBytes(INFO_TLV_HEADER, |Body(items)|)
    ensures OldBuffer(items, k) == head + Body(items[..|items|]) + Zeros(ItemLen(k)) + After(items, |items|)
  {
    assert items[..|items|] == items;
  }

  lemma {:induction false} BlankPart(k: Kind)
    ensures OldBuffer([], k) == Zeros(HEAD) + Body([]) + Zeros(ItemLen(k)) + After([], 0)
  {
  }

  /** Filling in the item and the table's head yields the updated table. */
  lemma {:induction false} AssembledTable(buf: seq<byte>, body: seq<byte>, head: seq<byte>, before: seq<byte>, slot: seq<byte>,
                                          after: seq<byte>, k: Kind, a: Args)
    requires |head| == HEAD && Enough(k, a) && Slot(k, slot)
    requires buf == head + before + slot + after && body == before + ItemBytes(Item(k, Padded(k, a))) + after
    requires HEAD + |body| < U32_RANGE
    ensures |buf| == HEAD + |body| && HEAD + |before| + ItemLen(k) <= |buf|
    ensures Finished(buf, HEAD + |before|, k, a) == HeadBytes(INFO_TLV_HEADER, |body|) + body
  {
    Assemble(head, before, slot, after, k, a);
  }

  lemma {:induction false} SlotOfItem(it: Item)
    requires Sized(it)
    ensures Slot(it.kind, ItemBytes(it))
  {
  }

  /** The end of the sectors that cover `n` bytes from `start`. */
  function SectorsEnd(start: nat, n: nat): nat
    requires n > 0
  {
    start + ((n - 1) / SECTOR + 1) * SECTOR
  }

  ghost predicate Untouched(before: seq<byte>, now: seq<byte>, start: nat, end: nat) {
    |now| == |before| && forall x :: 0 <= x < |now| && !(start <= x < end) ==> now[x] == before[x]
  }

  // ---------- the search on any flash contents ----------

  /** ddev_read of a word at an address, for flash of any contents. */
  type Reader = nat -> Word32

  /** The search loop ends at an address behind the table or at an item of this type. */
  predicate Stops(read: Reader, k: Kind, end: nat, addr: nat) { addr >= end || read(addr) == k }

  /** The address it goes on with, in 32 bits. */
  function Onward(read: Reader, addr: nat): nat { U32(addr + HEAD + read(U32(addr + 4))) }

  /** The address in round `n`. */
  function Visited(read: Reader, first: nat, n: nat): nat {
    if n == 0 then first else Onward(read, Visited(read, first, n - 1))
  }

  ghost predicate SearchEnds(read: Reader, k: Kind, first: nat, end: nat) {
    exists n: nat :: Stops(read, k, end, Visited(read, first, n))
  }

  /** Up to round `j` nothing stopped the search, and it is back where it was in round `i`. */
  ghost predicate Returns(read: Reader, k: Kind, first: nat, end: nat, i: nat, j: nat) {
    && i < j <= end && Visited(read, first, i) == Visited(read, first, j)
    && forall m :: 0 <= m <= j ==> !Stops(read, k, end, Visited(read, first, m))
  }

  /** On any flash contents the search of a table that ends at `end` runs for ever exactly
      when it comes back to an address within `end` rounds. */
  lemma {:induction false} SearchLoopsIff(read: Reader, k: Kind, first: nat, end: nat)
    ensures !SearchEnds(read, k, first, end) <==> exists i, j :: Returns(read, k, first, end, i, j)
  {
    if !SearchEnds(read, k, first, end) {
      forall n: nat
        ensures Visited(read, first, n) < end
      {
        assert !Stops(read, k, end, Visited(read, first, n));
      }
      var i, j := Repeats(n => Visited(read, first, n), end);
      assert Returns(read, k, first, end, i, j);
    }
    if exists i, j :: Returns(read, k, first, end, i, j) {
      var i, j :| Returns(read, k, first, end, i, j);
      forall n: nat
        ensures !Stops(read, k, end, Visited(read, first, n))
      {
        var m := Earlier(read, first, i, j, n);
      }
    }
  }

  /** After a return every address is one of the earlier ones. */
  lemma {:induction false} Earlier(read: Reader, first: nat, i: nat, j: nat, n: nat) returns (m: nat)
    requires i < j && Visited(read, first, i) == Visited(read, first, j)
    ensures m <= j && Visited(read, first, m) == Visited(read, first, n)
    decreases n
  {
    m := n;
    if n > j {
      var p := Earlier(read, first, i, j, n - 1);
      m := if p < j then p + 1 else i + 1;
    }
  }

  /** Among m + 1 numbers below m two are equal. */
  lemma {:induction false} Repeats(f: nat -> nat, m: nat) returns (i: nat, j: nat)
    requires forall n: nat :: n <= m ==> f(n) < m
    ensures i < j <= m && f(i) == f(j)
  {
    if forall x, y :: 0 <= x < y <= m ==> f(x) != f(y) {
      var seen := DistinctValues(f, m + 1);
      assert seen <= UpTo(m);
      Subset(seen, UpTo(m));
      assert false;
    } else {
      i, j :| 0 <= i < j <= m && f(i) == f(j);
    }
  }

  lemma {:induction false} DistinctValues(f: nat -> nat, n: nat) returns (s: set<int>)
    requires forall x, y :: 0 <= x < y < n ==> f(x) != f(y)
    ensures |s| == n && forall v :: v in s <==> exists x :: 0 <= x < n && f(x) == v
  {
    s := {};
    if n > 0 {
      var rest := DistinctValues(f, n - 1);
      assert f(n - 1) !in rest;
      s := rest + {f(n - 1)};
    }
  }

  function UpTo(m: nat): (s: set<int>)
    ensures |s| == m && forall x :: x in s <==> 0 <= x < m
  {
    if m == 0 then {} else UpTo(m - 1) + {m - 1}
  }

  lemma {:induction false} Subset(a: set<int>, b: set<int>)
    requires a <= b
    ensures |a| <= |b|
  {
    assert b == a + (b - a);
  }

  /** Such a table exists: an item of another type whose length is 2^32 - 8 leads the
      search back to itself. */
  lemma {:induction false} SearchSticks(read: Reader, k: Kind, first: nat, end: nat)
    requires first < end < U32_RANGE && read(first) != k && read(U32(first + 4)) == U32_RANGE - HEAD
    ensures !SearchEnds(read, k, first, end)
  {
    ModUnique(first + U32_RANGE, U32_RANGE, 1, first);
    assert Visited(read, first, 1) == Onward(read, Visited(read, first, 0)) == first;
    forall m | 0 <= m <= 1
      ensures !Stops(read, k, end, Visited(read, first, m))
    {
    }
    assert Returns(read, k, first, end, 0, 1);
    SearchLoopsIff(read, k, first, end);
  }

  // ---------- building the new table ----------

  lemma {:induction false} PatchTwice(buf: seq<byte>, at: nat, x: seq<byte>, y: seq<byte>)
    requires at + |x| + |y| <= |buf|
    ensures Patch(Patch(buf, at, x), at + |x|, y) == Patch(buf, at, x + y)
  {
  }

  lemma {:induction false} PatchInside(a: seq<byte>, b: seq<byte>, c: seq<byte>, at: nat, data: seq<byte>)
    requires at + |data| <= |b|
    ensures Patch(a + b + c, |a| + at, data) == a + Patch(b, at, data) + c
  {
  }

  lemma {:induction false} PatchFront(b: seq<byte>, c: seq<byte>, data: seq<byte>)
    requires |data| == |b|
    ensures Patch(b + c, 0, data) == data + c
  {
  }

  /** The item's bytes before a save: room for its head, then zeros where the padding goes. */
  predicate Slot(k: Kind, slot: seq<byte>) {
    |slot| == ItemLen(k) &&
    forall i :: HEAD + Takes(k).0 + Takes(k).1 + Takes(k).2 <= i < |slot| ==> slot[i] == 0
  }

  lemma {:induction false} FilledSlot(k: Kind, a: Args, slot: seq<byte>)
    requires Enough(k, a) && Slot(k, slot)
    ensures Patch(Patch(slot, HEAD, Copied(k, a)), 0, HeadBytes(k, ItemLen(k) - HEAD)) == ItemBytes(Item(k, Padded(k, a)))
  {
  }

  /** A buffer with the item and the table's head filled in. */
  function Finished(buf: seq<byte>, at: nat, k: Kind, a: Args): seq<byte>
    requires Enough(k, a) && at + ItemLen(k) <= |buf| && HEAD <= |buf| < U32_RANGE
  {
    Patch(Patch(Patch(buf, at + HEAD, Copied(k, a)), at, HeadBytes(k, ItemLen(k) - HEAD)),
          0, HeadBytes(INFO_TLV_HEADER, |buf| - HEAD))
  }

  /** The buffer a save writes, whatever stood in the table's head and in the slot. */
  lemma {:induction false} Assemble(head: seq<byte>, before: seq<byte>, slot: seq<byte>, after: seq<byte>, k: Kind, a: Args)
    requires |head| == HEAD && Enough(k, a) && Slot(k, slot) && |head + before + slot + after| < U32_RANGE
    ensures var n := |before| + ItemLen(k) + |after|;
            Finished(head + before + slot + after, HEAD + |before|, k, a)
            == HeadBytes(INFO_TLV_HEADER, n) + (before + ItemBytes(Item(k, Padded(k, a))) + after)
  {
    var n: Word32 := |before| + ItemLen(k) + |after|;
    var copied, ih := Copied(k, a), HeadBytes(k, ItemLen(k) - HEAD);
    PatchInside(head + before, slot, after, HEAD, copied);
    PatchInside(head + before, Patch(slot, HEAD, copied), after, 0, ih);
    FilledSlot(k, a, slot);
    var it := ItemBytes(Item(k, Padded(k, a)));
    Regroup3(head, before, it, after);
    PatchFront(head, before + it + after, HeadBytes(INFO_TLV_HEADER, n));
  }

  lemma {:induction false} Regroup3(a: seq<byte>, b: seq<byte>, c: seq<byte>, d: seq<byte>)
    ensures a + b + c + d == a + (b + c + d)
  {
  }

  /** The bytes behind item `j`. */
  function After(items: seq<Item>, j: nat): seq<byte> { if j < |items| then Body(items[j + 1..]) else [] }

  /** The table's items with `v` in the place of `k`. */
  function Around(items: seq<Item>, k: Kind, v: Value): seq<byte> {
    Body(items[..Find(items, k)]) + ItemBytes(Item(k, v)) + After(items, Find(items, k))
  }

  /** The table after a save of `k`, around its item. */
  lemma {:induction false} PutAround(items: seq<Item>, k: Kind, v: Value)
    ensures Body(Put(items, k, v)) == Around(items, k, v) && Put(items, k, v) != []
  {
    var j, r := Find(items, k), Put(items, k, v);
    BodyAround(r, j);
    assert r[..j] == items[..j];
    if j < |items| {
      assert r[j + 1..] == items[j + 1..];
    }
  }

  /** Only the position behind the last item is the end of the table. */
  lemma {:induction false} EndsAt(items: seq<Item>, j: nat)
    requires j <= |items|
    ensures |Body(items[..j])| <= |Body(items)|
    ensures |Body(items[..j])| == |Body(items)| <==> j == |items|
  {
    if j < |items| {
      BodyAround(items, j);
    } else {
      assert items[..j] == items;
    }
  }
}
