/** The peer table of bk_aware: a circular list of peers with distinct addresses that
    acts as a finite map from addresses to peer information. */
module Peers {
  import opened List
  import opened Options

  /** The number of BK_ERR_BK_AWARE_NOT_INIT, and of success. */
  const NOT_INIT: nat := 101
  const BK_OK: nat := 0

  datatype Code = Ok | NotInit | NoMem | NotFound | Exists

  /** A peer's address and everything else that is stored about it. */
  datatype Info = Info(addr: seq<int>, rest: seq<int>)

  // ---------- the table as a sequence and as a map ----------

  function Find(ps: seq<Info>, addr: seq<int>): (i: nat)
    ensures i <= |ps|
    ensures i < |ps| ==> ps[i].addr == addr
    ensures forall j :: 0 <= j < i ==> ps[j].addr != addr
  {
    if ps == [] then 0 else if ps[0].addr == addr then 0 else 1 + Find(ps[1..], addr)
  }

  function Lookup(ps: seq<Info>, addr: seq<int>): Option<Info> {
    var i := Find(ps, addr);
    if i < |ps| then Some(ps[i]) else None
  }

  predicate DistinctAddrs(ps: seq<Info>) { forall i, j :: 0 <= i < j < |ps| ==> ps[i].addr != ps[j].addr }

  datatype Op = Add(info: Info) | Del(addr: seq<int>) | Mod(info: Info)

  /** What an operation that does not run out of memory does to the sequence, and its result. */
  function Apply(ps: seq<Info>, op: Op): (seq<Info>, Code) {
    match op
    case Add(p) => if Find(ps, p.addr) < |ps| then (ps, Exists) else (ps + [p], Ok)
    case Del(a) =>
      var i := Find(ps, a);
      if i < |ps| then (ps[..i] + ps[i + 1..], Ok) else (ps, NotFound)
    case Mod(p) =>
      var i := Find(ps, p.addr);
      (if i < |ps| then ps[i := p] else ps, Ok)
  }

  function After(ops: seq<Op>): seq<Info> {
    if ops == [] then [] else Apply(After(ops[..|ops| - 1]), ops[|ops| - 1]).0
  }

  /** The same history on a map: add inserts a new key, mod overwrites an existing one. */
  function MapAfter(ops: seq<Op>): map<seq<int>, Info> {
    if ops == [] then map[] else MapStep(MapAfter(ops[..|ops| - 1]), ops[|ops| - 1])
  }

  ghost predicate Represents(ps: seq<Info>, m: map<seq<int>, Info>) {
    forall a :: Lookup(ps, a) == if a in m then Some(m[a]) else None
  }

  lemma {:induction false} FindIs(ps: seq<Info>, addr: seq<int>, i: nat)
    requires i <= |ps| && (i < |ps| ==> ps[i].addr == addr) && forall j :: 0 <= j < i ==> ps[j].addr != addr
    ensures Find(ps, addr) == i
  {
    var f := Find(ps, addr);
  }

  lemma {:induction false} AddLookup(ps: seq<Info>, p: Info, a: seq<int>)
    requires Find(ps, p.addr) == |ps|
    ensures Lookup(ps + [p], a) == if a == p.addr then Some(p) else Lookup(ps, a)
  {
    var f := Find(ps, a);
    if a == p.addr || f < |ps| {
      FindIs(ps + [p], a, f);
    } else {
      FindIs(ps + [p], a, |ps| + 1);
    }
  }

  lemma {:induction false} DelLookup(ps: seq<Info>, i: nat, a: seq<int>)
    requires DistinctAddrs(ps) && i < |ps|
    ensures Lookup(ps[..i] + ps[i + 1..], a) == if a == ps[i].addr then None else Lookup(ps, a)
  {
    var r, f := ps[..i] + ps[i + 1..], Find(ps, a);
    assert forall j :: 0 <= j < |r| ==> r[j] == if j < i then ps[j] else ps[j + 1];
    if a == ps[i].addr {
      FindIs(ps, a, i);
      FindIs(r, a, |r|);
    } else {
      FindIs(r, a, if f < i then f else f - 1);
    }
  }

  lemma {:induction false} ModLookup(ps: seq<Info>, p: Info, i: nat, a: seq<int>)
    requires i == Find(ps, p.addr) && i < |ps|
    ensures Lookup(ps[i := p], a) == if a == p.addr then Some(p) else Lookup(ps, a)
  {
    FindIs(ps[i := p], a, Find(ps, a));
  }

  /** Every operation keeps the addresses distinct and acts on the map. */
  lemma {:induction false} HistoryIsMap(ops: seq<Op>)
    ensures DistinctAddrs(After(ops)) && Represents(After(ops), MapAfter(ops))
  {
    if ops != [] {
      var rest := ops[..|ops| - 1];
      HistoryIsMap(rest);
      StepIsMap(After(rest), MapAfter(rest), ops[|ops| - 1]);
    }
  }

  /** One operation on a map. */
  function MapStep(m: map<seq<int>, Info>, op: Op): map<seq<int>, Info> {
    match op
    case Add(p) => if p.addr in m then m else m[p.addr := p]
    case Del(a) => m - {a}
    case Mod(p) => if p.addr in m then m[p.addr := p] else m
  }

  lemma {:induction false} StepIsMap(ps: seq<Info>, m: map<seq<int>, Info>, op: Op)
    requires DistinctAddrs(ps) && Represents(ps, m)
    ensures DistinctAddrs(Apply(ps, op).0) && Represents(Apply(ps, op).0, MapStep(m, op))
  {
    forall a
      ensures Lookup(Apply(ps, op).0, a) == if a in MapStep(m, op) then Some(MapStep(m, op)[a]) else None
    {
      StepAt(ps, m, op, a);
    }
  }

  lemma {:induction false} StepAt(ps: seq<Info>, m: map<seq<int>, Info>, op: Op, a: seq<int>)
    requires DistinctAddrs(ps) && Represents(ps, m)
    ensures Lookup(Apply(ps, op).0, a) == if a in MapStep(m, op) then Some(MapStep(m, op)[a]) else None
  {
    var key := if op.Del? then op.addr else op.info.addr;
    assert Lookup(ps, key).Some? <==> key in m;
    assert Lookup(ps, a) == if a in m then Some(m[a]) else None;
    ApplyLookup(ps, op, key, a);
  }

  /** What one operation does to each address. */
  lemma {:induction false} ApplyLookup(ps: seq<Info>, op: Op, key: seq<int>, a: seq<int>)
    requires DistinctAddrs(ps) && key == if op.Del? then op.addr else op.info.addr
    ensures Lookup(Apply(ps, op).0, a) ==
      if a != key then Lookup(ps, a)
      else if op.Del? then None
      else if op.Add? == Lookup(ps, key).Some? then Lookup(ps, a)
      else Some(op.info)
  {
    var i := Find(ps, key);
    match op
    case Add(p) => if i == |ps| { AddLookup(ps, p, a); }
    case Del(_) => if i < |ps| { DelLookup(ps, i, a); }
    case Mod(p) => if i < |ps| { ModLookup(ps, p, i, a); }
  }

  // ---------- the code ----------

  /** The peers in list order. */
  ghost function Items(ring: seq<Node<Info>>): (ps: seq<Info>)
    reads ring
    requires |ring| > 0
    ensures |ps| == |ring| - 1
    ensures forall i :: 0 <= i < |ps| ==> ps[i] == ring[i + 1].item
  {
    seq(|ring| - 1, i requires 0 <= i < |ring| - 1 reads ring => ring[i + 1].item)
  }

  lemma {:induction false} FewerDistinct(ps: seq<Info>, i: nat)
    requires DistinctAddrs(ps) && i < |ps|
    ensures DistinctAddrs(ps[..i] + ps[i + 1..])
  {
  }

  lemma {:induction false} SameDistinct(ps: seq<Info>, p: Info, i: nat)
    requires DistinctAddrs(ps) && i < |ps| && p.addr == ps[i].addr
    ensures DistinctAddrs(ps[i := p])
  {
  }

  lemma {:induction false} TailNodes(all: seq<Node<Info>>, k: nat)
    requires 0 < k <= |all|
    ensures forall n :: n in [all[0]] + all[k..] ==> n in all
    ensures k < |all| ==> Removed([all[0]] + all[k..], 1) == [all[0]] + all[k + 1..] && all[1..k] + [all[k]] == all[1..k + 1]
  {
  }

  /** A node that leaves the ring is not on it any more, nor among those freed before. */
  lemma {:induction false} NodeGone(ring: seq<Node<Info>>, freed: seq<Node<Info>>, i: nat)
    requires Distinct(ring) && Distinct(freed) && Apart(freed, ring) && i < |ring|
    ensures Distinct(freed + [ring[i]]) && Apart(freed + [ring[i]], Removed(ring, i))
  {
  }

  class Table {
    const head: Node<Info>
    var inited: bool
    ghost var ring: seq<Node<Info>>
    ghost var freed: seq<Node<Info>>

    ghost function Contents(): (ps: seq<Info>)
      reads this, ring
      requires |ring| > 0
      ensures |ps| == |ring| - 1
    {
      Items(ring)
    }

    ghost predicate Valid()
      reads this, ring
    {
      && Ring(ring) && ring[0] == head
      && DistinctAddrs(Contents())
      && Distinct(freed) && Apart(freed, ring)
    }

    /** bk_aware_init. */
    constructor (unused: Info)
      ensures Valid() && inited && Contents() == [] && freed == [] && fresh(ring)
    {
      head := new Node(unused);
      inited, freed := true, [];
      new;
      InitHead(head);
      ring := [head];
    }

    /** The loop that every operation runs: the first node with this address, or the head. */
    method Search(addr: seq<int>) returns (pos: Node<Info>, ghost i: nat)
      requires Valid()
      ensures i == Find(Contents(), addr)
      ensures pos == if i < |Contents()| then ring[i + 1] else head
    {
      assert Linked(ring, 0);
      pos, i := head.next, 0;
      while pos != head
        invariant i < |ring| && pos == Succ(ring, i) && (i + 1 == |ring| <==> pos == head)
        invariant i <= Find(Contents(), addr)
        decreases |ring| - i
      {
        assert pos.item == Contents()[i];
        if pos.item.addr == addr {
          return;
        }
        i := i + 1;
        assert Linked(ring, i);
        pos := pos.next;
      }
    }

    /** bk_aware_is_peer_exist; like the original it does not ask whether the table is in use. */
    method IsExist(addr: seq<int>) returns (r: bool)
      requires Valid()
      ensures r == Lookup(Contents(), addr).Some?
    {
      var pos, i := Search(addr);
      assert i < |Contents()| ==> ring[i + 1] != ring[0];
      r := pos != head;
    }

    /** bk_aware_add_peer; `memory` says whether the allocations succeed. */
    method AddPeer(p: Info, memory: bool) returns (code: Code)
      requires Valid()
      modifies this`ring, ring
      ensures Valid() && inited == old(inited) && freed == old(freed)
      ensures memory ==> (Contents(), code) == Apply(old(Contents()), Add(p))
      ensures !memory ==> Contents() == old(Contents()) && code == if Lookup(old(Contents()), p.addr).Some? then Exists else NoMem
      ensures forall n :: n in ring ==> n in old(ring) || fresh(n)
    {
      var found := IsExist(p.addr);
      if found {
        return Exists;
      }
      if !memory {
        return NoMem;
      }
      var n := new Node(p);
      ghost var before := Contents();
      AddTail(n, head, ring);
      ring := ring + [n];
      assert Contents() == before + [p];
      code := Ok;
    }

    /** bk_aware_del_peer: the node is unlinked and freed. */
    method DelPeer(addr: seq<int>) returns (code: Code)
      requires Valid()
      modifies this`ring, this`freed, ring
      ensures Valid() && inited == old(inited)
      ensures !inited ==> code == NotInit && Contents() == old(Contents()) && freed == old(freed)
      ensures inited ==> (Contents(), code) == Apply(old(Contents()), Del(addr))
      ensures inited && code == Ok ==> freed == old(freed) + [old(ring)[Find(old(Contents()), addr) + 1]]
      ensures code != Ok ==> freed == old(freed)
      ensures forall n :: n in ring ==> n in old(ring)
    {
      if !inited {
        return NotInit;
      }
      var pos, i := Search(addr);
      assert i < |Contents()| ==> ring[i + 1] != ring[0];
      if pos == head {
        return NotFound;
      }
      Remove(pos, i);
      code := Ok;
    }

    /** list_del and os_free of one node. */
    method Remove(pos: Node<Info>, ghost i: nat)
      requires Valid() && i < |Contents()| && pos == ring[i + 1]
      modifies this`ring, this`freed, ring
      ensures Valid() && pos.next == old(pos.next)
      ensures ring == Removed(old(ring), i + 1) && freed == old(freed) + [pos]
      ensures Contents() == old(Contents())[..i] + old(Contents())[i + 1..]
    {
      ghost var before, was := Contents(), ring;
      List.Del(pos, ring, i + 1);
      NodeGone(was, freed, i + 1);
      ring, freed := Removed(ring, i + 1), freed + [pos];
      assert Contents() == before[..i] + before[i + 1..];
      FewerDistinct(before, i);
    }

    /** bk_aware_mod_peer: answers OK whether or not the peer is there. */
    method ModPeer(p: Info) returns (code: Code)
      requires Valid()
      modifies ring
      ensures Valid()
      ensures !inited ==> code == NotInit && Contents() == old(Contents())
      ensures inited ==> (Contents(), code) == Apply(old(Contents()), Mod(p))
    {
      if !inited {
        return NotInit;
      }
      var pos, i := Search(p.addr);
      assert i < |Contents()| ==> ring[i + 1] != ring[0];
      if pos != head {
        Overwrite(pos, p, i);
      }
      code := Ok;
    }

    method Overwrite(pos: Node<Info>, p: Info, ghost i: nat)
      requires Valid() && i == Find(Contents(), p.addr) && i < |Contents()| && pos == ring[i + 1]
      modifies pos`item
      ensures Valid() && Contents() == old(Contents())[i := p]
    {
      ghost var before := Contents();
      pos.item := p;
      forall k | 0 <= k < |ring|
        ensures Linked(ring, k)
      {
        assert old(Linked(ring, k));
      }
      forall k | 0 <= k < |before|
        ensures Contents()[k] == before[i := p][k]
      {
        assert k != i ==> ring[k + 1] != ring[i + 1];
      }
      assert Contents() == before[i := p];
      SameDistinct(before, p, i);
    }

    /** bk_aware_get_peer. */
    method GetPeer(addr: seq<int>) returns (code: Code, p: Option<Info>)
      requires Valid()
      ensures !inited ==> code == NotInit && p == None
      ensures inited ==> p == Lookup(Contents(), addr) && code == if p.Some? then Ok else NotFound
    {
      if !inited {
        return NotInit, None;
      }
      var pos, i := Search(addr);
      assert i < |Contents()| ==> ring[i + 1] != ring[0];
      if pos == head {
        return NotFound, None;
      }
      return Ok, Some(pos.item);
    }

    /** bk_aware_get_peer_num: the count is stored in the caller's structure and returned
        as the result code as well; `total0` is what the structure held. */
    method PeerNum(total0: nat) returns (ret: nat, total: nat)
      requires Valid()
      ensures if inited then ret == total == |Contents()| else ret == NOT_INIT && total == total0
    {
      if !inited {
        return NOT_INIT, total0;
      }
      total := Size(head, ring);
      ret := total;
    }

    /** bk_aware_deinit: every node of the table is freed, once and in order. */
    method Deinit()
      requires Valid()
      modifies this`ring, this`freed, this`inited, ring
      ensures Valid() && !inited
      ensures old(inited) ==> Contents() == [] && freed == old(freed) + old(ring)[1..]
      ensures !old(inited) ==> freed == old(freed) && ring == old(ring)
    {
      if !inited {
        return;
      }
      ghost var all, k: nat, before := ring, 1, freed;
      assert Linked(ring, 0);
      var pos := head.next;
      while pos != head
        invariant 1 <= k <= |all| && ring == [all[0]] + all[k..] && Valid()
        invariant freed == before + all[1..k]
        invariant pos == Succ(ring, 0)
        decreases |all| - k
      {
        assert Linked(ring, 1) && pos == all[k];
        var after := pos.next;
        TailNodes(all, k);
        Remove(pos, 0);
        k := k + 1;
        pos := after;
      }
      inited := false;
    }
  }

  /** The answer to an operation, by what the map holds. */
  function Answer(m: map<seq<int>, Info>, op: Op): Code {
    match op
    case Add(p) => if p.addr in m then Exists else Ok
    case Del(a) => if a in m then Ok else NotFound
    case Mod(_) => Ok
  }

  /** The table holds as many peers as the map. */
  lemma {:induction false} CountIsMap(ops: seq<Op>)
    ensures |After(ops)| == |MapAfter(ops)|
  {
    if ops != [] {
      var n := |ops| - 1;
      CountIsMap(ops[..n]);
      HistoryIsMap(ops[..n]);
      StepAnswers(After(ops[..n]), MapAfter(ops[..n]), ops[n]);
    }
  }

  /** Every operation of a history answers by the map of what came before it. */
  lemma {:induction false} AnswersByMap(ops: seq<Op>, i: nat)
    requires i < |ops|
    ensures |Codes(ops)| == |ops| && Codes(ops)[i] == Answer(MapAfter(ops[..i]), ops[i])
    decreases |ops|
  {
    var n := |ops| - 1;
    CodesNext(ops);
    if i < n {
      AnswersByMap(ops[..n], i);
      assert ops[..n][..i] == ops[..i];
    } else {
      LastAnswer(ops);
    }
  }

  lemma {:induction false} LastAnswer(ops: seq<Op>)
    requires ops != []
    ensures var n := |ops| - 1; Apply(After(ops[..n]), ops[n]).1 == Answer(MapAfter(ops[..n]), ops[n])
  {
    var n := |ops| - 1;
    HistoryIsMap(ops[..n]);
    CountIsMap(ops[..n]);
    StepAnswers(After(ops[..n]), MapAfter(ops[..n]), ops[n]);
  }

  lemma {:induction false} CodesNext(ops: seq<Op>)
    requires ops != []
    ensures var n := |ops| - 1;
            |Codes(ops[..n])| == n && Codes(ops) == Codes(ops[..n]) + [Apply(After(ops[..n]), ops[n]).1]
  {
    if |ops| > 1 {
      CodesNext(ops[..|ops| - 1]);
    }
  }

  lemma {:induction false} StepAnswers(ps: seq<Info>, m: map<seq<int>, Info>, op: Op)
    requires Represents(ps, m) && |ps| == |m|
    ensures Apply(ps, op).1 == Answer(m, op) && |Apply(ps, op).0| == |MapStep(m, op)|
  {
    var key := if op.Del? then op.addr else op.info.addr;
    assert Lookup(ps, key).Some? <==> key in m;
    if op.Del? && key in m {
      assert m.Keys == (m - {key}).Keys + {key};
    }
  }

  /** What the operations of a history answered. */
  function Codes(ops: seq<Op>): seq<Code> {
    if ops == [] then [] else Codes(ops[..|ops| - 1]) + [Apply(After(ops[..|ops| - 1]), ops[|ops| - 1]).1]
  }

  /** Any history of add, delete and modify on a fresh table answers by the map of the
      history, every lookup then yields what that map holds, and the count is its size. */
  method RunAll(ops: seq<Op>, unused: Info, addr: seq<int>) returns (codes: seq<Code>, found: Option<Info>, n: nat)
    ensures codes == Codes(ops) && |codes| == |ops|
    ensures forall i {:trigger codes[i]} :: 0 <= i < |ops| ==> codes[i] == Answer(MapAfter(ops[..i]), ops[i])
    ensures found == if addr in MapAfter(ops) then Some(MapAfter(ops)[addr]) else None
    ensures n == |MapAfter(ops)| && (n == BK_OK <==> After(ops) == [])
  {
    var t := new Table(unused);
    codes := [];
    var i := 0;
    while i < |ops|
      invariant 0 <= i <= |ops| && fresh(t) && (forall j :: 0 <= j < |t.ring| ==> fresh(t.ring[j])) && t.Valid() && t.inited
      invariant t.Contents() == After(ops[..i]) && codes == Codes(ops[..i])
    {
      assert ops[..i + 1][..i] == ops[..i];
      var c := Perform(t, ops[i]);
      codes := codes + [c];
      i := i + 1;
    }
    assert ops[..i] == ops;
    HistoryIsMap(ops);
    CountIsMap(ops);
    forall i | 0 <= i < |ops|
      ensures |codes| == |ops| && codes[i] == Answer(MapAfter(ops[..i]), ops[i])
    {
      AnswersByMap(ops, i);
    }
    assert Lookup(After(ops), addr) == if addr in MapAfter(ops) then Some(MapAfter(ops)[addr]) else None;
    var _, p := t.GetPeer(addr);
    found := p;
    var ret, total := t.PeerNum(0);
    n := ret;
  }

  method Perform(t: Table, op: Op) returns (code: Code)
    requires t.Valid() && t.inited
    modifies t, t.ring
    ensures t.Valid() && t.inited && (t.Contents(), code) == Apply(old(t.Contents()), op)
    ensures forall j :: 0 <= j < |t.ring| ==> t.ring[j] in old(t.ring) || fresh(t.ring[j])
  {
    match op {
      case Add(p) => code := t.AddPeer(p, true);
      case Del(a) => code := t.DelPeer(a);
      case Mod(p) => code := t.ModPeer(p);
    }
  }
}
