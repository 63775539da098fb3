/** The intrusive circular list: every operation relinks next and prev in place.
    A list is the sequence of its nodes, the head first. */
module List {

  class Node<T> {
    var next: Node?<T>
    var prev: Node?<T>
    var item: T

    /** A node that is not on any list yet. */
    constructor (value: T)
      ensures item == value && next == null && prev == null
    {
      item, next, prev := value, null, null;
    }
  }

  function Succ<T>(s: seq<Node<T>>, i: nat): Node<T>
    requires i < |s|
  {
    if i + 1 < |s| then s[i + 1] else s[0]
  }

  function Pred<T>(s: seq<Node<T>>, i: nat): Node<T>
    requires i < |s|
  {
    if i > 0 then s[i - 1] else s[|s| - 1]
  }

  predicate Distinct<T(==)>(s: seq<Node<T>>) { forall i, j :: 0 <= i < j < |s| ==> s[i] != s[j] }

  ghost predicate Linked<T>(s: seq<Node<T>>, i: nat)
    requires i < |s|
    reads s[i]
  {
    s[i].next == Succ(s, i) && s[i].prev == Pred(s, i)
  }

  /** The nodes form one ring on which next and prev are inverse to each other. */
  ghost predicate Ring<T>(s: seq<Node<T>>)
    reads set i | 0 <= i < |s| :: s[i]
  {
    |s| > 0 && Distinct(s) && forall i :: 0 <= i < |s| ==> Linked(s, i)
  }

  /** Following next and then prev leads back, and so does the other order. */
  lemma RingInverse<T>(s: seq<Node<T>>, i: nat)
    requires Ring(s) && i < |s|
    ensures s[i].next != null && s[i].next.prev == s[i]
    ensures s[i].prev != null && s[i].prev.next == s[i]
  {
    assert Linked(s, i);
    assert Linked(s, if i + 1 < |s| then i + 1 else 0);
    assert Linked(s, if i > 0 then i - 1 else |s| - 1);
  }

  /** INIT_LIST_HEAD. */
  method InitHead<T>(head: Node<T>)
    modifies head`next, head`prev
    ensures Ring([head])
  {
    head.next, head.prev := head, head;
  }

  function Inserted<T>(s: seq<Node<T>>, i: nat, n: Node<T>): seq<Node<T>>
    requires i < |s|
  {
    s[..i + 1] + [n] + s[i + 1..]
  }

  function Removed<T>(s: seq<Node<T>>, i: nat): seq<Node<T>>
    requires i < |s|
  {
    s[..i] + s[i + 1..]
  }

  /** __list_add: `n` goes between two consecutive nodes. */
  method Link<T>(n: Node<T>, prev: Node<T>, next: Node<T>, ghost s: seq<Node<T>>, ghost i: nat)
    requires Ring(s) && i < |s| && prev == s[i] && next == Succ(s, i) && n !in s
    modifies n`next, n`prev, prev`next, next`prev
    ensures Ring(Inserted(s, i, n))
  {
    next.prev := n;
    n.next := next;
    n.prev := prev;
    prev.next := n;
    ghost var r := Inserted(s, i, n);
    forall k | 0 <= k < |r|
      ensures Linked(r, k)
    {
      if k <= i {
        assert old(Linked(s, k));
      } else if k > i + 1 {
        assert old(Linked(s, k - 1));
      }
    }
  }

  /** __list_del of the node at position `i`; its own links stay as they were. */
  method Unlink<T>(prev: Node<T>, next: Node<T>, ghost s: seq<Node<T>>, ghost i: nat)
    requires Ring(s) && |s| > 1 && i < |s| && prev == Pred(s, i) && next == Succ(s, i)
    modifies prev`next, next`prev
    ensures Ring(Removed(s, i))
  {
    next.prev := prev;
    prev.next := next;
    ghost var r := Removed(s, i);
    forall k | 0 <= k < |r|
      ensures Linked(r, k)
    {
      assert old(Linked(s, if k < i then k else k + 1));
    }
  }

  /** list_add_head. */
  method AddHead<T>(n: Node<T>, head: Node<T>, ghost s: seq<Node<T>>)
    requires Ring(s) && s[0] == head && n !in s
    modifies n`next, n`prev, s`next, s`prev
    ensures Ring([head, n] + s[1..])
  {
    assert Linked(s, 0);
    Link(n, head, head.next, s, 0);
    assert Inserted(s, 0, n) == [head, n] + s[1..];
  }

  /** list_add_tail. */
  method AddTail<T>(n: Node<T>, head: Node<T>, ghost s: seq<Node<T>>)
    requires Ring(s) && s[0] == head && n !in s
    modifies n`next, n`prev, s`next, s`prev
    ensures Ring(s + [n])
  {
    assert Linked(s, 0);
    Link(n, head.prev, head, s, |s| - 1);
    assert Inserted(s, |s| - 1, n) == s + [n];
  }

  /** list_del. */
  method Del<T>(entry: Node<T>, ghost s: seq<Node<T>>, ghost i: nat)
    requires Ring(s) && 0 < i < |s| && entry == s[i]
    modifies s`next, s`prev
    ensures Ring(Removed(s, i)) && entry.next == old(entry.next) && entry.prev == old(entry.prev)
  {
    assert Linked(s, i);
    Unlink(entry.prev, entry.next, s, i);
  }

  /** list_del_init: the entry becomes an empty list of its own. */
  method DelInit<T>(entry: Node<T>, ghost s: seq<Node<T>>, ghost i: nat)
    requires Ring(s) && 0 < i < |s| && entry == s[i]
    modifies s`next, s`prev
    ensures Ring(Removed(s, i)) && Ring([entry])
  {
    Del(entry, s, i);
    ghost var r := Removed(s, i);
    assert entry !in r;
    InitHead(entry);
    assert Distinct(r) && forall k :: 0 <= k < |r| ==> Linked(r, k);
  }

  predicate Apart<T(==)>(s: seq<Node<T>>, t: seq<Node<T>>) { forall i, j :: 0 <= i < |s| && 0 <= j < |t| ==> s[i] != t[j] }

  /** The target of a move: another list, or the same list without the entry. */
  ghost predicate Target<T>(s: seq<Node<T>>, i: nat, t: seq<Node<T>>)
    requires i < |s|
    reads s, t
  {
    t == Removed(s, i) || (Ring(t) && Apart(s, t))
  }

  /** list_move: from its place to the front of a list, possibly its own. */
  method Move<T>(entry: Node<T>, head: Node<T>, ghost s: seq<Node<T>>, ghost i: nat, ghost t: seq<Node<T>>)
    requires Ring(s) && 0 < i < |s| && entry == s[i] && Target(s, i, t) && |t| > 0 && t[0] == head
    modifies s`next, s`prev, t`next, t`prev
    ensures Ring([head, entry] + t[1..])
    ensures t != Removed(s, i) ==> Ring(Removed(s, i))
  {
    Del(entry, s, i);
    assert entry !in t;
    AddHead(entry, head, t);
    if t != Removed(s, i) {
      assert forall k :: 0 <= k < |Removed(s, i)| ==> Linked(Removed(s, i), k);
    }
  }

  /** list_move_tail. */
  method MoveTail<T>(entry: Node<T>, head: Node<T>, ghost s: seq<Node<T>>, ghost i: nat, ghost t: seq<Node<T>>)
    requires Ring(s) && 0 < i < |s| && entry == s[i] && Target(s, i, t) && |t| > 0 && t[0] == head
    modifies s`next, s`prev, t`next, t`prev
    ensures Ring(t + [entry])
    ensures t != Removed(s, i) ==> Ring(Removed(s, i))
  {
    Del(entry, s, i);
    assert entry !in t;
    AddTail(entry, head, t);
    if t != Removed(s, i) {
      assert forall k :: 0 <= k < |Removed(s, i)| ==> Linked(Removed(s, i), k);
    }
  }

  /** list_empty. */
  method IsEmpty<T>(head: Node<T>, ghost s: seq<Node<T>>) returns (empty: bool)
    requires Ring(s) && s[0] == head
    ensures empty <==> s == [head]
  {
    assert Linked(s, 0);
    empty := head.next == head;
  }

  function Joined<T>(s: seq<Node<T>>, t: seq<Node<T>>): seq<Node<T>>
    requires |t| > 0 && |s| > 0
  {
    [t[0]] + s[1..] + t[1..]
  }

  /** __list_splice: the entries of one list go right behind the head of another. */
  method SpliceNonEmpty<T>(list: Node<T>, head: Node<T>, ghost s: seq<Node<T>>, ghost t: seq<Node<T>>)
    requires Ring(s) && s[0] == list && |s| > 1 && Ring(t) && t[0] == head && Apart(s, t)
    modifies s`next, s`prev, t`next, t`prev
    ensures Ring(Joined(s, t))
  {
    assert Linked(s, 0) && Linked(t, 0);
    var first, last, at := list.next, list.prev, head.next;
    first.prev := head;
    head.next := first;
    last.next := at;
    at.prev := last;
    ghost var r := Joined(s, t);
    forall k | 0 <= k < |r|
      ensures Linked(r, k)
    {
      if k == 0 {
        assert old(Linked(t, 0));
      } else if k < |s| {
        assert old(Linked(s, k));
      } else {
        assert old(Linked(t, k - |s| + 1));
      }
    }
  }

  /** list_splice. */
  method Splice<T>(list: Node<T>, head: Node<T>, ghost s: seq<Node<T>>, ghost t: seq<Node<T>>)
    requires Ring(s) && s[0] == list && Ring(t) && t[0] == head && Apart(s, t)
    modifies s`next, s`prev, t`next, t`prev
    ensures Ring(Joined(s, t))
  {
    var empty := IsEmpty(list, s);
    if !empty {
      SpliceNonEmpty(list, head, s, t);
    } else {
      assert Joined(s, t) == t;
    }
  }

  /** list_splice_init: the emptied list is a list again. */
  method SpliceInit<T>(list: Node<T>, head: Node<T>, ghost s: seq<Node<T>>, ghost t: seq<Node<T>>)
    requires Ring(s) && s[0] == list && Ring(t) && t[0] == head && Apart(s, t)
    modifies s`next, s`prev, t`next, t`prev
    ensures Ring(Joined(s, t)) && Ring([list])
  {
    var empty := IsEmpty(list, s);
    if !empty {
      SpliceNonEmpty(list, head, s, t);
      ghost var r := Joined(s, t);
      assert list !in r;
      InitHead(list);
      assert forall k :: 0 <= k < |r| ==> Linked(r, k);
    } else {
      assert Joined(s, t) == t;
    }
  }

  /** list_size. */
  method Size<T>(list: Node<T>, ghost s: seq<Node<T>>) returns (n: nat)
    requires Ring(s) && s[0] == list
    ensures n == |s| - 1
  {
    n := 0;
    assert Linked(s, 0);
    var pos := list.next;
    var after := pos.next;
    while pos != list
      invariant 0 <= n < |s| && pos == Succ(s, n) && (n + 1 == |s| <==> pos == list)
      invariant after == pos.next
      decreases |s| - n
    {
      n := n + 1;
      assert Linked(s, n);
      pos := after;
      after := pos.next;
    }
  }
}
