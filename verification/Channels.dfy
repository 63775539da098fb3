/** Channel selection of airkiss: while all channels are scanned, those worth a second
    look are kept sorted in the front of the same array that still holds the channels
    not scanned yet. */
module Channels {

  const MAX_CHANNELS: nat := 14
  const MIN_DATA: nat := 4
  const MIN_BCN: nat := 1

  datatype Chan = Chan(bcn: nat, data: nat, channel: nat)

  /** What matters of a selected channel. */
  datatype Pick = Pick(channel: nat, data: nat)

  function PickOf(c: Chan): Pick { Pick(c.channel, c.data) }

  function Picks(s: seq<Chan>): (r: seq<Pick>)
    ensures |r| == |s|
  {
    seq(|s|, i requires 0 <= i < |s| => PickOf(s[i]))
  }

  predicate Passes(c: Chan) { c.data >= MIN_DATA && c.bcn >= MIN_BCN }

  /** The channels that pass both thresholds, in scan order. */
  function Passed(results: seq<Chan>): seq<Pick> {
    if results == [] then []
    else
      var c := results[|results| - 1];
      Passed(results[..|results| - 1]) + if Passes(c) then [PickOf(c)] else []
  }

  /** The first position whose count is lower, where a new pick goes. */
  function Position(s: seq<Pick>, data: nat): (i: nat)
    ensures i <= |s| && (i < |s| ==> s[i].data < data)
    ensures forall j :: 0 <= j < i ==> s[j].data >= data
  {
    if s == [] || s[0].data < data then 0 else 1 + Position(s[1..], data)
  }

  function Insert(s: seq<Pick>, p: Pick): seq<Pick> {
    s[..Position(s, p.data)] + [p] + s[Position(s, p.data)..]
  }

  /** airkiss_add_channel on the selected part: a channel found at its place with a
      lower count is updated there, otherwise the pick is inserted. */
  function Added(s: seq<Pick>, p: Pick): seq<Pick> {
    var i := Position(s, p.data);
    if i < |s| && s[i].channel == p.channel then s[i := p] else Insert(s, p)
  }

  /** The same for a channel that may not pass. */
  function Offered(s: seq<Pick>, c: Chan): seq<Pick> { if Passes(c) then Added(s, PickOf(c)) else s }

  function Selection(ps: seq<Pick>): seq<Pick> {
    if ps == [] then [] else Added(Selection(ps[..|ps| - 1]), ps[|ps| - 1])
  }

  // ---------- the selection is the stable descending sort ----------

  /** Higher counts first, and among equal counts the lower channel first. */
  predicate Before(a: Pick, b: Pick) { a.data > b.data || (a.data == b.data && a.channel < b.channel) }

  predicate Sorted(s: seq<Pick>) { forall i, j :: 0 <= i < j < |s| ==> Before(s[i], s[j]) }

  predicate Rising(ps: seq<Pick>) { forall i, j :: 0 <= i < j < |ps| ==> ps[i].channel < ps[j].channel }

  ghost predicate SameMembers(s: seq<Pick>, t: seq<Pick>) { |s| == |t| && forall p :: p in s <==> p in t }

  lemma {:induction false} InsertSorted(s: seq<Pick>, p: Pick)
    requires Sorted(s) && forall i :: 0 <= i < |s| ==> s[i].channel < p.channel
    ensures Added(s, p) == Insert(s, p) && Sorted(Insert(s, p))
  {
    var k, r := Position(s, p.data), Insert(s, p);
    forall i, j | 0 <= i < j < |r|
      ensures Before(r[i], r[j])
    {
      InsertAt(s, p, i);
      InsertAt(s, p, j);
    }
  }

  lemma {:induction false} InsertAt(s: seq<Pick>, p: Pick, j: nat)
    requires j <= |s|
    ensures var k := Position(s, p.data); Insert(s, p)[j] == if j < k then s[j] else if j == k then p else s[j - 1]
  {
  }

  lemma {:induction false} AddedAt(s: seq<Pick>, p: Pick, j: nat)
    requires j < |Added(s, p)|
    ensures var k := Position(s, p.data);
            Added(s, p)[j] == if j == k then p else if j < k || |Added(s, p)| == |s| then s[j] else s[j - 1]
  {
  }

  lemma {:induction false} AddedLength(s: seq<Pick>, p: Pick)
    ensures var k := Position(s, p.data); |Added(s, p)| == if k < |s| && s[k].channel == p.channel then |s| else |s| + 1
  {
  }

  /** A channel that stands at its place with a lower count is updated there; any other
      is inserted and the rest stays in order. */
  lemma {:induction false} AddedOnce(s: seq<Pick>, p: Pick)
    ensures var k := Position(s, p.data);
            if k < |s| && s[k].channel == p.channel then Added(s, p) == s[..k] + [p] + s[k + 1..]
            else Added(s, p) == s[..k] + [p] + s[k..]
  {
  }

  lemma {:induction false} InsertMembers(s: seq<Pick>, p: Pick)
    ensures |Insert(s, p)| == |s| + 1
    ensures forall q :: q in Insert(s, p) <==> q in s || q == p
  {
    var k := Position(s, p.data);
    assert s == s[..k] + s[k..];
  }

  /** Over channels in rising order the selection is sorted and has the same members,
      which determines it: it is the stable descending sort. */
  lemma {:induction false} SelectionSorts(ps: seq<Pick>)
    requires Rising(ps)
    ensures Sorted(Selection(ps)) && SameMembers(Selection(ps), ps)
  {
    if ps != [] {
      var rest, p := ps[..|ps| - 1], ps[|ps| - 1];
      SelectionSorts(rest);
      var s := Selection(rest);
      forall i | 0 <= i < |s|
        ensures s[i].channel < p.channel
      {
        assert s[i] in rest;
      }
      InsertSorted(s, p);
      InsertMembers(s, p);
      assert ps == rest + [p];
    }
  }

  /** A sorted sequence is determined by its members. */
  lemma {:induction false} SortedUnique(s: seq<Pick>, t: seq<Pick>)
    requires Sorted(s) && Sorted(t) && SameMembers(s, t)
    ensures s == t
  {
    if s != [] {
      FirstSame(s, t);
      var s', t' := s[1..], t[1..];
      forall p
        ensures p in s' <==> p in t'
      {
        RestMembers(s, p);
        RestMembers(t, p);
      }
      SortedUnique(s', t');
      assert s == [s[0]] + s' && t == [t[0]] + t';
    }
  }

  lemma {:induction false} FirstSame(s: seq<Pick>, t: seq<Pick>)
    requires Sorted(s) && Sorted(t) && SameMembers(s, t) && |s| > 0
    ensures s[0] == t[0]
  {
    assert s[0] in t && t[0] in s;
    var i :| 0 <= i < |t| && t[i] == s[0];
    var j :| 0 <= j < |s| && s[j] == t[0];
  }

  lemma {:induction false} RestMembers(s: seq<Pick>, p: Pick)
    requires Sorted(s) && |s| > 0
    ensures p in s[1..] <==> p in s && p != s[0]
  {
    if p in s && p != s[0] {
      var i :| 0 <= i < |s| && s[i] == p;
      assert s[1..][i - 1] == p;
    }
    if p in s[1..] {
      var i :| 0 <= i < |s| - 1 && s[1..][i] == p;
      assert s[i + 1] == p;
    }
  }

  /** One result for every channel, in order. */
  predicate InOrder(results: seq<Chan>) { forall i :: 0 <= i < |results| ==> results[i].channel == i + 1 }

  lemma {:induction false} PassedRises(results: seq<Chan>)
    requires InOrder(results)
    ensures Rising(Passed(results))
    ensures |Passed(results)| <= |results|
    ensures forall i :: 0 <= i < |Passed(results)| ==> Passed(results)[i].channel <= |results|
  {
    if results != [] {
      PassedRises(results[..|results| - 1]);
    }
  }

  /** A channel is selected exactly with at least four data packets and a beacon, with
      the count it had. */
  lemma {:induction false} SelectedIff(results: seq<Chan>, k: nat)
    requires InOrder(results) && k < |results|
    ensures Pick(k + 1, results[k].data) in Selection(Passed(results)) <==> results[k].data >= 4 && results[k].bcn >= 1
    ensures forall p :: p in Selection(Passed(results)) && p.channel == k + 1 ==> p.data == results[k].data
  {
    PassedRises(results);
    SelectionSorts(Passed(results));
    PassedIff(results, k);
  }

  lemma {:induction false} PassedIff(results: seq<Chan>, k: nat)
    requires InOrder(results) && k < |results|
    ensures Pick(k + 1, results[k].data) in Passed(results) <==> results[k].data >= 4 && results[k].bcn >= 1
    ensures forall p :: p in Passed(results) && p.channel == k + 1 ==> p.data == results[k].data
    decreases |results|
  {
    var n := |results| - 1;
    PassedRises(results[..n]);
    if k < n {
      PassedIff(results[..n], k);
    }
  }

  /** An array after an entry was put at its place in the selected part, and the rest of
      that part moved up unless the same channel stood there. */
  lemma {:induction false} PlacedPicks(before: seq<Chan>, n: nat, now: seq<Chan>, m: nat, c: Chan)
    requires n < |before| == |now| && m <= |now|
    requires var i := Position(Picks(before[..n]), c.data);
             && m == (if i < n && before[i].channel == c.channel then n else n + 1)
             && PickOf(now[i]) == PickOf(c)
             && forall j {:trigger now[j]} :: 0 <= j < m && j != i ==> now[j] == if m > n && j > i then before[j - 1] else before[j]
    ensures Picks(now[..m]) == Added(Picks(before[..n]), PickOf(c))
  {
    var s, r := Picks(before[..n]), Added(Picks(before[..n]), PickOf(c));
    AddedLength(s, PickOf(c));
    forall j | 0 <= j < m
      ensures PickOf(now[j]) == r[j]
    {
      AddedAt(s, PickOf(c), j);
    }
  }

  // ---------- the code ----------

  class Scanner {
    const chan: array<Chan>
    var cur: nat
    var sel: nat
    var selecting: bool
    ghost var results: seq<Chan>

    const all: nat := MAX_CHANNELS - 1

    /** The channels not scanned yet are all still in place. */
    ghost predicate Ahead()
      reads this, chan
      requires chan.Length == MAX_CHANNELS
    {
      && (forall j :: cur <= j < all ==> chan[j].channel == j + 1)
      && (forall j :: cur < j < all ==> chan[j].data == 0 && chan[j].bcn == 0)
    }

    ghost predicate Valid()
      reads this, chan
    {
      chan.Length == MAX_CHANNELS &&
      if selecting then cur < sel <= all
      else
        && sel <= cur < all && Ahead()
        && |results| == cur && InOrder(results) && Picks(chan[..sel]) == Selection(Passed(results))
    }

    constructor ()
      ensures Valid() && !selecting && cur == 0
    {
      chan := new Chan[MAX_CHANNELS](_ => Chan(0, 0, 0));
      cur, sel, selecting, results := 0, 0, false, [];
      new;
      Restart();
    }

    /** airkiss_set_scan_all_channel. */
    method Restart()
      requires chan.Length == MAX_CHANNELS
      modifies this, chan
      ensures Valid() && !selecting && cur == 0 && sel == 0
      ensures forall j :: 0 <= j < all ==> chan[j] == Chan(0, 0, j + 1)
    {
      var i := 0;
      while i < MAX_CHANNELS
        invariant 0 <= i <= MAX_CHANNELS
        invariant forall j :: 0 <= j < i ==> chan[j] == Chan(0, 0, if j < all then j + 1 else 0)
      {
        chan[i] := Chan(0, 0, if i < all then i + 1 else 0);
        i := i + 1;
      }
      cur, sel, selecting, results := 0, 0, false, [];
    }

    /** What airkiss_count_usefull_packet does to the current channel's counters. */
    method Count(beacon: bool)
      requires Valid()
      modifies chan
      ensures Valid() && forall j :: 0 <= j < MAX_CHANNELS && j != cur ==> chan[j] == old(chan[j])
      ensures chan[cur].channel == old(chan[cur].channel)
      ensures chan[cur].bcn == (if beacon then (old(chan[cur].bcn) + 1) % 256 else old(chan[cur].bcn))
      ensures chan[cur].data == (if beacon then old(chan[cur].data) else (old(chan[cur].data) + 1) % 256)
    {
      var c := chan[cur];
      ghost var front := chan[..sel];
      chan[cur] := if beacon then c.(bcn := (c.bcn + 1) % 256) else c.(data := (c.data + 1) % 256);
      assert !selecting ==> chan[..sel] == front;
    }

    /** airkiss_add_channel: only the selected part and the entry behind it change. */
    method AddChannel(c: Chan)
      requires chan.Length == MAX_CHANNELS && sel < MAX_CHANNELS
      modifies chan, this`sel
      ensures old(sel) <= sel <= old(sel) + 1
      ensures Picks(chan[..sel]) == Offered(old(Picks(chan[..sel])), c)
      ensures forall j :: old(sel) < j < MAX_CHANNELS ==> chan[j] == old(chan[j])
      ensures !Passes(c) ==> chan[..] == old(chan[..])
    {
      if c.data < MIN_DATA {
        return;
      }
      if c.bcn < MIN_BCN {
        return;
      }
      ghost var s := Picks(chan[..sel]);
      var i := 0;
      while i < sel && chan[i].data >= c.data
        invariant 0 <= i <= sel && i <= Position(s, c.data)
      {
        assert s[i] == PickOf(chan[i]);
        i := i + 1;
      }
      assert i < sel ==> s[i] == PickOf(chan[i]);
      Place(c, i);
    }

    /** The memmove of airkiss_add_channel. */
    method MoveUp(i: nat)
      requires chan.Length == MAX_CHANNELS && i <= sel < MAX_CHANNELS
      modifies chan
      ensures forall j :: 0 <= j < MAX_CHANNELS ==> chan[j] == if i < j <= sel then old(chan[j - 1]) else old(chan[j])
    {
      forall k | i <= k < sel {
        chan[k + 1] := chan[k];
      }
    }

    /** What is done at the place found: the rest moves up unless the same channel stands there. */
    method Place(c: Chan, i: nat)
      requires chan.Length == MAX_CHANNELS && i <= sel < MAX_CHANNELS
      requires i == Position(Picks(chan[..sel]), c.data)
      modifies chan, this`sel
      ensures old(sel) <= sel <= old(sel) + 1
      ensures Picks(chan[..sel]) == Added(old(Picks(chan[..sel])), PickOf(c))
      ensures forall j :: old(sel) < j < MAX_CHANNELS ==> chan[j] == old(chan[j])
    {
      ghost var before, n := chan[..], sel;
      assert before[..sel] == chan[..sel];
      if i == sel || chan[i].channel != c.channel {
        MoveUp(i);
        sel := sel + 1;
      }
      chan[i] := chan[i].(channel := c.channel, data := c.data);
      PlacedPicks(before, n, chan[..], sel, c);
      assert chan[..][..sel] == chan[..sel];
    }

    /** airkiss_switch_channel_callback: the channel to tune to next.  At the change to
        selected scanning the front of the array is the stable descending sort by count
        of the channels that passed, out of one result for each of the 13 channels. */
    method Switch() returns (channel: nat)
      requires Valid()
      modifies this, chan
      ensures Valid() && channel == chan[cur].channel
      ensures !old(selecting) && old(cur) + 1 < all ==>
        !selecting && cur == old(cur) + 1 && results == old(results) + [old(chan[cur])] && channel == cur + 1
      ensures !old(selecting) && selecting ==>
        && cur == 0 && |results| == all && results == old(results) + [old(chan[cur])]
        && Sorted(Picks(chan[..sel])) && SameMembers(Picks(chan[..sel]), Passed(results))
      ensures !old(selecting) && !selecting && cur == 0 ==> Passed(old(results) + [old(chan[cur])]) == []
      ensures old(selecting) && old(cur) + 1 < old(sel) ==>
        selecting && cur == old(cur) + 1 && sel == old(sel) && chan[..] == old(chan[..])
      ensures !selecting && cur == 0 ==> sel == 0 && forall j :: 0 <= j < all ==> chan[j] == Chan(0, 0, j + 1)
      ensures old(selecting) && old(cur) + 1 >= old(sel) ==> !selecting && cur == 0
    {
      if !selecting {
        FinishChannel();
        PassedRises(results);
        SelectionSorts(Passed(results));
        if cur >= all {
          cur := 0;
          if sel > 0 {
            selecting := true;
          } else {
            Restart();
          }
        }
      } else {
        cur := cur + 1;
        var _ := chan[cur].data;
        if cur >= sel {
          Restart();
        }
      }
      channel := chan[cur].channel;
    }

    /** The scanned channel is offered to the selection and the next one is current. */
    method FinishChannel()
      requires Valid() && !selecting
      modifies this, chan
      ensures chan.Length == MAX_CHANNELS && !selecting && cur == old(cur) + 1 && sel <= cur <= all && Ahead()
      ensures results == old(results) + [old(chan[cur])] && |results| == cur && InOrder(results)
      ensures Picks(chan[..sel]) == Selection(Passed(results))
    {
      var c := chan[cur];
      SelectionGrows(results, c);
      results := results + [c];
      AddChannel(c);
      cur := cur + 1;
    }
  }

  lemma {:induction false} SelectionGrows(results: seq<Chan>, c: Chan)
    ensures Selection(Passed(results + [c])) == Offered(Selection(Passed(results)), c)
  {
    var ps := Passed(results);
    assert (results + [c])[..|results|] == results;
    if Passes(c) {
      assert Passed(results + [c]) == ps + [PickOf(c)];
      assert (ps + [PickOf(c)])[..|ps|] == ps;
    } else {
      assert Passed(results + [c]) == ps;
    }
  }
}
