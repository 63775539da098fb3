/** The ping-pong buffer between one writer (the receive interrupt) and one reader
    (the airkiss thread), each preempted anywhere between its locked sections.

    Every locked section, every copied byte and every access to a shared field is a
    step of its own; `accepted` and `delivered` record what the two sides did. */
module PingPong {
  import opened Ring

  const BUF_LEN: nat := 24

  datatype Slot = Slot(bytes: seq<byte>, readable: bool, writable: bool, actual: nat)

  /** A side of the buffer: false for buf1, true for buf2. */
  datatype Slots = Slots(one: Slot, two: Slot) {
    function At(side: bool): Slot { if side then two else one }
    function With(side: bool, s: Slot): Slots { if side then this.(two := s) else this.(one := s) }
  }

  datatype Writer =
    | Idle
    | Testing(data: seq<byte>, actual: nat)
    | Copying(data: seq<byte>, actual: nat, i: nat)
    | Releasing(data: seq<byte>, actual: nat)

  datatype Reader =
    | Resting
    | Looking(count: nat)
    | Taking(len: nat, out: seq<byte>)
    | Freeing(out: seq<byte>, actual: nat)

  /** current_read or current_write, and its switch flag. */
  datatype Cursor = Cursor(side: bool, turn: bool)

  datatype Frame = Frame(data: seq<byte>, actual: nat)

  datatype State = State(
    slots: Slots, w: Cursor, r: Cursor, writer: Writer, reader: Reader,
    accepted: seq<Frame>, delivered: seq<Frame>)

  function Empty(bytes: seq<byte>): Slot { Slot(bytes, false, true, 0) }

  /** pingpong_init over memory with any contents. */
  function Init(m1: seq<byte>, m2: seq<byte>): State {
    State(Slots(Empty(m1), Empty(m2)), Cursor(false, false), Cursor(false, false), Idle, Resting, [], [])
  }

  datatype Action =
    | WriteCall(data: seq<byte>, actual: nat)
    | WriteStep
    | ReadCall(count: nat)
    | ReadStep

  /** Taking the pending turn at the head of a call. */
  function Turned(c: Cursor): Cursor { if c.turn then Cursor(!c.side, false) else c }

  function WriterStep(s: State): State {
    var slot := s.slots.At(s.w.side);
    match s.writer
    case Idle => s
    case Testing(data, actual) =>
      s.(writer := if slot.writable then Copying(data, actual, 0) else Idle)
    case Copying(data, actual, i) =>
      if i < Min(BUF_LEN, |data|) && i < |slot.bytes| then
        s.(slots := s.slots.With(s.w.side, slot.(bytes := slot.bytes[i := data[i]])), writer := Copying(data, actual, i + 1))
      else
        s.(slots := s.slots.With(s.w.side, slot.(actual := actual)), writer := Releasing(data, actual))
    case Releasing(data, actual) =>
      s.(slots := s.slots.With(s.w.side, slot.(readable := true, writable := false)),
         w := s.w.(turn := true), writer := Idle,
         accepted := s.accepted + [Frame(data[..Min(BUF_LEN, |data|)], actual)])
  }

  function ReaderStep(s: State): State {
    var slot := s.slots.At(s.r.side);
    match s.reader
    case Resting => s
    case Looking(count) =>
      s.(reader := if slot.readable then Taking(Min(count, BUF_LEN), []) else Resting)
    case Taking(len, out) =>
      if |out| < len && |out| < |slot.bytes| then s.(reader := Taking(len, out + [slot.bytes[|out|]]))
      else s.(reader := Freeing(out, slot.actual))
    case Freeing(out, actual) =>
      s.(slots := s.slots.With(s.r.side, slot.(readable := false, writable := true)),
         r := s.r.(turn := true), reader := Resting,
         delivered := s.delivered + [Frame(out, actual)])
  }

  function Next(s: State, a: Action): State {
    match a
    case WriteCall(data, actual) => if s.writer.Idle? then s.(w := Turned(s.w), writer := Testing(data, actual)) else s
    case WriteStep => WriterStep(s)
    case ReadCall(count) => if s.reader.Resting? then s.(r := Turned(s.r), reader := Looking(count)) else s
    case ReadStep => ReaderStep(s)
  }

  function Exec(m1: seq<byte>, m2: seq<byte>, acts: seq<Action>): State {
    if acts == [] then Init(m1, m2) else Next(Exec(m1, m2, acts[..|acts| - 1]), acts[|acts| - 1])
  }

  // ---------- the invariant ----------

  /** The side of the n-th frame. */
  function Side(n: nat): bool { n % 2 == 1 }

  /** The side the next call will use. */
  function Aim(c: Cursor): bool { Turned(c).side }

  function Held(s: State): int { |s.accepted| - |s.delivered| }

  predicate Waiting(s: State, side: bool) {
    || (Held(s) >= 1 && side == Side(|s.delivered|))
    || (Held(s) == 2 && side != Side(|s.delivered|))
  }

  predicate Flags(s: State, side: bool) {
    var slot := s.slots.At(side);
    |slot.bytes| == BUF_LEN && slot.readable == Waiting(s, side) && slot.writable == !slot.readable
  }

  /** A slot holds a frame; bytes behind a short frame are left over from earlier ones. */
  predicate Holds(slot: Slot, f: Frame) {
    slot.actual == f.actual && |f.data| <= |slot.bytes| && forall i :: 0 <= i < |f.data| ==> slot.bytes[i] == f.data[i]
  }

  predicate Cursors(s: State) {
    && Aim(s.w) == Side(|s.accepted|) && Aim(s.r) == Side(|s.delivered|)
    && (!s.writer.Idle? ==> !s.w.turn) && (!s.reader.Resting? ==> !s.r.turn)
  }

  predicate Contents(s: State) {
    forall n :: |s.delivered| <= n < |s.accepted| ==> Holds(s.slots.At(Side(n)), s.accepted[n])
  }

  predicate WriterOk(s: State) {
    var slot := s.slots.At(Side(|s.accepted|));
    match s.writer
    case Idle => true
    case Testing(_, _) => true
    case Copying(data, actual, i) =>
      && Held(s) < 2 && i <= Min(BUF_LEN, |data|)
      && forall j :: 0 <= j < i && j < |slot.bytes| ==> slot.bytes[j] == data[j]
    case Releasing(data, actual) =>
      && Held(s) < 2 && slot.actual == actual
      && forall j :: 0 <= j < Min(BUF_LEN, |data|) && j < |slot.bytes| ==> slot.bytes[j] == data[j]
  }

  predicate ReaderOk(s: State) {
    var slot := s.slots.At(Side(|s.delivered|));
    match s.reader
    case Resting => true
    case Looking(_) => true
    case Taking(len, out) => Held(s) > 0 && len <= BUF_LEN && |out| <= len && out <= slot.bytes
    case Freeing(out, actual) => Held(s) > 0 && |out| <= BUF_LEN && out <= slot.bytes && actual == slot.actual
  }

  /** What the reader got agrees with the frame as far as both reach. */
  predicate Agrees(f: Frame, got: Frame) {
    got.actual == f.actual && forall i :: 0 <= i < |f.data| && i < |got.data| ==> got.data[i] == f.data[i]
  }

  predicate InOrder(s: State) {
    forall n :: 0 <= n < |s.delivered| && n < |s.accepted| ==> Agrees(s.accepted[n], s.delivered[n])
  }

  predicate Inv(s: State) {
    && 0 <= Held(s) <= 2 && Cursors(s) && Flags(s, false) && Flags(s, true)
    && Contents(s) && WriterOk(s) && ReaderOk(s) && InOrder(s)
  }

  /** The writer's slot is not one that holds a frame. */
  lemma {:induction false} SidesApart(s: State)
    requires 0 <= Held(s) < 2
    ensures forall n :: |s.delivered| <= n < |s.accepted| ==> Side(n) != Side(|s.accepted|)
    ensures Held(s) == 1 ==> Side(|s.delivered|) != Side(|s.accepted|)
  {
  }

  lemma {:induction false} WriterTests(s: State)
    requires Inv(s) && s.writer.Testing?
    ensures Inv(WriterStep(s)) && (WriterStep(s).writer.Idle? <==> Held(s) == 2)
  {
    assert s.w.side == Side(|s.accepted|);
    assert Flags(s, s.w.side);
  }

  /** Changing the bytes or the length of the writer's slot disturbs nothing else. */
  lemma {:induction false} WriterSlot(s: State, slot: Slot)
    requires Inv(s) && (s.writer.Copying? || s.writer.Releasing?)
    requires slot.readable == s.slots.At(s.w.side).readable && slot.writable == s.slots.At(s.w.side).writable && |slot.bytes| == BUF_LEN
    ensures var t := s.(slots := s.slots.With(s.w.side, slot));
            Cursors(t) && Flags(t, false) && Flags(t, true) && Contents(t) && ReaderOk(t) && InOrder(t)
  {
    SidesApart(s);
  }

  lemma {:induction false} WriterCopies(s: State)
    requires Inv(s) && s.writer.Copying?
    ensures Inv(WriterStep(s))
  {
    var slot, data, i := s.slots.At(s.w.side), s.writer.data, s.writer.i;
    assert Flags(s, s.w.side);
    if i < Min(BUF_LEN, |data|) {
      WriterSlot(s, slot.(bytes := slot.bytes[i := data[i]]));
    } else {
      WriterSlot(s, slot.(actual := s.writer.actual));
    }
  }

  lemma {:induction false} WriterReleases(s: State)
    requires Inv(s) && s.writer.Releasing?
    ensures Inv(WriterStep(s))
  {
    var t, slot, n := WriterStep(s), s.slots.At(s.w.side), |s.accepted|;
    SidesApart(s);
    assert Flags(s, s.w.side);
    assert Holds(t.slots.At(Side(n)), t.accepted[n]);
    assert Side(n + 1) == !Side(n);
  }

  lemma {:induction false} ReaderLooks(s: State)
    requires Inv(s) && s.reader.Looking?
    ensures Inv(ReaderStep(s)) && (ReaderStep(s).reader.Resting? <==> Held(s) == 0)
  {
    assert Flags(s, s.r.side);
  }

  lemma {:induction false} ReaderTakes(s: State)
    requires Inv(s) && s.reader.Taking?
    ensures Inv(ReaderStep(s))
  {
    assert Flags(s, s.r.side);
  }

  lemma {:induction false} ReaderFrees(s: State)
    requires Inv(s) && s.reader.Freeing?
    ensures Inv(ReaderStep(s))
  {
    var t, d := ReaderStep(s), |s.delivered|;
    assert Flags(s, s.r.side);
    assert Holds(s.slots.At(Side(d)), s.accepted[d]);
    assert Agrees(s.accepted[d], t.delivered[d]);
    assert Side(d + 1) == !Side(d);
  }

  lemma {:induction false} NextKeeps(s: State, a: Action)
    requires Inv(s)
    ensures Inv(Next(s, a))
  {
    match a
    case WriteStep =>
      match s.writer {
        case Idle =>
        case Testing(_, _) => WriterTests(s);
        case Copying(_, _, _) => WriterCopies(s);
        case Releasing(_, _) => WriterReleases(s);
      }
    case ReadStep =>
      match s.reader {
        case Resting =>
        case Looking(_) => ReaderLooks(s);
        case Taking(_, _) => ReaderTakes(s);
        case Freeing(_, _) => ReaderFrees(s);
      }
    case _ =>
  }

  lemma {:induction false} Reachable(m1: seq<byte>, m2: seq<byte>, acts: seq<Action>)
    requires |m1| == |m2| == BUF_LEN
    ensures Inv(Exec(m1, m2, acts))
  {
    if acts != [] {
      Reachable(m1, m2, acts[..|acts| - 1]);
      NextKeeps(Exec(m1, m2, acts[..|acts| - 1]), acts[|acts| - 1]);
    }
  }

  // ---------- the theorems ----------

  /** In every interleaving at most two frames wait, and the n-th frame read is the
      n-th frame accepted, with its length. */
  lemma {:induction false} FirstInFirstOut(m1: seq<byte>, m2: seq<byte>, acts: seq<Action>)
    requires |m1| == |m2| == BUF_LEN
    ensures var s := Exec(m1, m2, acts);
            && |s.delivered| <= |s.accepted| <= |s.delivered| + 2
            && forall n :: 0 <= n < |s.delivered| ==> Agrees(s.accepted[n], s.delivered[n])
  {
    Reachable(m1, m2, acts);
  }

  /** A write is refused exactly when both slots are unreleased, a read finds nothing
      exactly when every accepted frame was delivered. */
  lemma {:induction false} RefusedOnlyWhenFull(m1: seq<byte>, m2: seq<byte>, acts: seq<Action>)
    requires |m1| == |m2| == BUF_LEN
    ensures var s := Exec(m1, m2, acts);
            && (s.writer.Testing? ==> (Next(s, WriteStep).writer.Idle? <==> |s.accepted| == |s.delivered| + 2))
            && (s.reader.Looking? ==> (Next(s, ReadStep).reader.Resting? <==> |s.accepted| == |s.delivered|))
  {
    var s := Exec(m1, m2, acts);
    Reachable(m1, m2, acts);
    if s.writer.Testing? {
      WriterTests(s);
    }
    if s.reader.Looking? {
      ReaderLooks(s);
    }
  }

  /** The writer never touches the slot being copied out, nor the reader the one being filled. */
  lemma {:induction false} NeverTheSameSlot(m1: seq<byte>, m2: seq<byte>, acts: seq<Action>)
    requires |m1| == |m2| == BUF_LEN
    ensures var s := Exec(m1, m2, acts);
            && ((s.writer.Copying? || s.writer.Releasing?) && (s.reader.Taking? || s.reader.Freeing?) ==> s.w.side != s.r.side)
            && (s.reader.Taking? || s.reader.Freeing? ==>
                  Next(s, WriteStep).slots.At(s.r.side) == s.slots.At(s.r.side))
  {
    var s := Exec(m1, m2, acts);
    Reachable(m1, m2, acts);
    if Held(s) < 2 {
      SidesApart(s);
    }
  }

  // ---------- full frames ----------

  predicate FullCall(a: Action) {
    match a
    case WriteCall(data, _) => |data| == BUF_LEN
    case ReadCall(count) => count == BUF_LEN
    case _ => true
  }

  predicate Full(s: State) {
    && (forall n :: 0 <= n < |s.accepted| ==> |s.accepted[n].data| == BUF_LEN)
    && (forall n :: 0 <= n < |s.delivered| ==> |s.delivered[n].data| == BUF_LEN)
    && (!s.writer.Idle? ==> |s.writer.data| == BUF_LEN)
    && (s.reader.Looking? ==> s.reader.count == BUF_LEN)
    && (s.reader.Taking? ==> s.reader.len == BUF_LEN)
    && (s.reader.Freeing? ==> |s.reader.out| == BUF_LEN)
  }

  lemma {:induction false} FullKeeps(s: State, a: Action)
    requires Inv(s) && Full(s) && FullCall(a)
    ensures Full(Next(s, a))
  {
    assert Flags(s, s.r.side);
  }

  lemma {:induction false} FullReachable(m1: seq<byte>, m2: seq<byte>, acts: seq<Action>)
    requires |m1| == |m2| == BUF_LEN && forall i :: 0 <= i < |acts| ==> FullCall(acts[i])
    ensures Full(Exec(m1, m2, acts))
  {
    if acts != [] {
      Reachable(m1, m2, acts[..|acts| - 1]);
      FullReachable(m1, m2, acts[..|acts| - 1]);
      FullKeeps(Exec(m1, m2, acts[..|acts| - 1]), acts[|acts| - 1]);
    }
  }

  lemma {:induction false} SameFrame(f: Frame, got: Frame)
    requires Agrees(f, got) && |f.data| == |got.data|
    ensures got == f
  {
    assert got.data == f.data;
  }

  /** With whole frames, as the airkiss code transfers them, the buffer is a queue of
      capacity two: what was read is exactly a prefix of what was accepted. */
  lemma {:induction false} QueueOfTwo(m1: seq<byte>, m2: seq<byte>, acts: seq<Action>)
    requires |m1| == |m2| == BUF_LEN && forall i :: 0 <= i < |acts| ==> FullCall(acts[i])
    ensures var s := Exec(m1, m2, acts);
            |s.delivered| <= |s.accepted| <= |s.delivered| + 2 && s.delivered == s.accepted[..|s.delivered|]
  {
    var s := Exec(m1, m2, acts);
    FirstInFirstOut(m1, m2, acts);
    FullReachable(m1, m2, acts);
    forall n | 0 <= n < |s.delivered|
      ensures s.delivered[n] == s.accepted[n]
    {
      SameFrame(s.accepted[n], s.delivered[n]);
    }
  }

  // ---------- calls complete ----------

  /** How many steps of its own a side took. */
  function WriteSteps(acts: seq<Action>): nat
    decreases |acts|
  {
    if acts == [] then 0 else WriteSteps(acts[..|acts| - 1]) + if acts[|acts| - 1].WriteStep? then 1 else 0
  }

  function ReadSteps(acts: seq<Action>): nat
    decreases |acts|
  {
    if acts == [] then 0 else ReadSteps(acts[..|acts| - 1]) + if acts[|acts| - 1].ReadStep? then 1 else 0
  }

  function Run(s: State, acts: seq<Action>): State
    decreases |acts|
  {
    if acts == [] then s else Next(Run(s, acts[..|acts| - 1]), acts[|acts| - 1])
  }

  /** Steps left for a write past its test: its bytes, its length, the release. */
  function WriterLeft(w: Writer): nat {
    match w
    case Copying(data, _, i) => (if i < Min(BUF_LEN, |data|) then Min(BUF_LEN, |data|) - i else 0) + 2
    case Releasing(_, _) => 1
    case _ => 0
  }

  function ReaderLeft(r: Reader): nat {
    match r
    case Taking(len, out) => (if |out| < len then len - |out| else 0) + 2
    case Freeing(_, _) => 1
    case _ => 0
  }

  /** The frame a write past its test is about to hand over. */
  function Handing(w: Writer): Frame
    requires w.Copying? || w.Releasing?
  {
    Frame(w.data[..Min(BUF_LEN, |w.data|)], w.actual)
  }

  lemma {:induction false} WriterMoves(s: State)
    requires Inv(s) && (s.writer.Copying? || s.writer.Releasing?)
    ensures var t := WriterStep(s);
            if WriterLeft(s.writer) == 1 then t.writer.Idle? && t.accepted == s.accepted + [Handing(s.writer)]
            else (t.writer.Copying? || t.writer.Releasing?) && Handing(t.writer) == Handing(s.writer) && t.accepted == s.accepted
                 && WriterLeft(t.writer) == WriterLeft(s.writer) - 1
  {
    assert Flags(s, s.w.side);
  }

  /** While a write is on its way, whatever the reader does, each of its steps brings it closer. */
  lemma {:induction false} WriterGoesOn(s: State, acts: seq<Action>)
    requires Inv(s) && (s.writer.Copying? || s.writer.Releasing?) && WriteSteps(acts) < WriterLeft(s.writer)
    ensures var t := Run(s, acts);
            && Inv(t) && (t.writer.Copying? || t.writer.Releasing?) && Handing(t.writer) == Handing(s.writer)
            && t.accepted == s.accepted && WriterLeft(t.writer) == WriterLeft(s.writer) - WriteSteps(acts)
    decreases |acts|
  {
    if acts != [] {
      var rest := acts[..|acts| - 1];
      WriterGoesOn(s, rest);
      NextKeeps(Run(s, rest), acts[|acts| - 1]);
      WriterMoves(Run(s, rest));
    }
  }

  /** From every reachable state a write past its test completes with at most 26 steps of
      its own, whatever the reader does in between: the frame accepted next is exactly the
      call's, and the writer is idle. */
  lemma {:induction false} WriteCompletes(m1: seq<byte>, m2: seq<byte>, acts: seq<Action>, between: seq<Action>)
    requires |m1| == |m2| == BUF_LEN
    requires var s := Exec(m1, m2, acts); (s.writer.Copying? || s.writer.Releasing?) && WriteSteps(between) == WriterLeft(s.writer) - 1
    ensures var s := Exec(m1, m2, acts); var t := Next(Run(s, between), WriteStep);
            && t.writer.Idle? && t.accepted == s.accepted + [Frame(s.writer.data[..Min(24, |s.writer.data|)], s.writer.actual)]
            && WriteSteps(between) <= 25
  {
    var s := Exec(m1, m2, acts);
    Reachable(m1, m2, acts);
    WriterGoesOn(s, between);
    WriterMoves(Run(s, between));
  }

  /** A write call whose slot is free gets past its test. */
  lemma {:induction false} WriteCallPasses(m1: seq<byte>, m2: seq<byte>, acts: seq<Action>, data: seq<byte>, actual: nat)
    requires |m1| == |m2| == BUF_LEN
    requires var s := Exec(m1, m2, acts); s.writer.Idle? && |s.accepted| < |s.delivered| + 2
    ensures var t := Next(Next(Exec(m1, m2, acts), WriteCall(data, actual)), WriteStep);
            t.writer == Copying(data, actual, 0) && t.accepted == Exec(m1, m2, acts).accepted
  {
    var s := Exec(m1, m2, acts);
    Reachable(m1, m2, acts);
    NextKeeps(s, WriteCall(data, actual));
    WriterTests(Next(s, WriteCall(data, actual)));
  }

  lemma {:induction false} ReaderMoves(s: State)
    requires Inv(s) && (s.reader.Taking? || s.reader.Freeing?)
    ensures var t := ReaderStep(s);
            if s.reader.Freeing? then t.reader.Resting? && t.delivered == s.delivered + [Frame(s.reader.out, s.reader.actual)]
            else
              && t.delivered == s.delivered && ReaderLeft(t.reader) == ReaderLeft(s.reader) - 1
              && (t.reader.Taking? || t.reader.Freeing?)
              && (t.reader.Taking? ==> t.reader.len == s.reader.len && |t.reader.out| == |s.reader.out| + 1)
              && (t.reader.Freeing? ==> |s.reader.out| >= s.reader.len && t.reader.out == s.reader.out)
  {
    assert Flags(s, s.r.side);
  }

  lemma {:induction false} ReaderGoesOn(s: State, acts: seq<Action>)
    requires Inv(s) && s.reader.Taking? && ReadSteps(acts) < ReaderLeft(s.reader)
    ensures var t := Run(s, acts);
            && Inv(t) && t.delivered == s.delivered && ReaderLeft(t.reader) == ReaderLeft(s.reader) - ReadSteps(acts)
            && ((t.reader.Taking? && t.reader.len == s.reader.len) || (t.reader.Freeing? && |t.reader.out| == s.reader.len))
    decreases |acts|
  {
    if acts != [] {
      var rest := acts[..|acts| - 1];
      ReaderGoesOn(s, rest);
      NextKeeps(Run(s, rest), acts[|acts| - 1]);
      ReaderMoves(Run(s, rest));
    }
  }

  /** From every reachable state a read past its test completes with at most two more
      steps of its own than it has bytes to take, whatever the writer does in between:
      it delivers exactly as many bytes as asked for, at most 24, and is at rest. */
  lemma {:induction false} ReadCompletes(m1: seq<byte>, m2: seq<byte>, acts: seq<Action>, between: seq<Action>)
    requires |m1| == |m2| == BUF_LEN
    requires var s := Exec(m1, m2, acts); s.reader.Taking? && ReadSteps(between) == ReaderLeft(s.reader) - 1
    ensures var s := Exec(m1, m2, acts); var t := Next(Run(s, between), ReadStep);
            && t.reader.Resting? && |t.delivered| == |s.delivered| + 1
            && t.delivered[..|s.delivered|] == s.delivered && |t.delivered[|s.delivered|].data| == s.reader.len
            && ReadSteps(between) + 1 <= s.reader.len + 2
  {
    var s := Exec(m1, m2, acts);
    Reachable(m1, m2, acts);
    ReaderGoesOn(s, between);
    ReaderMoves(Run(s, between));
  }

  /** A read call with a frame waiting gets past its test, to take at most 24 bytes. */
  lemma {:induction false} ReadCallPasses(m1: seq<byte>, m2: seq<byte>, acts: seq<Action>, count: nat)
    requires |m1| == |m2| == BUF_LEN
    requires var s := Exec(m1, m2, acts); s.reader.Resting? && |s.accepted| > |s.delivered|
    ensures var t := Next(Next(Exec(m1, m2, acts), ReadCall(count)), ReadStep);
            t.reader == Taking(if count < 24 then count else 24, []) && t.delivered == Exec(m1, m2, acts).delivered
  {
    var s := Exec(m1, m2, acts);
    Reachable(m1, m2, acts);
    NextKeeps(s, ReadCall(count));
    ReaderLooks(Next(s, ReadCall(count)));
  }
}
