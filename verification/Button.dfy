/** The debounced button automaton and the callbacks it makes. */
module Button {

  const DEBOUNCE_TICKS: nat := 6
  const SHORT_TICKS: nat := 80
  const LONG_TICKS: nat := 200

  datatype Ev = PressDown | PressUp | PressRepeat | SingleClick | DoubleClick | LongStart | LongHold | NonePress

  datatype Phase = Rest | Pressed | Released | Again | Long

  /** The bit fields of BUTTON_S; `level` is the debounced level, true when it is the active one. */
  datatype Button = Button(phase: Phase, ticks: nat, repeats: nat, event: Ev, debounce: nat, level: bool)

  /** button_init. */
  function Init(level: bool): Button { Button(Rest, 0, 0, NonePress, 0, level) }

  /** The tick counter and the debouncing at the head of button_handler. */
  function Sampled(b: Button, sample: bool): Button {
    var t := if b.phase.Rest? then b else b.(ticks := (b.ticks + 1) % 0x1_0000);
    if sample == t.level then t.(debounce := 0)
    else if (t.debounce + 1) % 8 >= DEBOUNCE_TICKS then t.(level := sample, debounce := 0)
    else t.(debounce := (t.debounce + 1) % 8)
  }

  /** The state machine: the new state and the callbacks. */
  function React(b: Button): (Button, seq<Ev>) {
    match b.phase
    case Rest =>
      if b.level then (b.(event := PressDown, ticks := 0, repeats := 1, phase := Pressed), [PressDown])
      else (b.(event := NonePress), [])
    case Pressed =>
      if !b.level then (b.(event := PressUp, ticks := 0, phase := Released), [PressUp])
      else if b.ticks > LONG_TICKS then (b.(event := LongStart, phase := Long), [LongStart])
      else (b, [])
    case Released =>
      if b.level then
        var n := (b.repeats + 1) % 16;
        (b.(event := PressDown, repeats := n, ticks := 0, phase := Again),
         [PressDown] + (if n == 2 then [DoubleClick] else []) + [PressRepeat])
      else if b.ticks > SHORT_TICKS then
        if b.repeats == 1 then (b.(event := SingleClick, phase := Rest), [SingleClick])
        else (b.(event := if b.repeats == 2 then DoubleClick else b.event, phase := Rest), [])
      else (b, [])
    case Again =>
      if !b.level then
        if b.ticks < SHORT_TICKS then (b.(event := PressUp, ticks := 0, phase := Released), [PressUp])
        else (b.(event := PressUp, phase := Rest), [PressUp])
      else (b, [])
    case Long =>
      if b.level then (b.(event := LongHold), [LongHold]) else (b.(event := PressUp, phase := Rest), [PressUp])
  }

  function Step(b: Button, sample: bool): (Button, seq<Ev>) { React(Sampled(b, sample)) }

  // ---------- the code ----------

  class Handle {
    var phase: Phase
    var ticks: nat
    var repeats: nat
    var event: Ev
    var debounce: nat
    var level: bool
    var calls: seq<Ev>

    ghost function Value(): Button
      reads this
    {
      Button(phase, ticks, repeats, event, debounce, level)
    }

    constructor (pin: bool)
      ensures Value() == Init(pin) && calls == []
    {
      phase, ticks, repeats, event, debounce, level, calls := Rest, 0, 0, NonePress, 0, pin, [];
    }

    /** EVENT_CB. */
    method Call(e: Ev)
      modifies this`calls
      ensures calls == old(calls) + [e]
    {
      calls := calls + [e];
    }

    /** button_handler. */
    method Handler(sample: bool)
      modifies this
      ensures Value() == Step(old(Value()), sample).0 && calls == old(calls) + Step(old(Value()), sample).1
    {
      Sample(sample);
      match phase {
        case Rest => InRest();
        case Pressed => WhilePressed();
        case Released => WhileReleased();
        case Again => WhileAgain();
        case Long => WhileLong();
      }
    }

    method Sample(sample: bool)
      modifies this
      ensures Value() == Sampled(old(Value()), sample) && calls == old(calls)
    {
      if phase != Rest {
        ticks := (ticks + 1) % 0x1_0000;
      }
      if sample != level {
        debounce := (debounce + 1) % 8;
        if debounce >= DEBOUNCE_TICKS {
          level := sample;
          debounce := 0;
        }
      } else {
        debounce := 0;
      }
    }

    method InRest()
      requires phase == Rest
      modifies this
      ensures Value() == React(old(Value())).0 && calls == old(calls) + React(old(Value())).1
    {
      if level {
        event := PressDown;
        Call(PressDown);
        ticks, repeats, phase := 0, 1, Pressed;
      } else {
        event := NonePress;
      }
    }

    method WhilePressed()
      requires phase == Pressed
      modifies this
      ensures Value() == React(old(Value())).0 && calls == old(calls) + React(old(Value())).1
    {
      if !level {
        event := PressUp;
        Call(PressUp);
        ticks, phase := 0, Released;
      } else if ticks > LONG_TICKS {
        event := LongStart;
        Call(LongStart);
        phase := Long;
      }
    }

    method WhileReleased()
      requires phase == Released
      modifies this
      ensures Value() == React(old(Value())).0 && calls == old(calls) + React(old(Value())).1
    {
      if level {
        event := PressDown;
        Call(PressDown);
        repeats := (repeats + 1) % 16;
        if repeats == 2 {
          Call(DoubleClick);
        }
        Call(PressRepeat);
        ticks, phase := 0, Again;
      } else if ticks > SHORT_TICKS {
        if repeats == 1 {
          event := SingleClick;
          Call(SingleClick);
        } else if repeats == 2 {
          event := DoubleClick;
        }
        phase := Rest;
      }
    }

    method WhileAgain()
      requires phase == Again
      modifies this
      ensures Value() == React(old(Value())).0 && calls == old(calls) + React(old(Value())).1
    {
      if !level {
        event := PressUp;
        Call(PressUp);
        if ticks < SHORT_TICKS {
          ticks, phase := 0, Released;
        } else {
          phase := Rest;
        }
      }
    }

    method WhileLong()
      requires phase == Long
      modifies this
      ensures Value() == React(old(Value())).0 && calls == old(calls) + React(old(Value())).1
    {
      if level {
        event := LongHold;
        Call(LongHold);
      } else {
        event := PressUp;
        Call(PressUp);
        phase := Rest;
      }
    }
  }

  // ---------- whole traces ----------

  /** The button after some samples. */
  function After(level: bool, samples: seq<bool>): Button {
    if samples == [] then Init(level) else Step(After(level, samples[..|samples| - 1]), samples[|samples| - 1]).0
  }

  /** All callbacks so far. */
  function Trace(level: bool, samples: seq<bool>): seq<Ev> {
    if samples == [] then []
    else
      Trace(level, samples[..|samples| - 1]) + Step(After(level, samples[..|samples| - 1]), samples[|samples| - 1]).1
  }

  /** The handler called with any samples makes the callbacks of the trace, in order. */
  method Feed(level: bool, samples: seq<bool>) returns (calls: seq<Ev>, last: Ev)
    ensures calls == Trace(level, samples) && last == After(level, samples).event
  {
    var h := new Handle(level);
    var i := 0;
    while i < |samples|
      invariant 0 <= i <= |samples| && fresh(h)
      invariant h.Value() == After(level, samples[..i]) && h.calls == Trace(level, samples[..i])
    {
      FeedOne(h, level, samples, i);
      i := i + 1;
    }
    assert samples[..i] == samples;
    calls, last := h.calls, h.event;
  }

  method FeedOne(h: Handle, ghost level: bool, samples: seq<bool>, i: nat)
    requires i < |samples| && h.Value() == After(level, samples[..i]) && h.calls == Trace(level, samples[..i])
    modifies h
    ensures h.Value() == After(level, samples[..i + 1]) && h.calls == Trace(level, samples[..i + 1])
  {
    AfterNext(level, samples, i);
    h.Handler(samples[i]);
  }

  // ----- debouncing -----

  /** The debounced level before sample `i`. */
  function LevelAt(level: bool, samples: seq<bool>, i: nat): bool
    requires i <= |samples|
  {
    After(level, samples[..i]).level
  }

  lemma {:induction false} StepDebounce(b: Button, sample: bool)
    requires b.debounce < DEBOUNCE_TICKS
    ensures var c := Step(b, sample).0;
            && c.debounce < DEBOUNCE_TICKS
            && (c.level != b.level <==> sample != b.level && b.debounce == 5)
            && (sample == b.level ==> c.debounce == 0)
            && (sample != b.level && b.debounce < 5 ==> c.debounce == b.debounce + 1)
            && (c.level != b.level ==> c.level == sample && c.debounce == 0)
  {
  }

  lemma {:induction false} AfterNext(level: bool, samples: seq<bool>, i: nat)
    requires i < |samples|
    ensures After(level, samples[..i + 1]) == Step(After(level, samples[..i]), samples[i]).0
    ensures Trace(level, samples[..i + 1]) == Trace(level, samples[..i]) + Step(After(level, samples[..i]), samples[i]).1
  {
    assert samples[..i + 1][..i] == samples[..i];
  }

  /** The samples i - c .. i - 1 all differ from a level that did not change. */
  ghost predicate Differing(level: bool, samples: seq<bool>, i: nat, c: nat)
    requires c <= i <= |samples|
  {
    forall j :: i - c <= j < i ==> samples[j] != LevelAt(level, samples, i) && LevelAt(level, samples, j) == LevelAt(level, samples, i)
  }

  lemma {:induction false} DifferingGrows(level: bool, samples: seq<bool>, i: nat, c: nat)
    requires c < i <= |samples| && Differing(level, samples, i - 1, c)
    requires LevelAt(level, samples, i) == LevelAt(level, samples, i - 1) && samples[i - 1] != LevelAt(level, samples, i)
    ensures Differing(level, samples, i, c + 1)
  {
  }

  lemma {:induction false} DebounceNext(level: bool, samples: seq<bool>, i: nat)
    requires 0 < i <= |samples| && After(level, samples[..i - 1]).debounce < DEBOUNCE_TICKS
    ensures var b, c := After(level, samples[..i - 1]), After(level, samples[..i]);
            c.debounce == 0 || (c.debounce == b.debounce + 1 < DEBOUNCE_TICKS && c.level == b.level && samples[i - 1] != b.level)
  {
    AfterNext(level, samples, i - 1);
    StepDebounce(After(level, samples[..i - 1]), samples[i - 1]);
  }

  /** The counter says how many samples in a row differed from an unchanged level. */
  lemma {:induction false} CounterMeans(level: bool, samples: seq<bool>, i: nat)
    requires i <= |samples|
    ensures var c := After(level, samples[..i]).debounce;
            c < DEBOUNCE_TICKS && c <= i && Differing(level, samples, i, c)
    decreases i
  {
    if i > 0 {
      CounterMeans(level, samples, i - 1);
      DebounceNext(level, samples, i);
      if After(level, samples[..i]).debounce > 0 {
        DifferingGrows(level, samples, i, After(level, samples[..i - 1]).debounce);
      }
    }
  }

  /** And a run of differing samples under an unchanged level is counted. */
  lemma {:induction false} CounterCounts(level: bool, samples: seq<bool>, i: nat, c: nat)
    requires c <= i <= |samples| && Differing(level, samples, i, c)
    ensures After(level, samples[..i]).debounce >= c
    decreases c
  {
    if c > 0 {
      CounterMeans(level, samples, i - 1);
      assert samples[i - 1] != LevelAt(level, samples, i) && LevelAt(level, samples, i - 1) == LevelAt(level, samples, i);
      CounterCounts(level, samples, i - 1, c - 1);
      DebounceCounts(level, samples, i);
    }
  }

  lemma {:induction false} DebounceCounts(level: bool, samples: seq<bool>, i: nat)
    requires 0 < i <= |samples| && After(level, samples[..i - 1]).debounce < DEBOUNCE_TICKS
    requires var b, c := After(level, samples[..i - 1]), After(level, samples[..i]); samples[i - 1] != b.level == c.level
    ensures After(level, samples[..i]).debounce == After(level, samples[..i - 1]).debounce + 1
  {
    AfterNext(level, samples, i - 1);
    StepDebounce(After(level, samples[..i - 1]), samples[i - 1]);
  }

  /** The debounced level changes with a sample exactly when that sample and the five
      before it all differ from a level that held throughout. */
  lemma {:induction false} FlipsAfterSix(level: bool, samples: seq<bool>, i: nat)
    requires i < |samples|
    ensures LevelAt(level, samples, i + 1) != LevelAt(level, samples, i) <==>
      samples[i] != LevelAt(level, samples, i) && i >= 5 && Differing(level, samples, i, 5)
  {
    var b := After(level, samples[..i]);
    AfterNext(level, samples, i);
    CounterMeans(level, samples, i);
    StepDebounce(b, samples[i]);
    if i >= 5 && Differing(level, samples, i, 5) {
      CounterCounts(level, samples, i, 5);
    }
  }

  // ----- presses and releases -----

  /** A reference automaton for callback traces: whether the button is down and whether
      it is held long, or Bad once an event came out of turn. */
  datatype Monitor = Bad | Good(down: bool, held: bool)

  function Observe(m: Monitor, e: Ev): Monitor {
    if m.Bad? then Bad
    else match e
      case PressDown => if m.down then Bad else Good(true, false)
      case PressUp => if m.down then Good(false, false) else Bad
      case LongStart => if m.down && !m.held then Good(true, true) else Bad
      case LongHold => if m.held then m else Bad
      case _ => m
  }

  function Watch(m: Monitor, t: seq<Ev>): Monitor {
    if t == [] then m else Observe(Watch(m, t[..|t| - 1]), t[|t| - 1])
  }

  lemma {:induction false} WatchAppend(m: Monitor, t: seq<Ev>, u: seq<Ev>)
    ensures Watch(m, t + u) == Watch(Watch(m, t), u)
    decreases |u|
  {
    if u == [] {
      assert t + u == t;
    } else {
      assert (t + u)[..|t + u| - 1] == t + u[..|u| - 1];
      WatchAppend(m, t, u[..|u| - 1]);
    }
  }

  /** What the automaton's own phase means for the monitor. */
  function Expected(p: Phase): Monitor { Good(p.Pressed? || p.Again? || p.Long?, p.Long?) }

  lemma {:induction false} StepObserved(b: Button, sample: bool)
    ensures Watch(Expected(b.phase), Step(b, sample).1) == Expected(Step(b, sample).0.phase)
  {
    var m, evs := Expected(b.phase), Step(b, sample).1;
    if |evs| > 0 {
      WatchFirst(m, evs);
      if |evs| > 1 {
        WatchFirst(Observe(m, evs[0]), evs[1..]);
        if |evs| > 2 {
          WatchFirst(Observe(Observe(m, evs[0]), evs[1]), evs[1..][1..]);
        }
      }
    }
  }

  lemma {:induction false} WatchFirst(m: Monitor, t: seq<Ev>)
    requires t != []
    ensures Watch(m, t) == Watch(Observe(m, t[0]), t[1..])
  {
    WatchAppend(m, [t[0]], t[1..]);
    assert [t[0]] + t[1..] == t;
    assert [t[0]][..0] == [];
  }

  lemma {:induction false} TraceObserved(level: bool, samples: seq<bool>)
    ensures Watch(Good(false, false), Trace(level, samples)) == Expected(After(level, samples).phase)
  {
    if samples != [] {
      var rest, x := samples[..|samples| - 1], samples[|samples| - 1];
      TraceObserved(level, rest);
      WatchAppend(Good(false, false), Trace(level, rest), Step(After(level, rest), x).1);
      StepObserved(After(level, rest), x);
    }
  }

  /** A trace that was good all the way: what an event says about those before it. */
  lemma {:induction false} GoodPrefix(t: seq<Ev>, i: nat)
    requires Watch(Good(false, false), t).Good? && i <= |t|
    ensures Watch(Good(false, false), t[..i]).Good?
    decreases |t| - i
  {
    if i < |t| {
      assert t[..i + 1][..i] == t[..i];
      GoodPrefix(t, i + 1);
    } else {
      assert t[..i] == t;
    }
  }

  /** A button that is down was pressed, and not released since. */
  lemma {:induction false} DownSince(t: seq<Ev>, i: nat) returns (k: nat)
    requires i <= |t| && Watch(Good(false, false), t[..i]) .Good? && Watch(Good(false, false), t[..i]).down
    ensures k < i && t[k] == PressDown && forall j :: k < j < i ==> t[j] != PressUp && t[j] != PressDown
    decreases i
  {
    assert t[..i][..i - 1] == t[..i - 1];
    if t[i - 1] == PressDown {
      k := i - 1;
    } else {
      k := DownSince(t, i - 1);
    }
  }

  /** A button that is up was never pressed, or released since it was. */
  lemma {:induction false} UpSince(t: seq<Ev>, i: nat, p: nat) returns (k: nat)
    requires p < i <= |t| && t[p] == PressDown
    requires Watch(Good(false, false), t[..i]).Good? && !Watch(Good(false, false), t[..i]).down
    ensures p < k < i && t[k] == PressUp
    decreases i
  {
    assert t[..i][..i - 1] == t[..i - 1];
    if t[i - 1] == PressUp {
      k := i - 1;
    } else {
      k := UpSince(t, i - 1, p);
    }
  }

  lemma {:induction false} HeldSince(t: seq<Ev>, i: nat) returns (k: nat)
    requires i <= |t| && Watch(Good(false, false), t[..i]).Good? && Watch(Good(false, false), t[..i]).held
    ensures k < i && t[k] == LongStart && forall j :: k < j < i ==> t[j] != PressUp
    decreases i
  {
    assert t[..i][..i - 1] == t[..i - 1];
    if t[i - 1] == LongStart {
      k := i - 1;
    } else {
      k := HeldSince(t, i - 1);
    }
  }

  /** PRESS_DOWN and PRESS_UP alternate in every trace, beginning with PRESS_DOWN. */
  lemma {:induction false} DownUpAlternate(level: bool, samples: seq<bool>)
    ensures var t := Trace(level, samples);
            && (forall i :: 0 <= i < |t| && t[i] == PressUp ==>
                  exists k :: 0 <= k < i && t[k] == PressDown && forall j :: k < j < i ==> t[j] != PressUp)
            && (forall p, i :: 0 <= p < i < |t| && t[p] == PressDown && t[i] == PressDown ==>
                  exists k :: p < k < i && t[k] == PressUp)
  {
    var t := Trace(level, samples);
    TraceObserved(level, samples);
    forall i | 0 <= i < |t| && t[i] == PressUp
      ensures exists k :: 0 <= k < i && t[k] == PressDown && forall j :: k < j < i ==> t[j] != PressUp
    {
      InTurn(t, i);
      var k := DownSince(t, i);
    }
    forall p, i | 0 <= p < i < |t| && t[p] == PressDown && t[i] == PressDown
      ensures exists k :: p < k < i && t[k] == PressUp
    {
      InTurn(t, i);
      var k := UpSince(t, i, p);
    }
  }

  /** An event of a good trace came in its turn. */
  lemma {:induction false} InTurn(t: seq<Ev>, i: nat)
    requires Watch(Good(false, false), t).Good? && i < |t|
    ensures var m := Watch(Good(false, false), t[..i]); m.Good? && Observe(m, t[i]).Good?
  {
    GoodPrefix(t, i);
    GoodPrefix(t, i + 1);
    assert t[..i + 1][..i] == t[..i];
  }

  /** LONG_PRESS_HOLD comes only between LONG_PRESS_START and the next PRESS_UP. */
  lemma {:induction false} HoldOnlyWhenLong(level: bool, samples: seq<bool>, i: nat)
    requires i < |Trace(level, samples)| && Trace(level, samples)[i] == LongHold
    ensures var t := Trace(level, samples);
            exists k :: 0 <= k < i && t[k] == LongStart && forall j :: k < j < i ==> t[j] != PressUp
  {
    var t := Trace(level, samples);
    TraceObserved(level, samples);
    InTurn(t, i);
    var k := HeldSince(t, i);
  }

  // ----- bursts of presses -----

  /** Whether the button is down: the debounced level after the last sample. Before the
      first sample the handler has not looked at it, and takes it to be up. */
  function Down(level: bool, samples: seq<bool>): bool {
    samples != [] && LevelAt(level, samples, |samples|)
  }

  /** A burst of presses as the level alone tells it: how many there were, 0 between
      bursts, for how many samples the level has not changed, and whether the first
      press has become a long one. */
  datatype Burst = Burst(presses: nat, since: nat, held: bool)

  const QUIET := Burst(0, 0, false)

  /** A burst ends with the release of a long press, with the release of a repeated press
      that lasted 80 samples (by a counter of 16 bits), or 81 samples after a release. */
  function NextBurst(u: Burst, was: bool, now: bool): Burst {
    if now && !was then Burst(u.presses + 1, 0, false)
    else if was && !now then
      if u.held || (u.presses > 1 && (u.since + 1) % 0x1_0000 >= SHORT_TICKS) then QUIET else u.(since := 0)
    else if u.presses == 0 || (!now && u.since >= SHORT_TICKS) then QUIET
    else Burst(u.presses, u.since + 1, u.held || (now && u.presses == 1 && u.since >= LONG_TICKS))
  }

  /** The burst after some samples. */
  function BurstAt(level: bool, samples: seq<bool>): Burst {
    if samples == [] then QUIET
    else
      var rest := samples[..|samples| - 1];
      NextBurst(BurstAt(level, rest), Down(level, rest), Down(level, samples))
  }

  /** The automaton's own fields are in step with the burst. */
  ghost predicate Fits(b: Button, u: Burst, was: bool) {
    && (was <==> b.phase.Pressed? || b.phase.Again? || b.phase.Long?)
    && (b.phase.Rest? <==> u.presses == 0)
    && (b.phase.Long? <==> u.held)
    && (b.phase.Pressed? ==> u.presses == 1 && u.since <= LONG_TICKS)
    && (b.phase.Again? ==> u.presses > 1)
    && (b.phase.Released? ==> u.since <= SHORT_TICKS)
    && (!b.phase.Rest? ==> b.repeats == u.presses % 16)
    && (!b.phase.Rest? && !b.phase.Long? ==> b.ticks == u.since % 0x1_0000)
  }

  lemma {:induction false} NextMod(n: nat)
    ensures (n % 16 + 1) % 16 == (n + 1) % 16
    ensures (n % 0x1_0000 + 1) % 0x1_0000 == (n + 1) % 0x1_0000
  {
  }

  lemma {:induction false} StepFits(b: Button, sample: bool, u: Burst, was: bool)
    requires Fits(b, u, was)
    ensures var c := Step(b, sample).0; Fits(c, NextBurst(u, was, c.level), c.level)
  {
    NextMod(u.presses);
    NextMod(u.since);
  }

  lemma {:induction false} BurstFits(level: bool, samples: seq<bool>)
    ensures Fits(After(level, samples), BurstAt(level, samples), Down(level, samples))
  {
    if samples != [] {
      var rest := samples[..|samples| - 1];
      BurstFits(level, rest);
      StepFits(After(level, rest), samples[|samples| - 1], BurstAt(level, rest), Down(level, rest));
      assert samples[..|samples|] == samples;
    }
  }

  // ----- the callbacks, by the level -----

  /** The callbacks of one more sample. */
  function Calls(level: bool, samples: seq<bool>, sample: bool): seq<Ev> {
    Step(After(level, samples), sample).1
  }

  lemma {:induction false} DownNext(level: bool, samples: seq<bool>, sample: bool)
    ensures After(level, samples + [sample]) == Step(After(level, samples), sample).0
    ensures Down(level, samples + [sample]) == After(level, samples + [sample]).level
    ensures BurstAt(level, samples + [sample]) == NextBurst(BurstAt(level, samples), Down(level, samples), Down(level, samples + [sample]))
  {
    assert (samples + [sample])[..|samples|] == samples;
    assert (samples + [sample])[..|samples + [sample]|] == samples + [sample];
  }

  lemma {:induction false} StepCalls(b: Button, sample: bool, u: Burst, was: bool)
    requires Fits(b, u, was)
    ensures var (c, evs) := Step(b, sample); var now := c.level;
            && (PressDown in evs <==> !was && now)
            && (PressUp in evs <==> was && !now)
            && (PressRepeat in evs <==> !was && now && u.presses > 0)
            && (SingleClick in evs <==> !was && !now && u.since == SHORT_TICKS && u.presses % 16 == 1)
            && (DoubleClick in evs <==> !was && now && u.presses > 0 && (u.presses + 1) % 16 == 2)
            && (LongStart in evs <==> was && now && u.presses == 1 && !u.held && u.since == LONG_TICKS)
            && (LongHold in evs <==> was && now && u.held)
  {
    NextMod(u.presses);
    NextMod(u.since);
  }

  lemma {:induction false} CallsDistinct(b: Button, sample: bool)
    ensures var evs := Step(b, sample).1; forall i, j :: 0 <= i < j < |evs| ==> evs[i] != evs[j]
    ensures var evs := Step(b, sample).1; forall i :: 0 < i < |evs| ==> evs[i] != PressDown && evs[i] != PressUp
  {
  }

  /** PRESS_DOWN is called exactly at the samples with which the debounced level turns
      active, PRESS_UP exactly where it turns inactive, each first and once; nothing is
      called twice at a sample. */
  lemma {:induction false} PressesIff(level: bool, samples: seq<bool>, sample: bool)
    ensures var was, now, evs := Down(level, samples), Down(level, samples + [sample]), Calls(level, samples, sample);
            && (PressDown in evs <==> !was && now)
            && (PressUp in evs <==> was && !now)
            && (samples != [] || !level ==> was == LevelAt(level, samples, |samples|))
            && (was != now ==> evs[0] == if now then PressDown else PressUp)
            && (forall i, j :: 0 <= i < j < |evs| ==> evs[i] != evs[j])
  {
    CallsDistinct(After(level, samples), sample);
    DownNext(level, samples, sample);
    BurstFits(level, samples);
    StepCalls(After(level, samples), sample, BurstAt(level, samples), Down(level, samples));
  }

  /** PRESS_REPEAT is called exactly at every press of a burst after the first. */
  lemma {:induction false} RepeatIff(level: bool, samples: seq<bool>, sample: bool)
    ensures PressRepeat in Calls(level, samples, sample) <==>
      !Down(level, samples) && Down(level, samples + [sample]) && BurstAt(level, samples).presses > 0
  {
    DownNext(level, samples, sample);
    BurstFits(level, samples);
    StepCalls(After(level, samples), sample, BurstAt(level, samples), Down(level, samples));
  }

  /** SINGLE_CLICK is called exactly when a burst ends by release timeout, that is when
      the button stays up for the 81st sample, after a number of presses congruent to 1
      modulo 16: seventeen presses end in a single click as well. */
  lemma {:induction false} SingleClickIff(level: bool, samples: seq<bool>, sample: bool)
    ensures var u := BurstAt(level, samples);
            SingleClick in Calls(level, samples, sample) <==>
              && !Down(level, samples) && !Down(level, samples + [sample])
              && u.since == SHORT_TICKS && u.presses % 16 == 1
  {
    DownNext(level, samples, sample);
    BurstFits(level, samples);
    StepCalls(After(level, samples), sample, BurstAt(level, samples), Down(level, samples));
  }

  /** DOUBLE_CLICK is called exactly at the repeated presses whose number in the burst
      is congruent to 2 modulo 16. */
  lemma {:induction false} DoubleClickIff(level: bool, samples: seq<bool>, sample: bool)
    ensures var u := BurstAt(level, samples);
            DoubleClick in Calls(level, samples, sample) <==>
              && !Down(level, samples) && Down(level, samples + [sample])
              && u.presses > 0 && (u.presses + 1) % 16 == 2
  {
    DownNext(level, samples, sample);
    BurstFits(level, samples);
    StepCalls(After(level, samples), sample, BurstAt(level, samples), Down(level, samples));
  }

  /** LONG_PRESS_START is called exactly when the first press of a burst is still down
      at the 201st sample after it. */
  lemma {:induction false} LongStartIff(level: bool, samples: seq<bool>, sample: bool)
    ensures var u := BurstAt(level, samples);
            LongStart in Calls(level, samples, sample) <==>
              && Down(level, samples) && Down(level, samples + [sample])
              && u.presses == 1 && !u.held && u.since == LONG_TICKS
  {
    DownNext(level, samples, sample);
    BurstFits(level, samples);
    StepCalls(After(level, samples), sample, BurstAt(level, samples), Down(level, samples));
  }

  /** From LONG_PRESS_START on, LONG_PRESS_HOLD is called at every sample until the
      release, and at no other. */
  lemma {:induction false} HoldIff(level: bool, samples: seq<bool>, sample: bool)
    ensures LongHold in Calls(level, samples, sample) <==>
      Down(level, samples) && Down(level, samples + [sample]) && BurstAt(level, samples).held
    ensures BurstAt(level, samples + [sample]).held <==>
      Down(level, samples + [sample]) && (BurstAt(level, samples).held || LongStart in Calls(level, samples, sample))
  {
    DownNext(level, samples, sample);
    BurstFits(level, samples);
    BurstFits(level, samples + [sample]);
    StepCalls(After(level, samples), sample, BurstAt(level, samples), Down(level, samples));
  }

  /** What button_get_event answers after a sample. DOUBLE_CLICK is not the event of the
      second press, which calls it, but of the end of a burst of two (or eighteen). */
  lemma {:induction false} EventIff(level: bool, samples: seq<bool>, sample: bool)
    ensures var was, now, u := Down(level, samples), Down(level, samples + [sample]), BurstAt(level, samples);
            var timeout := !was && !now && u.presses > 0 && u.since == SHORT_TICKS;
            var e := After(level, samples + [sample]).event;
            && (e == PressDown <==> now && !BurstAt(level, samples + [sample]).held)
            && (e == LongStart <==> LongStart in Calls(level, samples, sample))
            && (e == LongHold <==> LongHold in Calls(level, samples, sample))
            && (e == SingleClick <==> SingleClick in Calls(level, samples, sample))
            && (e == DoubleClick <==> timeout && u.presses % 16 == 2)
            && (e == NonePress <==> !was && !now && u.presses == 0)
            && e != PressRepeat
  {
    DownNext(level, samples, sample);
    BurstFits(level, samples);
    BurstFits(level, samples + [sample]);
    EventHolds(level, samples);
    StepCalls(After(level, samples), sample, BurstAt(level, samples), Down(level, samples));
  }

  /** While the automaton waits, its event is that of the last press or release. */
  lemma {:induction false} EventHolds(level: bool, samples: seq<bool>)
    ensures var b := After(level, samples);
            && (b.phase.Pressed? || b.phase.Again? ==> b.event == PressDown)
            && (b.phase.Released? ==> b.event == PressUp)
  {
    if samples != [] {
      EventHolds(level, samples[..|samples| - 1]);
    }
  }
}
