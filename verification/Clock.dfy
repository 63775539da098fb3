/** The system clock: single ticks, catching up after sleep, and paying back ticks
    that were counted too many. */
module Clock {
  import opened Bits

  const FCLK_SECOND: nat := 500
  const FCLK_DURATION_MS: int := 2
  const U64_RANGE: int := 0x1_0000_0000_0000_0000

  /** current_clock, current_seconds, second_countdown. */
  datatype Time = Time(clock: nat, seconds: nat, countdown: nat)

  predicate Proper(t: Time) { t.clock < U64_RANGE && t.seconds < U32_RANGE && 1 <= t.countdown <= FCLK_SECOND }

  const START: Time := Time(0, 0, 500)

  /** The counting part of fclk_hdl. */
  function Tick(t: Time): Time {
    if t.countdown == 1 then Time((t.clock + 1) % U64_RANGE, (t.seconds + 1) % U32_RANGE, FCLK_SECOND)
    else Time((t.clock + 1) % U64_RANGE, t.seconds, if t.countdown > 0 then t.countdown - 1 else 0)
  }

  function Ticks(t: Time, n: nat): Time {
    if n == 0 then t else Tick(Ticks(t, n - 1))
  }

  lemma {:induction false} TicksAdd(t: Time, m: nat, n: nat)
    ensures Ticks(t, m + n) == Ticks(Ticks(t, m), n)
    decreases n
  {
    if n > 0 {
      TicksAdd(t, m, n - 1);
    }
  }

  lemma {:induction false} Mod64Step(c: nat, n: nat)
    ensures ((c + n) % U64_RANGE + 1) % U64_RANGE == (c + n + 1) % U64_RANGE
  {
    var q, r := (c + n) / U64_RANGE, (c + n) % U64_RANGE;
    if r + 1 < U64_RANGE {
      ModUnique(c + n + 1, U64_RANGE, q, r + 1);
    } else {
      ModUnique(c + n + 1, U64_RANGE, q + 1, 0);
    }
  }

  /** Up to one second of single ticks in closed form. */
  lemma {:induction false} TicksWithinSecond(t: Time, n: nat)
    requires Proper(t) && n <= FCLK_SECOND
    ensures Ticks(t, n) ==
      if n < t.countdown then Time((t.clock + n) % U64_RANGE, t.seconds, t.countdown - n)
      else Time((t.clock + n) % U64_RANGE, (t.seconds + 1) % U32_RANGE, FCLK_SECOND - (n - t.countdown))
    decreases n
  {
    if n > 0 {
      TicksWithinSecond(t, n - 1);
      Mod64Step(t.clock, n - 1);
    }
  }

  /** From the start, without resets, the seconds are the clock divided by 500. */
  lemma {:induction false} SecondsFromStart(n: nat)
    ensures Ticks(START, n) == Time(n % U64_RANGE, n / 500 % U32_RANGE, 500 - n % 500)
  {
    if n > 0 {
      SecondsFromStart(n - 1);
      Mod64Step(0, n - 1);
      SecondStep(n - 1);
    }
  }

  lemma {:induction false} SecondStep(n: nat)
    ensures n % 500 == 499 ==> (n + 1) % 500 == 0 && (n / 500 % U32_RANGE + 1) % U32_RANGE == (n + 1) / 500 % U32_RANGE
    ensures n % 500 != 499 ==> (n + 1) % 500 == n % 500 + 1 && (n + 1) / 500 == n / 500
  {
    var q := n / 500;
    if n % 500 == 499 {
      assert (n + 1) / 500 == q + 1;
    }
  }

  // ---------- tick debt ----------

  /** increase_tick and need_pass; a negative increase is a debt in milliseconds. */
  datatype Gate = Gate(increase: int, pass: nat)

  function Debt(g: Gate): int { -g.increase }

  /** mcu_ps_cal_increase_tick on a positive number of lost milliseconds. */
  function Settle(increase: int, lost: int): (int, int) {
    if lost <= 0 || increase == 0 then (increase, lost)
    else if lost + increase < 0 then (lost + increase, 0)
    else (0, lost + increase)
  }

  function Sum(losses: seq<int>): int {
    if losses == [] then 0 else Sum(losses[..|losses| - 1]) + losses[|losses| - 1]
  }

  /** The debt after settling some losses, and what was left of them altogether. */
  function SettleAll(increase: int, losses: seq<int>): (int, int) {
    if losses == [] then (increase, 0)
    else
      var (i, rest) := SettleAll(increase, losses[..|losses| - 1]);
      var (j, left) := Settle(i, losses[|losses| - 1]);
      (j, rest + left)
  }

  /** Positive losses pay a debt of D milliseconds off, each as far as it goes, and
      nothing is lost: what is left of them is what exceeds the debt. */
  lemma {:induction false} LossesPayDebt(increase: int, losses: seq<int>)
    requires increase <= 0 && forall i :: 0 <= i < |losses| ==> losses[i] > 0
    ensures var debt, sum := -increase, Sum(losses);
            sum >= 0 && SettleAll(increase, losses) == if sum < debt then (sum - debt, 0) else (0, sum - debt)
  {
    if losses != [] {
      LossesPayDebt(increase, losses[..|losses| - 1]);
    }
  }

  /** mcu_ps_need_pstick: the gate after a call, and whether the tick counts. */
  function Pass(g: Gate): (Gate, bool) {
    var next := U32(g.pass + 1);
    if g.pass % 5 == 0 then
      var (increase, lost) := Settle(g.increase, FCLK_DURATION_MS);
      (Gate(increase, next), lost != 0)
    else (Gate(g.increase, next), true)
  }

  function Passes(g: Gate, n: nat): Gate {
    if n == 0 then g else Pass(Passes(g, n - 1)).0
  }

  /** How many of `n` ticks are suppressed. */
  function Suppressed(g: Gate, n: nat): nat {
    if n == 0 then 0 else Suppressed(g, n - 1) + if Pass(Passes(g, n - 1)).1 then 0 else 1
  }

  /** How many of `n` calls look at the debt. */
  function Looks(pass: nat, n: nat): nat {
    if n == 0 then 0 else Looks(pass, n - 1) + if U32(pass + n - 1) % 5 == 0 then 1 else 0
  }

  lemma {:induction false} WrapAdd(pass: nat, n: nat)
    ensures U32(U32(pass + n) + 1) == U32(pass + n + 1)
  {
  }

  /** The debt falls by two with every look, and every look at a debt of two or more
      suppresses a tick. */
  lemma {:induction false} DebtFalls(g: Gate, n: nat)
    requires g.increase <= 0 && g.pass < U32_RANGE
    ensures var d, k := Debt(g), Looks(g.pass, n);
            && Passes(g, n) == Gate(if 2 * k < d then 2 * k - d else 0, U32(g.pass + n))
            && Suppressed(g, n) == if k <= d / 2 then k else d / 2
    decreases n
  {
    if n > 0 {
      DebtFalls(g, n - 1);
      WrapAdd(g.pass, n - 1);
    }
  }

  /** Among any five values of the counter in a row, also across its wrap, one is a multiple of five. */
  lemma {:induction false} OneOfFive(t: nat) returns (i: nat)
    ensures i < 5 && U32(t + i) % 5 == 0
  {
    var a := U32(t);
    i := if a % 5 == 0 then 0 else 5 - a % 5;
    if a + i >= U32_RANGE {
      i := U32_RANGE - a;
      ModUnique(t + i, U32_RANGE, t / U32_RANGE + 1, 0);
    } else {
      ModUnique(t + i, U32_RANGE, t / U32_RANGE, a + i);
    }
  }

  lemma {:induction false} FiveInARow(pass: nat, n: nat)
    ensures Looks(pass, n + 5) >= Looks(pass, n) + 1
  {
    var i := OneOfFive(pass + n);
    var m := n + i;
    LooksMonotone(pass, n, m);
    LooksMonotone(pass, m + 1, n + 5);
    assert U32(pass + (m + 1) - 1) % 5 == 0;
  }

  lemma {:induction false} LooksEnough(pass: nat, k: nat)
    ensures Looks(pass, 5 * k) >= k
  {
    if k > 0 {
      LooksEnough(pass, k - 1);
      FiveInARow(pass, 5 * (k - 1));
    }
  }

  lemma {:induction false} LooksMonotone(pass: nat, m: nat, n: nat)
    requires m <= n
    ensures Looks(pass, m) <= Looks(pass, n)
    decreases n
  {
    if m < n {
      LooksMonotone(pass, m, n - 1);
    }
  }

  /** A debt of D milliseconds suppresses exactly D / 2 ticks, and five calls for every
      two milliseconds begun are enough to repay it. */
  lemma {:induction false} DebtRepaid(g: Gate, n: nat)
    requires g.increase <= 0 && g.pass < U32_RANGE && n >= 5 * ((Debt(g) + 1) / 2)
    ensures Passes(g, n).increase == 0 && Suppressed(g, n) == Debt(g) / 2
  {
    var k := (Debt(g) + 1) / 2;
    DebtFalls(g, n);
    LooksEnough(g.pass, k);
    LooksMonotone(g.pass, 5 * k, n);
  }

  // ---------- the code ----------

  class SystemClock {
    var clock: nat
    var seconds: nat
    var countdown: nat
    var increase: int
    var needPass: nat

    ghost function Now(): Time
      reads this
    {
      Time(clock, seconds, countdown)
    }

    ghost function TickGate(): Gate
      reads this
    {
      Gate(increase, needPass)
    }

    ghost predicate Valid()
      reads this
    {
      Proper(Now()) && needPass < U32_RANGE
    }

    constructor ()
      ensures Valid() && Now() == START && TickGate() == Gate(0, 0)
    {
      clock, seconds, countdown, increase, needPass := 0, 0, FCLK_SECOND, 0, 0;
    }

    /** mcu_ps_cal_increase_tick. */
    method CalIncreaseTick(lost0: int) returns (lost: int)
      modifies this`increase
      ensures (increase, lost) == Settle(old(increase), lost0)
      ensures lost0 > 0 ==> lost + increase == lost0 + old(increase) && lost >= 0 && (lost == 0 || increase == 0)
      ensures lost0 <= 0 ==> increase == old(increase) && lost == lost0
    {
      lost := lost0;
      if lost <= 0 || increase == 0 {
        return;
      }
      lost := lost + increase;
      if lost < 0 {
        increase := lost;
        lost := 0;
      } else {
        increase := 0;
      }
    }

    /** mcu_ps_need_pstick. */
    method NeedPstick() returns (ret: int)
      requires Valid()
      modifies this`increase, this`needPass
      ensures Valid() && (TickGate(), ret != 0) == Pass(old(TickGate()))
    {
      var looks := needPass % 5 == 0;
      needPass := U32(needPass + 1);
      if looks {
        ret := CalIncreaseTick(FCLK_DURATION_MS);
      } else {
        ret := FCLK_DURATION_MS;
      }
    }

    /** fclk_hdl: the timer interrupt. */
    method Hdl()
      requires Valid()
      modifies this
      ensures Valid() && TickGate() == Pass(old(TickGate())).0
      ensures Now() == if Pass(old(TickGate())).1 then Tick(old(Now())) else old(Now())
    {
      var need := NeedPstick();
      if need == 0 {
        return;
      }
      clock := (clock + 1) % U64_RANGE;
      countdown := countdown - 1;
      if countdown == 0 {
        seconds := U32(seconds + 1);
        countdown := FCLK_SECOND;
      }
    }

    /** fclk_freertos_update_tick: catching up is as good as single ticks. */
    method CatchUp(n: nat)
      requires Valid() && n < U32_RANGE
      modifies this`clock, this`seconds, this`countdown
      ensures Valid() && Now() == Ticks(old(Now()), n)
    {
      ghost var t0 := Now();
      clock := (clock + n) % U64_RANGE;
      var tick := n;
      while tick >= FCLK_SECOND
        invariant 0 <= tick <= n && clock == (t0.clock + n) % U64_RANGE && countdown == t0.countdown
        invariant Proper(Ticks(t0, n - tick)) && Ticks(t0, n - tick).seconds == seconds && Ticks(t0, n - tick).countdown == countdown
      {
        TicksAdd(t0, n - tick, FCLK_SECOND);
        TicksWithinSecond(Ticks(t0, n - tick), FCLK_SECOND);
        seconds := U32(seconds + 1);
        tick := tick - FCLK_SECOND;
      }
      TicksAdd(t0, n - tick, tick);
      TicksWithinSecond(Ticks(t0, n - tick), tick);
      ClockAfter(t0, n);
      if countdown <= tick {
        seconds := U32(seconds + 1);
        countdown := FCLK_SECOND - (tick - countdown);
      } else {
        countdown := countdown - tick;
      }
    }

    /** fclk_update_tick: a real catch-up also cancels the debt. */
    method UpdateTick(n: nat)
      requires Valid() && n < U32_RANGE
      modifies this
      ensures Valid() && Now() == Ticks(old(Now()), n)
      ensures increase == (if n == 0 then old(increase) else 0) && needPass == old(needPass)
    {
      if n == 0 {
        return;
      }
      increase := 0;
      CatchUp(n);
    }

    /** `n` timer interrupts: what is not suppressed is counted. */
    method Interrupts(n: nat)
      requires Valid() && increase <= 0
      modifies this
      ensures Valid() && TickGate() == Passes(old(TickGate()), n)
      ensures Suppressed(old(TickGate()), n) <= n
      ensures Now() == Ticks(old(Now()), n - Suppressed(old(TickGate()), n))
    {
      ghost var g := TickGate();
      var i := 0;
      while i < n
        invariant 0 <= i <= n && Valid() && TickGate() == Passes(g, i)
        invariant Suppressed(g, i) <= i && Now() == Ticks(old(Now()), i - Suppressed(g, i))
      {
        Hdl();
        i := i + 1;
      }
    }

    /** Enough interrupts after a debt was set: the clock has fallen back by half the
        debt, and the seconds follow the clock. */
    method RepayDebt(n: nat)
      requires Valid() && increase <= 0 && n >= 5 * ((-increase + 1) / 2)
      modifies this
      ensures Valid() && increase == 0
      ensures Debt(old(TickGate())) / 2 <= n && Now() == Ticks(old(Now()), n - Debt(old(TickGate())) / 2)
    {
      DebtRepaid(TickGate(), n);
      Interrupts(n);
    }
  }

  lemma {:induction false} ClockAfter(t: Time, n: nat)
    requires Proper(t)
    ensures Ticks(t, n).clock == (t.clock + n) % U64_RANGE && Proper(Ticks(t, n))
    decreases n
  {
    if n > 0 {
      ClockAfter(t, n - 1);
      Mod64Step(t.clock, n - 1);
    } else {
      ModUnique(t.clock, U64_RANGE, 0, t.clock);
    }
  }
}
