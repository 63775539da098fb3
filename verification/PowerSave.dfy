/** RF power save of the station: the sleep flag, the lock that pairs every sleep with
    one wake-up, and the interrupt enables both of them switch. */
module PowerSave {

  datatype Irq = TxRxMisc | TxRxTimer | RxTrigger | TxTrigger | General | ProtTrigger | MacWakeup | OtherIrq(n: nat)

  /** The interrupts of the MAC that must be off while it sleeps. */
  const MAC_IRQS: set<Irq> := {TxRxMisc, TxRxTimer, RxTrigger, TxTrigger, General, ProtTrigger}

  const WAY_NONE: nat := 0
  const WAY_RW: nat := 1
  const WAY_USER: nat := 4
  const WAY_UPING: nat := 5

  const BEACON_INIT: nat := 0
  const BEACON_TRUE: nat := 1
  const BEACON_FALSE: nat := 2

  /** bk_ps_mode is DTIM; ps_real_sleep, ps_can_sleep, ps_arm_wakeup_way, waited_beacon. */
  datatype Info = Info(dtim: bool, realSleep: nat, canSleep: nat, way: nat, beacon: nat)

  /** The information, ps_lock, the enabled interrupts, and what must never happen: a
      failed wake-up assertion and the "error ps" branch. */
  datatype Ps = Ps(info: Info, lock: nat, enabled: set<Irq>, assertFailed: bool, errorPs: bool)

  function Start(enabled: set<Irq>): Ps {
    Ps(Info(false, 0, 0, WAY_NONE, BEACON_INIT), 1, enabled, false, false)
  }

  predicate Asleep(p: Ps) { p.info.realSleep == 1 }

  /** PS_STA_DTIM_CAN_SLEEP; `up` is the part that depends on the network. */
  predicate MaySleep(i: Info, up: bool) {
    i.dtim && up && (i.beacon == BEACON_TRUE || i.way == WAY_USER) && i.canSleep != 0
  }

  /** power_save_sleep; `busy` stands for doze mode or a pending MAC interrupt, and
      `granted` for what the MAC answers. */
  function Sleep(p: Ps, up: bool, busy: bool, granted: bool): (Ps, bool) {
    if Asleep(p) || !MaySleep(p.info, up) || busy || !granted then (p, false)
    else
      var masked := p.(enabled := p.enabled - MAC_IRQS);
      if p.lock == 0 then (masked.(errorPs := true), true)
      else
        (masked.(lock := p.lock - 1, info := p.info.(realSleep := 1, way := WAY_NONE),
                 enabled := masked.enabled + {MacWakeup}), true)
  }

  /** power_save_wakeup. */
  function Wakeup(p: Ps): Ps {
    p.(info := p.info.(beacon := BEACON_FALSE),
       enabled := p.enabled + MAC_IRQS - {MacWakeup},
       assertFailed := p.assertFailed || p.lock != 0,
       lock := p.lock + 1)
  }

  /** power_save_ieee_dtim_wakeup. */
  function IeeeWakeup(p: Ps): Ps {
    if WAY_NONE < p.info.way <= WAY_USER && p.info.realSleep != 0 then
      var w := Wakeup(p);
      w.(info := w.info.(realSleep := 0, canSleep := 1))
    else p
  }

  /** power_save_dtim_wake, for a status with or without the MAC wake-up bit. */
  function MacWake(p: Ps, bit: bool): Ps {
    if p.info.dtim && p.info.way == WAY_NONE && bit then
      IeeeWakeup(p.(enabled := p.enabled - {MacWakeup}, info := p.info.(way := WAY_RW)))
    else p
  }

  /** power_save_rf_dtim_manual_do_wakeup. */
  function UserWake(p: Ps): Ps {
    if p.info.dtim && (p.info.way == WAY_NONE || p.info.way == WAY_UPING) && p.info.realSleep == 1 then
      var way := if p.info.way == WAY_UPING then WAY_RW else WAY_USER;
      IeeeWakeup(p.(info := p.info.(way := way), enabled := p.enabled - {MacWakeup}))
    else p
  }

  /** power_save_dtim_enable_handler. */
  function Enable(p: Ps, connected: bool): Ps {
    if connected then p.(info := p.info.(canSleep := 1, dtim := true)) else p
  }

  /** power_save_dtim_disable_handler with power_save_dtim_ps_exit. */
  function Disable(p: Ps): Ps {
    p.(info := p.info.(dtim := false, beacon := BEACON_INIT, canSleep := 0, realSleep := 0))
  }

  // ---------- the code ----------

  class RfPowerSave {
    var info: Info
    var lock: nat
    var enabled: set<Irq>
    var saved: set<Irq>
    ghost var assertFailed: bool
    ghost var errorPs: bool

    ghost function Value(): Ps
      reads this
    {
      Ps(info, lock, enabled, assertFailed, errorPs)
    }

    constructor (irqs: set<Irq>)
      ensures Value() == Start(irqs)
    {
      info := Info(false, 0, 0, WAY_NONE, BEACON_INIT);
      lock, enabled, saved, assertFailed, errorPs := 1, irqs, {}, false, false;
    }

    method GoToSleep(up: bool, doze: bool, pending: bool, granted: bool) returns (ret: bool)
      modifies this
      ensures (Value(), ret) == Sleep(old(Value()), up, doze || pending, granted)
    {
      ret := false;
      if info.realSleep == 1 {
        return;
      }
      if !MaySleep(info, up) {
        return;
      }
      if doze {
        return;
      }
      if pending {
        return;
      }
      saved := enabled;
      enabled := enabled - MAC_IRQS;
      if !granted {
        enabled := saved;
        return;
      }
      ret := true;
      if lock > 0 {
        lock := lock - 1;
      } else {
        errorPs := true;
        return;
      }
      info := info.(realSleep := 1, way := WAY_NONE);
      enabled := enabled + {MacWakeup};
    }

    method WakeUp()
      modifies this
      ensures Value() == Wakeup(old(Value()))
    {
      info := info.(beacon := BEACON_FALSE);
      enabled := enabled + MAC_IRQS;
      enabled := enabled - {MacWakeup};
      assertFailed := assertFailed || lock != 0;
      lock := lock + 1;
    }

    method IeeeDtimWakeup()
      modifies this
      ensures Value() == IeeeWakeup(old(Value()))
    {
      if info.way > WAY_NONE && info.way <= WAY_USER && info.realSleep != 0 {
        WakeUp();
        info := info.(realSleep := 0);
        info := info.(canSleep := 1);
      }
    }

    method DtimWake(bit: bool)
      modifies this
      ensures Value() == MacWake(old(Value()), bit)
    {
      if info.dtim && info.way == WAY_NONE {
        if bit {
          enabled := enabled - {MacWakeup};
          info := info.(way := WAY_RW);
          IeeeDtimWakeup();
        }
      }
    }

    method ManualDoWakeup()
      modifies this
      ensures Value() == UserWake(old(Value()))
    {
      if info.dtim && (info.way == WAY_NONE || info.way == WAY_UPING) && info.realSleep == 1 {
        if info.way == WAY_UPING {
          info := info.(way := WAY_RW);
        } else {
          info := info.(way := WAY_USER);
        }
        enabled := enabled - {MacWakeup};
        IeeeDtimWakeup();
      }
    }

    method EnableHandler(connected: bool)
      modifies this
      ensures Value() == Enable(old(Value()), connected)
    {
      if connected {
        info := info.(canSleep := 1);
        info := info.(dtim := true);
      }
    }

    method DisableHandler()
      modifies this
      ensures Value() == Disable(old(Value()))
    {
      info := info.(dtim := false);
      DtimPsExit();
    }

    method DtimPsExit()
      modifies this`info
      ensures info == old(info).(beacon := BEACON_INIT, canSleep := 0, realSleep := 0)
    {
      info := info.(beacon := BEACON_INIT);
      info := info.(canSleep := 0);
      info := info.(realSleep := 0);
    }
  }

  // ---------- whole runs ----------

  datatype Event =
    | TrySleep(up: bool, busy: bool, granted: bool)
    | MacInterrupt(bit: bool)
    | UserRequest
    | EnableDtim(connected: bool)
    | DisableDtim
    | BeaconState(state: nat)

  function Next(p: Ps, e: Event): Ps {
    match e
    case TrySleep(up, busy, granted) => Sleep(p, up, busy, granted).0
    case MacInterrupt(bit) => MacWake(p, bit)
    case UserRequest => UserWake(p)
    case EnableDtim(connected) => Enable(p, connected)
    case DisableDtim => Disable(p)
    case BeaconState(state) => p.(info := p.info.(beacon := state))
  }

  function Run(p: Ps, events: seq<Event>): Ps {
    if events == [] then p else Next(Run(p, events[..|events| - 1]), events[|events| - 1])
  }

  /** ps_real_sleep is 1 exactly when ps_lock is 0. */
  predicate LockStep(p: Ps) { p.info.realSleep <= 1 && p.lock <= 1 && (p.info.realSleep == 1 <==> p.lock == 0) }

  /** Asleep, the MAC's interrupts are off and its wake-up is on; awake it is the other
      way round.  All other interrupts stay as they were. */
  predicate Masked(p: Ps, base: set<Irq>) {
    p.enabled == if Asleep(p) then base - MAC_IRQS + {MacWakeup} else base
  }

  /** A sleeping station is in DTIM mode and waits for its first wake-up reason. */
  predicate Inv(p: Ps, base: set<Irq>) {
    && LockStep(p) && Masked(p, base) && !p.assertFailed && !p.errorPs
    && (Asleep(p) ==> p.info.dtim && p.info.way == WAY_NONE)
  }

  predicate Ordinary(base: set<Irq>) { MAC_IRQS <= base && MacWakeup !in base }

  lemma {:induction false} StepKeeps(p: Ps, e: Event, base: set<Irq>)
    requires Ordinary(base) && Inv(p, base) && (e.DisableDtim? ==> !Asleep(p))
    ensures Inv(Next(p, e), base)
  {
    match e
    case TrySleep(up, busy, granted) =>
      assert p.enabled == base || Asleep(p);
    case MacInterrupt(bit) => WakeRestores(p, base);
    case UserRequest => WakeRestores(p, base);
    case _ =>
  }

  lemma {:induction false} WakeRestores(p: Ps, base: set<Irq>)
    requires Ordinary(base) && Masked(p, base)
    ensures p.enabled - {MacWakeup} + MAC_IRQS - {MacWakeup} == base
    ensures !Asleep(p) ==> p.enabled - {MacWakeup} == base
  {
  }

  /** No disable is handled while the station sleeps. */
  predicate DisabledAwake(p: Ps, events: seq<Event>) {
    forall i :: 0 <= i < |events| && events[i].DisableDtim? ==> !Asleep(Run(p, events[..i]))
  }

  predicate AlwaysLockStep(p: Ps, events: seq<Event>) {
    forall i :: 0 <= i <= |events| ==> LockStep(Run(p, events[..i]))
  }

  lemma {:induction false} RunKeeps(base: set<Irq>, events: seq<Event>)
    requires Ordinary(base) && DisabledAwake(Start(base), events)
    ensures Inv(Run(Start(base), events), base)
  {
    if events != [] {
      var rest, e := events[..|events| - 1], events[|events| - 1];
      forall i | 0 <= i < |rest| && rest[i].DisableDtim?
        ensures !Asleep(Run(Start(base), rest[..i]))
      {
        assert rest[..i] == events[..i];
      }
      RunKeeps(base, rest);
      StepKeeps(Run(Start(base), rest), e, base);
    }
  }

  /** In every run that handles no disable while asleep, the wake-up assertion holds,
      the "error ps" branch is not reached, and the interrupts follow the sleep flag. */
  lemma {:induction false} SleepLockStep(base: set<Irq>, events: seq<Event>)
    requires Ordinary(base) && DisabledAwake(Start(base), events)
    ensures var p := Run(Start(base), events);
            && (p.info.realSleep == 1 <==> p.lock == 0) && !p.assertFailed && !p.errorPs
            && (Asleep(p) ==> MAC_IRQS !! p.enabled && MacWakeup in p.enabled)
            && (!Asleep(p) ==> MAC_IRQS <= p.enabled && MacWakeup !in p.enabled)
            && (forall n :: OtherIrq(n) in p.enabled <==> OtherIrq(n) in base)
  {
    RunKeeps(base, events);
  }

  lemma {:induction false} FirstBadDisable(p: Ps, events: seq<Event>) returns (i: nat)
    requires !DisabledAwake(p, events)
    ensures i < |events| && events[i].DisableDtim? && Asleep(Run(p, events[..i])) && DisabledAwake(p, events[..i])
    decreases |events|
  {
    var j :| 0 <= j < |events| && events[j].DisableDtim? && Asleep(Run(p, events[..j]));
    if DisabledAwake(p, events[..j]) {
      i := j;
    } else {
      i := FirstBadDisable(p, events[..j]);
      assert events[..j][..i] == events[..i];
    }
  }

  /** The lock step holds all through a run exactly when no disable is handled asleep. */
  lemma {:induction false} LockStepIff(base: set<Irq>, events: seq<Event>)
    requires Ordinary(base)
    ensures AlwaysLockStep(Start(base), events) <==> DisabledAwake(Start(base), events)
  {
    if DisabledAwake(Start(base), events) {
      forall i | 0 <= i <= |events|
        ensures LockStep(Run(Start(base), events[..i]))
      {
        PrefixAwake(Start(base), events, i);
        RunKeeps(base, events[..i]);
      }
    } else {
      var i := FirstBadDisable(Start(base), events);
      RunKeeps(base, events[..i]);
      assert events[..i + 1][..i] == events[..i];
      assert !LockStep(Run(Start(base), events[..i + 1]));
    }
  }

  lemma {:induction false} PrefixAwake(p: Ps, events: seq<Event>, i: nat)
    requires DisabledAwake(p, events) && i <= |events|
    ensures DisabledAwake(p, events[..i])
  {
    forall j | 0 <= j < i && events[..i][j].DisableDtim?
      ensures !Asleep(Run(p, events[..i][..j]))
    {
      assert events[..i][..j] == events[..j];
    }
  }

  /** A user wake-up leaves the station awake, so a disable right after it is safe. */
  lemma {:induction false} WakeThenDisable(p: Ps, base: set<Irq>)
    requires Ordinary(base) && Inv(p, base)
    ensures !Asleep(UserWake(p)) && Inv(UserWake(p), base) && Inv(Disable(UserWake(p)), base)
  {
    StepKeeps(p, UserRequest, base);
    StepKeeps(UserWake(p), DisableDtim, base);
  }

  // ----- what wakes the station and what lets it sleep -----

  predicate Awake(p: Ps, base: set<Irq>) { p.info.realSleep == 0 && p.lock == 1 && p.enabled == base }

  /** In every such run a sleeping station is woken by a MAC interrupt with the wake-up
      bit and by a user request, and by no MAC interrupt without the bit. */
  lemma {:induction false} WhatWakes(base: set<Irq>, events: seq<Event>)
    requires Ordinary(base) && DisabledAwake(Start(base), events) && Asleep(Run(Start(base), events))
    ensures var p := Run(Start(base), events);
            && Awake(Next(p, MacInterrupt(true)), base) && Awake(Next(p, UserRequest), base)
            && Next(p, MacInterrupt(false)) == p
  {
    RunKeeps(base, events);
    WakeRestores(Run(Start(base), events), base);
  }

  /** In every such run an awake station falls asleep exactly in DTIM mode, with the
      network up, its beacon heard or a user request behind it, sleep allowed, the MAC
      idle and the sleep granted; otherwise the attempt changes nothing. */
  lemma {:induction false} FallsAsleepIff(base: set<Irq>, events: seq<Event>, up: bool, busy: bool, granted: bool)
    requires Ordinary(base) && DisabledAwake(Start(base), events) && !Asleep(Run(Start(base), events))
    ensures var p := Run(Start(base), events); var q := Next(p, TrySleep(up, busy, granted));
            && (Asleep(q) <==> p.info.dtim && up && (p.info.beacon == 1 || p.info.way == 4) && p.info.canSleep != 0 && !busy && granted)
            && (!Asleep(q) ==> q == p)
  {
    RunKeeps(base, events);
  }

  /** After the MAC has woken it, the station needs its beacon before it sleeps again;
      after a user request it does not. */
  lemma {:induction false} NeedsBeacon(base: set<Irq>, events: seq<Event>, busy: bool, granted: bool)
    requires Ordinary(base) && DisabledAwake(Start(base), events) && Asleep(Run(Start(base), events))
    ensures var p := Run(Start(base), events);
            var woken := Next(p, MacInterrupt(true));
            && !Asleep(Next(woken, TrySleep(true, busy, granted)))
            && Asleep(Next(Next(woken, BeaconState(1)), TrySleep(true, false, true)))
            && Asleep(Next(Next(p, UserRequest), TrySleep(true, false, true)))
  {
    RunKeeps(base, events);
    WakeRestores(Run(Start(base), events), base);
  }

  /** A disable forgets the beacon: a station enabled again needs it anew, unless the
      user woke it. */
  lemma {:induction false} DisableForgets(base: set<Irq>, events: seq<Event>)
    requires Ordinary(base) && DisabledAwake(Start(base), events) && !Asleep(Run(Start(base), events))
    ensures var p := Run(Start(base), events);
            Asleep(Next(Next(Next(p, DisableDtim), EnableDtim(true)), TrySleep(true, false, true))) <==> p.info.way == 4
    ensures var i := Next(Run(Start(base), events), DisableDtim).info; !i.dtim && i.canSleep == 0 && i.beacon == 0
  {
    RunKeeps(base, events);
  }

  /** The only reasons a run gives for a wake-up are none, the MAC's and the user's. */
  lemma {:induction false} WakeReasons(base: set<Irq>, events: seq<Event>)
    ensures Run(Start(base), events).info.way in {0, 1, 4}
  {
    if events != [] {
      WakeReasons(base, events[..|events| - 1]);
    }
  }

  /** For any reason a sleeping station could have: the wake-up happens for the reasons 1
      to 4, and the user brings it about with none and with 5, which then becomes 1. */
  lemma {:induction false} AnyReason(p: Ps)
    requires Asleep(p)
    ensures Asleep(IeeeWakeup(p)) <==> p.info.way !in {1, 2, 3, 4}
    ensures Asleep(UserWake(p)) <==> !(p.info.dtim && p.info.way in {0, 5})
    ensures !Asleep(UserWake(p)) ==> UserWake(p).info.way == if p.info.way == 5 then 1 else 4
  {
  }

  /** A disabled station does not sleep before it is enabled again. */
  lemma {:induction false} DisabledStaysAwake(p: Ps, events: seq<Event>)
    requires EnableDtim(true) !in events
    ensures var q := Run(Next(p, DisableDtim), events); !q.info.dtim && !Asleep(q)
  {
    if events != [] {
      var n := |events| - 1;
      DisabledStaysAwake(p, events[..n]);
      assert events[n] in events;
    }
  }

  /** Enabling a connected station puts it into DTIM mode with sleep allowed. */
  lemma {:induction false} EnabledMaySleep(base: set<Irq>, events: seq<Event>)
    requires Ordinary(base) && DisabledAwake(Start(base), events) && !Asleep(Run(Start(base), events))
    ensures var p := Next(Next(Run(Start(base), events), EnableDtim(true)), BeaconState(1));
            Asleep(Next(p, TrySleep(true, false, true)))
    ensures Next(Run(Start(base), events), EnableDtim(false)) == Run(Start(base), events)
  {
    RunKeeps(base, events);
  }

  /** Any events on a power-save object end as the run of the functions does. */
  method RunEvents(base: set<Irq>, events: seq<Event>) returns (asleep: bool, locked: nat, enabled: set<Irq>)
    requires Ordinary(base)
    ensures var p := Run(Start(base), events); asleep == Asleep(p) && locked == p.lock && enabled == p.enabled
    ensures DisabledAwake(Start(base), events) ==>
      (asleep <==> locked == 0) && enabled == if asleep then base - MAC_IRQS + {MacWakeup} else base
  {
    var rf := new RfPowerSave(base);
    var i := 0;
    while i < |events|
      invariant 0 <= i <= |events| && fresh(rf) && rf.Value() == Run(Start(base), events[..i])
    {
      assert events[..i + 1][..i] == events[..i];
      Perform(rf, events[i]);
      i := i + 1;
    }
    assert events[..i] == events;
    asleep, locked, enabled := rf.info.realSleep == 1, rf.lock, rf.enabled;
    if DisabledAwake(Start(base), events) {
      RunKeeps(base, events);
    }
  }

  method Perform(rf: RfPowerSave, e: Event)
    modifies rf
    ensures rf.Value() == Next(old(rf.Value()), e)
  {
    match e {
      case TrySleep(up, busy, granted) =>
        var _ := rf.GoToSleep(up, busy, false, granted);
      case MacInterrupt(bit) => rf.DtimWake(bit);
      case UserRequest => rf.ManualDoWakeup();
      case EnableDtim(connected) => rf.EnableHandler(connected);
      case DisableDtim => rf.DisableHandler();
      case BeaconState(state) => rf.info := rf.info.(beacon := state);
    }
  }

  // ---------- the core thread and its gate before sleep ----------

  datatype Message = DisableMessage | OtherMessage

  /** Where the core thread is in power_save_rf_sleep_check: outside it, behind the test
      whether the station may sleep, behind the read of the kernel events, behind the
      read of the message queue. */
  datatype Gate = Outside | MayPass | SawNoEvent | SawNoMessage

  /** The core thread around the power-save state: its message queue, whether a kernel
      event is set, whether a disable request waits for the kernel, whether the wireless
      library has taken it without calling the disable handler yet, and the gate. */
  datatype Core = Core(p: Ps, queue: seq<Message>, kernel: bool, requested: bool, owed: bool, gate: Gate)

  function CoreStart(base: set<Irq>): Core { Core(Start(base), [], false, false, false, Outside) }

  /** HandleMessage, Scheduler and the four steps of the gate belong to the core thread;
      everything else may come from interrupts and other threads at any time. */
  datatype CoreEvent =
    | Post(m: Message)
    | RaiseKernelEvent
    | LibraryDisables
    | MacWakes(bit: bool)
    | UserWakes
    | Enables(connected: bool)
    | Beacon(state: nat)
    | HandleMessage
    | Scheduler(defers: bool)
    | AskMaySleep(up: bool)
    | ReadEvents
    | ReadQueue
    | LockedSleep(up: bool, busy: bool, granted: bool)

  /** Waking up sets kernel events. */
  function Woken(c: Core, p: Ps): Core { c.(p := p, kernel := c.kernel || (Asleep(c.p) && !Asleep(p))) }

  /** The disable message wakes the station and asks the kernel. */
  function Handled(c: Core): Core {
    if c.queue == [] then c
    else
      var rest := c.(queue := c.queue[1..]);
      if c.queue[0].OtherMessage? then rest
      else
        var w := Woken(rest, UserWake(c.p));
        if w.p.info.dtim then w.(kernel := true, requested := true) else w
  }

  /** The kernel hands a request to the library, which calls the handler at once or defers it. */
  function Scheduled(c: Core, defers: bool): Core {
    if !c.requested then c.(kernel := false)
    else if defers then c.(kernel := false, requested := false, owed := true)
    else c.(p := Disable(c.p), kernel := false, requested := false)
  }

  /** One step; a step of the core thread that it is not at changes nothing. */
  function CoreNext(c: Core, e: CoreEvent): Core {
    match e
    case Post(m) => c.(queue := c.queue + [m])
    case RaiseKernelEvent => c.(kernel := true)
    case LibraryDisables => if c.owed then c.(p := Disable(c.p), owed := false) else c
    case MacWakes(bit) => Woken(c, MacWake(c.p, bit))
    case UserWakes => Woken(c, UserWake(c.p))
    case Enables(connected) => c.(p := Enable(c.p, connected))
    case Beacon(state) => c.(p := c.p.(info := c.p.info.(beacon := state)))
    case HandleMessage => if c.gate.Outside? then Handled(c) else c
    case Scheduler(defers) => if c.gate.Outside? then Scheduled(c, defers) else c
    case AskMaySleep(up) => if c.gate.Outside? && MaySleep(c.p.info, up) then c.(gate := MayPass) else c
    case ReadEvents => if c.gate.MayPass? then c.(gate := if c.kernel then Outside else SawNoEvent) else c
    case ReadQueue => if c.gate.SawNoEvent? then c.(gate := if c.queue == [] then SawNoMessage else Outside) else c
    case LockedSleep(up, busy, granted) =>
      if c.gate.SawNoMessage? then c.(p := Sleep(c.p, up, busy, granted).0, gate := Outside) else c
  }

  function CoreRun(c: Core, events: seq<CoreEvent>): Core {
    if events == [] then c else CoreNext(CoreRun(c, events[..|events| - 1]), events[|events| - 1])
  }

  /** A request that waits for the kernel keeps a kernel event set and the station awake,
      and none waits once the gate has seen no event: only the core thread makes them. */
  ghost predicate CoreInv(c: Core, base: set<Irq>) {
    && Inv(c.p, base)
    && (c.requested ==> c.kernel && !Asleep(c.p))
    && (c.gate.SawNoEvent? || c.gate.SawNoMessage? ==> !c.requested)
  }

  /** The library calls a deferred handler while the station sleeps. */
  predicate LateDisable(c: Core, e: CoreEvent) { e.LibraryDisables? && c.owed && Asleep(c.p) }

  lemma {:induction false} MessageKeeps(c: Core, base: set<Irq>)
    requires Ordinary(base) && CoreInv(c, base) && c.gate.Outside?
    ensures CoreInv(Handled(c), base)
  {
    WakeThenDisable(c.p, base);
  }

  lemma {:induction false} CoreStep(c: Core, e: CoreEvent, base: set<Irq>)
    requires Ordinary(base) && CoreInv(c, base) && !LateDisable(c, e)
    ensures CoreInv(CoreNext(c, e), base)
  {
    match e
    case HandleMessage => if c.gate.Outside? { MessageKeeps(c, base); }
    case Scheduler(_) => if c.requested { StepKeeps(c.p, DisableDtim, base); }
    case LibraryDisables => if c.owed { StepKeeps(c.p, DisableDtim, base); }
    case LockedSleep(up, busy, granted) => StepKeeps(c.p, TrySleep(up, busy, granted), base);
    case MacWakes(bit) => StepKeeps(c.p, MacInterrupt(bit), base);
    case UserWakes => StepKeeps(c.p, UserRequest, base);
    case Enables(connected) => StepKeeps(c.p, EnableDtim(connected), base);
    case Beacon(state) => StepKeeps(c.p, BeaconState(state), base);
    case _ =>
  }

  predicate InTime(c: Core, events: seq<CoreEvent>) {
    forall i :: 0 <= i < |events| ==> !LateDisable(CoreRun(c, events[..i]), events[i])
  }

  lemma {:induction false} InTimePrefix(c: Core, events: seq<CoreEvent>, i: nat)
    requires InTime(c, events) && i <= |events|
    ensures InTime(c, events[..i])
  {
    forall j | 0 <= j < i
      ensures !LateDisable(CoreRun(c, events[..i][..j]), events[..i][j])
    {
      assert events[..i][..j] == events[..j];
    }
  }

  lemma {:induction false} CoreKeeps(base: set<Irq>, events: seq<CoreEvent>)
    requires Ordinary(base) && InTime(CoreStart(base), events)
    ensures CoreInv(CoreRun(CoreStart(base), events), base)
  {
    if events != [] {
      var n := |events| - 1;
      InTimePrefix(CoreStart(base), events, n);
      CoreKeeps(base, events[..n]);
      CoreStep(CoreRun(CoreStart(base), events[..n]), events[n], base);
    }
  }

  predicate CoreLockStep(c: Core, events: seq<CoreEvent>) {
    forall i :: 0 <= i <= |events| ==> LockStep(CoreRun(c, events[..i]).p)
  }

  lemma {:induction false} FirstLate(c: Core, events: seq<CoreEvent>) returns (i: nat)
    requires !InTime(c, events)
    ensures i < |events| && LateDisable(CoreRun(c, events[..i]), events[i]) && InTime(c, events[..i])
    decreases |events|
  {
    var j :| 0 <= j < |events| && LateDisable(CoreRun(c, events[..j]), events[j]);
    if InTime(c, events[..j]) {
      i := j;
    } else {
      i := FirstLate(c, events[..j]);
      assert events[..j][..i] == events[..i];
    }
  }

  /** In every interleaving with the gate's reads and the locked sleep, sleep flag and
      lock agree all through exactly when the library never calls a deferred disable
      handler asleep. */
  lemma {:induction false} GateIff(base: set<Irq>, events: seq<CoreEvent>)
    requires Ordinary(base)
    ensures CoreLockStep(CoreStart(base), events) <==> InTime(CoreStart(base), events)
  {
    var c := CoreStart(base);
    if InTime(c, events) {
      forall i | 0 <= i <= |events|
        ensures LockStep(CoreRun(c, events[..i]).p)
      {
        InTimePrefix(c, events, i);
        CoreKeeps(base, events[..i]);
      }
    } else {
      var i := FirstLate(c, events);
      CoreKeeps(base, events[..i]);
      assert events[..i + 1][..i] == events[..i];
      assert !LockStep(CoreRun(c, events[..i + 1]).p);
    }
  }

  /** A library that never defers keeps the lock step in every interleaving: no sleep
      comes between the handling of the disable message and the handler. */
  lemma {:induction false} PromptLibrary(base: set<Irq>, events: seq<CoreEvent>)
    requires Ordinary(base) && forall i :: 0 <= i < |events| ==> events[i] != Scheduler(true)
    ensures CoreLockStep(CoreStart(base), events)
    ensures var p := CoreRun(CoreStart(base), events).p; !p.assertFailed && !p.errorPs
  {
    var c := CoreStart(base);
    forall i | 0 <= i < |events|
      ensures !LateDisable(CoreRun(c, events[..i]), events[i])
    {
      NothingOwed(c, events, i);
    }
    GateIff(base, events);
    CoreKeeps(base, events);
  }

  lemma {:induction false} NothingOwed(c: Core, events: seq<CoreEvent>, i: nat)
    requires !c.owed && i <= |events| && forall j :: 0 <= j < |events| ==> events[j] != Scheduler(true)
    ensures !CoreRun(c, events[..i]).owed
    decreases i
  {
    if i > 0 {
      NothingOwed(c, events, i - 1);
      assert events[..i][..i - 1] == events[..i - 1];
    }
  }

  /** The station falls asleep only in the locked sleep, and then no disable request
      waits for the kernel; messages and events may have come since the gate's reads. */
  lemma {:induction false} SleepWindow(base: set<Irq>, events: seq<CoreEvent>, e: CoreEvent)
    requires Ordinary(base) && InTime(CoreStart(base), events)
    ensures var c := CoreRun(CoreStart(base), events);
            !Asleep(c.p) && Asleep(CoreNext(c, e).p) ==> e.LockedSleep? && c.gate.SawNoMessage? && !c.requested
  {
    CoreKeeps(base, events);
    AwakeOtherwise(CoreRun(CoreStart(base), events), e);
  }

  lemma {:induction false} AwakeOtherwise(c: Core, e: CoreEvent)
    ensures !Asleep(c.p) && !(e.LockedSleep? && c.gate.SawNoMessage?) ==> !Asleep(CoreNext(c, e).p)
  {
  }

  /** A station in DTIM mode that has heard its beacon, with the core thread at the locked sleep. */
  function AtLockedSleep(c: Core): Core {
    CoreNext(CoreNext(CoreNext(c, AskMaySleep(true)), ReadEvents), ReadQueue)
  }

  function Listening(c: Core): Core { CoreNext(CoreNext(c, Enables(true)), Beacon(BEACON_TRUE)) }

  /** Such a message does come in between: the station sleeps with a disable queued. */
  lemma {:induction false} SleepsWithMessage(base: set<Irq>)
    requires Ordinary(base)
    ensures var c := CoreNext(CoreNext(AtLockedSleep(Listening(CoreStart(base))), Post(DisableMessage)), LockedSleep(true, false, true));
            && Asleep(c.p) && c.queue == [DisableMessage]
            && !Asleep(CoreNext(c, HandleMessage).p)
  {
    var c0 := AtLockedSleep(Listening(CoreStart(base)));
    assert c0.gate.SawNoMessage? && c0.queue == [];
    var c := CoreNext(CoreNext(c0, Post(DisableMessage)), LockedSleep(true, false, true));
    assert Asleep(c.p) && c.p.info.way == WAY_NONE && c.p.info.dtim;
  }

  /** A deferred handler does break the lock step: the library takes the request, a sleep
      is granted, the handler comes, and the next sleep ends in "error ps" with the MAC's
      interrupts off. */
  lemma {:induction false} DeferredBreaks(base: set<Irq>)
    requires Ordinary(base)
    ensures var sleep := LockedSleep(true, false, true);
            var c1 := CoreNext(CoreNext(CoreNext(AtLockedSleep(Listening(CoreStart(base))), sleep), Post(DisableMessage)), HandleMessage);
            var c2 := CoreNext(CoreNext(AtLockedSleep(CoreNext(c1, Scheduler(true))), sleep), LibraryDisables);
            var c3 := CoreNext(AtLockedSleep(Listening(c2)), sleep);
            && c1.requested && !Asleep(c1.p)
            && c2.p.info.realSleep == 0 && c2.p.lock == 0
            && c3.p.errorPs && c3.p.info.realSleep == 0 && MAC_IRQS !! c3.p.enabled
  {
    var sleep := LockedSleep(true, false, true);
    var s := CoreNext(AtLockedSleep(Listening(CoreStart(base))), sleep);
    assert Asleep(s.p) && s.p.lock == 0 && s.p.info.way == WAY_NONE && s.queue == [] && s.gate.Outside?;
    var c1 := CoreNext(CoreNext(s, Post(DisableMessage)), HandleMessage);
    assert !Asleep(c1.p) && c1.p.lock == 1 && c1.p.info.way == WAY_USER && c1.p.info.canSleep == 1 && c1.queue == [] && c1.gate.Outside?;
    var d := CoreNext(c1, Scheduler(true));
    assert !d.kernel && d.owed && MaySleep(d.p.info, true);
    var t := CoreNext(AtLockedSleep(d), sleep);
    assert Asleep(t.p) && t.p.lock == 0 && t.owed && !t.kernel && t.queue == [] && t.gate.Outside?;
  }
}
