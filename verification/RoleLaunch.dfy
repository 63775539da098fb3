/** The role launcher: two request slots per role, two one-shot timers whose
    callbacks run on one timer task, and a PAUSE/PENDING/DOING handshake with
    another thread.

    The launcher is a step system.  Every section that the program runs with
    interrupts disabled is one step, and code between two such sections is cut
    between its accesses to the slots, the status bits and the timers.  A guard
    reads its cancel, status and channel-switch words in one step: other threads
    may set them to any combination at any time, so whatever separate reads could
    return, one read can return as well.  `Next` is total: an
    action that is not enabled leaves the state alone, so `Exec` over any list of
    actions is a run, and every interleaving is some list of actions. */
module RoleLaunch {
  import opened Options

  datatype Role = Sta | Ap

  function Other(r: Role): Role { if r == Sta then Ap else Sta }

  datatype ReqType = ReqSta | ReqAp | ReqPureStaScan | ReqDelifSta | ReqDelifAp | ReqUnknown

  datatype LaunchType = Asap | Reconn

  /** One heap-allocated RL_ENTITY_T; `id` stands for its address. */
  datatype Entity = Entity(id: nat, req: ReqType, launchType: LaunchType, relaunchLimit: nat, launchCount: nat)

  /** Words that other threads write at any time. */
  datatype Flags = Flags(staCancel: bool, staStatus: nat, apCancel: bool, apStatus: nat, csa: nat)

  const STA_INITING := 1
  const STA_SCAN_OVER := 3
  const STA_CONNECTING := 4
  const STA_DHCPING := 5
  const CHANNEL_SWITCHING := 6
  const CHANNEL_SWITCHED := 7
  const STA_LAUNCHED := 9
  const STA_LAUNCH_FAILED := 10
  const AP_TRANSMITTED_BCN := 0x14
  const AP_LAUNCHED := 0x15
  const CANCEL := 0x8000

  /** Where the timer task is.  `first` is true while the role that
      pre_entity_type named is being served, false for the second role. */
  datatype Pc =
    | Idle
    | EnterSnap
    | EnterTest(sta: Option<ReqType>, ap: Option<ReqType>)
    | EnterSta(sta: Option<ReqType>, ap: Option<ReqType>)
    | EnterAp(ap: Option<ReqType>)
    | EnterClear
    | Dispatch
    | Begin(role: Role, first: bool)
    | Guard(role: Role, first: bool, preCancel: bool)
    | Test(role: Role, first: bool, local: Option<Entity>, replacing: bool)
    | Install(role: Role, first: bool, local: Option<Entity>, replacing: bool)
    | Starting(role: Role, first: bool, entity: Entity)
    | ClearDoing(role: Role, first: bool, cont: bool)
    | Discard(role: Role, first: bool, local: Option<Entity>, replacing: bool)
    | Relaunch

  datatype Pauser = Running | Waiting | Critical

  datatype PreType = NoEntity | PreSta | PreAp

  datatype Slots = Slots(prevSta: Option<Entity>, folSta: Option<Entity>, prevAp: Option<Entity>, folAp: Option<Entity>)

  /** The bits of rl_status that the launcher reads. */
  datatype Bits = Bits(pause: bool, pending: bool, doing: bool, restartHold: bool, restartSt: bool)

  /** The two timers and the one-deep request socket the enter timer drains. */
  datatype Timers = Timers(rlArmed: bool, enterArmed: bool, sockSta: Option<ReqType>, sockAp: Option<ReqType>)

  /** `allocs` counts allocations, `freed` lists every rl_free_entity in order and
      `starts` every rl_sta/ap_request_start, so that runs can be compared. */
  datatype Log = Log(allocs: nat, freed: seq<nat>, starts: seq<Entity>)

  datatype State = State(
    slots: Slots, bits: Bits, timers: Timers, flags: Flags,
    preType: PreType, pc: Pc, pauser: Pauser, log: Log)

  const INIT: State := State(Slots(None, None, None, None), Bits(false, false, false, false, false),
    Timers(false, false, None, None), Flags(false, 0, false, 0, 0), NoEntity, Idle, Running, Log(0, [], []))

  datatype Action =
    | RequestSta(req: ReqType)
    | RequestAp(req: ReqType)
    | FireEnter
    | FireLaunch
    | Task
    | WriteFlags(flags: Flags)
    | WriteRestart(hold: bool, st: bool)
    | PauseSet
    | SeeIdle
    | PauseClear

  // ---------- slots ----------

  function Prev(q: Slots, r: Role): Option<Entity> { if r == Sta then q.prevSta else q.prevAp }

  function Fol(q: Slots, r: Role): Option<Entity> { if r == Sta then q.folSta else q.folAp }

  function SetPrev(q: Slots, r: Role, e: Option<Entity>): Slots {
    if r == Sta then q.(prevSta := e) else q.(prevAp := e)
  }

  function SetFol(q: Slots, r: Role, e: Option<Entity>): Slots {
    if r == Sta then q.(folSta := e) else q.(folAp := e)
  }

  predicate Hold(b: Bits) { b.restartHold && !b.restartSt }

  function Freeing(l: Log, e: Option<Entity>): Log {
    if e.Some? then l.(freed := l.freed + [e.value.id]) else l
  }

  function Alloc(l: Log, req: ReqType): Entity { Entity(l.allocs, req, Asap, 0, 0) }

  // ---------- guards ----------

  /** rl_sta_may_next_launch */
  predicate StaMayNext(f: Flags) {
    && f.csa != CHANNEL_SWITCHING
    && (|| f.csa == CHANNEL_SWITCHED
        || (f.staCancel && f.staStatus in {STA_DHCPING, STA_INITING, STA_SCAN_OVER, STA_CONNECTING})
        || f.staStatus == STA_LAUNCH_FAILED
        || f.staStatus == STA_LAUNCHED)
  }

  /** rl_ap_may_next_launch: without a cancel the switching check is skipped. */
  predicate ApMayNext(f: Flags, preCancel: bool) {
    || !preCancel
    || (&& f.csa != CHANNEL_SWITCHING
        && (f.apStatus == AP_TRANSMITTED_BCN + CANCEL || f.apStatus == AP_LAUNCHED || f.apStatus == AP_LAUNCHED + CANCEL))
  }

  predicate MayNext(f: Flags, r: Role, preCancel: bool) {
    if r == Sta then StaMayNext(f) else ApMayNext(f, preCancel)
  }

  function SetCancel(f: Flags, r: Role): Flags {
    if r == Sta then f.(staCancel := true) else f.(apCancel := true)
  }

  /** What rl_sta_request_start and rl_ap_request_start do to the launcher's own words. */
  function StartEffect(f: Flags, req: ReqType): Flags {
    match req
    case ReqSta => f.(staCancel := false, staStatus := 0)
    case ReqPureStaScan => f.(staCancel := false, staStatus := 0)
    case ReqAp => f.(apCancel := false, apStatus := 0)
    case _ => f
  }

  // ---------- the enter timer callback ----------

  function Typed(t: PreType, role: Role): PreType {
    if t == NoEntity then (if role == Sta then PreSta else PreAp) else t
  }

  /** _sta_request_enter and _ap_request_enter: one locked section that starts the
      request at once, queues it, or drops it, and arms the launch timer in the
      last two cases.  A restart hold refuses station requests only. */
  function RequestEnter(s: State, r: Role, req: ReqType): State {
    var e := Alloc(s.log, req);
    var held := r == Sta && Hold(s.bits);
    if s.slots.prevAp == None && s.slots.prevSta == None && !held then
      s.(slots := SetPrev(s.slots, r, Some(e)), flags := StartEffect(s.flags, req), preType := Typed(s.preType, r),
         log := s.log.(allocs := s.log.allocs + 1, starts := s.log.starts + [e]))
    else if Fol(s.slots, r) == None && !held then
      s.(slots := SetFol(s.slots, r, Some(e)), timers := s.timers.(rlArmed := true), preType := Typed(s.preType, r),
         log := s.log.(allocs := s.log.allocs + 1))
    else
      s.(timers := s.timers.(rlArmed := true))
  }

  // ---------- the launch timer callback ----------

  /** Leaving rl_launch_sta or rl_launch_ap with LAUNCH_STATUS_CONT or _OVER. */
  function Leave(s: State, r: Role, first: bool, cont: bool): State {
    if cont then s.(pc := Relaunch)
    else if first then s.(preType := if r == Sta then PreAp else PreSta, pc := Begin(Other(r), false))
    else s.(pc := Idle)
  }

  function BeginStep(s: State, r: Role, first: bool): State {
    match Prev(s.slots, r)
    case None =>
      if Fol(s.slots, r) == None then Leave(s, r, first, false)
      else s.(slots := SetFol(s.slots, r, None), pc := Test(r, first, Fol(s.slots, r), false))
    case Some(p) =>
      var asap := Fol(s.slots, r).Some? && Fol(s.slots, r).value.launchType == Asap;
      var spent := p.relaunchLimit != 0 && p.launchCount >= p.relaunchLimit;
      s.(flags := if asap || spent then SetCancel(s.flags, r) else s.flags, pc := Guard(r, first, asap || spent))
  }

  /** The previous entity is freed here, but the slot keeps pointing at it until
      the Install or Discard step. */
  function GuardStep(s: State, r: Role, first: bool, preCancel: bool): State {
    if MayNext(s.flags, r, preCancel) then
      s.(log := Freeing(s.log, Prev(s.slots, r)), slots := SetFol(s.slots, r, None),
         pc := Test(r, first, Fol(s.slots, r), true))
    else
      Leave(s, r, first, true)
  }

  function TestStep(s: State, r: Role, first: bool, local: Option<Entity>, replacing: bool): State {
    if !s.bits.pause && !(r == Sta && Hold(s.bits)) then
      s.(bits := s.bits.(doing := true), pc := Install(r, first, local, replacing))
    else
      s.(pc := Discard(r, first, local, replacing))
  }

  function InstallStep(s: State, r: Role, first: bool, local: Option<Entity>): State {
    match local
    case None => s.(slots := SetPrev(s.slots, r, None), pc := ClearDoing(r, first, false))
    case Some(e) =>
      s.(slots := SetPrev(s.slots, r, local),
         flags := if r == Ap then s.flags.(apCancel := false, apStatus := 0) else s.flags,
         log := s.log.(starts := s.log.starts + [e]), pc := Starting(r, first, e))
  }

  function DiscardStep(s: State, r: Role, first: bool, local: Option<Entity>, replacing: bool): State {
    Leave(s.(log := Freeing(s.log, local), slots := if replacing then SetPrev(s.slots, r, None) else s.slots),
          r, first, false)
  }

  function EnterStep(s: State): State
    requires InEnterCallback(s.pc)
  {
    match s.pc
    case EnterSnap =>
      s.(timers := s.timers.(sockSta := None, sockAp := None), pc := EnterTest(s.timers.sockSta, s.timers.sockAp))
    case EnterTest(sta, ap) =>
      if s.bits.pause then s.(pc := Idle) else s.(bits := s.bits.(pending := true), pc := EnterSta(sta, ap))
    case EnterSta(sta, ap) =>
      (if sta.Some? then RequestEnter(s, Sta, sta.value) else s).(pc := EnterAp(ap))
    case EnterAp(ap) =>
      (if ap.Some? then RequestEnter(s, Ap, ap.value) else s).(pc := EnterClear)
    case EnterClear => s.(bits := s.bits.(pending := false), pc := Idle)
  }

  function LaunchStep(s: State): State
    requires InLaunch(s.pc)
  {
    match s.pc
    case Dispatch =>
      s.(pc := if s.preType == NoEntity then Idle else Begin(if s.preType == PreSta then Sta else Ap, true))
    case Begin(r, first) => BeginStep(s, r, first)
    case Guard(r, first, preCancel) => GuardStep(s, r, first, preCancel)
    case Test(r, first, local, replacing) => TestStep(s, r, first, local, replacing)
    case Install(r, first, local, _) => InstallStep(s, r, first, local)
    case Starting(r, first, e) =>
      s.(flags := StartEffect(s.flags, e.req), pc := ClearDoing(r, first, true))
    case ClearDoing(r, first, cont) => Leave(s.(bits := s.bits.(doing := false)), r, first, cont)
    case Discard(r, first, local, replacing) => DiscardStep(s, r, first, local, replacing)
    case Relaunch => s.(timers := s.timers.(rlArmed := true), pc := Idle)
  }

  predicate InEnterCallback(pc: Pc) {
    pc.EnterSnap? || pc.EnterTest? || pc.EnterSta? || pc.EnterAp? || pc.EnterClear?
  }

  predicate InLaunch(pc: Pc) { !pc.Idle? && !InEnterCallback(pc) }

  /** One step of one thread. */
  function Next(s: State, a: Action): State {
    match a
    case RequestSta(req) => s.(timers := s.timers.(sockSta := Some(req), enterArmed := true))
    case RequestAp(req) => s.(timers := s.timers.(sockAp := Some(req), enterArmed := true))
    case FireEnter =>
      if s.pc == Idle && s.timers.enterArmed then s.(timers := s.timers.(enterArmed := false), pc := EnterSnap) else s
    case FireLaunch =>
      if s.pc == Idle && s.timers.rlArmed then s.(timers := s.timers.(rlArmed := false), pc := Dispatch) else s
    case Task => if s.pc == Idle then s else if InEnterCallback(s.pc) then EnterStep(s) else LaunchStep(s)
    case WriteFlags(f) => s.(flags := f)
    case WriteRestart(hold, st) => s.(bits := s.bits.(restartHold := hold, restartSt := st))
    case PauseSet => if s.pauser == Running then s.(bits := s.bits.(pause := true), pauser := Waiting) else s
    case SeeIdle => if s.pauser == Waiting && StatusIsIdle(s.bits) then s.(pauser := Critical) else s
    case PauseClear => if s.pauser == Critical then s.(bits := s.bits.(pause := false), pauser := Running) else s
  }

  /** rl_status_is_idle: no low status bit other than PAUSE. */
  predicate StatusIsIdle(b: Bits) { !b.pending && !b.doing }

  function Exec(s: State, acts: seq<Action>): State
    decreases |acts|
  {
    if acts == [] then s else Next(Exec(s, acts[..|acts| - 1]), acts[|acts| - 1])
  }

  // ---------- invariant ----------

  /** rl_sta_request_start or rl_ap_request_start has been called and has not returned. */
  predicate StartRunning(s: State) { s.pc.Starting? }

  predicate UnderPending(pc: Pc) { pc.EnterSta? || pc.EnterAp? || pc.EnterClear? }

  predicate UnderDoing(pc: Pc) { pc.Install? || pc.Starting? || pc.ClearDoing? }

  /** Status bits follow the program counter; PAUSE follows the pausing thread,
      and the timer task is outside every start while that thread is in its section. */
  predicate Handshake(s: State) {
    && (s.bits.pending <==> UnderPending(s.pc))
    && (s.bits.doing <==> UnderDoing(s.pc))
    && (s.bits.pause <==> s.pauser != Running)
    && (s.pauser == Critical ==> StatusIsIdle(s.bits))
  }

  predicate RoleEmpty(q: Slots, r: Role) { Prev(q, r) == None && Fol(q, r) == None }

  predicate AllEmpty(q: Slots) { RoleEmpty(q, Sta) && RoleEmpty(q, Ap) }

  predicate HasFollowing(q: Slots) { q.folSta.Some? || q.folAp.Some? }

  /** Local variable pre_entity holds an entity that no slot owns any more. */
  predicate Carrying(pc: Pc) { pc.Test? || pc.Install? || pc.Discard? }

  /** The previous slot of `r` still points at an entity that was freed. */
  predicate Dangling(pc: Pc, r: Role) { Carrying(pc) && pc.role == r && pc.replacing }

  predicate LaterRoleEmpty(q: Slots, r: Role, first: bool) { first || RoleEmpty(q, Other(r)) }

  /** Which slots can be occupied at each point of a callback. */
  predicate Occupancy(s: State) {
    match s.pc
    case Begin(r, first) => LaterRoleEmpty(s.slots, r, first)
    case Guard(r, first, _) => Prev(s.slots, r).Some? && LaterRoleEmpty(s.slots, r, first)
    case Test(r, first, _, rep) => Fol(s.slots, r) == None && (rep <==> Prev(s.slots, r).Some?) && LaterRoleEmpty(s.slots, r, first)
    case Install(r, first, _, rep) => Fol(s.slots, r) == None && (rep <==> Prev(s.slots, r).Some?) && LaterRoleEmpty(s.slots, r, first)
    case Discard(r, first, _, rep) => Fol(s.slots, r) == None && (rep <==> Prev(s.slots, r).Some?) && LaterRoleEmpty(s.slots, r, first)
    case Starting(r, _, e) => Prev(s.slots, r) == Some(e)
    case ClearDoing(r, first, cont) => cont || (RoleEmpty(s.slots, r) && LaterRoleEmpty(s.slots, r, first))
    case Dispatch => true
    case Relaunch => true
    case _ => HasFollowing(s.slots) ==> s.timers.rlArmed
  }

  predicate TypeKnown(s: State) {
    s.preType == NoEntity ==> AllEmpty(s.slots) && (!InLaunch(s.pc) || s.pc.Dispatch?)
  }

  function Holds(e: Option<Entity>, id: nat): nat { if e.Some? && e.value.id == id then 1 else 0 }

  /** How many slots and locals own entity `id`. */
  function Owners(s: State, id: nat): nat {
    (if Dangling(s.pc, Sta) then 0 else Holds(s.slots.prevSta, id)) + Holds(s.slots.folSta, id) +
    (if Dangling(s.pc, Ap) then 0 else Holds(s.slots.prevAp, id)) + Holds(s.slots.folAp, id) +
    (if Carrying(s.pc) then Holds(s.pc.local, id) else 0)
  }

  /** How often entity `id` was freed. */
  function Frees(l: Log, id: nat): nat { multiset(l.freed)[id] }

  function Total(s: State, id: nat): nat { Owners(s, id) + Frees(s.log, id) }

  ghost predicate Owned(s: State) {
    forall id: nat :: Total(s, id) == if id < s.log.allocs then 1 else 0
  }

  ghost predicate Inv(s: State) { Handshake(s) && Occupancy(s) && TypeKnown(s) && Owned(s) }

  // ---------- every step keeps the invariant ----------

  lemma {:induction false} LaunchKeepsHandshake(s: State)
    requires Handshake(s) && InLaunch(s.pc)
    ensures Handshake(LaunchStep(s))
  {
  }

  lemma {:induction false} HandshakeStep(s: State, a: Action)
    requires Handshake(s)
    ensures Handshake(Next(s, a))
  {
    if a == Task && InLaunch(s.pc) {
      LaunchKeepsHandshake(s);
    }
  }

  lemma {:induction false} LaunchKeepsOccupancy(s: State)
    requires Occupancy(s) && TypeKnown(s) && InLaunch(s.pc)
    ensures Occupancy(LaunchStep(s)) && TypeKnown(LaunchStep(s))
  {
  }

  lemma {:induction false} OccupancyStep(s: State, a: Action)
    requires Occupancy(s) && TypeKnown(s)
    ensures Occupancy(Next(s, a)) && TypeKnown(Next(s, a))
  {
    if a == Task && InLaunch(s.pc) {
      LaunchKeepsOccupancy(s);
    }
  }

  lemma {:induction false} FreeingAdds(l: Log, e: Option<Entity>, id: nat)
    ensures Frees(Freeing(l, e), id) == Frees(l, id) + Holds(e, id)
  {
    if e.Some? {
      assert multiset(l.freed + [e.value.id]) == multiset(l.freed) + multiset{e.value.id};
    }
  }

  lemma {:induction false} GuardAccounts(s: State, id: nat)
    requires s.pc.Guard? && Occupancy(s)
    ensures Total(GuardStep(s, s.pc.role, s.pc.first, s.pc.preCancel), id) == Total(s, id)
  {
    FreeingAdds(s.log, Prev(s.slots, s.pc.role), id);
  }

  lemma {:induction false} DiscardAccounts(s: State, id: nat)
    requires s.pc.Discard? && Occupancy(s)
    ensures Total(DiscardStep(s, s.pc.role, s.pc.first, s.pc.local, s.pc.replacing), id) == Total(s, id)
  {
    FreeingAdds(s.log, s.pc.local, id);
  }

  lemma {:induction false} BeginAccounts(s: State, id: nat)
    requires s.pc.Begin? && Occupancy(s)
    ensures Total(BeginStep(s, s.pc.role, s.pc.first), id) == Total(s, id)
  {
  }

  lemma {:induction false} InstallAccounts(s: State, id: nat)
    requires s.pc.Install? && Occupancy(s)
    ensures Total(InstallStep(s, s.pc.role, s.pc.first, s.pc.local), id) == Total(s, id)
  {
  }

  lemma {:induction false} OthersMoveNothing(s: State)
    requires s.pc.Dispatch? || s.pc.Test? || s.pc.Starting? || s.pc.ClearDoing? || s.pc.Relaunch?
    ensures var t := LaunchStep(s);
            && t.slots == s.slots && t.log == s.log && Carrying(t.pc) == Carrying(s.pc)
            && (Carrying(s.pc) ==> t.pc.role == s.pc.role && t.pc.local == s.pc.local && t.pc.replacing == s.pc.replacing)
  {
  }

  /** No launch step changes how often an entity is owned or freed taken together. */
  lemma {:induction false} LaunchAccounts(s: State, id: nat)
    requires InLaunch(s.pc) && Occupancy(s)
    ensures Total(LaunchStep(s), id) == Total(s, id) && LaunchStep(s).log.allocs == s.log.allocs
  {
    if s.pc.Guard? {
      GuardAccounts(s, id);
    } else if s.pc.Discard? {
      DiscardAccounts(s, id);
    } else if s.pc.Begin? {
      BeginAccounts(s, id);
    } else if s.pc.Install? {
      InstallAccounts(s, id);
    } else {
      OthersMoveNothing(s);
    }
  }

  lemma {:induction false} EnterAccounts(s: State, r: Role, req: ReqType, id: nat)
    requires InEnterCallback(s.pc)
    ensures var t := RequestEnter(s, r, req);
            && Total(t, id) == Total(s, id) + (if t.log.allocs == s.log.allocs + 1 && id == s.log.allocs then 1 else 0)
            && (t.log.allocs == s.log.allocs || t.log.allocs == s.log.allocs + 1)
  {
  }

  /** Steps of other threads, timer firings and the enter callback's bookkeeping. */
  lemma {:induction false} BystandersMoveNothing(s: State, a: Action)
    requires a != Task || s.pc == Idle || s.pc.EnterSnap? || s.pc.EnterTest? || s.pc.EnterClear?
             || (s.pc.EnterSta? && s.pc.sta == None) || (s.pc.EnterAp? && s.pc.ap == None)
    ensures var t := Next(s, a);
            t.slots == s.slots && t.log == s.log && (t.pc == s.pc || (!Carrying(s.pc) && !Carrying(t.pc)))
  {
  }

  lemma {:induction false} OwnedStep(s: State, a: Action)
    requires Occupancy(s) && Owned(s)
    ensures Owned(Next(s, a))
  {
    if a == Task && InLaunch(s.pc) {
      LaunchOwned(s);
    } else if a == Task && s.pc.EnterSta? && s.pc.sta.Some? {
      EnterOwned(s, Sta, s.pc.sta.value);
    } else if a == Task && s.pc.EnterAp? && s.pc.ap.Some? {
      EnterOwned(s, Ap, s.pc.ap.value);
    } else {
      BystandersMoveNothing(s, a);
      SameOwned(s, Next(s, a));
    }
  }

  lemma {:induction false} LaunchOwned(s: State)
    requires Occupancy(s) && Owned(s) && InLaunch(s.pc)
    ensures Owned(LaunchStep(s))
  {
    forall id: nat
      ensures Total(LaunchStep(s), id) == if id < LaunchStep(s).log.allocs then 1 else 0
    {
      assert Total(s, id) == if id < s.log.allocs then 1 else 0;
      LaunchAccounts(s, id);
    }
  }

  /** Entering a request, whatever the callback does next. */
  lemma {:induction false} EnterOwned(s: State, r: Role, req: ReqType)
    requires Owned(s) && InEnterCallback(s.pc)
    ensures forall pc: Pc :: !Carrying(pc) ==> Owned(RequestEnter(s, r, req).(pc := pc))
  {
    var t := RequestEnter(s, r, req);
    forall pc: Pc, id: nat | !Carrying(pc)
      ensures Total(t.(pc := pc), id) == if id < t.log.allocs then 1 else 0
    {
      assert Total(s, id) == if id < s.log.allocs then 1 else 0;
      EnterAccounts(s, r, req, id);
      assert Total(t.(pc := pc), id) == Total(t, id);
    }
  }

  lemma {:induction false} SameOwned(s: State, t: State)
    requires Owned(s) && t.slots == s.slots && t.log == s.log && (t.pc == s.pc || (!Carrying(s.pc) && !Carrying(t.pc)))
    ensures Owned(t)
  {
    forall id: nat
      ensures Total(t, id) == if id < t.log.allocs then 1 else 0
    {
      assert Total(s, id) == if id < s.log.allocs then 1 else 0;
    }
  }

  lemma {:induction false} ReachableInv(acts: seq<Action>)
    ensures Inv(Exec(INIT, acts))
    decreases |acts|
  {
    if acts == [] {
      assert forall id: nat :: Total(INIT, id) == 0;
    } else {
      var rest, a := acts[..|acts| - 1], acts[|acts| - 1];
      ReachableInv(rest);
      HandshakeStep(Exec(INIT, rest), a);
      OccupancyStep(Exec(INIT, rest), a);
      OwnedStep(Exec(INIT, rest), a);
    }
  }

  lemma {:induction false} ExecAppend(s: State, before: seq<Action>, after: seq<Action>)
    ensures Exec(Exec(s, before), after) == Exec(s, before + after)
    decreases |after|
  {
    if after == [] {
      assert before + after == before;
    } else {
      var rest := after[..|after| - 1];
      ExecAppend(s, before, rest);
      assert (before + after)[..|before + after| - 1] == before + rest;
    }
  }

  // ---------- pause handshake ----------

  /** While the pausing thread is in its section no start is running. */
  lemma {:induction false} MutualExclusion(acts: seq<Action>)
    ensures var s := Exec(INIT, acts);
            s.pauser == Critical ==> s.bits.pause && !StartRunning(s) && StatusIsIdle(s.bits)
  {
    ReachableInv(acts);
  }

  /** A start begins only under PENDING or DOING, and neither bit is ever raised
      while PAUSE is set. */
  lemma {:induction false} StartsUnderStatus(acts: seq<Action>, a: Action)
    ensures var s := Exec(INIT, acts); var t := Next(s, a);
            && (t.log.starts != s.log.starts ==> !StatusIsIdle(s.bits))
            && (StartRunning(t) ==> t.bits.doing)
            && (StatusIsIdle(s.bits) && !StatusIsIdle(t.bits) ==> !s.bits.pause)
  {
    ReachableInv(acts);
    var s := Exec(INIT, acts);
    if a == Task && InLaunch(s.pc) {
      LaunchStarts(s);
    } else {
      HandshakeStep(s, a);
    }
  }

  lemma {:induction false} LaunchStarts(s: State)
    requires InLaunch(s.pc) && Handshake(s)
    ensures var t := LaunchStep(s);
            && (t.log.starts != s.log.starts ==> s.bits.doing)
            && (StartRunning(t) ==> t.bits.doing)
            && (StatusIsIdle(s.bits) && !StatusIsIdle(t.bits) ==> !s.bits.pause)
  {
    match s.pc
    case Install(r, first, local, _) =>
    case Test(r, first, local, replacing) =>
    case _ =>
  }

  /** From any point where PAUSE is set and the status reads idle, every
      continuation that does not clear PAUSE runs and begins no start at all. */
  lemma {:induction false} PauseHolds(acts: seq<Action>, more: seq<Action>)
    requires Exec(INIT, acts).bits.pause && StatusIsIdle(Exec(INIT, acts).bits)
    requires PauseClear !in more
    ensures var t := Exec(INIT, acts + more);
            && t.bits.pause && StatusIsIdle(t.bits) && !StartRunning(t)
            && t.log.starts == Exec(INIT, acts).log.starts
    decreases |more|
  {
    if more == [] {
      ReachableInv(acts);
      assert acts + more == acts;
    } else {
      var rest, a := more[..|more| - 1], more[|more| - 1];
      PauseHolds(acts, rest);
      assert (acts + more)[..|acts + more| - 1] == acts + rest;
      StartsUnderStatus(acts + rest, a);
      PauseKept(Exec(INIT, acts + rest), a);
      ReachableInv(acts + more);
    }
  }

  lemma {:induction false} PauseKept(s: State, a: Action)
    requires s.bits.pause && a != PauseClear
    ensures Next(s, a).bits.pause
  {
  }

  // ---------- no stranded request ----------

  /** Outside the launch callback a queued request always has an armed timer, and
      the launch callback always leaves the timer armed or every slot empty. */
  lemma {:induction false} NoStrandedRequest(acts: seq<Action>, a: Action)
    ensures var s := Exec(INIT, acts);
            && (!InLaunch(s.pc) && HasFollowing(s.slots) ==> s.timers.rlArmed)
            && (InLaunch(s.pc) && !InLaunch(Next(s, a).pc) ==> Next(s, a).timers.rlArmed || AllEmpty(Next(s, a).slots))
  {
    ReachableInv(acts);
    if InLaunch(Exec(INIT, acts).pc) && a == Task && !InLaunch(Next(Exec(INIT, acts), a).pc) {
      LaunchEnd(Exec(INIT, acts));
    }
  }

  lemma {:induction false} LaunchEnd(s: State)
    requires Occupancy(s) && TypeKnown(s) && InLaunch(s.pc) && !InLaunch(LaunchStep(s).pc)
    ensures LaunchStep(s).timers.rlArmed || AllEmpty(LaunchStep(s).slots)
  {
  }

  // ---------- the slots drain ----------

  function Weight(e: Option<Entity>, w: nat): nat { if e.Some? then w else 0 }

  /** Twice the queued requests plus the launched ones; an entity on its way from
      the one slot to the other already counts as launched. */
  function Backlog(s: State): nat {
    (if Dangling(s.pc, Sta) then 0 else Weight(s.slots.prevSta, 1)) + Weight(s.slots.folSta, 2) +
    (if Dangling(s.pc, Ap) then 0 else Weight(s.slots.prevAp, 1)) + Weight(s.slots.folAp, 2) +
    (if Carrying(s.pc) then Weight(s.pc.local, 1) else 0)
  }

  /** Whether a guard that is about to be read would let the next launch go. */
  predicate Allowed(s: State) { s.pc.Guard? ==> MayNext(s.flags, s.pc.role, s.pc.preCancel) }

  /** No request is waiting in the socket or already taken out of it. */
  predicate NoRequest(s: State) {
    && s.timers.sockSta == None && s.timers.sockAp == None
    && (s.pc.EnterTest? || s.pc.EnterSta? ==> s.pc.sta == None && s.pc.ap == None)
    && (s.pc.EnterAp? ==> s.pc.ap == None)
  }

  /** Every prefix of the run meets an open guard and receives no request. */
  predicate Drains(s: State, acts: seq<Action>)
    decreases |acts|
  {
    acts == [] ||
    (var rest, a := acts[..|acts| - 1], acts[|acts| - 1];
     && Drains(s, rest)
     && !a.RequestSta? && !a.RequestAp?
     && (a == Task ==> Allowed(Exec(s, rest))))
  }

  /** Launch callbacks completed during the run. */
  function Firings(s: State, acts: seq<Action>): nat
    decreases |acts|
  {
    if acts == [] then 0
    else
      var t := Exec(s, acts[..|acts| - 1]);
      Firings(s, acts[..|acts| - 1]) + if InLaunch(t.pc) && Next(t, acts[|acts| - 1]).pc == Idle then 1 else 0
  }

  /** `m` bounds the backlog; past the point of decision it does so strictly. */
  predicate Below(s: State, m: nat) {
    && Backlog(s) <= m
    && (InLaunch(s.pc) && !s.pc.Dispatch? && !s.pc.Begin? && !s.pc.Guard? ==> Backlog(s) < m || Backlog(s) == 0)
  }

  /** What one step of the launch callback leaves to show about the bound `m`. */
  predicate Lowered(t: State, m: nat) {
    if t.pc == Idle then Backlog(t) < m || Backlog(t) == 0 else InLaunch(t.pc) && Below(t, m)
  }

  lemma {:induction false} BeginLowers(s: State, m: nat)
    requires Occupancy(s) && s.pc.Begin? && Below(s, m)
    ensures Lowered(BeginStep(s, s.pc.role, s.pc.first), m)
  {
  }

  lemma {:induction false} GuardLowers(s: State, m: nat)
    requires Occupancy(s) && s.pc.Guard? && Allowed(s) && Below(s, m)
    ensures Lowered(GuardStep(s, s.pc.role, s.pc.first, s.pc.preCancel), m)
  {
  }

  lemma {:induction false} DiscardLowers(s: State, m: nat)
    requires Occupancy(s) && s.pc.Discard? && Below(s, m)
    ensures Lowered(DiscardStep(s, s.pc.role, s.pc.first, s.pc.local, s.pc.replacing), m)
  {
  }

  lemma {:induction false} InstallLowers(s: State, m: nat)
    requires Occupancy(s) && s.pc.Install? && Below(s, m)
    ensures Lowered(InstallStep(s, s.pc.role, s.pc.first, s.pc.local), m)
  {
  }

  lemma {:induction false} LaunchLowers(s: State, m: nat)
    requires Occupancy(s) && TypeKnown(s) && InLaunch(s.pc) && Allowed(s) && Below(s, m)
    ensures Lowered(LaunchStep(s), m)
  {
    if s.pc.Begin? {
      BeginLowers(s, m);
    } else if s.pc.Guard? {
      GuardLowers(s, m);
    } else if s.pc.Discard? {
      DiscardLowers(s, m);
    } else if s.pc.Install? {
      InstallLowers(s, m);
    } else {
      OthersMoveNothing(s);
      assert Backlog(LaunchStep(s)) == Backlog(s);
    }
  }

  lemma {:induction false} OthersKeepBacklog(s: State, a: Action, m: nat)
    requires NoRequest(s) && !a.RequestSta? && !a.RequestAp? && !(a == Task && InLaunch(s.pc)) && Below(s, m)
    ensures Below(Next(s, a), m) && NoRequest(Next(s, a)) && (InLaunch(s.pc) ==> InLaunch(Next(s, a).pc))
  {
    if a == Task && InEnterCallback(s.pc) {
      assert Next(s, a).slots == s.slots;
    }
  }

  lemma {:induction false} LaunchTakesNoRequest(s: State)
    requires InLaunch(s.pc) && NoRequest(s)
    ensures NoRequest(LaunchStep(s))
  {
  }

  /** Each completed launch callback lowers the backlog by at least one. */
  lemma {:induction false} BacklogFalls(acts: seq<Action>, more: seq<Action>)
    requires var s := Exec(INIT, acts); s.pc == Idle && NoRequest(s) && Drains(s, more)
    ensures var s := Exec(INIT, acts); var t := Exec(s, more);
            var left := Backlog(s) - Firings(s, more);
            Below(t, if left < 0 then 0 else left) && NoRequest(t)
    decreases |more|
  {
    var s := Exec(INIT, acts);
    if more != [] {
      var rest, a := more[..|more| - 1], more[|more| - 1];
      BacklogFalls(acts, rest);
      var left := Backlog(s) - Firings(s, rest);
      var m: nat := if left < 0 then 0 else left;
      ExecAppend(INIT, acts, rest);
      ReachableInv(acts + rest);
      if a == Task && InLaunch(Exec(s, rest).pc) {
        LaunchLowers(Exec(s, rest), m);
        LaunchTakesNoRequest(Exec(s, rest));
      } else {
        OthersKeepBacklog(Exec(s, rest), a, m);
      }
    }
  }

  /** How many launch callbacks can still complete: one that is armed or running, and
      one more for every queued request, which its start moves into a re-armed timer. */
  function Potential(s: State): nat {
    (if s.timers.rlArmed || InLaunch(s.pc) then 1 else 0)
    + Weight(s.slots.folSta, 1) + Weight(s.slots.folAp, 1)
    + (if Carrying(s.pc) then Weight(s.pc.local, 1) else 0)
    + (if WillRearm(s.pc) then 1 else 0)
  }

  /** The callback has started a request and will arm the timer again. */
  predicate WillRearm(pc: Pc) { pc.Starting? || pc.Relaunch? || (pc.ClearDoing? && pc.cont) }

  /** The launch timer is not armed while its own callback runs. */
  predicate TimerQuiet(s: State) { InLaunch(s.pc) ==> !s.timers.rlArmed }

  lemma {:induction false} QuietStep(s: State, a: Action)
    requires TimerQuiet(s)
    ensures TimerQuiet(Next(s, a))
  {
  }

  lemma {:induction false} QuietReachable(acts: seq<Action>)
    ensures TimerQuiet(Exec(INIT, acts))
    decreases |acts|
  {
    if acts != [] {
      QuietReachable(acts[..|acts| - 1]);
      QuietStep(Exec(INIT, acts[..|acts| - 1]), acts[|acts| - 1]);
    }
  }

  lemma {:induction false} BeginSpends(s: State)
    requires Occupancy(s) && TimerQuiet(s) && s.pc.Begin?
    ensures var t := BeginStep(s, s.pc.role, s.pc.first);
            Potential(t) + (if t.pc == Idle then 1 else 0) <= Potential(s)
  {
  }

  lemma {:induction false} GuardSpends(s: State)
    requires Occupancy(s) && TimerQuiet(s) && s.pc.Guard? && Allowed(s)
    ensures var t := GuardStep(s, s.pc.role, s.pc.first, s.pc.preCancel); t.pc != Idle && Potential(t) <= Potential(s)
  {
  }

  lemma {:induction false} LaunchSpends(s: State)
    requires Occupancy(s) && TypeKnown(s) && TimerQuiet(s) && InLaunch(s.pc) && Allowed(s)
    ensures Potential(LaunchStep(s)) + (if LaunchStep(s).pc == Idle then 1 else 0) <= Potential(s)
  {
    if s.pc.Begin? {
      BeginSpends(s);
    } else if s.pc.Guard? {
      GuardSpends(s);
    }
  }

  lemma {:induction false} OthersSpendNothing(s: State, a: Action)
    requires NoRequest(s) && !a.RequestSta? && !a.RequestAp? && !(a == Task && InLaunch(s.pc))
    ensures Potential(Next(s, a)) <= Potential(s) && NoRequest(Next(s, a)) && (InLaunch(s.pc) ==> Next(s, a).pc != Idle)
  {
    if a == Task && InEnterCallback(s.pc) {
      assert Next(s, a).slots == s.slots && Next(s, a).timers.rlArmed == s.timers.rlArmed;
    }
  }

  lemma {:induction false} PotentialFalls(acts: seq<Action>, more: seq<Action>)
    requires var s := Exec(INIT, acts); s.pc == Idle && NoRequest(s) && Drains(s, more)
    ensures var s := Exec(INIT, acts); var t := Exec(s, more);
            Potential(t) + Firings(s, more) <= Potential(s) && NoRequest(t)
    decreases |more|
  {
    var s := Exec(INIT, acts);
    if more != [] {
      var rest, a := more[..|more| - 1], more[|more| - 1];
      PotentialFalls(acts, rest);
      ExecAppend(INIT, acts, rest);
      ReachableInv(acts + rest);
      QuietReachable(acts + rest);
      if a == Task && InLaunch(Exec(s, rest).pc) {
        LaunchSpends(Exec(s, rest));
        LaunchTakesNoRequest(Exec(s, rest));
      } else {
        OthersSpendNothing(Exec(s, rest), a);
      }
    }
  }

  /** With no new requests and open guards at most three launch callbacks complete,
      whatever the other threads do. */
  lemma {:induction false} AtMostThreeFirings(acts: seq<Action>, more: seq<Action>)
    requires var s := Exec(INIT, acts); s.pc == Idle && NoRequest(s) && Drains(s, more)
    ensures Firings(Exec(INIT, acts), more) <= 3
  {
    PotentialFalls(acts, more);
  }

  /** Outside the launch callback the timer is armed or every slot is empty. */
  predicate Settled(s: State) { InLaunch(s.pc) || s.timers.rlArmed || AllEmpty(s.slots) }

  lemma {:induction false} SettledStep(s: State, a: Action)
    requires Occupancy(s) && TypeKnown(s) && NoRequest(s) && !a.RequestSta? && !a.RequestAp?
    ensures Settled(s) ==> Settled(Next(s, a))
    ensures InLaunch(s.pc) && Next(s, a).pc == Idle ==> Settled(Next(s, a))
  {
    if a == Task && InLaunch(s.pc) {
      if !InLaunch(LaunchStep(s).pc) {
        LaunchEnd(s);
      }
    } else if a == Task && InEnterCallback(s.pc) {
      assert Next(s, a).slots == s.slots && Next(s, a).timers.rlArmed == s.timers.rlArmed;
    }
  }

  /** Once one callback has completed, the timer stays idle only with all four slots empty. */
  lemma {:induction false} DrainedWhenQuiet(acts: seq<Action>, more: seq<Action>)
    requires var s := Exec(INIT, acts); s.pc == Idle && NoRequest(s) && Drains(s, more) && Firings(s, more) >= 1
    ensures Settled(Exec(INIT, acts + more))
    ensures var t := Exec(INIT, acts + more); t.pc == Idle && !t.timers.rlArmed ==> AllEmpty(t.slots)
    decreases |more|
  {
    var s, rest, a := Exec(INIT, acts), more[..|more| - 1], more[|more| - 1];
    ExecAppend(INIT, acts, more);
    ExecAppend(INIT, acts, rest);
    ReachableInv(acts + rest);
    PotentialFalls(acts, rest);
    SettledStep(Exec(s, rest), a);
    if Firings(s, rest) >= 1 {
      DrainedWhenQuiet(acts, rest);
    }
  }

  // ----- a run that drains -----

  /** Flag words that open every guard. */
  const OPEN_FLAGS: Flags := Flags(false, STA_LAUNCHED, false, AP_LAUNCHED, 0)

  /** How far the launch callback is from its end, within one value of the potential. */
  function Rank(s: State): nat {
    match s.pc
    case Idle => 30
    case Dispatch => 29
    case Begin(_, first) => if first then 28 else 14
    case Guard(_, first, _) => (if first then 26 else 12) + (if Allowed(s) then 0 else 1)
    case Test(_, first, _, _) => if first then 24 else 10
    case Install(_, first, _, _) => if first then 22 else 8
    case Discard(_, first, _, _) => if first then 22 else 8
    case Starting(_, first, _) => if first then 20 else 6
    case ClearDoing(_, first, _) => if first then 18 else 4
    case Relaunch => 2
    case _ => 0
  }

  /** The next action of a run that drains. */
  function Forward(s: State): Action {
    if s.pc == Idle then FireLaunch else if Allowed(s) then Task else WriteFlags(OPEN_FLAGS)
  }

  predicate Draining(s: State) {
    Occupancy(s) && TypeKnown(s) && TimerQuiet(s) && Settled(s) && (s.pc == Idle || InLaunch(s.pc))
  }

  lemma {:induction false} TaskForward(s: State)
    requires Draining(s) && InLaunch(s.pc) && Allowed(s)
    ensures var t := LaunchStep(s);
            Draining(t) && (Potential(t) < Potential(s) || (Potential(t) == Potential(s) && Rank(t) < Rank(s)))
  {
    LaunchSpends(s);
    LaunchKeepsOccupancy(s);
    if !InLaunch(LaunchStep(s).pc) {
      LaunchEnd(s);
    }
  }

  lemma {:induction false} StepsForward(s: State)
    requires Draining(s) && !(s.pc == Idle && AllEmpty(s.slots) && !s.timers.rlArmed)
    ensures var t := Next(s, Forward(s));
            Draining(t) && (Potential(t) < Potential(s) || (Potential(t) == Potential(s) && Rank(t) < Rank(s)))
  {
    if InLaunch(s.pc) && Allowed(s) {
      TaskForward(s);
    }
  }

  lemma {:induction false} ExecFirst(s: State, a: Action, rest: seq<Action>)
    ensures Exec(s, [a] + rest) == Exec(Next(s, a), rest)
  {
    ExecAppend(s, [a], rest);
    assert Exec(s, [a]) == Next(Exec(s, []), a);
  }

  lemma {:induction false} DrainsFirst(s: State, a: Action, rest: seq<Action>)
    requires !a.RequestSta? && !a.RequestAp? && (a == Task ==> Allowed(s)) && Drains(Next(s, a), rest)
    ensures Drains(s, [a] + rest)
    decreases |rest|
  {
    var all := [a] + rest;
    if rest == [] {
      assert all == [a] && all[..|all| - 1] == [];
      assert Drains(s, []) && Exec(s, []) == s;
    } else {
      var shorter := rest[..|rest| - 1];
      assert all[..|all| - 1] == [a] + shorter && all[|all| - 1] == rest[|rest| - 1];
      DrainsFirst(s, a, shorter);
      ExecFirst(s, a, shorter);
    }
  }

  lemma {:induction false} FiringsFirst(s: State, a: Action, rest: seq<Action>)
    ensures Firings(s, [a] + rest) ==
      (if InLaunch(s.pc) && Next(s, a).pc == Idle then 1 else 0) + Firings(Next(s, a), rest)
    decreases |rest|
  {
    var all := [a] + rest;
    if rest == [] {
      assert all == [a] && all[..|all| - 1] == [];
      assert Firings(s, []) == 0 && Exec(s, []) == s;
    } else {
      var shorter := rest[..|rest| - 1];
      assert all[..|all| - 1] == [a] + shorter && all[|all| - 1] == rest[|rest| - 1];
      FiringsFirst(s, a, shorter);
      ExecFirst(s, a, shorter);
    }
  }

  lemma {:induction false} DrainRun(s: State) returns (more: seq<Action>)
    requires Draining(s)
    ensures Drains(s, more) && (s.timers.rlArmed || InLaunch(s.pc) ==> Firings(s, more) >= 1)
    ensures var t := Exec(s, more); t.pc == Idle && !t.timers.rlArmed && AllEmpty(t.slots)
    decreases Potential(s), Rank(s)
  {
    more := [];
    if !(s.pc == Idle && AllEmpty(s.slots) && !s.timers.rlArmed) {
      StepsForward(s);
      var a := Forward(s);
      more := DrainRun(Next(s, a));
      DrainsFirst(s, a, more);
      ExecFirst(s, a, more);
      FiringsFirst(s, a, more);
      more := [a] + more;
    }
  }

  /** From every reachable idle state with the launch timer armed, some continuation
      without new requests ends with all four slots empty and the timer at rest. */
  lemma {:induction false} CanDrain(acts: seq<Action>)
    requires var s := Exec(INIT, acts); s.pc == Idle && s.timers.rlArmed
    ensures exists more :: Drains(Exec(INIT, acts), more) && Firings(Exec(INIT, acts), more) >= 1 &&
              var t := Exec(Exec(INIT, acts), more); t.pc == Idle && !t.timers.rlArmed && AllEmpty(t.slots)
  {
    ReachableInv(acts);
    var more := DrainRun(Exec(INIT, acts));
  }

  // ---------- requests on their way ----------

  /** A request in the socket has the enter timer armed, or its callback is about to take it. */
  predicate SocketServed(s: State) {
    s.timers.sockSta.Some? || s.timers.sockAp.Some? ==> s.timers.enterArmed || s.pc.EnterSnap?
  }

  lemma {:induction false} SocketStep(s: State, a: Action)
    requires SocketServed(s)
    ensures SocketServed(Next(s, a))
  {
  }

  /** No request is left in the socket without a wake-up, in any run. */
  lemma {:induction false} NoLostWakeup(acts: seq<Action>)
    ensures SocketServed(Exec(INIT, acts))
    decreases |acts|
  {
    if acts != [] {
      NoLostWakeup(acts[..|acts| - 1]);
      SocketStep(Exec(INIT, acts[..|acts| - 1]), acts[|acts| - 1]);
    }
  }

  // ---------- ownership ----------

  /** Every entity allocated so far is owned by exactly one slot or local, or has
      been freed exactly once; nothing else was ever freed. */
  lemma {:induction false} EntitiesOwnedOnce(acts: seq<Action>, id: nat)
    ensures var s := Exec(INIT, acts);
            Owners(s, id) + Frees(s.log, id) == if id < s.log.allocs then 1 else 0
  {
    ReachableInv(acts);
    assert Total(Exec(INIT, acts), id) == if id < Exec(INIT, acts).log.allocs then 1 else 0;
  }

  /** The four slots in order; a stale pointer to a freed entity counts as empty. */
  function SlotAt(s: State, k: nat): Option<Entity>
    requires k < 4
  {
    if k == 0 then (if Dangling(s.pc, Sta) then None else s.slots.prevSta)
    else if k == 1 then s.slots.folSta
    else if k == 2 then (if Dangling(s.pc, Ap) then None else s.slots.prevAp)
    else s.slots.folAp
  }

  /** Non-null slots are pairwise distinct and hold no freed entity; a previous
      slot is stale only inside the launch callback of its own role. */
  lemma {:induction false} SlotsDistinct(acts: seq<Action>, i: nat, j: nat)
    requires i < 4 && j < 4 && i != j
    ensures var s := Exec(INIT, acts); var x, y := SlotAt(s, i), SlotAt(s, j);
            && (x.Some? && y.Some? ==> x.value.id != y.value.id)
            && (x.Some? ==> x.value.id < s.log.allocs && Frees(s.log, x.value.id) == 0)
            && (!InLaunch(s.pc) ==> s.slots == Slots(SlotAt(s, 0), SlotAt(s, 1), SlotAt(s, 2), SlotAt(s, 3)))
  {
    var s := Exec(INIT, acts);
    if SlotAt(s, i).Some? {
      EntitiesOwnedOnce(acts, SlotAt(s, i).value.id);
    }
  }

  // ---------- what becomes of a request ----------

  predicate NoTask(acts: seq<Action>) { Task !in acts }

  /** The request in the socket after other threads wrote to it: the last one counts. */
  function LastSta(before: Option<ReqType>, acts: seq<Action>): Option<ReqType>
    decreases |acts|
  {
    if acts == [] then before
    else if acts[|acts| - 1].RequestSta? then Some(acts[|acts| - 1].req)
    else LastSta(before, acts[..|acts| - 1])
  }

  function LastAp(before: Option<ReqType>, acts: seq<Action>): Option<ReqType>
    decreases |acts|
  {
    if acts == [] then before
    else if acts[|acts| - 1].RequestAp? then Some(acts[|acts| - 1].req)
    else LastAp(before, acts[..|acts| - 1])
  }

  /** The other threads act, then the timer task takes one step. */
  function Then(s: State, others: seq<Action>): State { Next(Exec(s, others), Task) }

  /** While a callback runs, other threads change neither the slots nor where it is. */
  lemma {:induction false} OthersWait(s: State, acts: seq<Action>)
    requires s.pc != Idle && NoTask(acts)
    ensures var t := Exec(s, acts);
            && t.pc == s.pc && t.slots == s.slots && t.log == s.log && t.preType == s.preType && t.timers.rlArmed == s.timers.rlArmed
            && t.timers.sockSta == LastSta(s.timers.sockSta, acts) && t.timers.sockAp == LastAp(s.timers.sockAp, acts)
    decreases |acts|
  {
    if acts != [] {
      var a := acts[|acts| - 1];
      assert a in acts;
      OthersWait(s, acts[..|acts| - 1]);
    }
  }

  /** A request of role `r` became a new entity: started at once if no role has one, kept
      for the launch timer if there is room, and otherwise dropped with the timer armed. */
  ghost predicate Served(before: State, after: State, r: Role, req: Option<ReqType>, held: bool) {
    var q, e := before.slots, Prev(after.slots, r);
    match req
    case None => after.slots == q && after.log == before.log
    case Some(kind) =>
      && after.log.freed == before.log.freed
      && if q.prevSta == None && q.prevAp == None && !held then
           && e.Some? && e.value.req == kind && after.log.starts == before.log.starts + [e.value]
           && Fol(after.slots, r) == Fol(q, r) && Prev(after.slots, Other(r)) == None && Fol(after.slots, Other(r)) == Fol(q, Other(r))
           && after.preType == Typed(before.preType, r)
         else if Fol(q, r) == None && !held then
           && Fol(after.slots, r).Some? && Fol(after.slots, r).value.req == kind && Fol(after.slots, r).value.launchType == Asap
           && e == Prev(q, r) && Prev(after.slots, Other(r)) == Prev(q, Other(r)) && Fol(after.slots, Other(r)) == Fol(q, Other(r))
           && after.log.starts == before.log.starts && after.timers.rlArmed && after.preType == Typed(before.preType, r)
         else after.slots == q && after.log == before.log && after.timers.rlArmed
  }

  /** One enter callback, with the other threads acting before each of its five steps: the
      station request that is last in the socket before its first step is served, then the
      access point's. */
  lemma {:induction false} RequestServed(s: State, a0: seq<Action>, a1: seq<Action>, a2: seq<Action>, a3: seq<Action>, a4: seq<Action>)
    requires s.pc == Idle && s.timers.enterArmed
    requires NoTask(a0) && NoTask(a1) && NoTask(a2) && NoTask(a3) && NoTask(a4)
    requires !Exec(Then(Next(s, FireEnter), a0), a1).bits.pause
    ensures var u2 := Then(Then(Next(s, FireEnter), a0), a1); var u3 := Then(u2, a2); var u4 := Then(u3, a3); var u5 := Then(u4, a4);
            var b := Exec(u2, a2).bits;
            && Served(s, u3, Sta, LastSta(s.timers.sockSta, a0), b.restartHold && !b.restartSt)
            && Served(u3, u4, Ap, LastAp(s.timers.sockAp, a0), false)
            && u5.pc == Idle && u5.slots == u4.slots && u5.log == u4.log && u5.timers.rlArmed == u4.timers.rlArmed
  {
    var u0 := Next(s, FireEnter);
    OthersWait(u0, a0);
    var u1 := Then(u0, a0);
    OthersWait(u1, a1);
    var u2 := Then(u1, a1);
    OthersWait(u2, a2);
    StationStep(Exec(u2, a2));
    var u3 := Then(u2, a2);
    OthersWait(u3, a3);
    PointStep(Exec(u3, a3));
    var u4 := Then(u3, a3);
    OthersWait(u4, a4);
  }

  lemma {:induction false} StationStep(s: State)
    requires s.pc.EnterSta?
    ensures var t := Next(s, Task); Served(s, t, Sta, s.pc.sta, Hold(s.bits)) && t.pc == EnterAp(s.pc.ap)
  {
  }

  lemma {:induction false} PointStep(s: State)
    requires s.pc.EnterAp?
    ensures var t := Next(s, Task); Served(s, t, Ap, s.pc.ap, false) && t.pc == EnterClear
  {
  }

  /** Under PAUSE the callback ends with the requests dropped and nothing else changed. */
  lemma {:induction false} RequestDropped(s: State, a0: seq<Action>, a1: seq<Action>)
    requires s.pc == Idle && s.timers.enterArmed && NoTask(a0) && NoTask(a1)
    requires Exec(Then(Next(s, FireEnter), a0), a1).bits.pause
    ensures var u2 := Then(Then(Next(s, FireEnter), a0), a1); u2.pc == Idle && u2.slots == s.slots && u2.log == s.log
  {
    var u0 := Next(s, FireEnter);
    OthersWait(u0, a0);
    OthersWait(Then(u0, a0), a1);
  }

  /** A request made outside the enter callback stays in the socket with the enter timer
      armed until that fires, unless a later one of the same role replaces it. */
  lemma {:induction false} RequestWaits(s: State, req: ReqType, more: seq<Action>)
    requires !InEnterCallback(s.pc) && FireEnter !in more
    ensures var t := Exec(Next(s, RequestSta(req)), more);
            t.timers.sockSta == LastSta(Some(req), more) && t.timers.enterArmed && !InEnterCallback(t.pc)
    ensures var t := Exec(Next(s, RequestAp(req)), more);
            t.timers.sockAp == LastAp(Some(req), more) && t.timers.enterArmed && !InEnterCallback(t.pc)
    decreases |more|
  {
    if more != [] {
      var a := more[|more| - 1];
      assert a in more;
      RequestWaits(s, req, more[..|more| - 1]);
      SocketUntouched(Exec(Next(s, RequestSta(req)), more[..|more| - 1]), a);
      SocketUntouched(Exec(Next(s, RequestAp(req)), more[..|more| - 1]), a);
    }
  }

  lemma {:induction false} SocketUntouched(s: State, a: Action)
    requires !InEnterCallback(s.pc) && a != FireEnter
    ensures var t := Next(s, a);
            && !InEnterCallback(t.pc) && (s.timers.enterArmed ==> t.timers.enterArmed)
            && t.timers.sockSta == (if a.RequestSta? then Some(a.req) else s.timers.sockSta)
            && t.timers.sockAp == (if a.RequestAp? then Some(a.req) else s.timers.sockAp)
  {
  }

  /** An entity is queued in its role's following slot, or the launch callback has just
      taken it from there. */
  predicate Waits(s: State, r: Role, e: Entity) {
    Fol(s.slots, r) == Some(e) || (Carrying(s.pc) && s.pc.role == r && s.pc.local == Some(e))
  }

  /** A waiting entity goes on waiting until it is started in its role's slot or the
      launch callback discards it. */
  lemma {:induction false} WaitStep(s: State, a: Action, r: Role, e: Entity)
    requires Occupancy(s) && Waits(s, r, e)
    ensures var t := Next(s, a);
            || Waits(t, r, e)
            || (e in t.log.starts && t.log.starts == s.log.starts + [e] && Prev(t.slots, r) == Some(e))
            || (s.pc.Discard? && s.pc.role == r && s.pc.local == Some(e) && a == Task)
  {
    if a == Task && InLaunch(s.pc) {
      LaunchWaits(s, r, e);
    }
  }

  lemma {:induction false} LaunchWaits(s: State, r: Role, e: Entity)
    requires Occupancy(s) && Waits(s, r, e) && InLaunch(s.pc)
    ensures var t := LaunchStep(s);
            || Waits(t, r, e)
            || (t.log.starts == s.log.starts + [e] && Prev(t.slots, r) == Some(e))
            || (s.pc.Discard? && s.pc.role == r && s.pc.local == Some(e))
  {
  }

  /** Only PAUSE, or a hold for the station, makes the callback discard what it took, and
      then it does. */
  lemma {:induction false} DiscardCause(s: State, a: Action)
    ensures Next(s, a).pc.Discard? && !s.pc.Discard? <==>
      s.pc.Test? && a == Task && (s.bits.pause || (s.pc.role == Sta && s.bits.restartHold && !s.bits.restartSt))
  {
  }

  /** Neither PAUSE nor a hold is set at any point of a run. */
  predicate Calm(s: State, acts: seq<Action>)
    decreases |acts|
  {
    !s.bits.pause && !Hold(s.bits) && (acts == [] ||
      (Calm(s, acts[..|acts| - 1]) && !Exec(s, acts).bits.pause && !Hold(Exec(s, acts).bits)))
  }

  lemma {:induction false} StartsGrow(s: State, a: Action)
    ensures s.log.starts <= Next(s, a).log.starts
  {
  }

  /** In a run without PAUSE and hold a waiting entity goes on waiting until it is started. */
  lemma {:induction false} QueuedStarts(acts: seq<Action>, more: seq<Action>, r: Role, e: Entity)
    requires Waits(Exec(INIT, acts), r, e) && !Exec(INIT, acts).pc.Discard? && Calm(Exec(INIT, acts), more)
    ensures var t := Exec(Exec(INIT, acts), more); !t.pc.Discard? && (Waits(t, r, e) || e in t.log.starts)
    decreases |more|
  {
    if more != [] {
      var rest, a := more[..|more| - 1], more[|more| - 1];
      QueuedStarts(acts, rest, r, e);
      var t := Exec(Exec(INIT, acts), rest);
      ExecAppend(INIT, acts, rest);
      ReachableInv(acts + rest);
      StartsGrow(t, a);
      CalmBefore(Exec(INIT, acts), rest);
      if Next(t, a).pc.Discard? {
        DiscardCause(t, a);
      }
      if Waits(t, r, e) {
        WaitStep(t, a, r, e);
      }
    }
  }

  lemma {:induction false} CalmBefore(s: State, acts: seq<Action>)
    requires Calm(s, acts)
    ensures !Exec(s, acts).bits.pause && !Hold(Exec(s, acts).bits)
  {
  }

  /** So in a drained run without PAUSE and hold every queued entity was started. */
  lemma {:induction false} DrainedMeansStarted(acts: seq<Action>, more: seq<Action>, r: Role, e: Entity)
    requires Waits(Exec(INIT, acts), r, e) && !Exec(INIT, acts).pc.Discard? && Calm(Exec(INIT, acts), more)
    requires var t := Exec(Exec(INIT, acts), more); t.pc == Idle && AllEmpty(t.slots)
    ensures e in Exec(Exec(INIT, acts), more).log.starts
  {
    QueuedStarts(acts, more, r, e);
  }

  /** A launched station gives way exactly when no channel switch is under way and it has
      come to an end: launched, failed, switched, or cancelled at a point where that is
      possible; a launched access point unless it was told to cancel and does not beacon
      yet, or a channel switch is under way. */
  lemma {:induction false} ReplacedOnlyAtAnEnd(s: State)
    requires s.pc.Guard? && Prev(s.slots, s.pc.role).Some?
    ensures s.pc.role == Sta ==>
      (LaunchStep(s).log.freed == s.log.freed + [s.slots.prevSta.value.id] <==>
         (s.flags.csa != 6 &&
          (s.flags.csa == 7 || s.flags.staStatus == 9 || s.flags.staStatus == 10 || (s.flags.staCancel && s.flags.staStatus in {1, 3, 4, 5}))))
    ensures s.pc.role == Ap ==>
      (LaunchStep(s).log.freed == s.log.freed + [s.slots.prevAp.value.id] <==>
         (!s.pc.preCancel || (s.flags.csa != 6 && s.flags.apStatus in {0x15, 0x8014, 0x8015})))
    ensures LaunchStep(s).log.freed == s.log.freed ==> LaunchStep(s).pc == Relaunch && LaunchStep(s).slots == s.slots
  {
    var l := LaunchStep(s).log.freed;
    assert |s.log.freed + [Prev(s.slots, s.pc.role).value.id]| == |s.log.freed| + 1;
    assert l == s.log.freed || |l| == |s.log.freed| + 1;
  }

  /** An entity that was launched as often as its limit allows is cancelled as well. */
  lemma {:induction false} LimitCancels(s: State, p: Entity)
    requires s.pc.Begin? && Prev(s.slots, s.pc.role) == Some(p)
    requires p.relaunchLimit != 0 && p.launchCount >= p.relaunchLimit
    ensures var t := Next(s, Task);
            t.pc == Guard(s.pc.role, s.pc.first, true) && if s.pc.role == Sta then t.flags.staCancel else t.flags.apCancel
  {
  }

  /** The role that the launch callback is serving. */
  function RoleOf(pc: Pc): Option<Role> {
    if pc.Begin? || pc.Guard? || pc.Test? || pc.Install? || pc.Starting? || pc.ClearDoing? || pc.Discard? then Some(pc.role) else None
  }

  predicate Named(s: State) {
    RoleOf(s.pc).Some? ==> s.preType == if RoleOf(s.pc).value == Sta then PreSta else PreAp
  }

  lemma {:induction false} NamedStep(s: State, a: Action)
    requires Named(s) && Occupancy(s)
    ensures Named(Next(s, a))
  {
  }

  /** In every run pre_entity_type names the role that the launch callback is serving, and
      a callback that ends leaves it so: the next one begins with the role it ended with. */
  lemma {:induction false} ServedInTurn(acts: seq<Action>)
    ensures var s := Exec(INIT, acts); var t := Next(s, Task);
            RoleOf(s.pc).Some? ==>
              && s.preType == (if RoleOf(s.pc).value == Sta then PreSta else PreAp)
              && (RoleOf(t.pc) == None ==> t.preType == s.preType)
              && (RoleOf(t.pc).Some? && RoleOf(t.pc) != RoleOf(s.pc) ==> t.preType == if s.preType == PreSta then PreAp else PreSta)
    decreases |acts|
  {
    NamedReachable(acts);
    if Exec(INIT, acts).pc != Idle {
      ReachableInv(acts);
      NamedStep(Exec(INIT, acts), Task);
    }
  }

  lemma {:induction false} NamedReachable(acts: seq<Action>)
    ensures Named(Exec(INIT, acts))
    decreases |acts|
  {
    if acts != [] {
      NamedReachable(acts[..|acts| - 1]);
      ReachableInv(acts[..|acts| - 1]);
      NamedStep(Exec(INIT, acts[..|acts| - 1]), acts[|acts| - 1]);
    }
  }

  predicate Plain(e: Option<Entity>) { e.Some? ==> e.value.launchType == Asap && e.value.relaunchLimit == 0 }

  /** Every entity wants to be launched as soon as possible, and a launched one is told
      to cancel exactly when another waits behind it. */
  predicate Cancelling(s: State) {
    && Plain(s.slots.prevSta) && Plain(s.slots.folSta) && Plain(s.slots.prevAp) && Plain(s.slots.folAp)
    && (Carrying(s.pc) ==> Plain(s.pc.local))
    && (s.pc.Guard? ==> (s.pc.preCancel <==> Fol(s.slots, s.pc.role).Some?))
  }

  lemma {:induction false} CancellingStep(s: State, a: Action)
    requires Cancelling(s)
    ensures Cancelling(Next(s, a))
  {
    if a == Task && InLaunch(s.pc) {
      CancellingLaunch(s);
    } else if a == Task && InEnterCallback(s.pc) {
      CancellingEnter(s);
    }
  }

  lemma {:induction false} CancellingLaunch(s: State)
    requires Cancelling(s) && InLaunch(s.pc)
    ensures Cancelling(LaunchStep(s))
  {
    match s.pc
    case Begin(_, _) =>
    case Guard(_, _, _) =>
    case Install(_, _, _, _) =>
    case Discard(_, _, _, _) =>
    case _ => OthersMoveNothing(s);
  }

  lemma {:induction false} CancellingEnter(s: State)
    requires Cancelling(s) && InEnterCallback(s.pc)
    ensures Cancelling(EnterStep(s))
  {
  }

  lemma {:induction false} CancellingReachable(acts: seq<Action>)
    ensures Cancelling(Exec(INIT, acts))
    decreases |acts|
  {
    if acts != [] {
      CancellingReachable(acts[..|acts| - 1]);
      CancellingStep(Exec(INIT, acts[..|acts| - 1]), acts[|acts| - 1]);
    }
  }

  /** In every run the launch callback begins with the role of pre_entity_type, and a
      launched entity with another behind it has its cancel word set before its guard is
      read; without one behind it the word stays as it was. */
  lemma {:induction false} CancelledBeforeReplaced(acts: seq<Action>)
    ensures var s := Exec(INIT, acts); var t := Next(s, Task);
            && (s.pc.Dispatch? && s.preType != NoEntity ==> t.pc == Begin(if s.preType == PreSta then Sta else Ap, true))
            && (s.pc.Begin? && Prev(s.slots, s.pc.role).Some? ==>
                  t.pc == Guard(s.pc.role, s.pc.first, Fol(s.slots, s.pc.role).Some?)
                  && t.flags == if Fol(s.slots, s.pc.role) == None then s.flags
                                else if s.pc.role == Sta then s.flags.(staCancel := true) else s.flags.(apCancel := true))
  {
    CancellingReachable(acts);
  }

  /** The status and cancel words of a role are clean. */
  predicate Clean(f: Flags, r: Role) {
    if r == Sta then !f.staCancel && f.staStatus == 0 else !f.apCancel && f.apStatus == 0
  }

  /** A start that returns leaves no cancel or status of an earlier launch of its role
      behind, and that of an access point begins with none. */
  lemma {:induction false} StartLeavesClean(s: State)
    ensures s.pc.Install? && Next(s, Task).pc.Starting? ==>
      if s.pc.role == Ap then Clean(Next(s, Task).flags, Ap) else Next(s, Task).flags == s.flags
    ensures s.pc.Starting? && s.pc.entity.req in {ReqSta, ReqPureStaScan} ==> Clean(Next(s, Task).flags, Sta)
    ensures s.pc.Starting? && s.pc.entity.req == ReqAp ==> Clean(Next(s, Task).flags, Ap)
    ensures s.pc.EnterSta? && s.pc.sta == Some(ReqSta) && Next(s, Task).log.starts != s.log.starts ==> Clean(Next(s, Task).flags, Sta)
    ensures s.pc.EnterAp? && s.pc.ap == Some(ReqAp) && Next(s, Task).log.starts != s.log.starts ==> Clean(Next(s, Task).flags, Ap)
  {
  }
}
