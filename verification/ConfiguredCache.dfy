/** The service cached with the configuration it was built for: two fields under two locks. */
module ConfiguredCache {
  import opened Basics
  import opened Histories
  import opened Locks

  /** Any type of configuration, with whatever test the program compares two of them by. */
  type Config

  type Equality = (Config, Config) -> bool

  /** A service instance, and the configuration that its factory was given. */
  datatype Instance = Instance(id: nat, builtFor: Config)

  datatype Op = GetOrInit(wanted: Config) | CurrentConfig | IsInitialized | Reset

  datatype Reply =
    | Got(wanted: Config, s: Instance)
    | InitError
    | Current(config: Option<Config>)
    | Answer(yes: bool)
    | Done

  // ---- The atomic register ----------------------------------------------------------------------

  datatype Register = Register(service: Option<Instance>, config: Option<Config>) {
    /** Both are set, the service built for the configuration, or neither is. */
    ghost predicate Consistent() {
      if service.Some? then config == Some(service.value.builtFor) else config == None
    }
  }

  const EMPTY: Register := Register(None, None)

  /** One atomic step on the register, with what it returned. */
  datatype Action =
    | Hit(wanted: Config, s: Instance)
    | Overwrite(wanted: Config, made: Instance)
    | FailInit(wanted: Config)
    | LookConfig(found: Option<Config>)
    | Check(yes: bool)
    | Clear
  {
    function Op(): Op {
      match this
      case Hit(wanted, _) => GetOrInit(wanted)
      case Overwrite(wanted, _) => GetOrInit(wanted)
      case FailInit(wanted) => GetOrInit(wanted)
      case LookConfig(_) => CurrentConfig
      case Check(_) => IsInitialized
      case Clear => Reset
    }

    function Reply(): Reply {
      match this
      case Hit(wanted, s) => Got(wanted, s)
      case Overwrite(wanted, made) => Got(wanted, made)
      case FailInit(_) => InitError
      case LookConfig(found) => Current(found)
      case Check(yes) => Answer(yes)
      case Clear => Done
    }

    /** A hit needs an equal configuration; what is stored was built for the configuration that was wanted. */
    ghost predicate Legal(eq: Equality, reg: Register) {
      match this
      case Hit(wanted, s) => reg.service == Some(s) && reg.config.Some? && eq(reg.config.value, wanted)
      case Overwrite(wanted, made) => made.builtFor == wanted
      case LookConfig(found) => found == reg.config
      case Check(yes) => yes == reg.service.Some?
      case _ => true
    }

    function Next(reg: Register): Register {
      match this
      case Overwrite(wanted, made) => Register(Some(made), Some(wanted))
      case Clear => EMPTY
      case _ => reg
    }
  }

  ghost function Atomic(eq: Equality): Object<Register, Action, Op, Reply> {
    Object(EMPTY, (a: Action) => a.Op(), (a: Action) => a.Reply(),
           (reg: Register, a: Action) => a.Legal(eq, reg), (reg: Register, a: Action) => a.Next(reg))
  }

  /** The fast path finds the instance that may be hit, if there is one. */
  ghost predicate LookedUp(eq: Equality, reg: Register, wanted: Config, hit: Option<Instance>) {
    if hit.Some? then Hit(wanted, hit.value).Legal(eq, reg)
    else reg.service.Some? ==> !Hit(wanted, reg.service.value).Legal(eq, reg)
  }

  // ---- The critical sections ------------------------------------------------------------------

  class Cache {
    var service: Option<Instance>
    var config: Option<Config>

    function Fields(): Register
      reads this
    {
      Register(service, config)
    }

    constructor ()
      ensures Fields() == EMPTY
    {
      service, config := None, None;
    }

    method LookUp(eq: Equality, wanted: Config) returns (hit: Option<Instance>)
      ensures LookedUp(eq, Fields(), wanted, hit)
    {
      hit := if service.Some? && config.Some? && eq(config.value, wanted) then service else None;
    }

    method Store(wanted: Config, made: Instance)
      modifies this
      ensures Fields() == Overwrite(wanted, made).Next(old(Fields())) && service == Some(made) && config == Some(wanted)
      ensures made.builtFor == wanted ==> Fields().Consistent()
    {
      service := Some(made);
      config := Some(wanted);
    }

    method Reset()
      modifies this
      ensures Fields() == Clear.Next(old(Fields())) && service == None && config == None
    {
      service := None;
      config := None;
    }
  }

  // ---- The interleaved steps ------------------------------------------------------------------

  datatype Pc =
    | Idle
    | GetAwaitService(wanted: Config)
    | GetAwaitConfig(wanted: Config)
    | GetBoth(wanted: Config)
    | GetChecked(wanted: Config, hit: Option<Instance>)
    | GetHoldService(wanted: Config, hit: Option<Instance>)
    | Initializing(wanted: Config)
    | PutAwaitService(wanted: Config, made: Instance)
    | PutAwaitConfig(wanted: Config, made: Instance)
    | PutBoth(wanted: Config, made: Instance)
    | PutHalf(wanted: Config, made: Instance)
    | PutFull(wanted: Config, made: Instance)
    | PutHoldService(wanted: Config, made: Instance)
    | ConfigAwait
    | ConfigReading
    | ConfigRead(config: Option<Config>)
    | CheckAwait
    | CheckReading
    | CheckRead(yes: bool)
    | ResetAwaitService
    | ResetAwaitConfig
    | ResetBoth
    | ResetHalf
    | ResetFull
    | ResetHoldService
    | Returning(op: Op, reply: Reply)
  {
    function ServiceHold(): Hold {
      match this
      case GetAwaitConfig(_) => ReadHold
      case GetBoth(_) => ReadHold
      case GetChecked(_, _) => ReadHold
      case GetHoldService(_, _) => ReadHold
      case CheckReading => ReadHold
      case CheckRead(_) => ReadHold
      case PutAwaitConfig(_, _) => WriteHold
      case PutBoth(_, _) => WriteHold
      case PutHalf(_, _) => WriteHold
      case PutFull(_, _) => WriteHold
      case PutHoldService(_, _) => WriteHold
      case ResetAwaitConfig => WriteHold
      case ResetBoth => WriteHold
      case ResetHalf => WriteHold
      case ResetFull => WriteHold
      case ResetHoldService => WriteHold
      case _ => NoHold
    }

    function ConfigHold(): Hold {
      match this
      case GetBoth(_) => ReadHold
      case GetChecked(_, _) => ReadHold
      case ConfigReading => ReadHold
      case ConfigRead(_) => ReadHold
      case PutBoth(_, _) => WriteHold
      case PutHalf(_, _) => WriteHold
      case PutFull(_, _) => WriteHold
      case ResetBoth => WriteHold
      case ResetHalf => WriteHold
      case ResetFull => WriteHold
      case _ => NoHold
    }

    /** The hold on the service lock that the thread is waiting for. */
    function ServiceWant(): Hold {
      match this
      case GetAwaitService(_) => ReadHold
      case CheckAwait => ReadHold
      case PutAwaitService(_, _) => WriteHold
      case ResetAwaitService => WriteHold
      case _ => NoHold
    }

    function ConfigWant(): Hold {
      match this
      case GetAwaitConfig(_) => ReadHold
      case ConfigAwait => ReadHold
      case PutAwaitConfig(_, _) => WriteHold
      case ResetAwaitConfig => WriteHold
      case _ => NoHold
    }

    /** How far the thread's current call has come. */
    function Phase(): Phase<Op, Reply> {
      match this
      case Idle => Resting
      case GetAwaitService(wanted) => Called(GetOrInit(wanted))
      case GetAwaitConfig(wanted) => Called(GetOrInit(wanted))
      case GetBoth(wanted) => Called(GetOrInit(wanted))
      case GetChecked(wanted, hit) => Found(wanted, hit)
      case GetHoldService(wanted, hit) => Found(wanted, hit)
      case Initializing(wanted) => Called(GetOrInit(wanted))
      case PutAwaitService(wanted, _) => Called(GetOrInit(wanted))
      case PutAwaitConfig(wanted, _) => Called(GetOrInit(wanted))
      case PutBoth(wanted, _) => Called(GetOrInit(wanted))
      case PutHalf(wanted, _) => Called(GetOrInit(wanted))
      case PutFull(wanted, made) => Found(wanted, Some(made))
      case PutHoldService(wanted, made) => Found(wanted, Some(made))
      case ConfigRead(config) => Took(CurrentConfig, Current(config))
      case CheckRead(yes) => Took(IsInitialized, Answer(yes))
      case ResetFull => Took(Reset, Done)
      case ResetHoldService => Took(Reset, Done)
      case Returning(op, reply) => Took(op, reply)
      case _ => Called(if ConfigAwait? || ConfigReading? then CurrentConfig
                       else if CheckAwait? || CheckReading? then IsInitialized
                       else Reset)
    }

    static function Found(wanted: Config, s: Option<Instance>): Phase<Op, Reply> {
      if s.Some? then Took(GetOrInit(wanted), Got(wanted, s.value)) else Called(GetOrInit(wanted))
    }

    /** Between the two assignments of a write section. */
    predicate Half() {
      PutHalf? || ResetHalf?
    }
  }

  /** What the environment picks: the call of an idle thread, and the instance its factory makes, if any. */
  datatype Choice = Choice(op: Op, init: Option<nat>)

  type CacheEvent = Event<Op, Reply, Action>

  /** What the threads share. */
  datatype Memory = Memory(serviceLock: RwLock, configLock: RwLock, service: Option<Instance>, config: Option<Config>) {
    function Fields(): Register {
      Register(service, config)
    }

    /** What the fast path finds. */
    function Match(eq: Equality, wanted: Config): Option<Instance> {
      if service.Some? && config.Some? && eq(config.value, wanted) then service else None
    }

    function Then(next: Pc): Moment {
      Moment(this, next)
    }
  }

  /** The memory, and where one thread is. */
  datatype Moment = Moment(memory: Memory, pc: Pc)

  datatype State = State(memory: Memory, pcs: seq<Pc>, history: seq<CacheEvent>)

  function Start(threads: nat): State {
    State(Memory(FREE, FREE, None, None), seq(threads, _ => Idle), [])
  }

  function ReadService(m: Memory, t: nat, pc: Pc, next: Pc): Moment {
    if m.serviceLock.CanRead() then Moment(m.(serviceLock := m.serviceLock.Read(t)), next) else Moment(m, pc)
  }

  function ReadConfig(m: Memory, t: nat, pc: Pc, next: Pc): Moment {
    if m.configLock.CanRead() then Moment(m.(configLock := m.configLock.Read(t)), next) else Moment(m, pc)
  }

  function WriteService(m: Memory, t: nat, pc: Pc, next: Pc): Moment {
    if m.serviceLock.CanWrite() then Moment(m.(serviceLock := m.serviceLock.Write(t)), next) else Moment(m, pc)
  }

  function WriteConfig(m: Memory, t: nat, pc: Pc, next: Pc): Moment {
    if m.configLock.CanWrite() then Moment(m.(configLock := m.configLock.Write(t)), next) else Moment(m, pc)
  }

  /** What thread t does next at pc; guards drop in the reverse order of their acquisition. */
  function Act(eq: Equality, m: Memory, t: nat, pc: Pc, c: Choice): Moment {
    match pc
    case Idle =>
      m.Then(match c.op
             case GetOrInit(wanted) => GetAwaitService(wanted)
             case CurrentConfig => ConfigAwait
             case IsInitialized => CheckAwait
             case Reset => ResetAwaitService)
    case GetAwaitService(wanted) => ReadService(m, t, pc, GetAwaitConfig(wanted))
    case GetAwaitConfig(wanted) => ReadConfig(m, t, pc, GetBoth(wanted))
    case GetBoth(wanted) => m.Then(GetChecked(wanted, m.Match(eq, wanted)))
    case GetChecked(wanted, hit) => m.(configLock := m.configLock.Unread(t)).Then(GetHoldService(wanted, hit))
    case GetHoldService(wanted, hit) =>
      m.(serviceLock := m.serviceLock.Unread(t))
       .Then(if hit.Some? then Returning(GetOrInit(wanted), Got(wanted, hit.value)) else Initializing(wanted))
    case Initializing(wanted) =>
      m.Then(if c.init.Some? then PutAwaitService(wanted, Instance(c.init.value, wanted))
             else Returning(GetOrInit(wanted), InitError))
    case PutAwaitService(wanted, made) => WriteService(m, t, pc, PutAwaitConfig(wanted, made))
    case PutAwaitConfig(wanted, made) => WriteConfig(m, t, pc, PutBoth(wanted, made))
    case PutBoth(wanted, made) => m.(service := Some(made)).Then(PutHalf(wanted, made))
    case PutHalf(wanted, made) => m.(config := Some(wanted)).Then(PutFull(wanted, made))
    case PutFull(wanted, made) => m.(configLock := m.configLock.Unwrite()).Then(PutHoldService(wanted, made))
    case PutHoldService(wanted, made) =>
      m.(serviceLock := m.serviceLock.Unwrite()).Then(Returning(GetOrInit(wanted), Got(wanted, made)))
    case ConfigAwait => ReadConfig(m, t, pc, ConfigReading)
    case ConfigReading => m.Then(ConfigRead(m.config))
    case ConfigRead(config) => m.(configLock := m.configLock.Unread(t)).Then(Returning(CurrentConfig, Current(config)))
    case CheckAwait => ReadService(m, t, pc, CheckReading)
    case CheckReading => m.Then(CheckRead(m.service.Some?))
    case CheckRead(yes) => m.(serviceLock := m.serviceLock.Unread(t)).Then(Returning(IsInitialized, Answer(yes)))
    case ResetAwaitService => WriteService(m, t, pc, ResetAwaitConfig)
    case ResetAwaitConfig => WriteConfig(m, t, pc, ResetBoth)
    case ResetBoth => m.(service := None).Then(ResetHalf)
    case ResetHalf => m.(config := None).Then(ResetFull)
    case ResetFull => m.(configLock := m.configLock.Unwrite()).Then(ResetHoldService)
    case ResetHoldService => m.(serviceLock := m.serviceLock.Unwrite()).Then(Returning(Reset, Done))
    case Returning(_, _) => m.Then(Idle)
  }

  /** What this adds to the history: a call takes effect where the fast path hits, at the second assignment of a
      write section, where a field is read, or where the factory fails. */
  function Recorded(eq: Equality, m: Memory, t: nat, pc: Pc, c: Choice): Option<CacheEvent> {
    match pc
    case Idle => Some(Invoke(t, c.op))
    case GetBoth(wanted) =>
      var hit := m.Match(eq, wanted);
      if hit.Some? then Some(Effect(t, Hit(wanted, hit.value))) else None
    case Initializing(wanted) => if c.init.None? then Some(Effect(t, FailInit(wanted))) else None
    case PutHalf(wanted, made) => Some(Effect(t, Overwrite(wanted, made)))
    case ConfigReading => Some(Effect(t, LookConfig(m.config)))
    case CheckReading => Some(Effect(t, Check(m.service.Some?)))
    case ResetHalf => Some(Effect(t, Clear))
    case Returning(_, reply) => Some(Return(t, reply))
    case _ => None
  }

  /** One step of one thread; a thread whose lock is not available does not move. */
  function Step(eq: Equality, s: State, t: nat, c: Choice): State
    requires t < |s.pcs|
  {
    var now, e := Act(eq, s.memory, t, s.pcs[t], c), Recorded(eq, s.memory, t, s.pcs[t], c);
    State(now.memory, s.pcs[t := now.pc], if e.Some? then s.history + [e.value] else s.history)
  }

  datatype Turn = Turn(thread: nat, choice: Choice)

  function Run(eq: Equality, threads: nat, schedule: seq<Turn>): (s: State)
    ensures |s.pcs| == threads
  {
    if schedule == [] then Start(threads) else
    var s, turn := Run(eq, threads, schedule[..|schedule| - 1]), schedule[|schedule| - 1];
    if turn.thread < threads then Step(eq, s, turn.thread, turn.choice) else s
  }

  /** The sections of the machine are those of the class: alone, they look up, overwrite and clear. */
  lemma SectionsAct(eq: Equality, m: Memory, t: nat, pc: Pc, c: Choice)
    ensures var first := Act(eq, m, t, pc, c);
            var second := Act(eq, first.memory, t, first.pc, c);
            && (pc.GetBoth? ==> first.memory == m && first.pc.GetChecked?
                                && LookedUp(eq, m.Fields(), pc.wanted, first.pc.hit))
            && (pc.PutBoth? ==> second.memory.Fields() == Overwrite(pc.wanted, pc.made).Next(m.Fields()))
            && (pc.ResetBoth? ==> second.memory.Fields() == Clear.Next(m.Fields()))
  {
  }

  // ---- The invariant --------------------------------------------------------------------------

  /** An instance was built for a configuration that passes for the caller's, or by this very call. */
  ghost predicate Honest(eq: Equality, reply: Reply) {
    reply.Got? ==> eq(reply.s.builtFor, reply.wanted) || reply.s.builtFor == reply.wanted
  }

  /** What a thread knows at its place in the code. */
  ghost predicate PcKnows(eq: Equality, pc: Pc, service: Option<Instance>) {
    match pc
    case GetChecked(wanted, hit) => hit.Some? ==> eq(hit.value.builtFor, wanted)
    case GetHoldService(wanted, hit) => hit.Some? ==> eq(hit.value.builtFor, wanted)
    case PutAwaitService(wanted, made) => made.builtFor == wanted
    case PutAwaitConfig(wanted, made) => made.builtFor == wanted
    case PutBoth(wanted, made) => made.builtFor == wanted
    case PutHalf(wanted, made) => made.builtFor == wanted && service == Some(made)
    case PutFull(wanted, made) => made.builtFor == wanted
    case PutHoldService(wanted, made) => made.builtFor == wanted
    case ResetHalf => service == None
    case Returning(_, reply) => Honest(eq, reply)
    case _ => true
  }

  ghost function ServiceHolds(pcs: seq<Pc>): seq<Hold> {
    seq(|pcs|, t requires 0 <= t < |pcs| => pcs[t].ServiceHold())
  }

  ghost function ConfigHolds(pcs: seq<Pc>): seq<Hold> {
    seq(|pcs|, t requires 0 <= t < |pcs| => pcs[t].ConfigHold())
  }

  ghost predicate LocksHeld(m: Memory, pcs: seq<Pc>) {
    HeldAs(m.serviceLock, ServiceHolds(pcs)) && HeldAs(m.configLock, ConfigHolds(pcs))
  }

  ghost predicate Settled(pcs: seq<Pc>) {
    forall t :: 0 <= t < |pcs| ==> !pcs[t].Half()
  }

  /** The register that the effects so far have led to. */
  ghost function Reg(eq: Equality, history: seq<CacheEvent>): Register {
    StateAfter(Atomic(eq), Actions(history))
  }

  /** The two fields show the register, except that between two assignments the service is ahead. */
  ghost predicate Shows(m: Memory, pcs: seq<Pc>, reg: Register) {
    reg.Consistent() && reg.config == m.config && (Settled(pcs) ==> reg.service == m.service)
  }

  ghost predicate ThreadsKnow(eq: Equality, m: Memory, pcs: seq<Pc>) {
    forall t :: 0 <= t < |pcs| ==> PcKnows(eq, pcs[t], m.service)
  }

  ghost function Phases(pcs: seq<Pc>): seq<Phase<Op, Reply>> {
    seq(|pcs|, t requires 0 <= t < |pcs| => pcs[t].Phase())
  }

  ghost predicate RepliesHonest(eq: Equality, history: seq<CacheEvent>) {
    forall i :: 0 <= i < |history| && history[i].Return? ==> Honest(eq, history[i].reply)
  }

  ghost predicate Invariant(eq: Equality, s: State) {
    && LocksHeld(s.memory, s.pcs)
    && ThreadsKnow(eq, s.memory, s.pcs)
    && Shows(s.memory, s.pcs, Reg(eq, s.history))
    && Tells(Atomic(eq), s.history, Reg(eq, s.history), Phases(s.pcs))
    && RepliesHonest(eq, s.history)
  }

  lemma ActsOnServiceLock(eq: Equality, m: Memory, t: nat, pc: Pc, c: Choice)
    ensures var now := Act(eq, m, t, pc, c);
            LockMove(m.serviceLock, now.memory.serviceLock, t, pc.ServiceHold(), now.pc.ServiceHold())
  {
  }

  lemma ActsOnConfigLock(eq: Equality, m: Memory, t: nat, pc: Pc, c: Choice)
    ensures var now := Act(eq, m, t, pc, c);
            LockMove(m.configLock, now.memory.configLock, t, pc.ConfigHold(), now.pc.ConfigHold())
  {
  }

  /** Which fields a step may assign, and where. */
  lemma ActsOnFields(eq: Equality, m: Memory, t: nat, pc: Pc, c: Choice)
    ensures var now := Act(eq, m, t, pc, c);
            && (now.memory.service != m.service ==> now.pc.Half())
            && (now.memory.config != m.config ==> pc.Half())
            && (pc.Half() || now.pc.Half() ==> pc.ConfigHold() == WriteHold)
  {
  }

  /** The register shows what a thread at pc may rely on. */
  ghost predicate ShowsAt(m: Memory, pc: Pc, reg: Register) {
    reg.Consistent() && reg.config == m.config && (pc.ServiceHold() == ReadHold ==> reg.service == m.service)
  }

  /** What a step records fits the thread's call; without a record the call comes no further. */
  lemma StepFits(eq: Equality, m: Memory, t: nat, pc: Pc, c: Choice)
    ensures var now, e := Act(eq, m, t, pc, c), Recorded(eq, m, t, pc, c);
            if e.None? then now.pc.Phase() == pc.Phase()
            else e.value.thread == t && Fits(Atomic(eq), e.value, pc.Phase())
                 && now.pc.Phase() == AfterEvent(Atomic(eq), e.value)
  {
  }

  /** It is legal on the register that the fields show. */
  lemma StepLegal(eq: Equality, m: Memory, t: nat, pc: Pc, c: Choice, reg: Register)
    requires PcKnows(eq, pc, m.service) && ShowsAt(m, pc, reg)
    ensures var e := Recorded(eq, m, t, pc, c);
            e.Some? ==> && (e.value.Effect? ==> e.value.action.Legal(eq, reg))
                        && (e.value.Return? ==> Honest(eq, e.value.reply))
  {
  }

  /** The register after the recorded event, if any. */
  ghost function RegAfter(eq: Equality, reg: Register, e: Option<CacheEvent>): Register {
    if e.Some? then Moved(Atomic(eq), reg, e.value) else reg
  }

  /** The fields after a step show the register after it. */
  lemma StepShows(eq: Equality, m: Memory, t: nat, pc: Pc, c: Choice, reg: Register)
    requires PcKnows(eq, pc, m.service) && ShowsAt(m, pc, reg)
    ensures var now, reg' := Act(eq, m, t, pc, c), RegAfter(eq, reg, Recorded(eq, m, t, pc, c));
            && PcKnows(eq, now.pc, now.memory.service)
            && reg'.Consistent() && reg'.config == now.memory.config
            && if pc.Half() then reg'.service == now.memory.service else reg' == reg
  {
  }

  lemma StepKeepsInvariant(eq: Equality, s: State, t: nat, c: Choice)
    requires t < |s.pcs| && Invariant(eq, s)
    ensures Invariant(eq, Step(eq, s, t, c))
  {
    StepKeepsLocks(eq, s, t, c);
    StepKeepsShowing(eq, s, t, c, Reg(eq, s.history));
    StepTells(eq, s, t, c, Reg(eq, s.history));
  }

  lemma StepKeepsLocks(eq: Equality, s: State, t: nat, c: Choice)
    requires t < |s.pcs| && LocksHeld(s.memory, s.pcs)
    ensures LocksHeld(Step(eq, s, t, c).memory, Step(eq, s, t, c).pcs)
  {
    var m, now := s.memory, Act(eq, s.memory, t, s.pcs[t], c);
    ActsOnServiceLock(eq, m, t, s.pcs[t], c);
    ActsOnConfigLock(eq, m, t, s.pcs[t], c);
    MoveKeepsHeld(m.serviceLock, now.memory.serviceLock, ServiceHolds(s.pcs), t, now.pc.ServiceHold());
    MoveKeepsHeld(m.configLock, now.memory.configLock, ConfigHolds(s.pcs), t, now.pc.ConfigHold());
    assert ServiceHolds(s.pcs[t := now.pc]) == ServiceHolds(s.pcs)[t := now.pc.ServiceHold()];
    assert ConfigHolds(s.pcs[t := now.pc]) == ConfigHolds(s.pcs)[t := now.pc.ConfigHold()];
  }

  /** Someone who holds either lock, in any way, sees no other thread half way. */
  lemma HolderSeesSettled(m: Memory, pcs: seq<Pc>, t: nat)
    requires LocksHeld(m, pcs) && t < |pcs|
    requires pcs[t].ServiceHold() != NoHold || pcs[t].ConfigHold() != NoHold
    ensures forall u :: 0 <= u < |pcs| && u != t ==> !pcs[u].Half()
  {
    forall u | 0 <= u < |pcs| && u != t ensures !pcs[u].Half() {
      assert ConfigHolds(pcs)[t] == pcs[t].ConfigHold() && ConfigHolds(pcs)[u] == pcs[u].ConfigHold();
      assert ServiceHolds(pcs)[t] == pcs[t].ServiceHold() && ServiceHolds(pcs)[u] == pcs[u].ServiceHold();
    }
  }

  lemma StepKeepsShowing(eq: Equality, s: State, t: nat, c: Choice, reg: Register)
    requires t < |s.pcs| && LocksHeld(s.memory, s.pcs) && ThreadsKnow(eq, s.memory, s.pcs)
    requires Shows(s.memory, s.pcs, reg)
    ensures ShowsAt(s.memory, s.pcs[t], reg)
    ensures ThreadsKnow(eq, Step(eq, s, t, c).memory, Step(eq, s, t, c).pcs)
    ensures Shows(Step(eq, s, t, c).memory, Step(eq, s, t, c).pcs,
                  RegAfter(eq, reg, Recorded(eq, s.memory, t, s.pcs[t], c)))
  {
    var m, pc := s.memory, s.pcs[t];
    if pc.ServiceHold() != NoHold || pc.ConfigHold() != NoHold {
      HolderSeesSettled(m, s.pcs, t);
    }
    ActsOnFields(eq, m, t, pc, c);
    StepShows(eq, m, t, pc, c, reg);
    FieldsKeepShowing(eq, m, s.pcs, t, Act(eq, m, t, pc, c), reg, RegAfter(eq, reg, Recorded(eq, m, t, pc, c)));
  }

  lemma FieldsKeepShowing(eq: Equality, m: Memory, pcs: seq<Pc>, t: nat, now: Moment, reg: Register, reg': Register)
    requires t < |pcs| && ThreadsKnow(eq, m, pcs) && Shows(m, pcs, reg) && PcKnows(eq, now.pc, now.memory.service)
    requires now.memory.service != m.service ==>
               now.pc.Half() && forall u :: 0 <= u < |pcs| && u != t ==> !pcs[u].Half()
    requires reg'.Consistent() && reg'.config == now.memory.config
    requires if pcs[t].Half() then reg'.service == now.memory.service else reg' == reg
    ensures ThreadsKnow(eq, now.memory, pcs[t := now.pc]) && Shows(now.memory, pcs[t := now.pc], reg')
  {
    var pcs' := pcs[t := now.pc];
    forall u | 0 <= u < |pcs'| ensures PcKnows(eq, pcs'[u], now.memory.service) {
    }
    if Settled(pcs') && !pcs[t].Half() {
      assert forall u :: 0 <= u < |pcs| && u != t ==> pcs[u] == pcs'[u];
      assert Settled(pcs) && pcs'[t] == now.pc;
    }
  }

  lemma StepTells(eq: Equality, s: State, t: nat, c: Choice, reg: Register)
    requires t < |s.pcs| && PcKnows(eq, s.pcs[t], s.memory.service) && ShowsAt(s.memory, s.pcs[t], reg)
    requires Tells(Atomic(eq), s.history, reg, Phases(s.pcs)) && RepliesHonest(eq, s.history)
    ensures var s', reg' := Step(eq, s, t, c), RegAfter(eq, reg, Recorded(eq, s.memory, t, s.pcs[t], c));
            Tells(Atomic(eq), s'.history, reg', Phases(s'.pcs)) && RepliesHonest(eq, s'.history)
  {
    var now, e := Act(eq, s.memory, t, s.pcs[t], c), Recorded(eq, s.memory, t, s.pcs[t], c);
    StepFits(eq, s.memory, t, s.pcs[t], c);
    StepLegal(eq, s.memory, t, s.pcs[t], c, reg);
    assert Phases(s.pcs[t := now.pc]) == Phases(s.pcs)[t := now.pc.Phase()];
    if e.Some? {
      TellsOneMore(Atomic(eq), s.history, reg, Phases(s.pcs), e.value);
    }
  }

  /** Every interleaving is linearizable: each call takes effect once, atomically on the pair of service and
      configuration, between its invocation and its return, and returns what that effect returned; the two
      fields are the register whenever no thread is between two assignments. */
  lemma {:induction false} Linearizable(eq: Equality, threads: nat, schedule: seq<Turn>)
    ensures Invariant(eq, Run(eq, threads, schedule))
  {
    if schedule == [] {
      assert ServiceHolds(Start(threads).pcs) == ConfigHolds(Start(threads).pcs) == seq(threads, _ => NoHold);
    } else {
      var front, turn := schedule[..|schedule| - 1], schedule[|schedule| - 1];
      Linearizable(eq, threads, front);
      if turn.thread < threads {
        StepKeepsInvariant(eq, Run(eq, threads, front), turn.thread, turn.choice);
      }
    }
  }

  lemma UnwrittenIsSettled(m: Memory, pcs: seq<Pc>)
    requires LocksHeld(m, pcs) && (m.serviceLock.writer.None? || m.configLock.writer.None?)
    ensures Settled(pcs)
  {
    forall t | 0 <= t < |pcs| ensures !pcs[t].Half() {
      assert ServiceHolds(pcs)[t] == pcs[t].ServiceHold() && ConfigHolds(pcs)[t] == pcs[t].ConfigHold();
    }
  }

  /** Whenever either lock is free of writers, the fields are the register, so service and configuration are both
      set or both empty and the service was built for that configuration; and every instance that a call returned
      was built for a configuration that passes for the caller's. */
  lemma SafeWhenUnwritten(eq: Equality, threads: nat, schedule: seq<Turn>)
    ensures var s := Run(eq, threads, schedule);
            && (s.memory.serviceLock.writer.None? || s.memory.configLock.writer.None? ==>
                  s.memory.Fields() == Reg(eq, s.history) && s.memory.Fields().Consistent())
            && RepliesHonest(eq, s.history)
  {
    var s := Run(eq, threads, schedule);
    Linearizable(eq, threads, schedule);
    if s.memory.serviceLock.writer.None? || s.memory.configLock.writer.None? {
      UnwrittenIsSettled(s.memory, s.pcs);
    }
  }

  // ---- What the atomic register guarantees --------------------------------------------------------

  ghost predicate Writes(a: Action) {
    a.Overwrite? || a.Clear?
  }

  /** The register is what the last write made it: the instance that was stored, for the configuration that it was
      stored for, or nothing. */
  lemma {:induction false} LastWriteShows(eq: Equality, actions: seq<Action>, i: nat)
    requires LegalRun(Atomic(eq), actions) && i < |actions| && Writes(actions[i])
    requires forall k :: i < k < |actions| ==> !Writes(actions[k])
    ensures var reg := StateAfter(Atomic(eq), actions);
            if actions[i].Clear? then reg == EMPTY
            else reg == Register(Some(actions[i].made), Some(actions[i].wanted))
                 && actions[i].made.builtFor == actions[i].wanted
  {
    var front := actions[..|actions| - 1];
    LegalLast(Atomic(eq), actions);
    if i < |front| {
      assert front[i] == actions[i] && !Writes(actions[|front|]);
      LastWriteShows(eq, front, i);
    }
  }

  /** A register that is not empty was stored by the last write. */
  lemma {:induction false} RegisterWasStored(eq: Equality, actions: seq<Action>) returns (i: nat)
    requires LegalRun(Atomic(eq), actions) && StateAfter(Atomic(eq), actions) != EMPTY
    ensures i < |actions| && actions[i].Overwrite? && actions[i].made.builtFor == actions[i].wanted
    ensures StateAfter(Atomic(eq), actions) == Register(Some(actions[i].made), Some(actions[i].wanted))
    ensures forall k :: i < k < |actions| ==> !Writes(actions[k])
  {
    var front, last := actions[..|actions| - 1], actions[|actions| - 1];
    LegalLast(Atomic(eq), actions);
    if last.Overwrite? {
      i := |front|;
    } else {
      i := RegisterWasStored(eq, front);
    }
  }

  /** In any run, a call that did not initialise got the instance stored last, with no overwrite or reset
      since, and that instance was built for a configuration that passes for the caller's. */
  lemma HitIsLastStored(eq: Equality, threads: nat, schedule: seq<Turn>, j: nat) returns (i: nat)
    requires var actions := Actions(Run(eq, threads, schedule).history); j < |actions| && actions[j].Hit?
    ensures var actions := Actions(Run(eq, threads, schedule).history);
            && i < j < |actions| && actions[i].Overwrite? && actions[j].Hit?
            && actions[j].s == actions[i].made && actions[i].made.builtFor == actions[i].wanted
            && eq(actions[i].wanted, actions[j].wanted)
            && forall k :: i < k < j ==> !Writes(actions[k])
  {
    var actions := Actions(Run(eq, threads, schedule).history);
    Linearizable(eq, threads, schedule);
    LegalPrefix(Atomic(eq), actions, j);
    assert Atomic(eq).legal(StateAfter(Atomic(eq), actions[..j]), actions[j]);
    i := RegisterWasStored(eq, actions[..j]);
    assert forall k :: 0 <= k < j ==> actions[..j][k] == actions[k];
  }

  // ---- No deadlock ------------------------------------------------------------------------------

  ghost predicate WriterWaits(pcs: seq<Pc>, forService: bool) {
    exists u :: 0 <= u < |pcs| && WriteHold == if forService then pcs[u].ServiceWant() else pcs[u].ConfigWant()
  }

  /** The thread is in a call and can move, even if waiting writers turn new readers away. */
  ghost predicate CanMove(s: State, t: nat)
    requires t < |s.pcs|
  {
    var pc := s.pcs[t];
    && pc != Idle
    && (pc.ServiceWant() == ReadHold ==> s.memory.serviceLock.CanRead() && !WriterWaits(s.pcs, true))
    && (pc.ServiceWant() == WriteHold ==> s.memory.serviceLock.CanWrite())
    && (pc.ConfigWant() == ReadHold ==> s.memory.configLock.CanRead() && !WriterWaits(s.pcs, false))
    && (pc.ConfigWant() == WriteHold ==> s.memory.configLock.CanWrite())
  }

  lemma CanMoveMoves(eq: Equality, s: State, t: nat)
    requires t < |s.pcs| && CanMove(s, t)
    ensures forall c :: Step(eq, s, t, c).pcs[t] != s.pcs[t]
  {
    forall c ensures Step(eq, s, t, c).pcs[t] != s.pcs[t] {
      assert Act(eq, s.memory, t, s.pcs[t], c).pc != s.pcs[t];
    }
  }

  /** When nobody holds a lock that somebody wants, some thread that wants it can take it. */
  lemma FreeLockIsTaken(s: State, t: nat, forService: bool) returns (u: nat)
    requires LocksHeld(s.memory, s.pcs) && t < |s.pcs|
    requires (if forService then s.pcs[t].ServiceWant() else s.pcs[t].ConfigWant()) != NoHold
    requires forall v :: 0 <= v < |s.pcs| ==>
               (if forService then s.pcs[v].ServiceHold() else s.pcs[v].ConfigHold()) == NoHold
    ensures u < |s.pcs| && CanMove(s, u)
  {
    var lock, holds := if forService then s.memory.serviceLock else s.memory.configLock,
                       if forService then ServiceHolds(s.pcs) else ConfigHolds(s.pcs);
    assert HeldAs(lock, holds) && forall v :: 0 <= v < |holds| ==> holds[v] == NoHold;
    assert lock.CanRead() && lock.CanWrite();
    u := t;
    if WriterWaits(s.pcs, forService) {
      u :| 0 <= u < |s.pcs| && WriteHold == if forService then s.pcs[u].ServiceWant() else s.pcs[u].ConfigWant();
    }
  }

  lemma SomeoneCanMove(s: State, t: nat) returns (u: nat)
    requires LocksHeld(s.memory, s.pcs) && t < |s.pcs| && s.pcs[t] != Idle
    ensures u < |s.pcs| && CanMove(s, u)
  {
    if v: nat :| v < |s.pcs| && s.pcs[v].ConfigHold() != NoHold {
      u := v;
    } else if v: nat :| v < |s.pcs| && s.pcs[v].ConfigWant() != NoHold {
      u := FreeLockIsTaken(s, v, false);
    } else if v: nat :| v < |s.pcs| && s.pcs[v].ServiceHold() != NoHold {
      u := v;
    } else if v: nat :| v < |s.pcs| && s.pcs[v].ServiceWant() != NoHold {
      u := FreeLockIsTaken(s, v, true);
    } else {
      u := t;
    }
  }

  /** Taking the service lock before the config lock never deadlocks: in every reachable state, if some call
      is under way then some call can move, and moves whatever the environment picks. */
  lemma NeverStuck(eq: Equality, threads: nat, schedule: seq<Turn>, t: nat) returns (u: nat)
    requires t < threads && Run(eq, threads, schedule).pcs[t] != Idle
    ensures u < threads && CanMove(Run(eq, threads, schedule), u)
    ensures forall c :: Step(eq, Run(eq, threads, schedule), u, c).pcs[u] != Run(eq, threads, schedule).pcs[u]
  {
    Linearizable(eq, threads, schedule);
    u := SomeoneCanMove(Run(eq, threads, schedule), t);
    CanMoveMoves(eq, Run(eq, threads, schedule), u);
  }

  // ---- The slow path ------------------------------------------------------------------------------

  /** The configuration for which the call has missed and is on its way to initialise. */
  ghost function MissedFor(pc: Pc): Option<Config> {
    match pc
    case GetChecked(wanted, hit) => if hit.None? then Some(wanted) else None
    case GetHoldService(wanted, hit) => if hit.None? then Some(wanted) else None
    case Initializing(wanted) => Some(wanted)
    case PutAwaitService(wanted, _) => Some(wanted)
    case PutAwaitConfig(wanted, _) => Some(wanted)
    case PutBoth(wanted, _) => Some(wanted)
    case PutHalf(wanted, _) => Some(wanted)
    case _ => None
  }

  /** The registers that hold nothing for this configuration. */
  ghost function Missing(eq: Equality, wanted: Config): Register -> bool {
    (reg: Register) => reg.service.None? || reg.config.None? || !eq(reg.config.value, wanted)
  }

  ghost predicate IsSlow(a: Action) {
    a.FailInit? || a.Overwrite?
  }

  /** Every slow call has seen, since it was invoked, nothing cached for its configuration: those under way, and those
      in the history. */
  ghost predicate SlowSawMiss(eq: Equality, s: State) {
    && (forall t :: 0 <= t < |s.pcs| && MissedFor(s.pcs[t]).Some? ==>
                      Since(Atomic(eq), s.history, t, Missing(eq, MissedFor(s.pcs[t]).value)))
    && (forall i :: 0 <= i < |s.history| && s.history[i].Effect? && IsSlow(s.history[i].action) ==>
                      Since(Atomic(eq), s.history[..i], s.history[i].thread,
                            Missing(eq, s.history[i].action.wanted)))
  }

  /** A call misses only by reading a register that holds nothing for it, and takes a slow effect only if it has
      missed. */
  lemma ActMisses(eq: Equality, m: Memory, t: nat, pc: Pc, c: Choice)
    ensures var now, e := Act(eq, m, t, pc, c), Recorded(eq, m, t, pc, c);
            && (MissedFor(now.pc).Some? ==>
                  e.None? && (MissedFor(now.pc) == MissedFor(pc)
                              || (pc.GetBoth? && Missing(eq, MissedFor(now.pc).value)(m.Fields()))))
            && (e.Some? && e.value.Effect? && IsSlow(e.value.action) ==> MissedFor(pc) == Some(e.value.action.wanted))
            && (e.Some? ==> e.value.thread == t)
  {
  }

  lemma StepKeepsSawMiss(eq: Equality, s: State, t: nat, c: Choice)
    requires t < |s.pcs| && Invariant(eq, s) && SlowSawMiss(eq, s)
    ensures SlowSawMiss(eq, Step(eq, s, t, c))
  {
    var now, e := Act(eq, s.memory, t, s.pcs[t], c), Recorded(eq, s.memory, t, s.pcs[t], c);
    ActMisses(eq, s.memory, t, s.pcs[t], c);
    if e.Some? {
      EventKeepsSawMiss(eq, s, Step(eq, s, t, c), t, e.value);
    } else if MissedFor(now.pc).Some? && MissedFor(now.pc) != MissedFor(s.pcs[t]) {
      StepKeepsShowing(eq, s, t, c, Reg(eq, s.history));
      SinceNow(Atomic(eq), s.history, t, Missing(eq, MissedFor(now.pc).value));
    }
  }

  lemma EventKeepsSawMiss(eq: Equality, s: State, s': State, t: nat, e: CacheEvent)
    requires t < |s.pcs| == |s'.pcs| && s'.pcs == s.pcs[t := s'.pcs[t]] && MissedFor(s'.pcs[t]).None?
    requires SlowSawMiss(eq, s) && s'.history == s.history + [e] && e.thread == t
    requires e.Effect? && IsSlow(e.action) ==> MissedFor(s.pcs[t]) == Some(e.action.wanted)
    ensures SlowSawMiss(eq, s')
  {
    forall u | 0 <= u < |s'.pcs| && MissedFor(s'.pcs[u]).Some?
      ensures Since(Atomic(eq), s'.history, u, Missing(eq, MissedFor(s'.pcs[u]).value))
    {
      assert u != t && s'.pcs[u] == s.pcs[u];
      SinceOneMore(Atomic(eq), s.history, u, Missing(eq, MissedFor(s.pcs[u]).value), e);
    }
    forall i | 0 <= i < |s'.history| && s'.history[i].Effect? && IsSlow(s'.history[i].action)
      ensures Since(Atomic(eq), s'.history[..i], s'.history[i].thread, Missing(eq, s'.history[i].action.wanted))
    {
      assert s'.history[..i] == s.history[..i];
      assert i == |s.history| ==> s.history[..i] == s.history;
    }
  }

  /** In every run, a call that failed to initialise, or that overwrote the register, saw at some moment after its
      invocation that nothing was cached for its configuration. */
  lemma {:induction false} InitOnlyOnMiss(eq: Equality, threads: nat, schedule: seq<Turn>)
    ensures SlowSawMiss(eq, Run(eq, threads, schedule))
  {
    if schedule != [] {
      var front, turn := schedule[..|schedule| - 1], schedule[|schedule| - 1];
      InitOnlyOnMiss(eq, threads, front);
      Linearizable(eq, threads, front);
      if turn.thread < threads {
        StepKeepsSawMiss(eq, Run(eq, threads, front), turn.thread, turn.choice);
      }
    }
  }

  // ---- A call on its own --------------------------------------------------------------------------

  /** What one call does when nothing interferes: the fields afterwards, and the reply. */
  ghost function Sequential(eq: Equality, reg: Register, c: Choice): (Register, Reply) {
    match c.op
    case GetOrInit(wanted) =>
      if reg.service.Some? && reg.config.Some? && eq(reg.config.value, wanted)
      then (reg, Got(wanted, reg.service.value))
      else if c.init.None? then (reg, InitError)
      else
        var made := Instance(c.init.value, wanted);
        (Register(Some(made), Some(wanted)), Got(wanted, made))
    case CurrentConfig => (reg, Current(reg.config))
    case IsInitialized => (reg, Answer(reg.service.Some?))
    case Reset => (EMPTY, Done)
  }

  /** n acts of one thread. */
  ghost function Acts(eq: Equality, m: Memory, t: nat, pc: Pc, c: Choice, n: nat): Moment {
    if n == 0 then Moment(m, pc) else
    var was := Acts(eq, m, t, pc, c, n - 1);
    Act(eq, was.memory, t, was.pc, c)
  }

  lemma {:induction false} ActsMore(eq: Equality, m: Memory, t: nat, pc: Pc, c: Choice, n: nat, more: nat)
    ensures var was := Acts(eq, m, t, pc, c, n);
            Acts(eq, m, t, pc, c, n + more) == Acts(eq, was.memory, t, was.pc, c, more)
  {
    if more > 0 {
      ActsMore(eq, m, t, pc, c, n, more - 1);
    }
  }

  lemma FewActs(eq: Equality, m: Memory, t: nat, pc: Pc, c: Choice)
    ensures var one := Act(eq, m, t, pc, c);
            var two := Act(eq, one.memory, t, one.pc, c);
            && Acts(eq, m, t, pc, c, 1) == one && Acts(eq, m, t, pc, c, 2) == two
            && Acts(eq, m, t, pc, c, 3) == Act(eq, two.memory, t, two.pc, c)
  {
    assert Acts(eq, m, t, pc, c, 1) == Act(eq, Acts(eq, m, t, pc, c, 0).memory, t, pc, c);
  }

  lemma SixActs(eq: Equality, m: Memory, t: nat, pc: Pc, c: Choice)
    ensures var half := Acts(eq, m, t, pc, c, 3);
            Acts(eq, m, t, pc, c, 6) == Acts(eq, half.memory, t, half.pc, c, 3)
  {
    ActsMore(eq, m, t, pc, c, 3, 3);
  }

  lemma AloneLooksUp(eq: Equality, m: Memory, t: nat, wanted: Config, c: Choice)
    requires m.serviceLock == FREE == m.configLock && c.op == GetOrInit(wanted)
    ensures Acts(eq, m, t, Idle, c, 6)
            == m.Then(if m.Match(eq, wanted).None? then Initializing(wanted)
                      else Returning(c.op, Got(wanted, m.Match(eq, wanted).value)))
  {
    FewActs(eq, m, t, Idle, c);
    SixActs(eq, m, t, Idle, c);
    var half := Acts(eq, m, t, Idle, c, 3);
    FewActs(eq, half.memory, t, half.pc, c);
  }

  lemma AlonePuts(eq: Equality, m: Memory, t: nat, wanted: Config, made: Instance, c: Choice)
    requires m.serviceLock == FREE == m.configLock
    ensures Acts(eq, m, t, PutAwaitService(wanted, made), c, 6)
            == m.(service := Some(made), config := Some(wanted))
                .Then(Returning(GetOrInit(wanted), Got(wanted, made)))
  {
    FewActs(eq, m, t, PutAwaitService(wanted, made), c);
    SixActs(eq, m, t, PutAwaitService(wanted, made), c);
    var half := Acts(eq, m, t, PutAwaitService(wanted, made), c, 3);
    FewActs(eq, half.memory, t, half.pc, c);
  }

  lemma AloneResets(eq: Equality, m: Memory, t: nat, c: Choice)
    requires m.serviceLock == FREE == m.configLock
    ensures Acts(eq, m, t, ResetAwaitService, c, 6)
            == m.(service := None, config := None).Then(Returning(Reset, Done))
  {
    FewActs(eq, m, t, ResetAwaitService, c);
    SixActs(eq, m, t, ResetAwaitService, c);
    var half := Acts(eq, m, t, ResetAwaitService, c, 3);
    FewActs(eq, half.memory, t, half.pc, c);
  }

  lemma AlonePeeks(eq: Equality, m: Memory, t: nat, pc: Pc, c: Choice)
    requires m.serviceLock == FREE == m.configLock && (pc == ConfigAwait || pc == CheckAwait)
    ensures Acts(eq, m, t, pc, c, 3)
            == m.Then(if pc == ConfigAwait then Returning(CurrentConfig, Current(m.config))
                      else Returning(IsInitialized, Answer(m.service.Some?)))
  {
    FewActs(eq, m, t, pc, c);
  }

  lemma AloneInitialises(eq: Equality, m: Memory, t: nat, wanted: Config, c: Choice) returns (n: nat)
    requires m.serviceLock == FREE == m.configLock
    ensures Acts(eq, m, t, Initializing(wanted), c, n)
            == if c.init.None? then m.Then(Returning(GetOrInit(wanted), InitError)) else
               var made := Instance(c.init.value, wanted);
               m.(service := Some(made), config := Some(wanted)).Then(Returning(GetOrInit(wanted), Got(wanted, made)))
  {
    FewActs(eq, m, t, Initializing(wanted), c);
    n := 1;
    if c.init.Some? {
      ActsMore(eq, m, t, Initializing(wanted), c, 1, 6);
      AlonePuts(eq, m, t, wanted, Instance(c.init.value, wanted), c);
      n := 7;
    }
  }

  /** A thread that runs alone has its call ready to return after a few steps, with the sequential effect and reply. */
  lemma AloneIsSequential(eq: Equality, m: Memory, t: nat, c: Choice) returns (n: nat)
    requires m.serviceLock == FREE == m.configLock
    ensures var (reg, reply) := Sequential(eq, m.Fields(), c);
            Acts(eq, m, t, Idle, c, n) == Memory(FREE, FREE, reg.service, reg.config).Then(Returning(c.op, reply))
  {
    if c.op.GetOrInit? {
      n := AloneGets(eq, m, t, c);
    } else {
      n := if c.op.Reset? then 7 else 4;
      FewActs(eq, m, t, Idle, c);
      ActsMore(eq, m, t, Idle, c, 1, n - 1);
      if c.op.Reset? {
        AloneResets(eq, m, t, c);
      } else {
        AlonePeeks(eq, m, t, if c.op.CurrentConfig? then ConfigAwait else CheckAwait, c);
      }
    }
  }

  lemma AloneGets(eq: Equality, m: Memory, t: nat, c: Choice) returns (n: nat)
    requires m.serviceLock == FREE == m.configLock && c.op.GetOrInit?
    ensures var (reg, reply) := Sequential(eq, m.Fields(), c);
            Acts(eq, m, t, Idle, c, n) == Memory(FREE, FREE, reg.service, reg.config).Then(Returning(c.op, reply))
  {
    var wanted := c.op.wanted;
    AloneLooksUp(eq, m, t, wanted, c);
    n := 6;
    if m.Match(eq, wanted).None? {
      var more := AloneInitialises(eq, m, t, wanted, c);
      ActsMore(eq, m, t, Idle, c, 6, more);
      n := 6 + more;
    }
  }

  // ---- The factory --------------------------------------------------------------------------------

  /** The n-th turn of the schedule is t's factory ending like this, in the call that is t's last in the history. */
  ghost predicate FactoryRan(eq: Equality, threads: nat, schedule: seq<Turn>, history: seq<CacheEvent>, t: nat, n: nat,
                             wanted: Config, made: Option<Instance>) {
    && n < |schedule| && schedule[n].thread == t < threads
    && made == (if schedule[n].choice.init.Some? then Some(Instance(schedule[n].choice.init.value, wanted)) else None)
    && Run(eq, threads, schedule[..n]).pcs[t] == Initializing(wanted)
    && NoInvoke(history, t, |Run(eq, threads, schedule[..n]).history|)
  }

  ghost predicate FactoryMade(eq: Equality, threads: nat, schedule: seq<Turn>, history: seq<CacheEvent>, t: nat,
                              wanted: Config, made: Option<Instance>) {
    exists n: nat :: FactoryRan(eq, threads, schedule, history, t, n, wanted, made)
  }

  /** What a call is about to store, and for which configuration. */
  ghost function ToStore(pc: Pc): Option<(Config, Instance)> {
    match pc
    case PutAwaitService(wanted, made) => Some((wanted, made))
    case PutAwaitConfig(wanted, made) => Some((wanted, made))
    case PutBoth(wanted, made) => Some((wanted, made))
    case PutHalf(wanted, made) => Some((wanted, made))
    case _ => None
  }

  ghost function FactoryResult(a: Action): Option<Instance> {
    if a.Overwrite? then Some(a.made) else None
  }

  /** A thread is about to store what its own factory made. */
  ghost predicate StoresMade(eq: Equality, threads: nat, schedule: seq<Turn>, history: seq<CacheEvent>, t: nat,
                             pc: Pc) {
    ToStore(pc).Some? ==>
      FactoryMade(eq, threads, schedule, history, t, ToStore(pc).value.0, Some(ToStore(pc).value.1))
  }

  /** A slow effect is what the call's own factory ended with. */
  ghost predicate Owed(eq: Equality, threads: nat, schedule: seq<Turn>, history: seq<CacheEvent>, e: CacheEvent) {
    e.Effect? && IsSlow(e.action) ==>
      FactoryMade(eq, threads, schedule, history, e.thread, e.action.wanted, FactoryResult(e.action))
  }

  ghost predicate FactoriesRan(eq: Equality, threads: nat, schedule: seq<Turn>, s: State) {
    && (forall t :: 0 <= t < |s.pcs| ==> StoresMade(eq, threads, schedule, s.history, t, s.pcs[t]))
    && (forall i :: 0 <= i < |s.history| ==> Owed(eq, threads, schedule, s.history[..i], s.history[i]))
  }

  lemma FactoryMadeLonger(eq: Equality, threads: nat, front: seq<Turn>, turn: Turn, history: seq<CacheEvent>, t: nat,
                          wanted: Config, made: Option<Instance>)
    requires FactoryMade(eq, threads, front, history, t, wanted, made)
    ensures FactoryMade(eq, threads, front + [turn], history, t, wanted, made)
    ensures forall e: CacheEvent :: !(e.Invoke? && e.thread == t) ==>
              FactoryMade(eq, threads, front + [turn], history + [e], t, wanted, made)
  {
    var n: nat :| FactoryRan(eq, threads, front, history, t, n, wanted, made);
    assert (front + [turn])[..n] == front[..n] && (front + [turn])[n] == front[n];
    assert FactoryRan(eq, threads, front + [turn], history, t, n, wanted, made);
    forall e: CacheEvent | !(e.Invoke? && e.thread == t)
      ensures FactoryMade(eq, threads, front + [turn], history + [e], t, wanted, made)
    {
      assert FactoryRan(eq, threads, front + [turn], history + [e], t, n, wanted, made);
    }
  }

  /** What a step gets from the factory: only an initialising call takes its result. */
  lemma ActMakes(eq: Equality, m: Memory, t: nat, pc: Pc, c: Choice)
    ensures var now, e := Act(eq, m, t, pc, c), Recorded(eq, m, t, pc, c);
            && (ToStore(now.pc).Some? ==>
                  e.None? && (ToStore(now.pc) == ToStore(pc)
                              || (pc.Initializing? && c.init.Some?
                                  && ToStore(now.pc) == Some((pc.wanted, Instance(c.init.value, pc.wanted))))))
            && (e.Some? && e.value.Effect? && e.value.action.Overwrite? ==>
                  ToStore(pc) == Some((e.value.action.wanted, e.value.action.made)))
            && (e.Some? && e.value.Effect? && e.value.action.FailInit? ==>
                  pc == Initializing(e.value.action.wanted) && c.init == None)
            && (e.Some? ==> e.value.thread == t)
  {
  }

  lemma NewlyRan(eq: Equality, threads: nat, front: seq<Turn>, turn: Turn, wanted: Config)
    requires turn.thread < threads && Run(eq, threads, front).pcs[turn.thread] == Initializing(wanted)
    ensures FactoryMade(eq, threads, front + [turn], Run(eq, threads, front).history, turn.thread, wanted,
                        if turn.choice.init.Some? then Some(Instance(turn.choice.init.value, wanted)) else None)
  {
    assert (front + [turn])[..|front|] == front;
    assert FactoryRan(eq, threads, front + [turn], Run(eq, threads, front).history, turn.thread, |front|, wanted,
                      if turn.choice.init.Some? then Some(Instance(turn.choice.init.value, wanted)) else None);
  }

  /** Another thread's turn, with what it records, changes nothing about that. */
  lemma OthersStore(eq: Equality, threads: nat, front: seq<Turn>, turn: Turn, history: seq<CacheEvent>,
                    e: Option<CacheEvent>, u: nat, pc: Pc)
    requires StoresMade(eq, threads, front, history, u, pc) && (e.Some? ==> e.value.thread != u)
    ensures StoresMade(eq, threads, front + [turn], if e.Some? then history + [e.value] else history, u, pc)
  {
    if ToStore(pc).Some? {
      FactoryMadeLonger(eq, threads, front, turn, history, u, ToStore(pc).value.0, Some(ToStore(pc).value.1));
    }
  }

  lemma OwnStore(eq: Equality, threads: nat, front: seq<Turn>, turn: Turn)
    requires turn.thread < threads
    requires var s := Run(eq, threads, front);
             StoresMade(eq, threads, front, s.history, turn.thread, s.pcs[turn.thread])
    ensures var s, t := Run(eq, threads, front), turn.thread;
            var now, e := Act(eq, s.memory, t, s.pcs[t], turn.choice), Recorded(eq, s.memory, t, s.pcs[t], turn.choice);
            && (ToStore(now.pc).Some? ==> e.None?)
            && StoresMade(eq, threads, front + [turn], s.history, t, now.pc)
  {
    var s, t := Run(eq, threads, front), turn.thread;
    ActMakes(eq, s.memory, t, s.pcs[t], turn.choice);
    if s.pcs[t].Initializing? {
      NewlyRan(eq, threads, front, turn, s.pcs[t].wanted);
    } else {
      OthersStore(eq, threads, front, turn, s.history, None, t, s.pcs[t]);
    }
  }

  lemma OwedLonger(eq: Equality, threads: nat, front: seq<Turn>, turn: Turn, history: seq<CacheEvent>, e: CacheEvent)
    requires Owed(eq, threads, front, history, e)
    ensures Owed(eq, threads, front + [turn], history, e)
  {
    if e.Effect? && IsSlow(e.action) {
      FactoryMadeLonger(eq, threads, front, turn, history, e.thread, e.action.wanted, FactoryResult(e.action));
    }
  }

  lemma RecordedIsOwed(eq: Equality, threads: nat, front: seq<Turn>, turn: Turn)
    requires turn.thread < threads && FactoriesRan(eq, threads, front, Run(eq, threads, front))
    ensures var s, t := Run(eq, threads, front), turn.thread;
            var e := Recorded(eq, s.memory, t, s.pcs[t], turn.choice);
            e.Some? ==> Owed(eq, threads, front + [turn], s.history, e.value)
  {
    var s, t := Run(eq, threads, front), turn.thread;
    var e := Recorded(eq, s.memory, t, s.pcs[t], turn.choice);
    ActMakes(eq, s.memory, t, s.pcs[t], turn.choice);
    if s.pcs[t].Initializing? {
      NewlyRan(eq, threads, front, turn, s.pcs[t].wanted);
    } else if ToStore(s.pcs[t]).Some? {
      var (wanted, made) := ToStore(s.pcs[t]).value;
      FactoryMadeLonger(eq, threads, front, turn, s.history, t, wanted, Some(made));
    }
  }

  lemma TurnKeepsFactories(eq: Equality, threads: nat, front: seq<Turn>, turn: Turn)
    requires turn.thread < threads && FactoriesRan(eq, threads, front, Run(eq, threads, front))
    ensures FactoriesRan(eq, threads, front + [turn], Step(eq, Run(eq, threads, front), turn.thread, turn.choice))
  {
    var s, t, schedule := Run(eq, threads, front), turn.thread, front + [turn];
    var s' := Step(eq, s, t, turn.choice);
    RecordedIsOwed(eq, threads, front, turn);
    ActMakes(eq, s.memory, t, s.pcs[t], turn.choice);
    OwnStore(eq, threads, front, turn);
    forall u | 0 <= u < |s'.pcs| ensures StoresMade(eq, threads, schedule, s'.history, u, s'.pcs[u]) {
      if u != t {
        OthersStore(eq, threads, front, turn, s.history, Recorded(eq, s.memory, t, s.pcs[t], turn.choice), u, s.pcs[u]);
      }
    }
    forall i | 0 <= i < |s'.history| ensures Owed(eq, threads, schedule, s'.history[..i], s'.history[i]) {
      assert s'.history[..i] == s.history[..i];
      if i < |s.history| {
        OwedLonger(eq, threads, front, turn, s.history[..i], s.history[i]);
      } else {
        assert s.history[..i] == s.history;
      }
    }
  }

  lemma IdleTurn(eq: Equality, threads: nat, front: seq<Turn>, turn: Turn)
    requires FactoriesRan(eq, threads, front, Run(eq, threads, front))
    ensures FactoriesRan(eq, threads, front + [turn], Run(eq, threads, front))
  {
    var s := Run(eq, threads, front);
    forall t | 0 <= t < |s.pcs| ensures StoresMade(eq, threads, front + [turn], s.history, t, s.pcs[t]) {
      OthersStore(eq, threads, front, turn, s.history, None, t, s.pcs[t]);
    }
    forall i | 0 <= i < |s.history| ensures Owed(eq, threads, front + [turn], s.history[..i], s.history[i]) {
      OwedLonger(eq, threads, front, turn, s.history[..i], s.history[i]);
    }
  }

  /** In every run, a call fails to initialise only on a turn on which its own factory failed, and overwrites the
      register only with what its own factory made, in both cases after its invocation. */
  lemma {:induction false} FactoryDecides(eq: Equality, threads: nat, schedule: seq<Turn>)
    ensures FactoriesRan(eq, threads, schedule, Run(eq, threads, schedule))
  {
    if schedule != [] {
      var front, turn := schedule[..|schedule| - 1], schedule[|schedule| - 1];
      assert schedule == front + [turn];
      FactoryDecides(eq, threads, front);
      if turn.thread < threads {
        TurnKeepsFactories(eq, threads, front, turn);
      } else {
        IdleTurn(eq, threads, front, turn);
      }
    }
  }
}
