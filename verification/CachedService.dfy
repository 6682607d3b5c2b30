/** The lazily initialised service: every interleaving of its lock steps refines one atomic cell. */
module CachedService {
  import opened Basics
  import opened Histories
  import opened Locks

  /** A service instance, by identity. */
  type Instance = nat

  datatype Op = GetOrInit | Get | IsInitialized | Reset

  datatype Reply = Service(s: Instance) | InitError | Peeked(found: Option<Instance>) | Answer(yes: bool) | Done

  // ---- The atomic write-once cell with reset --------------------------------------------------

  /** One atomic step on the cell, with what it returned. */
  datatype Action =
    | Hit(s: Instance)
    | Publish(made: Instance, returned: Instance)
    | FailInit
    | Look(found: Option<Instance>)
    | Check(yes: bool)
    | Clear
  {
    function Op(): Op {
      match this
      case Hit(_) => GetOrInit
      case Publish(_, _) => GetOrInit
      case FailInit => GetOrInit
      case Look(_) => Get
      case Check(_) => IsInitialized
      case Clear => Reset
    }

    function Reply(): Reply {
      match this
      case Hit(s) => Service(s)
      case Publish(_, returned) => Service(returned)
      case FailInit => InitError
      case Look(found) => Peeked(found)
      case Check(yes) => Answer(yes)
      case Clear => Done
    }

    /** What the cell must hold for this step to return what it did. */
    predicate Legal(cell: Option<Instance>) {
      match this
      case Hit(s) => cell == Some(s)
      case Publish(made, returned) => returned == if cell.Some? then cell.value else made
      case FailInit => true
      case Look(found) => found == cell
      case Check(yes) => yes == cell.Some?
      case Clear => true
    }

    /** Only publishing into an empty cell and clearing change the cell. */
    function Next(cell: Option<Instance>): Option<Instance> {
      match this
      case Publish(made, _) => if cell.Some? then cell else Some(made)
      case Clear => None
      case _ => cell
    }

    /** The instance that the caller got hold of. */
    function Handed(): Option<Instance> {
      match this
      case Hit(s) => Some(s)
      case Publish(_, returned) => Some(returned)
      case Look(found) => found
      case _ => None
    }
  }

  /** The atomic cell. */
  const ATOMIC: Object<Option<Instance>, Action, Op, Reply> :=
    Object(None, (a: Action) => a.Op(), (a: Action) => a.Reply(),
           (cell: Option<Instance>, a: Action) => a.Legal(cell), (cell: Option<Instance>, a: Action) => a.Next(cell))

  // ---- The critical sections ------------------------------------------------------------------

  class Cell {
    var inner: Option<Instance>

    constructor ()
      ensures inner == None
    {
      inner := None;
    }

    method Load() returns (found: Option<Instance>)
      ensures Look(found).Legal(inner)
      ensures found.Some? ==> Hit(found.value).Legal(inner)
      ensures Check(found.Some?).Legal(inner)
    {
      found := inner;
    }

    method StoreIfAbsent(made: Instance) returns (returned: Instance)
      modifies this
      ensures Publish(made, returned).Legal(old(inner)) && inner == Publish(made, returned).Next(old(inner))
      ensures inner == Some(returned) && returned == if old(inner).Some? then old(inner).value else made
    {
      if inner == None {
        inner := Some(made);
      }
      returned := inner.value;
    }

    method Empty()
      modifies this
      ensures inner == Clear.Next(old(inner)) && inner == None
    {
      inner := None;
    }
  }

  // ---- The interleaved steps ------------------------------------------------------------------

  datatype Pc =
    | Idle
    | AwaitRead
    | Reading
    | HaveRead(found: Option<Instance>)
    | Initializing
    | AwaitWrite(made: Instance)
    | Writing(made: Instance)
    | Stored(returned: Instance)
    | PeekAwait(op: Op)
    | PeekReading(op: Op)
    | PeekDone(op: Op, reply: Reply)
    | ResetAwait
    | ResetWriting
    | ResetDone
    | Returning(op: Op, reply: Reply)
  {
    function Hold(): Hold {
      match this
      case Reading => ReadHold
      case HaveRead(_) => ReadHold
      case PeekReading(_) => ReadHold
      case PeekDone(_, _) => ReadHold
      case Writing(_) => WriteHold
      case Stored(_) => WriteHold
      case ResetWriting => WriteHold
      case ResetDone => WriteHold
      case _ => NoHold
    }

    /** How far the thread's current call has come. */
    function Phase(): Phase<Op, Reply> {
      match this
      case Idle => Resting
      case HaveRead(found) => if found.Some? then Took(GetOrInit, Service(found.value)) else Called(GetOrInit)
      case Stored(returned) => Took(GetOrInit, Service(returned))
      case PeekAwait(op) => Called(op)
      case PeekReading(op) => Called(op)
      case PeekDone(op, reply) => Took(op, reply)
      case ResetAwait => Called(Reset)
      case ResetWriting => Called(Reset)
      case ResetDone => Took(Reset, Done)
      case Returning(op, reply) => Took(op, reply)
      case _ => Called(GetOrInit)
    }
  }

  /** What the environment picks: the call that an idle thread makes, and how its factory ends. */
  datatype Choice = Choice(op: Op, init: Option<Instance>)

  type CellEvent = Event<Op, Reply, Action>

  datatype State = State(lock: RwLock, inner: Option<Instance>, pcs: seq<Pc>, history: seq<CellEvent>) {
    function At(t: nat, pc: Pc): State
      requires t < |pcs|
    {
      this.(pcs := pcs[t := pc])
    }

    function Record(e: CellEvent): State {
      this.(history := history + [e])
    }

    function WithLock(l: RwLock): State {
      this.(lock := l)
    }
  }

  function Start(threads: nat): State {
    State(FREE, None, seq(threads, _ => Idle), [])
  }

  /** One step of one thread; a thread whose lock is not available does not move. */
  function Step(s: State, t: nat, c: Choice): State
    requires t < |s.pcs|
  {
    match s.pcs[t]
    case Idle =>
      s.Record(Invoke(t, c.op)).At(t, match c.op
                                      case GetOrInit => AwaitRead
                                      case Reset => ResetAwait
                                      case _ => PeekAwait(c.op))
    case AwaitRead => if s.lock.CanRead() then s.WithLock(s.lock.Read(t)).At(t, Reading) else s
    case Reading =>
      var r := if s.inner.Some? then s.Record(Effect(t, Hit(s.inner.value))) else s;
      r.At(t, HaveRead(s.inner))
    case HaveRead(found) =>
      s.WithLock(s.lock.Unread(t))
       .At(t, if found.Some? then Returning(GetOrInit, Service(found.value)) else Initializing)
    case Initializing =>
      if c.init.Some? then s.At(t, AwaitWrite(c.init.value))
      else s.Record(Effect(t, FailInit)).At(t, Returning(GetOrInit, InitError))
    case AwaitWrite(made) => if s.lock.CanWrite() then s.WithLock(s.lock.Write(t)).At(t, Writing(made)) else s
    case Writing(made) =>
      var returned := if s.inner.Some? then s.inner.value else made;
      s.(inner := Some(returned)).Record(Effect(t, Publish(made, returned))).At(t, Stored(returned))
    case Stored(returned) => s.WithLock(s.lock.Unwrite()).At(t, Returning(GetOrInit, Service(returned)))
    case PeekAwait(op) => if s.lock.CanRead() then s.WithLock(s.lock.Read(t)).At(t, PeekReading(op)) else s
    case PeekReading(op) =>
      var action := if op == IsInitialized then Check(s.inner.Some?) else Look(s.inner);
      s.Record(Effect(t, action)).At(t, PeekDone(op, action.Reply()))
    case PeekDone(op, reply) => s.WithLock(s.lock.Unread(t)).At(t, Returning(op, reply))
    case ResetAwait => if s.lock.CanWrite() then s.WithLock(s.lock.Write(t)).At(t, ResetWriting) else s
    case ResetWriting => s.(inner := None).Record(Effect(t, Clear)).At(t, ResetDone)
    case ResetDone => s.WithLock(s.lock.Unwrite()).At(t, Returning(Reset, Done))
    case Returning(_, reply) => s.Record(Return(t, reply)).At(t, Idle)
  }

  /** A schedule: which thread moves next, and the environment's choice for it. */
  datatype Turn = Turn(thread: nat, choice: Choice)

  function Run(threads: nat, schedule: seq<Turn>): (s: State)
    ensures |s.pcs| == threads
  {
    if schedule == [] then Start(threads) else
    var s, turn := Run(threads, schedule[..|schedule| - 1]), schedule[|schedule| - 1];
    if turn.thread < threads then Step(s, turn.thread, turn.choice) else s
  }

  // ---- Linearizability ------------------------------------------------------------------------

  ghost function Holds(pcs: seq<Pc>): seq<Hold> {
    seq(|pcs|, t requires 0 <= t < |pcs| => pcs[t].Hold())
  }

  ghost function Phases(pcs: seq<Pc>): seq<Phase<Op, Reply>> {
    seq(|pcs|, t requires 0 <= t < |pcs| => pcs[t].Phase())
  }

  ghost predicate PcSane(pc: Pc) {
    pc.PeekAwait? || pc.PeekReading? ==> pc.op == Get || pc.op == IsInitialized
  }

  ghost predicate Invariant(s: State) {
    && HeldAs(s.lock, Holds(s.pcs))
    && (forall t :: 0 <= t < |s.pcs| ==> PcSane(s.pcs[t]))
    && Tells(ATOMIC, s.history, s.inner, Phases(s.pcs))
  }

  lemma StepMovesOne(s: State, t: nat, c: Choice)
    requires t < |s.pcs| && PcSane(s.pcs[t])
    ensures var s' := Step(s, t, c);
            |s'.pcs| == |s.pcs| && s'.pcs == s.pcs[t := s'.pcs[t]] && PcSane(s'.pcs[t])
  {
    assert s.pcs[t := s.pcs[t]] == s.pcs;
  }

  /** The moving thread's hold on the lock changes as the lock does. */
  lemma StepLock(s: State, t: nat, c: Choice)
    requires t < |s.pcs|
    ensures var s' := Step(s, t, c);
            |s'.pcs| == |s.pcs| && LockMove(s.lock, s'.lock, t, s.pcs[t].Hold(), s'.pcs[t].Hold())
  {
  }

  /** A step records at most one event, which fits the moving thread's call and acts on the cell as it says. */
  lemma StepEffect(s: State, t: nat, c: Choice)
    requires t < |s.pcs| && PcSane(s.pcs[t])
    ensures var s' := Step(s, t, c);
            && |s'.pcs| == |s.pcs| && |s.history| <= |s'.history|
            && if |s'.history| == |s.history|
               then s'.history == s.history && s'.inner == s.inner && s'.pcs[t].Phase() == s.pcs[t].Phase()
               else Moves(s, s', t, s'.history[|s.history|])
  {
    var s' := Step(s, t, c);
    match s.pcs[t]
    case Idle => assert s'.history == s.history + [Invoke(t, c.op)];
    case Reading =>
      assert s.inner.Some? ==> s'.history == s.history + [Effect(t, Hit(s.inner.value))];
    case Initializing =>
      assert c.init.None? ==> s'.history == s.history + [Effect(t, FailInit)];
    case _ =>
  }

  /** The step records event e of thread t. */
  ghost predicate Moves(s: State, s': State, t: nat, e: CellEvent)
    requires t < |s.pcs| == |s'.pcs|
  {
    && s'.history == s.history + [e] && e.thread == t && Fits(ATOMIC, e, s.pcs[t].Phase())
    && s'.pcs[t].Phase() == AfterEvent(ATOMIC, e)
    && (e.Effect? ==> e.action.Legal(s.inner)) && s'.inner == Moved(ATOMIC, s.inner, e)
  }

  lemma StepKeepsInvariant(s: State, t: nat, c: Choice)
    requires t < |s.pcs| && Invariant(s)
    ensures Invariant(Step(s, t, c))
  {
    var s' := Step(s, t, c);
    StepMovesOne(s, t, c);
    StepLock(s, t, c);
    StepEffect(s, t, c);
    MoveKeepsHeld(s.lock, s'.lock, Holds(s.pcs), t, s'.pcs[t].Hold());
    assert Holds(s'.pcs) == Holds(s.pcs)[t := s'.pcs[t].Hold()];
    assert Phases(s'.pcs) == Phases(s.pcs)[t := s'.pcs[t].Phase()];
    if |s'.history| > |s.history| {
      TellsOneMore(ATOMIC, s.history, s.inner, Phases(s.pcs), s'.history[|s.history|]);
    }
  }

  /** Every interleaving is linearizable: each call takes effect once, atomically on the cell, between its
      invocation and its return, and returns what that effect returned; the cell is the shared field. */
  lemma {:induction false} Linearizable(threads: nat, schedule: seq<Turn>)
    ensures Invariant(Run(threads, schedule))
  {
    if schedule == [] {
      assert Holds(Start(threads).pcs) == seq(threads, _ => NoHold);
    } else {
      var front, turn := schedule[..|schedule| - 1], schedule[|schedule| - 1];
      Linearizable(threads, front);
      if turn.thread < threads {
        StepKeepsInvariant(Run(threads, front), turn.thread, turn.choice);
      }
    }
  }

  // ---- What the atomic cell guarantees ----------------------------------------------------------

  ghost predicate NoClear(actions: seq<Action>, from: nat, to: nat) {
    forall k :: from <= k < to && k < |actions| ==> actions[k] != Clear
  }

  /** Whoever hands out an instance leaves it in the cell until a reset. */
  lemma {:induction false} CellHolds(actions: seq<Action>, i: nat)
    requires LegalRun(ATOMIC, actions) && i < |actions| && NoClear(actions, i + 1, |actions|)
    requires actions[i].Handed().Some?
    ensures StateAfter(ATOMIC, actions) == actions[i].Handed()
  {
    var front := actions[..|actions| - 1];
    LegalLast(ATOMIC, actions);
    if i < |front| {
      assert front[i] == actions[i] && actions[|front|] != Clear;
      CellHolds(front, i);
    }
  }

  /** All instances handed out between two consecutive resets are the same. */
  lemma SameBetweenResets(actions: seq<Action>, i: nat, j: nat)
    requires LegalRun(ATOMIC, actions) && i < j < |actions| && NoClear(actions, i, j)
    requires actions[i].Handed().Some? && actions[j].Handed().Some?
    ensures actions[i].Handed() == actions[j].Handed()
  {
    LegalPrefix(ATOMIC, actions, j);
    assert actions[..j][i] == actions[i];
    CellHolds(actions[..j], i);
    assert actions[j].Legal(StateAfter(ATOMIC, actions[..j]));
  }

  /** A full cell was filled by a publication that won, with no reset since. */
  lemma {:induction false} CellWasWon(actions: seq<Action>) returns (i: nat)
    requires LegalRun(ATOMIC, actions) && StateAfter(ATOMIC, actions).Some?
    ensures i < |actions| && actions[i] == Publish(StateAfter(ATOMIC, actions).value, StateAfter(ATOMIC, actions).value)
    ensures StateAfter(ATOMIC, actions[..i]) == None && NoClear(actions, i, |actions|)
  {
    var front, last := actions[..|actions| - 1], actions[|actions| - 1];
    assert actions == front + [last];
    assert last.Legal(StateAfter(ATOMIC, front));
    assert forall k :: 0 <= k < |front| ==> front[..k] == actions[..k] && front[k] == actions[k];
    if StateAfter(ATOMIC, front).Some? {
      i := CellWasWon(front);
    } else {
      i := |front|;
    }
  }

  /** A losing initialiser's instance is never handed out, before or after. */
  lemma LosersAreNeverHanded(actions: seq<Action>, i: nat, j: nat)
    requires LegalRun(ATOMIC, actions) && i < |actions| && j < |actions|
    requires actions[i].Publish? && actions[i].returned != actions[i].made
    requires forall k :: 0 <= k < |actions| && k != i && actions[k].Publish? ==> actions[k].made != actions[i].made
    ensures actions[j].Handed() != Some(actions[i].made)
  {
    var before := actions[..j];
    assert actions[j].Legal(StateAfter(ATOMIC, before));
    if StateAfter(ATOMIC, before).Some? {
      assert forall k :: 0 <= k < j ==> before[..k] == actions[..k] && before[k] == actions[k];
      var k := CellWasWon(before);
      assert before[k] == actions[k];
    }
  }

  /** In any run, the instances that two calls get between the same two resets are one instance. */
  lemma ResultsAgree(threads: nat, schedule: seq<Turn>, i: nat, j: nat)
    requires var actions := Actions(Run(threads, schedule).history);
             && i < j < |actions| && NoClear(actions, i, j)
             && actions[i].Handed().Some? && actions[j].Handed().Some?
    ensures var actions := Actions(Run(threads, schedule).history);
            actions[i].Handed() == actions[j].Handed()
  {
    Linearizable(threads, schedule);
    SameBetweenResets(Actions(Run(threads, schedule).history), i, j);
  }

  // ---- The slow path ------------------------------------------------------------------------------

  /** The call has seen an empty cell and is on its way to initialise it. */
  ghost predicate Missed(pc: Pc) {
    pc == HaveRead(None) || pc.Initializing? || pc.AwaitWrite? || pc.Writing?
  }

  ghost predicate Empty(cell: Option<Instance>) {
    cell == None
  }

  ghost predicate IsSlow(a: Action) {
    a.FailInit? || a.Publish?
  }

  /** Every slow call has seen the cell empty since it was invoked: those under way, and those in the history. */
  ghost predicate SlowSawEmpty(s: State) {
    && (forall t :: 0 <= t < |s.pcs| && Missed(s.pcs[t]) ==> Since(ATOMIC, s.history, t, Empty))
    && (forall i :: 0 <= i < |s.history| && s.history[i].Effect? && IsSlow(s.history[i].action) ==>
                      Since(ATOMIC, s.history[..i], s.history[i].thread, Empty))
  }

  /** A call misses only by reading an empty cell, and takes a slow effect only if it has missed. */
  lemma StepMisses(s: State, t: nat, c: Choice)
    requires t < |s.pcs| && PcSane(s.pcs[t])
    ensures var s' := Step(s, t, c);
            && |s'.pcs| == |s.pcs| && |s.history| <= |s'.history|
            && (Missed(s'.pcs[t]) ==> s'.history == s.history && (Missed(s.pcs[t]) || s.inner == None))
            && (|s'.history| > |s.history| ==>
                  s'.history == s.history + [s'.history[|s.history|]] && s'.history[|s.history|].thread == t
                  && (s'.history[|s.history|].Effect? && IsSlow(s'.history[|s.history|].action) ==> Missed(s.pcs[t])))
  {
    StepEffect(s, t, c);
  }

  lemma StepKeepsSawEmpty(s: State, t: nat, c: Choice)
    requires t < |s.pcs| && Invariant(s) && SlowSawEmpty(s)
    ensures SlowSawEmpty(Step(s, t, c))
  {
    var s' := Step(s, t, c);
    StepMisses(s, t, c);
    StepMovesOne(s, t, c);
    StepEffect(s, t, c);
    if |s'.history| == |s.history| {
      if s.inner == None {
        SinceNow(ATOMIC, s.history, t, Empty);
      }
      forall u | 0 <= u < |s'.pcs| && Missed(s'.pcs[u]) ensures Since(ATOMIC, s'.history, u, Empty) {
        assert u != t ==> s'.pcs[u] == s.pcs[u];
      }
    } else {
      EventKeepsSawEmpty(s, s', t, s'.history[|s.history|]);
    }
  }

  lemma EventKeepsSawEmpty(s: State, s': State, t: nat, e: CellEvent)
    requires t < |s.pcs| == |s'.pcs| && s'.pcs == s.pcs[t := s'.pcs[t]] && !Missed(s'.pcs[t])
    requires SlowSawEmpty(s) && s'.history == s.history + [e] && e.thread == t
    requires e.Effect? && IsSlow(e.action) ==> Missed(s.pcs[t])
    ensures SlowSawEmpty(s')
  {
    forall u | 0 <= u < |s'.pcs| && Missed(s'.pcs[u]) ensures Since(ATOMIC, s'.history, u, Empty) {
      assert u != t && s'.pcs[u] == s.pcs[u];
      SinceOneMore(ATOMIC, s.history, u, Empty, e);
    }
    forall i | 0 <= i < |s'.history| && s'.history[i].Effect? && IsSlow(s'.history[i].action)
      ensures Since(ATOMIC, s'.history[..i], s'.history[i].thread, Empty)
    {
      assert s'.history[..i] == s.history[..i];
      assert i == |s.history| ==> s.history[..i] == s.history;
    }
  }

  /** In every run, a call that failed to initialise, or that published, saw the cell empty at some moment after its
      invocation: a call on a cell that stays full always hits. */
  lemma {:induction false} InitOnlyWhenEmpty(threads: nat, schedule: seq<Turn>)
    ensures SlowSawEmpty(Run(threads, schedule))
  {
    if schedule != [] {
      var front, turn := schedule[..|schedule| - 1], schedule[|schedule| - 1];
      InitOnlyWhenEmpty(threads, front);
      Linearizable(threads, front);
      if turn.thread < threads {
        StepKeepsSawEmpty(Run(threads, front), turn.thread, turn.choice);
      }
    }
  }

  /** The n-th turn of the schedule is t's factory ending like this, in the call that is t's last in the history. */
  ghost predicate FactoryRan(threads: nat, schedule: seq<Turn>, history: seq<CellEvent>, t: nat, n: nat,
                             made: Option<Instance>) {
    && n < |schedule| && schedule[n].thread == t < threads && schedule[n].choice.init == made
    && Run(threads, schedule[..n]).pcs[t] == Initializing
    && NoInvoke(history, t, |Run(threads, schedule[..n]).history|)
  }

  ghost predicate FactoryMade(threads: nat, schedule: seq<Turn>, history: seq<CellEvent>, t: nat,
                              made: Option<Instance>) {
    exists n: nat :: FactoryRan(threads, schedule, history, t, n, made)
  }

  /** The instance that a call is about to publish. */
  ghost function ToPublish(pc: Pc): Option<Instance> {
    match pc
    case AwaitWrite(made) => Some(made)
    case Writing(made) => Some(made)
    case _ => None
  }

  /** What a slow effect owes to the factory. */
  ghost function FactoryResult(a: Action): Option<Instance> {
    if a.Publish? then Some(a.made) else None
  }

  /** A slow effect is what the call's own factory ended with. */
  ghost predicate Owed(threads: nat, schedule: seq<Turn>, history: seq<CellEvent>, e: CellEvent) {
    e.Effect? && IsSlow(e.action) ==> FactoryMade(threads, schedule, history, e.thread, FactoryResult(e.action))
  }

  /** A thread is about to publish what its own factory made. */
  ghost predicate PublishesMade(threads: nat, schedule: seq<Turn>, history: seq<CellEvent>, t: nat, pc: Pc) {
    ToPublish(pc).Some? ==> FactoryMade(threads, schedule, history, t, ToPublish(pc))
  }

  ghost predicate FactoriesRan(threads: nat, schedule: seq<Turn>, s: State) {
    && (forall t :: 0 <= t < |s.pcs| ==> PublishesMade(threads, schedule, s.history, t, s.pcs[t]))
    && (forall i :: 0 <= i < |s.history| ==> Owed(threads, schedule, s.history[..i], s.history[i]))
  }

  lemma FactoryMadeLonger(threads: nat, front: seq<Turn>, turn: Turn, history: seq<CellEvent>, t: nat,
                          made: Option<Instance>)
    requires FactoryMade(threads, front, history, t, made)
    ensures FactoryMade(threads, front + [turn], history, t, made)
    ensures forall e: CellEvent :: !(e.Invoke? && e.thread == t) ==>
              FactoryMade(threads, front + [turn], history + [e], t, made)
  {
    var n: nat :| FactoryRan(threads, front, history, t, n, made);
    assert (front + [turn])[..n] == front[..n] && (front + [turn])[n] == front[n];
    assert FactoryRan(threads, front + [turn], history, t, n, made);
    forall e: CellEvent | !(e.Invoke? && e.thread == t)
      ensures FactoryMade(threads, front + [turn], history + [e], t, made)
    {
      assert FactoryRan(threads, front + [turn], history + [e], t, n, made);
    }
  }

  /** What a step gets from the factory: only an initialising call takes its result. */
  lemma StepMakes(s: State, t: nat, c: Choice)
    requires t < |s.pcs| && PcSane(s.pcs[t])
    ensures var s' := Step(s, t, c);
            && |s'.pcs| == |s.pcs| && |s.history| <= |s'.history|
            && (ToPublish(s'.pcs[t]).Some? ==>
                  s'.history == s.history
                  && (ToPublish(s'.pcs[t]) == ToPublish(s.pcs[t])
                      || (s.pcs[t] == Initializing && ToPublish(s'.pcs[t]) == c.init)))
            && (|s'.history| > |s.history| ==>
                  var e := s'.history[|s.history|];
                  s'.history == s.history + [e] && e.thread == t
                  && (e.Effect? && IsSlow(e.action) ==>
                        if e.action.Publish? then ToPublish(s.pcs[t]) == Some(e.action.made)
                        else s.pcs[t] == Initializing && c.init == None))
  {
    StepEffect(s, t, c);
  }

  lemma NewlyRan(threads: nat, front: seq<Turn>, turn: Turn)
    requires turn.thread < threads && Run(threads, front).pcs[turn.thread] == Initializing
    ensures FactoryMade(threads, front + [turn], Run(threads, front).history, turn.thread, turn.choice.init)
  {
    assert (front + [turn])[..|front|] == front;
    assert FactoryRan(threads, front + [turn], Run(threads, front).history, turn.thread, |front|, turn.choice.init);
  }

  lemma PublishesLonger(threads: nat, front: seq<Turn>, turn: Turn, history: seq<CellEvent>, t: nat, pc: Pc)
    requires PublishesMade(threads, front, history, t, pc)
    ensures PublishesMade(threads, front + [turn], history, t, pc)
    ensures forall e: CellEvent :: e.thread != t ==> PublishesMade(threads, front + [turn], history + [e], t, pc)
  {
    if ToPublish(pc).Some? {
      FactoryMadeLonger(threads, front, turn, history, t, ToPublish(pc));
    }
  }

  lemma OwedLonger(threads: nat, front: seq<Turn>, turn: Turn, history: seq<CellEvent>, e: CellEvent)
    requires Owed(threads, front, history, e)
    ensures Owed(threads, front + [turn], history, e)
  {
    if e.Effect? && IsSlow(e.action) {
      FactoryMadeLonger(threads, front, turn, history, e.thread, FactoryResult(e.action));
    }
  }

  /** The moving thread: what it is about to publish, or what it has just recorded, is its factory's. */
  lemma MoverOwes(threads: nat, front: seq<Turn>, turn: Turn)
    requires turn.thread < threads && PcSane(Run(threads, front).pcs[turn.thread])
    requires var s := Run(threads, front);
             PublishesMade(threads, front, s.history, turn.thread, s.pcs[turn.thread])
    ensures var s, t := Run(threads, front), turn.thread;
            var s' := Step(s, t, turn.choice);
            && |s'.pcs| == |s.pcs| && |s.history| <= |s'.history|
            && PublishesMade(threads, front + [turn], s.history, t, s'.pcs[t])
            && (ToPublish(s'.pcs[t]).Some? ==> s'.history == s.history)
            && (|s'.history| > |s.history| ==>
                  var e := s'.history[|s.history|];
                  s'.history == s.history + [e] && e.thread == t && Owed(threads, front + [turn], s.history, e))
  {
    var s, t := Run(threads, front), turn.thread;
    StepMakes(s, t, turn.choice);
    PublishesLonger(threads, front, turn, s.history, t, s.pcs[t]);
    if s.pcs[t] == Initializing {
      NewlyRan(threads, front, turn);
    }
  }

  lemma TurnKeepsFactories(threads: nat, front: seq<Turn>, turn: Turn)
    requires turn.thread < threads && PcSane(Run(threads, front).pcs[turn.thread])
    requires FactoriesRan(threads, front, Run(threads, front))
    ensures FactoriesRan(threads, front + [turn], Step(Run(threads, front), turn.thread, turn.choice))
  {
    var s := Run(threads, front);
    StepMovesOne(s, turn.thread, turn.choice);
    MoverOwes(threads, front, turn);
    MoveKeepsFactories(threads, front, turn, s, Step(s, turn.thread, turn.choice));
  }

  lemma MoveKeepsFactories(threads: nat, front: seq<Turn>, turn: Turn, s: State, s': State)
    requires FactoriesRan(threads, front, s) && turn.thread < |s.pcs| == |s'.pcs|
    requires s'.pcs == s.pcs[turn.thread := s'.pcs[turn.thread]] && |s.history| <= |s'.history|
    requires PublishesMade(threads, front + [turn], s.history, turn.thread, s'.pcs[turn.thread])
    requires ToPublish(s'.pcs[turn.thread]).Some? ==> s'.history == s.history
    requires if |s'.history| == |s.history| then s'.history == s.history else
             var e := s'.history[|s.history|];
             && s'.history == s.history + [e] && e.thread == turn.thread
             && Owed(threads, front + [turn], s.history, e)
    ensures FactoriesRan(threads, front + [turn], s')
  {
    forall u | 0 <= u < |s'.pcs| ensures PublishesMade(threads, front + [turn], s'.history, u, s'.pcs[u]) {
      if u != turn.thread {
        assert s'.pcs[u] == s.pcs[u];
        PublishesLonger(threads, front, turn, s.history, u, s.pcs[u]);
      }
    }
    forall i | 0 <= i < |s'.history| ensures Owed(threads, front + [turn], s'.history[..i], s'.history[i]) {
      assert s'.history[..i] == s.history[..i];
      if i < |s.history| {
        OwedLonger(threads, front, turn, s.history[..i], s.history[i]);
      } else {
        assert s.history[..i] == s.history;
      }
    }
  }

  /** In every run, a call fails to initialise only on a turn on which its own factory failed, and publishes only what
      its own factory made, in both cases after its invocation. */
  lemma {:induction false} FactoryDecides(threads: nat, schedule: seq<Turn>)
    ensures FactoriesRan(threads, schedule, Run(threads, schedule))
  {
    if schedule != [] {
      var front, turn := schedule[..|schedule| - 1], schedule[|schedule| - 1];
      assert schedule == front + [turn];
      FactoryDecides(threads, front);
      Linearizable(threads, front);
      if turn.thread < threads {
        TurnKeepsFactories(threads, front, turn);
      } else {
        IdleTurn(threads, front, turn);
      }
    }
  }

  lemma IdleTurn(threads: nat, front: seq<Turn>, turn: Turn)
    requires FactoriesRan(threads, front, Run(threads, front))
    ensures FactoriesRan(threads, front + [turn], Run(threads, front))
  {
    var s := Run(threads, front);
    forall t | 0 <= t < |s.pcs| ensures PublishesMade(threads, front + [turn], s.history, t, s.pcs[t]) {
      PublishesLonger(threads, front, turn, s.history, t, s.pcs[t]);
    }
    forall i | 0 <= i < |s.history| ensures Owed(threads, front + [turn], s.history[..i], s.history[i]) {
      OwedLonger(threads, front, turn, s.history[..i], s.history[i]);
    }
  }

  // ---- A call on its own --------------------------------------------------------------------------

  /** What one call does when nothing interferes: the cell afterwards, and the reply. */
  ghost function Sequential(cell: Option<Instance>, c: Choice): (Option<Instance>, Reply) {
    match c.op
    case GetOrInit =>
      if cell.Some? then (cell, Service(cell.value))
      else if c.init.Some? then (c.init, Service(c.init.value))
      else (None, InitError)
    case Get => (cell, Peeked(cell))
    case IsInitialized => (cell, Answer(cell.Some?))
    case Reset => (None, Done)
  }

  /** n steps of one thread. */
  ghost function Steps(s: State, t: nat, c: Choice, n: nat): (s': State)
    requires t < |s.pcs|
    ensures |s'.pcs| == |s.pcs|
  {
    if n == 0 then s else Step(Steps(s, t, c, n - 1), t, c)
  }

  /** The call is over, without a trace but its effect and its events. */
  ghost predicate Completed(s: State, s': State, t: nat, c: Choice) {
    var (cell, reply) := Sequential(s.inner, c);
    && s'.pcs == s.pcs && s'.lock == FREE && s'.inner == cell
    && |s'.history| == |s.history| + 3 && s'.history[..|s.history|] == s.history
    && s'.history[|s.history|] == Invoke(t, c.op) && s'.history[|s.history| + 2] == Return(t, reply)
  }

  lemma FourSteps(s: State, t: nat, c: Choice)
    requires t < |s.pcs|
    ensures var s1 := Steps(s, t, c, 1);
            var s2 := Steps(s, t, c, 2);
            var s3 := Steps(s, t, c, 3);
            s1 == Step(s, t, c) && s2 == Step(s1, t, c) && s3 == Step(s2, t, c) && Steps(s, t, c, 4) == Step(s3, t, c)
  {
    assert Steps(s, t, c, 1) == Step(Steps(s, t, c, 0), t, c);
  }

  lemma {:induction false} StepsMore(s: State, t: nat, c: Choice, n: nat, more: nat)
    requires t < |s.pcs|
    ensures Steps(s, t, c, n + more) == Steps(Steps(s, t, c, n), t, c, more)
  {
    if more > 0 {
      StepsMore(s, t, c, n, more - 1);
    }
  }

  /** The call has taken its one effect, holds no lock and is ready to return. */
  ghost predicate Ready(s: State, s': State, t: nat, c: Choice, a: Action)
    requires t < |s.pcs|
  {
    s' == State(FREE, Sequential(s.inner, c).0, s.pcs[t := Returning(c.op, Sequential(s.inner, c).1)],
                s.history + [Invoke(t, c.op)] + [Effect(t, a)])
  }

  /** The call has found the cell empty. */
  ghost predicate Missing(s: State, s': State, t: nat)
    requires t < |s.pcs|
  {
    s' == State(FREE, None, s.pcs[t := Initializing], s.history + [Invoke(t, GetOrInit)])
  }

  lemma AloneLooks(s: State, t: nat, c: Choice)
    requires t < |s.pcs| && s.pcs[t] == Idle && s.lock == FREE && c.op == GetOrInit
    ensures if s.inner.Some? then Ready(s, Steps(s, t, c, 4), t, c, Hit(s.inner.value))
            else Missing(s, Steps(s, t, c, 4), t)
  {
    FourSteps(s, t, c);
    assert Steps(s, t, c, 1).pcs == s.pcs[t := AwaitRead];
    assert Steps(s, t, c, 2).pcs == s.pcs[t := Reading];
    assert Steps(s, t, c, 3).pcs == s.pcs[t := HaveRead(s.inner)];
  }

  lemma AlonePeeks(s: State, t: nat, c: Choice)
    requires t < |s.pcs| && s.pcs[t] == Idle && s.lock == FREE && (c.op == Get || c.op == IsInitialized)
    ensures Ready(s, Steps(s, t, c, 4), t, c, if c.op == Get then Look(s.inner) else Check(s.inner.Some?))
  {
    FourSteps(s, t, c);
    assert Steps(s, t, c, 1).pcs == s.pcs[t := PeekAwait(c.op)];
    assert Steps(s, t, c, 2).pcs == s.pcs[t := PeekReading(c.op)];
    assert Steps(s, t, c, 3).pcs == s.pcs[t := PeekDone(c.op, Sequential(s.inner, c).1)];
  }

  lemma AloneResets(s: State, t: nat, c: Choice)
    requires t < |s.pcs| && s.pcs[t] == Idle && s.lock == FREE && c.op == Reset
    ensures Ready(s, Steps(s, t, c, 4), t, c, Clear)
  {
    FourSteps(s, t, c);
    assert Steps(s, t, c, 1).pcs == s.pcs[t := ResetAwait];
    assert Steps(s, t, c, 2).pcs == s.pcs[t := ResetWriting];
    assert Steps(s, t, c, 3).pcs == s.pcs[t := ResetDone];
  }

  lemma ReadyReturns(s: State, s': State, t: nat, c: Choice, a: Action)
    requires t < |s.pcs| == |s'.pcs| && s.pcs[t] == Idle && Ready(s, s', t, c, a)
    ensures Completed(s, Step(s', t, c), t, c)
  {
    assert Step(s', t, c).pcs == s.pcs;
  }

  lemma AloneFails(s: State, s': State, t: nat, c: Choice)
    requires t < |s.pcs| == |s'.pcs| && c == Choice(GetOrInit, None) && s.inner == None && Missing(s, s', t)
    ensures Ready(s, Step(s', t, c), t, c, FailInit)
  {
  }

  lemma AlonePublishes(s: State, s': State, t: nat, c: Choice)
    requires t < |s.pcs| == |s'.pcs| && c.op == GetOrInit && c.init.Some? && s.inner == None && Missing(s, s', t)
    ensures Ready(s, Steps(s', t, c, 4), t, c, Publish(c.init.value, c.init.value))
  {
    var made, start := c.init.value, s.history + [Invoke(t, GetOrInit)];
    FourSteps(s', t, c);
    assert Steps(s', t, c, 1) == State(FREE, None, s.pcs[t := AwaitWrite(made)], start);
    assert Steps(s', t, c, 2) == State(FREE.Write(t), None, s.pcs[t := Writing(made)], start);
    assert Steps(s', t, c, 3)
           == State(FREE.Write(t), Some(made), s.pcs[t := Stored(made)], start + [Effect(t, Publish(made, made))]);
  }

  /** A thread that runs alone completes its call in a few steps, with the sequential effect and reply. */
  lemma AloneIsSequential(s: State, t: nat, c: Choice) returns (n: nat)
    requires t < |s.pcs| && s.pcs[t] == Idle && s.lock == FREE
    ensures Completed(s, Steps(s, t, c, n), t, c)
  {
    n := 5;
    var s4 := Steps(s, t, c, 4);
    match c.op
    case GetOrInit =>
      AloneLooks(s, t, c);
      if s.inner.Some? {
        ReadyReturns(s, s4, t, c, Hit(s.inner.value));
      } else if c.init.None? {
        n := 6;
        AloneFails(s, s4, t, c);
        ReadyReturns(s, Steps(s, t, c, 5), t, c, FailInit);
      } else {
        n := 9;
        AlonePublishes(s, s4, t, c);
        StepsMore(s, t, c, 4, 4);
        ReadyReturns(s, Steps(s, t, c, 8), t, c, Publish(c.init.value, c.init.value));
      }
    case Reset =>
      AloneResets(s, t, c);
      ReadyReturns(s, s4, t, c, Clear);
    case _ =>
      AlonePeeks(s, t, c);
      ReadyReturns(s, s4, t, c, if c.op == Get then Look(s.inner) else Check(s.inner.Some?));
  }
}
