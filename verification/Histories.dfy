/** Linearizability: calls of concurrent threads, each taking effect once on an atomic object. */
module Histories {
  /** A sequential object: how it starts, which call an action belongs to and what that call returns, when the
      action may happen, and what it does. */
  datatype Object<!S, !A, !Op, !Reply> = Object(start: S, op: A -> Op, reply: A -> Reply,
                                                legal: (S, A) -> bool, next: (S, A) -> S)

  datatype Event<Op, Reply, A> =
    | Invoke(thread: nat, op: Op)
    | Effect(thread: nat, action: A)
    | Return(thread: nat, reply: Reply)

  /** How far a thread's current call has come. */
  datatype Phase<Op, Reply> = Resting | Called(op: Op) | Took(op: Op, reply: Reply)

  // ---- Actions on the object --------------------------------------------------------------------

  ghost function StateAfter<S, A, Op, Reply>(obj: Object<S, A, Op, Reply>, actions: seq<A>): S {
    if actions == [] then obj.start
    else obj.next(StateAfter(obj, actions[..|actions| - 1]), actions[|actions| - 1])
  }

  /** Every action is one that the object allows where it happens. */
  ghost predicate LegalRun<S, A, Op, Reply>(obj: Object<S, A, Op, Reply>, actions: seq<A>) {
    forall i :: 0 <= i < |actions| ==> obj.legal(StateAfter(obj, actions[..i]), actions[i])
  }

  lemma LegalPrefix<S, A, Op, Reply>(obj: Object<S, A, Op, Reply>, actions: seq<A>, j: nat)
    requires LegalRun(obj, actions) && j <= |actions|
    ensures LegalRun(obj, actions[..j])
  {
    assert forall i :: 0 <= i < j ==> actions[..j][..i] == actions[..i] && actions[..j][i] == actions[i];
  }

  lemma LegalLast<S, A, Op, Reply>(obj: Object<S, A, Op, Reply>, actions: seq<A>)
    requires LegalRun(obj, actions) && actions != []
    ensures var front, last := actions[..|actions| - 1], actions[|actions| - 1];
            && LegalRun(obj, front) && obj.legal(StateAfter(obj, front), last)
            && StateAfter(obj, actions) == obj.next(StateAfter(obj, front), last)
  {
    LegalPrefix(obj, actions, |actions| - 1);
  }

  lemma LegalOneMore<S, A, Op, Reply>(obj: Object<S, A, Op, Reply>, actions: seq<A>, a: A)
    requires LegalRun(obj, actions) && obj.legal(StateAfter(obj, actions), a)
    ensures LegalRun(obj, actions + [a]) && StateAfter(obj, actions + [a]) == obj.next(StateAfter(obj, actions), a)
  {
    var longer := actions + [a];
    assert longer[..|actions|] == actions;
    assert forall i :: 0 <= i < |actions| ==> longer[..i] == actions[..i] && longer[i] == actions[i];
  }

  // ---- Histories ----------------------------------------------------------------------------------

  ghost function AfterEvent<S, A, Op, Reply>(obj: Object<S, A, Op, Reply>, e: Event<Op, Reply, A>): Phase<Op, Reply> {
    match e
    case Invoke(_, op) => Called(op)
    case Effect(_, action) => Took(obj.op(action), obj.reply(action))
    case Return(_, _) => Resting
  }

  ghost function PhaseAfter<S, A, Op, Reply>(obj: Object<S, A, Op, Reply>, history: seq<Event<Op, Reply, A>>, t: nat)
    : Phase<Op, Reply>
  {
    if history == [] then Resting
    else if history[|history| - 1].thread == t then AfterEvent(obj, history[|history| - 1])
    else PhaseAfter(obj, history[..|history| - 1], t)
  }

  /** The effect of a call falls between its invocation and its return, and is what the call returns. */
  ghost predicate Fits<S, A, Op, Reply>(obj: Object<S, A, Op, Reply>, e: Event<Op, Reply, A>, p: Phase<Op, Reply>) {
    match e
    case Invoke(_, _) => p.Resting?
    case Effect(_, action) => p == Called(obj.op(action))
    case Return(_, reply) => p.Took? && p.reply == reply
  }

  ghost predicate WellFormed<S, A, Op, Reply>(obj: Object<S, A, Op, Reply>, history: seq<Event<Op, Reply, A>>) {
    forall i :: 0 <= i < |history| ==> Fits(obj, history[i], PhaseAfter(obj, history[..i], history[i].thread))
  }

  ghost function Actions<A, Op, Reply>(history: seq<Event<Op, Reply, A>>): seq<A> {
    if history == [] then [] else
    var e := history[|history| - 1];
    Actions(history[..|history| - 1]) + if e.Effect? then [e.action] else []
  }

  /** Each call takes effect once, legally, between its invocation and its return, and returns what that effect
      returned; s is where the effects have brought the object. */
  ghost predicate Linearized<S, A, Op, Reply>(obj: Object<S, A, Op, Reply>, history: seq<Event<Op, Reply, A>>, s: S) {
    WellFormed(obj, history) && LegalRun(obj, Actions(history)) && StateAfter(obj, Actions(history)) == s
  }

  ghost function Moved<S, A, Op, Reply>(obj: Object<S, A, Op, Reply>, s: S, e: Event<Op, Reply, A>): S {
    if e.Effect? then obj.next(s, e.action) else s
  }

  /** One more event that fits keeps a history linearized. */
  lemma LinearizedOneMore<S, A, Op, Reply>(obj: Object<S, A, Op, Reply>, history: seq<Event<Op, Reply, A>>, s: S,
                                           e: Event<Op, Reply, A>)
    requires Linearized(obj, history, s) && Fits(obj, e, PhaseAfter(obj, history, e.thread))
    requires e.Effect? ==> obj.legal(s, e.action)
    ensures Linearized(obj, history + [e], Moved(obj, s, e))
    ensures forall t :: PhaseAfter(obj, history + [e], t)
                        == if t == e.thread then AfterEvent(obj, e) else PhaseAfter(obj, history, t)
  {
    var longer := history + [e];
    assert longer[..|history|] == history;
    assert forall i :: 0 <= i < |history| ==> longer[..i] == history[..i] && longer[i] == history[i];
    if e.Effect? {
      LegalOneMore(obj, Actions(history), e.action);
    } else {
      assert Actions(longer) == Actions(history);
    }
  }

  /** A linearized history that tells how far each thread has come. */
  ghost predicate Tells<S, A, Op, Reply>(obj: Object<S, A, Op, Reply>, history: seq<Event<Op, Reply, A>>, s: S,
                                         phases: seq<Phase<Op, Reply>>) {
    Linearized(obj, history, s) && forall t :: 0 <= t < |phases| ==> PhaseAfter(obj, history, t) == phases[t]
  }

  lemma TellsOneMore<S, A, Op, Reply>(obj: Object<S, A, Op, Reply>, history: seq<Event<Op, Reply, A>>, s: S,
                                      phases: seq<Phase<Op, Reply>>, e: Event<Op, Reply, A>)
    requires Tells(obj, history, s, phases) && e.thread < |phases| && Fits(obj, e, phases[e.thread])
    requires e.Effect? ==> obj.legal(s, e.action)
    ensures Tells(obj, history + [e], Moved(obj, s, e), phases[e.thread := AfterEvent(obj, e)])
  {
    LinearizedOneMore(obj, history, s, e);
  }

  // ---- Moments of a call --------------------------------------------------------------------------

  /** Thread t invokes nothing from the k-th event on. */
  ghost predicate NoInvoke<A, Op, Reply>(history: seq<Event<Op, Reply, A>>, t: nat, k: nat) {
    forall i :: k <= i < |history| ==> !(history[i].Invoke? && history[i].thread == t)
  }

  /** At some moment since t's last invocation the object was in a state like this. */
  ghost predicate Since<S, A, Op, Reply>(obj: Object<S, A, Op, Reply>, history: seq<Event<Op, Reply, A>>, t: nat,
                                         like: S -> bool) {
    exists k {:trigger NoInvoke(history, t, k)} ::
      0 <= k <= |history| && NoInvoke(history, t, k) && like(StateAfter(obj, Actions(history[..k])))
  }

  lemma SinceNow<S, A, Op, Reply>(obj: Object<S, A, Op, Reply>, history: seq<Event<Op, Reply, A>>, t: nat,
                                  like: S -> bool)
    requires like(StateAfter(obj, Actions(history)))
    ensures Since(obj, history, t, like)
  {
    assert history[..|history|] == history && NoInvoke(history, t, |history|);
  }

  lemma SinceOneMore<S, A, Op, Reply>(obj: Object<S, A, Op, Reply>, history: seq<Event<Op, Reply, A>>, t: nat,
                                      like: S -> bool, e: Event<Op, Reply, A>)
    requires Since(obj, history, t, like) && !(e.Invoke? && e.thread == t)
    ensures Since(obj, history + [e], t, like)
  {
    var longer := history + [e];
    var k :| 0 <= k <= |history| && NoInvoke(history, t, k) && like(StateAfter(obj, Actions(history[..k])));
    assert longer[..k] == history[..k];
    assert NoInvoke(longer, t, k) by {
      assert forall i :: k <= i < |history| ==> longer[i] == history[i];
    }
  }
}
