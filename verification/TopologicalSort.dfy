/** The publish order: Kahn's algorithm over the selected workspace dependencies. */
module TopologicalSort {
  import opened Basics
  import opened NameOrder

  /** An edge (d, n) says that crate n depends on crate d. */
  type Edge = (string, string)

  datatype Graph = Graph(nodes: set<string>, edges: set<Edge>) {
    ghost predicate Valid() {
      forall e :: e in edges ==> e.0 in nodes && e.1 in nodes
    }
  }

  /** The error reports how many crates were ordered, out of how many. */
  datatype CircularDependency = CircularDependency(sorted: nat, total: nat)

  function DepsOf(deps: map<string, seq<string>>, name: string): seq<string> {
    if name in deps then deps[name] else []
  }

  /** The dependency graph that the arguments select: only crates on the list, multiplicities forgotten. */
  ghost function Selected(crates: seq<string>, deps: map<string, seq<string>>): (g: Graph)
    ensures g.Valid()
  {
    Graph(Elems(crates),
          set n, d | n in Elems(crates) && d in Elems(DepsOf(deps, n)) && d in Elems(crates) :: (d, n))
  }

  // ---- Cycles -------------------------------------------------------------------------------

  ghost predicate Walk(g: Graph, p: seq<string>) {
    forall i, j :: 0 <= i && j == i + 1 < |p| ==> (p[i], p[j]) in g.edges
  }

  ghost predicate Cycle(g: Graph, p: seq<string>) {
    |p| >= 2 && Walk(g, p) && p[0] == p[|p| - 1]
  }

  ghost predicate Acyclic(g: Graph) {
    forall p :: !Cycle(g, p)
  }

  // ---- The order, on sets -------------------------------------------------------------------

  ghost predicate Met(g: Graph, x: string, done: set<string>) {
    forall d :: (d, x) in g.edges ==> d in done
  }

  ghost predicate Ready(g: Graph, done: set<string>, x: string) {
    x in g.nodes && x !in done && Met(g, x, done)
  }

  ghost function Frontier(g: Graph, done: set<string>): set<string> {
    set x | x in g.nodes && Ready(g, done, x)
  }

  /** The crates that popping n makes ready. */
  ghost function Unlocked(g: Graph, done: set<string>, n: string): set<string> {
    set x | x in g.nodes && (n, x) in g.edges && Ready(g, done + {n}, x)
  }

  /** Everything that a member depends on is a member. */
  ghost predicate Closed(g: Graph, done: set<string>) {
    forall e :: e in g.edges && e.1 in done ==> e.0 in done
  }

  ghost predicate IsQueue(g: Graph, done: set<string>, queue: seq<string>) {
    done <= g.nodes && Closed(g, done) && NoDup(queue) && Elems(queue) == Frontier(g, done)
  }

  ghost function Advance(g: Graph, done: set<string>, queue: seq<string>): seq<string>
    requires queue != []
  {
    queue[1..] + Listing(Unlocked(g, done, queue[0]))
  }

  lemma AdvanceIsQueue(g: Graph, done: set<string>, queue: seq<string>)
    requires g.Valid() && IsQueue(g, done, queue) && queue != []
    ensures queue[0] in g.nodes - done
    ensures IsQueue(g, done + {queue[0]}, Advance(g, done, queue))
  {
    var n, rest, unlocked := queue[0], queue[1..], Listing(Unlocked(g, done, queue[0]));
    assert n in Elems(queue);
    assert Elems(rest) == Frontier(g, done) - {n} by {
      assert queue == [n] + rest;
    }
    assert Frontier(g, done + {n}) == Elems(rest) + Unlocked(g, done, n) by {
      forall x ensures x in Frontier(g, done + {n}) <==> x in Elems(rest) || x in Unlocked(g, done, n) {
      }
    }
    assert NoDup(rest + unlocked) by {
      forall i, j | 0 <= i < |rest| && 0 <= j < |unlocked| ensures rest[i] != unlocked[j] {
        assert rest[i] in Elems(rest) && unlocked[j] in Elems(unlocked);
      }
    }
    ElemsConcat(rest, unlocked);
  }

  /** What Kahn's algorithm still emits from a set of emitted crates and a queue. */
  ghost function Drain(g: Graph, done: set<string>, queue: seq<string>): seq<string>
    requires g.Valid() && IsQueue(g, done, queue)
    decreases g.nodes - done
  {
    if queue == [] then [] else
    AdvanceIsQueue(g, done, queue);
    [queue[0]] + Drain(g, done + {queue[0]}, Advance(g, done, queue))
  }

  ghost function KahnOrder(g: Graph): seq<string>
    requires g.Valid()
  {
    Drain(g, {}, Listing(Frontier(g, {})))
  }

  /** Every dependency of an emitted crate was emitted before it (or lay in done). */
  ghost predicate DependenciesFirst(g: Graph, done: set<string>, order: seq<string>) {
    forall i :: 0 <= i < |order| ==> Met(g, order[i], done + Elems(order[..i]))
  }

  /** A run of emissions that starts when done has been emitted. */
  ghost predicate Emits(g: Graph, done: set<string>, order: seq<string>) {
    NoDup(order) && Elems(order) <= g.nodes && Elems(order) !! done && DependenciesFirst(g, done, order)
  }

  lemma EmitsCons(g: Graph, done: set<string>, n: string, rest: seq<string>)
    requires Ready(g, done, n) && Emits(g, done + {n}, rest)
    ensures Emits(g, done, [n] + rest) && Elems([n] + rest) == {n} + Elems(rest)
  {
    var r := [n] + rest;
    assert forall x :: x in rest ==> x in Elems(rest);
    assert forall i :: 1 <= i < |r| ==> r[i] == rest[i - 1];
    assert DependenciesFirst(g, done, r) by {
      forall i | 0 <= i < |r| ensures Met(g, r[i], done + Elems(r[..i])) {
        if i > 0 {
          assert r[..i] == [n] + rest[..i - 1];
          assert Met(g, rest[i - 1], done + {n} + Elems(rest[..i - 1]));
          assert done + {n} + Elems(rest[..i - 1]) == done + Elems(r[..i]);
        } else {
          assert done + Elems(r[..i]) == done;
        }
      }
    }
  }

  lemma {:induction false} DrainIsTopological(g: Graph, done: set<string>, queue: seq<string>)
    requires g.Valid() && IsQueue(g, done, queue)
    ensures Emits(g, done, Drain(g, done, queue))
    ensures Frontier(g, done + Elems(Drain(g, done, queue))) == {}
    decreases g.nodes - done
  {
    if queue == [] {
      assert done + Elems(Drain(g, done, queue)) == done;
    } else {
      var n, done' := queue[0], done + {queue[0]};
      assert n in Elems(queue);
      AdvanceIsQueue(g, done, queue);
      DrainIsTopological(g, done', Advance(g, done, queue));
      var rest := Drain(g, done', Advance(g, done, queue));
      EmitsCons(g, done, n, rest);
      assert done' + Elems(rest) == done + Elems([n] + rest);
    }
  }

  // ---- Completeness: an order of everything exists exactly for acyclic graphs -----------------

  ghost predicate StuckOn(g: Graph, stuck: set<string>, x: string) {
    exists d :: d in stuck && (d, x) in g.edges
  }

  ghost predicate AllStuck(g: Graph, stuck: set<string>) {
    stuck != {} && forall x {:trigger StuckOn(g, stuck, x)} :: x in stuck ==> StuckOn(g, stuck, x)
  }

  /** A stuck crate is at the end of walks of any length. */
  lemma {:induction false} WalkIntoStuck(g: Graph, stuck: set<string>, x: string, k: nat) returns (p: seq<string>)
    requires AllStuck(g, stuck) && x in stuck
    ensures |p| == k + 1 && Walk(g, p) && Elems(p) <= stuck && p[k] == x
  {
    if k == 0 {
      p := [x];
    } else {
      var q := WalkIntoStuck(g, stuck, x, k - 1);
      assert q[0] in Elems(q) && StuckOn(g, stuck, q[0]);
      var d :| d in stuck && (d, q[0]) in g.edges;
      p := [d] + q;
    }
  }

  /** And one long enough visits a crate twice. */
  lemma StuckRepeats(g: Graph, stuck: set<string>, x: string) returns (p: seq<string>)
    requires AllStuck(g, stuck) && x in stuck
    ensures Walk(g, p) && p != [] && p[|p| - 1] == x && !NoDup(p)
  {
    p := WalkIntoStuck(g, stuck, x, |stuck|);
    if NoDup(p) {
      Pigeonhole(p, stuck);
    }
  }

  lemma StuckHasCycle(g: Graph, stuck: set<string>)
    requires AllStuck(g, stuck)
    ensures !Acyclic(g)
  {
    var x :| x in stuck;
    var p := StuckRepeats(g, stuck, x);
    var i, j :| 0 <= i < j < |p| && p[i] == p[j];
    assert Cycle(g, p[i..j + 1]);
  }

  ghost function Position(order: seq<string>, x: string): nat
    requires x in order
  {
    var i :| 0 <= i < |order| && order[i] == x; i
  }

  lemma EdgeClimbs(g: Graph, order: seq<string>, a: string, b: string)
    requires NoDup(order) && DependenciesFirst(g, {}, order) && (a, b) in g.edges && b in order
    ensures a in order && Position(order, a) < Position(order, b)
  {
    var i := Position(order, b);
    assert Met(g, order[i], {} + Elems(order[..i])) && a in order[..i];
    var j :| 0 <= j < |order[..i]| && order[..i][j] == a;
    assert order[Position(order, a)] == order[j];
  }

  /** A walk to an ordered crate climbs in the order. */
  lemma {:induction false} WalkIntoClimbs(g: Graph, order: seq<string>, p: seq<string>)
    requires NoDup(order) && DependenciesFirst(g, {}, order)
    requires p != [] && Walk(g, p) && p[|p| - 1] in order
    ensures forall i :: 0 <= i < |p| ==> p[i] in order
    ensures forall i :: 0 <= i < |p| - 1 ==> Position(order, p[i]) < Position(order, p[|p| - 1])
    ensures NoDup(p)
  {
    if |p| > 1 {
      var q := p[..|p| - 1];
      assert p == q + [p[|p| - 1]];
      EdgeClimbs(g, order, q[|q| - 1], p[|p| - 1]);
      WalkIntoClimbs(g, order, q);
      assert forall i :: 0 <= i < |q| ==> q[i] == p[i];
    }
  }

  /** What is not ordered depends on something that is not. */
  lemma LeftAreStuck(g: Graph)
    requires g.Valid()
    ensures var stuck := g.nodes - Elems(KahnOrder(g)); stuck == {} || AllStuck(g, stuck)
  {
    var r := KahnOrder(g);
    DrainIsTopological(g, {}, Listing(Frontier(g, {})));
    assert {} + Elems(r) == Elems(r);
    var stuck := g.nodes - Elems(r);
    forall x | x in stuck ensures StuckOn(g, stuck, x) {
      assert x !in Frontier(g, Elems(r));
    }
  }

  /** Kahn's order reaches every crate exactly when the graph has no cycle. */
  lemma KahnCompleteIffAcyclic(g: Graph)
    requires g.Valid()
    ensures Elems(KahnOrder(g)) == g.nodes <==> Acyclic(g)
  {
    var r := KahnOrder(g);
    DrainIsTopological(g, {}, Listing(Frontier(g, {})));
    if Elems(r) == g.nodes {
      forall p ensures !Cycle(g, p) {
        if Cycle(g, p) {
          CycleInNodes(g, p);
          WalkIntoClimbs(g, r, p);
        }
      }
    } else {
      LeftAreStuck(g);
      StuckHasCycle(g, g.nodes - Elems(r));
    }
  }

  lemma CycleInNodes(g: Graph, p: seq<string>)
    requires g.Valid() && Cycle(g, p)
    ensures forall i :: 0 <= i < |p| ==> p[i] in g.nodes
  {
    forall i | 0 <= i < |p| ensures p[i] in g.nodes {
      var k := if i == 0 then 0 else i - 1;
      assert (p[k], p[k + 1]) in g.edges;
    }
  }

  // ---- The result, as the caller sees it ------------------------------------------------------

  ghost function TopoResult(crates: seq<string>, deps: map<string, seq<string>>)
    : Result<seq<string>, CircularDependency>
  {
    var order := KahnOrder(Selected(crates, deps));
    if |order| == |crates| then Ok(order) else Err(CircularDependency(|order|, |crates|))
  }

  /** Sound and complete: the sort succeeds exactly on repetition-free lists whose selected graph is
      acyclic; then it permutes the list and puts every selected dependency before its dependents. */
  lemma TopoCorrect(crates: seq<string>, deps: map<string, seq<string>>)
    ensures TopoResult(crates, deps).Ok? <==> NoDup(crates) && Acyclic(Selected(crates, deps))
    ensures TopoResult(crates, deps).Ok? ==>
              var order := TopoResult(crates, deps).value;
              && NoDup(order) && multiset(order) == multiset(crates)
              && forall i, d :: 0 <= i < |order| && d in DepsOf(deps, order[i]) && d in crates ==> d in order[..i]
  {
    var g := Selected(crates, deps);
    var r := KahnOrder(g);
    assert Emits(g, {}, r) by { DrainIsTopological(g, {}, Listing(Frontier(g, {}))); }
    KahnCompleteIffAcyclic(g);
    Pigeonhole(r, g.nodes);
    NoDupSize(crates);
    NoDupSize(r);
    if |r| == |crates| {
      assert Elems(r) == Elems(crates);
      SameElemsSameMultiset(r, crates);
      SelectedDependenciesFirst(crates, deps, r);
    }
  }

  lemma SelectedDependenciesFirst(crates: seq<string>, deps: map<string, seq<string>>, order: seq<string>)
    requires Emits(Selected(crates, deps), {}, order)
    ensures forall i, d :: 0 <= i < |order| && d in DepsOf(deps, order[i]) && d in crates ==> d in order[..i]
  {
    var g := Selected(crates, deps);
    forall i, d | 0 <= i < |order| && d in DepsOf(deps, order[i]) && d in crates ensures d in order[..i] {
      assert order[i] in Elems(order) && d in Elems(DepsOf(deps, order[i]));
      assert (d, order[i]) in g.edges;
      assert Met(g, order[i], {} + Elems(order[..i]));
    }
  }

  lemma {:induction false} SameElemsSameMultiset(a: seq<string>, b: seq<string>)
    requires NoDup(a) && NoDup(b) && Elems(a) == Elems(b)
    ensures multiset(a) == multiset(b)
  {
    forall x ensures multiset(a)[x] == multiset(b)[x] {
      OnceEach(a, x);
      OnceEach(b, x);
      assert x in a <==> x in Elems(a);
      assert x in b <==> x in Elems(b);
    }
  }

  lemma {:induction false} OnceEach(a: seq<string>, x: string)
    requires NoDup(a)
    ensures multiset(a)[x] == if x in a then 1 else 0
  {
    if a != [] {
      assert a == [a[0]] + a[1..];
      OnceEach(a[1..], x);
    }
  }

  /** Permuting the crate list and permuting (or repeating entries of) any dependency list
      leaves the whole result unchanged, failures included. */
  lemma OrderIndependence(crates: seq<string>, deps: map<string, seq<string>>,
                          crates': seq<string>, deps': map<string, seq<string>>)
    requires multiset(crates) == multiset(crates')
    requires forall n :: n in crates ==> Elems(DepsOf(deps, n)) == Elems(DepsOf(deps', n))
    ensures TopoResult(crates, deps) == TopoResult(crates', deps')
  {
    assert forall x :: x in crates <==> x in multiset(crates);
    assert forall x :: x in crates' <==> x in multiset(crates');
    assert Elems(crates) == Elems(crates');
    var g, g' := Selected(crates, deps), Selected(crates', deps');
    forall d, n ensures (d, n) in g.edges <==> (d, n) in g'.edges {
      assert n in Elems(crates) <==> n in crates;
    }
    assert g.edges == g'.edges;
    assert |crates| == |multiset(crates)| == |multiset(crates')| == |crates'|;
  }

  // ---- Which order, and how far a failed sort came ---------------------------------------------

  /** The first k crates of the order release x: they are all that x depends on. */
  ghost predicate Released(g: Graph, order: seq<string>, x: string, k: nat)
    requires k <= |order|
  {
    Met(g, x, Elems(order[..k]))
  }

  /** x is released no later than y. */
  ghost predicate NoLater(g: Graph, order: seq<string>, x: string, y: string) {
    forall k :: 0 <= k <= |order| && Released(g, order, y, k) ==> Released(g, order, x, k)
  }

  /** First released, first emitted; crates that are released together come in the order of their names. */
  ghost predicate ByRelease(g: Graph, order: seq<string>) {
    forall i, j :: 0 <= i < j < |order| ==>
                     && NoLater(g, order, order[i], order[j])
                     && (NoLater(g, order, order[j], order[i]) ==> Le(order[i], order[j]))
  }

  lemma ReleasedPrefix(g: Graph, order: seq<string>, more: seq<string>, x: string, k: nat)
    requires k <= |order|
    ensures Released(g, order + more, x, k) <==> Released(g, order, x, k)
  {
    assert (order + more)[..k] == order[..k];
  }

  lemma ReleasedLater(g: Graph, order: seq<string>, x: string, k: nat, l: nat)
    requires k <= l <= |order| && Released(g, order, x, k)
    ensures Released(g, order, x, l)
  {
    assert order[..k] <= order[..l];
    assert forall d :: d in order[..k] ==> d in order[..l];
  }

  /** Emitting the head of the queue, and queueing what it unlocks, keeps emitted and queued crates in this order. */
  lemma AdvanceByRelease(g: Graph, emitted: seq<string>, queue: seq<string>)
    requires g.Valid() && IsQueue(g, Elems(emitted), queue) && queue != []
    requires ByRelease(g, emitted + queue)
    ensures emitted + [queue[0]] + Advance(g, Elems(emitted), queue)
            == emitted + queue + Listing(Unlocked(g, Elems(emitted), queue[0]))
    ensures ByRelease(g, emitted + [queue[0]] + Advance(g, Elems(emitted), queue))
  {
    var was, unlocked := emitted + queue, Listing(Unlocked(g, Elems(emitted), queue[0]));
    var now := was + unlocked;
    assert emitted + [queue[0]] + Advance(g, Elems(emitted), queue) == now by {
      assert queue == [queue[0]] + queue[1..];
    }
    forall i, j | 0 <= i < j < |now|
      ensures NoLater(g, now, now[i], now[j]) && (NoLater(g, now, now[j], now[i]) ==> Le(now[i], now[j]))
    {
      if j < |was| {
        OldPair(g, emitted, queue, unlocked, i, j);
      } else if i < |was| {
        NewAfterOld(g, emitted, queue, unlocked, i, j);
      } else {
        NewPair(g, emitted, queue, unlocked, i, j);
      }
    }
  }

  /** Everything emitted or queued is released once all of emitted is there. */
  lemma OldIsReleased(g: Graph, emitted: seq<string>, queue: seq<string>, more: seq<string>, i: nat)
    requires IsQueue(g, Elems(emitted), queue) && i < |emitted + queue|
    ensures Released(g, emitted + queue + more, (emitted + queue)[i], |emitted|)
  {
    var was := emitted + queue;
    assert (was + more)[..|emitted|] == emitted;
    if i < |emitted| {
      assert was[i] in Elems(emitted);
    } else {
      assert was[i] == queue[i - |emitted|] && was[i] in Elems(queue);
    }
  }

  lemma OldPair(g: Graph, emitted: seq<string>, queue: seq<string>, more: seq<string>, i: nat, j: nat)
    requires IsQueue(g, Elems(emitted), queue) && ByRelease(g, emitted + queue) && i < j < |emitted + queue|
    ensures var was, now := emitted + queue, emitted + queue + more;
            NoLater(g, now, was[i], was[j]) && (NoLater(g, now, was[j], was[i]) ==> Le(was[i], was[j]))
  {
    var was, now := emitted + queue, emitted + queue + more;
    OldIsReleased(g, emitted, queue, more, i);
    OldIsReleased(g, emitted, queue, more, j);
    forall k | 0 <= k <= |now| && Released(g, now, was[j], k) ensures Released(g, now, was[i], k) {
      if k <= |was| {
        ReleasedPrefix(g, was, more, was[i], k);
        ReleasedPrefix(g, was, more, was[j], k);
      } else {
        ReleasedLater(g, now, was[i], |emitted|, k);
      }
    }
    if NoLater(g, now, was[j], was[i]) {
      forall k | 0 <= k <= |was| && Released(g, was, was[i], k) ensures Released(g, was, was[j], k) {
        ReleasedPrefix(g, was, more, was[i], k);
        ReleasedPrefix(g, was, more, was[j], k);
      }
    }
  }

  /** What the head unlocks is released by it, and by nothing before it. */
  lemma UnlockedIsReleased(g: Graph, emitted: seq<string>, queue: seq<string>, unlocked: seq<string>, x: string, k: nat)
    requires IsQueue(g, Elems(emitted), queue) && queue != []
    requires x in Unlocked(g, Elems(emitted), queue[0]) && k <= |emitted + queue + unlocked|
    ensures Released(g, emitted + queue + unlocked, x, k) <==> k > |emitted|
  {
    var now, n := emitted + queue + unlocked, queue[0];
    if k > |emitted| {
      assert now[..|emitted| + 1] == emitted + [n];
      ElemsConcat(emitted, [n]);
      ReleasedLater(g, now, x, |emitted| + 1, k);
    } else {
      assert now[..k] == emitted[..k];
      assert n in Elems(queue) && n !in Elems(emitted);
      assert forall d :: d in emitted[..k] ==> d in emitted;
      assert (n, x) in g.edges && n !in Elems(now[..k]);
    }
  }

  lemma NewAfterOld(g: Graph, emitted: seq<string>, queue: seq<string>, unlocked: seq<string>, i: nat, j: nat)
    requires IsQueue(g, Elems(emitted), queue) && queue != []
    requires unlocked == Listing(Unlocked(g, Elems(emitted), queue[0]))
    requires i < |emitted + queue| <= j < |emitted + queue + unlocked|
    ensures var now := emitted + queue + unlocked;
            NoLater(g, now, now[i], now[j]) && !NoLater(g, now, now[j], now[i])
  {
    var was, now := emitted + queue, emitted + queue + unlocked;
    assert now[j] == unlocked[j - |was|] && now[j] in Elems(unlocked) && now[i] == was[i];
    OldIsReleased(g, emitted, queue, unlocked, i);
    forall k | 0 <= k <= |now| && Released(g, now, now[j], k) ensures Released(g, now, now[i], k) {
      UnlockedIsReleased(g, emitted, queue, unlocked, now[j], k);
      ReleasedLater(g, now, now[i], |emitted|, k);
    }
    UnlockedIsReleased(g, emitted, queue, unlocked, now[j], |emitted|);
  }

  lemma NewPair(g: Graph, emitted: seq<string>, queue: seq<string>, unlocked: seq<string>, i: nat, j: nat)
    requires IsQueue(g, Elems(emitted), queue) && queue != []
    requires unlocked == Listing(Unlocked(g, Elems(emitted), queue[0]))
    requires |emitted + queue| <= i < j < |emitted + queue + unlocked|
    ensures var now := emitted + queue + unlocked;
            NoLater(g, now, now[i], now[j]) && Le(now[i], now[j])
  {
    var was, now := emitted + queue, emitted + queue + unlocked;
    assert now[i] == unlocked[i - |was|] && now[i] in Elems(unlocked);
    assert now[j] == unlocked[j - |was|] && now[j] in Elems(unlocked);
    forall k | 0 <= k <= |now| && Released(g, now, now[j], k) ensures Released(g, now, now[i], k) {
      UnlockedIsReleased(g, emitted, queue, unlocked, now[i], k);
      UnlockedIsReleased(g, emitted, queue, unlocked, now[j], k);
    }
  }

  lemma {:induction false} DrainByRelease(g: Graph, emitted: seq<string>, queue: seq<string>)
    requires g.Valid() && IsQueue(g, Elems(emitted), queue) && ByRelease(g, emitted + queue)
    ensures ByRelease(g, emitted + Drain(g, Elems(emitted), queue))
    decreases g.nodes - Elems(emitted)
  {
    if queue == [] {
      assert emitted + Drain(g, Elems(emitted), queue) == emitted + queue;
    } else {
      var n := queue[0];
      assert n in Elems(queue);
      AdvanceIsQueue(g, Elems(emitted), queue);
      AdvanceByRelease(g, emitted, queue);
      ElemsConcat(emitted, [n]);
      assert Elems(emitted + [n]) == Elems(emitted) + {n};
      DrainByRelease(g, emitted + [n], Advance(g, Elems(emitted), queue));
      assert emitted + Drain(g, Elems(emitted), queue)
             == emitted + [n] + Drain(g, Elems(emitted + [n]), Advance(g, Elems(emitted), queue));
    }
  }

  lemma KahnByRelease(g: Graph)
    requires g.Valid()
    ensures ByRelease(g, KahnOrder(g))
  {
    var queue := Listing(Frontier(g, {}));
    assert ByRelease(g, [] + queue) by {
      forall i, j | 0 <= i < j < |queue| ensures NoLater(g, queue, queue[i], queue[j]) && Le(queue[i], queue[j]) {
        assert queue[i] in Elems(queue);
      }
      assert [] + queue == queue;
    }
    assert Elems<string>([]) == {};
    DrainByRelease(g, [], queue);
    assert [] + KahnOrder(g) == KahnOrder(g);
  }

  lemma PairByRelease(g: Graph, order: seq<string>, i: nat, j: nat)
    requires ByRelease(g, order) && i < j < |order|
    ensures NoLater(g, order, order[i], order[j])
    ensures NoLater(g, order, order[j], order[i]) ==> Le(order[i], order[j])
  {
  }

  /** What two orders have in common decides which of two crates is released first, once one of them is emitted. */
  lemma NoLaterAgrees(g: Graph, a: seq<string>, b: seq<string>, k: nat, x: string, y: string)
    requires k < |a| == |b| && a[..k] == b[..k] && Released(g, a, x, k) && NoLater(g, a, x, y)
    ensures NoLater(g, b, x, y)
  {
    forall l | 0 <= l <= |b| && Released(g, b, y, l) ensures Released(g, b, x, l) {
      if l <= k {
        assert a[..l] == a[..k][..l] == b[..k][..l] == b[..l];
        assert Released(g, a, y, l);
      } else {
        ReleasedLater(g, b, x, k, l);
      }
    }
  }

  /** Two crates that each come first in one of two orders with the same beginning are one. */
  lemma TiesAreEqual(g: Graph, a: seq<string>, b: seq<string>, k: nat, x: string, y: string)
    requires k < |a| == |b| && a[..k] == b[..k] && Released(g, a, x, k) && Released(g, b, y, k)
    requires NoLater(g, a, x, y) && (NoLater(g, a, y, x) ==> Le(x, y))
    requires NoLater(g, b, y, x) && (NoLater(g, b, x, y) ==> Le(y, x))
    ensures x == y
  {
    NoLaterAgrees(g, a, b, k, x, y);
    NoLaterAgrees(g, b, a, k, y, x);
    LeAntisymmetric(x, y);
  }

  /** Where two listings of the same crates part, the one's next crate comes later in the other. */
  lemma FoundLater(a: seq<string>, b: seq<string>, k: nat) returns (i: nat)
    requires NoDup(b) && Elems(a) == Elems(b) && k < |a| == |b| && a[..k] == b[..k] && a[k] != b[k]
    ensures k < i < |a| && a[i] == b[k]
  {
    assert b[k] in Elems(a);
    i :| 0 <= i < |a| && a[i] == b[k];
    if i < k {
      SameAt(a, b, k, i);
    }
  }

  lemma SameAt(a: seq<string>, b: seq<string>, k: nat, i: nat)
    requires i < k <= |a| && k <= |b| && a[..k] == b[..k]
    ensures a[i] == b[i]
  {
    assert a[..k][i] == b[..k][i];
  }

  ghost predicate IsKahnOrder(g: Graph, order: seq<string>) {
    NoDup(order) && Elems(order) == g.nodes && DependenciesFirst(g, {}, order) && ByRelease(g, order)
  }

  lemma ReleasedWhenEmitted(g: Graph, order: seq<string>, k: nat)
    requires DependenciesFirst(g, {}, order) && k < |order|
    ensures Released(g, order, order[k], k)
  {
    assert {} + Elems(order[..k]) == Elems(order[..k]);
  }

  lemma SameNext(g: Graph, a: seq<string>, b: seq<string>, k: nat)
    requires IsKahnOrder(g, a) && IsKahnOrder(g, b) && k < |a| == |b| && a[..k] == b[..k]
    ensures a[k] == b[k]
  {
    if a[k] != b[k] {
      var i := FoundLater(a, b, k);
      var j := FoundLater(b, a, k);
      PairByRelease(g, a, k, i);
      PairByRelease(g, b, k, j);
      ReleasedWhenEmitted(g, a, k);
      ReleasedWhenEmitted(g, b, k);
      TiesAreEqual(g, a, b, k, a[k], b[k]);
    }
  }

  lemma {:induction false} SameUpTo(a: seq<string>, b: seq<string>, k: nat)
    requires k <= |a| == |b| && forall m :: 0 <= m < |a| && a[..m] == b[..m] ==> a[m] == b[m]
    ensures a[..k] == b[..k]
  {
    if k > 0 {
      SameUpTo(a, b, k - 1);
      assert a[..k] == a[..k - 1] + [a[k - 1]] && b[..k] == b[..k - 1] + [b[k - 1]];
    }
  }

  /** There is only one such order. */
  lemma KahnOrderUnique(g: Graph, a: seq<string>, b: seq<string>)
    requires IsKahnOrder(g, a) && IsKahnOrder(g, b)
    ensures a == b
  {
    NoDupSize(a);
    NoDupSize(b);
    forall m | 0 <= m < |a| && a[..m] == b[..m] ensures a[m] == b[m] {
      SameNext(g, a, b, m);
    }
    SameUpTo(a, b, |a|);
    assert a[..|a|] == a && b[..|b|] == b;
  }

  /** The result is the one listing of the crates that puts dependencies first and follows the releases. */
  lemma OrderIsDetermined(crates: seq<string>, deps: map<string, seq<string>>, order: seq<string>)
    requires TopoResult(crates, deps).Ok?
    ensures order == TopoResult(crates, deps).value <==> IsKahnOrder(Selected(crates, deps), order)
  {
    var g := Selected(crates, deps);
    TopoCorrect(crates, deps);
    KahnCompleteIffAcyclic(g);
    DrainIsTopological(g, {}, Listing(Frontier(g, {})));
    KahnByRelease(g);
    assert IsKahnOrder(g, KahnOrder(g));
    if IsKahnOrder(g, order) {
      KahnOrderUnique(g, order, KahnOrder(g));
    }
  }

  /** A cycle, or something that comes after one, leads to x. */
  ghost predicate Downstream(g: Graph, x: string) {
    exists p :: Walk(g, p) && p != [] && p[|p| - 1] == x && !NoDup(p)
  }

  ghost function NotDownstream(g: Graph): set<string> {
    set x | x in g.nodes && !Downstream(g, x)
  }

  /** The crates that are ordered are those that no cycle leads to. */
  lemma OrderedIffNotDownstream(g: Graph, x: string)
    requires g.Valid() && x in g.nodes
    ensures x in Elems(KahnOrder(g)) <==> !Downstream(g, x)
  {
    var r := KahnOrder(g);
    DrainIsTopological(g, {}, Listing(Frontier(g, {})));
    if x in Elems(r) {
      forall p | Walk(g, p) && p != [] && p[|p| - 1] == x ensures NoDup(p) {
        WalkIntoClimbs(g, r, p);
      }
    } else {
      LeftAreStuck(g);
      var p := StuckRepeats(g, g.nodes - Elems(r), x);
    }
  }

  lemma OrderedAreNotDownstream(g: Graph)
    requires g.Valid()
    ensures Elems(KahnOrder(g)) == NotDownstream(g)
  {
    var r := Elems(KahnOrder(g));
    assert r <= g.nodes by { DrainIsTopological(g, {}, Listing(Frontier(g, {}))); }
    forall x | x in g.nodes ensures x in r <==> !Downstream(g, x) {
      OrderedIffNotDownstream(g, x);
    }
  }

  lemma OrderHasNoDup(g: Graph)
    requires g.Valid()
    ensures NoDup(KahnOrder(g)) && |Elems(KahnOrder(g))| == |KahnOrder(g)|
  {
    DrainIsTopological(g, {}, Listing(Frontier(g, {})));
    NoDupSize(KahnOrder(g));
  }

  /** A failed sort reports how many crates no cycle leads to, out of how many were listed. */
  lemma FailureCounts(crates: seq<string>, deps: map<string, seq<string>>)
    ensures match TopoResult(crates, deps)
            case Err(e) => e == CircularDependency(|NotDownstream(Selected(crates, deps))|, |crates|)
            case Ok(_) => true
  {
    OrderedAreNotDownstream(Selected(crates, deps));
    OrderHasNoDup(Selected(crates, deps));
  }

  // ---- The two counting maps of the algorithm -------------------------------------------------

  /** The (dependency, dependent) pairs in the order in which the build loop meets them. */
  function DepEdges(name: string, deps: seq<string>, among: set<string>): seq<Edge> {
    if deps == [] then [] else
    var d := deps[|deps| - 1];
    DepEdges(name, deps[..|deps| - 1], among) + if d in among then [(d, name)] else []
  }

  function EdgeList(crates: seq<string>, deps: map<string, seq<string>>, among: set<string>): seq<Edge> {
    if crates == [] then [] else
    var n := crates[|crates| - 1];
    EdgeList(crates[..|crates| - 1], deps, among) + DepEdges(n, DepsOf(deps, n), among)
  }

  /** How many listed dependencies of x are not yet emitted; repetitions count. */
  ghost function Pending(edges: seq<Edge>, x: string, done: set<string>): nat {
    if edges == [] then 0 else
    var e := edges[|edges| - 1];
    Pending(edges[..|edges| - 1], x, done) + if e.1 == x && e.0 !in done then 1 else 0
  }

  ghost function DependentsOf(edges: seq<Edge>, d: string): seq<string> {
    if edges == [] then [] else
    var e := edges[|edges| - 1];
    DependentsOf(edges[..|edges| - 1], d) + if e.0 == d then [e.1] else []
  }

  ghost function Count(names: seq<string>, x: string): nat {
    if names == [] then 0 else Count(names[..|names| - 1], x) + if names[|names| - 1] == x then 1 else 0
  }

  lemma {:induction false} CountOfPrefix(names: seq<string>, j: nat, x: string)
    requires j <= |names|
    ensures Count(names[..j], x) <= Count(names, x)
  {
    if j < |names| {
      assert names[..|names| - 1][..j] == names[..j];
      CountOfPrefix(names[..|names| - 1], j, x);
    } else {
      assert names[..j] == names;
    }
  }

  lemma CountNext(names: seq<string>, j: nat)
    requires j < |names|
    ensures forall x :: Count(names[..j + 1], x) == Count(names[..j], x) + if names[j] == x then 1 else 0
    ensures Count(names[..j], names[j]) < Count(names, names[j])
    ensures Elems(names[..j + 1]) == Elems(names[..j]) + {names[j]}
  {
    assert names[..j + 1][..j] == names[..j];
    assert names[..j + 1] == names[..j] + [names[j]];
    CountOfPrefix(names, j + 1, names[j]);
  }

  lemma {:induction false} PendingZero(edges: seq<Edge>, x: string, done: set<string>)
    ensures Pending(edges, x, done) == 0 <==> forall d :: (d, x) in edges ==> d in done
  {
    if edges != [] {
      var rest, e := edges[..|edges| - 1], edges[|edges| - 1];
      assert edges == rest + [e];
      PendingZero(rest, x, done);
      assert e == (e.0, e.1);
    }
  }

  lemma {:induction false} PendingSplit(edges: seq<Edge>, x: string, done: set<string>, n: string)
    requires n !in done
    ensures Pending(edges, x, done) == Pending(edges, x, done + {n}) + Count(DependentsOf(edges, n), x)
  {
    if edges != [] {
      var front, e := edges[..|edges| - 1], edges[|edges| - 1];
      PendingSplit(front, x, done, n);
      var was := DependentsOf(front, n);
      assert (was + [e.1])[..|was|] == was && was + [] == was;
    }
  }

  lemma {:induction false} DependentsElems(edges: seq<Edge>, d: string)
    ensures forall x :: x in DependentsOf(edges, d) <==> (d, x) in edges
  {
    if edges != [] {
      var rest, e := edges[..|edges| - 1], edges[|edges| - 1];
      assert edges == rest + [e];
      DependentsElems(rest, d);
      assert e == (e.0, e.1);
    }
  }

  lemma {:induction false} DepEdgesElems(name: string, deps: seq<string>, among: set<string>)
    ensures forall d, n :: (d, n) in DepEdges(name, deps, among) <==> n == name && d in deps && d in among
  {
    if deps != [] {
      assert deps == deps[..|deps| - 1] + [deps[|deps| - 1]];
      DepEdgesElems(name, deps[..|deps| - 1], among);
    }
  }

  lemma {:induction false} EdgeListElems(crates: seq<string>, deps: map<string, seq<string>>, among: set<string>)
    ensures forall d, n :: (d, n) in EdgeList(crates, deps, among)
                           <==> n in crates && d in DepsOf(deps, n) && d in among
  {
    if crates != [] {
      var rest, n := crates[..|crates| - 1], crates[|crates| - 1];
      assert crates == rest + [n];
      EdgeListElems(rest, deps, among);
      DepEdgesElems(n, DepsOf(deps, n), among);
    }
  }

  // ---- The algorithm ------------------------------------------------------------------------

  /** in_degree and dependents, as the build loop leaves them. */
  ghost predicate Counted(inDegree: map<string, nat>, dependents: map<string, seq<string>>, edges: seq<Edge>) {
    && (forall e :: e in edges ==> e.1 in inDegree)
    && (forall x :: x in inDegree ==> inDegree[x] == Pending(edges, x, {}))
    && (forall d :: DepsOf(dependents, d) == DependentsOf(edges, d))
  }

  lemma CountedExtend(inDegree: map<string, nat>, dependents: map<string, seq<string>>, edges: seq<Edge>,
                      dep: string, name: string)
    requires Counted(inDegree, dependents, edges) && name in inDegree
    ensures Counted(inDegree[name := inDegree[name] + 1],
                    dependents[dep := DepsOf(dependents, dep) + [name]],
                    edges + [(dep, name)])
  {
    var edges' := edges + [(dep, name)];
    assert edges'[..|edges'| - 1] == edges;
    forall d ensures DepsOf(dependents[dep := DepsOf(dependents, dep) + [name]], d) == DependentsOf(edges', d) {
      assert DepsOf(dependents, d) == DependentsOf(edges, d);
    }
  }

  method CountOne(name: string, deps: seq<string>, crateSet: set<string>, inDegree: map<string, nat>,
                  dependents: map<string, seq<string>>, ghost edges: seq<Edge>)
    returns (inDegree': map<string, nat>, dependents': map<string, seq<string>>)
    requires name in inDegree && Counted(inDegree, dependents, edges)
    ensures inDegree'.Keys == inDegree.Keys
    ensures Counted(inDegree', dependents', edges + DepEdges(name, deps, crateSet))
  {
    inDegree', dependents' := inDegree, dependents;
    ghost var seen := edges;
    for j := 0 to |deps|
      invariant seen == edges + DepEdges(name, deps[..j], crateSet)
      invariant inDegree'.Keys == inDegree.Keys && Counted(inDegree', dependents', seen)
    {
      var dep := deps[j];
      DepEdgesNext(name, deps, j, crateSet, edges);
      if dep in crateSet {
        CountedExtend(inDegree', dependents', seen, dep, name);
        inDegree' := inDegree'[name := inDegree'[name] + 1];
        dependents' := dependents'[dep := DepsOf(dependents', dep) + [name]];
        seen := seen + [(dep, name)];
      }
    }
    assert deps[..|deps|] == deps;
  }

  lemma DepEdgesNext(name: string, deps: seq<string>, j: nat, among: set<string>, before: seq<Edge>)
    requires j < |deps|
    ensures before + DepEdges(name, deps[..j + 1], among)
            == before + DepEdges(name, deps[..j], among) + if deps[j] in among then [(deps[j], name)] else []
  {
    assert deps[..j + 1][..j] == deps[..j];
  }

  lemma CountedNew(inDegree: map<string, nat>, dependents: map<string, seq<string>>, edges: seq<Edge>, name: string)
    requires Counted(inDegree, dependents, edges)
    ensures name !in inDegree ==> Counted(inDegree[name := 0], dependents, edges)
  {
    if name !in inDegree {
      PendingOfNew(edges, name, inDegree.Keys);
    }
  }

  method CountDependencies(crates: seq<string>, workspaceDeps: map<string, seq<string>>)
    returns (inDegree: map<string, nat>, dependents: map<string, seq<string>>)
    ensures inDegree.Keys == Elems(crates)
    ensures Counted(inDegree, dependents, EdgeList(crates, workspaceDeps, Elems(crates)))
  {
    var crateSet := set x | x in crates;
    inDegree, dependents := map[], map[];
    for i := 0 to |crates|
      invariant inDegree.Keys == Elems(crates[..i])
      invariant Counted(inDegree, dependents, EdgeList(crates[..i], workspaceDeps, crateSet))
    {
      var name := crates[i];
      ghost var edges := EdgeList(crates[..i], workspaceDeps, crateSet);
      TakeOneMore(crates, workspaceDeps, crateSet, i);
      CountedNew(inDegree, dependents, edges, name);
      if name !in inDegree {
        inDegree := inDegree[name := 0];
      }
      inDegree, dependents := CountOne(name, DepsOf(workspaceDeps, name), crateSet, inDegree, dependents, edges);
    }
    assert crates[..|crates|] == crates;
  }

  lemma TakeOneMore(crates: seq<string>, deps: map<string, seq<string>>, among: set<string>, i: nat)
    requires i < |crates|
    ensures EdgeList(crates[..i + 1], deps, among)
            == EdgeList(crates[..i], deps, among) + DepEdges(crates[i], DepsOf(deps, crates[i]), among)
    ensures Elems(crates[..i + 1]) == Elems(crates[..i]) + {crates[i]}
  {
    assert crates[..i + 1][..i] == crates[..i];
    assert crates[..i + 1] == crates[..i] + [crates[i]];
  }

  lemma {:induction false} PendingOfNew(edges: seq<Edge>, x: string, known: set<string>)
    requires x !in known && forall e :: e in edges ==> e.1 in known
    ensures Pending(edges, x, {}) == 0
  {
    PendingZero(edges, x, {});
    assert forall d :: (d, x) in edges ==> (d, x).1 in known;
  }

  /** The initial queue: iterate the in-degree map in whatever order it comes, then sort. */
  method InitialQueue(inDegree: map<string, nat>) returns (queue: seq<string>)
    ensures queue == Listing(set x | x in inDegree && inDegree[x] == 0)
  {
    var unseen := inDegree.Keys;
    queue := [];
    while unseen != {}
      invariant unseen <= inDegree.Keys && NoDup(queue)
      invariant Elems(queue) == set x | x in inDegree && x !in unseen && inDegree[x] == 0
    {
      var name :| name in unseen;
      if inDegree[name] == 0 {
        assert name !in Elems(queue);
        ElemsConcat(queue, [name]);
        queue := queue + [name];
      }
      unseen := unseen - {name};
    }
    assert Elems(queue) == set x | x in inDegree && inDegree[x] == 0;
    SortIsListing(queue);
    queue := Sort(queue);
  }

  lemma ZeroIsReady(g: Graph, edges: seq<Edge>, done: set<string>)
    requires Elems(edges) == g.edges
    ensures forall x :: x in g.nodes && x !in done ==> (Ready(g, done, x) <==> Pending(edges, x, done) == 0)
  {
    forall x | x in g.nodes && x !in done ensures Ready(g, done, x) <==> Pending(edges, x, done) == 0 {
      PendingZero(edges, x, done);
      assert forall d :: (d, x) in edges <==> (d, x) in Elems(edges);
    }
  }

  lemma ZeroIsUnlocked(g: Graph, edges: seq<Edge>, done: set<string>, n: string)
    requires g.Valid() && Elems(edges) == g.edges && Closed(g, done) && Ready(g, done, n)
    ensures forall x :: x in Unlocked(g, done, n) <==>
              x in DependentsOf(edges, n) && x in g.nodes && Pending(edges, x, done + {n}) == 0
  {
    DependentsElems(edges, n);
    ZeroIsReady(g, edges, done + {n});
    forall x ensures x in DependentsOf(edges, n) <==> (n, x) in g.edges {
      assert (n, x) in edges <==> (n, x) in Elems(edges);
    }
    assert forall x :: (n, x) in g.edges ==> x !in done + {n};
  }

  /** The listed dependents whose in-degree is used up by the list. */
  ghost function Zeros(inDegree: map<string, nat>, released: seq<string>): set<string> {
    set x | x in released && x in inDegree && inDegree[x] == Count(released, x)
  }

  /** Decrement the in-degree once per listed dependent; queue those that reach zero. */
  method Release(inDegree: map<string, nat>, released: seq<string>)
    returns (inDegree': map<string, nat>, next: seq<string>)
    requires forall x :: x in released ==> x in inDegree && Count(released, x) <= inDegree[x]
    ensures inDegree'.Keys == inDegree.Keys
    ensures forall x :: x in inDegree ==> inDegree'[x] == inDegree[x] - Count(released, x)
    ensures next == Listing(Zeros(inDegree, released))
  {
    inDegree', next := inDegree, [];
    for j := 0 to |released|
      invariant inDegree'.Keys == inDegree.Keys && NoDup(next)
      invariant forall x :: x in inDegree ==> inDegree'[x] == inDegree[x] - Count(released[..j], x)
      invariant Elems(next) == set x | x in Elems(released[..j]) && inDegree'[x] == 0
    {
      var depName := released[j];
      CountNext(released, j);
      assert inDegree'[depName] > 0;
      assert depName !in Elems(next);
      inDegree' := inDegree'[depName := inDegree'[depName] - 1];
      if inDegree'[depName] == 0 {
        ElemsConcat(next, [depName]);
        next := next + [depName];
      }
    }
    assert released[..|released|] == released;
    assert Elems(next) == Zeros(inDegree, released);
    SortIsListing(next);
    next := Sort(next);
  }

  lemma ReleaseIsUnlocked(g: Graph, edges: seq<Edge>, inDegree: map<string, nat>, done: set<string>, n: string)
    requires g.Valid() && Elems(edges) == g.edges && Closed(g, done) && Ready(g, done, n)
    requires inDegree.Keys == g.nodes
    requires forall x :: x in g.nodes ==> inDegree[x] == Pending(edges, x, done)
    ensures var released := DependentsOf(edges, n);
            && (forall x :: x in released ==> x in inDegree && Count(released, x) <= inDegree[x])
            && (forall x :: x in inDegree ==> inDegree[x] - Count(released, x) == Pending(edges, x, done + {n}))
            && Unlocked(g, done, n) == Zeros(inDegree, released)
  {
    var released := DependentsOf(edges, n);
    forall x ensures Pending(edges, x, done) == Pending(edges, x, done + {n}) + Count(released, x) {
      PendingSplit(edges, x, done, n);
    }
    forall x | x in released ensures x in g.nodes {
      DependentsElems(edges, n);
      assert (n, x) in Elems(edges);
    }
    ZeroIsUnlocked(g, edges, done, n);
  }

  lemma DrainNext(g: Graph, done: set<string>, queue: seq<string>)
    requires g.Valid() && IsQueue(g, done, queue) && queue != []
    ensures Ready(g, done, queue[0]) && IsQueue(g, done + {queue[0]}, Advance(g, done, queue))
    ensures Drain(g, done, queue) == [queue[0]] + Drain(g, done + {queue[0]}, Advance(g, done, queue))
  {
    AdvanceIsQueue(g, done, queue);
    assert queue[0] in Elems(queue);
  }

  /** The main loop: pop, emit, release. */
  method DrainQueue(inDegree: map<string, nat>, dependents: map<string, seq<string>>, initial: seq<string>,
                    ghost g: Graph, ghost edges: seq<Edge>)
    returns (sorted: seq<string>)
    requires g.Valid() && Elems(edges) == g.edges && IsQueue(g, {}, initial)
    requires inDegree.Keys == g.nodes && Counted(inDegree, dependents, edges)
    ensures sorted == Drain(g, {}, initial)
  {
    var degree, queue := inDegree, initial;
    ghost var done: set<string> := {};
    sorted := [];
    while queue != []
      invariant degree.Keys == g.nodes && IsQueue(g, done, queue)
      invariant forall x :: x in g.nodes ==> degree[x] == Pending(edges, x, done)
      invariant sorted + Drain(g, done, queue) == Drain(g, {}, initial)
      decreases g.nodes - done
    {
      DrainNext(g, done, queue);
      ghost var queue', emitted := Advance(g, done, queue), sorted;
      var name := queue[0];
      queue := queue[1..];
      sorted := sorted + [name];
      ReleaseIsUnlocked(g, edges, degree, done, name);
      assert DepsOf(dependents, name) == DependentsOf(edges, name);
      var next;
      degree, next := Release(degree, DepsOf(dependents, name));
      queue := queue + next;
      done := done + {name};
      assert queue == queue';
      assert sorted + Drain(g, done, queue) == emitted + ([name] + Drain(g, done, queue));
    }
  }

  method TopologicalSort(crates: seq<string>, workspaceDeps: map<string, seq<string>>)
    returns (r: Result<seq<string>, CircularDependency>)
    ensures r == TopoResult(crates, workspaceDeps)
  {
    var inDegree, dependents := CountDependencies(crates, workspaceDeps);
    ghost var g := Selected(crates, workspaceDeps);
    ghost var edges := EdgeList(crates, workspaceDeps, Elems(crates));
    EdgeListElems(crates, workspaceDeps, Elems(crates));
    assert Elems(edges) == g.edges;
    var queue := InitialQueue(inDegree);
    ZeroIsReady(g, edges, {});
    assert Frontier(g, {}) == set x | x in inDegree && inDegree[x] == 0;
    var sorted := DrainQueue(inDegree, dependents, queue, g, edges);
    if |sorted| != |crates| {
      return Err(CircularDependency(|sorted|, |crates|));
    }
    return Ok(sorted);
  }
}
