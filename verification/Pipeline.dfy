/** The request pipeline: pre-middleware, router, post-middleware, with short-circuits. */
module Pipeline {
  import opened Basics

  datatype Action<+Req, +Resp> = Continue(req: Req) | ShortCircuit(resp: Resp)

  /** What a pipeline calls, in order. */
  datatype Call = Pre(name: string) | Route(name: string) | Post(name: string)

  /** Stages may keep state of their own: all of it is one world that every stage reads and rewrites. */
  datatype PreStage<!W, !Req, Resp, E> = PreStage(name: string, run: (W, Req) -> (W, Result<Action<Req, Resp>, E>))

  datatype PostStage<!W, !Resp, E> = PostStage(name: string, run: (W, Resp) -> (W, Result<Resp, E>))

  /** How a run ends: the world, the calls made, the result. */
  datatype End<W, T, E> = End(world: W, trace: seq<Call>, result: Result<T, E>)

  type Router<!W, !Req, Resp, E> = (W, Req) -> End<W, Resp, E>

  datatype Stages<!W, !Req, !Resp, E> = Stages(pre: seq<PreStage<W, Req, Resp, E>>, router: Router<W, Req, Resp, E>,
                                               post: seq<PostStage<W, Resp, E>>)

  /** A router that is no pipeline: one call. */
  function Leaf<W, Req, Resp, E>(name: string, handler: (W, Req) -> (W, Result<Resp, E>)): Router<W, Req, Resp, E> {
    (w: W, req: Req) => var (w', r) := handler(w, req); End(w', [Route(name)], r)
  }

  // ---- The meaning of a pipeline ------------------------------------------------------------------

  ghost function RunPre<W, Req, Resp, E>(pre: seq<PreStage<W, Req, Resp, E>>, w: W, req: Req)
    : End<W, Action<Req, Resp>, E>
  {
    if pre == [] then End(w, [], Ok(Continue(req))) else
    var (w', r) := pre[0].run(w, req);
    if r.Ok? && r.value.Continue? then
      var rest := RunPre(pre[1..], w', r.value.req);
      rest.(trace := [Pre(pre[0].name)] + rest.trace)
    else End(w', [Pre(pre[0].name)], r)
  }

  ghost function RunPost<W, Resp, E>(post: seq<PostStage<W, Resp, E>>, w: W, resp: Resp): End<W, Resp, E> {
    if post == [] then End(w, [], Ok(resp)) else
    var (w', r) := post[0].run(w, resp);
    if r.Ok? then
      var rest := RunPost(post[1..], w', r.value);
      rest.(trace := [Post(post[0].name)] + rest.trace)
    else End(w', [Post(post[0].name)], r)
  }

  /** Continue a run that has a response with post-middleware. */
  ghost function AndPost<W, Resp, E>(end: End<W, Resp, E>, post: seq<PostStage<W, Resp, E>>): End<W, Resp, E> {
    if end.result.Err? then end else
    var rest := RunPost(post, end.world, end.result.value);
    rest.(trace := end.trace + rest.trace)
  }

  /** The response of the short-circuit, or else of the router. */
  ghost function Dispatch<W, Req, Resp, E>(end: End<W, Action<Req, Resp>, E>, router: Router<W, Req, Resp, E>)
    : End<W, Resp, E>
  {
    match end.result
    case Err(e) => End(end.world, end.trace, Err(e))
    case Ok(ShortCircuit(resp)) => End(end.world, end.trace, Ok(resp))
    case Ok(Continue(req)) =>
      var routed := router(end.world, req);
      routed.(trace := end.trace + routed.trace)
  }

  ghost function Outcome<W, Req, Resp, E>(p: Stages<W, Req, Resp, E>, w: W, req: Req): End<W, Resp, E> {
    AndPost(Dispatch(RunPre(p.pre, w, req), p.router), p.post)
  }

  /** Put calls made earlier before those of a run. */
  ghost function After<W, T, E>(trace: seq<Call>, end: End<W, T, E>): End<W, T, E> {
    end.(trace := trace + end.trace)
  }

  lemma AfterTwice<W, T, E>(a: seq<Call>, b: seq<Call>, end: End<W, T, E>)
    ensures After(a, After(b, end)) == After(a + b, end)
    ensures After([], end) == end
  {
    assert a + (b + end.trace) == a + b + end.trace;
    assert [] + end.trace == end.trace;
  }

  // ---- The loops ----------------------------------------------------------------------------------

  method Execute<W, Req, Resp, E>(p: Stages<W, Req, Resp, E>, world: W, request: Req)
    returns (end: End<W, Resp, E>)
    ensures end == Outcome(p, world, request)
  {
    var w, trace := world, [];
    var state: Action<Req, Resp> := Continue(request);
    var i := 0;
    assert p.pre[0..] == p.pre;
    AfterTwice([], [], RunPre(p.pre, world, request));
    while i < |p.pre|
      invariant 0 <= i <= |p.pre|
      invariant state.Continue? ==>
                  RunPre(p.pre, world, request) == After(trace, RunPre(p.pre[i..], w, state.req))
      invariant state.ShortCircuit? ==> RunPre(p.pre, world, request) == End(w, trace, Ok(state))
    {
      if state.ShortCircuit? {
        break;
      }
      assert p.pre[i..][0] == p.pre[i] && p.pre[i..][1..] == p.pre[i + 1..];
      var (w', r) := p.pre[i].run(w, state.req);
      var call := Pre(p.pre[i].name);
      if r.Ok? && r.value.Continue? {
        AfterTwice(trace, [call], RunPre(p.pre[i + 1..], w', r.value.req));
      }
      w, trace := w', trace + [call];
      if r.Err? {
        return End(w, trace, Err(r.error));
      }
      state, i := r.value, i + 1;
    }
    assert RunPre(p.pre, world, request) == End(w, trace, Ok(state));
    var response;
    match state {
      case ShortCircuit(resp) => response := resp;
      case Continue(req) =>
        var routed := p.router(w, req);
        w, trace := routed.world, trace + routed.trace;
        if routed.result.Err? {
          return End(w, trace, Err(routed.result.error));
        }
        response := routed.result.value;
    }
    ghost var dispatched: End<W, Resp, E> := End(w, trace, Ok(response));
    assert dispatched == Dispatch(RunPre(p.pre, world, request), p.router);
    i := 0;
    assert p.post[0..] == p.post;
    while i < |p.post|
      invariant 0 <= i <= |p.post|
      invariant After(trace, RunPost(p.post[i..], w, response)) == AndPost(dispatched, p.post)
    {
      assert p.post[i..][0] == p.post[i] && p.post[i..][1..] == p.post[i + 1..];
      var (w', r) := p.post[i].run(w, response);
      var call := Post(p.post[i].name);
      if r.Ok? {
        AfterTwice(trace, [call], RunPost(p.post[i + 1..], w', r.value));
      }
      w, trace := w', trace + [call];
      if r.Err? {
        return End(w, trace, r);
      }
      response, i := r.value, i + 1;
    }
    return End(w, trace, Ok(response));
  }

  // ---- A pipeline as a router ----------------------------------------------------------------------

  ghost function AsRouter<W, Req, Resp, E>(inner: Stages<W, Req, Resp, E>): Router<W, Req, Resp, E> {
    (w: W, req: Req) => Outcome(inner, w, req)
  }

  /** Outer pre then inner pre, the router, inner post then outer post. */
  function Flatten<W, Req, Resp, E>(outerPre: seq<PreStage<W, Req, Resp, E>>, inner: Stages<W, Req, Resp, E>,
                                    outerPost: seq<PostStage<W, Resp, E>>): Stages<W, Req, Resp, E> {
    Stages(outerPre + inner.pre, inner.router, inner.post + outerPost)
  }

  lemma {:induction false} RunPreConcat<W, Req, Resp, E>(a: seq<PreStage<W, Req, Resp, E>>,
                                                         b: seq<PreStage<W, Req, Resp, E>>, w: W, req: Req)
    ensures var first := RunPre(a, w, req);
            RunPre(a + b, w, req)
            == if first.result.Ok? && first.result.value.Continue?
               then After(first.trace, RunPre(b, first.world, first.result.value.req)) else first
  {
    if a == [] {
      assert a + b == b;
      AfterTwice([], [], RunPre(b, w, req));
    } else {
      assert (a + b)[0] == a[0] && (a + b)[1..] == a[1..] + b;
      var (w', r) := a[0].run(w, req);
      if r.Ok? && r.value.Continue? {
        RunPreConcat(a[1..], b, w', r.value.req);
        var rest := RunPre(a[1..], w', r.value.req);
        if rest.result.Ok? && rest.result.value.Continue? {
          AfterTwice([Pre(a[0].name)], rest.trace, RunPre(b, rest.world, rest.result.value.req));
        }
      }
    }
  }

  lemma {:induction false} RunPostConcat<W, Resp, E>(a: seq<PostStage<W, Resp, E>>, b: seq<PostStage<W, Resp, E>>,
                                                     w: W, resp: Resp)
    ensures RunPost(a + b, w, resp) == AndPost(RunPost(a, w, resp), b)
  {
    if a == [] {
      assert a + b == b;
      AfterTwice([], [], RunPost(b, w, resp));
    } else {
      assert (a + b)[0] == a[0] && (a + b)[1..] == a[1..] + b;
      var (w', r) := a[0].run(w, resp);
      if r.Ok? {
        RunPostConcat(a[1..], b, w', r.value);
        var rest := RunPost(a[1..], w', r.value);
        if rest.result.Ok? {
          AfterTwice([Post(a[0].name)], rest.trace, RunPost(b, rest.world, rest.result.value));
        }
      }
    }
  }

  lemma AndPostConcat<W, Resp, E>(end: End<W, Resp, E>, a: seq<PostStage<W, Resp, E>>, b: seq<PostStage<W, Resp, E>>)
    ensures AndPost(AndPost(end, a), b) == AndPost(end, a + b)
  {
    if end.result.Ok? {
      RunPostConcat(a, b, end.world, end.result.value);
      var first := RunPost(a, end.world, end.result.value);
      if first.result.Ok? {
        AfterTwice(end.trace, first.trace, RunPost(b, first.world, first.result.value));
      }
    }
  }

  lemma AndPostAfter<W, Resp, E>(trace: seq<Call>, end: End<W, Resp, E>, post: seq<PostStage<W, Resp, E>>)
    ensures AndPost(After(trace, end), post) == After(trace, AndPost(end, post))
  {
    if end.result.Ok? {
      AfterTwice(trace, end.trace, RunPost(post, end.world, end.result.value));
    }
  }

  lemma DispatchAfter<W, Req, Resp, E>(trace: seq<Call>, end: End<W, Action<Req, Resp>, E>,
                                       router: Router<W, Req, Resp, E>)
    ensures Dispatch(After(trace, end), router) == After(trace, Dispatch(end, router))
  {
    if end.result.Ok? && end.result.value.Continue? {
      AfterTwice(trace, end.trace, router(end.world, end.result.value.req));
    }
  }

  ghost predicate ShortCircuits<W, Req, Resp, E>(pre: seq<PreStage<W, Req, Resp, E>>, w: W, req: Req) {
    var r := RunPre(pre, w, req).result;
    r.Ok? && r.value.ShortCircuit?
  }

  /** A nested pipeline gives the same result, the same calls in the same order and the same world as the
      flattened one, unless the outer pre-middleware short-circuits; then it is the flattened pipeline without
      the inner post-middleware. */
  lemma NestedIsFlattened<W, Req, Resp, E>(outerPre: seq<PreStage<W, Req, Resp, E>>, inner: Stages<W, Req, Resp, E>,
                                           outerPost: seq<PostStage<W, Resp, E>>, w: W, req: Req)
    ensures var nested := Outcome(Stages(outerPre, AsRouter(inner), outerPost), w, req);
            if ShortCircuits(outerPre, w, req)
            then nested == Outcome(Flatten(outerPre, inner.(post := []), outerPost), w, req)
            else nested == Outcome(Flatten(outerPre, inner, outerPost), w, req)
  {
    RunPreConcat(outerPre, inner.pre, w, req);
    var first := RunPre(outerPre, w, req);
    assert [] + outerPost == outerPost;
    if first.result.Ok? && first.result.value.Continue? {
      var second := RunPre(inner.pre, first.world, first.result.value.req);
      var core := Dispatch(second, inner.router);
      DispatchAfter(first.trace, second, inner.router);
      AndPostConcat(After(first.trace, core), inner.post, outerPost);
      AndPostAfter(first.trace, core, inner.post);
    }
  }

  // ---- Who runs --------------------------------------------------------------------------------------

  ghost predicate Routes(trace: seq<Call>) {
    exists i :: 0 <= i < |trace| && trace[i].Route?
  }

  lemma {:induction false} PreCallsOnly<W, Req, Resp, E>(pre: seq<PreStage<W, Req, Resp, E>>, w: W, req: Req)
    ensures var end := RunPre(pre, w, req);
            && |end.trace| <= |pre| && (forall i :: 0 <= i < |end.trace| ==> end.trace[i] == Pre(pre[i].name))
            && (end.result.Ok? && end.result.value.Continue? ==> |end.trace| == |pre|)
  {
    if pre != [] {
      var (w', r) := pre[0].run(w, req);
      if r.Ok? && r.value.Continue? {
        PreCallsOnly(pre[1..], w', r.value.req);
      }
    }
  }

  /** Post-middleware runs in order, all of it or up to and including the first stage that fails. */
  lemma {:induction false} PostCallsOnly<W, Resp, E>(post: seq<PostStage<W, Resp, E>>, w: W, resp: Resp)
    ensures var end := RunPost(post, w, resp);
            && |end.trace| <= |post| && (forall i :: 0 <= i < |end.trace| ==> end.trace[i] == Post(post[i].name))
            && (end.result.Ok? ==> |end.trace| == |post|)
            && (end.result.Err? ==>
                  && end.trace != []
                  && var before := RunPost(post[..|end.trace| - 1], w, resp);
                  && before.result.Ok?
                  && post[|end.trace| - 1].run(before.world, before.result.value) == (end.world, end.result))
  {
    if post != [] {
      var (w', r) := post[0].run(w, resp);
      if r.Ok? {
        PostCallsOnly(post[1..], w', r.value);
        var m := |RunPost(post, w, resp).trace|;
        if m > 1 {
          assert post[..m - 1][1..] == post[1..][..m - 2] && post[..m - 1][0] == post[0];
        }
      }
    }
  }

  /** With a leaf router: it is called exactly when every pre stage continues; and when there is a response, be it
      the router's or a short-circuit's, post-middleware runs on it. */
  lemma RouterRunsIffAllContinue<W, Req, Resp, E>(pre: seq<PreStage<W, Req, Resp, E>>, name: string,
                                                  handler: (W, Req) -> (W, Result<Resp, E>),
                                                  post: seq<PostStage<W, Resp, E>>, w: W, req: Req)
    ensures var before, end := RunPre(pre, w, req), Outcome(Stages(pre, Leaf(name, handler), post), w, req);
            && (Routes(end.trace) <==> before.result.Ok? && before.result.value.Continue?)
            && (before.result.Ok? && before.result.value.ShortCircuit? ==>
                  end == After(before.trace, RunPost(post, before.world, before.result.value.resp)))
            && (before.result.Err? ==> end.trace == before.trace && end.result == Err(before.result.error))
  {
    var before := RunPre(pre, w, req);
    PreCallsOnly(pre, w, req);
    var dispatched := Dispatch(before, Leaf(name, handler));
    if dispatched.result.Ok? {
      PostCallsOnly(post, dispatched.world, dispatched.result.value);
    }
    if before.result.Ok? && before.result.value.Continue? {
      assert dispatched.trace[|before.trace|] == Route(name);
      assert AndPost(dispatched, post).trace[|before.trace|] == Route(name);
    }
  }

  // ---- What is handed on ----------------------------------------------------------------------------

  /** The worlds and the values that stages hand on, from the ones they start with. */
  datatype Path<W, T> = Path(worlds: seq<W>, values: seq<T>) {
    /** From world w and value x, through n stages. */
    ghost predicate Starts(w: W, x: T, n: nat) {
      |worlds| == |values| == n + 1 && worlds[0] == w && values[0] == x
    }
  }

  ghost predicate PreNames<W, Req, Resp, E>(trace: seq<Call>, pre: seq<PreStage<W, Req, Resp, E>>, n: nat) {
    n == |trace| <= |pre| && forall i :: 0 <= i < n ==> trace[i] == Pre(pre[i].name)
  }

  /** The first n stages continue, each with what the one before made of the request; then there are no more stages,
      or the next one ends it. */
  ghost predicate PreGoes<W, Req, Resp, E>(pre: seq<PreStage<W, Req, Resp, E>>, w: W, req: Req, path: Path<W, Req>,
                                           n: nat, end: End<W, Action<Req, Resp>, E>) {
    && n <= |pre| && path.Starts(w, req, n)
    && (forall i :: 0 <= i < n ==>
          pre[i].run(path.worlds[i], path.values[i]) == (path.worlds[i + 1], Ok(Continue(path.values[i + 1]))))
    && if n == |pre|
       then end.world == path.worlds[n] && end.result == Ok(Continue(path.values[n])) && PreNames(end.trace, pre, n)
       else
         && pre[n].run(path.worlds[n], path.values[n]) == (end.world, end.result)
         && (end.result.Err? || end.result.value.ShortCircuit?) && PreNames(end.trace, pre, n + 1)
  }

  ghost predicate PostNames<W, Resp, E>(trace: seq<Call>, post: seq<PostStage<W, Resp, E>>, n: nat) {
    n == |trace| <= |post| && forall i :: 0 <= i < n ==> trace[i] == Post(post[i].name)
  }

  /** The first n stages succeed, each on what the one before made of the response; then there are no more stages, or
      the next one fails. */
  ghost predicate PostGoes<W, Resp, E>(post: seq<PostStage<W, Resp, E>>, w: W, resp: Resp, path: Path<W, Resp>, n: nat,
                                       end: End<W, Resp, E>) {
    && n <= |post| && path.Starts(w, resp, n)
    && (forall i :: 0 <= i < n ==>
          post[i].run(path.worlds[i], path.values[i]) == (path.worlds[i + 1], Ok(path.values[i + 1])))
    && if n == |post|
       then end.world == path.worlds[n] && end.result == Ok(path.values[n]) && PostNames(end.trace, post, n)
       else
         post[n].run(path.worlds[n], path.values[n]) == (end.world, end.result) && end.result.Err?
         && PostNames(end.trace, post, n + 1)
  }

  lemma {:induction false} PreHandsOn<W, Req, Resp, E>(pre: seq<PreStage<W, Req, Resp, E>>, w: W, req: Req)
    returns (path: Path<W, Req>, n: nat)
    ensures PreGoes(pre, w, req, path, n, RunPre(pre, w, req))
  {
    path, n := Path([w], [req]), 0;
    if pre != [] {
      var (w', r) := pre[0].run(w, req);
      if r.Ok? && r.value.Continue? {
        var rest, m := PreHandsOn(pre[1..], w', r.value.req);
        path, n := Path([w] + rest.worlds, [req] + rest.values), m + 1;
        forall i | 0 <= i < n
          ensures pre[i].run(path.worlds[i], path.values[i]) == (path.worlds[i + 1], Ok(Continue(path.values[i + 1])))
        {
          assert i > 0 ==> pre[i] == pre[1..][i - 1];
        }
      }
    }
  }

  lemma {:induction false} PostHandsOn<W, Resp, E>(post: seq<PostStage<W, Resp, E>>, w: W, resp: Resp)
    returns (path: Path<W, Resp>, n: nat)
    ensures PostGoes(post, w, resp, path, n, RunPost(post, w, resp))
  {
    path, n := Path([w], [resp]), 0;
    if post != [] {
      var (w', r) := post[0].run(w, resp);
      if r.Ok? {
        var rest, m := PostHandsOn(post[1..], w', r.value);
        path, n := Path([w] + rest.worlds, [resp] + rest.values), m + 1;
        forall i | 0 <= i < n
          ensures post[i].run(path.worlds[i], path.values[i]) == (path.worlds[i + 1], Ok(path.values[i + 1]))
        {
          assert i > 0 ==> post[i] == post[1..][i - 1];
        }
      }
    }
  }

  /** The response that post-middleware starts from, with the world and the calls so far: that of the short-circuit, or
      the router's answer to the request that pre-middleware handed on. */
  ghost predicate Answered<W, Req, Resp, E>(before: End<W, Action<Req, Resp>, E>, router: Router<W, Req, Resp, E>,
                                            w: W, trace: seq<Call>, answer: Result<Resp, E>) {
    match before.result
    case Err(e) => w == before.world && trace == before.trace && answer == Err(e)
    case Ok(ShortCircuit(resp)) => w == before.world && trace == before.trace && answer == Ok(resp)
    case Ok(Continue(req)) =>
      var routed := router(before.world, req);
      w == routed.world && trace == before.trace + routed.trace && answer == routed.result
  }

  /** A whole run: how pre-middleware ends, the answer to that, and what post-middleware makes of the answer. */
  lemma OutcomeHandsOn<W, Req, Resp, E>(p: Stages<W, Req, Resp, E>, w: W, req: Req)
    returns (before: End<W, Action<Req, Resp>, E>, prePath: Path<W, Req>, n: nat,
             w': W, trace: seq<Call>, answer: Result<Resp, E>,
             after: End<W, Resp, E>, postPath: Path<W, Resp>, m: nat)
    ensures PreGoes(p.pre, w, req, prePath, n, before)
    ensures Answered(before, p.router, w', trace, answer)
    ensures answer.Err? ==> Outcome(p, w, req) == End(w', trace, answer)
    ensures answer.Ok? ==> PostGoes(p.post, w', answer.value, postPath, m, after)
                           && Outcome(p, w, req) == End(after.world, trace + after.trace, after.result)
  {
    before := RunPre(p.pre, w, req);
    prePath, n := PreHandsOn(p.pre, w, req);
    var dispatched := Dispatch(before, p.router);
    w', trace, answer := dispatched.world, dispatched.trace, dispatched.result;
    after, postPath, m := dispatched, Path([w], []), 0;
    if answer.Ok? {
      after := RunPost(p.post, w', answer.value);
      postPath, m := PostHandsOn(p.post, w', answer.value);
    }
  }
}
