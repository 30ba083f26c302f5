/** Everything a waiter can wait for: the holder of what it wants, and whoever is in front of it
    in the queue. What closes a loop of these, and what being free of loops means
    (crates/core/src/wait.rs, crates/agentd/src/daemon/waiting.rs). */
module HeldUp {
  import opened Wrappers
  import opened Leases
  import opened WaitQueues
  import opened Rings
  import opened Arbiter

  // ----- Loops of any relation between waiters -----

  type Edge = (Waiter, Waiter) -> bool

  function After(i: nat, n: nat): nat { if i + 1 < n then i + 1 else 0 }

  ghost predicate Loop(path: seq<Waiter>, nodes: set<Waiter>, edge: Edge) {
    && path != []
    && (forall i :: 0 <= i < |path| ==> path[i] in nodes)
    && (forall i :: 0 <= i < |path| ==> edge(path[i], path[After(i, |path|)]))
  }

  ghost predicate NoLoop(nodes: set<Waiter>, edge: Edge) {
    forall path :: !Loop(path, nodes, edge)
  }

  lemma LoopTurns(path: seq<Waiter>, nodes: set<Waiter>, edge: Edge, i: nat)
    requires Loop(path, nodes, edge) && i < |path|
    ensures Loop(path[i..] + path[..i], nodes, edge) && (path[i..] + path[..i])[0] == path[i]
  {
    var turned, n := path[i..] + path[..i], |path|;
    forall k | 0 <= k < n
      ensures turned[k] in nodes && edge(turned[k], turned[After(k, n)])
    {
      var at := if k < n - i then i + k else k - (n - i);
      assert turned[k] == path[at] && turned[After(k, n)] == path[After(at, n)];
    }
  }

  lemma FewerEdgesNoLoop(nodes: set<Waiter>, edge: Edge, nodes': set<Waiter>, edge': Edge)
    requires NoLoop(nodes, edge) && nodes' <= nodes
    requires forall w, o :: w in nodes' && o in nodes' && edge'(w, o) ==> edge(w, o)
    ensures NoLoop(nodes', edge')
  {
    forall path: seq<Waiter>
      ensures !Loop(path, nodes', edge')
    {
      assert !Loop(path, nodes, edge);
      if Loop(path, nodes', edge') {
        LoopWidens(path, nodes, edge, nodes', edge');
      }
    }
  }

  lemma LoopWidens(path: seq<Waiter>, nodes: set<Waiter>, edge: Edge, nodes': set<Waiter>, edge': Edge)
    requires Loop(path, nodes', edge') && (forall i :: 0 <= i < |path| ==> path[i] in nodes)
    requires forall i :: 0 <= i < |path| && edge'(path[i], path[After(i, |path|)]) ==> edge(path[i], path[After(i, |path|)])
    ensures Loop(path, nodes, edge)
  {
  }

  /** A change that only touches what leads to the waiters in `touched` makes a loop exactly when
      one goes through one of them. */
  lemma LoopsThroughTouched(nodes: set<Waiter>, edge: Edge, nodes': set<Waiter>, edge': Edge, touched: set<Waiter>)
    requires NoLoop(nodes, edge) && nodes' <= nodes + touched
    requires forall w, o :: w in nodes' && o in nodes' && w !in touched && o !in touched && edge'(w, o) ==> edge(w, o)
    ensures NoLoop(nodes', edge') <==> forall path :: Loop(path, nodes', edge') ==> path[0] !in touched
  {
    if forall path :: Loop(path, nodes', edge') ==> path[0] !in touched {
      forall path: seq<Waiter>
        ensures !Loop(path, nodes', edge')
      {
        assert !Loop(path, nodes, edge);
        if Loop(path, nodes', edge') {
          LoopAvoids(path, nodes', edge', touched);
          LoopWidens(path, nodes, edge, nodes', edge');
        }
      }
    }
  }

  lemma LoopAvoids(path: seq<Waiter>, nodes: set<Waiter>, edge: Edge, touched: set<Waiter>)
    requires Loop(path, nodes, edge) && forall other :: Loop(other, nodes, edge) ==> other[0] !in touched
    ensures forall i :: 0 <= i < |path| ==> path[i] !in touched
  {
    forall i | 0 <= i < |path|
      ensures path[i] !in touched
    {
      LoopTurns(path, nodes, edge, i);
    }
  }

  // ----- Nobody waits only for one another -----

  ghost predicate HeldWithin(edge: Edge, stuck: set<Waiter>, w: Waiter) {
    exists o <- stuck :: edge(w, o)
  }

  /** A way that never meets itself, each step held up by the next. */
  ghost predicate Way(path: seq<Waiter>, nodes: set<Waiter>, edge: Edge) {
    && path != []
    && (forall i :: 0 <= i < |path| ==> path[i] in nodes)
    && (forall i :: 0 <= i < |path| - 1 ==> edge(path[i], path[i + 1]))
  }

  lemma WayClosesLoop(path: seq<Waiter>, nodes: set<Waiter>, edge: Edge, j: nat)
    requires Way(path, nodes, edge) && j < |path| && edge(path[|path| - 1], path[j])
    ensures Loop(path[j..], nodes, edge)
  {
    var loop := path[j..];
    forall i | 0 <= i < |loop|
      ensures loop[i] in nodes && edge(loop[i], loop[After(i, |loop|)])
    {
      assert loop[i] == path[j + i];
    }
  }

  lemma WayGrows(path: seq<Waiter>, nodes: set<Waiter>, edge: Edge, next: Waiter)
    requires Way(path, nodes, edge) && next in nodes && edge(path[|path| - 1], next)
    ensures Way(path + [next], nodes, edge)
  {
  }

  lemma {:induction false} WayEnds(path: seq<Waiter>, stuck: set<Waiter>, edge: Edge, off: set<Waiter>) returns (free: Waiter)
    requires NoLoop(stuck, edge) && Way(path, stuck, edge)
    requires forall w :: w in off <==> w in stuck && w !in path
    ensures free in stuck && !HeldWithin(edge, stuck, free)
    decreases off
  {
    free := path[|path| - 1];
    if HeldWithin(edge, stuck, free) {
      var o :| o in stuck && edge(free, o);
      if j :| 0 <= j < |path| && path[j] == o {
        WayClosesLoop(path, stuck, edge, j);
      } else {
        WayGrows(path, stuck, edge, o);
        free := WayEnds(path + [o], stuck, edge, off - {o});
      }
    }
  }

  /** Where there is no loop, some member of any set of waiters is held up by nobody in it. */
  lemma SomeoneIsFree(nodes: set<Waiter>, edge: Edge, stuck: set<Waiter>) returns (free: Waiter)
    requires NoLoop(nodes, edge) && stuck <= nodes && stuck != {}
    ensures free in stuck && !HeldWithin(edge, stuck, free)
  {
    FewerEdgesNoLoop(nodes, edge, stuck, edge);
    var w :| w in stuck;
    free := WayEnds([w], stuck, edge, stuck - {w});
  }

  // ----- What holds a waiter up -----

  /** `o` keeps `w` waiting: its agent holds something `w` wants, or it is in front of `w`. */
  ghost predicate HoldsUp(t: Table, w: Waiter, o: Waiter) {
    || Stops(Holdings(t), o.agent, w.agent, w.resource)
    || (o.AheadOf(w) && o.InTheWayOf(w))
  }

  ghost function EdgeOf(t: Table): Edge {
    (w: Waiter, o: Waiter) => HoldsUp(t, w, o)
  }

  ghost function Nodes(s: State): set<Waiter> {
    set w | w in s.queue.waiters
  }

  /** Nobody is held up, by leases or by the queue, in a loop. */
  ghost predicate Flows(s: State) {
    NoLoop(Nodes(s), EdgeOf(s.leases))
  }

  /** The waiters that a step puts in somebody's way. */
  ghost function Touched(s': State, step: Step): set<Waiter> {
    match step
    case TriesFirst(req, _, _, _) => set w | w in s'.queue.waiters && w.agent == req.holder
    case TakesTurn(_, req, _, _, _) => set w | w in s'.queue.waiters && w.agent == req.holder
    case StartsWaiting(_, w, _) => {w}
    case HandsOver(_, to, _, _) => set w | w in s'.queue.waiters && w.agent == to
    case _ => {}
  }

  /** No loop goes through one of them. */
  ghost predicate KeepsFlowing(s': State, step: Step) {
    forall path :: Loop(path, Nodes(s'), EdgeOf(s'.leases)) ==> path[0] !in Touched(s', step)
  }

  lemma StopsLess(t: Table, t': Table, agent: AgentId, w: Waiter, o: Waiter)
    requires OnlyGains(t, t', agent) && o.agent != agent && HoldsUp(t', w, o)
    ensures HoldsUp(t, w, o)
  {
    if Stops(Holdings(t'), o.agent, w.agent, w.resource) {
      var h :| h in Held(t') && h.1 == o.agent && Holdings(t').meets(h.0, w.resource);
      var k :| k in t' && (t'[k].resource, t'[k].holder) == h;
      assert h in Held(t);
      assert Stops(Holdings(t), o.agent, w.agent, w.resource);
    }
  }

  lemma FewerStops(t: Table, t': Table, w: Waiter, o: Waiter)
    requires (forall id <- t' :: id in t && t'[id].resource == t[id].resource && t'[id].holder == t[id].holder) && HoldsUp(t', w, o)
    ensures HoldsUp(t, w, o)
  {
    if Stops(Holdings(t'), o.agent, w.agent, w.resource) {
      var h :| h in Held(t') && h.1 == o.agent && Holdings(t').meets(h.0, w.resource);
      TableKeepsHoldings(t, t');
      assert h in Holdings(t).held;
    }
  }

  lemma StepTouches(s: State, s': State, step: Step, w: Waiter, o: Waiter)
    requires Takes(s, s', step) && w in Nodes(s') && o in Nodes(s') && o !in Touched(s', step) && HoldsUp(s'.leases, w, o)
    ensures HoldsUp(s.leases, w, o)
  {
    match step
    case TriesFirst(req, now, id, r) =>
      GrantOnlyGains(s.leases, s'.leases, req, now, id, r);
      StopsLess(s.leases, s'.leases, req.holder, w, o);
    case TakesTurn(_, req, now, id, r) =>
      GrantOnlyGains(s.leases, s'.leases, req, now, id, r);
      StopsLess(s.leases, s'.leases, req.holder, w, o);
    case HandsOver(_, to, _, _) => StopsLess(s.leases, s'.leases, to, w, o);
    case _ => FewerStops(s.leases, s'.leases, w, o);
  }

  lemma NodesAfter(s: State, s': State, step: Step)
    requires ValidQueue(s.queue) && Takes(s, s', step)
    ensures Nodes(s') <= Nodes(s) + Touched(s', step)
  {
    match step
    case TakesTurn(w, _, _, _, _) => RemoveKeepsOrder(s.queue.waiters, w.ticket);
    case StartsWaiting(left, w, _) => InsertKeepsOrder(left, w);
    case _ =>
  }

  /** Whatever the daemon does next makes a loop exactly when one goes through a waiter it
      touches: the newcomer of a wait, or the other waits of an agent given a lease. */
  lemma FlowKeptExactlyWhen(s: State, s': State, step: Step)
    requires ValidQueue(s.queue) && Flows(s) && Takes(s, s', step)
    ensures Flows(s') <==> KeepsFlowing(s', step)
  {
    NodesAfter(s, s', step);
    var edge, edge' := EdgeOf(s.leases), EdgeOf(s'.leases);
    forall w, o | w in Nodes(s') && o in Nodes(s') && w !in Touched(s', step) && o !in Touched(s', step) && edge'(w, o)
      ensures edge(w, o)
    {
      StepTouches(s, s', step, w, o);
    }
    LoopsThroughTouched(Nodes(s), edge, Nodes(s'), edge', Touched(s', step));
  }

  /** In particular a wait keeps the queue free of loops exactly when none goes through it. */
  lemma WaitKeepsFlowExactlyWhen(s: State, s': State, step: Step)
    requires ValidQueue(s.queue) && Flows(s) && Takes(s, s', step) && step.StartsWaiting?
    ensures Flows(s') <==> forall path :: Loop(path, Nodes(s'), EdgeOf(s'.leases)) ==> path[0] != step.waiter
  {
    FlowKeptExactlyWhen(s, s', step);
  }

  // ----- Loops and rings -----

  lemma {:induction false} PickWaiters(cycle: seq<Blocked>, ws: seq<Waiter>, n: nat) returns (path: seq<Waiter>)
    requires n <= |cycle| && forall i :: 0 <= i < n ==> (cycle[i].agent, cycle[i].resource) in Waits(ws)
    ensures |path| == n && forall i :: 0 <= i < n ==> path[i] in ws && path[i].agent == cycle[i].agent && path[i].resource == cycle[i].resource
  {
    if n == 0 {
      path := [];
    } else {
      var most := PickWaiters(cycle, ws, n - 1);
      assert (cycle[n - 1].agent, cycle[n - 1].resource) in Waits(ws);
      var w :| w in ws && (w.agent, w.resource) == (cycle[n - 1].agent, cycle[n - 1].resource);
      path := most + [w];
    }
  }

  lemma RingMakesLoop(s: State, w: Wait, cycle: seq<Blocked>) returns (path: seq<Waiter>)
    requires w in Waits(s.queue.waiters) && Ring(cycle, w.0, w.1, Holdings(s.leases), Waits(s.queue.waiters))
    ensures Loop(path, Nodes(s), EdgeOf(s.leases))
  {
    path := PickWaiters(cycle, s.queue.waiters, |cycle|);
    forall i | 0 <= i < |path|
      ensures HoldsUp(s.leases, path[i], path[After(i, |path|)])
    {
      assert Stops(Holdings(s.leases), cycle[i].heldBy, cycle[i].agent, cycle[i].resource);
    }
  }

  /** A queue free of loops is free of rings; the other way does not hold. */
  lemma NoLoopIsNoRing(s: State)
    requires Flows(s)
    ensures Acyclic(Holdings(s.leases), Waits(s.queue.waiters))
  {
    forall w, cycle: seq<Blocked> | w in Waits(s.queue.waiters)
      ensures !Ring(cycle, w.0, w.1, Holdings(s.leases), Waits(s.queue.waiters))
    {
      if Ring(cycle, w.0, w.1, Holdings(s.leases), Waits(s.queue.waiters)) {
        var path := RingMakesLoop(s, w, cycle);
      }
    }
  }

  // ----- Over whole runs -----

  /** No step closes a loop through a waiter it touches. */
  ghost predicate FlowsTo(run: seq<State>, steps: seq<Step>, k: nat)
    requires k < |run| && k <= |steps|
  {
    k > 0 ==> FlowsTo(run, steps, k - 1) && KeepsFlowing(run[k], steps[k - 1])
  }

  ghost predicate AllFlow(run: seq<State>, k: nat)
    requires k < |run|
  {
    Flows(run[k]) && (k > 0 ==> AllFlow(run, k - 1))
  }

  lemma StartFlows()
    ensures Flows(START)
  {
    forall path: seq<Waiter>
      ensures !Loop(path, Nodes(START), EdgeOf(START.leases))
    {
      assert path != [] ==> path[0] !in Nodes(START);
    }
  }

  /** The queue is free of loops at every point of a run exactly when no step of it closes one
      through a waiter it touches. */
  lemma {:induction false} EveryRunFlowsExactlyWhen(run: seq<State>, steps: seq<Step>, k: nat)
    requires k < |run| && k <= |steps| && Run(run, steps, k)
    ensures AllFlow(run, k) <==> FlowsTo(run, steps, k)
  {
    if k == 0 {
      StartFlows();
    } else {
      EveryRunFlowsExactlyWhen(run, steps, k - 1);
      RunQueueIsValid(run, steps, k - 1);
      if Flows(run[k - 1]) {
        FlowKeptExactlyWhen(run[k - 1], run[k], steps[k - 1]);
      }
    }
  }

  /** And then at no point does a set of waiters wait only for one another, whether for leases or
      for their turn. */
  lemma NobodyWaitsInCircles(run: seq<State>, steps: seq<Step>, k: nat, stuck: set<Waiter>) returns (free: Waiter)
    requires k < |run| && k <= |steps| && Run(run, steps, k) && FlowsTo(run, steps, k)
    requires stuck != {} && stuck <= Nodes(run[k])
    ensures free in stuck && forall o <- stuck :: !HoldsUp(run[k].leases, free, o)
  {
    EveryRunFlowsExactlyWhen(run, steps, k);
    free := SomeoneIsFree(Nodes(run[k]), EdgeOf(run[k].leases), stuck);
    forall o | o in stuck
      ensures !HoldsUp(run[k].leases, free, o)
    {
      assert !EdgeOf(run[k].leases)(free, o);
    }
  }
}
