/** Who can come to stand in a waiter's way, over the daemon's steps and over whole runs
    (crates/agentd/src/daemon/leases.rs, waiting.rs). */
module Fairness {
  import opened Wrappers
  import opened ResourceKeys
  import opened Leases
  import opened WaitQueues
  import opened Arbiter

  /** A lease that was not in the waiter's way before is now. */
  ghost predicate NewlyBlocks(t: Table, t': Table, mine: Waiter) {
    exists k <- t' :: Blocking(t', k, mine) && !(k in t && Blocking(t, k, mine))
  }

  predicate Blocking(t: Table, k: LeaseId, mine: Waiter)
    requires k in t
  {
    t[k].Blocks(mine.agent, mine.mode, mine.resource)
  }

  /** Some lease is in the waiter's way. */
  ghost predicate Barred(t: Table, mine: Waiter) {
    exists k <- t :: Blocking(t, k, mine)
  }

  /** What is asked for excludes what the waiter waits for. */
  predicate Excludes(req: Request, mine: Waiter) {
    req.holder != mine.agent && Overlaps(req.resource, mine.resource) && (req.mode == Exclusive || mine.mode == Exclusive)
  }

  /** A lease of the waiter's own agent, in the way of what it waits for, goes to another. */
  ghost predicate GivesAway(s: State, step: Step, mine: Waiter) {
    && step.HandsOver? && step.from == mine.agent && step.to != mine.agent
    && exists k <- Offered(s.leases, step.from, step.ids, step.now) ::
         Overlaps(s.leases[k].resource, mine.resource) && (s.leases[k].mode == Exclusive || mine.mode == Exclusive)
  }

  ghost predicate GrantsNew(step: Step) { (step.TriesFirst? || step.TakesTurn?) && step.r.New? }

  lemma GrantNewlyBlocks(t: Table, t': Table, req: Request, now: Time, id: LeaseId, r: Claimed, mine: Waiter)
    requires Grants(t, t', req, now, id, r)
    ensures NewlyBlocks(t, t', mine) <==> r.New? && Excludes(req, mine)
  {
    if r.New? {
      assert id in t' && t'[id] == Fresh(id, req, now);
      if Excludes(req, mine) {
        assert Blocking(t', id, mine);
      }
      forall k <- t' | k != id
        ensures k in t && t[k] == t'[k]
      {
        assert k in Live(t, now);
      }
    } else {
      var live := Live(t, now);
      var own :| own in live && Same(live[own], req) && r.lease == Extend(live[own], req, now) && t' == live[own := r.lease];
      forall k <- t'
        ensures k in t && (Blocking(t', k, mine) ==> Blocking(t, k, mine))
      {
        assert k in live;
      }
    }
  }

  lemma HandoffNewlyBlocks(s: State, s': State, step: Step, mine: Waiter)
    requires step.HandsOver? && Takes(s, s', step)
    ensures NewlyBlocks(s.leases, s'.leases, mine) <==> GivesAway(s, step, mine)
  {
    var moving := Offered(s.leases, step.from, step.ids, step.now);
    forall k <- s'.leases
      ensures k in s.leases
      ensures Blocking(s'.leases, k, mine) && !Blocking(s.leases, k, mine) <==>
              k in moving && step.from == mine.agent && step.to != mine.agent
              && Overlaps(s.leases[k].resource, mine.resource) && (s.leases[k].mode == Exclusive || mine.mode == Exclusive)
    {
    }
    if GivesAway(s, step, mine) {
      var k :| k in moving && Overlaps(s.leases[k].resource, mine.resource) && (s.leases[k].mode == Exclusive || mine.mode == Exclusive);
      assert k in s'.leases && Blocking(s'.leases, k, mine) && !Blocking(s.leases, k, mine);
    }
  }

  /** A step puts a lease in a waiter's way exactly when it grants a new one that excludes it, or
      hands away one of the waiter's own agent. */
  lemma NewlyBlocksExactlyWhen(s: State, s': State, step: Step, mine: Waiter)
    requires Takes(s, s', step)
    ensures NewlyBlocks(s.leases, s'.leases, mine) <==> (GrantsNew(step) && Excludes(step.req, mine)) || GivesAway(s, step, mine)
  {
    match step
    case TriesFirst(req, now, id, r) => GrantNewlyBlocks(s.leases, s'.leases, req, now, id, r, mine);
    case TakesTurn(_, req, now, id, r) => GrantNewlyBlocks(s.leases, s'.leases, req, now, id, r, mine);
    case HandsOver(_, _, _, _) => HandoffNewlyBlocks(s, s', step, mine);
    case _ =>
  }

  /** A turn never takes what somebody in front of it waits for: whoever it puts a lease in the
      way of was behind it, and is then no longer behind it. */
  lemma TurnTakesFromBehind(s: State, s': State, step: Step, mine: Waiter)
    requires ValidQueue(s.queue) && Takes(s, s', step) && step.TakesTurn? && mine in s.queue.waiters
    requires NewlyBlocks(s.leases, s'.leases, mine)
    ensures step.waiter.ticket in InFront(s.queue.waiters, mine) && step.waiter.ticket !in InFront(s'.queue.waiters, mine)
  {
    var w := step.waiter;
    NewlyBlocksExactlyWhen(s, s', step, mine);
    OverlapIsSymmetric(w.resource, mine.resource);
    OneIsAhead(s.queue.waiters, w, mine);
    assert mine.ticket !in InFront(s.queue.waiters, w);
    RemoveKeepsOrder(s.queue.waiters, w.ticket);
  }

  lemma OneIsAhead(ws: seq<Waiter>, a: Waiter, b: Waiter)
    requires Ordered(ws) && a in ws && b in ws && a != b
    ensures a.AheadOf(b) || b.AheadOf(a)
  {
    var i :| 0 <= i < |ws| && ws[i] == a;
    var j :| 0 <= j < |ws| && ws[j] == b;
  }

  /** A lease comes to stand in a waiter's way without going to somebody in front of it. */
  ghost predicate Overtakes(s: State, s': State, step: Step, mine: Waiter) {
    && NewlyBlocks(s.leases, s'.leases, mine)
    && !(step.TakesTurn? && step.waiter.ticket in InFront(s.queue.waiters, mine))
  }

  /** A waiter is overtaken exactly by a first attempt that is granted a new lease excluding it,
      or by a handoff of its own agent's lease: never by a turn, a wait, a renewal or a release. */
  lemma OvertakenExactlyWhen(s: State, s': State, step: Step, mine: Waiter)
    requires ValidQueue(s.queue) && Takes(s, s', step) && mine in s.queue.waiters
    ensures Overtakes(s, s', step, mine) <==> (step.TriesFirst? && step.r.New? && Excludes(step.req, mine)) || GivesAway(s, step, mine)
  {
    NewlyBlocksExactlyWhen(s, s', step, mine);
    if step.TakesTurn? && NewlyBlocks(s.leases, s'.leases, mine) {
      TurnTakesFromBehind(s, s', step, mine);
    }
  }

  // ----- Over whole runs -----

  /** The step joins nobody of a higher priority, and does not overtake. */
  ghost predicate Patient(s: State, step: Step, mine: Waiter) {
    && (step.StartsWaiting? ==> step.waiter.priority <= mine.priority)
    && !(step.TriesFirst? && step.r.New? && Excludes(step.req, mine))
    && !GivesAway(s, step, mine)
  }

  lemma FewerInFront(ws: seq<Waiter>, of: seq<Waiter>, mine: Waiter)
    requires forall w <- ws :: w in of
    ensures InFront(ws, mine) <= InFront(of, mine)
  {
  }

  lemma FrontDwindles(s: State, s': State, step: Step, mine: Waiter)
    requires ValidQueue(s.queue) && Takes(s, s', step) && Patient(s, step, mine)
    requires mine in s.queue.waiters && mine in s'.queue.waiters
    ensures InFront(s'.queue.waiters, mine) <= InFront(s.queue.waiters, mine)
  {
    match step
    case TakesTurn(w, _, _, _, _) =>
      RemoveKeepsOrder(s.queue.waiters, w.ticket);
      FewerInFront(s'.queue.waiters, s.queue.waiters, mine);
    case StartsWaiting(left, w, _) =>
      InsertKeepsOrder(left, w);
      assert mine in left;
      JoinMovesBackExactly(left, w, mine);
      FewerInFront(left, s.queue.waiters, mine);
    case LetsGo => FewerInFront(s'.queue.waiters, s.queue.waiters, mine);
    case _ =>
  }

  /** Those in front are no more, and one fewer when a lease comes to stand in the way. */
  ghost predicate Dwindles(s: State, s': State, mine: Waiter) {
    && InFront(s'.queue.waiters, mine) <= InFront(s.queue.waiters, mine)
    && |InFront(s'.queue.waiters, mine)| + (if NewlyBlocks(s.leases, s'.leases, mine) then 1 else 0) <= |InFront(s.queue.waiters, mine)|
  }

  lemma OneFewerInFront(s: State, s': State, step: Step, mine: Waiter)
    requires ValidQueue(s.queue) && Takes(s, s', step) && Patient(s, step, mine)
    requires mine in s.queue.waiters && mine in s'.queue.waiters
    ensures Dwindles(s, s', mine)
  {
    var before, after := InFront(s.queue.waiters, mine), InFront(s'.queue.waiters, mine);
    FrontDwindles(s, s', step, mine);
    OvertakenExactlyWhen(s, s', step, mine);
    if NewlyBlocks(s.leases, s'.leases, mine) {
      TurnTakesFromBehind(s, s', step, mine);
      Cardinality(after, before - {step.waiter.ticket});
    } else {
      Cardinality(after, before);
    }
  }

  lemma {:induction false} Cardinality(a: set<Ticket>, b: set<Ticket>)
    requires a <= b
    ensures |a| <= |b|
  {
    if a != {} {
      var x :| x in a;
      Cardinality(a - {x}, b - {x});
    }
  }

  /** How often a lease came to stand in the waiter's way between states `from` and `k`. */
  ghost function TimesBlocked(run: seq<State>, mine: Waiter, from: nat, k: nat): nat
    requires from <= k < |run|
    decreases k
  {
    if k == from then 0
    else TimesBlocked(run, mine, from, k - 1) + if NewlyBlocks(run[k - 1].leases, run[k].leases, mine) then 1 else 0
  }

  /** From state `from` to state `k` the waiter waits, and every step is patient with it. */
  ghost predicate WaitsPatiently(run: seq<State>, steps: seq<Step>, mine: Waiter, from: nat, k: nat)
    requires from <= k < |run| && k <= |steps|
    decreases k
  {
    && mine in run[k].queue.waiters
    && (from < k ==> WaitsPatiently(run, steps, mine, from, k - 1) && Patient(run[k - 1], steps[k - 1], mine))
  }

  /** Fairness over every run of the daemon: for as long as a waiter waits, nobody of a higher
      priority joins, and no first attempt or handoff overtakes it, those in front of it only
      dwindle, and it is put off at most once for each of them. */
  lemma {:induction false} PutOffAtMostByThoseInFront(run: seq<State>, steps: seq<Step>, mine: Waiter, from: nat, k: nat)
    requires from <= k < |run| && k <= |steps| && Run(run, steps, k) && WaitsPatiently(run, steps, mine, from, k)
    ensures InFront(run[k].queue.waiters, mine) <= InFront(run[from].queue.waiters, mine)
    ensures TimesBlocked(run, mine, from, k) + |InFront(run[k].queue.waiters, mine)| <= |InFront(run[from].queue.waiters, mine)|
    decreases k
  {
    if from < k {
      PutOffAtMostByThoseInFront(run, steps, mine, from, k - 1);
      RunQueueIsValid(run, steps, k - 1);
      OneFewerInFront(run[k - 1], run[k], steps[k - 1], mine);
    }
  }
}
