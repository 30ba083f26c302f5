/** What wakes a waiting claim (crates/agentd/src/daemon.rs, `wait_for_release`): it sleeps until
    a lease that overlaps what it wants ends, or a wait does. Whether that is enough, over the
    daemon's steps and over whole runs. */
module Wakeups {
  import opened ResourceKeys
  import opened Leases
  import opened WaitQueues
  import opened Arbiter
  import opened Fairness

  /** What the daemon announces of a step, by the resource it is about. */
  datatype Event =
    | LeaseClaimed(resource: string) | LeaseRenewed(resource: string) | LeaseReleased(resource: string) | LeaseExpired(resource: string)
    | LeaseTransferred(resource: string) | LeaseWaiting(resource: string) | LeaseWaitEnded(resource: string)

  ghost function Expiries(t: Table, now: Time): set<Event> {
    set k | k in t && t[k].IsExpired(now) :: LeaseExpired(t[k].resource)
  }

  ghost function Endings(ws: seq<Waiter>, left: seq<Waiter>): set<Event> {
    set w | w in ws && w !in left :: LeaseWaitEnded(w.resource)
  }

  ghost function Grant(req: Request, r: Claimed): Event {
    if r.New? then LeaseClaimed(req.resource) else LeaseRenewed(req.resource)
  }

  /** Every attempt and renewal announces what has expired by then; a grant at a turn ends the
      wait; a wait that is taken up announces itself and those ended for it; what is let go is
      announced piece by piece; a handoff announces transfers. */
  ghost function Announced(s: State, s': State, step: Step): set<Event> {
    match step
    case TriesFirst(req, now, _, r) => Expiries(s.leases, now) + {Grant(req, r)}
    case TakesTurn(w, req, now, _, r) => Expiries(s.leases, now) + {Grant(req, r), LeaseWaitEnded(w.resource)}
    case StartsWaiting(left, w, now) => Expiries(s.leases, now) + Endings(s.queue.waiters, left) + {LeaseWaiting(w.resource)}
    case LetsGo =>
      (set k | k in s.leases && k !in s'.leases :: LeaseReleased(s.leases[k].resource)) + Endings(s.queue.waiters, s'.queue.waiters)
    case Renews(id, _, now) => Expiries(s.leases, now) + (if id in s.leases then {LeaseRenewed(s.leases[id].resource)} else {})
    case HandsOver(from, _, ids, now) => set k | k in Offered(s.leases, from, ids, now) :: LeaseTransferred(s.leases[k].resource)
  }

  /** `wait_for_release` comes back for the event. */
  predicate Hears(mine: Waiter, e: Event) {
    (e.LeaseReleased? || e.LeaseExpired? || e.LeaseWaitEnded?) && Overlaps(e.resource, mine.resource)
  }

  ghost predicate Woken(s: State, s': State, step: Step, mine: Waiter) {
    exists e <- Announced(s, s', step) :: Hears(mine, e)
  }

  // ----- What keeps a waiter waiting -----

  /** A lease is in its way, or a waiter in front of it is. */
  ghost predicate Stalled(s: State, mine: Waiter) {
    Barred(s.leases, mine) || InFront(s.queue.waiters, mine) != {}
  }

  /** The step hands the waiter's own agent every lease in its way, and nobody is in front. */
  ghost predicate HandsItAll(s: State, step: Step, mine: Waiter) {
    && step.HandsOver? && step.to == mine.agent && InFront(s.queue.waiters, mine) == {}
    && forall k <- s.leases :: Blocking(s.leases, k, mine) ==> k in Offered(s.leases, step.from, step.ids, step.now)
  }

  // ----- One step -----

  lemma HandoffFreesExactlyWhen(s: State, s': State, step: Step, mine: Waiter)
    requires Takes(s, s', step) && step.HandsOver? && Stalled(s, mine)
    ensures Stalled(s', mine) <==> !HandsItAll(s, step, mine)
  {
    var moving := Offered(s.leases, step.from, step.ids, step.now);
    forall k <- s.leases
      ensures k in s'.leases && (Blocking(s.leases, k, mine) ==> (Blocking(s'.leases, k, mine) <==> !(k in moving && step.to == mine.agent)))
      ensures step.to == mine.agent && Blocking(s'.leases, k, mine) ==> Blocking(s.leases, k, mine)
    {
    }
    if HandsItAll(s, step, mine) {
      assert forall k <- s'.leases :: !Blocking(s'.leases, k, mine);
    } else if InFront(s.queue.waiters, mine) == {} {
      var k :| k in s.leases && Blocking(s.leases, k, mine) && (step.to == mine.agent ==> k !in moving);
      assert Blocking(s'.leases, k, mine);
    }
  }

  lemma GrantLeaves(t: Table, t': Table, req: Request, now: Time, id: LeaseId, r: Claimed, k: LeaseId)
    requires Grants(t, t', req, now, id, r) && k in t && !t[k].IsExpired(now)
    ensures k in t' && t'[k].holder == t[k].holder && t'[k].resource == t[k].resource && t'[k].mode == t[k].mode
  {
    assert k in Live(t, now);
  }

  /** A lease that no longer bars the waiter has been announced to it. */
  lemma LeaseGoneIsHeard(s: State, s': State, step: Step, mine: Waiter, k: LeaseId)
    requires Takes(s, s', step) && !step.HandsOver? && k in s.leases && Blocking(s.leases, k, mine)
    requires !Barred(s'.leases, mine)
    ensures Woken(s, s', step, mine)
  {
    var resource := s.leases[k].resource;
    assert !(k in s'.leases && Blocking(s'.leases, k, mine));
    match step
    case LetsGo =>
      assert k !in s'.leases;
      assert LeaseReleased(resource) in Announced(s, s', step) && Hears(mine, LeaseReleased(resource));
    case TriesFirst(req, now, id, r) =>
      if !s.leases[k].IsExpired(now) {
        GrantLeaves(s.leases, s'.leases, req, now, id, r, k);
      }
      assert LeaseExpired(resource) in Announced(s, s', step) && Hears(mine, LeaseExpired(resource));
    case TakesTurn(_, req, now, id, r) =>
      if !s.leases[k].IsExpired(now) {
        GrantLeaves(s.leases, s'.leases, req, now, id, r, k);
      }
      assert LeaseExpired(resource) in Announced(s, s', step) && Hears(mine, LeaseExpired(resource));
    case StartsWaiting(_, _, now) =>
      assert s.leases[k].IsExpired(now);
      assert LeaseExpired(resource) in Announced(s, s', step) && Hears(mine, LeaseExpired(resource));
    case Renews(_, _, now) =>
      assert s.leases[k].IsExpired(now);
      assert LeaseExpired(resource) in Announced(s, s', step) && Hears(mine, LeaseExpired(resource));
  }

  /** So has a waiter that is no longer in front of it. */
  lemma WaiterGoneIsHeard(s: State, s': State, step: Step, mine: Waiter, w: Waiter)
    requires ValidQueue(s.queue) && Takes(s, s', step) && !step.HandsOver?
    requires w in s.queue.waiters && w.InTheWayOf(mine) && w !in s'.queue.waiters
    ensures Woken(s, s', step, mine)
  {
    match step
    case TakesTurn(v, _, _, _, _) =>
      RemoveKeepsOrder(s.queue.waiters, v.ticket);
      assert LeaseWaitEnded(w.resource) in Announced(s, s', step) && Hears(mine, LeaseWaitEnded(w.resource));
    case StartsWaiting(left, v, _) =>
      assert w !in left;
      assert LeaseWaitEnded(w.resource) in Announced(s, s', step) && Hears(mine, LeaseWaitEnded(w.resource));
    case LetsGo =>
      assert LeaseWaitEnded(w.resource) in Announced(s, s', step) && Hears(mine, LeaseWaitEnded(w.resource));
    case _ =>
  }

  /** A step that clears the last thing in a waiter's way wakes it, exactly unless it is a handoff
      to the waiter's own agent. */
  lemma ClearedIsWokenExactlyUnless(s: State, s': State, step: Step, mine: Waiter)
    requires ValidQueue(s.queue) && Takes(s, s', step) && Stalled(s, mine) && !Stalled(s', mine)
    ensures Woken(s, s', step, mine) <==> !(step.HandsOver? && step.to == mine.agent)
  {
    if step.HandsOver? {
      HandoffFreesExactlyWhen(s, s', step, mine);
    } else if Barred(s.leases, mine) {
      var k :| k in s.leases && Blocking(s.leases, k, mine);
      LeaseGoneIsHeard(s, s', step, mine, k);
    } else {
      var t :| t in InFront(s.queue.waiters, mine);
      var w :| w in s.queue.waiters && w.AheadOf(mine) && w.InTheWayOf(mine) && w.ticket == t;
      assert w !in s'.queue.waiters by {
        assert t !in InFront(s'.queue.waiters, mine);
      }
      WaiterGoneIsHeard(s, s', step, mine, w);
    }
  }

  /** So one that sleeps through a step is still held up after it, exactly unless it was handed
      everything in its way: a condition on the state before. */
  lemma StaysStalledExactlyWhen(s: State, s': State, step: Step, mine: Waiter)
    requires ValidQueue(s.queue) && Takes(s, s', step) && Stalled(s, mine) && !Woken(s, s', step, mine)
    ensures Stalled(s', mine) <==> !HandsItAll(s, step, mine)
  {
    if step.HandsOver? {
      HandoffFreesExactlyWhen(s, s', step, mine);
    } else if !Stalled(s', mine) {
      ClearedIsWokenExactlyUnless(s, s', step, mine);
    }
  }

  lemma ExpiryIsAnEnd(s: State, s': State, step: Step, e: Event) returns (k: LeaseId)
    requires Takes(s, s', step) && e in Announced(s, s', step) && (e.LeaseExpired? || e.LeaseReleased?)
    ensures k in s.leases && k !in s'.leases && e.resource == s.leases[k].resource
  {
    if step.LetsGo? {
      k :| k in s.leases && k !in s'.leases && e.resource == s.leases[k].resource;
    } else {
      k :| k in s.leases && e.resource == s.leases[k].resource && ExpiredBy(step, s.leases[k]);
      ExpiredIsGone(s, s', step, k);
    }
  }

  lemma EndingIsAnEnd(s: State, s': State, step: Step, e: Event) returns (w: Waiter)
    requires ValidQueue(s.queue) && Takes(s, s', step) && e in Announced(s, s', step) && e.LeaseWaitEnded?
    ensures w in s.queue.waiters && w !in s'.queue.waiters && e.resource == w.resource
  {
    if step.TakesTurn? {
      w := step.waiter;
      RemoveKeepsOrder(s.queue.waiters, w.ticket);
    } else if step.StartsWaiting? {
      w :| w in s.queue.waiters && w !in step.left && e.resource == w.resource;
      NotTakenBack(s, s', step, w);
    } else {
      w :| w in s.queue.waiters && w !in s'.queue.waiters && e.resource == w.resource;
    }
  }

  /** Nothing wakes a waiter but the end of a lease or of a wait that overlaps what it wants. */
  lemma WokenByWhatEnds(s: State, s': State, step: Step, mine: Waiter)
    requires ValidQueue(s.queue) && Takes(s, s', step) && Woken(s, s', step, mine)
    ensures || (exists k <- s.leases :: k !in s'.leases && Overlaps(s.leases[k].resource, mine.resource))
            || (exists w <- s.queue.waiters :: w !in s'.queue.waiters && Overlaps(w.resource, mine.resource))
  {
    var e :| e in Announced(s, s', step) && Hears(mine, e);
    if e.LeaseWaitEnded? {
      var w := EndingIsAnEnd(s, s', step, e);
    } else {
      var k := ExpiryIsAnEnd(s, s', step, e);
    }
  }

  ghost predicate ExpiredBy(step: Step, l: Lease) {
    !step.LetsGo? && !step.HandsOver? && l.IsExpired(step.now)
  }

  lemma ExpiredIsGone(s: State, s': State, step: Step, k: LeaseId)
    requires Takes(s, s', step) && k in s.leases && ExpiredBy(step, s.leases[k])
    ensures k !in s'.leases
  {
    assert k !in Live(s.leases, step.now);
  }

  lemma NotTakenBack(s: State, s': State, step: Step, w: Waiter)
    requires ValidQueue(s.queue) && Takes(s, s', step) && step.StartsWaiting? && w in s.queue.waiters && w !in step.left
    ensures w !in s'.queue.waiters
  {
    assert w.ticket != step.waiter.ticket;
  }

  // ----- Every run -----

  /** From state `from` to state `k` nothing wakes the waiter. */
  ghost predicate Sleeps(run: seq<State>, steps: seq<Step>, mine: Waiter, from: nat, k: nat)
    requires from <= k < |run| && k <= |steps|
  {
    from < k ==> Sleeps(run, steps, mine, from, k - 1) && !Woken(run[k - 1], run[k], steps[k - 1], mine)
  }

  ghost predicate StalledTo(run: seq<State>, mine: Waiter, from: nat, k: nat)
    requires from <= k < |run|
  {
    Stalled(run[k], mine) && (from < k ==> StalledTo(run, mine, from, k - 1))
  }

  /** Nobody hands its agent everything in its way. */
  ghost predicate NoGift(run: seq<State>, steps: seq<Step>, mine: Waiter, from: nat, k: nat)
    requires from <= k < |run| && k <= |steps|
  {
    from < k ==> NoGift(run, steps, mine, from, k - 1) && !HandsItAll(run[k - 1], steps[k - 1], mine)
  }

  /** No wake-up is lost, over every run of the daemon: for as long as a waiter sleeps it is held
      up, exactly when nobody has handed its own agent everything in its way. */
  lemma {:induction false} SleepsOnlyWhileStalledExactlyWhen(run: seq<State>, steps: seq<Step>, mine: Waiter, from: nat, k: nat)
    requires from <= k < |run| && k <= |steps| && Run(run, steps, k)
    requires Stalled(run[from], mine) && Sleeps(run, steps, mine, from, k)
    ensures StalledTo(run, mine, from, k) <==> NoGift(run, steps, mine, from, k)
  {
    if from < k {
      SleepsOnlyWhileStalledExactlyWhen(run, steps, mine, from, k - 1);
      if StalledTo(run, mine, from, k - 1) {
        RunQueueIsValid(run, steps, k - 1);
        StaysStalledExactlyWhen(run[k - 1], run[k], steps[k - 1], mine);
      }
    }
  }
}
