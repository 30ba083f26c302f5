/** The daemon's lease arbiter: the table and the queue under one lock
    (crates/agentd/src/daemon/leases.rs, waiting.rs, recovery.rs), and what every run of
    it keeps. */
module Arbiter {
  import opened Wrappers
  import opened ResourceKeys
  import opened Leases
  import opened WaitQueues
  import opened Rings
  import opened Deadlocks

  datatype State = State(leases: Table, queue: Queue)

  const START := State(map[], Queue([], 0))

  ghost function Held(t: Table): set<Holding> {
    set id | id in t :: (t[id].resource, t[id].holder)
  }

  ghost function Holdings(t: Table): Ground {
    Ground(Held(t), Overlaps)
  }

  ghost function Waits(ws: seq<Waiter>): set<Wait> {
    set w | w in ws :: (w.agent, w.resource)
  }

  ghost predicate IsWaiting(ws: seq<Waiter>, agent: AgentId) {
    exists w <- ws :: w.agent == agent
  }

  /** The arbiter's promise: leases exclude, the queue is one order, and no wait is in a ring. */
  ghost predicate Inv(s: State) {
    && Exclusion(s.leases)
    && ValidQueue(s.queue)
    && Acyclic(Holdings(s.leases), Waits(s.queue.waiters))
  }

  function WaitList(ws: seq<Waiter>): (waits: seq<Wait>)
    ensures |waits| == |ws| && forall i :: 0 <= i < |ws| ==> waits[i] == (ws[i].agent, ws[i].resource)
  {
    seq(|ws|, i requires 0 <= i < |ws| => (ws[i].agent, ws[i].resource))
  }

  lemma WaitListIsWaits(ws: seq<Waiter>)
    ensures SetOf(WaitList(ws)) == Waits(ws)
  {
    var waits := WaitList(ws);
    forall x | x in Waits(ws)
      ensures x in waits
    {
      var i :| 0 <= i < |ws| && (ws[i].agent, ws[i].resource) == x;
      assert waits[i] == x;
    }
  }

  // ----- The steps, each taken in one hold of the lock -----

  datatype Step =
    | TriesFirst(req: Request, now: Time, id: LeaseId, r: Claimed)
    | TakesTurn(waiter: Waiter, req: Request, now: Time, id: LeaseId, r: Claimed)
    | StartsWaiting(left: seq<Waiter>, waiter: Waiter, now: Time)
    | LetsGo
    | Renews(id: LeaseId, ttl: int, now: Time)
    | HandsOver(from: AgentId, to: AgentId, ids: set<LeaseId>, now: Time)

  ghost predicate SubQueue(ws: seq<Waiter>, of: seq<Waiter>) {
    Ordered(ws) && forall w <- ws :: w in of
  }

  /** A lease given or renewed; a new one has a new id. */
  ghost predicate Grants(t: Table, t': Table, req: Request, now: Time, id: LeaseId, r: Claimed) {
    !r.Refused? && ClaimStep(t, req, now, id, t', r) && id !in t
  }

  /** The search before a wait finds nothing among the waits it follows. */
  ghost predicate SearchIsClear(t: Table, ws: seq<Waiter>, agent: AgentId, resource: string) {
    forall cycle :: !Ring(cycle, agent, resource, Holdings(t), Followed(LastWaits(WaitList(ws))))
  }

  /** What the daemon does, with no more checks than it makes: a first attempt takes no turn; a
      waiter whose turn it is gives up its place with the grant; a claim that conflicts waits
      once its search is clear, the waits in its way ended; leases expire and waits end; a
      lease is extended; the leases a handoff offers change hands. */
  ghost predicate Takes(s: State, s': State, step: Step) {
    match step
    case TriesFirst(req, now, id, r) =>
      s'.queue == s.queue && Grants(s.leases, s'.leases, req, now, id, r)
    case TakesTurn(w, req, now, id, r) =>
      && w in s.queue.waiters && InFront(s.queue.waiters, w) == {}
      && w.agent == req.holder && w.resource == req.resource && (req.mode == w.mode || req.mode == Shared)
      && s'.queue == Queue(Removed(s.queue.waiters, w.ticket), s.queue.next)
      && Grants(s.leases, s'.leases, req, now, id, r)
    case StartsWaiting(left, w, now) =>
      && s'.leases == Live(s.leases, now)
      && SubQueue(left, s.queue.waiters) && SearchIsClear(s'.leases, left, w.agent, w.resource)
      && w.ticket == s.queue.next
      && s'.queue == Queue(Inserted(left, w), s.queue.next + 1)
    case LetsGo =>
      && (forall id <- s'.leases :: id in s.leases && s'.leases[id] == s.leases[id])
      && s'.queue.next == s.queue.next && SubQueue(s'.queue.waiters, s.queue.waiters)
    case Renews(id, ttl, now) =>
      var live := Live(s.leases, now);
      s'.queue == s.queue && id in live && s'.leases == live[id := live[id].(expiresAt := now + ttl)]
    case HandsOver(from, to, ids, now) =>
      s'.queue == s.queue && s'.leases == Moved(s.leases, Offered(s.leases, from, ids, now), to, now)
  }

  ghost predicate Next(s: State, s': State) {
    exists step :: Takes(s, s', step)
  }

  // ----- When a step keeps the promise -----

  /** No wait of the agent is in a ring. */
  ghost predicate NotCaught(s: State, agent: AgentId) {
    forall w, cycle :: w in Waits(s.queue.waiters) && w.0 == agent ==> !Ring(cycle, w.0, w.1, Holdings(s.leases), Waits(s.queue.waiters))
  }

  /** What would have to be checked: that an agent given a lease is not caught by its own other
      waits, that a wait closes no ring among all waits, and that a handoff strands nothing. */
  ghost predicate IsSafe(s: State, s': State, step: Step) {
    match step
    case TriesFirst(req, _, _, _) => NotCaught(s', req.holder)
    case TakesTurn(_, req, _, _, _) => NotCaught(s', req.holder)
    case StartsWaiting(left, w, _) => forall cycle :: !Ring(cycle, w.agent, w.resource, Holdings(s'.leases), Waits(left))
    case LetsGo => true
    case Renews(_, _, _) => true
    case HandsOver(from, to, ids, now) => StrandsNothing(s, step) && NotCaught(s', to)
  }

  /** A handoff leaves nothing of the giver's in the way of what it gives. */
  ghost predicate StrandsNothing(s: State, step: Step) {
    step.HandsOver? ==> step.from == step.to || NothingStranded(s.leases, step.from, step.ids, step.now)
  }

  /** Leases exclude after a step exactly when it strands nothing: no other step can break it. */
  lemma ExclusionKeptExactlyWhen(s: State, s': State, step: Step)
    requires Exclusion(s.leases) && Takes(s, s', step)
    ensures Exclusion(s'.leases) <==> StrandsNothing(s, step)
  {
    match step
    case TriesFirst(req, now, id, r) => ClaimKeepsExclusion(s.leases, req, now, id, s'.leases, r);
    case TakesTurn(_, req, now, id, r) => ClaimKeepsExclusion(s.leases, req, now, id, s'.leases, r);
    case StartsWaiting(_, _, _) => FewerLeasesKeepExclusion(s.leases, s'.leases);
    case LetsGo => FewerLeasesKeepExclusion(s.leases, s'.leases);
    case Renews(_, _, _) =>
    case HandsOver(from, to, ids, now) => TransferSelectedIsSafeExactlyWhen(s.leases, from, to, ids, now);
  }

  lemma QueueStaysValid(s: State, s': State, step: Step)
    requires ValidQueue(s.queue) && Takes(s, s', step)
    ensures ValidQueue(s'.queue)
  {
    match step
    case TakesTurn(w, _, _, _, _) => RemoveKeepsOrder(s.queue.waiters, w.ticket);
    case StartsWaiting(left, w, _) => InsertKeepsOrder(left, w);
    case _ =>
  }

  lemma TableKeepsHoldings(t: Table, t': Table)
    requires forall id <- t' :: id in t && t'[id].resource == t[id].resource && t'[id].holder == t[id].holder
    ensures Held(t') <= Held(t)
  {
  }

  lemma SubQueueWaits(ws: seq<Waiter>, of: seq<Waiter>)
    requires SubQueue(ws, of)
    ensures Waits(ws) <= Waits(of)
  {
  }

  /** Only one agent comes to hold more. */
  ghost predicate OnlyGains(t: Table, t': Table, agent: AgentId) {
    forall k <- t' :: t'[k].holder != agent ==> k in t && t'[k].resource == t[k].resource && t'[k].holder == t[k].holder
  }

  lemma GainDecides(s: State, s': State, agent: AgentId)
    requires Acyclic(Holdings(s.leases), Waits(s.queue.waiters)) && Waits(s'.queue.waiters) <= Waits(s.queue.waiters)
    requires OnlyGains(s.leases, s'.leases, agent)
    ensures Acyclic(Holdings(s'.leases), Waits(s'.queue.waiters)) <==> NotCaught(s', agent)
  {
    var h, h', w' := Holdings(s.leases), Holdings(s'.leases), Waits(s'.queue.waiters);
    FewerEdgesStayAcyclic(h, Waits(s.queue.waiters), h, w');
    forall x <- h'.held | x.1 != agent
      ensures x in h.held
    {
      var k :| k in s'.leases && (s'.leases[k].resource, s'.leases[k].holder) == x;
      assert k in s.leases;
    }
    GainIsSafeExactlyWhen(h, h', w', agent);
  }

  lemma GrantOnlyGains(t: Table, t': Table, req: Request, now: Time, id: LeaseId, r: Claimed)
    requires Grants(t, t', req, now, id, r)
    ensures OnlyGains(t, t', req.holder)
  {
  }

  lemma InsertWaits(ws: seq<Waiter>, w: Waiter)
    requires Ordered(ws) && forall x <- ws :: x.ticket < w.ticket
    ensures Waits(Inserted(ws, w)) == Waits(ws) + {(w.agent, w.resource)}
  {
    InsertKeepsOrder(ws, w);
  }

  lemma RingsAfterWaiting(s: State, s': State, left: seq<Waiter>, w: Waiter, now: Time)
    requires Inv(s) && Takes(s, s', StartsWaiting(left, w, now))
    ensures Acyclic(Holdings(s'.leases), Waits(s'.queue.waiters)) <==> IsSafe(s, s', StartsWaiting(left, w, now))
  {
    SubQueueWaits(left, s.queue.waiters);
    TableKeepsHoldings(s.leases, s'.leases);
    FewerEdgesStayAcyclic(Holdings(s.leases), Waits(s.queue.waiters), Holdings(s'.leases), Waits(left));
    JoinIsSafeExactlyWhen(Holdings(s'.leases), Waits(left), w.agent, w.resource);
    InsertWaits(left, w);
  }

  /** A step closes no ring exactly when what it would have to check holds. */
  lemma RingsKeptExactlyWhen(s: State, s': State, step: Step)
    requires Inv(s) && Takes(s, s', step) && StrandsNothing(s, step)
    ensures Acyclic(Holdings(s'.leases), Waits(s'.queue.waiters)) <==> IsSafe(s, s', step)
  {
    match step
    case TriesFirst(req, now, id, r) =>
      GrantOnlyGains(s.leases, s'.leases, req, now, id, r);
      GainDecides(s, s', req.holder);
    case TakesTurn(w, req, now, id, r) =>
      RemoveKeepsOrder(s.queue.waiters, w.ticket);
      GrantOnlyGains(s.leases, s'.leases, req, now, id, r);
      GainDecides(s, s', req.holder);
    case StartsWaiting(left, w, now) => RingsAfterWaiting(s, s', left, w, now);
    case LetsGo =>
      SubQueueWaits(s'.queue.waiters, s.queue.waiters);
      TableKeepsHoldings(s.leases, s'.leases);
      FewerEdgesStayAcyclic(Holdings(s.leases), Waits(s.queue.waiters), Holdings(s'.leases), Waits(s'.queue.waiters));
    case Renews(_, _, _) =>
      TableKeepsHoldings(s.leases, s'.leases);
      FewerEdgesStayAcyclic(Holdings(s.leases), Waits(s.queue.waiters), Holdings(s'.leases), Waits(s'.queue.waiters));
    case HandsOver(_, to, _, _) => GainDecides(s, s', to);
  }

  /** Whatever the daemon does next keeps the promise exactly when it is safe. */
  lemma StepIsSafeExactlyWhen(s: State, s': State, step: Step)
    requires Inv(s) && Takes(s, s', step)
    ensures Inv(s') <==> IsSafe(s, s', step)
  {
    ExclusionKeptExactlyWhen(s, s', step);
    QueueStaysValid(s, s', step);
    if StrandsNothing(s, step) {
      RingsKeptExactlyWhen(s, s', step);
    }
  }

  /** A grant keeps the promise exactly when no other wait of the holder is then in a ring. */
  lemma GrantIsSafeExactlyWhen(s: State, s': State, step: Step)
    requires Inv(s) && Takes(s, s', step) && (step.TriesFirst? || step.TakesTurn?)
    ensures Inv(s') <==> NotCaught(s', step.req.holder)
  {
    StepIsSafeExactlyWhen(s, s', step);
  }

  /** A handoff keeps it exactly when it strands nothing and catches no wait of the receiver. */
  lemma HandoffIsSafeExactlyWhen(s: State, s': State, step: Step)
    requires Inv(s) && Takes(s, s', step) && step.HandsOver?
    ensures Inv(s') <==> StrandsNothing(s, step) && NotCaught(s', step.to)
  {
    StepIsSafeExactlyWhen(s, s', step);
  }

  // ----- Whole runs -----

  /** A run of `k` steps from the start: the states, and the steps between them. */
  ghost predicate Run(run: seq<State>, steps: seq<Step>, k: nat)
    requires k < |run| && k <= |steps|
  {
    if k == 0 then run[0] == START
    else Run(run, steps, k - 1) && Takes(run[k - 1], run[k], steps[k - 1])
  }

  /** Some run ends here. */
  ghost predicate Reachable(s: State) {
    exists run, steps :: IsRun(run, steps) && run[|steps|] == s
  }

  ghost predicate IsRun(run: seq<State>, steps: seq<Step>) {
    |run| == |steps| + 1 && Run(run, steps, |steps|)
  }

  lemma {:induction false} RunGoesOn(run: seq<State>, steps: seq<Step>, s: State, step: Step, k: nat)
    requires k < |run| && k <= |steps| && Run(run, steps, k)
    ensures Run(run + [s], steps + [step], k)
  {
    if k > 0 {
      RunGoesOn(run, steps, s, step, k - 1);
    }
  }

  lemma RunIsLonger(run: seq<State>, steps: seq<Step>, s: State, step: Step)
    requires IsRun(run, steps) && Takes(run[|steps|], s, step)
    ensures IsRun(run + [s], steps + [step])
  {
    RunGoesOn(run, steps, s, step, |steps|);
    var run', steps' := run + [s], steps + [step];
    assert run'[|steps|] == run[|steps|] && run'[|steps'|] == s && steps'[|steps|] == step;
  }

  lemma ReachesNext(s: State, s': State, step: Step)
    requires Reachable(s) && Takes(s, s', step)
    ensures Reachable(s')
  {
    var run, steps :| IsRun(run, steps) && run[|steps|] == s;
    RunIsLonger(run, steps, s', step);
    var steps' := steps + [step];
    assert (run + [s'])[|steps'|] == s';
  }

  /** All its steps are safe. */
  ghost predicate SafeTo(run: seq<State>, steps: seq<Step>, k: nat)
    requires k < |run| && k <= |steps|
  {
    k > 0 ==> SafeTo(run, steps, k - 1) && IsSafe(run[k - 1], run[k], steps[k - 1])
  }

  /** The promise holds all along. */
  ghost predicate InvTo(run: seq<State>, k: nat)
    requires k < |run|
  {
    Inv(run[k]) && (k > 0 ==> InvTo(run, k - 1))
  }

  lemma StartIsSafe()
    ensures Inv(START)
  {
    assert Waits(START.queue.waiters) == {};
  }

  lemma {:induction false} RunQueueIsValid(run: seq<State>, steps: seq<Step>, k: nat)
    requires k < |run| && k <= |steps| && Run(run, steps, k)
    ensures ValidQueue(run[k].queue)
  {
    if k > 0 {
      RunQueueIsValid(run, steps, k - 1);
      QueueStaysValid(run[k - 1], run[k], steps[k - 1]);
    }
  }

  /** The promise holds at every point of a run exactly when every step of it is safe. */
  lemma {:induction false} EveryRunIsSafeExactlyWhen(run: seq<State>, steps: seq<Step>, k: nat)
    requires k < |run| && k <= |steps| && Run(run, steps, k)
    ensures InvTo(run, k) <==> SafeTo(run, steps, k)
  {
    if k == 0 {
      StartIsSafe();
    } else {
      EveryRunIsSafeExactlyWhen(run, steps, k - 1);
      if Inv(run[k - 1]) {
        StepIsSafeExactlyWhen(run[k - 1], run[k], steps[k - 1]);
      }
    }
  }

  /** So after any run of safe steps no set of waiting agents waits only for leases of one
      another. */
  lemma NoRunDeadlocks(run: seq<State>, steps: seq<Step>, k: nat, stuck: set<Wait>)
    requires k < |run| && k <= |steps| && Run(run, steps, k) && SafeTo(run, steps, k)
    requires stuck != {} && stuck <= Waits(run[k].queue.waiters)
    ensures exists w <- stuck :: !StoppedWithin(Holdings(run[k].leases), stuck, w)
  {
    EveryRunIsSafeExactlyWhen(run, steps, k);
    NoMutualWait(Holdings(run[k].leases), Waits(run[k].queue.waiters), stuck);
  }

  /** Its handoffs strand nothing. */
  ghost predicate StrandsNothingTo(run: seq<State>, steps: seq<Step>, k: nat)
    requires k < |run| && k <= |steps|
  {
    k > 0 ==> StrandsNothingTo(run, steps, k - 1) && StrandsNothing(run[k - 1], steps[k - 1])
  }

  lemma {:induction false} RunExcludes(run: seq<State>, steps: seq<Step>, k: nat)
    requires k < |run| && k <= |steps| && Run(run, steps, k) && StrandsNothingTo(run, steps, k)
    ensures Exclusion(run[k].leases)
  {
    if k > 0 {
      RunExcludes(run, steps, k - 1);
      ExclusionKeptExactlyWhen(run[k - 1], run[k], steps[k - 1]);
    }
  }

  /** After any run whose handoffs strand nothing, no two agents have leases over one path, one
      of them exclusive. */
  lemma NoRunSharesAWrittenPath(run: seq<State>, steps: seq<Step>, k: nat, path: seq<string>, i: LeaseId, j: LeaseId)
    requires k < |run| && k <= |steps| && Run(run, steps, k) && StrandsNothingTo(run, steps, k)
    requires i in run[k].leases && j in run[k].leases
    requires Kind(run[k].leases[i].resource) == Kind(run[k].leases[j].resource)
    requires Covers(run[k].leases[i].resource, path) && Covers(run[k].leases[j].resource, path)
    requires run[k].leases[i].mode == Exclusive
    ensures run[k].leases[i].holder == run[k].leases[j].holder
  {
    RunExcludes(run, steps, k);
    OneWriterPerPath(run[k].leases, path, i, j);
  }

  // ----- Agents that wait for one thing at a time -----

  ghost predicate WaitsOnce(ws: seq<Waiter>) {
    forall i, j :: 0 <= i < j < |ws| ==> ws[i].agent != ws[j].agent
  }

  /** Nobody does anything else while it waits: a claim, a second wait, or taking a handoff. */
  ghost predicate SingleMinded(s: State, step: Step) {
    match step
    case TriesFirst(req, _, _, _) => !IsWaiting(s.queue.waiters, req.holder)
    case StartsWaiting(_, w, _) => !IsWaiting(s.queue.waiters, w.agent)
    case HandsOver(_, to, _, _) => !IsWaiting(s.queue.waiters, to) && StrandsNothing(s, step)
    case _ => true
  }

  lemma RemovedAt(ws: seq<Waiter>, ticket: Ticket, i: nat)
    requires i < |Removed(ws, ticket)|
    ensures |Removed(ws, ticket)| <= |ws|
    ensures Removed(ws, ticket)[i] == if i < IndexOf(ws, ticket) then ws[i] else ws[i + 1]
  {
  }

  lemma RemovedWaitsOnce(ws: seq<Waiter>, w: Waiter)
    requires Ordered(ws) && WaitsOnce(ws) && w in ws
    ensures WaitsOnce(Removed(ws, w.ticket)) && !IsWaiting(Removed(ws, w.ticket), w.agent)
  {
    var gone := Removed(ws, w.ticket);
    forall i, j | 0 <= i < j < |gone|
      ensures gone[i].agent != gone[j].agent
    {
      RemovedAt(ws, w.ticket, i);
      RemovedAt(ws, w.ticket, j);
    }
    RemoveKeepsOrder(ws, w.ticket);
    forall o | o in gone
      ensures o.agent != w.agent
    {
      var i, j :| 0 <= i < |ws| && ws[i] == o && 0 <= j < |ws| && ws[j] == w;
      assert i != j;
    }
  }

  lemma InsertedWaitsOnce(ws: seq<Waiter>, w: Waiter)
    requires Ordered(ws) && WaitsOnce(ws) && !IsWaiting(ws, w.agent) && forall x <- ws :: x.ticket < w.ticket
    ensures WaitsOnce(Inserted(ws, w))
  {
    var ws' := Inserted(ws, w);
    forall i, j | 0 <= i < j < |ws'|
      ensures ws'[i].agent != ws'[j].agent
    {
      InsertedAt(ws, w, i);
      InsertedAt(ws, w, j);
    }
  }

  lemma SubQueueWaitsOnce(ws: seq<Waiter>, of: seq<Waiter>)
    requires SubQueue(ws, of) && Ordered(of) && WaitsOnce(of)
    ensures WaitsOnce(ws)
  {
    forall i, j | 0 <= i < j < |ws|
      ensures ws[i].agent != ws[j].agent
    {
      assert ws[i] in of && ws[j] in of && ws[i].ticket != ws[j].ticket;
      var m :| 0 <= m < |of| && of[m] == ws[i];
      var n :| 0 <= n < |of| && of[n] == ws[j];
    }
  }

  /** Then the waits followed are all the waits, and the search the daemon makes is enough. */
  lemma SearchIsEnough(t: Table, ws: seq<Waiter>, agent: AgentId, resource: string)
    requires WaitsOnce(ws) && SearchIsClear(t, ws, agent, resource)
    ensures forall cycle :: !Ring(cycle, agent, resource, Holdings(t), Waits(ws))
  {
    NoRingIsNoRing(agent, resource, Holdings(t), WaitList(ws));
    WaitListIsWaits(ws);
  }

  /** Every step of such agents is safe with no more checks than the daemon makes. */
  lemma SingleMindedIsSafe(s: State, s': State, step: Step)
    requires Inv(s) && WaitsOnce(s.queue.waiters) && Takes(s, s', step) && SingleMinded(s, step)
    ensures IsSafe(s, s', step) && WaitsOnce(s'.queue.waiters)
  {
    match step
    case TakesTurn(w, _, _, _, _) => RemovedWaitsOnce(s.queue.waiters, w);
    case StartsWaiting(left, w, _) =>
      SubQueueWaitsOnce(left, s.queue.waiters);
      SearchIsEnough(s'.leases, left, w.agent, w.resource);
      InsertedWaitsOnce(left, w);
    case LetsGo => SubQueueWaitsOnce(s'.queue.waiters, s.queue.waiters);
    case _ =>
  }

  ghost predicate SingleMindedTo(run: seq<State>, steps: seq<Step>, k: nat)
    requires k < |run| && k <= |steps|
  {
    k > 0 ==> SingleMindedTo(run, steps, k - 1) && SingleMinded(run[k - 1], steps[k - 1])
  }

  /** So every run of agents that wait for one thing at a time keeps the promise throughout. */
  lemma {:induction false} SingleMindedRunsAreSafe(run: seq<State>, steps: seq<Step>, k: nat)
    requires k < |run| && k <= |steps| && Run(run, steps, k) && SingleMindedTo(run, steps, k)
    ensures SafeTo(run, steps, k) && Inv(run[k]) && WaitsOnce(run[k].queue.waiters)
  {
    if k == 0 {
      StartIsSafe();
    } else {
      SingleMindedRunsAreSafe(run, steps, k - 1);
      SingleMindedIsSafe(run[k - 1], run[k], steps[k - 1]);
      StepIsSafeExactlyWhen(run[k - 1], run[k], steps[k - 1]);
    }
  }

  /** Some run of such agents ends here. */
  ghost predicate CalmlyReached(s: State) {
    exists run, steps :: IsCalmRun(run, steps) && run[|steps|] == s
  }

  ghost predicate IsCalmRun(run: seq<State>, steps: seq<Step>) {
    IsRun(run, steps) && SingleMindedTo(run, steps, |steps|)
  }

  lemma {:induction false} SingleMindedGoesOn(run: seq<State>, steps: seq<Step>, s: State, step: Step, k: nat)
    requires k < |run| && k <= |steps| && SingleMindedTo(run, steps, k)
    ensures SingleMindedTo(run + [s], steps + [step], k)
  {
    if k > 0 {
      SingleMindedGoesOn(run, steps, s, step, k - 1);
    }
  }

  lemma CalmRunIsLonger(run: seq<State>, steps: seq<Step>, s: State, step: Step)
    requires IsCalmRun(run, steps) && Takes(run[|steps|], s, step) && SingleMinded(run[|steps|], step)
    ensures IsCalmRun(run + [s], steps + [step])
  {
    RunIsLonger(run, steps, s, step);
    SingleMindedGoesOn(run, steps, s, step, |steps|);
    assert (run + [s])[|steps|] == run[|steps|] && (steps + [step])[|steps|] == step;
  }

  lemma CalmlyReachesNext(s: State, s': State, step: Step)
    requires CalmlyReached(s) && Takes(s, s', step) && SingleMinded(s, step)
    ensures CalmlyReached(s')
  {
    var run, steps :| IsCalmRun(run, steps) && run[|steps|] == s;
    CalmRunIsLonger(run, steps, s', step);
    var steps' := steps + [step];
    assert (run + [s'])[|steps'|] == s';
  }

  lemma StartIsCalmlyReached()
    ensures CalmlyReached(START)
  {
    assert IsCalmRun([START], []);
  }

  lemma CalmlyReachedIsSafe(s: State)
    requires CalmlyReached(s)
    ensures Reachable(s) && Inv(s) && WaitsOnce(s.queue.waiters)
  {
    var run, steps :| IsCalmRun(run, steps) && run[|steps|] == s;
    SingleMindedRunsAreSafe(run, steps, |steps|);
  }

  // ----- The arbiter itself -----

  /** Every lease's resource and holder; the order is the table's. */
  method ListHolders(t: Table) returns (holders: seq<Holding>)
    ensures SetOf(holders) == Held(t)
  {
    holders := [];
    var left := t.Keys;
    while left != {}
      invariant left <= t.Keys
      invariant SetOf(holders) == set id | id in t && id !in left :: (t[id].resource, t[id].holder)
      decreases left
    {
      var id :| id in left;
      ghost var before, was := SetOf(holders), left;
      holders := holders + [(t[id].resource, t[id].holder)];
      left := left - {id};
      assert SetOf(holders) == before + {(t[id].resource, t[id].holder)};
      HoldingsGrow(t, was, id);
    }
  }

  lemma HoldingsGrow(t: Table, left: set<LeaseId>, id: LeaseId)
    requires id in left && id in t
    ensures (set k | k in t && k !in left - {id} :: (t[k].resource, t[k].holder))
         == (set k | k in t && k !in left :: (t[k].resource, t[k].holder)) + {(t[id].resource, t[id].holder)}
  {
  }

  /** A wait ended for a ring: it asked for less than the newcomer, and stood in that ring. */
  ghost predicate EndedFor(w: Waiter, ring: seq<Blocked>, requester: AgentId, priority: int) {
    && w.priority < priority && ring != [] && ring[0].agent == requester
    && exists i :: 0 < i < |ring| && Matches(w, ring[i])
  }

  /** Every wait that is gone was ended, and told which ring it was in. */
  ghost predicate AllEnded(was: seq<Waiter>, ws: seq<Waiter>, broken: map<Ticket, seq<Blocked>>, requester: AgentId, priority: int) {
    forall w <- was :: w !in ws ==> w.ticket in broken && EndedFor(w, broken[w.ticket], requester, priority)
  }

  lemma OneMoreEnded(was: seq<Waiter>, ws: seq<Waiter>, less: seq<Waiter>, broken: map<Ticket, seq<Blocked>>, ticket: Ticket, cycle: seq<Blocked>,
                     requester: AgentId, priority: int)
    requires AllEnded(was, ws, broken, requester, priority) && SubQueue(ws, was) && SubQueue(less, ws)
    requires Ordered(was) && exists w <- ws :: w.ticket == ticket
    requires forall w <- ws :: w in less <==> w.ticket != ticket
    requires forall w <- ws :: w.ticket == ticket ==> EndedFor(w, cycle, requester, priority)
    ensures AllEnded(was, less, broken[ticket := cycle], requester, priority) && SubQueue(less, was)
  {
    var gone :| gone in ws && gone.ticket == ticket;
    forall w | w in was && w !in ws
      ensures w.ticket != ticket
    {
      assert gone in was && w != gone;
    }
  }

  lemma VictimIsEnded(ws: seq<Waiter>, victim: Victim, cycle: seq<Blocked>, requester: AgentId, resource: string, priority: int, holders: Ground, waits: set<Wait>)
    requires Ordered(ws) && victim.ticket.Some? && 0 < victim.step < |cycle|
    requires Ring(cycle, requester, resource, holders, waits)
    requires exists w <- ws :: w.ticket == victim.ticket.value && IsWorst(w, victim.step, cycle, priority, ws)
    ensures SubQueue(Removed(ws, victim.ticket.value), ws)
    ensures exists w <- ws :: w.ticket == victim.ticket.value
    ensures forall w <- ws :: w in Removed(ws, victim.ticket.value) <==> w.ticket != victim.ticket.value
    ensures forall w <- ws :: w.ticket == victim.ticket.value ==> EndedFor(w, cycle, requester, priority)
  {
    RemoveKeepsOrder(ws, victim.ticket.value);
  }

  datatype Outcome = Granted(claimed: Claimed) | Conflict | Queued(ticket: Ticket) | Deadlocked(ring: seq<Blocked>)

  class LeaseArbiter {
    const leases: LeaseTable
    const waiting: WaitQueue

    constructor ()
      ensures fresh(leases) && fresh(waiting) && Valid() && View() == START
    {
      leases := new LeaseTable();
      waiting := new WaitQueue();
    }

    ghost function View(): State
      reads leases, waiting
    {
      State(leases.leases, Queue(waiting.waiters, waiting.nextTicket))
    }

    ghost predicate Valid()
      reads leases, waiting
    {
      waiting.Valid() && Exclusion(leases.leases)
    }

    /** Would waiting for this close a ring? Exact over the waits followed: a ring found is one,
        and none is missed where no agent waits for two things. */
    method RingFor(requester: AgentId, resource: string) returns (r: Option<seq<Blocked>>)
      ensures r.Some? ==> Ring(r.value, requester, resource, Holdings(leases.leases), Waits(waiting.waiters))
      ensures r.None? ==> SearchIsClear(leases.leases, waiting.waiters, requester, resource)
      ensures r.None? && WaitsAgree(WaitList(waiting.waiters)) ==>
                forall cycle :: !Ring(cycle, requester, resource, Holdings(leases.leases), Waits(waiting.waiters))
    {
      var holders := ListHolders(leases.leases);
      WaitListIsWaits(waiting.waiters);
      assert GroundOf(holders, Overlaps) == Holdings(leases.leases);
      r := Deadlock(requester, resource, holders, WaitList(waiting.waiters), Overlaps);
    }

    /** Break every ring the newcomer's wait would close, each at its victim; the ring is
        returned when the newcomer is the victim itself. */
    method BreakRings(requester: AgentId, resource: string, priority: int) returns (r: Option<seq<Blocked>>)
      requires waiting.Valid()
      modifies waiting
      ensures waiting.Valid() && waiting.nextTicket == old(waiting.nextTicket)
      ensures SubQueue(waiting.waiters, old(waiting.waiters))
      ensures r.None? ==> SearchIsClear(leases.leases, waiting.waiters, requester, resource)
      ensures r.Some? ==> Ring(r.value, requester, resource, Holdings(leases.leases), Waits(waiting.waiters))
      ensures r.Some? ==> forall i, w <- waiting.waiters :: 0 < i < |r.value| && Matches(w, r.value[i]) ==> w.priority >= priority
      ensures AllEnded(old(waiting.waiters), waiting.waiters, waiting.broken, requester, priority)
    {
      while true
        invariant waiting.Valid() && waiting.nextTicket == old(waiting.nextTicket)
        invariant SubQueue(waiting.waiters, old(waiting.waiters))
        invariant AllEnded(old(waiting.waiters), waiting.waiters, waiting.broken, requester, priority)
        decreases |waiting.waiters|
      {
        var ring := RingFor(requester, resource);
        if ring.None? {
          return None;
        }
        var cycle := ring.value;
        var victim := ChooseVictim(cycle, priority, waiting.waiters);
        if victim.ticket.None? {
          return Some(cycle);
        }
        VictimIsEnded(waiting.waiters, victim, cycle, requester, resource, priority, Holdings(leases.leases), Waits(waiting.waiters));
        OneMoreEnded(old(waiting.waiters), waiting.waiters, Removed(waiting.waiters, victim.ticket.value), waiting.broken, victim.ticket.value, cycle, requester, priority);
        var ended := waiting.BreakRing(victim.ticket.value, cycle);
      }
    }

    /** Nobody else's live lease is in the way. */
    ghost predicate Clear(req: Request, now: Time)
      reads leases
    {
      forall k <- leases.leases :: !leases.leases[k].IsExpired(now) ==> !leases.leases[k].Blocks(req.holder, req.mode, req.resource)
    }

    /** A waiter with this ticket is at its turn; no ticket needs none. */
    ghost predicate MayTry(ticket: Option<Ticket>)
      reads waiting
    {
      ticket.Some? ==> exists w <- waiting.waiters :: w.ticket == ticket.value && InFront(waiting.waiters, w) == {}
    }

    /** The ticket, if it still waits, is the request's own. */
    ghost predicate Own(ticket: Option<Ticket>, req: Request)
      reads waiting
    {
      ticket.Some? ==> forall w <- waiting.waiters :: w.ticket == ticket.value ==>
        w.agent == req.holder && w.resource == req.resource && (req.mode == w.mode || req.mode == Shared)
    }

    /** The claim itself: a first attempt at once, a waiter only at its turn, and then exactly
        when nothing is in the way. */
    method TryNow(req: Request, ticket: Option<Ticket>, now: Time, id: LeaseId) returns (granted: Option<Claimed>, ghost step: Step)
      requires Valid() && id !in leases.leases && Own(ticket, req)
      modifies leases, waiting
      ensures Valid()
      ensures granted.Some? <==> old(MayTry(ticket)) && old(Clear(req, now))
      ensures granted.Some? ==> Takes(old(View()), View(), step) && (ticket.None? ==> step.TriesFirst?) && (ticket.Some? ==> step.TakesTurn?)
      ensures granted.None? ==> View() == State(Live(old(leases.leases), now), old(View()).queue)
    {
      ghost var s := View();
      granted, step := None, LetsGo;
      if ticket.Some? {
        var next := waiting.IsNext(ticket.value);
        if !next {
          FewerLeasesKeepExclusion(leases.leases, Live(leases.leases, now));
          var _ := leases.Expire(now);
          return;
        }
      }
      var r := leases.ClaimAs(req, now, id);
      RefusedExactlyWhenBlocked(s.leases, req, now, id, leases.leases, r);
      if r.Refused? {
        return;
      }
      if ticket.Some? {
        ghost var at := IndexOf(s.queue.waiters, ticket.value);
        OneHasTicket(s.queue.waiters, ticket.value);
        var _ := waiting.Leave(ticket.value);
        step := TakesTurn(s.queue.waiters[at], req, now, id, r);
      } else {
        step := TriesFirst(req, now, id, r);
      }
      granted := Some(r);
    }

    /** A place in the queue, once the rings it would close are broken. */
    method StartWaiting(req: Request, priority: int, now: Time, ghost s: State) returns (outcome: Outcome, ghost step: Step)
      requires Valid() && View() == State(Live(s.leases, now), s.queue)
      modifies waiting
      ensures Valid() && Takes(s, View(), step)
      ensures outcome.Deadlocked? || outcome.Queued?
      ensures outcome.Deadlocked? ==> step.LetsGo? && Ring(outcome.ring, req.holder, req.resource, Holdings(leases.leases), Waits(waiting.waiters))
      ensures outcome.Queued? ==> step.StartsWaiting? && step.waiter == Waiter(outcome.ticket, req.holder, req.resource, req.mode, now, priority)
    {
      var ring := BreakRings(req.holder, req.resource, priority);
      if ring.Some? {
        return Deadlocked(ring.value), LetsGo;
      }
      ghost var left := waiting.waiters;
      var mine := waiting.Join(req.holder, req.resource, req.mode, priority, now);
      step := StartsWaiting(left, Waiter(mine, req.holder, req.resource, req.mode, now, priority), now);
      outcome := Queued(mine);
    }

    /** One attempt of a claim, in one hold of the lock: every outcome is a step of the runs above. */
    method Attempt(req: Request, ticket: Option<Ticket>, willWait: bool, priority: int, now: Time, id: LeaseId)
      returns (outcome: Outcome, ghost step: Step)
      requires Valid() && id !in leases.leases && Own(ticket, req)
      modifies leases, waiting
      ensures Valid() && Takes(old(View()), View(), step)
      ensures outcome.Granted? <==> old(MayTry(ticket)) && old(Clear(req, now))
      ensures !outcome.Granted? ==> leases.leases == Live(old(leases.leases), now)
      ensures outcome.Conflict? <==> !outcome.Granted? && !(willWait && ticket.None?)
      ensures outcome.Conflict? ==> waiting.waiters == old(waiting.waiters)
      ensures outcome.Queued? ==> step.StartsWaiting? && step.waiter == Waiter(outcome.ticket, req.holder, req.resource, req.mode, now, priority)
    {
      ghost var s := View();
      var granted;
      granted, step := TryNow(req, ticket, now, id);
      if granted.Some? {
        return Granted(granted.value), step;
      }
      if willWait && ticket.None? {
        outcome, step := StartWaiting(req, priority, now, s);
      } else {
        outcome, step := Conflict, LetsGo;
      }
    }
  }

  lemma OneHasTicket(ws: seq<Waiter>, ticket: Ticket)
    requires Ordered(ws) && exists w <- ws :: w.ticket == ticket
    ensures IndexOf(ws, ticket) < |ws| && forall w <- ws :: w.ticket == ticket ==> w == ws[IndexOf(ws, ticket)]
  {
  }
}
