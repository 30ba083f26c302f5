/** Cleaning up the fixture's process groups (scripts/sustained_use.py, `FixtureProcesses`)
    while the operating system starts and ends processes and reuses their ids. */
module FixtureProcesses {
  import opened Wrappers

  /** What `process_identity` reads: a pid alone may be reused, pid and birth are not. */
  datatype Identity = Identity(pid: nat, group: nat, birth: nat)

  datatype Reading = Gone | Failed(error: string) | Is(identity: Identity)

  type Pinned = map<nat, Identity>

  /** What `remaining` keeps of a member: `None` when it could not be told. */
  type Retained = map<nat, Option<Identity>>

  // ---- The decisions ----

  function Keeps(expected: Identity, reading: Reading, reaped: bool): bool {
    match reading
    case Gone => false
    case Failed(_) => true
    case Is(current) => current.birth == expected.birth && !reaped
  }

  function Read(readings: map<nat, Reading>, pid: nat): Reading {
    if pid in readings then readings[pid] else Gone
  }

  function RetainedOf(members: Pinned, readings: map<nat, Reading>, reaped: set<nat>): Retained {
    map pid | pid in members && Keeps(members[pid], Read(readings, pid), pid in reaped) ::
      match Read(readings, pid)
      case Is(current) => Some(current)
      case _ => None
  }

  /** The groups a capture may look into: those whose leader is still the one remembered. */
  function Proven(leaders: Pinned, current: Retained): set<nat> {
    set pid | pid in leaders && pid in current && current[pid] == Some(leaders[pid])
  }

  /** One row of the process list, `setdefault` and all. */
  function Adopt(members: Pinned, groups: set<nat>, pid: nat, group: nat, reading: Reading): Pinned {
    if group in groups && reading.Is? && reading.identity.group == group && pid !in members
    then members[pid := reading.identity]
    else members
  }

  /** The groups `stop` signals. */
  function Targets(leaders: Pinned, members: Pinned, current: Retained): set<nat> {
    set pid | pid in current && pid in members && current[pid].Some?
              && current[pid].value.group == members[pid].group
              && current[pid].value.group in leaders :: current[pid].value.group
  }

  // ---- The operating system ----

  /** A process, and the incarnation of the group it is in. */
  datatype Process = Process(birth: nat, group: nat, incarnation: nat)

  datatype World = World(processes: map<nat, Process>, births: nat, incarnations: nat)

  /** Births and incarnations are handed out once; a group id stands for one incarnation for
      as long as the group has a member. */
  ghost predicate Sound(w: World) {
    && (forall p <- w.processes :: w.processes[p].birth < w.births && w.processes[p].incarnation < w.incarnations)
    && (forall p <- w.processes, q <- w.processes :: w.processes[p].group == w.processes[q].group ==>
          w.processes[p].incarnation == w.processes[q].incarnation)
  }

  ghost predicate InUse(w: World, group: nat) {
    exists p :: p in w.processes && w.processes[p].group == group
  }

  datatype Event =
    | Exits(pid: nat)
    | Forks(pid: nat, parent: nat)
    | Leads(pid: nat)
    | Joins(pid: nat, other: nat)

  /** Any free pid may be used again, unless a group still carries its number. */
  ghost predicate Can(w: World, e: Event) {
    match e
    case Exits(pid) => pid in w.processes
    case Forks(pid, parent) => pid !in w.processes && parent in w.processes && !InUse(w, pid)
    case Leads(pid) => pid in w.processes && !InUse(w, pid)
    case Joins(pid, other) => pid in w.processes && other in w.processes
  }

  ghost function After(w: World, e: Event): World
    requires Can(w, e)
  {
    match e
    case Exits(pid) => w.(processes := w.processes - {pid})
    case Forks(pid, parent) =>
      var p := w.processes[parent];
      World(w.processes[pid := Process(w.births, p.group, p.incarnation)], w.births + 1, w.incarnations)
    case Leads(pid) =>
      World(w.processes[pid := Process(w.processes[pid].birth, pid, w.incarnations)], w.births, w.incarnations + 1)
    case Joins(pid, other) =>
      var q := w.processes[other];
      w.(processes := w.processes[pid := Process(w.processes[pid].birth, q.group, q.incarnation)])
  }

  lemma WorldStaysSound(w: World, e: Event)
    requires Sound(w) && Can(w, e)
    ensures Sound(After(w, e))
  {
  }

  // ---- Fixture and operating system together ----

  /** `checked` holds the groups of a capture in progress; `owned` the incarnations that were
      remembered; `signalled` every incarnation a signal has gone to. */
  datatype State = State(world: World, leaders: Pinned, members: Pinned, checked: set<nat>,
                         owned: set<(nat, nat)>, signalled: set<(nat, nat)>)

  ghost predicate Holds(w: World, i: Identity) {
    && i.pid in w.processes
    && w.processes[i.pid].birth == i.birth
    && w.processes[i.pid].group == i.group
  }

  /** A reading that names a process names the one that runs. */
  ghost predicate Honest(w: World, readings: map<nat, Reading>) {
    forall pid <- readings :: readings[pid].Is? ==> readings[pid].identity.pid == pid && Holds(w, readings[pid].identity)
  }

  datatype Step =
    | Environment(event: Event)
    | Remember(pid: nat, reading: Reading)
    | Check(readings: map<nat, Reading>, reaped: set<nat>)
    | Row(pid: nat, group: nat, reading: Reading)
    | Signal(readings: map<nat, Reading>, reaped: set<nat>)

  /** What can happen next; checking and signalling are one step. */
  ghost predicate Fair(s: State, step: Step) {
    match step
    case Environment(e) => Can(s.world, e)
    case Remember(pid, reading) => Honest(s.world, map[pid := reading])
    case Check(readings, _) => Honest(s.world, readings)
    case Row(pid, _, reading) => Honest(s.world, map[pid := reading])
    case Signal(readings, _) => Honest(s.world, readings)
  }

  /** What `remember` accepts. */
  predicate Accepted(pid: nat, reading: Reading, own: nat) {
    reading.Is? && reading.identity.group == pid && pid != own
  }

  ghost function Incarnations(w: World, groups: set<nat>): set<(nat, nat)> {
    set p | p in w.processes && w.processes[p].group in groups :: (w.processes[p].group, w.processes[p].incarnation)
  }

  ghost function Next(s: State, own: nat, step: Step): State
    requires Fair(s, step)
  {
    match step
    case Environment(e) => s.(world := After(s.world, e))
    case Remember(pid, reading) =>
      if Accepted(pid, reading, own) then
        s.(leaders := s.leaders[pid := reading.identity], members := s.members[pid := reading.identity],
           owned := s.owned + Incarnations(s.world, {pid}))
      else s
    case Check(readings, reaped) => s.(checked := Proven(s.leaders, RetainedOf(s.members, readings, reaped)))
    case Row(pid, group, reading) => s.(members := Adopt(s.members, s.checked, pid, group, reading))
    case Signal(readings, reaped) =>
      var targets := Targets(s.leaders, s.members, RetainedOf(s.members, readings, reaped));
      s.(signalled := s.signalled + Incarnations(s.world, targets))
  }

  // ---- What every step keeps, and exactly when ----

  /** A pinned member that is still itself, in the group it was pinned in, is in an incarnation
      that was remembered. */
  ghost predicate Anchored(w: World, owned: set<(nat, nat)>, i: Identity) {
    && i.birth < w.births
    && (Holds(w, i) ==> (i.group, w.processes[i.pid].incarnation) in owned)
  }

  ghost predicate AllAnchored(w: World, owned: set<(nat, nat)>, members: Pinned) {
    forall pid <- members :: members[pid].pid == pid && Anchored(w, owned, members[pid])
  }

  ghost predicate Inv(s: State, own: nat) {
    && Sound(s.world)
    && AllAnchored(s.world, s.owned, s.members)
    && (forall g <- s.leaders :: g != own && s.leaders[g].group == g && g in s.members && s.members[g] == s.leaders[g])
    && s.checked <= s.leaders.Keys
    && s.signalled <= s.owned
    && (forall o <- s.owned :: o.0 in s.leaders && o.1 < s.world.incarnations)
  }

  /** A pinned member, still itself, that is not in the group it was pinned in. */
  ghost predicate Strayed(s: State, pid: nat) {
    && pid in s.members && pid in s.world.processes
    && s.world.processes[pid].birth == s.members[pid].birth && s.world.processes[pid].group != s.members[pid].group
  }

  /** No pinned member that has left its group comes into another group of that number. */
  ghost predicate Settled(s: State, e: Event)
    requires Can(s.world, e)
  {
    match e
    case Leads(pid) => !(Strayed(s, pid) && s.members[pid].group == pid)
    case Joins(pid, other) =>
      var q := s.world.processes[other];
      Strayed(s, pid) && s.members[pid].group == q.group ==> (q.group, q.incarnation) in s.owned
    case _ => true
  }

  lemma EventKeepsAnchorExactlyWhen(s: State, own: nat, e: Event, pid: nat)
    requires Inv(s, own) && Can(s.world, e) && pid in s.members
    ensures Anchored(After(s.world, e), s.owned, s.members[pid]) <==>
            (match e
             case Leads(p) => p != pid || Settled(s, e)
             case Joins(p, _) => p != pid || Settled(s, e)
             case _ => true)
  {
    assert Anchored(s.world, s.owned, s.members[pid]);
    if e.Leads? {
      FreshIsNotOwned(s, own, e.pid);
    }
  }

  /** An incarnation not yet handed out has not been remembered. */
  lemma FreshIsNotOwned(s: State, own: nat, g: nat)
    requires Inv(s, own)
    ensures (g, s.world.incarnations) !in s.owned
  {
  }

  lemma OthersStayAnchored(s: State, own: nat, e: Event)
    requires Inv(s, own) && Can(s.world, e)
    ensures AllAnchored(After(s.world, e), s.owned, s.members) <==> Settled(s, e)
  {
    var w' := After(s.world, e);
    forall pid | pid in s.members
      ensures Anchored(w', s.owned, s.members[pid]) <==>
              (match e
               case Leads(p) => p != pid || Settled(s, e)
               case Joins(p, _) => p != pid || Settled(s, e)
               case _ => true)
    {
      EventKeepsAnchorExactlyWhen(s, own, e, pid);
    }
  }

  /** What the system does is harmless exactly when no pinned member that has left its group
      comes into a stranger's group of the same number. */
  lemma EventIsSafeExactlyWhen(s: State, own: nat, e: Event)
    requires Inv(s, own) && Can(s.world, e)
    ensures Inv(s.(world := After(s.world, e)), own) <==> Settled(s, e)
  {
    WorldStaysSound(s.world, e);
    OthersStayAnchored(s, own, e);
  }

  lemma MoreOwnedKeepsAnchors(w: World, owned: set<(nat, nat)>, more: set<(nat, nat)>, members: Pinned)
    requires AllAnchored(w, owned, members) && owned <= more
    ensures AllAnchored(w, more, members)
  {
    forall pid | pid in members
      ensures members[pid].pid == pid && Anchored(w, more, members[pid])
    {
      assert Anchored(w, owned, members[pid]);
    }
  }

  lemma RememberedIsAnchored(w: World, pid: nat, reading: Reading, own: nat, owned: set<(nat, nat)>)
    requires Sound(w) && Honest(w, map[pid := reading]) && Accepted(pid, reading, own)
    requires Incarnations(w, {pid}) <= owned
    ensures reading.identity.pid == pid && Anchored(w, owned, reading.identity)
  {
    var readings := map[pid := reading];
    assert readings[pid].Is?;
    assert Holds(w, reading.identity);
    assert (w.processes[pid].group, w.processes[pid].incarnation) in Incarnations(w, {pid});
  }

  lemma RememberKeepsInv(s: State, own: nat, pid: nat, reading: Reading)
    requires Inv(s, own) && Fair(s, Remember(pid, reading))
    ensures Inv(Next(s, own, Remember(pid, reading)), own)
  {
    if Accepted(pid, reading, own) {
      var t := Next(s, own, Remember(pid, reading));
      RememberedIsAnchored(s.world, pid, reading, own, t.owned);
      MoreOwnedKeepsAnchors(s.world, s.owned, t.owned, s.members);
      forall o | o in t.owned
        ensures o.0 in t.leaders && o.1 < t.world.incarnations
      {
        assert o in s.owned || o in Incarnations(s.world, {pid});
      }
    }
  }

  lemma AdoptedIsAnchored(s: State, own: nat, pid: nat, group: nat, reading: Reading)
    requires Inv(s, own) && Fair(s, Row(pid, group, reading)) && Incarnations(s.world, {group}) <= s.owned
    requires group in s.checked && reading.Is? && reading.identity.group == group
    ensures reading.identity.pid == pid && Anchored(s.world, s.owned, reading.identity)
  {
    var readings := map[pid := reading];
    assert readings[pid].Is?;
    assert Holds(s.world, reading.identity);
    assert (group, s.world.processes[pid].incarnation) in Incarnations(s.world, {group});
  }

  /** While a pinned member, still itself, is in its group, that group is the incarnation that
      was remembered. */
  lemma MemberVouches(s: State, own: nat, pid: nat)
    requires Inv(s, own) && pid in s.members && Holds(s.world, s.members[pid])
    ensures Incarnations(s.world, {s.members[pid].group}) <= s.owned
  {
    var group := s.members[pid].group;
    assert Anchored(s.world, s.owned, s.members[pid]);
    forall o | o in Incarnations(s.world, {group})
      ensures o in s.owned
    {
      var p :| p in s.world.processes && s.world.processes[p].group == group && o == (group, s.world.processes[p].incarnation);
      assert s.world.processes[p].group == s.world.processes[pid].group;
    }
  }

  /** The row would add a member. */
  predicate Adopts(s: State, pid: nat, group: nat, reading: Reading) {
    group in s.checked && reading.Is? && reading.identity.group == group && pid !in s.members
  }

  /** A row that would add a member is safe exactly when its group has not been recycled
      since it was remembered: the leader seen alive a moment ago is not enough. */
  lemma RowIsSafeExactlyWhen(s: State, own: nat, pid: nat, group: nat, reading: Reading)
    requires Inv(s, own) && Fair(s, Row(pid, group, reading))
    ensures Inv(Next(s, own, Row(pid, group, reading)), own) <==> (Adopts(s, pid, group, reading) ==> Incarnations(s.world, {group}) <= s.owned)
  {
    if Adopts(s, pid, group, reading) {
      var t := Next(s, own, Row(pid, group, reading));
      if Incarnations(s.world, {group}) <= s.owned {
        AdoptedIsAnchored(s, own, pid, group, reading);
      }
      if Inv(t, own) {
        AnchoredRowOwnsGroup(s, pid, group, reading, t.members);
      }
    }
  }

  lemma AnchoredRowOwnsGroup(s: State, pid: nat, group: nat, reading: Reading, members: Pinned)
    requires Sound(s.world) && Honest(s.world, map[pid := reading]) && reading.Is? && reading.identity.group == group
    requires AllAnchored(s.world, s.owned, members) && pid in members && members[pid] == reading.identity
    ensures Incarnations(s.world, {group}) <= s.owned
  {
    var readings := map[pid := reading];
    assert readings[pid].Is?;
    assert Holds(s.world, reading.identity) && Anchored(s.world, s.owned, members[pid]);
    forall o | o in Incarnations(s.world, {group})
      ensures o in s.owned
    {
      var p :| p in s.world.processes && s.world.processes[p].group == group && o == (group, s.world.processes[p].incarnation);
      assert s.world.processes[p].group == s.world.processes[pid].group;
    }
  }

  /** What a caller can see to: some pinned member, still itself, is in the group as the row is
      read. */
  ghost predicate Vouched(s: State, group: nat) {
    exists pid <- s.members :: s.members[pid].group == group && Holds(s.world, s.members[pid])
  }

  lemma VouchedRowIsSafe(s: State, own: nat, pid: nat, group: nat, reading: Reading)
    requires Inv(s, own) && Fair(s, Row(pid, group, reading)) && Vouched(s, group)
    ensures Inv(Next(s, own, Row(pid, group, reading)), own)
  {
    var v :| v in s.members && s.members[v].group == group && Holds(s.world, s.members[v]);
    MemberVouches(s, own, v);
    RowIsSafeExactlyWhen(s, own, pid, group, reading);
  }

  /** Right after a check, every group that a capture will look into has its leader there, as it
      was remembered. */
  lemma CheckedLeadersHold(s: State, own: nat, readings: map<nat, Reading>, reaped: set<nat>)
    requires Fair(s, Check(readings, reaped))
    ensures var t := Next(s, own, Check(readings, reaped));
            t.world == s.world && t.leaders == s.leaders && forall g <- t.checked :: g in t.leaders && Holds(t.world, t.leaders[g])
  {
  }

  /** A group that is signalled holds a pinned member with its original birth. */
  lemma TargetHoldsMember(s: State, own: nat, readings: map<nat, Reading>, reaped: set<nat>, g: nat) returns (pid: nat)
    requires Inv(s, own) && Honest(s.world, readings)
    requires g in Targets(s.leaders, s.members, RetainedOf(s.members, readings, reaped))
    ensures g in s.leaders && pid in s.members && s.members[pid].group == g && Holds(s.world, s.members[pid])
    ensures (g, s.world.processes[pid].incarnation) in s.owned
  {
    var current := RetainedOf(s.members, readings, reaped);
    pid :| pid in current && pid in s.members && current[pid].Some?
           && current[pid].value.group == s.members[pid].group == g && g in s.leaders;
    assert pid in readings && readings[pid].Is?;
    assert Holds(s.world, readings[pid].identity);
    assert Anchored(s.world, s.owned, s.members[pid]);
  }

  lemma SignalKeepsInv(s: State, own: nat, readings: map<nat, Reading>, reaped: set<nat>)
    requires Inv(s, own) && Honest(s.world, readings)
    ensures Inv(Next(s, own, Signal(readings, reaped)), own)
  {
    var targets := Targets(s.leaders, s.members, RetainedOf(s.members, readings, reaped));
    forall o | o in Incarnations(s.world, targets)
      ensures o in s.owned
    {
      var p :| p in s.world.processes && s.world.processes[p].group in targets
               && o == (s.world.processes[p].group, s.world.processes[p].incarnation);
      var pid := TargetHoldsMember(s, own, readings, reaped, o.0);
      assert s.world.processes[p].group == s.world.processes[pid].group;
    }
  }

  /** What a step must not do. */
  ghost predicate IsSafe(s: State, step: Step)
    requires Fair(s, step)
  {
    match step
    case Environment(e) => Settled(s, e)
    case Row(pid, group, reading) => Adopts(s, pid, group, reading) ==> Incarnations(s.world, {group}) <= s.owned
    case _ => true
  }

  /** Every step of fixture or system keeps all of this exactly when it is safe: remembering,
      checking and signalling always are. */
  lemma StepIsSafeExactlyWhen(s: State, own: nat, step: Step)
    requires Inv(s, own) && Fair(s, step)
    ensures Inv(Next(s, own, step), own) <==> IsSafe(s, step)
  {
    match step
    case Environment(e) => EventIsSafeExactlyWhen(s, own, e);
    case Remember(pid, reading) => RememberKeepsInv(s, own, pid, reading);
    case Check(_, _) =>
    case Row(pid, group, reading) => RowIsSafeExactlyWhen(s, own, pid, group, reading);
    case Signal(readings, reaped) => SignalKeepsInv(s, own, readings, reaped);
  }

  // ---- Every run ----

  function Start(world: World): State { State(world, map[], map[], {}, {}, {}) }

  /** A run of `k` steps: the states, and the steps between them. */
  ghost predicate Run(run: seq<State>, own: nat, steps: seq<Step>, k: nat)
    requires k < |run| && k <= |steps|
  {
    if k == 0 then run[0] == Start(run[0].world) && Sound(run[0].world)
    else Run(run, own, steps, k - 1) && Fair(run[k - 1], steps[k - 1]) && run[k] == Next(run[k - 1], own, steps[k - 1])
  }

  ghost predicate InvTo(run: seq<State>, own: nat, k: nat)
    requires k < |run|
  {
    Inv(run[k], own) && (k > 0 ==> InvTo(run, own, k - 1))
  }

  ghost predicate SafeTo(run: seq<State>, steps: seq<Step>, k: nat)
    requires k < |run| && k <= |steps|
  {
    k > 0 ==> SafeTo(run, steps, k - 1) && Fair(run[k - 1], steps[k - 1]) && IsSafe(run[k - 1], steps[k - 1])
  }

  lemma {:induction false} RunIsSafeExactlyWhen(run: seq<State>, own: nat, steps: seq<Step>, k: nat)
    requires k < |run| && k <= |steps| && Run(run, own, steps, k)
    ensures InvTo(run, own, k) <==> SafeTo(run, steps, k)
  {
    if k > 0 {
      RunIsSafeExactlyWhen(run, own, steps, k - 1);
      if Inv(run[k - 1], own) {
        StepIsSafeExactlyWhen(run[k - 1], own, steps[k - 1]);
      }
    }
  }

  /** Whatever the operating system does with ids, as long as every step is safe, every group
      ever signalled was a group that had been remembered, in that very incarnation, and never
      the caller's own. */
  lemma NoStrangerIsSignalled(run: seq<State>, own: nat, steps: seq<Step>, k: nat)
    requires k < |run| && k <= |steps| && Run(run, own, steps, k) && SafeTo(run, steps, k)
    ensures run[k].signalled <= run[k].owned && forall o <- run[k].signalled :: o.0 != own && o.0 in run[k].leaders
  {
    RunIsSafeExactlyWhen(run, own, steps, k);
  }

  /** Every row of a process list is read while somebody vouches for its group, and no pinned
      member comes into a stranger's group. */
  ghost predicate VouchedTo(run: seq<State>, steps: seq<Step>, k: nat)
    requires k < |run| && k <= |steps|
  {
    k > 0 ==> VouchedTo(run, steps, k - 1) && Careful(run[k - 1], steps[k - 1])
  }

  ghost predicate Careful(s: State, step: Step) {
    match step
    case Environment(e) => Can(s.world, e) && Settled(s, e)
    case Row(_, group, _) => Vouched(s, group)
    case _ => true
  }

  lemma CarefulIsSafe(s: State, own: nat, step: Step)
    requires Inv(s, own) && Fair(s, step) && Careful(s, step)
    ensures IsSafe(s, step)
  {
    if step.Row? {
      VouchedRowIsSafe(s, own, step.pid, step.group, step.reading);
      RowIsSafeExactlyWhen(s, own, step.pid, step.group, step.reading);
    }
  }

  lemma {:induction false} VouchedRunIsSafe(run: seq<State>, own: nat, steps: seq<Step>, k: nat)
    requires k < |run| && k <= |steps| && Run(run, own, steps, k) && VouchedTo(run, steps, k)
    ensures SafeTo(run, steps, k)
  {
    if k > 0 {
      VouchedRunIsSafe(run, own, steps, k - 1);
      RunIsSafeExactlyWhen(run, own, steps, k - 1);
      CarefulIsSafe(run[k - 1], own, steps[k - 1]);
    }
  }

  /** So no stranger is signalled in any run in which every row is read while a pinned member,
      still itself, is in its group, and no member that strayed comes into a stranger's. */
  lemma VouchedRunSignalsNoStranger(run: seq<State>, own: nat, steps: seq<Step>, k: nat)
    requires k < |run| && k <= |steps| && Run(run, own, steps, k) && VouchedTo(run, steps, k)
    ensures run[k].signalled <= run[k].owned && forall o <- run[k].signalled :: o.0 != own && o.0 in run[k].leaders
  {
    VouchedRunIsSafe(run, own, steps, k);
    NoStrangerIsSignalled(run, own, steps, k);
  }

  /** Some run ends here. */
  ghost predicate Reachable(s: State, own: nat) {
    exists run, steps :: IsRun(run, own, steps) && run[|steps|] == s
  }

  ghost predicate IsRun(run: seq<State>, own: nat, steps: seq<Step>) {
    |run| == |steps| + 1 && Run(run, own, steps, |steps|)
  }

  lemma {:induction false} RunGoesOn(run: seq<State>, own: nat, steps: seq<Step>, s: State, step: Step, k: nat)
    requires k < |run| && k <= |steps| && Run(run, own, steps, k)
    ensures Run(run + [s], own, steps + [step], k)
  {
    if k > 0 {
      RunGoesOn(run, own, steps, s, step, k - 1);
    }
  }

  lemma ReachesNext(s: State, own: nat, step: Step)
    requires Reachable(s, own) && Fair(s, step)
    ensures Reachable(Next(s, own, step), own)
  {
    var run, steps :| IsRun(run, own, steps) && run[|steps|] == s;
    var s' := Next(s, own, step);
    var run', steps' := run + [s'], steps + [step];
    RunGoesOn(run, own, steps, s', step, |steps|);
    assert run'[|steps|] == s && run'[|steps'|] == s' && steps'[|steps|] == step;
    assert Run(run', own, steps', |steps'|);
    assert IsRun(run', own, steps');
  }

  // ---- The object ----

  datatype Sent = Sent(group: nat, force: bool)

  /** What `killpg` answers. */
  datatype Reply = Delivered | NoSuchGroup | Refused(error: string)

  function AdoptAll(members: Pinned, groups: set<nat>, rows: seq<(nat, nat)>, readings: seq<Reading>, n: nat): Pinned
    requires n <= |rows| == |readings|
  {
    if n == 0 then members
    else Adopt(AdoptAll(members, groups, rows, readings, n - 1), groups, rows[n - 1].0, rows[n - 1].1, readings[n - 1])
  }

  function Errors(members: Pinned, readings: map<nat, Reading>): set<string> {
    set pid | pid in members && Read(readings, pid).Failed? :: Read(readings, pid).error
  }

  /** The answers one call to `remaining` gets. */
  datatype View = View(readings: map<nat, Reading>, reaped: set<nat>)

  ghost function Seen(members: Pinned, todo: set<nat>): Pinned {
    map pid | pid in members && pid !in todo :: members[pid]
  }

  lemma NothingSeen(members: Pinned)
    ensures Seen(members, members.Keys) == map[]
  {
  }

  lemma OneMoreSeen(members: Pinned, todo: set<nat>, pid: nat)
    requires pid in todo && pid in members
    ensures Seen(members, todo - {pid}) == Seen(members, todo)[pid := members[pid]] && pid !in Seen(members, todo)
  {
  }

  lemma OneMoreRetained(members: Pinned, todo: set<nat>, pid: nat, view: View)
    requires pid in todo && pid in members
    ensures var reading, seen, more := Read(view.readings, pid), Seen(members, todo), Seen(members, todo - {pid});
            && (RetainedOf(more, view.readings, view.reaped) ==
                if !Keeps(members[pid], reading, pid in view.reaped) then RetainedOf(seen, view.readings, view.reaped)
                else RetainedOf(seen, view.readings, view.reaped)[pid := if reading.Is? then Some(reading.identity) else None])
            && (Errors(more, view.readings) ==
                Errors(seen, view.readings) + if reading.Failed? then {reading.error} else {})
  {
    OneMoreSeen(members, todo, pid);
    OneMoreKept(Seen(members, todo), pid, members[pid], view);
    OneMoreError(Seen(members, todo), pid, members[pid], view);
  }

  lemma OneMoreKept(seen: Pinned, pid: nat, expected: Identity, view: View)
    requires pid !in seen
    ensures var reading := Read(view.readings, pid);
            RetainedOf(seen[pid := expected], view.readings, view.reaped) ==
                if !Keeps(expected, reading, pid in view.reaped) then RetainedOf(seen, view.readings, view.reaped)
                else RetainedOf(seen, view.readings, view.reaped)[pid := if reading.Is? then Some(reading.identity) else None]
  {
  }

  lemma OneMoreError(seen: Pinned, pid: nat, expected: Identity, view: View)
    requires pid !in seen
    ensures var reading := Read(view.readings, pid);
            Errors(seen[pid := expected], view.readings) ==
              Errors(seen, view.readings) + if reading.Failed? then {reading.error} else {}
  {
    var more, reading := seen[pid := expected], Read(view.readings, pid);
    if reading.Failed? {
      assert pid in more;
      assert reading.error in Errors(more, view.readings);
    }
    forall e | e in Errors(seen, view.readings)
      ensures e in Errors(more, view.readings)
    {
      var p :| p in seen && Read(view.readings, p).Failed? && e == Read(view.readings, p).error;
      assert p in more;
    }
  }

  class Fixture {
    var leaders: Pinned
    var members: Pinned
    var errors: set<string>

    /** Every leader is a member, as it was remembered. */
    ghost predicate Valid()
      reads this
    {
      forall g <- leaders :: g in members && members[g].birth == leaders[g].birth
    }

    constructor ()
      ensures Valid() && leaders == map[] && members == map[] && errors == {}
    {
      leaders, members, errors := map[], map[], {};
    }

    method Remember(pid: nat, reading: Reading, own: nat) returns (r: Result<(), string>)
      modifies this`leaders, this`members
      ensures r.Ok? <==> reading.Is? && reading.identity.group == pid && pid != own
      ensures old(Valid()) ==> Valid()
      ensures r.Ok? ==> leaders == old(leaders)[pid := reading.identity] && members == old(members)[pid := reading.identity]
      ensures r.Err? ==> leaders == old(leaders) && members == old(members)
    {
      if !reading.Is? {
        return Err("fixture agent disappeared before its identity was retained");
      }
      if reading.identity.group != pid || pid == own {
        return Err("fixture agent does not own a separate process group");
      }
      leaders := leaders[pid := reading.identity];
      members := members[pid := reading.identity];
      r := Ok(());
    }

    /** Kept is who cannot be told, and who is read with the birth it was pinned with and has not
        been reaped. */
    method Remaining(view: View) returns (retained: Retained)
      modifies this`errors
      ensures retained == RetainedOf(members, view.readings, view.reaped)
      ensures forall pid :: pid in retained && retained[pid].None? <==> pid in members && Read(view.readings, pid).Failed?
      ensures forall pid, i :: pid in retained && retained[pid] == Some(i) <==>
                pid in members && Read(view.readings, pid) == Is(i) && i.birth == members[pid].birth && pid !in view.reaped
      ensures errors == old(errors) + Errors(members, view.readings)
    {
      retained := map[];
      var todo := members.Keys;
      NothingSeen(members);
      while todo != {}
        invariant todo <= members.Keys
        invariant retained == RetainedOf(Seen(members, todo), view.readings, view.reaped)
        invariant errors == old(errors) + Errors(Seen(members, todo), view.readings)
        decreases todo
      {
        var pid: nat :| pid in todo;
        OneMoreRetained(members, todo, pid, view);
        todo := todo - {pid};
        match Read(view.readings, pid)
        case Gone =>
        case Failed(error) =>
          errors := errors + {error};
          retained := retained[pid := None];
        case Is(current) =>
          if current.birth == members[pid].birth && pid !in view.reaped {
            retained := retained[pid := Some(current)];
          }
      }
      assert Seen(members, {}) == members;
    }

    /** The rows of groups whose leader answers are pinned, the first birth seen of a pid kept. */
    method Capture(view: View, rows: seq<(nat, nat)>, readings: seq<Reading>)
      requires |rows| == |readings|
      modifies this`members, this`errors
      ensures forall pid <- old(members) :: pid in members && members[pid] == old(members)[pid]
      ensures forall pid <- members | pid !in old(members) :: FromRow(pid, members[pid], leaders, view, rows, readings)
      ensures old(Valid()) ==> forall i :: 0 <= i < |rows| && IsRow(i, leaders, view, rows, readings) ==> rows[i].0 in members
      ensures old(Valid()) ==> Valid()
      ensures errors == old(errors) + Errors(old(members), view.readings)
    {
      var current := Remaining(view);
      var groups := Proven(leaders, current);
      CaptureMeans(leaders, members, view, rows, readings);
      if groups == {} {
        AdoptsNothing(members, rows, readings, |rows|);
        return;
      }
      CaptureRows(groups, rows, readings);
    }

    method CaptureRows(groups: set<nat>, rows: seq<(nat, nat)>, readings: seq<Reading>)
      requires |rows| == |readings|
      modifies this`members
      ensures members == AdoptAll(old(members), groups, rows, readings, |rows|)
    {
      for i := 0 to |rows|
        invariant members == AdoptAll(old(members), groups, rows, readings, i)
      {
        var (pid, group) := rows[i];
        if group in groups {
          var reading := readings[i];
          if reading.Is? && reading.identity.group == group {
            if pid !in members {
              members := members[pid := reading.identity];
            }
          }
        }
      }
    }

    /** One stage of `stop`: signal what is still there, then wait for it to go, for as
        long as the clock allows. `views[0]` answers the check; each later one a poll. */
    method Stage(force: bool, views: seq<View>, replies: nat -> Reply) returns (sent: seq<Sent>, current: Retained)
      requires |views| > 0
      modifies this`errors
      ensures forall s :: s in sent <==> s.force == force && StillThere(leaders, members, views[0], s.group) && replies(s.group).Delivered?
      ensures current == Polled(members, views, 0)
    {
      current := Remaining(views[0]);
      var groups := Targets(leaders, members, current);
      TargetsAreThere(leaders, members, views[0]);
      sent := [];
      var todo := groups;
      while todo != {}
        invariant todo <= groups
        invariant forall s :: s in sent <==> IsSent(s, force, groups - todo, replies)
        decreases todo
      {
        var group: nat :| group in todo;
        todo := todo - {group};
        match replies(group)
        case Delivered => sent := sent + [Sent(group, force)];
        case NoSuchGroup =>
        case Refused(error) => errors := errors + {error};
      }
      var k: nat := 0;
      while current != map[] && k + 1 < |views|
        invariant k < |views| && current == RetainedBy(members, views[k]) && Polled(members, views, 0) == Polled(members, views, k)
        decreases |views| - k
      {
        k := k + 1;
        current := Remaining(views[k]);
      }
    }

    /** `stop`: asks first, unless forced, and forces only when something is still there then. */
    method Stop(force: bool, ask: seq<View>, kill: seq<View>, replies: nat -> Reply, forced: nat -> Reply)
      returns (sent: seq<Sent>, remaining: set<nat>)
      requires |ask| > 0 && |kill| > 0
      modifies this`errors
      ensures forall s :: s in sent <==>
                || (!force && !s.force && StillThere(leaders, members, ask[0], s.group) && replies(s.group).Delivered?)
                || ((force || Polled(members, ask, 0) != map[])
                    && s.force && StillThere(leaders, members, kill[0], s.group) && forced(s.group).Delivered?)
      ensures remaining == (if force || Polled(members, ask, 0) != map[] then Polled(members, kill, 0).Keys else {})
    {
      sent := [];
      if !force {
        var current;
        sent, current := Stage(false, ask, replies);
        if current == map[] {
          return sent, {};
        }
      }
      var more, left := Stage(true, kill, forced);
      sent := sent + more;
      remaining := left.Keys;
    }
  }

  /** The group is a remembered leader's, and some pinned member, not reaped, reads with the birth
      it was pinned with, in the group it was pinned in. */
  ghost predicate StillThere(leaders: Pinned, members: Pinned, view: View, group: nat) {
    group in leaders && exists pid <- members ::
      pid in view.readings && pid !in view.reaped && view.readings[pid].Is? && view.readings[pid].identity.birth == members[pid].birth
      && view.readings[pid].identity.group == members[pid].group == group
  }

  lemma TargetsAreThere(leaders: Pinned, members: Pinned, view: View)
    ensures forall g :: g in Targets(leaders, members, RetainedBy(members, view)) <==> StillThere(leaders, members, view, g)
  {
    var current := RetainedBy(members, view);
    forall g
      ensures g in Targets(leaders, members, current) <==> StillThere(leaders, members, view, g)
    {
      if StillThere(leaders, members, view, g) {
        var pid :| pid in members && pid in view.readings && pid !in view.reaped && view.readings[pid].Is?
                   && view.readings[pid].identity.birth == members[pid].birth && view.readings[pid].identity.group == members[pid].group == g;
        assert pid in current && current[pid] == Some(view.readings[pid].identity);
      }
      if g in Targets(leaders, members, current) {
        var pid :| pid in current && pid in members && current[pid].Some? && current[pid].value.group == members[pid].group == g;
        assert pid in view.readings;
      }
    }
  }

  ghost function RetainedBy(members: Pinned, view: View): Retained {
    RetainedOf(members, view.readings, view.reaped)
  }

  /** What the last poll finds: the first that finds nothing, or the last there is time for. */
  ghost function Polled(members: Pinned, views: seq<View>, k: nat): Retained
    requires k < |views|
    decreases |views| - k
  {
    if RetainedBy(members, views[k]) == map[] || k + 1 == |views| then RetainedBy(members, views[k])
    else Polled(members, views, k + 1)
  }

  /** The signal goes to one of the groups, and is delivered. */
  predicate IsSent(s: Sent, force: bool, groups: set<nat>, replies: nat -> Reply) {
    s.force == force && s.group in groups && replies(s.group).Delivered?
  }

  /** The leader of the group has just been read, as it was remembered, and had not been reaped. */
  ghost predicate Answers(leaders: Pinned, view: View, group: nat) {
    group in leaders && group in view.readings && view.readings[group] == Is(leaders[group]) && group !in view.reaped
  }

  /** Row `i` is of a group whose leader answers, and its process reads as being in it. */
  ghost predicate IsRow(i: nat, leaders: Pinned, view: View, rows: seq<(nat, nat)>, readings: seq<Reading>)
    requires i < |rows| == |readings|
  {
    Answers(leaders, view, rows[i].1) && readings[i].Is? && readings[i].identity.group == rows[i].1
  }

  ghost predicate FromRow(pid: nat, identity: Identity, leaders: Pinned, view: View, rows: seq<(nat, nat)>, readings: seq<Reading>)
    requires |rows| == |readings|
  {
    exists i :: 0 <= i < |rows| && IsRow(i, leaders, view, rows, readings) && rows[i].0 == pid && readings[i] == Is(identity)
  }

  lemma CaptureMeans(leaders: Pinned, members: Pinned, view: View, rows: seq<(nat, nat)>, readings: seq<Reading>)
    requires |rows| == |readings|
    ensures var all := AdoptAll(members, Proven(leaders, RetainedOf(members, view.readings, view.reaped)), rows, readings, |rows|);
            && (forall pid <- members :: pid in all && all[pid] == members[pid])
            && (forall pid <- all | pid !in members :: FromRow(pid, all[pid], leaders, view, rows, readings))
            && ((forall g <- leaders :: g in members && members[g].birth == leaders[g].birth) ==>
                  forall i :: 0 <= i < |rows| && IsRow(i, leaders, view, rows, readings) ==> rows[i].0 in all)
  {
    var groups := Proven(leaders, RetainedOf(members, view.readings, view.reaped));
    ProvenAnswer(leaders, members, view);
    AdoptedAre(members, groups, rows, readings, |rows|);
    var all := AdoptAll(members, groups, rows, readings, |rows|);
    forall pid <- all | pid !in members
      ensures FromRow(pid, all[pid], leaders, view, rows, readings)
    {
      var i :| 0 <= i < |rows| && rows[i] == (pid, all[pid].group) && readings[i] == Is(all[pid]) && all[pid].group in groups;
      assert IsRow(i, leaders, view, rows, readings);
    }
  }

  /** A capture looks only into groups whose leader answers, and into all of those. */
  lemma ProvenAnswer(leaders: Pinned, members: Pinned, view: View)
    ensures forall g <- Proven(leaders, RetainedOf(members, view.readings, view.reaped)) :: Answers(leaders, view, g)
    ensures (forall g <- leaders :: g in members && members[g].birth == leaders[g].birth) ==>
              forall g :: Answers(leaders, view, g) ==> g in Proven(leaders, RetainedOf(members, view.readings, view.reaped))
  {
  }

  /** Nobody pinned is lost or changed; who is added is in a row of one of the groups, and reads
      as being in it; and whoever does is pinned in the end. */
  lemma {:induction false} AdoptedAre(members: Pinned, groups: set<nat>, rows: seq<(nat, nat)>, readings: seq<Reading>, n: nat)
    requires n <= |rows| == |readings|
    ensures var all := AdoptAll(members, groups, rows, readings, n);
            && (forall pid <- members :: pid in all && all[pid] == members[pid])
            && (forall pid <- all | pid !in members ::
                  exists i :: 0 <= i < n && rows[i] == (pid, all[pid].group) && readings[i] == Is(all[pid]) && all[pid].group in groups)
            && (forall i :: 0 <= i < n && rows[i].1 in groups && readings[i].Is? && readings[i].identity.group == rows[i].1 ==> rows[i].0 in all)
  {
    if n > 0 {
      AdoptedAre(members, groups, rows, readings, n - 1);
    }
  }

  lemma {:induction false} AdoptsNothing(members: Pinned, rows: seq<(nat, nat)>, readings: seq<Reading>, n: nat)
    requires n <= |rows| == |readings|
    ensures AdoptAll(members, {}, rows, readings, n) == members
  {
    if n > 0 {
      AdoptsNothing(members, rows, readings, n - 1);
    }
  }

  /** Reading a whole process list is its rows one after another, as the runs have them. */
  lemma {:induction false} CaptureIsItsRows(s: State, own: nat, rows: seq<(nat, nat)>, readings: seq<Reading>, n: nat)
    requires n <= |rows| == |readings|
    requires forall i :: 0 <= i < n ==> Honest(s.world, map[rows[i].0 := readings[i]])
    requires Inv(s, own) && forall g <- s.checked :: Holds(s.world, s.leaders[g])
    ensures Inv(s.(members := AdoptAll(s.members, s.checked, rows, readings, n)), own)
    ensures forall pid <- s.members :: pid in AdoptAll(s.members, s.checked, rows, readings, n)
                                       && AdoptAll(s.members, s.checked, rows, readings, n)[pid] == s.members[pid]
  {
    if n > 0 {
      CaptureIsItsRows(s, own, rows, readings, n - 1);
      var t := s.(members := AdoptAll(s.members, s.checked, rows, readings, n - 1));
      var (pid, group) := rows[n - 1];
      if group in s.checked {
        assert group in t.members && t.members[group] == s.leaders[group];
        VouchedRowIsSafe(t, own, pid, group, readings[n - 1]);
      }
    }
  }
}
