/** Time-limited claims on shared resources (crates/core/src/lease.rs).
    `Table` is the value a `LeaseTable` holds; the relations below say what each
    operation may do to it, and the lemmas what every operation keeps. */
module Leases {
  import opened Wrappers
  import opened ResourceKeys

  type AgentId = string
  type LeaseId = string
  type Time = int

  datatype Mode = Exclusive | Shared

  datatype Lease = Lease(
    id: LeaseId,
    resource: string,
    holder: AgentId,
    mode: Mode,
    acquiredAt: Time,
    heldSince: Option<Time>,
    changeSeq: Option<nat>,
    expiresAt: Time,
    note: Option<string>,
    amount: nat,
    automatic: bool)
  {
    predicate IsExpired(now: Time) { expiresAt <= now }

    predicate Blocks(requester: AgentId, wanted: Mode, key: string) {
      holder != requester && Overlaps(resource, key) && (mode == Exclusive || wanted == Exclusive)
    }
  }

  datatype Request = Request(resource: string, holder: AgentId, mode: Mode, ttl: int, note: Option<string>, automatic: bool)

  datatype Claimed = New(lease: Lease) | Renewed(lease: Lease) | Refused(heldBy: set<Lease>)

  datatype LeaseError = NotFound(id: LeaseId) | NotHolder(id: LeaseId, holder: AgentId, requester: AgentId)

  type Table = map<LeaseId, Lease>

  /** Every lease is filed under its own id. */
  ghost predicate Keyed(t: Table) {
    forall id <- t :: t[id].id == id
  }

  /** The promise of a lease: two holders never have overlapping leases unless both are shared. */
  ghost predicate Exclusion(t: Table) {
    forall i <- t, j <- t :: !t[i].Blocks(t[j].holder, t[j].mode, t[j].resource)
  }

  // ----- The operations on tables -----

  function Live(t: Table, now: Time): Table {
    map id | id in t && !t[id].IsExpired(now) :: t[id]
  }

  predicate Same(l: Lease, req: Request) {
    l.holder == req.holder && l.resource == req.resource && l.mode == req.mode
  }

  function Extend(l: Lease, req: Request, now: Time): Lease {
    l.(expiresAt := now + req.ttl,
       note := if req.note.Some? then req.note else l.note,
       automatic := l.automatic && req.automatic)
  }

  function Fresh(id: LeaseId, req: Request, now: Time): Lease {
    Lease(id, req.resource, req.holder, req.mode, now, None, None, now + req.ttl, req.note, 0, req.automatic)
  }

  function Blockers(t: Table, req: Request): set<Lease> {
    set id | id in t && t[id].Blocks(req.holder, req.mode, req.resource) :: t[id]
  }

  /** What `claim_as` may do: renew one of the holder's identical leases (whichever the
      table yields first), refuse with everything in the way, or file a new lease. */
  ghost predicate ClaimStep(t: Table, req: Request, now: Time, id: LeaseId, t': Table, r: Claimed) {
    var live := Live(t, now);
    match r
    case Renewed(lease) =>
      exists k <- live :: Same(live[k], req) && lease == Extend(live[k], req, now) && t' == live[k := lease]
    case Refused(heldBy) =>
      && (forall k <- live :: !Same(live[k], req))
      && heldBy == Blockers(live, req) != {}
      && t' == live
    case New(lease) =>
      && (forall k <- live :: !Same(live[k], req))
      && Blockers(live, req) == {}
      && lease == Fresh(id, req, now)
      && t' == live[id := lease]
  }

  predicate Owned(t: Table, id: LeaseId, holder: AgentId) {
    id in t && t[id].holder == holder
  }

  function OwnershipError(t: Table, id: LeaseId, holder: AgentId): LeaseError
    requires !Owned(t, id, holder)
  {
    if id in t then NotHolder(id, t[id].holder, holder) else NotFound(id)
  }

  function Without(t: Table, gone: set<LeaseId>): Table {
    map id | id in t && id !in gone :: t[id]
  }

  function HeldBy(t: Table, holder: AgentId, onlyAutomatic: bool): set<LeaseId> {
    set id | id in t && t[id].holder == holder && (!onlyAutomatic || t[id].automatic)
  }

  function Offered(t: Table, from: AgentId, ids: set<LeaseId>, now: Time): set<LeaseId> {
    set id | id in t && t[id].holder == from && t[id].id in ids && !t[id].IsExpired(now)
  }

  function Moved(t: Table, moving: set<LeaseId>, to: AgentId, now: Time): Table {
    map id | id in t :: if id in moving then t[id].(holder := to, heldSince := Some(now)) else t[id]
  }

  // ----- What every operation keeps -----

  lemma FewerLeasesKeepExclusion(t: Table, t': Table)
    requires Exclusion(t) && (forall id <- t' :: id in t && t'[id] == t[id])
    ensures Exclusion(t')
  {
  }

  lemma ClaimKeepsExclusion(t: Table, req: Request, now: Time, id: LeaseId, t': Table, r: Claimed)
    requires Exclusion(t) && ClaimStep(t, req, now, id, t', r)
    ensures Exclusion(t')
  {
    var live := Live(t, now);
    if r.New? {
      forall i <- t', j <- t'
        ensures !t'[i].Blocks(t'[j].holder, t'[j].mode, t'[j].resource)
      {
        if i == id && j != id {
          assert live[j] !in Blockers(live, req);
          OverlapIsSymmetric(t'[j].resource, req.resource);
        } else if i != id && j == id {
          assert live[i] !in Blockers(live, req);
        }
      }
    }
  }

  lemma BlockersAreLive(t: Table, req: Request, now: Time)
    ensures Blockers(Live(t, now), req)
         == set k | k in t && !t[k].IsExpired(now) && t[k].Blocks(req.holder, req.mode, req.resource) :: t[k]
  {
    var live := Live(t, now);
    var all := set k | k in t && !t[k].IsExpired(now) && t[k].Blocks(req.holder, req.mode, req.resource) :: t[k];
    forall l | l in all ensures l in Blockers(live, req) {
      var k :| k in t && t[k] == l && !l.IsExpired(now) && l.Blocks(req.holder, req.mode, req.resource);
      assert k in live;
    }
    forall l | l in Blockers(live, req) ensures l in all {
      var k :| k in live && live[k] == l && l.Blocks(req.holder, req.mode, req.resource);
      assert k in t;
    }
  }

  /** A claim is refused exactly when a live lease of somebody else is in the way,
      and then with all of them: an identical lease of one's own is never shadowed
      by somebody else's. */
  lemma RefusedExactlyWhenBlocked(t: Table, req: Request, now: Time, id: LeaseId, t': Table, r: Claimed)
    requires Exclusion(t) && ClaimStep(t, req, now, id, t', r)
    ensures r.Refused? <==> exists k <- t :: !t[k].IsExpired(now) && t[k].Blocks(req.holder, req.mode, req.resource)
    ensures r.Refused? ==> r.heldBy == set k | k in t && !t[k].IsExpired(now) && t[k].Blocks(req.holder, req.mode, req.resource) :: t[k]
  {
    var live := Live(t, now);
    if r.Refused? {
      BlockersAreLive(t, req, now);
      var l :| l in Blockers(live, req);
    } else {
      forall k <- t | !t[k].IsExpired(now)
        ensures !t[k].Blocks(req.holder, req.mode, req.resource)
      {
        assert k in live && live[k] == t[k];
        if r.Renewed? {
          var own :| own in live && Same(live[own], req);
          assert !t[k].Blocks(t[own].holder, t[own].mode, t[own].resource);
        } else {
          assert live[k] !in Blockers(live, req);
        }
      }
    }
  }

  /** A lease the holder has already: the same resource in the same mode, not expired. */
  ghost predicate HasAlready(t: Table, req: Request, now: Time, k: LeaseId) {
    k in t && t[k].expiresAt > now && t[k].holder == req.holder && t[k].resource == req.resource && t[k].mode == req.mode
  }

  /** What a claim comes to, said outright: one of the holder's own leases is extended exactly
      when it has such a one already; a new one is for what was asked, from now on, for as long
      as asked; whatever was live besides stands as it was, and what had expired is gone. */
  lemma ClaimMeans(t: Table, req: Request, now: Time, id: LeaseId, t': Table, r: Claimed)
    requires ClaimStep(t, req, now, id, t', r) && id !in t
    ensures r.Renewed? <==> exists k :: HasAlready(t, req, now, k)
    ensures r.Renewed? ==> exists k :: HasAlready(t, req, now, k) && k in t' && t'[k] == r.lease
                                       && r.lease == t[k].(expiresAt := now + req.ttl, note := r.lease.note, automatic := t[k].automatic && req.automatic)
                                       && r.lease.note == if req.note.Some? then req.note else t[k].note
    ensures r.New? ==> && id in t' && t'[id] == r.lease && r.lease.id == id && r.lease.resource == req.resource && r.lease.holder == req.holder
                       && r.lease.mode == req.mode && r.lease.acquiredAt == now && r.lease.expiresAt == now + req.ttl
                       && r.lease.note == req.note && r.lease.automatic == req.automatic && r.lease.amount == 0 && r.lease.heldSince.None?
    ensures forall k <- t' :: (k in t && t[k].expiresAt > now && t'[k] == t[k]) || (!r.Refused? && t'[k] == r.lease)
    ensures forall k <- t :: t[k].expiresAt > now ==> k in t' && (t'[k] == t[k] || (r.Renewed? && t'[k] == r.lease))
  {
    var live := Live(t, now);
    if k :| HasAlready(t, req, now, k) {
      assert k in live && Same(live[k], req);
    }
    if r.Renewed? {
      var k :| k in live && Same(live[k], req) && r.lease == Extend(live[k], req, now) && t' == live[k := r.lease];
      assert HasAlready(t, req, now, k);
    }
  }

  /** A claim leaves every live lease of everybody else exactly as it was, and ends none. */
  lemma ClaimLeavesOthersAlone(t: Table, req: Request, now: Time, id: LeaseId, t': Table, r: Claimed, k: LeaseId)
    requires ClaimStep(t, req, now, id, t', r) && id !in t
    requires k in t && !t[k].IsExpired(now) && t[k].holder != req.holder
    ensures k in t' && t'[k] == t[k]
  {
    assert k in Live(t, now);
  }

  /** The automatic mark only ever falls: a deliberate lease stays deliberate. */
  lemma DeliberateStaysDeliberate(t: Table, req: Request, now: Time, id: LeaseId, t': Table, r: Claimed, k: LeaseId)
    requires ClaimStep(t, req, now, id, t', r) && id !in t
    requires k in t && k in t' && !t[k].automatic
    ensures !t'[k].automatic
  {
    assert k in Live(t, now);
  }

  /** Moving all of one holder's leases at once is always safe. */
  lemma TransferKeepsExclusion(t: Table, from: AgentId, to: AgentId, now: Time)
    requires Exclusion(t)
    ensures Exclusion(Moved(Live(t, now), HeldBy(Live(t, now), from, false), to, now))
  {
  }

  /** Nothing the giver keeps is in the way of what it gives. */
  ghost predicate NothingStranded(t: Table, from: AgentId, ids: set<LeaseId>, now: Time) {
    forall i <- t, j <- t ::
      i in Offered(t, from, ids, now) && j !in Offered(t, from, ids, now) && t[j].holder == from ==>
      !(Overlaps(t[i].resource, t[j].resource) && (t[i].mode == Exclusive || t[j].mode == Exclusive))
  }

  /** Moving only the offered ones is safe exactly when nothing the giver keeps is in the
      way of what it gives: a condition on the table before the call. */
  lemma TransferSelectedIsSafeExactlyWhen(t: Table, from: AgentId, to: AgentId, ids: set<LeaseId>, now: Time)
    requires Exclusion(t)
    ensures Exclusion(Moved(t, Offered(t, from, ids, now), to, now)) <==> from == to || NothingStranded(t, from, ids, now)
  {
    var moving := Offered(t, from, ids, now);
    var t' := Moved(t, moving, to, now);
    if Exclusion(t') && from != to {
      forall i <- t, j <- t | i in moving && j !in moving && t[j].holder == from
        ensures !(Overlaps(t[i].resource, t[j].resource) && (t[i].mode == Exclusive || t[j].mode == Exclusive))
      {
        assert !t'[i].Blocks(t'[j].holder, t'[j].mode, t'[j].resource);
      }
    } else if !Exclusion(t') {
      var i, j :| i in t' && j in t' && t'[i].Blocks(t'[j].holder, t'[j].mode, t'[j].resource);
      OverlapIsSymmetric(t[i].resource, t[j].resource);
      assert !t[i].Blocks(t[j].holder, t[j].mode, t[j].resource);
    }
  }

  lemma LiveMoves(t: Table, from: AgentId, to: AgentId, ids: set<LeaseId>, now: Time)
    ensures Offered(Live(t, now), from, ids, now) == Offered(t, from, ids, now)
    ensures Live(Moved(t, Offered(t, from, ids, now), to, now), now) == Moved(Live(t, now), Offered(t, from, ids, now), to, now)
  {
  }

  /** Among the leases that still count: the live ones exclude after a handoff exactly when
      nothing live that the giver keeps is in the way of what it gives. What has expired and is
      still in the table neither helps nor harms. */
  lemma LiveTransferIsSafeExactlyWhen(t: Table, from: AgentId, to: AgentId, ids: set<LeaseId>, now: Time)
    requires Exclusion(Live(t, now))
    ensures Exclusion(Live(Moved(t, Offered(t, from, ids, now), to, now), now)) <==>
            from == to || NothingStranded(Live(t, now), from, ids, now)
  {
    LiveMoves(t, from, to, ids, now);
    TransferSelectedIsSafeExactlyWhen(Live(t, now), from, to, ids, now);
  }

  /** And it can fail: when a lease in the way of the one given stays behind, two agents then
      hold overlapping leases, one of them exclusive. */
  lemma StrandedLeaseBreaksExclusion(t: Table, from: AgentId, to: AgentId, i: LeaseId, j: LeaseId, now: Time)
    requires i in t && j in t && t[i].id == i && t[j].id == j && i != j && from != to
    requires forall k <- t :: t[k].holder == from && !t[k].IsExpired(now)
    requires Overlaps(t[i].resource, t[j].resource) && t[i].mode == Exclusive
    ensures Exclusion(t) && !Exclusion(Moved(t, Offered(t, from, {i}, now), to, now))
  {
    var t' := Moved(t, Offered(t, from, {i}, now), to, now);
    assert t'[i].Blocks(t'[j].holder, t'[j].mode, t'[j].resource);
  }

  /** In terms of files: under exclusion, whoever has an exclusive lease over a path is the
      only agent with any lease over it. */
  lemma OneWriterPerPath(t: Table, path: seq<string>, i: LeaseId, j: LeaseId)
    requires Exclusion(t) && i in t && j in t
    requires Kind(t[i].resource) == Kind(t[j].resource)
    requires Covers(t[i].resource, path) && Covers(t[j].resource, path)
    requires t[i].mode == Exclusive
    ensures t[i].holder == t[j].holder
  {
    OverlapMeansSharedPath(t[i].resource, t[j].resource);
    assert !t[i].Blocks(t[j].holder, t[j].mode, t[j].resource);
  }

  // ----- The table as the daemon keeps it -----

  class LeaseTable {
    var leases: Table

    constructor ()
      ensures leases == map[]
    {
      leases := map[];
    }

    method Expire(now: Time) returns (expired: set<Lease>)
      modifies this
      ensures leases == Live(old(leases), now)
      ensures forall id :: id in leases <==> id in old(leases) && old(leases)[id].expiresAt > now
      ensures forall id <- leases :: leases[id] == old(leases)[id]
      ensures forall l <- expired :: l.expiresAt <= now
      ensures forall l :: l in old(leases).Values <==> l in leases.Values || l in expired
      ensures old(Exclusion(leases)) ==> Exclusion(leases)
    {
      ExpiredOrLive(leases, now);
      expired := set id | id in leases && leases[id].IsExpired(now) :: leases[id];
      leases := Live(leases, now);
    }

    /** `id` is the generated lease id. */
    method ClaimAs(req: Request, now: Time, id: LeaseId) returns (r: Claimed)
      modifies this
      ensures ClaimStep(old(leases), req, now, id, leases, r)
      ensures old(Exclusion(leases)) ==> Exclusion(leases)
    {
      ghost var before := leases;
      var _ := Expire(now);
      if k :| k in leases && Same(leases[k], req) {
        var lease := Extend(leases[k], req, now);
        leases := leases[k := lease];
        r := Renewed(lease);
      } else {
        var heldBy := Blockers(leases, req);
        if heldBy != {} {
          r := Refused(heldBy);
        } else {
          var lease := Fresh(id, req, now);
          leases := leases[id := lease];
          r := New(lease);
        }
      }
      if Exclusion(before) {
        ClaimKeepsExclusion(before, req, now, id, leases, r);
      }
    }

    /** What has expired goes; then only the holder of a lease still there extends it. */
    method Renew(id: LeaseId, holder: AgentId, ttl: int, now: Time) returns (r: Result<Lease, LeaseError>)
      modifies this
      ensures var there := id in old(leases) && old(leases)[id].expiresAt > now;
              && (r.Ok? <==> there && old(leases)[id].holder == holder)
              && (r == Err(NotFound(id)) <==> !there)
              && (there && old(leases)[id].holder != holder <==> r.Err? && r.error.NotHolder?)
              && (r.Err? && r.error.NotHolder? ==> r == Err(NotHolder(id, old(leases)[id].holder, holder)))
      ensures r.Ok? ==> r.value == old(leases)[id].(expiresAt := now + ttl) && id in leases && leases[id] == r.value
      ensures forall k :: (k in leases <==> k in old(leases) && old(leases)[k].expiresAt > now)
      ensures forall k <- leases :: k != id || r.Err? ==> leases[k] == old(leases)[k]
      ensures old(Exclusion(leases)) ==> Exclusion(leases)
    {
      var _ := Expire(now);
      if Owned(leases, id, holder) {
        var lease := leases[id].(expiresAt := now + ttl);
        leases := leases[id := lease];
        r := Ok(lease);
      } else {
        r := Err(OwnershipError(leases, id, holder));
      }
    }

    /** Only the holder ends a lease, and only that one; expiry does not matter. */
    method Release(id: LeaseId, holder: AgentId) returns (r: Result<Lease, LeaseError>)
      modifies this
      ensures r.Ok? <==> id in old(leases) && old(leases)[id].holder == holder
      ensures r == Err(NotFound(id)) <==> id !in old(leases)
      ensures id in old(leases) && old(leases)[id].holder != holder <==> r.Err? && r.error.NotHolder?
      ensures r.Err? && r.error.NotHolder? ==> r == Err(NotHolder(id, old(leases)[id].holder, holder))
      ensures r.Ok? ==> r.value == old(leases)[id] && leases == old(leases) - {id}
      ensures r.Err? ==> leases == old(leases)
      ensures old(Exclusion(leases)) ==> Exclusion(leases)
    {
      if Owned(leases, id, holder) {
        r := Ok(leases[id]);
        leases := Without(leases, {id});
      } else {
        r := Err(OwnershipError(leases, id, holder));
      }
    }

    /** All of the holder's leases end, or only those taken for it automatically; nobody else's. */
    method ReleaseHeld(holder: AgentId, onlyAutomatic: bool) returns (released: set<Lease>)
      modifies this
      ensures forall id <- leases :: id in old(leases) && leases[id] == old(leases)[id]
      ensures forall id <- old(leases) :: id in leases <==>
                old(leases)[id].holder != holder || (onlyAutomatic && !old(leases)[id].automatic)
      ensures forall l :: l in released <==> exists id <- old(leases) :: old(leases)[id] == l && id !in leases
      ensures old(Exclusion(leases)) ==> Exclusion(leases)
    {
      var ids := HeldBy(leases, holder, onlyAutomatic);
      released := set id | id in ids :: leases[id];
      leases := Without(leases, ids);
    }

    /** Every live lease of the giver, and no other, changes hands, and nothing else of it but
        since when. */
    method Transfer(from: AgentId, to: AgentId, now: Time) returns (moved: set<Lease>)
      modifies this
      ensures forall id :: id in leases <==> id in old(leases) && old(leases)[id].expiresAt > now
      ensures forall id <- leases :: leases[id] ==
                if old(leases)[id].holder == from then old(leases)[id].(holder := to, heldSince := Some(now)) else old(leases)[id]
      ensures forall l :: l in moved <==> exists id <- leases :: leases[id] == l && old(leases)[id].holder == from
      ensures old(Exclusion(leases)) ==> Exclusion(leases)
    {
      ghost var before := leases;
      var _ := Expire(now);
      var ids := HeldBy(leases, from, false);
      leases := Moved(leases, ids, to, now);
      moved := set id | id in ids :: leases[id];
      if Exclusion(before) {
        TransferKeepsExclusion(before, from, to, now);
      }
    }

    /** Only live leases of the giver's, among those offered, change hands, and nothing else of
        them but since when; exclusion is kept exactly when nothing is stranded. */
    method TransferSelected(from: AgentId, to: AgentId, ids: set<LeaseId>, now: Time) returns (moved: set<Lease>)
      modifies this
      ensures leases == Moved(old(leases), Offered(old(leases), from, ids, now), to, now)
      ensures leases.Keys == old(leases).Keys
      ensures forall id <- leases :: leases[id] ==
                var was := old(leases)[id];
                if was.holder == from && was.id in ids && was.expiresAt > now then was.(holder := to, heldSince := Some(now)) else was
      ensures moved == set id | id in Offered(old(leases), from, ids, now) :: leases[id]
      ensures old(Exclusion(leases)) ==> (Exclusion(leases) <==> from == to || old(NothingStranded(leases, from, ids, now)))
    {
      if Exclusion(leases) {
        TransferSelectedIsSafeExactlyWhen(leases, from, to, ids, now);
      }
      var moving := Offered(leases, from, ids, now);
      leases := Moved(leases, moving, to, now);
      moved := set id | id in moving :: leases[id];
    }

    method Restore(lease: Lease)
      modifies this
      ensures leases == old(leases)[lease.id := lease]
    {
      leases := leases[lease.id := lease];
    }

    /** Accepting a handoff: the leases offered change hands, and when that could not be
        written down, each is put back as it was noted before, and the table is what it was. */
    method AcceptHandoff(from: AgentId, to: AgentId, ids: set<LeaseId>, now: Time, written: bool) returns (moved: set<Lease>)
      requires Keyed(leases)
      modifies this
      ensures written ==> leases == Moved(old(leases), Offered(old(leases), from, ids, now), to, now)
      ensures !written ==> leases == old(leases)
    {
      ghost var was := leases;
      var before := map id | id in leases && id in ids :: leases[id];
      ghost var moving := Offered(leases, from, ids, now);
      moved := TransferSelected(from, to, ids, now);
      if written {
        return;
      }
      var todo := set l | l in moved :: l.id;
      IdsOfMoved(was, moving, to, now);
      while todo != {}
        invariant todo <= moving && leases == Moved(was, todo, to, now)
        decreases todo
      {
        var id :| id in todo;
        OneBack(was, todo, id, to, now);
        Restore(before[id]);
        todo := todo - {id};
      }
      assert Moved(was, {}, to, now) == was;
    }
  }

  lemma IdsOfMoved(t: Table, moving: set<LeaseId>, to: AgentId, now: Time)
    requires Keyed(t) && moving <= t.Keys
    ensures var moved := set id | id in moving :: Moved(t, moving, to, now)[id];
            (set l | l in moved :: l.id) == moving
  {
    var t' := Moved(t, moving, to, now);
    var moved := set id | id in moving :: t'[id];
    forall id | id in moving
      ensures id in (set l | l in moved :: l.id)
    {
      assert t'[id] in moved && t'[id].id == id;
    }
  }

  lemma OneBack(t: Table, todo: set<LeaseId>, id: LeaseId, to: AgentId, now: Time)
    requires id in t && id in todo
    ensures Moved(t, todo, to, now)[id := t[id]] == Moved(t, todo - {id}, to, now)
  {
  }

  lemma ExpiredOrLive(t: Table, now: Time)
    ensures forall l :: l in t.Values <==> l in Live(t, now).Values || l in (set id | id in t && t[id].IsExpired(now) :: t[id])
  {
    forall l | l in t.Values
      ensures l in Live(t, now).Values || l in (set id | id in t && t[id].IsExpired(now) :: t[id])
    {
      var id :| id in t && t[id] == l;
      if !l.IsExpired(now) {
        assert id in Live(t, now) && Live(t, now)[id] == l;
      }
    }
  }
}
