/** Planning a prune and carrying it out while the machine goes on changing
    (scripts/build_storage.py, `owned_caches`, `plan_prune` and `prune`). */
module Pruning {
  import opened Wrappers
  import opened Worktrees

  const TARGET: Path := ["target"]
  const FUZZ_TARGET: Path := ["fuzz", "target"]

  /** `owned_caches`: measured, or a link. */
  function OwnedCaches(record: Record, caches: map<Path, nat>, links: set<Path>): Owned {
    OwnedCache(record.path + TARGET, caches, links) + OwnedCache(record.path + FUZZ_TARGET, caches, links)
  }

  function OwnedCache(cache: Path, caches: map<Path, nat>, links: set<Path>): Owned {
    if cache in caches then [(cache, caches[cache])] else if cache in links then [(cache, 0)] else []
  }

  /** A worktree owns `target` and `fuzz/target` in it, as far as they were measured, with the
      size measured, or are links, with none. */
  lemma OwnedCachesAre(record: Record, caches: map<Path, nat>, links: set<Path>, cache: Path, size: nat)
    ensures (cache, size) in OwnedCaches(record, caches, links) <==>
            && (cache == record.path + ["target"] || cache == record.path + ["fuzz", "target"])
            && if cache in caches then size == caches[cache] else cache in links && size == 0
  {
  }

  /** The size of the first `n` caches. */
  function BytesTo(owned: Owned, n: nat): nat
    requires n <= |owned|
  {
    if n == 0 then 0 else BytesTo(owned, n - 1) + owned[n - 1].1
  }

  function Bytes(owned: Owned): nat { BytesTo(owned, |owned|) }

  datatype Entry = Entry(root: Path, owned: Owned, verdict: Verdict)

  // ----- The plan -----

  /** What the plan is made from. */
  datatype Survey = Survey(caches: map<Path, nat>, site: Site, known: Known, probe: Record -> Probe)

  function EntryFor(record: Record, s: Survey): Entry {
    var owned := OwnedCaches(record, s.caches, s.probe(record).links);
    Entry(record.path, owned, Judge(record, owned, s.site, s.known, s.probe(record)))
  }

  /** The entries of the first `n` records that own caches. */
  function Owning(records: seq<Record>, s: Survey, n: nat): seq<Entry>
    requires n <= |records|
  {
    if n == 0 then [] else
    var before := Owning(records, s, n - 1);
    var entry := EntryFor(records[n - 1], s);
    if entry.owned == [] then before else before + [entry]
  }

  function Only(entries: seq<Entry>, free: bool): seq<Entry> {
    if entries == [] then [] else
    var last := entries[|entries| - 1];
    Only(entries[..|entries| - 1], free) + if last.verdict.Free? == free then [last] else []
  }

  lemma OnlyGrows(entries: seq<Entry>, entry: Entry, free: bool)
    ensures Only(entries + [entry], free) == if entry.verdict.Free? == free then Only(entries, free) + [entry] else Only(entries, free)
  {
    assert (entries + [entry])[..|entries|] == entries;
  }

  /** `plan_prune`. */
  method PlanPrune(records: seq<Record>, s: Survey) returns (prunable: seq<Entry>, kept: seq<Entry>)
    ensures prunable == Only(Owning(records, s, |records|), true)
    ensures kept == Only(Owning(records, s, |records|), false)
  {
    prunable, kept := [], [];
    for n := 0 to |records|
      invariant prunable == Only(Owning(records, s, n), true)
      invariant kept == Only(Owning(records, s, n), false)
    {
      var record := records[n];
      var owned := OwnedCaches(record, s.caches, s.probe(record).links);
      if owned == [] {
        continue;
      }
      var verdict := Decide(record, owned, s.site, s.known, s.probe(record));
      var entry := Entry(record.path, owned, verdict);
      OnlyGrows(Owning(records, s, n), entry, true);
      OnlyGrows(Owning(records, s, n), entry, false);
      if verdict.Keep? {
        kept := kept + [entry];
      } else {
        prunable := prunable + [entry];
      }
    }
  }

  lemma {:induction false} SidesFollowVerdicts(entries: seq<Entry>, free: bool)
    ensures forall e <- Only(entries, free) :: e.verdict.Free? == free
  {
    if entries != [] {
      SidesFollowVerdicts(entries[..|entries| - 1], free);
    }
  }

  /** The plan splits the worktrees that own caches: none is lost and none is in it twice. */
  lemma {:induction false} PlanSplits(entries: seq<Entry>)
    ensures multiset(Only(entries, true)) + multiset(Only(entries, false)) == multiset(entries)
  {
    if entries != [] {
      var before, last := entries[..|entries| - 1], entries[|entries| - 1];
      PlanSplits(before);
      assert entries == before + [last];
      OnlyGrows(before, last, true);
      OnlyGrows(before, last, false);
    }
  }

  // ----- The removals -----

  /** What is found right before one worktree's caches go. */
  datatype View = View(known: Known, probe: Probe)

  /** The record a root stands for: the last of that path. */
  function ByRoot(records: seq<Record>, root: Path): Option<Record> {
    if records == [] then None
    else if records[|records| - 1].path == root then Some(records[|records| - 1])
    else ByRoot(records[..|records| - 1], root)
  }

  /** What a fresh look at an entry's worktree says. */
  ghost function LookAgain(e: Entry, records: seq<Record>, site: Site, view: View): Verdict {
    var record := ByRoot(records, e.root);
    if record.Some? then Judge(record.value, e.owned, site, view.known, view.probe) else Keep(CurrentWorktree)
  }

  /** The verdicts of the fresh looks, each made when its entry comes up. */
  ghost function FreshLooks(prunable: seq<Entry>, records: seq<Record>, site: Site, view: nat -> View): seq<Verdict> {
    seq(|prunable|, k requires 0 <= k < |prunable| => LookAgain(prunable[k], records, site, view(k)))
  }

  /** Of the first `n` caches, the bytes that go and the bytes that cannot be removed. */
  function GoneTo(owned: Owned, removes: Path -> bool, n: nat): nat
    requires n <= |owned|
  {
    if n == 0 then 0 else GoneTo(owned, removes, n - 1) + if removes(owned[n - 1].0) then owned[n - 1].1 else 0
  }

  function StuckTo(owned: Owned, removes: Path -> bool, n: nat): nat
    requires n <= |owned|
  {
    if n == 0 then 0 else StuckTo(owned, removes, n - 1) + if removes(owned[n - 1].0) then 0 else owned[n - 1].1
  }

  lemma {:induction false} GoneOrStuck(owned: Owned, removes: Path -> bool, n: nat)
    requires n <= |owned|
    ensures GoneTo(owned, removes, n) + StuckTo(owned, removes, n) == BytesTo(owned, n)
  {
    if n > 0 {
      GoneOrStuck(owned, removes, n - 1);
    }
  }

  /** What becomes of the plan's bytes: gone, still there because removing failed, left alone
      because the worktree is in use by now. */
  datatype Tally = Tally(planned: nat, freed: nat, failed: nat, skipped: nat)

  function TallyTo(prunable: seq<Entry>, looks: seq<Verdict>, removes: nat -> Path -> bool, n: nat): Tally
    requires n <= |prunable| == |looks|
  {
    if n == 0 then Tally(0, 0, 0, 0) else
    var t, owned := TallyTo(prunable, looks, removes, n - 1), prunable[n - 1].owned;
    if looks[n - 1].Free?
    then Tally(t.planned + Bytes(owned), t.freed + GoneTo(owned, removes(n - 1), |owned|), t.failed + StuckTo(owned, removes(n - 1), |owned|), t.skipped)
    else Tally(t.planned + Bytes(owned), t.freed, t.failed, t.skipped + Bytes(owned))
  }

  /** Every byte the plan named is freed, failed or skipped, whatever happened meanwhile. */
  lemma {:induction false} BytesAreConserved(prunable: seq<Entry>, looks: seq<Verdict>, removes: nat -> Path -> bool, n: nat)
    requires n <= |prunable| == |looks|
    ensures var t := TallyTo(prunable, looks, removes, n);
            t.planned == t.freed + t.failed + t.skipped
  {
    if n > 0 {
      BytesAreConserved(prunable, looks, removes, n - 1);
      GoneOrStuck(prunable[n - 1].owned, removes(n - 1), |prunable[n - 1].owned|);
    }
  }

  /** The caches that go, in order, and how many cannot be removed. */
  function GoneCaches(owned: Owned, removes: Path -> bool, n: nat): seq<Path>
    requires n <= |owned|
  {
    if n == 0 then [] else
    if removes(owned[n - 1].0) then GoneCaches(owned, removes, n - 1) + [owned[n - 1].0] else GoneCaches(owned, removes, n - 1)
  }

  function StuckCaches(owned: Owned, removes: Path -> bool, n: nat): nat
    requires n <= |owned|
  {
    if n == 0 then 0 else StuckCaches(owned, removes, n - 1) + if removes(owned[n - 1].0) then 0 else 1
  }

  datatype Outcome = Outcome(removed: seq<Path>, freed: nat, failures: nat)

  function OutcomeTo(prunable: seq<Entry>, looks: seq<Verdict>, removes: nat -> Path -> bool, n: nat): Outcome
    requires n <= |prunable| == |looks|
  {
    if n == 0 then Outcome([], 0, 0) else
    var o, owned := OutcomeTo(prunable, looks, removes, n - 1), prunable[n - 1].owned;
    if looks[n - 1].Free?
    then Outcome(o.removed + GoneCaches(owned, removes(n - 1), |owned|), o.freed + GoneTo(owned, removes(n - 1), |owned|),
                 o.failures + StuckCaches(owned, removes(n - 1), |owned|))
    else o
  }

  /** One worktree's caches. */
  method RemoveCaches(owned: Owned, removes: Path -> bool) returns (gone: seq<Path>, freed: nat, failures: nat)
    ensures gone == GoneCaches(owned, removes, |owned|)
    ensures freed == GoneTo(owned, removes, |owned|)
    ensures failures == StuckCaches(owned, removes, |owned|)
  {
    gone, freed, failures := [], 0, 0;
    for i := 0 to |owned|
      invariant gone == GoneCaches(owned, removes, i)
      invariant freed == GoneTo(owned, removes, i)
      invariant failures == StuckCaches(owned, removes, i)
    {
      var (cache, size) := owned[i];
      if removes(cache) {
        gone, freed := gone + [cache], freed + size;
      } else {
        failures := failures + 1;
      }
    }
  }

  /** The entries among the first `n` that a fresh look keeps, with why. */
  function SkippedTo(prunable: seq<Entry>, looks: seq<Verdict>, n: nat): seq<Entry>
    requires n <= |prunable| == |looks|
  {
    if n == 0 then [] else
    if looks[n - 1].Free? then SkippedTo(prunable, looks, n - 1)
    else SkippedTo(prunable, looks, n - 1) + [prunable[n - 1].(verdict := looks[n - 1])]
  }

  method FreshLook(e: Entry, records: seq<Record>, site: Site, view: View) returns (v: Verdict)
    requires ByRoot(records, e.root).Some?
    ensures v == LookAgain(e, records, site, view)
  {
    v := Decide(ByRoot(records, e.root).value, e.owned, site, view.known, view.probe);
  }

  /** The removing part of `prune`. `view(k)` is what the fresh leases, processes, branch and
      file system say when entry `k` comes up: anything may have changed since the plan. */
  method Remove(prunable: seq<Entry>, records: seq<Record>, site: Site, view: nat -> View, removes: nat -> Path -> bool, ghost looks: seq<Verdict>)
    returns (done: Outcome, skipped: seq<Entry>, code: int)
    requires looks == FreshLooks(prunable, records, site, view) && forall e <- prunable :: ByRoot(records, e.root).Some?
    ensures done == OutcomeTo(prunable, looks, removes, |prunable|)
    ensures skipped == SkippedTo(prunable, looks, |prunable|)
    ensures code == if done.failures > 0 then 1 else 0
  {
    done, skipped := Outcome([], 0, 0), [];
    for k := 0 to |prunable|
      invariant done == OutcomeTo(prunable, looks, removes, k)
      invariant skipped == SkippedTo(prunable, looks, k)
    {
      var e := prunable[k];
      var v := FreshLook(e, records, site, view(k));
      assert v == looks[k];
      if v.Keep? {
        skipped := skipped + [e.(verdict := v)];
      } else {
        var gone, freed, failures := RemoveCaches(e.owned, removes(k));
        done := Outcome(done.removed + gone, done.freed + freed, done.failures + failures);
      }
    }
    code := if done.failures > 0 then 1 else 0;
  }

  /** `prune`: the plan, and unless it is a dry run or the build slot is refused, the removals.
      `view(k)` answers the fresh look at the plan's entry `k`. */
  method Prune(records: seq<Record>, s: Survey, dryRun: bool, slot: bool, view: nat -> View, removes: nat -> Path -> bool)
    returns (done: Outcome, kept: seq<Entry>, code: int)
    ensures var all := Owning(records, s, |records|);
            var prunable := Only(all, true);
            var looks := FreshLooks(prunable, records, s.site, view);
            if dryRun || (prunable != [] && !slot)
            then done == Outcome([], 0, 0) && kept == Only(all, false)
            else done == OutcomeTo(prunable, looks, removes, |prunable|) && kept == Only(all, false) + SkippedTo(prunable, looks, |prunable|)
    ensures code == 0 <==> dryRun || Only(Owning(records, s, |records|), true) == [] || (slot && done.failures == 0)
  {
    var prunable;
    prunable, kept := PlanPrune(records, s);
    ghost var looks := FreshLooks(prunable, records, s.site, view);
    done, code := Outcome([], 0, 0), 0;
    if dryRun {
      return;
    }
    if prunable != [] && !slot {
      code := 1;
      return;
    }
    PlannedHaveRecords(records, s, |records|);
    var skipped;
    done, skipped, code := Remove(prunable, records, s.site, view, removes, looks);
    kept := kept + skipped;
  }

  lemma {:induction false} KnownByRoot(records: seq<Record>, i: nat)
    requires i < |records|
    ensures ByRoot(records, records[i].path).Some?
  {
    var most := records[..|records| - 1];
    if i < |most| {
      KnownByRoot(most, i);
    }
  }

  lemma {:induction false} OwningHaveRecords(records: seq<Record>, s: Survey, n: nat)
    requires n <= |records|
    ensures forall e <- Owning(records, s, n) :: ByRoot(records, e.root).Some?
  {
    if n > 0 {
      OwningHaveRecords(records, s, n - 1);
      KnownByRoot(records, n - 1);
    }
  }

  lemma {:induction false} OnlySome(entries: seq<Entry>, free: bool)
    ensures forall e <- Only(entries, free) :: e in entries
  {
    if entries != [] {
      OnlySome(entries[..|entries| - 1], free);
    }
  }

  lemma PlannedHaveRecords(records: seq<Record>, s: Survey, n: nat)
    requires n <= |records|
    ensures forall e <- Only(Owning(records, s, n), true) :: ByRoot(records, e.root).Some?
  {
    OwningHaveRecords(records, s, n);
    OnlySome(Owning(records, s, n), true);
  }

  // ----- What every run of the removals keeps -----

  lemma {:induction false} GoneCachesAre(owned: Owned, removes: Path -> bool, n: nat, cache: Path)
    requires n <= |owned|
    ensures cache in GoneCaches(owned, removes, n) <==> removes(cache) && exists i :: 0 <= i < n && owned[i].0 == cache
  {
    if n > 0 {
      GoneCachesAre(owned, removes, n - 1, cache);
      if owned[n - 1].0 == cache {
      }
    }
  }

  /** Exactly the caches of the worktrees that a fresh look judged free, and that could be
      removed, are gone. */
  lemma {:induction false} RemovedExactlyWhen(prunable: seq<Entry>, looks: seq<Verdict>, removes: nat -> Path -> bool, n: nat, cache: Path)
    requires n <= |prunable| == |looks|
    ensures cache in OutcomeTo(prunable, looks, removes, n).removed <==>
            exists k: nat :: k < n && GoesAt(prunable, looks, removes, k, cache)
  {
    if n > 0 {
      RemovedExactlyWhen(prunable, looks, removes, n - 1, cache);
      GoneCachesAre(prunable[n - 1].owned, removes(n - 1), |prunable[n - 1].owned|, cache);
      if GoesAt(prunable, looks, removes, n - 1, cache) {
      }
    }
  }

  /** The cache goes when entry `k` comes up: its worktree is judged free, and it can be removed. */
  ghost predicate GoesAt(prunable: seq<Entry>, looks: seq<Verdict>, removes: nat -> Path -> bool, k: nat, cache: Path)
    requires k < |prunable| == |looks|
  {
    looks[k].Free? && Owns(prunable[k], cache) && removes(k)(cache)
  }

  ghost predicate Owns(e: Entry, cache: Path) {
    exists i :: 0 <= i < |e.owned| && e.owned[i].0 == cache
  }

  lemma {:induction false} FreedIsTallied(prunable: seq<Entry>, looks: seq<Verdict>, removes: nat -> Path -> bool, n: nat)
    requires n <= |prunable| == |looks|
    ensures OutcomeTo(prunable, looks, removes, n).freed == TallyTo(prunable, looks, removes, n).freed
  {
    if n > 0 {
      FreedIsTallied(prunable, looks, removes, n - 1);
    }
  }

  /** The size of all caches of some entries. */
  function BytesOf(entries: seq<Entry>): nat {
    if entries == [] then 0 else BytesOf(entries[..|entries| - 1]) + Bytes(entries[|entries| - 1].owned)
  }

  lemma BytesOfMore(entries: seq<Entry>, e: Entry)
    ensures BytesOf(entries + [e]) == BytesOf(entries) + Bytes(e.owned)
  {
    assert (entries + [e])[..|entries|] == entries;
  }

  /** What the tally counts: planned are the caches of all entries, skipped those of the entries
      kept at the fresh look, freed what the outcome reports; the rest could not be removed. */
  lemma {:induction false} TallyMeans(prunable: seq<Entry>, looks: seq<Verdict>, removes: nat -> Path -> bool, n: nat)
    requires n <= |prunable| == |looks|
    ensures var t := TallyTo(prunable, looks, removes, n);
            && t.planned == BytesOf(prunable[..n]) && t.skipped == BytesOf(SkippedTo(prunable, looks, n))
            && t.freed == OutcomeTo(prunable, looks, removes, n).freed && t.failed == t.planned - t.freed - t.skipped
  {
    BytesAreConserved(prunable, looks, removes, n);
    FreedIsTallied(prunable, looks, removes, n);
    if n > 0 {
      TallyMeans(prunable, looks, removes, n - 1);
      assert prunable[..n] == prunable[..n - 1] + [prunable[n - 1]];
      BytesOfMore(prunable[..n - 1], prunable[n - 1]);
      BytesOfMore(SkippedTo(prunable, looks, n - 1), prunable[n - 1].(verdict := looks[n - 1]));
    }
  }

  /** In every run, whatever changed since the plan: a cache that is gone belonged to a
      worktree that was, at that moment, neither the caller's nor the main checkout, used by
      nothing, and merged or without a branch; and it was not the caller's target. */
  lemma RemovalsAreJustified(prunable: seq<Entry>, records: seq<Record>, site: Site, view: nat -> View, removes: nat -> Path -> bool,
                             looks: seq<Verdict>, cache: Path)
    returns (k: nat)
    requires looks == FreshLooks(prunable, records, site, view)
    requires cache in OutcomeTo(prunable, looks, removes, |prunable|).removed
    ensures k < |prunable| && Owns(prunable[k], cache) && cache != site.target && ByRoot(records, prunable[k].root).Some?
    ensures var record := ByRoot(records, prunable[k].root).value;
            && record.path != site.root && site.main != Some(record.path)
            && Unused(view(k).known, record) && (view(k).probe.state.Merged? || view(k).probe.state.Absent?)
            && (forall text :: "path:" + text in view(k).known.leases.value ==>
                  !(record.path <= PathOf(text)) && !(PathOf(text) <= record.path))
            && cache !in view(k).probe.links && cache !in view(k).probe.locked
  {
    RemovedExactlyWhen(prunable, looks, removes, |prunable|, cache);
    k :| k < |prunable| && GoesAt(prunable, looks, removes, k, cache);
    assert LookAgain(prunable[k], records, site, view(k)).Free?;
    var record, owned := ByRoot(records, prunable[k].root).value, prunable[k].owned;
    FreeExactlyWhen(record, owned, site, view(k).known, view(k).probe);
    var i :| 0 <= i < |owned| && owned[i].0 == cache;
    assert owned[i] in owned;
  }

  // ----- What a removal may take with it -----

  /** Removing a directory takes everything under it. */
  predicate Loses(cache: Path, path: Path) { Within(path, cache) }

  /** Nothing that goes takes the path with it. */
  ghost predicate Survives(removed: seq<Path>, path: Path) {
    forall cache <- removed :: !Loses(cache, path)
  }

  /** Some entry judged free at its turn owns such a cache, and it can be removed. */
  ghost predicate SomeGoes(prunable: seq<Entry>, looks: seq<Verdict>, removes: nat -> Path -> bool, bad: (Path, Path) -> bool)
    requires |prunable| == |looks|
  {
    exists k: nat, cache :: k < |prunable| && GoesAt(prunable, looks, removes, k, cache) && bad(prunable[k].root, cache)
  }

  lemma NoneGoesExactlyWhen(prunable: seq<Entry>, looks: seq<Verdict>, removes: nat -> Path -> bool, lost: Path -> bool, bad: (Path, Path) -> bool)
    requires |prunable| == |looks|
    requires forall k: nat, cache :: k < |prunable| && GoesAt(prunable, looks, removes, k, cache) ==> (bad(prunable[k].root, cache) <==> lost(cache))
    ensures (forall cache <- OutcomeTo(prunable, looks, removes, |prunable|).removed :: !lost(cache)) <==> !SomeGoes(prunable, looks, removes, bad)
  {
    var removed := OutcomeTo(prunable, looks, removes, |prunable|).removed;
    forall cache: Path
      ensures cache in removed <==> exists k: nat :: k < |prunable| && GoesAt(prunable, looks, removes, k, cache)
    {
      RemovedExactlyWhen(prunable, looks, removes, |prunable|, cache);
    }
    if SomeGoes(prunable, looks, removes, bad) {
      var k: nat, cache :| k < |prunable| && GoesAt(prunable, looks, removes, k, cache) && bad(prunable[k].root, cache);
      assert cache in removed && lost(cache);
    }
    if exists cache <- removed :: lost(cache) {
      var cache :| cache in removed && lost(cache);
      var k: nat :| k < |prunable| && GoesAt(prunable, looks, removes, k, cache);
      assert bad(prunable[k].root, cache);
    }
  }

  lemma FreeSparesTarget(prunable: seq<Entry>, records: seq<Record>, site: Site, view: nat -> View, removes: nat -> Path -> bool, k: nat, cache: Path)
    requires k < |prunable| && GoesAt(prunable, FreshLooks(prunable, records, site, view), removes, k, cache)
    ensures cache != site.target
  {
    assert LookAgain(prunable[k], records, site, view(k)).Free?;
    var owned := prunable[k].owned;
    FreeExactlyWhen(ByRoot(records, prunable[k].root).value, owned, site, view(k).known, view(k).probe);
    var i :| 0 <= i < |owned| && owned[i].0 == cache;
    assert owned[i] in owned;
  }

  /** The caller's target survives a run exactly when no entry judged free at its turn owns a
      removable cache strictly above it: the decision only compares them for equality. */
  lemma TargetSurvivesExactlyWhen(prunable: seq<Entry>, records: seq<Record>, site: Site, view: nat -> View, removes: nat -> Path -> bool)
    ensures var looks := FreshLooks(prunable, records, site, view);
            Survives(OutcomeTo(prunable, looks, removes, |prunable|).removed, site.target) <==>
            !SomeGoes(prunable, looks, removes, (root: Path, cache: Path) => cache < site.target)
  {
    var looks := FreshLooks(prunable, records, site, view);
    var lost := (cache: Path) => Loses(cache, site.target);
    var bad := (root: Path, cache: Path) => cache < site.target;
    forall k: nat, cache | k < |prunable| && GoesAt(prunable, looks, removes, k, cache)
      ensures bad(prunable[k].root, cache) <==> lost(cache)
    {
      FreeSparesTarget(prunable, records, site, view, removes, k, cache);
    }
    NoneGoesExactlyWhen(prunable, looks, removes, lost, bad);
  }

  /** A target kept inside another worktree's cache is such a case. */
  lemma TargetUnderCacheIsLost()
    ensures var record, owned := Record(["/", "w"], Some("done"), None), [(["/", "w", "target"], 5)];
            var site := Site(["/", "here"], ["/", "w", "target", "here"], Some(["/", "main"]));
            && Judge(record, owned, site, Known(Some({}), Some([])), Probe(Merged, {}, {})).Free?
            && Loses(owned[0].0, site.target)
  {
    var target := ["/", "w", "target"];
    assert |target| != |["/", "w", "target", "here"]|;
    assert ["/", "w", "target", "here"] == target + ["here"];
    assert ["/", "w"][1] != ["/", "here"][1] && ["/", "w"][1] != ["/", "main"][1] by {
      assert |"w"| != |"here"| && |"w"| != |"main"|;
    }
  }

  // ----- The main checkout's caches -----

  /** Removing this cache of the worktree at `root` takes a cache of the main checkout with it:
      the main checkout lies inside it, or one of the two is the other's `fuzz` directory. */
  predicate Endangers(root: Path, cache: Path, main: Path) {
    || Within(main, cache)
    || (cache == root + TARGET && root == main + ["fuzz"])
    || (cache == root + FUZZ_TARGET && main == root + ["fuzz"])
  }

  lemma MeetsMain(root: Path, main: Path)
    requires root != main
    ensures Loses(root + TARGET, main + TARGET) || Loses(root + TARGET, main + FUZZ_TARGET) <==>
            Within(main, root + TARGET) || root == main + ["fuzz"]
    ensures Loses(root + FUZZ_TARGET, main + TARGET) || Loses(root + FUZZ_TARGET, main + FUZZ_TARGET) <==>
            Within(main, root + FUZZ_TARGET) || main == root + ["fuzz"]
  {
    TargetMeets(root, main, "fuzz", "target");
    FuzzTargetMeets(root, main, "fuzz", "target");
  }

  lemma {:induction false} FoundByRoot(records: seq<Record>, root: Path)
    requires ByRoot(records, root).Some?
    ensures ByRoot(records, root).value.path == root
  {
    if records[|records| - 1].path != root {
      FoundByRoot(records[..|records| - 1], root);
    }
  }

  /** The two places of a worktree's caches. */
  predicate InPlace(e: Entry) {
    forall o <- e.owned :: o.0 == e.root + TARGET || o.0 == e.root + FUZZ_TARGET
  }

  lemma {:induction false} OwningAreInPlace(records: seq<Record>, s: Survey, n: nat)
    requires n <= |records|
    ensures forall e <- Owning(records, s, n) :: InPlace(e)
  {
    if n > 0 {
      OwningAreInPlace(records, s, n - 1);
    }
  }

  lemma EndangersExactlyWhen(root: Path, cache: Path, main: Path)
    requires root != main && (cache == root + TARGET || cache == root + FUZZ_TARGET)
    ensures Endangers(root, cache, main) <==> Loses(cache, main + TARGET) || Loses(cache, main + FUZZ_TARGET)
  {
    MeetsMain(root, main);
    assert |root + TARGET| != |root + FUZZ_TARGET|;
  }

  lemma FreeSparesMain(prunable: seq<Entry>, records: seq<Record>, site: Site, view: nat -> View, removes: nat -> Path -> bool, k: nat, cache: Path)
    requires k < |prunable| && GoesAt(prunable, FreshLooks(prunable, records, site, view), removes, k, cache) && InPlace(prunable[k])
    ensures site.main != Some(prunable[k].root)
    ensures cache == prunable[k].root + TARGET || cache == prunable[k].root + FUZZ_TARGET
  {
    assert LookAgain(prunable[k], records, site, view(k)).Free?;
    var owned := prunable[k].owned;
    FoundByRoot(records, prunable[k].root);
    FreeExactlyWhen(ByRoot(records, prunable[k].root).value, owned, site, view(k).known, view(k).probe);
    var i :| 0 <= i < |owned| && owned[i].0 == cache;
    assert owned[i] in owned;
  }

  /** The main checkout's caches survive a run exactly when no entry judged free at its turn owns
      a removable cache that endangers them: the decision only compares the two roots. */
  lemma MainSurvivesExactlyWhen(prunable: seq<Entry>, records: seq<Record>, site: Site, view: nat -> View, removes: nat -> Path -> bool, main: Path)
    requires site.main == Some(main) && forall e <- prunable :: InPlace(e)
    ensures var looks := FreshLooks(prunable, records, site, view);
            var removed := OutcomeTo(prunable, looks, removes, |prunable|).removed;
            Survives(removed, main + TARGET) && Survives(removed, main + FUZZ_TARGET) <==>
            !SomeGoes(prunable, looks, removes, (root: Path, cache: Path) => Endangers(root, cache, main))
  {
    var looks := FreshLooks(prunable, records, site, view);
    var lost := (cache: Path) => Loses(cache, main + TARGET) || Loses(cache, main + FUZZ_TARGET);
    var bad := (root: Path, cache: Path) => Endangers(root, cache, main);
    forall k: nat, cache | k < |prunable| && GoesAt(prunable, looks, removes, k, cache)
      ensures bad(prunable[k].root, cache) <==> lost(cache)
    {
      FreeSparesMain(prunable, records, site, view, removes, k, cache);
      EndangersExactlyWhen(prunable[k].root, cache, main);
    }
    NoneGoesExactlyWhen(prunable, looks, removes, lost, bad);
  }

  /** What `prune` plans to remove keeps to the two places. */
  lemma PlannedAreInPlace(records: seq<Record>, s: Survey)
    ensures forall e <- Only(Owning(records, s, |records|), true) :: InPlace(e)
  {
    OwningAreInPlace(records, s, |records|);
    OnlySome(Owning(records, s, |records|), true);
  }

  /** A main checkout in another worktree's `fuzz` directory loses its cache. */
  lemma MainUnderWorktreeIsLost()
    ensures var record, main := Record(["/", "w"], Some("done"), None), ["/", "w", "fuzz"];
            var owned := [(record.path + FUZZ_TARGET, 5)];
            var site := Site(["/", "here"], ["/", "here", "target"], Some(main));
            && Judge(record, owned, site, Known(Some({}), Some([])), Probe(Merged, {}, {})).Free?
            && Loses(owned[0].0, main + TARGET)
  {
    var root, main := ["/", "w"], ["/", "w", "fuzz"];
    assert root + FUZZ_TARGET == main + TARGET;
    assert |root| != |main|;
    assert |"w"| != |"here"|;
    assert root[1] != ["/", "here"][1];
    assert |root + FUZZ_TARGET| != |["/", "here", "target"]|;
  }

  lemma ShortPrefix(a: Path, b: Path, c: Path)
    requires |a| <= |b|
    ensures a <= b + c <==> a <= b
  {
  }

  lemma SplitPrefix(a: Path, x: Path, b: Path, y: Path)
    requires |a| == |b|
    ensures a + x <= b + y <==> a == b && x <= y
  {
    if a + x <= b + y {
      assert a == (a + x)[..|a|] == (b + y)[..|a|] == b;
      assert x == (a + x)[|a|..] == (b + y)[|a|..][..|x|];
    }
  }

  lemma TargetMeets(root: Path, main: Path, f: string, t: string)
    requires root != main && f != t
    ensures root + [t] <= main + [t] || root + [t] <= main + [f, t] <==> root + [t] <= main || root == main + [f]
  {
    if |root| < |main| {
      ShortPrefix(root + [t], main, [t]);
      ShortPrefix(root + [t], main, [f, t]);
    } else if |root| == |main| {
      SplitPrefix(root, [t], main, [t]);
      SplitPrefix(root, [t], main, [f, t]);
    } else if |root| == |main| + 1 {
      assert main + [f, t] == (main + [f]) + [t];
      SplitPrefix(root, [t], main + [f], [t]);
    }
  }

  lemma FuzzTargetMeets(root: Path, main: Path, f: string, t: string)
    requires root != main && f != t
    ensures root + [f, t] <= main + [t] || root + [f, t] <= main + [f, t] <==> root + [f, t] <= main || main == root + [f]
  {
    if |root| + 1 < |main| {
      ShortPrefix(root + [f, t], main, [t]);
      ShortPrefix(root + [f, t], main, [f, t]);
    } else if |root| + 1 == |main| {
      assert root + [f, t] == (root + [f]) + [t];
      SplitPrefix(root + [f], [t], main, [t]);
      SplitPrefix(root + [f], [t], main, [f, t]);
    } else if |root| == |main| {
      SplitPrefix(root, [f, t], main, [f, t]);
    }
  }
}
