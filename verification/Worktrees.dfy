/** Whether a worktree's build caches may go (scripts/build_storage.py, `decide`). */
module Worktrees {
  import opened Wrappers
  import ResourceKeys

  // ----- Paths -----

  /** A path as its components; an absolute one starts with its root, `/` or `//`. */
  type Path = seq<string>

  function Named(parts: seq<string>): seq<string> {
    if parts == [] then []
    else (if parts[0] == "" || parts[0] == "." then [] else [parts[0]]) + Named(parts[1..])
  }

  function PathOf(text: string): Path {
    (if "//" <= text && !("///" <= text) then ["//"] else if "/" <= text then ["/"] else [])
    + Named(ResourceKeys.Split(text))
  }

  /** How an absolute path is written. */
  function Text(path: Path): string {
    if path == [] then "."
    else if |path| == 1 then path[0]
    else path[0] + ResourceKeys.Join(path[1..])
  }

  /** `path` is `base` or under it. */
  predicate Within(path: Path, base: Path) { base <= path }

  /** The characters Python's regular expressions call white space. */
  predicate IsSpace(c: char) {
    var n := c as int;
    || 9 <= n <= 13 || 28 <= n <= 32 || n == 0x85 || n == 0xa0 || n == 0x1680 || 0x2000 <= n <= 0x200a
    || n == 0x2028 || n == 0x2029 || n == 0x202f || n == 0x205f || n == 0x3000
  }

  /** What may follow a path on a command line that names it. */
  predicate Ends(command: string, at: nat) {
    at >= |command| || command[at] in "/\"'=:,;" || IsSpace(command[at])
  }

  predicate NamedAt(command: string, text: string, i: nat) {
    i + |text| <= |command| && command[i..i + |text|] == text && Ends(command, i + |text|)
  }

  /** The command line names the path or something under it, never a longer sibling. */
  predicate Mentions(command: string, text: string) {
    exists i :: 0 <= i <= |command| && NamedAt(command, text, i)
  }

  // ----- What is known -----

  datatype Record = Record(path: Path, branch: Option<string>, head: Option<string>)

  datatype Process = Process(pid: nat, command: string, places: seq<Path>, blind: bool)

  datatype BranchState = Merged | Absent | Unmerged | Current | Unknown

  /** Where the caller stands. */
  datatype Site = Site(root: Path, target: Path, main: Option<Path>)

  /** What may be in use: `None` when it could not be asked. */
  datatype Known = Known(leases: Option<set<string>>, processes: Option<seq<Process>>)

  /** What git and the file system answer for one worktree. */
  datatype Probe = Probe(state: BranchState, links: set<Path>, locked: set<Path>)

  datatype Reason =
    | CurrentWorktree | MainCheckout | NoDaemon | NoProcessList | Leased
    | RunsHere(pid: nat) | Unplaced(pid: nat)
    | NotMerged | AtTip | NothingMerged | Linked | Locked

  datatype Verdict = Keep(reason: Reason) | Free

  type Owned = seq<(Path, nat)>

  // ----- The decision -----

  /** The lease is on the worktree, something in it, something around it, or its branch. */
  predicate Touches(resource: string, record: Record) {
    || ("path:" <= resource && (var held := PathOf(resource[5..]); Within(held, record.path) || Within(record.path, held)))
    || (record.branch.Some? && resource == "branch:" + record.branch.value)
  }

  predicate RunsIn(p: Process, root: Path) {
    Mentions(p.command, Text(root)) || exists place <- p.places :: Within(place, root)
  }

  predicate Busy(p: Process, root: Path) { RunsIn(p, root) || p.blind }

  function FirstBusy(processes: seq<Process>, root: Path, k: nat): Option<Reason>
    requires k <= |processes|
    decreases |processes| - k
  {
    if k == |processes| then None
    else if RunsIn(processes[k], root) then Some(RunsHere(processes[k].pid))
    else if processes[k].blind then Some(Unplaced(processes[k].pid))
    else FirstBusy(processes, root, k + 1)
  }

  predicate AnyOwned(owned: Owned, caches: set<Path>) { exists o <- owned :: o.0 in caches }

  /** What is left to ask once nothing is in use. */
  function JudgeIdle(owned: Owned, probe: Probe): Verdict {
    match probe.state
    case Unmerged => Keep(NotMerged)
    case Current => Keep(AtTip)
    case Unknown => Keep(NothingMerged)
    case _ =>
      if AnyOwned(owned, probe.links) then Keep(Linked)
      else if AnyOwned(owned, probe.locked) then Keep(Locked)
      else Free
  }

  function Judge(record: Record, owned: Owned, site: Site, known: Known, probe: Probe): Verdict {
    if record.path == site.root || AnyOwned(owned, {site.target}) then Keep(CurrentWorktree)
    else if site.main == Some(record.path) then Keep(MainCheckout)
    else if known.leases.None? then Keep(NoDaemon)
    else if known.processes.None? then Keep(NoProcessList)
    else if exists resource <- known.leases.value :: Touches(resource, record) then Keep(Leased)
    else
      match FirstBusy(known.processes.value, record.path, 0)
      case Some(reason) => Keep(reason)
      case None => JudgeIdle(owned, probe)
  }

  /** `decide`: the processes one by one, the first that is here or cannot be placed. */
  method Decide(record: Record, owned: Owned, site: Site, known: Known, probe: Probe) returns (v: Verdict)
    ensures v == Judge(record, owned, site, known, probe)
  {
    if record.path == site.root || AnyOwned(owned, {site.target}) {
      return Keep(CurrentWorktree);
    }
    if site.main == Some(record.path) {
      return Keep(MainCheckout);
    }
    if known.leases.None? {
      return Keep(NoDaemon);
    }
    if known.processes.None? {
      return Keep(NoProcessList);
    }
    if exists resource <- known.leases.value :: Touches(resource, record) {
      return Keep(Leased);
    }
    var processes := known.processes.value;
    for k := 0 to |processes|
      invariant FirstBusy(processes, record.path, 0) == FirstBusy(processes, record.path, k)
    {
      if RunsIn(processes[k], record.path) {
        return Keep(RunsHere(processes[k].pid));
      }
      if processes[k].blind {
        return Keep(Unplaced(processes[k].pid));
      }
    }
    v := JudgeIdle(owned, probe);
  }

  // ----- What the decision means -----

  lemma {:induction false} BusyExactlyWhen(processes: seq<Process>, root: Path, k: nat)
    requires k <= |processes|
    ensures FirstBusy(processes, root, k).Some? <==> exists i :: k <= i < |processes| && Busy(processes[i], root)
    decreases |processes| - k
  {
    if k < |processes| {
      BusyExactlyWhen(processes, root, k + 1);
      if Busy(processes[k], root) {
      }
    }
  }

  // ----- What the leases and command lines say, outright -----

  /** Some lease is on the worktree's directory, on something in it or on something it is in. */
  ghost predicate PathLeased(leases: set<string>, path: Path) {
    exists text :: "path:" + text in leases && (path <= PathOf(text) || PathOf(text) <= path)
  }

  ghost predicate BranchLeased(leases: set<string>, branch: Option<string>) {
    branch.Some? && "branch:" + branch.value in leases
  }

  lemma TouchedExactlyWhen(leases: set<string>, record: Record)
    ensures (exists resource <- leases :: Touches(resource, record)) <==> PathLeased(leases, record.path) || BranchLeased(leases, record.branch)
  {
    if resource :| resource in leases && Touches(resource, record) {
      if "path:" <= resource {
        assert resource == "path:" + resource[5..];
      }
    }
    if text :| "path:" + text in leases && (record.path <= PathOf(text) || PathOf(text) <= record.path) {
      var resource := "path:" + text;
      assert resource[5..] == text;
      assert Touches(resource, record);
    }
    if BranchLeased(leases, record.branch) {
      assert Touches("branch:" + record.branch.value, record);
    }
  }

  /** White space, as Unicode has it and Python's `str.isspace` beside it. */
  ghost const WHITE: set<int> :=
    {9, 10, 11, 12, 13, 28, 29, 30, 31, 32, 133, 160, 5760, 8192, 8193, 8194, 8195, 8196, 8197, 8198, 8199, 8200, 8201, 8202,
     8232, 8233, 8239, 8287, 12288}

  ghost predicate EndsName(c: char) {
    || c == '/' || c == '"' || c == '\'' || c == '=' || c == ':' || c == ',' || c == ';'
    || c as int in WHITE
  }

  lemma EndsNameExactlyWhen(c: char)
    ensures EndsName(c) <==> c in "/\"'=:,;" || IsSpace(c)
  {
    var ends := "/\"'=:,;";
    assert ends[0] == '/' && ends[1] == '"' && ends[2] == '\'' && ends[3] == '=' && ends[4] == ':' && ends[5] == ',' && ends[6] == ';';
  }

  /** The text stands in the command, and after it the command ends or goes on with a character
      that no name goes on with. */
  ghost predicate Stands(command: string, text: string) {
    exists before, after :: command == before + text + after && (after == "" || EndsName(after[0]))
  }

  lemma NamedStands(command: string, text: string, i: nat)
    requires NamedAt(command, text, i)
    ensures Stands(command, text)
  {
    var before, after := command[..i], command[i + |text|..];
    assert command == before + text + after;
    if after != "" {
      assert after[0] == command[i + |text|];
      EndsNameExactlyWhen(after[0]);
    }
  }

  lemma StandingIsNamed(command: string, text: string, before: string, after: string)
    requires command == before + text + after && (after == "" || EndsName(after[0]))
    ensures NamedAt(command, text, |before|)
  {
    assert command[|before|..|before| + |text|] == text;
    if after != "" {
      assert after[0] == command[|before| + |text|];
      EndsNameExactlyWhen(after[0]);
    }
  }

  lemma MentionsExactlyWhen(command: string, text: string)
    ensures Mentions(command, text) <==> Stands(command, text)
  {
    if Mentions(command, text) {
      var i :| 0 <= i <= |command| && NamedAt(command, text, i);
      NamedStands(command, text, i);
    }
    if Stands(command, text) {
      var before, after :| command == before + text + after && (after == "" || EndsName(after[0]));
      StandingIsNamed(command, text, before, after);
    }
  }

  /** The process is somewhere that cannot be read, in the worktree, or named with it. */
  ghost predicate MayRunIn(p: Process, path: Path) {
    p.blind || (exists place <- p.places :: path <= place) || Stands(p.command, Text(path))
  }

  lemma BusyMayRunIn(p: Process, path: Path)
    ensures Busy(p, path) <==> MayRunIn(p, path)
  {
    MentionsExactlyWhen(p.command, Text(path));
  }

  /** No sign of use: every lease known and elsewhere, every process known, placed and
      elsewhere. */
  ghost predicate Unused(known: Known, record: Record) {
    && known.leases.Some? && known.processes.Some?
    && !PathLeased(known.leases.value, record.path) && !BranchLeased(known.leases.value, record.branch)
    && (forall p <- known.processes.value :: !MayRunIn(p, record.path))
  }

  /** A lease of neither kind makes no difference. */
  lemma OtherLeaseChangesNothing(record: Record, owned: Owned, site: Site, leases: set<string>, resource: string,
                                 processes: Option<seq<Process>>, probe: Probe)
    requires !PathLeased({resource}, record.path) && !BranchLeased({resource}, record.branch)
    ensures Judge(record, owned, site, Known(Some(leases + {resource}), processes), probe)
         == Judge(record, owned, site, Known(Some(leases), processes), probe)
  {
    TouchedExactlyWhen({resource}, record);
    assert resource in {resource} && !Touches(resource, record);
  }

  /** A worktree's caches may go exactly when it is neither the caller's nor the main
      checkout, nothing uses it, its branch is merged or gone, and none of its caches is a
      link or locked by a build. */
  lemma FreeExactlyWhen(record: Record, owned: Owned, site: Site, known: Known, probe: Probe)
    ensures Judge(record, owned, site, known, probe).Free? <==>
            && record.path != site.root && site.main != Some(record.path) && !AnyOwned(owned, {site.target})
            && Unused(known, record)
            && (probe.state.Merged? || probe.state.Absent?)
            && !AnyOwned(owned, probe.links) && !AnyOwned(owned, probe.locked)
  {
    if known.leases.Some? {
      TouchedExactlyWhen(known.leases.value, record);
    }
    if known.processes.Some? {
      FirstBusyMayRunIn(known.processes.value, record.path);
    }
  }

  lemma FirstBusyMayRunIn(ps: seq<Process>, path: Path)
    ensures FirstBusy(ps, path, 0).Some? <==> exists p <- ps :: MayRunIn(p, path)
  {
    BusyExactlyWhen(ps, path, 0);
    if p :| p in ps && MayRunIn(p, path) {
      var i :| 0 <= i < |ps| && ps[i] == p;
      BusyMayRunIn(ps[i], path);
    }
    if i :| 0 <= i < |ps| && Busy(ps[i], path) {
      BusyMayRunIn(ps[i], path);
    }
  }

  /** So a lease on the worktree's directory, in it, around it or on its branch keeps it. */
  lemma LeaseKeeps(record: Record, owned: Owned, site: Site, leases: set<string>, processes: Option<seq<Process>>, probe: Probe)
    requires PathLeased(leases, record.path) || BranchLeased(leases, record.branch)
    ensures Judge(record, owned, site, Known(Some(leases), processes), probe).Keep?
  {
    FreeExactlyWhen(record, owned, site, Known(Some(leases), processes), probe);
  }

  /** At least as much is in use: more leases, more processes, more places, less sight. */
  ghost predicate NoLess(a: Known, b: Known) {
    && (b.leases.None? || (a.leases.Some? && a.leases.value <= b.leases.value))
    && (b.processes.None? ||
        (a.processes.Some? && forall p <- a.processes.value :: exists q <- b.processes.value :: Covers(p, q)))
  }

  ghost predicate Covers(p: Process, q: Process) {
    && q.command == p.command
    && (forall place <- p.places :: place in q.places)
    && (p.blind ==> q.blind)
  }

  lemma MoreLeases(a: set<string>, b: set<string>, record: Record)
    requires a <= b
    ensures PathLeased(a, record.path) ==> PathLeased(b, record.path)
    ensures BranchLeased(a, record.branch) ==> BranchLeased(b, record.branch)
  {
    if PathLeased(a, record.path) {
      var text :| "path:" + text in a && (record.path <= PathOf(text) || PathOf(text) <= record.path);
      assert "path:" + text in b;
    }
  }

  /** Learning of more use never frees a worktree that was kept. */
  lemma MoreUseKeeps(record: Record, owned: Owned, site: Site, a: Known, b: Known, probe: Probe)
    requires NoLess(a, b) && Judge(record, owned, site, a, probe).Keep?
    ensures Judge(record, owned, site, b, probe).Keep?
  {
    FreeExactlyWhen(record, owned, site, a, probe);
    FreeExactlyWhen(record, owned, site, b, probe);
    if Unused(b, record) {
      MoreLeases(a.leases.value, b.leases.value, record);
      forall p | p in a.processes.value
        ensures !MayRunIn(p, record.path)
      {
        var q :| q in b.processes.value && Covers(p, q);
        assert !MayRunIn(q, record.path);
      }
    }
  }

  // ----- Paths as text -----

  predicate IsPlain(name: string) { name != "" && name != "." && '/' !in name }

  lemma {:induction false} SplitPlain(name: string)
    requires '/' !in name
    ensures ResourceKeys.Split(name) == [name]
  {
    if name != [] {
      SplitPlain(name[1..]);
      assert name[0] in name && [name[0]] + name[1..] == name;
    }
  }

  lemma {:induction false} SplitJoined(parts: seq<string>)
    requires parts != [] && forall part <- parts :: '/' !in part
    ensures ResourceKeys.Split(ResourceKeys.Join(parts)) == parts
  {
    if |parts| == 1 {
      SplitPlain(parts[0]);
    } else {
      SplitJoined(parts[1..]);
      var text, k := ResourceKeys.Join(parts), |parts[0]|;
      assert text[..k] == parts[0] && text[k] == '/' && text[k + 1..] == ResourceKeys.Join(parts[1..]);
      ResourceKeys.SplitAtSlash(text, k);
      SplitPlain(parts[0]);
      assert [parts[0]] + parts[1..] == parts;
    }
  }

  lemma {:induction false} AllNamed(parts: seq<string>)
    requires forall part <- parts :: IsPlain(part)
    ensures Named(parts) == parts
  {
    if parts != [] {
      AllNamed(parts[1..]);
      assert parts[0] in parts && IsPlain(parts[0]);
      assert [parts[0]] + parts[1..] == parts;
    }
  }

  lemma OneSlash(text: string)
    requires text != "" && text[0] != '/'
    ensures PathOf("/" + text) == ["/"] + Named(ResourceKeys.Split(text))
  {
    var whole := "/" + text;
    assert whole[1] == text[0] && whole[1..] == text;
    assert !("//" <= whole);
    assert ResourceKeys.Split(whole) == [""] + ResourceKeys.Split(text);
    assert ([""] + ResourceKeys.Split(text))[1..] == ResourceKeys.Split(text);
  }

  /** Writing an absolute path down and reading it back gives the path. */
  lemma PathOfText(parts: seq<string>)
    requires parts != [] && forall part <- parts :: IsPlain(part)
    ensures PathOf(Text(["/"] + parts)) == ["/"] + parts
  {
    var path := ["/"] + parts;
    assert path[1..] == parts && Text(path) == "/" + ResourceKeys.Join(parts);
    SplitJoined(parts);
    AllNamed(parts);
    assert parts[0] in parts && IsPlain(parts[0]);
    var text := ResourceKeys.Join(parts);
    assert text[0] == parts[0][0] && parts[0][0] in parts[0];
    OneSlash(text);
  }

  predicate IsName(part: string) { part != "" && part != "." }

  /** Of the pieces between slashes, the empty ones and the dots name nothing; every other names
      itself, in order. */
  lemma {:induction false} NamedAppends(parts: seq<string>, last: string)
    ensures Named(parts + [last]) == Named(parts) + if IsName(last) then [last] else []
  {
    if parts != [] {
      NamedAppends(parts[1..], last);
      assert (parts + [last])[1..] == parts[1..] + [last];
    }
  }

  lemma OneRoot(text: string)
    requires text == "" || text[0] != '/'
    ensures PathOf("/" + text) == ["/"] + Named(ResourceKeys.Split(text))
  {
    SlashGoes("", text);
    var one := "/" + text;
    assert "" + "/" + text == one;
    assert one[0] == '/' && (text != "" ==> one[1] == text[0]);
  }

  lemma TwoRoots(text: string)
    requires text == "" || text[0] != '/'
    ensures PathOf("//" + text) == ["//"] + Named(ResourceKeys.Split(text))
  {
    SlashGoes("/", text);
    var two := "//" + text;
    assert "/" + "/" + text == two;
    assert two[0] == two[1] == '/' && (text != "" ==> two[2] == text[0]);
  }

  lemma ThreeRoots(text: string)
    ensures PathOf("///" + text) == ["/"] + Named(ResourceKeys.Split(text))
  {
    SlashGoes("//", text);
    assert "//" + "/" + text == "///" + text;
  }

  /** How a path begins: two slashes are a root of their own, one or three are the root, none is a
      relative path. */
  lemma RootOf(text: string)
    requires text == "" || text[0] != '/'
    ensures PathOf(text) == Named(ResourceKeys.Split(text))
    ensures PathOf("/" + text) == ["/"] + Named(ResourceKeys.Split(text))
    ensures PathOf("//" + text) == ["//"] + Named(ResourceKeys.Split(text))
    ensures PathOf("///" + text) == ["/"] + Named(ResourceKeys.Split(text))
  {
    OneRoot(text);
    TwoRoots(text);
    ThreeRoots(text);
  }

  lemma SlashGoes(slashes: string, text: string)
    requires slashes == "" || slashes == "/" || slashes == "//"
    ensures Named(ResourceKeys.Split(slashes + "/" + text)) == Named(ResourceKeys.Split(text))
  {
    if slashes != "" {
      SlashGoes(slashes[1..], text);
    }
    var all := slashes + "/" + text;
    assert all[0] == '/' && all[1..] == if slashes == "" then text else slashes[1..] + "/" + text;
    assert ResourceKeys.Split(all) == [""] + ResourceKeys.Split(all[1..]);
    assert ([""] + ResourceKeys.Split(all[1..]))[1..] == ResourceKeys.Split(all[1..]);
  }
}
