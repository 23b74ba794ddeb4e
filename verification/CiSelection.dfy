/** `select_paths` of `scripts/ci_changes.py`: what a diff makes CI run. */
module CiSelection {
  import opened Wrappers
  import M = ManifestGraph
  import opened Sorting
  import opened Text

  datatype Scope = NoRust | AgentOnly | Workspace

  datatype Selection = Selection(agentRust: bool, scope: Scope, frontend: bool, bundle: bool, helpers: bool)

  const FULL := Selection(true, Workspace, true, true, true)
  const EMPTY := Selection(false, NoRust, false, false, false)

  // ------------------------------------------------------------------ classifying one path

  predicate StartsWith(s: string, prefix: string) { prefix <= s }

  predicate EndsWith(s: string, suffix: string) {
    |suffix| <= |s| && s[|s| - |suffix|..] == suffix
  }

  /** `PurePosixPath.parts` of a relative path: empty and "." components vanish. */
  function Parts(path: string, word: string): seq<string> {
    if path == "" then if word == "" || word == "." then [] else [word]
    else if path[0] == '/' then (if word == "" || word == "." then [] else [word]) + Parts(path[1..], "")
    else Parts(path[1..], word + [path[0]])
  }

  function Name(path: string): string {
    var parts := Parts(path, "");
    if parts == [] then "" else parts[|parts| - 1]
  }

  function LastDot(name: string): int {
    if name == "" then -1 else if name[|name| - 1] == '.' then |name| - 1 else LastDot(name[..|name| - 1])
  }

  /** `PurePosixPath.suffix`, lowered: none for a leading or a closing dot. */
  function Suffix(path: string): string {
    var name := Name(path);
    var dot := LastDot(name);
    if 0 < dot < |name| - 1 then LowerAscii(name[dot..]) else ""
  }

  const ROOT_DOCUMENTS: set<string> := {"README.md", "AGENTS.md", "CLAUDE.md", "CHANGELOG.md", "CONTRIBUTING.md",
    "SECURITY.md", "LICENSE", "LICENSE.md"}
  const PICTURES: set<string> := {".md", ".png", ".jpg", ".jpeg", ".svg", ".webp", ".pdf"}
  const TRUST_KEYS: set<string> := {"agent/release-signing-key.pub", "agent/release-signing-key-next.pub"}
  const AGENT_HELPERS: set<string> := {"scripts/agent-signing.sh", "scripts/agent-standby-key.sh",
    "scripts/agent-feed-guard.sh", "scripts/agent-feed-guard-test.sh", "scripts/agent-deps-guard.sh"}
  const APP_HELPERS: set<string> := {"scripts/build.sh", "scripts/run.sh", "scripts/run-test.sh",
    "scripts/signing-identity-test.sh", "scripts/dmg-layout-test.sh", "scripts/notarize-outcome-test.sh",
    "scripts/generate-icons.sh", "scripts/render-icons.mjs"}
  const NO_BUILD_CONFIG: set<string> := {".github/dependabot.yml", ".github/workflows/dependabot-auto-merge.yml",
    ".github/workflows/deps-cadence.yml", ".github/workflows/deps-cadence-impl.yml",
    ".github/workflows/deps-cadence-codegen.yml"}

  predicate IsDocumentation(path: string) {
    var parts := Parts(path, "");
    || path in ROOT_DOCUMENTS
    || (Name(path) in {"README.md", "AGENTS.md"}
        && ((|parts| == 2 && parts[0] in {"agent", "app"}) || (|parts| == 3 && parts[0] == "crates")))
    || (Suffix(path) == ".md" && !StartsWith(path, "app/") && !StartsWith(path, "site/"))
    || (StartsWith(path, "docs/") && Suffix(path) in PICTURES)
  }

  /** `[^/]+` between a prefix and a suffix. */
  predicate IsAround(s: string, prefix: string, suffix: string) {
    && |prefix| + |suffix| < |s| && StartsWith(s, prefix) && EndsWith(s, suffix)
    && '/' !in s[|prefix|..|s| - |suffix|]
  }

  predicate IsNoBuildConfig(path: string) {
    || path in NO_BUILD_CONFIG
    || IsAround(path, ".github/workflows/dependabot-", "-lockfile.yml")
    || IsAround(path, ".github/workflows/lockfile-sync-", ".yml")
  }

  /** What a path is, in the order the code asks. */
  datatype Kind = TrustKey | FrontendSource | Ignored | Helper | AgentSource(script: bool)
    | UserInterface | AppSource(script: bool) | CrateSource(shell: bool) | Unrecognized

  function KindOf(path: string): Kind {
    if path in TRUST_KEYS then TrustKey
    else if path == "README.md" then FrontendSource
    else if IsDocumentation(path) || IsNoBuildConfig(path) then Ignored
    else if StartsWith(path, "agent/deploy/") || path in AGENT_HELPERS then Helper
    else if StartsWith(path, "agent/") || path == "scripts/build-agent.sh" then
      AgentSource(StartsWith(path, "scripts/"))
    else if StartsWith(path, "app/ui/") || StartsWith(path, "tests/frontend/") then UserInterface
    else if StartsWith(path, "app/src-tauri/") || path in APP_HELPERS then AppSource(StartsWith(path, "scripts/"))
    else if StartsWith(path, "crates/") then CrateSource(StartsWith(path, "crates/hostsetup/remote/"))
    else Unrecognized
  }

  // ------------------------------------------------------------------ dependency roots as prefixes

  function Slashed(parts: seq<string>): string {
    if parts == [] then "" else parts[0] + "/" + Slashed(parts[1..])
  }

  /** `relative_to(repo).as_posix() + "/"`; the checkout itself is ".". */
  function RootText(repo: M.Repo, dir: M.Dir): string {
    if |dir| <= |repo.root| then "./" else Slashed(dir[|repo.root|..])
  }

  predicate IsUnder(repo: M.Repo, roots: set<M.Dir>, path: string) {
    exists d :: d in roots && StartsWith(path, RootText(repo, d))
  }

  // ------------------------------------------------------------------ the lattice

  function Rank(s: Scope): nat {
    match s case NoRust => 0 case AgentOnly => 1 case Workspace => 2
  }

  predicate Leq(a: Selection, b: Selection) {
    && (a.agentRust ==> b.agentRust) && Rank(a.scope) <= Rank(b.scope) && (a.frontend ==> b.frontend)
    && (a.bundle ==> b.bundle) && (a.helpers ==> b.helpers)
  }

  function Join(a: Selection, b: Selection): Selection {
    Selection(a.agentRust || b.agentRust, if Rank(a.scope) <= Rank(b.scope) then b.scope else a.scope,
              a.frontend || b.frontend, a.bundle || b.bundle, a.helpers || b.helpers)
  }

  /** The least selection above both. */
  lemma JoinIsLeast(a: Selection, b: Selection, u: Selection)
    ensures Leq(Join(a, b), u) <==> Leq(a, u) && Leq(b, u)
  {}

  lemma LeqIsAnOrder(a: Selection, b: Selection)
    ensures Leq(a, b) && Leq(b, a) ==> a == b
    ensures Leq(EMPTY, a) && Leq(a, FULL)
  {}

  /** The fold and its laws hold of any classification; the code's is KindOf. */
  type Classifier = string -> Kind

  /** What one path alone makes CI run. `roots` is None when the dependency graph cannot be read. */
  function Contribution(repo: M.Repo, kindOf: Classifier, roots: Option<set<M.Dir>>, path: string): Selection {
    Work(kindOf(path), if roots.Some? then Some(IsUnder(repo, roots.value, path)) else None)
  }

  function Work(kind: Kind, underRoot: Option<bool>): Selection {
    match kind
    case TrustKey | Unrecognized => FULL
    case FrontendSource | UserInterface => EMPTY.(frontend := true)
    case Ignored => EMPTY
    case Helper => EMPTY.(helpers := true)
    case AgentSource(script) => Selection(true, AgentOnly, false, false, script)
    case AppSource(script) => Selection(false, Workspace, true, true, script)
    case CrateSource(shell) =>
      if underRoot.None? then FULL else Selection(underRoot.value, Workspace, true, true, shell)
  }

  function JoinAll(repo: M.Repo, kindOf: Classifier, roots: Option<set<M.Dir>>, paths: seq<string>): Selection {
    if paths == [] then EMPTY
    else Join(JoinAll(repo, kindOf, roots, paths[..|paths| - 1]), Contribution(repo, kindOf, roots, paths[|paths| - 1]))
  }

  /** The roots, or None when the look-up fails. */
  function Roots(repo: M.Repo): Option<set<M.Dir>> {
    var r := M.LookUp(repo);
    if r.Ok? then Some(r.value) else None
  }

  // ------------------------------------------------------------------ the code

  /** One path's update of the selection; None is the early return of everything. */
  function Updated(selected: Selection, kind: Kind, underRoot: bool): Option<Selection> {
    match kind
    case TrustKey | Unrecognized => None
    case FrontendSource | UserInterface => Some(selected.(frontend := true))
    case Ignored => Some(selected)
    case Helper => Some(selected.(helpers := true))
    case AgentSource(script) =>
      var s := selected.(agentRust := true, scope := if selected.scope == NoRust then AgentOnly else selected.scope);
      Some(if script then s.(helpers := true) else s)
    case AppSource(script) =>
      var s := selected.(scope := Workspace, frontend := true, bundle := true);
      Some(if script then s.(helpers := true) else s)
    case CrateSource(shell) =>
      var s := selected.(scope := Workspace, frontend := true, bundle := true);
      var t := if shell then s.(helpers := true) else s;
      Some(if underRoot then t.(agentRust := true) else t)
  }

  /** Each update joins in the path's own work. */
  lemma UpdateIsJoin(selected: Selection, kind: Kind, underRoot: bool)
    ensures var u := Updated(selected, kind, underRoot);
      (if u.Some? then u.value else FULL) == Join(selected, Work(kind, Some(underRoot)))
  {}

  lemma NoRootsSelectAll(repo: M.Repo, kindOf: Classifier, roots: Option<set<M.Dir>>, paths: seq<string>, k: nat)
    requires k < |paths| && kindOf(paths[k]).CrateSource? && roots.None?
    ensures JoinAll(repo, kindOf, roots, paths) == FULL
  {
    JoinAllSnoc(repo, kindOf, roots, paths, k);
  }

  lemma StepIsJoin(repo: M.Repo, kindOf: Classifier, roots: Option<set<M.Dir>>, paths: seq<string>, k: nat,
                   underRoot: bool)
    requires k < |paths|
    requires kindOf(paths[k]).CrateSource? ==> roots.Some? && underRoot == IsUnder(repo, roots.value, paths[k])
    ensures var u := Updated(JoinAll(repo, kindOf, roots, paths[..k]), kindOf(paths[k]), underRoot);
      && (u.Some? ==> u.value == JoinAll(repo, kindOf, roots, paths[..k + 1]))
      && (u.None? ==> JoinAll(repo, kindOf, roots, paths) == FULL)
  {
    var before, kind := JoinAll(repo, kindOf, roots, paths[..k]), kindOf(paths[k]);
    JoinAllSnoc(repo, kindOf, roots, paths, k);
    UpdateIsJoin(before, kind, underRoot);
    RootsOnlyMatterForCrates(kind, Some(underRoot),
                             if roots.Some? then Some(IsUnder(repo, roots.value, paths[k])) else None);
    NothingIsFull(before, kind, underRoot);
  }

  lemma RootsOnlyMatterForCrates(kind: Kind, a: Option<bool>, b: Option<bool>)
    requires kind.CrateSource? ==> a == b
    ensures Work(kind, a) == Work(kind, b)
  {}

  lemma NothingIsFull(selected: Selection, kind: Kind, underRoot: bool)
    ensures Updated(selected, kind, underRoot).None? ==> Join(selected, Work(kind, Some(underRoot))) == FULL
  {}

  /** A path at which the code returns everything at once. */
  predicate EndsTheFold(kind: Kind) {
    kind.TrustKey? || kind.Unrecognized?
  }

  /** The fold comes to a crate path, at which it looks up the roots. */
  ghost predicate LooksUp(kindOf: Classifier, paths: seq<string>) {
    exists k :: 0 <= k < |paths| && IsLookedUpAt(kindOf, paths, k)
  }

  ghost predicate IsLookedUpAt(kindOf: Classifier, paths: seq<string>, k: nat)
    requires k < |paths|
  {
    kindOf(paths[k]).CrateSource? && forall j :: 0 <= j < k ==> !EndsTheFold(kindOf(paths[j]))
  }

  /** The fold over the changed paths. The roots are looked up once, at the first crate path. It raises
      exactly when it comes to that and the look-up does; otherwise, and wherever what it raises is turned
      into the full selection, the result is the join of what each path makes CI run. */
  method SelectPaths(repo: M.Repo, kindOf: Classifier, paths: seq<string>) returns (r: Result<Selection, M.GraphError>)
    ensures (if r.Ok? then r.value else FULL) == JoinAll(repo, kindOf, Roots(repo), paths)
    ensures r.Err? <==> LooksUp(kindOf, paths) && M.LookUp(repo).Err?
    ensures r.Err? ==> M.LookUp(repo) == Err(r.error)
  {
    ghost var roots := Roots(repo);
    var selected := EMPTY;
    var known: Option<set<M.Dir>> := None;
    assert paths[..0] == [];
    for k := 0 to |paths|
      invariant selected == JoinAll(repo, kindOf, roots, paths[..k])
      invariant IsComeTo(kindOf, paths, k, known, roots)
    {
      var path := paths[k];
      var kind := kindOf(path);
      var underRoot := false;
      if kind.CrateSource? {
        if known.None? {
          ComesToLookUp(kindOf, paths, k, roots);
        }
        var found := RootsOnce(repo, known);
        if found.Err? {
          NoRootsSelectAll(repo, kindOf, roots, paths, k);
          return Err(found.error);
        }
        known := Some(found.value);
        underRoot := IsUnder(repo, found.value, path);
      }
      StepIsJoin(repo, kindOf, roots, paths, k, underRoot);
      var updated := Updated(selected, kind, underRoot);
      if updated.None? {
        NoLookUpWasMissed(kindOf, paths, k, known, roots);
        return Ok(FULL);
      }
      UpdatedGoesOn(selected, kind, underRoot);
      selected := updated.value;
    }
    assert paths[..|paths|] == paths;
    NothingWasMissed(kindOf, paths, known, roots);
    r := Ok(selected);
  }

  /** The roots that are known, or else looked up. */
  method RootsOnce(repo: M.Repo, known: Option<set<M.Dir>>) returns (r: Result<set<M.Dir>, M.GraphError>)
    requires known.Some? ==> known == Roots(repo)
    ensures r == M.LookUp(repo)
  {
    if known.Some? {
      return Ok(known.value);
    }
    r := M.AgentDependencyRoots(repo);
  }

  /** The fold has come to path k without ending, and has looked up the roots if there was a crate. */
  ghost predicate IsComeTo(kindOf: Classifier, paths: seq<string>, k: nat, known: Option<set<M.Dir>>,
                           roots: Option<set<M.Dir>>)
    requires k <= |paths|
  {
    && (forall j :: 0 <= j < k ==> !EndsTheFold(kindOf(paths[j])))
    && if known.Some? then known == roots else forall j :: 0 <= j < k ==> !kindOf(paths[j]).CrateSource?
  }

  lemma ComesToLookUp(kindOf: Classifier, paths: seq<string>, k: nat, roots: Option<set<M.Dir>>)
    requires k < |paths| && IsComeTo(kindOf, paths, k, None, roots) && kindOf(paths[k]).CrateSource?
    ensures LooksUp(kindOf, paths)
  {
    assert IsLookedUpAt(kindOf, paths, k);
  }

  lemma NoLookUpWasMissed(kindOf: Classifier, paths: seq<string>, k: nat, known: Option<set<M.Dir>>,
                          roots: Option<set<M.Dir>>)
    requires k < |paths| && IsComeTo(kindOf, paths, k, known, roots) && EndsTheFold(kindOf(paths[k]))
    ensures LooksUp(kindOf, paths) ==> roots.Some?
  {
    LooksUpBefore(kindOf, paths, k);
  }

  lemma NothingWasMissed(kindOf: Classifier, paths: seq<string>, known: Option<set<M.Dir>>, roots: Option<set<M.Dir>>)
    requires IsComeTo(kindOf, paths, |paths|, known, roots)
    ensures LooksUp(kindOf, paths) ==> roots.Some?
  {
    if LooksUp(kindOf, paths) {
      var j :| 0 <= j < |paths| && IsLookedUpAt(kindOf, paths, j);
      assert kindOf(paths[j]).CrateSource?;
    }
  }

  lemma UpdatedGoesOn(selected: Selection, kind: Kind, underRoot: bool)
    ensures Updated(selected, kind, underRoot).None? <==> EndsTheFold(kind)
  {}

  lemma LooksUpBefore(kindOf: Classifier, paths: seq<string>, k: nat)
    requires k < |paths| && EndsTheFold(kindOf(paths[k]))
    ensures LooksUp(kindOf, paths) ==> exists j :: 0 <= j < k && kindOf(paths[j]).CrateSource?
  {
    if LooksUp(kindOf, paths) {
      var j :| 0 <= j < |paths| && IsLookedUpAt(kindOf, paths, j);
      assert j < k;
    }
  }

  lemma JoinAllSnoc(repo: M.Repo, kindOf: Classifier, roots: Option<set<M.Dir>>, paths: seq<string>, k: nat)
    requires k < |paths|
    ensures JoinAll(repo, kindOf, roots, paths[..k + 1])
         == Join(JoinAll(repo, kindOf, roots, paths[..k]), Contribution(repo, kindOf, roots, paths[k]))
    ensures Join(JoinAll(repo, kindOf, roots, paths[..k]), Contribution(repo, kindOf, roots, paths[k])) == FULL ==>
            JoinAll(repo, kindOf, roots, paths) == FULL
  {
    assert paths[..k + 1][..k] == paths[..k];
    JoinAllOfLonger(repo, kindOf, roots, paths, k + 1);
  }

  /** `main` does not catch the AttributeError of a value that should have been a table. */
  predicate IsCaught(e: M.GraphError) { e != M.WrongShape }

  /** What comes of a diff: the join of its paths, or a run that ends without a selection. */
  ghost function Outcome(repo: M.Repo, kindOf: Classifier, paths: seq<string>): Option<Selection> {
    if LooksUp(kindOf, paths) && M.LookUp(repo).Err? && !IsCaught(M.LookUp(repo).error) then None
    else Some(JoinAll(repo, kindOf, Roots(repo), paths))
  }

  /** `main`: no diff, or a caught exception on the way, selects everything; None is an exception that
      is not caught. */
  method Select(repo: M.Repo, kindOf: Classifier, diff: Option<seq<string>>) returns (s: Option<Selection>)
    ensures s == if diff.Some? then Outcome(repo, kindOf, diff.value) else Some(FULL)
  {
    if diff.None? {
      return Some(FULL);
    }
    var r := SelectPaths(repo, kindOf, diff.value);
    s := match r
      case Ok(selected) => Some(selected)
      case Err(e) => if IsCaught(e) then Some(FULL) else None;
  }

  // ------------------------------------------------------------------ what the selection promises

  lemma {:induction false} JoinAllOfLonger(repo: M.Repo, kindOf: Classifier, roots: Option<set<M.Dir>>,
                                           paths: seq<string>, k: nat)
    requires k <= |paths|
    ensures Leq(JoinAll(repo, kindOf, roots, paths[..k]), JoinAll(repo, kindOf, roots, paths))
    ensures JoinAll(repo, kindOf, roots, paths[..k]) == FULL ==> JoinAll(repo, kindOf, roots, paths) == FULL
    decreases |paths|
  {
    if k == |paths| {
      assert paths[..k] == paths;
    } else {
      var init := paths[..|paths| - 1];
      JoinAllOfLonger(repo, kindOf, roots, init, k);
      assert init[..k] == paths[..k];
      JoinIsLeast(JoinAll(repo, kindOf, roots, init), Contribution(repo, kindOf, roots, paths[|paths| - 1]),
                  JoinAll(repo, kindOf, roots, paths));
    }
    LeqIsAnOrder(FULL, JoinAll(repo, kindOf, roots, paths));
  }

  /** The selection of a diff is the least one that covers each of its paths. */
  lemma {:induction false} JoinAllIsLeast(repo: M.Repo, kindOf: Classifier, roots: Option<set<M.Dir>>,
                                          paths: seq<string>, u: Selection)
    ensures Leq(JoinAll(repo, kindOf, roots, paths), u)
       <==> forall p :: p in paths ==> Leq(Contribution(repo, kindOf, roots, p), u)
  {
    if paths == [] {
      LeqIsAnOrder(u, u);
    } else {
      var init, last := paths[..|paths| - 1], paths[|paths| - 1];
      assert paths == init + [last];
      JoinAllIsLeast(repo, kindOf, roots, init, u);
      JoinIsLeast(JoinAll(repo, kindOf, roots, init), Contribution(repo, kindOf, roots, last), u);
    }
  }

  /** More changed paths never select less, and neither the order of the paths nor a repetition
      matters, whether or not the dependency graph can be read. */
  lemma SelectionIsMonotone(repo: M.Repo, kindOf: Classifier, roots: Option<set<M.Dir>>, a: seq<string>, b: seq<string>)
    requires forall p :: p in a ==> p in b
    ensures Leq(JoinAll(repo, kindOf, roots, a), JoinAll(repo, kindOf, roots, b))
  {
    JoinAllIsLeast(repo, kindOf, roots, b, JoinAll(repo, kindOf, roots, b));
    LeqIsReflexive(JoinAll(repo, kindOf, roots, b));
    JoinAllIsLeast(repo, kindOf, roots, a, JoinAll(repo, kindOf, roots, b));
  }

  lemma LeqIsReflexive(a: Selection)
    ensures Leq(a, a)
  {}

  lemma SelectionIsOfTheSet(repo: M.Repo, kindOf: Classifier, roots: Option<set<M.Dir>>, a: seq<string>, b: seq<string>)
    requires forall p :: p in a <==> p in b
    ensures JoinAll(repo, kindOf, roots, a) == JoinAll(repo, kindOf, roots, b)
  {
    SelectionIsMonotone(repo, kindOf, roots, a, b);
    SelectionIsMonotone(repo, kindOf, roots, b, a);
    LeqIsAnOrder(JoinAll(repo, kindOf, roots, a), JoinAll(repo, kindOf, roots, b));
  }

  lemma OnlyIgnoredIsEmpty(kind: Kind, underRoot: Option<bool>)
    ensures Leq(Work(kind, underRoot), EMPTY) <==> kind.Ignored?
  {}

  /** Nothing slips through: only documentation and build-free configuration select nothing. */
  lemma NothingSelectedOnlyWhenIgnored(repo: M.Repo, kindOf: Classifier, roots: Option<set<M.Dir>>, paths: seq<string>)
    ensures JoinAll(repo, kindOf, roots, paths) == EMPTY <==> forall p :: p in paths ==> kindOf(p).Ignored?
  {
    JoinAllIsLeast(repo, kindOf, roots, paths, EMPTY);
    LeqIsAnOrder(EMPTY, JoinAll(repo, kindOf, roots, paths));
    forall p ensures Leq(Contribution(repo, kindOf, roots, p), EMPTY) <==> kindOf(p).Ignored? {
      OnlyIgnoredIsEmpty(kindOf(p), if roots.Some? then Some(IsUnder(repo, roots.value, p)) else None);
    }
  }

  /** The code's classification never takes a crate path for anything but a crate or documentation. */
  lemma CratePathsAreCrates(path: string)
    requires StartsWith(path, "crates/")
    ensures KindOf(path).CrateSource? <==> !IsDocumentation(path)
    ensures KindOf(path).CrateSource? || KindOf(path).Ignored?
  {
    assert path[0] == 'c';
    NoCrateAmongTheNames(path);
    assert path[..7] == "crates/";
  }

  lemma NoCrateAmongTheNames(path: string)
    requires path != "" && path[0] == 'c'
    ensures path !in TRUST_KEYS && path !in AGENT_HELPERS && path !in APP_HELPERS && path !in NO_BUILD_CONFIG
    ensures path != "README.md" && path != "scripts/build-agent.sh"
    ensures !StartsWith(path, "agent/deploy/") && !StartsWith(path, "agent/")
    ensures !StartsWith(path, "app/ui/") && !StartsWith(path, "tests/frontend/") && !StartsWith(path, "app/src-tauri/")
    ensures !IsNoBuildConfig(path)
  {
    NotAround(path, ".github/workflows/dependabot-", "-lockfile.yml");
    NotAround(path, ".github/workflows/lockfile-sync-", ".yml");
  }

  lemma NotAround(path: string, prefix: string, suffix: string)
    requires path != "" && prefix != "" && path[0] != prefix[0]
    ensures !IsAround(path, prefix, suffix)
  {}

  lemma PathIsCovered(repo: M.Repo, kindOf: Classifier, roots: Option<set<M.Dir>>, paths: seq<string>, path: string)
    requires path in paths
    ensures Leq(Contribution(repo, kindOf, roots, path), JoinAll(repo, kindOf, roots, paths))
  {
    var all := JoinAll(repo, kindOf, roots, paths);
    LeqIsReflexive(all);
    JoinAllIsLeast(repo, kindOf, roots, paths, all);
  }

  lemma UnderRoot(repo: M.Repo, path: string, dir: M.Dir)
    requires repo.workspace.Ok? && M.Reachable(repo, dir) && StartsWith(path, RootText(repo, dir))
    ensures Roots(repo).Some? ==> IsUnder(repo, Roots(repo).value, path)
  {
    M.LookUpIsExact(repo);
    if Roots(repo).Some? {
      assert dir in Roots(repo).value;
    }
  }

  lemma CrateWork(kind: Kind, underRoot: Option<bool>)
    requires kind.CrateSource? && underRoot != Some(false)
    ensures Work(kind, underRoot).agentRust && Work(kind, underRoot).scope == Workspace
  {}

  lemma CrateSelects(repo: M.Repo, kindOf: Classifier, roots: Option<set<M.Dir>>, paths: seq<string>, path: string)
    requires path in paths && kindOf(path).CrateSource? && (roots.Some? ==> IsUnder(repo, roots.value, path))
    ensures JoinAll(repo, kindOf, roots, paths).agentRust && JoinAll(repo, kindOf, roots, paths).scope == Workspace
  {
    PathIsCovered(repo, kindOf, roots, paths, path);
    CrateWork(kindOf(path), if roots.Some? then Some(true) else None);
  }

  /** Every change in a crate the agent is built from, except its documentation, builds and tests
      the agent. */
  lemma AgentCratesSelectTheAgent(repo: M.Repo, paths: seq<string>, path: string, dir: M.Dir)
    requires repo.workspace.Ok? && M.Reachable(repo, dir)
    requires path in paths && StartsWith(path, "crates/") && !IsDocumentation(path)
    requires StartsWith(path, RootText(repo, dir))
    ensures JoinAll(repo, KindOf, Roots(repo), paths).agentRust
    ensures JoinAll(repo, KindOf, Roots(repo), paths).scope == Workspace
  {
    CratePathsAreCrates(path);
    UnderRoot(repo, path, dir);
    CrateSelects(repo, KindOf, Roots(repo), paths, path);
  }

  /** A path whose kind makes the code look whether the agent is built from it, or needs no look. */
  predicate CanSelectTheAgent(kind: Kind) {
    EndsTheFold(kind) || kind.AgentSource? || kind.CrateSource?
  }

  /** Under any directory the agent is built from, a change builds the agent exactly when its path is
      one of these kinds. A local dependency anywhere else, under `app/src-tauri/` say, is reached by
      the look-up and not asked for. */
  lemma RootPathsSelectTheAgent(repo: M.Repo, kindOf: Classifier, path: string, dir: M.Dir)
    requires repo.workspace.Ok? && M.Reachable(repo, dir) && StartsWith(path, RootText(repo, dir))
    ensures JoinAll(repo, kindOf, Roots(repo), [path]).agentRust <==> CanSelectTheAgent(kindOf(path))
  {
    UnderRoot(repo, path, dir);
    AgentIsSelectedByAPath(repo, kindOf, Roots(repo), [path]);
    assert path in [path];
    KindSelectsTheAgent(kindOf(path), if Roots(repo).Some? then Some(true) else None);
  }

  lemma KindSelectsTheAgent(kind: Kind, underRoot: Option<bool>)
    requires underRoot != Some(false)
    ensures Work(kind, underRoot).agentRust <==> CanSelectTheAgent(kind)
  {}

  /** A diff selects the agent exactly when one of its paths does. */
  lemma {:induction false} AgentIsSelectedByAPath(repo: M.Repo, kindOf: Classifier, roots: Option<set<M.Dir>>,
                                                  paths: seq<string>)
    ensures JoinAll(repo, kindOf, roots, paths).agentRust
       <==> exists p :: p in paths && Contribution(repo, kindOf, roots, p).agentRust
  {
    if paths != [] {
      var init, last := paths[..|paths| - 1], paths[|paths| - 1];
      AgentIsSelectedByAPath(repo, kindOf, roots, init);
      assert paths == init + [last];
    }
  }

  // ------------------------------------------------------------------ when the look-up raises

  /** A failing look-up becomes the full selection exactly when the first thing that goes wrong on the
      traversal is not a value of the wrong shape; that can only be found in the root manifest or in a
      reachable one. */
  lemma FailureIsFull(repo: M.Repo, kindOf: Classifier, paths: seq<string>)
    requires LooksUp(kindOf, paths) && M.LookUp(repo).Err?
    ensures Outcome(repo, kindOf, paths) == Some(FULL) <==> M.LookUp(repo) != Err(M.WrongShape)
    ensures Outcome(repo, kindOf, paths) == None ==>
              repo.workspace == Err(M.WrongShape)
              || (repo.workspace.Ok? && exists d :: M.Reachable(repo, d) && M.Failure(repo, d) == Some(M.WrongShape))
  {
    var k :| 0 <= k < |paths| && IsLookedUpAt(kindOf, paths, k);
    NoRootsSelectAll(repo, kindOf, Roots(repo), paths, k);
    if repo.workspace.Ok? {
      M.LookUpIsExact(repo);
    }
  }

  ghost predicate OrderDoesNotShow(repo: M.Repo, kindOf: Classifier, paths: seq<string>) {
    forall a, b :: multiset(a) == multiset(paths) && multiset(b) == multiset(paths) ==>
      Outcome(repo, kindOf, a) == Outcome(repo, kindOf, b)
  }

  ghost predicate HasCrate(kindOf: Classifier, paths: seq<string>) {
    exists p :: p in paths && kindOf(p).CrateSource?
  }

  ghost predicate HasEnd(kindOf: Classifier, paths: seq<string>) {
    exists p :: p in paths && EndsTheFold(kindOf(p))
  }

  lemma {:induction false} LooksUpWithoutEnd(kindOf: Classifier, paths: seq<string>)
    requires !HasEnd(kindOf, paths)
    ensures LooksUp(kindOf, paths) <==> HasCrate(kindOf, paths)
  {
    if HasCrate(kindOf, paths) {
      var p :| p in paths && kindOf(p).CrateSource?;
      var k :| 0 <= k < |paths| && paths[k] == p;
      assert IsLookedUpAt(kindOf, paths, k);
    }
  }

  lemma SameKinds(kindOf: Classifier, a: seq<string>, b: seq<string>)
    requires multiset(a) == multiset(b)
    ensures HasCrate(kindOf, a) <==> HasCrate(kindOf, b)
    ensures HasEnd(kindOf, a) <==> HasEnd(kindOf, b)
  {
    SameMembers(a, b);
  }

  lemma SameOutcome(repo: M.Repo, kindOf: Classifier, a: seq<string>, b: seq<string>)
    requires multiset(a) == multiset(b)
    requires M.LookUp(repo) == Err(M.WrongShape) && HasCrate(kindOf, a) ==> !HasEnd(kindOf, a)
    ensures Outcome(repo, kindOf, a) == Outcome(repo, kindOf, b)
  {
    SameMembers(a, b);
    SameKinds(kindOf, a, b);
    SelectionIsOfTheSet(repo, kindOf, Roots(repo), a, b);
    if M.LookUp(repo) == Err(M.WrongShape) && HasCrate(kindOf, a) {
      LooksUpWithoutEnd(kindOf, a);
      LooksUpWithoutEnd(kindOf, b);
    }
  }

  lemma CrateFirst(kindOf: Classifier, rest: seq<string>, crate: string, end: string)
    requires kindOf(crate).CrateSource? && EndsTheFold(kindOf(end))
    ensures LooksUp(kindOf, [crate] + rest) && !LooksUp(kindOf, [end] + rest)
  {
    assert IsLookedUpAt(kindOf, [crate] + rest, 0);
    LooksUpBefore(kindOf, [end] + rest, 0);
  }

  /** The order of the paths shows in the outcome exactly when the look-up ends with a value of the wrong
      shape, and the diff has both a crate path and one at which the fold ends: with the one first the
      run ends without a selection, with the other first everything is selected. */
  lemma OrderIsExact(repo: M.Repo, kindOf: Classifier, paths: seq<string>)
    ensures OrderDoesNotShow(repo, kindOf, paths)
       <==> !(M.LookUp(repo) == Err(M.WrongShape) && HasCrate(kindOf, paths) && HasEnd(kindOf, paths))
  {
    if M.LookUp(repo) == Err(M.WrongShape) && HasCrate(kindOf, paths) && HasEnd(kindOf, paths) {
      var crate :| crate in paths && kindOf(crate).CrateSource?;
      var end :| end in paths && EndsTheFold(kindOf(end));
      var a := ToFront(paths, crate);
      var b := ToFront(paths, end);
      CrateFirst(kindOf, a, crate, end);
      CrateFirst(kindOf, b, crate, end);
      assert Outcome(repo, kindOf, [crate] + a) != Outcome(repo, kindOf, [end] + b);
    } else {
      forall a, b | multiset(a) == multiset(paths) && multiset(b) == multiset(paths)
        ensures Outcome(repo, kindOf, a) == Outcome(repo, kindOf, b)
      {
        SameKinds(kindOf, a, paths);
        SameOutcome(repo, kindOf, a, b);
      }
    }
  }
}
