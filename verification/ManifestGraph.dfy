/** `agent_dependency_roots` of `scripts/ci_changes.py`: the worklist over the Cargo manifests. */
module ManifestGraph {
  import opened Wrappers

  type Dir = seq<string>  // the components of a resolved directory

  datatype PathText = PathText(absolute: bool, parts: seq<string>)

  /** What stands under a dependency's `path` key, if it stands there. */
  datatype PathEntry = NoPath | Path(text: PathText) | NotText

  /** A TOML dependency: a version or a table without the two keys, or a table with them. */
  datatype Dependency = Plain | Spec(workspace: bool, path: PathEntry)

  /** One item that the loops over a manifest come to: a declaration, or a value that should have been
      a table and is none. */
  datatype Item = Declaration(name: string, dependency: Dependency) | Misshapen

  /** What stands under one of the three kinds. */
  datatype Section = Section(declarations: seq<Item>) | NoSection

  /** The package's own table, or one of its `target.*` tables. */
  datatype Table = Table(normal: Section, build: Section, dev: Section) | NoTable

  /** A manifest that parses, the package's own table first. */
  datatype Manifest = Manifest(tables: seq<Table>) | TargetIsNoTable

  /** The checkout: `manifests[d]` is the parsed d/Cargo.toml, None when it does not parse, and
      `workspace` the root manifest's shared dependencies, empty when they are no table, for then every
      look-up fails. */
  datatype Repo = Repo(root: Dir, workspace: Result<map<string, Dependency>, GraphError>,
                       manifests: map<Dir, Option<Manifest>>)

  /** WrongShape is the AttributeError of asking something for its keys that has none. */
  datatype GraphError = External | Unreadable | UnknownWorkspaceName | WrongPath | WrongShape

  /** `Path.resolve` without symbolic links. */
  function Resolve(base: Dir, parts: seq<string>): Dir
    decreases |parts|
  {
    if parts == [] then base
    else if parts[0] == "" || parts[0] == "." then Resolve(base, parts[1..])
    else if parts[0] == ".." then Resolve(if base == [] then [] else base[..|base| - 1], parts[1..])
    else Resolve(base + [parts[0]], parts[1..])
  }

  /** A name that stands for a directory of that name. */
  predicate IsProper(part: string) {
    part != "" && part != "." && part != ".."
  }

  predicate AreProper(parts: seq<string>) {
    forall k :: 0 <= k < |parts| ==> IsProper(parts[k])
  }

  /** Names go down. */
  lemma {:induction false} NamesGoDown(base: Dir, parts: seq<string>)
    requires AreProper(parts)
    ensures Resolve(base, parts) == base + parts
    decreases |parts|
  {
    if parts == [] {
      assert base + [] == base;
    } else {
      NamesGoDown(base + [parts[0]], parts[1..]);
      assert base + [parts[0]] + parts[1..] == base + parts;
    }
  }

  /** A path is followed part by part. */
  lemma {:induction false} ResolveConcat(base: Dir, a: seq<string>, b: seq<string>)
    ensures Resolve(base, a + b) == Resolve(Resolve(base, a), b)
    decreases |a|
  {
    if a == [] {
      assert a + b == b;
    } else {
      assert a + b == [a[0]] + (a[1..] + b) && a == [a[0]] + a[1..];
      ResolveCons(base, a[0], a[1..] + b);
      ResolveCons(base, a[0], a[1..]);
      ResolveConcat(Resolve(base, [a[0]]), a[1..], b);
    }
  }

  lemma ResolveCons(base: Dir, part: string, rest: seq<string>)
    ensures Resolve(base, [part] + rest) == Resolve(Resolve(base, [part]), rest)
  {
    assert ([part] + rest)[1..] == rest && [part][1..] == [];
  }

  /** ".." leaves the last directory and stays at the top; "." and "" stay. */
  lemma DotsGoUp(base: Dir, x: string, parts: seq<string>)
    ensures Resolve(base + [x], [".."] + parts) == Resolve(base, parts)
    ensures Resolve([], [".."] + parts) == Resolve([], parts)
    ensures Resolve(base, ["."] + parts) == Resolve(base, parts)
    ensures Resolve(base, [""] + parts) == Resolve(base, parts)
  {
    assert ([".."] + parts)[1..] == parts && (["."] + parts)[1..] == parts && ([""] + parts)[1..] == parts;
    assert (base + [x])[..|base|] == base;
  }

  function ItemsOf(section: Section): seq<Item> {
    if section.NoSection? then [Misshapen] else section.declarations
  }

  function ItemsOfTables(tables: seq<Table>): seq<Item> {
    if tables == [] then []
    else if tables[0].NoTable? then [Misshapen] + ItemsOfTables(tables[1..])
    else ItemsOf(tables[0].normal) + ItemsOf(tables[0].build) + ItemsOf(tables[0].dev) + ItemsOfTables(tables[1..])
  }

  /** The items of a manifest in the order of the loops. */
  function Declared(manifest: Manifest): seq<Item> {
    if manifest.TargetIsNoTable? then [Misshapen] else ItemsOfTables(manifest.tables)
  }

  /** Where one item of the manifest in `dir` leads: nowhere, to a directory, or to an error. */
  function Target(repo: Repo, dir: Dir, item: Item): Result<Option<Dir>, GraphError>
    requires repo.workspace.Ok?
  {
    match item
    case Misshapen => Err(WrongShape)
    case Declaration(name, dependency) =>
      if dependency.Spec? && dependency.workspace then
        if name !in repo.workspace.value then Err(UnknownWorkspaceName)
        else Followed(repo.root, repo.workspace.value[name])
      else Followed(dir, dependency)
  }

  function Followed(origin: Dir, dependency: Dependency): Result<Option<Dir>, GraphError> {
    if dependency.Plain? || dependency.path.NoPath? then Ok(None)
    else if dependency.path.NotText? then Err(WrongPath)
    else
      var text := dependency.path.text;
      Ok(Some(Resolve(if text.absolute then [] else origin, text.parts)))
  }

  /** Where the items lead, one after another, up to the first error. */
  function Targets(repo: Repo, dir: Dir, items: seq<Item>): Result<seq<Dir>, GraphError>
    requires repo.workspace.Ok?
  {
    if items == [] then Ok([])
    else
      var before := Targets(repo, dir, items[..|items| - 1]);
      if before.Err? then before
      else
        match Target(repo, dir, items[|items| - 1])
        case Err(e) => Err(e)
        case Ok(None) => before
        case Ok(Some(d)) => Ok(before.value + [d])
  }

  predicate Inside(repo: Repo, dir: Dir) {
    repo.root <= dir
  }

  /** A directory the traversal can pass: inside the checkout, with a manifest that parses and
      whose inherited names the workspace knows. */
  ghost predicate Passable(repo: Repo, dir: Dir)
    requires repo.workspace.Ok?
  {
    && Inside(repo, dir) && dir in repo.manifests && repo.manifests[dir].Some?
    && forall n :: n in Declared(repo.manifests[dir].value) ==> Target(repo, dir, n).Ok?
  }

  /** Why a directory cannot be passed: the first thing that goes wrong in it. */
  function Failure(repo: Repo, dir: Dir): Option<GraphError>
    requires repo.workspace.Ok?
  {
    if !Inside(repo, dir) then Some(External)
    else if dir !in repo.manifests || repo.manifests[dir].None? then Some(Unreadable)
    else
      match Targets(repo, dir, Declared(repo.manifests[dir].value))
      case Ok(_) => None
      case Err(e) => Some(e)
  }

  lemma {:induction false} TargetsAreOk(repo: Repo, dir: Dir, items: seq<Item>)
    requires repo.workspace.Ok?
    ensures Targets(repo, dir, items).Ok? <==> forall n :: n in items ==> Target(repo, dir, n).Ok?
    ensures Targets(repo, dir, items).Ok? ==>
              forall d :: d in Targets(repo, dir, items).value <==>
                exists n :: n in items && Target(repo, dir, n) == Ok(Some(d))
  {
    if items != [] {
      var init, last := items[..|items| - 1], items[|items| - 1];
      TargetsAreOk(repo, dir, init);
      assert items == init + [last];
    }
  }

  lemma {:induction false} FirstErrorStands(repo: Repo, dir: Dir, items: seq<Item>, k: nat)
    requires repo.workspace.Ok? && k <= |items| && Targets(repo, dir, items[..k]).Err?
    ensures Targets(repo, dir, items) == Targets(repo, dir, items[..k])
    decreases |items|
  {
    if k < |items| {
      var init := items[..|items| - 1];
      assert init[..k] == items[..k];
      FirstErrorStands(repo, dir, init, k);
    } else {
      assert items[..k] == items;
    }
  }

  /** A directory can be passed exactly when nothing goes wrong in it. */
  lemma PassableIsExact(repo: Repo, dir: Dir)
    requires repo.workspace.Ok?
    ensures Passable(repo, dir) <==> Failure(repo, dir).None?
  {
    if Inside(repo, dir) && dir in repo.manifests && repo.manifests[dir].Some? {
      TargetsAreOk(repo, dir, Declared(repo.manifests[dir].value));
    }
  }

  /** The traversal as the code makes it: from the end of the pending list, each directory once, and up
      to the first one that cannot be passed. */
  function Traversal(repo: Repo, pending: seq<Dir>, seen: set<Dir>): Result<set<Dir>, GraphError>
    requires repo.workspace.Ok?
    decreases repo.manifests.Keys - seen, |pending|
  {
    if pending == [] then Ok(seen)
    else
      var d, rest := pending[|pending| - 1], pending[..|pending| - 1];
      if Inside(repo, d) && d in seen then Traversal(repo, rest, seen)
      else if Failure(repo, d).Some? then Err(Failure(repo, d).value)
      else Traversal(repo, rest + Targets(repo, d, Declared(repo.manifests[d].value)).value, seen + {d})
  }

  /** What looking up the roots yields. */
  function LookUp(repo: Repo): Result<set<Dir>, GraphError> {
    if repo.workspace.Err? then Err(repo.workspace.error) else Traversal(repo, [Agent(repo)], {})
  }

  /** A path edge: normal, build, dev, target-specific or inherited. */
  ghost predicate Edge(repo: Repo, a: Dir, b: Dir)
    requires repo.workspace.Ok?
  {
    Passable(repo, a) && exists n :: n in Declared(repo.manifests[a].value) && Target(repo, a, n) == Ok(Some(b))
  }

  ghost predicate IsWalk(repo: Repo, walk: seq<Dir>)
    requires repo.workspace.Ok?
  {
    forall i :: 0 <= i < |walk| - 1 ==> Edge(repo, walk[i], walk[i + 1])
  }

  function Agent(repo: Repo): Dir { repo.root + ["agent"] }

  ghost predicate Reachable(repo: Repo, dir: Dir)
    requires repo.workspace.Ok?
  {
    exists walk :: walk != [] && walk[0] == Agent(repo) && walk[|walk| - 1] == dir && IsWalk(repo, walk)
  }

  lemma AgentIsReachable(repo: Repo)
    requires repo.workspace.Ok?
    ensures Reachable(repo, Agent(repo))
  {
    var walk := [Agent(repo)];
    assert IsWalk(repo, walk);
  }

  lemma EdgeExtendsReach(repo: Repo, a: Dir, b: Dir)
    requires repo.workspace.Ok? && Reachable(repo, a) && Edge(repo, a, b)
    ensures Reachable(repo, b)
  {
    var walk :| walk != [] && walk[0] == Agent(repo) && walk[|walk| - 1] == a && IsWalk(repo, walk);
    var longer := walk + [b];
    assert IsWalk(repo, longer);
  }

  /** A closed set that holds the start of a walk holds its end. */
  lemma {:induction false} ClosedHoldsWalk(repo: Repo, closed: set<Dir>, walk: seq<Dir>)
    requires repo.workspace.Ok? && walk != [] && walk[0] in closed && IsWalk(repo, walk)
    requires forall a, b :: a in closed && Edge(repo, a, b) ==> b in closed
    ensures walk[|walk| - 1] in closed
    decreases |walk|
  {
    if |walk| > 1 {
      assert Edge(repo, walk[0], walk[1]);
      assert IsWalk(repo, walk[1..]) by {
        assert forall i :: 0 <= i < |walk| - 2 ==> Edge(repo, walk[1..][i], walk[1..][i + 1]);
      }
      ClosedHoldsWalk(repo, closed, walk[1..]);
    }
  }

  /** Pushes the targets of one manifest's items. */
  method PushTargets(repo: Repo, dir: Dir, items: seq<Item>, pending: seq<Dir>)
      returns (r: Result<seq<Dir>, GraphError>)
    requires repo.workspace.Ok?
    ensures var targets := Targets(repo, dir, items);
      r == if targets.Ok? then Ok(pending + targets.value) else Err(targets.error)
  {
    var out := pending;
    assert items[..0] == [];
    for k := 0 to |items|
      invariant Targets(repo, dir, items[..k]).Ok? && out == pending + Targets(repo, dir, items[..k]).value
    {
      assert items[..k + 1][..k] == items[..k];
      match Target(repo, dir, items[k]) {
        case Err(e) =>
          FirstErrorStands(repo, dir, items, k + 1);
          return Err(e);
        case Ok(None) =>
        case Ok(Some(d)) =>
          out := out + [d];
      }
    }
    assert items[..|items|] == items;
    r := Ok(out);
  }

  /** Visited directories are passable and have their targets visited or pending; nothing visited
      or pending is unreachable; the start is one of them. */
  ghost predicate IsTraversal(repo: Repo, pending: seq<Dir>, seen: set<Dir>)
    requires repo.workspace.Ok?
  {
    && (forall d :: d in pending || d in seen ==> Reachable(repo, d))
    && (forall d :: d in seen ==> Passable(repo, d))
    && (forall a, b :: a in seen && Edge(repo, a, b) ==> b in seen || b in pending)
    && (Agent(repo) in seen || Agent(repo) in pending)
  }

  lemma VisitedAgain(repo: Repo, pending: seq<Dir>, seen: set<Dir>)
    requires repo.workspace.Ok? && pending != [] && IsTraversal(repo, pending, seen)
    requires pending[|pending| - 1] in seen
    ensures IsTraversal(repo, pending[..|pending| - 1], seen)
  {
    assert forall d :: d in pending ==> d in pending[..|pending| - 1] || d == pending[|pending| - 1];
  }

  lemma Visited(repo: Repo, pending: seq<Dir>, seen: set<Dir>, pushed: seq<Dir>)
    requires repo.workspace.Ok? && pending != [] && IsTraversal(repo, pending, seen)
    requires var d := pending[|pending| - 1];
      && Passable(repo, d)
      && forall t :: t in pushed <==> t in pending[..|pending| - 1] || Edge(repo, d, t)
    ensures IsTraversal(repo, pushed, seen + {pending[|pending| - 1]})
  {
    var d, seen' := pending[|pending| - 1], seen + {pending[|pending| - 1]};
    assert d in pending && forall t :: t in pending ==> t in pending[..|pending| - 1] || t == d;
    forall t | t in pushed || t in seen' ensures Reachable(repo, t) {
      if t !in pending && t !in seen {
        EdgeExtendsReach(repo, d, t);
      }
    }
    forall a, b | a in seen' && Edge(repo, a, b) ensures b in seen' || b in pushed {
      assert a in seen ==> b in seen || b in pending;
    }
  }

  lemma NothingPending(repo: Repo, seen: set<Dir>)
    requires repo.workspace.Ok? && IsTraversal(repo, [], seen)
    ensures forall d :: d in seen <==> Reachable(repo, d)
  {
    forall d | Reachable(repo, d) ensures d in seen {
      var walk :| walk != [] && walk[0] == Agent(repo) && walk[|walk| - 1] == d && IsWalk(repo, walk);
      ClosedHoldsWalk(repo, seen, walk);
    }
  }

  lemma VisitedTargets(repo: Repo, pending: seq<Dir>, seen: set<Dir>)
    requires repo.workspace.Ok? && pending != [] && IsTraversal(repo, pending, seen)
    requires Failure(repo, pending[|pending| - 1]).None?
    ensures var d := pending[|pending| - 1];
      var targets := Targets(repo, d, Declared(repo.manifests[d].value)).value;
      IsTraversal(repo, pending[..|pending| - 1] + targets, seen + {d})
  {
    var d := pending[|pending| - 1];
    var items := Declared(repo.manifests[d].value);
    PassableIsExact(repo, d);
    TargetsAreOk(repo, d, items);
    var pushed := pending[..|pending| - 1] + Targets(repo, d, items).value;
    forall t ensures t in pushed <==> t in pending[..|pending| - 1] || Edge(repo, d, t) {}
    Visited(repo, pending, seen, pushed);
  }

  /** A traversal that is under way fails exactly when some reachable directory cannot be passed, with
      what goes wrong in one of these, and otherwise ends with exactly the reachable ones. */
  ghost predicate EndsExactly(repo: Repo, r: Result<set<Dir>, GraphError>)
    requires repo.workspace.Ok?
  {
    && (r.Ok? <==> forall d :: Reachable(repo, d) ==> Passable(repo, d))
    && (r.Ok? ==> forall d :: d in r.value <==> Reachable(repo, d))
    && (r.Err? ==> exists d :: Reachable(repo, d) && Failure(repo, d) == Some(r.error))
  }

  lemma {:induction false} TraversalIsExact(repo: Repo, pending: seq<Dir>, seen: set<Dir>)
    requires repo.workspace.Ok? && IsTraversal(repo, pending, seen)
    ensures EndsExactly(repo, Traversal(repo, pending, seen))
    decreases repo.manifests.Keys - seen, |pending|
  {
    if pending == [] {
      NothingPending(repo, seen);
    } else {
      var d := pending[|pending| - 1];
      assert d in pending;
      PassableIsExact(repo, d);
      if Inside(repo, d) && d in seen {
        VisitedAgain(repo, pending, seen);
        TraversalIsExact(repo, pending[..|pending| - 1], seen);
      } else if Failure(repo, d).None? {
        VisitedTargets(repo, pending, seen);
        var targets := Targets(repo, d, Declared(repo.manifests[d].value)).value;
        TraversalIsExact(repo, pending[..|pending| - 1] + targets, seen + {d});
      }
    }
  }

  lemma LookUpIsExact(repo: Repo)
    requires repo.workspace.Ok?
    ensures EndsExactly(repo, LookUp(repo))
  {
    AgentIsReachable(repo);
    TraversalIsExact(repo, [Agent(repo)], {});
  }

  // ------------------------------------------------------------------ where the edges lead

  /** The manifest declares this item, in any of the three kinds of any of its tables. */
  ghost predicate Declares(manifest: Manifest, item: Item) {
    && manifest.Manifest?
    && exists k :: 0 <= k < |manifest.tables| && manifest.tables[k].Table? && IsInTable(manifest.tables[k], item)
  }

  ghost predicate IsInTable(table: Table, item: Item)
    requires table.Table?
  {
    || (table.normal.Section? && item in table.normal.declarations)
    || (table.build.Section? && item in table.build.declarations)
    || (table.dev.Section? && item in table.dev.declarations)
  }

  lemma {:induction false} DeclaredHolds(tables: seq<Table>, k: nat, item: Item)
    requires k < |tables| && tables[k].Table? && IsInTable(tables[k], item)
    ensures item in ItemsOfTables(tables)
  {
    if k > 0 {
      DeclaredHolds(tables[1..], k - 1, item);
    }
  }

  // ------------------------------------------------------------------ what can be passed

  /** An item that goes wrong nowhere: the workspace knows an inherited name, and a path is text. */
  predicate IsSound(known: map<string, Dependency>, item: Item) {
    && item.Declaration?
    && (item.dependency.Spec? ==>
          if item.dependency.workspace then item.name in known && HasNoWrongPath(known[item.name])
          else HasNoWrongPath(item.dependency))
  }

  predicate HasNoWrongPath(dependency: Dependency) {
    dependency.Spec? ==> !dependency.path.NotText?
  }

  ghost predicate IsSoundTable(known: map<string, Dependency>, table: Table) {
    && table.Table? && table.normal.Section? && table.build.Section? && table.dev.Section?
    && forall item :: IsInTable(table, item) ==> IsSound(known, item)
  }

  /** A directory of the checkout with a manifest that parses, every table a table with its three kinds tables
      (an absent kind is an empty one), and every item sound. */
  ghost predicate IsSoundDir(repo: Repo, dir: Dir)
    requires repo.workspace.Ok?
  {
    && repo.root <= dir && dir in repo.manifests && repo.manifests[dir].Some?
    && var manifest := repo.manifests[dir].value;
    && manifest.Manifest?
    && forall k :: 0 <= k < |manifest.tables| ==> IsSoundTable(repo.workspace.value, manifest.tables[k])
  }

  /** What one item ends in, where it goes wrong. */
  lemma WrongItems(repo: Repo, dir: Dir, item: Item)
    requires repo.workspace.Ok?
    ensures IsSound(repo.workspace.value, item) <==> Target(repo, dir, item).Ok?
    ensures Target(repo, dir, Misshapen) == Err(WrongShape)
    ensures forall name :: name !in repo.workspace.value ==>
              forall path :: Target(repo, dir, Declaration(name, Spec(true, path))) == Err(UnknownWorkspaceName)
    ensures forall name :: Target(repo, dir, Declaration(name, Spec(false, NotText))) == Err(WrongPath)
    ensures forall name, path ::
              (name in repo.workspace.value && repo.workspace.value[name].Spec?
               && repo.workspace.value[name].path == NotText) ==>
                Target(repo, dir, Declaration(name, Spec(true, path))) == Err(WrongPath)
  {}

  /** The items of a table are the normal, the build and the dev ones in this order, then come the tables
      after it. What is no table is one item of the wrong shape. */
  lemma ItemsInOrder(table: Table, rest: seq<Table>)
    ensures ItemsOfTables([]) == []
    ensures table.NoTable? ==> ItemsOfTables([table] + rest) == [Misshapen] + ItemsOfTables(rest)
    ensures table.Table? && table.normal.Section? && table.build.Section? && table.dev.Section? ==>
              ItemsOfTables([table] + rest)
              == table.normal.declarations + table.build.declarations + table.dev.declarations + ItemsOfTables(rest)
    ensures table.Table? && table.normal.NoSection? ==>
              [Misshapen] <= ItemsOfTables([table] + rest)
    ensures table.Table? && table.normal.Section? && table.build.NoSection? ==>
              table.normal.declarations + [Misshapen] <= ItemsOfTables([table] + rest)
    ensures table.Table? && table.normal.Section? && table.build.Section? && table.dev.NoSection? ==>
              table.normal.declarations + table.build.declarations + [Misshapen] <= ItemsOfTables([table] + rest)
  {
    assert ([table] + rest)[1..] == rest;
  }

  lemma {:induction false} SoundTables(known: map<string, Dependency>, tables: seq<Table>)
    ensures (forall item :: item in ItemsOfTables(tables) ==> IsSound(known, item))
       <==> forall k :: 0 <= k < |tables| ==> IsSoundTable(known, tables[k])
  {
    if tables != [] {
      SoundTables(known, tables[1..]);
      SoundTable(known, tables[0], tables[1..]);
      assert tables == [tables[0]] + tables[1..];
      assert forall k :: 0 < k < |tables| ==> tables[k] == tables[1..][k - 1];
    }
  }

  lemma SoundTable(known: map<string, Dependency>, table: Table, rest: seq<Table>)
    ensures (forall item :: item in ItemsOfTables([table] + rest) ==> IsSound(known, item))
       <==> IsSoundTable(known, table) && forall item :: item in ItemsOfTables(rest) ==> IsSound(known, item)
  {
    ItemsInOrder(table, rest);
    assert ([table] + rest)[0] == table && ([table] + rest)[1..] == rest;
    if table.NoTable? || table.normal.NoSection? || table.build.NoSection? || table.dev.NoSection? {
      assert Misshapen in ItemsOfTables([table] + rest);
    } else {
      var all := table.normal.declarations + table.build.declarations + table.dev.declarations;
      assert forall item :: IsInTable(table, item) <==> item in all;
    }
  }

  lemma PassableIsSpelledOut(repo: Repo, dir: Dir)
    requires repo.workspace.Ok?
    ensures Passable(repo, dir) <==> IsSoundDir(repo, dir)
  {
    if Inside(repo, dir) && dir in repo.manifests && repo.manifests[dir].Some? {
      var manifest := repo.manifests[dir].value;
      forall item ensures IsSound(repo.workspace.value, item) <==> Target(repo, dir, item).Ok? {
        WrongItems(repo, dir, item);
      }
      if manifest.Manifest? {
        SoundTables(repo.workspace.value, manifest.tables);
      } else {
        assert Misshapen in Declared(manifest);
      }
    }
  }

  /** What goes wrong in a directory: it lies outside, it cannot be read, or its first unsound item. */
  lemma FailureIsTheFirst(repo: Repo, dir: Dir, k: nat)
    requires repo.workspace.Ok?
    ensures !(repo.root <= dir) ==> Failure(repo, dir) == Some(External)
    ensures repo.root <= dir && (dir !in repo.manifests || repo.manifests[dir].None?) ==>
              Failure(repo, dir) == Some(Unreadable)
    ensures repo.root <= dir && dir in repo.manifests && repo.manifests[dir].Some? ==>
              var items := Declared(repo.manifests[dir].value);
              k < |items| && !IsSound(repo.workspace.value, items[k])
              && (forall j :: 0 <= j < k ==> IsSound(repo.workspace.value, items[j])) ==>
                Target(repo, dir, items[k]).Err? && Failure(repo, dir) == Some(Target(repo, dir, items[k]).error)
  {
    if repo.root <= dir && dir in repo.manifests && repo.manifests[dir].Some? {
      var items := Declared(repo.manifests[dir].value);
      forall item ensures IsSound(repo.workspace.value, item) <==> Target(repo, dir, item).Ok? {
        WrongItems(repo, dir, item);
      }
      if k < |items| && !IsSound(repo.workspace.value, items[k])
         && (forall j :: 0 <= j < k ==> IsSound(repo.workspace.value, items[j])) {
        TargetsAreOk(repo, dir, items[..k]);
        assert items[..k + 1][..k] == items[..k];
        FirstErrorStands(repo, dir, items, k + 1);
      }
    }
  }

  /** Where a dependency of the manifest in `dir` leads, in directories: down from it, to one beside it,
      from the file system's root, or, inherited, down from the checkout. `rest` are proper names. */
  ghost predicate LeadsTo(repo: Repo, dir: Dir, item: Item, target: Dir)
    requires repo.workspace.Ok?
  {
    && item.Declaration? && item.dependency.Spec?
    && (|| (!item.dependency.workspace && HasPath(item.dependency, dir, target))
        || (item.dependency.workspace && item.name in repo.workspace.value
            && HasPath(repo.workspace.value[item.name], repo.root, target)))
  }

  ghost predicate HasPath(dependency: Dependency, origin: Dir, target: Dir) {
    && dependency.Spec? && dependency.path.Path?
    && var text := dependency.path.text;
    || (!text.absolute && AreProper(text.parts) && target == origin + text.parts)
    || (!text.absolute && text.parts != [] && text.parts[0] == ".." && AreProper(text.parts[1..])
        && origin != [] && target == origin[..|origin| - 1] + text.parts[1..])
    || (text.absolute && AreProper(text.parts) && target == text.parts)
  }

  lemma PathIsFollowed(origin: Dir, dependency: Dependency, target: Dir)
    requires HasPath(dependency, origin, target)
    ensures Followed(origin, dependency) == Ok(Some(target))
  {
    var parts := dependency.path.text.parts;
    if dependency.path.text.absolute {
      NamesGoDown([], parts);
      assert [] + parts == parts;
    } else if AreProper(parts) {
      NamesGoDown(origin, parts);
    } else {
      var up, x := origin[..|origin| - 1], origin[|origin| - 1];
      assert origin == up + [x] && parts == [".."] + parts[1..];
      DotsGoUp(up, x, parts[1..]);
      NamesGoDown(up, parts[1..]);
    }
  }

  ghost predicate IsDeclaredIn(repo: Repo, dir: Dir, item: Item) {
    dir in repo.manifests && repo.manifests[dir].Some? && Declares(repo.manifests[dir].value, item)
  }

  /** Roots hold the agent, and wherever a dependency of one of them leads. */
  ghost predicate HoldsDependencies(repo: Repo, roots: set<Dir>)
    requires repo.workspace.Ok?
  {
    && repo.root + ["agent"] in roots
    && forall d, item, target ::
         d in roots && d in repo.manifests && IsDeclaredIn(repo, d, item) && LeadsTo(repo, d, item, target) ==>
           target in roots
  }

  lemma RootsHoldDependencies(repo: Repo, roots: set<Dir>)
    requires repo.workspace.Ok? && LookUp(repo) == Ok(roots)
    ensures HoldsDependencies(repo, roots)
  {
    LookUpIsExact(repo);
    AgentIsReachable(repo);
    forall d, item, target |
      d in roots && d in repo.manifests && IsDeclaredIn(repo, d, item) && LeadsTo(repo, d, item, target)
      ensures target in roots
    {
      var manifest := repo.manifests[d].value;
      var k :| 0 <= k < |manifest.tables| && manifest.tables[k].Table? && IsInTable(manifest.tables[k], item);
      DeclaredHolds(manifest.tables, k, item);
      if item.dependency.workspace {
        PathIsFollowed(repo.root, repo.workspace.value[item.name], target);
      } else {
        PathIsFollowed(d, item.dependency, target);
      }
      assert Target(repo, d, item) == Ok(Some(target));
      assert Edge(repo, d, target);
      EdgeExtendsReach(repo, d, target);
    }
  }

  /** A dependency with this path, followed from `origin`. */
  predicate IsPathOf(dependency: Dependency, origin: Dir, target: Dir) {
    && dependency.Spec? && dependency.path.Path?
    && var text := dependency.path.text;
    target == if text.absolute then Resolve([], text.parts) else Resolve(origin, text.parts)
  }

  /** And they hold nothing else: besides the agent each is where a path dependency of one of them leads, its own
      or one inherited from the workspace. */
  ghost predicate AreDependencies(repo: Repo, roots: set<Dir>)
    requires repo.workspace.Ok?
  {
    forall d :: d in roots && d != repo.root + ["agent"] ==>
      exists a, item :: a in roots && IsItemOf(repo, a, item) && IsFollowedTo(repo, a, item, d)
  }

  ghost predicate IsFollowedTo(repo: Repo, dir: Dir, item: Item, target: Dir)
    requires repo.workspace.Ok?
  {
    && item.Declaration? && item.dependency.Spec?
    && (if item.dependency.workspace then
          item.name in repo.workspace.value && IsPathOf(repo.workspace.value[item.name], repo.root, target)
        else IsPathOf(item.dependency, dir, target))
  }

  ghost predicate IsItemOf(repo: Repo, dir: Dir, item: Item) {
    dir in repo.manifests && repo.manifests[dir].Some? && item in Declared(repo.manifests[dir].value)
  }

  lemma RootsAreDependencies(repo: Repo, roots: set<Dir>)
    requires repo.workspace.Ok? && LookUp(repo) == Ok(roots)
    ensures AreDependencies(repo, roots)
  {
    LookUpIsExact(repo);
    forall d | d in roots && d != repo.root + ["agent"]
      ensures exists a, item :: a in roots && IsItemOf(repo, a, item) && IsFollowedTo(repo, a, item, d)
    {
      var a, item := LastEdge(repo, d);
      TargetIsFollowed(repo, a, item, d);
    }
  }

  lemma TargetIsFollowed(repo: Repo, dir: Dir, item: Item, target: Dir)
    requires repo.workspace.Ok? && Target(repo, dir, item) == Ok(Some(target))
    ensures IsFollowedTo(repo, dir, item, target)
  {}

  lemma RootsAreSound(repo: Repo, roots: set<Dir>)
    requires repo.workspace.Ok? && LookUp(repo) == Ok(roots)
    ensures forall d :: d in roots ==> IsSoundDir(repo, d)
  {
    LookUpIsExact(repo);
    forall d | d in roots ensures IsSoundDir(repo, d) {
      PassableIsSpelledOut(repo, d);
    }
  }

  /** A reachable directory other than the agent has an edge from a reachable one. */
  lemma LastEdge(repo: Repo, d: Dir) returns (a: Dir, item: Item)
    requires repo.workspace.Ok? && Reachable(repo, d) && d != Agent(repo)
    ensures Reachable(repo, a) && IsItemOf(repo, a, item) && Target(repo, a, item) == Ok(Some(d))
  {
    var walk :| walk != [] && walk[0] == Agent(repo) && walk[|walk| - 1] == d && IsWalk(repo, walk);
    a := walk[|walk| - 2];
    WalkWithoutItsEnd(repo, walk);
    item := ItemOfEdge(repo, a, d);
  }

  lemma WalkWithoutItsEnd(repo: Repo, walk: seq<Dir>)
    requires repo.workspace.Ok? && |walk| > 1 && walk[0] == Agent(repo) && IsWalk(repo, walk)
    ensures Reachable(repo, walk[|walk| - 2]) && Edge(repo, walk[|walk| - 2], walk[|walk| - 1])
  {
    var shorter := walk[..|walk| - 1];
    assert IsWalk(repo, shorter);
    assert shorter != [] && shorter[0] == Agent(repo) && shorter[|shorter| - 1] == walk[|walk| - 2];
    var i := |walk| - 2;
    assert Edge(repo, walk[i], walk[i + 1]);
  }

  lemma ItemOfEdge(repo: Repo, a: Dir, b: Dir) returns (item: Item)
    requires repo.workspace.Ok? && Edge(repo, a, b)
    ensures IsItemOf(repo, a, item) && Target(repo, a, item) == Ok(Some(b))
  {
    item :| item in Declared(repo.manifests[a].value) && Target(repo, a, item) == Ok(Some(b));
  }

  /** For instance a path that goes up from the agent into the crates, and one inherited from the
      workspace. */
  lemma AgentsCratesAreRoots(repo: Repo, roots: set<Dir>, name: string, x: string)
    requires repo.workspace.Ok? && LookUp(repo) == Ok(roots) && IsProper(x)
    requires var agent := repo.root + ["agent"];
      agent in repo.manifests && repo.manifests[agent].Some?
    ensures var manifest := repo.manifests[repo.root + ["agent"]].value;
      Declares(manifest, Declaration(name, Spec(false, Path(PathText(false, ["..", "crates", x])))))
      ==> repo.root + ["crates", x] in roots
    ensures var manifest := repo.manifests[repo.root + ["agent"]].value;
      (exists path :: Declares(manifest, Declaration(name, Spec(true, path))))
      && name in repo.workspace.value
      && repo.workspace.value[name] == Spec(false, Path(PathText(false, ["crates", x])))
      ==> repo.root + ["crates", x] in roots
  {
    RootsHoldDependencies(repo, roots);
    var agent, target := repo.root + ["agent"], repo.root + ["crates", x];
    var manifest := repo.manifests[agent].value;
    var item := Declaration(name, Spec(false, Path(PathText(false, ["..", "crates", x]))));
    assert ["..", "crates", x][1..] == ["crates", x] && agent[..|agent| - 1] == repo.root;
    assert AreProper(["crates", x]);
    assert HasPath(item.dependency, agent, target);
    if Declares(manifest, item) {
      assert LeadsTo(repo, agent, item, target);
    }
    if (exists path :: Declares(manifest, Declaration(name, Spec(true, path))))
      && name in repo.workspace.value
      && repo.workspace.value[name] == Spec(false, Path(PathText(false, ["crates", x]))) {
      var path :| Declares(manifest, Declaration(name, Spec(true, path)));
      assert HasPath(repo.workspace.value[name], repo.root, target);
      assert LeadsTo(repo, agent, Declaration(name, Spec(true, path)), target);
    }
  }

  /** The worklist. It ends whatever cycles and repeated pushes the graph holds, it fails exactly when
      some reachable directory cannot be passed, with what goes wrong in the first of these that it
      comes to, and otherwise it has visited exactly the reachable ones. */
  method AgentDependencyRoots(repo: Repo) returns (r: Result<set<Dir>, GraphError>)
    ensures r == LookUp(repo)
    ensures repo.workspace.Err? ==> r == Err(repo.workspace.error)
    ensures repo.workspace.Ok? ==> EndsExactly(repo, r)
    ensures r.Ok? ==> repo.workspace.Ok? && HoldsDependencies(repo, r.value) && AreDependencies(repo, r.value)
    ensures r.Ok? ==> forall d :: d in r.value ==> IsSoundDir(repo, d)
  {
    if repo.workspace.Err? {
      return Err(repo.workspace.error);
    }
    LookUpIsExact(repo);
    var pending, seen := [Agent(repo)], {};
    while pending != []
      invariant Traversal(repo, pending, seen) == LookUp(repo)
      decreases repo.manifests.Keys - seen, |pending|
    {
      var manifest := pending[|pending| - 1];
      pending := pending[..|pending| - 1];
      if !Inside(repo, manifest) {
        return Err(External);
      }
      if manifest in seen {
        continue;
      }
      if manifest !in repo.manifests || repo.manifests[manifest].None? {
        return Err(Unreadable);
      }
      var pushed := PushTargets(repo, manifest, Declared(repo.manifests[manifest].value), pending);
      if pushed.Err? {
        return Err(pushed.error);
      }
      seen := seen + {manifest};
      pending := pushed.value;
    }
    r := Ok(seen);
    RootsHoldDependencies(repo, seen);
    RootsAreDependencies(repo, seen);
    RootsAreSound(repo, seen);
  }
}
