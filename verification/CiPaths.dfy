/** What `scripts/ci_changes.py` runs for which path, in the paths' own letters. */
module CiPaths {
  import opened Wrappers
  import opened Text
  import opened CiSelection
  import M = ManifestGraph

  /** The trust keys are part of both products. */
  lemma TrustKeysRunEverything(repo: M.Repo, path: string)
    requires path == "agent/release-signing-key.pub" || path == "agent/release-signing-key-next.pub"
    ensures Contribution(repo, KindOf, Roots(repo), path) == Selection(true, Workspace, true, true, true)
  {}

  lemma ReadmeRunsTheFrontend(repo: M.Repo)
    ensures Contribution(repo, KindOf, Roots(repo), "README.md") == Selection(false, NoRust, true, false, false)
  {
    assert "README.md"[0] == 'R';
  }

  /** A path that is neither of these, nor documentation, nor configuration that nothing builds. */
  predicate IsSource(path: string) {
    && path != "agent/release-signing-key.pub" && path != "agent/release-signing-key-next.pub" && path != "README.md"
    && !IsDocumentation(path) && !IsNoBuildConfig(path)
  }

  lemma OtherDocumentsRunNothing(repo: M.Repo, path: string)
    requires path != "agent/release-signing-key.pub" && path != "agent/release-signing-key-next.pub"
    requires path != "README.md" && (IsDocumentation(path) || IsNoBuildConfig(path))
    ensures Contribution(repo, KindOf, Roots(repo), path) == Selection(false, NoRust, false, false, false)
  {}

  /** The scripts that are known by name. */
  lemma ScriptNames()
    ensures AGENT_HELPERS == {"scripts/agent-signing.sh", "scripts/agent-standby-key.sh", "scripts/agent-feed-guard.sh",
                              "scripts/agent-feed-guard-test.sh", "scripts/agent-deps-guard.sh"}
    ensures APP_HELPERS == {"scripts/build.sh", "scripts/run.sh", "scripts/run-test.sh",
                            "scripts/signing-identity-test.sh", "scripts/dmg-layout-test.sh",
                            "scripts/notarize-outcome-test.sh", "scripts/generate-icons.sh", "scripts/render-icons.mjs"}
  {}

  /** The names begin with 's'. */
  lemma NamesAreScripts(path: string)
    requires path == "" || path[0] != 's'
    ensures path !in AGENT_HELPERS && path !in APP_HELPERS && path != "scripts/build-agent.sh"
  {}

  lemma NamesAreUnderScripts(path: string)
    requires path in AGENT_HELPERS || path in APP_HELPERS || path == "scripts/build-agent.sh"
    ensures "scripts/" <= path
  {
    if path in AGENT_HELPERS {
      assert Begins(path);
    } else if path in APP_HELPERS {
      assert Begins(path);
    }
  }

  predicate Begins(path: string) {
    && |path| >= 8 && path[0] == 's' && path[1] == 'c' && path[2] == 'r' && path[3] == 'i' && path[4] == 'p'
    && path[5] == 't' && path[6] == 's' && path[7] == '/'
  }

  lemma PrefixesAreApart(path: string)
    requires path != ""
    ensures "agent/" <= path ==> path[0] == 'a' && |path| > 1 && path[1] == 'g'
    ensures "agent/deploy/" <= path ==> "agent/" <= path
    ensures "app/ui/" <= path ==> path[0] == 'a' && |path| > 4 && path[1] == 'p' && path[4] == 'u'
    ensures "app/src-tauri/" <= path ==> path[0] == 'a' && |path| > 4 && path[1] == 'p' && path[4] == 's'
    ensures "tests/frontend/" <= path ==> path[0] == 't'
    ensures "crates/" <= path ==> path[0] == 'c'
    ensures "scripts/" <= path ==> path[0] == 's'
  {
    if "agent/deploy/" <= path {
      assert path[..6] == "agent/deploy/"[..6] == "agent/";
    }
  }

  lemma SourcesUnderAgent(repo: M.Repo, path: string)
    requires IsSource(path) && "agent/" <= path
    ensures Contribution(repo, KindOf, Roots(repo), path)
         == if "agent/deploy/" <= path then Selection(false, NoRust, false, false, true)
            else Selection(true, AgentOnly, false, false, false)
  {
    PrefixesAreApart(path);
    NamesAreScripts(path);
  }

  lemma SourcesUnderApp(repo: M.Repo, path: string)
    requires IsSource(path) && ("app/ui/" <= path || "app/src-tauri/" <= path)
    ensures Contribution(repo, KindOf, Roots(repo), path)
         == if "app/ui/" <= path then Selection(false, NoRust, true, false, false)
            else Selection(false, Workspace, true, true, false)
  {
    PrefixesAreApart(path);
    NamesAreScripts(path);
  }

  lemma SourcesUnderTests(repo: M.Repo, path: string)
    requires IsSource(path) && "tests/frontend/" <= path
    ensures Contribution(repo, KindOf, Roots(repo), path) == Selection(false, NoRust, true, false, false)
  {
    PrefixesAreApart(path);
    NamesAreScripts(path);
  }

  lemma Scripts(repo: M.Repo, path: string)
    requires IsSource(path) && "scripts/" <= path
    ensures Contribution(repo, KindOf, Roots(repo), path)
         == if path in AGENT_HELPERS then Selection(false, NoRust, false, false, true)
            else if path == "scripts/build-agent.sh" then Selection(true, AgentOnly, false, false, true)
            else if path in APP_HELPERS then Selection(false, Workspace, true, true, true)
            else Selection(true, Workspace, true, true, true)
  {
    KindOfScript(path);
  }

  lemma KindOfScript(path: string)
    requires IsSource(path) && "scripts/" <= path
    ensures KindOf(path)
         == if path in AGENT_HELPERS then Helper
            else if path == "scripts/build-agent.sh" then AgentSource(true)
            else if path in APP_HELPERS then AppSource(true)
            else Unrecognized
  {
    ScriptsAreNothingElse(path);
  }

  lemma ScriptsAreNothingElse(path: string)
    requires "scripts/" <= path
    ensures !("agent/" <= path) && !("agent/deploy/" <= path) && !("app/ui/" <= path) && !("app/src-tauri/" <= path)
    ensures !("tests/frontend/" <= path) && !("crates/" <= path)
  {
    PrefixesAreApart(path);
  }

  /** A crate runs the workspace; the agent too where the look-up reaches it, or fails. */
  lemma SourcesUnderCrates(repo: M.Repo, path: string)
    requires IsSource(path) && "crates/" <= path
    ensures var roots := Roots(repo);
      Contribution(repo, KindOf, roots, path)
        == if roots.None? then Selection(true, Workspace, true, true, true)
           else Selection(IsUnder(repo, roots.value, path), Workspace, true, true, "crates/hostsetup/remote/" <= path)
  {
    PrefixesAreApart(path);
    NamesAreScripts(path);
  }

  /** Whatever stands under none of these runs everything. */
  lemma OtherSources(repo: M.Repo, path: string)
    requires IsSource(path) && !("agent/" <= path) && !("app/ui/" <= path) && !("app/src-tauri/" <= path)
    requires !("tests/frontend/" <= path) && !("scripts/" <= path) && !("crates/" <= path)
    ensures Contribution(repo, KindOf, Roots(repo), path) == Selection(true, Workspace, true, true, true)
  {
    if path in AGENT_HELPERS || path in APP_HELPERS || path == "scripts/build-agent.sh" {
      NamesAreUnderScripts(path);
    } else if "agent/deploy/" <= path {
      PrefixesAreApart(path);
    }
  }

  // ------------------------------------------------------------------ documentation

  lemma {:induction false} PartsOfName(name: string, word: string)
    requires '/' !in name
    ensures Parts(name, word) == if word + name == "" || word + name == "." then [] else [word + name]
  {
    if name == "" {
      assert word + name == word;
    } else {
      PartsOfName(name[1..], word + [name[0]]);
      assert word + [name[0]] + name[1..] == word + name;
    }
  }

  lemma {:induction false} PartsOfConcat(dir: string, rest: string, word: string)
    requires dir != "" && dir[|dir| - 1] == '/'
    ensures Parts(dir + rest, word) == Parts(dir, word) + Parts(rest, "")
    decreases |dir|
  {
    assert (dir + rest)[1..] == dir[1..] + rest;
    if |dir| == 1 {
      assert dir[1..] == "" && dir[1..] + rest == rest;
    } else if dir[0] == '/' {
      PartsOfConcat(dir[1..], rest, "");
    } else {
      PartsOfConcat(dir[1..], rest, word + [dir[0]]);
    }
  }

  predicate IsDirectory(dir: string) {
    dir == "" || dir[|dir| - 1] == '/'
  }

  lemma NameOfFile(dir: string, file: string)
    requires IsDirectory(dir) && '/' !in file && file != "" && file != "."
    ensures Name(dir + file) == file
  {
    PartsOfName(file, "");
    assert "" + file == file;
    if dir == "" {
      assert dir + file == file;
    } else {
      PartsOfConcat(dir, file, "");
    }
  }

  lemma {:induction false} LastDotIs(stem: string, ext: string)
    requires '.' !in ext
    ensures LastDot(stem + "." + ext) == |stem|
    decreases |ext|
  {
    var name := stem + "." + ext;
    if ext == "" {
      assert name[|name| - 1] == '.';
    } else {
      var shorter := ext[..|ext| - 1];
      assert name[..|name| - 1] == stem + "." + shorter && name[|name| - 1] == ext[|ext| - 1];
      LastDotIs(stem, shorter);
    }
  }

  /** The suffix of a file is what follows its last dot, in lower case. */
  lemma SuffixOfFile(dir: string, stem: string, ext: string)
    requires IsDirectory(dir) && '/' !in stem && '/' !in ext && '.' !in ext && stem != "" && ext != ""
    ensures Suffix(dir + (stem + "." + ext)) == LowerAscii("." + ext)
  {
    var name := stem + "." + ext;
    NameOfFile(dir, name);
    LastDotIs(stem, ext);
    assert name[|stem|..] == "." + ext;
  }

  /** Markdown is documentation everywhere but in the served trees, and under docs/ pictures are too. In
      the served trees only the two guides of app/ itself are. */
  lemma FilesOfDocumentation(dir: string, stem: string, ext: string)
    requires IsDirectory(dir) && '/' !in stem && '/' !in ext && '.' !in ext && stem != "" && ext != ""
    requires dir != ""
    ensures var path, file, suffix := dir + (stem + "." + ext), stem + "." + ext, LowerAscii("." + ext);
      var markdown := suffix == ".md" && !("app/" <= path) && !("site/" <= path);
      var picture := "docs/" <= path && suffix in {".md", ".png", ".jpg", ".jpeg", ".svg", ".webp", ".pdf"};
      IsDocumentation(path) <==> markdown || picture || (Parts(path, "") == ["app", file] && IsGuide(file))
  {
    var path, file := dir + (stem + "." + ext), stem + "." + ext;
    SuffixOfFile(dir, stem, ext);
    NameOfFile(dir, file);
    NotInTheRoot(dir, file);
    if IsGuide(file) {
      GuidesAreMarkdown(stem, ext);
      GuidesAreSomewhere(path, file);
    }
    DocumentationTests(path, file);
  }

  predicate IsGuide(file: string) { file == "README.md" || file == "AGENTS.md" }

  /** The four tests of the code, below the root. */
  lemma DocumentationTests(path: string, file: string)
    requires Name(path) == file && path !in ROOT_DOCUMENTS
    ensures var parts, suffix := Parts(path, ""), Suffix(path);
      IsDocumentation(path)
      <==> (IsGuide(file) && ((|parts| == 2 && (parts[0] == "agent" || parts[0] == "app"))
                              || (|parts| == 3 && parts[0] == "crates")))
           || (suffix == ".md" && !("app/" <= path) && !("site/" <= path))
           || ("docs/" <= path && suffix in {".md", ".png", ".jpg", ".jpeg", ".svg", ".webp", ".pdf"})
  {}

  lemma NotInTheRoot(dir: string, file: string)
    requires dir != "" && dir[|dir| - 1] == '/'
    ensures dir + file !in ROOT_DOCUMENTS
  {
    assert (dir + file)[|dir| - 1] == '/';
  }

  lemma GuidesAreMarkdown(stem: string, ext: string)
    requires '.' !in ext && IsGuide(stem + "." + ext)
    ensures LowerAscii("." + ext) == ".md"
  {
    var file := stem + "." + ext;
    LastDotIs(stem, ext);
    LastDotIs(file[..6], "md");
    assert file == file[..6] + "." + "md";
    assert "." + ext == file[|stem|..];
    assert ".md"[1..] == "md" && "md"[1..] == "d" && "d"[1..] == "";
  }

  lemma TopOf(path: string, top: string)
    requires top + "/" <= path && top != "" && top != "." && '/' !in top
    ensures Parts(path, "") != [] && Parts(path, "")[0] == top
  {
    var rest := path[|top| + 1..];
    assert path == (top + "/") + rest;
    PartsOfConcat(top + "/", rest, "");
    PartsOfTop(top, "");
    assert "" + top == top;
  }

  lemma {:induction false} PartsOfTop(top: string, word: string)
    requires '/' !in top && word + top != "" && word + top != "."
    ensures Parts(top + "/", word) == [word + top]
  {
    if top == "" {
      assert top + "/" == "/" && "/"[1..] == "" && word + top == word;
    } else {
      assert (top + "/")[1..] == top[1..] + "/";
      assert word + [top[0]] + top[1..] == word + top;
      PartsOfTop(top[1..], word + [top[0]]);
    }
  }

  lemma GuidesAreSomewhere(path: string, file: string)
    requires Name(path) == file && file != ""
    ensures var parts := Parts(path, "");
      && (|parts| == 2 && parts[0] == "app" <==> parts == ["app", file])
      && ("app/" <= path ==> parts[0] == "app") && ("site/" <= path ==> parts[0] == "site")
  {
    if "app/" <= path {
      TopOf(path, "app");
    }
    if "site/" <= path {
      TopOf(path, "site");
    }
  }

  /** A name whose only dot opens it, or whose last dot closes it, or without a dot, has no suffix. */
  lemma NoSuffix(dir: string, file: string)
    requires IsDirectory(dir) && '/' !in file && '.' !in file && file != ""
    ensures Suffix(dir + file) == "" && Suffix(dir + ("." + file)) == "" && Suffix(dir + (file + ".")) == ""
  {
    NameOfFile(dir, file);
    NameOfFile(dir, "." + file);
    NameOfFile(dir, file + ".");
    NoDot(file);
    LastDotIs("", file);
    assert "" + "." + file == "." + file;
    LastDotIs(file, "");
    assert file + "." + "" == file + ".";
  }

  lemma {:induction false} NoDot(file: string)
    requires '.' !in file
    ensures LastDot(file) == -1
    decreases |file|
  {
    if file != "" {
      NoDot(file[..|file| - 1]);
    }
  }

  /** Empty and "." components vanish, the last one included. */
  lemma PartsSkip(rest: string)
    ensures Parts("/" + rest, "") == Parts(rest, "") && Parts("./" + rest, "") == Parts(rest, "")
    ensures Parts("", "") == [] && Parts(".", "") == [] && Parts("./", "") == []
  {
    assert ("/" + rest)[1..] == rest && ("./" + rest)[1..] == "/" + rest;
    assert "."[1..] == "" && "./"[1..] == "/" && "/"[1..] == "";
    PartsOfName(".", "");
    PartsOfConcat("./", rest, "");
    PartsOfConcat("./", "", "");
    assert "./" + "" == "./";
    assert Parts("./", "") == Parts("/", ".") == [] + Parts("", "");
  }

  lemma MarkdownSuffix(stem: string)
    requires '/' !in stem && stem != ""
    ensures Suffix(stem + ".md") == ".md"
  {
    SuffixOfFile("", stem, "md");
    assert "" + (stem + "." + "md") == stem + ".md" && "." + "md" == ".md";
    assert ".md"[1..] == "md" && "md"[1..] == "d" && "d"[1..] == "";
  }

  lemma NamedDocuments(path: string)
    requires path in ROOT_DOCUMENTS
    ensures path == "LICENSE" || Suffix(path) == ".md"
  {
    var stem := if path == "README.md" then "README"
                else if path == "AGENTS.md" then "AGENTS"
                else if path == "CLAUDE.md" then "CLAUDE"
                else if path == "CHANGELOG.md" then "CHANGELOG"
                else if path == "CONTRIBUTING.md" then "CONTRIBUTING"
                else if path == "SECURITY.md" then "SECURITY"
                else "LICENSE";
    MarkdownSuffix(stem);
    assert path == "LICENSE" || path == stem + ".md";
  }

  /** In the root, markdown is documentation, and the license. */
  lemma RootDocuments(path: string)
    requires '/' !in path && path != "" && path != "."
    ensures IsDocumentation(path) <==> Suffix(path) == ".md" || path == "LICENSE"
  {
    PartsOfName(path, "");
    assert "" + path == path;
    if path in ROOT_DOCUMENTS {
      NamedDocuments(path);
    }
    NotUnderAnything(path);
  }

  lemma NotUnderAnything(path: string)
    requires '/' !in path
    ensures !("app/" <= path) && !("site/" <= path) && !("docs/" <= path)
  {
    PrefixIsInside("app/", path, '/');
    PrefixIsInside("site/", path, '/');
    PrefixIsInside("docs/", path, '/');
    assert "app/"[3] == '/' && "site/"[4] == '/' && "docs/"[4] == '/';
  }

  lemma PrefixIsInside(prefix: string, s: string, c: char)
    ensures prefix <= s && c in prefix ==> c in s
  {
    if prefix <= s && c in prefix {
      var k :| 0 <= k < |prefix| && prefix[k] == c;
      assert s[k] == c;
    }
  }

  /** The configuration that no job builds: five names, and the two families of lockfile workflows. */
  lemma UnbuiltConfiguration(path: string)
    ensures IsNoBuildConfig(path)
       <==> || path in {".github/dependabot.yml", ".github/workflows/dependabot-auto-merge.yml",
                        ".github/workflows/deps-cadence.yml", ".github/workflows/deps-cadence-impl.yml",
                        ".github/workflows/deps-cadence-codegen.yml"}
            || (exists x :: x != "" && '/' !in x && path == ".github/workflows/dependabot-" + x + "-lockfile.yml")
            || (exists x :: x != "" && '/' !in x && path == ".github/workflows/lockfile-sync-" + x + ".yml")
  {
    AroundIs(path, ".github/workflows/dependabot-", "-lockfile.yml");
    AroundIs(path, ".github/workflows/lockfile-sync-", ".yml");
  }

  lemma AroundIs(s: string, prefix: string, suffix: string)
    ensures IsAround(s, prefix, suffix) <==> exists x :: x != "" && '/' !in x && s == prefix + x + suffix
  {
    if IsAround(s, prefix, suffix) {
      var x := s[|prefix|..|s| - |suffix|];
      assert s == prefix + x + suffix;
    }
    forall x | x != "" && '/' !in x && s == prefix + x + suffix ensures IsAround(s, prefix, suffix) {
      assert s[|prefix|..|s| - |suffix|] == x && s[|s| - |suffix|..] == suffix && prefix <= s;
    }
  }

  // ------------------------------------------------------------------ the outputs of a diff

  /** Each output of a diff is that of some path of it. */
  lemma {:induction false} OutputsAreOfPaths(
      repo: M.Repo, kindOf: Classifier, roots: Option<set<M.Dir>>, paths: seq<string>)
    ensures var s := JoinAll(repo, kindOf, roots, paths);
      && (s.agentRust <==> exists p :: p in paths && Contribution(repo, kindOf, roots, p).agentRust)
      && (s.scope == Workspace <==> exists p :: p in paths && Contribution(repo, kindOf, roots, p).scope == Workspace)
      && (s.scope != NoRust <==> exists p :: p in paths && Contribution(repo, kindOf, roots, p).scope != NoRust)
      && (s.frontend <==> exists p :: p in paths && Contribution(repo, kindOf, roots, p).frontend)
      && (s.bundle <==> exists p :: p in paths && Contribution(repo, kindOf, roots, p).bundle)
      && (s.helpers <==> exists p :: p in paths && Contribution(repo, kindOf, roots, p).helpers)
  {
    if paths != [] {
      var init, last := paths[..|paths| - 1], paths[|paths| - 1];
      OutputsAreOfPaths(repo, kindOf, roots, init);
      assert last in paths && forall p :: p in paths <==> p in init || p == last;
    }
  }

  lemma RootOfCrate(repo: M.Repo, x: string)
    ensures RootText(repo, repo.root + ["crates", x]) == "crates/" + x + "/"
    ensures RootText(repo, repo.root + ["agent"]) == "agent/"
    ensures RootText(repo, repo.root) == "./"
  {
    assert (repo.root + ["crates", x])[|repo.root|..] == ["crates", x];
    assert ["crates", x][1..] == [x] && [x][1..] == [];
    assert Slashed([x]) == x + "/" + "";
    assert Slashed(["crates", x]) == "crates" + "/" + Slashed([x]);
    assert (repo.root + ["agent"])[|repo.root|..] == ["agent"] && ["agent"][1..] == [];
    assert "crates" + "/" == "crates/" && "crates/" + (x + "/" + "") == "crates/" + x + "/";
    assert "agent" + "/" + "" == "agent/";
  }

  /** A change of a file in a crate that the agent is built from runs the agent's jobs and the workspace. */
  lemma ReachableCratesRunTheAgent(repo: M.Repo, paths: seq<string>, x: string, file: string)
    requires repo.workspace.Ok? && M.Reachable(repo, repo.root + ["crates", x])
    requires "crates/" + x + "/" + file in paths && !IsDocumentation("crates/" + x + "/" + file)
    ensures JoinAll(repo, KindOf, Roots(repo), paths).agentRust
    ensures JoinAll(repo, KindOf, Roots(repo), paths).scope == Workspace
  {
    RootOfCrate(repo, x);
    var path := "crates/" + x + "/" + file;
    assert "crates/" <= path && "crates/" + x + "/" <= path;
    AgentCratesSelectTheAgent(repo, paths, path, repo.root + ["crates", x]);
  }

  /** And a change in a crate it is not built from does not, whatever the names have in common. */
  lemma OtherCratesDoNot(repo: M.Repo, x: string, file: string)
    requires '/' !in x && IsSource("crates/" + x + "/" + file) && Roots(repo).Some?
    requires forall d :: d in Roots(repo).value ==>
               d == repo.root + ["agent"] || exists y :: '/' !in y && y != x && d == repo.root + ["crates", y]
    ensures Contribution(repo, KindOf, Roots(repo), "crates/" + x + "/" + file)
         == Selection(false, Workspace, true, true, "crates/hostsetup/remote/" <= "crates/" + x + "/" + file)
  {
    var path := "crates/" + x + "/" + file;
    assert "crates/" <= path;
    SourcesUnderCrates(repo, path);
    forall d | d in Roots(repo).value ensures !(RootText(repo, d) <= path) {
      RootOfCrate(repo, x);
      if d != repo.root + ["agent"] {
        var y :| '/' !in y && y != x && d == repo.root + ["crates", y];
        RootOfCrate(repo, y);
        OneCrateAtATime(x, y, file);
      } else {
        assert "agent/"[0] != path[0];
      }
    }
  }

  lemma OneCrateAtATime(x: string, y: string, file: string)
    requires '/' !in x && '/' !in y
    ensures "crates/" + y + "/" <= "crates/" + x + "/" + file ==> y == x
  {
    var path := "crates/" + x + "/" + file;
    if "crates/" + y + "/" <= path {
      var tail := path[7..];
      assert tail == x + "/" + file;
      assert tail[..|y|] == y && tail[|y|] == '/';
      MarkIsOutside(tail, |y|, x, '/');
      MarkIsOutside(tail, |x|, y, '/');
    }
  }
}
