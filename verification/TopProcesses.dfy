/** `top_processes` of `agent/src/metrics.rs`: the union of the busiest by CPU and by memory. */
module TopProcesses {
  import opened Wrappers
  import opened Sorting
  import opened Collections

  datatype ThreadKind = Userland | Kernel

  datatype ProcEntry = ProcEntry(pid: int, name: string, threadKind: Option<ThreadKind>, cpu: real, memory: real)

  datatype Process = Process(pid: int, name: string, cpuPercent: real, cpuCores: real, memoryMb: real)

  predicate IsProcess(e: ProcEntry) { e.threadKind.None? }

  function ToProcess(e: ProcEntry): Process {
    Process(e.pid, e.name, e.cpu, e.cpu / 100.0, e.memory)
  }

  function Processes(entries: seq<ProcEntry>): seq<Process> {
    if entries == [] then []
    else (if IsProcess(entries[0]) then [ToProcess(entries[0])] else []) + Processes(entries[1..])
  }

  predicate MoreCpu(a: Process, b: Process) { a.cpuPercent > b.cpuPercent }

  predicate MoreMemory(a: Process, b: Process) { a.memoryMb > b.memoryMb }

  function Take<T>(s: seq<T>, limit: nat): (r: seq<T>)
    ensures |r| == if limit <= |s| then limit else |s|
    ensures r <= s
  {
    if limit <= |s| then s[..limit] else s
  }

  /** The candidates in the order the code meets them. */
  function Candidates(all: seq<Process>, limit: nat): seq<Process> {
    Take(StableSort(all, MoreCpu), limit) + Take(StableSort(all, MoreMemory), limit)
  }

  /** Keeps the first row of each pid. */
  function FirstOfEachPid(s: seq<Process>): seq<Process> {
    if s == [] then []
    else
      var kept, p := FirstOfEachPid(s[..|s| - 1]), s[|s| - 1];
      if p.pid in Pids(kept) then kept else kept + [p]
  }

  function Pids(s: seq<Process>): set<int> {
    set p | p in s :: p.pid
  }

  function Top(all: seq<Process>, limit: nat): seq<Process> {
    StableSort(FirstOfEachPid(Candidates(all, limit)), MoreCpu)
  }

  lemma FirstOfSnoc(s: seq<Process>, p: Process)
    ensures var kept := FirstOfEachPid(s);
      FirstOfEachPid(s + [p]) == if p.pid in Pids(kept) then kept else kept + [p]
  {
    assert (s + [p])[..|s + [p]| - 1] == s;
  }

  lemma PidsOfSnoc(s: seq<Process>, p: Process)
    ensures Pids(s + [p]) == Pids(s) + {p.pid}
  {}

  /** The rows kept of those met so far, and their pids. */
  predicate IsMerged(met: seq<Process>, out: seq<Process>, seen: set<int>) {
    out == FirstOfEachPid(met) && seen == Pids(out)
  }

  lemma MergesOneMore(met: seq<Process>, rows: seq<Process>, k: nat, out: seq<Process>, seen: set<int>)
    requires k < |rows| && IsMerged(met + rows[..k], out, seen)
    ensures if rows[k].pid in seen then IsMerged(met + rows[..k + 1], out, seen)
            else IsMerged(met + rows[..k + 1], out + [rows[k]], seen + {rows[k].pid})
  {
    FirstOfSnoc(met + rows[..k], rows[k]);
    PidsOfSnoc(out, rows[k]);
    assert met + rows[..k] + [rows[k]] == met + rows[..k + 1];
  }

  /** One of the two merging loops: keeps the rows whose pid has not been seen. */
  method Merge(seen: set<int>, out: seq<Process>, rows: seq<Process>, ghost met: seq<Process>)
      returns (seen': set<int>, out': seq<Process>)
    requires IsMerged(met, out, seen)
    ensures IsMerged(met + rows, out', seen')
  {
    seen', out' := seen, out;
    assert met + rows[..0] == met;
    for k := 0 to |rows|
      invariant IsMerged(met + rows[..k], out', seen')
    {
      var p := rows[k];
      MergesOneMore(met, rows, k, out', seen');
      if p.pid !in seen' {
        seen', out' := seen' + {p.pid}, out' + [p];
      }
    }
    assert rows[..|rows|] == rows;
  }

  /** The row of an entry: its pid and name, its CPU in per cent of one core and in cores, its memory. */
  ghost predicate IsRowOf(p: Process, e: ProcEntry) {
    && p.pid == e.pid && p.name == e.name && p.memoryMb == e.memory
    && p.cpuPercent == e.cpu && p.cpuCores * 100.0 == e.cpu
  }

  /** Exactly the entries that are neither threads nor kernel tasks become rows, in their order. */
  lemma {:induction false} RowsAreOfProcesses(entries: seq<ProcEntry>)
    ensures forall p :: p in Processes(entries) <==> exists e :: e in entries && e.threadKind == None && IsRowOf(p, e)
  {
    if entries != [] {
      var first, rest := entries[0], entries[1..];
      RowsAreOfProcesses(rest);
      assert entries == [first] + rest;
      RowIsOne(first);
      forall p ensures p in Processes(entries) <==> exists e :: e in entries && e.threadKind == None && IsRowOf(p, e) {
        if p in Processes(entries) && p !in Processes(rest) {
          assert first in entries && IsRowOf(p, first);
        }
      }
    }
  }

  lemma RowIsOne(e: ProcEntry)
    ensures IsRowOf(ToProcess(e), e) && forall p :: IsRowOf(p, e) ==> p == ToProcess(e)
  {
    forall p | IsRowOf(p, e) ensures p == ToProcess(e) {
      assert p.cpuCores == p.cpuCores * 100.0 / 100.0;
    }
  }

  /** What is reported are rows of processes in the table: none of a thread or a kernel task, each with
      its own figures. */
  method TopRows(entries: seq<ProcEntry>, limit: nat) returns (rows: seq<Process>)
    ensures rows == Top(Processes(entries), limit)
    ensures forall p :: p in rows ==> exists e :: e in entries && e.threadKind == None && IsRowOf(p, e)
  {
    TopIsWellFormed(Processes(entries), limit);
    RowsAreOfProcesses(entries);
    var all := Processes(entries);
    var byCpu, byMemory := StableSort(all, MoreCpu), StableSort(all, MoreMemory);
    var seen, kept := Merge({}, [], Take(byCpu, limit), []);
    assert [] + Take(byCpu, limit) == Take(byCpu, limit);
    seen, kept := Merge(seen, kept, Take(byMemory, limit), Take(byCpu, limit));
    rows := StableSort(kept, MoreCpu);
  }

  // ------------------------------------------------------------------ what the rows promise

  ghost predicate DistinctPids(s: seq<Process>) {
    forall i, j :: 0 <= i < j < |s| ==> s[i].pid != s[j].pid
  }

  lemma {:induction false} FirstOfEachPidKeeps(s: seq<Process>)
    ensures var kept := FirstOfEachPid(s);
      && DistinctPids(kept) && Pids(kept) == Pids(s) && |kept| <= |s|
      && (forall p :: p in kept ==> p in s)
  {
    if s != [] {
      FirstOfEachPidKeeps(s[..|s| - 1]);
      assert s == s[..|s| - 1] + [s[|s| - 1]];
      assert Pids(s) == Pids(s[..|s| - 1]) + {s[|s| - 1].pid};
    }
  }

  lemma OrdersAreWeak()
    ensures IsWeakOrder(MoreCpu) && IsWeakOrder(MoreMemory)
  {}

  lemma DistinctPidsPermute(a: seq<Process>, b: seq<Process>)
    requires multiset(a) == multiset(b) && DistinctPids(a)
    ensures DistinctPids(b)
  {
    StaysDistinct(a, b);
    SameMembers(a, b);
    forall i, j | 0 <= i < j < |b| ensures b[i].pid != b[j].pid {
      assert b[i] in a && b[j] in a && b[i] != b[j];
    }
  }

  /** No pid twice, no row invented, and the CPU figures never rise down the list. */
  lemma TopIsWellFormed(all: seq<Process>, limit: nat)
    ensures var rows := Top(all, limit);
      && DistinctPids(rows)
      && (forall i, j :: 0 <= i < j < |rows| ==> rows[i].cpuPercent >= rows[j].cpuPercent)
      && (forall p :: p in rows ==> p in all)
      && |rows| <= 2 * limit
  {
    var candidates := Candidates(all, limit);
    FirstOfEachPidKeeps(candidates);
    OrdersAreWeak();
    SortSorts(FirstOfEachPid(candidates), MoreCpu);
    DistinctPidsPermute(FirstOfEachPid(candidates), Top(all, limit));
    SameMembers(FirstOfEachPid(candidates), Top(all, limit));
    SameMembers(all, StableSort(all, MoreCpu));
    SameMembers(all, StableSort(all, MoreMemory));
  }

  lemma CandidatesAreRows(all: seq<Process>, limit: nat)
    ensures forall p :: p in Candidates(all, limit) ==> p in all
  {
    SameMembers(all, StableSort(all, MoreCpu));
    SameMembers(all, StableSort(all, MoreMemory));
  }

  lemma SamePidSameRow(all: seq<Process>, p: Process, q: Process)
    requires DistinctPids(all) && p in all && q in all && p.pid == q.pid
    ensures p == q
  {}

  /** With distinct pids every candidate stays. */
  lemma CandidatesStay(all: seq<Process>, limit: nat, p: Process)
    requires DistinctPids(all) && p in Candidates(all, limit)
    ensures p in Top(all, limit)
  {
    var kept := FirstOfEachPid(Candidates(all, limit));
    FirstOfEachPidKeeps(Candidates(all, limit));
    assert p.pid in Pids(kept);
    var q :| q in kept && q.pid == p.pid;
    CandidatesAreRows(all, limit);
    SamePidSameRow(all, p, q);
    SameMembers(kept, Top(all, limit));
  }

  /** With distinct pids there are at least `limit` rows, or all of them, and no more than all. */
  lemma TopHasEnough(all: seq<Process>, limit: nat)
    requires DistinctPids(all)
    ensures |Top(all, limit)| >= if limit <= |all| then limit else |all|
    ensures |Top(all, limit)| <= |all|
  {
    var candidates := Candidates(all, limit);
    var first := Take(StableSort(all, MoreCpu), limit);
    var kept := FirstOfEachPid(candidates);
    FirstOfEachPidKeeps(candidates);
    DistinctPidsPermute(all, StableSort(all, MoreCpu));
    CandidatesAreRows(all, limit);
    PidCount(first);
    PidCount(kept);
    PidCount(all);
    forall p | p in first ensures p.pid in Pids(candidates) {
      assert p in candidates;
    }
    SubsetIsSmaller(Pids(first), Pids(candidates));
    SubsetIsSmaller(Pids(candidates), Pids(all));
  }

  lemma {:induction false} PidCount(s: seq<Process>)
    requires DistinctPids(s)
    ensures |Pids(s)| == |s|
  {
    if s != [] {
      PidCount(s[1..]);
      assert s == [s[0]] + s[1..];
      assert Pids(s) == {s[0].pid} + Pids(s[1..]);
      assert s[0].pid !in Pids(s[1..]);
    }
  }

  /** How many rows the figure does not exceed. */
  function AtLeast(s: seq<Process>, key: Process -> real, figure: real): nat {
    if s == [] then 0 else (if key(s[0]) >= figure then 1 else 0) + AtLeast(s[1..], key, figure)
  }

  lemma {:induction false} AtLeastOfInsert(x: Process, s: seq<Process>, before: Order<Process>, key: Process -> real,
                                           figure: real)
    ensures AtLeast(Insert(x, s, before), key, figure) == AtLeast([x] + s, key, figure)
  {
    assert ([x] + s)[1..] == s;
    if s != [] && before(s[0], x) {
      AtLeastOfInsert(x, s[1..], before, key, figure);
      assert ([x] + s[1..])[1..] == s[1..];
      assert Insert(x, s, before)[1..] == Insert(x, s[1..], before);
    }
  }

  lemma {:induction false} AtLeastOfSort(s: seq<Process>, before: Order<Process>, key: Process -> real, figure: real)
    ensures AtLeast(StableSort(s, before), key, figure) == AtLeast(s, key, figure)
  {
    if s != [] {
      AtLeastOfSort(s[1..], before, key, figure);
      AtLeastOfInsert(s[0], StableSort(s[1..], before), before, key, figure);
      var sorted := StableSort(s[1..], before);
      assert ([s[0]] + sorted)[1..] == sorted;
    }
  }

  lemma {:induction false} AtLeastBeside(s: seq<Process>, n: nat, key: Process -> real, k: nat)
    requires n <= k < |s| && forall i :: 0 <= i < n ==> key(s[i]) >= key(s[k])
    ensures AtLeast(s, key, key(s[k])) >= n + 1
  {
    if n > 0 {
      AtLeastBeside(s[1..], n - 1, key, k - 1);
    } else if k > 0 {
      AtLeastBeside(s[1..], 0, key, k - 1);
    }
  }

  /** Besides a row left out there are `limit` rows at or above it on both counts: with itself, one
      more than `limit`. */
  lemma OmittedIsBeaten(all: seq<Process>, limit: nat, p: Process)
    requires DistinctPids(all) && p in all && p !in Top(all, limit)
    ensures AtLeast(all, (q: Process) => q.cpuPercent, p.cpuPercent) >= limit + 1
    ensures AtLeast(all, (q: Process) => q.memoryMb, p.memoryMb) >= limit + 1
  {
    if p in Candidates(all, limit) {
      CandidatesStay(all, limit, p);
    }
    OrdersAreWeak();
    OmittedFromOne(all, limit, p, MoreCpu, (q: Process) => q.cpuPercent);
    OmittedFromOne(all, limit, p, MoreMemory, (q: Process) => q.memoryMb);
  }

  lemma OmittedFromOne(all: seq<Process>, limit: nat, p: Process, before: Order<Process>, key: Process -> real)
    requires p in all && p !in Take(StableSort(all, before), limit)
    requires forall a, b :: before(a, b) <==> key(a) > key(b)
    ensures AtLeast(all, key, key(p)) >= limit + 1
  {
    var sorted := StableSort(all, before);
    SortSorts(all, before);
    SameMembers(all, sorted);
    var k :| 0 <= k < |sorted| && sorted[k] == p;
    assert limit <= k;
    forall i | 0 <= i < limit ensures key(sorted[i]) >= key(p) {
      assert !before(sorted[k], sorted[i]);
    }
    AtLeastBeside(sorted, limit, key, k);
    AtLeastOfSort(all, before, key, key(p));
  }

  /** Threads and kernel tasks change nothing, wherever they stand in the table. */
  lemma {:induction false} ThreadsDoNotCount(a: seq<ProcEntry>, thread: ProcEntry, b: seq<ProcEntry>)
    requires !IsProcess(thread)
    ensures Processes(a + [thread] + b) == Processes(a + b)
  {
    if a == [] {
      assert a + [thread] + b == [thread] + b && a + b == b;
      assert ([thread] + b)[1..] == b;
    } else {
      ThreadsDoNotCount(a[1..], thread, b);
      assert (a + [thread] + b)[1..] == a[1..] + [thread] + b && (a + b)[1..] == a[1..] + b;
    }
  }

  // ------------------------------------------------------------------ units do not matter

  function Scaled(c: real): Process -> Process {
    (p: Process) => p.(cpuPercent := c * p.cpuPercent, cpuCores := c * p.cpuCores)
  }

  lemma ScalingKeepsOrder(c: real)
    requires c > 0.0
    ensures forall a, b :: MoreCpu(Scaled(c)(a), Scaled(c)(b)) == MoreCpu(a, b)
    ensures forall a, b :: MoreMemory(Scaled(c)(a), Scaled(c)(b)) == MoreMemory(a, b)
  {
    forall a: Process, b: Process ensures MoreCpu(Scaled(c)(a), Scaled(c)(b)) == MoreCpu(a, b) {
      ScalingReals(c, a.cpuPercent, b.cpuPercent);
    }
  }

  lemma ScalingReals(c: real, x: real, y: real)
    requires c > 0.0
    ensures c * x > c * y <==> x > y
  {
    assert c * x - c * y == c * (x - y);
  }

  lemma {:induction false} MapOfTake(f: Process -> Process, s: seq<Process>, limit: nat)
    ensures Take(Map(f, s), limit) == Map(f, Take(s, limit))
  {
    forall k | 0 <= k < |Take(s, limit)| ensures Take(Map(f, s), limit)[k] == Map(f, Take(s, limit))[k] {
      MapAt(f, s, k);
      MapAt(f, Take(s, limit), k);
    }
  }

  lemma {:induction false} MapOfConcat(f: Process -> Process, a: seq<Process>, b: seq<Process>)
    ensures Map(f, a + b) == Map(f, a) + Map(f, b)
  {
    if a == [] {
      assert a + b == b;
    } else {
      MapOfConcat(f, a[1..], b);
      assert (a + b)[1..] == a[1..] + b;
    }
  }

  lemma {:induction false} PidsOfMap(f: Process -> Process, s: seq<Process>)
    requires forall p :: f(p).pid == p.pid
    ensures Pids(Map(f, s)) == Pids(s)
  {
    if s != [] {
      PidsOfMap(f, s[1..]);
      assert s == [s[0]] + s[1..];
      assert Pids(s) == {s[0].pid} + Pids(s[1..]);
      assert Pids([f(s[0])] + Map(f, s[1..])) == {s[0].pid} + Pids(Map(f, s[1..]));
    }
  }

  lemma {:induction false} FirstOfMap(f: Process -> Process, s: seq<Process>)
    requires forall p :: f(p).pid == p.pid
    ensures FirstOfEachPid(Map(f, s)) == Map(f, FirstOfEachPid(s))
  {
    if s != [] {
      var init, last := s[..|s| - 1], s[|s| - 1];
      assert s == init + [last];
      MapOfSnoc(f, init, last);
      assert Map(f, s)[..|s| - 1] == Map(f, init);
      FirstOfMap(f, init);
      PidsOfMap(f, FirstOfEachPid(init));
      MapOfSnoc(f, FirstOfEachPid(init), last);
    }
  }

  lemma TopOfMap(all: seq<Process>, limit: nat, f: Process -> Process, before: Order<Process>)
    requires forall a, b :: before(f(a), f(b)) == before(a, b)
    ensures Take(StableSort(Map(f, all), before), limit) == Map(f, Take(StableSort(all, before), limit))
  {
    SortOfMap(f, all, before, before);
    MapOfTake(f, StableSort(all, before), limit);
  }

  lemma CandidatesOfMap(all: seq<Process>, limit: nat, c: real)
    requires c > 0.0
    ensures Candidates(Map(Scaled(c), all), limit) == Map(Scaled(c), Candidates(all, limit))
  {
    var f := Scaled(c);
    var first, second := Take(StableSort(all, MoreCpu), limit), Take(StableSort(all, MoreMemory), limit);
    assert Take(StableSort(Map(f, all), MoreCpu), limit) == Map(f, first) by {
      ScalingKeepsOrder(c);
      TopOfMap(all, limit, f, MoreCpu);
    }
    assert Take(StableSort(Map(f, all), MoreMemory), limit) == Map(f, second) by {
      ScalingKeepsOrder(c);
      TopOfMap(all, limit, f, MoreMemory);
    }
    MapOfConcat(f, first, second);
  }

  /** Multiplying every CPU figure by one positive constant, as the shared-handle error did, keeps
      the rows and their order, ties included: the sorts are stable. */
  lemma ScalingKeepsRows(all: seq<Process>, limit: nat, c: real)
    requires c > 0.0
    ensures Top(Map(Scaled(c), all), limit) == Map(Scaled(c), Top(all, limit))
  {
    CandidatesOfMap(all, limit, c);
    FirstOfMap(Scaled(c), Candidates(all, limit));
    ScaledSort(FirstOfEachPid(Candidates(all, limit)), c);
  }

  lemma ScaledSort(rows: seq<Process>, c: real)
    requires c > 0.0
    ensures StableSort(Map(Scaled(c), rows), MoreCpu) == Map(Scaled(c), StableSort(rows, MoreCpu))
  {
    ScalingKeepsOrder(c);
    SortOfMap(Scaled(c), rows, MoreCpu, MoreCpu);
  }
}
