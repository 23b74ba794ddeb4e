/** The two sysinfo handles of `agent/src/metrics.rs`: over which windows a process's CPU is
    measured. Times are milliseconds. */
module SamplerWindows {
  import opened Wrappers

  const MINIMUM_CPU_UPDATE_INTERVAL := 200
  const SAMPLE_INTERVAL := 1000
  const PROCESS_SAMPLE_TICKS := 60
  const U64: int := 0x1_0000_0000_0000_0000

  datatype Window = Window(from: nat, to: nat) {
    function Length(): int { to - from }
  }

  /** What a process reading divides: its own CPU time over `numerator`, by the machine's over
      `denominator`. */
  datatype Reading = Reading(numerator: Window, denominator: Window)

  /** A `sysinfo::System`: when its CPU counters were read last and the time before, and when its
      processes were. A fresh handle has read nothing; its first windows are empty. */
  datatype Handle = Handle(cpu: Option<Window>, processesAt: Option<nat>)

  const FRESH := Handle(None, None)

  function RefreshCpu(h: Handle, now: nat): Handle {
    h.(cpu := Some(Window(if h.cpu.Some? then h.cpu.value.to else now, now)))
  }

  /** The process path re-reads the counters only when they are 200 ms old. */
  function RefreshIfNeeded(h: Handle, now: nat): Handle {
    if h.cpu.Some? && now - h.cpu.value.to < MINIMUM_CPU_UPDATE_INTERVAL then h else RefreshCpu(h, now)
  }

  function RefreshProcesses(h: Handle, now: nat): (r: (Handle, Reading))
    ensures r.0.cpu.Some? && r.0.processesAt == Some(now)
  {
    var read := RefreshIfNeeded(h, now);
    var since := if h.processesAt.Some? then h.processesAt.value else now;
    (read.(processesAt := Some(now)), Reading(Window(since, now), read.cpu.value))
  }

  /** Nobody but the process refreshes ever read this handle's counters. */
  predicate IsPrivate(h: Handle) {
    h.cpu.Some? && h.processesAt == Some(h.cpu.value.to)
  }

  /** On a private handle the two windows are one window exactly when the gate opens, and the
      handle stays private then. */
  lemma WindowsAgree(h: Handle, now: nat)
    requires IsPrivate(h) && h.processesAt.value < now
    ensures var (after, r) := RefreshProcesses(h, now);
      && (r.numerator == r.denominator <==> h.processesAt.value + 200 <= now)
      && (r.numerator == r.denominator <==> IsPrivate(after))
      && r.numerator == Window(h.processesAt.value, now)
  {}

  /** A shared handle refreshed every `interval` and asked for processes every `ticks` of them. */
  function SharedTicks(h: Handle, start: nat, interval: nat, ticks: nat): Handle
    decreases ticks
  {
    if ticks == 0 then h else RefreshCpu(SharedTicks(h, start, interval, ticks - 1), start + ticks * interval)
  }

  lemma {:induction false} SharedTicksKeepProcesses(h: Handle, start: nat, interval: nat, ticks: nat)
    ensures SharedTicks(h, start, interval, ticks).processesAt == h.processesAt
    ensures h.cpu.Some? && h.cpu.value.to == start ==>
              SharedTicks(h, start, interval, ticks).cpu.Some?
              && SharedTicks(h, start, interval, ticks).cpu.value.to == start + ticks * interval
    ensures ticks > 0 && h.cpu.Some? && h.cpu.value.to == start ==>
              SharedTicks(h, start, interval, ticks).cpu.value.from == start + (ticks - 1) * interval
    decreases ticks
  {
    if ticks > 0 {
      SharedTicksKeepProcesses(h, start, interval, ticks - 1);
    }
  }

  /** A process refresh that follows a CPU refresh of the same handle within 200 ms divides by the last
      CPU window, however long ago the last process refresh was: the inflation is the ratio of the two
      cadences, exactly when the two refreshes coincide. */
  lemma SharedHandleInflates(h: Handle, start: nat, interval: nat, ticks: nat, late: nat)
    requires h.cpu.Some? && h.cpu.value.to == start && h.processesAt == Some(start) && interval > 0 && ticks > 0
    requires late < 200
    ensures var r := RefreshProcesses(SharedTicks(h, start, interval, ticks), start + ticks * interval + late).1;
      && r.denominator.Length() == interval && r.numerator.Length() == ticks * interval + late
      && (r.numerator.Length() == ticks * r.denominator.Length() <==> late == 0)
  {
    SharedTicksKeepProcesses(h, start, interval, ticks);
    assert ticks * interval == (ticks - 1) * interval + interval;
  }

  // ------------------------------------------------------------------ the loop

  class SamplerSystems {
    var machine: Handle
    var processes: Handle

    /** Both handles, primed. */
    constructor (now: nat)
      ensures machine == Handle(Some(Window(now, now)), None)
      ensures IsPrivate(processes) && processes.processesAt == Some(now)
    {
      machine := RefreshCpu(FRESH, now);
      processes := RefreshProcesses(FRESH, now).0;
    }

    method Machine(now: nat)
      modifies this`machine
      ensures machine == RefreshCpu(old(machine), now)
    {
      machine := RefreshCpu(machine, now);
    }

    method Processes(now: nat) returns (r: Reading)
      modifies this`processes
      ensures (processes, r) == RefreshProcesses(old(processes), now)
    {
      var after, reading := RefreshProcesses(processes, now).0, RefreshProcesses(processes, now).1;
      processes, r := after, reading;
    }
  }

  /** One turn of the loop: when it refreshed the machine, and when the processes. */
  datatype Turn = Turn(machine: nat, processes: nat)

  /** The loop sleeps a sample interval after priming and after every turn. */
  predicate IsPaced(primed: nat, turns: seq<Turn>) {
    forall i :: 0 <= i < |turns| ==> IsPacedTurn(primed, turns, i)
  }

  predicate IsPacedTurn(primed: nat, turns: seq<Turn>, i: nat)
    requires i < |turns|
  {
    Before(primed, turns, i) + SAMPLE_INTERVAL <= turns[i].machine <= turns[i].processes
  }

  /** When the loop went to sleep before turn i. */
  function Before(primed: nat, turns: seq<Turn>, i: nat): nat
    requires i <= |turns|
  {
    if i == 0 then primed else turns[i - 1].processes
  }

  /** `wrapping_add(1)` on 64 bits. */
  function Advanced(tick: int): int { if tick == U64 - 1 then 0 else tick + 1 }

  /** `tick` k turns later. */
  function Later(tick: int, k: nat): int {
    if k == 0 then tick else Advanced(Later(tick, k - 1))
  }

  lemma {:induction false} LaterIsModular(tick: int, k: nat)
    requires 0 <= tick < U64 && k <= U64
    ensures Later(tick, k) == if tick + k < U64 then tick + k else tick + k - U64
    decreases k
  {
    if k > 0 {
      LaterIsModular(tick, k - 1);
    }
  }

  /** The counter wraps once in 584 billion years, and even then a process refresh is never more
      than 60 turns after the one before: it comes 44 turns early. */
  lemma NextProcessRefresh(tick: int)
    requires 0 <= tick < U64 && tick % PROCESS_SAMPLE_TICKS == 0
    ensures var gap := if tick == U64 - 16 then 16 else PROCESS_SAMPLE_TICKS;
      && Later(tick, gap) % PROCESS_SAMPLE_TICKS == 0
      && forall k :: 0 < k < gap ==> Later(tick, k) % PROCESS_SAMPLE_TICKS != 0
  {
    var turns := tick / 60;
    LastRefreshBeforeWrap(turns);
    var gap := if tick == U64 - 16 then 16 else PROCESS_SAMPLE_TICKS;
    forall k | 0 < k < gap ensures Later(tick, k) % PROCESS_SAMPLE_TICKS != 0 {
      LaterIsModular(tick, k);
      NotAMultiple(turns, k);
    }
    LaterIsModular(tick, gap);
    if gap == PROCESS_SAMPLE_TICKS {
      NextMultiple(turns);
    }
  }

  lemma LastRefreshBeforeWrap(turns: int)
    requires 60 * turns < U64
    ensures 60 * turns == U64 - 16 || 60 * turns + 60 < U64
  {
    assert U64 == 60 * 307_445_734_561_825_860 + 16;
  }

  lemma NotAMultiple(turns: int, k: int)
    requires 0 < k < 60
    ensures (60 * turns + k) % 60 != 0
  {}

  lemma NextMultiple(turns: int)
    ensures (60 * turns + 60) % 60 == 0
  {}

  // ------------------------------------------------------------------ the loop's cadence

  /** At turn i the counter, which starts at 0, is a multiple of 60. */
  predicate Refreshes(i: nat) {
    Later(0, i) % PROCESS_SAMPLE_TICKS == 0
  }

  /** The turns among the first n that refresh the processes, in order. */
  function RefreshTurns(n: nat): (turns: seq<nat>)
    ensures forall k :: 0 <= k < |turns| ==> turns[k] < n && Refreshes(turns[k])
    ensures forall i :: 0 <= i < n && Refreshes(i) ==> i in turns
    ensures forall j, k :: 0 <= j < k < |turns| ==> turns[j] < turns[k]
  {
    if n == 0 then []
    else
      var before := RefreshTurns(n - 1);
      if Refreshes(n - 1) then before + [n - 1] else before
  }

  lemma {:induction false} LaterAdds(tick: int, i: nat, k: nat)
    ensures Later(Later(tick, i), k) == Later(tick, i + k)
  {
    if k > 0 {
      LaterAdds(tick, i, k - 1);
    }
  }

  lemma {:induction false} LaterIsATick(i: nat)
    ensures 0 <= Later(0, i) < U64
  {
    if i > 0 {
      LaterIsATick(i - 1);
    }
  }

  /** The turns until the next process refresh. */
  function Gap(turn: nat): nat {
    if Later(0, turn) == U64 - 16 then 16 else PROCESS_SAMPLE_TICKS
  }

  /** After a refresh the next one is a gap away, and not earlier. */
  lemma NextRefreshTurn(turn: nat)
    requires Refreshes(turn)
    ensures Refreshes(turn + Gap(turn))
    ensures forall i :: turn < i < turn + Gap(turn) ==> !Refreshes(i)
  {
    LaterIsATick(turn);
    NextProcessRefresh(Later(0, turn));
    LaterAdds(0, turn, Gap(turn));
    forall i | turn < i < turn + Gap(turn) ensures !Refreshes(i) {
      LaterAdds(0, turn, i - turn);
    }
  }

  lemma NextIsAGapAway(n: nat, k: nat)
    requires k + 1 < |RefreshTurns(n)|
    ensures var turns := RefreshTurns(n); turns[k + 1] == turns[k] + Gap(turns[k])
  {
    var turns := RefreshTurns(n);
    var next := turns[k] + Gap(turns[k]);
    NextRefreshTurn(turns[k]);
    assert turns[k] < turns[k + 1] && Refreshes(turns[k + 1]);
    assert next <= turns[k + 1];
    var j :| 0 <= j < |turns| && turns[j] == next;
    assert j == k + 1;
  }

  lemma {:induction false} FirstIsAtOnce(n: nat)
    requires n > 0
    ensures RefreshTurns(n) != [] && RefreshTurns(n)[0] == 0
  {
    assert Refreshes(0);
    if n > 1 {
      FirstIsAtOnce(n - 1);
    }
  }

  lemma LastIsAGapBeforeTheEnd(n: nat)
    requires RefreshTurns(n) != []
    ensures var turns := RefreshTurns(n); n <= turns[|turns| - 1] + Gap(turns[|turns| - 1])
  {
    var turns := RefreshTurns(n);
    var last := turns[|turns| - 1];
    NextRefreshTurn(last);
  }

  /** The counter at turn i. */
  lemma {:induction false} TickIsModular(i: nat)
    ensures Later(0, i) == i % 0x1_0000_0000_0000_0000
  {
    if i > 0 {
      TickIsModular(i - 1);
    }
  }

  /** The refreshes in the turns' own numbers. */
  lemma RefreshesAre(n: nat, i: nat)
    ensures i in RefreshTurns(n) <==> i < n && i % 0x1_0000_0000_0000_0000 % 60 == 0
    ensures Gap(i) == if (i + 16) % 0x1_0000_0000_0000_0000 == 0 then 16 else 60
  {
    TickIsModular(i);
    assert Refreshes(i) <==> i % 0x1_0000_0000_0000_0000 % 60 == 0;
  }

  /** In a loop run of n turns the first refresh is at the first turn, consecutive refreshes are
      exactly 60 turns apart, or 16 where the counter wraps, and after the last one the run ends
      before another is due. */
  lemma RefreshesKeepTheCadence(n: nat)
    ensures var turns := RefreshTurns(n);
      && (n > 0 ==> turns != [] && turns[0] == 0 && n <= turns[|turns| - 1] + Gap(turns[|turns| - 1]))
      && (forall k :: 0 <= k < |turns| - 1 ==> turns[k + 1] == turns[k] + Gap(turns[k]))
  {
    var turns := RefreshTurns(n);
    if n > 0 {
      FirstIsAtOnce(n);
      LastIsAGapBeforeTheEnd(n);
    }
    forall k | 0 <= k < |turns| - 1 ensures turns[k + 1] == turns[k] + Gap(turns[k]) {
      NextIsAGapAway(n, k);
    }
  }

  /** The reading that a process refresh at a turn must give: over the time since the refresh before
      it, or since the priming. */
  function ReadingAt(primed: nat, turns: seq<Turn>, refreshes: seq<nat>, k: nat): Reading
    requires k < |refreshes| && forall j :: 0 <= j < |refreshes| ==> refreshes[j] < |turns|
  {
    var window := Window(if k == 0 then primed else turns[refreshes[k - 1]].processes, turns[refreshes[k]].processes);
    Reading(window, window)
  }

  /** The readings so far are those of these refreshes, and the last of them was at `last`. */
  ghost predicate HaveRead(primed: nat, turns: seq<Turn>, refreshes: seq<nat>, readings: seq<Reading>, last: nat) {
    && (forall j :: 0 <= j < |refreshes| ==> refreshes[j] < |turns|)
    && |readings| == |refreshes|
    && last == (if refreshes == [] then primed else turns[refreshes[|refreshes| - 1]].processes)
    && forall k :: 0 <= k < |readings| ==>
         readings[k] == ReadingAt(primed, turns, refreshes, k) && readings[k].numerator.Length() >= SAMPLE_INTERVAL
  }

  lemma ReadsOnceMore(primed: nat, turns: seq<Turn>, refreshes: seq<nat>, readings: seq<Reading>, last: nat, i: nat)
    requires HaveRead(primed, turns, refreshes, readings, last)
    requires i < |turns| && last + SAMPLE_INTERVAL <= turns[i].processes
    ensures var window := Window(last, turns[i].processes);
      HaveRead(primed, turns, refreshes + [i], readings + [Reading(window, window)], turns[i].processes)
  {
    var window := Window(last, turns[i].processes);
    var refreshes', readings' := refreshes + [i], readings + [Reading(window, window)];
    forall k | 0 <= k < |readings'|
      ensures readings'[k] == ReadingAt(primed, turns, refreshes', k)
      ensures readings'[k].numerator.Length() >= SAMPLE_INTERVAL
    {
      if k < |readings| {
        assert readings'[k] == ReadingAt(primed, turns, refreshes, k);
      }
    }
  }

  /** The loop over any number of turns: it reads processes at exactly the turns of the cadence, and
      every reading divides over one window, the time since the previous process refresh, or since the
      priming. */
  method SamplerLoop(primed: nat, turns: seq<Turn>) returns (readings: seq<Reading>)
    requires IsPaced(primed, turns)
    ensures |readings| == |RefreshTurns(|turns|)|
    ensures forall k :: 0 <= k < |readings| ==>
              && readings[k] == ReadingAt(primed, turns, RefreshTurns(|turns|), k)
              && readings[k].numerator.Length() >= 1000
  {
    var sys := new SamplerSystems(primed);
    readings := [];
    var tick := 0;
    ghost var last := primed;
    for i := 0 to |turns|
      invariant tick == Later(0, i)
      invariant IsPrivate(sys.processes) && sys.processes.processesAt == Some(last)
      invariant last <= Before(primed, turns, i)
      invariant HaveRead(primed, turns, RefreshTurns(i), readings, last)
    {
      assert IsPacedTurn(primed, turns, i);
      sys.Machine(turns[i].machine);
      if tick % PROCESS_SAMPLE_TICKS == 0 {
        WindowsAgree(sys.processes, turns[i].processes);
        ReadsOnceMore(primed, turns, RefreshTurns(i), readings, last, i);
        var r := sys.Processes(turns[i].processes);
        last := turns[i].processes;
        readings := readings + [r];
      }
      tick := Advanced(tick);
    }
  }
}
