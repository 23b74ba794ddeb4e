/** The supervised sampler of `agent/src/metrics.rs` beside the GPU probe of `agent/src/gpu.rs`: a
    state machine over every interleaving of their steps, of time, and of panics. */
module SamplerService {
  import opened Wrappers

  const SAMPLE_INTERVAL := 1000
  const STALE_INTERVALS := 3

  /** A GPU reading and the probe that took it; probe 0 is "nothing measured yet". A completed
      probe may have measured nothing either. */
  datatype Gpu = Gpu(probe: nat, value: Option<real>)

  datatype Snapshot = Snapshot(taken: nat, gpu: Gpu)

  /** Where the sampler loop stands: asleep (priming included), with a snapshot computed, with that
      snapshot written but not yet stamped, or gone, with the supervisor backing off. */
  datatype Sampler = Asleep | Computed(snapshot: Snapshot) | Written(snapshot: Snapshot) | Down

  /** `served` is None while the placeholder of `empty_snapshot` is served. `stampedBy` is the
      snapshot whose landing set the stamp, None while the stamp is the construction's. */
  datatype State = State(now: nat, built: nat, served: Option<Snapshot>, stamp: nat, stampedBy: Option<Snapshot>,
                         sampler: Sampler, cell: Gpu, results: seq<Option<real>>)

  datatype Event = Pass(time: nat) | Compute | Write | MarkSampled | Panic | Restart | ProbeStores(value: Option<real>)

  function Spawned(now: nat): State {
    State(now, now, None, now, None, Asleep, Gpu(0, None), [])
  }

  /** A step that is not possible now changes nothing. */
  function Step(s: State, e: Event): State {
    match e
    case Pass(time) => s.(now := s.now + time)
    case Compute => if s.sampler.Asleep? then s.(sampler := Computed(Snapshot(s.now, s.cell))) else s
    case Write =>
      if s.sampler.Computed? then s.(served := Some(s.sampler.snapshot), sampler := Written(s.sampler.snapshot)) else s
    case MarkSampled =>
      if s.sampler.Written? then s.(stamp := s.now, stampedBy := Some(s.sampler.snapshot), sampler := Asleep) else s
    case Panic => s.(sampler := Down)
    case Restart => if s.sampler.Down? then s.(sampler := Asleep) else s
    case ProbeStores(value) =>
      var results := s.results + [value];
      s.(cell := Gpu(|results|, value), results := results)
  }

  function Run(s: State, events: seq<Event>): State
    decreases |events|
  {
    if events == [] then s else Run(Step(s, events[0]), events[1..])
  }

  predicate IsStale(s: State) {
    s.now - s.stamp > SAMPLE_INTERVAL * STALE_INTERVALS
  }

  /** A reading is of a completed probe, or of none. */
  predicate IsMeasured(g: Gpu, results: seq<Option<real>>) {
    g == Gpu(0, None) || (0 < g.probe <= |results| && g.value == results[g.probe - 1])
  }

  predicate IsOf(p: Snapshot, s: State) {
    p.taken <= s.now && IsMeasured(p.gpu, s.results) && p.gpu.probe <= s.cell.probe
  }

  /** `b` is not older than `a`, neither as a sample nor as a probe. */
  predicate NotOlder(a: Option<Snapshot>, b: Option<Snapshot>) {
    a.None? || (b.Some? && a.value.taken <= b.value.taken && a.value.gpu.probe <= b.value.gpu.probe)
  }

  predicate Sound(s: State) {
    && s.built <= s.stamp <= s.now
    && s.cell.probe == |s.results| && IsMeasured(s.cell, s.results)
    && (s.served.Some? ==> IsOf(s.served.value, s))
    && (s.sampler.Computed? ==> IsOf(s.sampler.snapshot, s) && NotOlder(s.served, Some(s.sampler.snapshot)))
    && (s.sampler.Written? ==> s.served == Some(s.sampler.snapshot))
    && (if s.stampedBy.Some? then s.stampedBy.value.taken <= s.stamp else s.stamp == s.built)
    && NotOlder(s.stampedBy, s.served)
  }

  /** A state seen later: the stamp, the snapshot and the GPU reading only move forward. */
  predicate Progressed(s: State, t: State) {
    && s.built == t.built && s.now <= t.now && s.stamp <= t.stamp
    && NotOlder(s.served, t.served) && s.results <= t.results && s.cell.probe <= t.cell.probe
  }

  lemma PassIsSound(s: State, time: nat)
    requires Sound(s)
    ensures Sound(Step(s, Pass(time))) && Progressed(s, Step(s, Pass(time)))
  {}

  lemma SampleIsSound(s: State, e: Event)
    requires Sound(s) && (e.Compute? || e.Write? || e.MarkSampled?)
    ensures Sound(Step(s, e)) && Progressed(s, Step(s, e))
  {}

  lemma ProbeIsSound(s: State, value: Option<real>)
    requires Sound(s)
    ensures Sound(Step(s, ProbeStores(value))) && Progressed(s, Step(s, ProbeStores(value)))
  {
    var t := Step(s, ProbeStores(value));
    assert s.results <= t.results;
    StaysMeasured(s.cell, s.results, value);
    if s.served.Some? {
      StaysMeasured(s.served.value.gpu, s.results, value);
    }
    if s.sampler.Computed? {
      StaysMeasured(s.sampler.snapshot.gpu, s.results, value);
    }
  }

  lemma StaysMeasured(g: Gpu, results: seq<Option<real>>, value: Option<real>)
    requires IsMeasured(g, results)
    ensures IsMeasured(g, results + [value])
  {}

  lemma StepIsSound(s: State, e: Event)
    requires Sound(s)
    ensures Sound(Step(s, e)) && Progressed(s, Step(s, e))
  {
    match e {
      case Pass(time) => PassIsSound(s, time);
      case ProbeStores(value) => ProbeIsSound(s, value);
      case Panic =>
      case Restart =>
      case _ => SampleIsSound(s, e);
    }
  }

  /** Over every run the stamp never moves back, the served snapshot is never older than the one
      whose landing set the stamp, and its GPU reading is that of a completed probe, never of one
      before the probe that was served already. */
  lemma {:induction false} RunIsSound(s: State, events: seq<Event>)
    requires Sound(s)
    ensures Sound(Run(s, events)) && Progressed(s, Run(s, events))
    decreases |events|
  {
    if events != [] {
      StepIsSound(s, events[0]);
      RunIsSound(Step(s, events[0]), events[1..]);
    }
  }

  /** What "not stale" tells a consumer: within three intervals a sample landed, and what is
      served is at least as new as it; or the state itself was built within three intervals. */
  lemma NotStaleMeansRecent(now: nat, events: seq<Event>)
    ensures var s := Run(Spawned(now), events);
      !IsStale(s) ==>
        || (s.stampedBy.Some? && s.now <= s.stamp + 3000 && NotOlder(s.stampedBy, s.served))
        || (s.stampedBy.None? && s.now <= s.built + 3000)
  {
    RunIsSound(Spawned(now), events);
  }

  /** A loop that no longer lands samples cannot keep the stamp fresh: whatever else goes on, it
      is reported stale exactly when three intervals have passed. */
  lemma {:induction false} DeadSamplerGoesStale(s: State, events: seq<Event>)
    requires Sound(s) && MarkSampled !in events
    ensures Run(s, events).stamp == s.stamp
    ensures IsStale(Run(s, events)) <==> Run(s, events).now > s.stamp + 3000
    decreases |events|
  {
    if events != [] {
      StepIsSound(s, events[0]);
      assert events[0] in events;
      DeadSamplerGoesStale(Step(s, events[0]), events[1..]);
    }
  }

  /** The health flag does not always tell the placeholder from a sample: while nothing has landed
      it says so only once the state is three intervals old. */
  lemma PlaceholderIsFlaggedLate(now: nat, events: seq<Event>)
    requires Run(Spawned(now), events).served.None?
    ensures var s := Run(Spawned(now), events);
      IsStale(s) <==> s.now > now + 3000
  {
    RunIsSound(Spawned(now), events);
  }

  lemma FreshPlaceholderIsNotFlagged(now: nat)
    ensures Spawned(now).served.None? && !IsStale(Spawned(now))
  {}

  /** A panic is no more visible: from a fresh stamp on, whatever the loop and its supervisor do without
      landing a sample, the service is flagged at some moment exactly when that takes more than three
      intervals. */
  lemma PanicIsFlaggedLate(s: State, events: seq<Event>)
    requires Sound(s) && s.stamp == s.now && MarkSampled !in events
    ensures (exists k :: 0 <= k <= |events| && IsStale(Run(s, events[..k]))) <==> Elapsed(events) > 3000
  {
    forall k | 0 <= k <= |events|
      ensures IsStale(Run(s, events[..k])) <==> Elapsed(events[..k]) > 3000
      ensures Elapsed(events[..k]) <= Elapsed(events)
    {
      DeadSamplerGoesStale(s, events[..k]);
      TimeOfRun(s, events[..k]);
      ElapsedOfConcat(events[..k], events[k..]);
      assert events[..k] + events[k..] == events;
    }
    assert events[..|events|] == events;
  }

  lemma {:induction false} TimeOfRun(s: State, events: seq<Event>)
    ensures Run(s, events).now == s.now + Elapsed(events)
    decreases |events|
  {
    if events != [] {
      TimeOfRun(Step(s, events[0]), events[1..]);
    }
  }

  lemma {:induction false} ElapsedOfConcat(a: seq<Event>, b: seq<Event>)
    ensures Elapsed(a + b) == Elapsed(a) + Elapsed(b)
  {
    if a == [] {
      assert a + b == b;
    } else {
      assert (a + b)[1..] == a[1..] + b;
      ElapsedOfConcat(a[1..], b);
    }
  }

  /** What goes on beside the sampler: time passes and probes store. */
  predicate IsBackground(events: seq<Event>) {
    forall e :: e in events ==> e.Pass? || e.ProbeStores?
  }

  function Elapsed(events: seq<Event>): nat {
    if events == [] then 0 else (if events[0].Pass? then events[0].time else 0) + Elapsed(events[1..])
  }

  /** The background leaves the sampler where it stands, and what is served and stamped. */
  lemma {:induction false} BackgroundPasses(s: State, events: seq<Event>)
    requires IsBackground(events)
    ensures var t := Run(s, events);
      t == s.(now := s.now + Elapsed(events), cell := t.cell, results := t.results)
    decreases |events|
  {
    if events != [] {
      assert events[0] in events;
      BackgroundPasses(Step(s, events[0]), events[1..]);
    }
  }

  lemma {:induction false} RunSplits(s: State, a: seq<Event>, b: seq<Event>)
    ensures Run(s, a + b) == Run(Run(s, a), b)
    decreases |a|
  {
    if a == [] {
      assert a + b == b;
    } else {
      assert (a + b)[1..] == a[1..] + b;
      RunSplits(Step(s, a[0]), a[1..], b);
    }
  }

  /** The background, and then one step. */
  lemma BackgroundThen(s: State, events: seq<Event>, e: Event)
    requires IsBackground(events)
    ensures var t := Run(s, events);
      && t == s.(now := s.now + Elapsed(events), cell := t.cell, results := t.results)
      && Run(s, events + [e]) == Step(t, e)
  {
    var t := Run(s, events);
    BackgroundPasses(s, events);
    RunSplits(s, events, [e]);
    assert Run(t, [e]) == Run(Step(t, e), [e][1..]);
  }

  /** One turn of the loop, with the background between its steps: `before` its computation, while
      `computing`, and while `writing`. */
  function Turn(before: seq<Event>, computing: seq<Event>, writing: seq<Event>): seq<Event> {
    (before + [Compute]) + ((computing + [Write]) + (writing + [MarkSampled]))
  }

  /** A turn serves what it computed, with the GPU reading of that moment whatever was stored since,
      stamped when it landed. */
  lemma TurnServes(s: State, before: seq<Event>, computing: seq<Event>, writing: seq<Event>)
    requires s.sampler.Asleep? && IsBackground(before) && IsBackground(computing) && IsBackground(writing)
    ensures var t, snapshot := Run(s, Turn(before, computing, writing)),
                               Snapshot(s.now + Elapsed(before), Run(s, before).cell);
      && t.served == Some(snapshot) && t.stampedBy == Some(snapshot) && t.sampler.Asleep?
      && t.stamp == t.now == s.now + Elapsed(before) + Elapsed(computing) + Elapsed(writing)
  {
    BackgroundThen(s, before, Compute);
    var computed := Run(s, before + [Compute]);
    RunSplits(s, before + [Compute], (computing + [Write]) + (writing + [MarkSampled]));
    ComputedIsServed(computed, computing, writing);
  }

  lemma ComputedIsServed(s: State, computing: seq<Event>, writing: seq<Event>)
    requires s.sampler.Computed? && IsBackground(computing) && IsBackground(writing)
    ensures var t, snapshot := Run(s, (computing + [Write]) + (writing + [MarkSampled])), s.sampler.snapshot;
      && t.served == Some(snapshot) && t.stampedBy == Some(snapshot) && t.sampler.Asleep?
      && t.stamp == t.now == s.now + Elapsed(computing) + Elapsed(writing)
  {
    BackgroundThen(s, computing, Write);
    var written := Run(s, computing + [Write]);
    RunSplits(s, computing + [Write], writing + [MarkSampled]);
    BackgroundThen(written, writing, MarkSampled);
  }

  lemma RestartedIsAsleep(s: State, backOff: seq<Event>)
    requires IsBackground(backOff)
    ensures Run(s, [Panic] + (backOff + [Restart])).sampler.Asleep?
  {
    BackgroundThen(Step(s, Panic), backOff, Restart);
    assert ([Panic] + (backOff + [Restart]))[1..] == backOff + [Restart];
  }

  /** From wherever the service stands: after a panic and the restart that follows it, as soon as the
      loop has taken one turn, with time and probes interleaved anywhere, a fresh sample is served; and
      whatever comes after, more panics included, nothing older is ever served, and it is flagged stale
      only if no later sample landed within three intervals. */
  lemma RestartServesAgain(s: State, backOff: seq<Event>, before: seq<Event>, computing: seq<Event>,
                           writing: seq<Event>, later: seq<Event>)
    requires Sound(s) && IsBackground(backOff)
    requires IsBackground(before) && IsBackground(computing) && IsBackground(writing)
    ensures var restarted := Run(s, [Panic] + (backOff + [Restart]));
      var turned := Run(restarted, Turn(before, computing, writing));
      var t := Run(turned, later);
      && turned.served == Some(Snapshot(restarted.now + Elapsed(before), Run(restarted, before).cell))
      && !IsStale(turned)
      && NotOlder(turned.served, t.served) && turned.stamp <= t.stamp
      && (IsStale(t) ==> t.now > turned.stamp + 3000)
  {
    var restarted := Run(s, [Panic] + (backOff + [Restart]));
    RestartedIsAsleep(s, backOff);
    RunIsSound(s, [Panic] + (backOff + [Restart]));
    TurnServes(restarted, before, computing, writing);
    RunIsSound(restarted, Turn(before, computing, writing));
    RunIsSound(Run(restarted, Turn(before, computing, writing)), later);
  }

  /** The loop panics, the supervisor backs off, and the restarted loop primes and computes. */
  const RECOVERY: seq<Event> :=
    ([Panic] + ([Pass(SAMPLE_INTERVAL)] + [Restart])) + (([Pass(SAMPLE_INTERVAL)] + [Compute]) + (([] + [Write]) + []))

  /** So a panic right after a sample is flagged at no moment until the restart's first sample lands,
      and not then either. */
  lemma APanicCanPassUnflagged(s: State, k: nat)
    requires Sound(s) && s.stamp == s.now && k <= |RECOVERY|
    ensures !IsStale(Run(s, RECOVERY[..k]))
    ensures !IsStale(Run(s, RECOVERY + [MarkSampled]))
  {
    RecoveryTakesTwoIntervals();
    PanicIsFlaggedLate(s, RECOVERY);
    var panic, wait := [Panic] + ([Pass(SAMPLE_INTERVAL)] + [Restart]), [Pass(SAMPLE_INTERVAL)];
    RestartServesAgain(s, wait, wait, [], [], []);
    RunSplits(s, panic, Turn(wait, [], []));
    assert RECOVERY + [MarkSampled] == panic + Turn(wait, [], []);
    assert Run(Run(s, RECOVERY + [MarkSampled]), []) == Run(s, RECOVERY + [MarkSampled]);
  }

  lemma RecoveryTakesTwoIntervals()
    ensures Elapsed(RECOVERY) == 2000
  {
    var wait := [Pass(SAMPLE_INTERVAL)];
    ElapsedOfConcat([Panic] + (wait + [Restart]), (wait + [Compute]) + (([] + [Write]) + []));
    ElapsedOfConcat([Panic], wait + [Restart]);
    ElapsedOfConcat(wait, [Restart]);
    ElapsedOfConcat(wait + [Compute], ([] + [Write]) + []);
    ElapsedOfConcat(wait, [Compute]);
    assert ([] + [Write]) + [] == [Write];
    ElapsedOfOne(Panic);
    ElapsedOfOne(Restart);
    ElapsedOfOne(Compute);
    ElapsedOfOne(Write);
    ElapsedOfOne(Pass(SAMPLE_INTERVAL));
  }

  lemma ElapsedOfOne(e: Event)
    ensures Elapsed([e]) == if e.Pass? then e.time else 0
  {
    assert [e][1..] == [];
  }
}
