/** The `update` and `rollback` transactions of `agent/src/update.rs`, where any file operation can
    fail, and the process can die at any of them, with any part of a write done. */
module SelfUpdate {
  import opened Wrappers
  import opened Utf8

  type Binary = seq<byte>

  /** The installed executable and its siblings; `…Tmp` are the siblings of `copy_executable`. */
  datatype Name = Live | New | Prev | Displaced | NewTmp | PrevTmp | DisplacedTmp

  type Files = map<Name, Binary>

  /** Only the named files may differ. */
  ghost predicate Keeps(before: Files, after: Files, names: set<Name>) {
    forall n: Name :: n !in names ==> (n in before <==> n in after) && (n in before ==> after[n] == before[n])
  }

  datatype CalVer = CalVer(year: nat, month: nat, patch: nat)

  predicate Newer(a: CalVer, b: CalVer) {
    || a.year > b.year
    || (a.year == b.year && (a.month > b.month || (a.month == b.month && a.patch > b.patch)))
  }

  /** The signed feed's entry for this host: the version, and the hash of the one binary that the
      signatures vouch for. */
  datatype Feed = Feed(version: string, sha256: string)

  /** What the outside answers in one run: what a binary answers to `--version`, which a running
      process also reports as its version; how it hashes; how version texts parse; what the
      download yields; and what becomes of each restart and health check. */
  datatype World = World(answer: Binary -> Option<string>, sha256: Binary -> string,
                         calVer: string -> Option<CalVer>, isSourceBuild: string -> bool,
                         download: Option<Binary>, reached: seq<bool>, restarts: nat -> Restart)

  predicate IsNewer(w: World, want: string, have: string) {
    w.calVer(want).Some? && w.calVer(have).Some? && Newer(w.calVer(want).value, w.calVer(have).value)
  }

  /** A restart can be refused by the manager. Otherwise the health endpoint is reached or not at each
      attempt, and the old process goes on answering until the new one replaces it, if ever. */
  datatype Restart = Refused | Restarted(reached: seq<bool>, replacedFrom: Option<nat>)

  /** What one attempt hears: nothing it can use, or a healthy answer with the version it reports. */
  datatype Reply = NoReply | Healthy(version: Option<string>)

  datatype Wanted = Version(version: string) | Online

  /** An answer with the wanted version; or one without any, where the restored binary has none. */
  predicate Meets(wanted: Wanted, version: Option<string>) {
    match wanted
    case Version(want) => version == Some(want)
    case Online => version == None
  }

  predicate IsMet(wanted: Wanted, reply: Reply) {
    reply.Healthy? && Meets(wanted, reply.version)
  }

  /** The process that serves at an attempt after a restart. */
  function Serving(restart: Restart, before: Binary, after: Option<Binary>, attempt: nat): Binary
    requires restart.Restarted?
  {
    if after.Some? && restart.replacedFrom.Some? && restart.replacedFrom.value <= attempt then after.value else before
  }

  function Replies(w: World, reached: seq<bool>, serving: nat -> Binary): (replies: seq<Reply>)
    ensures |replies| == |reached|
    ensures forall k :: 0 <= k < |reached| ==>
              replies[k] == if reached[k] then Healthy(w.answer(serving(k))) else NoReply
  {
    seq(|reached|, k requires 0 <= k < |reached| => if reached[k] then Healthy(w.answer(serving(k))) else NoReply)
  }

  ghost function FirstTakenOver(restart: Restart): (k: nat)
    requires TakesOver(restart)
    ensures restart.replacedFrom.value <= k < |restart.reached| && restart.reached[k]
  {
    var k :| restart.replacedFrom.value <= k < |restart.reached| && restart.reached[k];
    k
  }

  /** The new process takes over and is reached within the attempts. */
  predicate TakesOver(restart: Restart) {
    && restart.Restarted? && restart.replacedFrom.Some?
    && exists k :: restart.replacedFrom.value <= k < |restart.reached| && restart.reached[k]
  }

  datatype Fate = Done | Fails(written: nat) | Dies(written: nat)

  /** All operations from number `first` up to `last` are done. */
  ghost predicate AllDone(fates: Fates, first: nat, last: nat) {
    first <= last && forall n :: first <= n < last ==> fates(n).Done?
  }

  /** The fate of the run's file operations, by number. */
  type Fates = nat -> Fate

  datatype Status = Fine | Failed | Dead

  datatype UpdateOutcome =
    | AlreadyCurrent | Updated | Refusal | NotNewer | CandidateRefused | IoError
    | UpdateFailedRecovered | RecoveryFailed | Died

  datatype RollbackOutcome = RolledBack | NoPrevious | HalfDone | RollbackIoError | RollbackUnhealthy | RollbackDied

  class Install {
    var files: Files
    var running: Binary
    var operations: nat
    var restarted: nat

    constructor (files: Files, running: Binary)
      ensures this.files == files && this.running == running
    {
      this.files, this.running, operations, restarted := files, running, 0, 0;
    }

    method Next(fates: Fates) returns (fate: Fate)
      modifies this`operations
      ensures operations == old(operations) + 1 && fate == fates(old(operations))
    {
      fate := fates(operations);
      operations := operations + 1;
    }

    method RemoveFile(name: Name, fates: Fates) returns (s: Status)
      modifies this`operations, this`files
      ensures files == old(files) || files == old(files) - {name}
      ensures s == Fine ==> name !in files
      ensures operations == old(operations) + 1 && (s == Fine <==> fates(old(operations)).Done?)
    {
      var fate := Next(fates);
      if fate.Done? {
        files := files - {name};
        return Fine;
      }
      s := if fate.Fails? then Failed else Dead;
    }

    /** `rename`: all or nothing. */
    method Rename(from: Name, to: Name, fates: Fates) returns (s: Status)
      requires from in files && from != to
      modifies this`operations, this`files
      ensures files == if s == Fine then (old(files) - {from})[to := old(files)[from]] else old(files)
      ensures operations == old(operations) + 1 && (s == Fine <==> fates(old(operations)).Done?)
    {
      var fate := Next(fates);
      if fate.Done? {
        files := (files - {from})[to := files[from]];
        return Fine;
      }
      s := if fate.Fails? then Failed else Dead;
    }

    /** Removes a stale file, creates it anew, writes and syncs: a torn write leaves a part. */
    method StageCandidate(name: Name, bytes: Binary, fates: Fates) returns (s: Status)
      modifies this`operations, this`files
      ensures Keeps(old(files), files, {name})
      ensures s == Fine ==> name in files && files[name] == bytes
      ensures operations > old(operations) && (s == Fine <==> AllDone(fates, old(operations), operations))
    {
      s := RemoveFile(name, fates);
      if s != Fine {
        return;
      }
      var created := Next(fates);
      if !created.Done? {
        return if created.Fails? then Failed else Dead;
      }
      files := files[name := []];
      var written := Next(fates);
      if !written.Done? {
        files := files[name := if written.written <= |bytes| then bytes[..written.written] else bytes];
        return if written.Fails? then Failed else Dead;
      }
      files := files[name := bytes];
    }

    /** Copies through a sibling and a rename, so that `to` never holds a part of `from`. */
    method CopyExecutable(from: Name, to: Name, tmp: Name, fates: Fates) returns (s: Status)
      requires from != tmp && to != tmp && from != to
      modifies this`operations, this`files
      ensures Keeps(old(files), files, {to, tmp})
      ensures s == Fine ==> from in old(files) && to in files && files[to] == old(files)[from]
      ensures s != Fine ==> Keeps(old(files), files, {tmp})
      ensures operations >= old(operations)
      ensures from in old(files) ==> (s == Fine <==> AllDone(fates, old(operations), operations))
    {
      if from !in files {
        return Failed;
      }
      var read := Next(fates);
      if !read.Done? {
        return if read.Fails? then Failed else Dead;
      }
      s := StageCandidate(tmp, files[from], fates);
      if s != Fine {
        return;
      }
      s := Rename(tmp, to, fates);
      if s == Failed {
        var removed := RemoveFile(tmp, fates);
        s := if removed == Dead then Dead else Failed;
      }
    }

    /** Asks the health endpoint, attempt by attempt, and stops at the first answer that meets what is
        expected; None when no attempt does. */
    method WaitForHealth(replies: seq<Reply>, wanted: Wanted) returns (at: Option<nat>)
      ensures at.Some? <==> exists k :: 0 <= k < |replies| && IsMet(wanted, replies[k])
      ensures at.Some? ==> at.value < |replies| && IsMet(wanted, replies[at.value])
      ensures at.Some? ==> forall k :: 0 <= k < at.value ==> !IsMet(wanted, replies[k])
    {
      for attempt := 0 to |replies|
        invariant forall k :: 0 <= k < attempt ==> !IsMet(wanted, replies[k])
      {
        match replies[attempt] {
          case NoReply =>
          case Healthy(reported) =>
            match (wanted, reported) {
              case (Online, None) => return Some(attempt);
              case (Online, Some(_)) =>
              case (Version(want), Some(got)) =>
                if got == want {
                  return Some(attempt);
                }
              case (Version(_), None) =>
            }
        }
      }
      at := None;
    }

    method RestartAndVerify(wanted: Wanted, w: World) returns (verified: bool)
      modifies this`running, this`restarted
      ensures running == old(running) || (Live in files && running == files[Live])
      ensures verified ==> Meets(wanted, w.answer(running))
      ensures restarted == old(restarted) + 1
      ensures TakesOver(w.restarts(old(restarted))) && Live in files && Meets(wanted, w.answer(files[Live])) ==>
                verified
    {
      var restart := w.restarts(restarted);
      restarted := restarted + 1;
      if restart.Refused? {
        return false;
      }
      var before, after := running, if Live in files then Some(files[Live]) else None;
      var replies := Replies(w, restart.reached, (k: nat) => Serving(restart, before, after, k));
      ghost var k: nat := if TakesOver(restart) then FirstTakenOver(restart) else 0;
      var at := WaitForHealth(replies, wanted);
      running := Serving(restart, before, after, if at.Some? then at.value else |replies|);
      verified := at.Some?;
      assert TakesOver(restart) && Live in files && Meets(wanted, w.answer(files[Live])) ==> IsMet(wanted, replies[k]);
    }

    /** Recovery: `.prev` back at the live path, staged and renamed, `.prev` itself kept. */
    method RestorePrevious(wanted: string, w: World, fates: Fates) returns (r: UpdateOutcome)
      modifies this
      ensures operations >= old(operations) && Keeps(old(files), files, {Live, New, NewTmp})
      ensures Live in old(files) ==>
                Live in files && (files[Live] == old(files)[Live] || IsAt(old(files), Prev, files[Live]))
      ensures r in {UpdateFailedRecovered, RecoveryFailed, Died}
      ensures r == UpdateFailedRecovered ==>
                Live in files && IsAt(old(files), Prev, files[Live]) && w.answer(running) == Some(wanted)
      ensures Prev in old(files) && AllDone(fates, old(operations), operations) ==>
                && r != Died && Live in files && files[Live] == old(files)[Prev]
                && (TakesOver(w.restarts(old(restarted))) && w.answer(files[Live]) == Some(wanted) ==>
                      r == UpdateFailedRecovered)
    {
      var s := CopyExecutable(Prev, New, NewTmp, fates);
      if s != Fine {
        return if s == Dead then Died else RecoveryFailed;
      }
      s := Rename(New, Live, fates);
      if s != Fine {
        return if s == Dead then Died else RecoveryFailed;
      }
      var verified := RestartAndVerify(Version(wanted), w);
      r := if verified then UpdateFailedRecovered else RecoveryFailed;
    }

    /** Stages the verified bytes and makes them name the feed's version before anything else. */
    method StageVerified(feed: Feed, bytes: Binary, w: World, fates: Fates) returns (r: Option<UpdateOutcome>)
      modifies this`operations, this`files
      ensures operations >= old(operations) && Keeps(old(files), files, {New})
      ensures r == None ==> New in files && files[New] == bytes
      ensures r == None <==> AllDone(fates, old(operations), operations) && w.answer(bytes) == Some(feed.version)
      ensures r != None ==> r.value in {CandidateRefused, IoError, Died}
    {
      var s := StageCandidate(New, bytes, fates);
      if s != Fine {
        return Some(if s == Dead then Died else IoError);
      }
      if w.answer(files[New]) != Some(feed.version) {
        s := RemoveFile(New, fates);
        return Some(if s == Dead then Died else CandidateRefused);
      }
      r := None;
    }

    /** The anchor, then the swap. */
    method Swap(fates: Fates) returns (s: Status)
      requires Live in files && New in files
      modifies this`operations, this`files
      ensures operations >= old(operations) && Keeps(old(files), files, {Live, New, Prev, PrevTmp})
      ensures s == Fine <==> AllDone(fates, old(operations), operations)
      ensures Live in files
      ensures s == Fine ==> files[Live] == old(files)[New] && Prev in files && files[Prev] == old(files)[Live]
      ensures s != Fine ==> files[Live] == old(files)[Live]
      ensures Prev in old(files) ==> Prev in files
      ensures Prev in files ==> files[Prev] == old(files)[Live] || IsAt(old(files), Prev, files[Prev])
    {
      s := CopyExecutable(Live, Prev, PrevTmp, fates);
      if s != Fine {
        return;
      }
      s := Rename(New, Live, fates);
    }

    /** Everything that is decided before the disk is touched: None goes on, and only for an
        applicable update. */
    method Decide(feed: Feed, w: World) returns (r: Option<UpdateOutcome>)
      requires Live in files
      ensures r == None <==> IsApplicable(feed, w, files[Live])
      ensures r == Some(AlreadyCurrent) <==> IsServed(feed, w, files[Live], running)
      ensures r == Some(NotNewer) <==> IsOutdone(feed, w, files[Live])
      ensures r in {None, Some(AlreadyCurrent), Some(NotNewer), Some(Refusal)}
    {
      var live := files[Live];
      var have := w.answer(live);
      if w.sha256(live) == feed.sha256 {
        if have.None? {
          return Some(Refusal);
        }
        var process := running;
        var replies := Replies(w, w.reached, (k: nat) => process);
        var at := WaitForHealth(replies, Version(have.value));
        assert at.Some? <==> true in w.reached && w.answer(running) == have by {
          if true in w.reached && w.answer(running) == have {
            var k :| 0 <= k < |w.reached| && w.reached[k];
            assert IsMet(Version(have.value), replies[k]);
          }
        }
        return Some(if at.Some? then AlreadyCurrent else Refusal);
      }
      if have.None? || w.isSourceBuild(have.value) || w.calVer(have.value).None? || w.calVer(feed.version).None? {
        return Some(Refusal);
      }
      if !IsNewer(w, feed.version, have.value) {
        return Some(NotNewer);
      }
      if w.download.None? || w.sha256(w.download.value) != feed.sha256 {
        return Some(Refusal);
      }
      r := None;
    }

    /** Stages, swaps, restarts, and recovers if the new version is not served. */
    method Apply(feed: Feed, w: World, fates: Fates) returns (r: UpdateOutcome)
      requires Live in files && IsApplicable(feed, w, files[Live])
      modifies this
      ensures operations >= old(operations) && Keeps(old(files), files, {Live, New, Prev, NewTmp, PrevTmp})
      ensures Live in files && EndsWhole(feed, w, old(files), files)
      ensures r in {Updated, CandidateRefused, IoError, UpdateFailedRecovered, RecoveryFailed, Died}
      ensures r == Updated ==> WasUpdated(feed, w, old(files), files, running)
      ensures r == UpdateFailedRecovered ==>
                files[Live] == old(files)[Live] && w.answer(running) == w.answer(files[Live])
      ensures r in {CandidateRefused, IoError} ==>
                running == old(running) && Keeps(old(files), files, {New, Prev, NewTmp, PrevTmp})
      ensures Succeeds(feed, w, fates, old(operations), operations) ==>
                && r in {Updated, UpdateFailedRecovered, RecoveryFailed}
                && (TakesOver(w.restarts(old(restarted))) ==> r == Updated)
                && (TakesOver(w.restarts(old(restarted) + 1)) ==> r != RecoveryFailed)
    {
      var live := files[Live];
      var refused := StageVerified(feed, w.download.value, w, fates);
      if refused.Some? {
        return refused.value;
      }
      var s := Swap(fates);
      if s != Fine {
        return if s == Dead then Died else IoError;
      }
      var verified := RestartAndVerify(Version(feed.version), w);
      if verified {
        return Updated;
      }
      r := RestorePrevious(w.answer(live).value, w, fates);
    }

    /** The update. Wherever it ends, dead or alive, the live path holds a whole executable: the one
        it held, or the verified candidate, which is newer and whose displaced predecessor is then
        in `.prev`. When nothing fails and the service is replaced, an applicable update is made. An
        update never lowers the year of the live version, nor the month in a year, and raises the patch
        in a month; a feed that would raise one of them is never answered with "not newer". */
    method RunUpdate(feed: Feed, w: World, fates: Fates) returns (r: UpdateOutcome)
      modifies this
      ensures operations >= old(operations) && Keeps(old(files), files, {Live, New, Prev, NewTmp, PrevTmp})
      ensures Live !in old(files) ==> r == IoError && files == old(files)
      ensures Live in old(files) ==> Live in files && EndsWhole(feed, w, old(files), files)
      ensures Live in old(files) ==>
                && (r == AlreadyCurrent <==> IsServed(feed, w, old(files)[Live], old(running)))
                && (r == NotNewer <==> IsOutdone(feed, w, old(files)[Live]))
                && (r !in {AlreadyCurrent, NotNewer, Refusal} <==> IsApplicable(feed, w, old(files)[Live]))
      ensures r in {AlreadyCurrent, NotNewer, Refusal} ==> files == old(files) && running == old(running)
      ensures r == AlreadyCurrent ==>
                && w.sha256(files[Live]) == feed.sha256
                && w.answer(running).Some? && w.answer(running) == w.answer(files[Live])
                && exists k :: 0 <= k < |w.reached| && w.reached[k]
      ensures r == NotNewer ==>
                && w.sha256(files[Live]) != feed.sha256
                && HaveVersions(feed, w, files[Live])
                && var f, h := FeedVersion(feed, w), LiveVersion(w, files[Live]);
                && f.year <= h.year
                && (f.year == h.year ==> f.month <= h.month && (f.month == h.month ==> f.patch <= h.patch))
      ensures r !in {AlreadyCurrent, NotNewer, Refusal} && Live in old(files) ==>
                && HaveVersions(feed, w, old(files)[Live]) && !w.isSourceBuild(w.answer(old(files)[Live]).value)
                && var f, h := FeedVersion(feed, w), LiveVersion(w, old(files)[Live]);
                && f.year >= h.year
                && (f.year == h.year ==> f.month >= h.month && (f.month == h.month ==> f.patch > h.patch))
      ensures Live in old(files) && files[Live] != old(files)[Live] ==>
                && w.sha256(files[Live]) == feed.sha256 && w.answer(files[Live]) == Some(feed.version)
                && HaveVersions(feed, w, old(files)[Live])
      ensures r in {CandidateRefused, IoError} ==>
                running == old(running) && Keeps(old(files), files, {New, Prev, NewTmp, PrevTmp})
      ensures r == Updated ==> Live in old(files) && WasUpdated(feed, w, old(files), files, running)
      ensures r == UpdateFailedRecovered ==>
                && Live in old(files) && Live in files && files[Live] == old(files)[Live]
                && w.answer(running) == w.answer(files[Live])
      ensures Live in old(files) && IsApplicable(feed, w, old(files)[Live])
              && Succeeds(feed, w, fates, old(operations), operations) ==>
                && r in {Updated, UpdateFailedRecovered, RecoveryFailed}
                && (TakesOver(w.restarts(old(restarted))) ==> r == Updated)
                && (TakesOver(w.restarts(old(restarted) + 1)) ==> r != RecoveryFailed)
    {
      if Live !in files {
        return IoError;
      }
      var decided := Decide(feed, w);
      if decided.Some? {
        return decided.value;
      }
      r := Apply(feed, w, fates);
    }

    /** The second half of a rollback: the live binary set aside, `.new` swapped in, and what was
        set aside made the new `.prev`. */
    method Exchange(fates: Fates) returns (r: RollbackOutcome)
      requires Live in files && New in files && Displaced !in files
      modifies this`operations, this`files
      ensures Keeps(old(files), files, {Live, New, Prev, Displaced, DisplacedTmp})
      ensures operations >= old(operations) && r in {RolledBack, HalfDone, RollbackIoError, RollbackDied}
      ensures r == RolledBack <==> AllDone(fates, old(operations), operations)
      ensures r == RolledBack ==>
                && IsAt(files, Live, old(files)[New]) && IsAt(files, Prev, old(files)[Live]) && Displaced !in files
      ensures r == HalfDone ==> IsAt(files, Live, old(files)[New]) && IsAt(files, Displaced, old(files)[Live])
      ensures r == RollbackIoError ==> IsAt(files, Live, old(files)[Live])
      ensures Live in files && NothingIsLost(old(files)[Live], old(files)[New], old(files), files)
      ensures OnlyMoved(old(files), files)
    {
      var s := CopyExecutable(Live, Displaced, DisplacedTmp, fates);
      if s != Fine {
        return if s == Dead then RollbackDied else RollbackIoError;
      }
      s := Rename(New, Live, fates);
      if s != Fine {
        return if s == Dead then RollbackDied else RollbackIoError;
      }
      s := Rename(Displaced, Prev, fates);
      if s != Fine {
        return if s == Dead then RollbackDied else HalfDone;
      }
      r := RolledBack;
    }

    /** The rollback. Wherever it ends, the live path holds one of the two binaries whole, and
        neither binary is lost; when it succeeds they have changed places, and it succeeds when no
        operation fails and the service is replaced. */
    method RunRollback(w: World, fates: Fates) returns (r: RollbackOutcome)
      modifies this
      ensures Keeps(old(files), files, {Live, New, Prev, Displaced, NewTmp, DisplacedTmp})
      ensures Prev !in old(files) <==> r == NoPrevious
      ensures r == NoPrevious ==> files == old(files) && running == old(running)
      ensures Live in old(files) && Prev in old(files) ==>
                && Live in files && files[Live] in {old(files)[Live], old(files)[Prev]}
                && IsKept(old(files)[Live], files) && IsKept(old(files)[Prev], files)
      ensures Displaced in old(files) && Prev in old(files) ==>
                r in {HalfDone, RollbackIoError, RollbackDied}
                && Keeps(old(files), files, {New, NewTmp}) && running == old(running)
      ensures r in {RolledBack, RollbackUnhealthy} ==>
                && Live in old(files) && Prev in old(files) && Displaced !in files
                && IsAt(files, Live, old(files)[Prev]) && IsAt(files, Prev, old(files)[Live])
      ensures OnlyMoved(old(files), files)
      ensures r == RolledBack ==> w.answer(running) == w.answer(files[Live])
      ensures operations >= old(operations)
      ensures Live in old(files) && Prev in old(files) && Displaced !in old(files)
              && AllDone(fates, old(operations), operations) ==>
                && r in {RolledBack, RollbackUnhealthy}
                && (TakesOver(w.restarts(old(restarted))) ==> r == RolledBack)
    {
      if Prev !in files {
        return NoPrevious;
      }
      var s := CopyExecutable(Prev, New, NewTmp, fates);
      if s != Fine {
        return if s == Dead then RollbackDied else RollbackIoError;
      }
      var restored := w.answer(files[New]);
      if Displaced in files {
        s := RemoveFile(New, fates);
        return if s == Dead then RollbackDied else HalfDone;
      }
      if Live !in files {
        return RollbackIoError;
      }
      r := Exchange(fates);
      if r != RolledBack {
        return;
      }
      var verified := RestartAndVerify(if restored.Some? then Version(restored.value) else Online, w);
      if !verified {
        r := RollbackUnhealthy;
      }
    }
  }

  ghost predicate IsAt(files: Files, name: Name, bytes: Binary) {
    name in files && files[name] == bytes
  }

  /** The binary is at the live path, in `.prev`, or in the file that a half-done rollback names. */
  ghost predicate IsKept(bytes: Binary, files: Files) {
    IsAt(files, Live, bytes) || IsAt(files, Prev, bytes) || IsAt(files, Displaced, bytes)
  }

  /** `.prev` and the displaced file hold what they held, or the former live binary. */
  ghost predicate OnlyMoved(before: Files, after: Files) {
    && (Prev in after ==> IsAt(before, Prev, after[Prev]) || IsAt(before, Live, after[Prev]))
    && (Displaced in after ==> IsAt(before, Displaced, after[Displaced]) || IsAt(before, Live, after[Displaced]))
  }

  ghost predicate NothingIsLost(live: Binary, new_: Binary, before: Files, after: Files) {
    && (IsAt(after, Live, live) || IsAt(after, Live, new_))
    && IsKept(live, after)
    && (IsAt(before, Prev, new_) ==> IsKept(new_, after))
  }

  /** The live path is what it was, or an upgrade of it whose predecessor is in `.prev`; and
      `.prev` is what it was, or the predecessor. */
  ghost predicate EndsWhole(feed: Feed, w: World, before: Files, after: Files)
    requires Live in before && Live in after
  {
    && (after[Live] == before[Live]
        || (IsUpgrade(feed, w, before[Live], after[Live]) && IsAt(after, Prev, before[Live])))
    && (Prev in after ==> after[Prev] == before[Live] || IsAt(before, Prev, after[Prev]))
    && (Prev in before ==> Prev in after)
  }

  ghost predicate HaveVersions(feed: Feed, w: World, live: Binary) {
    w.calVer(feed.version).Some? && w.answer(live).Some? && w.calVer(w.answer(live).value).Some?
  }

  ghost function FeedVersion(feed: Feed, w: World): CalVer
    requires w.calVer(feed.version).Some?
  {
    w.calVer(feed.version).value
  }

  /** The version that a binary names. */
  ghost function LiveVersion(w: World, live: Binary): CalVer
    requires w.answer(live).Some? && w.calVer(w.answer(live).value).Some?
  {
    w.calVer(w.answer(live).value).value
  }

  /** The feed's own binary, whose version the running service reports. */
  ghost predicate IsServed(feed: Feed, w: World, live: Binary, running: Binary) {
    w.sha256(live) == feed.sha256 && w.answer(live).Some? && true in w.reached && w.answer(running) == w.answer(live)
  }

  /** A release that the feed does not improve on. */
  ghost predicate IsOutdone(feed: Feed, w: World, live: Binary) {
    && w.sha256(live) != feed.sha256 && IsRelease(w, live) && w.calVer(feed.version).Some?
    && !IsNewer(w, feed.version, w.answer(live).value)
  }

  /** A release that the feed improves on, with the vouched-for bytes at hand. */
  ghost predicate IsApplicable(feed: Feed, w: World, live: Binary) {
    && w.sha256(live) != feed.sha256 && IsRelease(w, live) && IsNewer(w, feed.version, w.answer(live).value)
    && w.download.Some? && w.sha256(w.download.value) == feed.sha256
  }

  ghost predicate IsRelease(w: World, live: Binary) {
    w.answer(live).Some? && !w.isSourceBuild(w.answer(live).value) && w.calVer(w.answer(live).value).Some?
  }

  /** No file operation stops the update, and the candidate names the feed's version. */
  ghost predicate Succeeds(feed: Feed, w: World, fates: Fates, first: nat, last: nat) {
    AllDone(fates, first, last) && w.download.Some? && w.answer(w.download.value) == Some(feed.version)
  }

  ghost predicate WasUpdated(feed: Feed, w: World, before: Files, after: Files, running: Binary)
    requires Live in before
  {
    && Live in after && IsUpgrade(feed, w, before[Live], after[Live]) && IsAt(after, Prev, before[Live])
    && w.answer(running) == Some(feed.version)
  }

  /** `to` is the binary the feed vouches for, names the feed's version, and is newer than `from`. */
  ghost predicate IsUpgrade(feed: Feed, w: World, from: Binary, to: Binary) {
    && w.sha256(to) == feed.sha256 && w.answer(to) == Some(feed.version)
    && w.answer(from).Some? && !w.isSourceBuild(w.answer(from).value) && IsNewer(w, feed.version, w.answer(from).value)
  }

  // ------------------------------------------------------------------ any number of runs

  datatype Order = DoUpdate(feed: Feed) | DoRollback

  /** Every executable that matters is one of the whole ones. */
  ghost predicate AllWhole(files: Files, whole: iset<Binary>) {
    && IsIn(files, Live, whole)
    && (Prev in files ==> files[Prev] in whole)
    && (Displaced in files ==> files[Displaced] in whole)
  }

  ghost predicate IsIn(files: Files, name: Name, whole: iset<Binary>) {
    name in files && files[name] in whole
  }

  /** What a feed vouches for. */
  ghost function Vouched(orders: seq<Order>, w: World): iset<Binary> {
    iset b | exists k :: 0 <= k < |orders| && orders[k].DoUpdate? && w.sha256(b) == orders[k].feed.sha256
  }

  /** Over any sequence of updates and rollbacks, each failing or dying anywhere, the service's
      executable is always there and whole: one that was installed at the start, or one that a
      feed's signatures vouch for. */
  method Life(install: Install, orders: seq<Order>, worlds: seq<World>, fates: seq<Fates>, ghost w: World,
              ghost whole: iset<Binary>)
    requires |worlds| == |orders| == |fates|
    requires forall k :: 0 <= k < |worlds| ==> worlds[k].sha256 == w.sha256
    requires AllWhole(install.files, whole)
    modifies install
    ensures AllWhole(install.files, whole + Vouched(orders, w))
  {
    ghost var all := whole + Vouched(orders, w);
    for k := 0 to |orders|
      invariant AllWhole(install.files, all)
    {
      ghost var before := install.files;
      match orders[k] {
        case DoUpdate(feed) =>
          var r := install.RunUpdate(feed, worlds[k], fates[k]);
          assert IsUpgrade(feed, worlds[k], before[Live], install.files[Live]) ==>
              w.sha256(install.files[Live]) == orders[k].feed.sha256;
        case DoRollback =>
          var r := install.RunRollback(worlds[k], fates[k]);
      }
    }
  }

  /** A rollback undoes a rollback. */
  method RollbackTwice(install: Install, w: World, fates: Fates, w': World, fates': Fates)
      returns (r: RollbackOutcome, r': RollbackOutcome)
    modifies install
    ensures r == r' == RolledBack ==>
              && Live in old(install.files) && Prev in old(install.files)
              && IsAt(install.files, Live, old(install.files)[Live])
              && IsAt(install.files, Prev, old(install.files)[Prev])
  {
    r := install.RunRollback(w, fates);
    r' := install.RunRollback(w', fates');
  }

  /** Of two versions exactly one is newer, or they are equal. */
  lemma NewerIsTotal(a: CalVer, b: CalVer)
    ensures Newer(a, b) || Newer(b, a) || a == b
    ensures !(Newer(a, b) && Newer(b, a)) && !Newer(a, a)
  {}

  lemma NewerIsTransitive(a: CalVer, b: CalVer, c: CalVer)
    requires Newer(a, b) && Newer(b, c)
    ensures Newer(a, c)
  {}

  /** Each part goes up, and a later part never outweighs an earlier one. */
  lemma NewerGoesUp(y: nat, m: nat, n: nat, p: nat, q: nat)
    ensures Newer(CalVer(y, m, p + 1), CalVer(y, m, p))
    ensures Newer(CalVer(y, m + 1, p), CalVer(y, m, q))
    ensures Newer(CalVer(y + 1, m, p), CalVer(y, n, q))
  {}

  /** Replayed feeds cannot downgrade: over any sequence of updates the live binary is the first
      one or one with a later version; its year never falls, nor the month in the same year, nor the
      patch in the same month. */
  method Updates(install: Install, feeds: seq<Feed>, worlds: seq<World>, fates: seq<Fates>, ghost w: World)
    requires |feeds| == |worlds| == |fates| && Live in install.files
    requires forall k :: 0 <= k < |worlds| ==> worlds[k].answer == w.answer && worlds[k].calVer == w.calVer
    modifies install
    ensures Live in install.files
    ensures install.files[Live] == old(install.files)[Live]
         || HasLaterVersion(w, install.files[Live], old(install.files)[Live])
    ensures install.files[Live] != old(install.files)[Live] ==>
              && HasVersion(w, install.files[Live]) && HasVersion(w, old(install.files)[Live])
              && var now, before := LiveVersion(w, install.files[Live]), LiveVersion(w, old(install.files)[Live]);
              && now.year >= before.year
              && (now.year == before.year ==> now.month >= before.month)
              && (now.year == before.year && now.month == before.month ==> now.patch > before.patch)
  {
    for k := 0 to |feeds|
      invariant Live in install.files
      invariant install.files[Live] == old(install.files)[Live]
             || HasLaterVersion(w, install.files[Live], old(install.files)[Live])
    {
      ghost var before := install.files[Live];
      var r := install.RunUpdate(feeds[k], worlds[k], fates[k]);
      if install.files[Live] != before {
        assert HasLaterVersion(w, install.files[Live], before);
        if before != old(install.files)[Live] {
          LaterIsTransitive(w, install.files[Live], before, old(install.files)[Live]);
        }
      }
    }
  }

  ghost predicate HasVersion(w: World, b: Binary) {
    w.answer(b).Some? && w.calVer(w.answer(b).value).Some?
  }

  ghost predicate HasLaterVersion(w: World, a: Binary, b: Binary) {
    w.answer(a).Some? && w.answer(b).Some? && IsNewer(w, w.answer(a).value, w.answer(b).value)
  }

  lemma LaterIsTransitive(w: World, a: Binary, b: Binary, c: Binary)
    requires HasLaterVersion(w, a, b) && HasLaterVersion(w, b, c)
    ensures HasLaterVersion(w, a, c)
  {
    NewerIsTransitive(w.calVer(w.answer(a).value).value, w.calVer(w.answer(b).value).value,
                      w.calVer(w.answer(c).value).value);
  }
}
