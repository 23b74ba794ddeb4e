/** `build_volumes` of `agent/src/metrics.rs`: the mount table reduced to one volume a filesystem. */
module Volumes {
  import opened Sorting
  import Utf8

  const BYTES_PER_GIB: real := 1024.0 * 1024.0 * 1024.0

  datatype DiskEntry = DiskEntry(mount: string, device: string, total: nat, available: nat, fstype: string)

  datatype Volume = Volume(mount: string, usedGb: real, totalGb: real, fstype: string)

  /** What tells filesystems apart: the device, or the two sizes where the device is unknown. */
  datatype Key = Device(name: string) | Size(total: nat, available: nat)

  function KeyOf(e: DiskEntry): Key {
    if e.device == "" then Size(e.total, e.available) else Device(e.device)
  }

  predicate ShouldSkip(fstype: string, skip: set<string>) {
    fstype in skip || (skip != {} && "fuse." <= fstype)
  }

  predicate Kept(e: DiskEntry, skip: set<string>) {
    e.total != 0 && !ShouldSkip(e.fstype, skip)
  }

  function ToVolume(e: DiskEntry): (v: Volume)
    ensures v.mount == e.mount
  {
    var used := if e.total >= e.available then e.total - e.available else 0;
    Volume(e.mount, used as real / BYTES_PER_GIB, e.total as real / BYTES_PER_GIB, e.fstype)
  }

  predicate MountBefore(a: Volume, b: Volume) {
    TextBefore(a.mount, b.mount)
  }

  // ------------------------------------------------------------------ the specification

  /** Entry i speaks for its filesystem: no kept entry of the same key has a shorter mount, and
      none before it one as short. */
  ghost predicate Represents(entries: seq<DiskEntry>, skip: set<string>, i: nat) {
    && i < |entries| && Kept(entries[i], skip)
    && forall j :: 0 <= j < |entries| && Kept(entries[j], skip) && KeyOf(entries[j]) == KeyOf(entries[i]) ==>
         && Utf8.Len(entries[i].mount) <= Utf8.Len(entries[j].mount)
         && (j < i ==> Utf8.Len(entries[i].mount) < Utf8.Len(entries[j].mount))
  }

  /** `picks` lists the representatives, each once. */
  ghost predicate PicksAll(entries: seq<DiskEntry>, skip: set<string>, picks: seq<nat>) {
    && (forall i: nat :: i in picks <==> Represents(entries, skip, i))
    && (forall a, b :: 0 <= a < b < |picks| ==> picks[a] != picks[b])
  }

  function VolumeAt(entries: seq<DiskEntry>): nat -> Volume {
    (i: nat) => ToVolume(if i < |entries| then entries[i] else DiskEntry("", "", 0, 0, ""))
  }

  /** The volume list: the representatives' volumes, by mount. The table's iteration order may
      decide between different filesystems on one mount and nothing else. */
  ghost predicate IsVolumeList(entries: seq<DiskEntry>, skip: set<string>, vs: seq<Volume>) {
    exists picks :: PicksAll(entries, skip, picks) && vs == Map(VolumeAt(entries), picks) && IsSorted(vs, MountBefore)
  }

  // ------------------------------------------------------------------ the code

  /** `table[k]` is the entry that `by_fs` currently holds for key k, by its index. */
  ghost predicate Tabulates(entries: seq<DiskEntry>, skip: set<string>, n: nat, table: map<Key, nat>)
    requires n <= |entries|
  {
    && (forall i :: 0 <= i < n && Kept(entries[i], skip) ==> KeyOf(entries[i]) in table)
    && (forall k :: k in table ==>
          table[k] < n && KeyOf(entries[table[k]]) == k && Represents(entries[..n], skip, table[k]))
  }

  /** The first loop: one entry of the table a filesystem. */
  method Tabulate(entries: seq<DiskEntry>, skip: set<string>)
      returns (byFs: map<Key, Volume>, ghost table: map<Key, nat>)
    ensures Tabulates(entries, skip, |entries|, table) && IsTable(entries, table, byFs)
  {
    byFs, table := map[], map[];
    for n := 0 to |entries|
      invariant Tabulates(entries, skip, n, table) && IsTable(entries, table, byFs)
    {
      var e := entries[n];
      if e.total == 0 || ShouldSkip(e.fstype, skip) {
        SkipKeeps(entries, skip, n, table);
        continue;
      }
      TakeKeeps(entries, skip, n, table);
      byFs, table := Take(entries, n, byFs, table);
    }
  }

  /** Entry n fills its filesystem's place in the table, or replaces a longer mount there. */
  method Take(entries: seq<DiskEntry>, n: nat, byFs: map<Key, Volume>, ghost table: map<Key, nat>)
      returns (byFs': map<Key, Volume>, ghost table': map<Key, nat>)
    requires n < |entries| && IsTable(entries, table, byFs)
    ensures table' == if IsBetter(entries, n, table) then table[KeyOf(entries[n]) := n] else table
    ensures IsTable(entries, table', byFs')
  {
    byFs', table' := byFs, table;
    var e := entries[n];
    var key, vol := KeyOf(e), ToVolume(e);
    if key in byFs {
      if Utf8.Len(e.mount) < Utf8.Len(byFs[key].mount) {
        byFs', table' := byFs[key := vol], table[key := n];
      }
    } else {
      byFs', table' := byFs[key := vol], table[key := n];
    }
  }

  ghost predicate IsBetter(entries: seq<DiskEntry>, n: nat, table: map<Key, nat>)
    requires n < |entries| && forall k :: k in table ==> table[k] < |entries|
  {
    var key := KeyOf(entries[n]);
    key !in table || Utf8.Len(entries[n].mount) < Utf8.Len(entries[table[key]].mount)
  }

  ghost predicate IsTable(entries: seq<DiskEntry>, table: map<Key, nat>, byFs: map<Key, Volume>) {
    && byFs.Keys == table.Keys
    && forall k :: k in table ==> table[k] < |entries| && byFs[k] == ToVolume(entries[table[k]])
  }

  /** The table's values, in whatever order it yields them. */
  method Values(entries: seq<DiskEntry>, byFs: map<Key, Volume>, ghost table: map<Key, nat>)
      returns (values: seq<Volume>, ghost picks: seq<nat>)
    requires IsTable(entries, table, byFs)
    requires IsInjective(table)
    ensures values == Map(VolumeAt(entries), picks)
    ensures forall i :: i in picks <==> exists k :: k in table && table[k] == i
    ensures forall a, b :: 0 <= a < b < |picks| ==> picks[a] != picks[b]
  {
    var keys := byFs.Keys;
    values, picks := [], [];
    ghost var taken: seq<Key> := [];
    while keys != {}
      invariant keys <= table.Keys && values == Map(VolumeAt(entries), picks)
      invariant AreTaken(table, keys, taken, picks)
      decreases keys
    {
      var k :| k in keys;
      MapOfSnoc(VolumeAt(entries), picks, table[k]);
      TakesOneMore(table, keys, taken, picks, k);
      values := values + [byFs[k]];
      picks, taken := picks + [table[k]], taken + [k];
      keys := keys - {k};
    }
    AllAreTaken(table, taken, picks);
  }

  ghost predicate IsInjective(table: map<Key, nat>) {
    forall j, k :: j in table && k in table && j != k ==> table[j] != table[k]
  }

  /** The keys that have been taken, each once, with the entries that the table holds for them. */
  ghost predicate AreTaken(table: map<Key, nat>, keys: set<Key>, taken: seq<Key>, picks: seq<nat>) {
    && |taken| == |picks|
    && (forall n :: 0 <= n < |taken| ==> taken[n] in table && taken[n] !in keys && picks[n] == table[taken[n]])
    && (forall m, n :: 0 <= m < n < |taken| ==> taken[m] != taken[n])
    && (forall k :: k in table && k !in keys ==> k in taken)
  }

  lemma TakesOneMore(table: map<Key, nat>, keys: set<Key>, taken: seq<Key>, picks: seq<nat>, k: Key)
    requires keys <= table.Keys && k in keys && AreTaken(table, keys, taken, picks)
    ensures AreTaken(table, keys - {k}, taken + [k], picks + [table[k]])
  {
    var taken' := taken + [k];
    forall j | j in table && j !in keys - {k} ensures j in taken' {
      if j != k {
        assert j in taken;
      } else {
        assert taken'[|taken|] == k;
      }
    }
  }

  lemma AllAreTaken(table: map<Key, nat>, taken: seq<Key>, picks: seq<nat>)
    requires AreTaken(table, {}, taken, picks) && IsInjective(table)
    ensures forall i :: i in picks <==> exists k :: k in table && table[k] == i
    ensures forall a, b :: 0 <= a < b < |picks| ==> picks[a] != picks[b]
  {
    forall i | i in picks ensures exists k :: k in table && table[k] == i {
      var n :| 0 <= n < |picks| && picks[n] == i;
      assert taken[n] in table && table[taken[n]] == i;
    }
    forall k | k in table ensures table[k] in picks {
      var n :| 0 <= n < |taken| && taken[n] == k;
      assert picks[n] == table[k];
    }
    forall a, b | 0 <= a < b < |picks| ensures picks[a] != picks[b] {
      assert taken[a] != taken[b];
    }
  }

  /** An entry's volume: its mount and type, its capacity and what is used of it, in units of 2^30 bytes.
      Where no more is free than there is, the used and the free make up the whole. */
  ghost predicate IsVolumeOf(v: Volume, e: DiskEntry) {
    && v.mount == e.mount && v.fstype == e.fstype && v.totalGb * 1073741824.0 == e.total as real
    && (e.available <= e.total ==> v.usedGb * 1073741824.0 + e.available as real == e.total as real)
    && (e.available > e.total ==> v.usedGb == 0.0)
  }

  lemma VolumeIsOfEntry(e: DiskEntry)
    ensures IsVolumeOf(ToVolume(e), e)
  {}

  /** What is left out: no capacity, a type that is listed, or, unless nothing is, one that begins with
      "fuse.". */
  predicate IsLeftOut(e: DiskEntry, skip: set<string>) {
    || e.total == 0
    || e.fstype in skip
    || (skip != {} && |e.fstype| >= 5 && e.fstype[0] == 'f' && e.fstype[1] == 'u' && e.fstype[2] == 's'
        && e.fstype[3] == 'e' && e.fstype[4] == '.')
  }

  lemma KeptIsNotLeftOut(e: DiskEntry, skip: set<string>)
    ensures Kept(e, skip) <==> !IsLeftOut(e, skip)
  {}

  /** Two entries of one filesystem: on the same named device, or with no device and the same sizes. */
  predicate AreOneFilesystem(a: DiskEntry, b: DiskEntry) {
    a.device == b.device && (a.device == "" ==> a.total == b.total && a.available == b.available)
  }

  lemma ListIsOfKeptEntries(entries: seq<DiskEntry>, skip: set<string>, vs: seq<Volume>, n: nat) returns (i: nat)
    requires IsVolumeList(entries, skip, vs) && n < |vs|
    ensures i < |entries| && IsVolumeOf(vs[n], entries[i]) && !IsLeftOut(entries[i], skip)
    ensures forall j ::
              0 <= j < |entries| && !IsLeftOut(entries[j], skip) && AreOneFilesystem(entries[j], entries[i]) ==>
              Utf8.Len(entries[i].mount) <= Utf8.Len(entries[j].mount)
  {
    var picks: seq<nat> :|
      PicksAll(entries, skip, picks) && vs == Map(VolumeAt(entries), picks) && IsSorted(vs, MountBefore);
    i := picks[n];
    assert i in picks;
    MapAt(VolumeAt(entries), picks, n);
    VolumeIsOfEntry(entries[i]);
    KeptIsNotLeftOut(entries[i], skip);
    forall j | 0 <= j < |entries| && !IsLeftOut(entries[j], skip) && AreOneFilesystem(entries[j], entries[i])
      ensures Utf8.Len(entries[i].mount) <= Utf8.Len(entries[j].mount)
    {
      KeptIsNotLeftOut(entries[j], skip);
      assert KeyOf(entries[j]) == KeyOf(entries[i]);
    }
  }

  /** The volumes: of the entries that are not left out, one a filesystem, the shortest mount of each, by
      mount in the order of their characters. */
  method BuildVolumes(entries: seq<DiskEntry>, skip: set<string>) returns (volumes: seq<Volume>)
    ensures IsVolumeList(entries, skip, volumes)
    ensures ReportsFilesystems(entries, skip, volumes)
  {
    assert entries[..|entries|] == entries;
    ghost var table: map<Key, nat>;
    ghost var picks: seq<nat>;
    var byFs, values;
    byFs, table := Tabulate(entries, skip);
    assert IsInjective(table);
    values, picks := Values(entries, byFs, table);
    TableIsComplete(entries, skip, table, picks);
    volumes := StableSort(values, MountBefore);
    SortOfPicks(entries, skip, picks, volumes);
    ListReportsFilesystems(entries, skip, volumes);
  }

  /** The list spelled out: every volume is that of an entry that is not left out, in the order of their
      mounts' characters, and every such entry's filesystem is listed. */
  ghost predicate ReportsFilesystems(entries: seq<DiskEntry>, skip: set<string>, vs: seq<Volume>) {
    && (forall n :: 0 <= n < |vs| ==> exists i :: 0 <= i < |entries| && IsKeptVolume(vs[n], entries[i], skip))
    && (forall m, n :: 0 <= m < n < |vs| ==> !TextBefore(vs[n].mount, vs[m].mount))
    && (forall i :: 0 <= i < |entries| && !IsLeftOut(entries[i], skip) ==>
          exists n :: 0 <= n < |vs| && ListsFilesystemOf(entries, skip, vs[n], entries[i]))
  }

  ghost predicate IsKeptVolume(v: Volume, e: DiskEntry, skip: set<string>) {
    IsVolumeOf(v, e) && !IsLeftOut(e, skip)
  }

  lemma ListReportsFilesystems(entries: seq<DiskEntry>, skip: set<string>, vs: seq<Volume>)
    requires IsVolumeList(entries, skip, vs)
    ensures ReportsFilesystems(entries, skip, vs)
  {
    forall n | 0 <= n < |vs| ensures exists i :: 0 <= i < |entries| && IsKeptVolume(vs[n], entries[i], skip) {
      var i := ListIsOfKeptEntries(entries, skip, vs, n);
      assert IsKeptVolume(vs[n], entries[i], skip);
    }
    forall i | 0 <= i < |entries| && !IsLeftOut(entries[i], skip)
      ensures exists n :: 0 <= n < |vs| && ListsFilesystemOf(entries, skip, vs[n], entries[i])
    {
      var n := FilesystemIsListed(entries, skip, vs, i);
    }
    OrderOfMounts(entries, skip, vs);
  }

  lemma OrderOfMounts(entries: seq<DiskEntry>, skip: set<string>, vs: seq<Volume>)
    requires IsVolumeList(entries, skip, vs)
    ensures forall m, n :: 0 <= m < n < |vs| ==> !TextBefore(vs[n].mount, vs[m].mount)
  {
    assert IsSorted(vs, MountBefore);
    forall m, n | 0 <= m < n < |vs| ensures !TextBefore(vs[n].mount, vs[m].mount) {
      assert !MountBefore(vs[n], vs[m]);
    }
  }

  /** The volume is that of an entry of e's filesystem, no longer in its mount than any of them, and
      listed before those as short. */
  ghost predicate ListsFilesystemOf(entries: seq<DiskEntry>, skip: set<string>, v: Volume, e: DiskEntry) {
    exists r :: 0 <= r < |entries| && IsVolumeOf(v, entries[r]) && IsFirstShortest(entries, skip, r)
                && AreOneFilesystem(entries[r], e)
  }

  ghost predicate IsFirstShortest(entries: seq<DiskEntry>, skip: set<string>, r: nat)
    requires r < |entries|
  {
    && !IsLeftOut(entries[r], skip)
    && forall j :: 0 <= j < |entries| && !IsLeftOut(entries[j], skip) && AreOneFilesystem(entries[j], entries[r]) ==>
         && Utf8.Len(entries[r].mount) <= Utf8.Len(entries[j].mount)
         && (j < r ==> Utf8.Len(entries[r].mount) < Utf8.Len(entries[j].mount))
  }

  lemma RepresentsIsFirstShortest(entries: seq<DiskEntry>, skip: set<string>, r: nat)
    requires r < |entries|
    ensures Represents(entries, skip, r) <==> IsFirstShortest(entries, skip, r)
  {
    forall e ensures Kept(e, skip) <==> !IsLeftOut(e, skip) {
      KeptIsNotLeftOut(e, skip);
    }
    assert forall a, b :: AreOneFilesystem(a, b) <==> KeyOf(a) == KeyOf(b);
  }

  lemma FilesystemIsListed(entries: seq<DiskEntry>, skip: set<string>, vs: seq<Volume>, i: nat) returns (n: nat)
    requires IsVolumeList(entries, skip, vs) && i < |entries| && !IsLeftOut(entries[i], skip)
    ensures n < |vs| && ListsFilesystemOf(entries, skip, vs[n], entries[i])
  {
    var picks: seq<nat> :|
      PicksAll(entries, skip, picks) && vs == Map(VolumeAt(entries), picks) && IsSorted(vs, MountBefore);
    KeptIsNotLeftOut(entries[i], skip);
    var r := KeyHasARepresentative(entries, skip, i);
    n :| 0 <= n < |picks| && picks[n] == r;
    MapAt(VolumeAt(entries), picks, n);
    VolumeIsOfEntry(entries[r]);
    RepresentsIsFirstShortest(entries, skip, r);
  }

  lemma SkipKeeps(entries: seq<DiskEntry>, skip: set<string>, n: nat, table: map<Key, nat>)
    requires n < |entries| && Tabulates(entries, skip, n, table) && !Kept(entries[n], skip)
    ensures Tabulates(entries, skip, n + 1, table)
  {
    forall k | k in table ensures Represents(entries[..n + 1], skip, table[k]) {
      OthersStay(entries, skip, n, table[k]);
    }
  }

  lemma TakeKeeps(entries: seq<DiskEntry>, skip: set<string>, n: nat, table: map<Key, nat>)
    requires n < |entries| && Tabulates(entries, skip, n, table) && Kept(entries[n], skip)
    ensures Tabulates(entries, skip, n + 1,
                      if IsBetter(entries, n, table) then table[KeyOf(entries[n]) := n] else table)
  {
    var key := KeyOf(entries[n]);
    var table' := if IsBetter(entries, n, table) then table[key := n] else table;
    forall k | k in table' ensures Represents(entries[..n + 1], skip, table'[k]) {
      if k != key {
        OthersStay(entries, skip, n, table[k]);
      } else if IsBetter(entries, n, table) {
        BetterRepresents(entries, skip, n, table);
      } else {
        HolderStays(entries, skip, n, table[k]);
      }
    }
  }

  lemma OthersStay(entries: seq<DiskEntry>, skip: set<string>, n: nat, i: nat)
    requires n < |entries| && Represents(entries[..n], skip, i)
    requires !Kept(entries[n], skip) || KeyOf(entries[n]) != KeyOf(entries[i])
    ensures Represents(entries[..n + 1], skip, i)
  {
    assert entries[..n + 1] == entries[..n] + [entries[n]];
  }

  lemma HolderStays(entries: seq<DiskEntry>, skip: set<string>, n: nat, i: nat)
    requires n < |entries| && Represents(entries[..n], skip, i)
    requires Utf8.Len(entries[i].mount) <= Utf8.Len(entries[n].mount)
    ensures Represents(entries[..n + 1], skip, i)
  {
    assert entries[..n + 1] == entries[..n] + [entries[n]];
  }

  lemma BetterRepresents(entries: seq<DiskEntry>, skip: set<string>, n: nat, table: map<Key, nat>)
    requires n < |entries| && Tabulates(entries, skip, n, table) && Kept(entries[n], skip)
    requires IsBetter(entries, n, table)
    ensures Represents(entries[..n + 1], skip, n)
  {
    var key := KeyOf(entries[n]);
    forall j | 0 <= j < n && Kept(entries[j], skip) && KeyOf(entries[j]) == key
      ensures Utf8.Len(entries[n].mount) < Utf8.Len(entries[j].mount)
    {
      assert key in table && entries[..n][j] == entries[j];
    }
  }

  lemma TableIsComplete(entries: seq<DiskEntry>, skip: set<string>, table: map<Key, nat>, picks: seq<nat>)
    requires Tabulates(entries, skip, |entries|, table) && entries[..|entries|] == entries
    requires forall i :: i in picks <==> exists k :: k in table && table[k] == i
    requires forall a, b :: 0 <= a < b < |picks| ==> picks[a] != picks[b]
    ensures PicksAll(entries, skip, picks)
  {
    forall i: nat | Represents(entries, skip, i) ensures i in picks {
      var k := KeyOf(entries[i]);
      assert k in table && table[k] == i;
    }
  }

  lemma MountOrderIsWeak()
    ensures IsWeakOrder(MountBefore)
  {
    forall a: Volume, b: Volume | MountBefore(a, b) ensures !MountBefore(b, a) {
      TextBeforeTrichotomy(a.mount, b.mount);
    }
    forall a: Volume, b: Volume, c: Volume | !MountBefore(b, a) && !MountBefore(c, b) ensures !MountBefore(c, a) {
      TextBeforeTransitive(a.mount, b.mount, c.mount);
    }
  }

  /** Sorting the volumes is picking the representatives in another order. */
  lemma SortOfPicks(entries: seq<DiskEntry>, skip: set<string>, picks: seq<nat>, volumes: seq<Volume>)
    requires PicksAll(entries, skip, picks)
    requires volumes == StableSort(Map(VolumeAt(entries), picks), MountBefore)
    ensures IsVolumeList(entries, skip, volumes)
  {
    var f := VolumeAt(entries);
    var before := (a: nat, b: nat) => MountBefore(f(a), f(b));
    var picks' := StableSort(picks, before);
    SortOfMap(f, picks, before, MountBefore);
    MountOrderIsWeak();
    SortSorts(Map(f, picks), MountBefore);
    StaysDistinct(picks, picks');
    assert PicksAll(entries, skip, picks') by {
      assert forall i :: i in picks' <==> i in multiset(picks);
    }
  }

  // ------------------------------------------------------------------ what the list promises

  lemma KeyHasOneRepresentative(entries: seq<DiskEntry>, skip: set<string>, i: nat, j: nat)
    requires Represents(entries, skip, i) && Represents(entries, skip, j)
    requires KeyOf(entries[i]) == KeyOf(entries[j])
    ensures i == j
  {}

  lemma {:induction false} KeyHasARepresentative(entries: seq<DiskEntry>, skip: set<string>, i: nat) returns (r: nat)
    requires i < |entries| && Kept(entries[i], skip)
    ensures Represents(entries, skip, r) && KeyOf(entries[r]) == KeyOf(entries[i])
    decreases Utf8.Len(entries[i].mount), i
  {
    if Represents(entries, skip, i) {
      r := i;
    } else {
      var j :| 0 <= j < |entries| && Kept(entries[j], skip) && KeyOf(entries[j]) == KeyOf(entries[i])
        && (Utf8.Len(entries[j].mount) < Utf8.Len(entries[i].mount)
            || (j < i && Utf8.Len(entries[j].mount) == Utf8.Len(entries[i].mount)));
      r := KeyHasARepresentative(entries, skip, j);
    }
  }

  /** Every filesystem that is kept is listed exactly once, under its shortest mount, and the
      reading lies between zero and the capacity. */
  lemma EachFilesystemOnce(entries: seq<DiskEntry>, skip: set<string>, vs: seq<Volume>, i: nat)
      returns (picks: seq<nat>, k: nat)
    requires IsVolumeList(entries, skip, vs) && i < |entries| && Kept(entries[i], skip)
    ensures |picks| == |vs| && k < |vs|
    ensures forall n :: 0 <= n < |vs| ==> picks[n] < |entries| && vs[n] == ToVolume(entries[picks[n]])
    ensures forall n :: 0 <= n < |vs| ==> (AreOneFilesystem(entries[picks[n]], entries[i]) <==> n == k)
    ensures Utf8.Len(vs[k].mount) <= Utf8.Len(entries[i].mount)
    ensures 0.0 <= vs[k].usedGb <= vs[k].totalGb
  {
    picks :| PicksAll(entries, skip, picks) && vs == Map(VolumeAt(entries), picks) && IsSorted(vs, MountBefore);
    var r := KeyHasARepresentative(entries, skip, i);
    k :| 0 <= k < |picks| && picks[k] == r;
    forall n | 0 <= n < |vs|
      ensures picks[n] < |entries| && vs[n] == ToVolume(entries[picks[n]])
      ensures AreOneFilesystem(entries[picks[n]], entries[i]) <==> n == k
    {
      assert picks[n] in picks;
      MapAt(VolumeAt(entries), picks, n);
      if KeyOf(entries[picks[n]]) == KeyOf(entries[i]) {
        KeyHasOneRepresentative(entries, skip, picks[n], r);
      }
    }
    UsedIsWithinTotal(entries[r]);
  }

  lemma UsedIsWithinTotal(e: DiskEntry)
    ensures 0.0 <= ToVolume(e).usedGb <= ToVolume(e).totalGb
  {}

  function Mounts(vs: seq<Volume>): seq<string> {
    Map(MountOf, vs)
  }

  function MountOf(v: Volume): string { v.mount }

  /** Another instant: everything may read a different amount of free space, except that a
      filesystem without a device is known by it. */
  predicate SameMountTable(entries: seq<DiskEntry>, entries': seq<DiskEntry>) {
    && |entries| == |entries'|
    && forall i :: 0 <= i < |entries| ==>
         && entries'[i] == entries[i].(available := entries'[i].available)
         && (entries[i].device == "" ==> entries'[i] == entries[i])
  }

  /** No flapping: free space never decides which mounts are listed, nor in what order. */
  lemma FreeSpaceDoesNotFlap(entries: seq<DiskEntry>, entries': seq<DiskEntry>, skip: set<string>,
                             vs: seq<Volume>, vs': seq<Volume>)
    requires SameMountTable(entries, entries')
    requires IsVolumeList(entries, skip, vs) && IsVolumeList(entries', skip, vs')
    ensures Mounts(vs) == Mounts(vs')
  {
    var picks: seq<nat> :|
      PicksAll(entries, skip, picks) && vs == Map(VolumeAt(entries), picks) && IsSorted(vs, MountBefore);
    var picks': seq<nat> :|
      PicksAll(entries', skip, picks') && vs' == Map(VolumeAt(entries'), picks') && IsSorted(vs', MountBefore);
    forall i: nat ensures Represents(entries, skip, i) <==> Represents(entries', skip, i) {
      SameRepresentatives(entries, entries', skip, i);
    }
    SameElementsPermute(picks, picks');
    MountsOfPicks(entries, picks);
    MountsOfPicks(entries', picks');
    SameMountAt(entries, entries', picks');
    MapPermutes(MountAt(entries), picks, picks');
    SortedMounts(vs);
    SortedMounts(vs');
    MountsAreUnique(Mounts(vs), Mounts(vs'));
  }

  lemma SameRepresentatives(entries: seq<DiskEntry>, entries': seq<DiskEntry>, skip: set<string>, i: nat)
    requires SameMountTable(entries, entries')
    ensures Represents(entries, skip, i) <==> Represents(entries', skip, i)
  {
    assert forall j :: 0 <= j < |entries| ==>
      entries'[j].mount == entries[j].mount && Kept(entries'[j], skip) == Kept(entries[j], skip)
      && KeyOf(entries'[j]) == KeyOf(entries[j]);
  }

  function MountAt(entries: seq<DiskEntry>): nat -> string {
    (i: nat) => if i < |entries| then entries[i].mount else ""
  }

  lemma {:induction false} MountsOfPicks(entries: seq<DiskEntry>, picks: seq<nat>)
    ensures Mounts(Map(VolumeAt(entries), picks)) == Map(MountAt(entries), picks)
  {
    if picks != [] {
      var vs := Map(VolumeAt(entries), picks);
      MountsOfPicks(entries, picks[1..]);
      assert vs[1..] == Map(VolumeAt(entries), picks[1..]);
      var e := if picks[0] < |entries| then entries[picks[0]] else DiskEntry("", "", 0, 0, "");
      assert vs[0] == ToVolume(e);
    }
  }

  lemma {:induction false} SameMountAt(entries: seq<DiskEntry>, entries': seq<DiskEntry>, picks: seq<nat>)
    requires SameMountTable(entries, entries')
    ensures Map(MountAt(entries), picks) == Map(MountAt(entries'), picks)
  {
    if picks != [] {
      SameMountAt(entries, entries', picks[1..]);
    }
  }

  lemma SortedMounts(vs: seq<Volume>)
    requires IsSorted(vs, MountBefore)
    ensures IsSorted(Mounts(vs), TextBefore)
  {
    forall i, j | 0 <= i < j < |vs| ensures !TextBefore(Mounts(vs)[j], Mounts(vs)[i]) {
      MapAt(MountOf, vs, i);
      MapAt(MountOf, vs, j);
      assert !MountBefore(vs[j], vs[i]);
    }
  }

  lemma MountsAreUnique(a: seq<string>, b: seq<string>)
    requires IsSorted(a, TextBefore) && IsSorted(b, TextBefore) && multiset(a) == multiset(b)
    ensures a == b
  {
    forall i, j | 0 <= i < j < |a| ensures TextBefore(a[i], a[j]) || TextBefore(a[j], a[i]) || a[i] == a[j] {
      TextBeforeTrichotomy(a[i], a[j]);
    }
    SortedIsUnique(a, b, TextBefore);
  }
}
