/** When the order of the mount table, and the iteration order of the hash table, show in the list of
    `build_volumes`. */
module VolumeOrder {
  import opened Sorting
  import opened Volumes
  import Utf8

  /** x has the shortest mount of its filesystem. */
  ghost predicate IsShortest(entries: seq<DiskEntry>, skip: set<string>, x: DiskEntry) {
    && x in entries && Kept(x, skip)
    && forall y :: y in entries && Kept(y, skip) && KeyOf(y) == KeyOf(x) ==> Utf8.Len(x.mount) <= Utf8.Len(y.mount)
  }

  predicate Clash(x: DiskEntry, y: DiskEntry) {
    KeyOf(x) == KeyOf(y) || x.mount == y.mount
  }

  /** Shortest entries of one filesystem, or on one mount, report the same volume. */
  ghost predicate Agree(entries: seq<DiskEntry>, skip: set<string>) {
    forall x, y :: IsShortest(entries, skip, x) && IsShortest(entries, skip, y) && Clash(x, y) ==>
      ToVolume(x) == ToVolume(y)
  }

  ghost predicate IsListOfOrder(entries: seq<DiskEntry>, skip: set<string>, order: seq<DiskEntry>, vs: seq<Volume>) {
    multiset(order) == multiset(entries) && IsVolumeList(order, skip, vs)
  }

  /** All lists that any two orders of the table can give are one list. */
  ghost predicate OrderDoesNotShow(entries: seq<DiskEntry>, skip: set<string>) {
    forall a, b, vs, vs' :: IsListOfOrder(entries, skip, a, vs) && IsListOfOrder(entries, skip, b, vs') ==> vs == vs'
  }

  /** The order does not show exactly when the shortest entries agree. */
  lemma OrderIsExact(entries: seq<DiskEntry>, skip: set<string>)
    ensures OrderDoesNotShow(entries, skip) <==> Agree(entries, skip)
  {
    if Agree(entries, skip) {
      forall a, b, vs, vs' | IsListOfOrder(entries, skip, a, vs) && IsListOfOrder(entries, skip, b, vs')
        ensures vs == vs'
      {
        AgreeingOrders(entries, a, skip);
        AgreeingLists(a, b, skip, vs, vs');
      }
    } else {
      var x, y :| IsShortest(entries, skip, x) && IsShortest(entries, skip, y) && Clash(x, y)
                  && ToVolume(x) != ToVolume(y);
      var a, b, vs, vs' := DisagreeingOrders(entries, skip, x, y);
      assert IsListOfOrder(entries, skip, a, vs) && IsListOfOrder(entries, skip, b, vs');
    }
  }

  // ------------------------------------------------------------------ when the shortest entries agree

  lemma SameShortest(a: seq<DiskEntry>, b: seq<DiskEntry>, skip: set<string>, x: DiskEntry)
    requires multiset(a) == multiset(b)
    ensures IsShortest(a, skip, x) <==> IsShortest(b, skip, x)
  {
    SameMembers(a, b);
  }

  lemma AgreeingOrders(a: seq<DiskEntry>, b: seq<DiskEntry>, skip: set<string>)
    requires multiset(a) == multiset(b) && Agree(a, skip)
    ensures Agree(b, skip)
  {
    forall x, y | IsShortest(b, skip, x) && IsShortest(b, skip, y) && Clash(x, y)
      ensures ToVolume(x) == ToVolume(y)
    {
      SameShortest(a, b, skip, x);
      SameShortest(a, b, skip, y);
    }
  }

  lemma RepresentativeIsShortest(entries: seq<DiskEntry>, skip: set<string>, i: nat)
    requires Represents(entries, skip, i)
    ensures IsShortest(entries, skip, entries[i])
  {}

  /** The pick of the same filesystem in another order of the table. */
  lemma Counterpart(a: seq<DiskEntry>, b: seq<DiskEntry>, skip: set<string>, i: nat) returns (j: nat)
    requires multiset(a) == multiset(b) && Represents(a, skip, i)
    ensures Represents(b, skip, j) && KeyOf(b[j]) == KeyOf(a[i])
    ensures Agree(a, skip) ==> ToVolume(b[j]) == ToVolume(a[i])
  {
    SameMembers(a, b);
    assert a[i] in b;
    var k :| 0 <= k < |b| && b[k] == a[i];
    j := KeyHasARepresentative(b, skip, k);
    RepresentativeIsShortest(a, skip, i);
    RepresentativeIsShortest(b, skip, j);
    SameShortest(a, b, skip, b[j]);
  }

  ghost predicate AreCounterparts(a: seq<DiskEntry>, b: seq<DiskEntry>, skip: set<string>, picks: seq<nat>,
                                  others: seq<nat>) {
    && |others| == |picks|
    && forall n :: 0 <= n < |picks| ==>
         && Represents(a, skip, picks[n]) && Represents(b, skip, others[n])
         && KeyOf(b[others[n]]) == KeyOf(a[picks[n]]) && ToVolume(b[others[n]]) == ToVolume(a[picks[n]])
  }

  lemma {:induction false} Counterparts(a: seq<DiskEntry>, b: seq<DiskEntry>, skip: set<string>, picks: seq<nat>)
      returns (others: seq<nat>)
    requires multiset(a) == multiset(b) && Agree(a, skip)
    requires forall n :: 0 <= n < |picks| ==> Represents(a, skip, picks[n])
    ensures AreCounterparts(a, b, skip, picks, others)
    ensures Map(VolumeAt(b), others) == Map(VolumeAt(a), picks)
  {
    if picks == [] {
      others := [];
    } else {
      var rest := Counterparts(a, b, skip, picks[1..]);
      assert Represents(a, skip, picks[0]);
      var j := Counterpart(a, b, skip, picks[0]);
      others := [j] + rest;
      assert others[1..] == rest;
      forall n | 0 <= n < |picks|
        ensures Represents(a, skip, picks[n]) && Represents(b, skip, others[n])
        ensures KeyOf(b[others[n]]) == KeyOf(a[picks[n]]) && ToVolume(b[others[n]]) == ToVolume(a[picks[n]])
      {
        if n > 0 {
          assert picks[n] == picks[1..][n - 1] && others[n] == rest[n - 1];
        }
      }
    }
  }

  /** The counterparts of all picks are all picks of the other order, each once. */
  lemma CounterpartsAreAll(a: seq<DiskEntry>, b: seq<DiskEntry>, skip: set<string>, picks: seq<nat>, others: seq<nat>,
                           picks': seq<nat>)
    requires multiset(a) == multiset(b) && AreCounterparts(a, b, skip, picks, others)
    requires PicksAll(a, skip, picks) && PicksAll(b, skip, picks')
    ensures multiset(others) == multiset(picks')
  {
    forall m, n | 0 <= m < n < |others| ensures others[m] != others[n] {
      if others[m] == others[n] {
        KeyHasOneRepresentative(a, skip, picks[m], picks[n]);
      }
    }
    forall j: nat ensures j in others <==> j in picks' {
      if j in picks' {
        var i := Counterpart(b, a, skip, j);
        assert i in picks;
        var n :| 0 <= n < |picks| && picks[n] == i;
        KeyHasOneRepresentative(b, skip, others[n], j);
      }
    }
    SameElementsPermute(others, picks');
  }

  lemma AgreeingLists(a: seq<DiskEntry>, b: seq<DiskEntry>, skip: set<string>, vs: seq<Volume>, vs': seq<Volume>)
    requires multiset(a) == multiset(b) && Agree(a, skip)
    requires IsVolumeList(a, skip, vs) && IsVolumeList(b, skip, vs')
    ensures vs == vs'
  {
    var picks: seq<nat> :| PicksAll(a, skip, picks) && vs == Map(VolumeAt(a), picks) && IsSorted(vs, MountBefore);
    var picks': seq<nat> :| PicksAll(b, skip, picks') && vs' == Map(VolumeAt(b), picks') && IsSorted(vs', MountBefore);
    forall n | 0 <= n < |picks| ensures Represents(a, skip, picks[n]) {
      assert picks[n] in picks;
    }
    var others := Counterparts(a, b, skip, picks);
    CounterpartsAreAll(a, b, skip, picks, others, picks');
    MapPermutes(VolumeAt(b), others, picks');
    MountsTellVolumesApart(a, skip, picks, vs);
    SortedIsUnique(vs, vs', MountBefore);
  }

  lemma MountsTellVolumesApart(a: seq<DiskEntry>, skip: set<string>, picks: seq<nat>, vs: seq<Volume>)
    requires Agree(a, skip) && vs == Map(VolumeAt(a), picks)
    requires forall n :: 0 <= n < |picks| ==> Represents(a, skip, picks[n])
    ensures TellsApart(MountBefore, vs)
  {
    forall m, n | 0 <= m < n < |vs| ensures MountBefore(vs[m], vs[n]) || MountBefore(vs[n], vs[m]) || vs[m] == vs[n] {
      MapAt(VolumeAt(a), picks, m);
      MapAt(VolumeAt(a), picks, n);
      TwoAreToldApart(a, skip, picks[m], picks[n]);
    }
  }

  lemma TwoAreToldApart(a: seq<DiskEntry>, skip: set<string>, i: nat, j: nat)
    requires Agree(a, skip) && Represents(a, skip, i) && Represents(a, skip, j)
    ensures var (v, w) := (ToVolume(a[i]), ToVolume(a[j])); MountBefore(v, w) || MountBefore(w, v) || v == w
  {
    RepresentativeIsShortest(a, skip, i);
    RepresentativeIsShortest(a, skip, j);
    TextBeforeTrichotomy(a[i].mount, a[j].mount);
  }

  // ------------------------------------------------------------------ when they do not

  /** All picks, in the order of the table. */
  lemma {:induction false} PicksUpTo(entries: seq<DiskEntry>, skip: set<string>, n: nat) returns (picks: seq<nat>)
    ensures forall i: nat :: i in picks <==> i < n && Represents(entries, skip, i)
    ensures forall a, b :: 0 <= a < b < |picks| ==> picks[a] < picks[b]
  {
    if n == 0 {
      picks := [];
    } else {
      picks := PicksUpTo(entries, skip, n - 1);
      assert forall a :: 0 <= a < |picks| ==> picks[a] in picks;
      if Represents(entries, skip, n - 1) {
        picks := picks + [n - 1];
      }
    }
  }

  lemma AllPicks(entries: seq<DiskEntry>, skip: set<string>) returns (picks: seq<nat>)
    ensures PicksAll(entries, skip, picks)
    ensures forall a, b :: 0 <= a < b < |picks| ==> picks[a] < picks[b]
  {
    picks := PicksUpTo(entries, skip, |entries|);
  }

  lemma SortedPicks(entries: seq<DiskEntry>, skip: set<string>, picks: seq<nat>) returns (vs: seq<Volume>)
    requires PicksAll(entries, skip, picks)
    ensures IsVolumeList(entries, skip, vs) && vs == StableSort(Map(VolumeAt(entries), picks), MountBefore)
  {
    vs := StableSort(Map(VolumeAt(entries), picks), MountBefore);
    SortOfPicks(entries, skip, picks, vs);
  }

  /** Two orders that differ in which of two entries comes first. */
  ghost predicate SwapFirstTwo(a: seq<DiskEntry>, b: seq<DiskEntry>) {
    |a| == |b| >= 2 && a[0] == b[1] && a[1] == b[0] && forall j :: 2 <= j < |a| ==> a[j] == b[j]
  }

  /** Two shortest entries that do not agree can be put first, and then the order shows. */
  lemma DisagreeingOrders(entries: seq<DiskEntry>, skip: set<string>, x: DiskEntry, y: DiskEntry)
      returns (a: seq<DiskEntry>, b: seq<DiskEntry>, vs: seq<Volume>, vs': seq<Volume>)
    requires IsShortest(entries, skip, x) && IsShortest(entries, skip, y) && Clash(x, y) && ToVolume(x) != ToVolume(y)
    ensures multiset(a) == multiset(entries) && multiset(b) == multiset(entries)
    ensures IsVolumeList(a, skip, vs) && IsVolumeList(b, skip, vs') && vs != vs'
  {
    a, b := PutFirst(entries, x, y);
    SameShortest(entries, a, skip, x);
    SameShortest(entries, a, skip, y);
    if KeyOf(x) == KeyOf(y) {
      vs, vs' := TieGoesToTheFirst(a, b, skip);
    } else {
      vs, vs' := OneMountTwice(a, skip);
      b := a;
    }
  }

  lemma PutFirst(entries: seq<DiskEntry>, x: DiskEntry, y: DiskEntry) returns (a: seq<DiskEntry>, b: seq<DiskEntry>)
    requires x in entries && y in entries && x != y
    ensures multiset(a) == multiset(entries) && multiset(b) == multiset(entries)
    ensures SwapFirstTwo(a, b) && a[0] == x && a[1] == y
  {
    var without := ToFront(entries, x);
    assert y in without by {
      assert y in multiset([x] + without);
    }
    var rest := ToFront(without, y);
    a, b := [x] + ([y] + rest), [y] + ([x] + rest);
  }

  lemma SwappedTie(a: seq<DiskEntry>, b: seq<DiskEntry>, skip: set<string>, i: nat)
    requires SwapFirstTwo(a, b) && IsTie(a, skip) && Represents(a, skip, i)
    ensures Represents(b, skip, i)
  {
    forall j | 0 <= j < |b| && Kept(b[j], skip) && KeyOf(b[j]) == KeyOf(b[i])
      ensures Utf8.Len(b[i].mount) <= Utf8.Len(b[j].mount)
      ensures j < i ==> Utf8.Len(b[i].mount) < Utf8.Len(b[j].mount)
    {
      var k := if j == 0 then 1 else if j == 1 then 0 else j;
      assert b[j] == a[k];
    }
  }

  /** The first two are shortest entries of one filesystem. */
  ghost predicate IsTie(a: seq<DiskEntry>, skip: set<string>) {
    |a| >= 2 && IsShortest(a, skip, a[0]) && IsShortest(a, skip, a[1]) && KeyOf(a[0]) == KeyOf(a[1])
  }

  lemma SwappedIsTie(a: seq<DiskEntry>, b: seq<DiskEntry>, skip: set<string>)
    requires SwapFirstTwo(a, b) && IsTie(a, skip)
    ensures IsTie(b, skip)
  {
    forall y | y in b ensures y in a {
      var j :| 0 <= j < |b| && b[j] == y;
      var k := if j == 0 then 1 else if j == 1 then 0 else j;
      assert y == a[k];
    }
  }

  lemma FirstOfTie(a: seq<DiskEntry>, skip: set<string>)
    requires IsTie(a, skip)
    ensures Represents(a, skip, 0) && !Represents(a, skip, 1)
  {}

  lemma SwappedTies(a: seq<DiskEntry>, b: seq<DiskEntry>, skip: set<string>, picks: seq<nat>)
    requires SwapFirstTwo(a, b) && IsTie(a, skip) && PicksAll(a, skip, picks)
    ensures PicksAll(b, skip, picks)
  {
    SwappedIsTie(a, b, skip);
    forall i: nat ensures Represents(a, skip, i) <==> Represents(b, skip, i) {
      if Represents(a, skip, i) { SwappedTie(a, b, skip, i); }
      if Represents(b, skip, i) { SwappedTie(b, a, skip, i); }
    }
  }

  lemma StartsWithZero(picks: seq<nat>) returns (later: seq<nat>)
    requires 0 in picks && 1 !in picks && forall m, n :: 0 <= m < n < |picks| ==> picks[m] < picks[n]
    ensures picks == [0] + later && forall n :: 0 <= n < |later| ==> later[n] >= 2
  {
    assert picks[0] == 0;
    later := picks[1..];
    forall n | 0 <= n < |later| ensures later[n] >= 2 {
      assert later[n] in picks;
    }
  }

  /** Of two shortest entries of one filesystem the one listed first is reported. */
  lemma TieGoesToTheFirst(a: seq<DiskEntry>, b: seq<DiskEntry>, skip: set<string>)
      returns (vs: seq<Volume>, vs': seq<Volume>)
    requires SwapFirstTwo(a, b) && IsTie(a, skip) && ToVolume(a[0]) != ToVolume(a[1])
    ensures IsVolumeList(a, skip, vs) && IsVolumeList(b, skip, vs') && vs != vs'
  {
    var picks := AllPicks(a, skip);
    SwappedTies(a, b, skip, picks);
    FirstOfTie(a, skip);
    vs := SortedPicks(a, skip, picks);
    vs' := SortedPicks(b, skip, picks);
    var later := StartsWithZero(picks);
    SameLaterVolumes(a, b, later);
    MapOfCons(VolumeAt(a), 0, later);
    MapOfCons(VolumeAt(b), 0, later);
    if vs == vs' {
      SameHead(ToVolume(a[0]), ToVolume(b[0]), Map(VolumeAt(a), later));
    }
  }

  lemma SameHead<T>(x: T, y: T, s: seq<T>)
    requires multiset([x] + s) == multiset([y] + s)
    ensures x == y
  {
    assert multiset([x] + s)[x] == multiset(s)[x] + 1;
  }

  lemma {:induction false} SameLaterVolumes(a: seq<DiskEntry>, b: seq<DiskEntry>, picks: seq<nat>)
    requires SwapFirstTwo(a, b) && forall n :: 0 <= n < |picks| ==> picks[n] >= 2
    ensures Map(VolumeAt(a), picks) == Map(VolumeAt(b), picks)
  {
    if picks != [] {
      SameLaterVolumes(a, b, picks[1..]);
    }
  }

  /** Two filesystems on one mount are listed in the order in which the hash table yields them. */
  lemma OneMountTwice(a: seq<DiskEntry>, skip: set<string>) returns (vs: seq<Volume>, vs': seq<Volume>)
    requires |a| >= 2 && IsShortest(a, skip, a[0]) && IsShortest(a, skip, a[1]) && KeyOf(a[0]) != KeyOf(a[1])
    requires a[0].mount == a[1].mount && ToVolume(a[0]) != ToVolume(a[1])
    ensures IsVolumeList(a, skip, vs) && IsVolumeList(a, skip, vs') && vs != vs'
  {
    var picks := AllPicks(a, skip);
    TwoRepresent(a, skip);
    var later, swapped := StartsWithTwo(picks);
    vs := SortedPicks(a, skip, picks);
    vs' := SortedPicks(a, skip, swapped);
    SortsDiffer(VolumeAt(a), later);
  }

  lemma TwoRepresent(a: seq<DiskEntry>, skip: set<string>)
    requires |a| >= 2 && IsShortest(a, skip, a[0]) && IsShortest(a, skip, a[1]) && KeyOf(a[0]) != KeyOf(a[1])
    ensures Represents(a, skip, 0) && Represents(a, skip, 1)
  {}

  lemma SortsDiffer(f: nat -> Volume, later: seq<nat>)
    requires f(0).mount == f(1).mount && f(0) != f(1)
    ensures StableSort(Map(f, [0, 1] + later), MountBefore) != StableSort(Map(f, [1, 0] + later), MountBefore)
  {
    SortOfMappedTwo(f, 0, 1, later, MountBefore);
    SortOfMappedTwo(f, 1, 0, later, MountBefore);
    TextBeforeTrichotomy(f(0).mount, f(1).mount);
    InsertedInOrder(f(0), f(1), StableSort(Map(f, later), MountBefore), MountBefore);
  }

  lemma StartsWithTwo(picks: seq<nat>) returns (later: seq<nat>, swapped: seq<nat>)
    requires 0 in picks && 1 in picks && forall m, n :: 0 <= m < n < |picks| ==> picks[m] < picks[n]
    ensures picks == [0, 1] + later && swapped == [1, 0] + later
    ensures forall i :: i in swapped <==> i in picks
    ensures forall m, n :: 0 <= m < n < |swapped| ==> swapped[m] != swapped[n]
  {
    assert picks[0] == 0 && picks[1] == 1;
    later := picks[2..];
    swapped := [1, 0] + later;
  }
}
