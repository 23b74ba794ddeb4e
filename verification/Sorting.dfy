/** `slice::sort_by`: a stable sort, as far as the agent relies on it. */
module Sorting {

  /** `before(a, b)` says that the comparator puts a strictly before b. */
  type Order<!T> = (T, T) -> bool

  ghost predicate IsWeakOrder<T(!new)>(before: Order<T>) {
    && (forall a, b :: before(a, b) ==> !before(b, a))
    && (forall a, b, c :: !before(b, a) && !before(c, b) ==> !before(c, a))
  }

  ghost predicate IsSorted<T>(s: seq<T>, before: Order<T>) {
    forall i, j :: 0 <= i < j < |s| ==> !before(s[j], s[i])
  }

  /** Puts x in front of the first element that is not strictly before it. */
  function Insert<T>(x: T, s: seq<T>, before: Order<T>): (r: seq<T>)
    ensures multiset(r) == multiset([x] + s)
  {
    if s == [] || !before(s[0], x) then [x] + s
    else
      assert s == [s[0]] + s[1..];
      [s[0]] + Insert(x, s[1..], before)
  }

  function StableSort<T>(s: seq<T>, before: Order<T>): (r: seq<T>)
    ensures multiset(r) == multiset(s)
    ensures |r| == |s|
  {
    if s == [] then []
    else
      var r := Insert(s[0], StableSort(s[1..], before), before);
      assert s == [s[0]] + s[1..];
      assert |multiset(r)| == |multiset(s)|;
      r
  }

  lemma InsertKeeps<T>(x: T, s: seq<T>, before: Order<T>, y: T)
    requires y in Insert(x, s, before)
    ensures y == x || y in s
  {
    assert y in multiset([x] + s);
  }

  lemma {:induction false} InsertSorts<T(!new)>(x: T, s: seq<T>, before: Order<T>)
    requires IsWeakOrder(before) && IsSorted(s, before)
    ensures IsSorted(Insert(x, s, before), before)
  {
    if s != [] && before(s[0], x) {
      InsertSorts(x, s[1..], before);
      var r := Insert(x, s[1..], before);
      forall j | 0 <= j < |r| ensures !before(r[j], s[0]) {
        InsertKeeps(x, s[1..], before, r[j]);
      }
    } else if s != [] {
      forall j | 0 <= j < |s| ensures !before(s[j], x) {
        assert !before(s[j], s[0]);
      }
    }
  }

  lemma {:induction false} SortSorts<T(!new)>(s: seq<T>, before: Order<T>)
    requires IsWeakOrder(before)
    ensures IsSorted(StableSort(s, before), before)
  {
    if s != [] {
      SortSorts(s[1..], before);
      InsertSorts(s[0], StableSort(s[1..], before), before);
    }
  }

  lemma Removed<T>(s: seq<T>, i: nat)
    requires i < |s|
    ensures multiset(s[..i] + s[i + 1..]) == multiset(s) - multiset{s[i]}
  {
    assert s == s[..i] + [s[i]] + s[i + 1..];
  }

  lemma ToFront<T>(s: seq<T>, x: T) returns (rest: seq<T>)
    requires x in s
    ensures multiset([x] + rest) == multiset(s)
  {
    var i :| 0 <= i < |s| && s[i] == x;
    rest := s[..i] + s[i + 1..];
    Removed(s, i);
  }

  ghost predicate TellsApart<T>(before: Order<T>, s: seq<T>) {
    forall i, j :: 0 <= i < j < |s| ==> before(s[i], s[j]) || before(s[j], s[i]) || s[i] == s[j]
  }

  lemma SameFirst<T>(a: seq<T>, b: seq<T>, before: Order<T>)
    requires a != [] && b != [] && multiset(a) == multiset(b)
    requires IsSorted(a, before) && IsSorted(b, before) && TellsApart(before, a)
    ensures a[0] == b[0]
  {
    assert a[0] in multiset(b) && b[0] in multiset(a);
    var i :| 0 <= i < |b| && b[i] == a[0];
    var j :| 0 <= j < |a| && a[j] == b[0];
    if i > 0 && j > 0 {
      assert !before(b[i], b[0]) && !before(a[j], a[0]);
    }
  }

  lemma TailOf<T>(s: seq<T>, before: Order<T>)
    requires s != [] && IsSorted(s, before)
    ensures IsSorted(s[1..], before)
    ensures TellsApart(before, s) ==> TellsApart(before, s[1..])
  {}

  lemma SameTails<T>(a: seq<T>, b: seq<T>)
    requires a != [] && b != [] && a[0] == b[0] && multiset(a) == multiset(b)
    ensures multiset(a[1..]) == multiset(b[1..])
  {
    assert a == [a[0]] + a[1..] && b == [b[0]] + b[1..];
    assert multiset(a[1..]) == multiset(a) - multiset{a[0]};
  }

  lemma SameMembers<T>(a: seq<T>, b: seq<T>)
    requires multiset(a) == multiset(b)
    ensures forall x :: x in a <==> x in b
  {
    forall x ensures x in a <==> x in b {
      assert x in multiset(a) <==> x in multiset(b);
    }
  }

  lemma SameLength<T>(a: seq<T>, b: seq<T>)
    requires multiset(a) == multiset(b)
    ensures |a| == |b|
  {
    assert |multiset(a)| == |a|;
  }

  /** Two sorted lists of the same elements are equal when the order tells different elements apart. */
  lemma {:induction false} SortedIsUnique<T>(a: seq<T>, b: seq<T>, before: Order<T>)
    requires IsSorted(a, before) && IsSorted(b, before) && multiset(a) == multiset(b)
    requires TellsApart(before, a)
    ensures a == b
  {
    SameLength(a, b);
    if a != [] {
      SameFirst(a, b, before);
      SameTails(a, b);
      TailOf(a, before);
      TailOf(b, before);
      SortedIsUnique(a[1..], b[1..], before);
      assert a == [a[0]] + a[1..];
    }
  }

  lemma SortOfCons<T>(x: T, s: seq<T>, before: Order<T>)
    ensures StableSort([x] + s, before) == Insert(x, StableSort(s, before), before)
  {
    assert ([x] + s)[1..] == s;
  }

  /** Elements that the order does not tell apart stay in the order in which they came. */
  lemma {:induction false} InsertedInOrder<T>(x: T, y: T, s: seq<T>, before: Order<T>)
    requires x != y && !before(x, y) && !before(y, x) && forall z :: before(z, x) == before(z, y)
    ensures Insert(x, Insert(y, s, before), before) != Insert(y, Insert(x, s, before), before)
  {
    var xy, yx := Insert(x, Insert(y, s, before), before), Insert(y, Insert(x, s, before), before);
    if s == [] || !before(s[0], x) {
      assert xy[0] == x && yx[0] == y;
    } else {
      InsertedInOrder(x, y, s[1..], before);
      assert xy[1..] == Insert(x, Insert(y, s[1..], before), before);
      assert yx[1..] == Insert(y, Insert(x, s[1..], before), before);
    }
  }

  function Map<T, U>(f: T -> U, s: seq<T>): (r: seq<U>)
    ensures |r| == |s|
  {
    if s == [] then [] else [f(s[0])] + Map(f, s[1..])
  }

  lemma MapOfCons<T, U>(f: T -> U, x: T, s: seq<T>)
    ensures Map(f, [x] + s) == [f(x)] + Map(f, s)
  {
    assert ([x] + s)[1..] == s;
  }

  lemma {:induction false} MapAt<T, U>(f: T -> U, s: seq<T>, k: nat)
    requires k < |s|
    ensures Map(f, s)[k] == f(s[k])
  {
    if k > 0 {
      MapAt(f, s[1..], k - 1);
    }
  }

  lemma {:induction false} MapOfSnoc<T, U>(f: T -> U, s: seq<T>, x: T)
    ensures Map(f, s + [x]) == Map(f, s) + [f(x)]
  {
    if s != [] {
      MapOfSnoc(f, s[1..], x);
      assert (s + [x])[1..] == s[1..] + [x];
    }
  }

  lemma SortOfMappedTwo<T, U>(f: T -> U, x: T, y: T, s: seq<T>, before: Order<U>)
    ensures StableSort(Map(f, [x, y] + s), before)
         == Insert(f(x), Insert(f(y), StableSort(Map(f, s), before), before), before)
  {
    assert [x, y] + s == [x] + ([y] + s);
    MapOfCons(f, y, s);
    MapOfCons(f, x, [y] + s);
    SortOfCons(f(y), Map(f, s), before);
    SortOfCons(f(x), Map(f, [y] + s), before);
  }

  lemma {:induction false} InsertOfMap<T(!new), U>(f: T -> U, x: T, s: seq<T>, before: Order<T>, before': Order<U>)
    requires forall a, b :: before'(f(a), f(b)) == before(a, b)
    ensures Insert(f(x), Map(f, s), before') == Map(f, Insert(x, s, before))
  {
    if s != [] && before(s[0], x) {
      InsertOfMap(f, x, s[1..], before, before');
      assert Map(f, s)[1..] == Map(f, s[1..]);
      assert Insert(x, s, before)[1..] == Insert(x, s[1..], before);
    } else {
      assert ([x] + s)[1..] == s;
    }
  }

  /** Stability: the sorted order depends on the comparator's answers and on nothing else, so a
      change of the elements that keeps every answer keeps the permutation. */
  lemma {:induction false} SortOfMap<T(!new), U>(f: T -> U, s: seq<T>, before: Order<T>, before': Order<U>)
    requires forall a, b :: before'(f(a), f(b)) == before(a, b)
    ensures StableSort(Map(f, s), before') == Map(f, StableSort(s, before))
  {
    if s != [] {
      SortOfMap(f, s[1..], before, before');
      assert Map(f, s)[1..] == Map(f, s[1..]);
      InsertOfMap(f, s[0], StableSort(s[1..], before), before, before');
    }
  }

  lemma {:induction false} MapRemoved<T, U>(f: T -> U, s: seq<T>, i: nat)
    requires i < |s|
    ensures multiset(Map(f, s)) == multiset(Map(f, s[..i] + s[i + 1..])) + multiset{f(s[i])}
  {
    var rest := s[..i] + s[i + 1..];
    if i == 0 {
      assert rest == s[1..];
      MapOfFirst(f, s);
    } else {
      var tail := s[1..];
      MapRemoved(f, tail, i - 1);
      RestOfTail(s, i);
      MapOfFirst(f, s);
      MapOfFirst(f, rest);
    }
  }

  lemma RestOfTail<T>(s: seq<T>, i: nat)
    requires 0 < i < |s|
    ensures var rest, tail := s[..i] + s[i + 1..], s[1..];
      rest[0] == s[0] && rest[1..] == tail[..i - 1] + tail[i..]
  {}

  lemma {:induction false} MapPermutes<T, U>(f: T -> U, a: seq<T>, b: seq<T>)
    requires multiset(a) == multiset(b)
    ensures multiset(Map(f, a)) == multiset(Map(f, b))
  {
    if a == [] {
      SameLength(a, b);
    } else {
      var i := SameWithoutFirst(a, b);
      MapPermutes(f, a[1..], b[..i] + b[i + 1..]);
      MapRemoved(f, b, i);
      MapOfFirst(f, a);
    }
  }

  lemma SameWithoutFirst<T>(a: seq<T>, b: seq<T>) returns (i: nat)
    requires a != [] && multiset(a) == multiset(b)
    ensures i < |b| && b[i] == a[0] && multiset(a[1..]) == multiset(b[..i] + b[i + 1..])
  {
    assert a[0] in multiset(b);
    i :| 0 <= i < |b| && b[i] == a[0];
    Removed(b, i);
    assert a == [a[0]] + a[1..];
  }

  lemma MapOfFirst<T, U>(f: T -> U, a: seq<T>)
    requires a != []
    ensures multiset(Map(f, a)) == multiset(Map(f, a[1..])) + multiset{f(a[0])}
  {}

  /** Two lists without repetition and with the same elements are permutations of each other. */
  lemma SameElementsPermute<T>(a: seq<T>, b: seq<T>)
    requires forall i, j :: 0 <= i < j < |a| ==> a[i] != a[j]
    requires forall i, j :: 0 <= i < j < |b| ==> b[i] != b[j]
    requires forall x :: x in a <==> x in b
    ensures multiset(a) == multiset(b)
  {
    forall x | x in a ensures multiset(a)[x] == 1 { OccursOnce(a, x); }
    forall x | x in b ensures multiset(b)[x] == 1 { OccursOnce(b, x); }
    forall x ensures multiset(a)[x] == multiset(b)[x] {
      if x !in a { assert x !in multiset(a) && x !in multiset(b); }
    }
  }

  lemma {:induction false} OccursOnce<T>(s: seq<T>, x: T)
    requires forall i, j :: 0 <= i < j < |s| ==> s[i] != s[j]
    requires x in s
    ensures multiset(s)[x] == 1
  {
    assert s == [s[0]] + s[1..];
    if x == s[0] {
      assert x !in multiset(s[1..]);
    } else {
      OccursOnce(s[1..], x);
    }
  }

  lemma StaysDistinct<T>(a: seq<T>, b: seq<T>)
    requires multiset(a) == multiset(b)
    requires forall i, j :: 0 <= i < j < |a| ==> a[i] != a[j]
    ensures forall i, j :: 0 <= i < j < |b| ==> b[i] != b[j]
  {
    forall i, j | 0 <= i < j < |b| ensures b[i] != b[j] {
      if b[i] == b[j] {
        assert b == b[..j] + [b[j]] + b[j + 1..];
        assert b[i] in b[..j];
        assert multiset(b)[b[i]] >= 2;
        assert b[i] in multiset(a);
        OccursOnce(a, b[i]);
      }
    }
  }

  // ------------------------------------------------------------------ the order of paths

  /** `str::cmp`: byte by byte, which for UTF-8 is character by character. */
  predicate TextBefore(a: string, b: string) {
    b != "" && (a == "" || a[0] < b[0] || (a[0] == b[0] && TextBefore(a[1..], b[1..])))
  }

  /** A text stands before another when it is a proper beginning of it, or has the smaller character where
      they first differ. */
  lemma {:induction false} TextBeforeIsLexicographic(a: string, b: string)
    ensures TextBefore(a, b)
       <==> exists k :: 0 <= k < |b| && k <= |a| && a[..k] == b[..k] && (k == |a| || a[k] as int < b[k] as int)
  {
    if a != "" && b != "" && a[0] == b[0] {
      TextBeforeIsLexicographic(a[1..], b[1..]);
      if k :| 0 <= k < |b[1..]| && k <= |a[1..]| && a[1..][..k] == b[1..][..k]
              && (k == |a[1..]| || a[1..][k] as int < b[1..][k] as int) {
        assert a[..k + 1] == [a[0]] + a[1..][..k] && b[..k + 1] == [b[0]] + b[1..][..k];
        assert k + 1 == |a| || a[k + 1] as int < b[k + 1] as int;
      }
      if k :| 0 <= k < |b| && k <= |a| && a[..k] == b[..k] && (k == |a| || a[k] as int < b[k] as int) {
        assert k > 0;
        assert a[1..][..k - 1] == a[..k][1..] && b[1..][..k - 1] == b[..k][1..];
        assert k - 1 == |a[1..]| || a[1..][k - 1] as int < b[1..][k - 1] as int;
      }
    } else if a == "" && b != "" {
      assert a[..0] == b[..0];
    } else if b != "" && a[0] < b[0] {
      assert a[..0] == b[..0];
    } else if a != "" && b != "" {
      forall k | 0 < k < |b| && k <= |a| ensures a[..k] != b[..k] {
        assert a[..k][0] != b[..k][0];
      }
    }
  }

  lemma {:induction false} TextBeforeTrichotomy(a: string, b: string)
    ensures TextBefore(a, b) ==> !TextBefore(b, a)
    ensures !TextBefore(a, b) && !TextBefore(b, a) ==> a == b
  {
    if a != "" && b != "" && a[0] == b[0] {
      TextBeforeTrichotomy(a[1..], b[1..]);
      assert a == [a[0]] + a[1..] && b == [b[0]] + b[1..];
    }
  }

  lemma {:induction false} TextBeforeTransitive(a: string, b: string, c: string)
    requires !TextBefore(b, a) && !TextBefore(c, b)
    ensures !TextBefore(c, a)
  {
    if a != "" && b != "" && c != "" && a[0] == b[0] == c[0] {
      TextBeforeTransitive(a[1..], b[1..], c[1..]);
    }
  }
}
