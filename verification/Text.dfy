/** The standard-library text helpers that the agent's parsers share. */
module Text {
  import opened Wrappers

  /** `char::is_whitespace`: the Unicode White_Space property. */
  predicate IsWhitespace(c: char) {
    var p := c as int;
    || 0x09 <= p <= 0x0D || p == 0x20 || p == 0x85 || p == 0xA0 || p == 0x1680
    || 0x2000 <= p <= 0x200A || p == 0x2028 || p == 0x2029 || p == 0x202F || p == 0x205F || p == 0x3000
  }

  predicate IsPrefix(prefix: string, s: string) {
    |prefix| <= |s| && s[..|prefix|] == prefix
  }

  /** `str::find`: the first place `needle` occurs; see FindIsFirst. */
  function Find(s: string, needle: string): (r: Option<nat>)
    ensures r.Some? ==> r.value + |needle| <= |s|
  {
    if IsPrefix(needle, s) then Some(0)
    else if s == "" then None
    else
      match Find(s[1..], needle)
      case None => None
      case Some(k) => Some(k + 1)
  }

  /** The first occurrence is at `k` when one is there and none starts before. */
  lemma {:induction false} FindIsFirst(s: string, needle: string, k: nat)
    requires k <= |s| && IsPrefix(needle, s[k..])
    requires forall j :: 0 <= j < k ==> !IsPrefix(needle, s[j..])
    ensures Find(s, needle) == Some(k)
  {
    if k == 0 {
      assert s[0..] == s;
    } else {
      assert s[0..] == s;
      assert s[k..] == s[1..][k - 1..];
      forall j | 0 <= j < k - 1 ensures !IsPrefix(needle, s[1..][j..]) {
        assert s[1..][j..] == s[j + 1..];
      }
      FindIsFirst(s[1..], needle, k - 1);
    }
  }

  lemma {:induction false} FindNothing(s: string, needle: string)
    requires forall j :: 0 <= j <= |s| ==> !IsPrefix(needle, s[j..])
    ensures Find(s, needle) == None
  {
    assert s[0..] == s;
    if s != "" {
      forall j | 0 <= j <= |s| - 1 ensures !IsPrefix(needle, s[1..][j..]) {
        assert s[1..][j..] == s[j + 1..];
      }
      FindNothing(s[1..], needle);
    }
  }

  /** Behind `before` the needle occurs for the first time, whatever follows it. */
  predicate IsFirst(needle: string, before: string) {
    forall j :: 0 <= j < |before| ==> !IsPrefix(needle, (before + needle)[j..])
  }

  lemma FindAfter(before: string, needle: string, after: string)
    requires IsFirst(needle, before)
    ensures Find(before + needle + after, needle) == Some(|before|)
  {
    var s := before + needle + after;
    assert s[|before|..] == needle + after;
    forall j | 0 <= j < |before| ensures !IsPrefix(needle, s[j..]) {
      StaysFirst(before, needle, after, j);
    }
    FindIsFirst(s, needle, |before|);
  }

  lemma StaysFirst(before: string, needle: string, after: string, j: nat)
    requires j < |before|
    ensures IsPrefix(needle, (before + needle + after)[j..]) <==> IsPrefix(needle, (before + needle)[j..])
  {
    assert (before + needle + after)[j..][..|needle|] == (before + needle)[j..][..|needle|];
  }

  lemma {:induction false} FoundIsFirst(s: string, needle: string)
    requires Find(s, needle).Some?
    ensures var k := Find(s, needle).value;
      IsPrefix(needle, s[k..]) && forall j :: 0 <= j < k ==> !IsPrefix(needle, s[j..])
  {
    assert s[0..] == s;
    if !IsPrefix(needle, s) {
      FoundIsFirst(s[1..], needle);
      var k := Find(s, needle).value;
      assert s[k..] == s[1..][k - 1..];
      forall j | 0 < j < k ensures !IsPrefix(needle, s[j..]) {
        assert s[j..] == s[1..][j - 1..];
      }
    }
  }

  lemma SplitAround(s: string, k: nat, n: nat)
    requires k + n <= |s|
    ensures s == s[..k] + s[k..][..n] + s[k..][n..]
  {}

  /** What is found splits the text around its first occurrence. */
  lemma FindSplits(s: string, needle: string) returns (before: string, after: string)
    requires Find(s, needle).Some?
    ensures s == before + needle + after && |before| == Find(s, needle).value && IsFirst(needle, before)
  {
    var k := Find(s, needle).value;
    FoundIsFirst(s, needle);
    before, after := s[..k], s[k..][|needle|..];
    SplitAround(s, k, |needle|);
    forall j | 0 <= j < |before| ensures !IsPrefix(needle, (before + needle)[j..]) {
      StaysFirst(before, needle, after, j);
    }
  }

  /** `chars().filter(|c| !c.is_whitespace()).collect()`. */
  function StripWhitespace(s: string): (r: string)
    ensures forall c :: c in r <==> c in s && !IsWhitespace(c)
  {
    if s == "" then ""
    else if IsWhitespace(s[0]) then StripWhitespace(s[1..])
    else [s[0]] + StripWhitespace(s[1..])
  }

  lemma {:induction false} StripConcat(a: string, b: string)
    ensures StripWhitespace(a + b) == StripWhitespace(a) + StripWhitespace(b)
  {
    if a == "" {
      assert a + b == b;
    } else {
      assert (a + b)[1..] == a[1..] + b;
      StripConcat(a[1..], b);
    }
  }

  lemma {:induction false} StripNone(s: string)
    requires forall c :: c in s ==> !IsWhitespace(c)
    ensures StripWhitespace(s) == s
  {
    if s != "" {
      StripNone(s[1..]);
      assert [s[0]] + s[1..] == s;
    }
  }

  function TrimStart(s: string): string {
    if s != "" && IsWhitespace(s[0]) then TrimStart(s[1..]) else s
  }

  function TrimEnd(s: string): string {
    if s != "" && IsWhitespace(s[|s| - 1]) then TrimEnd(s[..|s| - 1]) else s
  }

  /** `str::trim`. */
  function Trim(s: string): string {
    TrimEnd(TrimStart(s))
  }

  /** The 25 characters of the White_Space property. */
  lemma WhitespaceIs(c: char)
    ensures IsWhitespace(c) <==>
              c as int in {9, 10, 11, 12, 13, 32, 133, 160, 5760, 8192, 8193, 8194, 8195, 8196, 8197, 8198, 8199, 8200,
                           8201, 8202, 8232, 8233, 8239, 8287, 12288}
  {}

  predicate IsGap(s: string) {
    forall c :: c in s ==> IsWhitespace(c)
  }

  /** t is s without the whitespace at its two ends, and has none there itself. */
  ghost predicate IsTrimmed(s: string, t: string) {
    && (exists head, tail :: IsGap(head) && IsGap(tail) && s == head + t + tail)
    && (t != "" ==> !IsWhitespace(t[0]) && !IsWhitespace(t[|t| - 1]))
  }

  lemma {:induction false} TrimStartSplits(s: string) returns (head: string)
    ensures IsGap(head) && s == head + TrimStart(s)
    ensures TrimStart(s) != "" ==> !IsWhitespace(TrimStart(s)[0])
  {
    if s != "" && IsWhitespace(s[0]) {
      var rest := TrimStartSplits(s[1..]);
      head := [s[0]] + rest;
    } else {
      head := "";
    }
  }

  lemma {:induction false} TrimEndSplits(s: string) returns (tail: string)
    ensures IsGap(tail) && s == TrimEnd(s) + tail
    ensures TrimEnd(s) != "" ==> !IsWhitespace(TrimEnd(s)[|TrimEnd(s)| - 1])
  {
    if s != "" && IsWhitespace(s[|s| - 1]) {
      var rest := TrimEndSplits(s[..|s| - 1]);
      tail := rest + [s[|s| - 1]];
      assert s == s[..|s| - 1] + [s[|s| - 1]];
    } else {
      tail := "";
    }
  }

  /** What trimming leaves is what stands between the whitespace at the two ends. */
  lemma TrimIsTrimmed(s: string)
    ensures IsTrimmed(s, Trim(s))
  {
    var head := TrimStartSplits(s);
    var middle := TrimStart(s);
    var tail := TrimEndSplits(middle);
    assert s == head + Trim(s) + tail;
    if Trim(s) != "" {
      assert Trim(s)[0] == middle[0];
    }
  }

  lemma {:induction false} TrimStartDrops(head: string, rest: string)
    requires IsGap(head)
    ensures TrimStart(head + rest) == TrimStart(rest)
  {
    if head == "" {
      assert head + rest == rest;
    } else {
      assert (head + rest)[1..] == head[1..] + rest;
      TrimStartDrops(head[1..], rest);
    }
  }

  lemma {:induction false} TrimEndDrops(rest: string, tail: string)
    requires IsGap(tail)
    ensures TrimEnd(rest + tail) == TrimEnd(rest)
  {
    if tail == "" {
      assert rest + tail == rest;
    } else {
      assert (rest + tail)[..|rest + tail| - 1] == rest + tail[..|tail| - 1];
      TrimEndDrops(rest, tail[..|tail| - 1]);
    }
  }

  lemma TrimmedIsTrim(s: string, t: string)
    requires IsTrimmed(s, t)
    ensures t == Trim(s)
  {
    var head, tail :| IsGap(head) && IsGap(tail) && s == head + t + tail;
    assert s == head + (t + tail);
    TrimStartDrops(head, t + tail);
    if t == "" {
      assert t + tail == tail + "";
      TrimStartDrops(tail, "");
    } else {
      TrimEndDrops(t, tail);
    }
  }

  lemma LowerAsciiAt(s: string, k: nat)
    requires k < |s|
    ensures |LowerAscii(s)| == |s|
    ensures LowerAscii(s)[k] as int == if 65 <= s[k] as int <= 90 then s[k] as int + 32 else s[k] as int
  {
    if k > 0 {
      LowerAsciiAt(s[1..], k - 1);
    }
  }

  function LowerAscii(s: string): string {
    if s == "" then ""
    else [if 'A' <= s[0] <= 'Z' then (s[0] as int + 32) as char else s[0]] + LowerAscii(s[1..])
  }

  /** The texts of all elements, one after another: what pushing onto a `String` in a loop builds. */
  function Flat<T>(f: T -> string, s: seq<T>): string {
    if s == [] then "" else f(s[0]) + Flat(f, s[1..])
  }

  lemma {:induction false} FlatOfSnoc<T>(f: T -> string, s: seq<T>, x: T)
    ensures Flat(f, s + [x]) == Flat(f, s) + f(x)
  {
    if s == [] {
      assert [x][1..] == [];
    } else {
      assert (s + [x])[1..] == s[1..] + [x];
      FlatOfSnoc(f, s[1..], x);
    }
  }

  lemma FlatOfPrefix<T>(f: T -> string, s: seq<T>, k: nat)
    requires k < |s|
    ensures Flat(f, s[..k + 1]) == Flat(f, s[..k]) + f(s[k])
  {
    assert s[..k + 1] == s[..k] + [s[k]];
    FlatOfSnoc(f, s[..k], s[k]);
  }

  lemma Reassociate(a: string, b: string, c: string)
    ensures a + b + c == a + (b + c)
  {}

  /** A mark does not stand in a head without it. */
  lemma MarkIsOutside(s: string, i: nat, head: string, mark: char)
    requires i < |s| && s[i] == mark && head <= s && mark !in head
    ensures |head| <= i
  {
    forall k | 0 <= k < |head| ensures s[k] != mark {
      assert head[k] in head;
    }
  }
}
