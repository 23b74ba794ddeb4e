/** The two listing parsers of `agent/src/containers.rs`. */
module Containers {
  import opened Wrappers
  import opened Text

  datatype Container = Container(name: string, statusText: string, isRunning: bool, runtime: string,
                                 image: Option<string>)

  type LineParser = string -> Option<Container>

  // ------------------------------------------------------------------ lines

  function LineEnd(s: string): (n: nat)
    ensures n <= |s|
  {
    if s == "" || s[0] == '\n' then 0 else LineEnd(s[1..]) + 1
  }

  /** A line break takes a carriage return before it along. */
  function WithoutReturn(line: string): string {
    if line != "" && line[|line| - 1] == '\r' then line[..|line| - 1] else line
  }

  /** `str::lines`. */
  function Lines(s: string): seq<string> {
    if s == "" then []
    else
      var n := LineEnd(s);
      if n == |s| then [s] else [WithoutReturn(s[..n])] + Lines(s[n + 1..])
  }

  function IsBlank(line: string): bool { Trim(line) == "" }

  /** `filter` for the blank lines, `filter_map` for the rest. */
  function Parsed(lines: seq<string>, parse: LineParser): seq<Container> {
    if lines == [] then []
    else
      var first := if IsBlank(lines[0]) then None else parse(lines[0]);
      (if first.Some? then [first.value] else []) + Parsed(lines[1..], parse)
  }

  // ------------------------------------------------------------------ docker and podman

  /** The text before the first bar, and what follows it if there is one. */
  function CutAtBar(s: string): (r: (string, Option<string>))
    ensures '|' !in r.0
    ensures s == r.0 + if r.1.Some? then "|" + r.1.value else ""
  {
    if s == "" then ("", None)
    else if s[0] == '|' then ("", Some(s[1..]))
    else
      var (head, tail) := CutAtBar(s[1..]);
      ([s[0]] + head, tail)
  }

  function ParsePsLine(runtime: string): LineParser {
    (line: string) =>
      var (nameText, afterName) := CutAtBar(line);
      var (statusText, afterStatus) := if afterName.Some? then CutAtBar(afterName.value) else ("", None);
      var name, status := Trim(nameText), Trim(statusText);
      var image := Trim(if afterStatus.Some? then afterStatus.value else "");
      if name == "" then None
      else Some(Container(name, status, "Up" <= status, runtime, if image == "" then None else Some(image)))
  }

  function ParsePsOutput(stdout: string, runtime: string): seq<Container> {
    Parsed(Lines(stdout), ParsePsLine(runtime))
  }

  // ------------------------------------------------------------------ tart

  /** `split_whitespace`, with the word read so far. */
  function Words(s: string, word: string): seq<string> {
    if s == "" then if word == "" then [] else [word]
    else if IsWhitespace(s[0]) then (if word == "" then [] else [word]) + Words(s[1..], "")
    else Words(s[1..], word + [s[0]])
  }

  function ParseTartLine(): LineParser {
    (line: string) => FromColumns(Words(line, ""))
  }

  function FromColumns(columns: seq<string>): Option<Container> {
    if |columns| < 3 then None
    else
      var name, state := columns[1], columns[|columns| - 1];
      if LowerAscii(name) == "name" || LowerAscii(state) == "state" then None
      else Some(Container(name, state, LowerAscii(state) == "running", "tart", None))
  }

  function ParseTartOutput(stdout: string): seq<Container> {
    Parsed(Lines(stdout), ParseTartLine())
  }

  // ------------------------------------------------------------------ line-wise laws, for any parser

  predicate EndsLine(s: string) {
    s == "" || s[|s| - 1] == '\n'
  }

  lemma {:induction false} LineEndIs(s: string, n: nat)
    requires n <= |s| && '\n' !in s[..n] && (n < |s| ==> s[n] == '\n')
    ensures LineEnd(s) == n
  {
    if n > 0 {
      assert s[0] in s[..n] && forall c :: c in s[1..][..n - 1] ==> c in s[..n];
      LineEndIs(s[1..], n - 1);
    }
  }

  lemma {:induction false} LineEndsInside(a: string)
    requires EndsLine(a) && a != ""
    ensures LineEnd(a) < |a| && a[LineEnd(a)] == '\n' && '\n' !in a[..LineEnd(a)]
  {
    if a[0] != '\n' {
      LineEndsInside(a[1..]);
      assert a[..LineEnd(a)] == [a[0]] + a[1..][..LineEnd(a[1..])];
    }
  }

  lemma FirstLineOfConcat(a: string, b: string)
    requires EndsLine(a) && a != ""
    ensures var n := LineEnd(a);
      && n < |a| && LineEnd(a + b) == n && (a + b)[..n] == a[..n]
      && (a + b)[n + 1..] == a[n + 1..] + b && EndsLine(a[n + 1..])
  {
    var n := LineEnd(a);
    LineEndsInside(a);
    assert (a + b)[..n] == a[..n];
    LineEndIs(a + b, n);
  }

  lemma FirstOfLines(s: string)
    requires LineEnd(s) < |s|
    ensures Lines(s) == [WithoutReturn(s[..LineEnd(s)])] + Lines(s[LineEnd(s) + 1..])
  {}

  lemma LinesOfSum(a: string, b: string)
    requires EndsLine(a) && a != ""
    ensures LineEnd(a) < |a|
    ensures Lines(a + b) == [WithoutReturn(a[..LineEnd(a)])] + Lines(a[LineEnd(a) + 1..] + b)
  {
    FirstLineOfConcat(a, b);
    FirstOfLines(a + b);
  }

  lemma AppendFirst<T>(x: T, s: seq<T>, t: seq<T>)
    ensures [x] + (s + t) == [x] + s + t
  {}

  lemma {:induction false} LinesOfConcat(a: string, b: string)
    requires EndsLine(a)
    ensures Lines(a + b) == Lines(a) + Lines(b)
    decreases |a|
  {
    if a == "" {
      assert a + b == b;
    } else {
      FirstLineOfConcat(a, b);
      var first, rest := WithoutReturn(a[..LineEnd(a)]), a[LineEnd(a) + 1..];
      LinesOfSum(a, b);
      FirstOfLines(a);
      LinesOfConcat(rest, b);
      AppendFirst(first, Lines(rest), Lines(b));
    }
  }

  lemma {:induction false} ParsedOfConcat(a: seq<string>, b: seq<string>, parse: LineParser)
    ensures Parsed(a + b, parse) == Parsed(a, parse) + Parsed(b, parse)
  {
    if a == [] {
      assert a + b == b;
    } else {
      assert (a + b)[1..] == a[1..] + b;
      ParsedOfConcat(a[1..], b, parse);
    }
  }

  /** Parsing distributes over concatenation at a line break. */
  lemma ListingOfConcat(a: string, b: string, parse: LineParser)
    requires EndsLine(a)
    ensures Parsed(Lines(a + b), parse) == Parsed(Lines(a), parse) + Parsed(Lines(b), parse)
  {
    LinesOfConcat(a, b);
    ParsedOfConcat(Lines(a), Lines(b), parse);
  }

  /** So both listings can be read piece by piece. */
  lemma OutputsOfConcat(a: string, b: string, runtime: string)
    requires EndsLine(a)
    ensures ParsePsOutput(a + b, runtime) == ParsePsOutput(a, runtime) + ParsePsOutput(b, runtime)
    ensures ParseTartOutput(a + b) == ParseTartOutput(a) + ParseTartOutput(b)
  {
    ListingOfConcat(a, b, ParsePsLine(runtime));
    ListingOfConcat(a, b, ParseTartLine());
  }

  lemma OneLine(line: string)
    requires '\n' !in line
    ensures Lines(line + "\n") == [WithoutReturn(line)]
  {
    var s := line + "\n";
    assert s[..|line|] == line && s[|line| + 1..] == "";
    LineEndIs(s, |line|);
  }

  lemma BlankLineIsNothing(blank: string, b: string, parse: LineParser)
    requires '\n' !in blank && IsBlank(WithoutReturn(blank))
    ensures Parsed(Lines(blank + "\n" + b), parse) == Parsed(Lines(b), parse)
  {
    var line := WithoutReturn(blank);
    OneLine(blank);
    assert Parsed([line], parse) == Parsed([line][1..], parse);
    ListingOfConcat(blank + "\n", b, parse);
  }

  /** A blank line inserted between two lines changes nothing. */
  lemma BlankLinesDoNotCount(a: string, blank: string, b: string, parse: LineParser)
    requires EndsLine(a) && '\n' !in blank && IsBlank(WithoutReturn(blank))
    ensures Parsed(Lines(a + (blank + "\n" + b)), parse) == Parsed(Lines(a + b), parse)
  {
    ListingOfConcat(a, blank + "\n" + b, parse);
    ListingOfConcat(a, b, parse);
    BlankLineIsNothing(blank, b, parse);
  }

  // ------------------------------------------------------------------ the round trips

  /** A text is split at its line breaks; a carriage return before one goes with it, and a break at the end
      opens no further line. */
  lemma LinesOfText(line: string, rest: string)
    requires '\n' !in line
    ensures Lines("") == []
    ensures line != "" ==> Lines(line) == [line]
    ensures Lines(line + "\r\n" + rest) == [line] + Lines(rest)
    ensures line == "" || line[|line| - 1] != '\r' ==> Lines(line + "\n" + rest) == [line] + Lines(rest)
  {
    LineEndIs(line, |line|);
    BreakIsRead(line, rest);
    ReturnGoesWithTheBreak(line, rest);
  }

  lemma ReturnGoesWithTheBreak(line: string, rest: string)
    requires '\n' !in line
    ensures Lines(line + "\r\n" + rest) == [line] + Lines(rest)
  {
    assert '\n' !in line + "\r" && (line + "\r")[..|line|] == line;
    BreakIsRead(line + "\r", rest);
    assert line + "\r" + "\n" + rest == line + "\r\n" + rest;
  }

  lemma BreakIsRead(line: string, rest: string)
    requires '\n' !in line
    ensures Lines(line + "\n" + rest) == [WithoutReturn(line)] + Lines(rest)
  {
    var s := line + "\n" + rest;
    assert s[..|line|] == line && s[|line|] == '\n' && s[|line| + 1..] == rest;
    LineEndIs(s, |line|);
  }

  /** A line of the listing, whatever it looks like: up to its first bar the name, up to the next the
      status, and all after that the image, each without the whitespace around it; one without a name is
      no container. */
  lemma PsLine(name: string, status: string, image: string, n: string, t: string, i: string, runtime: string)
    requires '|' !in name && '|' !in status
    requires IsTrimmed(name, n) && IsTrimmed(status, t) && IsTrimmed(image, i)
    ensures ParsePsLine(runtime)(name + "|" + (status + "|" + image))
         == if n == "" then None
            else Some(Container(n, t, "Up" <= t, runtime, if i == "" then None else Some(i)))
    ensures ParsePsLine(runtime)(name + "|" + status)
         == if n == "" then None else Some(Container(n, t, "Up" <= t, runtime, None))
    ensures ParsePsLine(runtime)(name) == if n == "" then None else Some(Container(n, "", false, runtime, None))
  {
    TrimmedIsTrim(name, n);
    TrimmedIsTrim(status, t);
    TrimmedIsTrim(image, i);
    ThreeFields(name, status, image, runtime);
    TwoFields(name, status, runtime);
    OneField(name, runtime);
  }

  lemma ThreeFields(name: string, status: string, image: string, runtime: string)
    requires '|' !in name && '|' !in status
    ensures var n, t, i := Trim(name), Trim(status), Trim(image);
      ParsePsLine(runtime)(name + "|" + (status + "|" + image))
        == if n == "" then None
           else Some(Container(n, t, "Up" <= t, runtime, if i == "" then None else Some(i)))
  {
    FieldsAreCut(name, status, image);
  }

  lemma TwoFields(name: string, status: string, runtime: string)
    requires '|' !in name && '|' !in status
    ensures var n, t := Trim(name), Trim(status);
      ParsePsLine(runtime)(name + "|" + status)
        == if n == "" then None else Some(Container(n, t, "Up" <= t, runtime, None))
  {
    CutAtFirstBar(name, status);
    NothingToCut(status);
    assert Trim("") == "";
  }

  lemma OneField(name: string, runtime: string)
    requires '|' !in name
    ensures ParsePsLine(runtime)(name)
         == if Trim(name) == "" then None else Some(Container(Trim(name), "", false, runtime, None))
  {
    NothingToCut(name);
    assert Trim("") == "";
  }

  lemma {:induction false} NothingToCut(s: string)
    requires '|' !in s
    ensures CutAtBar(s) == (s, None)
  {
    if s != "" {
      NothingToCut(s[1..]);
      assert [s[0]] + s[1..] == s;
    }
  }

  predicate IsField(s: string) {
    Trim(s) == s && '\n' !in s
  }

  /** What `{{.Names}}|{{.Status}}|{{.Image}}` can print and be read back: bars may stand in the
      image only. */
  predicate IsListable(c: Container, runtime: string) {
    && IsField(c.name) && c.name != "" && '|' !in c.name
    && IsField(c.statusText) && '|' !in c.statusText
    && (c.image.Some? ==> IsField(c.image.value) && c.image.value != "")
    && c.isRunning == ("Up" <= c.statusText) && c.runtime == runtime
  }

  function Fields(name: string, status: string, image: string): string {
    name + "|" + (status + "|" + image)
  }

  function PrintedLine(c: Container): string {
    Fields(c.name, c.statusText, if c.image.Some? then c.image.value else "")
  }

  function Printed(cs: seq<Container>): string {
    if cs == [] then "" else PrintedLine(cs[0]) + "\n" + Printed(cs[1..])
  }

  lemma {:induction false} CutAtFirstBar(head: string, tail: string)
    requires '|' !in head
    ensures CutAtBar(head + "|" + tail) == (head, Some(tail))
  {
    var s := head + "|" + tail;
    if head == "" {
      assert s[1..] == tail;
    } else {
      assert s[1..] == head[1..] + "|" + tail;
      CutAtFirstBar(head[1..], tail);
      assert [head[0]] + head[1..] == head;
    }
  }

  lemma TrimmedEnds(s: string)
    requires Trim(s) == s && s != ""
    ensures !IsWhitespace(s[0]) && !IsWhitespace(s[|s| - 1])
  {
    TrimsAreShorter(s);
    if IsWhitespace(s[0]) {
      TrimsAreShorter(s[1..]);
      TrimsAreShorter(TrimStart(s[1..]));
    } else if IsWhitespace(s[|s| - 1]) {
      TrimsAreShorter(s[..|s| - 1]);
    }
  }

  lemma {:induction s} TrimsAreShorter(s: string)
    ensures |TrimStart(s)| <= |s| && |TrimEnd(s)| <= |s|
  {}

  lemma {:induction false} TrimStartMeetsText(s: string, k: nat)
    requires k < |s| && !IsWhitespace(s[k])
    ensures TrimStart(s) != ""
  {
    if IsWhitespace(s[0]) {
      TrimStartMeetsText(s[1..], k - 1);
    }
  }

  lemma {:induction false} TrimEndMeetsText(s: string)
    requires s != "" && !IsWhitespace(s[0])
    ensures TrimEnd(s) != ""
  {
    if IsWhitespace(s[|s| - 1]) {
      TrimEndMeetsText(s[..|s| - 1]);
    }
  }

  lemma {:induction false} TrimStartStops(s: string)
    ensures TrimStart(s) == "" || !IsWhitespace(TrimStart(s)[0])
  {
    if s != "" && IsWhitespace(s[0]) {
      TrimStartStops(s[1..]);
    }
  }

  lemma NotBlank(s: string, k: nat)
    requires k < |s| && !IsWhitespace(s[k])
    ensures !IsBlank(s)
  {
    TrimStartMeetsText(s, k);
    TrimStartStops(s);
    TrimEndMeetsText(TrimStart(s));
  }

  lemma FieldsAreCut(name: string, status: string, image: string)
    requires '|' !in name && '|' !in status
    ensures CutAtBar(Fields(name, status, image)) == (name, Some(status + "|" + image))
    ensures CutAtBar(status + "|" + image) == (status, Some(image))
  {
    CutAtFirstBar(name, status + "|" + image);
    CutAtFirstBar(status, image);
  }

  lemma FieldsEnd(name: string, status: string, image: string)
    requires IsField(image)
    ensures var line := Fields(name, status, image); line != "" && line[|line| - 1] != '\r'
  {
    var line, tail := Fields(name, status, image), status + "|" + image;
    assert line[|line| - 1] == tail[|tail| - 1];
    if image != "" {
      TrimmedEnds(image);
      assert tail[|tail| - 1] == image[|image| - 1];
    } else {
      assert tail[|tail| - 1] == '|';
    }
  }

  lemma FieldsAreOneLine(name: string, status: string, image: string)
    requires IsField(name) && name != "" && IsField(status) && IsField(image)
    ensures var line := Fields(name, status, image);
      !IsBlank(line) && WithoutReturn(line) == line && '\n' !in line
  {
    var line := Fields(name, status, image);
    TrimmedEnds(name);
    assert line[0] == name[0];
    NotBlank(line, 0);
    FieldsEnd(name, status, image);
  }

  lemma FieldsAreRead(name: string, status: string, image: string, runtime: string)
    requires '|' !in name && '|' !in status
    requires Trim(name) == name != "" && Trim(status) == status && Trim(image) == image
    ensures ParsePsLine(runtime)(Fields(name, status, image))
         == Some(Container(name, status, "Up" <= status, runtime, if image == "" then None else Some(image)))
  {
    FieldsAreCut(name, status, image);
  }

  lemma OneContainer(c: Container, runtime: string)
    requires IsListable(c, runtime)
    ensures ParsePsLine(runtime)(PrintedLine(c)) == Some(c)
    ensures !IsBlank(PrintedLine(c)) && WithoutReturn(PrintedLine(c)) == PrintedLine(c) && '\n' !in PrintedLine(c)
  {
    var image := if c.image.Some? then c.image.value else "";
    assert Trim("") == "";
    FieldsAreRead(c.name, c.statusText, image, runtime);
    FieldsAreOneLine(c.name, c.statusText, image);
  }

  lemma ParsedOne(line: string, parse: LineParser, c: Container)
    requires !IsBlank(line) && parse(line) == Some(c)
    ensures Parsed([line], parse) == [c]
  {
    assert Parsed([line], parse) == [c] + Parsed([line][1..], parse);
  }

  lemma FirstContainer(c: Container, runtime: string)
    requires IsListable(c, runtime)
    ensures Parsed(Lines(PrintedLine(c) + "\n"), ParsePsLine(runtime)) == [c]
  {
    OneContainer(c, runtime);
    OneLine(PrintedLine(c));
    ParsedOne(PrintedLine(c), ParsePsLine(runtime), c);
  }

  lemma FirstListed(line: string, rest: string, parse: LineParser, c: Container, cs: seq<Container>)
    requires Parsed(Lines(line + "\n"), parse) == [c] && Parsed(Lines(rest), parse) == cs
    ensures Parsed(Lines(line + "\n" + rest), parse) == [c] + cs
  {
    ListingOfConcat(line + "\n", rest, parse);
  }

  lemma {:induction false} AllListed(cs: seq<Container>, parse: LineParser)
    requires forall c :: c in cs ==> Parsed(Lines(PrintedLine(c) + "\n"), parse) == [c]
    ensures Parsed(Lines(Printed(cs)), parse) == cs
  {
    if cs != [] {
      AllListed(cs[1..], parse);
      FirstListed(PrintedLine(cs[0]), Printed(cs[1..]), parse, cs[0], cs[1..]);
      assert [cs[0]] + cs[1..] == cs;
    }
  }

  /** Every listable list of containers comes back as it was printed, in order. */
  lemma ListingRoundTrip(cs: seq<Container>, runtime: string)
    requires forall c :: c in cs ==> IsListable(c, runtime)
    ensures ParsePsOutput(Printed(cs), runtime) == cs
  {
    forall c | c in cs ensures Parsed(Lines(PrintedLine(c) + "\n"), ParsePsLine(runtime)) == [c] {
      FirstContainer(c, runtime);
    }
    AllListed(cs, ParsePsLine(runtime));
  }

  predicate IsWord(w: string) {
    w != "" && forall c :: c in w ==> !IsWhitespace(c)
  }

  /** Words with gaps behind them; only the last gap may be empty. */
  predicate IsRow(words: seq<string>, gaps: seq<string>) {
    && |words| == |gaps|
    && (forall w :: w in words ==> IsWord(w))
    && (forall g :: g in gaps ==> IsGap(g))
    && (forall k :: 0 <= k < |gaps| - 1 ==> gaps[k] != "")
  }

  function Spaced(words: seq<string>, gaps: seq<string>): string
    requires |words| == |gaps|
  {
    if words == [] then "" else words[0] + (gaps[0] + Spaced(words[1..], gaps[1..]))
  }

  lemma {:induction false} WordIsRead(w: string, rest: string, before: string)
    requires forall c :: c in w ==> !IsWhitespace(c)
    ensures Words(w + rest, before) == Words(rest, before + w)
  {
    if w == "" {
      assert w + rest == rest && before + w == before;
    } else {
      assert (w + rest)[1..] == w[1..] + rest;
      WordIsRead(w[1..], rest, before + [w[0]]);
      assert before + [w[0]] + w[1..] == before + w;
    }
  }

  lemma {:induction false} GapIsRead(gap: string, rest: string, word: string)
    requires IsGap(gap) && (gap != "" || rest == "" || word == "")
    ensures Words(gap + rest, word) == (if word == "" then [] else [word]) + Words(rest, "")
  {
    if gap == "" {
      assert gap + rest == rest;
    } else {
      assert (gap + rest)[1..] == gap[1..] + rest;
      GapIsRead(gap[1..], rest, "");
    }
  }

  /** The columns of a table row, however many stand between the name and the state, and whatever
      whitespace between them. */
  lemma {:induction false} ColumnsOfRow(words: seq<string>, gaps: seq<string>)
    requires IsRow(words, gaps)
    ensures Words(Spaced(words, gaps), "") == words
  {
    if words != [] {
      var rest := Spaced(words[1..], gaps[1..]);
      assert IsWord(words[0]) && IsGap(gaps[0]);
      assert gaps[1..] == [] ==> rest == "";
      WordIsRead(words[0], gaps[0] + rest, "");
      assert "" + words[0] == words[0];
      GapIsRead(gaps[0], rest, words[0]);
      ColumnsOfRow(words[1..], gaps[1..]);
      assert [words[0]] + words[1..] == words;
    }
  }

  /** A row names a VM by its second column and its last, unless it is too short or the header. */
  lemma TartRow(words: seq<string>, gaps: seq<string>)
    requires IsRow(words, gaps)
    ensures var vm := ParseTartLine()(Spaced(words, gaps));
      && (vm == None <==> |words| < 3 || LowerAscii(words[1]) == "name" || LowerAscii(words[|words| - 1]) == "state")
      && (vm != None ==> vm == Some(Container(words[1], words[|words| - 1],
            LowerAscii(words[|words| - 1]) == "running", "tart", None)))
  {
    ColumnsOfRow(words, gaps);
  }
}
