/** The PEM files of `agent/src/tls.rs`: the printer, the reader, and that each undoes the other. */
module Pem {
  import opened Wrappers
  import opened Utf8
  import opened Text
  import Base64

  datatype PemError = NotUtf8 | NoBegin | NoEnd | BadBase64

  const LINE_WIDTH := 64

  function BeginMarker(kind: string): string { "-----BEGIN " + kind + "-----" }

  function EndMarker(kind: string): string { "-----END " + kind + "-----" }

  /** `chunks(64)`: full lines, and a last one of what is left. */
  function Lines(s: string): seq<string> {
    if s == "" then []
    else if |s| < LINE_WIDTH then [s]
    else [s[..LINE_WIDTH]] + Lines(s[LINE_WIDTH..])
  }

  function Joined(lines: seq<string>): string {
    if lines == [] then "" else lines[0] + Joined(lines[1..])
  }

  function Terminated(line: string): string { line + "\n" }

  function Unlines(lines: seq<string>): string { Flat(Terminated, lines) }

  /** The body lines are the text. */
  lemma {:induction false} LinesAreTheText(s: string)
    ensures Joined(Lines(s)) == s
  {
    if s != "" {
      var n := if |s| < LINE_WIDTH then |s| else LINE_WIDTH;
      FirstLine(s, n);
      LinesAreTheText(s[n..]);
      assert Lines(s)[1..] == Lines(s[n..]);
    }
  }

  /** Every body line but the last is exactly as wide as section 2 of RFC 7468 asks, and the last is
      not wider and not empty. */
  lemma {:induction false} LinesShape(s: string)
    ensures forall k :: 0 <= k < |Lines(s)| - 1 ==> |Lines(s)[k]| == 64
    ensures s != "" ==> Lines(s) != [] && 0 < |Lines(s)[|Lines(s)| - 1]| <= 64
  {
    if s != "" {
      var n := if |s| < LINE_WIDTH then |s| else LINE_WIDTH;
      FirstLine(s, n);
      LinesShape(s[n..]);
    }
  }

  lemma FirstLine(s: string, n: nat)
    requires 0 < n <= |s| && (n == LINE_WIDTH || (n == |s| && n < LINE_WIDTH))
    ensures Lines(s) == [s[..n]] + Lines(s[n..])
  {
    if n < LINE_WIDTH {
      assert s[..n] == s && s[n..] == "";
    }
  }

  /** One more chunk is one more line. */
  lemma {:induction false} LinesOfPrefix(s: string, k: nat, end: nat)
    requires k < end <= |s| && k % LINE_WIDTH == 0
    requires end == k + LINE_WIDTH || (end == |s| && end < k + LINE_WIDTH)
    ensures Lines(s[..end]) == Lines(s[..k]) + [s[k..end]]
  {
    if k == 0 {
      FirstLine(s[..end], end);
      assert s[..end][..end] == s[0..end] && s[..end][end..] == "" && s[..0] == "";
    } else {
      var head, tail := s[..LINE_WIDTH], s[LINE_WIDTH..];
      LinesOfPrefix(tail, k - LINE_WIDTH, end - LINE_WIDTH);
      FirstLine(s[..end], LINE_WIDTH);
      FirstLine(s[..k], LINE_WIDTH);
      assert s[..end][..LINE_WIDTH] == head && s[..end][LINE_WIDTH..] == tail[..end - LINE_WIDTH];
      assert s[..k][..LINE_WIDTH] == head && s[..k][LINE_WIDTH..] == tail[..k - LINE_WIDTH];
      assert s[k..end] == tail[k - LINE_WIDTH..end - LINE_WIDTH];
    }
  }

  lemma UnlinesOfPrefix(s: string, k: nat, end: nat)
    requires k < end <= |s| && k % LINE_WIDTH == 0
    requires end == k + LINE_WIDTH || (end == |s| && end < k + LINE_WIDTH)
    ensures Unlines(Lines(s[..end])) == Unlines(Lines(s[..k])) + Terminated(s[k..end])
  {
    LinesOfPrefix(s, k, end);
    FlatOfSnoc(Terminated, Lines(s[..k]), s[k..end]);
  }

  /** The printer's loop: one pushed line a chunk. */
  method PushLines(buffer: string, b64: string) returns (out: string)
    ensures out == buffer + Unlines(Lines(b64))
  {
    out := buffer;
    var k := 0;
    while k < |b64|
      invariant 0 <= k <= |b64|
      invariant k < |b64| ==> k % LINE_WIDTH == 0
      invariant out == buffer + Unlines(Lines(b64[..k]))
    {
      var end := if k + LINE_WIDTH <= |b64| then k + LINE_WIDTH else |b64|;
      UnlinesOfPrefix(b64, k, end);
      Reassociate(buffer, Unlines(Lines(b64[..k])), Terminated(b64[k..end]));
      Reassociate(out, b64[k..end], "\n");
      out := out + b64[k..end];
      out := out + "\n";
      k := end;
    }
    assert b64[..k] == b64;
  }

  /** What stands between the two markers in the file of `der`. */
  function Body(der: seq<byte>): string {
    "\n" + Unlines(Lines(Base64.Encode(der)))
  }

  function PemText(kind: string, der: seq<byte>): string {
    BeginMarker(kind) + Body(der) + EndMarker(kind) + "\n"
  }

  /** The file of `der`: the two markers on lines of their own, and between them the base64 of `der` in
      lines of 64 characters, the last one of what is left. */
  ghost predicate IsPemOf(text: string, kind: string, der: seq<byte>) {
    exists lines: seq<string> ::
      && Base64.IsBase64(Joined(lines), der)
      && (forall k :: 0 <= k < |lines| ==> 0 < |lines[k]| <= 64 && (k < |lines| - 1 ==> |lines[k]| == 64))
      && text == "-----BEGIN " + kind + "-----\n" + WithBreaks(lines) + "-----END " + kind + "-----\n"
  }

  function WithBreaks(lines: seq<string>): string {
    if lines == [] then "" else lines[0] + "\n" + WithBreaks(lines[1..])
  }

  lemma {:induction false} BreaksAreUnlines(lines: seq<string>)
    ensures WithBreaks(lines) == Unlines(lines)
  {
    if lines != [] {
      BreaksAreUnlines(lines[1..]);
    }
  }

  lemma PemTextIsPem(kind: string, der: seq<byte>)
    ensures IsPemOf(PemText(kind, der), kind, der)
  {
    var b64 := Base64.Encode(der);
    var lines := Lines(b64);
    Base64.EncodeIsBase64(der);
    LinesAreTheText(b64);
    LinesShape(b64);
    BreaksAreUnlines(lines);
    assert PemText(kind, der)
        == "-----BEGIN " + kind + "-----\n" + WithBreaks(lines) + "-----END " + kind + "-----\n";
  }

  lemma PemBegins(kind: string, der: seq<byte>)
    ensures "-----BEGIN " + kind + "-----\n" <= PemText(kind, der)
  {
    var head := "-----BEGIN " + kind + "-----\n";
    assert PemText(kind, der)[..|head|] == head;
  }

  method ToPem(kind: string, der: seq<byte>) returns (out: string)
    ensures out == PemText(kind, der)
    ensures IsPemOf(out, kind, der)
  {
    PemTextIsPem(kind, der);
    var b64 := Base64.Encode(der);
    out := BeginMarker(kind);
    out := PushLines(out + "\n", b64);
    assert out == BeginMarker(kind) + Body(der);
    out := out + EndMarker(kind) + "\n";
  }

  /** The reader: what stands between the first BEGIN marker and the first END marker after it,
      without its whitespace, decoded. */
  function FromPem(kind: string, pem: string): Result<seq<byte>, PemError> {
    match Find(pem, BeginMarker(kind))
    case None => Err(NoBegin)
    case Some(at) =>
      var rest := pem[at..][|BeginMarker(kind)|..];
      match Find(rest, EndMarker(kind))
      case None => Err(NoEnd)
      case Some(end) =>
        match Base64.Decode(StripWhitespace(rest[..end]))
        case None => Err(BadBase64)
        case Some(der) => Ok(der)
  }

  function DecodePemFile(kind: string, bytes: seq<byte>): Result<seq<byte>, PemError> {
    match Utf8.Decode(bytes)
    case None => Err(NotUtf8)
    case Some(text) => FromPem(kind, text)
  }

  /** The parts of a file that the reader goes by: the first BEGIN marker, the first END marker after
      it, and the body between them. */
  predicate HasParts(kind: string, pem: string, before: string, body: string, after: string) {
    && pem == before + ("-----BEGIN " + kind + "-----") + (body + ("-----END " + kind + "-----") + after)
    && IsFirst("-----BEGIN " + kind + "-----", before) && IsFirst("-----END " + kind + "-----", body)
  }

  lemma PartsAreRead(kind: string, pem: string, before: string, body: string, after: string)
    requires HasParts(kind, pem, before, body, after)
    ensures var der := Base64.Decode(StripWhitespace(body));
      FromPem(kind, pem) == if der.Some? then Ok(der.value) else Err(BadBase64)
  {
    var begin, end := BeginMarker(kind), EndMarker(kind);
    var rest := body + end + after;
    FindAfter(before, begin, rest);
    DropTwo(before, begin, rest);
    FindAfter(body, end, after);
    assert rest[..|body|] == body;
  }

  /** A file with both markers, whatever stands before, between and after them, reads as `der` exactly
      when its body, however it is wrapped, is the base64 of `der`. */
  lemma ReadsItsBody(kind: string, pem: string, before: string, body: string, after: string, der: seq<byte>)
    requires HasParts(kind, pem, before, body, after)
    ensures FromPem(kind, pem) == Ok(der) <==> StripWhitespace(body) == Base64.Encode(der)
    ensures FromPem(kind, pem) == Ok(der) <==> Base64.IsBase64(StripWhitespace(body), der)
  {
    PartsAreRead(kind, pem, before, body, after);
    Base64.DecodeIsExact(StripWhitespace(body), der);
  }

  lemma DropTwo(a: string, b: string, c: string)
    ensures (a + b + c)[|a|..][|b|..] == c
  {}

  lemma ReadHasParts(kind: string, pem: string) returns (before: string, body: string, after: string)
    requires FromPem(kind, pem).Ok?
    ensures HasParts(kind, pem, before, body, after)
  {
    var rest;
    before, rest := FindSplits(pem, BeginMarker(kind));
    DropTwo(before, BeginMarker(kind), rest);
    body, after := FindSplits(rest, EndMarker(kind));
  }

  /** The reader, on every text: it yields `der` exactly when the text has both markers and the base64
      of `der`, in whatever wrapping, between them. */
  lemma ReaderIsExact(kind: string, pem: string, der: seq<byte>)
    ensures FromPem(kind, pem) == Ok(der)
       <==> exists before, body, after :: HasParts(kind, pem, before, body, after)
                                          && Base64.IsBase64(StripWhitespace(body), der)
  {
    if FromPem(kind, pem) == Ok(der) {
      var before, body, after := ReadHasParts(kind, pem);
      ReadsItsBody(kind, pem, before, body, after, der);
    }
    forall before, body, after
      | HasParts(kind, pem, before, body, after) && Base64.IsBase64(StripWhitespace(body), der)
      ensures FromPem(kind, pem) == Ok(der)
    {
      ReadsItsBody(kind, pem, before, body, after, der);
    }
  }

  /** A body without '-' cannot hide an END marker. */
  lemma NoDashNoMarker(kind: string, body: string)
    requires '-' !in body
    ensures IsFirst(EndMarker(kind), body)
  {
    forall j | 0 <= j < |body| ensures !IsPrefix(EndMarker(kind), (body + EndMarker(kind))[j..]) {
      assert (body + EndMarker(kind))[j..][0] == body[j] && EndMarker(kind)[0] == '-';
    }
  }

  predicate IsPlain(s: string) {
    forall c :: c in s ==> !IsWhitespace(c) && c != '-'
  }

  lemma {:induction false} StripLines(s: string)
    requires IsPlain(s)
    ensures StripWhitespace(Unlines(Lines(s))) == s
    ensures '-' !in Unlines(Lines(s))
  {
    if s != "" {
      var n := if |s| < LINE_WIDTH then |s| else LINE_WIDTH;
      var head, tail := s[..n], s[n..];
      assert s == head + tail;
      assert IsPlain(head) && IsPlain(tail);
      FirstLine(s, n);
      assert ([head] + Lines(tail))[1..] == Lines(tail);
      assert Unlines(Lines(s)) == Terminated(head) + Unlines(Lines(tail));
      StripLines(tail);
      StripConcat(Terminated(head), Unlines(Lines(tail)));
      StripTerminated(head);
    }
  }

  lemma StripTerminated(line: string)
    requires IsPlain(line)
    ensures StripWhitespace(Terminated(line)) == line && '-' !in Terminated(line)
  {
    StripConcat(line, "\n");
    StripNone(line);
    assert StripWhitespace("\n") == "";
  }

  lemma BodyOfDer(der: seq<byte>)
    ensures '-' !in Body(der)
    ensures StripWhitespace(Body(der)) == Base64.Encode(der)
  {
    var b64 := Base64.Encode(der);
    assert IsPlain(b64) by {
      Base64.SpellAlphabet(Base64.Split(der));
    }
    StripLines(b64);
    StripConcat("\n", Unlines(Lines(b64)));
    assert StripWhitespace("\n") == "";
  }

  lemma TextHasParts(kind: string, der: seq<byte>)
    requires IsFirst(EndMarker(kind), Body(der))
    ensures HasParts(kind, PemText(kind, der), "", Body(der), "\n")
  {
    Regroup(BeginMarker(kind), Body(der), EndMarker(kind), "\n");
  }

  lemma Regroup(a: string, b: string, c: string, d: string)
    ensures a + b + c + d == "" + a + (b + c + d)
  {}

  /** The round trip: every byte sequence, under every label. */
  lemma PemRoundTrip(kind: string, der: seq<byte>)
    ensures FromPem(kind, PemText(kind, der)) == Ok(der)
    ensures DecodePemFile(kind, Utf8.Encode(PemText(kind, der))) == Ok(der)
  {
    BodyOfDer(der);
    NoDashNoMarker(kind, Body(der));
    TextHasParts(kind, der);
    ReadsItsBody(kind, PemText(kind, der), "", Body(der), "\n", der);
    Utf8.DecodeOfEncode(PemText(kind, der));
  }

  /** A file cut anywhere before its END marker is complete is refused: that is how a crash
      during the write leaves it. Only the closing newline can be missing. */
  lemma TruncatedIsRefused(kind: string, der: seq<byte>, k: nat)
    requires k < |PemText(kind, der)| - 1
    ensures FromPem(kind, PemText(kind, der)[..k]).Err?
  {
    BodyOfDer(der);
    var begin, text := BeginMarker(kind), PemText(kind, der);
    if |begin| <= k {
      var rest := (Body(der) + EndMarker(kind) + "\n")[..k - |begin|];
      Regroup(begin, Body(der), EndMarker(kind), "\n");
      CutBehind(begin, Body(der) + EndMarker(kind) + "\n", k);
      NothingToRead(kind, rest, text[..k]);
      NoEndYet(Body(der), EndMarker(kind), k - |begin|);
    } else {
      FindNothing(text[..k], begin);
    }
  }

  lemma CutBehind(a: string, b: string, k: nat)
    requires |a| <= k <= |a| + |b|
    ensures ("" + a + b)[..k] == "" + a + b[..k - |a|]
  {}

  lemma NothingToRead(kind: string, rest: string, pem: string)
    requires pem == "" + BeginMarker(kind) + rest
    ensures Find(rest, EndMarker(kind)) == None ==> FromPem(kind, pem) == Err(NoEnd)
  {
    FindAfter("", BeginMarker(kind), rest);
    DropTwo("", BeginMarker(kind), rest);
  }

  lemma NoEndYet(body: string, end: string, n: nat)
    requires '-' !in body && end != "" && end[0] == '-' && n < |body| + |end|
    ensures Find((body + end + "\n")[..n], end) == None
  {
    var rest := (body + end + "\n")[..n];
    forall j | 0 <= j <= |rest| ensures !IsPrefix(end, rest[j..]) {
      if j < |body| && j < |rest| {
        assert rest[j..][0] == body[j];
      }
    }
    FindNothing(rest, end);
  }
}
