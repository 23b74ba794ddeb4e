/** The trust set's code generator (`agent/build.rs`, `crates/agentrelease/build.rs`): what it
    prints, read back by the string-literal rules of the Rust Reference. */
module RustLiteral {
  import opened Wrappers
  import opened Text

  // ------------------------------------------------------------------ printing

  /** `char::is_control`: the Unicode category Cc. */
  predicate IsControl(c: char) {
    c as int < 0x20 || 0x7F <= c as int <= 0x9F
  }

  function HexDigit(n: int): char
    requires 0 <= n < 16
  {
    if n < 10 then (n + 48) as char else (n + 87) as char
  }

  /** `{:x}`. */
  function Hex(n: nat): string {
    if n < 16 then [HexDigit(n)] else Hex(n / 16) + [HexDigit(n % 16)]
  }

  function Escape(c: char): string {
    if c == '"' then "\\\""
    else if c == '\\' then "\\\\"
    else if c == '\n' then "\\n"
    else if c == '\r' then "\\r"
    else if c == '\t' then "\\t"
    else if IsControl(c) then "\\u{" + Hex(c as int) + "}"
    else [c]
  }

  function Escaped(text: string): string { Flat(Escape, text) }

  function Literal(text: string): string { "\"" + Escaped(text) + "\"" }

  method RustStringLiteral(text: string) returns (out: string)
    ensures out == Literal(text)
  {
    out := "\"";
    assert Escaped(text[..0]) == "";
    for k := 0 to |text|
      invariant out == "\"" + Escaped(text[..k])
    {
      FlatOfPrefix(Escape, text, k);
      Reassociate("\"", Escaped(text[..k]), Escape(text[k]));
      out := out + Escape(text[k]);
    }
    assert text[..|text|] == text;
    out := out + "\"";
  }

  function Entry(key: string): string { "    " + Literal(key) + ",\n" }

  function Entries(keys: seq<string>): string { Flat(Entry, keys) }

  /** The committed key, and the standby when its file exists. */
  function TrustSet(current: string, next: Option<string>): seq<string> {
    match next
    case None => [current]
    case Some(standby) => [current, standby]
  }

  method PushEntry(buffer: string, key: string) returns (source: string)
    ensures source == buffer + Entry(key)
  {
    source := buffer + "    ";
    var literal := RustStringLiteral(key);
    source := source + literal;
    source := source + ",\n";
    Reassociate(buffer, "    ", literal);
    Reassociate(buffer, "    " + literal, ",\n");
  }

  /** The emission loop. `header` ends with the array's opening bracket. */
  method EmitTrustedPublicKeys(header: string, keys: seq<string>) returns (source: string)
    ensures source == header + Entries(keys) + "];\n"
  {
    source := header;
    assert keys[..0] == [];
    for k := 0 to |keys|
      invariant source == header + Entries(keys[..k])
    {
      source := PushEntry(source, keys[k]);
      FlatOfPrefix(Entry, keys, k);
      Reassociate(header, Entries(keys[..k]), Entry(keys[k]));
    }
    assert keys[..|keys|] == keys;
    source := source + "];\n";
  }

  // ------------------------------------------------------------------ lexing

  function HexValue(c: char): (v: int)
    ensures -1 <= v < 16
  {
    if '0' <= c <= '9' then c as int - 48
    else if 'a' <= c <= 'f' then c as int - 87
    else if 'A' <= c <= 'F' then c as int - 55
    else -1
  }

  /** The rest of a `\u{`: one to six hex digits, underscores between them, and a brace. */
  function LexUnicode(s: string, value: nat, digits: nat): (r: Option<(char, string)>)
    ensures r.Some? ==> |r.value.1| < |s|
  {
    if s == "" then None
    else if s[0] == '}' then
      if digits > 0 && (value < 0xD800 || 0xE000 <= value < 0x11_0000) then Some((value as char, s[1..])) else None
    else if s[0] == '_' && digits > 0 then LexUnicode(s[1..], value, digits)
    else if HexValue(s[0]) >= 0 && digits < 6 then LexUnicode(s[1..], value * 16 + HexValue(s[0]), digits + 1)
    else None
  }

  /** What a backslash introduces: the character meant, and what follows. */
  function LexEscape(s: string): (r: Option<(char, string)>)
    ensures r.Some? ==> |r.value.1| < |s|
  {
    if s == "" then None
    else if s[0] == 'n' then Some(('\n', s[1..]))
    else if s[0] == 'r' then Some(('\r', s[1..]))
    else if s[0] == 't' then Some(('\t', s[1..]))
    else if s[0] == '0' then Some(('\0', s[1..]))
    else if s[0] == '\\' || s[0] == '"' || s[0] == '\'' then Some((s[0], s[1..]))
    else if s[0] == 'x' then
      if |s| >= 3 && 0 <= HexValue(s[1]) < 8 && HexValue(s[2]) >= 0
      then Some(((HexValue(s[1]) * 16 + HexValue(s[2])) as char, s[3..])) else None
    else if s[0] == 'u' then
      if |s| >= 2 && s[1] == '{' then LexUnicode(s[2..], 0, 0) else None
    else None
  }

  function SkipBlanks(s: string): (r: string)
    ensures |r| <= |s|
  {
    if s != "" && (s[0] == ' ' || s[0] == '\n' || s[0] == '\r' || s[0] == '\t') then SkipBlanks(s[1..]) else s
  }

  /** From just after an opening quote: the text of the literal, and what follows its closing
      quote. A backslash before a line break skips the break and the blanks after it, and a bare
      carriage return is an error. */
  function LexString(s: string): (r: Option<(string, string)>)
    ensures r.Some? ==> |r.value.1| < |s|
    decreases |s|
  {
    if s == "" || s[0] == '\r' then None
    else if s[0] == '"' then Some(("", s[1..]))
    else if s[0] == '\\' && |s| >= 2 && s[1] == '\n' then LexString(SkipBlanks(s[2..]))
    else
      match if s[0] == '\\' then LexEscape(s[1..]) else Some((s[0], s[1..]))
      case None => None
      case Some((c, after)) =>
        match LexString(after)
        case None => None
        case Some((text, rest)) => Some(([c] + text, rest))
  }

  /** From just after an array's opening bracket: its elements, and what follows the bracket that
      closes it. Commas separate, and a last one is allowed. */
  function LexArray(s: string): Option<(seq<string>, string)>
    decreases |s|
  {
    var s := SkipBlanks(s);
    if s == "" then None
    else if s[0] == ']' then Some(([], s[1..]))
    else if s[0] != '"' then None
    else
      match LexString(s[1..])
      case None => None
      case Some((text, rest)) =>
        var rest := SkipBlanks(rest);
        if rest != "" && rest[0] == ']' then Some(([text], rest[1..]))
        else if rest != "" && rest[0] == ',' then
          match LexArray(rest[1..])
          case None => None
          case Some((texts, after)) => Some(([text] + texts, after))
        else None
  }

  /** The compiler reads CRLF as LF before it lexes anything. */
  function NormalizeLines(s: string): string {
    if s == "" then ""
    else if |s| >= 2 && s[0] == '\r' && s[1] == '\n' then NormalizeLines(s[1..])
    else [s[0]] + NormalizeLines(s[1..])
  }

  // ------------------------------------------------------------------ the inversion

  lemma HexOfByte(n: nat)
    requires n < 256
    ensures Hex(n) == if n < 16 then [HexDigit(n)] else [HexDigit(n / 16), HexDigit(n % 16)]
  {}

  lemma LexHex(n: nat, rest: string)
    requires n < 256
    ensures LexUnicode(Hex(n) + "}" + rest, 0, 0) == Some((n as char, rest))
  {
    HexOfByte(n);
    var s := Hex(n) + "}" + rest;
    var last := "}" + rest;
    assert LexUnicode(last, n, |Hex(n)|) == Some((n as char, rest)) by {
      assert last[1..] == rest;
    }
    if n < 16 {
      assert s[1..] == last && HexValue(s[0]) == n;
    } else {
      assert s[1..][1..] == last && HexValue(s[0]) == n / 16 && HexValue(s[1]) == n % 16;
      assert LexUnicode(s, 0, 0) == LexUnicode(s[1..], n / 16, 1);
    }
  }

  /** The escapes of the Rust Reference: what each character of a text is printed as. Any other character
      stands for itself. */
  lemma EscapeIs(c: char)
    ensures Escape(c) ==
              if c as int == 34 then "\\\""
              else if c as int == 92 then "\\\\"
              else if c as int == 10 then "\\n"
              else if c as int == 13 then "\\r"
              else if c as int == 9 then "\\t"
              else if c as int < 32 || 127 <= c as int < 160 then "\\u{" + Hex(c as int) + "}"
              else [c]
  {}

  /** Hexadecimal digits. */
  lemma HexIs(n: nat)
    requires n < 256
    ensures n < 16 ==> Hex(n) == ["0123456789abcdef"[n]]
    ensures n >= 16 ==> Hex(n) == ["0123456789abcdef"[n / 16], "0123456789abcdef"[n % 16]]
  {
    HexOfByte(n);
  }

  lemma LexEscaped(c: char, rest: string)
    requires Escape(c) != [c]
    ensures var s := Escape(c) + rest;
      && s[0] == '\\' && s[1] != '\n' && LexEscape(s[1..]) == Some((c, rest))
  {
    var s := Escape(c) + rest;
    if c == '"' || c == '\\' || c == '\n' || c == '\r' || c == '\t' {
      assert s[1..][1..] == rest;
    } else {
      LexHex(c as int, rest);
      assert s[1..][2..] == Hex(c as int) + "}" + rest;
    }
  }

  /** No text can end its literal early: whatever follows the literal, the lexer reads back the
      whole text and stops exactly at the closing quote. */
  lemma {:induction false} LexInvertsLiteral(text: string, rest: string)
    ensures LexString(Escaped(text) + "\"" + rest) == Some((text, rest))
  {
    var s := Escaped(text) + "\"" + rest;
    if text == "" {
      assert s[1..] == rest;
    } else {
      var c, after := text[0], Escaped(text[1..]) + "\"" + rest;
      assert s == Escape(c) + after;
      LexInvertsLiteral(text[1..], rest);
      if Escape(c) == [c] {
        assert s[1..] == after;
      } else {
        LexEscaped(c, after);
      }
      assert [c] + text[1..] == text;
    }
  }

  lemma SkipOne(blank: char, s: string)
    requires blank == ' ' || blank == '\n'
    ensures SkipBlanks([blank] + s) == SkipBlanks(s)
  {
    assert ([blank] + s)[1..] == s;
  }

  lemma SkipIndent(s: string)
    ensures SkipBlanks("    " + s) == SkipBlanks(s)
  {
    assert "    " + s == [' '] + ([' '] + ([' '] + ([' '] + s)));
    SkipOne(' ', s);
    SkipOne(' ', [' '] + s);
    SkipOne(' ', [' '] + ([' '] + s));
    SkipOne(' ', [' '] + ([' '] + ([' '] + s)));
  }

  lemma LexElement(quoted: string, key: string, next: string, after: string)
    requires quoted != "" && quoted[0] == '"'
    requires LexString(quoted[1..]) == Some((key, next))
    requires next != "" && next[0] == ',' && SkipBlanks(next[1..]) == SkipBlanks(after)
    requires LexArray(after).Some?
    ensures LexArray("    " + quoted) == Some(([key] + LexArray(after).value.0, LexArray(after).value.1))
  {
    SkipIndent(quoted);
    assert SkipBlanks(quoted) == quoted && SkipBlanks(next) == next;
    assert LexArray(next[1..]) == LexArray(after);
  }

  /** One emitted line is one element, and the list goes on after it. */
  lemma LexEntry(key: string, after: string)
    requires LexArray(after).Some?
    ensures LexArray(Entry(key) + after) == Some(([key] + LexArray(after).value.0, LexArray(after).value.1))
  {
    var next := ",\n" + after;
    var body := Escaped(key) + "\"" + next;
    LexInvertsLiteral(key, next);
    assert next[1..] == ['\n'] + after;
    SkipOne('\n', after);
    var quoted := ['"'] + body;
    assert quoted[1..] == body;
    LexElement(quoted, key, next, after);
    Regroup("    ", "\"", Escaped(key), ",\n", after);
  }

  lemma Regroup(indent: string, quote: string, body: string, comma: string, after: string)
    ensures indent + (quote + body + quote) + comma + after == indent + (quote + (body + quote + (comma + after)))
  {}

  lemma {:induction false} LexInvertsEntries(keys: seq<string>, rest: string)
    ensures LexArray(Entries(keys) + "]" + rest) == Some((keys, rest))
  {
    if keys == [] {
      var s := "]" + rest;
      assert Entries(keys) + "]" + rest == s;
      assert SkipBlanks(s) == s && s[1..] == rest;
    } else {
      var after := Entries(keys[1..]) + "]" + rest;
      LexInvertsEntries(keys[1..], rest);
      assert Entries(keys) + "]" + rest == Entry(keys[0]) + after;
      LexEntry(keys[0], after);
      assert [keys[0]] + keys[1..] == keys;
    }
  }

  lemma {:induction false} NormalizeWithoutReturns(s: string)
    requires '\r' !in s
    ensures NormalizeLines(s) == s
  {
    if s != "" {
      NormalizeWithoutReturns(s[1..]);
      assert s == [s[0]] + s[1..];
    }
  }

  lemma {:induction false} EscapedIsPrintable(text: string)
    ensures forall c :: c in Escaped(text) ==> !IsControl(c)
  {
    if text != "" {
      EscapedIsPrintable(text[1..]);
      if IsControl(text[0]) {
        HexOfByte(text[0] as int);
      }
    }
  }

  lemma {:induction false} EntriesHaveNoReturn(keys: seq<string>)
    ensures '\r' !in Entries(keys)
  {
    if keys != [] {
      EscapedIsPrintable(keys[0]);
      EntriesHaveNoReturn(keys[1..]);
    }
  }

  /** The array in the emitted file is the list of key texts, for any texts at all: quotes,
      backslashes, CR, CRLF, and control characters up to U+009F included. */
  lemma EmittedArrayIsTheKeys(keys: seq<string>)
    ensures LexArray(NormalizeLines(Entries(keys) + "];\n")) == Some((keys, ";\n"))
  {
    EntriesHaveNoReturn(keys);
    NormalizeWithoutReturns(Entries(keys) + "];\n");
    assert Entries(keys) + "];\n" == Entries(keys) + "]" + ";\n";
    LexInvertsEntries(keys, ";\n");
  }

  // ------------------------------------------------------------------ written only when changed

  /** `trusted_keys.rs` in the cockpit's OUT_DIR, with the writes that would rebuild its users. */
  class OutFile {
    var contents: Option<string>
    ghost var writes: nat

    constructor (contents: Option<string>)
      ensures this.contents == contents && writes == 0
    {
      this.contents, writes := contents, 0;
    }

    /** The file always ends up holding the current trust set; it is rewritten only when it held
        something else. */
    method EmitIfChanged(header: string, current: string, next: Option<string>)
      modifies this
      ensures contents.Some? && header <= contents.value
      ensures LexArray(NormalizeLines(contents.value[|header|..]))
           == Some((if next.None? then [current] else [current, next.value], ";\n"))
      ensures contents == Some(header + Entries(TrustSet(current, next)) + "];\n")
      ensures writes == old(writes) + if old(contents) == contents then 0 else 1
    {
      var source := EmitTrustedPublicKeys(header, TrustSet(current, next));
      EmittedArrayIsTheKeys(TrustSet(current, next));
      assert source == header + (Entries(TrustSet(current, next)) + "];\n");
      assert source[|header|..] == Entries(TrustSet(current, next)) + "];\n";
      if contents != Some(source) {
        contents, writes := Some(source), writes + 1;
      }
    }
  }
}
