/** The text of a managed dotenv file: lines, assignments and quoted values. */
module EnvText {
  import opened Common

  // ---------- trimming ----------

  function TrimRight(s: string): (t: string)
    ensures t <= s && (t != "" ==> !IsSpace(t[|t| - 1]))
  {
    if s == "" || !IsSpace(s[|s| - 1]) then s else TrimRight(s[..|s| - 1])
  }

  function TrimLeft(s: string): (t: string)
    ensures |t| <= |s| && (t != "" ==> !IsSpace(t[0]) && t[|t| - 1] == s[|s| - 1])
    ensures forall c :: c in t ==> c in s
  {
    if s == "" || !IsSpace(s[0]) then s else TrimLeft(s[1..])
  }

  function Trim(s: string): string { TrimLeft(TrimRight(s)) }

  lemma {:induction false} TrimRightAppend(s: string, space: string)
    requires forall c :: c in space ==> IsSpace(c)
    ensures TrimRight(s + space) == TrimRight(s)
  {
    if space == "" {
      assert s + space == s;
    } else {
      var init := space[..|space| - 1];
      assert (s + space)[..|s + space| - 1] == s + init;
      assert IsSpace((s + space)[|s + space| - 1]);
      TrimRightAppend(s, init);
    }
  }

  /** Trimming leaves a value alone exactly when neither end is white space. */
  lemma {:induction false} TrimIdentity(v: string)
    requires v != ""
    ensures Trim(v) == v <==> !IsSpace(v[0]) && !IsSpace(v[|v| - 1])
  {
    if IsSpace(v[|v| - 1]) {
      ShorterRight(v);
    } else if IsSpace(v[0]) {
      ShorterLeft(v);
    }
  }

  lemma {:induction false} ShorterLeft(s: string)
    ensures |TrimLeft(s)| <= |s| && (s != "" && IsSpace(s[0]) ==> |TrimLeft(s)| < |s|)
  {
    if s != "" && IsSpace(s[0]) { ShorterLeft(s[1..]); }
  }

  lemma {:induction false} ShorterRight(v: string)
    requires v != "" && IsSpace(v[|v| - 1])
    ensures |Trim(v)| < |v|
  {
    ShorterLeft(TrimRight(v));
    assert TrimRight(v) != v;
  }

  /** A text with a solid first character keeps it, and everything up to its own trailing white space. */
  lemma {:induction false} TrimSolid(head: string, tail: string)
    requires head != "" && !IsSpace(head[0]) && !IsSpace(head[|head| - 1])
    ensures Trim(head + tail) == head + TrimRight(tail)
  {
    TrimRightAfter(head, tail);
    assert (head + TrimRight(tail))[0] == head[0];
  }

  lemma {:induction false} TrimRightAfter(head: string, tail: string)
    requires head != "" && !IsSpace(head[|head| - 1])
    ensures TrimRight(head + tail) == head + TrimRight(tail)
  {
    if tail == "" {
      assert head + tail == head && head + TrimRight(tail) == head;
    } else if IsSpace(tail[|tail| - 1]) {
      assert (head + tail)[..|head + tail| - 1] == head + tail[..|tail| - 1];
      TrimRightAfter(head, tail[..|tail| - 1]);
    }
  }

  // ---------- quoting ----------

  /** The letter of an escaped control character. */
  function EscapeLetter(c: char): Option<char> {
    if c == '"' || c == '\\' then Some(c)
    else if c == '\U{0007}' then Some('a') else if c == '\U{0008}' then Some('b') else if c == '\U{000C}' then Some('f')
    else if c == '\n' then Some('n') else if c == '\r' then Some('r') else if c == '\t' then Some('t') else if c == '\U{000B}' then Some('v')
    else None
  }

  function UnescapeLetter(c: char): Option<char> {
    if c == '"' || c == '\\' then Some(c)
    else if c == 'a' then Some('\U{0007}') else if c == 'b' then Some('\U{0008}') else if c == 'f' then Some('\U{000C}')
    else if c == 'n' then Some('\n') else if c == 'r' then Some('\r') else if c == 't' then Some('\t') else if c == 'v' then Some('\U{000B}')
    else None
  }

  function EscapeChar(c: char): string {
    match EscapeLetter(c)
    case Some(l) => ['\\', l]
    case None => [c]
  }

  function Escape(v: string): string {
    if v == "" then "" else EscapeChar(v[0]) + Escape(v[1..])
  }

  function Unescape(s: string): Option<string> {
    if s == "" then Some("")
    else if s[0] == '\\' then
      if |s| < 2 || UnescapeLetter(s[1]).None? then None
      else
        var rest := Unescape(s[2..]);
        if rest.None? then None else Some([UnescapeLetter(s[1]).value] + rest.value)
    else if s[0] == '"' || s[0] == '\n' then None
    else
      var rest := Unescape(s[1..]);
      if rest.None? then None else Some([s[0]] + rest.value)
  }

  function Quote(v: string): string { "\"" + Escape(v) + "\"" }

  function Unquote(s: string): Option<string> {
    if |s| < 2 || s[0] != '"' || s[|s| - 1] != '"' then None else Unescape(s[1..|s| - 1])
  }

  /** One escaped character is read back in front of whatever follows. */
  lemma {:induction false} UnescapeFirst(c: char, rest: string, read: string)
    requires Unescape(rest) == Some(read)
    ensures Unescape(EscapeChar(c) + rest) == Some([c] + read)
  {
    var one := EscapeChar(c);
    assert (one + rest)[|one|..] == rest;
  }

  lemma {:induction false} UnescapeEscape(v: string)
    ensures Unescape(Escape(v)) == Some(v)
  {
    if v != "" {
      UnescapeEscape(v[1..]);
      UnescapeFirst(v[0], Escape(v[1..]), v[1..]);
      assert v == [v[0]] + v[1..];
    }
  }

  lemma {:induction false} UnquoteQuote(v: string)
    ensures Unquote(Quote(v)) == Some(v)
  {
    UnescapeEscape(v);
    assert Quote(v)[1..|Quote(v)| - 1] == Escape(v);
  }

  lemma {:induction false} EscapeHasNoNewline(v: string)
    ensures '\n' !in Escape(v)
  {
    if v != "" { EscapeHasNoNewline(v[1..]); }
  }

  // ---------- one line ----------

  datatype Parsed = Blank | Assignment(key: string, value: string) | Invalid

  /** `^[A-Z_][A-Z0-9_]*$`. */
  predicate KeyPattern(s: string) {
    && s != "" && ('A' <= s[0] <= 'Z' || s[0] == '_')
    && forall c :: c in s ==> 'A' <= c <= 'Z' || '0' <= c <= '9' || c == '_'
  }

  const CAPITALS := "ABCDEFGHIJKLMNOPQRSTUVWXYZ"
  const DIGITS := "0123456789"

  lemma IsCapital(c: char)
    ensures c in CAPITALS <==> 'A' <= c <= 'Z'
  {
    if 'A' <= c <= 'Z' { assert CAPITALS[c as int - 'A' as int] == c; }
  }

  lemma IsDigit(c: char)
    ensures c in DIGITS <==> '0' <= c <= '9'
  {
    if '0' <= c <= '9' { assert DIGITS[c as int - '0' as int] == c; }
  }

  /** A key is spelt with capitals, underscores and, after its first character, digits. */
  lemma KeySpelling(s: string)
    ensures KeyPattern(s) <==> s != "" && s[0] !in DIGITS && forall c :: c in s ==> c in CAPITALS + DIGITS + "_"
  {
    forall c: char ensures c in CAPITALS <==> 'A' <= c <= 'Z' { IsCapital(c); }
    forall c: char ensures c in DIGITS <==> '0' <= c <= '9' { IsDigit(c); }
    if s != "" { assert s[0] in s; }
  }

  /** The position of the first occurrence of a character. */
  function Find(s: string, c: char): (i: Option<nat>)
    ensures i.Some? ==> i.value < |s| && s[i.value] == c && forall k :: 0 <= k < i.value ==> s[k] != c
    ensures i.None? <==> c !in s
  {
    if s == "" then None
    else if s[0] == c then Some(0)
    else
      var rest := Find(s[1..], c);
      if rest.None? then None else Some(rest.value + 1)
  }

  /** The position of the first `" #"`. */
  function FindComment(s: string): (i: Option<nat>)
    ensures i.Some? ==> i.value + 1 < |s| && s[i.value] == ' ' && s[i.value + 1] == '#'
  {
    if |s| < 2 then None else if s[0] == ' ' && s[1] == '#' then Some(0)
    else match FindComment(s[1..]) case None => None case Some(j) => Some(j + 1)
  }

  function HasPrefix(s: string, prefix: string): bool { |prefix| <= |s| && s[..|prefix|] == prefix }

  function ParseValue(key: string, raw: string): Parsed {
    if raw == "" then Assignment(key, "")
    else if raw[0] == '\'' then
      if |raw| < 2 || raw[|raw| - 1] != '\'' then Invalid else Assignment(key, raw[1..|raw| - 1])
    else if raw[0] == '"' then
      match Unquote(raw) case None => Invalid case Some(v) => Assignment(key, v)
    else
      match FindComment(raw) case None => Assignment(key, raw) case Some(i) => Assignment(key, Trim(raw[..i]))
  }

  const EXPORT := "export "

  function ParseTrimmed(trimmed: string): Parsed {
    if trimmed == "" || trimmed[0] == '#' then Blank
    else
      var t := if HasPrefix(trimmed, EXPORT) then Trim(trimmed[|EXPORT|..]) else trimmed;
      match Find(t, '=')
      case None => Invalid
      case Some(i) =>
        var key := Trim(t[..i]);
        if !KeyPattern(key) then Invalid else ParseValue(key, Trim(t[i + 1..]))
  }

  function ParseLine(line: string): Parsed { ParseTrimmed(Trim(line)) }

  function DropSuffix(s: string, c: char): string {
    if s != "" && s[|s| - 1] == c then s[..|s| - 1] else s
  }

  /** How the loops read a line: without its ending. */
  function ReadLine(line: string): Parsed { ParseLine(DropSuffix(DropSuffix(line, '\n'), '\r')) }

  /** Line endings, present or added, do not change what a line says. */
  lemma {:induction false} EndingsIgnored(line: string, ending: string)
    requires forall c :: c in ending ==> IsSpace(c)
    ensures ReadLine(line + ending) == ReadLine(line) == ParseLine(line)
  {
    ReadIsParse(line + ending);
    ReadIsParse(line);
    TrimRightAppend(line, ending);
  }

  lemma {:induction false} ReadIsParse(line: string)
    ensures ReadLine(line) == ParseLine(line)
  {
    DropSpace(line, '\n');
    DropSpace(DropSuffix(line, '\n'), '\r');
  }

  lemma {:induction false} DropSpace(s: string, c: char)
    requires IsSpace(c)
    ensures Trim(DropSuffix(s, c)) == Trim(s)
  {
    if s != "" && s[|s| - 1] == c {
      assert s == s[..|s| - 1] + [c];
      TrimRightAppend(s[..|s| - 1], [c]);
    }
  }

  // ---------- writing a value and reading it back ----------

  predicate NeedsQuote(v: string) {
    v == "" || ' ' in v || '\t' in v || '#' in v || '\'' in v || '"' in v
  }

  function EncodeValue(v: string): string {
    if NeedsQuote(v) then Quote(v) else v
  }

  /** What a written value reads back as. */
  function ReadBack(v: string): string {
    if NeedsQuote(v) then v else Trim(v)
  }

  lemma {:induction false} WrittenLineTrims(key: string, enc: string)
    requires KeyPattern(key)
    ensures Trim(key + "=" + enc) == key + "=" + TrimRight(enc)
  {
    assert key[0] in key;
    TrimSolid(key + "=", enc);
  }

  /** The parser splits a trimmed written line where the writer joined it. */
  lemma {:induction false} WrittenLineSplits(key: string, raw: string)
    requires KeyPattern(key)
    ensures ParseTrimmed(key + "=" + raw) == ParseValue(key, Trim(raw))
  {
    var t := key + "=" + raw;
    NotExport(key, raw);
    FindFirst(key, '=', raw);
    assert t == key + ['='] + raw && t[..|key|] == key && t[|key| + 1..] == raw;
    TrimKey(key);
  }

  lemma {:induction false} NotExport(key: string, raw: string)
    requires KeyPattern(key)
    ensures (key + "=" + raw)[0] != '#' && !HasPrefix(key + "=" + raw, EXPORT) && '=' !in key
  {
    var t := key + "=" + raw;
    assert t[0] == key[0] && EXPORT[0] == 'e';
    assert |EXPORT| <= |t| ==> t[..|EXPORT|][0] == t[0];
  }

  lemma {:induction false} TrimKey(key: string)
    requires KeyPattern(key)
    ensures Trim(key) == key
  {
    assert key[0] in key && key[|key| - 1] in key;
    TrimIdentity(key);
  }

  lemma {:induction false} FindFirst(head: string, c: char, tail: string)
    requires c !in head
    ensures Find(head + [c] + tail, c) == Some(|head|)
  {
    var s := head + [c] + tail;
    if head != "" {
      assert s[1..] == head[1..] + [c] + tail && s[0] == head[0];
      FindFirst(head[1..], c, tail);
    }
  }

  lemma {:induction false} NoComment(s: string)
    requires ' ' !in s
    ensures FindComment(s).None?
  {
    if |s| >= 2 { NoComment(s[1..]); }
  }

  /** Every accepted value written under a valid key reads back under that key, as `ReadBack` says. */
  lemma {:induction false} WrittenValueReadsBack(key: string, v: string)
    requires KeyPattern(key)
    ensures ParseLine(key + "=" + EncodeValue(v)) == Assignment(key, ReadBack(v))
  {
    var enc := EncodeValue(v);
    WrittenLineTrims(key, enc);
    WrittenLineSplits(key, TrimRight(enc));
    if NeedsQuote(v) {
      UnquoteQuote(v);
      assert TrimRight(enc) == enc && Trim(enc) == enc;
    } else {
      TrimTwice(v);
      var raw := Trim(v);
      assert forall c :: c in raw ==> c in v;
      NoComment(raw);
      if raw != "" { assert raw[0] in raw; }
    }
  }

  lemma {:induction false} TrimTwice(v: string)
    ensures Trim(TrimRight(v)) == Trim(v) && forall c :: c in Trim(v) ==> c in v
  {
    assert TrimRight(TrimRight(v)) == TrimRight(v);
  }

  /** The value survives exactly when it is quoted or neither end of it is white space. */
  lemma {:induction false} RoundTripExactly(key: string, v: string)
    requires KeyPattern(key)
    ensures ParseLine(key + "=" + EncodeValue(v)) == Assignment(key, v) <==>
      NeedsQuote(v) || (!IsSpace(v[0]) && !IsSpace(v[|v| - 1]))
  {
    WrittenValueReadsBack(key, v);
    if !NeedsQuote(v) { TrimIdentity(v); }
  }

  // ---------- lines that other programs write ----------

  /** A quoted value is read as it stands between its quotes, unescaped between double ones. */
  lemma {:induction false} QuotedReads(key: string, v: string)
    requires KeyPattern(key)
    ensures ParseLine(key + "=" + ("'" + v + "'")) == Assignment(key, v)
    ensures ParseLine(key + "=" + Quote(v)) == Assignment(key, v)
  {
    QuotedSplits(key, "'" + v + "'");
    assert ("'" + v + "'")[1..|v| + 1] == v;
    QuotedSplits(key, Quote(v));
    UnquoteQuote(v);
  }

  lemma {:induction false} QuotedSplits(key: string, enc: string)
    requires KeyPattern(key) && enc != "" && !IsSpace(enc[0]) && !IsSpace(enc[|enc| - 1])
    ensures ParseLine(key + "=" + enc) == ParseValue(key, enc)
  {
    WrittenLineTrims(key, enc);
    assert TrimRight(enc) == enc;
    WrittenLineSplits(key, enc);
    TrimIdentity(enc);
  }

  lemma {:induction false} FirstComment(v: string, tail: string)
    requires FindComment(v).None? && v != "" && v[|v| - 1] != ' '
    ensures FindComment(v + " #" + tail) == Some(|v|)
  {
    var s := v + " #" + tail;
    if |v| == 1 {
      assert s[1..] == " #" + tail && s[0] == v[0];
    } else {
      assert s[1..] == v[1..] + " #" + tail && s[0] == v[0] && s[1] == v[1];
      FirstComment(v[1..], tail);
    }
  }

  /** A bare value ends where a comment begins, or with the line. */
  lemma {:induction false} CommentDropped(key: string, v: string, comment: string)
    requires KeyPattern(key) && v != "" && !IsSpace(v[0]) && !IsSpace(v[|v| - 1]) && v[0] != '\'' && v[0] != '"'
    requires FindComment(v).None?
    ensures ParseLine(key + "=" + v) == Assignment(key, v)
    ensures ParseLine(key + "=" + (v + " #" + comment)) == Assignment(key, v)
  {
    QuotedSplits(key, v);
    var raw := v + " #" + comment;
    WrittenLineTrims(key, raw);
    TrimRightAfter(v + " #", comment);
    var enc := v + " #" + TrimRight(comment);
    assert TrimRight(raw) == enc;
    WrittenLineSplits(key, enc);
    assert Trim(enc) == enc by {
      assert enc[0] == v[0];
      TrimIdentity(enc);
    }
    FirstComment(v, TrimRight(comment));
    assert enc[..|v|] == v;
    TrimIdentity(v);
  }

  lemma {:induction false} ExportTrims(key: string, raw: string)
    requires KeyPattern(key)
    ensures Trim(EXPORT + (key + "=" + raw)) == EXPORT + (key + "=" + TrimRight(raw))
  {
    var head := EXPORT + key + "=";
    TrimSolid(head, raw);
    assert EXPORT + (key + "=" + raw) == head + raw;
    assert EXPORT + (key + "=" + TrimRight(raw)) == head + TrimRight(raw);
  }

  lemma {:induction false} ExportDropped(key: string, kept: string)
    requires KeyPattern(key) && TrimRight(kept) == kept
    ensures ParseTrimmed(EXPORT + (key + "=" + kept)) == ParseTrimmed(key + "=" + kept)
  {
    var assignment := key + "=" + kept;
    assert (EXPORT + assignment)[..|EXPORT|] == EXPORT && (EXPORT + assignment)[|EXPORT|..] == assignment;
    WrittenLineTrims(key, kept);
    NotExport(key, kept);
  }

  /** A leading `export` says nothing. */
  lemma {:induction false} ExportIgnored(key: string, raw: string)
    requires KeyPattern(key)
    ensures ParseLine(EXPORT + (key + "=" + raw)) == ParseLine(key + "=" + raw)
  {
    ExportTrims(key, raw);
    WrittenLineTrims(key, raw);
    ExportDropped(key, TrimRight(raw));
  }

  /** A comment line says nothing. */
  lemma {:induction false} CommentLineBlank(s: string)
    ensures ParseLine("#" + s) == Blank
  {
    TrimSolid("#", s);
  }
}
