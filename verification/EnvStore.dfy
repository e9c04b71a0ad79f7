/** The managed dotenv overlay: a file, the assignments read from it, and the live values of this process. */
module EnvStore {
  import opened Common
  import opened EnvText

  const MAX_FILE_BYTES := 65536
  const MAX_VALUE_BYTES := 16384

  function Utf8Width(c: char): nat {
    if c < '\U{0080}' then 1 else if c < '\U{0800}' then 2 else if c < '\U{10000}' then 3 else 4
  }

  function ByteLength(s: string): nat {
    if s == "" then 0 else Utf8Width(s[0]) + ByteLength(s[1..])
  }

  // ---------- lines ----------

  function Join(lines: seq<string>): string {
    if lines == [] then "" else lines[0] + Join(lines[1..])
  }

  /** A line break only at the very end, if anywhere. */
  predicate OneLine(line: string) {
    line != "" && '\n' !in line[..|line| - 1]
  }

  predicate Ended(line: string) { line != "" && line[|line| - 1] == '\n' }

  /** Lines with their endings; only the last may lack one. */
  ghost predicate Lines(lines: seq<string>) {
    && (forall i :: 0 <= i < |lines| ==> OneLine(lines[i]))
    && forall i :: 0 <= i < |lines| - 1 ==> Ended(lines[i])
  }

  lemma {:induction false} JoinAppend(lines: seq<string>, line: string)
    ensures Join(lines + [line]) == Join(lines) + line
  {
    if lines == [] {
      assert Join([line]) == line + Join([]) by { assert [line][1..] == []; }
    } else {
      assert (lines + [line])[1..] == lines[1..] + [line];
      JoinAppend(lines[1..], line);
    }
  }

  /** A text splits into lines in one way. */
  lemma {:induction false} LinesUnique(a: seq<string>, b: seq<string>)
    requires Lines(a) && Lines(b) && Join(a) == Join(b)
    ensures a == b
  {
    if a != [] && b != [] {
      var s := Join(a);
      FirstLine(a, b);
      FirstLine(b, a);
      assert a[0] == s[..|a[0]|] && b[0] == s[..|b[0]|];
      assert Join(a[1..]) == s[|a[0]|..] && Join(b[1..]) == s[|b[0]|..];
      LinesUnique(a[1..], b[1..]);
    }
  }

  lemma {:induction false} FirstLine(a: seq<string>, b: seq<string>)
    requires a != [] && b != [] && Lines(a) && Lines(b) && Join(a) == Join(b)
    ensures |b[0]| <= |a[0]|
  {
    var s, n := Join(a), |a[0]|;
    assert s[..n] == a[0] && s[..|b[0]|] == b[0];
    assert n < |b[0]| ==> b[0][..|b[0]| - 1][n - 1] == a[0][n - 1];
    assert |a| == 1 ==> s == a[0] + Join([]) == a[0];
  }

  /** One token of the scanner: up to and with the first line break, or everything that is left. */
  method ScanLine(text: string) returns (line: string)
    requires text != ""
    ensures OneLine(line) && |line| <= |text| && text == line + text[|line|..] && (Ended(line) || line == text)
  {
    var end := Find(text, '\n');
    line := if end.Some? then text[..end.value + 1] else text;
    assert end.Some? ==> line[..|line| - 1] == text[..end.value];
  }

  ghost predicate AllEnded(lines: seq<string>) {
    forall i :: 0 <= i < |lines| ==> Ended(lines[i])
  }

  lemma {:induction false} LinesAppend(lines: seq<string>, line: string)
    requires Lines(lines) && AllEnded(lines) && OneLine(line)
    ensures Lines(lines + [line]) && (Ended(line) ==> AllEnded(lines + [line]))
  {
  }

  /** `splitLines`: what the scanner hands out, line by line. */
  method SplitLines(text: string) returns (lines: seq<string>)
    ensures Lines(lines) && Join(lines) == text
  {
    lines := [];
    var rest := text;
    while rest != ""
      invariant Lines(lines) && Join(lines) + rest == text
      invariant rest != "" ==> AllEnded(lines)
      decreases |rest|
    {
      var line := ScanLine(rest);
      JoinAppend(lines, line);
      LinesAppend(lines, line);
      lines, rest := lines + [line], rest[|line|..];
    }
  }

  // ---------- assignments, for any way to read a line ----------

  type Reader = string -> Parsed

  ghost predicate AllParse(lines: seq<string>, read: Reader) {
    forall i :: 0 <= i < |lines| ==> !read(lines[i]).Invalid?
  }

  /** The assignments of a file; a later one replaces an earlier one. */
  ghost function Assignments(lines: seq<string>, read: Reader): map<string, string> {
    if lines == [] then map[] else Say(Assignments(lines[..|lines| - 1], read), read(lines[|lines| - 1]))
  }

  function Say(m: map<string, string>, said: Parsed): map<string, string> {
    if said.Assignment? then m[said.key := said.value] else m
  }

  predicate About(said: Parsed, key: string) { said.Assignment? && said.key == key }

  lemma {:induction false} SayRemove(m: map<string, string>, said: Parsed, key: string)
    ensures Say(m, said) - {key} == if About(said, key) then m - {key} else Say(m - {key}, said)
  {
  }

  /** The lines that say nothing about the key, untouched and in order. */
  ghost function Unrelated(lines: seq<string>, key: string, read: Reader): seq<string> {
    if lines == [] then []
    else Unrelated(lines[..|lines| - 1], key, read) + if About(read(lines[|lines| - 1]), key) then [] else [lines[|lines| - 1]]
  }

  /** The lines with an ending added to the last one if it lacks one. */
  function Closed(lines: seq<string>, newline: string): seq<string> {
    if lines != [] && !Ended(lines[|lines| - 1]) then lines[|lines| - 1 := lines[|lines| - 1] + newline] else lines
  }

  predicate Newline(newline: string) { newline == "\n" || newline == "\r\n" }

  lemma {:induction false} UnrelatedAssignments(lines: seq<string>, key: string, read: Reader)
    ensures Assignments(Unrelated(lines, key, read), read) == Assignments(lines, read) - {key}
    ensures AllParse(lines, read) ==> AllParse(Unrelated(lines, key, read), read)
  {
    if lines != [] {
      var init, last := lines[..|lines| - 1], lines[|lines| - 1];
      var kept := Unrelated(init, key, read);
      UnrelatedAssignments(init, key, read);
      SayRemove(Assignments(init, read), read(last), key);
      if About(read(last), key) {
        assert Unrelated(lines, key, read) == kept;
      } else {
        assert Unrelated(lines, key, read) == kept + [last];
        AssignmentsAppend(kept, last, read);
      }
    }
  }

  lemma {:induction false} AssignmentsAppend(lines: seq<string>, line: string, read: Reader)
    ensures Assignments(lines + [line], read) == Say(Assignments(lines, read), read(line))
  {
    assert (lines + [line])[..|lines|] == lines;
  }

  lemma {:induction false} UnrelatedLines(lines: seq<string>, key: string, read: Reader)
    requires Lines(lines)
    ensures Lines(Unrelated(lines, key, read))
    ensures lines != [] && Ended(lines[|lines| - 1]) ==> forall l :: l in Unrelated(lines, key, read) ==> Ended(l)
  {
    if lines != [] {
      var init := lines[..|lines| - 1];
      UnrelatedLines(init, key, read);
      assert init != [] ==> Ended(init[|init| - 1]);
      assert forall i :: 0 <= i < |init| ==> init[i] == lines[i];
    }
  }

  /** Reading does not depend on line endings. */
  ghost predicate IgnoresEndings(read: Reader) {
    forall line, newline :: Newline(newline) ==> read(line + newline) == read(line)
  }

  lemma {:induction false} EndingIgnored(line: string, newline: string, read: Reader)
    requires Newline(newline) && read == ReadLine
    ensures read(line + newline) == read(line)
  {
    EndingsIgnored(line, newline);
  }

  lemma {:induction false} ReadLineIgnoresEndings()
    ensures IgnoresEndings(ReadLine)
  {
    forall line, newline | Newline(newline) {
      EndingIgnored(line, newline, ReadLine);
    }
  }

  /** Adding an ending to the last line leaves every assignment as it was. */
  lemma {:induction false} ClosedSame(lines: seq<string>, newline: string, read: Reader)
    requires Lines(lines) && Newline(newline) && IgnoresEndings(read)
    ensures Lines(Closed(lines, newline)) && forall l :: l in Closed(lines, newline) ==> Ended(l)
    ensures Assignments(Closed(lines, newline), read) == Assignments(lines, read)
    ensures AllParse(lines, read) ==> AllParse(Closed(lines, newline), read)
  {
    if lines != [] && !Ended(lines[|lines| - 1]) {
      var init, last := lines[..|lines| - 1], lines[|lines| - 1];
      assert read(last + newline) == read(last);
      EndedBy(last, newline);
      assert Closed(lines, newline) == init + [last + newline] && lines == init + [last];
      AssignmentsAppend(init, last, read);
      AssignmentsAppend(init, last + newline, read);
    }
  }

  lemma {:induction false} EndedBy(line: string, newline: string)
    requires OneLine(line) && !Ended(line) && Newline(newline)
    ensures OneLine(line + newline) && Ended(line + newline)
  {
    assert line == line[..|line| - 1] + [line[|line| - 1]];
    assert (line + newline)[..|line + newline| - 1] == line + newline[..|newline| - 1];
  }

  function Assigning(key: string, value: string, newline: string): string { key + "=" + EncodeValue(value) + newline }

  /** The written line is one line. */
  lemma {:induction false} WrittenLine(key: string, value: string, newline: string)
    requires KeyPattern(key) && '\n' !in value && Newline(newline)
    ensures OneLine(Assigning(key, value, newline)) && Ended(Assigning(key, value, newline))
  {
    var line := key + "=" + EncodeValue(value);
    EscapeHasNoNewline(value);
    assert '\n' !in EncodeValue(value) && '\n' !in key;
    assert '\n' !in line[..|line| - 1] && !Ended(line);
    EndedBy(line, newline);
  }

  /** The written line says exactly the key and what the value reads back as. */
  lemma {:induction false} WrittenReads(key: string, value: string, newline: string)
    requires KeyPattern(key) && Newline(newline)
    ensures ReadLine(Assigning(key, value, newline)) == Assignment(key, ReadBack(value))
  {
    WrittenValueReadsBack(key, value);
    EndingsIgnored(key + "=" + EncodeValue(value), newline);
  }

  /** The file after a rewrite. */
  ghost function Rewritten(lines: seq<string>, newline: string, key: string, value: Option<string>,
                           read: Reader): seq<string> {
    var kept := Unrelated(lines, key, read);
    if value.None? then kept else Closed(kept, newline) + [Assigning(key, value.value, newline)]
  }

  lemma {:induction false} ClosedThenLine(kept: seq<string>, newline: string, line: string, read: Reader)
    requires Lines(kept) && AllParse(kept, read) && Newline(newline) && IgnoresEndings(read)
    requires OneLine(line) && Ended(line) && read(line).Assignment?
    ensures Lines(Closed(kept, newline) + [line]) && AllParse(Closed(kept, newline) + [line], read)
    ensures Assignments(Closed(kept, newline) + [line], read) == Assignments(kept, read)[read(line).key := read(line).value]
  {
    ClosedSame(kept, newline, read);
    AssignmentsAppend(Closed(kept, newline), line, read);
  }

  /** Re-reading a rewritten file gives the old assignments with this key replaced by what its value reads back as, or
      removed. */
  lemma {:induction false} RewrittenReads(lines: seq<string>, newline: string, key: string, value: Option<string>,
                                          read: Reader)
    requires Lines(lines) && AllParse(lines, read) && Newline(newline) && KeyPattern(key) && IgnoresEndings(read)
    requires value.Some? ==>
      '\n' !in value.value && read(Assigning(key, value.value, newline)) == Assignment(key, ReadBack(value.value))
    ensures Lines(Rewritten(lines, newline, key, value, read))
    ensures AllParse(Rewritten(lines, newline, key, value, read), read)
    ensures Assignments(Rewritten(lines, newline, key, value, read), read) == Overlaid(Assignments(lines, read), key, value)
  {
    var kept := Unrelated(lines, key, read);
    UnrelatedAssignments(lines, key, read);
    UnrelatedLines(lines, key, read);
    if value.Some? {
      var line := Assigning(key, value.value, newline);
      WrittenLine(key, value.value, newline);
      ClosedThenLine(kept, newline, line, read);
    }
  }

  /** The assignments with this key replaced by what its value reads back as, or removed. */
  function Overlaid(m: map<string, string>, key: string, value: Option<string>): map<string, string> {
    if value.Some? then m[key := ReadBack(value.value)] else m - {key}
  }
}
