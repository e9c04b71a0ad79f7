/** The store of the managed overlay: every accepted change goes to the file first, then to memory. */
module EnvFile {
  import opened Common
  import opened EnvText
  import opened EnvStore

  /** `live` holds the values set (Some) or cleared (None) by this process; `file` is what is on disk. */
  datatype Env = Env(lines: seq<string>, newline: string, managed: map<string, string>, live: map<string,
                     Option<string>>, file: string)

  predicate Acceptable(key: string, value: Option<string>) {
    && KeyPattern(key)
    && (value.Some? ==> ByteLength(value.value) <= MAX_VALUE_BYTES && '\r' !in value.value && '\n' !in value.value && '\0' !in value.value)
  }

  /** One change; `written` says whether the atomic write succeeds. */
  ghost predicate Takes(e: Env, key: string, value: Option<string>, written: bool, read: Reader) {
    && Acceptable(key, value) && written
    && ByteLength(Join(Rewritten(e.lines, e.newline, key, value, read))) <= MAX_FILE_BYTES
  }

  ghost function Changed(e: Env, key: string, value: Option<string>, written: bool, read: Reader): Env {
    if !Takes(e, key, value, written, read) then e
    else
      var lines := Rewritten(e.lines, e.newline, key, value, read);
      Env(lines, e.newline, if value.Some? then e.managed[key := value.value] else e.managed - {key}, e.live[key := value], Join(lines))
  }

  /** Some line of the text does not parse. */
  ghost predicate Unparsable(data: string, read: Reader) {
    exists lines :: Lines(lines) && Join(lines) == data && !AllParse(lines, read)
  }

  lemma {:induction false} UnparsableIff(data: string, lines: seq<string>, read: Reader)
    requires Lines(lines) && Join(lines) == data
    ensures Unparsable(data, read) <==> !AllParse(lines, read)
  {
    if Unparsable(data, read) {
      var other :| Lines(other) && Join(other) == data && !AllParse(other, read);
      LinesUnique(lines, other);
    }
  }

  /** Some line of the text ends in a carriage return and a line break. */
  ghost predicate HasCrLf(s: string) {
    exists i :: 0 <= i < |s| - 1 && s[i] == '\r' && s[i + 1] == '\n'
  }

  method ContainsCrLf(s: string) returns (b: bool)
    ensures b <==> HasCrLf(s)
  {
    for i := 0 to |s|
      invariant forall j :: 0 <= j < i && j < |s| - 1 ==> !(s[j] == '\r' && s[j + 1] == '\n')
    {
      if i < |s| - 1 && s[i] == '\r' && s[i + 1] == '\n' { return true; }
    }
    b := false;
  }

  /** The assignments of the lines, or None when one does not parse. */
  method ParseLines(lines: seq<string>, read: Reader) returns (managed: Option<map<string, string>>)
    ensures managed.Some? <==> AllParse(lines, read)
    ensures managed.Some? ==> managed.value == Assignments(lines, read)
  {
    var m: map<string, string> := map[];
    var i := 0;
    while i < |lines|
      invariant 0 <= i <= |lines| && m == Assignments(lines[..i], read)
      invariant forall j :: 0 <= j < i ==> !read(lines[j]).Invalid?
    {
      var said := read(lines[i]);
      if said.Invalid? { return None; }
      AssignmentsAppend(lines[..i], lines[i], read);
      assert lines[..i + 1] == lines[..i] + [lines[i]];
      if said.Assignment? { m := m[said.key := said.value]; }
      i := i + 1;
    }
    assert lines[..|lines|] == lines;
    managed := Some(m);
  }

  method KeepUnrelated(lines: seq<string>, key: string, read: Reader) returns (kept: seq<string>)
    ensures kept == Unrelated(lines, key, read)
  {
    kept := [];
    var i := 0;
    while i < |lines|
      invariant 0 <= i <= |lines| && kept == Unrelated(lines[..i], key, read)
    {
      assert lines[..i + 1][..i] == lines[..i];
      var said := read(lines[i]);
      if !(said.Assignment? && said.key == key) { kept := kept + [lines[i]]; }
      i := i + 1;
    }
    assert lines[..|lines|] == lines;
  }

  method RewriteLines(lines: seq<string>, newline: string, key: string, value: Option<string>, read: Reader)
    returns (result: seq<string>)
    ensures result == Rewritten(lines, newline, key, value, read)
  {
    result := KeepUnrelated(lines, key, read);
    if value.Some? {
      if |result| > 0 && !Ended(result[|result| - 1]) {
        result := result[|result| - 1 := result[|result| - 1] + newline];
      }
      result := result + [key + "=" + EncodeValue(value.value) + newline];
    }
  }

  class Store {
    const external: map<string, string>
    var managed: map<string, string>
    var live: map<string, Option<string>>
    var lines: seq<string>
    var newline: string
    var file: string

    ghost function State(): Env
      reads this
    {
      Env(lines, newline, managed, live, file)
    }

    /** A store of a file that was read and parsed. */
    constructor (data: string, lines: seq<string>, crlf: bool, managed: map<string, string>, external: map<string,
                 string>)
      ensures State() == Env(lines, if crlf then "\r\n" else "\n", managed, map[], data) && this.external == external
    {
      this.lines, this.managed, this.live, this.file, this.external := lines, managed, map[], data, external;
      this.newline := if crlf then "\r\n" else "\n";
    }

    /** A missing file reads as the empty text. */
    static method Open(data: string, external: map<string, string>) returns (s: Option<Store>)
      ensures s.Some? ==> fresh(s.value) && s.value.external == external && Opened(data, s.value.State())
      ensures s.None? <==> ByteLength(data) > MAX_FILE_BYTES || Unparsable(data, ReadLine)
    {
      if ByteLength(data) > MAX_FILE_BYTES { return None; }
      var crlf := ContainsCrLf(data);
      var lines := SplitLines(data);
      UnparsableIff(data, lines, ReadLine);
      var managed := ParseLines(lines, ReadLine);
      if managed.None? { return None; }
      var store := new Store(data, lines, crlf, managed.value, external);
      s := Some(store);
    }

    method Getenv(key: string) returns (value: string)
      ensures value == Visible(State(), external, key)
    {
      if key in live { return if live[key].Some? then live[key].value else ""; }
      if key in external && external[key] != "" { return external[key]; }
      value := if key in managed then managed[key] else "";
    }

    method Replace(key: string, value: string, written: bool) returns (ok: bool)
      modifies this
      ensures ok <==> Takes(old(State()), key, Some(value), written, ReadLine)
      ensures State() == Changed(old(State()), key, Some(value), written, ReadLine)
      ensures ok ==>
        && key != "" && (forall c :: c in key ==> c == '_' || 'A' <= c <= 'Z' || '0' <= c <= '9') && !('0' <= key[0] <= '9')
        && ByteLength(value) <= 16 * 1024 && ByteLength(file) <= 64 * 1024
        && '\r' !in value && '\n' !in value && '\0' !in value
    {
      if !KeyPattern(key) { return false; }
      if ByteLength(value) > MAX_VALUE_BYTES || '\r' in value || '\n' in value || '\0' in value { return false; }
      ok := Rewrite(key, Some(value), written);
    }

    method Clear(key: string, written: bool) returns (ok: bool)
      modifies this
      ensures ok <==> Takes(old(State()), key, None, written, ReadLine)
      ensures State() == Changed(old(State()), key, None, written, ReadLine)
    {
      if !KeyPattern(key) { return false; }
      ok := Rewrite(key, None, written);
    }

    method Rewrite(key: string, value: Option<string>, written: bool) returns (ok: bool)
      requires Acceptable(key, value)
      modifies this
      ensures ok <==> Takes(old(State()), key, value, written, ReadLine)
      ensures State() == Changed(old(State()), key, value, written, ReadLine)
    {
      var result := RewriteLines(lines, newline, key, value, ReadLine);
      var doc := Join(result);
      if ByteLength(doc) > MAX_FILE_BYTES || !written { return false; }
      file, lines := doc, result;
      if value.None? {
        managed, live := managed - {key}, live[key := None];
      } else {
        managed, live := managed[key := value.value], live[key := value];
      }
      ok := true;
    }
  }

  /** The state right after reading a file; lines that are added end as the file's own do. */
  ghost predicate Opened(data: string, e: Env) {
    && e.newline == (if HasCrLf(data) then "\r\n" else "\n")
    && Lines(e.lines) && Join(e.lines) == data == e.file && AllParse(e.lines, ReadLine)
    && e.managed == Assignments(e.lines, ReadLine) && e.live == map[]
  }

  /** A live value first, then a non-empty external one, then the managed one. */
  function Visible(e: Env, external: map<string, string>, key: string): string {
    if key in e.live then (if e.live[key].Some? then e.live[key].value else "")
    else if key in external && external[key] != "" then external[key]
    else if key in e.managed then e.managed[key] else ""
  }

  /** A key that this process has not changed shows the external value unless that is empty, and then what the file
      assigns it. */
  lemma UnchangedShows(data: string, e: Env, external: map<string, string>, key: string)
    requires Opened(data, e)
    ensures key in external && external[key] != "" ==> Visible(e, external, key) == external[key]
    ensures key !in external || external[key] == "" ==>
      Visible(e, external, key) == if key in Assignments(e.lines, ReadLine) then Assignments(e.lines, ReadLine)[key] else ""
  {
  }

  // ---------- every run of changes ----------

  /** Memory and file hold the same keys; a value written by this process reads back as `ReadBack` says, any other is
      the same. */
  ghost predicate AgreesOn(e: Env, read: Reader, key: string) {
    var m := Assignments(e.lines, read);
    && (key in m <==> key in e.managed)
    && (key in m ==> m[key] == if key in e.live then ReadBack(e.managed[key]) else e.managed[key])
    && (key in e.live ==> e.live[key] == if key in e.managed then Some(e.managed[key]) else None)
  }

  ghost predicate Coherent(e: Env, read: Reader) {
    && Lines(e.lines) && AllParse(e.lines, read) && Newline(e.newline) && e.file == Join(e.lines)
    && forall key :: AgreesOn(e, read, key)
  }

  /** The reader takes back what `rewrite` writes. */
  ghost predicate ReadsWritten(read: Reader) {
    forall key, value, newline :: KeyPattern(key) && Newline(newline) ==>
      read(Assigning(key, value, newline)) == Assignment(key, ReadBack(value))
  }

  lemma {:induction false} ChangeKeepsCoherent(e: Env, key: string, value: Option<string>, written: bool, read: Reader)
    requires Coherent(e, read) && IgnoresEndings(read) && ReadsWritten(read)
    ensures Coherent(Changed(e, key, value, written, read), read)
  {
    if Takes(e, key, value, written, read) {
      RewrittenReads(e.lines, e.newline, key, value, read);
      var e' := Changed(e, key, value, written, read);
      forall k ensures AgreesOn(e', read, k) {
        assert AgreesOn(e, read, k);
      }
    }
  }

  datatype Change = Change(key: string, value: Option<string>, written: bool)

  ghost function RunFrom(e: Env, changes: seq<Change>, read: Reader): Env {
    if changes == [] then e
    else
      var last := changes[|changes| - 1];
      Changed(RunFrom(e, changes[..|changes| - 1], read), last.key, last.value, last.written, read)
  }

  lemma {:induction false} RunKeepsCoherent(e: Env, changes: seq<Change>, read: Reader)
    requires Coherent(e, read) && IgnoresEndings(read) && ReadsWritten(read)
    ensures Coherent(RunFrom(e, changes, read), read)
  {
    if changes != [] {
      var last := changes[|changes| - 1];
      RunKeepsCoherent(e, changes[..|changes| - 1], read);
      ChangeKeepsCoherent(RunFrom(e, changes[..|changes| - 1], read), last.key, last.value, last.written, read);
    }
  }

  lemma {:induction false} ReadLineReadsWritten()
    ensures ReadsWritten(ReadLine)
  {
    forall key, value, newline | KeyPattern(key) && Newline(newline) {
      WrittenTakenBack(key, value, newline, ReadLine);
    }
  }

  lemma {:induction false} WrittenTakenBack(key: string, value: string, newline: string, read: Reader)
    requires KeyPattern(key) && Newline(newline) && read == ReadLine
    ensures read(Assigning(key, value, newline)) == Assignment(key, ReadBack(value))
  {
    WrittenReads(key, value, newline);
  }

  /** After any run of changes on an opened file, splitting and parsing the file again gives exactly the managed map if
      and only if
      every value this process has set is quoted or has no outer white space. */
  lemma {:induction false} FileAgreesExactly(data: string, opened_: Env, changes: seq<Change>, lines: seq<string>)
    requires Opened(data, opened_)
    requires Lines(lines) && Join(lines) == RunFrom(opened_, changes, ReadLine).file
    ensures lines == RunFrom(opened_, changes, ReadLine).lines && AllParse(lines, ReadLine)
    ensures Assignments(lines, ReadLine) == RunFrom(opened_, changes, ReadLine).managed <==>
      forall key :: key in RunFrom(opened_, changes, ReadLine).live ==>
        FaithfullySet(RunFrom(opened_, changes, ReadLine).live[key])
  {
    ReadLineIgnoresEndings();
    ReadLineReadsWritten();
    AgreeExactly(opened_, changes, lines, ReadLine);
  }

  predicate FaithfullySet(value: Option<string>) { value.Some? ==> ReadBack(value.value) == value.value }

  lemma {:induction false} AgreeExactly(e: Env, changes: seq<Change>, lines: seq<string>, read: Reader)
    requires Lines(e.lines) && AllParse(e.lines, read) && Newline(e.newline) && e.file == Join(e.lines)
    requires e.managed == Assignments(e.lines, read) && e.live == map[] && IgnoresEndings(read) && ReadsWritten(read)
    requires Lines(lines) && Join(lines) == RunFrom(e, changes, read).file
    ensures lines == RunFrom(e, changes, read).lines && AllParse(lines, read)
    ensures Assignments(lines, read) == RunFrom(e, changes, read).managed <==>
      forall key :: key in RunFrom(e, changes, read).live ==> FaithfullySet(RunFrom(e, changes, read).live[key])
  {
    assert forall key :: AgreesOn(e, read, key);
    RunKeepsCoherent(e, changes, read);
    var end := RunFrom(e, changes, read);
    LinesUnique(lines, end.lines);
    var m := Assignments(lines, read);
    if forall key :: key in end.live ==> FaithfullySet(end.live[key]) {
      forall key | key in m
        ensures key in end.managed && m[key] == end.managed[key]
      {
        assert AgreesOn(end, read, key);
      }
      forall key | key in end.managed ensures key in m { assert AgreesOn(end, read, key); }
      assert m == end.managed;
    } else {
      var key :| key in end.live && !FaithfullySet(end.live[key]);
      assert AgreesOn(end, read, key);
      assert m[key] != end.managed[key];
    }
  }

  // ---------- the lines about other keys ----------

  /** The lines that say nothing about any of the keys, untouched and in order. */
  ghost function Outside(lines: seq<string>, keys: set<string>, read: Reader): seq<string> {
    if lines == [] then []
    else Outside(lines[..|lines| - 1], keys, read) + OutsideLine(lines[|lines| - 1], keys, read)
  }

  ghost function OutsideLine(line: string, keys: set<string>, read: Reader): seq<string> {
    if read(line).Assignment? && read(line).key in keys then [] else [line]
  }

  lemma {:induction false} OutsideAppend(lines: seq<string>, line: string, keys: set<string>, read: Reader)
    ensures Outside(lines + [line], keys, read) == Outside(lines, keys, read) + OutsideLine(line, keys, read)
  {
    assert (lines + [line])[..|lines|] == lines;
  }

  lemma {:induction false} OutsideUnrelated(lines: seq<string>, key: string, keys: set<string>, read: Reader)
    requires key in keys
    ensures Outside(Unrelated(lines, key, read), keys, read) == Outside(lines, keys, read)
  {
    if lines != [] {
      var init, last := lines[..|lines| - 1], lines[|lines| - 1];
      OutsideUnrelated(init, key, keys, read);
      if About(read(last), key) {
        assert Unrelated(lines, key, read) == Unrelated(init, key, read);
        assert Outside(lines, keys, read) == Outside(init, keys, read);
      } else {
        OutsideAppend(Unrelated(init, key, read), last, keys, read);
      }
    }
  }

  /** The lines are these, or these with an ending added to the last one. */
  ghost predicate SameLines(after: seq<string>, before: seq<string>, newline: string) {
    after == before || after == Closed(before, newline)
  }

  lemma ClosedAppend(lines: seq<string>, last: string, newline: string)
    requires !Ended(last)
    ensures Closed(lines + [last], newline) == lines + [last + newline]
  {
  }

  lemma {:induction false} OutsideClosed(lines: seq<string>, newline: string, keys: set<string>, read: Reader)
    requires Newline(newline) && IgnoresEndings(read)
    ensures SameLines(Outside(Closed(lines, newline), keys, read), Outside(lines, keys, read), newline)
  {
    if lines != [] && !Ended(lines[|lines| - 1]) {
      var init, last := lines[..|lines| - 1], lines[|lines| - 1];
      assert read(last + newline) == read(last);
      assert Closed(lines, newline) == init + [last + newline] && lines == init + [last];
      OutsideAppend(init, last, keys, read);
      OutsideAppend(init, last + newline, keys, read);
      ClosedAppend(Outside(init, keys, read), last, newline);
    }
  }

  lemma SameLinesTwice(a: seq<string>, b: seq<string>, c: seq<string>, newline: string)
    requires Newline(newline) && SameLines(b, a, newline) && SameLines(c, b, newline)
    ensures SameLines(c, a, newline)
  {
    if a != [] && !Ended(a[|a| - 1]) {
      assert Ended(a[|a| - 1] + newline);
    }
  }

  lemma {:induction false} ChangeKeepsOutside(e: Env, key: string, value: Option<string>, written: bool,
                                              keys: set<string>, read: Reader)
    requires key in keys && Newline(e.newline) && IgnoresEndings(read) && ReadsWritten(read)
    ensures SameLines(Outside(Changed(e, key, value, written, read).lines, keys, read), Outside(e.lines, keys, read), e.newline)
    ensures Changed(e, key, value, written, read).newline == e.newline
  {
    if Takes(e, key, value, written, read) {
      var kept := Unrelated(e.lines, key, read);
      OutsideUnrelated(e.lines, key, keys, read);
      if value.Some? {
        assert read(Assigning(key, value.value, e.newline)) == Assignment(key, ReadBack(value.value));
        OutsideClosed(kept, e.newline, keys, read);
        OutsideAppend(Closed(kept, e.newline), Assigning(key, value.value, e.newline), keys, read);
      }
    }
  }

  ghost predicate KeysWithin(changes: seq<Change>, keys: set<string>) {
    forall c :: c in changes ==> c.key in keys
  }

  lemma {:induction false} RunKeepsOutside(e: Env, changes: seq<Change>, keys: set<string>, read: Reader)
    requires KeysWithin(changes, keys) && Newline(e.newline) && IgnoresEndings(read) && ReadsWritten(read)
    ensures SameLines(Outside(RunFrom(e, changes, read).lines, keys, read), Outside(e.lines, keys, read), e.newline)
    ensures RunFrom(e, changes, read).newline == e.newline
  {
    if changes != [] {
      var init, last := changes[..|changes| - 1], changes[|changes| - 1];
      RunKeepsOutside(e, init, keys, read);
      var before := RunFrom(e, init, read);
      ChangeKeepsOutside(before, last.key, last.value, last.written, keys, read);
      SameLinesTwice(Outside(e.lines, keys, read), Outside(before.lines, keys, read),
                     Outside(RunFrom(e, changes, read).lines, keys, read), e.newline);
    }
  }

  /** Whatever is changed, the lines about no changed key, comments and blank lines included, are all still in the
      file, in their
      order and unaltered, but for an ending added to the last one. */
  lemma {:induction false} UnrelatedLinesSurvive(data: string, opened_: Env, changes: seq<Change>, keys: set<string>,
                                                 lines: seq<string>)
    requires Opened(data, opened_) && KeysWithin(changes, keys)
    requires Lines(lines) && Join(lines) == RunFrom(opened_, changes, ReadLine).file
    ensures SameLines(Outside(lines, keys, ReadLine), Outside(opened_.lines, keys, ReadLine), opened_.newline)
  {
    ReadLineIgnoresEndings();
    ReadLineReadsWritten();
    FileIsLines(opened_, changes, lines, ReadLine);
    RunKeepsOutside(opened_, changes, keys, ReadLine);
  }

  lemma {:induction false} FileIsLines(e: Env, changes: seq<Change>, lines: seq<string>, read: Reader)
    requires Lines(e.lines) && AllParse(e.lines, read) && Newline(e.newline) && e.file == Join(e.lines)
    requires e.managed == Assignments(e.lines, read) && e.live == map[] && IgnoresEndings(read) && ReadsWritten(read)
    requires Lines(lines) && Join(lines) == RunFrom(e, changes, read).file
    ensures lines == RunFrom(e, changes, read).lines
  {
    AgreeExactly(e, changes, lines, read);
  }

  // ---------- a value the file does not keep ----------

  /** A value that starts with a no-break space is accepted and written bare: the next start reads it back without the
      space. */
  lemma {:induction false} BareValueLosesSpace() returns (opened_: Env, change: Change)
    ensures Opened("", opened_) && Acceptable(change.key, change.value) && change.written
    ensures forall lines :: Lines(lines) && Join(lines) == RunFrom(opened_, [change], ReadLine).file ==>
      Assignments(lines, ReadLine) != RunFrom(opened_, [change], ReadLine).managed
  {
    var v := "\U{00A0}x";
    opened_, change := Env([], "\n", map[], map[], ""), Change("A", Some(v), true);
    BareValueFits(v);
    LosesSpace(v);
    assert [change][..0] == [];
    assert RunFrom(opened_, [], ReadLine) == opened_;
    var end := RunFrom(opened_, [change], ReadLine);
    assert end == Changed(opened_, "A", Some(v), true, ReadLine);
    assert "A" in end.live && !FaithfullySet(end.live["A"]);
    forall lines | Lines(lines) && Join(lines) == end.file ensures Assignments(lines, ReadLine) != end.managed {
      FileAgreesExactly("", opened_, [change], lines);
    }
  }

  lemma LosesSpace(v: string)
    requires v == "\U{00A0}x"
    ensures ReadBack(v) != v
  {
    assert IsSpace(v[0]);
    TrimIdentity(v);
  }

  lemma {:induction false} AtMostFourBytes(s: string)
    ensures ByteLength(s) <= 4 * |s|
  {
    if s != "" { AtMostFourBytes(s[1..]); }
  }

  lemma BareValueFits(v: string)
    requires v == "\U{00A0}x"
    ensures Acceptable("A", Some(v)) && Takes(Env([], "\n", map[], map[], ""), "A", Some(v), true, ReadLine)
  {
    var line := Assigning("A", v, "\n");
    assert line == ['A', '=', '\U{00A0}', 'x', '\n'];
    AtMostFourBytes(v);
    AtMostFourBytes(line);
    assert Rewritten([], "\n", "A", Some(v), ReadLine) == [line];
    JoinAppend([], line);
    assert Join([line]) == line by { assert [] + [line] == [line]; }
  }

  /** A change that is taken is visible at once, and hides no other key. */
  lemma {:induction false} ChangeVisible(e: Env, external: map<string, string>, key: string, value: Option<string>,
                                         written: bool, other: string, read: Reader)
    requires Takes(e, key, value, written, read)
    ensures Visible(Changed(e, key, value, written, read), external, key) == if value.Some? then value.value else ""
    ensures other != key ==>
      Visible(Changed(e, key, value, written, read), external, other) == Visible(e, external, other)
  {
  }
}
