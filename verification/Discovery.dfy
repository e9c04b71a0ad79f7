/** Recovering the History rows of every alert that may have been sent, from the plan and the attempts alone. */
module Discovery {
  import opened Common
  import opened History
  import opened Injection

  datatype SendState = Attempted | Sent

  /** One recorded attempt; `eventIndex` counts from one. */
  datatype Attempt = Attempt(caseKey: string, eventId: string, eventIndex: int, sendState: SendState, startsAt: int)

  datatype Rule = Rule(name: string, pattern: string, description: string, emitAlertName: string)

  datatype Case = Case(code: string, rule: Rule, alerts: seq<Alert>)

  datatype Wanted = Wanted(alert: Alert, attempt: Attempt)

  datatype Key = Key(alertName: string, eventId: string)

  // ---------- which alerts are expected ----------

  /** The attempt is one of this case's planned alerts. */
  predicate Maps(c: Case, a: Attempt) {
    && a.caseKey == c.code && 1 <= a.eventIndex <= |c.alerts|
    && a.eventId != "" && a.eventId == Label(c.alerts[a.eventIndex - 1].labels, TestEventId)
  }

  function KeyOf(c: Case, a: Attempt): Key
    requires Maps(c, a)
  {
    Key(c.alerts[a.eventIndex - 1].name, a.eventId)
  }

  function Entry<V>(m: map<Key, V>, k: Key): Option<V> {
    if k in m then Some(m[k]) else None
  }

  function OrElse(w: Option<Wanted>, other: Option<Wanted>): Option<Wanted> {
    if w.Some? then w else other
  }

  /** The last attempt of a key among those that map to one case. */
  ghost function LastInCase(c: Case, attempts: seq<Attempt>, k: Key): Option<Wanted> {
    if attempts == [] then None
    else
      var a := attempts[|attempts| - 1];
      if Maps(c, a) && KeyOf(c, a) == k then Some(Wanted(c.alerts[a.eventIndex - 1], a))
      else LastInCase(c, attempts[..|attempts| - 1], k)
  }

  /** The attempt a key stands for: the last one of the last case that has an attempt of it. */
  ghost function LastWanted(cases: seq<Case>, attempts: seq<Attempt>, k: Key): Option<Wanted> {
    if cases == [] then None
    else OrElse(LastInCase(cases[|cases| - 1], attempts, k), LastWanted(cases[..|cases| - 1], attempts, k))
  }

  /** The expected sources are exactly the keys with a mapped attempt, each with its last one. */
  ghost predicate Expects(cases: seq<Case>, attempts: seq<Attempt>, expected: map<Key, Wanted>) {
    forall k :: Entry(expected, k) == LastWanted(cases, attempts, k)
  }

  ghost predicate WantedBy(c: Case, attempts: seq<Attempt>, k: Key, w: Wanted) {
    && w.attempt in attempts && Maps(c, w.attempt) && w.alert == c.alerts[w.attempt.eventIndex - 1]
    && KeyOf(c, w.attempt) == k
  }

  /** Attempt `j` is of the key, and none of the case is after it. */
  ghost predicate LatestAt(c: Case, attempts: seq<Attempt>, k: Key, w: Wanted, j: nat) {
    && j < |attempts| && attempts[j] == w.attempt
    && forall i :: j < i < |attempts| && Maps(c, attempts[i]) ==> KeyOf(c, attempts[i]) != k
  }

  /** The entry of a case is an attempt of the key after which the case has no other; a key without entry has no
      attempt. */
  lemma {:induction false} LastInCaseIsLatest(c: Case, attempts: seq<Attempt>, k: Key)
    ensures var w := LastInCase(c, attempts, k);
            if w.Some? then WantedBy(c, attempts, k, w.value) && exists j :: LatestAt(c, attempts, k, w.value, j)
            else forall a :: a in attempts && Maps(c, a) ==> KeyOf(c, a) != k
    decreases |attempts|
  {
    if attempts != [] {
      var n := |attempts| - 1;
      var w := LastInCase(c, attempts, k);
      if Maps(c, attempts[n]) && KeyOf(c, attempts[n]) == k {
        assert LatestAt(c, attempts, k, w.value, n);
      } else {
        LastInCaseIsLatest(c, attempts[..n], k);
        if w.Some? {
          var j :| LatestAt(c, attempts[..n], k, w.value, j);
          assert LatestAt(c, attempts, k, w.value, j);
        }
      }
    }
  }

  /** The key's alert name and event id belong to this case. */
  ghost predicate HasKey(c: Case, k: Key) {
    exists i :: 0 <= i < |c.alerts| && k == Key(c.alerts[i].name, Label(c.alerts[i].labels, TestEventId))
  }

  /** No two cases of the plan share an alert name and event id. */
  ghost predicate KeysApart(cases: seq<Case>) {
    forall c, d, k :: c in cases && d in cases && HasKey(c, k) && HasKey(d, k) ==> c == d
  }

  /** Where cases do not share keys, the entry is the case's own. */
  lemma {:induction false} LastWantedOfCase(cases: seq<Case>, attempts: seq<Attempt>, c: Case, k: Key)
    requires KeysApart(cases) && c in cases && HasKey(c, k)
    ensures LastWanted(cases, attempts, k) == LastInCase(c, attempts, k)
    decreases |cases|
  {
    var n := |cases| - 1;
    var d := cases[n];
    if d != c {
      assert !HasKey(d, k);
      NoKeyNoEntry(d, attempts, k);
      assert cases == cases[..n] + [d];
      LastWantedOfCase(cases[..n], attempts, c, k);
    } else if LastInCase(c, attempts, k).None? {
      NoEntryElsewhere(cases, cases[..n], attempts, c, k);
    }
  }

  lemma NoKeyNoEntry(c: Case, attempts: seq<Attempt>, k: Key)
    requires !HasKey(c, k)
    ensures LastInCase(c, attempts, k) == None
  {
    LastInCaseIsLatest(c, attempts, k);
  }

  lemma {:induction false} NoEntryElsewhere(cases: seq<Case>, part: seq<Case>, attempts: seq<Attempt>, c: Case, k: Key)
    requires KeysApart(cases) && c in cases && HasKey(c, k) && LastInCase(c, attempts, k) == None
    requires forall d :: d in part ==> d in cases
    ensures LastWanted(part, attempts, k) == None
    decreases |part|
  {
    if part != [] {
      var d := part[|part| - 1];
      if d != c { NoKeyNoEntry(d, attempts, k); }
      NoEntryElsewhere(cases, part[..|part| - 1], attempts, c, k);
    }
  }

  /** Every attempt that maps to the plan has an entry, and every entry is an attempt that maps to its key. */
  lemma {:induction false} LastWantedMaps(cases: seq<Case>, attempts: seq<Attempt>, k: Key)
    ensures var w := LastWanted(cases, attempts, k);
            if w.Some? then exists c :: c in cases && WantedBy(c, attempts, k, w.value)
            else forall c, a :: c in cases && a in attempts && Maps(c, a) ==> KeyOf(c, a) != k
    decreases |cases|
  {
    if cases != [] {
      var n := |cases| - 1;
      LastInCaseIsLatest(cases[n], attempts, k);
      LastWantedMaps(cases[..n], attempts, k);
      assert cases == cases[..n] + [cases[n]];
    }
  }

  /** One case: its last attempt of a key replaces whatever the key stood for. */
  method ExpectCase(c: Case, attempts: seq<Attempt>, before: map<Key, Wanted>) returns (expected: map<Key, Wanted>)
    ensures forall k :: Entry(expected, k) == OrElse(LastInCase(c, attempts, k), Entry(before, k))
  {
    expected := before;
    var i := 0;
    while i < |attempts|
      invariant 0 <= i <= |attempts|
      invariant forall k :: Entry(expected, k) == OrElse(LastInCase(c, attempts[..i], k), Entry(before, k))
    {
      var a := attempts[i];
      assert attempts[..i + 1] == attempts[..i] + [a];
      if Maps(c, a) {
        expected := expected[KeyOf(c, a) := Wanted(c.alerts[a.eventIndex - 1], a)];
      }
      i := i + 1;
    }
    assert attempts[..|attempts|] == attempts;
  }

  method ExpectedSources(cases: seq<Case>, attempts: seq<Attempt>) returns (expected: map<Key, Wanted>)
    ensures Expects(cases, attempts, expected)
  {
    expected := map[];
    var n := 0;
    while n < |cases|
      invariant 0 <= n <= |cases|
      invariant Expects(cases[..n], attempts, expected)
    {
      assert cases[..n + 1] == cases[..n] + [cases[n]];
      assert cases[..n + 1][..n] == cases[..n];
      expected := ExpectCase(cases[n], attempts, expected);
      n := n + 1;
    }
    assert cases[..|cases|] == cases;
  }

  // ---------- keeping the latest row of a fingerprint ----------

  type Records = map<string, HistoryRow>

  function RetainLatest(records: Records, next: HistoryRow): Records {
    if next.fingerprint !in records || records[next.fingerprint].startsAt <= next.startsAt
        then records[next.fingerprint := next] else records
  }

  ghost predicate Keyed(records: Records) {
    forall f :: f in records ==> records[f].fingerprint == f
  }

  /** No fingerprint is lost and none goes back to an earlier episode. */
  ghost predicate Grows(before: Records, after: Records) {
    forall f :: f in before ==> f in after && after[f].startsAt >= before[f].startsAt
  }

  ghost predicate Covers(records: Records, row: HistoryRow) {
    row.fingerprint in records && records[row.fingerprint].startsAt >= row.startsAt
  }

  method Merge(records: Records, held: Records) returns (merged: Records)
    requires Keyed(records) && Keyed(held)
    ensures Keyed(merged) && Grows(records, merged) && Grows(held, merged)
    ensures forall f :: f in merged ==> (f in records && merged[f] == records[f]) || (f in held && merged[f] == held[f])
  {
    merged := records;
    var left := held.Keys;
    while left != {}
      invariant left <= held.Keys && Keyed(merged) && Grows(records, merged)
      invariant forall f :: f in held && f !in left ==> f in merged && merged[f].startsAt >= held[f].startsAt
      invariant forall f :: f in merged ==>
        (f in records && merged[f] == records[f]) || (f in held && merged[f] == held[f])
      decreases left
    {
      var f :| f in left;
      merged := RetainLatest(merged, held[f]);
      left := left - {f};
    }
  }

  /** The order of `sort.Strings`. */
  predicate Below(a: string, b: string) {
    b != "" && (a == "" || a[0] < b[0] || (a[0] == b[0] && Below(a[1..], b[1..])))
  }

  lemma {:induction false} BelowTotal(a: string, b: string)
    ensures a == b || Below(a, b) || Below(b, a)
    ensures !(Below(a, b) && Below(b, a)) && !Below(a, a)
  {
    if a != "" && b != "" {
      BelowTotal(a[1..], b[1..]);
      assert a == [a[0]] + a[1..] && b == [b[0]] + b[1..];
    }
    if a != "" { BelowTotal(a[1..], a[1..]); }
  }

  lemma {:induction false} BelowTransitive(a: string, b: string, c: string)
    requires Below(a, b) && Below(b, c)
    ensures Below(a, c)
  {
    if a != "" && a[0] == b[0] == c[0] { BelowTransitive(a[1..], b[1..], c[1..]); }
  }

  ghost predicate LeastOf(keys: set<string>, f: string) {
    f in keys && forall g :: g in keys && g != f ==> Below(f, g)
  }

  method Least(keys: set<string>) returns (f: string)
    requires keys != {}
    ensures LeastOf(keys, f)
  {
    f :| f in keys;
    var left := keys - {f};
    while left != {}
      invariant left <= keys && f in keys && f !in left && forall g :: g in keys && g !in left && g != f ==> Below(f, g)
      decreases left
    {
      var g :| g in left;
      BelowTotal(f, g);
      if Below(g, f) {
        forall h | h in keys && h !in left && h != f ensures Below(g, h) { BelowTransitive(g, f, h); }
        f := g;
      }
      left := left - {g};
    }
  }

  /** The row's fingerprint is among the rows, at this episode or a later one. */
  ghost predicate Recovers(rows: seq<HistoryRow>, row: HistoryRow) {
    exists u :: u in rows && u.fingerprint == row.fingerprint && u.startsAt >= row.startsAt
  }

  ghost predicate Sorted(rows: seq<HistoryRow>) {
    forall i, j :: 0 <= i < j < |rows| ==> Below(rows[i].fingerprint, rows[j].fingerprint)
  }

  /** One of the records for every non-empty fingerprint, none older than another of that fingerprint, sorted by
      fingerprint. */
  ghost predicate LatestOf(records: seq<HistoryRow>, rows: seq<HistoryRow>) {
    && Sorted(rows) && (forall i, j :: 0 <= i < j < |rows| ==> rows[i].fingerprint != rows[j].fingerprint)
    && (forall r :: r in rows ==> r in records && r.fingerprint != "" && exists i: nat :: LastLatest(records, r, i))
    && forall r :: r in records && r.fingerprint != "" ==> Recovers(rows, r)
  }

  /** The row is at position `i`, and every later record of its fingerprint is of an earlier episode. */
  ghost predicate LastLatest(records: seq<HistoryRow>, row: HistoryRow, i: nat) {
    && i < |records| && records[i] == row
    && forall j :: i < j < |records| && records[j].fingerprint == row.fingerprint ==> records[j].startsAt < row.startsAt
  }

  lemma LatestFirst(records: seq<HistoryRow>, rows: seq<HistoryRow>)
    requires LatestOf(records, rows) && rows != []
    ensures rows[0] in records
  {
  }

  lemma LatestStep(records: seq<HistoryRow>, next: HistoryRow, held: Records)
    requires Keyed(held) && forall f :: f in held ==> exists k: nat :: LastLatest(records, held[f], k)
    ensures next.fingerprint != "" ==>
      forall f :: f in RetainLatest(held, next) ==>
        exists k: nat :: LastLatest(records + [next], RetainLatest(held, next)[f], k)
    ensures next.fingerprint == "" ==>
      forall f :: f in held && f != "" ==> exists k: nat :: LastLatest(records + [next], held[f], k)
  {
    var after := if next.fingerprint == "" then held else RetainLatest(held, next);
    forall f | f in after && (next.fingerprint == "" ==> f != "") ensures exists k: nat :: LastLatest(records + [next], after[f], k) {
      if after[f] == next {
        assert LastLatest(records + [next], next, |records|);
      } else {
        var k: nat :| LastLatest(records, held[f], k);
        assert LastLatest(records + [next], held[f], k);
      }
    }
  }

  /** The rows held after the records: for every non-empty fingerprint the last one of its latest episode. */
  ghost predicate Retains(records: seq<HistoryRow>, held: Records) {
    && Keyed(held) && (forall f :: f in held ==> held[f] in records && f != "")
    && (forall f :: f in held ==> exists k: nat :: LastLatest(records, held[f], k))
    && forall r :: r in records && r.fingerprint != "" ==> Covers(held, r)
  }

  lemma RetainStep(records: seq<HistoryRow>, next: HistoryRow, held: Records)
    requires Retains(records, held)
    ensures Retains(records + [next], if next.fingerprint == "" then held else RetainLatest(held, next))
  {
    LatestStep(records, next, held);
    CoverStep(records, next, held);
    MemberStep(records, next, held);
  }

  lemma MemberStep(records: seq<HistoryRow>, next: HistoryRow, held: Records)
    requires Keyed(held) && forall f :: f in held ==> held[f] in records && f != ""
    ensures next.fingerprint != "" ==>
      Keyed(RetainLatest(held, next)) && forall f :: f in RetainLatest(held, next) ==> RetainLatest(held, next)[f] in records + [next] && f != ""
    ensures forall f :: f in held ==> held[f] in records + [next]
  {
    assert next in records + [next] && forall r :: r in records ==> r in records + [next];
  }

  lemma CoverStep(records: seq<HistoryRow>, next: HistoryRow, held: Records)
    requires forall r :: r in records && r.fingerprint != "" ==> Covers(held, r)
    ensures forall r :: r in records + [next] && r.fingerprint != "" ==>
      Covers(if next.fingerprint == "" then held else RetainLatest(held, next), r)
  {
  }

  method UniqueHistory(records: seq<HistoryRow>) returns (rows: seq<HistoryRow>)
    ensures LatestOf(records, rows)
  {
    var byFingerprint: Records := map[];
    for i := 0 to |records|
      invariant Retains(records[..i], byFingerprint)
    {
      RetainStep(records[..i], records[i], byFingerprint);
      assert records[..i + 1] == records[..i] + [records[i]];
      if records[i].fingerprint != "" {
        byFingerprint := RetainLatest(byFingerprint, records[i]);
      }
    }
    assert records[..|records|] == records;
    rows := SortedValues(byFingerprint);
    forall r | r in records && r.fingerprint != "" ensures Recovers(rows, r) {
      assert Covers(byFingerprint, r);
      assert byFingerprint[r.fingerprint] in rows;
    }
  }

  method SortedValues(records: Records) returns (rows: seq<HistoryRow>)
    requires Keyed(records)
    ensures forall r :: r in rows <==> r.fingerprint in records && records[r.fingerprint] == r
    ensures Sorted(rows) && forall i, j :: 0 <= i < j < |rows| ==> rows[i].fingerprint != rows[j].fingerprint
  {
    rows := [];
    var left := records.Keys;
    while left != {}
      invariant left <= records.Keys
      invariant forall r :: r in rows <==>
        r.fingerprint in records && records[r.fingerprint] == r && r.fingerprint !in left
      invariant forall i, j :: 0 <= i < j < |rows| ==> rows[i].fingerprint != rows[j].fingerprint
      invariant Sorted(rows) && forall r, f :: r in rows && f in left ==> Below(r.fingerprint, f)
      decreases left
    {
      var f := Least(left);
      assert forall r :: r in rows ==> r.fingerprint != f;
      rows := rows + [records[f]];
      left := left - {f};
    }
  }

  method Values(records: Records) returns (rows: seq<HistoryRow>)
    requires Keyed(records)
    ensures forall r :: r in rows <==> r.fingerprint in records && records[r.fingerprint] == r
    ensures forall i, j :: 0 <= i < j < |rows| ==> rows[i].fingerprint != rows[j].fingerprint
  {
    rows := [];
    var left := records.Keys;
    while left != {}
      invariant left <= records.Keys
      invariant forall r :: r in rows <==>
        r.fingerprint in records && records[r.fingerprint] == r && r.fingerprint !in left
      invariant forall i, j :: 0 <= i < j < |rows| ==> rows[i].fingerprint != rows[j].fingerprint
      decreases left
    {
      var f :| f in left;
      assert forall r :: r in rows ==> r.fingerprint != f;
      rows := rows + [records[f]];
      left := left - {f};
    }
  }

  // ---------- reading the History of one alert name ----------

  /** The row is evidence of the wanted attempt: an uncertain send must match its exact start and every planned label.
      */
  predicate Matches(run: string, k: Key, w: Wanted, row: HistoryRow) {
    && row.alertName == k.alertName && Label(row.labels, TestRunId) == run && row.fingerprint != ""
    && Label(row.labels, TestEventId) == k.eventId
    && (w.attempt.sendState == Attempted ==>
          && w.attempt.startsAt != 0 && row.startsAt == w.attempt.startsAt
          && forall l :: l in w.alert.labels ==> l in row.labels && row.labels[l] == w.alert.labels[l])
  }

  /** Some row matches and, for a send whose outcome is unknown, the matching rows are one alert. */
  ghost predicate Evident(run: string, k: Key, w: Wanted, rows: seq<HistoryRow>) {
    && (exists r :: r in rows && Matches(run, k, w, r))
    && (w.attempt.sendState == Attempted ==>
          forall r, s :: r in rows && s in rows && Matches(run, k, w, r) && Matches(run, k, w, s) ==>
            r.fingerprint == s.fingerprint)
  }

  /** `held` keeps the latest row of every fingerprint that matches. */
  ghost predicate Holds(run: string, k: Key, w: Wanted, rows: seq<HistoryRow>, held: Records) {
    && (forall r :: r in rows && Matches(run, k, w, r) ==> Covers(held, r))
    && forall f :: f in held ==> held[f] in rows && Matches(run, k, w, held[f]) && held[f].fingerprint == f
  }

  lemma HoldsStep(run: string, k: Key, w: Wanted, rows: seq<HistoryRow>, held: Records, row: HistoryRow)
    requires Holds(run, k, w, rows, held)
    ensures Holds(run, k, w, rows + [row], if Matches(run, k, w, row) then RetainLatest(held, row) else held)
  {
  }

  lemma EvidentIff(run: string, k: Key, w: Wanted, rows: seq<HistoryRow>, held: Records)
    requires Holds(run, k, w, rows, held)
    ensures Evident(run, k, w, rows) <==> |held| != 0 && (w.attempt.sendState == Attempted ==> |held| == 1)
  {
    if Evident(run, k, w, rows) {
      var r :| r in rows && Matches(run, k, w, r);
      assert r.fingerprint in held;
      if w.attempt.sendState == Attempted {
        forall f | f in held ensures f == r.fingerprint {
          assert Matches(run, k, w, held[f]);
        }
        assert held.Keys == {r.fingerprint};
      }
    } else if |held| != 0 {
      var f :| f in held.Keys;
      assert Matches(run, k, w, held[f]);
      if |held| == 1 {
        SingleKey(held, f);
      }
    }
  }

  lemma SingleKey(held: Records, f: string)
    requires f in held && |held| == 1
    ensures held.Keys == {f}
  {
    var rest := held.Keys - {f};
    assert |rest| == 0;
    assert held.Keys == rest + {f};
  }

  type Candidates = map<Key, Records>

  function Held(candidates: Candidates, k: Key): Records {
    if k in candidates then candidates[k] else map[]
  }

  ghost predicate Collected(run: string, expected: map<Key, Wanted>, name: string, rows: seq<HistoryRow>,
                            candidates: Candidates) {
    forall k :: k in expected && k.alertName == name ==> Holds(run, k, expected[k], rows, Held(candidates, k))
  }

  method ConsiderRow(run: string, name: string, expected: map<Key, Wanted>, row: HistoryRow, candidates: Candidates)
    returns (after: Candidates)
    ensures forall k :: k in expected && k.alertName == name ==>
      Held(after, k) == if Matches(run, k, expected[k], row) then RetainLatest(Held(candidates, k), row) else Held(candidates, k)
  {
    after := candidates;
    var k := Key(name, Label(row.labels, TestEventId));
    if row.alertName == name && Label(row.labels, TestRunId) == run && row.fingerprint != "" && k in expected {
      var wanted := expected[k];
      if wanted.attempt.sendState == Attempted {
        if wanted.attempt.startsAt == 0 || row.startsAt != wanted.attempt.startsAt {
          return;
        }
        if exists l :: l in wanted.alert.labels && (l !in row.labels || row.labels[l] != wanted.alert.labels[l]) {
          return;
        }
      }
      after := candidates[k := RetainLatest(Held(candidates, k), row)];
    }
  }

  method ReadCandidates(run: string, name: string, expected: map<Key, Wanted>, rows: seq<HistoryRow>)
    returns (candidates: Candidates)
    ensures Collected(run, expected, name, rows, candidates)
  {
    candidates := map[];
    var i := 0;
    while i < |rows|
      invariant 0 <= i <= |rows|
      invariant Collected(run, expected, name, rows[..i], candidates)
    {
      var before := candidates;
      candidates := ConsiderRow(run, name, expected, rows[i], before);
      assert rows[..i + 1] == rows[..i] + [rows[i]];
      forall k | k in expected && k.alertName == name
        ensures Holds(run, k, expected[k], rows[..i + 1], Held(candidates, k))
      {
        HoldsStep(run, k, expected[k], rows[..i], Held(before, k), rows[i]);
      }
      i := i + 1;
    }
    assert rows[..|rows|] == rows;
  }

  ghost predicate AllCovered(run: string, k: Key, w: Wanted, rows: seq<HistoryRow>, records: Records) {
    forall r :: r in rows && Matches(run, k, w, r) ==> Covers(records, r)
  }

  lemma CoveredGrows(run: string, k: Key, w: Wanted, rows: seq<HistoryRow>, before: Records, after: Records)
    requires AllCovered(run, k, w, rows, before) && Grows(before, after)
    ensures AllCovered(run, k, w, rows, after)
  {
  }

  /** The row matches an expected alert of this name whose evidence suffices. */
  ghost predicate OfWanted(run: string, expected: map<Key, Wanted>, name: string, rows: seq<HistoryRow>,
                           row: HistoryRow) {
    && row in rows
    && exists k :: k in expected && k.alertName == name && Matches(run, k, expected[k], row)
                   && Evident(run, k, expected[k], rows)
  }

  /** What recovery has reached after the keys of `done`. */
  ghost predicate Recovering(run: string, name: string, expected: map<Key, Wanted>, rows: seq<HistoryRow>,
                             done: set<Key>,
                             before: Records, after: Records, missing: set<Key>)
    requires done <= expected.Keys
  {
    && Keyed(after) && Grows(before, after)
    && (forall f :: f in after ==> (f in before && after[f] == before[f]) || OfWanted(run, expected, name, rows, after[f]))
    && (forall k :: k in missing <==> k in done && !Evident(run, k, expected[k], rows))
    && forall k :: k in done && k !in missing ==> AllCovered(run, k, expected[k], rows, after)
  }

  /** One more key whose evidence suffices: all of it is merged into the records. */
  lemma KeyRecovered(run: string, name: string, expected: map<Key, Wanted>, rows: seq<HistoryRow>, done: set<Key>,
                     k: Key, held: Records,
                     before: Records, reached: Records, after: Records, missing: set<Key>)
    requires done <= expected.Keys && Recovering(run, name, expected, rows, done, before, reached, missing)
    requires k in expected && k.alertName == name && k !in done && Evident(run, k, expected[k], rows)
    requires Holds(run, k, expected[k], rows, held)
    requires Keyed(after) && Grows(reached, after) && Grows(held, after)
    requires forall f :: f in after ==> (f in reached && after[f] == reached[f]) || (f in held && after[f] == held[f])
    ensures Recovering(run, name, expected, rows, done + {k}, before, after, missing)
  {
    RecoverStep(run, expected, done - missing, k, rows, held, reached, after);
    forall f | f in after && f in held && after[f] == held[f] ensures OfWanted(run, expected, name, rows, after[f]) {
      assert Matches(run, k, expected[k], held[f]);
    }
  }

  method RecoverKey(run: string, name: string, expected: map<Key, Wanted>, rows: seq<HistoryRow>, held: Records, k: Key,
                    ghost done: set<Key>, ghost before: Records, reached: Records, lacking: set<Key>)
    returns (after: Records, missing: set<Key>)
    requires k in expected && k.alertName == name && k !in done && Holds(run, k, expected[k], rows, held)
    requires done <= expected.Keys && Recovering(run, name, expected, rows, done, before, reached, lacking)
    ensures Recovering(run, name, expected, rows, done + {k}, before, after, missing)
  {
    EvidentIff(run, k, expected[k], rows, held);
    if |held| == 0 || (expected[k].attempt.sendState == Attempted && |held| != 1) {
      return reached, lacking + {k};
    }
    assert Keyed(held);
    after := Merge(reached, held);
    missing := lacking;
    KeyRecovered(run, name, expected, rows, done, k, held, before, reached, after, missing);
  }

  lemma RecoverStep(run: string, expected: map<Key, Wanted>, done: set<Key>, k: Key, rows: seq<HistoryRow>,
                    held: Records,
                    before: Records, after: Records)
    requires done <= expected.Keys && k in expected && Holds(run, k, expected[k], rows, held)
    requires Grows(before, after) && Grows(held, after)
    requires forall other :: other in done ==> AllCovered(run, other, expected[other], rows, before)
    ensures forall other :: other in done + {k} ==> AllCovered(run, other, expected[other], rows, after)
  {
    forall other | other in done ensures AllCovered(run, other, expected[other], rows, after) {
      CoveredGrows(run, other, expected[other], rows, before, after);
    }
  }

  /** One expected alert name whose History was read: what is missing, and everything that is not is recovered. */
  method RecoverSource(run: string, name: string, expected: map<Key, Wanted>, rows: seq<HistoryRow>, before: Records)
    returns (after: Records, missing: set<Key>)
    requires Keyed(before)
    ensures Keyed(after) && Grows(before, after)
    ensures forall f :: f in after ==>
      (f in before && after[f] == before[f]) || OfWanted(run, expected, name, rows, after[f])
    ensures forall k :: k in missing <==> k in expected && k.alertName == name && !Evident(run, k, expected[k], rows)
    ensures forall k :: k in expected && k.alertName == name && k !in missing ==>
      AllCovered(run, k, expected[k], rows, after)
  {
    var candidates := ReadCandidates(run, name, expected, rows);
    after, missing := before, {};
    var keys := set k | k in expected && k.alertName == name;
    var left := keys;
    while left != {}
      invariant left <= keys && Recovering(run, name, expected, rows, keys - left, before, after, missing)
      decreases left
    {
      var k :| k in left;
      after, missing := RecoverKey(run, name, expected, rows, Held(candidates, k), k, keys - left, before, after,
                                   missing);
      assert keys - left + {k} == keys - (left - {k});
      left := left - {k};
    }
    assert keys - {} == keys;
  }

  // ---------- the whole recovery ----------

  /** What FindHistory returns for an alert name: its complete rows, or an error. */
  type Reply = Option<seq<HistoryRow>>

  datatype Missing = SourceUnread(name: string) | NotExact(key: Key) | SyntheticUnread(name: string)

  /** A row of this run under a rule's emitted alert name. */
  predicate Synthetic(run: string, name: string, row: HistoryRow) {
    row.alertName == name && Label(row.labels, TestRunId) == run && row.fingerprint != ""
  }

  ghost predicate KeyMissing(run: string, expected: map<Key, Wanted>, sources: string -> Reply, k: Key) {
    k in expected && sources(k.alertName).Some? && !Evident(run, k, expected[k], sources(k.alertName).value)
  }

  /** The failures of a recovery: a name whose History could not be read, or an attempt whose evidence is absent or
      ambiguous. */
  ghost predicate IsMissing(run: string, expected: map<Key, Wanted>, synthetic: set<string>, sources: string -> Reply,
                            synthetics: string -> Reply, m: Missing) {
    match m
    case SourceUnread(name) => sources(name).None? && exists k :: k in expected && k.alertName == name
    case NotExact(k) => KeyMissing(run, expected, sources, k)
    case SyntheticUnread(name) => name in synthetic && synthetics(name).None?
  }

  /** Every attempt that is not missing has all its evidence among the records. */
  ghost predicate SourcesRecovered(run: string, expected: map<Key, Wanted>, names: set<string>,
                                   sources: string -> Reply, records: Records) {
    forall k :: k in expected && k.alertName in names && sources(k.alertName).Some? && !KeyMissing(run, expected, sources, k) ==>
      AllCovered(run, k, expected[k], sources(k.alertName).value, records)
  }

  ghost predicate SyntheticRecovered(run: string, name: string, synthetics: string -> Reply, records: Records) {
    synthetics(name).Some? ==> forall r :: r in synthetics(name).value && Synthetic(run, name, r) ==> Covers(records, r)
  }

  /** The record came from a reply and is evidence of an expected alert or of a rule of this run. */
  ghost predicate Sound(run: string, expected: map<Key, Wanted>, synthetic: set<string>, sources: string -> Reply,
                        synthetics: string -> Reply, row: HistoryRow) {
    || (sources(row.alertName).Some? && OfWanted(run, expected, row.alertName, sources(row.alertName).value, row))
    || (row.alertName in synthetic && synthetics(row.alertName).Some? && row in synthetics(row.alertName).value && Synthetic(run, row.alertName, row))
  }

  method RecoverSources(run: string, expected: map<Key, Wanted>, sources: string -> Reply)
    returns (records: Records, failures: set<Missing>)
    ensures Keyed(records) && SourcesRecovered(run, expected, (set k | k in expected :: k.alertName), sources, records)
    ensures forall f :: f in records ==> Sound(run, expected, {}, sources, _ => None, records[f])
    ensures forall m :: m in failures <==> IsMissing(run, expected, {}, sources, _ => None, m)
  {
    records, failures := map[], {};
    var names := set k | k in expected :: k.alertName;
    var left := names;
    while left != {}
      invariant left <= names && Keyed(records) && SourcesRecovered(run, expected, names - left, sources, records)
      invariant forall f :: f in records ==> Sound(run, expected, {}, sources, _ => None, records[f])
      invariant forall m :: m in failures <==> IsMissing(run, expected, {}, sources, _ => None, m) && NameOf(m) !in left
      decreases left
    {
      var name :| name in left;
      match sources(name) {
        case None =>
          failures := failures + {SourceUnread(name)};
        case Some(rows) =>
          var before := records;
          var missing: set<Key>;
          records, missing := RecoverSource(run, name, expected, rows, before);
          failures := failures + (set k | k in missing :: NotExact(k));
          SourcesStep(run, expected, names - left, name, sources, before, records, missing);
      }
      left := left - {name};
      assert names - left == (names - (left + {name})) + {name};
    }
    assert names - {} == names;
  }

  function NameOf(m: Missing): string {
    if m.NotExact? then m.key.alertName else m.name
  }

  lemma {:induction false} SourcesStep(run: string, expected: map<Key, Wanted>, names: set<string>, name: string,
                                       sources: string -> Reply, before: Records, after: Records, missing: set<Key>)
    requires sources(name).Some? && Grows(before, after) && SourcesRecovered(run, expected, names, sources, before)
    requires forall k :: k in missing <==>
      k in expected && k.alertName == name && !Evident(run, k, expected[k], sources(name).value)
    requires forall k :: k in expected && k.alertName == name && k !in missing ==>
      AllCovered(run, k, expected[k], sources(name).value, after)
    ensures SourcesRecovered(run, expected, names + {name}, sources, after)
  {
    forall k | k in expected && k.alertName in names && sources(k.alertName).Some? && !KeyMissing(run, expected, sources, k)
      ensures AllCovered(run, k, expected[k], sources(k.alertName).value, after)
    {
      CoveredGrows(run, k, expected[k], sources(k.alertName).value, before, after);
    }
  }

  method RecoverSynthetic(run: string, name: string, rows: seq<HistoryRow>, before: Records) returns (after: Records)
    requires Keyed(before)
    ensures Keyed(after) && Grows(before, after)
    ensures forall r :: r in rows && Synthetic(run, name, r) ==> Covers(after, r)
    ensures forall f :: f in after ==>
      (f in before && after[f] == before[f]) || (after[f] in rows && Synthetic(run, name, after[f]))
  {
    after := before;
    for i := 0 to |rows|
      invariant Keyed(after) && Grows(before, after)
      invariant forall j :: 0 <= j < i && Synthetic(run, name, rows[j]) ==> Covers(after, rows[j])
      invariant forall f :: f in after ==>
        (f in before && after[f] == before[f]) || (after[f] in rows && Synthetic(run, name, after[f]))
    {
      if Synthetic(run, name, rows[i]) {
        after := RetainLatest(after, rows[i]);
      }
    }
  }

  /** The rule alert names of the plan, in a set. */
  ghost predicate Emitted(cases: seq<Case>, synthetic: set<string>) {
    forall name :: name in synthetic <==> exists c :: c in cases && EmitsAs(c, name)
  }

  ghost predicate EmitsAs(c: Case, name: string) {
    c.rule.emitAlertName == name != ""
  }

  method EmittedNames(cases: seq<Case>) returns (synthetic: set<string>)
    ensures Emitted(cases, synthetic)
  {
    synthetic := {};
    for i := 0 to |cases|
      invariant Emitted(cases[..i], synthetic)
    {
      assert cases[..i + 1] == cases[..i] + [cases[i]];
      ghost var before := synthetic;
      if cases[i].rule.emitAlertName != "" {
        synthetic := synthetic + {cases[i].rule.emitAlertName};
      }
      forall name ensures name in synthetic <==> exists c :: c in cases[..i + 1] && EmitsAs(c, name) {
        if name in before {
          var c :| c in cases[..i] && EmitsAs(c, name);
          assert c in cases[..i + 1];
        }
        assert EmitsAs(cases[i], name) ==> cases[i] in cases[..i + 1];
      }
    }
    assert cases[..|cases|] == cases;
  }

  method RecoverAllSynthetic(run: string, synthetic: set<string>, synthetics: string -> Reply, before: Records)
    returns (records: Records, failures: set<string>)
    requires Keyed(before)
    ensures Keyed(records) && Grows(before, records)
    ensures forall name :: name in failures <==> name in synthetic && synthetics(name).None?
    ensures forall name :: name in synthetic ==> SyntheticRecovered(run, name, synthetics, records)
    ensures forall f :: f in records ==>
      (f in before && records[f] == before[f]) || OfSynthetic(run, synthetic, synthetics, records[f])
  {
    records, failures := before, {};
    var left := synthetic;
    while left != {}
      invariant left <= synthetic && Keyed(records) && Grows(before, records)
      invariant forall name :: name in failures <==> name in synthetic && name !in left && synthetics(name).None?
      invariant forall name :: name in synthetic && name !in left ==> SyntheticRecovered(run, name, synthetics, records)
      invariant forall f :: f in records ==>
        (f in before && records[f] == before[f]) || OfSynthetic(run, synthetic, synthetics, records[f])
      decreases left
    {
      var name :| name in left;
      match synthetics(name) {
        case None =>
          failures := failures + {name};
        case Some(rows) =>
          ghost var previous := records;
          records := RecoverSynthetic(run, name, rows, records);
          forall other | other in synthetic && other !in left
            ensures SyntheticRecovered(run, other, synthetics, records)
          {
            SyntheticGrows(run, other, synthetics, previous, records);
          }
      }
      left := left - {name};
    }
  }

  ghost predicate OfSynthetic(run: string, synthetic: set<string>, synthetics: string -> Reply, row: HistoryRow) {
    && row.alertName in synthetic && synthetics(row.alertName).Some? && row in synthetics(row.alertName).value
    && Synthetic(run, row.alertName, row)
  }

  lemma {:induction false} SyntheticGrows(run: string, name: string, synthetics: string -> Reply, before: Records,
                                          after: Records)
    requires SyntheticRecovered(run, name, synthetics, before) && Grows(before, after)
    ensures SyntheticRecovered(run, name, synthetics, after)
  {
  }

  /** Every attempt that is not missing, and every row of the run under an emitted name, is recovered. */
  ghost predicate Complete(run: string, expected: map<Key, Wanted>, synthetic: set<string>, sources: string -> Reply,
                           synthetics: string -> Reply, recovered: seq<HistoryRow>) {
    && (forall k :: k in expected && sources(k.alertName).Some? && !KeyMissing(run, expected, sources, k) ==>
          forall r :: r in sources(k.alertName).value && Matches(run, k, expected[k], r) ==> Recovers(recovered, r))
    && (forall name, r :: name in synthetic && synthetics(name).Some? && r in synthetics(name).value && Synthetic(run, name, r) ==> Recovers(recovered, r))
  }

  method Discover(run: string, cases: seq<Case>, attempts: seq<Attempt>, sources: string -> Reply,
                  synthetics: string -> Reply)
    returns (expected: map<Key, Wanted>, synthetic: set<string>, recovered: seq<HistoryRow>, ok: bool)
    ensures Expects(cases, attempts, expected) && Emitted(cases, synthetic)
    ensures ok <==> expected != map[] && forall m :: !IsMissing(run, expected, synthetic, sources, synthetics, m)
    ensures Sorted(recovered)
    ensures forall i, j :: 0 <= i < j < |recovered| ==> recovered[i].fingerprint != recovered[j].fingerprint
    ensures expected == map[] ==> recovered == []
    ensures forall r :: r in recovered ==> Sound(run, expected, synthetic, sources, synthetics, r)
    ensures expected != map[] ==> Complete(run, expected, synthetic, sources, synthetics, recovered)
  {
    synthetic := EmittedNames(cases);
    expected := ExpectedSources(cases, attempts);
    if expected == map[] {
      return expected, synthetic, [], false;
    }
    var records, failures := RecoverSources(run, expected, sources);
    var all, unread := RecoverAllSynthetic(run, synthetic, synthetics, records);
    var values := Values(all);
    recovered := UniqueHistory(values);
    ok := failures == {} && unread == {};
    FailuresExact(run, expected, synthetic, sources, synthetics, failures, unread);
    AllRecovered(run, expected, synthetic, sources, synthetics, records, all, values, recovered);
    forall r | r in recovered ensures Sound(run, expected, synthetic, sources, synthetics, r) {
      assert all[r.fingerprint] == r;
    }
  }

  lemma {:induction false} FailuresExact(run: string, expected: map<Key, Wanted>, synthetic: set<string>,
                                         sources: string -> Reply, synthetics: string -> Reply, failures: set<Missing>,
                                         unread: set<string>)
    requires forall m :: m in failures <==> IsMissing(run, expected, {}, sources, _ => None, m)
    requires forall name :: name in unread <==> name in synthetic && synthetics(name).None?
    ensures (failures == {} && unread == {}) <==>
      forall m :: !IsMissing(run, expected, synthetic, sources, synthetics, m)
  {
    if failures != {} {
      var m :| m in failures;
      assert IsMissing(run, expected, synthetic, sources, synthetics, m);
    } else if unread != {} {
      var name :| name in unread;
      assert IsMissing(run, expected, synthetic, sources, synthetics, SyntheticUnread(name));
    } else {
      forall m ensures !IsMissing(run, expected, synthetic, sources, synthetics, m) {
        assert m !in failures;
        assert m.SyntheticUnread? ==> m.name !in unread;
      }
    }
  }

  lemma {:induction false} AllRecovered(run: string, expected: map<Key, Wanted>, synthetic: set<string>,
                                        sources: string -> Reply, synthetics: string -> Reply,
                     records: Records, all: Records, values: seq<HistoryRow>, recovered: seq<HistoryRow>)
    requires SourcesRecovered(run, expected, (set k | k in expected :: k.alertName), sources, records)
    requires Grows(records, all)
    requires forall name :: name in synthetic ==> SyntheticRecovered(run, name, synthetics, all)
    requires forall r :: r in values <==> r.fingerprint in all && all[r.fingerprint] == r
    requires Keyed(all) && forall f :: f in all ==> f != ""
    requires LatestOf(values, recovered)
    ensures Complete(run, expected, synthetic, sources, synthetics, recovered)
  {
    forall r | Covers(all, r) ensures Recovers(recovered, r) {
      assert all[r.fingerprint] in values;
    }
    forall k, r | k in expected && sources(k.alertName).Some? && !KeyMissing(run, expected, sources, k)
      && r in sources(k.alertName).value && Matches(run, k, expected[k], r) ensures Covers(all, r)
    {
      CoveredGrows(run, k, expected[k], sources(k.alertName).value, records, all);
    }
  }
}
