/** What the recovery of sent alerts comes to, stated on the plan, the attempts and the replies alone. */
module RecoveryLaws {
  import opened Common
  import opened History
  import opened Injection
  import opened Discovery

  /** The row is evidence of the last attempt of this key, whose evidence suffices. */
  ghost predicate Proves(run: string, cases: seq<Case>, attempts: seq<Attempt>, sources: string -> Reply, k: Key,
                         row: HistoryRow) {
    var w := LastWanted(cases, attempts, k);
    && w.Some? && sources(k.alertName).Some? && row in sources(k.alertName).value && Matches(run, k, w.value, row)
    && Evident(run, k, w.value, sources(k.alertName).value)
  }

  /** The row is of this run, under the alert name a rule of the plan emits. */
  ghost predicate EmittedRow(run: string, cases: seq<Case>, synthetics: string -> Reply, row: HistoryRow) {
    && (exists c :: c in cases && EmitsAs(c, row.alertName)) && synthetics(row.alertName).Some?
    && row in synthetics(row.alertName).value && Synthetic(run, row.alertName, row)
  }

  /** Some attempt maps to the plan. */
  ghost predicate Mapped(cases: seq<Case>, attempts: seq<Attempt>) {
    exists k :: LastWanted(cases, attempts, k).Some?
  }

  ghost predicate Recoverable(run: string, cases: seq<Case>, attempts: seq<Attempt>, sources: string -> Reply,
                              synthetics: string -> Reply, row: HistoryRow) {
    || (exists k :: Proves(run, cases, attempts, sources, k, row))
    || (Mapped(cases, attempts) && EmittedRow(run, cases, synthetics, row))
  }

  /** The rows recovered are recoverable ones, and every recoverable row is there, at its episode or a later one. */
  ghost predicate RecoveredFrom(run: string, cases: seq<Case>, attempts: seq<Attempt>, sources: string -> Reply,
                                synthetics: string -> Reply, rows: seq<HistoryRow>) {
    && Sorted(rows) && (forall r :: r in rows ==> Recoverable(run, cases, attempts, sources, synthetics, r))
    && forall r :: Recoverable(run, cases, attempts, sources, synthetics, r) ==> Recovers(rows, r)
  }

  /** Every name was read and the last attempt of every key has its evidence. */
  ghost predicate AllEvident(run: string, cases: seq<Case>, attempts: seq<Attempt>, sources: string -> Reply,
                             synthetics: string -> Reply) {
    && Mapped(cases, attempts)
    && (forall k :: LastWanted(cases, attempts, k).Some? ==> KeyEvident(run, cases, attempts, sources, k))
    && forall c :: c in cases && c.rule.emitAlertName != "" ==> synthetics(c.rule.emitAlertName).Some?
  }

  ghost predicate KeyEvident(run: string, cases: seq<Case>, attempts: seq<Attempt>, sources: string -> Reply, k: Key)
    requires LastWanted(cases, attempts, k).Some?
  {
    && sources(k.alertName).Some?
    && Evident(run, k, LastWanted(cases, attempts, k).value, sources(k.alertName).value)
  }

  lemma {:induction false} ExpectedIs(cases: seq<Case>, attempts: seq<Attempt>, expected: map<Key, Wanted>)
    requires Expects(cases, attempts, expected)
    ensures forall k :: k in expected <==> LastWanted(cases, attempts, k).Some?
    ensures forall k :: k in expected ==> LastWanted(cases, attempts, k) == Some(expected[k])
    ensures expected != map[] <==> Mapped(cases, attempts)
  {
    forall k ensures k in expected <==> LastWanted(cases, attempts, k).Some?
      ensures k in expected ==> LastWanted(cases, attempts, k) == Some(expected[k])
    {
      assert Entry(expected, k) == LastWanted(cases, attempts, k);
    }
    if expected != map[] { assert exists k :: k in expected; }
  }

  /** The recovery succeeds exactly when everything is evident. */
  lemma {:induction false} SucceedsIff(run: string, cases: seq<Case>, attempts: seq<Attempt>, sources: string -> Reply,
                                       synthetics: string -> Reply, expected: map<Key, Wanted>, synthetic: set<string>)
    requires Expects(cases, attempts, expected) && Emitted(cases, synthetic)
    ensures (expected != map[] && forall m :: !IsMissing(run, expected, synthetic, sources, synthetics, m)) <==>
      AllEvident(run, cases, attempts, sources, synthetics)
  {
    ExpectedIs(cases, attempts, expected);
    if expected != map[] && forall m :: !IsMissing(run, expected, synthetic, sources, synthetics, m) {
      forall k | LastWanted(cases, attempts, k).Some? ensures KeyEvident(run, cases, attempts, sources, k) {
        assert !IsMissing(run, expected, synthetic, sources, synthetics, SourceUnread(k.alertName));
        assert !IsMissing(run, expected, synthetic, sources, synthetics, NotExact(k));
      }
      forall c | c in cases && c.rule.emitAlertName != "" ensures synthetics(c.rule.emitAlertName).Some? {
        assert EmitsAs(c, c.rule.emitAlertName);
        assert !IsMissing(run, expected, synthetic, sources, synthetics, SyntheticUnread(c.rule.emitAlertName));
      }
    }
    if AllEvident(run, cases, attempts, sources, synthetics) {
      forall m ensures !IsMissing(run, expected, synthetic, sources, synthetics, m) {
        NotMissing(run, cases, attempts, sources, synthetics, expected, synthetic, m);
      }
    }
  }

  lemma {:induction false} NotMissing(run: string, cases: seq<Case>, attempts: seq<Attempt>, sources: string -> Reply,
                                      synthetics: string -> Reply, expected: map<Key, Wanted>, synthetic: set<string>,
                                      m: Missing)
    requires Expects(cases, attempts, expected) && Emitted(cases, synthetic)
    requires AllEvident(run, cases, attempts, sources, synthetics)
    ensures !IsMissing(run, expected, synthetic, sources, synthetics, m)
  {
    ExpectedIs(cases, attempts, expected);
    match m {
      case SourceUnread(name) =>
        forall k | k in expected && k.alertName == name ensures sources(name).Some? {
          assert KeyEvident(run, cases, attempts, sources, k);
        }
      case NotExact(k) =>
        if k in expected { assert KeyEvident(run, cases, attempts, sources, k); }
      case SyntheticUnread(name) =>
        if name in synthetic { var c :| c in cases && EmitsAs(c, name); }
    }
  }

  lemma {:induction false} RecoveredExactly(run: string, cases: seq<Case>, attempts: seq<Attempt>,
                                            sources: string -> Reply, synthetics: string -> Reply,
                                            expected: map<Key, Wanted>, synthetic: set<string>, rows: seq<HistoryRow>)
    requires Expects(cases, attempts, expected) && Emitted(cases, synthetic) && Sorted(rows)
    requires forall r :: r in rows ==> Sound(run, expected, synthetic, sources, synthetics, r)
    requires if expected == map[] then rows == []
             else Complete(run, expected, synthetic, sources, synthetics, rows)
    ensures RecoveredFrom(run, cases, attempts, sources, synthetics, rows)
  {
    ExpectedIs(cases, attempts, expected);
    forall r | r in rows ensures Recoverable(run, cases, attempts, sources, synthetics, r) {
      SoundIsRecoverable(run, cases, attempts, sources, synthetics, expected, synthetic, r);
    }
    forall r | Recoverable(run, cases, attempts, sources, synthetics, r) ensures Recovers(rows, r) {
      RecoverableIsRecovered(run, cases, attempts, sources, synthetics, expected, synthetic, rows, r);
    }
  }

  lemma {:induction false} SoundIsRecoverable(run: string, cases: seq<Case>, attempts: seq<Attempt>,
                                              sources: string -> Reply, synthetics: string -> Reply,
                                              expected: map<Key, Wanted>, synthetic: set<string>, r: HistoryRow)
    requires Expects(cases, attempts, expected) && Emitted(cases, synthetic) && expected != map[]
    requires Sound(run, expected, synthetic, sources, synthetics, r)
    ensures Recoverable(run, cases, attempts, sources, synthetics, r)
  {
    ExpectedIs(cases, attempts, expected);
    if sources(r.alertName).Some? && OfWanted(run, expected, r.alertName, sources(r.alertName).value, r) {
      var k :| k in expected && k.alertName == r.alertName && Matches(run, k, expected[k], r)
               && Evident(run, k, expected[k], sources(r.alertName).value);
      assert Proves(run, cases, attempts, sources, k, r);
    } else {
      assert EmittedRow(run, cases, synthetics, r);
    }
  }

  lemma {:induction false} RecoverableIsRecovered(run: string, cases: seq<Case>, attempts: seq<Attempt>,
                                                  sources: string -> Reply, synthetics: string -> Reply,
                                                  expected: map<Key, Wanted>, synthetic: set<string>,
                                                  rows: seq<HistoryRow>, r: HistoryRow)
    requires Expects(cases, attempts, expected) && Emitted(cases, synthetic)
    requires expected != map[] ==> Complete(run, expected, synthetic, sources, synthetics, rows)
    requires Recoverable(run, cases, attempts, sources, synthetics, r)
    ensures Recovers(rows, r)
  {
    ExpectedIs(cases, attempts, expected);
    if k :| Proves(run, cases, attempts, sources, k, r) {
      assert k in expected && !KeyMissing(run, expected, sources, k);
    } else {
      assert r.alertName in synthetic;
    }
  }

  /** What an uncertain send needs of a History row: this run and event, its own start, and every label it was planned
      with. */
  ghost predicate OwnRow(run: string, k: Key, w: Wanted, row: HistoryRow) {
    && row.alertName == k.alertName && row.fingerprint != "" && Label(row.labels, TestRunId) == run
    && Label(row.labels, TestEventId) == k.eventId && row.startsAt == w.attempt.startsAt
    && forall l :: l in w.alert.labels ==> l in row.labels && row.labels[l] == w.alert.labels[l]
  }

  ghost predicate OneAlert(run: string, k: Key, w: Wanted, rows: seq<HistoryRow>, fingerprint: string) {
    && (exists r :: r in rows && OwnRow(run, k, w, r) && r.fingerprint == fingerprint)
    && forall r :: r in rows && OwnRow(run, k, w, r) ==> r.fingerprint == fingerprint
  }

  /** The evidence of an uncertain send is exactly one alert with its own start and labels. */
  lemma UncertainEvidence(run: string, k: Key, w: Wanted, rows: seq<HistoryRow>)
    requires w.attempt.sendState == Attempted
    ensures Evident(run, k, w, rows) <==>
      w.attempt.startsAt != 0 && exists f :: OneAlert(run, k, w, rows, f)
  {
    assert w.attempt.startsAt != 0 ==> forall r :: Matches(run, k, w, r) <==> OwnRow(run, k, w, r);
    if Evident(run, k, w, rows) {
      var r :| r in rows && Matches(run, k, w, r);
      assert OneAlert(run, k, w, rows, r.fingerprint);
    }
  }

  /** A confirmed send is evident in any row of its run and event. */
  lemma ConfirmedEvidence(run: string, k: Key, w: Wanted, rows: seq<HistoryRow>)
    requires w.attempt.sendState == Sent
    ensures Evident(run, k, w, rows) <==>
      exists r :: r in rows && r.alertName == k.alertName && r.fingerprint != "" && Label(r.labels, TestRunId) == run
                  && Label(r.labels, TestEventId) == k.eventId
  {
    if r :| r in rows && r.alertName == k.alertName && r.fingerprint != "" && Label(r.labels, TestRunId) == run
            && Label(r.labels, TestEventId) == k.eventId {
      assert Matches(run, k, w, r);
    }
  }
}
