/** What the oracle's verdict means, independently of the order in which rows are read. */
module OracleLaws {
  import opened Common
  import opened History
  import opened Manifest
  import opened Oracle

  /** The bounds a manifest was frozen with hold, and the rule is the installed one. */
  ghost predicate Installed(m: Manifest, rule: Rule) {
    && m.version == INSTALLED_INPUT_VERSION && m.boundsHold
    && rule == Rule(rule.id, "corrtest-operational-v1-flood", "flood") && rule.id >= 1
  }

  // ---------- contradictions, stated on the three populations as multisets ----------

  ghost predicate ActiveBad(roll: Roll, row: ActiveRow) {
    var source := Source(row.labels);
    !row.canonical || source !in roll.identities || row.startsAt != roll.startsAt || !LabelsAgree(row.labels, roll.identities[source])
  }

  ghost predicate SameNative(x: ActiveRow, y: ActiveRow) {
    Source(x.labels) == Source(y.labels) || x.fingerprint == y.fingerprint
  }

  ghost predicate ActiveClash(roll: Roll, A: multiset<ActiveRow>) {
    || (exists row :: row in A && ActiveBad(roll, row))
    || (exists x, y :: TwoIn(A, x, y) && SameNative(x, y))
  }

  /** The row names its alert, its source, its native alert and itself. */
  ghost predicate Attributed(row: HistoryRow) {
    && !Blank(row.fingerprint) && !Blank(Source(row.labels))
    && !Blank(Label(row.labels, AmFingerprint)) && !Blank(Label(row.labels, OscarFingerprint))
  }

  /** The row is the firing episode of an identity, under its own fingerprint. */
  ghost predicate EpisodeOf(roll: Roll, row: HistoryRow, want: Labels) {
    && row.status == Firing && row.startsAt == roll.startsAt && row.alertName == Label(want, AlertName)
    && row.fingerprint == Label(row.labels, OscarFingerprint)
    && forall k :: k in want ==> row.MatchesInputLabel(k, want[k])
  }

  ghost predicate HistoryBad(roll: Roll, row: HistoryRow) {
    var source := Source(row.labels);
    !Attributed(row) || source !in roll.identities || !EpisodeOf(roll, row, roll.identities[source])
  }

  ghost predicate SameEpisode(x: HistoryRow, y: HistoryRow) {
    Source(x.labels) == Source(y.labels) || x.fingerprint == y.fingerprint
  }

  /** A History row names another native fingerprint than the Active row of its own source. */
  ghost predicate Mislinked(h: HistoryRow, a: ActiveRow) {
    Source(a.labels) == Source(h.labels) && Label(h.labels, AmFingerprint) != a.fingerprint
  }

  ghost predicate HistoryClash(roll: Roll, A: multiset<ActiveRow>, H: multiset<HistoryRow>) {
    || (exists row :: row in H && HistoryBad(roll, row))
    || (exists x, y :: TwoIn(H, x, y) && SameEpisode(x, y))
    || (exists h, a :: h in H && a in A && Mislinked(h, a))
  }

  ghost predicate Joins(roll: Roll, A: multiset<ActiveRow>, row: AuditRow, site: string) {
    exists a :: a in A && a.fingerprint == row.fingerprint && SiteOfSource(roll, Source(a.labels)) == site
  }

  ghost predicate SameDecision(x: AuditRow, y: AuditRow) {
    x.id == y.id || x.fingerprint == y.fingerprint
  }

  ghost predicate AuditClash(roll: Roll, A: multiset<ActiveRow>, U: multiset<AuditRow>) {
    || (exists row :: row in U && !row.canonical)
    || (exists x, y :: TwoIn(U, x, y) && SameDecision(x, y))
    || (exists row :: row in U && |A| >= roll.count && forall a :: a in A ==> a.fingerprint != row.fingerprint)
    || (exists x, y, site :: x in U && y in U && Joins(roll, A, x, site) && Joins(roll, A, y, site) && x.window != y.window)
    || (exists x, y, s, t :: x in U && y in U && Joins(roll, A, x, s) && Joins(roll, A, y, t) && s != t && x.window == y.window)
    || (exists row, site :: row in U && Joins(roll, A, row, site) && !Deciding(row.outcome))
  }

  ghost function Decided(roll: Roll, A: multiset<ActiveRow>, U: multiset<AuditRow>, site: string,
                         outcome: Outcome): set<AuditRow> {
    set row | row in U && row.outcome == outcome && Joins(roll, A, row, site)
  }

  ghost predicate TooMany(roll: Roll, g: Group, A: multiset<ActiveRow>, U: multiset<AuditRow>) {
    || |Decided(roll, A, U, g.site, Enriched)| > g.expectedEnriched
    || |Decided(roll, A, U, g.site, ParentEmitted)| > g.expectedParentEmitted
  }

  ghost predicate NotExact(roll: Roll, g: Group, A: multiset<ActiveRow>, U: multiset<AuditRow>) {
    || |Decided(roll, A, U, g.site, Enriched)| != g.expectedEnriched
    || |Decided(roll, A, U, g.site, ParentEmitted)| != g.expectedParentEmitted
  }

  ghost predicate Full(roll: Roll, A: multiset<ActiveRow>, H: multiset<HistoryRow>, U: multiset<AuditRow>) {
    |A| == roll.count && |H| == roll.count && |U| == roll.count
  }

  /** The populations contradict the fixed scenario, whatever else may still arrive. */
  ghost predicate Clash(roll: Roll, groups: seq<Group>, A: multiset<ActiveRow>, H: multiset<HistoryRow>,
                        U: multiset<AuditRow>) {
    || |A| > roll.count || |H| > roll.count || |U| > roll.count
    || ActiveClash(roll, A) || HistoryClash(roll, A, H) || AuditClash(roll, A, U)
    || (exists g :: g in groups && TooMany(roll, g, A, U))
    || (Full(roll, A, H, U) && exists g :: g in groups && NotExact(roll, g, A, U))
  }

  // ---------- each population: a first fault exists exactly when its multiset clashes ----------

  ghost predicate ActiveFaulty(roll: Roll, rows: seq<ActiveRow>, k: nat) {
    k < |rows| && ActiveFault(roll, rows[..k], rows[k]).Some?
  }

  ghost predicate HistoryFaulty(roll: Roll, active: seq<ActiveRow>, rows: seq<HistoryRow>, k: nat) {
    k < |rows| && HistoryFault(roll, active, rows[..k], rows[k]).Some?
  }

  ghost predicate AuditFaulty(roll: Roll, active: seq<ActiveRow>, rows: seq<AuditRow>, k: nat) {
    k < |rows| && AuditFault(roll, active, rows[..k], rows[k]).Some?
  }

  lemma {:induction false} ActiveVerdictAt(roll: Roll, rows: seq<ActiveRow>, i: nat)
    requires i <= |rows|
    ensures ActiveVerdict(roll, rows, i).Some? <==> exists k: nat :: i <= k && ActiveFaulty(roll, rows, k)
    decreases |rows| - i
  {
    if i < |rows| {
      ActiveVerdictAt(roll, rows, i + 1);
      assert ActiveVerdict(roll, rows, i).Some? <==> ActiveFaulty(roll, rows, i) || ActiveVerdict(roll, rows, i + 1).Some?;
    }
  }

  lemma {:induction false} HistoryVerdictAt(roll: Roll, active: seq<ActiveRow>, rows: seq<HistoryRow>, i: nat)
    requires i <= |rows|
    ensures HistoryVerdict(roll, active, rows, i).Some? <==>
      exists k: nat :: i <= k && HistoryFaulty(roll, active, rows, k)
    decreases |rows| - i
  {
    if i < |rows| {
      HistoryVerdictAt(roll, active, rows, i + 1);
      assert HistoryVerdict(roll, active, rows, i).Some? <==>
        HistoryFaulty(roll, active, rows, i) || HistoryVerdict(roll, active, rows, i + 1).Some?;
    }
  }

  lemma {:induction false} AuditVerdictAt(roll: Roll, active: seq<ActiveRow>, rows: seq<AuditRow>, i: nat)
    requires i <= |rows|
    ensures AuditVerdict(roll, active, rows, i).Some? <==> exists k: nat :: i <= k && AuditFaulty(roll, active, rows, k)
    decreases |rows| - i
  {
    if i < |rows| {
      AuditVerdictAt(roll, active, rows, i + 1);
      assert AuditVerdict(roll, active, rows, i).Some? <==>
        AuditFaulty(roll, active, rows, i) || AuditVerdict(roll, active, rows, i + 1).Some?;
    }
  }

  /** Two positions in order: the earlier value is in the prefix before the later one. */
  lemma EarlierOf<T>(rows: seq<T>, x: T, y: T) returns (k: nat, other: T)
    requires TwoIn(multiset(rows), x, y)
    ensures k < |rows| && other in rows[..k] && ((rows[k] == x && other == y) || (rows[k] == y && other == x))
  {
    TwoPositions(rows, x, y);
    var i, j :| 0 <= i < |rows| && 0 <= j < |rows| && i != j && rows[i] == x && rows[j] == y;
    k := if i < j then j else i;
    other := if i < j then x else y;
    assert rows[..k][if i < j then i else j] == other;
  }

  lemma TwoOf<T>(rows: seq<T>, k: nat, other: T)
    requires k < |rows| && other in rows[..k]
    ensures TwoIn(multiset(rows), other, rows[k])
  {
    var j :| 0 <= j < k && rows[j] == other;
    TwoPositions(rows, other, rows[k]);
  }

  lemma ActiveFaultIff(roll: Roll, before: seq<ActiveRow>, row: ActiveRow)
    ensures ActiveFault(roll, before, row).Some? <==>
      ActiveBad(roll, row) || exists other :: other in before && SameNative(other, row)
  {
    if other :| other in before && SameNative(other, row) {
      assert Source(other.labels) in ActiveSources(before) && other.fingerprint in ActiveFingerprints(before);
    }
    if Source(row.labels) in ActiveSources(before) || row.fingerprint in ActiveFingerprints(before) {
      var other :| other in before && SameNative(other, row);
    }
  }

  lemma ActiveClashSound(roll: Roll, rows: seq<ActiveRow>)
    ensures ActiveVerdict(roll, rows, 0).Some? <==> ActiveClash(roll, multiset(rows))
  {
    ActiveVerdictAt(roll, rows, 0);
    if k: nat :| ActiveFaulty(roll, rows, k) {
      ActiveFaultIff(roll, rows[..k], rows[k]);
      assert rows[k] in multiset(rows);
      if other :| other in rows[..k] && SameNative(other, rows[k]) { TwoOf(rows, k, other); }
    }
    if row :| row in multiset(rows) && ActiveBad(roll, row) {
      var k :| 0 <= k < |rows| && rows[k] == row;
      ActiveFaultIff(roll, rows[..k], rows[k]);
      assert ActiveFaulty(roll, rows, k);
    }
    if x, y :| TwoIn(multiset(rows), x, y) && SameNative(x, y) {
      var k, other := EarlierOf(rows, x, y);
      assert SameNative(other, rows[k]);
      ActiveFaultIff(roll, rows[..k], rows[k]);
      assert ActiveFaulty(roll, rows, k);
    }
  }

  lemma HistoryFaultIff(roll: Roll, active: seq<ActiveRow>, before: seq<HistoryRow>, row: HistoryRow)
    ensures HistoryFault(roll, active, before, row).Some? <==>
      || HistoryBad(roll, row) || (exists other :: other in before && SameEpisode(other, row))
      || (exists a :: a in active && Mislinked(row, a))
  {
    if other :| other in before && SameEpisode(other, row) {
      assert Source(other.labels) in HistorySources(before) && other.fingerprint in HistoryFingerprints(before);
    }
    if Source(row.labels) in HistorySources(before) || row.fingerprint in HistoryFingerprints(before) {
      var other :| other in before && SameEpisode(other, row);
    }
    if a :| a in active && Mislinked(row, a) {
      assert Source(a.labels) == Source(row.labels);
    }
    if HistoryFault(roll, active, before, row) == Some(Evaluation(Violation, HistoryNativeLink)) {
      var a :| a in active && Source(a.labels) == Source(row.labels)
               && Label(row.labels, AmFingerprint) != a.fingerprint;
      assert Mislinked(row, a);
    }
  }

  lemma HistoryFaultyIsClash(roll: Roll, active: seq<ActiveRow>, rows: seq<HistoryRow>, k: nat)
    requires HistoryFaulty(roll, active, rows, k)
    ensures HistoryClash(roll, multiset(active), multiset(rows))
  {
    HistoryFaultIff(roll, active, rows[..k], rows[k]);
    assert rows[k] in multiset(rows);
    if other :| other in rows[..k] && SameEpisode(other, rows[k]) {
      TwoOf(rows, k, other);
    } else if a :| a in active && Mislinked(rows[k], a) {
      assert a in multiset(active);
    }
  }

  lemma HistoryClashIsFaulty(roll: Roll, active: seq<ActiveRow>, rows: seq<HistoryRow>) returns (k: nat)
    requires HistoryClash(roll, multiset(active), multiset(rows))
    ensures HistoryFaulty(roll, active, rows, k)
  {
    if x, y :| TwoIn(multiset(rows), x, y) && SameEpisode(x, y) {
      var other;
      k, other := EarlierOf(rows, x, y);
      assert SameEpisode(other, rows[k]);
    } else if row :| row in multiset(rows) && HistoryBad(roll, row) {
      k :| 0 <= k < |rows| && rows[k] == row;
    } else {
      var h, a :| h in multiset(rows) && a in multiset(active) && Mislinked(h, a);
      k :| 0 <= k < |rows| && rows[k] == h;
      assert a in active;
    }
    HistoryFaultIff(roll, active, rows[..k], rows[k]);
  }

  lemma HistoryClashSound(roll: Roll, active: seq<ActiveRow>, rows: seq<HistoryRow>)
    ensures HistoryVerdict(roll, active, rows, 0).Some? <==> HistoryClash(roll, multiset(active), multiset(rows))
  {
    HistoryVerdictAt(roll, active, rows, 0);
    if k: nat :| HistoryFaulty(roll, active, rows, k) { HistoryFaultyIsClash(roll, active, rows, k); }
    if HistoryClash(roll, multiset(active), multiset(rows)) { var k := HistoryClashIsFaulty(roll, active, rows); }
  }

  /** Without an Active clash the native-to-source join is a function. */
  lemma JoinIsFunction(roll: Roll, active: seq<ActiveRow>, row: AuditRow, site: string)
    requires !ActiveClash(roll, multiset(active))
    ensures JoinSite(roll, active, row.fingerprint) == Some(site) <==> Joins(roll, multiset(active), row, site)
  {
    JoinSiteExists(roll, active, row.fingerprint);
    if Joins(roll, multiset(active), row, site) {
      var a :| a in multiset(active) && a.fingerprint == row.fingerprint
               && SiteOfSource(roll, Source(a.labels)) == site;
      assert a in active && a.fingerprint in ActiveFingerprints(active);
      var b :| b in active && b.fingerprint == row.fingerprint
               && JoinSite(roll, active, row.fingerprint) == Some(SiteOfSource(roll, Source(b.labels)));
      if a != b { assert TwoIn(multiset(active), a, b) && SameNative(a, b); }
    }
  }

  lemma Unjoined(roll: Roll, active: seq<ActiveRow>, row: AuditRow)
    ensures JoinSite(roll, active, row.fingerprint).None? <==>
      forall a :: a in multiset(active) ==> a.fingerprint != row.fingerprint
  {
    JoinSiteExists(roll, active, row.fingerprint);
    if JoinSite(roll, active, row.fingerprint).Some? {
      var b :| b in active && b.fingerprint == row.fingerprint;
      assert b in multiset(active);
    } else {
      forall a | a in multiset(active) ensures a.fingerprint != row.fingerprint {
        assert a in active;
        assert a.fingerprint in ActiveFingerprints(active);
      }
    }
  }

  lemma AuditFaultIsClash(roll: Roll, active: seq<ActiveRow>, rows: seq<AuditRow>, k: nat)
    requires !ActiveClash(roll, multiset(active)) && AuditFaulty(roll, active, rows, k)
    ensures AuditClash(roll, multiset(active), multiset(rows))
  {
    var A, U, row := multiset(active), multiset(rows), rows[k];
    assert row in U;
    Unjoined(roll, active, row);
    if !row.canonical {
    } else if row.id in AuditIds(rows[..k]) || row.fingerprint in AuditFingerprints(rows[..k]) {
      var other :| other in rows[..k] && SameDecision(other, row);
      TwoOf(rows, k, other);
    } else if JoinSite(roll, active, row.fingerprint).Some? {
      var site := JoinSite(roll, active, row.fingerprint).value;
      JoinIsFunction(roll, active, row, site);
      if SplitsWindow(roll, active, rows[..k], row) {
        var other :| other in rows[..k] && JoinSite(roll, active, other.fingerprint) == Some(site)
                     && other.window != row.window;
        JoinIsFunction(roll, active, other, site);
        assert other in U;
      } else if SharesWindow(roll, active, rows[..k], row) {
        var other :| other in rows[..k] && JoinSite(roll, active, other.fingerprint).Some?
                     && JoinSite(roll, active, other.fingerprint) != Some(site) && other.window == row.window;
        JoinIsFunction(roll, active, other, JoinSite(roll, active, other.fingerprint).value);
        assert other in U;
      }
    }
  }

  /** A pair of rows with the same site and other windows, or the other way round, shows at its later row. */
  lemma AuditPairFault(roll: Roll, active: seq<ActiveRow>, rows: seq<AuditRow>, x: AuditRow, y: AuditRow, s: string,
                       t: string)
    returns (k: nat)
    requires !ActiveClash(roll, multiset(active)) && x in multiset(rows) && y in multiset(rows)
    requires Joins(roll, multiset(active), x, s) && Joins(roll, multiset(active), y, t)
    requires (s == t && x.window != y.window) || (s != t && x.window == y.window)
    ensures AuditFaulty(roll, active, rows, k)
  {
    JoinIsFunction(roll, active, x, s);
    JoinIsFunction(roll, active, y, t);
    assert x != y;
    var other;
    k, other := EarlierOf(rows, x, y);
    assert SplitsWindow(roll, active, rows[..k], rows[k]) || SharesWindow(roll, active, rows[..k], rows[k]);
  }

  lemma AuditTwiceFault(roll: Roll, active: seq<ActiveRow>, rows: seq<AuditRow>, x: AuditRow, y: AuditRow)
    returns (k: nat)
    requires TwoIn(multiset(rows), x, y) && SameDecision(x, y)
    ensures AuditFaulty(roll, active, rows, k)
  {
    var other;
    k, other := EarlierOf(rows, x, y);
    assert other.id in AuditIds(rows[..k]) && other.fingerprint in AuditFingerprints(rows[..k]);
  }

  lemma AuditRowFault(roll: Roll, active: seq<ActiveRow>, rows: seq<AuditRow>, row: AuditRow) returns (k: nat)
    requires row in multiset(rows)
    requires || !row.canonical
             || (JoinSite(roll, active, row.fingerprint).None? && |active| >= roll.count)
             || (JoinSite(roll, active, row.fingerprint).Some? && !Deciding(row.outcome))
    ensures AuditFaulty(roll, active, rows, k)
  {
    k :| 0 <= k < |rows| && rows[k] == row;
  }

  lemma AuditClashIsFault(roll: Roll, active: seq<ActiveRow>, rows: seq<AuditRow>) returns (k: nat)
    requires !ActiveClash(roll, multiset(active)) && AuditClash(roll, multiset(active), multiset(rows))
    ensures AuditFaulty(roll, active, rows, k)
  {
    var A, U := multiset(active), multiset(rows);
    if row :| row in U && !row.canonical {
      k := AuditRowFault(roll, active, rows, row);
    } else if x, y :| TwoIn(U, x, y) && SameDecision(x, y) {
      k := AuditTwiceFault(roll, active, rows, x, y);
    } else if row :| row in U && |A| >= roll.count && forall a :: a in A ==> a.fingerprint != row.fingerprint {
      Unjoined(roll, active, row);
      k := AuditRowFault(roll, active, rows, row);
    } else if x, y, site :| x in U && y in U && Joins(roll, A, x, site) && Joins(roll, A, y, site) && x.window != y.window {
      k := AuditPairFault(roll, active, rows, x, y, site, site);
    } else if x, y, s, t :| x in U && y in U && Joins(roll, A, x, s) && Joins(roll, A, y, t) && s != t && x.window == y.window {
      k := AuditPairFault(roll, active, rows, x, y, s, t);
    } else {
      var row, site :| row in U && Joins(roll, A, row, site) && !Deciding(row.outcome);
      JoinIsFunction(roll, active, row, site);
      k := AuditRowFault(roll, active, rows, row);
    }
  }

  lemma AuditClashSound(roll: Roll, active: seq<ActiveRow>, rows: seq<AuditRow>)
    requires !ActiveClash(roll, multiset(active))
    ensures AuditVerdict(roll, active, rows, 0).Some? <==> AuditClash(roll, multiset(active), multiset(rows))
  {
    AuditVerdictAt(roll, active, rows, 0);
    if k: nat :| AuditFaulty(roll, active, rows, k) { AuditFaultIsClash(roll, active, rows, k); }
    if AuditClash(roll, multiset(active), multiset(rows)) { var k := AuditClashIsFault(roll, active, rows); }
  }

  /** When no audit row repeats, counting by position is counting distinct rows. */
  lemma {:induction false} DecisionsAreDistinct(roll: Roll, active: seq<ActiveRow>, rows: seq<AuditRow>, site: string,
                                                outcome: Outcome)
    requires !ActiveClash(roll, multiset(active))
    requires forall x, y :: TwoIn(multiset(rows), x, y) ==> !SameDecision(x, y)
    ensures Decisions(roll, active, rows, site, outcome) == |Decided(roll, multiset(active), multiset(rows), site, outcome)|
    decreases |rows|
  {
    var A := multiset(active);
    if rows == [] {
      assert Decided(roll, A, multiset(rows), site, outcome) == {};
    } else {
      var init, last := rows[..|rows| - 1], rows[|rows| - 1];
      assert rows == init + [last];
      NoRepeatBefore(init, last);
      DecisionsAreDistinct(roll, active, init, site, outcome);
      JoinIsFunction(roll, active, last, site);
      DecidedStep(roll, A, multiset(init), last, site, outcome);
      assert multiset(rows) == multiset(init) + multiset{last};
    }
  }

  lemma NoRepeatBefore(init: seq<AuditRow>, last: AuditRow)
    requires forall x, y :: TwoIn(multiset(init + [last]), x, y) ==> !SameDecision(x, y)
    ensures forall x, y :: TwoIn(multiset(init), x, y) ==> !SameDecision(x, y)
    ensures last !in init
  {
    forall x, y | TwoIn(multiset(init), x, y) ensures !SameDecision(x, y) {
      TwoInMonotone(multiset(init), multiset(init + [last]), x, y);
    }
    if last in init { assert TwoIn(multiset(init + [last]), last, last) && SameDecision(last, last); }
  }

  lemma DecidedStep(roll: Roll, A: multiset<ActiveRow>, U: multiset<AuditRow>, row: AuditRow, site: string,
                    outcome: Outcome)
    requires row !in U
    ensures |Decided(roll, A, U + multiset{row}, site, outcome)|
         == |Decided(roll, A, U, site, outcome)| + (if row.outcome == outcome && Joins(roll, A, row, site) then 1 else 0)
  {
    var D, D' := Decided(roll, A, U, site, outcome), Decided(roll, A, U + multiset{row}, site, outcome);
    if row.outcome == outcome && Joins(roll, A, row, site) {
      assert D' == D + {row};
    } else {
      assert D' == D;
    }
  }

  lemma GroupCounts(roll: Roll, g: Group, active: seq<ActiveRow>, rows: seq<AuditRow>)
    requires !ActiveClash(roll, multiset(active)) && !AuditClash(roll, multiset(active), multiset(rows))
    ensures Decisions(roll, active, rows, g.site, Enriched) == |Decided(roll, multiset(active), multiset(rows), g.site, Enriched)|
    ensures Decisions(roll, active, rows, g.site, ParentEmitted) == |Decided(roll, multiset(active), multiset(rows), g.site, ParentEmitted)|
  {
    DecisionsAreDistinct(roll, active, rows, g.site, Enriched);
    DecisionsAreDistinct(roll, active, rows, g.site, ParentEmitted);
  }

  /** A group's tests over the rows are its tests over the populations. */
  lemma GroupTests(roll: Roll, g: Group, active: seq<ActiveRow>, rows: seq<AuditRow>)
    requires !ActiveClash(roll, multiset(active)) && !AuditClash(roll, multiset(active), multiset(rows))
    ensures TooMany(roll, g, multiset(active), multiset(rows)) <==> OverGroup(roll, g, active, rows)
    ensures NotExact(roll, g, multiset(active), multiset(rows)) <==> !ExactGroup(roll, g, active, rows)
  {
    GroupCounts(roll, g, active, rows);
  }

  ghost predicate OverGroup(roll: Roll, g: Group, active: seq<ActiveRow>, rows: seq<AuditRow>) {
    Decisions(roll, active, rows, g.site, Enriched) > g.expectedEnriched || Decisions(roll, active, rows, g.site, ParentEmitted) > g.expectedParentEmitted
  }

  ghost predicate ExactGroup(roll: Roll, g: Group, active: seq<ActiveRow>, rows: seq<AuditRow>) {
    && Decisions(roll, active, rows, g.site, Enriched) == g.expectedEnriched
    && Decisions(roll, active, rows, g.site, ParentEmitted) == g.expectedParentEmitted
  }

  lemma GroupsByMember(roll: Roll, groups: seq<Group>, active: seq<ActiveRow>, rows: seq<AuditRow>)
    ensures Overdecided(roll, groups, active, rows) <==> exists g :: g in groups && OverGroup(roll, g, active, rows)
    ensures DecidedExactly(roll, groups, active, rows) <==>
      forall g :: g in groups ==> ExactGroup(roll, g, active, rows)
  {
    if Overdecided(roll, groups, active, rows) {
      var i :| 0 <= i < |groups| && OverGroup(roll, groups[i], active, rows);
      assert groups[i] in groups;
    }
    if forall g :: g in groups ==> ExactGroup(roll, g, active, rows) {
      forall i | 0 <= i < |groups| ensures ExactGroup(roll, groups[i], active, rows) { assert groups[i] in groups; }
    }
  }

  lemma GroupClashSound(roll: Roll, groups: seq<Group>, active: seq<ActiveRow>, rows: seq<AuditRow>)
    requires !ActiveClash(roll, multiset(active)) && !AuditClash(roll, multiset(active), multiset(rows))
    ensures Overdecided(roll, groups, active, rows) <==>
      exists g :: g in groups && TooMany(roll, g, multiset(active), multiset(rows))
    ensures DecidedExactly(roll, groups, active, rows) <==>
      forall g :: g in groups ==> !NotExact(roll, g, multiset(active), multiset(rows))
  {
    GroupsByMember(roll, groups, active, rows);
    forall g | g in groups
      ensures TooMany(roll, g, multiset(active), multiset(rows)) <==> OverGroup(roll, g, active, rows)
      ensures NotExact(roll, g, multiset(active), multiset(rows)) <==> !ExactGroup(roll, g, active, rows)
    {
      GroupTests(roll, g, active, rows);
    }
  }

  /** The verdict is adverse exactly when the populations clash, whatever the order of their rows. */
  lemma AdverseIffClash(m: Manifest, rule: Rule, e: Evidence, history: seq<HistoryRow>)
    requires Contract(m, rule) && Decoded(e.history, RollOf(m).count) == Some(history)
    ensures Adverse(Judge(m, rule, e)) <==>
      Clash(RollOf(m), m.groups, multiset(e.active), multiset(history), multiset(e.audit))
    ensures Judge(m, rule, e).disposition == Eligible <==>
      !Clash(RollOf(m), m.groups, multiset(e.active), multiset(history), multiset(e.audit))
      && Full(RollOf(m), multiset(e.active), multiset(history), multiset(e.audit))
  {
    var roll := RollOf(m);
    ActiveClashSound(roll, e.active);
    if !ActiveClash(roll, multiset(e.active)) {
      HistoryClashSound(roll, e.active, history);
      AuditClashSound(roll, e.active, e.audit);
      if !AuditClash(roll, multiset(e.active), multiset(e.audit)) {
        GroupClashSound(roll, m.groups, e.active, e.audit);
      }
    }
    VerdictsAdverse(roll, e.active, history, e.audit);
  }

  lemma VerdictsAdverse(roll: Roll, active: seq<ActiveRow>, history: seq<HistoryRow>, audit: seq<AuditRow>)
    ensures ActiveVerdict(roll, active, 0).Some? ==> Adverse(ActiveVerdict(roll, active, 0).value)
    ensures HistoryVerdict(roll, active, history, 0).Some? ==> Adverse(HistoryVerdict(roll, active, history, 0).value)
    ensures AuditVerdict(roll, active, audit, 0).Some? ==> Adverse(AuditVerdict(roll, active, audit, 0).value)
  {
    ActiveVerdictAdverse(roll, active, 0);
    HistoryVerdictAdverse(roll, active, history, 0);
    AuditVerdictAdverse(roll, active, audit, 0);
  }

  lemma {:induction false} ActiveVerdictAdverse(roll: Roll, active: seq<ActiveRow>, i: nat)
    requires i <= |active|
    ensures ActiveVerdict(roll, active, i).Some? ==> Adverse(ActiveVerdict(roll, active, i).value)
    decreases |active| - i
  {
    if i < |active| { ActiveVerdictAdverse(roll, active, i + 1); }
  }

  lemma {:induction false} HistoryVerdictAdverse(roll: Roll, active: seq<ActiveRow>, history: seq<HistoryRow>, i: nat)
    requires i <= |history|
    ensures HistoryVerdict(roll, active, history, i).Some? ==> Adverse(HistoryVerdict(roll, active, history, i).value)
    decreases |history| - i
  {
    if i < |history| { HistoryVerdictAdverse(roll, active, history, i + 1); }
  }

  lemma {:induction false} AuditVerdictAdverse(roll: Roll, active: seq<ActiveRow>, audit: seq<AuditRow>, i: nat)
    requires i <= |audit|
    ensures AuditVerdict(roll, active, audit, i).Some? ==> Adverse(AuditVerdict(roll, active, audit, i).value)
    decreases |audit| - i
  {
    if i < |audit| { AuditVerdictAdverse(roll, active, audit, i + 1); }
  }

  // ---------- latching is justified: adverse findings are upward closed ----------

  lemma JoinsMonotone(roll: Roll, A: multiset<ActiveRow>, A': multiset<ActiveRow>, row: AuditRow, site: string)
    requires A <= A' && Joins(roll, A, row, site)
    ensures Joins(roll, A', row, site)
  {
    var a :| a in A && a.fingerprint == row.fingerprint && SiteOfSource(roll, Source(a.labels)) == site;
    assert a in A';
  }

  lemma ActiveClashMonotone(roll: Roll, A: multiset<ActiveRow>, A': multiset<ActiveRow>)
    requires A <= A' && ActiveClash(roll, A)
    ensures ActiveClash(roll, A')
  {
    if x, y :| TwoIn(A, x, y) && SameNative(x, y) {
      TwoInMonotone(A, A', x, y);
    } else {
      var row :| row in A && ActiveBad(roll, row);
      assert row in A';
    }
  }

  lemma HistoryClashMonotone(roll: Roll, A: multiset<ActiveRow>, A': multiset<ActiveRow>, H: multiset<HistoryRow>,
                             H': multiset<HistoryRow>)
    requires A <= A' && H <= H' && HistoryClash(roll, A, H)
    ensures HistoryClash(roll, A', H')
  {
    if x, y :| TwoIn(H, x, y) && SameEpisode(x, y) {
      TwoInMonotone(H, H', x, y);
    } else if row :| row in H && HistoryBad(roll, row) {
      assert row in H';
    } else {
      var h, a :| h in H && a in A && Mislinked(h, a);
      assert h in H' && a in A';
    }
  }

  lemma AuditClashMonotone(roll: Roll, A: multiset<ActiveRow>, A': multiset<ActiveRow>, U: multiset<AuditRow>,
                           U': multiset<AuditRow>)
    requires A <= A' && U <= U' && AuditClash(roll, A, U) && |A'| <= roll.count
    ensures AuditClash(roll, A', U')
  {
    assert forall row :: row in U ==> row in U';
    if x, y :| TwoIn(U, x, y) && SameDecision(x, y) {
      TwoInMonotone(U, U', x, y);
    } else if row :| row in U && !row.canonical {
    } else if row :| row in U && |A| >= roll.count && forall a :: a in A ==> a.fingerprint != row.fingerprint {
      MultisetSubsetCardinality(A, A');
    } else if x, y, site :| x in U && y in U && Joins(roll, A, x, site) && Joins(roll, A, y, site) && x.window != y.window {
      JoinsMonotone(roll, A, A', x, site);
      JoinsMonotone(roll, A, A', y, site);
    } else if x, y, s, t :| x in U && y in U && Joins(roll, A, x, s) && Joins(roll, A, y, t) && s != t && x.window == y.window {
      JoinsMonotone(roll, A, A', x, s);
      JoinsMonotone(roll, A, A', y, t);
    } else {
      var row, site :| row in U && Joins(roll, A, row, site) && !Deciding(row.outcome);
      JoinsMonotone(roll, A, A', row, site);
    }
  }

  lemma DecidedMonotone(roll: Roll, A: multiset<ActiveRow>, A': multiset<ActiveRow>, U: multiset<AuditRow>,
                        U': multiset<AuditRow>,
                        site: string, outcome: Outcome)
    requires A <= A' && U <= U'
    ensures |Decided(roll, A, U, site, outcome)| <= |Decided(roll, A', U', site, outcome)|
  {
    forall row | row in Decided(roll, A, U, site, outcome) ensures row in Decided(roll, A', U', site, outcome) {
      JoinsMonotone(roll, A, A', row, site);
      assert row in U';
    }
    SubsetCardinality(Decided(roll, A, U, site, outcome), Decided(roll, A', U', site, outcome));
  }

  lemma ClashMonotone(roll: Roll, groups: seq<Group>, A: multiset<ActiveRow>, A': multiset<ActiveRow>,
                      H: multiset<HistoryRow>,
                      H': multiset<HistoryRow>, U: multiset<AuditRow>, U': multiset<AuditRow>)
    requires A <= A' && H <= H' && U <= U' && Clash(roll, groups, A, H, U)
    ensures Clash(roll, groups, A', H', U')
  {
    MultisetSubsetCardinality(A, A');
    MultisetSubsetCardinality(H, H');
    MultisetSubsetCardinality(U, U');
    if |A'| <= roll.count && |H'| <= roll.count && |U'| <= roll.count {
      if ActiveClash(roll, A) {
        ActiveClashMonotone(roll, A, A');
      } else if HistoryClash(roll, A, H) {
        HistoryClashMonotone(roll, A, A', H, H');
      } else if AuditClash(roll, A, U) {
        AuditClashMonotone(roll, A, A', U, U');
      } else if g :| g in groups && TooMany(roll, g, A, U) {
        DecidedMonotone(roll, A, A', U, U', g.site, Enriched);
        DecidedMonotone(roll, A, A', U, U', g.site, ParentEmitted);
        assert TooMany(roll, g, A', U');
      } else {
        assert A == A' && H == H' && U == U';
      }
    }
  }

  /** Adding rows to any population never turns an adverse verdict into Incomplete or Eligible. */
  lemma AdverseUpwardClosed(m: Manifest, rule: Rule, e: Evidence, e': Evidence, history: seq<HistoryRow>)
    requires Decoded(e.history, RollOf(m).count) == Some(history)
    requires multiset(e.active) <= multiset(e'.active) && multiset(e.audit) <= multiset(e'.audit)
    requires Decoded(e'.history, RollOf(m).count).Some? ==>
      multiset(history) <= multiset(Decoded(e'.history, RollOf(m).count).value)
    requires Adverse(Judge(m, rule, e))
    ensures Adverse(Judge(m, rule, e'))
  {
    if Contract(m, rule) {
      AdverseIffClash(m, rule, e, history);
      if Decoded(e'.history, RollOf(m).count).Some? {
        var history' := Decoded(e'.history, RollOf(m).count).value;
        AdverseIffClash(m, rule, e', history');
        ClashMonotone(RollOf(m), m.groups, multiset(e.active), multiset(e'.active), multiset(history), multiset(history'),
                      multiset(e.audit), multiset(e'.audit));
      } else {
        VerdictsAdverse(RollOf(m), e'.active, [], []);
      }
    }
  }

  /** Every part of an Eligible observation is itself Incomplete or Eligible. */
  lemma PartOfEligible(m: Manifest, rule: Rule, part: Evidence, whole: Evidence, history: seq<HistoryRow>)
    requires Decoded(part.history, RollOf(m).count) == Some(history)
    requires multiset(part.active) <= multiset(whole.active) && multiset(part.audit) <= multiset(whole.audit)
    requires Decoded(whole.history, RollOf(m).count).Some? ==>
      multiset(history) <= multiset(Decoded(whole.history, RollOf(m).count).value)
    requires Judge(m, rule, whole).disposition == Eligible
    ensures Judge(m, rule, part).disposition in {Incomplete, Eligible}
  {
    if Adverse(Judge(m, rule, part)) {
      AdverseUpwardClosed(m, rule, part, whole, history);
    }
  }

  /** Reordering rows changes at most which fault is named: the class of the verdict stays. */
  lemma ReorderingKeepsClass(m: Manifest, rule: Rule, e: Evidence, e': Evidence, history: seq<HistoryRow>,
                             history': seq<HistoryRow>)
    requires Decoded(e.history, RollOf(m).count) == Some(history)
    requires Decoded(e'.history, RollOf(m).count) == Some(history')
    requires multiset(e.active) == multiset(e'.active) && multiset(e.audit) == multiset(e'.audit)
    requires multiset(history) == multiset(history')
    ensures Adverse(Judge(m, rule, e)) <==> Adverse(Judge(m, rule, e'))
    ensures Judge(m, rule, e).disposition == Eligible <==> Judge(m, rule, e').disposition == Eligible
    ensures Judge(m, rule, e).disposition == Incomplete <==> Judge(m, rule, e').disposition == Incomplete
  {
    if Contract(m, rule) {
      AdverseIffClash(m, rule, e, history);
      AdverseIffClash(m, rule, e', history');
    }
  }
}
