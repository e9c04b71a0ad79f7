/** Eligible means an exact three-way match of the populations with the fixed scenario. */
module OracleExact {
  import opened Common
  import opened History
  import opened Manifest
  import opened Oracle
  import opened OracleLaws

  /** The Active rows are exactly the scenario's identities, one each, with distinct native fingerprints. */
  ghost predicate ActiveExact(roll: Roll, active: seq<ActiveRow>) {
    && |active| == roll.count && ActiveSources(active) == roll.identities.Keys
    && |ActiveFingerprints(active)| == roll.count
    && forall a :: a in active ==> a.canonical && a.startsAt == roll.startsAt && a.labels == roll.identities[Source(a.labels)]
  }

  /** The History rows are exactly the scenario's episodes, one each, linked to their own native fingerprint. */
  ghost predicate HistoryExact(roll: Roll, active: seq<ActiveRow>, history: seq<HistoryRow>) {
    && |history| == roll.count && HistorySources(history) == roll.identities.Keys
    && |HistoryFingerprints(history)| == roll.count
    && (forall h :: h in history ==> Attributed(h) && EpisodeOf(roll, h, roll.identities[Source(h.labels)]))
    && forall h, a :: h in history && a in active && Source(a.labels) == Source(h.labels) ==> Label(h.labels, AmFingerprint) == a.fingerprint
  }

  /** One deciding audit row for each Active fingerprint; rows share a window exactly when they share a site. */
  ghost predicate AuditExact(roll: Roll, active: seq<ActiveRow>, audit: seq<AuditRow>) {
    && |audit| == roll.count && AuditFingerprints(audit) == ActiveFingerprints(active)
    && |AuditIds(audit)| == roll.count
    && (forall u :: u in audit ==> u.canonical && Deciding(u.outcome))
    && forall x, y :: x in audit && y in audit ==>
         (JoinSite(roll, active, x.fingerprint) == JoinSite(roll, active, y.fingerprint) <==> x.window == y.window)
  }

  ghost predicate ExactMatch(roll: Roll, groups: seq<Group>, active: seq<ActiveRow>, history: seq<HistoryRow>,
                             audit: seq<AuditRow>) {
    ActiveExact(roll, active) && HistoryExact(roll, active, history) && AuditExact(roll, active, audit)
    && DecidedExactly(roll, groups, active, audit)
  }

  /** The run token and the site names are not empty, as in every frozen manifest. */
  ghost predicate Named(m: Manifest) {
    m.run != "" && forall g :: g in m.groups ==> g.site != ""
  }

  lemma IdentityValues(m: Manifest, source: string)
    requires Named(m) && source in RollOf(m).identities
    ensures forall k :: k in RollOf(m).identities[source] ==> RollOf(m).identities[source][k] != ""
  {
    var n := InputCount(m.groups);
    ExpectedKeys(m, n, source);
    var i: nat :| i < n && source == SourceId(m.run, i);
    ExpectedValue(m, n, i);
    var g := SiteOfGroup(m.groups, i);
    assert m.groups[g] in m.groups;
  }

  /** A row that agrees with an identity whose values are not empty has exactly its labels. */
  lemma AgreeIsEqual(row: Labels, want: Labels)
    requires forall k :: k in want ==> want[k] != ""
    ensures LabelsAgree(row, want) <==> row == want
  {
    if LabelsAgree(row, want) {
      forall k | k in want ensures k in row && row[k] == want[k] { assert Label(row, k) == want[k]; }
      SubsetCardinality(want.Keys, row.Keys);
    }
  }

  /** The values of a key over the rows. */
  ghost function KeySet<R, K>(rows: seq<R>, key: R -> K): set<K> {
    set r | r in rows :: key(r)
  }

  /** There are as many values of a key as rows exactly when no two rows share one. */
  lemma {:induction false} DistinctByKey<R(!new), K>(rows: seq<R>, key: R -> K)
    ensures |KeySet(rows, key)| == |rows| <==> forall x, y :: TwoIn(multiset(rows), x, y) ==> key(x) != key(y)
  {
    var keys := seq(|rows|, i requires 0 <= i < |rows| => key(rows[i]));
    DistinctCardinality(keys);
    KeysAreElements(rows, key, keys);
    if Distinct(keys) {
      forall x, y | TwoIn(multiset(rows), x, y) ensures key(x) != key(y) {
        TwoPositions(rows, x, y);
        var i, j :| 0 <= i < |rows| && 0 <= j < |rows| && i != j && rows[i] == x && rows[j] == y;
        assert keys[i] != keys[j];
      }
    } else {
      var i, j :| 0 <= i < j < |rows| && keys[i] == keys[j];
      TwoPositions(rows, rows[i], rows[j]);
      assert TwoIn(multiset(rows), rows[i], rows[j]);
    }
  }

  lemma {:induction false} KeysAreElements<R, K>(rows: seq<R>, key: R -> K, keys: seq<K>)
    requires |keys| == |rows| && forall i :: 0 <= i < |rows| ==> keys[i] == key(rows[i])
    ensures Elements(keys) == KeySet(rows, key)
  {
    forall k | k in Elements(keys) ensures k in KeySet(rows, key) {
      var i :| 0 <= i < |keys| && keys[i] == k;
      assert rows[i] in rows;
    }
    forall r | r in rows ensures key(r) in Elements(keys) {
      var i :| 0 <= i < |rows| && rows[i] == r;
      assert keys[i] in keys;
    }
  }

  lemma ActiveDistinctIff(rows: seq<ActiveRow>)
    ensures |ActiveSources(rows)| == |rows| && |ActiveFingerprints(rows)| == |rows| <==>
      forall x, y :: TwoIn(multiset(rows), x, y) ==> !SameNative(x, y)
  {
    var source, fingerprint := (r: ActiveRow) => Source(r.labels), (r: ActiveRow) => r.fingerprint;
    DistinctByKey(rows, source);
    DistinctByKey(rows, fingerprint);
    assert ActiveSources(rows) == KeySet(rows, source) && ActiveFingerprints(rows) == KeySet(rows, fingerprint);
  }

  lemma HistoryDistinctIff(rows: seq<HistoryRow>)
    ensures |HistorySources(rows)| == |rows| && |HistoryFingerprints(rows)| == |rows| <==>
      forall x, y :: TwoIn(multiset(rows), x, y) ==> !SameEpisode(x, y)
  {
    var source, fingerprint := (r: HistoryRow) => Source(r.labels), (r: HistoryRow) => r.fingerprint;
    DistinctByKey(rows, source);
    DistinctByKey(rows, fingerprint);
    assert HistorySources(rows) == KeySet(rows, source) && HistoryFingerprints(rows) == KeySet(rows, fingerprint);
  }

  lemma AuditDistinctIff(rows: seq<AuditRow>)
    ensures |AuditIds(rows)| == |rows| && |AuditFingerprints(rows)| == |rows| <==>
      forall x, y :: TwoIn(multiset(rows), x, y) ==> !SameDecision(x, y)
  {
    var id, fingerprint := (r: AuditRow) => r.id, (r: AuditRow) => r.fingerprint;
    DistinctByKey(rows, id);
    DistinctByKey(rows, fingerprint);
    assert AuditIds(rows) == KeySet(rows, id) && AuditFingerprints(rows) == KeySet(rows, fingerprint);
  }

  lemma ActiveExactIff(m: Manifest, active: seq<ActiveRow>)
    requires Named(m)
    ensures ActiveExact(RollOf(m), active) <==> |active| == RollOf(m).count && !ActiveClash(RollOf(m), multiset(active))
  {
    var roll := RollOf(m);
    ExpectedSize(m, roll.count);
    ActiveDistinctIff(active);
    if |active| == roll.count && !ActiveClash(roll, multiset(active)) {
      forall a | a in active ensures !ActiveBad(roll, a) && a.labels == roll.identities[Source(a.labels)] {
        assert a in multiset(active);
        IdentityValues(m, Source(a.labels));
        AgreeIsEqual(a.labels, roll.identities[Source(a.labels)]);
      }
      SubsetCardinality(ActiveSources(active), roll.identities.Keys);
    }
    if ActiveExact(roll, active) {
      forall a | a in multiset(active) ensures !ActiveBad(roll, a) {
        assert a in active;
        assert Source(a.labels) in ActiveSources(active);
        IdentityValues(m, Source(a.labels));
        AgreeIsEqual(a.labels, roll.identities[Source(a.labels)]);
      }
    }
  }

  lemma HistoryExactIff(m: Manifest, active: seq<ActiveRow>, history: seq<HistoryRow>)
    ensures HistoryExact(RollOf(m), active, history) <==>
      |history| == RollOf(m).count && !HistoryClash(RollOf(m), multiset(active), multiset(history))
  {
    ExpectedSize(m, RollOf(m).count);
    if |history| == RollOf(m).count && !HistoryClash(RollOf(m), multiset(active), multiset(history)) {
      CleanHistoryIsExact(RollOf(m), active, history);
    }
    if HistoryExact(RollOf(m), active, history) { ExactHistoryIsClean(RollOf(m), active, history); }
  }

  lemma CleanHistoryIsExact(roll: Roll, active: seq<ActiveRow>, history: seq<HistoryRow>)
    requires |roll.identities| == roll.count == |history| && !HistoryClash(roll, multiset(active), multiset(history))
    ensures HistoryExact(roll, active, history)
  {
    HistoryDistinctIff(history);
    assert |HistorySources(history)| == |history| && |HistoryFingerprints(history)| == |history|;
    forall h | h in history ensures !HistoryBad(roll, h) { assert h in multiset(history); }
    assert HistorySources(history) <= roll.identities.Keys;
    SubsetCardinality(HistorySources(history), roll.identities.Keys);
    forall h, a | h in history && a in active && Source(a.labels) == Source(h.labels)
      ensures Label(h.labels, AmFingerprint) == a.fingerprint
    {
      assert h in multiset(history) && a in multiset(active) && !Mislinked(h, a);
    }
  }

  lemma ExactHistoryIsClean(roll: Roll, active: seq<ActiveRow>, history: seq<HistoryRow>)
    requires |roll.identities| == roll.count && HistoryExact(roll, active, history)
    ensures !HistoryClash(roll, multiset(active), multiset(history))
  {
    HistoryDistinctIff(history);
    forall h | h in multiset(history) ensures !HistoryBad(roll, h) {
      assert h in history;
      assert Source(h.labels) in HistorySources(history);
    }
    forall h, a | h in multiset(history) && a in multiset(active)
      ensures !Mislinked(h, a)
    {
      assert h in history && a in active;
    }
  }

  lemma CleanAuditIsExact(roll: Roll, active: seq<ActiveRow>, audit: seq<AuditRow>)
    requires |active| == roll.count && |ActiveFingerprints(active)| == roll.count
    requires !ActiveClash(roll, multiset(active))
    requires |audit| == roll.count && !AuditClash(roll, multiset(active), multiset(audit))
    ensures AuditExact(roll, active, audit)
  {
    var A, U := multiset(active), multiset(audit);
    AuditDistinctIff(audit);
    forall u | u in audit ensures JoinSite(roll, active, u.fingerprint).Some? && u.canonical && Deciding(u.outcome) {
      assert u in U;
      Unjoined(roll, active, u);
      if JoinSite(roll, active, u.fingerprint).Some? {
        JoinIsFunction(roll, active, u, JoinSite(roll, active, u.fingerprint).value);
      }
    }
    forall f | f in AuditFingerprints(audit) ensures f in ActiveFingerprints(active) {
      var u :| u in audit && u.fingerprint == f;
      JoinSiteExists(roll, active, f);
    }
    SubsetCardinality(AuditFingerprints(audit), ActiveFingerprints(active));
    forall x, y | x in audit && y in audit
      ensures JoinSite(roll, active, x.fingerprint) == JoinSite(roll, active, y.fingerprint) <==> x.window == y.window
    {
      assert x in U && y in U;
      JoinIsFunction(roll, active, x, JoinSite(roll, active, x.fingerprint).value);
      JoinIsFunction(roll, active, y, JoinSite(roll, active, y.fingerprint).value);
    }
  }

  lemma ExactAuditIsClean(roll: Roll, active: seq<ActiveRow>, audit: seq<AuditRow>)
    requires |ActiveFingerprints(active)| == roll.count && !ActiveClash(roll, multiset(active))
    requires AuditExact(roll, active, audit)
    ensures !AuditClash(roll, multiset(active), multiset(audit))
  {
    var A, U := multiset(active), multiset(audit);
    AuditDistinctIff(audit);
    forall u | u in U ensures u in audit && exists a :: a in A && a.fingerprint == u.fingerprint {
      assert u.fingerprint in AuditFingerprints(audit);
      JoinSiteExists(roll, active, u.fingerprint);
      Unjoined(roll, active, u);
    }
    forall u, site | u in U && Joins(roll, A, u, site) ensures JoinSite(roll, active, u.fingerprint) == Some(site) {
      JoinIsFunction(roll, active, u, site);
    }
  }

  lemma AuditExactIff(roll: Roll, active: seq<ActiveRow>, audit: seq<AuditRow>)
    requires |active| == |ActiveFingerprints(active)| == roll.count && !ActiveClash(roll, multiset(active))
    ensures AuditExact(roll, active, audit) <==>
      |audit| == roll.count && !AuditClash(roll, multiset(active), multiset(audit))
  {
    if |audit| == roll.count && !AuditClash(roll, multiset(active), multiset(audit)) {
      CleanAuditIsExact(roll, active, audit);
    }
    if AuditExact(roll, active, audit) { ExactAuditIsClean(roll, active, audit); }
  }

  /** Without the contract, or without a complete History page, the verdict is adverse. */
  lemma UnreadableIsAdverse(m: Manifest, rule: Rule, e: Evidence)
    requires !Contract(m, rule) || Decoded(e.history, RollOf(m).count).None?
    ensures Adverse(Judge(m, rule, e))
  {
    ActiveVerdictAdverse(RollOf(m), e.active, 0);
  }

  /** The verdict is Eligible if and only if the evidence is an exact three-way match. */
  lemma EligibleIffExactMatch(m: Manifest, rule: Rule, e: Evidence)
    requires Named(m)
    ensures Judge(m, rule, e).disposition == Eligible <==>
      && Installed(m, rule) && Decoded(e.history, RollOf(m).count).Some?
      && ExactMatch(RollOf(m), m.groups, e.active, Decoded(e.history, RollOf(m).count).value, e.audit)
  {
    if !Contract(m, rule) || Decoded(e.history, RollOf(m).count).None? {
      UnreadableIsAdverse(m, rule, e);
    } else {
      MatchIffNoClash(m, e.active, Decoded(e.history, RollOf(m).count).value, e.audit);
      AdverseIffClash(m, rule, e, Decoded(e.history, RollOf(m).count).value);
    }
  }

  lemma MatchIffNoClash(m: Manifest, active: seq<ActiveRow>, history: seq<HistoryRow>, audit: seq<AuditRow>)
    requires Named(m)
    ensures ExactMatch(RollOf(m), m.groups, active, history, audit) <==>
      && !Clash(RollOf(m), m.groups, multiset(active), multiset(history), multiset(audit))
      && Full(RollOf(m), multiset(active), multiset(history), multiset(audit))
  {
    var roll := RollOf(m);
    ActiveExactIff(m, active);
    HistoryExactIff(m, active, history);
    if ActiveExact(roll, active) {
      AuditExactIff(roll, active, audit);
      if AuditExact(roll, active, audit) {
        GroupClashSound(roll, m.groups, active, audit);
        if DecidedExactly(roll, m.groups, active, audit) { assert !Overdecided(roll, m.groups, active, audit); }
      }
    }
  }

  // ---------- the second pass over the groups never fires for a balanced scenario ----------

  /** Every input of a group is expected to be enriched or to emit a parent, as in the fixed scenario. */
  ghost predicate Balanced(groups: seq<Group>) {
    forall g :: g in groups ==> g.count == g.expectedEnriched + g.expectedParentEmitted
  }

  /** The groups the pack builder writes. */
  const FIXED_GROUPS := [Group("positive", 5, 4, 1), Group("negative", 4, 4, 0), Group("isolated-a", 3, 3, 0), Group("isolated-b", 3, 3, 0)]

  /** The fixed scenario is one of those the results below are about. */
  lemma FixedScenarioBalanced()
    ensures Balanced(FIXED_GROUPS) && DistinctSites(FIXED_GROUPS) && InputCount(FIXED_GROUPS) == 15
  {
  }

  ghost function DecisionsOver(roll: Roll, groups: seq<Group>, active: seq<ActiveRow>, audit: seq<AuditRow>): nat {
    if groups == [] then 0
    else Decisions(roll, active, audit, groups[0].site, Enriched) + Decisions(roll, active, audit, groups[0].site, ParentEmitted)
         + DecisionsOver(roll, groups[1..], active, audit)
  }

  /** One more deciding row adds one to the total when its site is a group's, and nothing otherwise. */
  lemma {:induction false} DecisionsOverStep(roll: Roll, groups: seq<Group>, active: seq<ActiveRow>,
                                             audit: seq<AuditRow>, row: AuditRow)
    requires DistinctSites(groups) && Deciding(row.outcome)
    ensures DecisionsOver(roll, groups, active, audit + [row]) == DecisionsOver(roll, groups, active, audit)
              + (if exists g :: g in groups && JoinSite(roll, active, row.fingerprint) == Some(g.site) then 1 else 0)
  {
    if groups != [] {
      assert (audit + [row])[..|audit|] == audit;
      assert DistinctSites(groups[1..]);
      DecisionsOverStep(roll, groups[1..], active, audit, row);
      assert groups == [groups[0]] + groups[1..];
      if JoinSite(roll, active, row.fingerprint) == Some(groups[0].site) {
        forall g | g in groups[1..] ensures JoinSite(roll, active, row.fingerprint) != Some(g.site) {
          var i :| 0 <= i < |groups[1..]| && groups[1..][i] == g;
          assert groups[0].site != groups[i + 1].site;
        }
        assert groups[0] in groups;
      }
    }
  }

  lemma {:induction false} DecisionsOverEmpty(roll: Roll, groups: seq<Group>, active: seq<ActiveRow>)
    ensures DecisionsOver(roll, groups, active, []) == 0
  {
    if groups != [] { DecisionsOverEmpty(roll, groups[1..], active); }
  }

  /** Every decision is counted at exactly one group. */
  lemma {:induction false} DecisionsConserved(roll: Roll, groups: seq<Group>, active: seq<ActiveRow>,
                                              audit: seq<AuditRow>)
    requires DistinctSites(groups)
    requires forall u :: u in audit ==>
      Deciding(u.outcome) && exists g :: g in groups && JoinSite(roll, active, u.fingerprint) == Some(g.site)
    ensures DecisionsOver(roll, groups, active, audit) == |audit|
    decreases |audit|
  {
    if audit == [] {
      DecisionsOverEmpty(roll, groups, active);
    } else {
      var init, last := audit[..|audit| - 1], audit[|audit| - 1];
      assert audit == init + [last];
      assert forall u :: u in init ==> u in audit;
      DecisionsConserved(roll, groups, active, init);
      DecisionsOverStep(roll, groups, active, init, last);
    }
  }

  /** If no group is over its expectation and the totals agree, every group meets it exactly. */
  lemma {:induction false} NoSlack(roll: Roll, groups: seq<Group>, active: seq<ActiveRow>, audit: seq<AuditRow>)
    requires Balanced(groups) && !Overdecided(roll, groups, active, audit)
    ensures DecisionsOver(roll, groups, active, audit) <= InputCount(groups)
    ensures DecisionsOver(roll, groups, active, audit) == InputCount(groups) ==>
      DecidedExactly(roll, groups, active, audit)
  {
    if groups != [] {
      var rest := groups[1..];
      assert groups == [groups[0]] + rest;
      assert groups[0] in groups;
      assert forall g :: g in rest ==> g in groups;
      forall i | 0 <= i < |rest|
        ensures Decisions(roll, active, audit, rest[i].site, Enriched) <= rest[i].expectedEnriched
             && Decisions(roll, active, audit, rest[i].site, ParentEmitted) <= rest[i].expectedParentEmitted
      {
        assert rest[i] == groups[i + 1];
      }
      NoSlack(roll, rest, active, audit);
      if DecisionsOver(roll, groups, active, audit) == InputCount(groups) {
        forall i | 0 <= i < |groups|
          ensures Decisions(roll, active, audit, groups[i].site, Enriched) == groups[i].expectedEnriched
               && Decisions(roll, active, audit, groups[i].site, ParentEmitted) == groups[i].expectedParentEmitted
        {
          if i > 0 { assert groups[i] == rest[i - 1]; }
        }
      }
    }
  }

  lemma ExpectedSiteIsGroup(m: Manifest, source: string)
    requires source in RollOf(m).identities
    ensures exists g :: g in m.groups && SiteOfSource(RollOf(m), source) == g.site
  {
    var n := InputCount(m.groups);
    ExpectedKeys(m, n, source);
    var i: nat :| i < n && source == SourceId(m.run, i);
    ExpectedValue(m, n, i);
    var g := SiteOfGroup(m.groups, i);
    assert m.groups[g] in m.groups;
  }

  /** Complete evidence without a fault meets every group's expectation: the final check cannot fail. */
  lemma FinalCheckUnreachable(m: Manifest, active: seq<ActiveRow>, audit: seq<AuditRow>)
    requires Balanced(m.groups) && DistinctSites(m.groups)
    requires ActiveVerdict(RollOf(m), active, 0).None? && AuditVerdict(RollOf(m), active, audit, 0).None?
    requires |active| == |audit| == RollOf(m).count && !Overdecided(RollOf(m), m.groups, active, audit)
    ensures DecidedExactly(RollOf(m), m.groups, active, audit)
  {
    var roll := RollOf(m);
    var A, U := multiset(active), multiset(audit);
    ActiveClashSound(roll, active);
    AuditClashSound(roll, active, audit);
    forall u | u in audit
      ensures Deciding(u.outcome) && exists g :: g in m.groups && JoinSite(roll, active, u.fingerprint) == Some(g.site)
    {
      assert u in U;
      Unjoined(roll, active, u);
      JoinSiteExists(roll, active, u.fingerprint);
      var a :| a in active && a.fingerprint == u.fingerprint
               && JoinSite(roll, active, u.fingerprint) == Some(SiteOfSource(roll, Source(a.labels)));
      assert a in A && !ActiveBad(roll, a);
      ExpectedSiteIsGroup(m, Source(a.labels));
      JoinIsFunction(roll, active, u, SiteOfSource(roll, Source(a.labels)));
    }
    DecisionsConserved(roll, m.groups, active, audit);
    NoSlack(roll, m.groups, active, audit);
  }
}
