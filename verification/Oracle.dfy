/** The installed-Flood oracle: a join of the Active, History and Audit populations of one run. */
module Oracle {
  import opened Common
  import opened History
  import opened Manifest

  datatype Disposition = Eligible | Incomplete | Ambiguous | Violation

  datatype Reason =
    | FixedContract | ExcessIdentityOrAudit
    | ActiveRepresentation | ForeignSource | DuplicateNativeIdentity | NativeStart | NativeLabels
    | HistoryRepresentation | MissingHistoryAttribution | ForeignHistorySource | DuplicateHistoryEpisode
    | HistoryIdentity | HistoryLabels | HistoryNativeLink
    | AuditRepresentation | DuplicateAuditDecision | ForeignAuditSource | SplitGroupWindow | SharedGroupWindow
    | UnexpectedAuditOutcome | GroupDecisions | MissingSourceEvidence | FixedInitialAudit

  datatype Evaluation = Evaluation(disposition: Disposition, reason: Reason)

  predicate Adverse(v: Evaluation) {
    v.disposition == Violation || v.disposition == Ambiguous
  }

  datatype Rule = Rule(id: int, name: string, pattern: string)

  /** `canonical`: the retained bytes are within bound and parse again to exactly this row. */
  datatype ActiveRow = ActiveRow(canonical: bool, fingerprint: string, startsAt: int, labels: Labels)

  /** `readable`: within the byte bound, and the page grammar and all five metadata fields are present. */
  datatype HistoryPage = HistoryPage(readable: bool, rows: seq<HistoryRow>, total: int, pages: int, page: int,
                                     perPage: int)

  datatype HistoryObservation = HistoryObservation(records: seq<HistoryRow>, pages: seq<HistoryPage>)

  datatype Outcome = PassThrough | Enriched | SuppressedPerNotifier | SuppressedGlobal | ParentEmitted | ReleasedNoTrigger

  /** `canonical`: the retained bytes parse again to exactly this row, for the installed rule. */
  datatype AuditRow = AuditRow(canonical: bool, id: int, fingerprint: string, outcome: Outcome, window: string)

  datatype Evidence = Evidence(active: seq<ActiveRow>, history: HistoryObservation, audit: seq<AuditRow>)

  function Source(labels: Labels): string { Label(labels, SourceName) }

  predicate Contract(m: Manifest, rule: Rule) {
    Frozen(m) && rule.id > 0 && rule.name == "corrtest-operational-v1-flood" && rule.pattern == "flood"
  }

  // ---------- reference definition: the first fault in reading order ----------

  predicate LabelsAgree(row: Labels, want: Labels) {
    |row| == |want| && forall k :: k in want ==> Label(row, k) == want[k]
  }

  function ActiveSources(rows: seq<ActiveRow>): set<string> { set row | row in rows :: Source(row.labels) }

  function ActiveFingerprints(rows: seq<ActiveRow>): set<string> { set row | row in rows :: row.fingerprint }

  function ActiveFault(roll: Roll, before: seq<ActiveRow>, row: ActiveRow): Option<Evaluation> {
    var source := Source(row.labels);
    if !row.canonical then Some(Evaluation(Ambiguous, ActiveRepresentation))
    else if source !in roll.identities then Some(Evaluation(Violation, ForeignSource))
    else if source in ActiveSources(before) || row.fingerprint in ActiveFingerprints(before)
      then Some(Evaluation(Ambiguous, DuplicateNativeIdentity))
    else if row.startsAt != roll.startsAt then Some(Evaluation(Violation, NativeStart))
    else if !LabelsAgree(row.labels, roll.identities[source]) then Some(Evaluation(Violation, NativeLabels))
    else None
  }

  function ActiveVerdict(roll: Roll, rows: seq<ActiveRow>, i: nat): Option<Evaluation>
    requires i <= |rows|
    decreases |rows| - i
  {
    if i == |rows| then None
    else if ActiveFault(roll, rows[..i], rows[i]).Some? then ActiveFault(roll, rows[..i], rows[i])
    else ActiveVerdict(roll, rows, i + 1)
  }

  /** A single complete History page, or nothing read at all. */
  function Decoded(o: HistoryObservation, count: nat): Option<seq<HistoryRow>> {
    if o.pages == [] && o.records == [] then Some([])
    else if |o.pages| == 1 && PageComplete(o.pages[0], count) && o.pages[0].rows == o.records
            && (forall i :: 0 <= i < |o.records| ==> o.records[i].wellFormed)
            && (forall i, j :: 0 <= i < j < |o.records| ==> o.records[i].id != o.records[j].id) then Some(o.records)
    else None
  }

  predicate PageComplete(p: HistoryPage, count: nat) {
    && p.readable && 0 <= p.total <= count && p.total == |p.rows| && p.page == 1 && p.perPage == 100
    && p.pages == (p.total + 99) / 100
  }

  predicate MissingAttribution(row: HistoryRow) {
    Blank(row.fingerprint) || Blank(Source(row.labels)) || Blank(Label(row.labels, AmFingerprint))
    || Blank(Label(row.labels, OscarFingerprint))
  }

  predicate IdentityDiffers(roll: Roll, row: HistoryRow, want: Labels) {
    row.alertName != Label(want, AlertName) || row.status != Firing || row.startsAt != roll.startsAt
    || Label(row.labels, OscarFingerprint) != row.fingerprint
  }

  predicate InputLabelsMatch(row: HistoryRow, want: Labels) {
    forall k :: k in want ==> row.MatchesInputLabel(k, want[k])
  }

  function HistorySources(rows: seq<HistoryRow>): set<string> { set row | row in rows :: Source(row.labels) }

  function HistoryFingerprints(rows: seq<HistoryRow>): set<string> { set row | row in rows :: row.fingerprint }

  function HistoryFault(roll: Roll, active: seq<ActiveRow>, before: seq<HistoryRow>,
                        row: HistoryRow): Option<Evaluation> {
    var source := Source(row.labels);
    if MissingAttribution(row) then Some(Evaluation(Ambiguous, MissingHistoryAttribution))
    else if source !in roll.identities then Some(Evaluation(Violation, ForeignHistorySource))
    else if source in HistorySources(before) || row.fingerprint in HistoryFingerprints(before)
      then Some(Evaluation(Ambiguous, DuplicateHistoryEpisode))
    else if IdentityDiffers(roll, row, roll.identities[source]) then Some(Evaluation(Violation, HistoryIdentity))
    else if !InputLabelsMatch(row, roll.identities[source]) then Some(Evaluation(Violation, HistoryLabels))
    else if exists native :: native in active && Source(native.labels) == source && Label(row.labels, AmFingerprint) != native.fingerprint
      then Some(Evaluation(Violation, HistoryNativeLink))
    else None
  }

  function HistoryVerdict(roll: Roll, active: seq<ActiveRow>, rows: seq<HistoryRow>, i: nat): Option<Evaluation>
    requires i <= |rows|
    decreases |rows| - i
  {
    if i == |rows| then None
    else if HistoryFault(roll, active, rows[..i], rows[i]).Some? then HistoryFault(roll, active, rows[..i], rows[i])
    else HistoryVerdict(roll, active, rows, i + 1)
  }

  /** The native-to-source join: the site of the Active row carrying a fingerprint. */
  function JoinSite(roll: Roll, active: seq<ActiveRow>, fingerprint: string): Option<string> {
    if active == [] then None
    else if active[0].fingerprint == fingerprint then Some(SiteOfSource(roll, Source(active[0].labels)))
    else JoinSite(roll, active[1..], fingerprint)
  }

  function SiteOfSource(roll: Roll, source: string): string {
    if source in roll.identities then Label(roll.identities[source], Site) else ""
  }

  predicate Deciding(o: Outcome) { o == Enriched || o == ParentEmitted }

  function AuditIds(rows: seq<AuditRow>): set<int> { set row | row in rows :: row.id }

  function AuditFingerprints(rows: seq<AuditRow>): set<string> { set row | row in rows :: row.fingerprint }

  /** An earlier row of the same site reports another window. */
  predicate SplitsWindow(roll: Roll, active: seq<ActiveRow>, before: seq<AuditRow>, row: AuditRow) {
    exists other :: other in before && JoinSite(roll, active, other.fingerprint) == JoinSite(roll, active, row.fingerprint)
                    && other.window != row.window
  }

  /** An earlier joined row of another site reports the same window. */
  predicate SharesWindow(roll: Roll, active: seq<ActiveRow>, before: seq<AuditRow>, row: AuditRow) {
    exists other :: other in before && JoinSite(roll, active, other.fingerprint).Some?
                    && JoinSite(roll, active, other.fingerprint) != JoinSite(roll, active, row.fingerprint)
                    && other.window == row.window
  }

  function JoinedFault(roll: Roll, active: seq<ActiveRow>, before: seq<AuditRow>, row: AuditRow): Option<Evaluation> {
    if SplitsWindow(roll, active, before, row) then Some(Evaluation(Violation, SplitGroupWindow))
    else if SharesWindow(roll, active, before, row) then Some(Evaluation(Violation, SharedGroupWindow))
    else if !Deciding(row.outcome) then Some(Evaluation(Violation, UnexpectedAuditOutcome))
    else None
  }

  function AuditFault(roll: Roll, active: seq<ActiveRow>, before: seq<AuditRow>, row: AuditRow): Option<Evaluation> {
    var site := JoinSite(roll, active, row.fingerprint);
    if !row.canonical then Some(Evaluation(Ambiguous, AuditRepresentation))
    else if row.id in AuditIds(before) || row.fingerprint in AuditFingerprints(before)
      then Some(Evaluation(Ambiguous, DuplicateAuditDecision))
    else if site.None? then
      if |active| < roll.count then None else Some(Evaluation(Violation, ForeignAuditSource))
    else JoinedFault(roll, active, before, row)
  }

  function AuditVerdict(roll: Roll, active: seq<ActiveRow>, rows: seq<AuditRow>, i: nat): Option<Evaluation>
    requires i <= |rows|
    decreases |rows| - i
  {
    if i == |rows| then None
    else if AuditFault(roll, active, rows[..i], rows[i]).Some? then AuditFault(roll, active, rows[..i], rows[i])
    else AuditVerdict(roll, active, rows, i + 1)
  }

  /** How many joined audit rows report an outcome at a site. */
  function Decisions(roll: Roll, active: seq<ActiveRow>, rows: seq<AuditRow>, site: string, outcome: Outcome): nat {
    if rows == [] then 0
    else
      var last := rows[|rows| - 1];
      Decisions(roll, active, rows[..|rows| - 1], site, outcome)
      + (if JoinSite(roll, active, last.fingerprint) == Some(site) && last.outcome == outcome then 1 else 0)
  }

  predicate Overdecided(roll: Roll, groups: seq<Group>, active: seq<ActiveRow>, audit: seq<AuditRow>) {
    exists g :: 0 <= g < |groups| &&
      (Decisions(roll, active, audit, groups[g].site, Enriched) > groups[g].expectedEnriched
       || Decisions(roll, active, audit, groups[g].site, ParentEmitted) > groups[g].expectedParentEmitted)
  }

  predicate DecidedExactly(roll: Roll, groups: seq<Group>, active: seq<ActiveRow>, audit: seq<AuditRow>) {
    forall g :: 0 <= g < |groups| ==>
      Decisions(roll, active, audit, groups[g].site, Enriched) == groups[g].expectedEnriched
      && Decisions(roll, active, audit, groups[g].site, ParentEmitted) == groups[g].expectedParentEmitted
  }

  /** The verdict on one observation, by position of the first fault. */
  function Judge(m: Manifest, rule: Rule, e: Evidence): Evaluation {
    var roll := RollOf(m);
    var n := roll.count;
    if !Contract(m, rule) then Evaluation(Violation, FixedContract)
    else if |e.active| > n || |e.audit| > n || |e.history.records| > n then Evaluation(Ambiguous, ExcessIdentityOrAudit)
    else if ActiveVerdict(roll, e.active, 0).Some? then ActiveVerdict(roll, e.active, 0).value
    else match Decoded(e.history, n)
      case None => Evaluation(Ambiguous, HistoryRepresentation)
      case Some(rows) =>
        if HistoryVerdict(roll, e.active, rows, 0).Some? then HistoryVerdict(roll, e.active, rows, 0).value
        else if AuditVerdict(roll, e.active, e.audit, 0).Some? then AuditVerdict(roll, e.active, e.audit, 0).value
        else if Overdecided(roll, m.groups, e.active, e.audit) then Evaluation(Violation, GroupDecisions)
        else if |e.active| != n || |rows| != n || |e.audit| != n then Evaluation(Incomplete, MissingSourceEvidence)
        else if !DecidedExactly(roll, m.groups, e.active, e.audit) then Evaluation(Violation, GroupDecisions)
        else Evaluation(Eligible, FixedInitialAudit)
  }

  // ---------- the evaluator, as the source runs it ----------

  ghost predicate SourcesIndexed(rows: seq<ActiveRow>, active: map<string, ActiveRow>) {
    active.Keys == ActiveSources(rows) && forall row :: row in rows ==> active[Source(row.labels)] == row
  }

  ghost predicate FingerprintsIndexed(rows: seq<ActiveRow>, fingerprints: map<string, string>) {
    && fingerprints.Keys == ActiveFingerprints(rows)
    && forall row :: row in rows ==> fingerprints[row.fingerprint] == Source(row.labels)
  }

  /** Both maps of the Active rows read so far. */
  ghost predicate ActiveIndexed(roll: Roll, rows: seq<ActiveRow>, active: map<string, ActiveRow>,
                                fingerprints: map<string, string>) {
    && SourcesIndexed(rows, active) && FingerprintsIndexed(rows, fingerprints) && |active| == |rows|
    && forall f :: f in fingerprints ==> fingerprints[f] in roll.identities
  }

  lemma ActiveIndexedStep(roll: Roll, rows: seq<ActiveRow>, i: nat, active: map<string, ActiveRow>,
                          fingerprints: map<string, string>, source: string)
    requires i < |rows| && ActiveIndexed(roll, rows[..i], active, fingerprints) && source == Source(rows[i].labels)
    requires source in roll.identities && source !in active && rows[i].fingerprint !in fingerprints
    ensures ActiveIndexed(roll, rows[..i + 1], active[source := rows[i]], fingerprints[rows[i].fingerprint := source])
  {
    assert rows[..i + 1] == rows[..i] + [rows[i]];
    IndexedStep(rows[..i], rows[i], active, fingerprints);
  }

  /** A position without a fault leaves the verdict to the positions after it. */
  lemma ActiveVerdictStep(roll: Roll, rows: seq<ActiveRow>, i: nat, fault: Option<Evaluation>)
    requires i < |rows| && fault == ActiveFault(roll, rows[..i], rows[i])
    ensures ActiveVerdict(roll, rows, i) == if fault.Some? then fault else ActiveVerdict(roll, rows, i + 1)
  {
  }

  lemma IndexedStep(rows: seq<ActiveRow>, row: ActiveRow, active: map<string, ActiveRow>, fingerprints: map<string,
                    string>)
    requires SourcesIndexed(rows, active) && Source(row.labels) !in active
    requires FingerprintsIndexed(rows, fingerprints) && row.fingerprint !in fingerprints
    ensures SourcesIndexed(rows + [row], active[Source(row.labels) := row])
    ensures FingerprintsIndexed(rows + [row], fingerprints[row.fingerprint := Source(row.labels)])
  {
    forall other | other in rows
      ensures Source(other.labels) != Source(row.labels) && other.fingerprint != row.fingerprint
    {
      assert Source(other.labels) in ActiveSources(rows) && other.fingerprint in ActiveFingerprints(rows);
    }
    assert ActiveSources(rows + [row]) == ActiveSources(rows) + {Source(row.labels)};
    assert ActiveFingerprints(rows + [row]) == ActiveFingerprints(rows) + {row.fingerprint};
  }

  method BuildRoll(m: Manifest) returns (roll: Roll)
    requires Frozen(m)
    ensures roll == RollOf(m)
  {
    var count := InputCount(m.groups);
    var expected: map<string, Labels> := map[];
    var i := 0;
    while i < count
      invariant 0 <= i <= count
      invariant expected == Expected(m, i)
    {
      var input := Prepare(m, i);
      expected := expected[Label(input.value.labels, SourceName) := input.value.labels];
      i := i + 1;
    }
    return Roll(expected, m.startsAt, count);
  }

  /** One iteration over the Active rows, after the rows in `before`. */
  method ReadActiveRow(roll: Roll, ghost before: seq<ActiveRow>, active: map<string, ActiveRow>,
                       fingerprints: map<string, string>, row: ActiveRow)
    returns (fault: Option<Evaluation>)
    requires SourcesIndexed(before, active) && FingerprintsIndexed(before, fingerprints)
    ensures fault == ActiveFault(roll, before, row)
    ensures fault.None? ==>
      Source(row.labels) in roll.identities && Source(row.labels) !in active && row.fingerprint !in fingerprints
  {
    if !row.canonical { return Some(Evaluation(Ambiguous, ActiveRepresentation)); }
    var source := Source(row.labels);
    if source !in roll.identities { return Some(Evaluation(Violation, ForeignSource)); }
    if source in active || row.fingerprint in fingerprints {
      return Some(Evaluation(Ambiguous, DuplicateNativeIdentity));
    }
    if row.startsAt != roll.startsAt { return Some(Evaluation(Violation, NativeStart)); }
    if !LabelsAgree(row.labels, roll.identities[source]) { return Some(Evaluation(Violation, NativeLabels)); }
    return None;
  }

  method ReadActive(roll: Roll, rows: seq<ActiveRow>)
    returns (fault: Option<Evaluation>, active: map<string, ActiveRow>, fingerprints: map<string, string>)
    ensures fault == ActiveVerdict(roll, rows, 0)
    ensures fault.None? ==> ActiveIndexed(roll, rows, active, fingerprints)
  {
    active, fingerprints := map[], map[];
    ghost var verdict := ActiveVerdict(roll, rows, 0);
    var i := 0;
    while i < |rows|
      invariant 0 <= i <= |rows|
      invariant verdict == ActiveVerdict(roll, rows, i)
      invariant ActiveIndexed(roll, rows[..i], active, fingerprints)
    {
      var row := rows[i];
      fault := ReadActiveRow(roll, rows[..i], active, fingerprints, row);
      ActiveVerdictStep(roll, rows, i, fault);
      if fault.Some? { return; }
      var source := Source(row.labels);
      ActiveIndexedStep(roll, rows, i, active, fingerprints, source);
      active := active[source := row];
      fingerprints := fingerprints[row.fingerprint := source];
      i := i + 1;
    }
    assert rows[..|rows|] == rows;
    return None, active, fingerprints;
  }

  method DecodeHistory(o: HistoryObservation, count: nat) returns (r: Option<seq<HistoryRow>>)
    ensures r == Decoded(o, count)
  {
    if |o.pages| == 0 && |o.records| == 0 { return Some([]); }
    if |o.pages| != 1 { return None; }
    var page := o.pages[0];
    if !PageComplete(page, count) || |o.records| != |page.rows| { return None; }
    var result: seq<HistoryRow> := [];
    var ids: set<string> := {};
    var i := 0;
    while i < |page.rows|
      invariant 0 <= i <= |page.rows|
      invariant result == page.rows[..i] == o.records[..i]
      invariant forall j :: 0 <= j < i ==> page.rows[j].wellFormed && page.rows[j].id in ids
      invariant forall id :: id in ids ==> exists j :: 0 <= j < i && page.rows[j].id == id
      invariant forall j, k :: 0 <= j < k < i ==> page.rows[j].id != page.rows[k].id
    {
      var row := page.rows[i];
      if row.id in ids || !row.wellFormed || row != o.records[i] { return None; }
      ids := ids + {row.id};
      result := result + [row];
      i := i + 1;
    }
    assert o.records == page.rows[..|page.rows|] == page.rows;
    return Some(result);
  }

  /** One iteration over the History rows, after the rows in `before`. */
  method ReadHistoryRow(roll: Roll, ghost rows: seq<ActiveRow>, active: map<string, ActiveRow>,
                        ghost before: seq<HistoryRow>,
                        sources: set<string>, fingerprints: set<string>, row: HistoryRow) returns (fault: Option<Evaluation>)
    requires SourcesIndexed(rows, active) && sources == HistorySources(before)
    requires fingerprints == HistoryFingerprints(before)
    ensures fault == HistoryFault(roll, rows, before, row)
    ensures fault.None? ==> Source(row.labels) !in sources
  {
    var source := Source(row.labels);
    if MissingAttribution(row) { return Some(Evaluation(Ambiguous, MissingHistoryAttribution)); }
    if source !in roll.identities { return Some(Evaluation(Violation, ForeignHistorySource)); }
    if source in sources || row.fingerprint in fingerprints {
      return Some(Evaluation(Ambiguous, DuplicateHistoryEpisode));
    }
    if IdentityDiffers(roll, row, roll.identities[source]) { return Some(Evaluation(Violation, HistoryIdentity)); }
    if !InputLabelsMatch(row, roll.identities[source]) { return Some(Evaluation(Violation, HistoryLabels)); }
    if source in active && Label(row.labels, AmFingerprint) != active[source].fingerprint {
      return Some(Evaluation(Violation, HistoryNativeLink));
    }
    return None;
  }

  lemma HistoryIndexedStep(before: seq<HistoryRow>, row: HistoryRow)
    ensures HistorySources(before + [row]) == HistorySources(before) + {Source(row.labels)}
    ensures HistoryFingerprints(before + [row]) == HistoryFingerprints(before) + {row.fingerprint}
  {
  }

  lemma HistoryVerdictStep(roll: Roll, rows: seq<ActiveRow>, history: seq<HistoryRow>, i: nat,
                           fault: Option<Evaluation>)
    requires i < |history| && fault == HistoryFault(roll, rows, history[..i], history[i])
    ensures HistoryVerdict(roll, rows, history, i) == if fault.Some? then fault else HistoryVerdict(roll, rows, history, i + 1)
  {
  }

  method ReadHistory(roll: Roll, ghost rows: seq<ActiveRow>, active: map<string, ActiveRow>,
                     history: seq<HistoryRow>) returns (fault: Option<Evaluation>, sources: set<string>)
    requires SourcesIndexed(rows, active)
    ensures fault == HistoryVerdict(roll, rows, history, 0)
    ensures fault.None? ==> |sources| == |history|
  {
    sources := {};
    ghost var verdict := HistoryVerdict(roll, rows, history, 0);
    var fingerprints: set<string> := {};
    var i := 0;
    while i < |history|
      invariant 0 <= i <= |history|
      invariant verdict == HistoryVerdict(roll, rows, history, i)
      invariant sources == HistorySources(history[..i]) && fingerprints == HistoryFingerprints(history[..i])
      invariant |sources| == i
    {
      var row := history[i];
      fault := ReadHistoryRow(roll, rows, active, history[..i], sources, fingerprints, row);
      HistoryVerdictStep(roll, rows, history, i, fault);
      if fault.Some? { return; }
      assert history[..i + 1] == history[..i] + [row];
      HistoryIndexedStep(history[..i], row);
      sources := sources + {Source(row.labels)};
      fingerprints := fingerprints + {row.fingerprint};
      i := i + 1;
    }
    assert history[..|history|] == history;
    return None, sources;
  }

  function Count(counts: map<string, nat>, site: string): nat {
    if site in counts then counts[site] else 0
  }

  /** The join finds a site exactly when some Active row carries the fingerprint, and then that row's. */
  lemma {:induction false} JoinSiteExists(roll: Roll, rows: seq<ActiveRow>, f: string)
    ensures JoinSite(roll, rows, f).Some? <==> f in ActiveFingerprints(rows)
    ensures JoinSite(roll, rows, f).Some? ==>
      exists row :: row in rows && row.fingerprint == f && JoinSite(roll, rows, f) == Some(SiteOfSource(roll, Source(row.labels)))
  {
    if rows != [] {
      JoinSiteExists(roll, rows[1..], f);
      assert rows == [rows[0]] + rows[1..];
      if rows[0].fingerprint != f && JoinSite(roll, rows, f).Some? {
        var row :| row in rows[1..] && row.fingerprint == f
                   && JoinSite(roll, rows[1..], f) == Some(SiteOfSource(roll, Source(row.labels)));
        assert row in rows;
      }
    }
  }

  /** What the audit loop has accumulated. */
  datatype Tally = Tally(ids: set<int>, sources: set<string>, windows: map<string, string>, windowSites: map<string,
                         string>,
                         enriched: map<string, nat>, triggered: map<string, nat>)

  ghost predicate WindowsIndexed(roll: Roll, active: seq<ActiveRow>, audit: seq<AuditRow>,
                                 windows: map<string, string>, windowSites: map<string, string>)
  {
    && (forall row :: row in audit && JoinSite(roll, active, row.fingerprint).Some? ==>
          var site := JoinSite(roll, active, row.fingerprint).value;
          site in windows && windows[site] == row.window && row.window in windowSites && windowSites[row.window] == site)
    && (forall s :: s in windows ==> exists row :: row in audit && JoinSite(roll, active, row.fingerprint) == Some(s))
    && (forall w :: w in windowSites ==> exists row :: row in audit && JoinSite(roll, active, row.fingerprint).Some? && row.window == w)
  }

  ghost predicate Counted(roll: Roll, active: seq<ActiveRow>, audit: seq<AuditRow>, outcome: Outcome,
                          counts: map<string, nat>) {
    forall site :: Count(counts, site) == Decisions(roll, active, audit, site, outcome)
  }

  ghost predicate TallyOf(roll: Roll, active: seq<ActiveRow>, audit: seq<AuditRow>, t: Tally) {
    && t.ids == AuditIds(audit) && t.sources == AuditFingerprints(audit) && |t.sources| == |audit|
    && WindowsIndexed(roll, active, audit, t.windows, t.windowSites)
    && Counted(roll, active, audit, Enriched, t.enriched)
    && Counted(roll, active, audit, ParentEmitted, t.triggered)
  }

  lemma CountedStep(roll: Roll, active: seq<ActiveRow>, audit: seq<AuditRow>, row: AuditRow, outcome: Outcome,
                    counts: map<string, nat>)
    requires Counted(roll, active, audit, outcome, counts)
    ensures JoinSite(roll, active, row.fingerprint).None? || row.outcome != outcome ==>
              Counted(roll, active, audit + [row], outcome, counts)
    ensures JoinSite(roll, active, row.fingerprint).Some? && row.outcome == outcome ==>
              var site := JoinSite(roll, active, row.fingerprint).value;
              Counted(roll, active, audit + [row], outcome, counts[site := Count(counts, site) + 1])
  {
    assert (audit + [row])[..|audit|] == audit;
    if JoinSite(roll, active, row.fingerprint).Some? && row.outcome == outcome {
      var site := JoinSite(roll, active, row.fingerprint).value;
      var next := counts[site := Count(counts, site) + 1];
      forall s ensures Count(next, s) == Decisions(roll, active, audit + [row], s, outcome) {
        assert Count(counts, s) == Decisions(roll, active, audit, s, outcome);
      }
    }
  }

  lemma WindowsStep(roll: Roll, active: seq<ActiveRow>, audit: seq<AuditRow>, row: AuditRow,
                    windows: map<string, string>, windowSites: map<string, string>)
    requires WindowsIndexed(roll, active, audit, windows, windowSites)
    ensures JoinSite(roll, active, row.fingerprint).None? ==>
      WindowsIndexed(roll, active, audit + [row], windows, windowSites)
    ensures JoinSite(roll, active, row.fingerprint).Some? ==>
              var site := JoinSite(roll, active, row.fingerprint).value;
              && (SplitsWindow(roll, active, audit, row) <==> site in windows && windows[site] != row.window)
              && (SharesWindow(roll, active, audit, row) <==> row.window in windowSites && windowSites[row.window] != site)
              && (!SplitsWindow(roll, active, audit, row) && !SharesWindow(roll, active, audit, row) ==>
                    WindowsIndexed(roll, active, audit + [row], windows[site := row.window], windowSites[row.window := site]))
  {
    var all := audit + [row];
    assert forall other :: other in audit ==> other in all;
    assert row in all;
    assert forall other :: other in all ==> other in audit || other == row;
  }

  lemma TallyStep(audit: seq<AuditRow>, row: AuditRow)
    ensures AuditIds(audit + [row]) == AuditIds(audit) + {row.id}
    ensures AuditFingerprints(audit + [row]) == AuditFingerprints(audit) + {row.fingerprint}
  {
  }

  /** One iteration of the audit loop, after the rows in `before`. */
  method ReadAuditRow(roll: Roll, ghost active: seq<ActiveRow>, fingerprints: map<string, string>, activeCount: nat,
                      ghost before: seq<AuditRow>, t: Tally, row: AuditRow) returns (fault: Option<Evaluation>, next: Tally)
    requires FingerprintsIndexed(active, fingerprints) && activeCount == |active| && TallyOf(roll, active, before, t)
    requires forall f :: f in fingerprints ==> fingerprints[f] in roll.identities
    ensures fault == AuditFault(roll, active, before, row)
    ensures fault.None? ==> TallyOf(roll, active, before + [row], next)
  {
    TallyStep(before, row);
    if !row.canonical { return Some(Evaluation(Ambiguous, AuditRepresentation)), t; }
    if row.id in t.ids || row.fingerprint in t.sources {
      return Some(Evaluation(Ambiguous, DuplicateAuditDecision)), t;
    }
    var marked := t.(ids := t.ids + {row.id}, sources := t.sources + {row.fingerprint});
    JoinSiteExists(roll, active, row.fingerprint);
    if row.fingerprint !in fingerprints {
      if activeCount < roll.count {
        WindowsStep(roll, active, before, row, t.windows, t.windowSites);
        CountedStep(roll, active, before, row, Enriched, t.enriched);
        CountedStep(roll, active, before, row, ParentEmitted, t.triggered);
        return None, marked;
      }
      return Some(Evaluation(Violation, ForeignAuditSource)), t;
    }
    var site := Label(roll.identities[fingerprints[row.fingerprint]], Site);
    fault, next := DecideRow(roll, active, before, marked, row, site);
  }

  /** Counts one joined decision; None when its outcome decides nothing. */
  method CountDecision(roll: Roll, ghost active: seq<ActiveRow>, ghost before: seq<AuditRow>, enriched: map<string,
                       nat>, triggered: map<string, nat>,
                       row: AuditRow, site: string) returns (next: Option<(map<string, nat>, map<string, nat>)>)
    requires Counted(roll, active, before, Enriched, enriched)
    requires Counted(roll, active, before, ParentEmitted, triggered)
    requires JoinSite(roll, active, row.fingerprint) == Some(site)
    ensures next.Some? <==> Deciding(row.outcome)
    ensures next.Some? ==>
      Counted(roll, active, before + [row], Enriched, next.value.0) && Counted(roll, active, before + [row], ParentEmitted, next.value.1)
  {
    CountedStep(roll, active, before, row, Enriched, enriched);
    CountedStep(roll, active, before, row, ParentEmitted, triggered);
    match row.outcome {
      case Enriched => return Some((enriched[site := Count(enriched, site) + 1], triggered));
      case ParentEmitted => return Some((enriched, triggered[site := Count(triggered, site) + 1]));
      case _ => return None;
    }
  }

  /** The windows and decision counts of one joined row. */
  method DecideRow(roll: Roll, ghost active: seq<ActiveRow>, ghost before: seq<AuditRow>, t: Tally, row: AuditRow,
                   site: string)
    returns (fault: Option<Evaluation>, next: Tally)
    requires WindowsIndexed(roll, active, before, t.windows, t.windowSites)
    requires Counted(roll, active, before, Enriched, t.enriched)
    requires Counted(roll, active, before, ParentEmitted, t.triggered)
    requires JoinSite(roll, active, row.fingerprint) == Some(site)
    ensures fault == JoinedFault(roll, active, before, row)
    ensures next.ids == t.ids && next.sources == t.sources
    ensures fault.None? ==>
      && WindowsIndexed(roll, active, before + [row], next.windows, next.windowSites)
      && Counted(roll, active, before + [row], Enriched, next.enriched)
      && Counted(roll, active, before + [row], ParentEmitted, next.triggered)
  {
    WindowsStep(roll, active, before, row, t.windows, t.windowSites);
    if site in t.windows && t.windows[site] != row.window { return Some(Evaluation(Violation, SplitGroupWindow)), t; }
    if row.window in t.windowSites && t.windowSites[row.window] != site {
      return Some(Evaluation(Violation, SharedGroupWindow)), t;
    }
    var counts := CountDecision(roll, active, before, t.enriched, t.triggered, row, site);
    if counts.None? { return Some(Evaluation(Violation, UnexpectedAuditOutcome)), t; }
    next := t.(windows := t.windows[site := row.window], windowSites := t.windowSites[row.window := site],
               enriched := counts.value.0, triggered := counts.value.1);
    return None, next;
  }

  method ReadAudit(roll: Roll, ghost active: seq<ActiveRow>, fingerprints: map<string, string>, activeCount: nat,
                   audit: seq<AuditRow>)
    returns (fault: Option<Evaluation>, t: Tally)
    requires FingerprintsIndexed(active, fingerprints) && activeCount == |active|
    requires forall f :: f in fingerprints ==> fingerprints[f] in roll.identities
    ensures fault == AuditVerdict(roll, active, audit, 0)
    ensures fault.None? ==> TallyOf(roll, active, audit, t)
  {
    fault, t := None, Tally({}, {}, map[], map[], map[], map[]);
    var i := 0;
    while i < |audit|
      invariant 0 <= i <= |audit|
      invariant fault.None?
      invariant AuditVerdict(roll, active, audit, 0) == AuditVerdict(roll, active, audit, i)
      invariant TallyOf(roll, active, audit[..i], t)
    {
      assert audit[..i + 1] == audit[..i] + [audit[i]];
      fault, t := ReadAuditRow(roll, active, fingerprints, activeCount, audit[..i], t, audit[i]);
      if fault.Some? { return; }
      i := i + 1;
    }
    assert audit[..|audit|] == audit;
  }

  /** The two passes over the groups: no count exceeds its expectation, then every count equals it. */
  method GroupsAgree(roll: Roll, ghost active: seq<ActiveRow>, ghost audit: seq<AuditRow>, groups: seq<Group>, t: Tally,
                     exactly: bool)
    returns (ok: bool)
    requires TallyOf(roll, active, audit, t)
    ensures ok == if exactly then DecidedExactly(roll, groups, active, audit) else !Overdecided(roll, groups, active, audit)
  {
    var g := 0;
    while g < |groups|
      invariant 0 <= g <= |groups|
      invariant exactly ==> DecidedExactly(roll, groups[..g], active, audit)
      invariant !exactly ==> !Overdecided(roll, groups[..g], active, audit)
    {
      assert groups[..g + 1] == groups[..g] + [groups[g]];
      var e, p := Count(t.enriched, groups[g].site), Count(t.triggered, groups[g].site);
      if !exactly && (e > groups[g].expectedEnriched || p > groups[g].expectedParentEmitted) { return false; }
      if exactly && (e != groups[g].expectedEnriched || p != groups[g].expectedParentEmitted) { return false; }
      g := g + 1;
    }
    assert groups[..|groups|] == groups;
    return true;
  }

  method EvaluateInstalledFlood(m: Manifest, rule: Rule, e: Evidence) returns (r: Evaluation)
    ensures r == Judge(m, rule, e)
  {
    if !Contract(m, rule) { return Evaluation(Violation, FixedContract); }
    var count := InputCount(m.groups);
    if |e.active| > count || |e.audit| > count || |e.history.records| > count {
      return Evaluation(Ambiguous, ExcessIdentityOrAudit);
    }
    var roll := BuildRoll(m);
    var fault, active, fingerprints := ReadActive(roll, e.active);
    if fault.Some? { return fault.value; }
    var decoded := DecodeHistory(e.history, count);
    if decoded.None? { return Evaluation(Ambiguous, HistoryRepresentation); }
    var historySources: set<string>;
    fault, historySources := ReadHistory(roll, e.active, active, decoded.value);
    if fault.Some? { return fault.value; }
    var t: Tally;
    fault, t := ReadAudit(roll, e.active, fingerprints, |active|, e.audit);
    if fault.Some? { return fault.value; }
    var within := GroupsAgree(roll, e.active, e.audit, m.groups, t, false);
    if !within { return Evaluation(Violation, GroupDecisions); }
    if |active| != count || |historySources| != count || |t.sources| != count {
      return Evaluation(Incomplete, MissingSourceEvidence);
    }
    var exact := GroupsAgree(roll, e.active, e.audit, m.groups, t, true);
    if !exact { return Evaluation(Violation, GroupDecisions); }
    return Evaluation(Eligible, FixedInitialAudit);
  }
}
