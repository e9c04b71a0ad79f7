/** Which adverse verdicts are Violations and which are Ambiguous, and what each reason says, stated on the rows alone. */
module OracleVerdicts {
  import opened Common
  import opened History
  import opened Manifest
  import opened Oracle
  import opened OracleLaws

  // ---------- the first row at fault, in reading order ----------

  ghost predicate RepeatsActive(before: seq<ActiveRow>, row: ActiveRow) {
    exists other :: other in before && SameNative(other, row)
  }

  ghost predicate RepeatsHistory(before: seq<HistoryRow>, row: HistoryRow) {
    exists other :: other in before && SameEpisode(other, row)
  }

  ghost predicate RepeatsAudit(before: seq<AuditRow>, row: AuditRow) {
    exists other :: other in before && SameDecision(other, row)
  }

  ghost predicate MislinkedRow(active: seq<ActiveRow>, row: HistoryRow) {
    exists a :: a in active && Mislinked(row, a)
  }

  /** The row joins a group whose window an earlier row contradicts, or decides nothing. */
  ghost predicate Misdecided(roll: Roll, active: seq<ActiveRow>, before: seq<AuditRow>, row: AuditRow, site: string) {
    || row.outcome !in {Enriched, ParentEmitted}
    || (exists other :: other in before && Joins(roll, multiset(active), other, site) && other.window != row.window)
    || (exists other, s :: other in before && Joins(roll, multiset(active), other, s) && s != site && other.window == row.window)
  }

  ghost predicate JoinsNone(active: seq<ActiveRow>, row: AuditRow) {
    forall a :: a in active ==> a.fingerprint != row.fingerprint
  }

  ghost predicate ActiveWrong(roll: Roll, before: seq<ActiveRow>, row: ActiveRow) {
    ActiveBad(roll, row) || RepeatsActive(before, row)
  }

  ghost predicate HistoryWrong(roll: Roll, active: seq<ActiveRow>, before: seq<HistoryRow>, row: HistoryRow) {
    HistoryBad(roll, row) || RepeatsHistory(before, row) || MislinkedRow(active, row)
  }

  ghost predicate AuditWrong(roll: Roll, active: seq<ActiveRow>, before: seq<AuditRow>, row: AuditRow) {
    || !row.canonical || RepeatsAudit(before, row) || (|active| >= roll.count && JoinsNone(active, row))
    || exists site :: Joins(roll, multiset(active), row, site) && Misdecided(roll, active, before, row, site)
  }

  ghost predicate FirstActive(roll: Roll, rows: seq<ActiveRow>, k: nat) {
    && k < |rows| && ActiveWrong(roll, rows[..k], rows[k])
    && forall j :: 0 <= j < k ==> !ActiveWrong(roll, rows[..j], rows[j])
  }

  ghost predicate FirstHistory(roll: Roll, active: seq<ActiveRow>, rows: seq<HistoryRow>, k: nat) {
    && k < |rows| && HistoryWrong(roll, active, rows[..k], rows[k])
    && forall j :: 0 <= j < k ==> !HistoryWrong(roll, active, rows[..j], rows[j])
  }

  ghost predicate FirstAudit(roll: Roll, active: seq<ActiveRow>, rows: seq<AuditRow>, k: nat) {
    && k < |rows| && AuditWrong(roll, active, rows[..k], rows[k])
    && forall j :: 0 <= j < k ==> !AuditWrong(roll, active, rows[..j], rows[j])
  }

  // ---------- when it leaves the observation unclear ----------

  /** The row is unreadable, or one of ours that repeats an earlier row. */
  ghost predicate ActiveUnclear(roll: Roll, before: seq<ActiveRow>, row: ActiveRow) {
    !row.canonical || (Source(row.labels) in roll.identities && RepeatsActive(before, row))
  }

  /** The row is unattributed, or one of ours that repeats an earlier row. */
  ghost predicate HistoryUnclear(roll: Roll, before: seq<HistoryRow>, row: HistoryRow) {
    !Attributed(row) || (Source(row.labels) in roll.identities && RepeatsHistory(before, row))
  }

  /** The row is unreadable or repeats an earlier decision. */
  ghost predicate AuditUnclear(before: seq<AuditRow>, row: AuditRow) {
    !row.canonical || RepeatsAudit(before, row)
  }

  ghost predicate Excess(roll: Roll, e: Evidence) {
    |e.active| > roll.count || |e.audit| > roll.count || |e.history.records| > roll.count
  }

  /** The observation contradicts itself rather than the scenario: too many rows, an undecodable History, or a first faulty
      row that is unreadable, unattributed or a repetition. */
  ghost predicate Unclear(roll: Roll, e: Evidence) {
    || Excess(roll, e)
    || (exists k: nat :: FirstActive(roll, e.active, k) && ActiveUnclear(roll, e.active[..k], e.active[k]))
    || (!ActiveClash(roll, multiset(e.active)) && UnclearAfterActive(roll, e))
  }

  ghost predicate UnclearAfterActive(roll: Roll, e: Evidence) {
    match Decoded(e.history, roll.count)
    case None => true
    case Some(rows) =>
      || (exists k: nat :: FirstHistory(roll, e.active, rows, k) && HistoryUnclear(roll, rows[..k], rows[k]))
      || (!HistoryClash(roll, multiset(e.active), multiset(rows))
          && exists k: nat :: FirstAudit(roll, e.active, e.audit, k) && AuditUnclear(e.audit[..k], e.audit[k]))
  }

  // ---------- each population ----------

  lemma ActiveFaultMeans(roll: Roll, before: seq<ActiveRow>, row: ActiveRow)
    ensures ActiveFault(roll, before, row).Some? <==> ActiveWrong(roll, before, row)
    ensures ActiveFault(roll, before, row).Some? ==>
      && Adverse(ActiveFault(roll, before, row).value)
      && (ActiveFault(roll, before, row).value.disposition == Ambiguous <==> ActiveUnclear(roll, before, row))
  {
    ActiveFaultIff(roll, before, row);
    if other :| other in before && SameNative(other, row) {
      assert Source(other.labels) in ActiveSources(before) && other.fingerprint in ActiveFingerprints(before);
    }
  }

  lemma HistoryFaultMeans(roll: Roll, active: seq<ActiveRow>, before: seq<HistoryRow>, row: HistoryRow)
    ensures HistoryFault(roll, active, before, row).Some? <==> HistoryWrong(roll, active, before, row)
    ensures HistoryFault(roll, active, before, row).Some? ==>
      && Adverse(HistoryFault(roll, active, before, row).value)
      && (HistoryFault(roll, active, before, row).value.disposition == Ambiguous <==> HistoryUnclear(roll, before, row))
  {
    HistoryFaultIff(roll, active, before, row);
    if other :| other in before && SameEpisode(other, row) {
      assert Source(other.labels) in HistorySources(before) && other.fingerprint in HistoryFingerprints(before);
    }
  }

  lemma AuditRepeatIff(before: seq<AuditRow>, row: AuditRow)
    ensures RepeatsAudit(before, row) <==> row.id in AuditIds(before) || row.fingerprint in AuditFingerprints(before)
  {
    if other :| other in before && SameDecision(other, row) {
      assert other.id in AuditIds(before) && other.fingerprint in AuditFingerprints(before);
    }
    if row.id in AuditIds(before) || row.fingerprint in AuditFingerprints(before) {
      var other :| other in before && SameDecision(other, row);
    }
  }

  lemma SplitsIff(roll: Roll, active: seq<ActiveRow>, before: seq<AuditRow>, row: AuditRow, site: string)
    requires !ActiveClash(roll, multiset(active)) && JoinSite(roll, active, row.fingerprint) == Some(site)
    ensures SplitsWindow(roll, active, before, row) <==>
      exists other :: other in before && Joins(roll, multiset(active), other, site) && other.window != row.window
  {
    forall other: AuditRow
      ensures JoinSite(roll, active, other.fingerprint) == Some(site) <==> Joins(roll, multiset(active), other, site)
    {
      JoinIsFunction(roll, active, other, site);
    }
  }

  lemma SharesIff(roll: Roll, active: seq<ActiveRow>, before: seq<AuditRow>, row: AuditRow, site: string)
    requires !ActiveClash(roll, multiset(active)) && JoinSite(roll, active, row.fingerprint) == Some(site)
    ensures SharesWindow(roll, active, before, row) <==>
      exists other, s :: other in before && Joins(roll, multiset(active), other, s) && s != site && other.window == row.window
  {
    forall other: AuditRow, s
      ensures JoinSite(roll, active, other.fingerprint) == Some(s) <==> Joins(roll, multiset(active), other, s)
    {
      JoinIsFunction(roll, active, other, s);
    }
    if SharesWindow(roll, active, before, row) {
      var other :| other in before && JoinSite(roll, active, other.fingerprint).Some?
                   && JoinSite(roll, active, other.fingerprint) != Some(site) && other.window == row.window;
      assert Joins(roll, multiset(active), other, JoinSite(roll, active, other.fingerprint).value);
    }
  }

  lemma JoinedFaultMeans(roll: Roll, active: seq<ActiveRow>, before: seq<AuditRow>, row: AuditRow, site: string)
    requires !ActiveClash(roll, multiset(active)) && JoinSite(roll, active, row.fingerprint) == Some(site)
    ensures JoinedFault(roll, active, before, row).Some? <==> Misdecided(roll, active, before, row, site)
    ensures JoinedFault(roll, active, before, row).Some? ==>
      JoinedFault(roll, active, before, row).value.disposition == Violation
  {
    SplitsIff(roll, active, before, row, site);
    SharesIff(roll, active, before, row, site);
  }

  lemma AuditFaultMeans(roll: Roll, active: seq<ActiveRow>, before: seq<AuditRow>, row: AuditRow)
    requires !ActiveClash(roll, multiset(active))
    ensures AuditFault(roll, active, before, row).Some? <==> AuditWrong(roll, active, before, row)
    ensures AuditFault(roll, active, before, row).Some? ==>
      && Adverse(AuditFault(roll, active, before, row).value)
      && (AuditFault(roll, active, before, row).value.disposition == Ambiguous <==> AuditUnclear(before, row))
  {
    AuditRepeatIff(before, row);
    Unjoined(roll, active, row);
    assert JoinsNone(active, row) <==> forall a :: a in multiset(active) ==> a.fingerprint != row.fingerprint;
    var joined := JoinSite(roll, active, row.fingerprint);
    if joined.Some? {
      JoinIsFunction(roll, active, row, joined.value);
      forall site ensures Joins(roll, multiset(active), row, site) <==> site == joined.value {
        JoinIsFunction(roll, active, row, site);
      }
      JoinedFaultMeans(roll, active, before, row, joined.value);
    } else {
      forall site ensures !Joins(roll, multiset(active), row, site) {
        JoinIsFunction(roll, active, row, site);
      }
    }
  }

  // ---------- each reading ----------

  lemma {:induction false} FirstActiveVerdict(roll: Roll, rows: seq<ActiveRow>, i: nat) returns (k: nat)
    requires i <= |rows| && forall j :: 0 <= j < i ==> !ActiveWrong(roll, rows[..j], rows[j])
    ensures ActiveVerdict(roll, rows, i).Some? ==>
      FirstActive(roll, rows, k) && ActiveVerdict(roll, rows, i) == ActiveFault(roll, rows[..k], rows[k])
    ensures ActiveVerdict(roll, rows, i).None? ==> forall n: nat :: !FirstActive(roll, rows, n)
    decreases |rows| - i
  {
    k := i;
    if i < |rows| {
      ActiveFaultMeans(roll, rows[..i], rows[i]);
      if !ActiveWrong(roll, rows[..i], rows[i]) { k := FirstActiveVerdict(roll, rows, i + 1); }
    }
  }

  lemma {:induction false} FirstHistoryVerdict(roll: Roll, active: seq<ActiveRow>, rows: seq<HistoryRow>, i: nat)
    returns (k: nat)
    requires i <= |rows| && forall j :: 0 <= j < i ==> !HistoryWrong(roll, active, rows[..j], rows[j])
    ensures HistoryVerdict(roll, active, rows, i).Some? ==>
      && FirstHistory(roll, active, rows, k)
      && HistoryVerdict(roll, active, rows, i) == HistoryFault(roll, active, rows[..k], rows[k])
    ensures HistoryVerdict(roll, active, rows, i).None? ==> forall n: nat :: !FirstHistory(roll, active, rows, n)
    decreases |rows| - i
  {
    k := i;
    if i < |rows| {
      HistoryFaultMeans(roll, active, rows[..i], rows[i]);
      if !HistoryWrong(roll, active, rows[..i], rows[i]) { k := FirstHistoryVerdict(roll, active, rows, i + 1); }
    }
  }

  lemma {:induction false} FirstAuditVerdict(roll: Roll, active: seq<ActiveRow>, rows: seq<AuditRow>, i: nat)
    returns (k: nat)
    requires i <= |rows| && forall j :: 0 <= j < i ==> !AuditWrong(roll, active, rows[..j], rows[j])
    requires !ActiveClash(roll, multiset(active))
    ensures AuditVerdict(roll, active, rows, i).Some? ==>
      && FirstAudit(roll, active, rows, k)
      && AuditVerdict(roll, active, rows, i) == AuditFault(roll, active, rows[..k], rows[k])
    ensures AuditVerdict(roll, active, rows, i).None? ==> forall n: nat :: !FirstAudit(roll, active, rows, n)
    decreases |rows| - i
  {
    k := i;
    if i < |rows| {
      AuditFaultMeans(roll, active, rows[..i], rows[i]);
      if !AuditWrong(roll, active, rows[..i], rows[i]) { k := FirstAuditVerdict(roll, active, rows, i + 1); }
    }
  }

  lemma ActiveReading(roll: Roll, rows: seq<ActiveRow>)
    ensures ActiveVerdict(roll, rows, 0).Some? ==> Adverse(ActiveVerdict(roll, rows, 0).value)
    ensures (ActiveVerdict(roll, rows, 0).Some? && ActiveVerdict(roll, rows, 0).value.disposition == Ambiguous) <==>
      exists k: nat :: FirstActive(roll, rows, k) && ActiveUnclear(roll, rows[..k], rows[k])
  {
    var k := FirstActiveVerdict(roll, rows, 0);
    if ActiveVerdict(roll, rows, 0).Some? {
      ActiveFaultMeans(roll, rows[..k], rows[k]);
      forall n: nat | FirstActive(roll, rows, n) ensures n == k { }
    }
  }

  lemma HistoryReading(roll: Roll, active: seq<ActiveRow>, rows: seq<HistoryRow>)
    ensures HistoryVerdict(roll, active, rows, 0).Some? ==> Adverse(HistoryVerdict(roll, active, rows, 0).value)
    ensures (HistoryVerdict(roll, active, rows, 0).Some? && HistoryVerdict(roll, active, rows, 0).value.disposition == Ambiguous) <==>
      exists k: nat :: FirstHistory(roll, active, rows, k) && HistoryUnclear(roll, rows[..k], rows[k])
  {
    var k := FirstHistoryVerdict(roll, active, rows, 0);
    if HistoryVerdict(roll, active, rows, 0).Some? {
      HistoryFaultMeans(roll, active, rows[..k], rows[k]);
      forall n: nat | FirstHistory(roll, active, rows, n) ensures n == k { }
    }
  }

  lemma AuditReading(roll: Roll, active: seq<ActiveRow>, rows: seq<AuditRow>)
    requires !ActiveClash(roll, multiset(active))
    ensures AuditVerdict(roll, active, rows, 0).Some? ==> Adverse(AuditVerdict(roll, active, rows, 0).value)
    ensures (AuditVerdict(roll, active, rows, 0).Some? && AuditVerdict(roll, active, rows, 0).value.disposition == Ambiguous) <==>
      exists k: nat :: FirstAudit(roll, active, rows, k) && AuditUnclear(rows[..k], rows[k])
  {
    var k := FirstAuditVerdict(roll, active, rows, 0);
    if AuditVerdict(roll, active, rows, 0).Some? {
      AuditFaultMeans(roll, active, rows[..k], rows[k]);
      forall n: nat | FirstAudit(roll, active, rows, n) ensures n == k { }
    }
  }

  // ---------- the verdict ----------

  /** Ambiguous means exactly that the observation is unclear in itself. */
  lemma AmbiguousIff(m: Manifest, rule: Rule, e: Evidence)
    ensures Judge(m, rule, e).disposition == Ambiguous <==> Installed(m, rule) && Unclear(RollOf(m), e)
  {
    var roll := RollOf(m);
    ActiveReading(roll, e.active);
    ActiveClashSound(roll, e.active);
    match Decoded(e.history, roll.count) {
      case None =>
      case Some(rows) =>
        HistoryReading(roll, e.active, rows);
        HistoryClashSound(roll, e.active, rows);
        if !ActiveClash(roll, multiset(e.active)) { AuditReading(roll, e.active, e.audit); }
    }
  }

  /** A decoded observation contradicts the scenario when its populations clash; an undecoded one when its Active rows do. */
  ghost predicate Contradicts(m: Manifest, e: Evidence) {
    var roll := RollOf(m);
    match Decoded(e.history, roll.count)
    case None => ActiveClash(roll, multiset(e.active))
    case Some(rows) => Clash(roll, m.groups, multiset(e.active), multiset(rows), multiset(e.audit))
  }

  /** A Violation is every other contradiction, and an evaluation outside the fixed contract. */
  lemma ViolationIff(m: Manifest, rule: Rule, e: Evidence)
    ensures Judge(m, rule, e).disposition == Violation <==>
      !Installed(m, rule) || (Contradicts(m, e) && !Unclear(RollOf(m), e))
  {
    var roll := RollOf(m);
    AmbiguousIff(m, rule, e);
    if Contract(m, rule) {
      match Decoded(e.history, roll.count) {
        case None =>
          ActiveClashSound(roll, e.active);
          ActiveReading(roll, e.active);
        case Some(rows) => AdverseIffClash(m, rule, e, rows);
      }
    }
  }

  /** A group over its expectation is a Violation unless the observation is unclear. */
  lemma OverGroupViolates(m: Manifest, rule: Rule, e: Evidence, g: Group, history: seq<HistoryRow>)
    requires Decoded(e.history, RollOf(m).count) == Some(history) && g in m.groups
    requires TooMany(RollOf(m), g, multiset(e.active), multiset(e.audit)) && !Unclear(RollOf(m), e)
    ensures Judge(m, rule, e).disposition == Violation
  {
    ViolationIff(m, rule, e);
  }

  // ---------- what the reason of a verdict says ----------

  ghost predicate ActiveExplains(roll: Roll, before: seq<ActiveRow>, row: ActiveRow, reason: Reason) {
    match reason
    case ActiveRepresentation => !row.canonical
    case ForeignSource => Source(row.labels) !in roll.identities
    case DuplicateNativeIdentity => RepeatsActive(before, row)
    case NativeStart => row.startsAt != roll.startsAt
    case NativeLabels => Source(row.labels) in roll.identities && row.labels != roll.identities[Source(row.labels)]
    case _ => false
  }

  ghost predicate HistoryExplains(roll: Roll, active: seq<ActiveRow>, before: seq<HistoryRow>, row: HistoryRow,
                                  reason: Reason) {
    match reason
    case MissingHistoryAttribution => !Attributed(row)
    case ForeignHistorySource => Source(row.labels) !in roll.identities
    case DuplicateHistoryEpisode => RepeatsHistory(before, row)
    case HistoryIdentity =>
      Source(row.labels) in roll.identities && IdentityDiffers(roll, row, roll.identities[Source(row.labels)])
    case HistoryLabels =>
      Source(row.labels) in roll.identities && !InputLabelsMatch(row, roll.identities[Source(row.labels)])
    case HistoryNativeLink => MislinkedRow(active, row)
    case _ => false
  }

  ghost predicate AuditExplains(roll: Roll, active: seq<ActiveRow>, before: seq<AuditRow>, row: AuditRow,
                                reason: Reason) {
    match reason
    case AuditRepresentation => !row.canonical
    case DuplicateAuditDecision => RepeatsAudit(before, row)
    case ForeignAuditSource => |active| >= roll.count && JoinsNone(active, row)
    case SplitGroupWindow =>
      exists other, site :: other in before && Joins(roll, multiset(active), row, site)
                            && Joins(roll, multiset(active), other, site) && other.window != row.window
    case SharedGroupWindow =>
      exists other, s, t :: other in before && Joins(roll, multiset(active), row, s)
                            && Joins(roll, multiset(active), other, t) && s != t && other.window == row.window
    case UnexpectedAuditOutcome => row.outcome !in {Enriched, ParentEmitted}
    case _ => false
  }

  lemma AuditFaultReason(roll: Roll, active: seq<ActiveRow>, before: seq<AuditRow>, row: AuditRow)
    requires !ActiveClash(roll, multiset(active)) && AuditFault(roll, active, before, row).Some?
    ensures AuditExplains(roll, active, before, row, AuditFault(roll, active, before, row).value.reason)
  {
    AuditRepeatIff(before, row);
    Unjoined(roll, active, row);
    var joined := JoinSite(roll, active, row.fingerprint);
    if joined.Some? {
      JoinIsFunction(roll, active, row, joined.value);
      SplitsIff(roll, active, before, row, joined.value);
      SharesIff(roll, active, before, row, joined.value);
    } else {
      assert forall a :: a in active ==> a in multiset(active);
    }
  }

  lemma ActiveFaultReason(roll: Roll, before: seq<ActiveRow>, row: ActiveRow)
    requires ActiveFault(roll, before, row).Some?
    ensures ActiveExplains(roll, before, row, ActiveFault(roll, before, row).value.reason)
  {
    ActiveFaultIff(roll, before, row);
  }

  lemma HistoryFaultReason(roll: Roll, active: seq<ActiveRow>, before: seq<HistoryRow>, row: HistoryRow)
    requires HistoryFault(roll, active, before, row).Some?
    ensures HistoryExplains(roll, active, before, row, HistoryFault(roll, active, before, row).value.reason)
  {
    HistoryFaultIff(roll, active, before, row);
    if other :| other in before && SameEpisode(other, row) {
      assert Source(other.labels) in HistorySources(before) && other.fingerprint in HistoryFingerprints(before);
    }
  }

  ghost predicate ActiveSays(roll: Roll, e: Evidence, reason: Reason) {
    exists k: nat :: FirstActive(roll, e.active, k) && ActiveExplains(roll, e.active[..k], e.active[k], reason)
  }

  ghost predicate HistorySays(roll: Roll, e: Evidence, reason: Reason) {
    exists k: nat :: FirstHistory(roll, e.active, e.history.records, k)
                     && HistoryExplains(roll, e.active, e.history.records[..k], e.history.records[k], reason)
  }

  ghost predicate AuditSays(roll: Roll, e: Evidence, reason: Reason) {
    exists k: nat :: FirstAudit(roll, e.active, e.audit, k)
                     && AuditExplains(roll, e.active, e.audit[..k], e.audit[k], reason)
  }

  /** The first faulty row, the population or the group that a reason names has the fault it names. */
  ghost predicate Explains(m: Manifest, rule: Rule, e: Evidence, reason: Reason) {
    var roll := RollOf(m);
    match reason
    case FixedContract => !Installed(m, rule)
    case ExcessIdentityOrAudit => Excess(roll, e)
    case HistoryRepresentation => Decoded(e.history, roll.count) == None
    case GroupDecisions => exists g :: g in m.groups && NotExact(roll, g, multiset(e.active), multiset(e.audit))
    case MissingSourceEvidence =>
      |e.active| < roll.count || |e.history.records| < roll.count || |e.audit| < roll.count
    case FixedInitialAudit => |e.active| == |e.history.records| == |e.audit| == roll.count
    case _ => ActiveSays(roll, e, reason) || HistorySays(roll, e, reason) || AuditSays(roll, e, reason)
  }

  lemma DecodedIsRecords(o: HistoryObservation, count: nat)
    ensures Decoded(o, count).Some? ==> Decoded(o, count) == Some(o.records)
  {
  }

  lemma {:induction false} ReadingReasons(m: Manifest, rule: Rule, e: Evidence, roll: Roll)
    requires roll == RollOf(m)
    ensures ActiveVerdict(roll, e.active, 0).Some? ==>
      ActiveSays(roll, e, ActiveVerdict(roll, e.active, 0).value.reason)
    ensures HistoryVerdict(roll, e.active, e.history.records, 0).Some? ==>
      HistorySays(roll, e, HistoryVerdict(roll, e.active, e.history.records, 0).value.reason)
    ensures ActiveVerdict(roll, e.active, 0).None? && AuditVerdict(roll, e.active, e.audit, 0).Some? ==>
      AuditSays(roll, e, AuditVerdict(roll, e.active, e.audit, 0).value.reason)
  {
    var i := FirstActiveVerdict(roll, e.active, 0);
    if ActiveVerdict(roll, e.active, 0).Some? { ActiveFaultReason(roll, e.active[..i], e.active[i]); }
    var j := FirstHistoryVerdict(roll, e.active, e.history.records, 0);
    if HistoryVerdict(roll, e.active, e.history.records, 0).Some? {
      HistoryFaultReason(roll, e.active, e.history.records[..j], e.history.records[j]);
    }
    ActiveClashSound(roll, e.active);
    if ActiveVerdict(roll, e.active, 0).None? {
      var k := FirstAuditVerdict(roll, e.active, e.audit, 0);
      if AuditVerdict(roll, e.active, e.audit, 0).Some? { AuditFaultReason(roll, e.active, e.audit[..k], e.audit[k]); }
    }
  }

  lemma GroupReason(m: Manifest, e: Evidence, roll: Roll)
    ensures ActiveVerdict(roll, e.active, 0).None? && AuditVerdict(roll, e.active, e.audit, 0).None?
            && (Overdecided(roll, m.groups, e.active, e.audit) || !DecidedExactly(roll, m.groups, e.active, e.audit)) ==>
      exists g :: g in m.groups && NotExact(roll, g, multiset(e.active), multiset(e.audit))
  {
    ActiveClashSound(roll, e.active);
    if !ActiveClash(roll, multiset(e.active)) {
      AuditClashSound(roll, e.active, e.audit);
      if !AuditClash(roll, multiset(e.active), multiset(e.audit)) { GroupClashSound(roll, m.groups, e.active, e.audit); }
    }
  }

  /** Every verdict's reason is true of the evidence. */
  lemma ReasonHolds(m: Manifest, rule: Rule, e: Evidence)
    ensures Explains(m, rule, e, Judge(m, rule, e).reason)
  {
    var roll := RollOf(m);
    DecodedIsRecords(e.history, roll.count);
    ReadingReasons(m, rule, e, roll);
    GroupReason(m, e, roll);
  }

  // ---------- a decoded History ----------

  /** With at most a hundred inputs a History decodes exactly when nothing was read, or it is the one page numbered 1 of 100
      that holds all its rows, no more than inputs, well formed, with ids of their own and as they were typed. */
  lemma DecodedIff(o: HistoryObservation, count: nat)
    requires count <= 100
    ensures Decoded(o, count).Some? <==>
      || (o.pages == [] && o.records == [])
      || (|o.pages| == 1 && o.pages[0].readable && o.pages[0].rows == o.records
          && o.pages[0].total == |o.records| <= count && o.pages[0].page == 1 && o.pages[0].perPage == 100
          && o.pages[0].pages == (if o.records == [] then 0 else 1)
          && (forall r :: r in o.records ==> r.wellFormed)
          && forall i, j :: 0 <= i < |o.records| && 0 <= j < |o.records| && o.records[i].id == o.records[j].id ==> i == j)
    ensures Decoded(o, count).Some? ==> Decoded(o, count).value == o.records
  {
  }
}
