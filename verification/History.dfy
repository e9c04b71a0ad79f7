/** Labels and History records, as every reader of the remote History sees them. */
module History {
  import opened Common

  /** The label names the harness reads or writes; any other name is `Other`. */
  datatype LabelName =
    | AlertName | QualificationPack | QualificationRun | Site | SourceName | Severity
    | AmFingerprint | OscarFingerprint
    | TestRunId | TestEventId | TestEventIndex | TestAlertClass | TestAlertRole
    | Other(name: string)

  type Labels = map<LabelName, string>

  /** A Go map lookup: a missing label reads as the empty string. */
  function Label(labels: Labels, name: LabelName): string {
    if name in labels then labels[name] else ""
  }

  datatype Status = Firing | Resolved | Unknown(text: string)

  /** `wellFormed`: a UUID4 id and no repeated or truncated label. An instant of 0 is the zero time. */
  datatype HistoryRow = HistoryRow(id: string, wellFormed: bool, alertName: string, fingerprint: string, status: Status,
                                   startsAt: int,
                                   labels: Labels, severity: Option<string>, originalSeverity: Option<string>)
  {
    /** History promotes severity to a top-level field; every present representation must agree with the input. */
    predicate MatchesInputLabel(name: LabelName, expected: string) {
      if name in labels && labels[name] != expected then false
      else if name != Severity then name in labels
      else if severity.Some? && severity.value != expected then false
      else name in labels || severity.Some?
    }
  }

  /** A row shows an input label when the label is present with that value; a severity may be promoted to a field of its
      own, and then every representation that is present must agree. */
  lemma InputLabelIff(row: HistoryRow, name: LabelName, expected: string)
    ensures name != Severity ==>
      (row.MatchesInputLabel(name, expected) <==> name in row.labels && row.labels[name] == expected)
    ensures row.MatchesInputLabel(Severity, expected) <==>
      && (Severity in row.labels || row.severity.Some?)
      && (Severity in row.labels ==> row.labels[Severity] == expected)
      && (row.severity.Some? ==> row.severity.value == expected)
  {
  }
}
