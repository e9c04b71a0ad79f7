/** Binding each named source of a case to the current episode its History rows show. */
module Episode {
  import opened Common
  import opened History
  import opened Injection

  /** `status` is None when no row starts at the expected instant. */
  datatype Evidence = Evidence(source: string, eventId: string, expectedStart: int, rows: seq<HistoryRow>, ready: bool,
                               status: Option<Status>)

  const CLEARED := "cleared"

  /** History replaces the current severity on resolution but keeps the original one. */
  predicate MatchesEpisodeLabel(row: HistoryRow, name: LabelName, expected: string) {
    if name == Severity && row.originalSeverity.Some? && row.originalSeverity.value != expected then false
    else if row.MatchesInputLabel(name, expected) then true
    else
      && name == Severity && row.status == Resolved && row.severity == Some(CLEARED)
      && row.originalSeverity == Some(expected)
      && (name !in row.labels || row.labels[name] == expected)
  }

  /** Only a severity may differ from its input label, and only on a resolved row whose severity was cleared and whose
      original severity is the planned one; a row that names another original severity never matches. */
  lemma EpisodeLabelIff(row: HistoryRow, name: LabelName, expected: string)
    ensures name != Severity ==>
      (MatchesEpisodeLabel(row, name, expected) <==> name in row.labels && row.labels[name] == expected)
    ensures row.originalSeverity.Some? && row.originalSeverity.value != expected ==>
      !MatchesEpisodeLabel(row, Severity, expected)
    ensures row.originalSeverity.None? || row.status != Resolved || row.severity != Some("cleared") ==>
      (MatchesEpisodeLabel(row, Severity, expected) <==>
         (row.originalSeverity.Some? ==> row.originalSeverity.value == expected) && row.MatchesInputLabel(Severity, expected))
    ensures row.status == Resolved && row.severity == Some("cleared") && row.originalSeverity == Some(expected) ==>
      (MatchesEpisodeLabel(row, Severity, expected) <==> Severity in row.labels ==> row.labels[Severity] == expected)
  {
    InputLabelIff(row, name, expected);
  }

  predicate OfSource(alert: Alert, row: HistoryRow) {
    row.alertName == alert.name && Label(row.labels, TestEventId) == Label(alert.labels, TestEventId)
  }

  predicate Bindable(alert: Alert, base: int) {
    Label(alert.labels, TestEventId) != "" && alert.source != "" && alert.episodeOffset.Some? && base != 0
  }

  function ExpectedStart(alert: Alert, base: int): int {
    if Bindable(alert, base) then base + alert.episodeOffset.value else 0
  }

  predicate Late(start: int, row: HistoryRow) { row.startsAt == 0 || row.startsAt > start }

  predicate AtStart(alert: Alert, start: int, row: HistoryRow) {
    OfSource(alert, row) && row.startsAt == start != 0
  }

  /** The row shows the planned labels of this alert under a usable fingerprint and status. */
  predicate Planned(alert: Alert, row: HistoryRow) {
    && row.fingerprint != "" && (row.status == Firing || row.status == Resolved)
    && forall l :: l in alert.labels ==> MatchesEpisodeLabel(row, l, alert.labels[l])
  }

  predicate SameEpisode(r: HistoryRow, s: HistoryRow) { r.fingerprint == s.fingerprint && r.status == s.status }

  /** No row of the source is later than the expected episode, and the rows at its start show one planned alert. */
  ghost predicate Consistent(alert: Alert, start: int, rows: seq<HistoryRow>) {
    && (forall r :: r in rows && OfSource(alert, r) ==> !Late(start, r))
    && (forall r :: r in rows && AtStart(alert, start, r) ==> Planned(alert, r))
    && (forall r, s :: r in rows && s in rows && AtStart(alert, start, r) && AtStart(alert, start, s) ==> SameEpisode(r, s))
  }

  /** The source's expected episode is exactly what History shows. */
  ghost predicate Ready(alert: Alert, base: int, rows: seq<HistoryRow>) {
    && Bindable(alert, base) && Consistent(alert, ExpectedStart(alert, base), rows)
    && exists r :: r in rows && AtStart(alert, ExpectedStart(alert, base), r)
  }

  /** A row of the source is at the expected start under this fingerprint and status, with every planned label. */
  ghost predicate Fits(alert: Alert, start: int, row: HistoryRow, fingerprint: string, status: Status) {
    && row.alertName == alert.name && Label(row.labels, TestEventId) == Label(alert.labels, TestEventId)
    && row.startsAt == start && row.fingerprint == fingerprint && row.status == status
    && forall l :: l in alert.labels ==> MatchesEpisodeLabel(row, l, alert.labels[l])
  }

  ghost predicate OneEpisode(alert: Alert, start: int, rows: seq<HistoryRow>, fingerprint: string, status: Status) {
    && fingerprint != "" && (status == Firing || status == Resolved)
    && (exists r :: r in rows && Fits(alert, start, r, fingerprint, status))
    && forall r :: r in rows && r.alertName == alert.name && Label(r.labels, TestEventId) == Label(alert.labels, TestEventId) ==>
         0 != r.startsAt < start || Fits(alert, start, r, fingerprint, status)
  }

  ghost predicate HasOneEpisode(alert: Alert, start: int, rows: seq<HistoryRow>) {
    exists f, status :: OneEpisode(alert, start, rows, f, status)
  }

  /** A source is ready exactly when it is named and planned at an instant, one fingerprint, firing or resolved, shows its
      expected episode with every planned label, and every other row of it is of an earlier episode. */
  lemma ReadyIff(alert: Alert, base: int, rows: seq<HistoryRow>)
    ensures Ready(alert, base, rows) <==>
      && Label(alert.labels, TestEventId) != "" && alert.source != "" && alert.episodeOffset.Some? && base != 0
      && base + alert.episodeOffset.value != 0 && HasOneEpisode(alert, base + alert.episodeOffset.value, rows)
  {
    if alert.episodeOffset.None? { return; }
    var start := base + alert.episodeOffset.value;
    if Ready(alert, base, rows) {
      var r :| r in rows && AtStart(alert, start, r);
      assert Fits(alert, start, r, r.fingerprint, r.status);
      forall s | s in rows && OfSource(alert, s)
        ensures 0 != s.startsAt < start || Fits(alert, start, s, r.fingerprint, r.status)
      {
        if s.startsAt == start { assert SameEpisode(s, r); }
      }
      assert OneEpisode(alert, start, rows, r.fingerprint, r.status);
    }
    if start != 0 && HasOneEpisode(alert, start, rows) {
      var f, status :| OneEpisode(alert, start, rows, f, status);
      var r :| r in rows && Fits(alert, start, r, f, status);
      assert AtStart(alert, start, r);
    }
  }

  function SourceRows(alert: Alert, rows: seq<HistoryRow>): seq<HistoryRow> {
    if rows == [] then []
    else SourceRows(alert, rows[..|rows| - 1]) + if OfSource(alert, rows[|rows| - 1]) then [rows[|rows| - 1]] else []
  }

  /** The last row that starts at the expected instant. */
  function LastAtStart(alert: Alert, start: int, rows: seq<HistoryRow>): (r: Option<HistoryRow>)
    ensures r.Some? ==> r.value in rows && AtStart(alert, start, r.value)
    ensures r.None? ==> forall s :: s in rows ==> !AtStart(alert, start, s)
  {
    if rows == [] then None
    else if AtStart(alert, start, rows[|rows| - 1]) then Some(rows[|rows| - 1])
    else LastAtStart(alert, start, rows[..|rows| - 1])
  }

  /** What one more row does to the loop's verdict. */
  lemma {:induction false} ConsistentStep(alert: Alert, start: int, rows: seq<HistoryRow>, row: HistoryRow)
    ensures Consistent(alert, start, rows + [row]) <==>
      && Consistent(alert, start, rows)
      && (OfSource(alert, row) ==> !Late(start, row))
      && (AtStart(alert, start, row) ==> Planned(alert, row) && (LastAtStart(alert, start, rows).Some? ==> SameEpisode(LastAtStart(alert, start, rows).value, row)))
  {
    var last := LastAtStart(alert, start, rows);
    assert forall r :: r in rows ==> r in rows + [row];
    assert row in rows + [row];
    if Consistent(alert, start, rows) && AtStart(alert, start, row) && last.Some? && SameEpisode(last.value, row) {
      forall r | r in rows && AtStart(alert, start, r) ensures SameEpisode(r, row) {
        assert SameEpisode(r, last.value);
      }
    }
  }

  method BindSource(alert: Alert, base: int, rows: seq<HistoryRow>) returns (e: Evidence)
    ensures BindsTo(alert, base, rows, e)
  {
    var key := Label(alert.labels, TestEventId);
    var bindable := key != "" && alert.source != "" && alert.episodeOffset.Some? && base != 0;
    var start := if bindable then base + alert.episodeOffset.value else 0;
    var valid, fingerprint, status, kept := bindable, "", None, [];
    for i := 0 to |rows|
      invariant kept == SourceRows(alert, rows[..i])
      invariant valid <==> bindable && Consistent(alert, start, rows[..i])
      invariant fingerprint == match LastAtStart(alert, start, rows[..i]) case None => "" case Some(r) => r.fingerprint
      invariant status == match LastAtStart(alert, start, rows[..i]) case None => None case Some(r) => Some(r.status)
    {
      var row := rows[i];
      ConsistentStep(alert, start, rows[..i], row);
      assert rows[..i + 1] == rows[..i] + [row] && rows[..i + 1][..i] == rows[..i];
      if row.alertName != alert.name || Label(row.labels, TestEventId) != key { continue; }
      kept := kept + [row];
      if row.startsAt == 0 || row.startsAt > start {
        valid := false;
        continue;
      }
      if row.startsAt < start { continue; }
      if row.fingerprint == "" || (row.status != Firing && row.status != Resolved) { valid := false; }
      if exists l :: l in alert.labels && !MatchesEpisodeLabel(row, l, alert.labels[l]) { valid := false; }
      if fingerprint != "" && (fingerprint != row.fingerprint || status != Some(row.status)) { valid := false; }
      EmptyFingerprint(alert, start, rows[..i]);
      fingerprint, status := row.fingerprint, Some(row.status);
    }
    assert rows[..|rows|] == rows;
    EmptyFingerprint(alert, start, rows);
    e := Evidence(alert.source, key, start, kept, valid && fingerprint != "", status);
  }

  lemma {:induction false} EmptyFingerprint(alert: Alert, start: int, rows: seq<HistoryRow>)
    ensures Consistent(alert, start, rows) && LastAtStart(alert, start, rows).Some? ==>
      LastAtStart(alert, start, rows).value.fingerprint != ""
  {
  }

  /** Readiness, and the status of a ready source, do not depend on the order of the rows. */
  lemma {:induction false} ReorderingKeepsReadiness(alert: Alert, base: int, rows: seq<HistoryRow>,
                                                    other: seq<HistoryRow>)
    requires multiset(rows) == multiset(other)
    ensures Ready(alert, base, rows) <==> Ready(alert, base, other)
    ensures Ready(alert, base, rows) ==>
      LastAtStart(alert, ExpectedStart(alert, base), rows).value.status ==
        LastAtStart(alert, ExpectedStart(alert, base), other).value.status
  {
    assert forall r :: r in rows <==> r in multiset(rows);
    assert forall r :: r in other <==> r in multiset(other);
  }

  /** The status recorded for a source, ready or not. */
  function StatusAtStart(alert: Alert, start: int, rows: seq<HistoryRow>): Option<Status> {
    match LastAtStart(alert, start, rows)
    case None => None
    case Some(r) => Some(r.status)
  }

  ghost predicate OneStatus(alert: Alert, start: int, rows: seq<HistoryRow>) {
    forall r, s :: r in rows && s in rows && AtStart(alert, start, r) && AtStart(alert, start, s) ==>
      r.status == s.status
  }

  /** Every order of the rows records the same status. */
  ghost predicate OrderFree(alert: Alert, start: int, rows: seq<HistoryRow>) {
    forall other: seq<HistoryRow> :: multiset(other) == multiset(rows) ==>
      StatusAtStart(alert, start, other) == StatusAtStart(alert, start, rows)
  }

  lemma MoveToEnd<T>(s: seq<T>, i: nat)
    requires i < |s|
    ensures multiset(s[..i] + s[i + 1..] + [s[i]]) == multiset(s)
  {
    assert s == s[..i] + [s[i]] + s[i + 1..];
  }

  /** A row at the start can be made the one that decides. */
  lemma DecidesLast(alert: Alert, start: int, rows: seq<HistoryRow>, r: HistoryRow)
    requires OrderFree(alert, start, rows) && r in rows && AtStart(alert, start, r)
    ensures StatusAtStart(alert, start, rows) == Some(r.status)
  {
    var i :| 0 <= i < |rows| && rows[i] == r;
    MoveToEnd(rows, i);
    var other := rows[..i] + rows[i + 1..] + [rows[i]];
    assert StatusAtStart(alert, start, other) == StatusAtStart(alert, start, rows);
  }

  /** The recorded status is independent of the order of the rows exactly when the rows at the start agree on it. */
  lemma StatusOrderFreeIff(alert: Alert, start: int, rows: seq<HistoryRow>)
    ensures OrderFree(alert, start, rows) <==> OneStatus(alert, start, rows)
  {
    if OrderFree(alert, start, rows) {
      forall r, s | r in rows && s in rows && AtStart(alert, start, r) && AtStart(alert, start, s)
        ensures r.status == s.status
      {
        DecidesLast(alert, start, rows, r);
        DecidesLast(alert, start, rows, s);
      }
    }
    if OneStatus(alert, start, rows) {
      forall other: seq<HistoryRow> | multiset(other) == multiset(rows)
        ensures StatusAtStart(alert, start, other) == StatusAtStart(alert, start, rows)
      {
        assert forall r :: r in rows <==> r in multiset(rows);
        assert forall r :: r in other <==> r in multiset(other);
      }
    }
  }

  /** One alert whose two rows at its start are firing and resolved: the status recorded is that of the row read last.
      */
  lemma UnreadyStatusFollowsOrder() returns (alert: Alert, rows: seq<HistoryRow>, other: seq<HistoryRow>)
    ensures multiset(rows) == multiset(other)
    ensures StatusAtStart(alert, ExpectedStart(alert, 1), rows) == Some(Firing)
    ensures StatusAtStart(alert, ExpectedStart(alert, 1), other) == Some(Resolved)
  {
    alert := Alert("source", "alert", Firing, map[TestEventId := "e"], 0, Some(0), 0, 0);
    var r := HistoryRow("", true, "alert", "f", Resolved, 1, map[TestEventId := "e"], None, None);
    rows, other := [r, r.(status := Firing)], [r.(status := Firing), r];
    assert AtStart(alert, 1, r) && AtStart(alert, 1, r.(status := Firing));
  }

  // ---------- the whole case ----------

  function EventOf(alert: Alert): string { Label(alert.labels, TestEventId) }

  /** The latest alert of an event. */
  ghost predicate IsLatest(alerts: seq<Alert>, key: string, alert: Alert) {
    exists i :: 0 <= i < |alerts| && alerts[i] == alert && EventOf(alert) == key && forall j :: i < j < |alerts| ==> EventOf(alerts[j]) != key
  }

  /** Every event once, in the order of its first alert. */
  function Events(alerts: seq<Alert>): (keys: seq<string>)
    ensures keys == [] <==> alerts == []
  {
    if alerts == [] then []
    else
      var before, key := Events(alerts[..|alerts| - 1]), EventOf(alerts[|alerts| - 1]);
      if key in before then before else before + [key]
  }

  lemma {:induction false} EventsOnce(alerts: seq<Alert>)
    ensures Distinct(Events(alerts)) && forall k :: k in Events(alerts) <==> exists a :: a in alerts && EventOf(a) == k
  {
    if alerts != [] {
      EventsOnce(alerts[..|alerts| - 1]);
      assert alerts == alerts[..|alerts| - 1] + [alerts[|alerts| - 1]];
    }
  }

  /** `latest` maps exactly the events seen to their latest alert. */
  ghost predicate Tracks(alerts: seq<Alert>, latest: map<string, Alert>) {
    && (forall k :: k in latest ==> IsLatest(alerts, k, latest[k]))
    && forall k :: k in latest <==> k in Events(alerts)
  }

  method LatestAlerts(alerts: seq<Alert>) returns (keys: seq<string>, latest: map<string, Alert>)
    ensures keys == Events(alerts) && Tracks(alerts, latest)
  {
    keys, latest := [], map[];
    var n := 0;
    while n < |alerts|
      invariant 0 <= n <= |alerts|
      invariant keys == Events(alerts[..n]) && Tracks(alerts[..n], latest)
    {
      TracksStep(alerts[..n], latest, alerts[n]);
      assert alerts[..n + 1] == alerts[..n] + [alerts[n]];
      var key := EventOf(alerts[n]);
      if key !in latest { keys := keys + [key]; }
      latest := latest[key := alerts[n]];
      n := n + 1;
    }
    assert alerts[..|alerts|] == alerts;
  }

  lemma {:induction false} TracksStep(alerts: seq<Alert>, latest: map<string, Alert>, next: Alert)
    requires Tracks(alerts, latest)
    ensures Events(alerts + [next]) == Events(alerts) + if EventOf(next) in latest then [] else [EventOf(next)]
    ensures Tracks(alerts + [next], latest[EventOf(next) := next])
  {
    assert (alerts + [next])[..|alerts|] == alerts;
    var after := latest[EventOf(next) := next];
    forall k | k in after ensures IsLatest(alerts + [next], k, after[k]) {
      if k == EventOf(next) {
        assert (alerts + [next])[|alerts|] == next;
      } else {
        LatestStep(alerts, k, latest[k], next);
      }
    }
  }

  lemma {:induction false} LatestStep(alerts: seq<Alert>, k: string, alert: Alert, next: Alert)
    requires IsLatest(alerts, k, alert) && EventOf(next) != k
    ensures IsLatest(alerts + [next], k, alert)
  {
    var i :| 0 <= i < |alerts| && alerts[i] == alert && EventOf(alert) == k && forall j :: i < j < |alerts| ==> EventOf(alerts[j]) != k;
    assert (alerts + [next])[i] == alert;
  }

  /** The evidence of one event is bound to its latest alert. */
  ghost predicate Binds(alerts: seq<Alert>, base: int, rows: seq<HistoryRow>, key: string, e: Evidence) {
    exists alert :: IsLatest(alerts, key, alert) && BindsTo(alert, base, rows, e)
  }

  ghost predicate BindsTo(alert: Alert, base: int, rows: seq<HistoryRow>, e: Evidence) {
    && e.source == alert.source && e.eventId == EventOf(alert) && e.expectedStart == ExpectedStart(alert, base)
    && e.rows == SourceRows(alert, rows) && (e.ready <==> Ready(alert, base, rows))
    && e.status == match LastAtStart(alert, ExpectedStart(alert, base), rows) case None => None case Some(r) => Some(r.status)
  }

  /** Binds one source and states it as the caller's relation. */
  method BindLatest(ghost alerts: seq<Alert>, latest: map<string, Alert>, key: string, base: int, rows: seq<HistoryRow>,
                    ghost binds: (string, Evidence) -> bool)
    returns (e: Evidence)
    requires Tracks(alerts, latest) && key in latest
    requires forall k, f :: Binds(alerts, base, rows, k, f) ==> binds(k, f)
    ensures binds(key, e)
  {
    e := BindSource(latest[key], base, rows);
    assert IsLatest(alerts, key, latest[key]);
    assert Binds(alerts, base, rows, key, e);
  }

  method BindEach(ghost alerts: seq<Alert>, latest: map<string, Alert>, keys: seq<string>, base: int,
                  rows: seq<HistoryRow>, ghost binds: (string, Evidence) -> bool)
    returns (evidence: seq<Evidence>, ready: bool)
    requires Tracks(alerts, latest) && forall k :: k in keys ==> k in latest
    requires forall k, f :: Binds(alerts, base, rows, k, f) ==> binds(k, f)
    ensures |evidence| == |keys| && forall n :: 0 <= n < |keys| ==> binds(keys[n], evidence[n])
    ensures ready <==> keys != [] && forall n :: 0 <= n < |evidence| ==> evidence[n].ready
  {
    evidence, ready := [], keys != [];
    var n := 0;
    while n < |keys|
      invariant 0 <= n == |evidence| <= |keys|
      invariant forall j :: 0 <= j < n ==> binds(keys[j], evidence[j])
      invariant ready <==> keys != [] && forall j :: 0 <= j < n ==> evidence[j].ready
    {
      assert keys[n] in keys;
      var e := BindLatest(alerts, latest, keys[n], base, rows, binds);
      ready := ready && e.ready;
      evidence := evidence + [e];
      n := n + 1;
    }
  }

  method BindSourceEpisodes(alerts: seq<Alert>, base: int, rows: seq<HistoryRow>)
    returns (evidence: seq<Evidence>, ready: bool)
    ensures |evidence| == |Events(alerts)|
    ensures forall n :: 0 <= n < |evidence| ==> Binds(alerts, base, rows, Events(alerts)[n], evidence[n])
    ensures ready <==> alerts != [] && forall n :: 0 <= n < |evidence| ==> evidence[n].ready
  {
    var keys, latest := LatestAlerts(alerts);
    ghost var binds := (k: string, e: Evidence) => Binds(alerts, base, rows, k, e);
    evidence, ready := BindEach(alerts, latest, keys, base, rows, binds);
    forall n | 0 <= n < |evidence| ensures Binds(alerts, base, rows, Events(alerts)[n], evidence[n]) {
      assert binds(keys[n], evidence[n]);
    }
  }
}
