/** What a lowered case guarantees about labels, event ids and the alert budget. */
module LoweringLaws {
  import opened Common
  import opened History
  import opened Injection
  import opened Lowering
  import Discovery

  lemma {:induction false} SoundAt(c: Config, events: seq<Event>, alerts: seq<Alert>, j: nat)
    requires AllSound(c, events, alerts) && j < |events|
    ensures AllSound(c, events[..j], alerts[..j]) && AlertSound(c, events[..j], alerts[..j], events[j], alerts[j])
  {
    if j < |events| - 1 {
      SoundAt(c, Init(events), Init(alerts), j);
      assert Init(events)[..j] == events[..j] && Init(alerts)[..j] == alerts[..j];
    }
  }

  ghost function Id(alert: Alert): string { Label(alert.labels, TestEventId) }

  /** The firing an alert belongs to: fresh, of the same identity, and bearing the same labels. */
  lemma {:induction false} OriginOf(c: Config, events: seq<Event>, alerts: seq<Alert>, j: nat) returns (o: nat)
    requires AllSound(c, events, alerts) && j < |events|
    ensures o <= j && Fresh(events[..o], events[o]) && IdentityKey(events[o]) == IdentityKey(events[j])
    ensures alerts[o].labels == alerts[j].labels
    decreases j
  {
    SoundAt(c, events, alerts, j);
    if Fresh(events[..j], events[j]) {
      o := j;
    } else {
      var key := IdentityKey(events[j]);
      var p := if events[j].status == Resolved then Latest(events[..j], key).value else LatestFiring(events[..j], key).value;
      o := OriginOf(c, events, alerts, p);
    }
  }

  lemma {:induction false} FreshCountGrows(events: seq<Event>, i: nat, j: nat)
    requires i < j <= |events| && Fresh(events[..i], events[i])
    ensures FreshCount(events[..i]) < FreshCount(events[..j])
    decreases j
  {
    assert Init(events[..j]) == events[..j - 1] && Last(events[..j]) == events[j - 1];
    if i < j - 1 { FreshCountGrows(events, i, j - 1); }
  }

  lemma {:induction false} FreshIdOf(c: Config, before: seq<Event>, sent: seq<Alert>, e: Event, a: Alert)
    requires |before| == |sent| && LabelsSound(c, before, sent, e, a) && Fresh(before, e)
    ensures Id(a) == EventId(c, FreshCount(before) + 1)
  {
  }

  lemma {:induction false} FreshId(c: Config, events: seq<Event>, alerts: seq<Alert>, j: nat)
    requires AllSound(c, events, alerts) && j < |events| && Fresh(events[..j], events[j])
    ensures Id(alerts[j]) == EventId(c, FreshCount(events[..j]) + 1)
  {
    SoundAt(c, events, alerts, j);
    FreshIdOf(c, events[..j], alerts[..j], events[j], alerts[j]);
  }

  lemma {:induction false} EventIdInjective(c: Config, m: nat, n: nat)
    requires EventId(c, m) == EventId(c, n)
    ensures m == n
  {
    var k := |c.prefix| + 1;
    assert EventId(c, m)[k..] == Padded(m, 3) && EventId(c, n)[k..] == Padded(n, 3);
    PaddedNumeral(m, 3);
    PaddedNumeral(n, 3);
  }

  lemma DifferentNumbers(c: Config, m: nat, n: nat)
    requires m != n
    ensures EventId(c, m) != EventId(c, n)
  {
    if EventId(c, m) == EventId(c, n) { EventIdInjective(c, m, n); }
  }

  lemma {:induction false} NumbersGrow(c: Config, events: seq<Event>, i: nat, j: nat)
    requires i < j <= |events| && Fresh(events[..i], events[i])
    ensures EventId(c, FreshCount(events[..i]) + 1) != EventId(c, FreshCount(events[..j]) + 1)
  {
    FreshCountGrows(events, i, j);
    DifferentNumbers(c, FreshCount(events[..i]) + 1, FreshCount(events[..j]) + 1);
  }

  /** Every firing that opens a new alert has an event id of its own. */
  lemma {:induction false} FreshIdsDistinct(c: Config, events: seq<Event>, alerts: seq<Alert>, i: nat, j: nat)
    requires AllSound(c, events, alerts) && i < j < |events|
    requires Fresh(events[..i], events[i]) && Fresh(events[..j], events[j])
    ensures Id(alerts[i]) != Id(alerts[j])
  {
    FreshId(c, events, alerts, i);
    FreshId(c, events, alerts, j);
    NumbersGrow(c, events, i, j);
  }

  /** Two alerts share an event id exactly when they share all their labels, and then they are of one identity. */
  lemma {:induction false} IdsSeparateIdentities(c: Config, events: seq<Event>, alerts: seq<Alert>, i: nat, j: nat)
    requires AllSound(c, events, alerts) && i < |events| && j < |events|
    ensures Id(alerts[i]) == Id(alerts[j]) <==> alerts[i].labels == alerts[j].labels
    ensures Id(alerts[i]) == Id(alerts[j]) ==> IdentityKey(events[i]) == IdentityKey(events[j])
  {
    var oi := OriginOf(c, events, alerts, i);
    var oj := OriginOf(c, events, alerts, j);
    if oi < oj {
      FreshIdsDistinct(c, events, alerts, oi, oj);
    } else if oj < oi {
      FreshIdsDistinct(c, events, alerts, oj, oi);
    }
  }

  /** A named source keeps one event id and one set of labels through every resolution and refire. */
  lemma {:induction false} NamedSourceKeepsLabels(c: Config, events: seq<Event>, alerts: seq<Alert>, i: nat, j: nat)
    requires AllSound(c, events, alerts) && Validated(events) && i < |events| && j < |events|
    requires events[i].source != "" && IdentityKey(events[i]) == IdentityKey(events[j])
    ensures alerts[i].labels == alerts[j].labels && Id(alerts[i]) == Id(alerts[j])
  {
    var oi := OriginOf(c, events, alerts, i);
    var oj := OriginOf(c, events, alerts, j);
    OneOrigin(events, i, oi, oj);
  }

  lemma {:induction false} OneOrigin(events: seq<Event>, i: nat, oi: nat, oj: nat)
    requires Validated(events) && i < |events| && oi < |events| && oj < |events| && events[i].source != ""
    requires IdentityKey(events[oi]) == IdentityKey(events[i]) == IdentityKey(events[oj])
    requires Fresh(events[..oi], events[oi]) && Fresh(events[..oj], events[oj])
    ensures oi == oj
  {
    IdentityKeyInjective(events[oi], events[i]);
    if oi < oj { OnlyOneFresh(events, oi, oj); }
    if oj < oi { OnlyOneFresh(events, oj, oi); }
  }

  /** A named source opens a new alert once. */
  lemma {:induction false} OnlyOneFresh(events: seq<Event>, i: nat, j: nat)
    requires Validated(events) && i < j < |events| && IdentityKey(events[i]) == IdentityKey(events[j])
    requires events[i].status != Resolved
    ensures Fresh(events[..j], events[j]) ==> events[i].source == "" && events[j].source == ""
  {
    IdentityKeyInjective(events[i], events[j]);
    var f := LatestFiring(events[..j], IdentityKey(events[j]));
    assert events[..j][i] == events[i];
    assert f.Some?;
  }

  /** A resolution carries the labels of the latest firing of its identity, which nothing of that identity followed. */
  lemma {:induction false} ResolutionsCloseTheirFiring(c: Config, events: seq<Event>, alerts: seq<Alert>, j: nat)
    returns (i: nat)
    requires AllSound(c, events, alerts) && j < |events| && events[j].status == Resolved
    ensures i < j && events[i].status != Resolved && IdentityKey(events[i]) == IdentityKey(events[j])
    ensures forall k :: i < k < j ==> IdentityKey(events[k]) != IdentityKey(events[j])
    ensures alerts[j].labels == alerts[i].labels && Id(alerts[j]) == Id(alerts[i])
  {
    SoundAt(c, events, alerts, j);
    i := Latest(events[..j], IdentityKey(events[j])).value;
    forall k | i < k < j ensures IdentityKey(events[k]) != IdentityKey(events[j]) {
      assert events[..j][k] == events[k];
    }
  }

  /** The episode of a named alert starts at the delay of its source's latest firing so far. */
  lemma {:induction false} OffsetsFollowFirings(c: Config, events: seq<Event>, alerts: seq<Alert>, j: nat)
    returns (i: nat)
    requires AllSound(c, events, alerts) && j < |events| && events[j].source != ""
    ensures i <= j && events[i].status != Resolved && IdentityKey(events[i]) == IdentityKey(events[j])
    ensures forall k :: i < k <= j && IdentityKey(events[k]) == IdentityKey(events[j]) ==> events[k].status == Resolved
    ensures alerts[j].episodeOffset == Some(events[i].delay)
  {
    SoundAt(c, events, alerts, j);
    UpTo(events, j);
    i := OffsetFiring(c, events[..j], alerts[..j], events[j], alerts[j]);
  }

  lemma {:induction false} UpTo<T>(s: seq<T>, j: nat)
    requires j < |s|
    ensures forall k :: 0 <= k <= j ==> (s[..j] + [s[j]])[k] == s[k]
  {
  }

  lemma {:induction false} OffsetFiring(c: Config, before: seq<Event>, sent: seq<Alert>, e: Event, a: Alert)
    returns (i: nat)
    requires |before| == |sent| && LabelsSound(c, before, sent, e, a) && OffsetSound(before, e, a) && e.source != ""
    ensures i <= |before| && (before + [e])[i].status != Resolved && IdentityKey((before + [e])[i]) == IdentityKey(e)
    ensures forall k :: i < k <= |before| && IdentityKey((before + [e])[k]) == IdentityKey(e) ==>
      (before + [e])[k].status == Resolved
    ensures a.episodeOffset == Some((before + [e])[i].delay)
  {
    Appended(before, e, IdentityKey(e));
    if e.status == Resolved { OpenHasFired(before, IdentityKey(e)); }
    i := LatestFiring(before + [e], IdentityKey(e)).value;
  }

  lemma {:induction false} OpenHasFired(events: seq<Event>, key: string)
    requires Open(events, key)
    ensures LatestFiring(events, key).Some?
  {
  }

  /** The number in the id of an alert: that of the firing it belongs to. */
  lemma {:induction false} NumberOf(c: Config, events: seq<Event>, alerts: seq<Alert>, j: nat) returns (n: nat)
    requires AllSound(c, events, alerts) && j < |events|
    ensures Id(alerts[j]) == EventId(c, n)
  {
    var o := OriginOf(c, events, alerts, j);
    FreshId(c, events, alerts, o);
    n := FreshCount(events[..o]) + 1;
  }

  /** Every alert carries an event id. */
  lemma {:induction false} EveryAlertIdentified(c: Config, events: seq<Event>, alerts: seq<Alert>, j: nat)
    requires AllSound(c, events, alerts) && j < |events|
    ensures Id(alerts[j]) != ""
  {
    var n := NumberOf(c, events, alerts, j);
  }

  /** The event's own labels win over those of the case, and these over the identity labels, whose class and role are the
      alert's; id, index and name are the compiler's. */
  ghost predicate Carries(c: Config, e: Event, n: nat, labels: Labels) {
    && (forall l :: l in labels <==>
          || l in c.identity || l in c.caseLabels || l in e.labels
          || l in {TestAlertClass, TestAlertRole, TestEventId, TestEventIndex, AlertName})
    && (forall l :: l in labels ==> labels[l] == CarriedValue(c, e, n, l))
  }

  ghost function CarriedValue(c: Config, e: Event, n: nat, l: LabelName): string {
    if l == AlertName then NameOf(c, e)
    else if l == TestEventIndex then Decimal(n)
    else if l == TestEventId then c.prefix + "-" + Padded(n, 3)
    else if l in e.labels then e.labels[l]
    else if l in c.caseLabels then c.caseLabels[l]
    else if l == TestAlertRole then e.role
    else if l == TestAlertClass then "source"
    else Label(c.identity, l)
  }

  lemma FreshLabelsCarry(c: Config, e: Event, n: nat)
    ensures Carries(c, e, n, FreshLabels(c, e, n)[AlertName := NameOf(c, e)])
  {
  }

  /** Every alert carries the labels of the firing it belongs to, a fresh one of its own identity. */
  lemma {:induction false} AlertCarriesLabels(c: Config, events: seq<Event>, alerts: seq<Alert>, j: nat)
    returns (o: nat, n: nat)
    requires AllSound(c, events, alerts) && j < |events|
    ensures o <= j && Fresh(events[..o], events[o]) && IdentityKey(events[o]) == IdentityKey(events[j])
    ensures n == FreshCount(events[..o]) + 1 && Carries(c, events[o], n, alerts[j].labels)
  {
    o := OriginOf(c, events, alerts, j);
    n := FreshCount(events[..o]) + 1;
    SoundAt(c, events, alerts, o);
    CarriedByFresh(c, events[..o], alerts[..o], events[o], alerts[o]);
  }

  lemma {:induction false} CarriedByFresh(c: Config, before: seq<Event>, sent: seq<Alert>, e: Event, a: Alert)
    requires |before| == |sent| && LabelsSound(c, before, sent, e, a) && Fresh(before, e)
    ensures Carries(c, e, FreshCount(before) + 1, a.labels)
  {
    FreshLabelsCarry(c, e, FreshCount(before) + 1);
  }

  // ---------- the plan's budget ----------

  datatype CaseEvents = CaseEvents(config: Config, events: seq<Event>)

  ghost function TotalAlerts(plan: seq<seq<Alert>>): nat {
    if plan == [] then 0 else TotalAlerts(plan[..|plan| - 1]) + |plan[|plan| - 1]|
  }

  ghost predicate Lowers(c: CaseEvents, alerts: seq<Alert>) {
    AllSound(c.config, c.events, alerts)
  }

  ghost predicate Accepted(c: CaseEvents) { Bracketed(c.config, c.events) }

  /** Lowers one case and states it as the caller's relations. */
  method LowerCase(c: CaseEvents, ghost lowers: (CaseEvents, seq<Alert>) -> bool, ghost accepted: CaseEvents -> bool)
    returns (alerts: Option<seq<Alert>>)
    requires Validated(c.events)
    requires (forall d, a :: Lowers(d, a) ==> lowers(d, a)) && forall d :: accepted(d) <==> Accepted(d)
    ensures alerts.Some? <==> accepted(c)
    ensures alerts.Some? ==> lowers(c, alerts.value) && |alerts.value| == |c.events|
  {
    var r := LowerEvents(c.config, c.events);
    if r.Lowered? { assert Lowers(c, r.alerts); }
    assert accepted(c) <==> Accepted(c);
    alerts := if r.Lowered? then Some(r.alerts) else None;
  }

  method LowerCases(cases: seq<CaseEvents>, ghost lowers: (CaseEvents, seq<Alert>) -> bool,
                    ghost accepted: CaseEvents -> bool)
    returns (plan: Option<seq<seq<Alert>>>, rules: nat, budget: nat)
    requires forall c :: c in cases ==> Validated(c.events)
    requires (forall d, a :: Lowers(d, a) ==> lowers(d, a)) && forall d :: accepted(d) <==> Accepted(d)
    ensures plan.Some? <==> forall c :: c in cases ==> accepted(c)
    ensures plan.Some? ==> |plan.value| == rules == |cases| && budget == TotalAlerts(plan.value)
    ensures plan.Some? ==> forall n :: 0 <= n < |cases| ==> lowers(cases[n], plan.value[n])
  {
    var lowered: seq<seq<Alert>> := [];
    rules, budget := 0, 0;
    while rules < |cases|
      invariant |lowered| == rules <= |cases| && budget == TotalAlerts(lowered)
      invariant forall m :: 0 <= m < rules ==> accepted(cases[m]) && lowers(cases[m], lowered[m])
    {
      var alerts := LowerCase(cases[rules], lowers, accepted);
      if alerts.None? { return None, 0, 0; }
      assert (lowered + [alerts.value])[..rules] == lowered;
      lowered, budget := lowered + [alerts.value], budget + |cases[rules].events|;
      rules := rules + 1;
    }
    plan := Some(lowered);
  }

  /** Lowers every case; the alert budget is the number of alerts the plan sends. */
  method CompileCases(cases: seq<CaseEvents>) returns (plan: Option<seq<seq<Alert>>>, rules: nat, budget: nat)
    requires forall c :: c in cases ==> Validated(c.events)
    ensures plan.Some? <==> forall c :: c in cases ==> Accepted(c)
    ensures plan.Some? ==> |plan.value| == rules == |cases| && budget == TotalAlerts(plan.value)
    ensures plan.Some? ==> forall n :: 0 <= n < |cases| ==> Lowers(cases[n], plan.value[n])
  {
    plan, rules, budget := LowerCases(cases, (c, a) => Lowers(c, a), c => Accepted(c));
  }

  // ---------- event ids across the cases of a plan ----------

  lemma {:induction false} DecimalHasNoDash(n: nat)
    ensures '-' !in Decimal(n)
  {
    DigitIsNoDash(n % 10);
    if n >= 10 { DecimalHasNoDash(n / 10); }
  }

  lemma DigitIsNoDash(n: nat)
    requires n < 10
    ensures Digit(n) != '-'
  {
    DigitValue(n);
  }

  lemma {:induction false} PadHasNoDash(s: string, width: nat)
    requires '-' !in s
    ensures '-' !in PadTo(s, width)
    decreases width - |s|
  {
    if |s| < width { PadHasNoDash(['0'] + s, width); }
  }

  /** The last dash of an event id ends its prefix. */
  lemma {:induction false} PrefixIsLongest(p: string, s: string, q: string, t: string)
    requires p + "-" + s == q + "-" + t && '-' !in t
    ensures |p| <= |q|
  {
    var whole := q + "-" + t;
    assert whole[|p|] == '-';
    forall k | |q| < k < |whole| ensures whole[k] != '-' {
      assert whole[k] == t[k - |q| - 1];
    }
  }

  /** Event ids of different prefixes never meet, whatever dashes the prefixes hold. */
  lemma {:induction false} EventIdsApart(c: Config, d: Config, m: nat, n: nat)
    requires EventId(c, m) == EventId(d, n)
    ensures c.prefix == d.prefix && m == n
  {
    DecimalHasNoDash(m);
    DecimalHasNoDash(n);
    PadHasNoDash(Decimal(m), 3);
    PadHasNoDash(Decimal(n), 3);
    PrefixIsLongest(c.prefix, Padded(m, 3), d.prefix, Padded(n, 3));
    PrefixIsLongest(d.prefix, Padded(n, 3), c.prefix, Padded(m, 3));
    assert c.prefix == EventId(c, m)[..|c.prefix|] == EventId(d, n)[..|d.prefix|] == d.prefix;
    EventIdInjective(c, m, n);
  }

  /** Cases with prefixes of their own share no event id. */
  lemma {:induction false} CasesShareNoIds(c: CaseEvents, d: CaseEvents, a: seq<Alert>, b: seq<Alert>, i: nat, j: nat)
    requires Lowers(c, a) && Lowers(d, b) && c.config.prefix != d.config.prefix && i < |a| && j < |b|
    ensures Id(a[i]) != Id(b[j])
  {
    var m := NumberOf(c.config, c.events, a, i);
    var n := NumberOf(d.config, d.events, b, j);
    if EventId(c.config, m) == EventId(d.config, n) { EventIdsApart(c.config, d.config, m, n); }
  }

  /** The cases of a run hold the alerts of the lowered plan. */
  ghost predicate HoldsAlerts(cases: seq<Discovery.Case>, plan: seq<seq<Alert>>) {
    |cases| == |plan| && forall n :: 0 <= n < |cases| ==> cases[n].alerts == plan[n]
  }

  ghost predicate PrefixesApart(events: seq<CaseEvents>) {
    forall m, n :: 0 <= m < n < |events| ==> events[m].config.prefix != events[n].config.prefix
  }

  /** Lowering gives the runner cases whose keys are apart, which its recovery of uncertain sends relies on. */
  lemma {:induction false} PlanKeysApart(events: seq<CaseEvents>, plan: seq<seq<Alert>>, cases: seq<Discovery.Case>)
    requires |events| == |plan| && HoldsAlerts(cases, plan) && PrefixesApart(events)
    requires forall n :: 0 <= n < |events| ==> Lowers(events[n], plan[n])
    ensures Discovery.KeysApart(cases)
  {
    forall c, d, k | c in cases && d in cases && Discovery.HasKey(c, k) && Discovery.HasKey(d, k) ensures c == d {
      var m :| 0 <= m < |cases| && cases[m] == c;
      var n :| 0 <= n < |cases| && cases[n] == d;
      var i :| 0 <= i < |c.alerts| && k.eventId == Id(c.alerts[i]);
      var j :| 0 <= j < |d.alerts| && k.eventId == Id(d.alerts[j]);
      if m < n { CasesShareNoIds(events[m], events[n], plan[m], plan[n], i, j); }
      if n < m { CasesShareNoIds(events[n], events[m], plan[n], plan[m], j, i); }
    }
  }
}
