/** Lowering the events of one case to the labelled alerts that are sent. */
module Lowering {
  import opened Common
  import opened History
  import opened Injection

  /** `Validate` admits only plain label characters in a source, so it holds no NUL. */
  datatype Event = Event(role: string, source: string, status: Status, labels: Labels, delay: int)

  /** What the loop takes from the run and the case: the event id prefix, the identity and case labels, the physical
      names, the
      name of an unmatched control, the reserved labels and the time bounds. */
  datatype Config = Config(prefix: string, identity: Labels, caseLabels: Labels, names: map<string, string>,
                           control: Option<string>,
                           reserved: set<LabelName>, window: int, maxDuration: int)

  datatype Error = NoFiring | ChangedLabels | Reserved | LateEvent

  datatype Lowered = Refused(error: Error) | Lowered(alerts: seq<Alert>)

  function IdentityKey(e: Event): string { e.role + "\0" + e.source }

  predicate NoNul(s: string) { '\0' !in s }

  ghost predicate Validated(events: seq<Event>) {
    forall i :: 0 <= i < |events| ==> NoNul(events[i].source)
  }

  /** The last NUL of a key is the separator. */
  lemma {:induction false} LastNul(e: Event)
    requires NoNul(e.source)
    ensures IdentityKey(e)[|e.role|] == '\0'
    ensures forall i :: |e.role| < i < |IdentityKey(e)| ==> IdentityKey(e)[i] != '\0'
    ensures IdentityKey(e)[..|e.role|] == e.role && IdentityKey(e)[|e.role| + 1..] == e.source
  {
    forall i | |e.role| < i < |IdentityKey(e)| ensures IdentityKey(e)[i] != '\0' {
      assert IdentityKey(e)[i] == e.source[i - |e.role| - 1];
      assert e.source[i - |e.role| - 1] in e.source;
    }
  }

  /** The key separates role and source, whatever the role holds. */
  lemma {:induction false} IdentityKeyInjective(a: Event, b: Event)
    requires NoNul(a.source) && NoNul(b.source) && IdentityKey(a) == IdentityKey(b)
    ensures a.role == b.role && a.source == b.source
  {
    LastNul(a);
    LastNul(b);
    assert |a.role| == |b.role|;
  }

  function NameOf(c: Config, e: Event): string {
    if c.control.Some? then c.control.value else if e.role in c.names then c.names[e.role] else ""
  }

  function EventId(c: Config, n: nat): string { c.prefix + "-" + Padded(n, 3) }

  function FreshLabels(c: Config, e: Event, n: nat): Labels {
    (c.identity[TestAlertClass := "source"][TestAlertRole := e.role] + c.caseLabels + e.labels)[TestEventId := EventId(c, n)][TestEventIndex := Decimal(n)]
  }

  // ---------- the meaning of one alert, from the events before it ----------

  function Last<T>(s: seq<T>): T
    requires s != []
  {
    s[|s| - 1]
  }

  function Init<T>(s: seq<T>): seq<T>
    requires s != []
  {
    s[..|s| - 1]
  }

  /** The position of the latest event of a key. */
  ghost function Latest(events: seq<Event>, key: string): (i: Option<nat>)
    ensures i.Some? ==> i.value < |events| && IdentityKey(events[i.value]) == key
    ensures forall j :: (if i.Some? then i.value else -1) < j < |events| ==> IdentityKey(events[j]) != key
  {
    if events == [] then None else if IdentityKey(Last(events)) == key then Some(|events| - 1)
    else Latest(Init(events), key)
  }

  /** The position of the latest firing of a key. */
  ghost function LatestFiring(events: seq<Event>, key: string): (i: Option<nat>)
    ensures i.Some? ==> i.value < |events| && IdentityKey(events[i.value]) == key && events[i.value].status != Resolved
    ensures forall j :: (if i.Some? then i.value else -1) < j < |events| && IdentityKey(events[j]) == key ==>
      events[j].status == Resolved
  {
    if events == [] then None
    else if IdentityKey(Last(events)) == key && Last(events).status != Resolved then Some(|events| - 1)
    else LatestFiring(Init(events), key)
  }

  /** The latest event of the key is a firing. */
  ghost predicate Open(events: seq<Event>, key: string) {
    Latest(events, key).Some? && events[Latest(events, key).value].status != Resolved
  }

  /** The firing opens a new alert: it is unnamed, or the first of its source. */
  ghost predicate Fresh(before: seq<Event>, e: Event) {
    e.status != Resolved && (e.source == "" || LatestFiring(before, IdentityKey(e)).None?)
  }

  ghost function FreshCount(events: seq<Event>): nat {
    if events == [] then 0 else FreshCount(Init(events)) + if Fresh(Init(events), Last(events)) then 1 else 0
  }

  /** The event may come next: a resolution closes an open firing and changes nothing, a fresh firing overrides no
      reserved label, and the delay fits. */
  ghost predicate Admissible(c: Config, before: seq<Event>, e: Event) {
    && (e.status == Resolved ==> e.labels == map[] && Open(before, IdentityKey(e)))
    && (Fresh(before, e) ==> e.labels.Keys !! c.reserved)
    && e.delay <= c.window && e.delay <= c.maxDuration
  }

  /** Why the event may not come next: the first of the four reasons that holds. */
  ghost predicate Because(c: Config, before: seq<Event>, e: Event, error: Error) {
    match error
    case NoFiring => e.status == Resolved && !Open(before, IdentityKey(e))
    case ChangedLabels => e.status == Resolved && Open(before, IdentityKey(e)) && e.labels != map[]
    case Reserved => Fresh(before, e) && exists l :: l in e.labels && l in c.reserved
    case LateEvent =>
      && (e.status == Resolved ==> Open(before, IdentityKey(e)) && e.labels == map[])
      && (Fresh(before, e) ==> e.labels.Keys !! c.reserved) && (e.delay > c.window || e.delay > c.maxDuration)
  }

  /** The events up to `n` are well bracketed, and the next one may not follow them for this reason. */
  ghost predicate FailsAt(c: Config, events: seq<Event>, n: nat, error: Error) {
    n < |events| && Bracketed(c, events[..n]) && Because(c, events[..n], events[n], error)
  }

  ghost predicate Bracketed(c: Config, events: seq<Event>) {
    events != [] ==> Bracketed(c, Init(events)) && Admissible(c, Init(events), Last(events))
  }

  /** A resolution and a named refire carry the labels of the firing they belong to; a fresh firing gets its own. */
  ghost predicate LabelsSound(c: Config, before: seq<Event>, sent: seq<Alert>, e: Event, a: Alert)
    requires |before| == |sent|
  {
    var key := IdentityKey(e);
    && (e.status == Resolved ==> Open(before, key) && a.labels == sent[Latest(before, key).value].labels)
    && (e.status != Resolved && !Fresh(before, e) ==> a.labels == sent[LatestFiring(before, key).value].labels)
    && (Fresh(before, e) ==> a.labels == FreshLabels(c, e, FreshCount(before) + 1)[AlertName := NameOf(c, e)])
  }

  /** The episode of a named alert starts at the delay of its source's latest firing, this event included. */
  ghost predicate OffsetSound(before: seq<Event>, e: Event, a: Alert) {
    var firing := LatestFiring(before + [e], IdentityKey(e));
    a.episodeOffset == if e.source == "" then None else if firing.Some? then Some((before + [e])[firing.value].delay) else Some(0)
  }

  ghost predicate AlertSound(c: Config, before: seq<Event>, sent: seq<Alert>, e: Event, a: Alert)
    requires |before| == |sent|
  {
    && a.source == e.source && a.status == e.status && a.delay == e.delay && a.name == NameOf(c, e)
    && Label(a.labels, AlertName) == a.name
    && LabelsSound(c, before, sent, e, a) && OffsetSound(before, e, a)
  }

  ghost predicate AllSound(c: Config, events: seq<Event>, alerts: seq<Alert>) {
    && |alerts| == |events|
    && (events != [] ==> AllSound(c, Init(events), Init(alerts)) && AlertSound(c, Init(events), Init(alerts), Last(events), Last(alerts)))
  }

  // ---------- one turn of the loop ----------

  datatype State = State(active: map<string, Labels>, retained: map<string, Labels>, offsets: map<string, int>,
                         sequence: nat, alerts: seq<Alert>)

  /** What the maps hold of one key after the events. */
  ghost predicate TracksKey(events: seq<Event>, s: State, key: string)
    requires |s.alerts| == |events|
  {
    && (key in s.active <==> Open(events, key))
    && (key in s.active ==> s.active[key] == s.alerts[Latest(events, key).value].labels)
    && (key in s.retained <==> Named(events, key))
    && (key in s.offsets <==> Named(events, key))
    && (key in s.retained ==> s.retained[key] == s.alerts[LatestFiring(events, key).value].labels)
    && (key in s.offsets ==> s.offsets[key] == events[LatestFiring(events, key).value].delay)
  }

  ghost predicate Tracks(events: seq<Event>, s: State) {
    |s.alerts| == |events| && s.sequence == FreshCount(events) && forall key :: TracksKey(events, s, key)
  }

  /** The key belongs to a named source that has fired. */
  ghost predicate Named(events: seq<Event>, key: string) {
    LatestFiring(events, key).Some? && events[LatestFiring(events, key).value].source != ""
  }

  const START := State(map[], map[], map[], 0, [])

  lemma {:induction false} Appended(before: seq<Event>, e: Event, key: string)
    ensures Init(before + [e]) == before && Last(before + [e]) == e
    ensures Latest(before + [e], key) == if key == IdentityKey(e) then Some(|before|) else Latest(before, key)
    ensures LatestFiring(before + [e], key) == if key == IdentityKey(e) && e.status != Resolved then Some(|before|) else LatestFiring(before, key)
    ensures FreshCount(before + [e]) == FreshCount(before) + if Fresh(before, e) then 1 else 0
  {
    assert Init(before + [e]) == before;
  }

  /** Events of one key have one source. */
  lemma {:induction false} OneSource(before: seq<Event>, e: Event)
    requires Validated(before + [e])
    ensures Named(before, IdentityKey(e)) <==> e.source != "" && LatestFiring(before, IdentityKey(e)).Some?
  {
    var i := LatestFiring(before, IdentityKey(e));
    if i.Some? {
      var all := before + [e];
      assert all[i.value] == before[i.value] && all[|before|] == e;
      IdentityKeyInjective(before[i.value], e);
    }
  }

  /** What one event does to the maps, given its labels. */
  function Updated(s: State, e: Event, labels: Labels, opens: bool, alert: Alert): State {
    var key := IdentityKey(e);
    State(if e.status == Resolved then s.active - {key} else s.active[key := labels],
          if e.status != Resolved && e.source != "" then s.retained[key := labels] else s.retained,
          if e.status != Resolved && e.source != "" then s.offsets[key := e.delay] else s.offsets,
          s.sequence + if opens then 1 else 0,
          s.alerts + [alert])
  }

  lemma {:induction false} TracksKeyStep(before: seq<Event>, s: State, e: Event, labels: Labels, alert: Alert,
                                         key: string)
    requires |s.alerts| == |before| && TracksKey(before, s, key) && Validated(before + [e]) && alert.labels == labels
    ensures TracksKey(before + [e], Updated(s, e, labels, Fresh(before, e), alert), key)
  {
    Appended(before, e, key);
    OneSource(before, e);
  }

  lemma {:induction false} TracksStep(before: seq<Event>, s: State, e: Event, labels: Labels, alert: Alert)
    requires Tracks(before, s) && Validated(before + [e]) && alert.labels == labels
    ensures Tracks(before + [e], Updated(s, e, labels, Fresh(before, e), alert))
  {
    Appended(before, e, IdentityKey(e));
    forall key ensures TracksKey(before + [e], Updated(s, e, labels, Fresh(before, e), alert), key) {
      TracksKeyStep(before, s, e, labels, alert, key);
    }
  }

  /** The labels of the next alert. */
  method LabelEvent(c: Config, s: State, e: Event, ghost before: seq<Event>)
    returns (r: Option<Error>, labels: Labels, opens: bool)
    requires Tracks(before, s) && Validated(before + [e])
    ensures r.None? <==>
      (e.status == Resolved ==> e.labels == map[] && Open(before, IdentityKey(e))) && (Fresh(before, e) ==> e.labels.Keys !! c.reserved)
    ensures r.Some? ==> Because(c, before, e, r.value)
    ensures r.None? ==> (opens <==> Fresh(before, e))
    ensures r.None? && e.status == Resolved ==> labels == s.alerts[Latest(before, IdentityKey(e)).value].labels
    ensures r.None? && e.status != Resolved && !Fresh(before, e) ==>
      labels == s.alerts[LatestFiring(before, IdentityKey(e)).value].labels
    ensures r.None? && Fresh(before, e) ==> labels == FreshLabels(c, e, s.sequence + 1)
  {
    var key := IdentityKey(e);
    OneSource(before, e);
    assert TracksKey(before, s, key);
    r, labels, opens := None, map[], false;
    if e.status == Resolved {
      if key !in s.active { return Some(NoFiring), map[], false; }
      if e.labels != map[] { return Some(ChangedLabels), map[], false; }
      labels := s.active[key];
    } else if e.source != "" && key in s.retained {
      labels := s.retained[key];
    } else {
      if exists l :: l in e.labels && l in c.reserved { return Some(Reserved), map[], true; }
      labels, opens := FreshLabels(c, e, s.sequence + 1), true;
    }
  }

  /** The alert bears the physical name of its event already, unless it is fresh. */
  ghost predicate NamedAs(c: Config, events: seq<Event>, alerts: seq<Alert>)
    requires |events| == |alerts|
  {
    forall i :: 0 <= i < |events| ==>
      AlertName in alerts[i].labels && alerts[i].labels[AlertName] == NameOf(c, events[i])
  }

  lemma {:induction false} SameName(c: Config, before: seq<Event>, alerts: seq<Alert>, e: Event, i: nat)
    requires |alerts| == |before| && NamedAs(c, before, alerts) && Validated(before + [e]) && i < |before|
    requires IdentityKey(before[i]) == IdentityKey(e)
    ensures alerts[i].labels[AlertName := NameOf(c, e)] == alerts[i].labels
  {
    var all := before + [e];
    assert all[i] == before[i] && all[|before|] == e;
    IdentityKeyInjective(before[i], e);
  }

  lemma {:induction false} OffsetStep(before: seq<Event>, e: Event, s': State, alert: Alert)
    requires Tracks(before + [e], s') && Validated(before + [e])
    requires alert.episodeOffset == if e.source == "" then None else if IdentityKey(e) in s'.offsets then Some(s'.offsets[IdentityKey(e)]) else Some(0)
    ensures OffsetSound(before, e, alert)
  {
    assert TracksKey(before + [e], s', IdentityKey(e));
    Appended(before, e, IdentityKey(e));
    OneSource(before, e);
  }

  /** Renaming changes only fresh labels; the others already bear the name. */
  lemma {:induction false} LabelsStep(c: Config, before: seq<Event>, s: State, e: Event, given: Labels, alert: Alert)
    requires Tracks(before, s) && Validated(before + [e]) && NamedAs(c, before, s.alerts)
    requires e.status == Resolved ==>
      Open(before, IdentityKey(e)) && given == s.alerts[Latest(before, IdentityKey(e)).value].labels
    requires e.status != Resolved && !Fresh(before, e) ==>
      given == s.alerts[LatestFiring(before, IdentityKey(e)).value].labels
    requires Fresh(before, e) ==> given == FreshLabels(c, e, s.sequence + 1)
    requires alert.labels == given[AlertName := NameOf(c, e)]
    ensures LabelsSound(c, before, s.alerts, e, alert)
    ensures NamedAs(c, before + [e], s.alerts + [alert])
  {
    var key := IdentityKey(e);
    if e.status == Resolved {
      SameName(c, before, s.alerts, e, Latest(before, key).value);
    } else if !Fresh(before, e) {
      SameName(c, before, s.alerts, e, LatestFiring(before, key).value);
    }
  }

  /** The accepted event is tracked and its alert is sound. */
  ghost predicate Extends(c: Config, before: seq<Event>, s: State, e: Event, s': State)
    requires |s.alerts| == |before|
  {
    && Tracks(before + [e], s') && s'.alerts != [] && Init(s'.alerts) == s.alerts
    && AlertSound(c, before, s.alerts, e, Last(s'.alerts)) && NamedAs(c, before + [e], s'.alerts)
  }

  lemma {:induction false} ExtendsStep(c: Config, before: seq<Event>, s: State, e: Event, given: Labels, alert: Alert,
                                       s': State)
    requires Tracks(before, s) && Validated(before + [e]) && NamedAs(c, before, s.alerts)
    requires e.status == Resolved ==>
      Open(before, IdentityKey(e)) && given == s.alerts[Latest(before, IdentityKey(e)).value].labels
    requires e.status != Resolved && !Fresh(before, e) ==>
      given == s.alerts[LatestFiring(before, IdentityKey(e)).value].labels
    requires Fresh(before, e) ==> given == FreshLabels(c, e, s.sequence + 1)
    requires s' == Updated(s, e, alert.labels, Fresh(before, e), alert)
    requires alert.source == e.source && alert.status == e.status && alert.delay == e.delay
    requires alert.name == NameOf(c, e)
    requires alert.labels == given[AlertName := NameOf(c, e)]
    requires alert.episodeOffset == if e.source == "" then None else if IdentityKey(e) in s'.offsets then Some(s'.offsets[IdentityKey(e)]) else Some(0)
    ensures Extends(c, before, s, e, s')
  {
    TracksStep(before, s, e, alert.labels, alert);
    OffsetStep(before, e, s', alert);
    LabelsStep(c, before, s, e, given, alert);
    assert Init(s'.alerts) == s.alerts;
  }

  method LowerEvent(c: Config, s: State, e: Event, ghost before: seq<Event>) returns (r: Option<Error>, s': State)
    requires Tracks(before, s) && Validated(before + [e]) && NamedAs(c, before, s.alerts)
    ensures r.None? <==> Admissible(c, before, e)
    ensures r.Some? ==> Because(c, before, e, r.value)
    ensures r.None? ==> Extends(c, before, s, e, s')
  {
    var key := IdentityKey(e);
    var given, opens;
    r, given, opens := LabelEvent(c, s, e, before);
    if r.Some? { return r, s; }
    var name := NameOf(c, e);
    var labels := given[AlertName := name];
    var active, retained, offsets := s.active, s.retained, s.offsets;
    if e.status == Resolved {
      active := active - {key};
    } else {
      active := active[key := labels];
      if e.source != "" { retained, offsets := retained[key := labels], offsets[key := e.delay]; }
    }
    var offset := if e.source == "" then None else if key in offsets then Some(offsets[key]) else Some(0);
    var alert := Alert(e.source, name, e.status, labels, e.delay, offset, 0, 0);
    s' := State(active, retained, offsets, s.sequence + (if opens then 1 else 0), s.alerts + [alert]);
    if e.delay > c.window || e.delay > c.maxDuration { return Some(LateEvent), s'; }
    ExtendsStep(c, before, s, e, given, alert, s');
  }

  /** What the loop has reached after the events of `before`. */
  ghost predicate Reached(c: Config, before: seq<Event>, s: State) {
    Bracketed(c, before) && Tracks(before, s) && NamedAs(c, before, s.alerts) && AllSound(c, before, s.alerts)
  }

  lemma {:induction false} ReachedStep(c: Config, before: seq<Event>, s: State, e: Event, s': State)
    requires Reached(c, before, s) && Admissible(c, before, e) && Extends(c, before, s, e, s')
    ensures Reached(c, before + [e], s')
  {
    assert Init(before + [e]) == before && Last(before + [e]) == e;
  }

  /** The alerts of a case, or the first error. */
  method LowerEvents(c: Config, events: seq<Event>) returns (r: Lowered)
    requires Validated(events)
    ensures r.Lowered? <==> Bracketed(c, events)
    ensures r.Refused? ==> exists n: nat :: FailsAt(c, events, n, r.error)
    ensures r.Lowered? ==> AllSound(c, events, r.alerts)
  {
    var s := START;
    var n := 0;
    while n < |events|
      invariant 0 <= n <= |events|
      invariant Reached(c, events[..n], s)
    {
      ghost var before := events[..n];
      assert events[..n + 1] == before + [events[n]];
      var error, s' := LowerEvent(c, s, events[n], before);
      if error.Some? {
        NotBracketed(c, events, n);
        assert FailsAt(c, events, n, error.value);
        return Refused(error.value);
      }
      ReachedStep(c, before, s, events[n], s');
      s := s';
      n := n + 1;
    }
    assert events[..|events|] == events;
    r := Lowered(s.alerts);
  }

  lemma {:induction false} NotBracketed(c: Config, events: seq<Event>, n: nat)
    requires n < |events| && !Admissible(c, events[..n], events[n])
    ensures !Bracketed(c, events)
  {
    if n < |events| - 1 {
      assert Init(events)[..n] == events[..n];
      NotBracketed(c, Init(events), n);
    }
  }
}
