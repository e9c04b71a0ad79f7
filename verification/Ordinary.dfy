/** The ordinary receiver route: a ledger of sources that answers for every firing it may have sent. */
module Ordinary {
  import opened Common
  import opened History
  import opened Injection

  const PROFILE_HASH := "a823e17c4f3e3d33ffdebae28165b5835ab3255f37be8f0c6c745d8dabc92284"

  datatype Source = Source(alert: Alert, forwarded: bool, cleanupAttempted: bool, cleanupForwarded: bool)

  /** A request that left for the receiver. */
  datatype Post = Post(key: string, clear: bool, alert: Alert)

  function OrdinaryKey(labels: Labels): string {
    Label(labels, TestRunId) + "\0" + Label(labels, AlertName) + "\0" + Label(labels, TestEventId)
  }

  /** `body` is the status field of a decodable response body. */
  datatype Response = TransportError | Answer(status: int, body: Option<string>, revision: string)

  /** One exchange: whether the request encodes within its bound, cancellation before and after recording, the
      recorder's
      answer (None when the caller gave no recorder), and the response. */
  datatype Exchange = Exchange(encodable: bool, cancelled: bool, record: Option<bool>, cancelledAfter: bool,
                               response: Response)

  predicate Buildable(a: Alert) {
    && a.name != "" && Label(a.labels, AlertName) == a.name && Label(a.labels, TestRunId) != "" && a.startsAt != 0
    && a.endsAt > a.startsAt
  }

  function Classify(r: Response): Result {
    match r
    case TransportError => FAILED
    case Answer(status, body, revision) =>
      if status == 200 && body == Some("ok") && revision == PROFILE_HASH then Result(Some(Forwarded), false)
      else if status == 200 && body == Some("acl_denied") then Result(Some(Rejected), false)
      else Result(Some(Indeterminate), false)
  }

  /** Forwarded by exactly 200, ok and the pinned profile; rejected by exactly 200 and the refusal; an error without a
      response; else indeterminate. */
  ghost predicate Answers(response: Response, r: Result) {
    && (r == Result(Some(Forwarded), false) <==> response == Answer(200, Some("ok"), PROFILE_HASH))
    && (r == Result(Some(Rejected), false) <==>
          response.Answer? && response.status == 200 && response.body == Some("acl_denied"))
    && (r.error <==> response.TransportError?)
    && (!r.error ==> r.class_ in {Some(Forwarded), Some(Rejected), Some(Indeterminate)})
  }

  /** The request is recorded. */
  predicate Records(a: Alert, x: Exchange) {
    Buildable(a) && x.encodable && !x.cancelled && x.record == Some(true)
  }

  predicate Confirms(a: Alert, x: Exchange) {
    Records(a, x) && !x.cancelledAfter && Classify(x.response) == Result(Some(Forwarded), false)
  }

  /** The ledger of sources, and the requests that left for the receiver. */
  datatype Ledger = Ledger(sources: map<string, Source>, posts: seq<Post>)

  // ---------- what one call does ----------

  /** The firing that is sent: the validity window is added to the alert. */
  function FiredAlert(alert: Alert, validity: int): Alert { alert.(endsAt := alert.startsAt + validity) }

  predicate Admitted(sources: map<string, Source>, alert: Alert, validity: int, now: int, x: Exchange) {
    && x.record.Some? && alert.status == Firing && alert.startsAt != 0 && alert.endsAt == 0
    && OrdinaryKey(alert.labels) !in sources && FiredAlert(alert, validity).endsAt > now
  }

  ghost function Injected(l: Ledger, alert: Alert, validity: int, now: int, x: Exchange): Ledger {
    var key, fired := OrdinaryKey(alert.labels), FiredAlert(alert, validity);
    if !Admitted(l.sources, alert, validity, now, x) || !Records(fired, x) then l
    else Ledger(l.sources[key := Source(fired, Confirms(fired, x), false, false)],
                if x.cancelledAfter then l.posts else l.posts + [Post(key, false, fired)])
  }

  /** The row reads back the exact original episode of a forwarded source whose clear was never attempted. */
  predicate Clearable(sources: map<string, Source>, row: HistoryRow, now: int) {
    var key := OrdinaryKey(row.labels);
    && key in sources && sources[key].forwarded && !sources[key].cleanupAttempted
    && row.fingerprint != "" && row.startsAt == sources[key].alert.startsAt && row.alertName == sources[key].alert.name
    && (forall l :: l in sources[key].alert.labels ==> row.MatchesInputLabel(l, sources[key].alert.labels[l]))
    && now > sources[key].alert.startsAt
  }

  /** The row shows this alert's own episode: its start, its name and every label it was sent with. */
  ghost predicate ShowsEpisode(row: HistoryRow, alert: Alert) {
    && row.fingerprint != "" && row.startsAt == alert.startsAt && row.alertName == alert.name
    && forall l :: l in alert.labels ==> row.MatchesInputLabel(l, alert.labels[l])
  }

  /** The alert names itself and its run, ends after it starts, and its request leaves the process after it is recorded. */
  ghost predicate Leaves(alert: Alert, x: Exchange) {
    && alert.name != "" && Label(alert.labels, AlertName) == alert.name && Label(alert.labels, TestRunId) != ""
    && 0 != alert.startsAt < alert.endsAt
    && x.encodable && !x.cancelled && x.record == Some(true) && !x.cancelledAfter
  }

  function ClearAlert(alert: Alert, now: int): Alert { alert.(status := Resolved, endsAt := now) }

  ghost function Cleared(l: Ledger, row: HistoryRow, now: int, x: Exchange): Ledger {
    var key := OrdinaryKey(row.labels);
    if !Clearable(l.sources, row, now) then l
    else
      var source := l.sources[key];
      var clear := ClearAlert(source.alert, now);
      Ledger(l.sources[key := source.(cleanupAttempted := Records(clear, x), cleanupForwarded := Confirms(clear, x))],
             if Records(clear, x) && !x.cancelledAfter then l.posts + [Post(key, true, clear)] else l.posts)
  }

  class OrdinaryInput {
    const validity: int
    var sources: map<string, Source>
    ghost var posts: seq<Post>

    constructor (validity: int)
      ensures State() == Ledger(map[], []) && this.validity == validity
    {
      this.validity := validity;
      sources, posts := map[], [];
    }

    ghost function State(): Ledger
      reads this
    {
      Ledger(sources, posts)
    }

    method InjectOrdinary(alert: Alert, now: int, x: Exchange) returns (r: Result)
      modifies this
      ensures State() == Injected(old(State()), alert, validity, now, x)
      ensures r == Result(Some(Forwarded), false) <==>
        Admitted(old(sources), alert, validity, now, x) && Confirms(FiredAlert(alert, validity), x)
      ensures posts == old(posts) + [Post(OrdinaryKey(alert.labels), false, alert.(endsAt := alert.startsAt + validity))] <==>
        && alert.status == Firing && alert.endsAt == 0 && OrdinaryKey(alert.labels) !in old(sources)
        && alert.startsAt + validity > now && Leaves(alert.(endsAt := alert.startsAt + validity), x)
      ensures |posts| > |old(posts)| ==> Answers(x.response, r)
      ensures r == Result(Some(Forwarded), false) ==> |posts| > |old(posts)|
    {
      if x.record.None? || alert.status != Firing || alert.startsAt == 0 || alert.endsAt != 0 { return FAILED; }
      var key := OrdinaryKey(alert.labels);
      if key in sources { return FAILED; }
      var fired := alert.(endsAt := alert.startsAt + validity);
      if fired.endsAt <= now { return FAILED; }
      if !Buildable(fired) || !x.encodable || x.cancelled || x.record != Some(true) { return FAILED; }
      sources := sources[key := Source(fired, false, false, false)];
      if x.cancelledAfter { return FAILED; }
      posts := posts + [Post(key, false, fired)];
      r := Classify(x.response);
      sources := sources[key := sources[key].(forwarded := !r.error && r.class_ == Some(Forwarded))];
    }

    /** Clears a source after an exact read-back of its original episode. `delegated`: the row belongs to a synthetic
        alert of
        the other route. */
    method ResolveHistoryRecorded(row: HistoryRow, now: int, x: Exchange) returns (r: Result, delegated: bool)
      modifies this
      ensures State() == Cleared(old(State()), row, now, x)
      ensures delegated <==>
        OrdinaryKey(row.labels) !in old(sources) && Label(row.labels, TestAlertClass) == "synthetic"
      ensures r == Result(Some(Forwarded), false) <==>
        Clearable(old(sources), row, now) && Confirms(ClearAlert(old(sources)[OrdinaryKey(row.labels)].alert, now), x)
      ensures |posts| > |old(posts)| <==>
        && OrdinaryKey(row.labels) in old(sources) && old(sources)[OrdinaryKey(row.labels)].forwarded
        && !old(sources)[OrdinaryKey(row.labels)].cleanupAttempted
        && ShowsEpisode(row, old(sources)[OrdinaryKey(row.labels)].alert)
        && Leaves(old(sources)[OrdinaryKey(row.labels)].alert.(status := Resolved, endsAt := now), x)
      ensures |posts| > |old(posts)| ==>
        && posts == old(posts) + [Post(OrdinaryKey(row.labels), true,
                                       old(sources)[OrdinaryKey(row.labels)].alert.(status := Resolved, endsAt := now))]
        && Answers(x.response, r)
      ensures r == Result(Some(Forwarded), false) ==> |posts| > |old(posts)|
    {
      r, delegated := FAILED, false;
      var key := OrdinaryKey(row.labels);
      if key !in sources && Label(row.labels, TestAlertClass) == "synthetic" { return FAILED, true; }
      if key !in sources || !sources[key].forwarded || sources[key].cleanupAttempted || row.fingerprint == ""
         || row.startsAt != sources[key].alert.startsAt || row.alertName != sources[key].alert.name { return; }
      var source := sources[key];
      if !(forall l :: l in source.alert.labels ==> row.MatchesInputLabel(l, source.alert.labels[l])) { return; }
      var clear := ClearAlert(source.alert, now);
      if clear.endsAt <= clear.startsAt { return; }
      if Buildable(clear) && x.encodable && !x.cancelled && x.record == Some(true) {
        source := source.(cleanupAttempted := true);
        if !x.cancelledAfter {
          posts := posts + [Post(key, true, clear)];
          r := Classify(x.response);
        }
      }
      sources := sources[key := source.(cleanupForwarded := !r.error && r.class_ == Some(Forwarded))];
    }

    method UnresolvedInputCleanup() returns (r: bool)
      ensures r <==> exists k :: k in sources && !sources[k].cleanupForwarded
    {
      var keys := sources.Keys;
      while keys != {}
        invariant keys <= sources.Keys
        invariant forall k :: k in sources && k !in keys ==> sources[k].cleanupForwarded
        decreases keys
      {
        var k :| k in keys;
        if !sources[k].cleanupForwarded { return true; }
        keys := keys - {k};
      }
      return false;
    }

    /** The end of every run on this route: unresolved responsibility overrides any better cleanup status. */
    method Complete(cleanup: Cleanup) returns (final: Cleanup)
      ensures final == if exists k :: k in sources && !sources[k].cleanupForwarded then Dirty else cleanup
    {
      var pending := UnresolvedInputCleanup();
      return if pending then Dirty else cleanup;
    }
  }
}
