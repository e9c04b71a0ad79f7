/** Scoring a case's declared assertions against one snapshot of the evidence. */
module Assertions {
  import opened Common
  import opened History
  import Episode

  datatype Kind = SyntheticAlertCount | AuditCount | ParentLinkCount | SourceEpisodeStateCount
                  | DownstreamNoMatchCount | OtherKind

  datatype Assertion = Assertion(kind: Kind, outcome: string, equals: int)

  datatype Verdict = Pass | Fail | Inconclusive | Skipped

  datatype Scored = Scored(kind: Kind, expected: int, observed: int, verdict: Verdict)

  /** `parents` counts the synthetic parents; `audits` lists the outcome of each audit row. */
  datatype Snapshot = Snapshot(noMatchCount: int, noMatchReady: bool, episodes: seq<Episode.Evidence>,
                               episodesReady: bool,
                               parents: nat, audits: seq<string>, sourceReady: bool, auditReady: bool)

  function StatusText(status: Option<Status>): string {
    match status
    case None => ""
    case Some(Firing) => "firing"
    case Some(Resolved) => "resolved"
    case Some(Unknown(text)) => text
  }

  ghost function OutcomeCount(audits: seq<string>, outcome: string): nat {
    multiset(audits)[outcome]
  }

  ghost function Statuses(episodes: seq<Episode.Evidence>): seq<string> {
    seq(|episodes|, i requires 0 <= i < |episodes| => StatusText(episodes[i].status))
  }

  /** The evidence an assertion counts. */
  ghost function Observed(a: Assertion, s: Snapshot): int {
    match a.kind
    case SyntheticAlertCount => s.parents
    case AuditCount => OutcomeCount(s.audits, a.outcome)
    case ParentLinkCount => OutcomeCount(s.audits, a.outcome)
    case SourceEpisodeStateCount => OutcomeCount(Statuses(s.episodes), a.outcome)
    case DownstreamNoMatchCount => s.noMatchCount
    case OtherKind => 0
  }

  /** The evidence an assertion needs is not proven. */
  predicate Unproven(a: Assertion, s: Snapshot) {
    (a.kind == DownstreamNoMatchCount && !s.noMatchReady) || (a.kind == SourceEpisodeStateCount && !s.episodesReady)
  }

  /** In shadow mode no synthetic parent is emitted, so its count is skipped rather than scored. */
  ghost function VerdictOf(a: Assertion, s: Snapshot, shadow: bool): Verdict {
    if shadow && a.kind == SyntheticAlertCount then Skipped
    else if Unproven(a, s) then Inconclusive
    else if Observed(a, s) == a.equals then Pass
    else Fail
  }

  /** Only a parent count is skipped, and only in shadow mode; what is not proven is neither passed nor failed; anything
      else passes exactly when the evidence of its own kind has the expected count. */
  lemma VerdictMeans(a: Assertion, s: Snapshot, shadow: bool)
    ensures VerdictOf(a, s, shadow) == Skipped <==> shadow && a.kind == SyntheticAlertCount
    ensures VerdictOf(a, s, shadow) == Inconclusive <==>
      (a.kind == DownstreamNoMatchCount && !s.noMatchReady) || (a.kind == SourceEpisodeStateCount && !s.episodesReady)
    ensures !VerdictOf(a, s, shadow).Skipped? && !VerdictOf(a, s, shadow).Inconclusive? ==>
      (VerdictOf(a, s, shadow) == Pass <==> a.equals == match a.kind
                                            case SyntheticAlertCount => s.parents
                                            case AuditCount => multiset(s.audits)[a.outcome]
                                            case ParentLinkCount => multiset(s.audits)[a.outcome]
                                            case SourceEpisodeStateCount => multiset(Statuses(s.episodes))[a.outcome]
                                            case DownstreamNoMatchCount => s.noMatchCount
                                            case OtherKind => 0)
  {
  }

  ghost predicate Scores(a: Assertion, s: Snapshot, shadow: bool, r: Scored) {
    && r.kind == a.kind && r.expected == a.equals && r.verdict == VerdictOf(a, s, shadow)
    && (r.verdict in {Pass, Fail} ==> r.observed == Observed(a, s))
  }

  /** One score for every assertion. */
  ghost predicate Evaluates(assertions: seq<Assertion>, s: Snapshot, shadow: bool, results: seq<Scored>) {
    |results| == |assertions| && forall i :: 0 <= i < |assertions| ==> Scores(assertions[i], s, shadow, results[i])
  }

  ghost predicate Supported(assertions: seq<Assertion>) {
    forall a :: a in assertions ==> a.kind != OtherKind
  }

  method CountOutcomes(values: seq<string>, outcome: string) returns (n: nat)
    ensures n == OutcomeCount(values, outcome)
  {
    n := 0;
    for i := 0 to |values|
      invariant n == OutcomeCount(values[..i], outcome)
    {
      assert values[..i + 1] == values[..i] + [values[i]];
      if values[i] == outcome { n := n + 1; }
    }
    assert values[..|values|] == values;
  }

  method CountEpisodes(episodes: seq<Episode.Evidence>, outcome: string) returns (n: nat)
    ensures n == OutcomeCount(Statuses(episodes), outcome)
  {
    n := 0;
    for i := 0 to |episodes|
      invariant n == OutcomeCount(Statuses(episodes)[..i], outcome)
    {
      assert Statuses(episodes)[..i + 1] == Statuses(episodes)[..i] + [StatusText(episodes[i].status)];
      if StatusText(episodes[i].status) == outcome { n := n + 1; }
    }
    assert Statuses(episodes)[..|episodes|] == Statuses(episodes);
  }

  method Score(a: Assertion, s: Snapshot, shadow: bool) returns (r: Scored)
    requires a.kind != OtherKind
    ensures Scores(a, s, shadow, r)
  {
    if shadow && a.kind == SyntheticAlertCount { return Scored(a.kind, a.equals, s.parents, Skipped); }
    var observed := 0;
    match a.kind {
      case DownstreamNoMatchCount =>
        if !s.noMatchReady { return Scored(a.kind, a.equals, 0, Inconclusive); }
        observed := s.noMatchCount;
      case SourceEpisodeStateCount =>
        if !s.episodesReady { return Scored(a.kind, a.equals, 0, Inconclusive); }
        observed := CountEpisodes(s.episodes, a.outcome);
      case SyntheticAlertCount => observed := s.parents;
      case AuditCount => observed := CountOutcomes(s.audits, a.outcome);
      case ParentLinkCount => observed := CountOutcomes(s.audits, a.outcome);
    }
    r := Scored(a.kind, a.equals, observed, if observed == a.equals then Pass else Fail);
  }

  method EvaluateAssertions(assertions: seq<Assertion>, s: Snapshot, shadow: bool)
    returns (results: Option<seq<Scored>>)
    ensures results.Some? <==> Supported(assertions)
    ensures results.Some? ==> Evaluates(assertions, s, shadow, results.value)
  {
    var scored := [];
    for i := 0 to |assertions|
      invariant |scored| == i
      invariant forall j :: 0 <= j < i ==>
        assertions[j].kind != OtherKind && Scores(assertions[j], s, shadow, scored[j])
    {
      if assertions[i].kind == OtherKind { return None; }
      var r := Score(assertions[i], s, shadow);
      scored := scored + [r];
    }
    results := Some(scored);
  }

  /** Something was scored, and everything scored passed. */
  ghost predicate AllPass(results: seq<Scored>) {
    && (exists r :: r in results && r.verdict != Skipped)
    && forall r :: r in results && r.verdict != Skipped ==> r.verdict == Pass
  }

  method AssertionsPass(results: seq<Scored>) returns (pass: bool)
    ensures pass <==> AllPass(results)
  {
    if results == [] { return false; }
    var scored := 0;
    for i := 0 to |results|
      invariant forall j :: 0 <= j < i && results[j].verdict != Skipped ==> results[j].verdict == Pass
      invariant scored >= 0 && (scored > 0 <==> exists j :: 0 <= j < i && results[j].verdict != Skipped)
    {
      if results[i].verdict == Skipped { continue; }
      scored := scored + 1;
      if results[i].verdict != Pass { return false; }
    }
    pass := scored != 0;
  }

  method RequiresFullWindow(assertions: seq<Assertion>) returns (full: bool)
    ensures full <==> exists a :: a in assertions && a.equals == 0
  {
    for i := 0 to |assertions|
      invariant forall j :: 0 <= j < i ==> assertions[j].equals != 0
    {
      if assertions[i].equals == 0 { return true; }
    }
    full := false;
  }
}
