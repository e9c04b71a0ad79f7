/** What an early PASS rests on: exactly when its re-read is complete evidence. */
module EarlyPass {
  import opened Common
  import opened History
  import opened Assertions
  import opened Observation

  predicate OnlySourceEpisodes(assertions: seq<Assertion>) {
    assertions != [] && forall a :: a in assertions ==> a.kind == SourceEpisodeStateCount
  }

  predicate UsesSourceEpisodes(assertions: seq<Assertion>) {
    exists a :: a in assertions && (a.kind == SourceEpisodeStateCount || a.kind == DownstreamNoMatchCount)
  }

  /** How the readiness flags of a snapshot are tied when the case has no unmatched control. */
  ghost predicate WellRead(assertions: seq<Assertion>, s: Snapshot) {
    && (s.episodesReady ==> s.sourceReady && UsesSourceEpisodes(assertions) && Visible(s.episodes))
    && !s.noMatchReady && s.noMatchCount == 0 && (s.auditReady ==> s.sourceReady)
    && (OnlySourceEpisodes(assertions) ==> s.auditReady == s.sourceReady)
  }

  /** A ready source shows one of the two statuses History has for a current episode. */
  ghost predicate Visible(episodes: seq<Episode.Evidence>) {
    forall e :: e in episodes ==> e.status == Some(Firing) || e.status == Some(Resolved)
  }

  ghost predicate TurnWellRead(w: Watch, t: Turn) {
    && (t.snapshot.Some? ==> WellRead(w.assertions, t.snapshot.value))
    && (t.stable.Some? ==> WellRead(w.assertions, t.stable.value))
  }

  /** Every early PASS shows complete source History and audits; unsupported assertions have none. */
  ghost predicate EarlyPassesProven(w: Watch) {
    forall t :: TurnWellRead(w, t) && Supported(w.assertions) && Settles(w, t) ==> Proven(t.stable.value)
  }

  // ---------- which assertion lists can be satisfied ----------

  predicate Scored(w: Watch, a: Assertion) {
    !(w.shadow && a.kind == SyntheticAlertCount)
  }

  predicate OfAudits(a: Assertion) { a.kind == AuditCount || a.kind == ParentLinkCount }

  /** The two assertions count the same evidence. */
  predicate SameCount(a: Assertion, b: Assertion) {
    || (a.kind == SyntheticAlertCount && b.kind == SyntheticAlertCount)
    || (OfAudits(a) && OfAudits(b) && a.outcome == b.outcome)
    || (a.kind == SourceEpisodeStateCount && b.kind == SourceEpisodeStateCount && a.outcome == b.outcome)
  }

  /** The assertion asks for a count that some evidence has. */
  predicate Countable(a: Assertion) {
    && a.equals >= 0 && (a.kind == SyntheticAlertCount || OfAudits(a) || a.kind == SourceEpisodeStateCount)
    && (a.kind == SourceEpisodeStateCount && a.equals > 0 ==> a.outcome == "firing" || a.outcome == "resolved")
  }

  /** Something is scored, every scored count is possible, and no two ask for different counts of the same evidence. */
  ghost predicate Satisfiable(w: Watch) {
    && (exists a :: a in w.assertions && Scored(w, a))
    && (forall a :: a in w.assertions && Scored(w, a) ==> Countable(a))
    && forall a, b :: a in w.assertions && b in w.assertions && Scored(w, a) && SameCount(a, b) ==> a.equals == b.equals
  }

  function Repeat<T>(x: T, n: nat): (r: seq<T>)
    ensures |r| == n && forall i :: 0 <= i < n ==> r[i] == x
  {
    seq(n, _ => x)
  }

  lemma {:induction false} RepeatCount(x: string, n: nat, y: string)
    ensures multiset(Repeat(x, n))[y] == if x == y then n else 0
  {
    if n > 0 {
      RepeatCount(x, n - 1, y);
      assert Repeat(x, n) == Repeat(x, n - 1) + [x];
    }
  }

  /** The assertion counts outcomes of audit rows, or statuses of source episodes. */
  predicate Counts(a: Assertion, episodes: bool) {
    if episodes then a.kind == SourceEpisodeStateCount else OfAudits(a)
  }

  /** Audit outcomes, or episode statuses, with the counts that the list asks for. */
  ghost function TextsFor(assertions: seq<Assertion>, episodes: bool): seq<string> {
    if assertions == [] then []
    else
      var a, rest := assertions[|assertions| - 1], TextsFor(assertions[..|assertions| - 1], episodes);
      if Counts(a, episodes) && a.equals > 0 && a.outcome !in rest then rest + Repeat(a.outcome, a.equals) else rest
  }

  /** Only what the list asks for occurs. */
  lemma {:induction false} TextsAskedFor(assertions: seq<Assertion>, episodes: bool, outcome: string)
    requires outcome in TextsFor(assertions, episodes)
    ensures exists a :: a in assertions && Counts(a, episodes) && a.outcome == outcome && a.equals > 0
    decreases |assertions|
  {
    var init := assertions[..|assertions| - 1];
    assert assertions == init + [assertions[|assertions| - 1]];
    if outcome in TextsFor(init, episodes) { TextsAskedFor(init, episodes, outcome); }
  }

  lemma {:induction false} TextsCounted(assertions: seq<Assertion>, episodes: bool, a: Assertion)
    requires forall b, c :: b in assertions && c in assertions && Counts(b, episodes) && SameCount(b, c) ==>
      b.equals == c.equals
    requires a in assertions && Counts(a, episodes) && a.equals >= 0
    ensures OutcomeCount(TextsFor(assertions, episodes), a.outcome) == a.equals
    decreases |assertions|
  {
    var init, last := assertions[..|assertions| - 1], assertions[|assertions| - 1];
    var rest := TextsFor(init, episodes);
    assert assertions == init + [last];
    assert a.outcome in rest <==> OutcomeCount(rest, a.outcome) != 0;
    if last.equals > 0 { RepeatCount(last.outcome, last.equals, a.outcome); }
    if a in init {
      TextsCounted(init, episodes, a);
    } else if a.outcome in rest {
      TextsAskedFor(init, episodes, a.outcome);
      var b :| b in init && Counts(b, episodes) && b.outcome == a.outcome && b.equals > 0;
      assert SameCount(a, b);
      TextsCounted(init, episodes, b);
    }
  }

  function StatusOf(text: string): Status { if text == "firing" then Firing else Resolved }

  ghost function EpisodesOf(texts: seq<string>): seq<Episode.Evidence> {
    seq(|texts|, i requires 0 <= i < |texts| => Episode.Evidence("", "", 1, [], true, Some(StatusOf(texts[i]))))
  }

  lemma EpisodeTexts(texts: seq<string>)
    requires forall text :: text in texts ==> text == "firing" || text == "resolved"
    ensures Statuses(EpisodesOf(texts)) == texts && Visible(EpisodesOf(texts))
  {
    forall i | 0 <= i < |texts| ensures Statuses(EpisodesOf(texts))[i] == texts[i] {
      assert texts[i] in texts;
    }
  }

  ghost function ParentsFor(assertions: seq<Assertion>): nat {
    if exists a :: a in assertions && a.kind == SyntheticAlertCount && a.equals >= 0 then
      var a :| a in assertions && a.kind == SyntheticAlertCount && a.equals >= 0;
      a.equals
    else 0
  }

  /** A complete, well-read snapshot that satisfies the list. */
  ghost function WitnessFor(w: Watch): Snapshot {
    Snapshot(0, false, EpisodesOf(TextsFor(w.assertions, true)), UsesSourceEpisodes(w.assertions), ParentsFor(w.assertions),
             TextsFor(w.assertions, false), true, true)
  }

  lemma SatisfiedByWitness(w: Watch)
    requires Satisfiable(w)
    ensures WellRead(w.assertions, WitnessFor(w)) && Satisfied(w.assertions, WitnessFor(w), w.shadow)
  {
    var s, statuses := WitnessFor(w), TextsFor(w.assertions, true);
    forall text | text in statuses ensures text == "firing" || text == "resolved" {
      TextsAskedFor(w.assertions, true, text);
    }
    EpisodeTexts(statuses);
    forall a | a in w.assertions && Scored(w, a) ensures VerdictOf(a, s, w.shadow) == Pass {
      if Counts(a, true) { TextsCounted(w.assertions, true, a); }
      if Counts(a, false) { TextsCounted(w.assertions, false, a); }
    }
  }

  /** The lists that some well-read snapshot satisfies are the satisfiable ones. */
  lemma SatisfiableIff(w: Watch)
    ensures Satisfiable(w) <==>
      Supported(w.assertions) && exists s :: WellRead(w.assertions, s) && Satisfied(w.assertions, s, w.shadow)
  {
    if Satisfiable(w) {
      SatisfiedByWitness(w);
    } else if Supported(w.assertions) && exists s :: WellRead(w.assertions, s) && Satisfied(w.assertions, s, w.shadow) {
      var s :| WellRead(w.assertions, s) && Satisfied(w.assertions, s, w.shadow);
      SatisfiedCounts(w, s);
    }
  }

  /** Statuses of a ready snapshot that occur are the two of a current episode. */
  lemma StatusCounted(episodes: seq<Episode.Evidence>, outcome: string)
    requires Visible(episodes) && OutcomeCount(Statuses(episodes), outcome) > 0
    ensures outcome == "firing" || outcome == "resolved"
  {
    var i :| 0 <= i < |Statuses(episodes)| && Statuses(episodes)[i] == outcome;
    assert episodes[i] in episodes;
  }

  /** An assertion that passes has the count it asks for. */
  lemma PassCounts(w: Watch, s: Snapshot, a: Assertion)
    requires WellRead(w.assertions, s) && a.kind != OtherKind && Scored(w, a) && VerdictOf(a, s, w.shadow) == Pass
    ensures Countable(a) && Assertions.Observed(a, s) == a.equals
  {
    if a.kind == SourceEpisodeStateCount && a.equals > 0 { StatusCounted(s.episodes, a.outcome); }
  }

  lemma SameObserved(a: Assertion, b: Assertion, s: Snapshot)
    requires SameCount(a, b)
    ensures Assertions.Observed(a, s) == Assertions.Observed(b, s)
  {
  }

  lemma SatisfiedCounts(w: Watch, s: Snapshot)
    requires Supported(w.assertions) && WellRead(w.assertions, s) && Satisfied(w.assertions, s, w.shadow)
    ensures Satisfiable(w)
  {
    forall a | a in w.assertions && Scored(w, a) ensures Countable(a) {
      PassCounts(w, s, a);
    }
    forall a, b | a in w.assertions && b in w.assertions && Scored(w, a) && SameCount(a, b)
      ensures a.equals == b.equals
    {
      PassCounts(w, s, a);
      PassCounts(w, s, b);
      SameObserved(a, b, s);
    }
  }

  // ---------- when an early PASS is proven ----------

  /** The early PASS does not ask the re-read for complete evidence. It has it in every case exactly when only source
      episodes
      are asserted, whose readiness already includes it, or when no early PASS can happen at all. */
  lemma EarlyPassProvenIff(w: Watch)
    ensures EarlyPassesProven(w) <==> w.full || OnlySourceEpisodes(w.assertions) || !Satisfiable(w)
  {
    if !w.full && !OnlySourceEpisodes(w.assertions) && Satisfiable(w) {
      SatisfiedByWitness(w);
      var s := WitnessFor(w);
      var t := Turn(Some(s), 0, true, Some(s.(auditReady := false)), true);
      SameVerdicts(w, s);
      assert TurnWellRead(w, t) && Settles(w, t) && !Proven(t.stable.value);
    } else {
      forall t | TurnWellRead(w, t) && Supported(w.assertions) && Settles(w, t) ensures Proven(t.stable.value) {
        SatisfiedCounts(w, t.stable.value);
        var a :| a in w.assertions && VerdictOf(a, t.stable.value, w.shadow) != Skipped;
      }
    }
  }

  /** No verdict looks at the audits' readiness. */
  lemma SameVerdicts(w: Watch, s: Snapshot)
    requires Satisfied(w.assertions, s, w.shadow)
    ensures Satisfied(w.assertions, s.(auditReady := false), w.shadow)
  {
    forall a ensures VerdictOf(a, s.(auditReady := false), w.shadow) == VerdictOf(a, s, w.shadow) { }
  }

  /** A case with one synthetic alert: its audits were complete before the stabilization sleep and are not after it. */
  lemma EarlyPassMayBeUnproven() returns (w: Watch, t: Turn)
    ensures TurnWellRead(w, t) && Supported(w.assertions) && Settles(w, t) && !Proven(t.stable.value)
  {
    var one := Assertion(SyntheticAlertCount, "", 1);
    var s := Snapshot(0, false, [], false, 1, [], true, true);
    w := Watch([one], false, false, false, 1, 1);
    t := Turn(Some(s), 0, true, Some(s.(auditReady := false)), true);
    assert one in w.assertions;
  }
}
