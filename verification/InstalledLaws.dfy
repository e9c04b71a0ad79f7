/** What an accepted report means, and which reports of the runner are accepted. */
module InstalledLaws {
  import opened Common
  import opened Manifest
  import opened Oracle
  import opened OracleExact
  import opened InstalledRun
  import opened InstalledClaims

  // ---------- soundness of the verifier ----------

  /** An accepted PASS: no poll was ever adverse, the last was Eligible, and both clocks cover window and lag. */
  lemma AcceptedPass(r: Report, a: Archive)
    requires Accepted(r, a) && r.verdict == Pass
    ensures !r.failed && r.polls != [] && a.lastForward.Some?
    ensures forall n :: 0 <= n < |r.polls| ==> !Adverse(r.polls[n].evaluation)
    ensures r.polls[|r.polls| - 1].evaluation.disposition == Eligible
    ensures r.polls[|r.polls| - 1].endedAt >= a.lastForward.value + REQUIRED
    ensures r.polls[|r.polls| - 1].elapsed >= REQUIRED
  {
    assert Carries(r, Evaluations(r.polls));
    assert r.adverse.None?;
    forall n | 0 <= n < |r.polls| ensures !Adverse(r.polls[n].evaluation) { assert !Adverse(Evaluations(r.polls)[n]); }
  }

  /** An accepted FAIL: some poll was a Violation, whatever came later. */
  lemma AcceptedFail(r: Report, a: Archive) returns (n: nat)
    requires Accepted(r, a) && r.verdict == Fail
    ensures !r.failed && n < |r.polls| && r.polls[n].evaluation.disposition == Violation
  {
    assert Carries(r, Evaluations(r.polls));
    var final := r.polls[|r.polls| - 1].evaluation;
    assert Evaluations(r.polls)[|r.polls| - 1] == final;
    assert r.adverse.Some?;
    var k :| 0 <= k < |r.polls| && Evaluations(r.polls)[k] == r.adverse.value;
    n := k;
  }

  /** The verdict of an accepted report that did not fail: FAIL exactly when some poll was a Violation, whatever came later;
      PASS exactly when no poll was adverse and the last was Eligible; INCONCLUSIVE otherwise. */
  lemma AcceptedVerdict(r: Report, a: Archive)
    requires Accepted(r, a) && !r.failed
    ensures r.polls != []
    ensures r.verdict == Fail <==> exists n :: 0 <= n < |r.polls| && r.polls[n].evaluation.disposition == Violation
    ensures r.verdict == Pass <==>
      && (forall n :: 0 <= n < |r.polls| ==> !Adverse(r.polls[n].evaluation))
      && r.polls[|r.polls| - 1].evaluation.disposition == Eligible
  {
    var findings := Evaluations(r.polls);
    assert forall n :: 0 <= n < |r.polls| ==> findings[n] == r.polls[n].evaluation;
    if n :| 0 <= n < |r.polls| && r.polls[n].evaluation.disposition == Violation {
      assert findings[n].disposition == Violation;
    }
  }

  /** The polls of an accepted report never overlap nor run backwards, and lie between the last forward and the run's end. */
  lemma {:induction false} AcceptedPollsOrdered(r: Report, a: Archive, i: nat, j: nat)
    requires Accepted(r, a) && i <= j < |r.polls|
    ensures a.lastForward.Some? && r.polls[i].index == i
    ensures i < |a.retained| && a.retained[i] == Some(r.polls[i].evaluation)
    ensures a.lastForward.value <= r.polls[i].startedAt <= r.polls[i].endedAt <= r.endedAt
    ensures i < j && a.lastForward.value > 0 ==> r.polls[i].endedAt <= r.polls[j].startedAt
    ensures 0 <= r.polls[i].elapsed <= r.polls[j].elapsed
    decreases j
  {
    assert PollTimed(r, a.lastForward.value, i) && PollReplayed(r, a, i);
    assert PollTimed(r, a.lastForward.value, j);
    if i < j - 1 { AcceptedPollsOrdered(r, a, i, j - 1); }
    if i < j { assert PollTimed(r, a.lastForward.value, j - 1); }
  }

  /** A completed run waited 90 seconds after its last forward on both clocks, in its last round and not before, and made
      every poll within 180 seconds of its start. */
  lemma CompletedRunWaits(p: Plan, rounds: seq<Round>, k: nat)
    requires CompletedAfter(p, rounds, k)
    ensures rounds[k - 1].completing >= p.lastForward + 90_000_000_000 && rounds[k - 1].elapsed >= 90_000_000_000
    ensures forall i :: 0 <= i < k - 1 ==>
      rounds[i].completing < p.lastForward + 90_000_000_000 || rounds[i].elapsed < 90_000_000_000
    ensures forall i :: 0 <= i < k ==>
      && rounds[i].read.Some? && rounds[i].stored && !rounds[i].cancelled
      && rounds[i].now < p.startedAt + 180_000_000_000 && rounds[i].deadlineCheck < p.startedAt + 180_000_000_000
  {
    forall i | 0 <= i < k
      ensures Polled(p, rounds, i) && rounds[i].stored
      ensures i < k - 1 ==>
        rounds[i].completing < p.lastForward + 90_000_000_000 || rounds[i].elapsed < 90_000_000_000
    {
      if i < k - 1 { assert Continues(p, rounds, i); }
    }
  }

  /** An accepted PASS over retained evidence: the last observation is an exact three-way match, and no earlier one
      contradicted the scenario. */
  lemma PassMeansExactMatch(m: Manifest, rule: Rule, r: Report, a: Archive, evidence: seq<Evidence>)
    requires Accepted(r, a) && r.verdict == Pass && Named(m)
    requires |r.polls| <= |evidence|
    requires forall n :: 0 <= n < |r.polls| ==> Retained(a, n) == Some(Judge(m, rule, evidence[n]))
    ensures r.polls != [] && Decoded(evidence[|r.polls| - 1].history, RollOf(m).count).Some?
    ensures var last := evidence[|r.polls| - 1];
            ExactMatch(RollOf(m), m.groups, last.active, Decoded(last.history, RollOf(m).count).value, last.audit)
    ensures forall n :: 0 <= n < |r.polls| ==> !Adverse(Judge(m, rule, evidence[n]))
  {
    AcceptedPass(r, a);
    forall n | 0 <= n < |r.polls| ensures Judge(m, rule, evidence[n]) == r.polls[n].evaluation {
      assert PollReplayed(r, a, n);
    }
    EligibleIffExactMatch(m, rule, evidence[|r.polls| - 1]);
  }

  // ---------- which reports of the runner are accepted ----------

  /** The runner's whole observation phase and its deferred end. `postflight` is the success of everything between. */
  method Run(p: Plan, rounds: seq<Round>, postflight: bool, endedAt: int)
    returns (r: Report, events: seq<Event>, ghost k: nat, ghost judged: nat)
    requires |rounds| == EXECUTION_SECONDS + 1
    ensures Produced(p, rounds, endedAt, r, events, k, judged)
    ensures !r.failed <==> postflight && exists j: nat :: CompletedAfter(p, rounds, j)
    ensures !r.failed ==> RoundsEarn(rounds, k, r.verdict)
  {
    var report := new RunReport(p.startedAt);
    report.lastForwardAt := Some(p.lastForward);
    var ok;
    ghost var logged;
    ok, k, judged, logged := report.Observe(p, rounds);
    if ok && postflight { report.Conclude(Findings(rounds, judged)); }
    report.Finish(!(ok && postflight), endedAt);
    r := Report(report.startedAt, report.endedAt, report.lastForwardAt, report.evaluation, report.adverse, report.polls,
                report.verdict, report.failed, report.complete);
    events := report.events;
    if !r.failed { FindingsAreRounds(rounds, k, r.verdict); }
  }

  /** What the judgements of the first `k` rounds earn a run. */
  ghost predicate RoundsEarn(rounds: seq<Round>, k: nat, verdict: Verdict) {
    && 0 < k <= |rounds| && AllRead(rounds, k)
    && (verdict == Fail <==> exists i :: 0 <= i < k && rounds[i].read.value.disposition == Violation)
    && (verdict == Pass <==>
          && (forall i :: 0 <= i < k ==> !Adverse(rounds[i].read.value))
          && rounds[k - 1].read.value.disposition == Eligible)
  }

  lemma FindingsAreRounds(rounds: seq<Round>, k: nat, verdict: Verdict)
    requires 0 < k <= |rounds| && AllRead(rounds, k) && Earned(Findings(rounds, k), verdict)
    ensures RoundsEarn(rounds, k, verdict)
  {
    var findings := Findings(rounds, k);
    assert forall i :: 0 <= i < k ==> findings[i] == rounds[i].read.value;
    if i :| 0 <= i < k && rounds[i].read.value.disposition == Violation {
      assert findings[i].disposition == Violation;
    }
  }

  /** A report the runner can leave: `k` polls, `judged` judgements, and either a concluded run or a failed one. */
  ghost predicate Produced(p: Plan, rounds: seq<Round>, endedAt: int, r: Report, events: seq<Event>, k: nat,
                           judged: nat) {
    && k <= judged <= k + 1 && judged <= |rounds| == EXECUTION_SECONDS + 1 && AllRead(rounds, judged)
    && r.startedAt == p.startedAt && r.endedAt == endedAt && r.lastForwardAt == Some(p.lastForward)
    && r.polls == Polls(rounds, k)
    && (events == Events(rounds, k) || (r.failed && k > 0 && events == Events(rounds, k - 1)))
    && r.evaluation == LastOf(Findings(rounds, judged)) && LatchOf(Findings(rounds, judged), r.adverse)
    && (forall i :: 0 <= i < k ==> Polled(p, rounds, i))
    && if r.failed then r.verdict == Inconclusive
       else judged == k && CompletedAfter(p, rounds, k) && r.complete && Earned(Findings(rounds, k), r.verdict)
  }

  /** The archive of that run: the retained evidence replays to the same verdicts. */
  ghost predicate Archived(p: Plan, rounds: seq<Round>, events: seq<Event>, judged: nat, a: Archive) {
    && a.registered && a.kit && a.bound && a.configurationAfter && a.lastForward == Some(p.lastForward)
    && a.events == events
    && judged <= |a.retained| && judged <= |rounds| && forall i :: 0 <= i < judged ==> a.retained[i] == rounds[i].read
  }

  /** Both clocks are monotone over the polls of the run and its end. */
  ghost predicate Monotone(p: Plan, rounds: seq<Round>, k: nat, endedAt: int)
    requires k <= |rounds|
  {
    && 0 < p.lastForward <= p.first
    && forall i :: 0 <= i < k ==> InOrder(p, rounds, i, endedAt)
  }

  ghost predicate InOrder(p: Plan, rounds: seq<Round>, i: nat, endedAt: int)
    requires i < |rounds|
  {
    var round := rounds[i];
    && round.now <= round.recheck <= round.deadlineCheck <= round.ended <= round.occurred <= endedAt
    && if i == 0 then p.first <= round.now else rounds[i - 1].occurred <= round.now && rounds[i - 1].elapsed <= round.elapsed
  }

  lemma {:induction false} MonotoneStarts(p: Plan, rounds: seq<Round>, k: nat, endedAt: int, i: nat)
    requires i < k <= |rounds| && Monotone(p, rounds, k, endedAt)
    ensures p.first <= rounds[i].now
  {
    if i > 0 {
      MonotoneStarts(p, rounds, k, endedAt, i - 1);
      assert InOrder(p, rounds, i - 1, endedAt);
    }
    assert InOrder(p, rounds, i, endedAt);
  }

  lemma PollsReplay(p: Plan, rounds: seq<Round>, endedAt: int, r: Report, events: seq<Event>, k: nat, judged: nat,
                    a: Archive)
    requires Produced(p, rounds, endedAt, r, events, k, judged) && Archived(p, rounds, events, judged, a)
    requires Monotone(p, rounds, k, endedAt)
    ensures Headed(r, a) && PollsSound(r, a, k)
  {
    forall n | 0 <= n < k ensures PollTimed(r, p.lastForward, n) && PollReplayed(r, a, n) {
      MonotoneStarts(p, rounds, k, endedAt, n);
      if n > 0 {
        MonotoneStarts(p, rounds, k, endedAt, n - 1);
        assert InOrder(p, rounds, n - 1, endedAt);
      }
      assert InOrder(p, rounds, n, endedAt);
      assert Polled(p, rounds, n);
    }
  }

  lemma CarriesFindings(rounds: seq<Round>, r: Report, k: nat, judged: nat, a: Archive)
    requires k <= judged <= k + 1 && judged <= |rounds| && AllRead(rounds, judged) && r.polls == Polls(rounds, k)
    requires judged <= |a.retained| && forall i :: 0 <= i < judged ==> a.retained[i] == rounds[i].read
    ensures Findings(rounds, judged) ==
              if judged == k then Evaluations(r.polls) else Evaluations(r.polls) + [Retained(a, k).value]
  {
    assert forall i :: 0 <= i < k ==> r.polls[i].evaluation == rounds[i].read.value;
  }

  /** A completed run with monotone clocks is accepted exactly when the recorded end of its completing poll lies in
      [completeAfter, deadline) and the elapsed time is within the execution budget. The runner decides completion on a
      later reading of the clock than the one it records, so neither bound follows from completing. */
  lemma CompletedRunAcceptedIff(p: Plan, rounds: seq<Round>, endedAt: int, r: Report, events: seq<Event>, k: nat,
                                judged: nat, a: Archive)
    requires Produced(p, rounds, endedAt, r, events, k, judged) && Archived(p, rounds, events, judged, a)
    requires Monotone(p, rounds, k, endedAt)
    requires !r.failed
    ensures Accepted(r, a) <==>
      CompleteAfter(p) <= rounds[k - 1].ended < Deadline(p) && rounds[k - 1].elapsed < EXECUTION
  {
    PollsReplay(p, rounds, endedAt, r, events, k, judged, a);
    CarriesFindings(rounds, r, k, judged, a);
  }

  /** A failed run with monotone clocks is always accepted, with or without a judged tail or an unstored last event. */
  lemma FailedRunAccepted(p: Plan, rounds: seq<Round>, endedAt: int, r: Report, events: seq<Event>, k: nat, judged: nat,
                          a: Archive)
    requires Produced(p, rounds, endedAt, r, events, k, judged) && Archived(p, rounds, events, judged, a)
    requires Monotone(p, rounds, k, endedAt)
    requires r.failed
    ensures Accepted(r, a)
  {
    PollsReplay(p, rounds, endedAt, r, events, k, judged, a);
    CarriesFindings(rounds, r, k, judged, a);
  }

  function LateRound(completing: int, ended: int): Round {
    Round(false, 95 * SECOND, Some(Evaluation(Eligible, FixedInitialAudit)), 95 * SECOND, 95 * SECOND, REQUIRED, ended, completing, true,
          completing, true)
  }

  /** A concrete run with monotone clocks that the runner completes as PASS and the verifier rejects: the poll's end is
      recorded one nanosecond before the completion time and the completion test reads the clock again. */
  lemma CompletedRunRejected() returns (p: Plan, rounds: seq<Round>, r: Report, a: Archive)
    ensures CompletedAfter(p, rounds, 1) && Monotone(p, rounds, 1, 96 * SECOND)
    ensures Produced(p, rounds, 96 * SECOND, r, a.events, 1, 1) && r.verdict == Pass
    ensures Archived(p, rounds, a.events, 1, a)
    ensures !Accepted(r, a)
  {
    p := Plan(SECOND, 5 * SECOND + 1, 6 * SECOND);
    rounds := seq(EXECUTION_SECONDS + 1, _ => LateRound(95 * SECOND + 1, 95 * SECOND));
    var finding := Evaluation(Eligible, FixedInitialAudit);
    r := Report(SECOND, 96 * SECOND, Some(5 * SECOND + 1), Some(finding), None, Polls(rounds, 1), Pass, false, true);
    a := Archive(true, true, true, true, Some(5 * SECOND + 1), [rounds[0].read], Events(rounds, 1));
    assert Findings(rounds, 1) == [finding];
    CompletedRunAcceptedIff(p, rounds, 96 * SECOND, r, a.events, 1, 1, a);
  }
}
