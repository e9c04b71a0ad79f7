/** The offline verifier: replays the retained observations of a run against its report. */
module InstalledClaims {
  import opened Common
  import opened Oracle
  import opened InstalledRun

  /** What the archive retains independently of the report. `retained[n]` is the oracle's verdict on the retained
      evidence of observation `n`, None when that evidence is absent or does not decode. */
  datatype Archive = Archive(registered: bool, kit: bool, bound: bool, configurationAfter: bool,
                             lastForward: Option<int>,
                             retained: seq<Option<Evaluation>>, events: seq<Event>)

  const MAX_POLLS := 181

  function Retained(a: Archive, n: nat): Option<Evaluation> {
    if n < |a.retained| then a.retained[n] else None
  }

  ghost predicate PollTimed(r: Report, lastForward: int, n: nat)
    requires n < |r.polls|
  {
    var poll := r.polls[n];
    && poll.index == n && poll.startedAt != 0 && lastForward <= poll.startedAt <= poll.endedAt <= r.endedAt
    && poll.elapsed >= 0
    && (n > 0 ==> (r.polls[n - 1].endedAt != 0 ==> r.polls[n - 1].endedAt <= poll.startedAt) && r.polls[n - 1].elapsed <= poll.elapsed)
  }

  ghost predicate PollReplayed(r: Report, a: Archive, n: nat)
    requires n < |r.polls|
  {
    && Retained(a, n) == Some(r.polls[n].evaluation)
    && (n < |a.events| ==> a.events[n].poll == r.polls[n] && r.polls[n].endedAt <= a.events[n].occurredAt)
  }

  ghost predicate PollsSound(r: Report, a: Archive, k: nat)
    requires k <= |r.polls| && (r.polls != [] ==> a.lastForward.Some?)
  {
    forall n :: 0 <= n < k ==> PollTimed(r, a.lastForward.value, n) && PollReplayed(r, a, n)
  }

  ghost function Evaluations(polls: seq<Poll>): (s: seq<Evaluation>)
    ensures |s| == |polls| && forall i :: 0 <= i < |polls| ==> s[i] == polls[i].evaluation
  {
    seq(|polls|, i requires 0 <= i < |polls| => polls[i].evaluation)
  }

  ghost predicate Stopped(r: Report) {
    r.failed && r.verdict == Inconclusive
  }

  /** The report carries exactly the last evaluation and the latch of a sequence of findings. */
  ghost predicate Carries(r: Report, findings: seq<Evaluation>) {
    r.evaluation == LastOf(findings) && LatchOf(findings, r.adverse)
  }

  ghost predicate Headed(r: Report, a: Archive) {
    && (a.registered || (r.polls == [] && r.lastForwardAt.None?))
    && |r.polls| <= MAX_POLLS
    && (r.lastForwardAt.Some? ==> a.lastForward == r.lastForwardAt)
    && (r.polls != [] ==> r.lastForwardAt.Some? && a.kit)
    && (|a.events| == |r.polls| || (Stopped(r) && |a.events| + 1 == |r.polls|))
  }

  /** A tail: one more judged observation that never became a poll, only in a failed run. */
  ghost predicate Tailed(r: Report, a: Archive) {
    && Stopped(r) && a.registered && a.lastForward.Some? && Retained(a, |r.polls|).Some?
    && Carries(r, Evaluations(r.polls) + [Retained(a, |r.polls|).value])
  }

  ghost predicate Interval(r: Report, lastForward: int)
    requires r.polls != []
  {
    var final := r.polls[|r.polls| - 1];
    && lastForward + REQUIRED <= final.endedAt && REQUIRED <= final.elapsed < EXECUTION
    && final.endedAt - r.startedAt < EXECUTION
  }

  ghost predicate Finished(r: Report, a: Archive) {
    && r.complete && a.bound && a.lastForward.Some? && r.lastForwardAt.Some? && r.polls != [] && a.configurationAfter
    && Interval(r, a.lastForward.value)
  }

  /** The claims an accepted report makes. */
  ghost predicate Accepted(r: Report, a: Archive) {
    && Headed(r, a) && PollsSound(r, a, |r.polls|)
    && (Carries(r, Evaluations(r.polls)) || Tailed(r, a))
    && if r.failed then r.verdict == Inconclusive
       else Finished(r, a) && Earned(Evaluations(r.polls), r.verdict)
  }

  lemma EvaluationsStep(polls: seq<Poll>, k: nat)
    requires k < |polls|
    ensures Evaluations(polls[..k + 1]) == Evaluations(polls[..k]) + [polls[k].evaluation]
  {
  }

  method ValidateHeader(r: Report, a: Archive) returns (ok: bool)
    ensures ok <==> Headed(r, a)
  {
    if !a.registered && (|r.polls| != 0 || r.lastForwardAt.Some?) { return false; }
    if |r.polls| > MAX_POLLS { return false; }
    if r.lastForwardAt.Some? && (a.lastForward.None? || a.lastForward.value != r.lastForwardAt.value) { return false; }
    if |r.polls| > 0 && (r.lastForwardAt.None? || !a.kit) { return false; }
    var unmatchedFinal := r.failed && r.verdict == Inconclusive && |a.events| + 1 == |r.polls|;
    return |a.events| == |r.polls| || unmatchedFinal;
  }

  /** The replay loop: checks each poll and rebuilds the latch and the last evaluation. */
  method ReplayPolls(r: Report, a: Archive) returns (ok: bool, last: Option<Evaluation>, adverse: Option<Evaluation>)
    requires r.polls != [] ==> a.lastForward.Some?
    ensures ok <==> PollsSound(r, a, |r.polls|)
    ensures ok ==> last == LastOf(Evaluations(r.polls)) && LatchOf(Evaluations(r.polls), adverse)
  {
    last, adverse := None, None;
    var previousEnd, previousElapsed := 0, 0;
    var n := 0;
    while n < |r.polls|
      invariant 0 <= n <= |r.polls|
      invariant PollsSound(r, a, n)
      invariant last == LastOf(Evaluations(r.polls[..n])) && LatchOf(Evaluations(r.polls[..n]), adverse)
      invariant if n == 0 then previousEnd == 0 && previousElapsed == 0
                else previousEnd == r.polls[n - 1].endedAt && previousElapsed == r.polls[n - 1].elapsed
    {
      var poll := r.polls[n];
      if poll.index != n || poll.startedAt == 0 || poll.endedAt < poll.startedAt || poll.startedAt < a.lastForward.value
         || poll.endedAt > r.endedAt || (previousEnd != 0 && poll.startedAt < previousEnd)
         || poll.elapsed < previousElapsed
         || poll.elapsed < 0 {
        assert !PollTimed(r, a.lastForward.value, n);
        return false, last, adverse;
      }
      var replayed := Retained(a, n);
      if replayed.None? || replayed.value != poll.evaluation {
        assert !PollReplayed(r, a, n);
        return false, last, adverse;
      }
      EvaluationsStep(r.polls, n);
      LatchStep(Evaluations(r.polls[..n]), adverse, replayed.value);
      last := replayed;
      if last.value.disposition == Violation || last.value.disposition == Ambiguous {
        if adverse.None? || last.value.disposition == Violation {
          adverse := last;
        }
      }
      if n < |a.events| && (a.events[n].poll != poll || a.events[n].occurredAt < poll.endedAt) {
        assert !PollReplayed(r, a, n);
        return false, last, adverse;
      }
      previousEnd, previousElapsed := poll.endedAt, poll.elapsed;
      assert PollTimed(r, a.lastForward.value, n) && PollReplayed(r, a, n);
      n := n + 1;
    }
    assert r.polls[..|r.polls|] == r.polls;
    return true, last, adverse;
  }

  /** The report differs from the replay: only the retained tail of a failed run can explain it. */
  method ExplainedByTail(r: Report, a: Archive, adverse: Option<Evaluation>)
    returns (ok: bool, latch: Option<Evaluation>)
    requires LatchOf(Evaluations(r.polls), adverse)
    ensures ok <==> Tailed(r, a)
  {
    latch := adverse;
    if !r.failed || r.verdict != Inconclusive || !a.registered || a.lastForward.None? { return false, latch; }
    var tail := Retained(a, |r.polls|);
    if tail.None? { return false, latch; }
    LatchStep(Evaluations(r.polls), adverse, tail.value);
    if tail.value.disposition == Violation || tail.value.disposition == Ambiguous {
      if adverse.None? || tail.value.disposition == Violation {
        latch := tail;
      }
    }
    var all := Evaluations(r.polls) + [tail.value];
    if LatchOf(all, r.adverse) { LatchUnique(all, latch, r.adverse); }
    return r.evaluation == tail && r.adverse == latch, latch;
  }

  method ValidateInstalledClaims(r: Report, a: Archive) returns (ok: bool)
    ensures ok <==> Accepted(r, a)
  {
    var headed := ValidateHeader(r, a);
    if !headed { return false; }
    var sound, last, adverse := ReplayPolls(r, a);
    if !sound { return false; }
    if LatchOf(Evaluations(r.polls), r.adverse) { LatchUnique(Evaluations(r.polls), adverse, r.adverse); }
    if r.evaluation != last || r.adverse != adverse {
      var explained;
      explained, adverse := ExplainedByTail(r, a, adverse);
      if !explained { return false; }
    }
    if r.failed { return r.verdict == Inconclusive; }
    if !r.complete || !a.bound || a.lastForward.None? || r.lastForwardAt.None? || |r.polls| == 0 || !a.configurationAfter {
      return false;
    }
    var final := r.polls[|r.polls| - 1];
    if final.endedAt < a.lastForward.value + REQUIRED || final.elapsed < REQUIRED || final.elapsed >= EXECUTION
       || final.endedAt - r.startedAt >= EXECUTION {
      return false;
    }
    LatchEarns(Evaluations(r.polls), adverse);
    var expected := Inconclusive;
    if adverse.Some? { last := adverse; }
    if last.Some? && last.value.disposition == Eligible { expected := Pass; }
    else if last.Some? && last.value.disposition == Violation { expected := Fail; }
    return r.verdict == expected;
  }
}
