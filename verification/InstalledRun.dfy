/** The observation of an installed run: bounded polling with a latch for adverse findings. */
module InstalledRun {
  import opened Common
  import opened Oracle

  // Durations and instants in nanoseconds; an instant is never the zero time when a clock was read.
  const SECOND := 1_000_000_000
  const EXECUTION_SECONDS := 180
  const EXECUTION := EXECUTION_SECONDS * SECOND
  const REQUIRED := (60 + 30) * SECOND  // correlation window and observation lag

  datatype Verdict = Pass | Fail | Inconclusive

  datatype Poll = Poll(index: nat, startedAt: int, endedAt: int, evaluation: Evaluation, elapsed: int)

  datatype Event = Event(poll: Poll, occurredAt: int)

  /** The parts of the run report the offline verifier replays. `evaluation` is None before the first poll. */
  datatype Report = Report(startedAt: int, endedAt: int, lastForwardAt: Option<int>, evaluation: Option<Evaluation>,
                           adverse: Option<Evaluation>, polls: seq<Poll>, verdict: Verdict, failed: bool, complete: bool)

  /** Everything one loop iteration takes from outside: cancellation, clocks, the oracle's verdict on the three
      populations (None when a read or its publication failed) and the event store. */
  datatype Round = Round(cancelled: bool, now: int, read: Option<Evaluation>, recheck: int, deadlineCheck: int,
                         elapsed: int,
                         ended: int, occurred: int, stored: bool, completing: int, slept: bool)

  datatype Step = Halted | Completed | Continued

  datatype Plan = Plan(startedAt: int, lastForward: int, first: int)

  // ---------- the latch ----------

  /** The last Violation if there is one, else the first Ambiguous finding. */
  ghost predicate LatchOf(findings: seq<Evaluation>, latch: Option<Evaluation>) {
    match latch
    case None => forall i :: 0 <= i < |findings| ==> !Adverse(findings[i])
    case Some(v) => exists k :: 0 <= k < |findings| && findings[k] == v && Adverse(v) && Decisive(findings, k)
  }

  ghost predicate Decisive(findings: seq<Evaluation>, k: nat)
    requires k < |findings|
  {
    if findings[k].disposition == Violation then forall i :: k < i < |findings| ==> findings[i].disposition != Violation
    else
      && (forall i :: 0 <= i < |findings| ==> findings[i].disposition != Violation)
      && (forall i :: 0 <= i < k ==> !Adverse(findings[i]))
  }

  /** The latch update shared by the runner and the verifier. */
  function Latch(latch: Option<Evaluation>, v: Evaluation): Option<Evaluation> {
    if Adverse(v) && (latch.None? || v.disposition == Violation) then Some(v) else latch
  }

  lemma LatchStep(findings: seq<Evaluation>, latch: Option<Evaluation>, v: Evaluation)
    requires LatchOf(findings, latch)
    ensures LatchOf(findings + [v], Latch(latch, v))
  {
    var all := findings + [v];
    assert all[|findings|] == v;
    assert forall i :: 0 <= i < |findings| ==> all[i] == findings[i];
    if Latch(latch, v) != latch || (latch.Some? && Adverse(v) && v.disposition == Violation) {
      assert Decisive(all, |findings|);
    } else if latch.Some? {
      var k :| 0 <= k < |findings| && findings[k] == latch.value && Adverse(latch.value) && Decisive(findings, k);
      assert all[k] == latch.value && Decisive(all, k);
    }
  }

  /** The findings determine the latch. */
  lemma LatchUnique(findings: seq<Evaluation>, a: Option<Evaluation>, b: Option<Evaluation>)
    requires LatchOf(findings, a) && LatchOf(findings, b)
    ensures a == b
  {
    if a.Some? && b.Some? {
      var k :| 0 <= k < |findings| && findings[k] == a.value && Adverse(a.value) && Decisive(findings, k);
      var l :| 0 <= l < |findings| && findings[l] == b.value && Adverse(b.value) && Decisive(findings, l);
      assert k == l;
    }
  }

  /** The verdict that a sequence of findings earns: FAIL for any Violation, whatever came after it; PASS when nothing was
      adverse and the last finding is Eligible; INCONCLUSIVE otherwise. */
  ghost predicate Earned(findings: seq<Evaluation>, verdict: Verdict) {
    && (verdict == Fail <==> exists i :: 0 <= i < |findings| && findings[i].disposition == Violation)
    && (verdict == Pass <==>
          && findings != [] && (forall i :: 0 <= i < |findings| ==> !Adverse(findings[i]))
          && findings[|findings| - 1].disposition == Eligible)
  }

  /** The latch, or without one the last finding, decides the verdict. */
  lemma LatchEarns(findings: seq<Evaluation>, latch: Option<Evaluation>)
    requires LatchOf(findings, latch)
    ensures latch.Some? && latch.value.disposition == Violation ==> Earned(findings, Fail)
    ensures latch.Some? && latch.value.disposition != Violation ==> Earned(findings, Inconclusive)
    ensures latch.None? && findings != [] && findings[|findings| - 1].disposition == Eligible ==> Earned(findings, Pass)
    ensures latch.None? && (findings == [] || findings[|findings| - 1].disposition != Eligible) ==>
      Earned(findings, Inconclusive)
  {
    if latch.Some? {
      var k :| 0 <= k < |findings| && findings[k] == latch.value && Adverse(latch.value) && Decisive(findings, k);
      assert Adverse(findings[k]);
    }
  }

  // ---------- what each round amounts to ----------

  ghost function Previous(p: Plan, rounds: seq<Round>, i: nat): int
    requires i <= |rounds|
  {
    if i == 0 then p.first else rounds[i - 1].now
  }

  function CompleteAfter(p: Plan): int { p.lastForward + REQUIRED }

  function Deadline(p: Plan): int { p.startedAt + EXECUTION }

  /** The three populations were read and judged. */
  ghost predicate Judged(p: Plan, rounds: seq<Round>, i: nat)
    requires i < |rounds|
  {
    !rounds[i].cancelled && Previous(p, rounds, i) <= rounds[i].now < Deadline(p) && rounds[i].read.Some?
  }

  /** ... and the poll was appended to the report. */
  ghost predicate Polled(p: Plan, rounds: seq<Round>, i: nat)
    requires i < |rounds|
  {
    && Judged(p, rounds, i) && rounds[i].now <= rounds[i].recheck && rounds[i].deadlineCheck < Deadline(p)
    && rounds[i].elapsed >= 0
  }

  ghost predicate Completes(p: Plan, rounds: seq<Round>, i: nat)
    requires i < |rounds|
  {
    && Polled(p, rounds, i) && rounds[i].stored && rounds[i].completing >= CompleteAfter(p)
    && rounds[i].elapsed >= REQUIRED
  }

  ghost predicate Continues(p: Plan, rounds: seq<Round>, i: nat)
    requires i < |rounds|
  {
    && Polled(p, rounds, i) && rounds[i].stored
    && !(rounds[i].completing >= CompleteAfter(p) && rounds[i].elapsed >= REQUIRED) && rounds[i].slept
  }

  /** The loop returns normally after exactly `k` rounds. */
  ghost predicate CompletedAfter(p: Plan, rounds: seq<Round>, k: nat) {
    0 < k <= |rounds| && Completes(p, rounds, k - 1) && forall i :: 0 <= i < k - 1 ==> Continues(p, rounds, i)
  }

  ghost predicate AllRead(rounds: seq<Round>, k: nat)
    requires k <= |rounds|
  {
    forall i :: 0 <= i < k ==> rounds[i].read.Some?
  }

  ghost function Findings(rounds: seq<Round>, k: nat): (s: seq<Evaluation>)
    requires k <= |rounds| && AllRead(rounds, k)
    ensures |s| == k && forall i :: 0 <= i < k ==> s[i] == rounds[i].read.value
  {
    seq(k, i requires 0 <= i < k => rounds[i].read.value)
  }

  ghost function Polls(rounds: seq<Round>, k: nat): (s: seq<Poll>)
    requires k <= |rounds| && AllRead(rounds, k)
    ensures |s| == k
    ensures forall i :: 0 <= i < k ==>
      s[i] == Poll(i, rounds[i].now, rounds[i].ended, rounds[i].read.value, rounds[i].elapsed)
  {
    seq(k, i requires 0 <= i < k => Poll(i, rounds[i].now, rounds[i].ended, rounds[i].read.value, rounds[i].elapsed))
  }

  ghost function Events(rounds: seq<Round>, k: nat): (s: seq<Event>)
    requires k <= |rounds| && AllRead(rounds, k)
    ensures |s| == k && forall i :: 0 <= i < k ==> s[i] == Event(Polls(rounds, k)[i], rounds[i].occurred)
  {
    seq(k, i requires 0 <= i < k => Event(Polls(rounds, k)[i], rounds[i].occurred))
  }

  ghost function LastOf(findings: seq<Evaluation>): Option<Evaluation> {
    if findings == [] then None else Some(findings[|findings| - 1])
  }

  class RunReport {
    var startedAt: int
    var endedAt: int
    var lastForwardAt: Option<int>
    var evaluation: Option<Evaluation>
    var adverse: Option<Evaluation>
    var polls: seq<Poll>
    var verdict: Verdict
    var failed: bool
    var complete: bool
    var events: seq<Event>  // the durable "installed_pack.observed" events

    constructor (startedAt: int)
      ensures this.startedAt == startedAt && lastForwardAt == None && evaluation == None && adverse == None
      ensures polls == [] && events == []
      ensures verdict == Inconclusive && !failed && !complete
    {
      this.startedAt, endedAt, lastForwardAt := startedAt, 0, None;
      evaluation, adverse, polls, events := None, None, [], [];
      verdict, failed, complete := Inconclusive, false, false;
    }

    /** The report after `k` polls and `judged` judgements (one more when the last never became a poll). */
    ghost predicate Reflects(rounds: seq<Round>, k: nat, judged: nat, logged: nat)
      requires k <= judged <= |rounds| && logged <= k && AllRead(rounds, judged)
      reads this
    {
      && polls == Polls(rounds, k) && events == Events(rounds, logged)
      && LatchOf(Findings(rounds, judged), adverse) && evaluation == LastOf(Findings(rounds, judged))
    }

    /** One round after `index` completed ones: reads, judges, latches, appends the poll and its event. */
    method ObserveRound(p: Plan, rounds: seq<Round>, index: nat, previous: int)
      returns (step: Step, ghost k: nat, ghost judged: nat, ghost logged: nat)
      requires index < |rounds| && AllRead(rounds, index) && Reflects(rounds, index, index, index)
      requires previous == Previous(p, rounds, index)
      modifies `evaluation, `adverse, `polls, `events
      ensures index <= logged <= k <= judged <= index + 1 && k - 1 <= logged && AllRead(rounds, judged)
      ensures Reflects(rounds, k, judged, logged)
      ensures k == index + 1 ==> Polled(p, rounds, index)
      ensures step == Completed <==> Completes(p, rounds, index)
      ensures step == Continued <==> Continues(p, rounds, index)
      ensures step != Halted ==> logged == index + 1
    {
      var round := rounds[index];
      k, judged, logged := index, index, index;
      if round.cancelled { return Halted, k, judged, logged; }
      if round.now < previous || round.now >= Deadline(p) { return Halted, k, judged, logged; }
      if round.read.None? { return Halted, k, judged, logged; }
      var finding := round.read.value;
      JudgeRound(rounds, index, finding);
      judged := index + 1;
      if round.recheck < round.now || round.deadlineCheck >= Deadline(p) { return Halted, k, judged, logged; }
      if round.elapsed < 0 { return Halted, k, judged, logged; }
      var poll := Poll(index, round.now, round.ended, finding, round.elapsed);
      polls := polls + [poll];
      assert polls == Polls(rounds, index + 1);
      k := index + 1;
      if !round.stored { return Halted, k, judged, logged; }
      events := events + [Event(poll, round.occurred)];
      assert events == Events(rounds, index + 1);
      logged := index + 1;
      if round.completing >= CompleteAfter(p) && round.elapsed >= REQUIRED { return Completed, k, judged, logged; }
      return if round.slept then Continued else Halted, k, judged, logged;
    }

    /** Records a judgement and latches it when it is adverse. */
    method JudgeRound(rounds: seq<Round>, index: nat, finding: Evaluation)
      requires index < |rounds| && AllRead(rounds, index + 1) && finding == rounds[index].read.value
      requires LatchOf(Findings(rounds, index), adverse)
      modifies `evaluation, `adverse
      ensures LatchOf(Findings(rounds, index + 1), adverse) && evaluation == LastOf(Findings(rounds, index + 1))
      ensures adverse == Latch(old(adverse), finding)
    {
      assert Findings(rounds, index + 1) == Findings(rounds, index) + [finding];
      LatchStep(Findings(rounds, index), adverse, finding);
      evaluation := Some(finding);
      if finding.disposition == Violation || finding.disposition == Ambiguous {
        if adverse.None? || finding.disposition == Violation {
          adverse := Some(finding);
        }
      }
    }

    /** The polling loop. `k` polls were appended, `judged` observations judged and `logged` events stored. */
    method Observe(p: Plan, rounds: seq<Round>) returns (ok: bool, ghost k: nat, ghost judged: nat, ghost logged: nat)
      requires |rounds| == EXECUTION_SECONDS + 1
      requires polls == [] && events == [] && adverse == None && evaluation == None
      modifies `evaluation, `adverse, `polls, `events
      ensures k <= judged <= k + 1 && judged <= |rounds| && k - 1 <= logged <= k && AllRead(rounds, judged)
      ensures Reflects(rounds, k, judged, logged)
      ensures forall i :: 0 <= i < k ==> Polled(p, rounds, i)
      ensures ok ==> judged == k == logged && CompletedAfter(p, rounds, k)
      ensures (exists j: nat :: CompletedAfter(p, rounds, j)) ==> ok
    {
      var previous := p.first;
      var index := 0;
      k, judged, logged := 0, 0, 0;
      while index <= EXECUTION_SECONDS
        invariant 0 <= index <= EXECUTION_SECONDS + 1
        invariant k == judged == logged == index && AllRead(rounds, index)
        invariant previous == Previous(p, rounds, index)
        invariant Reflects(rounds, index, index, index)
        invariant forall i :: 0 <= i < index ==> Continues(p, rounds, i)
        invariant forall i :: 0 <= i < index ==> Polled(p, rounds, i)
      {
        var step;
        step, k, judged, logged := ObserveRound(p, rounds, index, previous);
        if step == Halted {
          Interrupted(p, rounds, index);
          return false, k, judged, logged;
        }
        if step == Completed { return true, k, judged, logged; }
        previous := rounds[index].now;
        index := index + 1;
      }
      Exhausted(p, rounds);
      return false, k, judged, logged;
    }

    /** The verdict of a run whose observation and postflight succeeded. */
    method Conclude(ghost findings: seq<Evaluation>)
      requires LatchOf(findings, adverse) && evaluation == LastOf(findings)
      modifies `verdict, `complete
      ensures Earned(findings, verdict) && complete
    {
      LatchEarns(findings, adverse);
      var final := evaluation;
      if adverse.Some? { final := adverse; }
      verdict := Inconclusive;
      if final.Some? {
        match final.value.disposition {
          case Eligible => verdict := Pass;
          case Violation => verdict := Fail;
          case _ =>
        }
      }
      complete := true;
    }

    /** The deferred end of every run: a failed execution never keeps a verdict. */
    method Finish(executionFailed: bool, now: int)
      modifies `verdict, `failed, `endedAt
      ensures failed == executionFailed && endedAt == now
      ensures verdict == if executionFailed then Inconclusive else old(verdict)
    {
      failed := executionFailed;
      if executionFailed { verdict := Inconclusive; }
      endedAt := now;
    }
  }

  /** A round that neither continues nor completes ends every run that reaches it. */
  lemma Interrupted(p: Plan, rounds: seq<Round>, index: nat)
    requires index < |rounds| && !Continues(p, rounds, index) && !Completes(p, rounds, index)
    requires forall i :: 0 <= i < index ==> Continues(p, rounds, i)
    ensures forall j: nat :: !CompletedAfter(p, rounds, j)
  {
    forall j: nat ensures !CompletedAfter(p, rounds, j) {
      if 0 < j <= index { assert Continues(p, rounds, j - 1); } else if index < j - 1 { assert !Continues(p, rounds, index); }
    }
  }

  lemma Exhausted(p: Plan, rounds: seq<Round>)
    requires forall i :: 0 <= i < |rounds| ==> Continues(p, rounds, i)
    ensures forall j: nat :: !CompletedAfter(p, rounds, j)
  {
    forall j: nat ensures !CompletedAfter(p, rounds, j) {
      if 0 < j <= |rounds| { assert Continues(p, rounds, j - 1); }
    }
  }
}
