/** The bounded observation of one case: polling until a deadline, with latched violations and evidence gaps. */
module Observation {
  import opened Common
  import opened Assertions

  const DEFAULT_WINDOW := 35_000_000_000

  // ---------- what one snapshot shows ----------

  ghost predicate Violates(assertions: seq<Assertion>, s: Snapshot, shadow: bool, checkpoint: bool) {
    exists a :: a in assertions && (checkpoint || a.kind == SourceEpisodeStateCount) && a.equals == 0 && VerdictOf(a, s, shadow) == Fail
  }

  ghost predicate LacksEpisode(assertions: seq<Assertion>, s: Snapshot, shadow: bool) {
    exists a :: a in assertions && a.kind == SourceEpisodeStateCount && a.equals == 0 && VerdictOf(a, s, shadow) == Inconclusive
  }

  ghost predicate SomeVerdict(assertions: seq<Assertion>, s: Snapshot, shadow: bool, v: Verdict) {
    exists a :: a in assertions && VerdictOf(a, s, shadow) == v
  }

  /** Some assertion is scored and every scored assertion passes. */
  ghost predicate Satisfied(assertions: seq<Assertion>, s: Snapshot, shadow: bool) {
    && (exists a :: a in assertions && VerdictOf(a, s, shadow) != Skipped)
    && forall a :: a in assertions && VerdictOf(a, s, shadow) != Skipped ==> VerdictOf(a, s, shadow) == Pass
  }

  datatype Marks = Marks(satisfied: bool, violates: bool, lacksEpisode: bool, inconclusive: bool, skipped: bool)

  ghost predicate Marked(assertions: seq<Assertion>, s: Snapshot, shadow: bool, checkpoint: bool, m: Marks) {
    && (m.satisfied <==> Satisfied(assertions, s, shadow))
    && (m.violates <==> Violates(assertions, s, shadow, checkpoint))
    && (m.lacksEpisode <==> LacksEpisode(assertions, s, shadow))
    && (m.inconclusive <==> SomeVerdict(assertions, s, shadow, Inconclusive))
    && (m.skipped <==> SomeVerdict(assertions, s, shadow, Skipped))
  }

  method Mark(assertions: seq<Assertion>, s: Snapshot, shadow: bool, checkpoint: bool) returns (m: Option<Marks>)
    ensures m.Some? <==> Supported(assertions)
    ensures m.Some? ==> Marked(assertions, s, shadow, checkpoint, m.value)
  {
    var results := EvaluateAssertions(assertions, s, shadow);
    if results.None? { return None; }
    var satisfied := AssertionsPass(results.value);
    var marks := Marks(satisfied, false, false, false, false);
    for i := 0 to |results.value|
      invariant marks.satisfied == satisfied
      invariant marks.violates <==> Violates(assertions[..i], s, shadow, checkpoint)
      invariant marks.lacksEpisode <==> LacksEpisode(assertions[..i], s, shadow)
      invariant marks.inconclusive <==> SomeVerdict(assertions[..i], s, shadow, Inconclusive)
      invariant marks.skipped <==> SomeVerdict(assertions[..i], s, shadow, Skipped)
    {
      var r := results.value[i];
      assert assertions[..i + 1] == assertions[..i] + [assertions[i]];
      MarkStep(assertions[..i], assertions[i], s, shadow, checkpoint);
      marks := Marks(satisfied,
                     marks.violates || ((checkpoint || r.kind == SourceEpisodeStateCount) && r.expected == 0 && r.verdict == Fail),
                     marks.lacksEpisode || (r.kind == SourceEpisodeStateCount && r.expected == 0 && r.verdict == Inconclusive),
                     marks.inconclusive || r.verdict == Inconclusive,
                     marks.skipped || r.verdict == Skipped);
    }
    assert assertions[..|assertions|] == assertions;
    SatisfiedIff(assertions, s, shadow, results.value);
    m := Some(marks);
  }

  lemma {:induction false} MarkStep(assertions: seq<Assertion>, a: Assertion, s: Snapshot, shadow: bool,
                                    checkpoint: bool)
    ensures Violates(assertions + [a], s, shadow, checkpoint) <==>
      Violates(assertions, s, shadow, checkpoint) || ((checkpoint || a.kind == SourceEpisodeStateCount) && a.equals == 0 && VerdictOf(a, s, shadow) == Fail)
    ensures LacksEpisode(assertions + [a], s, shadow) <==>
      LacksEpisode(assertions, s, shadow) || (a.kind == SourceEpisodeStateCount && a.equals == 0 && VerdictOf(a, s, shadow) == Inconclusive)
    ensures forall v :: SomeVerdict(assertions + [a], s, shadow, v) <==>
      SomeVerdict(assertions, s, shadow, v) || VerdictOf(a, s, shadow) == v
  {
    assert forall b :: b in assertions + [a] <==> b in assertions || b == a;
  }

  lemma {:induction false} ScoresOfMember(assertions: seq<Assertion>, s: Snapshot, shadow: bool, results: seq<Scored>)
    requires Evaluates(assertions, s, shadow, results)
    ensures forall a :: a in assertions ==> exists r :: r in results && r.verdict == VerdictOf(a, s, shadow)
    ensures forall r :: r in results ==> exists a :: a in assertions && r.verdict == VerdictOf(a, s, shadow)
  {
    forall a | a in assertions ensures exists r :: r in results && r.verdict == VerdictOf(a, s, shadow) {
      var i :| 0 <= i < |assertions| && assertions[i] == a;
      assert results[i] in results;
    }
    forall r | r in results ensures exists a :: a in assertions && r.verdict == VerdictOf(a, s, shadow) {
      var i :| 0 <= i < |results| && results[i] == r;
      assert assertions[i] in assertions;
    }
  }

  lemma {:induction false} SatisfiedIff(assertions: seq<Assertion>, s: Snapshot, shadow: bool, results: seq<Scored>)
    requires Evaluates(assertions, s, shadow, results)
    ensures Satisfied(assertions, s, shadow) <==> AllPass(results)
  {
    ScoresOfMember(assertions, s, shadow, results);
  }

  // ---------- the polling loop ----------

  /** One turn: the snapshot or a read error, the clock after it, the stabilization sleep and re-read, and the sleep
      before the next turn. */
  datatype Turn = Turn(snapshot: Option<Snapshot>, now: int, stabilized: bool, stable: Option<Snapshot>, slept: bool)

  datatype Observed = Broken | Concluded(verdict: Verdict, shown: Snapshot, early: bool)

  /** Fixed inputs of an observation. */
  datatype Watch = Watch(assertions: seq<Assertion>, shadow: bool, checkpoint: bool, full: bool, deadline: int,
                         interval: int)

  /** Sleeping really lets the time pass: the next turn's clock is later by the poll interval, or at the deadline. */
  ghost predicate SleepAdvances(turns: nat -> Turn, w: Watch) {
    forall k: nat :: turns(k).now < w.deadline ==>
      turns(k + 1).now >= w.deadline || turns(k + 1).now >= turns(k).now + w.interval
  }

  predicate Proven(s: Snapshot) { s.sourceReady && s.auditReady }

  ghost predicate Holding(w: Watch, s: Snapshot) {
    Proven(s) && Satisfied(w.assertions, s, w.shadow)
  }

  /** The turn's evidence holds, so that it is read again after the stabilization sleep. */
  ghost predicate Rereads(w: Watch, t: Turn) {
    !w.full && t.snapshot.Some? && Holding(w, t.snapshot.value)
  }

  /** The turn satisfies the assertions and they still hold after the stabilization sleep. */
  ghost predicate Settles(w: Watch, t: Turn) {
    Rereads(w, t) && t.stabilized && t.stable.Some? && Satisfied(w.assertions, t.stable.value, w.shadow)
  }

  /** The read of the turn succeeds, and so do its stabilization sleep and re-read if it has them. */
  ghost predicate Reads(w: Watch, t: Turn) {
    t.snapshot.Some? && (Rereads(w, t) ==> t.stabilized && t.stable.Some?)
  }

  /** The turn ends the observation with an error: a read fails, or the sleep before the next turn. */
  ghost predicate Breaks(w: Watch, t: Turn) {
    !Reads(w, t) || (!Settles(w, t) && t.now < w.deadline && !t.slept)
  }

  ghost predicate LatchesViolation(w: Watch, t: Turn) {
    w.full && t.snapshot.Some? && Violates(w.assertions, t.snapshot.value, w.shadow, w.checkpoint)
  }

  ghost predicate LatchesGap(w: Watch, t: Turn) {
    w.full && t.snapshot.Some? && LacksEpisode(w.assertions, t.snapshot.value, w.shadow)
  }

  /** The evidence the turn leaves behind: its stabilized re-read when there was one. */
  ghost function LastSeen(w: Watch, t: Turn): Option<Snapshot> {
    if Rereads(w, t) then t.stable else t.snapshot
  }

  /** The verdict at the deadline without a latch. */
  ghost function FinalVerdict(w: Watch, last: Snapshot): Verdict {
    if !Proven(last) || SomeVerdict(w.assertions, last, w.shadow, Inconclusive) then Inconclusive
    else if w.checkpoint && SomeVerdict(w.assertions, last, w.shadow, Skipped) then Inconclusive
    else if Satisfied(w.assertions, last, w.shadow) then Pass
    else Fail
  }

  /** Turns that fit before the deadline, rounded up. */
  ghost function Ceiling(span: int, interval: int): nat
    requires interval > 0
  {
    if span <= 0 then 0 else (span + interval - 1) / interval
  }

  lemma {:induction false} CeilingBound(k: nat, span: int, interval: int)
    requires interval > 0 && k * interval < span
    ensures k < Ceiling(span, interval)
  {
    assert span > 0 by { assert k * interval >= 0; }
    var c := (span + interval - 1) / interval;
    assert c * interval >= span;
    assert k >= c ==> k * interval >= c * interval;
  }

  /** No latch is set on the way to a verdict that has none, and a set latch decides it. */
  ghost predicate Decided(w: Watch, turns: nat -> Turn, n: nat, o: Observed)
    requires o.Concluded? && n > 0
  {
    if exists k :: 0 <= k < n && LatchesViolation(w, turns(k)) then
      o.verdict == Fail && exists k :: 0 <= k < n && FirstViolation(w, turns, k) && o.shown == turns(k).snapshot.value
    else if exists k :: 0 <= k < n && LatchesGap(w, turns(k)) then
      o.verdict == Inconclusive && exists k :: 0 <= k < n && FirstGap(w, turns, k) && o.shown == turns(k).snapshot.value
    else
      LastSeen(w, turns(n - 1)) == Some(o.shown) && o.verdict == FinalVerdict(w, o.shown)
  }

  ghost predicate FirstViolation(w: Watch, turns: nat -> Turn, k: nat) {
    LatchesViolation(w, turns(k)) && forall j :: 0 <= j < k ==> !LatchesViolation(w, turns(j))
  }

  ghost predicate FirstGap(w: Watch, turns: nat -> Turn, k: nat) {
    LatchesGap(w, turns(k)) && forall j :: 0 <= j < k ==> !LatchesGap(w, turns(j))
  }

  /** A latch holds the first snapshot that set it, if any turn did. */
  ghost predicate ViolationLatched(w: Watch, turns: nat -> Turn, n: nat, violation: Option<Snapshot>) {
    && (violation.Some? <==> exists k :: 0 <= k < n && LatchesViolation(w, turns(k)))
    && (violation.Some? ==> exists k :: 0 <= k < n && FirstViolation(w, turns, k) && turns(k).snapshot == violation)
  }

  ghost predicate GapLatched(w: Watch, turns: nat -> Turn, n: nat, gap: Option<Snapshot>) {
    && (gap.Some? <==> exists k :: 0 <= k < n && LatchesGap(w, turns(k)))
    && (gap.Some? ==> exists k :: 0 <= k < n && FirstGap(w, turns, k) && turns(k).snapshot == gap)
  }

  ghost predicate Latched(w: Watch, turns: nat -> Turn, n: nat, violation: Option<Snapshot>, gap: Option<Snapshot>) {
    ViolationLatched(w, turns, n, violation) && GapLatched(w, turns, n, gap)
  }

  lemma {:induction false} ViolationStep(w: Watch, turns: nat -> Turn, n: nat, violation: Option<Snapshot>)
    requires ViolationLatched(w, turns, n, violation)
    ensures ViolationLatched(w, turns, n + 1, if violation.None? && LatchesViolation(w, turns(n)) then turns(n).snapshot else violation)
  {
    if violation.Some? {
      var k :| 0 <= k < n && FirstViolation(w, turns, k) && turns(k).snapshot == violation;
      assert k < n + 1;
    } else if LatchesViolation(w, turns(n)) {
      assert FirstViolation(w, turns, n);
    }
  }

  lemma {:induction false} GapStep(w: Watch, turns: nat -> Turn, n: nat, gap: Option<Snapshot>)
    requires GapLatched(w, turns, n, gap)
    ensures GapLatched(w, turns, n + 1, if gap.None? && LatchesGap(w, turns(n)) then turns(n).snapshot else gap)
  {
    if gap.Some? {
      var k :| 0 <= k < n && FirstGap(w, turns, k) && turns(k).snapshot == gap;
      assert k < n + 1;
    } else if LatchesGap(w, turns(n)) {
      assert FirstGap(w, turns, n);
    }
  }

  lemma {:induction false} LatchedStep(w: Watch, turns: nat -> Turn, n: nat, violation: Option<Snapshot>,
                                       gap: Option<Snapshot>)
    requires Latched(w, turns, n, violation, gap)
    ensures Latched(w, turns, n + 1,
                    if violation.None? && LatchesViolation(w, turns(n)) then turns(n).snapshot else violation,
                    if gap.None? && LatchesGap(w, turns(n)) then turns(n).snapshot else gap)
  {
    ViolationStep(w, turns, n, violation);
    GapStep(w, turns, n, gap);
  }

  datatype Ending = Error | Settled(shown: Snapshot) | Seen(last: Snapshot, marks: Marks, violation: Option<Snapshot>,
                                    gap: Option<Snapshot>)

  /** One turn up to the deadline check: an error, an early PASS, or the evidence it leaves with the latches updated. */
  method TakeTurn(w: Watch, t: Turn, violation: Option<Snapshot>, gap: Option<Snapshot>) returns (e: Ending)
    ensures e.Settled? <==> Supported(w.assertions) && Settles(w, t)
    ensures e.Settled? ==> t.stable == Some(e.shown)
    ensures e.Seen? <==> Supported(w.assertions) && Unsettled(w, t)
    ensures e.Seen? ==> LastSeen(w, t) == Some(e.last) && Marked(w.assertions, e.last, w.shadow, w.checkpoint, e.marks)
    ensures e.Seen? ==> e.violation == if violation.None? && LatchesViolation(w, t) then t.snapshot else violation
    ensures e.Seen? ==> e.gap == if gap.None? && LatchesGap(w, t) then t.snapshot else gap
  {
    if t.snapshot.None? { return Error; }
    var snapshot := t.snapshot.value;
    var m := Mark(w.assertions, snapshot, w.shadow, w.checkpoint);
    if m.None? { return Error; }
    var gap', violation' := gap, violation;
    if w.full && gap.None? && m.value.lacksEpisode { gap' := Some(snapshot); }
    if w.full && violation.None? && m.value.violates { violation' := Some(snapshot); }
    if !w.full && snapshot.sourceReady && snapshot.auditReady && m.value.satisfied {
      if !t.stabilized || t.stable.None? { return Error; }
      var again := Mark(w.assertions, t.stable.value, w.shadow, w.checkpoint);
      if again.value.satisfied { return Settled(t.stable.value); }
      return Seen(t.stable.value, again.value, violation', gap');
    }
    e := Seen(snapshot, m.value, violation', gap');
  }

  method Conclude(w: Watch, last: Snapshot, marks: Marks, violation: Option<Snapshot>, gap: Option<Snapshot>)
    returns (o: Observed)
    requires Marked(w.assertions, last, w.shadow, w.checkpoint, marks)
    ensures o.Concluded? && !o.early
    ensures if violation.Some? then o.verdict == Fail && o.shown == violation.value
            else if gap.Some? then o.verdict == Inconclusive && o.shown == gap.value
            else o.verdict == FinalVerdict(w, last) && o.shown == last
  {
    if violation.Some? { return Concluded(Fail, violation.value, false); }
    if gap.Some? { return Concluded(Inconclusive, gap.value, false); }
    if !last.sourceReady || !last.auditReady { return Concluded(Inconclusive, last, false); }
    if marks.inconclusive { return Concluded(Inconclusive, last, false); }
    if w.checkpoint && marks.skipped { return Concluded(Inconclusive, last, false); }
    if marks.satisfied { return Concluded(Pass, last, false); }
    o := Concluded(Fail, last, false);
  }

  /** The turn neither failed nor settled. */
  ghost predicate Unsettled(w: Watch, t: Turn) {
    Reads(w, t) && !Settles(w, t)
  }

  /** Either the assertions held before and after a stabilization sleep, or the deadline was reached and the latches
      decided. */
  ghost predicate Justified(w: Watch, turns: nat -> Turn, polls: nat, o: Observed)
    requires o.Concluded? && polls > 0
  {
    if o.early then Settles(w, turns(polls - 1)) && o.verdict == Pass && turns(polls - 1).stable == Some(o.shown)
    else Unsettled(w, turns(polls - 1)) && turns(polls - 1).now >= w.deadline && Decided(w, turns, polls, o)
  }

  method Poll(w: Watch, turns: nat -> Turn) returns (o: Observed, polls: nat)
    requires w.interval > 0 && SleepAdvances(turns, w)
    ensures 0 < polls <= Ceiling(w.deadline - turns(0).now, w.interval) + 1
    ensures Polled(w, turns, polls - 1) && (!Supported(w.assertions) ==> polls == 1)
    ensures o.Broken? <==> !Supported(w.assertions) || Breaks(w, turns(polls - 1))
    ensures o.Concluded? ==> Justified(w, turns, polls, o)
  {
    var violation, gap := None, None;
    ghost var bound := Ceiling(w.deadline - turns(0).now, w.interval);
    var k := 0;
    while true
      invariant Polled(w, turns, k) && Latched(w, turns, k, violation, gap)
      invariant OnTime(w, turns, k) && k <= bound && (k > 0 ==> Supported(w.assertions))
      decreases bound - k
    {
      var e := TakeTurn(w, turns(k), violation, gap);
      if e.Error? { return Broken, k + 1; }
      if e.Settled? { return Concluded(Pass, e.shown, true), k + 1; }
      LatchedStep(w, turns, k, violation, gap);
      violation, gap := e.violation, e.gap;
      if turns(k).now >= w.deadline {
        o := Conclude(w, e.last, e.marks, violation, gap);
        JustifiedAtDeadline(w, turns, k + 1, violation, gap, o);
        return o, k + 1;
      }
      if !turns(k).slept { return Broken, k + 1; }
      OnTimeStep(w, turns, k);
      k := k + 1;
    }
  }

  /** Every turn so far neither failed nor settled, ended before the deadline and slept. */
  ghost predicate Polled(w: Watch, turns: nat -> Turn, k: nat) {
    forall j :: 0 <= j < k ==> Unsettled(w, turns(j)) && turns(j).now < w.deadline && turns(j).slept
  }

  /** The clock has advanced by the poll interval for every turn, or reached the deadline. */
  ghost predicate OnTime(w: Watch, turns: nat -> Turn, k: nat) {
    turns(k).now >= w.deadline || turns(k).now >= turns(0).now + k * w.interval
  }

  lemma {:induction false} OnTimeStep(w: Watch, turns: nat -> Turn, k: nat)
    requires w.interval > 0 && SleepAdvances(turns, w) && OnTime(w, turns, k) && turns(k).now < w.deadline
    ensures OnTime(w, turns, k + 1) && k < Ceiling(w.deadline - turns(0).now, w.interval)
  {
    CeilingBound(k, w.deadline - turns(0).now, w.interval);
    assert (k + 1) * w.interval == k * w.interval + w.interval;
  }

  lemma {:induction false} JustifiedAtDeadline(w: Watch, turns: nat -> Turn, n: nat, violation: Option<Snapshot>,
                                               gap: Option<Snapshot>, o: Observed)
    requires n > 0 && o.Concluded? && !o.early && Latched(w, turns, n, violation, gap)
    requires Unsettled(w, turns(n - 1)) && turns(n - 1).now >= w.deadline
    requires if violation.Some? then o.verdict == Fail && o.shown == violation.value
             else if gap.Some? then o.verdict == Inconclusive && o.shown == gap.value
             else LastSeen(w, turns(n - 1)) == Some(o.shown) && o.verdict == FinalVerdict(w, o.shown)
    ensures Justified(w, turns, n, o)
  {
  }

  // ---------- what a verdict means ----------

  /** The inputs of one observation; the window of the options applies to the final observation only. */
  datatype Item = Item(assertions: seq<Assertion>, unmatchedControl: bool, window: int)

  function WindowOf(item: Item, option: int, checkpoint: bool): int {
    if !checkpoint && option > 0 then option else if item.window > 0 then item.window else DEFAULT_WINDOW
  }

  ghost predicate FullWindow(item: Item, checkpoint: bool) {
    checkpoint || item.unmatchedControl || exists a :: a in item.assertions && a.equals == 0
  }

  /** An instant of 0 is the zero time; then the observation starts at `now`. */
  ghost function WatchOf(item: Item, option: int, injectedAt: int, now: int, dispatching: bool, checkpoint: bool,
                         interval: int): Watch {
    Watch(item.assertions, !dispatching, checkpoint, FullWindow(item, checkpoint),
          (if injectedAt == 0 then now else injectedAt) + WindowOf(item, option, checkpoint), interval)
  }

  method Observe(item: Item, option: int, injectedAt: int, now: int, dispatching: bool, checkpoint: bool, interval: int,
                 turns: nat -> Turn)
    returns (o: Observed, polls: nat, w: Watch)
    requires interval > 0
    requires SleepAdvances(turns, WatchOf(item, option, injectedAt, now, dispatching, checkpoint, interval))
    ensures w == WatchOf(item, option, injectedAt, now, dispatching, checkpoint, interval)
    ensures polls > 0
    ensures ((if injectedAt == 0 then now else injectedAt) <= turns(0).now ==>
      polls <= Ceiling(WindowOf(item, option, checkpoint), interval) + 1)
    ensures Polled(w, turns, polls - 1) && (!Supported(w.assertions) ==> polls == 1)
    ensures o.Broken? <==> !Supported(w.assertions) || Breaks(w, turns(polls - 1))
    ensures o.Concluded? ==> Justified(w, turns, polls, o)
    ensures o.Concluded? && o.early ==>
      !checkpoint && !item.unmatchedControl && forall a :: a in item.assertions ==> a.equals != 0
  {
    var window := item.window;
    if !checkpoint && option > 0 { window := option; }
    if window <= 0 { window := DEFAULT_WINDOW; }
    var deadline := injectedAt + window;
    if injectedAt == 0 { deadline := now + window; }
    var zero := RequiresFullWindow(item.assertions);
    w := Watch(item.assertions, !dispatching, checkpoint, checkpoint || item.unmatchedControl || zero, deadline,
               interval);
    o, polls := Poll(w, turns);
    CeilingMonotone(deadline - turns(0).now, window, interval);
  }

  lemma {:induction false} CeilingMonotone(a: int, b: int, interval: int)
    requires interval > 0
    ensures a <= b ==> Ceiling(a, interval) <= Ceiling(b, interval)
  {
    if 0 < a <= b {
      var p, q := (a + interval - 1) / interval, (b + interval - 1) / interval;
      assert p * interval <= a + interval - 1 < (q + 1) * interval;
      assert p >= q + 1 ==> p * interval >= (q + 1) * interval;
    }
  }

  /** A PASS over a full window: the deadline passed, no poll ever violated or lacked a zero count, and the last
      evidence is complete. */
  lemma {:induction false} FullWindowPass(w: Watch, turns: nat -> Turn, polls: nat, o: Observed)
    requires polls > 0 && o.Concluded? && w.full && Justified(w, turns, polls, o)
    ensures !o.early && turns(polls - 1).now >= w.deadline
    ensures o.verdict == Pass <==>
      && (forall k :: 0 <= k < polls ==> !LatchesViolation(w, turns(k)) && !LatchesGap(w, turns(k)))
      && turns(polls - 1).snapshot.Some? && FinalVerdict(w, turns(polls - 1).snapshot.value) == Pass
    ensures o.verdict == Pass ==>
      Proven(o.shown) && Satisfied(w.assertions, o.shown, w.shadow) && turns(polls - 1).snapshot == Some(o.shown)
    ensures o.verdict == Pass && w.checkpoint ==> forall a :: a in w.assertions ==>
      VerdictOf(a, o.shown, w.shadow) == Pass
  {
    if o.verdict == Pass && w.checkpoint {
      forall a | a in w.assertions ensures VerdictOf(a, o.shown, w.shadow) == Pass {
        assert !SomeVerdict(w.assertions, o.shown, w.shadow, Skipped);
      }
    }
  }

  /** A FAIL names its evidence: the first violating poll of a full window, or complete final evidence that differs
      from a declared count. */
  lemma {:induction false} FailNamesEvidence(w: Watch, turns: nat -> Turn, polls: nat, o: Observed)
    requires polls > 0 && o.Concluded? && Justified(w, turns, polls, o) && o.verdict == Fail
    ensures (exists k :: 0 <= k < polls && FirstViolation(w, turns, k) && turns(k).snapshot == Some(o.shown))
      || (Proven(o.shown) && !Satisfied(w.assertions, o.shown, w.shadow))
  {
  }

  /** Without a full window no latch is ever set, and a PASS is two satisfying evaluations around a sleep or a
      satisfying one at the deadline. */
  lemma {:induction false} OpenWindowPass(w: Watch, turns: nat -> Turn, polls: nat, o: Observed)
    requires polls > 0 && o.Concluded? && !w.full && Justified(w, turns, polls, o) && o.verdict == Pass
    ensures Satisfied(w.assertions, o.shown, w.shadow)
    ensures o.early ==>
      Holding(w, turns(polls - 1).snapshot.value) && turns(polls - 1).stabilized && turns(polls - 1).stable == Some(o.shown)
    ensures !o.early ==> Proven(o.shown) && turns(polls - 1).now >= w.deadline
  {
  }

  /** The window: for a checkpoint its own, for the final observation the option when there is one; 35 seconds when there is
      neither. The deadline is that long after the injection, or after now when the injection is unknown. */
  lemma WindowLaws(item: Item, option: int, injectedAt: int, now: int, dispatching: bool, checkpoint: bool, interval: int)
    ensures var w := WatchOf(item, option, injectedAt, now, dispatching, checkpoint, interval);
            && (!checkpoint && option > 0 ==> w.deadline == (if injectedAt == 0 then now else injectedAt) + option)
            && ((checkpoint || option <= 0) && item.window > 0 ==>
                  w.deadline == (if injectedAt == 0 then now else injectedAt) + item.window)
            && ((checkpoint || option <= 0) && item.window <= 0 ==>
                  w.deadline == (if injectedAt == 0 then now else injectedAt) + 35_000_000_000)
    ensures var w := WatchOf(item, option, injectedAt, now, dispatching, checkpoint, interval);
            && (w.shadow <==> !dispatching) && w.checkpoint == checkpoint && w.interval == interval
            && (!w.full <==> !checkpoint && !item.unmatchedControl && forall a :: a in item.assertions ==> a.equals != 0)
  {
  }

  /** Everything the assertions need is known; a checkpoint also skips none. */
  ghost predicate Known(w: Watch, s: Snapshot) {
    && s.sourceReady && s.auditReady
    && forall a :: a in w.assertions ==>
         VerdictOf(a, s, w.shadow) != Inconclusive && (w.checkpoint ==> VerdictOf(a, s, w.shadow) != Skipped)
  }

  /** The verdict at the deadline: FAIL exactly when a poll violated, or, with no gap before, everything is known and some
      assertion fails or none is scored; PASS exactly when nothing was latched, everything is known and every scored
      assertion of at least one passes. */
  lemma {:induction false} DeadlineVerdict(w: Watch, turns: nat -> Turn, polls: nat, o: Observed)
    requires polls > 0 && o.Concluded? && !o.early && Justified(w, turns, polls, o)
    ensures var violated := exists k :: 0 <= k < polls && LatchesViolation(w, turns(k));
            var gap := exists k :: 0 <= k < polls && LatchesGap(w, turns(k));
            && (o.verdict == Fail <==>
                  violated || (!gap && Known(w, o.shown)
                               && (SomeVerdict(w.assertions, o.shown, w.shadow, Fail) || NoneScored(w, o.shown))))
            && (o.verdict == Pass <==>
                  !violated && !gap && Known(w, o.shown)
                  && !SomeVerdict(w.assertions, o.shown, w.shadow, Fail) && !NoneScored(w, o.shown))
            && o.verdict != Skipped
  {
    if LastSeen(w, turns(polls - 1)) == Some(o.shown) && o.verdict == FinalVerdict(w, o.shown) {
      FinalMeans(w, o.shown);
    }
  }

  ghost predicate NoneScored(w: Watch, s: Snapshot) {
    forall a :: a in w.assertions ==> VerdictOf(a, s, w.shadow) == Skipped
  }

  lemma {:induction false} FinalMeans(w: Watch, s: Snapshot)
    ensures FinalVerdict(w, s) == Fail <==>
      Known(w, s) && (SomeVerdict(w.assertions, s, w.shadow, Fail) || NoneScored(w, s))
    ensures FinalVerdict(w, s) == Pass <==>
      Known(w, s) && !SomeVerdict(w.assertions, s, w.shadow, Fail) && !NoneScored(w, s)
    ensures FinalVerdict(w, s) != Skipped
  {
  }
}
