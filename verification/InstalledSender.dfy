/** Record before send: the installed sender, its durable journal, and what survives a crash at any point. */
module InstalledSender {
  import opened Common

  datatype Class = Forwarded | Indeterminate

  /** The outcome stored for an attempt: the class of the result and whether the transport reported an error. */
  datatype Outcome = Outcome(class_: Class, transportError: bool)

  /** One durable attempt; its index is its position. `None` stays unknown. */
  datatype Attempt = Attempt(outcome: Option<Outcome>)

  predicate IsForwarded(a: Attempt) {
    a.outcome == Some(Outcome(Forwarded, false))
  }

  ghost predicate AllForwarded(attempts: seq<Attempt>) {
    forall i :: 0 <= i < |attempts| ==> IsForwarded(attempts[i])
  }

  /** What is durable or has left the process: the journal and the POSTs on the wire. */
  datatype Durable = Durable(attempts: seq<Attempt>, wire: seq<nat>)

  // ---------- the protocol as a state machine ----------

  ghost predicate RecordStep(d: Durable, d': Durable) {
    && (forall i :: 0 <= i < |d.attempts| ==> IsForwarded(d.attempts[i]))
    && d' == Durable(d.attempts + [Attempt(None)], d.wire)
  }

  ghost predicate PostStep(d: Durable, d': Durable) {
    && d.attempts != [] && d.attempts[|d.attempts| - 1].outcome.None? && |d.attempts| - 1 !in d.wire
    && d' == Durable(d.attempts, d.wire + [|d.attempts| - 1])
  }

  ghost predicate CompleteStep(d: Durable, d': Durable) {
    && d.attempts != [] && |d'.attempts| == |d.attempts| && d'.wire == d.wire
    && var last := |d.attempts| - 1;
       d.attempts[last].outcome.None? && d'.attempts == d.attempts[last := d'.attempts[last]]
       && (IsForwarded(d'.attempts[last]) ==> last in d.wire)
  }

  ghost predicate Step(d: Durable, d': Durable) {
    RecordStep(d, d') || PostStep(d, d') || CompleteStep(d, d')
  }

  /** A run: every durable or wire effect is one step. A crash stops the run after any of its states. */
  ghost predicate Path(trace: seq<Durable>) {
    trace != [] && trace[0] == Durable([], []) && forall k :: 0 < k < |trace| ==> Step(trace[k - 1], trace[k])
  }

  /** The safety of a state: attempts are a contiguous prefix, all but the last forwarded; the POSTs are exactly the
      attempts
      in order, once each, with at most the last not yet (or never) sent. */
  ghost predicate Safe(d: Durable) {
    && (forall i :: 0 <= i < |d.attempts| - 1 ==> IsForwarded(d.attempts[i]))
    && (forall i :: 0 <= i < |d.attempts| && IsForwarded(d.attempts[i]) ==> i < |d.wire|)
    && (forall i :: 0 <= i < |d.wire| ==> d.wire[i] == i)
    && |d.wire| <= |d.attempts| <= |d.wire| + 1
  }

  lemma StepKeepsSafe(d: Durable, d': Durable)
    requires Safe(d) && Step(d, d')
    ensures Safe(d')
  {
    if RecordStep(d, d') {
      if d.attempts != [] { assert IsForwarded(d.attempts[|d.attempts| - 1]); }
    } else if PostStep(d, d') {
      forall i | 0 <= i < |d.wire| ensures i in d.wire { assert d.wire[i] == i; }
    } else {
      var last := |d.attempts| - 1;
      assert forall i :: 0 <= i < last ==> d'.attempts[i] == d.attempts[i];
      if IsForwarded(d'.attempts[last]) { assert last in d.wire; }
    }
  }

  /** Every state of every run is safe, wherever it crashes. */
  lemma {:induction false} EveryStateSafe(trace: seq<Durable>, k: nat)
    requires Path(trace) && k < |trace|
    ensures Safe(trace[k])
  {
    if k > 0 {
      EveryStateSafe(trace, k - 1);
      StepKeepsSafe(trace[k - 1], trace[k]);
    }
  }

  /** An attempt whose stored outcome is not a clean forward. */
  ghost predicate Uncertain(d: Durable) {
    d.attempts != [] && d.attempts[|d.attempts| - 1].outcome.Some? && !IsForwarded(d.attempts[|d.attempts| - 1])
  }

  lemma UncertainBlocks(d: Durable, d': Durable)
    requires Uncertain(d)
    ensures !Step(d, d')
  {
    assert !IsForwarded(d.attempts[|d.attempts| - 1]);
  }

  /** A stored uncertain outcome ends the run: nothing is recorded, sent or completed after it. */
  lemma UncertainIsFinal(trace: seq<Durable>, k: nat)
    requires Path(trace) && k < |trace| && Uncertain(trace[k])
    ensures k == |trace| - 1
  {
    if k + 1 < |trace| { UncertainBlocks(trace[k], trace[k + 1]); }
  }

  /** Nothing recorded is ever forgotten and nothing sent is ever sent again: journal and wire only grow, and stored
      outcomes stay. */
  lemma {:induction false} HistoryGrows(trace: seq<Durable>, j: nat, k: nat)
    requires Path(trace) && j <= k < |trace|
    ensures |trace[j].attempts| <= |trace[k].attempts| && trace[j].wire <= trace[k].wire
    ensures forall i :: 0 <= i < |trace[j].attempts| && trace[j].attempts[i].outcome.Some? ==>
      trace[k].attempts[i] == trace[j].attempts[i]
    decreases k
  {
    if j < k {
      HistoryGrows(trace, j, k - 1);
      assert Step(trace[k - 1], trace[k]);
    }
  }

  // ---------- cleanup responsibility ----------

  datatype Cleanup = NotRequired | Dirty | Unknown

  method InstalledSnapshotCleanup(attempts: seq<Attempt>) returns (r: Cleanup)
    ensures r == NotRequired <==> attempts == []
    ensures r == Dirty <==> attempts != [] && forall i :: 0 <= i < |attempts| ==> IsForwarded(attempts[i])
  {
    if |attempts| == 0 { return NotRequired; }
    var i := 0;
    while i < |attempts|
      invariant 0 <= i <= |attempts|
      invariant forall j :: 0 <= j < i ==> IsForwarded(attempts[j])
    {
      var a := attempts[i];
      if a.outcome.None? || a.outcome.value.transportError || a.outcome.value.class_ != Forwarded { return Unknown; }
      i := i + 1;
    }
    return Dirty;
  }

  /** How the final read of the journal turned out. */
  datatype SnapshotRead = Snapshot(attempts: seq<Attempt>) | NoRows(savedUnknown: bool) | ReadFailed

  /** The responsibility a finished run reports. */
  method FinishCleanup(read: SnapshotRead) returns (r: Cleanup, failed: bool)
    ensures failed <==> read.ReadFailed?
    ensures r == NotRequired <==> (read.Snapshot? && read.attempts == []) || (read.NoRows? && !read.savedUnknown)
    ensures r == Dirty <==>
      read.Snapshot? && read.attempts != [] && forall i :: 0 <= i < |read.attempts| ==> IsForwarded(read.attempts[i])
  {
    failed := false;
    match read {
      case Snapshot(attempts) => r := InstalledSnapshotCleanup(attempts);
      case NoRows(savedUnknown) => r := if savedUnknown then Unknown else NotRequired;
      case ReadFailed => r, failed := Unknown, true;
    }
  }

  /** A reported NOT_REQUIRED is safe: in any state of any run, an empty journal means nothing was ever sent; and a
      journal
      that reads DIRTY was sent completely, every attempt exactly once. */
  lemma CleanupTruthful(trace: seq<Durable>, k: nat)
    requires Path(trace) && k < |trace|
    ensures trace[k].attempts == [] ==> trace[k].wire == []
    ensures (forall i :: 0 <= i < |trace[k].attempts| ==> IsForwarded(trace[k].attempts[i])) ==>
              |trace[k].wire| == |trace[k].attempts| && forall i :: 0 <= i < |trace[k].wire| ==> trace[k].wire[i] == i
  {
    EveryStateSafe(trace, k);
    var d := trace[k];
    if d.attempts != [] && forall i :: 0 <= i < |d.attempts| ==> IsForwarded(d.attempts[i]) {
      assert IsForwarded(d.attempts[|d.attempts| - 1]);
    }
  }

  // ---------- the journal ----------

  /** How a transaction ended: refused, committed, or committed although the caller saw an error. */
  datatype Commit = Refused | Committed | CommittedWithError

  class Journal {
    var attempts: seq<Attempt>
    ghost var wire: seq<nat>
    ghost var trace: seq<Durable>

    constructor ()
      ensures Valid() && attempts == [] && wire == []
    {
      attempts, wire, trace := [], [], [Durable([], [])];
    }

    /** The trace is a run that ends in the present state. */
    ghost predicate Valid()
      reads this
    {
      Path(trace) && trace[|trace| - 1] == Durable(attempts, wire)
    }

    /** RecordInstalledPackAttempt: only the next index, only after forwarded attempts. */
    method Record(index: nat, commit: Commit) returns (ok: bool)
      requires Valid()
      modifies this
      ensures Valid() && old(trace) <= trace && wire == old(wire)
      ensures attempts == if index == |old(attempts)| && commit != Refused && AllForwarded(old(attempts))
                          then old(attempts) + [Attempt(None)] else old(attempts)
      ensures ok ==> index == |old(attempts)| && attempts == old(attempts) + [Attempt(None)]
      ensures ok <==>
        index == |old(attempts)| && commit == Committed && forall i :: 0 <= i < |old(attempts)| ==> IsForwarded(old(attempts)[i])
      ensures |old(attempts)| !in wire
    {
      EveryStateSafe(trace, |trace| - 1);
      if index != |attempts| { return false; }
      var i := 0;
      while i < |attempts|
        invariant 0 <= i <= |attempts|
        invariant forall j :: 0 <= j < i ==> IsForwarded(attempts[j])
      {
        var a := attempts[i];
        if a.outcome.None? || a.outcome.value.class_ != Forwarded || a.outcome.value.transportError { return false; }
        i := i + 1;
      }
      if commit == Refused { return false; }
      attempts := attempts + [Attempt(None)];
      trace := trace + [Durable(attempts, wire)];
      return commit == Committed;
    }

    /** CompleteInstalledPackAttempt: only an unresolved attempt gets an outcome. */
    method Complete(index: nat, outcome: Outcome, commit: Commit) returns (ok: bool)
      requires Valid() && (outcome == Outcome(Forwarded, false) ==> index in wire)
      modifies this
      ensures Valid() && old(trace) <= trace && wire == old(wire)
      ensures ok <==> index < |old(attempts)| && old(attempts)[index].outcome.None? && commit == Committed
      ensures attempts == if index < |old(attempts)| && old(attempts)[index].outcome.None? && commit != Refused
                          then old(attempts)[index := Attempt(Some(outcome))] else old(attempts)
    {
      if index >= |attempts| || attempts[index].outcome.Some? { return false; }
      if commit == Refused { return false; }
      EveryStateSafe(trace, |trace| - 1);
      assert forall i :: 0 <= i < |attempts| - 1 ==> attempts[i].outcome.Some?;
      attempts := attempts[index := Attempt(Some(outcome))];
      trace := trace + [Durable(attempts, wire)];
      return commit == Committed;
    }

    /** The POST of the attempt just recorded leaves the process. */
    ghost method Posted()
      requires Valid() && attempts != [] && attempts[|attempts| - 1].outcome.None? && |attempts| - 1 !in wire
      modifies `wire, `trace
      ensures Valid() && old(trace) <= trace && wire == old(wire) + [|attempts| - 1]
    {
      wire := wire + [|attempts| - 1];
      trace := trace + [Durable(attempts, wire)];
    }
  }

  // ---------- the sender ----------

  datatype Response = TransportError | Answer(status: int, exactOk: bool, revisions: seq<string>)

  /** One call's environment: cancellation and clock readings at each check, the recorder's transaction, the response.
      */
  datatype Send = Send(cancelled: bool, now: int, commit: Commit, cancelledAfter: bool, nowAfter: int,
                       response: Response, cancelledEnd: bool,
                       nowEnd: int)

  class InstalledPackInput {
    const count: nat
    const startsAt: int
    const deadline: int
    const revision: string
    var next: nat
    var stopped: bool

    constructor (count: nat, startsAt: int, deadline: int, revision: string)
      ensures next == 0 && !stopped && this.count == count
    {
      this.count, this.startsAt, this.deadline, this.revision := count, startsAt, deadline, revision;
      next, stopped := 0, false;
    }

    predicate InWindow(now: int) { startsAt <= now < deadline }

    predicate Acknowledged(s: Send) {
      && s.response.Answer? && !s.cancelledEnd && InWindow(s.nowEnd)
      && s.response.exactOk && s.response.status == 200 && s.response.revisions == [revision]
    }

    /** Everything a call needs to end as forwarded: uncancelled, in the window throughout, recorded, exactly
        acknowledged. */
    predicate Confirmed(s: Send) {
      && !s.cancelled && InWindow(s.now) && s.commit == Committed && !s.cancelledAfter && InWindow(s.nowAfter)
      && Acknowledged(s)
    }

    /** The call gets as far as its recorder. */
    ghost predicate Reaches(s: Send) { !s.cancelled && InWindow(s.now) }

    /** The request leaves the process. */
    ghost predicate Posts(s: Send) {
      Reaches(s) && s.commit == Committed && !s.cancelledAfter && InWindow(s.nowAfter)
    }

    /** What an input that ends the loop leaves in the journal: nothing unless its recorder committed; an attempt without
        outcome when the recorder or the completing transaction did not answer for it; else its stored outcome. */
    ghost function Leaves(slept: bool, s: Send, complete: Commit): seq<Attempt> {
      if !slept || !Reaches(s) || s.commit == Refused then []
      else if s.commit == CommittedWithError || complete == Refused then [Attempt(None)]
      else if Confirmed(s) then [Attempt(Some(Outcome(Forwarded, false)))]
      else [Attempt(Some(Outcome(Indeterminate, true)))]
    }

    /** Records, then sends, once; anything but an exact acknowledgement inside the window stops the sender for good. */
    method SendRecorded(j: Journal, index: int, s: Send) returns (class_: Class, error: bool, recorded: bool)
      requires j.Valid()
      modifies this, j
      ensures j.Valid() && old(j.trace) <= j.trace
      ensures class_ == Forwarded <==> !error
      ensures recorded ==> 0 <= index == |old(j.attempts)| && j.attempts == old(j.attempts) + [Attempt(None)]
      ensures j.attempts ==
        if !old(stopped) && index == old(next) < count && Reaches(s) && index == |old(j.attempts)| && s.commit != Refused
           && AllForwarded(old(j.attempts)) then old(j.attempts) + [Attempt(None)] else old(j.attempts)
      ensures recorded <==>
        && !old(stopped) && index == old(next) < count && !s.cancelled && InWindow(s.now)
        && index == |old(j.attempts)| && s.commit == Committed
        && forall i :: 0 <= i < |old(j.attempts)| ==> IsForwarded(old(j.attempts)[i])
      ensures j.wire == if recorded && !s.cancelledAfter && InWindow(s.nowAfter) then old(j.wire) + [index] else old(j.wire)
      ensures class_ == Forwarded <==> recorded && !s.cancelledAfter && InWindow(s.nowAfter) && Acknowledged(s)
      ensures next == if class_ == Forwarded then old(next) + 1 else old(next)
      ensures class_ == Forwarded ==> !stopped && index in j.wire
      ensures old(stopped) ==> stopped && j.attempts == old(j.attempts) && j.wire == old(j.wire)
      ensures class_ != Forwarded && !old(stopped) && index == old(next) < count ==> stopped
    {
      class_, error, recorded := Indeterminate, true, false;
      if stopped || index != next { return; }
      if index >= count { return; }
      stopped := true;
      if s.cancelled { return; }
      if s.now >= deadline || s.now < startsAt { return; }
      recorded := j.Record(index, s.commit);
      if !recorded { return; }
      if s.cancelledAfter { return; }
      if s.nowAfter < startsAt || s.nowAfter >= deadline { return; }
      j.Posted();
      if s.response.TransportError? { return; }
      if s.cancelledEnd || s.nowEnd < startsAt || s.nowEnd >= deadline { return; }
      if !s.response.exactOk || s.response.status != 200 { return; }
      if |s.response.revisions| != 1 || s.response.revisions[0] != revision { return; }
      class_, error := Forwarded, false;
      next := next + 1;
      stopped := false;
    }
  }

  // ---------- the send loop of a run ----------

  /** Recorded, sent and answered inside the window without cancellation, by exactly 200, ok and this revision. */
  ghost predicate ExactlyAcknowledged(s: Send, startsAt: int, deadline: int, revision: string) {
    && s.response == Answer(200, true, [revision]) && s.commit == Committed
    && !s.cancelled && !s.cancelledAfter && !s.cancelledEnd
    && startsAt <= s.now < deadline && startsAt <= s.nowAfter < deadline && startsAt <= s.nowEnd < deadline
  }

  /** The input was confirmed and its outcome stored, so that the loop goes on. */
  ghost predicate GoesOn(input: InstalledPackInput, sends: seq<Send>, completes: seq<Commit>, sleeps: seq<bool>, i: nat)
    requires i < |sends| == |completes| == |sleeps|
  {
    && (i > 0 ==> sleeps[i]) && ExactlyAcknowledged(sends[i], input.startsAt, input.deadline, input.revision)
    && completes[i] == Committed
  }

  /** Input `n` is the first that the loop does not get past, and what journal and wire hold then. */
  ghost predicate StopsAt(input: InstalledPackInput, sends: seq<Send>, completes: seq<Commit>, sleeps: seq<bool>, n: nat,
                          attempts: seq<Attempt>, wire: seq<nat>)
    requires n < |sends| == |completes| == |sleeps|
  {
    var slept := n > 0 ==> sleeps[n];
    && (forall i :: 0 <= i < n ==> GoesOn(input, sends, completes, sleeps, i))
    && !GoesOn(input, sends, completes, sleeps, n)
    && attempts == Confirmations(n) + input.Leaves(slept, sends[n], completes[n])
    && wire == Numbers(n) + if slept && input.Posts(sends[n]) then [n] else []
  }

  /** The journal after `n` confirmed and stored inputs, and their POSTs. */
  ghost function Confirmations(n: nat): seq<Attempt> { seq(n, _ => Attempt(Some(Outcome(Forwarded, false)))) }

  ghost function Numbers(n: nat): seq<nat> { seq(n, i => i) }

  /** Sends every input in order and stores each outcome before the next; stops at the first that is not confirmed. */
  method SendInputs(j: Journal, input: InstalledPackInput, sends: seq<Send>, completes: seq<Commit>, sleeps: seq<bool>)
    returns (ok: bool)
    requires j.Valid() && j.attempts == [] && j.wire == [] && input.next == 0 && !input.stopped
    requires |sends| == |completes| == |sleeps| == input.count
    modifies j, input
    ensures j.Valid() && old(j.trace) <= j.trace
    ensures ok ==> |j.attempts| == input.count && (forall i :: 0 <= i < input.count ==> IsForwarded(j.attempts[i]))
    ensures ok ==> |j.wire| == input.count && forall i :: 0 <= i < input.count ==> j.wire[i] == i
    ensures ok <==> forall i :: 0 <= i < input.count ==> GoesOn(input, sends, completes, sleeps, i)
    ensures !ok ==>
      exists n: nat :: n < input.count && StopsAt(input, sends, completes, sleeps, n, j.attempts, j.wire)
  {
    var index := 0;
    while index < input.count
      invariant 0 <= index <= input.count
      invariant j.Valid() && old(j.trace) <= j.trace
      invariant j.attempts == Confirmations(index) && j.wire == Numbers(index)
      invariant input.next == index && !input.stopped
      invariant forall i :: 0 <= i < index ==> GoesOn(input, sends, completes, sleeps, i)
    {
      var goes := SendOne(j, input, index, index == 0 || sleeps[index], sends[index], completes[index]);
      assert goes <==> GoesOn(input, sends, completes, sleeps, index);
      if !goes {
        assert StopsAt(input, sends, completes, sleeps, index, j.attempts, j.wire);
        return false;
      }
      index := index + 1;
    }
    return true;
  }

  /** One turn of the loop, for the next input of a journal whose attempts are all forwarded. */
  method SendOne(j: Journal, input: InstalledPackInput, index: nat, slept: bool, s: Send, complete: Commit)
    returns (goes: bool)
    requires j.Valid() && j.attempts == Confirmations(index)
    requires input.next == index < input.count && !input.stopped
    modifies j, input
    ensures j.Valid() && old(j.trace) <= j.trace
    ensures j.attempts == old(j.attempts) + input.Leaves(slept, s, complete)
    ensures j.wire == old(j.wire) + if slept && input.Posts(s) then [index] else []
    ensures goes <==>
      slept && ExactlyAcknowledged(s, input.startsAt, input.deadline, input.revision) && complete == Committed
    ensures goes ==> input.next == index + 1 && !input.stopped
  {
    if !slept { return false; }
    var class_, error, recorded := input.SendRecorded(j, index, s);
    if !recorded { return false; }
    var stored := j.Complete(index, Outcome(class_, error), complete);
    if !stored { return false; }
    if error || class_ != Forwarded { return false; }
    return true;
  }
}
