/** One scenario run: temporary rules, recorded injections, and the cleanup that answers for both. */
module Runner {
  import opened Common
  import opened History
  import opened Injection
  import opened Discovery
  import opened RecoveryLaws

  // ---------- temporary rules ----------

  datatype RemoteRule = RemoteRule(id: int, name: string, pattern: string, description: string)

  /** What the budget, the store and the API answer for one rule; `created` is None when the create call returns an
      error. */
  datatype SetupAnswer = SetupAnswer(inBudget: bool, saved: bool, valid: bool, created: Option<RemoteRule>,
                                     found: Option<seq<RemoteRule>>, adopted: bool)

  datatype Lifecycle = Proposed | Created | Unowned

  datatype Resource = Resource(rule: Rule, externalId: Option<int>, state: Lifecycle)

  /** The rule a create call is answered with: its own reply, or after an error the only rule found that is exactly
      ours. */
  function Returned(rule: Rule, a: SetupAnswer): Option<RemoteRule> {
    if a.created.Some? then a.created
    else if a.found.Some? && |a.found.value| == 1 && a.found.value[0].name == rule.name && a.found.value[0].pattern == rule.pattern
      && a.found.value[0].description == rule.description then Some(a.found.value[0])
    else None
  }

  /** After a create error only one rule, found under the name and equal to ours in name, pattern and description, is taken
      for the one created. */
  lemma ReconciledIff(rule: Rule, a: SetupAnswer, found: RemoteRule)
    requires a.created.None?
    ensures Returned(rule, a) == Some(found) <==>
      a.found == Some([found]) && found.name == rule.name && found.pattern == rule.pattern && found.description == rule.description
  {
    if a.found.Some? && |a.found.value| == 1 { assert a.found.value == [a.found.value[0]]; }
  }

  /** The resource carries the id of a returned rule that bears this rule's name and description. */
  predicate Holds(rule: Rule, a: SetupAnswer, r: Resource) {
    var c := Returned(rule, a);
    c.Some? && c.value.name == rule.name && c.value.description == rule.description && r.externalId == Some(c.value.id)
  }

  /** What a rule leaves in the ledger: after an issued create call the id of the rule that came back as ours, or the note
      that the outcome is unknown; before it nothing. */
  ghost predicate Accounts(rule: Rule, a: SetupAnswer, r: Resource, issued: bool) {
    && r.rule == rule
    && (issued && Owned(rule, a) ==> Holds(rule, a, r) && r.state == if a.adopted then Created else Proposed)
    && (issued && !Owned(rule, a) ==> r.externalId == None && r.state == Unowned)
    && (!issued ==> r.externalId == None && r.state == Proposed)
  }

  /** The rule that came back bears this rule's name and description. */
  ghost predicate Owned(rule: Rule, a: SetupAnswer) {
    var c := Returned(rule, a);
    c.Some? && c.value.name == rule.name && c.value.description == rule.description
  }

  /** The create call for a rule is issued. */
  predicate Issues(a: SetupAnswer) { a.inBudget && a.saved && a.valid }

  /** The rule is created, or reconciled, under its own name and description, and adopted by the store. */
  predicate SetUp(rule: Rule, a: SetupAnswer) {
    var c := Returned(rule, a);
    Issues(a) && c.Some? && c.value.name == rule.name && c.value.description == rule.description && a.adopted
  }

  ghost predicate AllSetUp(cases: seq<Case>, answers: nat -> SetupAnswer, n: nat)
    requires n <= |cases|
  {
    forall i :: 0 <= i < n ==> SetUp(cases[i].rule, answers(i))
  }

  /** Setup succeeded up to rule `i`, whose create call is not held back. */
  ghost predicate IssuedAt(cases: seq<Case>, answers: nat -> SetupAnswer, i: nat) {
    i < |cases| && AllSetUp(cases, answers, i) && Issues(answers(i))
  }

  /** Setup succeeded up to rule `i`, which was written to the store. */
  ghost predicate ListedAt(cases: seq<Case>, answers: nat -> SetupAnswer, i: nat) {
    i < |cases| && AllSetUp(cases, answers, i) && answers(i).inBudget && answers(i).saved
  }

  /** The ledger of a setup: one entry for every rule written to the store, saying what its create call came to. */
  ghost predicate Ledger(cases: seq<Case>, answers: nat -> SetupAnswer, issued: set<nat>, resources: seq<Resource>) {
    && (forall i: nat :: i in issued <==> IssuedAt(cases, answers, i))
    && (forall i: nat :: i < |resources| <==> ListedAt(cases, answers, i))
    && |resources| <= |cases|
    && forall i :: 0 <= i < |resources| ==> Accounts(cases[i].rule, answers(i), resources[i], i in issued)
  }

  lemma {:induction false} StopsAt(cases: seq<Case>, answers: nat -> SetupAnswer, n: nat)
    requires n < |cases| && AllSetUp(cases, answers, n)
    ensures !SetUp(cases[n].rule, answers(n)) ==> forall i: nat :: IssuedAt(cases, answers, i) <==>
      i < n || (i == n && Issues(answers(n)))
    ensures !SetUp(cases[n].rule, answers(n)) ==> forall i: nat :: ListedAt(cases, answers, i) <==>
      i < n || (i == n && answers(n).inBudget && answers(n).saved)
  {
    forall i: nat | i < n ensures IssuedAt(cases, answers, i) && ListedAt(cases, answers, i) {
      assert SetUp(cases[i].rule, answers(i));
    }
  }

  lemma {:induction false} IssuedIsListed(cases: seq<Case>, answers: nat -> SetupAnswer, issued: set<nat>,
                                          resources: seq<Resource>)
    requires Ledger(cases, answers, issued, resources)
    ensures forall i :: i in issued ==> i < |resources|
  {
    forall i | i in issued ensures i < |resources| {
      assert IssuedAt(cases, answers, i);
      assert ListedAt(cases, answers, i);
    }
  }

  method SetupRules(cases: seq<Case>, answers: nat -> SetupAnswer)
    returns (resources: seq<Resource>, ok: bool, ghost issued: set<nat>)
    ensures |resources| <= |cases| && forall i :: 0 <= i < |resources| ==> resources[i].rule == cases[i].rule
    ensures ok <==> AllSetUp(cases, answers, |cases|)
    ensures ok ==> |resources| == |cases| && forall i :: 0 <= i < |cases| ==>
      Holds(cases[i].rule, answers(i), resources[i]) && resources[i].state == Created
    ensures Ledger(cases, answers, issued, resources)
  {
    resources, issued := [], {};
    var i := 0;
    while i < |cases|
      invariant 0 <= i == |resources| <= |cases|
      invariant AllSetUp(cases, answers, i)
      invariant forall j :: j in issued <==> 0 <= j < i
      invariant forall j :: 0 <= j < i ==>
        Holds(cases[j].rule, answers(j), resources[j]) && resources[j].rule == cases[j].rule && resources[j].state == Created
    {
      var rule, a := cases[i].rule, answers(i);
      StopsAt(cases, answers, i);
      if !a.inBudget || !a.saved { return resources, false, issued; }
      resources := resources + [Resource(rule, None, Proposed)];
      if !a.valid { return resources, false, issued; }
      issued := issued + {i};
      var created := a.created;
      if created.None? {
        if a.found.None? || |a.found.value| != 1 || a.found.value[0].name != rule.name || a.found.value[0].pattern != rule.pattern
          || a.found.value[0].description != rule.description
        {
          return resources[i := resources[i].(state := Unowned)], false, issued;
        }
        created := Some(a.found.value[0]);
      }
      if created.value.name != rule.name || created.value.description != rule.description {
        return resources[i := resources[i].(state := Unowned)], false, issued;
      }
      resources := resources[i := resources[i].(externalId := Some(created.value.id))];
      if !a.adopted { return resources, false, issued; }
      resources := resources[i := resources[i].(state := Created)];
      i := i + 1;
    }
    ok := true;
  }

  /** A create call is only issued in budget, for a valid rule that was written to the store, after every earlier rule was
      adopted. */
  lemma {:induction false} IssuedInOrder(cases: seq<Case>, answers: nat -> SetupAnswer, issued: set<nat>,
                                         resources: seq<Resource>, i: nat)
    requires Ledger(cases, answers, issued, resources) && i in issued
    ensures i < |resources| && answers(i).inBudget && answers(i).saved && answers(i).valid
    ensures forall j: nat :: j < i ==> j in issued && answers(j).adopted
  {
    IssuedIsListed(cases, answers, issued, resources);
    assert IssuedAt(cases, answers, i);
    forall j: nat | j < i ensures j in issued && answers(j).adopted {
      assert SetUp(cases[j].rule, answers(j));
      assert IssuedAt(cases, answers, j);
    }
  }

  /** An issued create whose rule did not come back as ours is never cleaned up. */
  lemma {:induction false} UnknownOutcomeDirty(cases: seq<Case>, answers: nat -> SetupAnswer, issued: set<nat>,
                                               resources: seq<Resource>, deletes: nat -> bool, marks: nat -> bool, i: nat)
    requires Ledger(cases, answers, issued, resources) && i in issued && i < |cases|
    requires var c := Returned(cases[i].rule, answers(i));
             c.None? || c.value.name != cases[i].rule.name || c.value.description != cases[i].rule.description
    ensures !RulesGone(resources, deletes, marks)
  {
    IssuedIsListed(cases, answers, issued, resources);
    assert Accounts(cases[i].rule, answers(i), resources[i], true);
    assert !RuleGone(resources[i], deletes(i), marks(i));
  }

  // ---------- sending the planned alerts ----------

  /** One injection: whether everything before it succeeded, the request was prepared and recorded, the context still
      stood, and the result. */
  datatype Call = Call(ready: bool, prepared: bool, recorded: bool, cancelled: bool, result: Result,
                       checkpoint: Checkpoint)

  datatype Checkpoint = NoCheckpoint | CheckpointBroken | CheckpointVerdict(pass: bool)

  datatype Sending = AllSent | SendFailed | CheckpointStopped

  predicate InputAccepted(ordinary: bool, r: Result) {
    !r.error && (r.class_ == Some(Accepted) || (ordinary && r.class_ == Some(Forwarded)))
  }

  /** The attempt that is recorded before an alert is sent; a named source starts at the case's base plus its offset. */
  function Prepared(c: Case, i: nat, base: int): Attempt
    requires i < |c.alerts|
  {
    var alert := c.alerts[i];
    Attempt(c.code, Label(alert.labels, TestEventId), i + 1, Attempted, if alert.episodeOffset.Some? then base + alert.episodeOffset.value else alert.startsAt)
  }

  /** The first `n` attempts of a case, in plan order. */
  ghost function CaseAttempts(c: Case, n: nat, base: int): seq<Attempt>
    requires n <= |c.alerts|
  {
    seq(n, i requires 0 <= i < n => Prepared(c, i, base))
  }

  /** Every attempt of the first `n` cases, in plan order. */
  ghost function PlannedAttempts(cases: seq<Case>, n: nat, base: nat -> int): seq<Attempt>
    requires n <= |cases|
  {
    if n == 0 then []
    else PlannedAttempts(cases, n - 1, base) + CaseAttempts(cases[n - 1], |cases[n - 1].alerts|, base(n - 1))
  }

  ghost function AsRecorded(attempts: seq<Attempt>): (r: seq<Attempt>)
    ensures |r| == |attempts|
  {
    seq(|attempts|, i requires 0 <= i < |attempts| => attempts[i].(sendState := Attempted))
  }

  /** Only the last recorded attempt may be unsettled. */
  ghost predicate OnlyLastUncertain(attempts: seq<Attempt>) {
    forall i :: 0 <= i < |attempts| - 1 ==> attempts[i].sendState == Sent
  }

  /** What left on the wire was recorded first: all the recorded attempts, in order, or all but the last. */
  ghost predicate RecordedFirst(posts: seq<Attempt>, attempts: seq<Attempt>) {
    posts == AsRecorded(attempts) || (attempts != [] && posts == AsRecorded(attempts[..|attempts| - 1]))
  }

  ghost function AsSent(attempts: seq<Attempt>): (r: seq<Attempt>)
    ensures |r| == |attempts|
  {
    seq(|attempts|, i requires 0 <= i < |attempts| => attempts[i].(sendState := Sent))
  }

  predicate Recorded(call: Call) { call.ready && call.prepared && call.recorded }

  predicate Posted(call: Call) { Recorded(call) && !call.cancelled }

  predicate Delivered(ordinary: bool, call: Call) { Posted(call) && InputAccepted(ordinary, call.result) }

  /** The alert was accepted and no checkpoint after it stops the run. */
  predicate Good(ordinary: bool, call: Call) {
    Delivered(ordinary, call) && (call.checkpoint.NoCheckpoint? || call.checkpoint == CheckpointVerdict(true))
  }

  /** Every call before alert `i` of case `n` is good. */
  ghost predicate GoodBefore(cases: seq<Case>, ordinary: bool, calls: (nat, nat) -> Call, n: nat, i: nat) {
    && (forall m, j :: 0 <= m < n && m < |cases| && 0 <= j < |cases[m].alerts| ==> Good(ordinary, calls(m, j)))
    && forall j :: 0 <= j < i ==> Good(ordinary, calls(n, j))
  }

  /** The sending ended at alert `i` of case `n`, the first whose call is not good, and what it left behind. */
  ghost predicate StoppedAt(cases: seq<Case>, base: nat -> int, ordinary: bool, calls: (nat, nat) -> Call, n: nat,
                            i: nat,
                            attempts: seq<Attempt>, posts: seq<Attempt>, outcome: Sending)
    requires n < |cases| && i < |cases[n].alerts|
  {
    var call, last := calls(n, i), Prepared(cases[n], i, base(n));
    var before := PlannedAttempts(cases, n, base) + CaseAttempts(cases[n], i, base(n));
    && GoodBefore(cases, ordinary, calls, n, i) && !Good(ordinary, call)
    && attempts == AsSent(before) + Recording(ordinary, call, last) && posts == before + Posting(call, last)
    && outcome == if Delivered(ordinary, call) && call.checkpoint.CheckpointVerdict? then CheckpointStopped else SendFailed
  }

  /** What one call adds to the recorded attempts, and to the wire. */
  function Recording(ordinary: bool, call: Call, prepared: Attempt): seq<Attempt> {
    if !Recorded(call) then []
    else [prepared.(sendState := if Delivered(ordinary, call) then Sent else Attempted)]
  }

  function Posting(call: Call, prepared: Attempt): seq<Attempt> {
    if Posted(call) then [prepared] else []
  }

  /** Sending goes on after a call exactly when nothing before it failed, it was recorded and posted, the answer was taken,
      and a checkpoint after it, if any, passed. */
  lemma GoodIff(ordinary: bool, call: Call)
    ensures Good(ordinary, call) <==>
      && call.ready && call.prepared && call.recorded && !call.cancelled && !call.result.error
      && (call.result.class_ == Some(Injection.Accepted) || (ordinary && call.result.class_ == Some(Forwarded)))
      && call.checkpoint != CheckpointBroken && call.checkpoint != CheckpointVerdict(false)
  {
  }

  /** Sends one alert; `sent` when it was accepted. */
  method SendOne(ordinary: bool, call: Call, prepared: Attempt, before: seq<Attempt>, ghost postsBefore: seq<Attempt>)
    returns (attempts: seq<Attempt>, ghost posts: seq<Attempt>, sent: bool)
    requires prepared.sendState == Attempted
    ensures attempts == before + Recording(ordinary, call, prepared) && posts == postsBefore + Posting(call, prepared)
    ensures sent <==> Delivered(ordinary, call)
  {
    attempts, posts, sent := before, postsBefore, false;
    if !call.ready || !call.prepared || !call.recorded { return; }
    attempts := attempts + [prepared];
    if call.cancelled { return; }
    posts := posts + [prepared];
    if !InputAccepted(ordinary, call.result) { return; }
    attempts := attempts[|attempts| - 1 := prepared.(sendState := Sent)];
    sent := true;
  }

  method SendAlerts(cases: seq<Case>, base: nat -> int, ordinary: bool, calls: (nat, nat) -> Call)
    returns (attempts: seq<Attempt>, ghost posts: seq<Attempt>, outcome: Sending)
    ensures outcome == AllSent <==> GoodBefore(cases, ordinary, calls, |cases|, 0)
    ensures outcome == AllSent ==>
      attempts == AsSent(PlannedAttempts(cases, |cases|, base)) && posts == PlannedAttempts(cases, |cases|, base)
    ensures outcome != AllSent ==>
      exists n, i :: 0 <= n < |cases| && 0 <= i < |cases[n].alerts|
        && StoppedAt(cases, base, ordinary, calls, n, i, attempts, posts, outcome)
  {
    attempts, posts := [], [];
    var n := 0;
    while n < |cases|
      invariant 0 <= n <= |cases|
      invariant posts == PlannedAttempts(cases, n, base) && attempts == AsSent(posts)
      invariant GoodBefore(cases, ordinary, calls, n, 0)
    {
      var c := cases[n];
      ghost var before := posts;
      var i := 0;
      while i < |c.alerts|
        invariant 0 <= i <= |c.alerts|
        invariant posts == before + CaseAttempts(c, i, base(n)) && attempts == AsSent(posts)
        invariant GoodBefore(cases, ordinary, calls, n, i)
      {
        var call, prepared := calls(n, i), Prepared(c, i, base(n));
        ghost var earlier, wire := attempts, posts;
        var sent;
        attempts, posts, sent := SendOne(ordinary, call, prepared, attempts, posts);
        ghost var stop := if call.checkpoint.CheckpointVerdict? && sent then CheckpointStopped else SendFailed;
        assert !Good(ordinary, call) ==> StoppedAt(cases, base, ordinary, calls, n, i, attempts, posts, stop);
        if !sent { return attempts, posts, SendFailed; }
        match call.checkpoint {
          case NoCheckpoint =>
          case CheckpointBroken => return attempts, posts, SendFailed;
          case CheckpointVerdict(pass) => if !pass { return attempts, posts, CheckpointStopped; }
        }
        assert CaseAttempts(c, i + 1, base(n)) == CaseAttempts(c, i, base(n)) + [prepared];
        SentStep(earlier, wire, attempts, posts, prepared);
        i := i + 1;
      }
      n := n + 1;
    }
    outcome := AllSent;
  }

  lemma SentStep(earlier: seq<Attempt>, wire: seq<Attempt>, attempts: seq<Attempt>, posts: seq<Attempt>,
                 prepared: Attempt)
    requires earlier == AsSent(wire) && attempts == earlier + [prepared.(sendState := Sent)]
    requires posts == wire + [prepared]
    ensures attempts == AsSent(posts)
  {
  }

  /** Whatever the calls: recorded attempts are a prefix of the plan, all but the last accepted, and posts follow
      records; where a checkpoint stops the run all of them were accepted. */
  lemma {:induction false} SendingSound(cases: seq<Case>, base: nat -> int, ordinary: bool, calls: (nat, nat) -> Call,
                                        n: nat, i: nat,
                                        attempts: seq<Attempt>, posts: seq<Attempt>, outcome: Sending)
    requires n < |cases| && i < |cases[n].alerts|
    requires StoppedAt(cases, base, ordinary, calls, n, i, attempts, posts, outcome)
    ensures AsRecorded(attempts) <= PlannedAttempts(cases, |cases|, base)
    ensures RecordedFirst(posts, attempts) && OnlyLastUncertain(attempts)
    ensures outcome == CheckpointStopped ==> posts != [] && attempts == AsSent(posts)
  {
    var before, last := PlannedAttempts(cases, n, base) + CaseAttempts(cases[n], i, base(n)), Prepared(cases[n], i, base(n));
    PlannedPrefix(cases, n, i, base);
    PlannedUnsent(cases, n, base);
    RecordedSent(before);
    if Recorded(calls(n, i)) {
      assert AsRecorded(attempts) == before + [last];
      assert AsRecorded(attempts[..|attempts| - 1]) == before;
    } else {
      assert AsRecorded(attempts) == before;
    }
  }

  lemma RecordedSent(planned: seq<Attempt>)
    requires forall a :: a in planned ==> a.sendState == Attempted
    ensures AsRecorded(AsSent(planned)) == planned && forall a :: a in AsSent(planned) ==> a.sendState == Sent
  {
  }

  lemma {:induction false} PlannedUnsent(cases: seq<Case>, n: nat, base: nat -> int)
    requires n <= |cases|
    ensures forall a :: a in PlannedAttempts(cases, n, base) ==> a.sendState == Attempted
  {
    if n > 0 { PlannedUnsent(cases, n - 1, base); }
  }

  /** The attempts up to an alert, and that alert's, are a prefix of the plan's. */
  lemma {:induction false} PlannedPrefix(cases: seq<Case>, n: nat, i: nat, base: nat -> int)
    requires n < |cases| && i < |cases[n].alerts|
    ensures PlannedAttempts(cases, n, base) + CaseAttempts(cases[n], i, base(n)) <= PlannedAttempts(cases, |cases|, base)
    ensures PlannedAttempts(cases, n, base) + CaseAttempts(cases[n], i, base(n)) + [Prepared(cases[n], i, base(n))] <= PlannedAttempts(cases, |cases|, base)
  {
    CasesPrefix(cases, n + 1, |cases|, base);
    var whole := CaseAttempts(cases[n], |cases[n].alerts|, base(n));
    assert CaseAttempts(cases[n], i, base(n)) == whole[..i];
    assert CaseAttempts(cases[n], i, base(n)) + [Prepared(cases[n], i, base(n))] == whole[..i + 1];
  }

  lemma {:induction false} CasesPrefix(cases: seq<Case>, n: nat, m: nat, base: nat -> int)
    requires n <= m <= |cases|
    ensures PlannedAttempts(cases, n, base) <= PlannedAttempts(cases, m, base)
    decreases m
  {
    if n < m {
      CasesPrefix(cases, n, m - 1, base);
    }
  }

  // ---------- cleanup ----------

  /** The recovery of sent alerts from History; on the normal path it is not asked for. */
  datatype Recovery = NotAsked | Recovered(rows: seq<HistoryRow>, ok: bool)

  datatype Fact = Fact(alertName: string, fingerprint: string, accepted: bool)

  function RecoveredRows(r: Recovery): seq<HistoryRow> { if r.NotAsked? then [] else r.rows }

  /** The rule is gone: deleted by a returned id, or never asked for, and the store says so. */
  predicate RuleGone(r: Resource, deleted: bool, marked: bool) {
    marked && if r.externalId.Some? then r.externalId.value > 0 && deleted else r.state == Proposed
  }

  predicate SafeRow(run: string, row: HistoryRow) {
    Label(row.labels, TestRunId) == run && row.fingerprint != ""
  }

  ghost predicate RulesGone(resources: seq<Resource>, deletes: nat -> bool, marks: nat -> bool) {
    forall i :: 0 <= i < |resources| ==> RuleGone(resources[i], deletes(i), marks(i))
  }

  ghost predicate AlertsResolved(run: string, ordinary: bool, rows: seq<HistoryRow>, resolves: nat -> Result) {
    forall i :: 0 <= i < |rows| ==> SafeRow(run, rows[i]) && InputAccepted(ordinary, resolves(i))
  }

  /** The ids whose delete was accepted, among the first `n` resources and in their order. */
  ghost function Deleted(resources: seq<Resource>, deletes: nat -> bool, n: nat): seq<int>
    requires n <= |resources|
  {
    if n == 0 then []
    else
      var id := resources[n - 1].externalId;
      Deleted(resources, deletes, n - 1) + if id.Some? && id.value > 0 && deletes(n - 1) then [id.value] else []
  }

  /** The API accepted a delete of exactly these ids, each once. */
  ghost predicate DeletesExactly(resources: seq<Resource>, deletes: nat -> bool, deleted: seq<int>) {
    && deleted == Deleted(resources, deletes, |resources|)
    && (forall i :: 0 <= i < |resources| && resources[i].externalId.Some? && resources[i].externalId.value > 0 && deletes(i) ==>
          resources[i].externalId.value in deleted)
    && forall id :: id in deleted ==> exists i :: 0 <= i < |resources| && resources[i].externalId == Some(id) && id > 0 && deletes(i)
  }

  lemma {:induction false} DeletedAre(resources: seq<Resource>, deletes: nat -> bool, n: nat)
    requires n <= |resources|
    ensures forall i :: 0 <= i < n && resources[i].externalId.Some? && resources[i].externalId.value > 0 && deletes(i) ==>
      resources[i].externalId.value in Deleted(resources, deletes, n)
    ensures forall id :: id in Deleted(resources, deletes, n) ==>
      exists i :: 0 <= i < n && resources[i].externalId == Some(id) && id > 0 && deletes(i)
  {
    if n > 0 { DeletedAre(resources, deletes, n - 1); }
  }

  method DeleteRules(resources: seq<Resource>, deletes: nat -> bool, marks: nat -> bool)
    returns (deleted: seq<int>, ok: bool)
    ensures ok <==> RulesGone(resources, deletes, marks)
    ensures DeletesExactly(resources, deletes, deleted)
  {
    deleted, ok := [], true;
    for i := 0 to |resources|
      invariant ok <==> forall j :: 0 <= j < i ==> RuleGone(resources[j], deletes(j), marks(j))
      invariant deleted == Deleted(resources, deletes, i)
    {
      match resources[i].externalId {
        case None =>
          if resources[i].state != Proposed || !marks(i) { ok := false; }
        case Some(id) =>
          if id <= 0 || !deletes(i) {
            ok := false;
          } else {
            deleted := deleted + [id];
            if !marks(i) { ok := false; }
          }
      }
    }
    DeletedAre(resources, deletes, |resources|);
  }

  function FactOf(ordinary: bool, row: HistoryRow, r: Result): Fact {
    Fact(row.alertName, row.fingerprint, InputAccepted(ordinary, r))
  }

  /** The facts of the safe ones among the first `n` rows, in their order. */
  ghost function Facts(run: string, ordinary: bool, rows: seq<HistoryRow>, resolves: nat -> Result, n: nat): seq<Fact>
    requires n <= |rows|
  {
    if n == 0 then []
    else
      Facts(run, ordinary, rows, resolves, n - 1)
      + if SafeRow(run, rows[n - 1]) then [FactOf(ordinary, rows[n - 1], resolves(n - 1))] else []
  }

  /** The facts kept are those of the safe rows, each once, no more. */
  ghost predicate ResolvesExactly(run: string, ordinary: bool, rows: seq<HistoryRow>, resolves: nat -> Result,
                                  resolutions: seq<Fact>) {
    && resolutions == Facts(run, ordinary, rows, resolves, |rows|)
    && (forall i :: 0 <= i < |rows| && SafeRow(run, rows[i]) ==> FactOf(ordinary, rows[i], resolves(i)) in resolutions)
    && forall f :: f in resolutions ==>
         exists i :: 0 <= i < |rows| && SafeRow(run, rows[i]) && f == FactOf(ordinary, rows[i], resolves(i))
  }

  /** Only rows of this run with a fingerprint are ever resolved. */
  lemma {:induction false} ResolvesOnlyOwn(run: string, ordinary: bool, rows: seq<HistoryRow>, resolves: nat -> Result,
                                           resolutions: seq<Fact>, f: Fact)
    requires ResolvesExactly(run, ordinary, rows, resolves, resolutions) && f in resolutions
    ensures exists r :: r in rows && r.fingerprint == f.fingerprint != "" && r.alertName == f.alertName
                        && Label(r.labels, TestRunId) == run
  {
    var i :| 0 <= i < |rows| && SafeRow(run, rows[i]) && f == FactOf(ordinary, rows[i], resolves(i));
    assert rows[i] in rows;
  }

  lemma {:induction false} FactsAre(run: string, ordinary: bool, rows: seq<HistoryRow>, resolves: nat -> Result, n: nat)
    requires n <= |rows|
    ensures forall i :: 0 <= i < n && SafeRow(run, rows[i]) ==>
      FactOf(ordinary, rows[i], resolves(i)) in Facts(run, ordinary, rows, resolves, n)
    ensures forall f :: f in Facts(run, ordinary, rows, resolves, n) ==>
      exists i :: 0 <= i < n && SafeRow(run, rows[i]) && f == FactOf(ordinary, rows[i], resolves(i))
  {
    if n > 0 { FactsAre(run, ordinary, rows, resolves, n - 1); }
  }

  method ResolveAlerts(run: string, ordinary: bool, rows: seq<HistoryRow>, resolves: nat -> Result)
    returns (resolutions: seq<Fact>, ok: bool)
    ensures ok <==> AlertsResolved(run, ordinary, rows, resolves)
    ensures ResolvesExactly(run, ordinary, rows, resolves, resolutions)
  {
    resolutions, ok := ResolveEach(run, ordinary, rows, resolves);
    FactsAre(run, ordinary, rows, resolves, |rows|);
  }

  method ResolveEach(run: string, ordinary: bool, rows: seq<HistoryRow>, resolves: nat -> Result)
    returns (resolutions: seq<Fact>, ok: bool)
    ensures ok <==> AlertsResolved(run, ordinary, rows, resolves)
    ensures resolutions == Facts(run, ordinary, rows, resolves, |rows|)
  {
    resolutions, ok := [], true;
    for i := 0 to |rows|
      invariant ok <==> forall j :: 0 <= j < i ==> SafeRow(run, rows[j]) && InputAccepted(ordinary, resolves(j))
      invariant resolutions == Facts(run, ordinary, rows, resolves, i)
    {
      if !SafeRow(run, rows[i]) {
        ok := false;
      } else {
        resolutions := resolutions + [FactOf(ordinary, rows[i], resolves(i))];
        if !InputAccepted(ordinary, resolves(i)) { ok := false; }
      }
    }
  }

  /** Answers of the store and the API during cleanup. */
  datatype CleanupAnswers = CleanupAnswers(entered: bool, deletes: nat -> bool, marks: nat -> bool,
                                           resolves: nat -> Result)

  /** Cleanup ends CLEAN exactly when everything it answers for was answered. */
  ghost predicate CleanWhen(run: string, ordinary: bool, resources: seq<Resource>, histories: seq<HistoryRow>,
                            recovery: Recovery, a: CleanupAnswers) {
    && !NothingToClean(resources, histories, recovery, a) && a.entered && (recovery.Recovered? ==> recovery.ok)
    && RulesGone(resources, a.deletes, a.marks)
    && AlertsResolved(run, ordinary, histories + RecoveredRows(recovery), a.resolves)
  }

  predicate NothingToClean(resources: seq<Resource>, histories: seq<HistoryRow>, recovery: Recovery,
                           a: CleanupAnswers) {
    resources == [] && histories == [] && recovery.NotAsked? && a.entered
  }

  method CleanUp(run: string, ordinary: bool, resources: seq<Resource>, histories: seq<HistoryRow>, recovery: Recovery,
                 a: CleanupAnswers)
    returns (status: Cleanup, deleted: seq<int>, resolutions: seq<Fact>)
    ensures status == NotRequired <==> NothingToClean(resources, histories, recovery, a)
    ensures status == Clean <==> CleanWhen(run, ordinary, resources, histories, recovery, a)
    ensures status in {NotRequired, Clean, Dirty}
    ensures DeletesExactly(resources, a.deletes, deleted)
    ensures ResolvesExactly(run, ordinary, histories + RecoveredRows(recovery), a.resolves, resolutions)
  {
    if resources == [] && histories == [] && recovery.NotAsked? && a.entered {
      return NotRequired, [], [];
    }
    var gone, resolved;
    deleted, gone := DeleteRules(resources, a.deletes, a.marks);
    resolutions, resolved := ResolveAlerts(run, ordinary, histories + RecoveredRows(recovery), a.resolves);
    status := if a.entered && gone && (recovery.Recovered? ==> recovery.ok) && resolved then Clean else Dirty;
  }

  // ---------- the failure path ----------

  /** Cleanup had a resolve accepted for the row's fingerprint, at the row's episode or a later one. */
  ghost predicate Cleared(ordinary: bool, cleared: seq<HistoryRow>, resolves: nat -> Result, resolutions: seq<Fact>,
                          r: HistoryRow) {
    exists i :: 0 <= i < |cleared| && cleared[i].fingerprint == r.fingerprint && cleared[i].startsAt >= r.startsAt
                && FactOf(ordinary, cleared[i], resolves(i)) in resolutions
                && FactOf(ordinary, cleared[i], resolves(i)).accepted
  }

  /** The History of the attempt was read and is evidence of it, for an uncertain one of a single alert, and all of it
      was cleared. */
  ghost predicate Answered(run: string, ordinary: bool, k: Key, w: Wanted, sources: string -> Reply,
                           cleared: seq<HistoryRow>,
                           resolves: nat -> Result, resolutions: seq<Fact>)
  {
    && sources(k.alertName).Some? && Evident(run, k, w, sources(k.alertName).value)
    && forall r :: r in sources(k.alertName).value && Matches(run, k, w, r) ==>
         Cleared(ordinary, cleared, resolves, resolutions, r)
  }

  /** Every create call that was issued is answered by a delete of its returned id. */
  ghost predicate RulesAnswered(cases: seq<Case>, answers: nat -> SetupAnswer, issued: set<nat>, deleted: seq<int>) {
    forall i :: i in issued ==>
      i < |cases| && Returned(cases[i].rule, answers(i)).Some? && Returned(cases[i].rule, answers(i)).value.id in deleted
  }

  ghost predicate AlertsAnswered(run: string, ordinary: bool, expected: map<Key, Wanted>, sources: string -> Reply,
                                 cleared: seq<HistoryRow>,
                                 resolves: nat -> Result, resolutions: seq<Fact>)
  {
    forall k :: k in expected ==> Answered(run, ordinary, k, expected[k], sources, cleared, resolves, resolutions)
  }

  /** What is recovered after a failure: nothing without attempts, else every recoverable row, successfully exactly when
      every name was read and the last attempt of every key has its evidence. */
  ghost predicate RecoveryExact(run: string, cases: seq<Case>, attempts: seq<Attempt>, sources: string -> Reply,
                                synthetics: string -> Reply, recovery: Recovery) {
    if attempts == [] then recovery == NotAsked
    else
      && recovery.Recovered? && RecoveredFrom(run, cases, attempts, sources, synthetics, recovery.rows)
      && (recovery.ok <==> AllEvident(run, cases, attempts, sources, synthetics))
  }

  /** The recovery of sent alerts, asked for when there are attempts. */
  method RecoverSent(run: string, cases: seq<Case>, attempts: seq<Attempt>, sources: string -> Reply,
                     synthetics: string -> Reply)
    returns (expected: map<Key, Wanted>, recovery: Recovery)
    ensures RecoveryExact(run, cases, attempts, sources, synthetics, recovery)
    ensures attempts != [] ==> Expects(cases, attempts, expected)
  {
    if attempts == [] { return map[], NotAsked; }
    var synthetic, recovered, ok;
    expected, synthetic, recovered, ok := Discover(run, cases, attempts, sources, synthetics);
    SucceedsIff(run, cases, attempts, sources, synthetics, expected, synthetic);
    RecoveredExactly(run, cases, attempts, sources, synthetics, expected, synthetic, recovered);
    recovery := Recovered(recovered, ok);
  }

  /** Cleanup after a failure or a failed checkpoint: what may have been sent is recovered from the attempts alone. */
  method FailAndCleanup(run: string, ordinary: bool, cases: seq<Case>, resources: seq<Resource>, attempts: seq<Attempt>,
                        sources: string -> Reply, synthetics: string -> Reply, a: CleanupAnswers, pending: bool)
    returns (status: Cleanup, deleted: seq<int>, resolutions: seq<Fact>, expected: map<Key, Wanted>, recovery: Recovery)
    ensures status in {NotRequired, Clean, Dirty}
    ensures status == NotRequired <==> !pending && resources == [] && attempts == [] && a.entered
    ensures status == Clean <==> !pending && CleanWhen(run, ordinary, resources, [], recovery, a)
    ensures DeletesExactly(resources, a.deletes, deleted)
    ensures RecoveryExact(run, cases, attempts, sources, synthetics, recovery)
    ensures attempts != [] ==> Expects(cases, attempts, expected)
    ensures ResolvesExactly(run, ordinary, RecoveredRows(recovery), a.resolves, resolutions)
    ensures status == Clean && attempts != [] ==>
      AlertsAnswered(run, ordinary, expected, sources, RecoveredRows(recovery), a.resolves, resolutions)
  {
    expected, recovery := RecoverSent(run, cases, attempts, sources, synthetics);
    status, deleted, resolutions := CleanUp(run, ordinary, resources, [], recovery, a);
    assert [] + RecoveredRows(recovery) == RecoveredRows(recovery);
    if status == Clean && attempts != [] {
      RecoveredAnswered(run, ordinary, cases, attempts, expected, sources, synthetics, recovery.rows, a.resolves,
                        resolutions);
    }
    if pending { status := Dirty; }
  }

  lemma {:induction false} RecoveredAnswered(run: string, ordinary: bool, cases: seq<Case>, attempts: seq<Attempt>,
                                             expected: map<Key, Wanted>, sources: string -> Reply,
                                             synthetics: string -> Reply, recovered: seq<HistoryRow>,
                                             resolves: nat -> Result, resolutions: seq<Fact>)
    requires Expects(cases, attempts, expected) && AllEvident(run, cases, attempts, sources, synthetics)
    requires RecoveredFrom(run, cases, attempts, sources, synthetics, recovered)
    requires AlertsResolved(run, ordinary, recovered, resolves)
    requires ResolvesExactly(run, ordinary, recovered, resolves, resolutions)
    ensures AlertsAnswered(run, ordinary, expected, sources, recovered, resolves, resolutions)
  {
    forall k | k in expected
      ensures Answered(run, ordinary, k, expected[k], sources, recovered, resolves, resolutions)
    {
      EvidenceRecovered(run, cases, attempts, expected, sources, synthetics, recovered, k);
      forall r | r in sources(k.alertName).value && Matches(run, k, expected[k], r)
        ensures Cleared(ordinary, recovered, resolves, resolutions, r)
      {
        RecoveredCleared(run, ordinary, recovered, resolves, resolutions, r);
      }
    }
  }

  /** The evidence of an expected key was read and is recovered. */
  lemma {:induction false} EvidenceRecovered(run: string, cases: seq<Case>, attempts: seq<Attempt>,
                                        expected: map<Key, Wanted>, sources: string -> Reply,
                                        synthetics: string -> Reply, recovered: seq<HistoryRow>, k: Key)
    requires Expects(cases, attempts, expected) && AllEvident(run, cases, attempts, sources, synthetics)
    requires RecoveredFrom(run, cases, attempts, sources, synthetics, recovered) && k in expected
    ensures sources(k.alertName).Some? && Evident(run, k, expected[k], sources(k.alertName).value)
    ensures forall r :: r in sources(k.alertName).value && Matches(run, k, expected[k], r) ==> Recovers(recovered, r)
  {
    ExpectedIs(cases, attempts, expected);
    assert KeyEvident(run, cases, attempts, sources, k);
    forall r | r in sources(k.alertName).value && Matches(run, k, expected[k], r) ensures Recovers(recovered, r) {
      assert Proves(run, cases, attempts, sources, k, r);
      assert Recoverable(run, cases, attempts, sources, synthetics, r);
    }
  }

  lemma {:induction false} RecoveredCleared(run: string, ordinary: bool, rows: seq<HistoryRow>, resolves: nat -> Result,
                                            resolutions: seq<Fact>, r: HistoryRow)
    requires AlertsResolved(run, ordinary, rows, resolves) && Recovers(rows, r)
    requires ResolvesExactly(run, ordinary, rows, resolves, resolutions)
    ensures Cleared(ordinary, rows, resolves, resolutions, r)
  {
    var i :| 0 <= i < |rows| && rows[i].fingerprint == r.fingerprint && rows[i].startsAt >= r.startsAt;
    assert FactOf(ordinary, rows[i], resolves(i)) in resolutions;
  }

  // ---------- one whole run ----------

  /** Every planned alert carries an event id. */
  ghost predicate Identified(cases: seq<Case>) {
    forall c, i :: c in cases && 0 <= i < |c.alerts| ==> Label(c.alerts[i].labels, TestEventId) != ""
  }

  datatype Path = Preflight | Interrupted | Completed

  /** The alert of this attempt is answered for its last attempt, and for this very one unless a later attempt took its
      key. */
  ghost predicate AttemptAnswered(run: string, ordinary: bool, cases: seq<Case>, attempts: seq<Attempt>, a: Attempt,
                                  sources: string -> Reply,
                                  cleared: seq<HistoryRow>, resolves: nat -> Result, resolutions: seq<Fact>)
  {
    exists c :: c in cases && Maps(c, a)
                && LastAnswered(run, ordinary, cases, attempts, KeyOf(c, a), sources, cleared, resolves, resolutions)
  }

  ghost predicate LastAnswered(run: string, ordinary: bool, cases: seq<Case>, attempts: seq<Attempt>, k: Key,
                               sources: string -> Reply,
                               cleared: seq<HistoryRow>, resolves: nat -> Result, resolutions: seq<Fact>)
  {
    var w := LastWanted(cases, attempts, k);
    w.Some? && Answered(run, ordinary, k, w.value, sources, cleared, resolves, resolutions)
  }

  /** This attempt itself is answered, with its own start and labels. */
  ghost predicate ItselfAnswered(run: string, ordinary: bool, cases: seq<Case>, a: Attempt, sources: string -> Reply,
                                 cleared: seq<HistoryRow>, resolves: nat -> Result, resolutions: seq<Fact>)
  {
    exists c :: c in cases && Maps(c, a)
                && Answered(run, ordinary, KeyOf(c, a), Wanted(c.alerts[a.eventIndex - 1], a), sources, cleared, resolves, resolutions)
  }

  /** A clean interrupted run answers every attempt, and a send whose outcome is unknown by its very own evidence. */
  ghost predicate AttemptsCleared(run: string, ordinary: bool, cases: seq<Case>, attempts: seq<Attempt>,
                                  sources: string -> Reply,
                                  cleared: seq<HistoryRow>, resolves: nat -> Result, resolutions: seq<Fact>)
  {
    && (forall a :: a in attempts ==> AttemptAnswered(run, ordinary, cases, attempts, a, sources, cleared, resolves, resolutions))
    && (KeysApart(cases) ==>
          forall a :: a in attempts && a.sendState == Attempted ==>
            ItselfAnswered(run, ordinary, cases, a, sources, cleared, resolves, resolutions))
  }

  ghost predicate Shown(observed: seq<HistoryRow>, fingerprint: string) {
    fingerprint != "" && exists r :: r in observed && r.fingerprint == fingerprint
  }

  ghost predicate Accepts(resolutions: seq<Fact>, fingerprint: string) {
    exists f :: f in resolutions && f.fingerprint == fingerprint && f.accepted
  }

  /** A clean completed run has accepted resolves for exactly the fingerprints it observed, each at its last observed
      episode. */
  ghost predicate ObservedCleared(ordinary: bool, observed: seq<HistoryRow>, cleared: seq<HistoryRow>,
                                  resolves: nat -> Result,
                                  resolutions: seq<Fact>)
  {
    && (forall r :: r in observed && r.fingerprint != "" ==> Cleared(ordinary, cleared, resolves, resolutions, r))
    && (forall f :: f in resolutions ==> f.accepted)
    && forall fingerprint :: Accepts(resolutions, fingerprint) <==> Shown(observed, fingerprint)
  }

  /** The run gets past its last alert and its observation. */
  ghost predicate Completes(cases: seq<Case>, answers: nat -> SetupAnswer, injecting: bool, ordinary: bool,
                            calls: (nat, nat) -> Call,
                            observed: Option<seq<HistoryRow>>)
  {
    && cases != [] && AllSetUp(cases, answers, |cases|) && injecting && GoodBefore(cases, ordinary, calls, |cases|, 0)
    && observed.Some?
  }

  /** When a completed run ends CLEAN. */
  ghost predicate CompletedClean(run: string, ordinary: bool, resources: seq<Resource>, cleared: seq<HistoryRow>,
                                 a: CleanupAnswers) {
    a.entered && RulesGone(resources, a.deletes, a.marks) && AlertsResolved(run, ordinary, cleared, a.resolves)
  }

  /** When an interrupted run ends CLEAN: it had something to clean, and every rule is gone, every name was read, the last
      attempt of every key has its evidence, and every resolve was accepted. */
  ghost predicate InterruptedClean(run: string, ordinary: bool, cases: seq<Case>, attempts: seq<Attempt>,
                                   sources: string -> Reply, synthetics: string -> Reply, resources: seq<Resource>,
                                   cleared: seq<HistoryRow>, a: CleanupAnswers) {
    && (resources != [] || attempts != []) && a.entered && RulesGone(resources, a.deletes, a.marks)
    && (attempts != [] ==> AllEvident(run, cases, attempts, sources, synthetics))
    && AlertsResolved(run, ordinary, cleared, a.resolves)
  }

  /** The rows an interrupted run resolves: none without attempts, else exactly the recoverable ones. */
  ghost predicate ClearedAfterFailure(run: string, cases: seq<Case>, attempts: seq<Attempt>, sources: string -> Reply,
                                      synthetics: string -> Reply, cleared: seq<HistoryRow>) {
    if attempts == [] then cleared == [] else RecoveredFrom(run, cases, attempts, sources, synthetics, cleared)
  }

  /** One run. `observed` is None when anything after the sending fails; `cleared` are the rows whose resolve was asked
      for. */
  method Execute(run: string, ordinary: bool, cases: seq<Case>, answers: nat -> SetupAnswer, injecting: bool,
                 base: nat -> int, calls: (nat, nat) -> Call,
                 observed: Option<seq<HistoryRow>>, sources: string -> Reply, synthetics: string -> Reply, a: CleanupAnswers, pending: bool)
    returns (status: Cleanup, path: Path, attempts: seq<Attempt>, deleted: seq<int>, resolutions: seq<Fact>,
             ghost issued: set<nat>, ghost posts: seq<Attempt>, ghost resources: seq<Resource>, ghost cleared: seq<HistoryRow>)
    requires Identified(cases)
    ensures status in {NotRequired, Clean, Dirty} && (pending ==> status == Dirty)
    ensures AsRecorded(attempts) <= PlannedAttempts(cases, |cases|, base) && RecordedFirst(posts, attempts)
    ensures OnlyLastUncertain(attempts)
    ensures path == Preflight <==> cases == []
    ensures path == Completed <==> Completes(cases, answers, injecting, ordinary, calls, observed)
    ensures path == Completed ==>
      posts == PlannedAttempts(cases, |cases|, base) && attempts == AsSent(posts) && |resources| == |cases|
    ensures path != Preflight ==>
      && Ledger(cases, answers, issued, resources) && DeletesExactly(resources, a.deletes, deleted)
      && ResolvesExactly(run, ordinary, cleared, a.resolves, resolutions)
    ensures path == Completed ==>
      LatestOf(observed.value, cleared) && (status == Clean <==> !pending && CompletedClean(run, ordinary, resources, cleared, a))
    ensures path == Interrupted ==>
      && ClearedAfterFailure(run, cases, attempts, sources, synthetics, cleared)
      && (status == Clean <==>
            !pending && InterruptedClean(run, ordinary, cases, attempts, sources, synthetics, resources, cleared, a))
    ensures status == NotRequired <==>
      !pending && (path == Preflight || (resources == [] && attempts == [] && a.entered))
    ensures status == NotRequired ==> issued == {} && posts == []
    ensures status == Clean ==> RulesAnswered(cases, answers, issued, deleted)
    ensures status == Clean && path == Interrupted ==>
      AttemptsCleared(run, ordinary, cases, attempts, sources, cleared, a.resolves, resolutions)
    ensures status == Clean && path == Completed ==>
      ObservedCleared(ordinary, observed.value, cleared, a.resolves, resolutions)
  {
    attempts, posts, issued, deleted, resolutions := [], [], {}, [], [];
    resources, cleared := [], [];
    if cases == [] {
      return (if pending then Dirty else NotRequired), Preflight, [], [], [], {}, [], [], [];
    }
    var rules, ready;
    rules, ready, issued := SetupRules(cases, answers);
    resources := rules;
    IssuedIsListed(cases, answers, issued, rules);
    var outcome := SendFailed;
    if ready && injecting {
      attempts, posts, outcome := SendAlerts(cases, base, ordinary, calls);
      WireSound(cases, base, ordinary, calls, attempts, posts, outcome);
    }
    if outcome == AllSent && observed.Some? {
      path := Completed;
      status, deleted, resolutions, cleared := FinishCompleted(run, ordinary, cases, answers, rules, issued,
                                                               observed.value, a);
    } else {
      path := Interrupted;
      status, deleted, resolutions, cleared :=
        FinishInterrupted(run, ordinary, cases, answers, rules, issued, base, attempts, sources, synthetics, a);
    }
    if pending { status := Dirty; }
  }

  /** The cleanup after a completed observation. */
  method FinishCompleted(run: string, ordinary: bool, cases: seq<Case>, answers: nat -> SetupAnswer,
                         rules: seq<Resource>, ghost issued: set<nat>, observed: seq<HistoryRow>, a: CleanupAnswers)
    returns (status: Cleanup, deleted: seq<int>, resolutions: seq<Fact>, ghost cleared: seq<HistoryRow>)
    requires Ledger(cases, answers, issued, rules) && rules != []
    ensures status in {Clean, Dirty} && DeletesExactly(rules, a.deletes, deleted)
    ensures ResolvesExactly(run, ordinary, cleared, a.resolves, resolutions)
    ensures LatestOf(observed, cleared) && (status == Clean <==> CompletedClean(run, ordinary, rules, cleared, a))
    ensures status == Clean ==> RulesAnswered(cases, answers, issued, deleted)
    ensures status == Clean ==> ObservedCleared(ordinary, observed, cleared, a.resolves, resolutions)
  {
    var histories := UniqueHistory(observed);
    cleared := histories;
    status, deleted, resolutions := CleanUp(run, ordinary, rules, histories, NotAsked, a);
    assert histories + [] == histories;
    if status == Clean {
      ClosedRules(cases, answers, rules, issued, a, deleted);
      ObservedAnswered(run, ordinary, observed, histories, a.resolves, resolutions);
    }
  }

  /** The cleanup after anything else. */
  method FinishInterrupted(run: string, ordinary: bool, cases: seq<Case>, answers: nat -> SetupAnswer,
                           rules: seq<Resource>, ghost issued: set<nat>, ghost base: nat -> int,
                           attempts: seq<Attempt>, sources: string -> Reply, synthetics: string -> Reply,
                           a: CleanupAnswers)
    returns (status: Cleanup, deleted: seq<int>, resolutions: seq<Fact>, ghost cleared: seq<HistoryRow>)
    requires Ledger(cases, answers, issued, rules)
    requires Identified(cases) && AsRecorded(attempts) <= PlannedAttempts(cases, |cases|, base)
    requires OnlyLastUncertain(attempts)
    ensures status in {NotRequired, Clean, Dirty} && DeletesExactly(rules, a.deletes, deleted)
    ensures ResolvesExactly(run, ordinary, cleared, a.resolves, resolutions)
    ensures ClearedAfterFailure(run, cases, attempts, sources, synthetics, cleared)
    ensures status == NotRequired <==> rules == [] && attempts == [] && a.entered
    ensures status == Clean <==>
      InterruptedClean(run, ordinary, cases, attempts, sources, synthetics, rules, cleared, a)
    ensures status == Clean ==> RulesAnswered(cases, answers, issued, deleted)
    ensures status == Clean ==>
      AttemptsCleared(run, ordinary, cases, attempts, sources, cleared, a.resolves, resolutions)
  {
    var expected, recovery;
    status, deleted, resolutions, expected, recovery := FailAndCleanup(run, ordinary, cases, rules, attempts, sources,
                                                                       synthetics, a, false);
    cleared := RecoveredRows(recovery);
    assert [] + cleared == cleared;
    if status == Clean {
      ClosedRules(cases, answers, rules, issued, a, deleted);
      if attempts != [] {
        AttemptsAnswered(run, ordinary, cases, base, attempts, expected, sources, cleared, a.resolves, resolutions);
      }
    }
  }

  /** What holds of the wire however the sending ended. */
  lemma {:induction false} WireSound(cases: seq<Case>, base: nat -> int, ordinary: bool, calls: (nat, nat) -> Call,
                                     attempts: seq<Attempt>, posts: seq<Attempt>, outcome: Sending)
    requires outcome == AllSent ==>
      attempts == AsSent(PlannedAttempts(cases, |cases|, base)) && posts == PlannedAttempts(cases, |cases|, base)
    requires outcome != AllSent ==>
      exists n, i :: 0 <= n < |cases| && 0 <= i < |cases[n].alerts|
        && StoppedAt(cases, base, ordinary, calls, n, i, attempts, posts, outcome)
    ensures AsRecorded(attempts) <= PlannedAttempts(cases, |cases|, base) && RecordedFirst(posts, attempts)
    ensures OnlyLastUncertain(attempts)
  {
    if outcome == AllSent {
      PlannedUnsent(cases, |cases|, base);
      RecordedSent(posts);
    } else {
      var n, i :| 0 <= n < |cases| && 0 <= i < |cases[n].alerts|
                  && StoppedAt(cases, base, ordinary, calls, n, i, attempts, posts, outcome);
      SendingSound(cases, base, ordinary, calls, n, i, attempts, posts, outcome);
    }
  }

  lemma {:induction false} ClosedRules(cases: seq<Case>, answers: nat -> SetupAnswer, resources: seq<Resource>,
                                       issued: set<nat>, a: CleanupAnswers, deleted: seq<int>)
    requires Ledger(cases, answers, issued, resources)
    requires RulesGone(resources, a.deletes, a.marks) && DeletesExactly(resources, a.deletes, deleted)
    ensures RulesAnswered(cases, answers, issued, deleted)
  {
    forall i | i in issued
      ensures i < |cases| && Returned(cases[i].rule, answers(i)).Some?
      ensures Returned(cases[i].rule, answers(i)).value.id in deleted
    {
      assert IssuedAt(cases, answers, i);
      assert ListedAt(cases, answers, i) && Accounts(cases[i].rule, answers(i), resources[i], true);
      assert RuleGone(resources[i], a.deletes(i), a.marks(i));
    }
  }

  lemma {:induction false} ObservedAnswered(run: string, ordinary: bool, observed: seq<HistoryRow>,
                                            histories: seq<HistoryRow>, resolves: nat -> Result, resolutions: seq<Fact>)
    requires LatestOf(observed, histories)
    requires AlertsResolved(run, ordinary, histories, resolves)
    requires ResolvesExactly(run, ordinary, histories, resolves, resolutions)
    ensures ObservedCleared(ordinary, observed, histories, resolves, resolutions)
  {
    forall r | r in observed && r.fingerprint != "" ensures Cleared(ordinary, histories, resolves, resolutions, r) {
      RecoveredCleared(run, ordinary, histories, resolves, resolutions, r);
    }
    forall fingerprint ensures Accepts(resolutions, fingerprint) <==> Shown(observed, fingerprint) {
      if Accepts(resolutions, fingerprint) {
        var f :| f in resolutions && f.fingerprint == fingerprint;
        var i :| 0 <= i < |histories| && f == FactOf(ordinary, histories[i], resolves(i));
        assert histories[i] in histories;
      }
      if Shown(observed, fingerprint) {
        var r :| r in observed && r.fingerprint == fingerprint;
        assert Cleared(ordinary, histories, resolves, resolutions, r);
      }
    }
  }

  /** The attempt is the plan's, and maps to the case it was prepared from. */
  lemma {:induction false} AttemptMaps(cases: seq<Case>, base: nat -> int, attempts: seq<Attempt>, j: nat)
    returns (c: Case)
    requires Identified(cases) && AsRecorded(attempts) <= PlannedAttempts(cases, |cases|, base) && j < |attempts|
    ensures c in cases && Maps(c, attempts[j])
  {
    assert AsRecorded(attempts)[j] == PlannedAttempts(cases, |cases|, base)[j];
    var n, i := PlannedAt(cases, |cases|, base, j);
    c := cases[n];
  }

  lemma {:induction false} LastIsAnswered(run: string, ordinary: bool, cases: seq<Case>, attempts: seq<Attempt>,
                                          expected: map<Key, Wanted>,
                                          a: Attempt, c: Case, sources: string -> Reply, cleared: seq<HistoryRow>, resolves: nat -> Result,
                                          resolutions: seq<Fact>)
    requires Expects(cases, attempts, expected)
    requires AlertsAnswered(run, ordinary, expected, sources, cleared, resolves, resolutions)
    requires a in attempts && c in cases && Maps(c, a)
    ensures LastAnswered(run, ordinary, cases, attempts, KeyOf(c, a), sources, cleared, resolves, resolutions)
  {
    var k := KeyOf(c, a);
    LastWantedMaps(cases, attempts, k);
    assert Entry(expected, k) == LastWanted(cases, attempts, k);
  }

  /** The last recorded attempt is the one its key stands for. */
  lemma LastOfKey(cases: seq<Case>, attempts: seq<Attempt>, c: Case)
    requires KeysApart(cases) && c in cases && attempts != [] && Maps(c, attempts[|attempts| - 1])
    ensures var a := attempts[|attempts| - 1]; LastWanted(cases, attempts, KeyOf(c, a)) == Some(Wanted(c.alerts[a.eventIndex - 1], a))
  {
    var a := attempts[|attempts| - 1];
    assert HasKey(c, KeyOf(c, a));
    LastWantedOfCase(cases, attempts, c, KeyOf(c, a));
  }

  lemma {:induction false} AttemptsAnswered(run: string, ordinary: bool, cases: seq<Case>, base: nat -> int,
                                            attempts: seq<Attempt>, expected: map<Key, Wanted>,
                                            sources: string -> Reply, cleared: seq<HistoryRow>, resolves: nat -> Result, resolutions: seq<Fact>)
    requires Identified(cases) && AsRecorded(attempts) <= PlannedAttempts(cases, |cases|, base)
    requires OnlyLastUncertain(attempts)
    requires Expects(cases, attempts, expected)
    requires AlertsAnswered(run, ordinary, expected, sources, cleared, resolves, resolutions)
    ensures AttemptsCleared(run, ordinary, cases, attempts, sources, cleared, resolves, resolutions)
  {
    forall a | a in attempts
      ensures AttemptAnswered(run, ordinary, cases, attempts, a, sources, cleared, resolves, resolutions)
      ensures KeysApart(cases) && a.sendState == Attempted ==>
        ItselfAnswered(run, ordinary, cases, a, sources, cleared, resolves, resolutions)
    {
      var j :| 0 <= j < |attempts| && attempts[j] == a;
      var c := AttemptMaps(cases, base, attempts, j);
      LastIsAnswered(run, ordinary, cases, attempts, expected, a, c, sources, cleared, resolves, resolutions);
      if KeysApart(cases) && a.sendState == Attempted { LastOfKey(cases, attempts, c); }
    }
  }

  /** The attempt made for an alert: its case, its position counted from one, its event id, and the start it is sent with,
      which for a named source is its episode's offset from the case's base. */
  lemma {:induction false} AttemptPlanned(cases: seq<Case>, base: nat -> int, j: nat) returns (n: nat, i: nat)
    requires j < |PlannedAttempts(cases, |cases|, base)|
    ensures n < |cases| && i < |cases[n].alerts|
    ensures var a, alert := PlannedAttempts(cases, |cases|, base)[j], cases[n].alerts[i];
            && a.caseKey == cases[n].code && a.eventIndex == i + 1 && a.eventId == Label(alert.labels, TestEventId)
            && (alert.episodeOffset.Some? ==> a.startsAt == base(n) + alert.episodeOffset.value)
            && (alert.episodeOffset.None? ==> a.startsAt == alert.startsAt)
  {
    n, i := PlannedAt(cases, |cases|, base, j);
  }

  /** A send is accepted without an error and as such, or, on the ordinary route, as forwarded. */
  lemma AcceptedIff(ordinary: bool, r: Result)
    ensures r.error ==> !InputAccepted(ordinary, r)
    ensures !r.error && r.class_.Some? ==>
      (InputAccepted(ordinary, r) <==> r.class_.value == Injection.Accepted || (ordinary && r.class_.value == Forwarded))
    ensures r.class_.None? ==> !InputAccepted(ordinary, r)
  {
  }

  /** Every planned attempt is some case's alert. */
  lemma {:induction false} PlannedAt(cases: seq<Case>, m: nat, base: nat -> int, j: nat) returns (n: nat, i: nat)
    requires m <= |cases| && j < |PlannedAttempts(cases, m, base)|
    ensures n < m && i < |cases[n].alerts| && PlannedAttempts(cases, m, base)[j] == Prepared(cases[n], i, base(n))
    decreases m
  {
    var before := PlannedAttempts(cases, m - 1, base);
    if j < |before| {
      n, i := PlannedAt(cases, m - 1, base, j);
    } else {
      n, i := m - 1, j - |before|;
    }
  }

  /** A run that completes with an empty observation ends CLEAN although it posted an alert and resolved none: only the
      interrupted path recovers what was sent from the attempts. */
  method CompletedCleanUnanswered()
    returns (status: Cleanup, path: Path, attempts: seq<Attempt>, resolutions: seq<Fact>)
    ensures path == Completed && status == Clean && |attempts| == 1 && attempts[0].sendState == Sent
    ensures resolutions == []
  {
    var rule := Rule("rule", "flood", "owned", "");
    var alert := Alert("", "alert", Firing, map[TestEventId := "e"], 0, None, 1, 0);
    var cases := [Case("P01", rule, [alert])];
    var remote := RemoteRule(1, "rule", "flood", "owned");
    var answer := SetupAnswer(true, true, true, Some(remote), None, true);
    var call := Call(true, true, true, false, Result(Some(Injection.Accepted), false), NoCheckpoint);
    var yes := CleanupAnswers(true, _ => true, _ => true, _ => FAILED);
    var base: nat -> int := _ => 0;
    ghost var issued, posts, resources, cleared;
    var deleted;
    status, path, attempts, deleted, resolutions, issued, posts, resources, cleared :=
      Execute("run", false, cases, _ => answer, true, base, (_, _) => call, Some([]), _ => None, _ => None, yes, false);
    assert PlannedAttempts(cases, 1, base) == PlannedAttempts(cases, 0, base) + CaseAttempts(cases[0], 1, base(0));
    assert AllSetUp(cases, _ => answer, 1) && GoodBefore(cases, false, (_, _) => call, 1, 0);
    if cleared != [] { LatestFirst([], cleared); }
    assert cleared + RecoveredRows(NotAsked) == [];
  }
}
