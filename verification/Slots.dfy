/** The greedy slot allocator: spaced free send slots for one case, all within one wall-clock minute. */
module Slots {
  import opened Common
  import opened Diffusion

  const SPACING: real := 3.0000001
  const LATENESS: real := 2.0

  /** Python's `int(x)`: truncation toward zero. */
  function Trunc(x: real): int {
    if x >= 0.0 then x.Floor else -((-x).Floor)
  }

  /** The wall-clock minute of an instant, `int(x) // 60`. */
  function Minute(x: real): int {
    Trunc(x) / 60
  }

  lemma MinuteMonotone(x: real, y: real)
    requires x <= y
    ensures Minute(x) <= Minute(y)
  {
    assert Trunc(x) <= Trunc(y);
  }

  /** `bisect_left`: the number of send times before `due`. */
  function BisectLeft(times: seq<real>, due: real): (k: nat)
    ensures k <= |times|
    ensures forall i :: 0 <= i < k ==> times[i] < due
    ensures k < |times| ==> times[k] >= due
  {
    if times == [] || times[0] >= due then 0 else 1 + BisectLeft(times[1..], due)
  }

  ghost predicate Free(times: seq<real>, occupied: set<nat>, chosen: seq<nat>, slot: nat) {
    slot < |times| && slot !in occupied && slot !in chosen
  }

  /** When the next slot may be sent at the earliest. */
  ghost function Due(times: seq<real>, target: real, chosen: seq<nat>): real
    requires Within(times, chosen)
  {
    if chosen == [] then target else times[chosen[|chosen| - 1]] + SPACING
  }

  ghost predicate Within(times: seq<real>, chosen: seq<nat>) {
    forall i :: 0 <= i < |chosen| ==> chosen[i] < |times|
  }

  /** Slot `i` is the first free one at or after its due time. */
  ghost predicate FirstFitAt(times: seq<real>, occupied: set<nat>, target: real, chosen: seq<nat>, i: nat)
    requires i < |chosen| && Within(times, chosen)
  {
    var before := chosen[..i];
    && Free(times, occupied, before, chosen[i]) && Due(times, target, before) <= times[chosen[i]]
    && forall f: nat :: Free(times, occupied, before, f) && Due(times, target, before) <= times[f] ==> chosen[i] <= f
  }

  /** The greedy choice for the inputs of one case, each slot the first free one at least SPACING after the previous. */
  ghost predicate FirstFit(times: seq<real>, occupied: set<nat>, target: real, chosen: seq<nat>) {
    Within(times, chosen) && forall i :: 0 <= i < |chosen| ==> FirstFitAt(times, occupied, target, chosen, i)
  }

  /** No free slot is left at or after the due time that follows `chosen`. */
  ghost predicate Stuck(times: seq<real>, occupied: set<nat>, target: real, chosen: seq<nat>) {
    && FirstFit(times, occupied, target, chosen)
    && forall f: nat :: Free(times, occupied, chosen, f) ==> times[f] < Due(times, target, chosen)
  }

  lemma FirstFitExtends(times: seq<real>, occupied: set<nat>, target: real, chosen: seq<nat>, slot: nat)
    requires FirstFit(times, occupied, target, chosen) && Free(times, occupied, chosen, slot)
    requires Due(times, target, chosen) <= times[slot]
    requires forall f: nat :: Free(times, occupied, chosen, f) && Due(times, target, chosen) <= times[f] ==> slot <= f
    ensures FirstFit(times, occupied, target, chosen + [slot])
  {
    var next := chosen + [slot];
    forall i | 0 <= i < |next| ensures FirstFitAt(times, occupied, target, next, i) {
      if i < |chosen| {
        assert next[..i] == chosen[..i];
        assert FirstFitAt(times, occupied, target, chosen, i);
      } else {
        assert next[..i] == chosen;
      }
    }
  }

  method ChooseSlots(times: seq<real>, occupied: set<nat>, inputs: nat, target: real)
    returns (r: Option<seq<nat>>, ghost partial: seq<nat>)
    requires Increasing(times) && forall o :: o in occupied ==> o < |times|
    ensures r.Some? ==> FirstFit(times, occupied, target, r.value) && |r.value| == inputs
    ensures r.None? ==> |partial| < inputs && Stuck(times, occupied, target, partial)
  {
    var chosen: seq<nat> := [];
    var due := target;
    while |chosen| < inputs
      invariant |chosen| <= inputs
      invariant FirstFit(times, occupied, target, chosen)
      invariant due == Due(times, target, chosen)
      decreases inputs - |chosen|
    {
      var slot := BisectLeft(times, due);
      while slot in occupied || slot in chosen
        invariant slot <= |times|
        invariant forall f: nat :: Free(times, occupied, chosen, f) && due <= times[f] ==> slot <= f
        invariant slot < |times| ==> due <= times[slot]
        decreases |times| - slot
      {
        assert slot < |times|;
        if slot + 1 < |times| { assert times[slot] < times[slot + 1]; }
        slot := slot + 1;
      }
      if slot >= |times| { return None, chosen; }
      FirstFitExtends(times, occupied, target, chosen, slot);
      chosen := chosen + [slot];
      due := times[slot] + SPACING;
    }
    return Some(chosen), chosen;
  }

  /** All slots, and the last one plus the lateness allowance, fall in the same wall-clock minute. */
  ghost predicate OneMinute(epoch: real, times: seq<real>, chosen: seq<nat>)
    requires chosen != [] && Within(times, chosen)
  {
    var minute := Minute(epoch + times[chosen[|chosen| - 1]] + LATENESS);
    forall i :: 0 <= i < |chosen| ==> Minute(epoch + times[chosen[i]]) == minute
  }

  method InOneMinute(epoch: real, times: seq<real>, chosen: seq<nat>) returns (ok: bool)
    requires chosen != [] && Within(times, chosen)
    ensures ok <==> OneMinute(epoch, times, chosen)
  {
    var minutes := {Minute(epoch + times[chosen[|chosen| - 1]] + LATENESS)};
    var i := 0;
    while i < |chosen|
      invariant 0 <= i <= |chosen|
      invariant Minute(epoch + times[chosen[|chosen| - 1]] + LATENESS) in minutes
      invariant forall j :: 0 <= j < i ==> Minute(epoch + times[chosen[j]]) in minutes
      invariant forall m :: m in minutes ==>
        m == Minute(epoch + times[chosen[|chosen| - 1]] + LATENESS) || exists j :: 0 <= j < i && m == Minute(epoch + times[chosen[j]])
    {
      minutes := minutes + {Minute(epoch + times[chosen[i]])};
      i := i + 1;
    }
    var late := Minute(epoch + times[chosen[|chosen| - 1]] + LATENESS);
    ok := |minutes| == 1;
    assert minutes == {late} + (minutes - {late});
    if ok { assert minutes == {late}; }
  }

  /** The retry target: one second into the minute after the first chosen slot. */
  function NextMinute(epoch: real, at: real): real {
    (Minute(epoch + at) + 1) as real * 60.0 + 1.0 - epoch
  }

  /** The retry target strictly passes the slot that was rejected, for every start, before or after the epoch. */
  lemma NextMinutePasses(epoch: real, at: real)
    ensures NextMinute(epoch, at) > at + 1.0
    ensures epoch + at >= 0.0 ==>
      && Minute(epoch + NextMinute(epoch, at)) == Minute(epoch + at) + 1
      && epoch + NextMinute(epoch, at) - (60 * (Minute(epoch + at) + 1)) as real == 1.0
  {
    var x := epoch + at;
    assert Trunc(x) as real + 1.0 > x;
    assert Trunc(x) < (Minute(x) + 1) * 60;
    if x >= 0.0 {
      var m := Minute(x) + 1;
      assert NextMinute(epoch, at) + epoch == (60 * m + 1) as real;
      assert Trunc((60 * m + 1) as real) == 60 * m + 1;
    }
  }

  /** Each attempt but the last was a greedy choice that straddled minutes and led to the next attempt's target. */
  ghost predicate Retried(epoch: real, times: seq<real>, occupied: set<nat>, inputs: nat, targets: seq<real>, k: nat)
    requires k + 1 < |targets|
  {
    exists chosen :: FirstFit(times, occupied, targets[k], chosen) && |chosen| == inputs && chosen != []
                     && !OneMinute(epoch, times, chosen) && targets[k + 1] == NextMinute(epoch, times[chosen[0]])
  }

  ghost predicate Attempts(epoch: real, times: seq<real>, occupied: set<nat>, inputs: nat, target: real,
                           targets: seq<real>) {
    && targets != [] && targets[0] == target
    && forall k :: 0 <= k < |targets| - 1 ==> Retried(epoch, times, occupied, inputs, targets, k)
  }

  lemma AttemptsStep(epoch: real, times: seq<real>, occupied: set<nat>, inputs: nat, target: real, targets: seq<real>,
                     chosen: seq<nat>)
    requires Attempts(epoch, times, occupied, inputs, target, targets) && inputs > 0
    requires FirstFit(times, occupied, targets[|targets| - 1], chosen) && |chosen| == inputs
    requires !OneMinute(epoch, times, chosen)
    ensures Attempts(epoch, times, occupied, inputs, target, targets + [NextMinute(epoch, times[chosen[0]])])
  {
    var next := targets + [NextMinute(epoch, times[chosen[0]])];
    forall k | 0 <= k < |next| - 1 ensures Retried(epoch, times, occupied, inputs, next, k) {
      if k < |targets| - 1 {
        assert Retried(epoch, times, occupied, inputs, targets, k);
        assert next[k] == targets[k] && next[k + 1] == targets[k + 1];
      } else {
        assert next[k] == targets[k];
      }
    }
  }

  /** The retry loop for one case. It terminates because every new target lies past the first slot of the failed try. */
  method Place(epoch: real, times: seq<real>, occupied: set<nat>, inputs: nat, target: real)
    returns (r: Option<seq<nat>>, ghost targets: seq<real>)
    requires Increasing(times) && inputs > 0 && forall o :: o in occupied ==> o < |times|
    ensures Attempts(epoch, times, occupied, inputs, target, targets)
    ensures r.Some? ==> SettledAt(epoch, times, occupied, inputs, targets, r.value)
    ensures r.None? ==> exists partial :: RefusedAt(times, occupied, inputs, targets, partial)
  {
    var current := target;
    targets := [target];
    while true
      invariant Attempts(epoch, times, occupied, inputs, target, targets) && current == targets[|targets| - 1]
      decreases |times| - BisectLeft(times, current)
    {
      var chosen, partial := ChooseSlots(times, occupied, inputs, current);
      if chosen.None? {
        assert RefusedAt(times, occupied, inputs, targets, partial);
        return None, targets;
      }
      var ok := InOneMinute(epoch, times, chosen.value);
      if ok { return chosen, targets; }
      var first := chosen.value[0];
      assert FirstFitAt(times, occupied, current, chosen.value, 0);
      AttemptsStep(epoch, times, occupied, inputs, target, targets, chosen.value);
      NextMinutePasses(epoch, times[first]);
      current := NextMinute(epoch, times[first]);
      targets := targets + [current];
    }
  }

  /** Consequences of a greedy choice: fresh, in input order, and at least SPACING apart. */
  lemma FirstFitSpaced(times: seq<real>, occupied: set<nat>, target: real, chosen: seq<nat>)
    requires Increasing(times) && FirstFit(times, occupied, target, chosen)
    ensures forall i :: 0 <= i < |chosen| ==>
      chosen[i] < |times| && chosen[i] !in occupied && target <= times[chosen[i]]
    ensures forall i :: 0 < i < |chosen| ==> times[chosen[i - 1]] + SPACING <= times[chosen[i]]
    ensures forall i :: 0 < i < |chosen| ==> times[chosen[i]] - times[chosen[i - 1]] >= 3.0000001
    ensures forall i, j :: 0 <= i < j < |chosen| ==>
      chosen[i] < chosen[j] && times[chosen[i]] + SPACING <= times[chosen[j]]
  {
    forall i | 0 <= i < |chosen|
      ensures chosen[i] < |times| && chosen[i] !in occupied
    {
      assert FirstFitAt(times, occupied, target, chosen, i);
    }
    forall i | 0 < i < |chosen| ensures times[chosen[i - 1]] + SPACING <= times[chosen[i]] {
      assert FirstFitAt(times, occupied, target, chosen, i);
      assert chosen[..i][|chosen[..i]| - 1] == chosen[i - 1];
    }
    forall i, j | 0 <= i < j < |chosen|
      ensures chosen[i] < chosen[j] && times[chosen[i]] + SPACING <= times[chosen[j]]
    {
      SpacedApart(times, chosen, i, j);
      assert forall a, b :: 0 <= a < b < |times| ==> times[a] < times[b];
    }
    forall i | 0 <= i < |chosen| ensures target <= times[chosen[i]] {
      assert FirstFitAt(times, occupied, target, chosen, 0);
      if i > 0 { SpacedApart(times, chosen, 0, i); }
    }
  }

  lemma {:induction false} SpacedApart(times: seq<real>, chosen: seq<nat>, i: nat, j: nat)
    requires i < j < |chosen| && forall k :: 0 <= k < |chosen| ==> chosen[k] < |times|
    requires forall k :: 0 < k < |chosen| ==> times[chosen[k - 1]] + SPACING <= times[chosen[k]]
    ensures times[chosen[i]] + SPACING <= times[chosen[j]]
    decreases j
  {
    if i < j - 1 { SpacedApart(times, chosen, i, j - 1); }
    assert times[chosen[j - 1]] + SPACING <= times[chosen[j]];
  }

  /** The greedy choice is determined by the target and the occupied slots. */
  lemma {:induction false} FirstFitUnique(times: seq<real>, occupied: set<nat>, target: real, a: seq<nat>, b: seq<nat>)
    requires FirstFit(times, occupied, target, a) && FirstFit(times, occupied, target, b) && |a| == |b|
    ensures a == b
    decreases |a|
  {
    if a != [] {
      var n := |a| - 1;
      FirstFitPrefix(times, occupied, target, a, n);
      FirstFitPrefix(times, occupied, target, b, n);
      FirstFitUnique(times, occupied, target, a[..n], b[..n]);
      assert FirstFitAt(times, occupied, target, a, n) && FirstFitAt(times, occupied, target, b, n);
      assert a[n] == b[n];
      assert a == a[..n] + [a[n]] && b == b[..n] + [b[n]];
    }
  }

  lemma FirstFitPrefix(times: seq<real>, occupied: set<nat>, target: real, chosen: seq<nat>, n: nat)
    requires FirstFit(times, occupied, target, chosen) && n <= |chosen|
    ensures FirstFit(times, occupied, target, chosen[..n])
  {
    forall i | 0 <= i < n ensures FirstFitAt(times, occupied, target, chosen[..n], i) {
      assert FirstFitAt(times, occupied, target, chosen, i);
      assert chosen[..n][..i] == chosen[..i];
    }
  }

  /** Retrying only moves the target later. */
  lemma {:induction false} TargetsRise(epoch: real, times: seq<real>, occupied: set<nat>, inputs: nat, target: real,
                                       targets: seq<real>, k: nat)
    requires Increasing(times) && Attempts(epoch, times, occupied, inputs, target, targets) && k < |targets|
    ensures target <= targets[k]
  {
    if k > 0 {
      TargetsRise(epoch, times, occupied, inputs, target, targets, k - 1);
      assert Retried(epoch, times, occupied, inputs, targets, k - 1);
      var chosen :| FirstFit(times, occupied, targets[k - 1], chosen) && |chosen| == inputs && chosen != []
                    && !OneMinute(epoch, times, chosen) && targets[k - 1 + 1] == NextMinute(epoch, times[chosen[0]]);
      FirstFitSpaced(times, occupied, targets[k - 1], chosen);
      NextMinutePasses(epoch, times[chosen[0]]);
    }
  }

  // ---------- the outcome for one case is determined ----------

  /** The slots the retry loop ends with. */
  ghost predicate Settled(epoch: real, times: seq<real>, occupied: set<nat>, inputs: nat, target: real,
                          chosen: seq<nat>) {
    exists targets :: Attempts(epoch, times, occupied, inputs, target, targets)
                      && SettledAt(epoch, times, occupied, inputs, targets, chosen)
  }

  ghost predicate SettledAt(epoch: real, times: seq<real>, occupied: set<nat>, inputs: nat, targets: seq<real>,
                            chosen: seq<nat>)
    requires targets != []
  {
    && FirstFit(times, occupied, targets[|targets| - 1], chosen) && |chosen| == inputs && chosen != []
    && OneMinute(epoch, times, chosen)
  }

  /** The retry loop ends without slots: its last attempt runs out of free ones. */
  ghost predicate Refused(epoch: real, times: seq<real>, occupied: set<nat>, inputs: nat, target: real) {
    exists targets, partial ::
      Attempts(epoch, times, occupied, inputs, target, targets) && RefusedAt(times, occupied, inputs, targets, partial)
  }

  ghost predicate RefusedAt(times: seq<real>, occupied: set<nat>, inputs: nat, targets: seq<real>, partial: seq<nat>)
    requires targets != []
  {
    |partial| < inputs && Stuck(times, occupied, targets[|targets| - 1], partial)
  }

  /** Two runs of the retry loop go through the same targets. */
  lemma {:induction false} AttemptsAgree(epoch: real, times: seq<real>, occupied: set<nat>, inputs: nat, target: real,
                                         a: seq<real>, b: seq<real>, k: nat)
    requires Attempts(epoch, times, occupied, inputs, target, a) && k < |a|
    requires Attempts(epoch, times, occupied, inputs, target, b) && k < |b|
    ensures a[k] == b[k]
  {
    if k > 0 {
      AttemptsAgree(epoch, times, occupied, inputs, target, a, b, k - 1);
      assert Retried(epoch, times, occupied, inputs, a, k - 1) && Retried(epoch, times, occupied, inputs, b, k - 1);
      var c :| FirstFit(times, occupied, a[k - 1], c) && |c| == inputs && c != []
               && a[k] == NextMinute(epoch, times[c[0]]);
      var d :| FirstFit(times, occupied, b[k - 1], d) && |d| == inputs && d != []
               && b[k] == NextMinute(epoch, times[d[0]]);
      FirstFitUnique(times, occupied, a[k - 1], c, d);
    }
  }

  /** A part of a greedy choice is not stuck. */
  lemma PartNotStuck(times: seq<real>, occupied: set<nat>, target: real, chosen: seq<nat>, n: nat)
    requires FirstFit(times, occupied, target, chosen) && n < |chosen|
    ensures FirstFit(times, occupied, target, chosen[..n]) && !Stuck(times, occupied, target, chosen[..n])
  {
    FirstFitPrefix(times, occupied, target, chosen, n);
    assert FirstFitAt(times, occupied, target, chosen, n);
  }

  /** Where the allocator gets stuck no greedy choice is longer. */
  lemma StuckExcludes(times: seq<real>, occupied: set<nat>, target: real, partial: seq<nat>, chosen: seq<nat>)
    requires Stuck(times, occupied, target, partial) && |partial| < |chosen|
    ensures !FirstFit(times, occupied, target, chosen)
  {
    if FirstFit(times, occupied, target, chosen) {
      PartNotStuck(times, occupied, target, chosen, |partial|);
      FirstFitUnique(times, occupied, target, partial, chosen[..|partial|]);
    }
  }

  /** An attempt that ended the loop was not retried by another run of it. */
  lemma EndNotRetried(epoch: real, times: seq<real>, occupied: set<nat>, inputs: nat, target: real,
                      a: seq<real>, chosen: seq<nat>, b: seq<real>)
    requires Attempts(epoch, times, occupied, inputs, target, a) && SettledAt(epoch, times, occupied, inputs, a, chosen)
    requires Attempts(epoch, times, occupied, inputs, target, b)
    ensures |b| <= |a|
  {
    if |a| < |b| {
      var k := |a| - 1;
      AttemptsAgree(epoch, times, occupied, inputs, target, a, b, k);
      assert Retried(epoch, times, occupied, inputs, b, k);
      var c :| FirstFit(times, occupied, b[k], c) && |c| == inputs && c != [] && !OneMinute(epoch, times, c);
      FirstFitUnique(times, occupied, b[k], c, chosen);
    }
  }

  /** The slots of a case are determined by the send times, the slots taken before and the target. */
  lemma SettledUnique(epoch: real, times: seq<real>, occupied: set<nat>, inputs: nat, target: real, c: seq<nat>,
                      d: seq<nat>)
    requires Settled(epoch, times, occupied, inputs, target, c) && Settled(epoch, times, occupied, inputs, target, d)
    ensures c == d
  {
    var a :| Attempts(epoch, times, occupied, inputs, target, a) && SettledAt(epoch, times, occupied, inputs, a, c);
    var b :| Attempts(epoch, times, occupied, inputs, target, b) && SettledAt(epoch, times, occupied, inputs, b, d);
    EndNotRetried(epoch, times, occupied, inputs, target, a, c, b);
    EndNotRetried(epoch, times, occupied, inputs, target, b, d, a);
    AttemptsAgree(epoch, times, occupied, inputs, target, a, b, |a| - 1);
    FirstFitUnique(times, occupied, a[|a| - 1], c, d);
  }

  /** A case that is refused has no slots the loop could have ended with. */
  lemma RefusedExcludes(epoch: real, times: seq<real>, occupied: set<nat>, inputs: nat, target: real, chosen: seq<nat>)
    requires Refused(epoch, times, occupied, inputs, target)
    ensures !Settled(epoch, times, occupied, inputs, target, chosen)
  {
    if Settled(epoch, times, occupied, inputs, target, chosen) {
      var a, partial :|
        Attempts(epoch, times, occupied, inputs, target, a) && RefusedAt(times, occupied, inputs, a, partial);
      var b :| Attempts(epoch, times, occupied, inputs, target, b)
               && SettledAt(epoch, times, occupied, inputs, b, chosen);
      EndNotRetried(epoch, times, occupied, inputs, target, b, chosen, a);
      var k := |a| - 1;
      AttemptsAgree(epoch, times, occupied, inputs, target, a, b, k);
      if k < |b| - 1 {
        assert Retried(epoch, times, occupied, inputs, b, k);
        var c :| FirstFit(times, occupied, b[k], c) && |c| == inputs;
        StuckExcludes(times, occupied, b[k], partial, c);
      } else {
        StuckExcludes(times, occupied, b[k], partial, chosen);
      }
    }
  }
}
