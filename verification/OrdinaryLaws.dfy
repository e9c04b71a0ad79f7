/** What the ordinary route guarantees over every sequence of calls. */
module OrdinaryLaws {
  import opened History
  import opened Injection
  import opened Ordinary

  /** The same alert, apart from its status and end. */
  ghost predicate SameEpisode(a: Alert, b: Alert) {
    a.name == b.name && a.labels == b.labels && a.startsAt == b.startsAt
  }

  ghost predicate Fired(l: Ledger, key: string) {
    exists i :: 0 <= i < |l.posts| && l.posts[i].key == key && !l.posts[i].clear
  }

  ghost predicate HasCleared(l: Ledger, key: string) {
    exists i :: 0 <= i < |l.posts| && l.posts[i].key == key && l.posts[i].clear
  }

  /** At most one firing and one clear for a source. */
  ghost predicate OnceEach(l: Ledger) {
    forall i, j :: 0 <= i < j < |l.posts| && l.posts[i].key == l.posts[j].key ==> l.posts[i].clear != l.posts[j].clear
  }

  /** Request `j` clears an earlier firing of its own source: same name, labels and start. */
  ghost predicate Follows(l: Ledger, j: nat)
    requires j < |l.posts|
  {
    exists i :: 0 <= i < j && l.posts[i].key == l.posts[j].key && !l.posts[i].clear && SameEpisode(l.posts[i].alert, l.posts[j].alert)
  }

  ghost predicate PostOwned(l: Ledger, p: Post) {
    && p.key in l.sources && SameEpisode(p.alert, l.sources[p.key].alert)
    && (p.clear ==> l.sources[p.key].forwarded && l.sources[p.key].cleanupAttempted)
  }

  ghost predicate SourceSound(l: Ledger, k: string)
    requires k in l.sources
  {
    var s := l.sources[k];
    && OrdinaryKey(s.alert.labels) == k && (s.forwarded ==> Fired(l, k))
    && (s.cleanupForwarded ==> s.forwarded && s.cleanupAttempted && HasCleared(l, k))
  }

  ghost predicate Valid(l: Ledger) {
    && OnceEach(l) && (forall j :: 0 <= j < |l.posts| && l.posts[j].clear ==> Follows(l, j))
    && (forall i :: 0 <= i < |l.posts| ==> PostOwned(l, l.posts[i]))
    && (forall k :: k in l.sources ==> SourceSound(l, k))
  }

  lemma PostsExtend(l: Ledger, p: Post, sources: map<string, Source>)
    ensures forall k :: Fired(l, k) ==> Fired(Ledger(sources, l.posts + [p]), k)
    ensures forall k :: HasCleared(l, k) ==> HasCleared(Ledger(sources, l.posts + [p]), k)
    ensures if p.clear then HasCleared(Ledger(sources, l.posts + [p]), p.key) else Fired(Ledger(sources, l.posts + [p]), p.key)
  {
    var posts := l.posts + [p];
    assert posts[|l.posts|] == p;
    assert forall i :: 0 <= i < |l.posts| ==> posts[i] == l.posts[i];
  }

  lemma FollowsExtends(l: Ledger, p: Post, sources: map<string, Source>, j: nat)
    requires j < |l.posts| && Follows(l, j)
    ensures Follows(Ledger(sources, l.posts + [p]), j)
  {
    var i :| 0 <= i < j && l.posts[i].key == l.posts[j].key && !l.posts[i].clear
             && SameEpisode(l.posts[i].alert, l.posts[j].alert);
    assert (l.posts + [p])[i] == l.posts[i] && (l.posts + [p])[j] == l.posts[j];
  }

  /** A new source, with or without its firing sent. */
  lemma InjectKeepsValid(l: Ledger, alert: Alert, validity: int, now: int, x: Exchange)
    requires Valid(l)
    ensures Valid(Injected(l, alert, validity, now, x))
  {
    var l' := Injected(l, alert, validity, now, x);
    var key, fired := OrdinaryKey(alert.labels), FiredAlert(alert, validity);
    if l' != l {
      var p := Post(key, false, fired);
      PostsExtend(l, p, l'.sources);
      assert forall i :: 0 <= i < |l.posts| ==> l.posts[i].key in l.sources && l.posts[i].key != key && l'.posts[i] == l.posts[i];
      forall j | 0 <= j < |l'.posts| && l'.posts[j].clear ensures Follows(l', j) {
        assert Follows(l, j);
        if !x.cancelledAfter { FollowsExtends(l, p, l'.sources, j); } else { assert l'.posts == l.posts; }
      }
      forall i | 0 <= i < |l'.posts| ensures PostOwned(l', l'.posts[i]) {
        if i < |l.posts| { assert PostOwned(l, l.posts[i]); }
      }
      forall k | k in l'.sources ensures SourceSound(l', k) {
        if k != key { assert SourceSound(l, k); }
      }
    }
  }

  /** Noting an attempt that sent nothing, or a confirmation of a clear that was sent. */
  lemma MarkKeepsValid(l: Ledger, key: string, marked: Source)
    requires Valid(l) && key in l.sources && marked.alert == l.sources[key].alert
    requires marked.forwarded == l.sources[key].forwarded
    requires l.sources[key].cleanupAttempted ==> marked.cleanupAttempted
    requires marked.cleanupForwarded ==> marked.forwarded && marked.cleanupAttempted && HasCleared(l, key)
    ensures Valid(Ledger(l.sources[key := marked], l.posts))
  {
    var l' := Ledger(l.sources[key := marked], l.posts);
    forall j | 0 <= j < |l'.posts| && l'.posts[j].clear ensures Follows(l', j) { assert Follows(l, j); }
    forall i | 0 <= i < |l'.posts| ensures PostOwned(l', l'.posts[i]) { assert PostOwned(l, l.posts[i]); }
    forall k | k in l'.sources ensures SourceSound(l', k) {
      assert SourceSound(l, k);
      assert Fired(l, k) ==> Fired(l', k);
      assert HasCleared(l, k) ==> HasCleared(l', k);
    }
  }

  /** The one firing a source that was never cleared has on the wire. */
  lemma OneFiring(l: Ledger, key: string) returns (f: nat)
    requires Valid(l) && key in l.sources && l.sources[key].forwarded && !l.sources[key].cleanupAttempted
    ensures f < |l.posts| && l.posts[f].key == key && !l.posts[f].clear
    ensures SameEpisode(l.posts[f].alert, l.sources[key].alert)
    ensures forall i :: 0 <= i < |l.posts| && l.posts[i].key == key ==> !l.posts[i].clear
  {
    assert SourceSound(l, key);
    forall i | 0 <= i < |l.posts| && l.posts[i].key == key
      ensures !l.posts[i].clear
    {
      assert PostOwned(l, l.posts[i]);
    }
    f :| 0 <= f < |l.posts| && l.posts[f].key == key && !l.posts[f].clear;
    assert PostOwned(l, l.posts[f]);
  }

  /** Sending the first clear of a forwarded source. */
  lemma ClearKeepsValid(l: Ledger, key: string, p: Post)
    requires Valid(l) && key in l.sources && l.sources[key].forwarded && !l.sources[key].cleanupAttempted
    requires p.key == key && p.clear && SameEpisode(p.alert, l.sources[key].alert)
    ensures Valid(Ledger(l.sources[key := l.sources[key].(cleanupAttempted := true)], l.posts + [p]))
  {
    var marked := l.sources[key].(cleanupAttempted := true);
    assert SourceSound(l, key);
    MarkKeepsValid(l, key, marked);
    var before := Ledger(l.sources[key := marked], l.posts);
    var l' := Ledger(before.sources, l.posts + [p]);
    PostsExtend(before, p, l'.sources);
    var f := OneFiring(l, key);
    forall j | 0 <= j < |l'.posts| && l'.posts[j].clear ensures Follows(l', j) {
      if j < |l.posts| { FollowsExtends(before, p, l'.sources, j); } else { assert l'.posts[f] == l.posts[f]; }
    }
    forall i | 0 <= i < |l'.posts| ensures PostOwned(l', l'.posts[i]) {
      if i < |l.posts| { assert PostOwned(before, l.posts[i]); }
    }
    forall k | k in l'.sources ensures SourceSound(l', k) { assert SourceSound(before, k); }
  }

  lemma ResolveKeepsValid(l: Ledger, row: HistoryRow, now: int, x: Exchange)
    requires Valid(l)
    ensures Valid(Cleared(l, row, now, x))
  {
    var key := OrdinaryKey(row.labels);
    if Clearable(l.sources, row, now) {
      var source := l.sources[key];
      var clear := ClearAlert(source.alert, now);
      var p := Post(key, true, clear);
      if Records(clear, x) && !x.cancelledAfter {
        var sent := Ledger(l.sources[key := source.(cleanupAttempted := true)], l.posts + [p]);
        ClearKeepsValid(l, key, p);
        PostsExtend(l, p, sent.sources);
        var marked := source.(cleanupAttempted := true, cleanupForwarded := Confirms(clear, x));
        assert SourceSound(l, key);
        MarkKeepsValid(sent, key, marked);
        assert sent.sources[key := marked] == l.sources[key := marked];
      } else {
        MarkKeepsValid(l, key, source.(cleanupAttempted := Records(clear, x), cleanupForwarded := Confirms(clear, x)));
      }
    }
  }

  // ---------- every run ----------

  datatype Call = Inject(alert: Alert, now: int, x: Exchange) | Resolve(row: HistoryRow, now: int, x: Exchange)

  ghost function After(l: Ledger, validity: int, call: Call): Ledger {
    match call
    case Inject(alert, now, x) => Injected(l, alert, validity, now, x)
    case Resolve(row, now, x) => Cleared(l, row, now, x)
  }

  ghost function RunFrom(l: Ledger, validity: int, calls: seq<Call>): Ledger {
    if calls == [] then l else After(RunFrom(l, validity, calls[..|calls| - 1]), validity, calls[|calls| - 1])
  }

  /** Over every run: one firing and one clear per source at most, and a clear only after the forwarded firing of its
      own
      source, with its original start and labels. */
  lemma {:induction false} EveryRunValid(validity: int, calls: seq<Call>)
    ensures Valid(RunFrom(Ledger(map[], []), validity, calls))
    decreases |calls|
  {
    if calls != [] {
      EveryRunValid(validity, calls[..|calls| - 1]);
      var before := RunFrom(Ledger(map[], []), validity, calls[..|calls| - 1]);
      match calls[|calls| - 1] {
        case Inject(alert, now, x) => InjectKeepsValid(before, alert, validity, now, x);
        case Resolve(row, now, x) => ResolveKeepsValid(before, row, now, x);
      }
    }
  }

  /** The responsibility for a source can never be discharged any more. */
  ghost predicate Lost(s: Source) {
    !s.forwarded || (s.cleanupAttempted && !s.cleanupForwarded)
  }

  /** Sources are never replaced; lost responsibility stays lost and discharged responsibility stays discharged. */
  ghost predicate Kept(l: Ledger, l': Ledger) {
    && l.posts <= l'.posts
    && forall k :: k in l.sources ==>
         && k in l'.sources && l'.sources[k].alert == l.sources[k].alert
         && l'.sources[k].forwarded == l.sources[k].forwarded
         && (Lost(l.sources[k]) ==> Lost(l'.sources[k]))
         && (l.sources[k].cleanupForwarded && l.sources[k].cleanupAttempted ==> l'.sources[k] == l.sources[k])
  }

  /** Responsibility is sticky from any state of a run to any later one. */
  lemma {:induction false} EveryRunKeeps(l: Ledger, validity: int, calls: seq<Call>)
    ensures Kept(l, RunFrom(l, validity, calls))
    decreases |calls|
  {
    if calls != [] {
      EveryRunKeeps(l, validity, calls[..|calls| - 1]);
    }
  }

  /** A run that ends CLEAN or NOT_REQUIRED left every recorded source forwarded and clear-forwarded, each with one
      firing and one
      clear on the wire; a run with lost responsibility always ends DIRTY. */
  lemma FinalCleanupTruthful(validity: int, calls: seq<Call>, cleanup: Cleanup, final: Cleanup)
    requires var l := RunFrom(Ledger(map[], []), validity, calls);
             final == if exists k :: k in l.sources && !l.sources[k].cleanupForwarded then Dirty else cleanup
    ensures var l := RunFrom(Ledger(map[], []), validity, calls);
            && (final == Clean || final == NotRequired ==>
                  forall k :: k in l.sources ==>
                    l.sources[k].forwarded && l.sources[k].cleanupForwarded && Fired(l, k) && HasCleared(l, k))
            && ((exists k :: k in l.sources && Lost(l.sources[k])) ==> final == Dirty)
  {
    var l := RunFrom(Ledger(map[], []), validity, calls);
    EveryRunValid(validity, calls);
    forall k | k in l.sources && l.sources[k].cleanupForwarded
      ensures !Lost(l.sources[k]) && Fired(l, k) && HasCleared(l, k)
    {
      assert SourceSound(l, k);
    }
  }

  predicate NulFree(s: string) { '\0' !in s }

  /** The key separates run, alert name and event as long as none of them holds a NUL. */
  lemma OrdinaryKeySeparates(a: Labels, b: Labels)
    requires forall l :: l in {TestRunId, AlertName, TestEventId} ==> NulFree(Label(a, l)) && NulFree(Label(b, l))
    ensures OrdinaryKey(a) == OrdinaryKey(b) <==>
      forall l :: l in {TestRunId, AlertName, TestEventId} ==> Label(a, l) == Label(b, l)
  {
    if OrdinaryKey(a) == OrdinaryKey(b) {
      var restA, restB := Label(a, AlertName) + "\0" + Label(a, TestEventId), Label(b, AlertName) + "\0" + Label(b, TestEventId);
      assert OrdinaryKey(a) == Label(a, TestRunId) + "\0" + restA && OrdinaryKey(b) == Label(b, TestRunId) + "\0" + restB;
      FirstPart(Label(a, TestRunId), restA, Label(b, TestRunId), restB);
      FirstPart(Label(a, AlertName), Label(a, TestEventId), Label(b, AlertName), Label(b, TestEventId));
    }
  }

  lemma FirstPart(a: string, restA: string, b: string, restB: string)
    requires NulFree(a) && NulFree(b) && a + "\0" + restA == b + "\0" + restB
    ensures a == b && restA == restB
  {
    var whole := a + "\0" + restA;
    assert whole[|a|] == '\0' && whole[|b|] == '\0';
    assert forall i :: 0 <= i < |a| ==> whole[i] == a[i];
    assert forall i :: 0 <= i < |b| ==> whole[i] == b[i];
    assert |a| == |b|;
    assert a == whole[..|a|] && b == whole[..|b|];
    assert restA == whole[|a| + 1..] && restB == whole[|b| + 1..];
  }
}
