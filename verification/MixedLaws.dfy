/** Planner and validator agree: what is sent as planned is accepted. */
module MixedLaws {
  import opened Common
  import opened Diffusion
  import opened Slots
  import opened MixedPlan
  import opened MixedLoad

  // ---------- the indexes the validator builds from a plan ----------

  lemma {:induction false} BySeqOf(events: seq<Event>)
    requires forall i :: 0 <= i < |events| ==> events[i].seqNo == i
    ensures forall i: int :: i in BySeq(events) <==> 0 <= i < |events|
    ensures forall i :: 0 <= i < |events| ==> BySeq(events)[i] == events[i]
    ensures |BySeq(events)| == |events|
    decreases |events|
  {
    if events != [] {
      var init := events[..|events| - 1];
      BySeqOf(init);
      assert BySeq(events).Keys == BySeq(init).Keys + {|events| - 1};
    }
  }

  lemma {:induction false} BySourceOf(events: seq<Event>, i: nat)
    requires i < |events| && forall j :: 0 <= j < |events| ==> events[j].seqNo == j
    requires forall j, k :: 0 <= j < |events| && 0 <= k < |events| && events[j].occupant.source == events[k].occupant.source ==> j == k
    ensures events[i].occupant.source in BySource(events) && BySource(events)[events[i].occupant.source] == i
    decreases |events|
  {
    var last := |events| - 1;
    if i < last {
      var init := events[..last];
      assert forall j :: 0 <= j < |init| ==> init[j] == events[j];
      BySourceOf(init, i);
      assert events[i].occupant.source != events[last].occupant.source;
    }
  }

  lemma {:induction false} LastSlotBounds(events: seq<Event>, i: nat)
    requires i < |events|
    ensures events[i].at <= LastSlot(events)
    decreases |events|
  {
    if |events| > 1 && i < |events| - 1 { LastSlotBounds(events[..|events| - 1], i); }
  }

  // ---------- when the validator reports nothing ----------

  /** A row is a sound exchange of an event. */
  ghost predicate RowSound(p: Plan, event: Event, lastSlot: real, row: Row, revision: string) {
    && row.hashesMatch && row.request == row.body == BodyOf(p, event, row.wall)
    && row.kase == CaseOfEvent(event.occupant) && row.group == GroupOfEvent(event.occupant)
    && 0.0 <= row.wall - p.startAt - event.at <= LATENESS && 0.0 <= row.ended - row.wall <= ACK_SECONDS
    && row.ended - p.startAt <= lastSlot + COMPLETION_SLACK
    && row.status == 200 && row.responseOk && row.revisions == [revision] && row.accepted != Some(false)
  }

  ghost predicate RowsSound(p: Plan, expected: map<int, Event>, ledger: seq<Row>, revision: string, k: nat)
    requires k <= |ledger|
  {
    && (forall i :: 0 <= i < k ==>
          ledger[i].seqNo in expected && RowSound(p, expected[ledger[i].seqNo], LastSlot(p.events), ledger[i], revision))
    && forall i, j :: 0 <= i < j < k ==> ledger[i].seqNo != ledger[j].seqNo
  }

  ghost predicate GroupSound(group: Group, bySource: map<SourceId, int>, seen: map<int, Row>) {
    && SourcesSeen(bySource, seen, group.sources) && !TooClose(Walls(bySource, seen, group.sources))
    && SameMinute(Walls(bySource, seen, group.sources))
  }

  ghost predicate SeqNoBefore(ledger: seq<Row>, k: nat, s: int)
    requires k <= |ledger|
  {
    exists i :: 0 <= i < k && ledger[i].seqNo == s
  }

  lemma {:induction false} SeenSound(expected: map<int, Event>, ledger: seq<Row>, k: nat)
    requires k <= |ledger| && forall i :: 0 <= i < k ==> ledger[i].seqNo in expected
    requires forall i, j :: 0 <= i < j < k ==> ledger[i].seqNo != ledger[j].seqNo
    ensures forall s :: s in Seen(expected, ledger, k) <==> SeqNoBefore(ledger, k, s)
    ensures forall i :: 0 <= i < k ==>
      ledger[i].seqNo in Seen(expected, ledger, k) && Seen(expected, ledger, k)[ledger[i].seqNo] == ledger[i]
    ensures |Seen(expected, ledger, k)| == k
  {
    if k > 0 {
      SeenSound(expected, ledger, k - 1);
      var row, before := ledger[k - 1], Seen(expected, ledger, k - 1);
      assert row.seqNo !in before;
      forall s ensures s in Seen(expected, ledger, k) <==> SeqNoBefore(ledger, k, s) {
        if SeqNoBefore(ledger, k - 1, s) {
          var i :| 0 <= i < k - 1 && ledger[i].seqNo == s;
          assert ledger[i].seqNo == s;
        }
      }
      forall i | 0 <= i < k
        ensures ledger[i].seqNo in Seen(expected, ledger, k) && Seen(expected, ledger, k)[ledger[i].seqNo] == ledger[i]
      {
        if i < k - 1 { assert SeqNoBefore(ledger, k - 1, ledger[i].seqNo); }
      }
    }
  }

  lemma NoFaultIff(p: Plan, expected: map<int, Event>, lastSlot: real, seen: map<int, Row>, row: Row, revision: string)
    ensures RowFault(p, expected, lastSlot, seen, row, revision) == None <==>
      row.seqNo in expected && row.seqNo !in seen && RowSound(p, expected[row.seqNo], lastSlot, row, revision)
  {
  }

  lemma RowsSoundStep(p: Plan, expected: map<int, Event>, ledger: seq<Row>, revision: string, k: nat)
    requires k < |ledger|
    ensures RowsSound(p, expected, ledger, revision, k + 1) <==>
      && RowsSound(p, expected, ledger, revision, k) && !SeqNoBefore(ledger, k, ledger[k].seqNo)
      && ledger[k].seqNo in expected && RowSound(p, expected[ledger[k].seqNo], LastSlot(p.events), ledger[k], revision)
  {
  }

  lemma NoFaultStep(p: Plan, expected: map<int, Event>, ledger: seq<Row>, revision: string, k: nat)
    requires k < |ledger| && RowsSound(p, expected, ledger, revision, k)
    ensures RowFault(p, expected, LastSlot(p.events), Seen(expected, ledger, k), ledger[k], revision) == None <==>
      RowsSound(p, expected, ledger, revision, k + 1)
  {
    NoFaultIff(p, expected, LastSlot(p.events), Seen(expected, ledger, k), ledger[k], revision);
    SeenSound(expected, ledger, k);
    RowsSoundStep(p, expected, ledger, revision, k);
  }

  lemma {:induction false} NoRowErrors(p: Plan, expected: map<int, Event>, ledger: seq<Row>, revision: string, k: nat)
    requires k <= |ledger|
    ensures RowErrors(p, expected, LastSlot(p.events), ledger, revision, k) == [] <==>
      RowsSound(p, expected, ledger, revision, k)
  {
    if k > 0 {
      NoRowErrors(p, expected, ledger, revision, k - 1);
      if RowsSound(p, expected, ledger, revision, k - 1) {
        NoFaultStep(p, expected, ledger, revision, k - 1);
      } else {
        RowsSoundStep(p, expected, ledger, revision, k - 1);
      }
    }
  }

  lemma NoErrorsInGroup(group: Group, bySource: map<SourceId, int>, seen: map<int, Row>, g: nat)
    ensures OneGroupErrors(group, bySource, seen, g) == [] <==> GroupSound(group, bySource, seen)
  {
  }

  lemma EmptyBoth<T>(a: seq<T>, b: seq<T>)
    ensures a + b == [] <==> a == [] && b == []
  {
    assert |a + b| == |a| + |b|;
  }

  ghost predicate GroupsSound(groups: seq<Group>, bySource: map<SourceId, int>, seen: map<int, Row>, k: nat)
    requires k <= |groups|
  {
    k > 0 ==> GroupsSound(groups, bySource, seen, k - 1) && GroupSound(groups[k - 1], bySource, seen)
  }

  lemma {:induction false} GroupsSoundIff(groups: seq<Group>, bySource: map<SourceId, int>, seen: map<int, Row>, k: nat)
    requires k <= |groups|
    ensures GroupsSound(groups, bySource, seen, k) <==> forall g :: 0 <= g < k ==> GroupSound(groups[g], bySource, seen)
  {
    if k > 0 { GroupsSoundIff(groups, bySource, seen, k - 1); }
  }

  lemma {:induction false} NoGroupErrors(groups: seq<Group>, bySource: map<SourceId, int>, seen: map<int, Row>, k: nat)
    requires k <= |groups|
    ensures GroupErrors(groups, bySource, seen, k) == [] <==> GroupsSound(groups, bySource, seen, k)
  {
    if k > 0 {
      NoGroupErrors(groups, bySource, seen, k - 1);
      NoErrorsInGroup(groups[k - 1], bySource, seen, k - 1);
      EmptyBoth(GroupErrors(groups, bySource, seen, k - 1), OneGroupErrors(groups[k - 1], bySource, seen, k - 1));
    }
  }

  /** As many rows as events, each of a different known number: every number was sent. */
  lemma SeenAll(expected: map<int, Event>, ledger: seq<Row>)
    requires |expected| == |ledger| && forall i :: 0 <= i < |ledger| ==> ledger[i].seqNo in expected
    requires forall i, j :: 0 <= i < j < |ledger| ==> ledger[i].seqNo != ledger[j].seqNo
    ensures Seen(expected, ledger, |ledger|).Keys == expected.Keys
  {
    SeenSound(expected, ledger, |ledger|);
    var seen := Seen(expected, ledger, |ledger|);
    assert forall s :: s in seen.Keys ==> s in expected.Keys;
    SubsetCardinality(seen.Keys, expected.Keys);
  }

  lemma EmptyParts<T>(a: seq<T>, b: seq<T>, c: seq<T>, d: seq<T>)
    ensures a + b + c + d == [] <==> a == [] && b == [] && c == [] && d == []
  {
    assert |a + b + c + d| == |a| + |b| + |c| + |d|;
  }

  /** The validator reports nothing exactly when every event has its one sound exchange and every group keeps its
      spacing and
      minute. That every sequence number was sent follows by counting; the separate inventory check adds nothing. */
  lemma InputsAcceptedIff(p: Plan, ledger: seq<Row>, revision: string)
    ensures InputErrors(p, ledger, revision) == [] <==>
      && RevisionOk(revision) && |BySeq(p.events)| == p.total == |ledger|
      && RowsSound(p, BySeq(p.events), ledger, revision, |ledger|)
      && forall g :: 0 <= g < |p.groups| ==>
           GroupSound(p.groups[g], BySource(p.events), Seen(BySeq(p.events), ledger, |ledger|))
  {
    var expected := BySeq(p.events);
    var seen := Seen(expected, ledger, |ledger|);
    var header, rows := HeaderErrors(p, expected, ledger, revision), RowErrors(p, expected, LastSlot(p.events), ledger, revision, |ledger|);
    var inventory := if seen.Keys != expected.Keys then [SequenceInventory] else [];
    EmptyParts(header, rows, inventory, GroupErrors(p.groups, BySource(p.events), seen, |p.groups|));
    assert header == [] <==> RevisionOk(revision) && |expected| == p.total == |ledger|;
    NoRowErrors(p, expected, ledger, revision, |ledger|);
    NoGroupErrors(p.groups, BySource(p.events), seen, |p.groups|);
    GroupsSoundIff(p.groups, BySource(p.events), seen, |p.groups|);
    if RowsSound(p, expected, ledger, revision, |ledger|) && |expected| == |ledger| { SeenAll(expected, ledger); }
  }

  // ---------- sending a plan ----------

  /** The record of the event with the row's number, sent `lags` after its time and answered `acks` later. */
  ghost predicate ExchangeOf(p: Plan, row: Row, lags: seq<real>, acks: seq<real>, revision: string)
    requires |lags| == |acks| == |p.events|
  {
    && 0 <= row.seqNo < |p.events|
    && var now := p.startAt + p.events[row.seqNo].at + lags[row.seqNo];
       row == Exchange(p, p.events[row.seqNo], now, now + acks[row.seqNo], revision)
  }

  /** Every event was sent once and recorded exactly; the records may stand in any order. */
  ghost predicate Sent(p: Plan, ledger: seq<Row>, lags: seq<real>, acks: seq<real>, revision: string) {
    && |ledger| == |lags| == |acks| == |p.events|
    && (forall i :: 0 <= i < |ledger| ==> ExchangeOf(p, ledger[i], lags, acks, revision))
    && forall i, j :: 0 <= i < j < |ledger| ==> ledger[i].seqNo != ledger[j].seqNo
  }

  ghost predicate Prompt(lags: seq<real>, acks: seq<real>) {
    && (forall i :: 0 <= i < |lags| ==> 0.0 <= lags[i] <= LATENESS)
    && forall i :: 0 <= i < |acks| ==> 0.0 <= acks[i] <= ACK_SECONDS
  }

  /** Within each group no input overtakes the lag of an earlier one. */
  ghost predicate OrderedLags(l: Layout, lags: seq<real>) {
    forall g, i, j :: 0 <= g < |l.slots| && 0 <= i < j < |l.slots[g]| && l.slots[g][i] < |lags| && l.slots[g][j] < |lags| ==>
      lags[l.slots[g][i]] <= lags[l.slots[g][j]]
  }

  lemma SentRowsSound(p: Plan, times: seq<real>, l: Layout, cases: seq<Case>, ledger: seq<Row>, lags: seq<real>,
                      acks: seq<real>, revision: string)
    requires Planned(p, times, l, cases) && Sent(p, ledger, lags, acks, revision) && Prompt(lags, acks)
    ensures RowsSound(p, BySeq(p.events), ledger, revision, |ledger|) && |BySeq(p.events)| == p.total == |ledger|
  {
    BySeqOf(p.events);
    forall i | 0 <= i < |ledger|
      ensures ledger[i].seqNo in BySeq(p.events)
      ensures RowSound(p, BySeq(p.events)[ledger[i].seqNo], LastSlot(p.events), ledger[i], revision)
    {
      LastSlotBounds(p.events, ledger[i].seqNo);
    }
  }

  /** What a plan fixes about one of its groups. */
  ghost predicate GroupFacts(p: Plan, times: seq<real>, group: Group, slots: seq<nat>) {
    && |slots| == |group.sources| > 0 && Slotted(times, slots) && Spaced(times, slots)
    && OneMinute(p.startAt, times, slots)
    && |times| == |p.events|
    && forall i :: 0 <= i < |slots| ==>
         && p.events[slots[i]].occupant.source == group.sources[i] && p.events[slots[i]].seqNo == slots[i]
         && p.events[slots[i]].at == times[slots[i]]
         && group.sources[i] in BySource(p.events) && BySource(p.events)[group.sources[i]] == slots[i]
  }

  lemma GroupFactsHold(p: Plan, times: seq<real>, l: Layout, cases: seq<Case>, g: nat)
    requires Planned(p, times, l, cases) && g < |p.groups|
    ensures g < |l.slots| && GroupFacts(p, times, p.groups[g], l.slots[g])
  {
    assert PlacedAt(p.startAt, times, l, g, Duration(Ramp(p.profile), Hold(p.profile)), p.packets);
    forall i | 0 <= i < |l.slots[g]|
      ensures p.groups[g].sources[i] in BySource(p.events)
      ensures BySource(p.events)[p.groups[g].sources[i]] == l.slots[g][i]
    {
      InputHasOwnSlot(p, times, l, cases, g, i, g, i);
      BySourceAt(p, times, l, cases, l.slots[g][i]);
    }
  }

  /** The validator finds every event's row, sent its lag after its time. */
  ghost predicate WallsSeen(p: Plan, seen: map<int, Row>, lags: seq<real>)
    requires |lags| == |p.events|
  {
    forall s :: 0 <= s < |p.events| ==> s in seen && seen[s].wall == p.startAt + p.events[s].at + lags[s]
  }

  /** The wall time of each input of a group, as the validator finds it. */
  lemma GroupWalls(p: Plan, times: seq<real>, group: Group, slots: seq<nat>, seen: map<int, Row>, lags: seq<real>)
    requires GroupFacts(p, times, group, slots) && |lags| == |p.events| && WallsSeen(p, seen, lags)
    ensures SourcesSeen(BySource(p.events), seen, group.sources)
    ensures forall i :: 0 <= i < |slots| ==>
      Walls(BySource(p.events), seen, group.sources)[i] == p.startAt + times[slots[i]] + lags[slots[i]]
  {
  }

  lemma BySourceAt(p: Plan, times: seq<real>, l: Layout, cases: seq<Case>, i: nat)
    requires Planned(p, times, l, cases) && i < |p.events|
    ensures p.events[i].occupant.source in BySource(p.events) && BySource(p.events)[p.events[i].occupant.source] == i
  {
    forall j, k | 0 <= j < |p.events| && 0 <= k < |p.events| && p.events[j].occupant.source == p.events[k].occupant.source
      ensures j == k
    {
      SourcesDistinct(p, times, l, cases, j, k);
    }
    BySourceOf(p.events, i);
  }

  /** Whatever the lags, no group straddles a minute. */
  lemma MinutesHold(epoch: real, times: seq<real>, slots: seq<nat>, lags: seq<real>, walls: seq<real>)
    requires |slots| == |walls| > 0 && Slotted(times, slots) && Spaced(times, slots) && OneMinute(epoch, times, slots)
    requires |lags| == |times|
    requires forall i :: 0 <= i < |lags| ==> 0.0 <= lags[i] <= LATENESS
    requires forall i :: 0 <= i < |slots| ==> walls[i] == epoch + times[slots[i]] + lags[slots[i]]
    ensures SameMinute(walls)
  {
    var last := |slots| - 1;
    forall i | 0 <= i < |walls| ensures Minute(walls[i]) == Minute(epoch + times[slots[last]] + LATENESS) {
      if i < last { assert times[slots[i]] + SPACING <= times[slots[last]]; }
      MinuteMonotone(epoch + times[slots[i]], walls[i]);
      MinuteMonotone(walls[i], epoch + times[slots[last]] + LATENESS);
    }
  }

  lemma SpacingHolds(epoch: real, times: seq<real>, slots: seq<nat>, lags: seq<real>, walls: seq<real>)
    requires |slots| == |walls| && Slotted(times, slots) && Spaced(times, slots) && |lags| == |times|
    requires forall i :: 0 <= i < |slots| ==> walls[i] == epoch + times[slots[i]] + lags[slots[i]]
    requires forall i, j :: 0 <= i < j < |slots| ==> lags[slots[i]] <= lags[slots[j]]
    ensures !TooClose(walls)
  {
    forall i | 0 < i < |walls| ensures walls[i] - walls[i - 1] >= 3.0 {
      assert times[slots[i - 1]] + SPACING <= times[slots[i]];
      assert lags[slots[i - 1]] <= lags[slots[i]];
    }
  }

  /** A group's check, after prompt sending: never a missing source or a straddled minute, and no spacing error when the
      lags of the group do not decrease. */
  lemma GroupAgrees(p: Plan, times: seq<real>, l: Layout, cases: seq<Case>, ledger: seq<Row>, lags: seq<real>,
                    acks: seq<real>, revision: string, g: nat)
    requires Planned(p, times, l, cases) && Sent(p, ledger, lags, acks, revision) && Prompt(lags, acks)
    requires g < |p.groups|
    ensures var seen := Seen(BySeq(p.events), ledger, |ledger|);
            && SourcesSeen(BySource(p.events), seen, p.groups[g].sources)
            && SameMinute(Walls(BySource(p.events), seen, p.groups[g].sources))
            && (OrderedLags(l, lags) ==> GroupSound(p.groups[g], BySource(p.events), seen))
  {
    var seen := Seen(BySeq(p.events), ledger, |ledger|);
    LedgerSeen(p, times, l, cases, ledger, lags, acks, revision);
    GroupFactsHold(p, times, l, cases, g);
    GroupTimes(p, times, p.groups[g], l.slots[g], seen, lags, acks);
    SlotLags(l, lags, g, |p.events|);
  }

  lemma LedgerSeen(p: Plan, times: seq<real>, l: Layout, cases: seq<Case>, ledger: seq<Row>, lags: seq<real>,
                   acks: seq<real>, revision: string)
    requires Planned(p, times, l, cases) && Sent(p, ledger, lags, acks, revision) && Prompt(lags, acks)
    ensures WallsSeen(p, Seen(BySeq(p.events), ledger, |ledger|), lags)
  {
    var expected := BySeq(p.events);
    SentRowsSound(p, times, l, cases, ledger, lags, acks, revision);
    SeenSound(expected, ledger, |ledger|);
    SeenAll(expected, ledger);
    BySeqOf(p.events);
    forall s | 0 <= s < |p.events|
      ensures s in Seen(expected, ledger, |ledger|)
      ensures Seen(expected, ledger, |ledger|)[s].wall == p.startAt + p.events[s].at + lags[s]
    {
      assert s in expected.Keys && SeqNoBefore(ledger, |ledger|, s);
      var i :| 0 <= i < |ledger| && ledger[i].seqNo == s;
      assert ExchangeOf(p, ledger[i], lags, acks, revision);
    }
  }

  lemma SlotLags(l: Layout, lags: seq<real>, g: nat, n: nat)
    requires g < |l.slots| && |lags| == n && forall i :: 0 <= i < |l.slots[g]| ==> l.slots[g][i] < n
    ensures OrderedLags(l, lags) ==> forall i, j :: 0 <= i < j < |l.slots[g]| ==>
      lags[l.slots[g][i]] <= lags[l.slots[g][j]]
  {
  }

  lemma GroupTimes(p: Plan, times: seq<real>, group: Group, slots: seq<nat>, seen: map<int, Row>, lags: seq<real>,
                   acks: seq<real>)
    requires GroupFacts(p, times, group, slots) && |lags| == |p.events| && WallsSeen(p, seen, lags)
    requires Prompt(lags, acks)
    ensures SourcesSeen(BySource(p.events), seen, group.sources)
    ensures SameMinute(Walls(BySource(p.events), seen, group.sources))
    ensures (forall i, j :: 0 <= i < j < |slots| ==> lags[slots[i]] <= lags[slots[j]]) ==>
      GroupSound(group, BySource(p.events), seen)
  {
    GroupWalls(p, times, group, slots, seen, lags);
    var walls := Walls(BySource(p.events), seen, group.sources);
    MinutesHold(p.startAt, times, slots, lags, walls);
    if forall i, j :: 0 <= i < j < |slots| ==> lags[slots[i]] <= lags[slots[j]] {
      SpacingHolds(p.startAt, times, slots, lags, walls);
    }
  }

  /** A plan sent promptly, without an input overtaking its group, is accepted without a single error, in whatever
      order the
      exchanges were recorded. */
  lemma PlannerAndValidatorAgree(p: Plan, times: seq<real>, l: Layout, cases: seq<Case>, ledger: seq<Row>,
                                 lags: seq<real>, acks: seq<real>, revision: string)
    requires Planned(p, times, l, cases) && Sent(p, ledger, lags, acks, revision) && Prompt(lags, acks)
    requires OrderedLags(l, lags)
    requires RevisionOk(revision)
    ensures InputErrors(p, ledger, revision) == []
  {
    InputsAcceptedIff(p, ledger, revision);
    SentRowsSound(p, times, l, cases, ledger, lags, acks, revision);
    forall g | 0 <= g < |p.groups|
      ensures GroupSound(p.groups[g], BySource(p.events), Seen(BySeq(p.events), ledger, |ledger|))
    {
      GroupAgrees(p, times, l, cases, ledger, lags, acks, revision, g);
    }
  }

  lemma {:induction false} OnlySpacing(p: Plan, times: seq<real>, l: Layout, cases: seq<Case>, ledger: seq<Row>,
                                       lags: seq<real>, acks: seq<real>,
                                       revision: string, k: nat)
    requires Planned(p, times, l, cases) && Sent(p, ledger, lags, acks, revision) && Prompt(lags, acks)
    requires k <= |p.groups|
    ensures forall e :: e in GroupErrors(p.groups, BySource(p.events), Seen(BySeq(p.events), ledger, |ledger|), k) ==>
      e.SpacingDiffers?
  {
    if k > 0 {
      OnlySpacing(p, times, l, cases, ledger, lags, acks, revision, k - 1);
      GroupAgrees(p, times, l, cases, ledger, lags, acks, revision, k - 1);
    }
  }

  /** With arbitrary lags in the allowance, spacing within a group is the only thing the validator can object to. */
  lemma PromptSendingOnlySpacing(p: Plan, times: seq<real>, l: Layout, cases: seq<Case>, ledger: seq<Row>,
                                 lags: seq<real>, acks: seq<real>, revision: string)
    requires Planned(p, times, l, cases) && Sent(p, ledger, lags, acks, revision) && Prompt(lags, acks)
    requires RevisionOk(revision)
    ensures forall e :: e in InputErrors(p, ledger, revision) ==> e.SpacingDiffers?
  {
    SentRowsSound(p, times, l, cases, ledger, lags, acks, revision);
    NoRowErrors(p, BySeq(p.events), ledger, revision, |ledger|);
    SeenAll(BySeq(p.events), ledger);
    OnlySpacing(p, times, l, cases, ledger, lags, acks, revision, |p.groups|);
    assert HeaderErrors(p, BySeq(p.events), ledger, revision) == [];
    assert InputErrors(p, ledger, revision) ==
      GroupErrors(p.groups, BySource(p.events), Seen(BySeq(p.events), ledger, |ledger|), |p.groups|);
  }
}
