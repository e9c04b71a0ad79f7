/** The whole plan, the exchange records of a run, and the validator that must accept what the planner promised. */
module MixedLoad {
  import opened Common
  import opened Diffusion
  import opened Slots
  import opened MixedPlan

  const ACK_SECONDS := 20.0
  const COMPLETION_SLACK := 22.0
  const VALIDITY_MS := 7_200_000

  predicate Accepts(run: string, rate: nat) {
    (rate == 10 || rate == 15 || rate == 20 || rate == 25) && !Blank(run)
  }

  /** `int(len(times) * .3) // 31`. */
  function Packets(total: nat): nat { total * 3 / 10 / 31 }

  function OccupantAt(occupied: map<nat, Occupant>, seqNo: nat): Occupant {
    if seqNo in occupied then occupied[seqNo] else Ordinary(seqNo)
  }

  /** What the planner promises about a plan for the given cases, and the layout behind it. */
  ghost predicate Planned(p: Plan, times: seq<real>, l: Layout, cases: seq<Case>) {
    var ramp, hold := Ramp(p.profile), Hold(p.profile);
    && Accepts(p.run, p.rate) && Diffused(times, p.rate, ramp, hold, Duration(ramp, hold))
    && |p.events| == |times|
    && (forall i :: 0 <= i < |times| ==> p.events[i] == Event(i, times[i], OccupantAt(l.occupied, i)))
    && p.groups == l.groups && Sound(p.startAt, times, l, Duration(ramp, hold), Packets(|times|))
    && Summed(l, cases, Packets(|times|), 0) && Listed(l.groups, cases, Packets(|times|), 0)
    && p.total == |times| && p.packets == Packets(|times|) && p.correlationInputs == |l.occupied|
    && p.ordinaryInputs == |times| - |l.occupied| && p.syntheticParents == p.packets * 6
    && p.existingParentLinks == p.packets
  }

  /** One event per send slot: its owner, or an ordinary event. */
  method FillEvents(times: seq<real>, occupied: map<nat, Occupant>) returns (events: seq<Event>)
    ensures |events| == |times|
    ensures forall i :: 0 <= i < |times| ==> events[i] == Event(i, times[i], OccupantAt(occupied, i))
  {
    events := [];
    var i := 0;
    while i < |times|
      invariant 0 <= i <= |times| && |events| == i
      invariant forall j :: 0 <= j < i ==> events[j] == Event(j, times[j], OccupantAt(occupied, j))
    {
      events := events + [Event(i, times[i], OccupantAt(occupied, i))];
      i := i + 1;
    }
  }

  method MakePlan(run: string, rate: nat, startAt: real, profile: Profile)
    returns (r: Option<Plan>, ghost times: seq<real>, ghost l: Layout)
    ensures r.Some? ==>
      Accepts(run, rate) && r.value.run == run && r.value.rate == rate && r.value.startAt == startAt && r.value.profile == profile
    ensures r.Some? ==> Planned(r.value, times, l, Scenario())
    ensures r.Some? ==> Greedy(startAt, times, l, Scenario(), Duration(Ramp(profile), Hold(profile)), Packets(|times|))
    ensures Accepts(run, rate) ==>
      Diffused(times, rate, Ramp(profile), Hold(profile), Duration(Ramp(profile), Hold(profile)))
    ensures r.None? <==>
      || !Accepts(run, rate)
      || NoRoom(startAt, times, Scenario(), Duration(Ramp(profile), Hold(profile)), Packets(|times|))
  {
    times, l := [], Layout(map[], [], []);
    if !Accepts(run, rate) { return None, times, l; }
    var ramp, hold := Ramp(profile), Hold(profile);
    var sent := Diffuse(rate, ramp, hold);
    DiffusedIncreasing(sent, rate, ramp, hold);
    ScenarioTotals();
    times := sent;
    var packets := Packets(|sent|);
    var placed := PlaceAll(startAt, sent, Scenario(), Duration(ramp, hold), packets);
    if placed.None? { return None, times, l; }
    var layout := placed.value;
    l := layout;
    var events := FillEvents(sent, layout.occupied);
    return Some(Plan(run, rate, profile, startAt, events, layout.groups, |events|, packets, |layout.occupied|,
                     |events| - |layout.occupied|, packets * 6, packets)), times, l;
  }

  // ---------- what the planner promised ----------

  lemma PacketCounts(l: Layout, cases: seq<Case>, packets: nat)
    requires Totals(cases, 14, 31, 6, 1) && Summed(l, cases, packets, 0)
    ensures |l.occupied| == 31 * packets && |l.groups| == 14 * packets
    ensures GroupParents(l.groups) == 6 * packets && GroupLinks(l.groups) == packets
  {
    assert cases[..0] == [];
  }

  lemma PacketShare(total: nat)
    ensures 10 * (31 * Packets(total)) <= 3 * total
  {
  }

  /** Correlation inputs are 31 to a packet and at most 30% of the plan; parents and links are conserved over the
      groups. */
  lemma CountsConserved(p: Plan, times: seq<real>, l: Layout, cases: seq<Case>)
    requires Planned(p, times, l, cases) && Totals(cases, 14, 31, 6, 1)
    ensures p.correlationInputs == 31 * p.packets && 10 * p.correlationInputs <= 3 * p.total
    ensures p.ordinaryInputs + p.correlationInputs == p.total
    ensures GroupParents(p.groups) == p.syntheticParents == 6 * p.packets
    ensures GroupLinks(p.groups) == p.existingParentLinks
    ensures p.total == (p.rate as real * (Hold(p.profile) as real + 1.2 * Ramp(p.profile) as real)).Floor
  {
    PacketCounts(l, cases, p.packets);
    PacketShare(p.total);
    TotalEvents(times, p.rate, Ramp(p.profile), Hold(p.profile));
  }

  /** Every scenario input has a slot of its own, and the event in it is that input. */
  lemma InputHasOwnSlot(p: Plan, times: seq<real>, l: Layout, cases: seq<Case>, g: nat, i: nat, h: nat, j: nat)
    requires Planned(p, times, l, cases) && g < |p.groups| && i < |l.slots[g]| && h < |p.groups| && j < |l.slots[h]|
    ensures l.slots[g][i] < |p.events| && i < |p.groups[g].sources|
    ensures p.events[l.slots[g][i]].occupant.source == p.groups[g].sources[i]
    ensures l.slots[g][i] == l.slots[h][j] <==> g == h && i == j
  {
    assert PlacedAt(p.startAt, times, l, g, Duration(Ramp(p.profile), Hold(p.profile)), p.packets);
    assert PlacedAt(p.startAt, times, l, h, Duration(Ramp(p.profile), Hold(p.profile)), p.packets);
    if g < h { assert Before(p.groups[g], p.groups[h].cycle, p.groups[h].number); }
    if h < g { assert Before(p.groups[h], p.groups[g].cycle, p.groups[g].number); }
  }

  /** At or after the share that falls to the cycle of everything but the last 75 s, and 0.18 s for every case before. */
  ghost predicate InTurn(at: real, cycle: nat, number: nat, duration: nat, packets: nat) {
    && duration >= 75 && packets > 0
    && at >= cycle as real * (duration - 75) as real / packets as real + 0.18 * number as real
  }

  /** The packets are spread over the plan: no input of a case is sent before its turn. */
  lemma InputsSpread(p: Plan, times: seq<real>, l: Layout, cases: seq<Case>, g: nat, i: nat)
    requires Planned(p, times, l, cases) && g < |p.groups| && i < |l.slots[g]|
    ensures l.slots[g][i] < |p.events|
    ensures InTurn(p.events[l.slots[g][i]].at, p.groups[g].cycle, p.groups[g].number,
                   Duration(Ramp(p.profile), Hold(p.profile)), p.packets)
  {
    var duration := Duration(Ramp(p.profile), Hold(p.profile));
    NoGroupsWithoutPackets(l, cases, p.packets);
    assert PlacedAt(p.startAt, times, l, g, duration, p.packets);
    ProfileLasts(p.profile);
    GroupSpread(p.startAt, times, l.occupied, l.groups[g], l.slots[g], i, duration, p.packets);
  }

  lemma GroupSpread(epoch: real, times: seq<real>, occupied: map<nat, Occupant>, g: Group, slots: seq<nat>, i: nat,
                    duration: nat, packets: nat)
    requires Placed(epoch, times, occupied, g, slots, Target(g.cycle, g.number, duration, packets)) && i < |slots|
    requires duration >= 75 && packets > 0
    ensures slots[i] < |times| && InTurn(times[slots[i]], g.cycle, g.number, duration, packets)
  {
    var target := Target(g.cycle, g.number, duration, packets);
    NotBeforeTarget(epoch, times, occupied, g, slots, i, target);
    TargetIs(g.cycle, g.number, duration, packets);
  }

  lemma ProfileLasts(profile: Profile)
    ensures Duration(Ramp(profile), Hold(profile)) >= 75
  {
  }

  lemma TargetIs(cycle: nat, number: nat, duration: nat, packets: nat)
    requires duration >= 75 && packets > 0
    ensures Target(cycle, number, duration, packets)
         == cycle as real * (duration - 75) as real / packets as real + 0.18 * number as real
  {
  }

  /** Nothing of a placed group is sent before its target. */
  lemma NotBeforeTarget(epoch: real, times: seq<real>, occupied: map<nat, Occupant>, g: Group, slots: seq<nat>, i: nat,
                        target: real)
    requires Placed(epoch, times, occupied, g, slots, target) && i < |slots|
    ensures slots[i] < |times| && times[slots[i]] >= target
  {
    if i > 0 { assert times[slots[0]] + SPACING <= times[slots[i]]; }
  }

  lemma NoGroupsWithoutPackets(l: Layout, cases: seq<Case>, packets: nat)
    requires Summed(l, cases, packets, 0) && l.groups != []
    ensures packets > 0
  {
  }

  /** No two events of a plan share a source id. */
  lemma SourcesDistinct(p: Plan, times: seq<real>, l: Layout, cases: seq<Case>, i: nat, j: nat)
    requires Planned(p, times, l, cases) && i < |p.events| && j < |p.events|
    requires p.events[i].occupant.source == p.events[j].occupant.source
    ensures i == j
  {
  }

  // ---------- the exchange records ----------

  /** The request body: everything it copies from the event, and the wall time cut to milliseconds. */
  datatype Body = Body(run: string, occupant: Occupant, startsAtMs: int, endsAtMs: int)

  function BodyOf(p: Plan, e: Event, now: real): Body {
    Body(p.run, e.occupant, (now * 1000.0).Floor, (now * 1000.0).Floor + VALIDITY_MS)
  }

  function CaseOfEvent(o: Occupant): Option<nat> { if o.site.GroupSite? then Some(o.site.number) else None }

  function GroupOfEvent(o: Occupant): Option<Site> { if o.site.GroupSite? then Some(o.site) else None }

  /** `hashesMatch`: both bodies hash to the recorded digests; `request` is the decoded request body. */
  datatype Row = Row(seqNo: int, wall: real, ended: real, body: Body, request: Body, hashesMatch: bool,
                     kase: Option<nat>,
                     group: Option<Site>, status: int, responseOk: bool, revisions: seq<string>, accepted: Option<bool>)

  function Exchange(p: Plan, e: Event, now: real, ended: real, revision: string): Row {
    Row(e.seqNo, now, ended, BodyOf(p, e, now), BodyOf(p, e, now), true, CaseOfEvent(e.occupant), GroupOfEvent(e.occupant), 200, true, [revision], None)
  }

  // ---------- the validator ----------

  datatype Fault = UnknownSequence | DuplicateSequence | HashDiffers | PayloadDiffers | BindingDiffers | LatenessDiffers
                 | AckLate | CompletionLate | AckMissing | AcceptedContradicts

  datatype Error = RevisionPin | Inventory | RowError(k: nat, fault: Fault) | SequenceInventory
                 | SourceMissing(g: nat) | SpacingDiffers(g: nat) | MinuteStraddles(g: nat)

  predicate RevisionOk(revision: string) {
    |revision| == 64 && forall i :: 0 <= i < |revision| ==> '0' <= revision[i] <= '9' || 'a' <= revision[i] <= 'f'
  }

  /** `{e['seq']: e for e in events}`: the last event of a sequence number. */
  function BySeq(events: seq<Event>): map<int, Event> {
    if events == [] then map[] else BySeq(events[..|events| - 1])[events[|events| - 1].seqNo := events[|events| - 1]]
  }

  function BySource(events: seq<Event>): map<SourceId, int> {
    if events == [] then map[]
    else BySource(events[..|events| - 1])[events[|events| - 1].occupant.source := events[|events| - 1].seqNo]
  }

  function LastSlot(events: seq<Event>): real {
    if events == [] then 0.0
    else if |events| == 1 then events[0].at
    else var rest := LastSlot(events[..|events| - 1]); if events[|events| - 1].at > rest then events[|events| - 1].at else rest
  }

  /** The rows accepted as the exchange of their sequence number: the first of each known number. */
  function Seen(expected: map<int, Event>, ledger: seq<Row>, k: nat): map<int, Row>
    requires k <= |ledger|
  {
    if k == 0 then map[]
    else
      var row, before := ledger[k - 1], Seen(expected, ledger, k - 1);
      if row.seqNo in expected && row.seqNo !in before then before[row.seqNo := row] else before
  }

  function RowFault(p: Plan, expected: map<int, Event>, lastSlot: real, seen: map<int, Row>, row: Row,
                    revision: string): Option<Fault> {
    if row.seqNo !in expected then Some(UnknownSequence)
    else if row.seqNo in seen then Some(DuplicateSequence)
    else
      var event := expected[row.seqNo];
      var lag := row.wall - p.startAt - event.at;
      if !row.hashesMatch then Some(HashDiffers)
      else if row.request != row.body || row.body != BodyOf(p, event, row.wall) then Some(PayloadDiffers)
      else if row.kase != CaseOfEvent(event.occupant) || row.group != GroupOfEvent(event.occupant) then Some(BindingDiffers)
      else if !(0.0 <= lag <= LATENESS) then Some(LatenessDiffers)
      else if !(0.0 <= row.ended - row.wall <= ACK_SECONDS) then Some(AckLate)
      else if row.ended - p.startAt > lastSlot + COMPLETION_SLACK then Some(CompletionLate)
      else if row.status != 200 || !row.responseOk || row.revisions != [revision] then Some(AckMissing)
      else if row.accepted == Some(false) then Some(AcceptedContradicts)
      else None
  }

  function RowErrors(p: Plan, expected: map<int, Event>, lastSlot: real, ledger: seq<Row>, revision: string,
                     k: nat): seq<Error>
    requires k <= |ledger|
  {
    if k == 0 then []
    else
      var fault := RowFault(p, expected, lastSlot, Seen(expected, ledger, k - 1), ledger[k - 1], revision);
      RowErrors(p, expected, lastSlot, ledger, revision, k - 1) + (if fault.Some? then [RowError(k - 1, fault.value)] else [])
  }

  predicate SourcesSeen(bySource: map<SourceId, int>, seen: map<int, Row>, sources: seq<SourceId>) {
    forall i :: 0 <= i < |sources| ==> sources[i] in bySource && bySource[sources[i]] in seen
  }

  /** When each source of a group was sent. */
  function Walls(bySource: map<SourceId, int>, seen: map<int, Row>, sources: seq<SourceId>): (s: seq<real>)
    requires SourcesSeen(bySource, seen, sources)
    ensures |s| == |sources| && forall i :: 0 <= i < |s| ==> s[i] == seen[bySource[sources[i]]].wall
  {
    seq(|sources|, i requires 0 <= i < |sources| => seen[bySource[sources[i]]].wall)
  }

  predicate TooClose(walls: seq<real>) {
    exists i :: 0 < i < |walls| && walls[i] - walls[i - 1] < 3.0
  }

  predicate SameMinute(walls: seq<real>) {
    walls != [] && forall i :: 0 <= i < |walls| ==> Minute(walls[i]) == Minute(walls[0])
  }

  function GroupErrors(groups: seq<Group>, bySource: map<SourceId, int>, seen: map<int, Row>, g: nat): seq<Error>
    requires g <= |groups|
  {
    if g == 0 then []
    else GroupErrors(groups, bySource, seen, g - 1) + OneGroupErrors(groups[g - 1], bySource, seen, g - 1)
  }

  function OneGroupErrors(group: Group, bySource: map<SourceId, int>, seen: map<int, Row>, g: nat): seq<Error> {
    if !SourcesSeen(bySource, seen, group.sources) then [SourceMissing(g)]
    else
      var walls := Walls(bySource, seen, group.sources);
      (if TooClose(walls) then [SpacingDiffers(g)] else []) + (if SameMinute(walls) then [] else [MinuteStraddles(g)])
  }

  function HeaderErrors(p: Plan, expected: map<int, Event>, ledger: seq<Row>, revision: string): seq<Error> {
    (if RevisionOk(revision) then [] else [RevisionPin]) + (if |expected| != p.total || |ledger| != p.total then [Inventory] else [])
  }

  function InputErrors(p: Plan, ledger: seq<Row>, revision: string): seq<Error> {
    var expected := BySeq(p.events);
    var seen := Seen(expected, ledger, |ledger|);
    HeaderErrors(p, expected, ledger, revision)
    + RowErrors(p, expected, LastSlot(p.events), ledger, revision, |ledger|)
    + (if seen.Keys != expected.Keys then [SequenceInventory] else [])
    + GroupErrors(p.groups, BySource(p.events), seen, |p.groups|)
  }

  /** The ledger loop: the fault of every row, and the first row of every known sequence number. */
  method ReadLedger(p: Plan, expected: map<int, Event>, lastSlot: real, ledger: seq<Row>, revision: string)
    returns (errors: seq<Error>, seen: map<int, Row>)
    ensures errors == RowErrors(p, expected, lastSlot, ledger, revision, |ledger|)
    ensures seen == Seen(expected, ledger, |ledger|)
  {
    errors, seen := [], map[];
    var k := 0;
    while k < |ledger|
      invariant 0 <= k <= |ledger|
      invariant seen == Seen(expected, ledger, k)
      invariant errors == RowErrors(p, expected, lastSlot, ledger, revision, k)
    {
      var row := ledger[k];
      var fault := RowFault(p, expected, lastSlot, seen, row, revision);
      if row.seqNo in expected && row.seqNo !in seen { seen := seen[row.seqNo := row]; }
      if fault.Some? { errors := errors + [RowError(k, fault.value)]; }
      k := k + 1;
    }
  }

  method CheckGroup(group: Group, bySource: map<SourceId, int>, seen: map<int, Row>, g: nat) returns (errors: seq<Error>)
    ensures errors == OneGroupErrors(group, bySource, seen, g)
  {
    if !SourcesSeen(bySource, seen, group.sources) { return [SourceMissing(g)]; }
    var walls := Walls(bySource, seen, group.sources);
    errors := [];
    if TooClose(walls) { errors := errors + [SpacingDiffers(g)]; }
    if !SameMinute(walls) { errors := errors + [MinuteStraddles(g)]; }
  }

  method CheckGroups(groups: seq<Group>, bySource: map<SourceId, int>, seen: map<int, Row>) returns (errors: seq<Error>)
    ensures errors == GroupErrors(groups, bySource, seen, |groups|)
  {
    errors := [];
    var g := 0;
    while g < |groups|
      invariant 0 <= g <= |groups|
      invariant errors == GroupErrors(groups, bySource, seen, g)
    {
      var found := CheckGroup(groups[g], bySource, seen, g);
      errors := errors + found;
      g := g + 1;
    }
  }

  method CheckHeader(p: Plan, expected: map<int, Event>, ledger: seq<Row>, revision: string)
    returns (errors: seq<Error>)
    ensures errors == HeaderErrors(p, expected, ledger, revision)
  {
    errors := [];
    if !RevisionOk(revision) { errors := errors + [RevisionPin]; }
    if |expected| != p.total || |ledger| != p.total { errors := errors + [Inventory]; }
  }

  method ValidateInputs(p: Plan, ledger: seq<Row>, revision: string) returns (errors: seq<Error>)
    ensures errors == InputErrors(p, ledger, revision)
  {
    var expected := BySeq(p.events);
    errors := CheckHeader(p, expected, ledger, revision);
    var rowErrors, seen := ReadLedger(p, expected, LastSlot(p.events), ledger, revision);
    var groupErrors := CheckGroups(p.groups, BySource(p.events), seen);
    errors := errors + rowErrors + (if seen.Keys != expected.Keys then [SequenceInventory] else []) + groupErrors;
  }
}
