/** The mixed-load planner: diffused send times, the correlation cases placed into them, ordinary events elsewhere. */
module MixedPlan {
  import opened Common
  import opened Diffusion
  import opened Slots

  // ---------- the showcase scenario ----------

  datatype Pattern = Flood | CoOccurrence | Sequence | Threshold | CrossSource | Persistence | ParentChild

  datatype Role = Signal | RoleA | RoleB | ParentRole | ChildRole | Unmatched

  /** `device` 0 is the shared device; `api` tells the source system. */
  datatype Input = Input(pattern: Pattern, role: Role, device: nat, api: bool)

  datatype Case = Case(pattern: Pattern, positive: bool, inputs: seq<Input>, expectedParents: nat, expectedLinks: nat)

  function Roles(pattern: Pattern, positive: bool): seq<Role> {
    match pattern
    case Flood => if positive then [Signal, Signal, Signal, Signal, Signal] else [Signal, Signal, Signal, Signal]
    case CoOccurrence => if positive then [RoleA, RoleB] else [RoleA]
    case Sequence => if positive then [RoleA, RoleB] else [RoleB, RoleA]
    case Threshold => [Signal, Signal, Signal]
    case CrossSource => [Signal, Signal]
    case Persistence => if positive then [Signal] else [Unmatched]
    case ParentChild => if positive then [ParentRole, ChildRole] else [ChildRole]
  }

  function CaseOf(pattern: Pattern, positive: bool): Case {
    var roles := Roles(pattern, positive);
    Case(pattern, positive,
         seq(|roles|, i requires 0 <= i < |roles| =>
           Input(pattern, roles[i], if positive then i + 1 else 0, pattern == CrossSource && positive && i > 0)),
         if positive && pattern != ParentChild then 1 else 0,
         if positive && pattern == ParentChild then 1 else 0)
  }

  /** A positive and a negative case of one pattern. */
  function Pair(p: Pattern): seq<Case> { [CaseOf(p, true), CaseOf(p, false)] }

  function Scenario(): seq<Case> {
    Pair(Flood) + Pair(CoOccurrence) + Pair(Sequence) + Pair(Threshold) + Pair(CrossSource) + Pair(Persistence) + Pair(ParentChild)
  }

  ghost function InputsOf(cases: seq<Case>): nat {
    if cases == [] then 0 else InputsOf(cases[..|cases| - 1]) + |cases[|cases| - 1].inputs|
  }

  ghost function ParentsOf(cases: seq<Case>): nat {
    if cases == [] then 0 else ParentsOf(cases[..|cases| - 1]) + cases[|cases| - 1].expectedParents
  }

  ghost function LinksOf(cases: seq<Case>): nat {
    if cases == [] then 0 else LinksOf(cases[..|cases| - 1]) + cases[|cases| - 1].expectedLinks
  }

  ghost predicate Totals(cases: seq<Case>, count: nat, inputs: nat, parents: nat, links: nat) {
    && |cases| == count && InputsOf(cases) == inputs && ParentsOf(cases) == parents && LinksOf(cases) == links
    && forall c :: c in cases ==> c.inputs != []
  }

  lemma TotalsStep(cases: seq<Case>, p: Pattern, count: nat, inputs: nat, parents: nat, links: nat)
    requires Totals(cases, count, inputs, parents, links)
    ensures Totals(cases + Pair(p), count + 2, inputs + |Roles(p, true)| + |Roles(p, false)|,
                   parents + (if p == ParentChild then 0 else 1), links + (if p == ParentChild then 1 else 0))
  {
    var a, b := CaseOf(p, true), CaseOf(p, false);
    AddCase(cases, a);
    AddCase(cases + [a], b);
    assert cases + Pair(p) == cases + [a] + [b];
  }

  lemma AddCase(cases: seq<Case>, c: Case)
    ensures InputsOf(cases + [c]) == InputsOf(cases) + |c.inputs|
    ensures ParentsOf(cases + [c]) == ParentsOf(cases) + c.expectedParents
    ensures LinksOf(cases + [c]) == LinksOf(cases) + c.expectedLinks
  {
    assert (cases + [c])[..|cases|] == cases;
  }

  /** One packet of the scenario: 31 inputs, 6 synthetic parents, 1 link to an existing parent. */
  lemma ScenarioTotals()
    ensures Totals(Scenario(), 14, 31, 6, 1)
  {
    TotalsStep([], Flood, 0, 0, 0, 0);
    assert [] + Pair(Flood) == Pair(Flood);
    var a := Pair(Flood);
    TotalsStep(a, CoOccurrence, 2, 9, 1, 0);
    var b := a + Pair(CoOccurrence);
    TotalsStep(b, Sequence, 4, 12, 2, 0);
    TotalsTail(b + Pair(Sequence));
  }

  lemma TotalsTail(c: seq<Case>)
    requires Totals(c, 6, 16, 3, 0)
    ensures Totals(c + Pair(Threshold) + Pair(CrossSource) + Pair(Persistence) + Pair(ParentChild), 14, 31, 6, 1)
  {
    TotalsStep(c, Threshold, 6, 16, 3, 0);
    var d := c + Pair(Threshold);
    TotalsStep(d, CrossSource, 8, 22, 4, 0);
    TotalsEnd(d + Pair(CrossSource));
  }

  lemma TotalsEnd(e: seq<Case>)
    requires Totals(e, 10, 26, 5, 0)
    ensures Totals(e + Pair(Persistence) + Pair(ParentChild), 14, 31, 6, 1)
  {
    TotalsStep(e, Persistence, 10, 26, 5, 0);
    TotalsStep(e + Pair(Persistence), ParentChild, 12, 28, 6, 0);
  }

  // ---------- the plan ----------

  /** Source ids and sites, as the values their texts are formatted from. */
  datatype SourceId = GroupSource(cycle: nat, number: nat, index: nat) | OrdinarySource(seqNo: nat)

  datatype Site = GroupSite(cycle: nat, number: nat) | OrdinarySite(seqNo: nat)

  /** `input` is None for an ordinary event. */
  datatype Occupant = Occupant(site: Site, source: SourceId, input: Option<Input>)

  datatype Event = Event(seqNo: nat, at: real, occupant: Occupant)

  datatype Group = Group(cycle: nat, number: nat, kase: Case, sources: seq<SourceId>)

  datatype Plan = Plan(run: string, rate: nat, profile: Profile, startAt: real, events: seq<Event>, groups: seq<Group>,
                       total: nat,
                       packets: nat, correlationInputs: nat, ordinaryInputs: int, syntheticParents: nat, existingParentLinks: nat)

  function GroupOccupant(cycle: nat, number: nat, kase: Case, i: nat): Occupant
    requires i < |kase.inputs|
  {
    Occupant(GroupSite(cycle, number), GroupSource(cycle, number, i), Some(kase.inputs[i]))
  }

  function Ordinary(seqNo: nat): Occupant {
    Occupant(OrdinarySite(seqNo), OrdinarySource(seqNo), None)
  }

  /** When a case of a cycle may start: cycles spread over the plan, cases 0.18 s apart. */
  function Target(cycle: nat, number: nat, duration: nat, packets: nat): real {
    cycle as real * (if duration > 75 then duration - 75 else 0) as real / (if packets > 1 then packets else 1) as real + number as real * 0.18
  }

  lemma ScaledQuotient(c: real, d: real, p: real)
    requires p > 0.0
    ensures c * d / p == c * (d / p) && d / p * p == d
  {
    var q := d / p;
    assert q * p == d;
    assert (c * q) * p == c * (q * p);
    assert (c * d / p) * p == c * d;
    CancelFactor(c * d / p, c * q, p);
  }

  lemma CancelFactor(x: real, y: real, p: real)
    requires p > 0.0 && x * p == y * p
    ensures x == y
  {
    assert (x - y) * p == 0.0;
  }

  /** The targets start at 0, grow by 0.18 s from case to case and by equal steps from cycle to cycle, and the steps of all
      packets together are the plan's duration but for its last 75 s. */
  lemma {:induction false} TargetsSpread(cycle: nat, number: nat, duration: nat, packets: nat)
    requires duration >= 75 && packets > 0
    ensures Target(0, 0, duration, packets) == 0.0
    ensures Target(cycle, number + 1, duration, packets) == Target(cycle, number, duration, packets) + 0.18
    ensures packets as real * (Target(cycle + 1, number, duration, packets) - Target(cycle, number, duration, packets))
         == (duration - 75) as real
    ensures cycle < packets ==> Target(cycle, 0, duration, packets) <= (duration - 75) as real
  {
    var d, p := (duration - 75) as real, packets as real;
    ScaledQuotient(0.0, d, p);
    ScaledQuotient(cycle as real, d, p);
    ScaledQuotient((cycle + 1) as real, d, p);
    var step := d / p;
    assert Target(cycle, number, duration, packets) == cycle as real * step + number as real * 0.18;
    assert Target(cycle + 1, number, duration, packets) == (cycle + 1) as real * step + number as real * 0.18;
    assert (cycle + 1) as real * step == cycle as real * step + step;
    if cycle < packets { SmallerProduct(cycle as real, p, step); }
  }

  lemma SmallerProduct(a: real, b: real, x: real)
    requires a <= b && x >= 0.0
    ensures a * x <= b * x
  {
  }

  ghost predicate Slotted(times: seq<real>, slots: seq<nat>) {
    forall i :: 0 <= i < |slots| ==> slots[i] < |times|
  }

  ghost predicate Spaced(times: seq<real>, slots: seq<nat>)
    requires Slotted(times, slots)
  {
    forall i, j :: 0 <= i < j < |slots| ==> slots[i] < slots[j] && times[slots[i]] + SPACING <= times[slots[j]]
  }

  /** One group: its inputs hold its slots, in input order, spaced, within one minute, not before the target. */
  ghost predicate Placed(epoch: real, times: seq<real>, occupied: map<nat, Occupant>, g: Group, slots: seq<nat>,
                         target: real) {
    && |slots| == |g.kase.inputs| == |g.sources| > 0 && Slotted(times, slots)
    && (forall i :: 0 <= i < |slots| ==>
          slots[i] in occupied && occupied[slots[i]] == GroupOccupant(g.cycle, g.number, g.kase, i) && g.sources[i] == occupied[slots[i]].source)
    && Spaced(times, slots) && OneMinute(epoch, times, slots) && target <= times[slots[0]]
  }

  ghost predicate OwnSources(occupied: map<nat, Occupant>) {
    && (forall s :: s in occupied ==> occupied[s].source.GroupSource? && occupied[s].input.Some?)
    && (forall s, t :: s in occupied && t in occupied && occupied[s].source == occupied[t].source ==> s == t)
  }

  /** Every occupied slot comes from a case before `(cycle, number)`. */
  ghost predicate Earlier(occupied: map<nat, Occupant>, cycle: nat, number: nat) {
    forall s :: s in occupied && occupied[s].source.GroupSource? ==>
      occupied[s].source.cycle < cycle || (occupied[s].source.cycle == cycle && occupied[s].source.number < number)
  }

  ghost predicate InTimes(occupied: map<nat, Occupant>, times: seq<real>) {
    forall s :: s in occupied ==> s < |times|
  }

  ghost predicate Chosen(chosen: seq<nat>, n: nat, s: nat)
    requires n <= |chosen|
  {
    exists i :: 0 <= i < n && chosen[i] == s
  }

  /** `next` is `occupied` with the first `n` inputs of a case added at their slots. */
  ghost predicate Assigned(occupied: map<nat, Occupant>, next: map<nat, Occupant>, cycle: nat, number: nat, kase: Case,
                           chosen: seq<nat>, n: nat)
    requires n <= |chosen| == |kase.inputs|
  {
    && |next| == |occupied| + n
    && (forall s :: s in occupied ==> s in next && next[s] == occupied[s])
    && (forall s :: s in next ==> s in occupied || Chosen(chosen, n, s))
    && forall i :: 0 <= i < n ==> chosen[i] in next && next[chosen[i]] == GroupOccupant(cycle, number, kase, i)
  }

  lemma NextIsNew(chosen: seq<nat>, n: nat)
    requires n < |chosen| && forall j, k :: 0 <= j < k < |chosen| ==> chosen[j] < chosen[k]
    ensures !Chosen(chosen, n, chosen[n])
    ensures forall s :: Chosen(chosen, n + 1, s) <==> Chosen(chosen, n, s) || s == chosen[n]
  {
  }

  lemma AssignStep(occupied: map<nat, Occupant>, next: map<nat, Occupant>, cycle: nat, number: nat, kase: Case,
                   chosen: seq<nat>, n: nat, o: Occupant)
    requires n < |chosen| == |kase.inputs| && Assigned(occupied, next, cycle, number, kase, chosen, n)
    requires o == GroupOccupant(cycle, number, kase, n)
    requires chosen[n] !in occupied && forall j, k :: 0 <= j < k < |chosen| ==> chosen[j] < chosen[k]
    ensures Assigned(occupied, next[chosen[n] := o], cycle, number, kase, chosen, n + 1)
  {
    NextIsNew(chosen, n);
    assert chosen[n] !in next;
  }

  /** Gives the inputs of a case their slots. */
  method Assign(occupied: map<nat, Occupant>, cycle: nat, number: nat, kase: Case, chosen: seq<nat>)
    returns (next: map<nat, Occupant>, sources: seq<SourceId>)
    requires |chosen| == |kase.inputs| && (forall i :: 0 <= i < |chosen| ==> chosen[i] !in occupied)
    requires forall i, j :: 0 <= i < j < |chosen| ==> chosen[i] < chosen[j]
    ensures Assigned(occupied, next, cycle, number, kase, chosen, |chosen|)
    ensures |sources| == |chosen| && forall i :: 0 <= i < |chosen| ==> sources[i] == GroupSource(cycle, number, i)
  {
    next, sources := occupied, [];
    var i := 0;
    while i < |chosen|
      invariant 0 <= i <= |chosen| && |sources| == i
      invariant Assigned(occupied, next, cycle, number, kase, chosen, i)
      invariant forall j :: 0 <= j < i ==> sources[j] == GroupSource(cycle, number, j)
    {
      AssignStep(occupied, next, cycle, number, kase, chosen, i, GroupOccupant(cycle, number, kase, i));
      sources := sources + [GroupSource(cycle, number, i)];
      next := next[chosen[i] := GroupOccupant(cycle, number, kase, i)];
      i := i + 1;
    }
  }

  lemma AssignedSources(occupied: map<nat, Occupant>, next: map<nat, Occupant>, cycle: nat, number: nat, kase: Case,
                        chosen: seq<nat>)
    requires |chosen| == |kase.inputs| && OwnSources(occupied) && Earlier(occupied, cycle, number)
    requires Assigned(occupied, next, cycle, number, kase, chosen, |chosen|)
    ensures OwnSources(next) && Earlier(next, cycle, number + 1)
  {
    forall s | s in next
      ensures next[s].source.GroupSource? && next[s].input.Some?
      ensures s in occupied || (next[s].source.cycle == cycle && next[s].source.number == number && next[s].source.index < |chosen|
                                 && chosen[next[s].source.index] == s)
    {
      if s !in occupied {
        assert Chosen(chosen, |chosen|, s);
        var j :| 0 <= j < |chosen| && chosen[j] == s;
      }
    }
  }

  // ---------- placing every case of every cycle ----------

  ghost function GroupParents(groups: seq<Group>): nat {
    if groups == [] then 0 else GroupParents(groups[..|groups| - 1]) + groups[|groups| - 1].kase.expectedParents
  }

  ghost function GroupLinks(groups: seq<Group>): nat {
    if groups == [] then 0 else GroupLinks(groups[..|groups| - 1]) + groups[|groups| - 1].kase.expectedLinks
  }

  /** What placement has built: the slot owners, the groups, and the slots chosen for each group. */
  datatype Layout = Layout(occupied: map<nat, Occupant>, groups: seq<Group>, slots: seq<seq<nat>>)

  ghost predicate PlacedAt(epoch: real, times: seq<real>, l: Layout, g: nat, duration: nat, packets: nat)
    requires g < |l.groups| == |l.slots|
  {
    Placed(epoch, times, l.occupied, l.groups[g], l.slots[g], Target(l.groups[g].cycle, l.groups[g].number, duration, packets))
  }

  /** A slot of the layout belongs to an input of one of its groups. */
  ghost predicate Owned(l: Layout, s: nat)
    requires |l.groups| == |l.slots|
  {
    exists g, i :: 0 <= g < |l.groups| && 0 <= i < |l.slots[g]| && l.slots[g][i] == s
  }

  ghost predicate Sound(epoch: real, times: seq<real>, l: Layout, duration: nat, packets: nat) {
    && |l.groups| == |l.slots| && OwnSources(l.occupied) && InTimes(l.occupied, times)
    && (forall g :: 0 <= g < |l.groups| ==> PlacedAt(epoch, times, l, g, duration, packets))
    && forall s :: s in l.occupied ==> Owned(l, s)
  }

  /** Cases are placed in order: cycle by cycle, and within a cycle by number. */
  ghost predicate Listed(groups: seq<Group>, cases: seq<Case>, cycle: nat, number: nat) {
    && (forall g :: 0 <= g < |groups| ==>
          groups[g].number < |cases| && groups[g].kase == cases[groups[g].number] && Before(groups[g], cycle, number))
    && forall g, h :: 0 <= g < h < |groups| ==> Before(groups[g], groups[h].cycle, groups[h].number)
  }

  ghost predicate Before(g: Group, cycle: nat, number: nat) {
    g.cycle < cycle || (g.cycle == cycle && g.number < number)
  }

  /** The sums of the layout, `cycle` whole packets and `number` cases into the next. */
  ghost predicate Summed(l: Layout, cases: seq<Case>, cycle: nat, number: nat)
    requires number <= |cases|
  {
    var part := cases[..number];
    && |l.groups| == cycle * |cases| + number && |l.occupied| == cycle * InputsOf(cases) + InputsOf(part)
    && GroupParents(l.groups) == cycle * ParentsOf(cases) + ParentsOf(part)
    && GroupLinks(l.groups) == cycle * LinksOf(cases) + LinksOf(part)
  }

  lemma SoundStep(epoch: real, times: seq<real>, l: Layout, next: map<nat, Occupant>, g: Group, chosen: seq<nat>,
                  duration: nat, packets: nat)
    requires Sound(epoch, times, l, duration, packets) && Earlier(l.occupied, g.cycle, g.number)
    requires |chosen| == |g.kase.inputs| && Assigned(l.occupied, next, g.cycle, g.number, g.kase, chosen, |chosen|)
    requires Slotted(times, chosen)
    requires Placed(epoch, times, next, g, chosen, Target(g.cycle, g.number, duration, packets))
    ensures Sound(epoch, times, Layout(next, l.groups + [g], l.slots + [chosen]), duration, packets)
    ensures Earlier(next, g.cycle, g.number + 1)
  {
    var l' := Layout(next, l.groups + [g], l.slots + [chosen]);
    AssignedSources(l.occupied, next, g.cycle, g.number, g.kase, chosen);
    forall k | 0 <= k < |l'.groups| ensures PlacedAt(epoch, times, l', k, duration, packets) {
      if k < |l.groups| {
        assert PlacedAt(epoch, times, l, k, duration, packets);
        PlacedPersists(epoch, times, l.occupied, next, l.groups[k], l.slots[k],
                       Target(l.groups[k].cycle, l.groups[k].number, duration, packets));
      }
    }
    OwnedStep(l, next, g, chosen);
  }

  lemma PlacedPersists(epoch: real, times: seq<real>, occupied: map<nat, Occupant>, next: map<nat, Occupant>, g: Group,
                       slots: seq<nat>, target: real)
    requires Placed(epoch, times, occupied, g, slots, target)
    requires forall s :: s in occupied ==> s in next && next[s] == occupied[s]
    ensures Placed(epoch, times, next, g, slots, target)
  {
  }

  lemma OwnedStep(l: Layout, next: map<nat, Occupant>, g: Group, chosen: seq<nat>)
    requires |l.groups| == |l.slots| && (forall s :: s in l.occupied ==> Owned(l, s))
    requires forall s :: s in next ==> s in l.occupied || Chosen(chosen, |chosen|, s)
    ensures forall s :: s in next ==> Owned(Layout(next, l.groups + [g], l.slots + [chosen]), s)
  {
    var l' := Layout(next, l.groups + [g], l.slots + [chosen]);
    forall s | s in next ensures Owned(l', s) {
      if s in l.occupied {
        assert Owned(l, s);
        var k, i :| 0 <= k < |l.groups| && 0 <= i < |l.slots[k]| && l.slots[k][i] == s;
        assert l'.slots[k][i] == s;
      } else {
        var i :| 0 <= i < |chosen| && chosen[i] == s;
        assert l'.slots[|l.slots|][i] == s;
      }
    }
  }

  lemma SummedStep(l: Layout, l': Layout, cases: seq<Case>, cycle: nat, number: nat, g: Group)
    requires number < |cases| && Summed(l, cases, cycle, number) && g.kase == cases[number]
    requires l'.groups == l.groups + [g] && |l'.occupied| == |l.occupied| + |g.kase.inputs|
    ensures Summed(l', cases, cycle, number + 1)
  {
    assert cases[..number + 1] == cases[..number] + [cases[number]];
    AddCase(cases[..number], cases[number]);
    assert l'.groups[..|l.groups|] == l.groups;
  }

  lemma SummedCycle(l: Layout, cases: seq<Case>, cycle: nat)
    requires Summed(l, cases, cycle, |cases|)
    ensures Summed(l, cases, cycle + 1, 0)
  {
    assert cases[..|cases|] == cases;
    NextMultiple(cycle, |cases|);
    NextMultiple(cycle, InputsOf(cases));
    NextMultiple(cycle, ParentsOf(cases));
    NextMultiple(cycle, LinksOf(cases));
    assert InputsOf(cases[..0]) == ParentsOf(cases[..0]) == LinksOf(cases[..0]) == 0;
  }

  lemma NextMultiple(n: nat, x: nat)
    ensures (n + 1) * x == n * x + x
  {
  }

  lemma PlacedChoice(epoch: real, times: seq<real>, occupied: map<nat, Occupant>, next: map<nat, Occupant>, g: Group,
                     chosen: seq<nat>, target: real)
    requires Slotted(times, chosen) && Spaced(times, chosen) && |chosen| == |g.kase.inputs| > 0
    requires OneMinute(epoch, times, chosen) && target <= times[chosen[0]]
    requires Assigned(occupied, next, g.cycle, g.number, g.kase, chosen, |chosen|)
    requires |g.sources| == |chosen|
    requires forall i :: 0 <= i < |chosen| ==> g.sources[i] == GroupSource(g.cycle, g.number, i)
    ensures Placed(epoch, times, next, g, chosen, target)
  {
  }

  /** The slots of one case: the greedy choice, which is free, in input order, spaced and not before the target. */
  method SlotsFor(epoch: real, times: seq<real>, occupied: set<nat>, inputs: nat, target: real)
    returns (r: Option<seq<nat>>)
    requires Increasing(times) && inputs > 0 && forall o :: o in occupied ==> o < |times|
    ensures r.Some? ==>
      && |r.value| == inputs && Slotted(times, r.value) && Spaced(times, r.value) && OneMinute(epoch, times, r.value)
      && target <= times[r.value[0]] && forall i :: 0 <= i < inputs ==> r.value[i] !in occupied
    ensures r.Some? ==> Settled(epoch, times, occupied, inputs, target, r.value)
    ensures r.None? ==> Refused(epoch, times, occupied, inputs, target)
  {
    ghost var targets;
    r, targets := Place(epoch, times, occupied, inputs, target);
    if r.Some? {
      FirstFitSpaced(times, occupied, targets[|targets| - 1], r.value);
      TargetsRise(epoch, times, occupied, inputs, target, targets, |targets| - 1);
    }
  }

  // ---------- the choice of every case, as a function of the send times ----------

  ghost function SlotSet(slots: seq<nat>): set<nat> { set s | s in slots }

  /** The slots taken by the cases placed so far. */
  ghost function Taken(slots: seq<seq<nat>>): set<nat> {
    if slots == [] then {} else Taken(slots[..|slots| - 1]) + SlotSet(slots[|slots| - 1])
  }

  /** Case `g`, counted over whole cycles, has the slots its retry loop ends with after the cases before it. */
  ghost predicate BuiltAt(epoch: real, times: seq<real>, cases: seq<Case>, slots: seq<seq<nat>>, duration: nat,
                          packets: nat, g: nat)
    requires g < |slots|
  {
    cases != [] &&
    var cycle, number := g / |cases|, g % |cases|;
    Settled(epoch, times, Taken(slots[..g]), |cases[number].inputs|, Target(cycle, number, duration, packets), slots[g])
  }

  ghost predicate Built(epoch: real, times: seq<real>, cases: seq<Case>, slots: seq<seq<nat>>, duration: nat,
                        packets: nat) {
    forall g :: 0 <= g < |slots| ==> BuiltAt(epoch, times, cases, slots, duration, packets, g)
  }

  /** After the cases of `slots`, the next case is refused. */
  ghost predicate NextRefused(epoch: real, times: seq<real>, cases: seq<Case>, slots: seq<seq<nat>>, duration: nat,
                              packets: nat) {
    cases != [] &&
    var cycle, number := |slots| / |cases|, |slots| % |cases|;
    Refused(epoch, times, Taken(slots), |cases[number].inputs|, Target(cycle, number, duration, packets))
  }

  /** Placing the cases in order, some case of some cycle is refused. */
  ghost predicate NoRoom(epoch: real, times: seq<real>, cases: seq<Case>, duration: nat, packets: nat) {
    exists slots ::
      && Built(epoch, times, cases, slots, duration, packets) && |slots| < packets * |cases|
      && NextRefused(epoch, times, cases, slots, duration, packets)
  }

  /** The slots of every case are determined by the start and the send times. */
  lemma {:induction false} BuiltUnique(epoch: real, times: seq<real>, cases: seq<Case>, a: seq<seq<nat>>,
                                       b: seq<seq<nat>>,
                                       duration: nat, packets: nat, n: nat)
    requires Built(epoch, times, cases, a, duration, packets) && Built(epoch, times, cases, b, duration, packets)
    requires n <= |a| && n <= |b|
    ensures a[..n] == b[..n]
  {
    if n > 0 {
      var g := n - 1;
      BuiltUnique(epoch, times, cases, a, b, duration, packets, g);
      assert BuiltAt(epoch, times, cases, a, duration, packets, g) && BuiltAt(epoch, times, cases, b, duration, packets, g);
      var number := g % |cases|;
      SettledUnique(epoch, times, Taken(a[..g]), |cases[number].inputs|, Target(g / |cases|, number, duration, packets),
                    a[g], b[g]);
      assert a[..n] == a[..g] + [a[g]] && b[..n] == b[..g] + [b[g]];
    }
  }

  lemma RefusedNotBuilt(epoch: real, times: seq<real>, cases: seq<Case>, slots: seq<seq<nat>>, duration: nat,
                        packets: nat, g: nat)
    requires g < |slots| && NextRefused(epoch, times, cases, slots[..g], duration, packets)
    ensures !BuiltAt(epoch, times, cases, slots, duration, packets, g)
  {
    var cycle, number := g / |cases|, g % |cases|;
    RefusedExcludes(epoch, times, Taken(slots[..g]), |cases[number].inputs|, Target(cycle, number, duration, packets),
                    slots[g]);
  }

  /** A refusal is final: where some case has no room, no choice of slots serves every case. */
  lemma NoRoomExact(epoch: real, times: seq<real>, cases: seq<Case>, slots: seq<seq<nat>>, duration: nat, packets: nat)
    requires NoRoom(epoch, times, cases, duration, packets) && |slots| == packets * |cases|
    ensures !Built(epoch, times, cases, slots, duration, packets)
  {
    var part :|
      && Built(epoch, times, cases, part, duration, packets) && |part| < packets * |cases|
      && NextRefused(epoch, times, cases, part, duration, packets);
    if Built(epoch, times, cases, slots, duration, packets) {
      BuiltUnique(epoch, times, cases, part, slots, duration, packets, |part|);
      assert part[..|part|] == part;
      RefusedNotBuilt(epoch, times, cases, slots, duration, packets, |part|);
    }
  }

  lemma DivideCases(cycle: nat, n: nat, number: nat)
    requires number < n
    ensures (cycle * n + number) / n == cycle && (cycle * n + number) % n == number
  {
    var q, r := (cycle * n + number) / n, (cycle * n + number) % n;
    assert q * n + r == cycle * n + number;
    if q < cycle { SmallerMultiple(q, cycle, n); }
    if cycle < q { SmallerMultiple(cycle, q, n); }
  }

  lemma SmallerMultiple(a: nat, b: nat, n: nat)
    requires a < b
    ensures a * n + n <= b * n
  {
    assert b * n == a * n + (b - a) * n;
    assert (b - a) * n == n + (b - a - 1) * n;
  }

  /** The layout's slots are the greedy ones and no others are taken. */
  ghost predicate Greedy(epoch: real, times: seq<real>, l: Layout, cases: seq<Case>, duration: nat, packets: nat) {
    l.occupied.Keys == Taken(l.slots) && Built(epoch, times, cases, l.slots, duration, packets)
  }

  lemma GreedyStep(epoch: real, times: seq<real>, l: Layout, l': Layout, cases: seq<Case>, cycle: nat, number: nat,
                   chosen: seq<nat>, duration: nat, packets: nat)
    requires Greedy(epoch, times, l, cases, duration, packets) && number < |cases|
    requires |l.slots| == cycle * |cases| + number
    requires Settled(epoch, times, l.occupied.Keys, |cases[number].inputs|, Target(cycle, number, duration, packets), chosen)
    requires l'.slots == l.slots + [chosen] && l'.occupied.Keys == l.occupied.Keys + SlotSet(chosen)
    ensures Greedy(epoch, times, l', cases, duration, packets)
  {
    DivideCases(cycle, |cases|, number);
    assert l'.slots[..|l.slots|] == l.slots;
    forall g | 0 <= g < |l'.slots| ensures BuiltAt(epoch, times, cases, l'.slots, duration, packets, g) {
      if g < |l.slots| {
        assert BuiltAt(epoch, times, cases, l.slots, duration, packets, g);
        assert l'.slots[..g] == l.slots[..g];
      }
    }
  }

  lemma NextCaseRefused(epoch: real, times: seq<real>, l: Layout, cases: seq<Case>, cycle: nat, number: nat,
                        duration: nat, packets: nat)
    requires Greedy(epoch, times, l, cases, duration, packets) && number < |cases|
    requires |l.slots| == cycle * |cases| + number && cycle < packets
    requires Refused(epoch, times, l.occupied.Keys, |cases[number].inputs|, Target(cycle, number, duration, packets))
    ensures NoRoom(epoch, times, cases, duration, packets)
  {
    DivideCases(cycle, |cases|, number);
    SmallerMultiple(cycle, packets, |cases|);
    assert NextRefused(epoch, times, cases, l.slots, duration, packets);
  }

  lemma AssignedKeys(occupied: map<nat, Occupant>, next: map<nat, Occupant>, cycle: nat, number: nat, kase: Case,
                     chosen: seq<nat>)
    requires |chosen| == |kase.inputs| && Assigned(occupied, next, cycle, number, kase, chosen, |chosen|)
    ensures next.Keys == occupied.Keys + SlotSet(chosen)
  {
    forall s ensures s in next.Keys <==> s in occupied.Keys + SlotSet(chosen) {
      if s in SlotSet(chosen) { var i :| 0 <= i < |chosen| && chosen[i] == s; }
      if s in next && s !in occupied { assert Chosen(chosen, |chosen|, s); }
    }
  }

  /** What placing one case achieves. */
  ghost predicate CasePlaced(epoch: real, times: seq<real>, l: Layout, l': Layout, kase: Case, cycle: nat, number: nat,
                             chosen: seq<nat>, duration: nat, packets: nat) {
    && Sound(epoch, times, l', duration, packets) && Earlier(l'.occupied, cycle, number + 1)
    && |l'.occupied| == |l.occupied| + |kase.inputs|
    && (exists sources :: l'.groups == l.groups + [Group(cycle, number, kase, sources)])
    && Settled(epoch, times, l.occupied.Keys, |kase.inputs|, Target(cycle, number, duration, packets), chosen)
    && l'.slots == l.slots + [chosen] && l'.occupied.Keys == l.occupied.Keys + SlotSet(chosen)
  }

  /** One case: its inputs are added at the slots its retry loop ends with, or the case is refused. */
  method PlaceCase(epoch: real, times: seq<real>, l: Layout, kase: Case, cycle: nat, number: nat, duration: nat,
                   packets: nat)
    returns (r: Option<Layout>, ghost chosen: seq<nat>)
    requires Increasing(times) && Sound(epoch, times, l, duration, packets) && Earlier(l.occupied, cycle, number)
    requires kase.inputs != []
    ensures r.Some? ==> CasePlaced(epoch, times, l, r.value, kase, cycle, number, chosen, duration, packets)
    ensures r.None? ==> Refused(epoch, times, l.occupied.Keys, |kase.inputs|, Target(cycle, number, duration, packets))
  {
    var target := Target(cycle, number, duration, packets);
    var slots := SlotsFor(epoch, times, l.occupied.Keys, |kase.inputs|, target);
    if slots.None? { return None, []; }
    var next, sources := Assign(l.occupied, cycle, number, kase, slots.value);
    var g := Group(cycle, number, kase, sources);
    PlacedChoice(epoch, times, l.occupied, next, g, slots.value, target);
    SoundStep(epoch, times, l, next, g, slots.value, duration, packets);
    AssignedKeys(l.occupied, next, cycle, number, kase, slots.value);
    return Some(Layout(next, l.groups + [g], l.slots + [slots.value])), slots.value;
  }

  /** Everything known after whole cycles and some cases of the next. */
  ghost predicate Laid(epoch: real, times: seq<real>, l: Layout, cases: seq<Case>, cycle: nat, number: nat,
                       duration: nat, packets: nat)
    requires number <= |cases|
  {
    && Sound(epoch, times, l, duration, packets) && Earlier(l.occupied, cycle, number)
    && Summed(l, cases, cycle, number) && Listed(l.groups, cases, cycle, number)
    && Greedy(epoch, times, l, cases, duration, packets)
  }

  lemma LaidStep(epoch: real, times: seq<real>, l: Layout, l': Layout, cases: seq<Case>, cycle: nat, number: nat,
                 duration: nat, packets: nat, g: Group)
    requires number < |cases| && Laid(epoch, times, l, cases, cycle, number, duration, packets)
    requires Sound(epoch, times, l', duration, packets) && Earlier(l'.occupied, cycle, number + 1)
    requires Greedy(epoch, times, l', cases, duration, packets)
    requires l'.groups == l.groups + [g] && g.kase == cases[number] && g.cycle == cycle && g.number == number
    requires |l'.occupied| == |l.occupied| + |g.kase.inputs|
    ensures Laid(epoch, times, l', cases, cycle, number + 1, duration, packets)
  {
    SummedStep(l, l', cases, cycle, number, g);
    ListedStep(l.groups, cases, cycle, number, g);
  }

  lemma ListedStep(groups: seq<Group>, cases: seq<Case>, cycle: nat, number: nat, g: Group)
    requires number < |cases| && Listed(groups, cases, cycle, number) && g.kase == cases[number] && g.cycle == cycle
    requires g.number == number
    ensures Listed(groups + [g], cases, cycle, number + 1)
  {
  }

  lemma LaidCycle(epoch: real, times: seq<real>, l: Layout, cases: seq<Case>, cycle: nat, duration: nat, packets: nat)
    requires Laid(epoch, times, l, cases, cycle, |cases|, duration, packets)
    ensures Laid(epoch, times, l, cases, cycle + 1, 0, duration, packets)
  {
    SummedCycle(l, cases, cycle);
  }

  lemma CaseLaid(epoch: real, times: seq<real>, l: Layout, l': Layout, cases: seq<Case>, cycle: nat, number: nat,
                 chosen: seq<nat>, duration: nat, packets: nat)
    requires number < |cases| && Laid(epoch, times, l, cases, cycle, number, duration, packets)
    requires CasePlaced(epoch, times, l, l', cases[number], cycle, number, chosen, duration, packets)
    ensures Laid(epoch, times, l', cases, cycle, number + 1, duration, packets)
  {
    GreedyStep(epoch, times, l, l', cases, cycle, number, chosen, duration, packets);
    LaidStep(epoch, times, l, l', cases, cycle, number, duration, packets, l'.groups[|l.groups|]);
  }

  /** The next case of a cycle. */
  method PlaceNext(epoch: real, times: seq<real>, l: Layout, cases: seq<Case>, cycle: nat, number: nat, duration: nat,
                   packets: nat)
    returns (r: Option<Layout>)
    requires Increasing(times) && number < |cases| && cases[number].inputs != [] && cycle < packets
    requires Laid(epoch, times, l, cases, cycle, number, duration, packets)
    ensures r.Some? ==> Laid(epoch, times, r.value, cases, cycle, number + 1, duration, packets)
    ensures r.None? ==> NoRoom(epoch, times, cases, duration, packets)
  {
    ghost var chosen;
    r, chosen := PlaceCase(epoch, times, l, cases[number], cycle, number, duration, packets);
    if r.None? {
      NextCaseRefused(epoch, times, l, cases, cycle, number, duration, packets);
    } else {
      CaseLaid(epoch, times, l, r.value, cases, cycle, number, chosen, duration, packets);
    }
  }

  method PlaceCycle(epoch: real, times: seq<real>, before: Layout, cases: seq<Case>, cycle: nat, duration: nat,
                    packets: nat)
    returns (r: Option<Layout>)
    requires Increasing(times) && (forall c :: c in cases ==> c.inputs != []) && cycle < packets
    requires Laid(epoch, times, before, cases, cycle, 0, duration, packets)
    ensures r.Some? ==> Laid(epoch, times, r.value, cases, cycle, |cases|, duration, packets)
    ensures r.None? ==> NoRoom(epoch, times, cases, duration, packets)
  {
    var l := before;
    var number := 0;
    while number < |cases|
      invariant 0 <= number <= |cases| && Laid(epoch, times, l, cases, cycle, number, duration, packets)
    {
      var placed := PlaceNext(epoch, times, l, cases, cycle, number, duration, packets);
      if placed.None? { return None; }
      l := placed.value;
      number := number + 1;
    }
    return Some(l);
  }

  /** Every case of every cycle, or the one that is refused; `NoRoomExact` says that these exclude each other. */
  method PlaceAll(epoch: real, times: seq<real>, cases: seq<Case>, duration: nat, packets: nat)
    returns (r: Option<Layout>)
    requires Increasing(times) && forall c :: c in cases ==> c.inputs != []
    ensures r.Some? ==>
      && Sound(epoch, times, r.value, duration, packets) && Summed(r.value, cases, packets, 0)
      && Listed(r.value.groups, cases, packets, 0) && Greedy(epoch, times, r.value, cases, duration, packets)
    ensures r.None? <==> NoRoom(epoch, times, cases, duration, packets)
  {
    var l := Layout(map[], [], []);
    var cycle := 0;
    while cycle < packets
      invariant 0 <= cycle <= packets && Laid(epoch, times, l, cases, cycle, 0, duration, packets)
    {
      var placed := PlaceCycle(epoch, times, l, cases, cycle, duration, packets);
      if placed.None? { return None; }
      l := placed.value;
      LaidCycle(epoch, times, l, cases, cycle, duration, packets);
      cycle := cycle + 1;
    }
    if NoRoom(epoch, times, cases, duration, packets) { NoRoomExact(epoch, times, cases, l.slots, duration, packets); }
    return Some(l);
  }
}
