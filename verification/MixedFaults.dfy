/** What the validator's errors say, and how far apart and how many the plan's parts are, in numbers. */
module MixedFaults {
  import opened Common
  import opened Diffusion
  import opened Slots
  import opened MixedPlan
  import opened MixedLoad

  // ---------- the fault of a row ----------

  /** The fault holds of the row. */
  ghost predicate Holds(p: Plan, expected: map<int, Event>, lastSlot: real, seen: map<int, Row>, row: Row,
                        revision: string, fault: Fault) {
    match fault
    case UnknownSequence => row.seqNo !in expected
    case DuplicateSequence => row.seqNo in seen
    case HashDiffers => !row.hashesMatch
    case PayloadDiffers =>
      || row.request != row.body
      || (row.seqNo in expected && !SamePayload(p, expected[row.seqNo], row))
    case BindingDiffers => row.seqNo in expected && !BoundTo(expected[row.seqNo], row)
    case LatenessDiffers =>
      row.seqNo in expected && !(0.0 <= row.wall - (p.startAt + expected[row.seqNo].at) <= 2.0)
    case AckLate => row.ended < row.wall || row.ended > row.wall + 20.0
    case CompletionLate => row.ended > p.startAt + lastSlot + 22.0
    case AckMissing => row.status != 200 || !row.responseOk || row.revisions != [revision]
    case AcceptedContradicts => row.accepted == Some(false)
  }

  /** The body names the run and the event's occupant and holds for two hours from the millisecond it was sent. */
  ghost predicate SamePayload(p: Plan, e: Event, row: Row) {
    && row.body.run == p.run && row.body.occupant == e.occupant
    && row.body.startsAtMs as real <= row.wall * 1000.0 < (row.body.startsAtMs + 1) as real
    && row.body.endsAtMs == row.body.startsAtMs + 2 * 60 * 60 * 1000
  }

  /** The row names the case and group of its event; an ordinary event has neither. */
  ghost predicate BoundTo(e: Event, row: Row) {
    match e.occupant.site
    case GroupSite(cycle, number) => row.kase == Some(number) && row.group == Some(e.occupant.site)
    case OrdinarySite(_) => row.kase == None && row.group == None
  }

  /** The order in which faults are looked for. */
  function Rank(fault: Fault): nat {
    match fault
    case UnknownSequence => 0
    case DuplicateSequence => 1
    case HashDiffers => 2
    case PayloadDiffers => 3
    case BindingDiffers => 4
    case LatenessDiffers => 5
    case AckLate => 6
    case CompletionLate => 7
    case AckMissing => 8
    case AcceptedContradicts => 9
  }

  lemma FlooredMillisecond(wall: real, ms: int)
    ensures ms == (wall * 1000.0).Floor <==> ms as real <= wall * 1000.0 < (ms + 1) as real
  {
  }

  lemma PayloadIff(p: Plan, e: Event, row: Row)
    ensures row.body == BodyOf(p, e, row.wall) <==> SamePayload(p, e, row)
  {
    FlooredMillisecond(row.wall, row.body.startsAtMs);
  }

  /** The fault holds and none looked for before it does. */
  ghost predicate First(p: Plan, expected: map<int, Event>, lastSlot: real, seen: map<int, Row>, row: Row,
                        revision: string, fault: Fault) {
    && Holds(p, expected, lastSlot, seen, row, revision, fault)
    && forall other :: Rank(other) < Rank(fault) ==> !Holds(p, expected, lastSlot, seen, row, revision, other)
  }

  lemma {:induction false} FoundIsFirst(p: Plan, expected: map<int, Event>, lastSlot: real, seen: map<int, Row>,
                                        row: Row, revision: string)
    ensures var found := RowFault(p, expected, lastSlot, seen, row, revision);
            if found.Some? then First(p, expected, lastSlot, seen, row, revision, found.value)
            else forall other :: !Holds(p, expected, lastSlot, seen, row, revision, other)
  {
    if row.seqNo in expected { PayloadIff(p, expected[row.seqNo], row); }
    var found := RowFault(p, expected, lastSlot, seen, row, revision);
    forall other | found.None? || Rank(other) < Rank(found.value)
      ensures !Holds(p, expected, lastSlot, seen, row, revision, other)
    {
      match other {
        case UnknownSequence =>
        case DuplicateSequence =>
        case HashDiffers =>
        case PayloadDiffers =>
        case BindingDiffers =>
        case LatenessDiffers =>
        case AckLate =>
        case CompletionLate =>
        case AckMissing =>
        case AcceptedContradicts =>
      }
    }
  }

  /** A row gets the first fault that holds of it, and none when none does. */
  lemma {:induction false} FirstFaultNamed(p: Plan, expected: map<int, Event>, lastSlot: real, seen: map<int, Row>,
                                           row: Row, revision: string, fault: Fault)
    ensures RowFault(p, expected, lastSlot, seen, row, revision) == Some(fault) <==>
      First(p, expected, lastSlot, seen, row, revision, fault)
  {
    FoundIsFirst(p, expected, lastSlot, seen, row, revision);
    var found := RowFault(p, expected, lastSlot, seen, row, revision);
    if found.Some? && First(p, expected, lastSlot, seen, row, revision, fault) {
      RankInjective(found.value, fault);
    }
  }

  lemma RankInjective(a: Fault, b: Fault)
    ensures Rank(a) == Rank(b) ==> a == b
  {
  }

  // ---------- the group checks ----------

  /** The spacing check passes exactly when inputs lie three seconds apart for every place between them. */
  lemma {:induction false} SpacedByThree(walls: seq<real>)
    ensures !TooClose(walls) <==> forall i, j :: 0 <= i <= j < |walls| ==> walls[j] - walls[i] >= 3.0 * (j - i) as real
  {
    if !TooClose(walls) {
      forall i, j | 0 <= i <= j < |walls| ensures walls[j] - walls[i] >= 3.0 * (j - i) as real {
        ApartByThree(walls, i, j);
      }
    } else {
      var i :| 0 < i < |walls| && walls[i] - walls[i - 1] < 3.0;
      assert walls[i] - walls[i - 1] < 3.0 * (i - (i - 1)) as real;
    }
  }

  lemma {:induction false} ApartByThree(walls: seq<real>, i: nat, j: nat)
    requires i <= j < |walls| && !TooClose(walls)
    ensures walls[j] - walls[i] >= 3.0 * (j - i) as real
    decreases j
  {
    if i < j {
      ApartByThree(walls, i, j - 1);
      assert walls[j] - walls[j - 1] >= 3.0;
    }
  }

  ghost predicate InMinute(walls: seq<real>, minute: int) {
    forall i :: 0 <= i < |walls| ==> (60 * minute) as real <= walls[i] < (60 * (minute + 1)) as real
  }

  /** The minute check passes exactly when, at or after the epoch, one minute holds every input. */
  lemma SameMinuteIff(walls: seq<real>)
    requires forall i :: 0 <= i < |walls| ==> walls[i] >= 0.0
    ensures SameMinute(walls) <==> walls != [] && exists minute :: InMinute(walls, minute)
  {
    if SameMinute(walls) {
      forall i | 0 <= i < |walls| ensures (60 * Minute(walls[0])) as real <= walls[i] < (60 * (Minute(walls[0]) + 1)) as real {
        MinuteHolds(walls[i], Minute(walls[0]));
      }
      assert InMinute(walls, Minute(walls[0]));
    }
    if walls != [] && exists minute :: InMinute(walls, minute) {
      var minute :| InMinute(walls, minute);
      forall i | 0 <= i < |walls| ensures Minute(walls[i]) == Minute(walls[0]) {
        MinuteHolds(walls[i], minute);
        MinuteHolds(walls[0], minute);
      }
    }
  }

  lemma MinuteHolds(x: real, minute: int)
    requires x >= 0.0
    ensures Minute(x) == minute <==> (60 * minute) as real <= x < (60 * (minute + 1)) as real
  {
    assert x.Floor as real <= x < (x.Floor + 1) as real;
  }

  // ---------- the sizes of the profiles ----------

  /** A run is planned at exactly four rates, and under a name that holds more than white space. */
  lemma AcceptsIff(run: string, rate: nat)
    ensures Accepts(run, rate) <==> rate in {10, 15, 20, 25} && exists i :: 0 <= i < |run| && !IsSpace(run[i])
  {
  }

  /** As many whole packets as 30% of the plan holds, and no more. */
  lemma PacketsFill(total: nat)
    ensures 10 * 31 * Packets(total) <= 3 * total < 10 * 31 * (Packets(total) + 1)
  {
  }

  /** A full plan lasts 19 minutes and holds 1044 events for each event a second, a pilot 80 seconds and 72. */
  lemma ProfileTotals(times: seq<real>, rate: nat, profile: Profile)
    requires rate > 0 && Diffused(times, rate, Ramp(profile), Hold(profile), Duration(Ramp(profile), Hold(profile)))
    ensures |times| == rate * (if profile == Full then 1044 else 72)
    ensures Duration(Ramp(profile), Hold(profile)) == if profile == Full then 19 * 60 else 80
  {
    TotalEvents(times, rate, Ramp(profile), Hold(profile));
  }
}
