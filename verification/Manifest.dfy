/** The fixed installed-Flood input: which source, site and labels each index stands for. */
module Manifest {
  import opened Common
  import opened History

  const INSTALLED_INPUT_VERSION := "corrtest.oscar/installed-input-v1"
  const ALERT_NAME := "CorrTestOperationalFlood"
  const PACK := "corrtest_operational_v1"

  datatype Group = Group(site: string, count: nat, expectedEnriched: nat, expectedParentEmitted: nat)

  /** `boundsHold`: every check of FreezeInstalledPackInput other than the version passes, and the
      profile, revision and scenario are the ones it would freeze. */
  datatype Manifest = Manifest(version: string, boundsHold: bool, run: string, startsAt: int, groups: seq<Group>)

  datatype Identity = Identity(labels: Labels, startsAt: int)

  predicate Frozen(m: Manifest) {
    m.version == INSTALLED_INPUT_VERSION && m.boundsHold
  }

  function InputCount(groups: seq<Group>): nat {
    if groups == [] then 0 else groups[0].count + InputCount(groups[1..])
  }

  function SourceId(run: string, index: nat): string {
    run + "-" + Padded(index, 2)
  }

  function LabelsFor(run: string, site: string, index: nat): Labels {
    map[AlertName := ALERT_NAME, QualificationPack := PACK, QualificationRun := run,
        Site := site, SourceName := SourceId(run, index), Severity := "warning"]
  }

  // ---------- which group an index belongs to ----------

  /** The index range of group `g` is `[Offset(groups, g), Offset(groups, g) + groups[g].count)`. */
  ghost function Offset(groups: seq<Group>, g: nat): nat
    requires g <= |groups|
  {
    InputCount(groups[..g])
  }

  ghost predicate InGroup(groups: seq<Group>, g: nat, index: nat) {
    g < |groups| && Offset(groups, g) <= index < Offset(groups, g) + groups[g].count
  }

  /** The site of an index: the group whose range contains it. */
  function SiteOf(groups: seq<Group>, index: nat): string
    requires index < InputCount(groups)
  {
    if index < groups[0].count then groups[0].site else SiteOf(groups[1..], index - groups[0].count)
  }

  lemma {:induction false} OffsetStep(groups: seq<Group>, g: nat)
    requires g < |groups|
    ensures Offset(groups, g + 1) == Offset(groups, g) + groups[g].count
    ensures Offset(groups, |groups|) == InputCount(groups)
    decreases |groups|
  {
    assert groups[..|groups|] == groups;
    if g == 0 {
      assert groups[..1][1..] == [];
      assert groups[..1][0] == groups[0];
    } else {
      OffsetStep(groups[1..], g - 1);
      assert groups[..g][1..] == groups[1..][..g - 1];
      assert groups[..g + 1][1..] == groups[1..][..g];
    }
  }

  lemma {:induction false} OffsetMonotone(groups: seq<Group>, g: nat, h: nat)
    requires g <= h <= |groups|
    ensures Offset(groups, g) <= Offset(groups, h)
    decreases h - g
  {
    if g < h {
      OffsetStep(groups, g);
      OffsetMonotone(groups, g + 1, h);
    }
  }

  /** The ranges partition the indices: every index lies in exactly one group, and SiteOf names it. */
  lemma {:induction false} SiteOfGroup(groups: seq<Group>, index: nat) returns (g: nat)
    requires index < InputCount(groups)
    ensures InGroup(groups, g, index) && SiteOf(groups, index) == groups[g].site
    ensures forall h: nat :: InGroup(groups, h, index) ==> h == g
    decreases |groups|
  {
    if index < groups[0].count {
      g := 0;
      assert groups[..0] == [];
    } else {
      var h := SiteOfGroup(groups[1..], index - groups[0].count);
      g := h + 1;
      assert groups[..g][1..] == groups[1..][..h];
      assert groups[..g][0] == groups[0];
    }
    OffsetStep(groups, g);
    forall h: nat | InGroup(groups, h, index) ensures h == g {
      OffsetStep(groups, h);
      if h < g { OffsetMonotone(groups, h + 1, g); }
      if g < h { OffsetMonotone(groups, g + 1, h); }
    }
  }

  ghost predicate DistinctSites(groups: seq<Group>) {
    forall g, h :: 0 <= g < h < |groups| ==> groups[g].site != groups[h].site
  }

  /** With distinct sites, an index has a group's site exactly when it lies in that group's range. */
  lemma SiteIffInGroup(groups: seq<Group>, index: nat, g: nat)
    requires index < InputCount(groups) && g < |groups| && DistinctSites(groups)
    ensures SiteOf(groups, index) == groups[g].site <==> InGroup(groups, g, index)
  {
    var h := SiteOfGroup(groups, index);
    if h < g { assert groups[h].site != groups[g].site; }
    if g < h { assert groups[g].site != groups[h].site; }
  }

  /** The fixed input body, for one index. */
  method Prepare(m: Manifest, index: int) returns (r: Option<Identity>)
    ensures r.Some? <==> m.version == INSTALLED_INPUT_VERSION && 0 <= index < InputCount(m.groups)
    ensures r.Some? ==> r.value.startsAt == m.startsAt
    ensures r.Some? ==>
      exists g: nat :: InGroup(m.groups, g, index) && r.value.labels == LabelsFor(m.run, m.groups[g].site, index)
    ensures r.Some? ==> r.value.labels == LabelsFor(m.run, SiteOf(m.groups, index), index)
  {
    if m.version != INSTALLED_INPUT_VERSION || index < 0 || index >= InputCount(m.groups) {
      return None;
    }
    var site, position := "", index;
    var g := 0;
    ghost var home := SiteOfGroup(m.groups, index);
    while g < |m.groups|
      invariant 0 <= g <= home < |m.groups|
      invariant position == index - Offset(m.groups, g)
    {
      OffsetStep(m.groups, g);
      OffsetMonotone(m.groups, g, home);
      if position < m.groups[g].count {
        site := m.groups[g].site;
        assert InGroup(m.groups, g, index);
        break;
      }
      position := position - m.groups[g].count;
      g := g + 1;
    }
    return Some(Identity(LabelsFor(m.run, site, index), m.startsAt));
  }

  /** Source ids are pairwise different: the index can be read back from the id. */
  lemma SourceIdInjective(run: string, i: nat, j: nat)
    requires SourceId(run, i) == SourceId(run, j)
    ensures i == j
  {
    assert SourceId(run, i)[|run| + 1..] == Padded(i, 2);
    assert SourceId(run, j)[|run| + 1..] == Padded(j, 2);
    PaddedNumeral(i, 2);
    PaddedNumeral(j, 2);
  }

  /** What the input of an index is labelled with. */
  lemma InputLabels(run: string, site: string, index: nat)
    ensures var labels := LabelsFor(run, site, index);
            && labels.Keys == {AlertName, QualificationPack, QualificationRun, Site, SourceName, Severity}
            && labels[Site] == site && labels[QualificationRun] == run && labels[Severity] == "warning"
            && labels[SourceName] == run + "-" + Padded(index, 2)
            && labels[AlertName] == "CorrTestOperationalFlood" && labels[QualificationPack] == "corrtest_operational_v1"
  {
  }

  // ---------- the expected population ----------

  /** The identities of the first `n` inputs, keyed by source id. */
  function Expected(m: Manifest, n: nat): map<string, Labels>
    requires n <= InputCount(m.groups)
  {
    if n == 0 then map[]
    else Expected(m, n - 1)[SourceId(m.run, n - 1) := LabelsFor(m.run, SiteOf(m.groups, n - 1), n - 1)]
  }

  ghost predicate IsSource(m: Manifest, n: nat, source: string) {
    exists i: nat :: i < n && source == SourceId(m.run, i)
  }

  lemma {:induction false} ExpectedKeys(m: Manifest, n: nat, source: string)
    requires n <= InputCount(m.groups)
    ensures source in Expected(m, n) <==> IsSource(m, n, source)
  {
    if n > 0 {
      ExpectedKeys(m, n - 1, source);
      if IsSource(m, n - 1, source) {
        var i: nat :| i < n - 1 && source == SourceId(m.run, i);
        assert i < n && source == SourceId(m.run, i);
      }
    }
  }

  lemma {:induction false} LastIsNew(m: Manifest, n: nat)
    requires 0 < n <= InputCount(m.groups)
    ensures SourceId(m.run, n - 1) !in Expected(m, n - 1)
  {
    ExpectedKeys(m, n - 1, SourceId(m.run, n - 1));
    forall i: nat | i < n - 1 ensures SourceId(m.run, i) != SourceId(m.run, n - 1) {
      if SourceId(m.run, i) == SourceId(m.run, n - 1) { SourceIdInjective(m.run, i, n - 1); }
    }
  }

  lemma {:induction false} ExpectedSize(m: Manifest, n: nat)
    requires n <= InputCount(m.groups)
    ensures |Expected(m, n)| == n
  {
    if n > 0 {
      ExpectedSize(m, n - 1);
      LastIsNew(m, n);
      assert Expected(m, n).Keys == Expected(m, n - 1).Keys + {SourceId(m.run, n - 1)};
    }
  }

  lemma {:induction false} ExpectedValue(m: Manifest, n: nat, i: nat)
    requires i < n <= InputCount(m.groups)
    ensures SourceId(m.run, i) in Expected(m, n)
    ensures Expected(m, n)[SourceId(m.run, i)] == LabelsFor(m.run, SiteOf(m.groups, i), i)
  {
    if i < n - 1 {
      ExpectedValue(m, n - 1, i);
      if SourceId(m.run, i) == SourceId(m.run, n - 1) { SourceIdInjective(m.run, i, n - 1); }
    }
  }

  /** What the evaluator compares every population with. */
  datatype Roll = Roll(identities: map<string, Labels>, startsAt: int, count: nat)

  function RollOf(m: Manifest): Roll {
    Roll(Expected(m, InputCount(m.groups)), m.startsAt, InputCount(m.groups))
  }
}
