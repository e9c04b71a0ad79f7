/** When the source History of a case is complete: every event found, and as many alerts as events. */
module Readiness {
  import opened Common
  import opened History
  import opened Discovery

  /** The row shows the alert of this key in this run. */
  predicate Shows(run: string, k: Key, row: HistoryRow) {
    && row.alertName == k.alertName && Label(row.labels, TestRunId) == run && row.fingerprint != ""
    && Label(row.labels, TestEventId) == k.eventId
  }

  /** Rows of other runs, other events or without a fingerprint never count. */
  lemma ForeignRowsIgnored(run: string, k: Key, row: HistoryRow)
    ensures Label(row.labels, TestRunId) != run ==> !Shows(run, k, row)
    ensures row.alertName != k.alertName || Label(row.labels, TestEventId) != k.eventId ==> !Shows(run, k, row)
    ensures row.fingerprint == "" ==> !Shows(run, k, row)
    ensures row.alertName == k.alertName && Label(row.labels, TestEventId) == k.eventId && row.fingerprint != "" ==>
      (Shows(run, k, row) <==> Label(row.labels, TestRunId) == run)
  {
  }

  /** Some row of the key's reply shows it under this fingerprint. */
  ghost predicate ShownAs(run: string, k: Key, sources: string -> Reply, fingerprint: string) {
    && sources(k.alertName).Some?
    && exists r :: r in sources(k.alertName).value && Shows(run, k, r) && r.fingerprint == fingerprint
  }

  ghost predicate Found(run: string, k: Key, sources: string -> Reply) {
    exists f :: ShownAs(run, k, sources, f)
  }

  /** What reading the History of every expected alert name leaves. */
  ghost predicate ReadState(run: string, expected: set<Key>, sources: string -> Reply, found: set<Key>,
                            records: Records) {
    && (forall k :: k in found <==> k in expected && Found(run, k, sources))
    && (forall f :: f in records <==> exists k :: k in expected && ShownAs(run, k, sources, f))
  }

  /** Reads one alert name. */
  method ReadName(run: string, name: string, expected: set<Key>, rows: seq<HistoryRow>, before: set<Key>, held: Records)
    returns (found: set<Key>, records: Records)
    ensures forall k :: k in found <==>
      k in before || (k in expected && k.alertName == name && exists r :: r in rows && Shows(run, k, r))
    ensures forall f :: f in records <==>
      f in held || exists k, r :: k in expected && k.alertName == name && r in rows && Shows(run, k, r) && r.fingerprint == f
  {
    found, records := before, held;
    for i := 0 to |rows|
      invariant forall k :: k in found <==>
        k in before || (k in expected && k.alertName == name && exists r :: r in rows[..i] && Shows(run, k, r))
      invariant forall f :: f in records <==>
        f in held || exists k, r :: k in expected && k.alertName == name && r in rows[..i] && Shows(run, k, r) && r.fingerprint == f
    {
      var row := rows[i];
      var key := Key(name, Label(row.labels, TestEventId));
      assert forall r :: r in rows[..i + 1] <==> r in rows[..i] || r == row;
      if row.alertName == name && Label(row.labels, TestRunId) == run && row.fingerprint != "" && key in expected {
        assert Shows(run, key, row);
        found := found + {key};
        records := RetainLatest(records, row);
      }
    }
    assert rows[..|rows|] == rows;
  }

  /** `ok` is false when a read failed. */
  method ReadSources(run: string, expected: set<Key>, sources: string -> Reply)
    returns (ok: bool, ready: bool, found: set<Key>, records: Records)
    ensures ok <==> forall k :: k in expected ==> sources(k.alertName).Some?
    ensures !ok ==> !ready
    ensures ok ==>
      ReadState(run, expected, sources, found, records) && (ready <==> |found| == |expected| && |records| == |expected|)
  {
    found, records := {}, map[];
    var names := set k | k in expected :: k.alertName;
    var left := names;
    while left != {}
      invariant left <= names
      invariant forall k :: k in expected && k.alertName !in left ==> sources(k.alertName).Some?
      invariant ReadState(run, (set k | k in expected && k.alertName !in left), sources, found, records)
      decreases left
    {
      var name :| name in left;
      match sources(name) {
        case None =>
          return false, false, {}, map[];
        case Some(rows) =>
          var before, held := found, records;
          found, records := ReadName(run, name, expected, rows, before, held);
          ReadStep(run, expected, left, name, sources, rows, before, held, found, records);
      }
      left := left - {name};
    }
    assert (set k | k in expected && k.alertName !in left) == expected;
    ok, ready := true, |found| == |expected| && |records| == |expected|;
  }

  lemma {:induction false} ReadStep(run: string, expected: set<Key>, left: set<string>, name: string,
                                    sources: string -> Reply, rows: seq<HistoryRow>,
                                    before: set<Key>, held: Records, found: set<Key>, records: Records)
    requires name in left && sources(name) == Some(rows)
    requires ReadState(run, (set k | k in expected && k.alertName !in left), sources, before, held)
    requires forall k :: k in found <==>
      k in before || (k in expected && k.alertName == name && exists r :: r in rows && Shows(run, k, r))
    requires forall f :: f in records <==>
      f in held || exists k, r :: k in expected && k.alertName == name && r in rows && Shows(run, k, r) && r.fingerprint == f
    ensures ReadState(run, (set k | k in expected && k.alertName !in left - {name}), sources, found, records)
  {
    forall k: Key | k.alertName == name ensures Found(run, k, sources) <==> exists r :: r in rows && Shows(run, k, r) {
      if r :| r in rows && Shows(run, k, r) {
        assert ShownAs(run, k, sources, r.fingerprint);
      }
    }
    forall f ensures f in records <==> exists k :: k in (set k | k in expected && k.alertName !in left - {name}) && ShownAs(run, k, sources, f) {
      if k :| k in expected && k.alertName !in left - {name} && ShownAs(run, k, sources, f) {
        if k.alertName != name {
          assert k in (set k | k in expected && k.alertName !in left);
        }
      }
    }
  }

  /** No fingerprint shows two events. */
  ghost predicate NoneShared(run: string, expected: set<Key>, sources: string -> Reply) {
    forall k, l, f :: k in expected && l in expected && ShownAs(run, k, sources, f) && ShownAs(run, l, sources, f) ==>
      k == l
  }

  /** Every event is shown by exactly one alert. */
  ghost predicate OneAlertEach(run: string, expected: set<Key>, sources: string -> Reply) {
    && (forall k :: k in expected ==> Found(run, k, sources))
    && forall k, f, g :: k in expected && ShownAs(run, k, sources, f) && ShownAs(run, k, sources, g) ==> f == g
  }

  ghost function Shown(run: string, k: Key, sources: string -> Reply): (f: string)
    requires Found(run, k, sources)
    ensures ShownAs(run, k, sources, f)
  {
    var f :| ShownAs(run, k, sources, f); f
  }

  ghost predicate AllFound(run: string, expected: set<Key>, sources: string -> Reply) {
    forall k :: k in expected ==> Found(run, k, sources)
  }

  /** One alert of each event; the representatives are as many as the events and all are among the records. */
  lemma {:induction false} Representatives(run: string, expected: set<Key>, sources: string -> Reply, found: set<Key>,
                                           records: Records)
    returns (shown: map<Key, string>)
    requires ReadState(run, expected, sources, found, records) && NoneShared(run, expected, sources)
    requires AllFound(run, expected, sources)
    ensures shown.Keys == expected && forall k :: k in expected ==> ShownAs(run, k, sources, shown[k])
    ensures |shown.Values| == |expected| && shown.Values <= records.Keys
  {
    shown := map k | k in expected :: Shown(run, k, sources);
    MapValuesCount(shown);
  }

  /** A record that represents no event other than the one it shows represents that one. */
  lemma {:induction false} ValueOf(run: string, expected: set<Key>, sources: string -> Reply, shown: map<Key, string>,
                                   k: Key, f: string)
    requires NoneShared(run, expected, sources) && k in expected && ShownAs(run, k, sources, f) && f in shown.Values
    requires shown.Keys == expected && forall l :: l in expected ==> ShownAs(run, l, sources, shown[l])
    ensures f == shown[k]
  {
    var l :| l in shown && shown[l] == f;
    assert l == k;
  }

  lemma {:induction false} OneEachRepresents(run: string, expected: set<Key>, sources: string -> Reply, found: set<Key>,
                                             records: Records, shown: map<Key, string>)
    requires ReadState(run, expected, sources, found, records) && OneAlertEach(run, expected, sources)
    requires shown.Keys == expected && forall l :: l in expected ==> ShownAs(run, l, sources, shown[l])
    ensures records.Keys <= shown.Values
  {
    forall f | f in records.Keys ensures f in shown.Values {
      var k :| k in expected && ShownAs(run, k, sources, f);
      assert shown[k] == f;
    }
  }

  lemma {:induction false} AllFoundCount(run: string, expected: set<Key>, sources: string -> Reply, found: set<Key>,
                                         records: Records)
    requires ReadState(run, expected, sources, found, records)
    ensures |found| == |expected| <==> AllFound(run, expected, sources)
  {
    SubsetCardinality(found, expected);
    if AllFound(run, expected, sources) {
      forall k | k in expected ensures k in found {
        assert Found(run, k, sources);
      }
      assert found == expected;
    }
  }

  lemma {:induction false} ReadyThenOneEach(run: string, expected: set<Key>, sources: string -> Reply, found: set<Key>,
                                            records: Records)
    requires ReadState(run, expected, sources, found, records) && NoneShared(run, expected, sources)
    requires AllFound(run, expected, sources) && |records.Keys| == |expected|
    ensures OneAlertEach(run, expected, sources)
  {
    var shown := Representatives(run, expected, sources, found, records);
    SubsetCardinality(shown.Values, records.Keys);
    forall k, f, g | k in expected && ShownAs(run, k, sources, f) && ShownAs(run, k, sources, g) ensures f == g {
      assert f in records.Keys && g in records.Keys;
      ValueOf(run, expected, sources, shown, k, f);
      ValueOf(run, expected, sources, shown, k, g);
    }
  }

  lemma {:induction false} OneEachThenReady(run: string, expected: set<Key>, sources: string -> Reply, found: set<Key>,
                                            records: Records)
    requires ReadState(run, expected, sources, found, records) && NoneShared(run, expected, sources)
    requires AllFound(run, expected, sources) && OneAlertEach(run, expected, sources)
    ensures |records.Keys| == |expected|
  {
    var shown := Representatives(run, expected, sources, found, records);
    OneEachRepresents(run, expected, sources, found, records, shown);
    assert records.Keys == shown.Values;
  }

  /** The two counts say that events and alerts correspond one to one, as long as no alert shows two events. */
  lemma {:induction false} ReadyMeansOneAlertEach(run: string, expected: set<Key>, sources: string -> Reply,
                                                  found: set<Key>, records: Records)
    requires ReadState(run, expected, sources, found, records) && NoneShared(run, expected, sources)
    ensures |found| == |expected| && |records| == |expected| <==> OneAlertEach(run, expected, sources)
  {
    AllFoundCount(run, expected, sources, found, records);
    if AllFound(run, expected, sources) {
      if |records.Keys| == |expected| {
        ReadyThenOneEach(run, expected, sources, found, records);
      } else if OneAlertEach(run, expected, sources) {
        OneEachThenReady(run, expected, sources, found, records);
      }
    }
  }

  /** One alert for every event, and as many alerts as events, leave no alert for two events. */
  lemma {:induction false} OneEachNotShared(run: string, expected: set<Key>, sources: string -> Reply, found: set<Key>,
                                            records: Records)
    requires ReadState(run, expected, sources, found, records) && OneAlertEach(run, expected, sources)
    requires |records.Keys| == |expected|
    ensures NoneShared(run, expected, sources)
  {
    var shown := map k | k in expected :: Shown(run, k, sources);
    OneEachRepresents(run, expected, sources, found, records, shown);
    SubsetCardinality(records.Keys, shown.Values);
    assert shown.Keys == expected;
    MapValuesCount(shown);
    forall k, l, f | k in expected && l in expected && ShownAs(run, k, sources, f) && ShownAs(run, l, sources, f)
      ensures k == l
    {
      assert shown[k] == f == shown[l];
    }
  }

  /** A ready case has one alert for every event exactly when no alert shows two events. */
  lemma {:induction false} ReadyOneEachIff(run: string, expected: set<Key>, sources: string -> Reply, found: set<Key>,
                                           records: Records)
    requires ReadState(run, expected, sources, found, records) && |found| == |expected| == |records|
    ensures OneAlertEach(run, expected, sources) <==> NoneShared(run, expected, sources)
  {
    if NoneShared(run, expected, sources) {
      ReadyMeansOneAlertEach(run, expected, sources, found, records);
    } else if OneAlertEach(run, expected, sources) {
      OneEachNotShared(run, expected, sources, found, records);
    }
  }

  /** One alert that shows two events can make the counts agree although another event has two alerts. */
  lemma {:induction false} SharedAlertMisleads(run: string, name: string, labels: Labels)
    returns (expected: set<Key>, sources: string -> Reply, found: set<Key>, records: Records)
    requires Label(labels, TestRunId) == run
    ensures ReadState(run, expected, sources, found, records)
    ensures |found| == |expected| == |records| && !OneAlertEach(run, expected, sources)
  {
    var a, b := Key(name, "a"), Key(name, "b");
    var a1 := HistoryRow("", true, name, "1", Firing, 1, labels[TestEventId := "a"], None, None);
    var a2 := a1.(fingerprint := "2");
    var b2 := a2.(labels := labels[TestEventId := "b"]);
    var rows := [a1, a2, b2];
    expected, sources, found := {a, b}, _ => Some(rows), {a, b};
    records := map["1" := a1, "2" := b2];
    assert "1" != "2" by { assert "1"[0] != "2"[0]; }
    assert a != b by { assert "a"[0] != "b"[0]; }
    SharedReads(run, a, b, a1, a2, b2, sources, rows);
    assert records.Keys == {"1", "2"};
  }

  lemma {:induction false} ShownBy(run: string, k: Key, sources: string -> Reply, rows: seq<HistoryRow>, row: HistoryRow)
    requires sources(k.alertName) == Some(rows) && row in rows && Shows(run, k, row)
    ensures ShownAs(run, k, sources, row.fingerprint)
  {
  }

  lemma {:induction false} ShownAmong(run: string, k: Key, sources: string -> Reply, rows: seq<HistoryRow>, f: string)
    requires sources(k.alertName) == Some(rows) && ShownAs(run, k, sources, f)
    ensures exists r :: r in rows && Shows(run, k, r) && r.fingerprint == f
  {
  }

  lemma {:induction false} SharedReads(run: string, a: Key, b: Key, a1: HistoryRow, a2: HistoryRow, b2: HistoryRow,
                                       sources: string -> Reply, rows: seq<HistoryRow>)
    requires a != b && a.alertName == b.alertName && rows == [a1, a2, b2] && sources(a.alertName) == Some(rows)
    requires Shows(run, a, a1) && Shows(run, a, a2) && Shows(run, b, b2)
    requires a1.fingerprint != a2.fingerprint == b2.fingerprint
    ensures ReadState(run, {a, b}, sources, {a, b}, map[a1.fingerprint := a1, a2.fingerprint := b2])
    ensures !OneAlertEach(run, {a, b}, sources)
  {
    ShownBy(run, a, sources, rows, a1);
    ShownBy(run, a, sources, rows, a2);
    ShownBy(run, b, sources, rows, b2);
    forall k, f | k in {a, b} && ShownAs(run, k, sources, f) ensures f == a1.fingerprint || f == a2.fingerprint {
      ShownAmong(run, k, sources, rows, f);
    }
  }
}
