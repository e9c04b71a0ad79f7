/** Reading the complete History of one alert name page by page, and replaying the retained pages offline. */
module Pagination {
  import opened Common
  import opened History

  const MAX_LIST_PAGES := 100
  const PAGE_ROWS := 100
  const MAX_RESPONSE_BYTES := 4194304
  const MAX_HISTORY_BYTES := 16777216

  /** `parsed`: the response decodes with every list field present; `strict`: the installed raw-page check accepts it.
      */
  datatype Page = Page(parsed: bool, strict: bool, bytes: nat, records: seq<HistoryRow>, totalRecords: int,
                       totalPages: int, page: int, perPage: int)

  datatype Progress = Progress(seen: int, total: int, identities: set<string>)

  // ---------- what a complete list of pages is ----------

  /** The ids are new and differ from one another. */
  ghost predicate FreshIds(rows: seq<HistoryRow>, known: set<string>) {
    forall i :: 0 <= i < |rows| ==> rows[i].id !in known && forall j :: 0 <= j < i ==> rows[j].id != rows[i].id
  }

  ghost function IdSet(rows: seq<HistoryRow>): set<string> {
    set r | r in rows :: r.id
  }

  ghost predicate AllWellFormed(rows: seq<HistoryRow>) {
    forall i :: 0 <= i < |rows| ==> rows[i].wellFormed
  }

  ghost function Rows(pages: seq<Page>): seq<HistoryRow> {
    if pages == [] then [] else Rows(pages[..|pages| - 1]) + pages[|pages| - 1].records
  }

  /** The rows of one alert name, in order. */
  ghost function Named(rows: seq<HistoryRow>, alertName: string): seq<HistoryRow> {
    if rows == [] then []
    else Named(rows[..|rows| - 1], alertName) + if rows[|rows| - 1].alertName == alertName then [rows[|rows| - 1]] else []
  }

  function PagesFor(total: int): int { (total + 99) / 100 }

  function Min(a: int, b: int): int { if a < b then a else b }

  /** Page `k`, counting from zero, of a list of `total` rows. */
  ghost predicate PageOf(p: Page, k: nat, total: int) {
    && p.parsed && p.totalRecords == total && p.perPage == PAGE_ROWS && p.page == k + 1
    && p.totalPages == PagesFor(total)
    && |p.records| == Min(PAGE_ROWS, total - PAGE_ROWS * k) && AllWellFormed(p.records)
  }

  ghost predicate InOrder(pages: seq<Page>, total: int) {
    && 0 <= total <= MAX_LIST_PAGES * PAGE_ROWS
    && (forall k :: 0 <= k < |pages| ==> PageOf(pages[k], k, total))
    && FreshIds(Rows(pages), {})
  }

  /** Exactly the pages of one list, every row with an id of its own. */
  ghost predicate Complete(pages: seq<Page>) {
    pages != [] && InOrder(pages, pages[0].totalRecords) && |Rows(pages)| == pages[0].totalRecords
      && |pages| == if pages[0].totalRecords == 0 then 1 else PagesFor(pages[0].totalRecords)
  }

  lemma {:induction false} FreshIdsConcat(a: seq<HistoryRow>, b: seq<HistoryRow>, known: set<string>)
    ensures FreshIds(a + b, known) <==> FreshIds(a, known) && FreshIds(b, known + IdSet(a))
  {
    var s := a + b;
    assert forall i :: 0 <= i < |a| ==> s[i] == a[i];
    assert forall i :: 0 <= i < |b| ==> s[|a| + i] == b[i];
    if FreshIds(s, known) {
      forall i | 0 <= i < |a|
        ensures a[i].id !in known && forall j :: 0 <= j < i ==> a[j].id != a[i].id
      {
        assert s[i] == a[i];
      }
      forall i | 0 <= i < |b|
        ensures b[i].id !in known + IdSet(a) && forall j :: 0 <= j < i ==> b[j].id != b[i].id
      {
        assert s[|a| + i] == b[i];
        forall j | 0 <= j < |a| ensures a[j].id != b[i].id { assert s[j].id != s[|a| + i].id; }
        forall j | 0 <= j < i ensures b[j].id != b[i].id { assert s[|a| + j].id != s[|a| + i].id; }
      }
    }
    if FreshIds(a, known) && FreshIds(b, known + IdSet(a)) {
      forall i | 0 <= i < |s| ensures s[i].id !in known && forall j :: 0 <= j < i ==> s[j].id != s[i].id {
        if i >= |a| {
          var m := i - |a|;
          assert s[i] == b[m];
          forall j | 0 <= j < i ensures s[j].id != s[i].id {
            if j < |a| { assert a[j] in a && s[j].id in IdSet(a); } else { assert s[j] == b[j - |a|]; }
          }
        }
      }
    }
  }

  // ---------- one page ----------

  ghost predicate Admits(s: Progress, raw: Page, page: int) {
    && raw.parsed && 0 <= raw.totalRecords <= MAX_LIST_PAGES * PAGE_ROWS && raw.perPage == PAGE_ROWS && raw.page == page
    && raw.totalPages == PagesFor(raw.totalRecords) && (s.total >= 0 ==> s.total == raw.totalRecords)
    && |raw.records| == Min(PAGE_ROWS, raw.totalRecords - s.seen)
    && AllWellFormed(raw.records) && FreshIds(raw.records, s.identities)
  }

  /** The first `i` rows of a page are taken. */
  ghost predicate Taken(records: seq<HistoryRow>, i: nat, known: set<string>, identities: set<string>,
                        rows: seq<HistoryRow>, alertName: string)
    requires i <= |records|
  {
    && identities == known + IdSet(records[..i]) && rows == Named(records[..i], alertName)
    && FreshIds(records[..i], known) && AllWellFormed(records[..i])
  }

  lemma {:induction false} TakenStep(records: seq<HistoryRow>, i: nat, known: set<string>, identities: set<string>,
                                     rows: seq<HistoryRow>, alertName: string)
    requires i < |records| && Taken(records, i, known, identities, rows, alertName) && records[i].wellFormed
    requires records[i].id !in identities
    ensures Taken(records, i + 1, known, identities + {records[i].id}, if records[i].alertName == alertName then rows + [records[i]] else rows, alertName)
  {
    assert records[..i + 1] == records[..i] + [records[i]] && records[..i + 1][..i] == records[..i];
    FreshIdsConcat(records[..i], [records[i]], known);
  }

  /** Takes the rows of one page: every id must be new. */
  method AdmitRows(records: seq<HistoryRow>, known: set<string>, alertName: string)
    returns (identities: set<string>, rows: seq<HistoryRow>, ok: bool)
    ensures ok <==> AllWellFormed(records) && FreshIds(records, known)
    ensures ok ==> identities == known + IdSet(records) && rows == Named(records, alertName)
  {
    identities, rows := known, [];
    var i := 0;
    while i < |records|
      invariant 0 <= i <= |records| && Taken(records, i, known, identities, rows, alertName)
    {
      var row := records[i];
      if !row.wellFormed || row.id in identities {
        NotAdmitted(records, i, known);
        return identities, rows, false;
      }
      TakenStep(records, i, known, identities, rows, alertName);
      identities := identities + {row.id};
      if row.alertName == alertName { rows := rows + [row]; }
      i := i + 1;
    }
    assert records[..|records|] == records;
    ok := true;
  }

  class BoundedHistory {
    var seen: int
    var total: int
    var identities: set<string>

    constructor ()
      ensures State() == Progress(0, -1, {})
    {
      seen, total, identities := 0, -1, {};
    }

    ghost function State(): Progress
      reads this
    {
      Progress(seen, total, identities)
    }

    method Decode(raw: Page, page: int, alertName: string) returns (rows: seq<HistoryRow>, done: bool, ok: bool)
      modifies this
      ensures ok <==> Admits(old(State()), raw, page)
      ensures ok ==>
        State() == Progress(old(seen) + |raw.records|, raw.totalRecords, old(identities) + IdSet(raw.records))
      ensures ok ==> rows == Named(raw.records, alertName) && (done <==> old(seen) + |raw.records| == raw.totalRecords)
    {
      rows, done, ok := [], false, false;
      if !raw.parsed { return; }
      if raw.totalRecords < 0 || raw.totalRecords > MAX_LIST_PAGES * PAGE_ROWS || raw.perPage != PAGE_ROWS || raw.page != page
        || raw.totalPages != (raw.totalRecords + 99) / 100 || (total >= 0 && total != raw.totalRecords)
      {
        return;
      }
      total := raw.totalRecords;
      var expected := total - seen;
      if expected > 100 { expected := 100; }
      if expected < 0 || |raw.records| != expected { return; }
      seen := seen + |raw.records|;
      var admitted;
      identities, rows, admitted := AdmitRows(raw.records, identities, alertName);
      if !admitted { return; }
      done, ok := seen == total, true;
    }
  }

  lemma {:induction false} NotAdmitted(rows: seq<HistoryRow>, i: nat, known: set<string>)
    requires i < |rows| && (!rows[i].wellFormed || rows[i].id in known + IdSet(rows[..i]))
    ensures !(AllWellFormed(rows) && FreshIds(rows, known))
  {
    if rows[i].id in IdSet(rows[..i]) {
      var r :| r in rows[..i] && r.id == rows[i].id;
      var j :| 0 <= j < i && rows[j] == r;
    }
  }

  // ---------- a run over pages ----------

  /** The state after the pages of an unfinished or finished list. */
  ghost predicate Follows(s: Progress, pages: seq<Page>) {
    if pages == [] then s == Progress(0, -1, {})
    else
      && InOrder(pages, s.total) && pages[0].totalRecords == s.total
      && s.seen == |Rows(pages)| == Min(PAGE_ROWS * |pages|, s.total) && s.identities == IdSet(Rows(pages))
      && (|pages| == 1 || PAGE_ROWS * (|pages| - 1) < s.total)
  }

  predicate Unfinished(s: Progress, pages: seq<Page>) { pages == [] || s.seen < s.total }

  lemma {:induction false} RowsAppend(pages: seq<Page>, p: Page)
    ensures Rows(pages + [p]) == Rows(pages) + p.records
  {
    assert (pages + [p])[..|pages|] == pages;
  }

  lemma {:induction false} NamedConcat(a: seq<HistoryRow>, b: seq<HistoryRow>, alertName: string)
    ensures Named(a + b, alertName) == Named(a, alertName) + Named(b, alertName)
  {
    if b == [] {
      assert a + b == a;
    } else {
      assert (a + b)[..|a + b| - 1] == a + b[..|b| - 1];
      NamedConcat(a, b[..|b| - 1], alertName);
    }
  }

  /** An admitted page extends the list. */
  lemma {:induction false} FollowsStep(s: Progress, pages: seq<Page>, raw: Page)
    requires Follows(s, pages) && Unfinished(s, pages) && Admits(s, raw, |pages| + 1)
    ensures Follows(Progress(s.seen + |raw.records|, raw.totalRecords, s.identities + IdSet(raw.records)), pages + [raw])
  {
    var all, total := pages + [raw], raw.totalRecords;
    RowsAppend(pages, raw);
    FreshIdsConcat(Rows(pages), raw.records, {});
    assert IdSet(Rows(pages) + raw.records) == IdSet(Rows(pages)) + IdSet(raw.records);
    assert PageOf(raw, |pages|, total);
    forall k | 0 <= k < |all| ensures PageOf(all[k], k, total) {
      if k < |pages| { assert PageOf(pages[k], k, total); }
    }
    assert s.identities == IdSet(Rows(pages)) && {} + IdSet(Rows(pages)) == IdSet(Rows(pages));
  }

  lemma {:induction false} FreshSplit(a: seq<HistoryRow>, b: seq<HistoryRow>)
    requires FreshIds(a + b, {})
    ensures FreshIds(a, {}) && FreshIds(b, IdSet(a))
  {
    FreshIdsConcat(a, b, {});
    assert {} + IdSet(a) == IdSet(a);
  }

  /** The rows of a page of an ordered list are new to the pages before it. */
  lemma {:induction false} NextFresh(list: seq<Page>, n: nat, total: int)
    requires n < |list| && InOrder(list, total)
    ensures FreshIds(list[n].records, IdSet(Rows(list[..n])))
  {
    var head, upTo := Rows(list[..n]), Rows(list[..n + 1]);
    assert list[..n + 1] == list[..n] + [list[n]];
    RowsAppend(list[..n], list[n]);
    RowsPrefix(list, n + 1);
    var rest := Rows(list)[|upTo|..];
    assert upTo + rest == Rows(list);
    FreshSplit(upTo, rest);
    FreshSplit(head, list[n].records);
  }

  /** Every page of a complete list is admitted after the pages before it. */
  lemma {:induction false} CompleteAdmits(s: Progress, pages: seq<Page>, list: seq<Page>)
    requires Follows(s, pages) && Unfinished(s, pages) && |pages| < |list| && list[..|pages|] == pages && Complete(list)
    ensures Admits(s, list[|pages|], |pages| + 1)
  {
    var n, total := |pages|, list[0].totalRecords;
    NextFresh(list, n, total);
    assert PageOf(list[n], n, total);
    assert n > 0 ==> list[0] == pages[0];
  }

  lemma {:induction false} RowsPrefix(list: seq<Page>, n: nat)
    requires n <= |list|
    ensures Rows(list[..n]) <= Rows(list)
    decreases |list|
  {
    if n == |list| {
      assert list[..n] == list;
    } else {
      var init := list[..|list| - 1];
      RowsPrefix(init, n);
      assert init[..n] == list[..n];
    }
  }

  /** A finished state has exactly the pages of the list. */
  lemma {:induction false} FinishedIsComplete(s: Progress, pages: seq<Page>)
    requires Follows(s, pages) && pages != []
    ensures s.seen == s.total <==> Complete(pages)
  {
  }

  /** A complete list is no proper prefix of another: its first page says how many pages there are. */
  lemma {:induction false} NoPrefixNoExtension(a: seq<Page>, b: seq<Page>)
    ensures Complete(a) && Complete(b) && a <= b ==> a == b
  {
    assert a != [] && a <= b ==> a[0] == b[0];
  }

  // ---------- the network reader and the offline replay ----------

  function TotalBytes(pages: seq<Page>): nat {
    if pages == [] then 0 else TotalBytes(pages[..|pages| - 1]) + pages[|pages| - 1].bytes
  }

  /** The retained pages stay within the bounds of an installed observation. */
  ghost predicate Bounded(pages: seq<Page>) {
    (forall p :: p in pages ==> p.strict && 0 < p.bytes <= MAX_RESPONSE_BYTES) && TotalBytes(pages) <= MAX_HISTORY_BYTES
  }

  /** What the transport hands over: at most the response bound, and nothing parses from an empty body. */
  predicate Delivered(p: Page) { p.bytes <= MAX_RESPONSE_BYTES && (p.parsed ==> p.bytes > 0) }

  datatype Read = Read(rows: seq<HistoryRow>) | Unread | OverBound | Inconsistent | PageLimit

  /** The list is what the responses serve, page after page. */
  ghost predicate Serves(responses: nat -> Option<Page>, list: seq<Page>) {
    forall k :: 0 <= k < |list| ==> responses(k) == Some(list[k])
  }

  /** Appending one page keeps or breaks the bounds. */
  lemma {:induction false} BoundedAppend(pages: seq<Page>, p: Page)
    ensures Bounded(pages + [p]) <==>
      && (forall q :: q in pages ==> q.strict && 0 < q.bytes <= MAX_RESPONSE_BYTES)
      && p.strict && 0 < p.bytes <= MAX_RESPONSE_BYTES && TotalBytes(pages) + p.bytes <= MAX_HISTORY_BYTES
  {
    assert (pages + [p])[..|pages|] == pages;
    assert p in pages + [p] && forall q :: q in pages ==> q in pages + [p];
  }

  /** The first `k` retained pages are replayed: in bounds, counted, decoded. */
  ghost predicate Replayed(pages: seq<Page>, k: nat, total: nat, rows: seq<HistoryRow>, alertName: string)
    requires k <= |pages|
  {
    Bounded(pages[..k]) && total == TotalBytes(pages[..k]) && rows == Named(Rows(pages[..k]), alertName)
  }

  lemma {:induction false} ReplayedStep(pages: seq<Page>, k: nat, total: nat, rows: seq<HistoryRow>, alertName: string)
    requires k < |pages| && Replayed(pages, k, total, rows, alertName) && Bounded(pages[..k] + [pages[k]])
    ensures Replayed(pages, k + 1, total + pages[k].bytes, rows + Named(pages[k].records, alertName), alertName)
  {
    assert pages[..k + 1] == pages[..k] + [pages[k]] && (pages[..k] + [pages[k]])[..k] == pages[..k];
    RowsAppend(pages[..k], pages[k]);
    NamedConcat(Rows(pages[..k]), pages[k].records, alertName);
  }

  /** Replays one retained page; it is refused only when no complete bounded list starts this way. */
  method ReplayPage(state: BoundedHistory, pages: seq<Page>, k: nat, alertName: string, total: nat)
    returns (more: seq<HistoryRow>, ok: bool)
    requires k < |pages| && Follows(state.State(), pages[..k]) && Unfinished(state.State(), pages[..k])
    requires Bounded(pages[..k]) && total == TotalBytes(pages[..k])
    modifies state
    ensures ok ==>
      Follows(state.State(), pages[..k + 1]) && Bounded(pages[..k] + [pages[k]]) && more == Named(pages[k].records, alertName)
    ensures ok ==> if k == |pages| - 1 then state.seen == state.total else Unfinished(state.State(), pages[..k + 1])
    ensures !ok ==> !(Complete(pages) && Bounded(pages))
  {
    var raw := pages[k];
    ghost var before, s := pages[..k], state.State();
    assert pages[..k + 1] == before + [raw];
    BoundedAppend(before, raw);
    if raw.bytes == 0 || raw.bytes > MAX_RESPONSE_BYTES || raw.bytes > MAX_HISTORY_BYTES - total || !raw.strict {
      BoundedPrefix(pages, k + 1);
      return [], false;
    }
    var done, admitted;
    more, done, admitted := state.Decode(raw, k + 1, alertName);
    if !admitted {
      if Complete(pages) { CompleteAdmits(s, before, pages); }
      return [], false;
    }
    FollowsStep(s, before, raw);
    FinishedIsComplete(state.State(), pages[..k + 1]);
    ok := done == (k == |pages| - 1);
    if !ok { StoppedIsIncomplete(pages, k + 1, done); }
  }

  method ReplayPages(pages: seq<Page>, alertName: string) returns (rows: seq<HistoryRow>, ok: bool)
    ensures ok <==> Complete(pages) && Bounded(pages)
    ensures ok ==> rows == Named(Rows(pages), alertName)
  {
    rows := [];
    if |pages| == 0 || |pages| > MAX_LIST_PAGES { return [], false; }
    var state := new BoundedHistory();
    var total: nat, k := 0, 0;
    while k < |pages|
      invariant 0 <= k <= |pages| && Follows(state.State(), pages[..k]) && Replayed(pages, k, total, rows, alertName)
      invariant if k < |pages| then Unfinished(state.State(), pages[..k]) else state.seen == state.total
    {
      var more;
      more, ok := ReplayPage(state, pages, k, alertName, total);
      if !ok { return [], false; }
      ReplayedStep(pages, k, total, rows, alertName);
      total, rows, k := total + pages[k].bytes, rows + more, k + 1;
    }
    assert pages[..|pages|] == pages;
    FinishedIsComplete(state.State(), pages);
    ok := true;
  }

  lemma {:induction false} StoppedIsIncomplete(pages: seq<Page>, k: nat, done: bool)
    requires 0 < k <= |pages| && (done <==> Complete(pages[..k])) && (done <==> k != |pages|)
    ensures !Complete(pages)
  {
    NoPrefixNoExtension(pages[..k], pages);
    assert k == |pages| ==> pages[..k] == pages;
  }

  lemma {:induction false} BoundedPrefix(pages: seq<Page>, k: nat)
    requires k <= |pages|
    ensures Bounded(pages) ==> Bounded(pages[..k])
    decreases |pages|
  {
    if k < |pages| {
      var init := pages[..|pages| - 1];
      BoundedPrefix(init, k);
      assert init[..k] == pages[..k] && pages == init + [pages[|pages| - 1]];
    } else {
      assert pages[..k] == pages;
    }
  }

  /** A complete list the responses serve, within the bounds when its pages are kept. */
  ghost predicate Readable(responses: nat -> Option<Page>, keep: bool, list: seq<Page>) {
    Complete(list) && Serves(responses, list) && (keep ==> Bounded(list))
  }

  /** Two complete lists that the same responses serve are one. */
  lemma {:induction false} ServedOnce(responses: nat -> Option<Page>, a: seq<Page>, b: seq<Page>)
    requires Serves(responses, a) && Serves(responses, b)
    ensures |a| <= |b| ==> a <= b
  {
    forall k | 0 <= k < |a| && k < |b| ensures a[k] == b[k] {
      assert responses(k) == Some(a[k]) == Some(b[k]);
    }
  }

  lemma {:induction false} NotYetComplete(responses: nat -> Option<Page>, keep: bool, s: Progress, pages: seq<Page>,
                                          list: seq<Page>)
    requires Serves(responses, pages) && Follows(s, pages) && Unfinished(s, pages)
    ensures Readable(responses, keep, list) ==> |list| > |pages| && list[..|pages|] == pages
  {
    if Readable(responses, keep, list) {
      ServedOnce(responses, list, pages);
      ServedOnce(responses, pages, list);
      NoPrefixNoExtension(list, pages);
      if |list| <= |pages| {
        ShorterNotComplete(s, pages, list);
      }
    }
  }

  /** An unfinished run has no complete prefix. */
  lemma {:induction false} ShorterNotComplete(s: Progress, pages: seq<Page>, list: seq<Page>)
    requires Follows(s, pages) && Unfinished(s, pages) && list <= pages
    ensures !Complete(list)
  {
    assert list != [] ==> list[0] == pages[0];
  }

  /** No readable list is served. */
  ghost predicate NoneReadable(responses: nat -> Option<Page>, keep: bool) {
    forall list :: !Readable(responses, keep, list)
  }

  /** An unfinished run that cannot take the next page as it is served has no readable list. */
  lemma {:induction false} StoppedHasNone(responses: nat -> Option<Page>, keep: bool, s: Progress, pages: seq<Page>)
    requires Serves(responses, pages) && Follows(s, pages) && Unfinished(s, pages)
    requires
      || responses(|pages|).None?
      || (keep && !Bounded(pages + [responses(|pages|).value]))
      || !Admits(s, responses(|pages|).value, |pages| + 1)
    ensures NoneReadable(responses, keep)
  {
    forall list ensures !Readable(responses, keep, list) {
      NotYetComplete(responses, keep, s, pages, list);
      if Readable(responses, keep, list) {
        NextServed(responses, keep, s, pages, list);
      }
    }
  }

  lemma {:induction false} NextServed(responses: nat -> Option<Page>, keep: bool, s: Progress, pages: seq<Page>,
                                      list: seq<Page>)
    requires Follows(s, pages) && Unfinished(s, pages)
    requires Readable(responses, keep, list) && |list| > |pages| && list[..|pages|] == pages
    ensures responses(|pages|) == Some(list[|pages|]) && Admits(s, list[|pages|], |pages| + 1)
    ensures keep ==> Bounded(pages + [list[|pages|]])
  {
    CompleteAdmits(s, pages, list);
    BoundedPrefix(list, |pages| + 1);
    assert list[..|pages| + 1] == pages + [list[|pages|]];
  }

  /** A kept page that is not strictly encoded, or would take the observation over its bound. */
  ghost predicate OverBudget(before: seq<Page>, raw: Page) {
    !raw.strict || TotalBytes(before) + raw.bytes > MAX_HISTORY_BYTES
  }

  /** Takes one served page, or says why it cannot. */
  method TakePage(state: BoundedHistory, ghost before: seq<Page>, page: int, raw: Page, alertName: string, keep: bool,
                  bytes: nat)
    returns (stop: Option<Read>, more: seq<HistoryRow>, done: bool)
    requires Follows(state.State(), before) && Unfinished(state.State(), before) && Delivered(raw)
    requires page == |before| + 1
    requires keep ==> Bounded(before) && bytes == TotalBytes(before)
    modifies state
    ensures stop.Some? ==> stop.value == if keep && OverBudget(before, raw) then OverBound else Inconsistent
    ensures stop.Some? ==> (keep && !Bounded(before + [raw])) || !Admits(old(state.State()), raw, |before| + 1)
    ensures stop.None? ==> Follows(state.State(), before + [raw]) && (keep ==>
      Bounded(before + [raw])) && more == Named(raw.records, alertName)
    ensures stop.None? ==> (done <==> Complete(before + [raw])) && (!done ==> Unfinished(state.State(), before + [raw]))
  {
    ghost var s := state.State();
    BoundedAppend(before, raw);
    if keep && (raw.bytes > MAX_HISTORY_BYTES - bytes || !raw.strict) { return Some(OverBound), [], false; }
    var admitted;
    more, done, admitted := state.Decode(raw, page, alertName);
    if !admitted { return Some(Inconsistent), [], false; }
    FollowsStep(s, before, raw);
    FinishedIsComplete(state.State(), before + [raw]);
    stop := None;
  }

  /** The read stopped after these pages: the next one did not come, was too much, or does not continue the list. */
  ghost predicate StopsWith(responses: nat -> Option<Page>, pages: seq<Page>, keep: bool, r: Read) {
    && Serves(responses, pages)
    && r == match responses(|pages|)
            case None => Unread
            case Some(raw) => if keep && OverBudget(pages, raw) then OverBound else Inconsistent
  }

  /** The read is under way: the pages so far are served and unfinished. */
  ghost predicate Reading(s: Progress, responses: nat -> Option<Page>, pages: seq<Page>, keep: bool,
                          rows: seq<HistoryRow>, bytes: nat, alertName: string) {
    |pages| <= MAX_LIST_PAGES && Follows(s, pages) && Unfinished(s, pages) && Served(responses, pages, keep, rows, bytes, alertName)
  }

  /** Asks for the next page; `r` is the end of the read, if this page ends it. */
  method ReadPage(state: BoundedHistory, alertName: string, responses: nat -> Option<Page>, keep: bool,
                  before: seq<Page>, earlier: seq<HistoryRow>, size: nat)
    returns (r: Option<Read>, pages: seq<Page>, rows: seq<HistoryRow>, bytes: nat)
    requires forall k: nat :: responses(k).Some? ==> Delivered(responses(k).value)
    requires Reading(state.State(), responses, before, keep, earlier, size, alertName) && |before| < MAX_LIST_PAGES
    modifies state
    ensures r.None? ==>
      |pages| == |before| + 1 && Reading(state.State(), responses, pages, keep, rows, bytes, alertName)
    ensures r.Some? && r.value.Read? ==>
      Readable(responses, keep, pages) && r.value.rows == Named(Rows(pages), alertName)
    ensures r.Some? && !r.value.Read? ==>
      NoneReadable(responses, keep) && StopsWith(responses, pages, keep, r.value)
  {
    pages, rows, bytes := before, earlier, size;
    ghost var s := state.State();
    var response := responses(|before|);
    if response.None? {
      StoppedHasNone(responses, keep, s, before);
      return Some(Unread), pages, rows, bytes;
    }
    var stop, more, done := TakePage(state, before, |before| + 1, response.value, alertName, keep, size);
    if stop.Some? {
      StoppedHasNone(responses, keep, s, before);
      return stop, pages, rows, bytes;
    }
    ServedStep(responses, before, keep, earlier, size, alertName, response.value);
    pages, rows, bytes := before + [response.value], earlier + more, size + response.value.bytes;
    r := if done then Some(Read(rows)) else None;
  }

  /** `responses` are the answers to page 1, 2, …; None is a transport error or a status other than 200. */
  method ReadBoundedHistory(alertName: string, responses: nat -> Option<Page>, keep: bool)
    returns (r: Read, pages: seq<Page>)
    requires forall k: nat :: responses(k).Some? ==> Delivered(responses(k).value)
    ensures r != PageLimit
    ensures r.Read? ==> Readable(responses, keep, pages) && r.rows == Named(Rows(pages), alertName)
    ensures !r.Read? ==> NoneReadable(responses, keep) && StopsWith(responses, pages, keep, r)
  {
    pages := [];
    var rows: seq<HistoryRow>, bytes: nat := [], 0;
    var state := new BoundedHistory();
    while |pages| < MAX_LIST_PAGES
      invariant Reading(state.State(), responses, pages, keep, rows, bytes, alertName)
      decreases MAX_LIST_PAGES - |pages|
    {
      var end;
      end, pages, rows, bytes := ReadPage(state, alertName, responses, keep, pages, rows, bytes);
      if end.Some? { return end.value, pages; }
    }
    assert false;
  }

  /** The pages so far are the first the responses serve; the rows and the byte count are theirs. */
  ghost predicate Served(responses: nat -> Option<Page>, pages: seq<Page>, keep: bool, rows: seq<HistoryRow>,
                         bytes: nat, alertName: string) {
    && Serves(responses, pages) && bytes == TotalBytes(pages) && (keep ==> Bounded(pages))
    && rows == Named(Rows(pages), alertName)
  }

  lemma {:induction false} ServedStep(responses: nat -> Option<Page>, pages: seq<Page>, keep: bool,
                                      rows: seq<HistoryRow>, bytes: nat, alertName: string, raw: Page)
    requires Served(responses, pages, keep, rows, bytes, alertName) && responses(|pages|) == Some(raw)
    requires (keep ==> Bounded(pages + [raw]))
    ensures Served(responses, pages + [raw], keep, rows + Named(raw.records, alertName), bytes + raw.bytes, alertName)
  {
    RowsAppend(pages, raw);
    NamedConcat(Rows(pages), raw.records, alertName);
    assert (pages + [raw])[..|pages|] == pages;
  }

  /** The shape of a complete list: its pages are numbered from 1, each full but the last, which holds the rest; every page
      names the same totals, and every row is well formed with an id of its own. */
  lemma {:induction false} CompleteShape(pages: seq<Page>)
    requires Complete(pages)
    ensures 0 <= |Rows(pages)| <= 10_000 && |pages| <= 100
    ensures forall k :: 0 <= k < |pages| ==>
      && pages[k].parsed && pages[k].page == k + 1 && pages[k].perPage == 100
      && pages[k].totalRecords == |Rows(pages)| && (forall r :: r in pages[k].records ==> r.wellFormed)
      && |pages[k].records| == if k < |pages| - 1 then 100 else |Rows(pages)| - 100 * (|pages| - 1)
    ensures forall i, j :: 0 <= i < j < |Rows(pages)| ==> Rows(pages)[i].id != Rows(pages)[j].id
  {
    forall k | 0 <= k < |pages| ensures PageOf(pages[k], k, |Rows(pages)|) { }
  }
}
