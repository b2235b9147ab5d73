/**
 Reading the append-only audit log in pages, newest entry first. Entries of the same second are taken in the
 order they were written, so "newest first" is the log read backwards. Page numbers and counts are unbounded here.
 */
module AuditPages {
  import opened Common

  datatype Row = Row(id: string, userId: Option<string>, sessionId: Option<string>, pimSessionId: Option<string>,
                     actionType: string, resource: Option<string>, result: string, ipAddress: Option<string>,
                     severity: string, createdAt: string)

  datatype Entry = Entry(id: string, userId: string, sessionId: string, pimSessionId: string, actionType: string,
                         resource: string, result: string, ipAddress: string, severity: string, createdAt: string,
                         isPimAction: bool)

  /** The action type is accepted but, as in the service, no query looks at it. */
  datatype Params = Params(userId: string, severity: string, actionType: string, page: int, perPage: int)
  datatype Page = Page(entries: seq<Entry>, total: nat, page: int, perPage: int, hasMore: bool)

  function OrEmpty(s: Option<string>): string {
    if s.Some? then s.value else ""
  }

  function ToEntry(row: Row): Entry {
    Entry(row.id, OrEmpty(row.userId), OrEmpty(row.sessionId), OrEmpty(row.pimSessionId), row.actionType,
          OrEmpty(row.resource), row.result, OrEmpty(row.ipAddress), row.severity, row.createdAt,
          row.pimSessionId.Some? && row.pimSessionId.value != "")
  }

  // ---- What a reader is meant to see ------------------------------------------------------------------------------

  /** A user filter takes precedence over a severity filter. */
  predicate Matches(row: Row, userId: string, severity: string) {
    if userId != "" then row.userId == Some(userId)
    else if severity != "" then row.severity == severity
    else true
  }

  function Matching(userId: string, severity: string): Row -> bool {
    (row: Row) => Matches(row, userId, severity)
  }

  function NewestFirst(rows: seq<Row>): (r: seq<Row>)
    ensures |r| == |rows|
  {
    seq(|rows|, i requires 0 <= i < |rows| => rows[|rows| - 1 - i])
  }

  /** All matching rows, newest first. */
  function Listing(log: seq<Row>, p: Params): seq<Row> {
    NewestFirst(Filter(log, Matching(p.userId, p.severity)))
  }

  function Entries(rows: seq<Row>): (r: seq<Entry>)
    ensures |r| == |rows|
  {
    seq(|rows|, i requires 0 <= i < |rows| => ToEntry(rows[i]))
  }

  // ---- One page -----------------------------------------------------------------------------------------------------

  function Min(a: int, b: int): int {
    if a < b then a else b
  }

  function PageNumber(p: Params): (page: int)
    ensures page >= 1
  {
    if p.page < 1 then 1 else p.page
  }

  function PerPage(p: Params): (perPage: int)
    ensures 1 <= perPage <= 200
  {
    if p.perPage < 1 then 50 else if p.perPage > 200 then 200 else p.perPage
  }

  /** LIMIT and OFFSET on rows that are already in order. */
  function Window(rows: seq<Row>, offset: nat, limit: nat): (r: seq<Row>)
    ensures |r| <= limit
  {
    rows[Min(offset, |rows|)..Min(offset + limit, |rows|)]
  }

  /** SELECT … WHERE … ORDER BY created_at DESC LIMIT … OFFSET … */
  function SelectPage(log: seq<Row>, userId: string, severity: string, limit: nat, offset: nat): seq<Row> {
    Window(NewestFirst(Filter(log, Matching(userId, severity))), offset, limit)
  }

  /** The first row of a page, pages counted from 0. */
  function Start(page: nat, perPage: nat): nat {
    page * perPage
  }

  function Offset(p: Params): nat {
    Start(PageNumber(p) - 1, PerPage(p))
  }

  function QueryPage(log: seq<Row>, p: Params): Page {
    var rows := Window(Listing(log, p), Offset(p), PerPage(p));
    Page(Entries(rows), |log|, PageNumber(p), PerPage(p), Offset(p) + |rows| < |log|)
  }

  method Query(log: seq<Row>, params: Params) returns (result: Page)
    ensures result == QueryPage(log, params)
  {
    var page, perPage := params.page, params.perPage;
    if page < 1 {
      page := 1;
    }
    if perPage < 1 {
      perPage := 50;
    }
    if perPage > 200 {
      perPage := 200;
    }
    var offset := (page - 1) * perPage;
    assert offset == Offset(params);
    var rows;
    if params.userId != "" {
      rows := SelectPage(log, params.userId, "", perPage, offset);
      SameFilter(log, params.userId, "", params.severity);
    } else if params.severity != "" {
      rows := SelectPage(log, "", params.severity, perPage, offset);
    } else {
      rows := SelectPage(log, "", "", perPage, offset);
    }
    var entries := ToEntries(rows);
    return Page(entries, |log|, page, perPage, offset + |rows| < |log|);
  }

  method ToEntries(rows: seq<Row>) returns (entries: seq<Entry>)
    ensures entries == Entries(rows)
  {
    entries := [];
    for i := 0 to |rows|
      invariant |entries| == i && forall j :: 0 <= j < i ==> entries[j] == ToEntry(rows[j])
    {
      entries := entries + [ToEntry(rows[i])];
    }
  }

  lemma SameFilter(log: seq<Row>, userId: string, a: string, b: string)
    requires userId != ""
    ensures Filter(log, Matching(userId, a)) == Filter(log, Matching(userId, b))
  {
    if log != [] {
      SameFilter(log[..|log| - 1], userId, a, b);
    }
  }

  // ---- The action type ----------------------------------------------------------------------------------------------

  /** The requested action type has no influence on the answer. */
  lemma ActionTypeIsIgnored(log: seq<Row>, p: Params, other: string)
    ensures QueryPage(log, p) == QueryPage(log, p.(actionType := other))
  {
    assert Listing(log, p) == Listing(log, p.(actionType := other));
  }

  /** Every entry of the page is of the requested type. */
  ghost predicate PageIsOfType(log: seq<Row>, p: Params) {
    forall i :: 0 <= i < |QueryPage(log, p).entries| ==> QueryPage(log, p).entries[i].actionType == p.actionType
  }

  /** One page shows only the requested type iff the listing has only that type at the page's places. */
  lemma PageTypeIsExact(log: seq<Row>, p: Params)
    ensures PageIsOfType(log, p) <==>
            forall n :: Offset(p) <= n < Offset(p) + PerPage(p) && n < |Listing(log, p)| ==>
              Listing(log, p)[n].actionType == p.actionType
  {
    var rows, start := Window(Listing(log, p), Offset(p), PerPage(p)), Offset(p);
    forall n | start <= n < start + PerPage(p) && n < |Listing(log, p)|
      ensures n - start < |rows| && rows[n - start] == Listing(log, p)[n]
      ensures QueryPage(log, p).entries[n - start].actionType == Listing(log, p)[n].actionType
    {
    }
    forall i | 0 <= i < |rows| ensures rows[i] == Listing(log, p)[start + i] && start + i < start + PerPage(p) {
    }
  }

  /** A log of one login, asked for restarts. */
  lemma AnotherTypeIsShown()
    ensures var row := Row("e1", None, None, None, "auth.login", None, "success", None, "info", "2026-03-01 09:00:00");
            var page := QueryPage([row], Params("", "", "service.restart", 1, 50));
            page.entries == [ToEntry(row)] && page.entries[0].actionType != "service.restart"
  {
    var row := Row("e1", None, None, None, "auth.login", None, "success", None, "info", "2026-03-01 09:00:00");
    var p := Params("", "", "service.restart", 1, 50);
    assert [row][..0] == [];
    assert Filter([row], Matching("", "")) == [row];
    assert Listing([row], p) == [row];
    assert Window([row], 0, 50) == [row];
    assert Entries([row]) == [ToEntry(row)];
    assert "auth.login"[0] != "service.restart"[0];
  }

  // ---- What a page shows -------------------------------------------------------------------------------------------

  lemma {:induction false} KeepsAll(log: seq<Row>, p: Row -> bool)
    requires forall i :: 0 <= i < |log| ==> p(log[i])
    ensures Filter(log, p) == log
  {
    if log != [] {
      KeepsAll(log[..|log| - 1], p);
      assert log == log[..|log| - 1] + [log[|log| - 1]];
    }
  }

  /** A user filter shows that user's entries and no others, a severity filter alone that severity's, no filter all. */
  lemma ListingIsExact(log: seq<Row>, p: Params, row: Row)
    ensures row in Listing(log, p)
            <==> row in log && (p.userId != "" ==> row.userId == Some(p.userId))
                 && (p.userId == "" && p.severity != "" ==> row.severity == p.severity)
    ensures p.userId == "" && p.severity == "" ==> Listing(log, p) == NewestFirst(log)
  {
    var kept := Filter(log, Matching(p.userId, p.severity));
    if p.userId == "" && p.severity == "" {
      KeepsAll(log, Matching("", ""));
    }
    if row in log && Matches(row, p.userId, p.severity) {
      FilterHas(log, row, Matching(p.userId, p.severity));
      var k :| 0 <= k < |kept| && kept[k] == row;
      assert Listing(log, p)[|kept| - 1 - k] == row;
    }
    if row in Listing(log, p) {
      var k :| 0 <= k < |kept| && Listing(log, p)[k] == row;
      assert kept[|kept| - 1 - k] == row && row in kept;
    }
  }

  /** The entries of a page carry the user and the severity that were asked for. */
  lemma ShownMatches(log: seq<Row>, p: Params, i: nat)
    requires i < |QueryPage(log, p).entries|
    ensures var e := QueryPage(log, p).entries[i];
            && (p.userId != "" ==> e.userId == p.userId)
            && (p.userId == "" && p.severity != "" ==> e.severity == p.severity)
            && (e.isPimAction <==> e.pimSessionId != "")
  {
    var row := Window(Listing(log, p), Offset(p), PerPage(p))[i];
    assert row in Listing(log, p);
    ListingIsExact(log, p, row);
  }

  /** Every column is shown, under its own name. */
  lemma EveryColumnIsShown()
    ensures ToEntry(Row("e1", Some("u1"), Some("s1"), Some("p1"), "service.restart", Some("nginx"), "success",
                        Some("10.0.0.7"), "info", "2026-03-01 09:00:00"))
         == Entry("e1", "u1", "s1", "p1", "service.restart", "nginx", "success", "10.0.0.7", "info",
                  "2026-03-01 09:00:00", true)
    ensures ToEntry(Row("e2", None, None, None, "auth.login", None, "failure", None, "warning", "2026-03-01 09:00:01"))
         == Entry("e2", "", "", "", "auth.login", "", "failure", "", "warning", "2026-03-01 09:00:01", false)
  {
  }

  /** Pages are counted from 1 and hold 1 to 200 entries, 50 where no such number is given. */
  lemma PageIsClamped(log: seq<Row>, p: Params)
    ensures var page := QueryPage(log, p);
            && page.page == (if p.page >= 1 then p.page else 1) && page.total == |log|
            && (1 <= p.perPage <= 200 ==> page.perPage == p.perPage)
            && (p.perPage < 1 ==> page.perPage == 50) && (p.perPage > 200 ==> page.perPage == 200)
            && |page.entries| <= page.perPage
  {
  }

  // ---- Walking the pages --------------------------------------------------------------------------------------------

  /**
   A finished walk: page 1, 2, … of one query, the log as it stood at each of them. The log only grows, every
   page but the last announced more, the last one did not.
   */
  ghost predicate Walk(logs: seq<seq<Row>>, p: Params) {
    && |logs| >= 1
    && (forall k :: 0 <= k < |logs| - 1 ==> logs[k] <= logs[k + 1])
    && (forall k :: 0 <= k < |logs| ==> PageAt(logs, p, k).hasMore == (k < |logs| - 1))
  }

  function PageAt(logs: seq<seq<Row>>, p: Params, k: nat): Page
    requires k < |logs|
  {
    QueryPage(logs[k], p.(page := k + 1))
  }

  lemma StartSteps(k: nat, perPage: nat)
    ensures Start(k + 1, perPage) == Start(k, perPage) + perPage
  {
  }

  lemma StartMonotone(j: nat, k: nat, perPage: nat)
    requires j <= k
    ensures Start(j, perPage) <= Start(k, perPage)
  {
  }

  lemma PageContents(log: seq<Row>, p: Params, k: nat)
    ensures var page := QueryPage(log, p.(page := k + 1));
            && page.entries == Entries(Window(Listing(log, p), Start(k, PerPage(p)), PerPage(p)))
            && (page.hasMore <==> Start(k, PerPage(p)) + |page.entries| < |log|)
  {
  }

  lemma NewestFirstConcat(a: seq<Row>, b: seq<Row>)
    ensures NewestFirst(a + b) == NewestFirst(b) + NewestFirst(a)
  {
  }

  /** New entries come in front of the old listing. */
  lemma ListingGrows(log: seq<Row>, longer: seq<Row>, p: Params)
    requires log <= longer
    ensures Listing(longer, p) == Listing(longer[|log|..], p) + Listing(log, p)
  {
    var m := Matching(p.userId, p.severity);
    assert longer == log + longer[|log|..];
    FilterConcat(log, longer[|log|..], m);
    NewestFirstConcat(Filter(log, m), Filter(longer[|log|..], m));
  }

  lemma {:induction false} GrowsTo(logs: seq<seq<Row>>, p: Params, j: nat, k: nat)
    requires Walk(logs, p) && j <= k < |logs|
    ensures logs[j] <= logs[k]
  {
    if j < k {
      GrowsTo(logs, p, j, k - 1);
    }
  }

  /** The entry at place `n` of the first listing is at a later place of every later one. */
  function PlaceAt(logs: seq<seq<Row>>, p: Params, n: int, k: nat): int
    requires k < |logs|
  {
    n + |Listing(logs[k], p)| - |Listing(logs[0], p)|
  }

  /** Page `k` shows the entry that was at place `n` when the walk began. */
  ghost predicate ShownAt(logs: seq<seq<Row>>, p: Params, n: int, k: nat) {
    && k < |logs| && 0 <= n < |Listing(logs[0], p)|
    && var i := PlaceAt(logs, p, n, k) - Start(k, PerPage(p));
       0 <= i < |PageAt(logs, p, k).entries| && PageAt(logs, p, k).entries[i] == ToEntry(Listing(logs[0], p)[n])
  }

  lemma WindowEntry(rows: seq<Row>, offset: nat, limit: nat, place: nat)
    requires offset <= place < offset + limit && place < |rows|
    ensures place - offset < |Window(rows, offset, limit)| && Window(rows, offset, limit)[place - offset] == rows[place]
  {
  }

  lemma WindowConcat(rows: seq<Row>, offset: nat, limit: nat)
    ensures rows[..Min(offset, |rows|)] + Window(rows, offset, limit) == rows[..Min(offset + limit, |rows|)]
  {
  }

  /** Where an entry of the first listing stands in a later one. */
  lemma ListedLater(logs: seq<seq<Row>>, p: Params, n: int, k: nat)
    requires Walk(logs, p) && k < |logs| && 0 <= n < |Listing(logs[0], p)|
    ensures 0 <= PlaceAt(logs, p, n, k) < |Listing(logs[k], p)| <= |logs[k]|
    ensures Listing(logs[k], p)[PlaceAt(logs, p, n, k)] == Listing(logs[0], p)[n]
  {
    GrowsTo(logs, p, 0, k);
    ListingGrows(logs[0], logs[k], p);
  }

  lemma PlaceGrows(logs: seq<seq<Row>>, p: Params, n: int, k: nat)
    requires Walk(logs, p) && k + 1 < |logs|
    ensures PlaceAt(logs, p, n, k) <= PlaceAt(logs, p, n, k + 1)
  {
    ListingGrows(logs[k], logs[k + 1], p);
  }

  lemma {:induction false} ShownFrom(logs: seq<seq<Row>>, p: Params, n: int, k: nat)
    requires Walk(logs, p) && k < |logs| && 0 <= n < |Listing(logs[0], p)|
    requires Start(k, PerPage(p)) <= PlaceAt(logs, p, n, k)
    ensures exists j: nat :: ShownAt(logs, p, n, j)
    decreases |logs| - k
  {
    var place, size := PlaceAt(logs, p, n, k), PerPage(p);
    ListedLater(logs, p, n, k);
    PageContents(logs[k], p, k);
    if place < Start(k, size) + size {
      WindowEntry(Listing(logs[k], p), Start(k, size), size, place);
      assert ShownAt(logs, p, n, k);
    } else {
      assert PageAt(logs, p, k).hasMore;
      PlaceGrows(logs, p, n, k);
      StartSteps(k, size);
      ShownFrom(logs, p, n, k + 1);
    }
  }

  /** Main result: a walk never skips an entry that was there when it began, however the log grows meanwhile. */
  lemma WalkSkipsNothing(logs: seq<seq<Row>>, p: Params, n: int)
    requires Walk(logs, p) && 0 <= n < |Listing(logs[0], p)|
    ensures exists k: nat :: ShownAt(logs, p, n, k)
  {
    ShownFrom(logs, p, n, 0);
  }

  // ---- An unchanging log --------------------------------------------------------------------------------------------

  /** The entries of the first `k` pages, one after the other. */
  function Shown(logs: seq<seq<Row>>, p: Params, k: nat): seq<Entry>
    requires k <= |logs|
  {
    if k == 0 then [] else Shown(logs, p, k - 1) + PageAt(logs, p, k - 1).entries
  }

  ghost predicate Unchanging(logs: seq<seq<Row>>) {
    forall k :: 0 <= k < |logs| ==> logs[k] == logs[0]
  }

  /** The entries of the listing that come before page `k`. */
  function Before(log: seq<Row>, p: Params, k: nat): seq<Entry> {
    var listing := Listing(log, p);
    Entries(listing[..Min(Start(k, PerPage(p)), |listing|)])
  }

  lemma BeforeGrows(log: seq<Row>, p: Params, k: nat)
    ensures Before(log, p, k) + QueryPage(log, p.(page := k + 1)).entries == Before(log, p, k + 1)
  {
    var size, listing, start := PerPage(p), Listing(log, p), Start(k, PerPage(p));
    StartSteps(k, size);
    PageContents(log, p, k);
    WindowConcat(listing, start, size);
    EntriesConcat(listing[..Min(start, |listing|)], Window(listing, start, size));
  }

  lemma ShownNext(logs: seq<seq<Row>>, p: Params, k: nat)
    requires Unchanging(logs) && k < |logs| && Shown(logs, p, k) == Before(logs[0], p, k)
    ensures Shown(logs, p, k + 1) == Before(logs[0], p, k + 1)
  {
    assert logs[k] == logs[0];
    BeforeGrows(logs[0], p, k);
  }

  lemma BeforeFirst(log: seq<Row>, p: Params)
    ensures Before(log, p, 0) == []
  {
    assert Start(0, PerPage(p)) == 0;
  }

  lemma {:induction false} ShownIsPrefix(logs: seq<seq<Row>>, p: Params, k: nat)
    requires |logs| >= 1 && Unchanging(logs) && k <= |logs|
    ensures Shown(logs, p, k) == Before(logs[0], p, k)
  {
    if k == 0 {
      BeforeFirst(logs[0], p);
    } else {
      ShownIsPrefix(logs, p, k - 1);
      ShownNext(logs, p, k - 1);
    }
  }

  lemma EntriesConcat(a: seq<Row>, b: seq<Row>)
    ensures Entries(a + b) == Entries(a) + Entries(b)
  {
  }

  /** Main result: on an unchanging log the pages put together are the listing, no more and no less. */
  lemma WalkShowsListing(logs: seq<seq<Row>>, p: Params)
    requires Walk(logs, p) && Unchanging(logs)
    ensures Shown(logs, p, |logs|) == Entries(Listing(logs[0], p))
  {
    var k, size, listing := |logs| - 1, PerPage(p), Listing(logs[0], p);
    ShownIsPrefix(logs, p, |logs|);
    PageContents(logs[k], p, k);
    assert !PageAt(logs, p, k).hasMore && |listing| <= |logs[0]|;
    StartSteps(k, size);
    WindowToEnd(listing, Start(k, size), size);
    assert listing[..|listing|] == listing;
  }

  lemma WindowToEnd(rows: seq<Row>, offset: nat, limit: nat)
    requires offset + |Window(rows, offset, limit)| >= |rows|
    ensures Min(offset + limit, |rows|) == |rows|
  {
  }

  /** The number of full or partial pages of the unfiltered log. */
  function PagesOf(total: nat, perPage: int): nat
    requires perPage >= 1
  {
    (total + perPage - 1) / perPage
  }

  lemma PagesCover(total: nat, perPage: int)
    requires perPage >= 1
    ensures Start(PagesOf(total, perPage), perPage) >= total
  {
    var t := total + perPage - 1;
    assert t == perPage * (t / perPage) + t % perPage;
  }

  /** One page past the log's last nothing more is announced, although the count ignores the filter. */
  lemma NoMorePastTheEnd(log: seq<Row>, p: Params, k: nat)
    requires k >= PagesOf(|log|, PerPage(p))
    ensures !QueryPage(log, p.(page := k + 1)).hasMore
  {
    PagesCover(|log|, PerPage(p));
    StartMonotone(PagesOf(|log|, PerPage(p)), k, PerPage(p));
    PageContents(log, p, k);
  }

  /** Main result: the walk of an unchanging log ends, after at most one page more than the log fills. */
  lemma WalkIsShort(logs: seq<seq<Row>>, p: Params)
    requires Walk(logs, p) && Unchanging(logs)
    ensures |logs| <= PagesOf(|logs[0]|, PerPage(p)) + 1
  {
    var k := |logs| - 2;
    if k >= 0 {
      assert PageAt(logs, p, k).hasMore;
      if k >= PagesOf(|logs[0]|, PerPage(p)) {
        NoMorePastTheEnd(logs[k], p, k);
      }
    }
  }
}
