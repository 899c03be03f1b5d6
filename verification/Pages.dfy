/**
 Events page by page: the server answers each request from its own arrangement of the same
 table, because ORDER BY says nothing about equal timestamps.
 */
module Pages {
  import opened Basics
  import opened Newest

  const EXPORT_PAGE_SIZE: nat := 200
  const EXPORT_MAX_PAGES: nat := 50

  /** As far as the page loop can reach. */
  const REACH: nat := 10_000

  datatype EventsQuery = EventsQuery(employee: Option<EmployeeId>, status: Option<string>,
                                     since: Option<int>, until: Option<int>)

  predicate Matches(q: EventsQuery, r: Row) {
    && (q.employee.None? || r.employee == q.employee)
    && (q.status.None? || r.status == q.status.value)
    && (q.since.None? || r.at >= q.since.value)
    && (q.until.None? || r.at <= q.until.value)
  }

  /** WHERE */
  function Select(rows: seq<Row>, q: EventsQuery): seq<Row> {
    if rows == [] then [] else
    Select(rows[..|rows| - 1], q) + if Matches(q, rows[|rows| - 1]) then [rows[|rows| - 1]] else []
  }

  /** GET /analytics/events: ORDER BY timestamp_ms DESC, then LIMIT and OFFSET after their clamps. */
  function Events(rows: seq<Row>, q: EventsQuery, limit: Option<int>, offset: Option<int>): seq<Row> {
    var n := Max(1, Min(200, if limit.Some? then limit.value else 50));
    var skip := Max(0, if offset.Some? then offset.value else 0);
    var sorted := Sort(Select(rows, q));
    Window(sorted, skip, n)
  }

  function Window(s: seq<Row>, skip: nat, n: nat): seq<Row> {
    s[Min(skip, |s|)..Min(skip + n, |s|)]
  }

  lemma {:induction false} SelectCounts(rows: seq<Row>, q: EventsQuery, r: Row)
    ensures multiset(Select(rows, q))[r] == if Matches(q, r) then multiset(rows)[r] else 0
  {
    if rows == [] {
    } else {
      var front, last := rows[..|rows| - 1], rows[|rows| - 1];
      SelectCounts(front, q, r);
      assert rows == front + [last];
    }
  }

  lemma SelectIgnoresOrder(s: seq<Row>, t: seq<Row>, q: EventsQuery)
    requires multiset(s) == multiset(t)
    ensures multiset(Select(s, q)) == multiset(Select(t, q))
  {
    forall r ensures multiset(Select(s, q))[r] == multiset(Select(t, q))[r] {
      SelectCounts(s, q, r);
      SelectCounts(t, q, r);
    }
  }

  lemma SelectIsDistinct(rows: seq<Row>, q: EventsQuery)
    requires DistinctTimes(multiset(rows))
    ensures DistinctTimes(multiset(Select(rows, q)))
  {
    forall r ensures multiset(Select(rows, q))[r] <= multiset(rows)[r] {
      SelectCounts(rows, q, r);
    }
    SubsetIsDistinct(multiset(rows), multiset(Select(rows, q)));
  }

  /** Every arrangement of the table gives pages with the same timestamps. */
  lemma PagesKeepTimes(s: seq<Row>, t: seq<Row>, q: EventsQuery)
    requires multiset(s) == multiset(t)
    ensures SameTimes(Sort(Select(s, q)), Sort(Select(t, q)))
    ensures |Sort(Select(s, q))| == |Select(t, q)| && multiset(Sort(Select(s, q))) == multiset(Select(t, q))
    ensures Falling(Sort(Select(s, q)))
  {
    SelectIgnoresOrder(s, t, q);
    SortedTimesAgree(Select(s, q), Select(t, q));
    SortSorts(Select(s, q));
    SortSorts(Select(t, q));
  }

  /** With distinct timestamps every arrangement of the table gives the same pages. */
  lemma PagesIgnoreOrder(s: seq<Row>, t: seq<Row>, q: EventsQuery)
    requires multiset(s) == multiset(t) && DistinctTimes(multiset(s))
    ensures Sort(Select(s, q)) == Sort(Select(t, q))
  {
    SelectIgnoresOrder(s, t, q);
    SelectIsDistinct(s, q);
    SortIgnoresOrder(Select(s, q), Select(t, q));
  }

  /** Page p of target t is answered from the arrangement server(t, p). */
  type Server = (nat, nat) -> seq<Row>

  ghost predicate Serves(server: Server, table: seq<Row>) {
    forall t, p :: Arranges(server, t, p, table)
  }

  ghost predicate Arranges(server: Server, t: nat, p: nat, table: seq<Row>) {
    multiset(server(t, p)) == multiset(table)
  }

  // ---------------------------------------------------------------------------
  // What the page loop collects.

  /** The page on which row i stands, and the row with which page p starts. */
  function PageOf(i: nat): nat { i / EXPORT_PAGE_SIZE }

  function PageStart(p: nat): nat { p * EXPORT_PAGE_SIZE }

  lemma PageHasRow(p: nat, i: nat)
    ensures PageOf(i) == p <==> PageStart(p) <= i < PageStart(p) + EXPORT_PAGE_SIZE
    ensures PageStart(p + 1) == PageStart(p) + EXPORT_PAGE_SIZE && PageStart(p) % EXPORT_PAGE_SIZE == 0
  {
  }

  lemma NextPage(p: nat)
    ensures PageStart(p + 1) == PageStart(p) + EXPORT_PAGE_SIZE
  {
  }

  lemma FirstAndLastPage()
    ensures PageStart(0) == 0 && PageStart(EXPORT_MAX_PAGES) == REACH
  {
  }

  lemma PagesAscend(p: nat, p': nat)
    requires p <= p'
    ensures PageStart(p) <= PageStart(p')
  {
  }

  /** The sorted list from which page p of target t is cut. */
  function Listed(server: Server, t: nat, p: nat, q: EventsQuery): seq<Row> {
    Sort(Select(server(t, p), q))
  }

  ghost predicate AllReach(server: Server, t: nat, q: EventsQuery, n: nat) {
    forall p :: Reaches(server, t, p, q, n)
  }

  ghost predicate Reaches(server: Server, t: nat, p: nat, q: EventsQuery, n: nat) {
    n <= |Listed(server, t, p, q)|
  }

  /** Row i comes from the list of its page. */
  ghost function RowAt(server: Server, t: nat, q: EventsQuery, n: nat, i: nat): Row
    requires i < n && AllReach(server, t, q, n)
  {
    var p := PageOf(i);
    assert Reaches(server, t, p, q, n);
    Listed(server, t, p, q)[i]
  }

  /** The first n rows, each as its own page has it. */
  ghost function Fetched(server: Server, t: nat, q: EventsQuery, n: nat): (rows: seq<Row>)
    requires AllReach(server, t, q, n)
    ensures |rows| == n
  {
    seq(n, i requires 0 <= i < n && AllReach(server, t, q, n) => RowAt(server, t, q, n, i))
  }

  lemma FetchedFrom(server: Server, t: nat, q: EventsQuery, n: nat, i: nat)
    requires AllReach(server, t, q, n) && i < n
    ensures i < |Listed(server, t, PageOf(i), q)|
    ensures Fetched(server, t, q, n)[i] == Listed(server, t, PageOf(i), q)[i]
  {
    assert Reaches(server, t, PageOf(i), q, n);
    assert Fetched(server, t, q, n)[i] == RowAt(server, t, q, n, i);
  }

  /** So many rows match and can be reached. */
  function Wanted(table: seq<Row>, q: EventsQuery, max: nat): nat {
    Min(Min(max, REACH), |Select(table, q)|)
  }

  lemma ServersReach(server: Server, table: seq<Row>, t: nat, q: EventsQuery, n: nat)
    requires Serves(server, table) && n <= |Select(table, q)|
    ensures AllReach(server, t, q, n)
  {
    forall p ensures Reaches(server, t, p, q, n) {
      assert Arranges(server, t, p, table);
      PagesKeepTimes(server(t, p), table, q);
    }
  }

  lemma WindowAt(s: seq<Row>, skip: nat, n: nat, i: nat)
    ensures |Window(s, skip, n)| == Min(skip + n, |s|) - Min(skip, |s|)
    ensures i < |Window(s, skip, n)| ==> skip + i < |s| && Window(s, skip, n)[i] == s[skip + i]
  {
  }

  /** The page has at most n rows, exactly n if so many are left behind the offset, and these are the next ones. */
  ghost predicate IsPage(page: seq<Row>, all: seq<Row>, skip: nat, n: nat) {
    && |page| == (if |all| <= skip then 0 else if |all| - skip < n then |all| - skip else n)
    && forall i | 0 <= i < |page| :: skip + i < |all| && page[i] == all[skip + i]
  }

  /** A request gets 50 rows unless it asks for a number, and then from 1 to 200. */
  lemma PageSizes(rows: seq<Row>, q: EventsQuery, limit: Option<int>, offset: Option<int>)
    ensures var all, page := Sort(Select(rows, q)), Events(rows, q, limit, offset);
            var skip := if offset.None? || offset.value < 0 then 0 else offset.value;
            && (limit.None? ==> IsPage(page, all, skip, 50))
            && (limit.Some? && limit.value < 1 ==> IsPage(page, all, skip, 1))
            && (limit.Some? && 1 <= limit.value <= 200 ==> IsPage(page, all, skip, limit.value))
            && (limit.Some? && limit.value > 200 ==> IsPage(page, all, skip, 200))
  {
    var all := Sort(Select(rows, q));
    var n := if limit.None? then 50 else if limit.value < 1 then 1 else if limit.value > 200 then 200 else limit.value;
    var skip := if offset.None? || offset.value < 0 then 0 else offset.value;
    assert Events(rows, q, limit, offset) == Window(all, skip, n);
    hide Events, Sort, Select;
    WindowIsPage(all, skip, n);
  }

  lemma WindowIsPage(s: seq<Row>, skip: nat, n: nat)
    ensures IsPage(Window(s, skip, n), s, skip, n)
  {
  }

  /** These are rows skip, skip + 1, ... of the list. */
  ghost predicate Continues(batch: seq<Row>, server: Server, t: nat, q: EventsQuery, n: nat, skip: nat) {
    && AllReach(server, t, q, n) && skip + |batch| <= n
    && forall i | 0 <= i < |batch| :: batch[i] == RowAt(server, t, q, n, skip + i)
  }

  lemma RowsContinue(rows: seq<Row>, batch: seq<Row>, server: Server, t: nat, q: EventsQuery, n: nat)
    requires Continues(rows, server, t, q, n, 0) && Continues(batch, server, t, q, n, |rows|)
    ensures Continues(rows + batch, server, t, q, n, 0)
  {
    hide AllReach, RowAt;
    forall i | 0 <= i < |rows + batch| ensures (rows + batch)[i] == RowAt(server, t, q, n, 0 + i) {
      if i < |rows| {
        assert rows[i] == RowAt(server, t, q, n, 0 + i);
      } else {
        assert batch[i - |rows|] == RowAt(server, t, q, n, |rows| + (i - |rows|));
      }
    }
  }

  lemma RowsAreFetched(rows: seq<Row>, server: Server, t: nat, q: EventsQuery, n: nat)
    requires Continues(rows, server, t, q, n, 0)
    ensures AllReach(server, t, q, |rows|) && rows == Fetched(server, t, q, |rows|)
  {
    RowAtIgnoresLength(server, t, q, n, |rows|);
    hide AllReach, RowAt;
    forall i | 0 <= i < |rows| ensures rows[i] == RowAt(server, t, q, |rows|, i) {
      assert rows[i] == RowAt(server, t, q, n, 0 + i);
    }
  }

  /** The rows of a page are those that its place in the list calls for. */
  lemma PageHolds(server: Server, table: seq<Row>, t: nat, p: nat, q: EventsQuery, size: nat)
    requires Serves(server, table) && 1 <= size <= EXPORT_PAGE_SIZE
    requires PageStart(p) <= |Select(table, q)|
    ensures var n, batch := |Select(table, q)|, Events(server(t, p), q, Some(size), Some(PageStart(p)));
            && |batch| == Min(size, n - PageStart(p))
            && Continues(batch, server, t, q, n, PageStart(p))
  {
    var n, offset := |Select(table, q)|, PageStart(p);
    ServersReach(server, table, t, q, n);
    assert Arranges(server, t, p, table);
    EventsAreWindow(server(t, p), q, size, offset);
    ListedLength(server, table, t, p, q);
    hide Events, Select, Sort, Serves, AllReach, Window, PageStart, Continues, SameTimes, Falling;
    WindowContinues(server, t, p, q, n, size);
  }

  lemma ListedLength(server: Server, table: seq<Row>, t: nat, p: nat, q: EventsQuery)
    requires Arranges(server, t, p, table)
    ensures |Listed(server, t, p, q)| == |Select(table, q)|
  {
    PagesKeepTimes(server(t, p), table, q);
  }

  lemma EventsAreWindow(rows: seq<Row>, q: EventsQuery, size: nat, offset: nat)
    requires 1 <= size <= EXPORT_PAGE_SIZE
    ensures Events(rows, q, Some(size), Some(offset)) == Window(Sort(Select(rows, q)), offset, size)
  {
  }

  lemma WindowContinues(server: Server, t: nat, p: nat, q: EventsQuery, n: nat, size: nat)
    requires AllReach(server, t, q, n) && n == |Listed(server, t, p, q)|
    requires size <= EXPORT_PAGE_SIZE && PageStart(p) <= n
    ensures var batch := Window(Listed(server, t, p, q), PageStart(p), size);
            |batch| == Min(size, n - PageStart(p)) && Continues(batch, server, t, q, n, PageStart(p))
  {
    hide AllReach, Listed, Window, PageOf, PageStart;
    var list, offset := Listed(server, t, p, q), PageStart(p);
    var batch := Window(list, offset, size);
    WindowAt(list, offset, size, 0);
    forall i | 0 <= i < |batch| ensures batch[i] == RowAt(server, t, q, n, offset + i) {
      WindowAt(list, offset, size, i);
      PageHasRow(p, offset + i);
    }
  }

  lemma RowAtIgnoresLength(server: Server, t: nat, q: EventsQuery, n: nat, m: nat)
    requires m <= n && AllReach(server, t, q, n)
    ensures AllReach(server, t, q, m)
    ensures forall i | 0 <= i < m :: RowAt(server, t, q, m, i) == RowAt(server, t, q, n, i)
  {
    forall p ensures Reaches(server, t, p, q, m) {
      assert Reaches(server, t, p, q, n);
    }
  }

  function GrantedQuery(employee: Option<EmployeeId>, since: Option<int>, until: Option<int>): EventsQuery {
    EventsQuery(employee, Some("granted"), since, until)
  }

  /** The page loop: every wanted row, from whatever arrangement its page was answered. */
  method FetchGrantedEvents(server: Server, target: nat, employee: Option<EmployeeId>, since: Option<int>,
                            until: Option<int>, max: nat, ghost table: seq<Row>)
    returns (rows: seq<Row>)
    requires Serves(server, table)
    ensures var q := GrantedQuery(employee, since, until);
            var n := Wanted(table, q, max);
            AllReach(server, target, q, n) && rows == Fetched(server, target, q, n)
    ensures DistinctTimes(multiset(table)) ==>
              rows == Top(Min(max, REACH), Select(table, GrantedQuery(employee, since, until)))
  {
    var q := GrantedQuery(employee, since, until);
    ghost var n := |Select(table, q)|;
    ServersReach(server, table, target, q, n);
    assert Continues([], server, target, q, n, 0);
    FirstAndLastPage();
    hide Select, Sort, Events, Window, Listed, RowAt, AllReach, Serves, Arranges, Reaches, PageOf, PageStart, Top,
         DistinctTimes, Fetched, Continues, GrantedQuery, Falling, SameTimes;
    rows := [];
    var offset, page := 0, 0;
    while page < EXPORT_MAX_PAGES && |rows| < max
      invariant page <= EXPORT_MAX_PAGES
      invariant offset == |rows| == Min(PageStart(page), max) && |rows| <= n
      invariant Continues(rows, server, target, q, n, 0)
    {
      var pageSize := Min(EXPORT_PAGE_SIZE, max - |rows|);
      PageHolds(server, table, target, page, q, pageSize);
      NextPage(page);
      PagesAscend(page + 1, EXPORT_MAX_PAGES);
      var batch := Events(server(target, page), q, Some(pageSize), Some(offset));
      RowsContinue(rows, batch, server, target, q, n);
      if batch == [] {
        break;
      }
      rows := rows + batch;
      if |batch| < pageSize {
        break;
      }
      offset := offset + |batch|;
      page := page + 1;
    }
    assert |rows| == Wanted(table, q, max);
    RowsAreFetched(rows, server, target, q, n);
    if DistinctTimes(multiset(table)) {
      FetchedIsTop(server, table, target, q, max);
    }
  }

  // ---------------------------------------------------------------------------
  // When it is right.

  /** Row c is the first of a page behind the first one, and as old as the row before it. */
  ghost predicate TiedEdge(table: seq<Row>, q: EventsQuery, n: nat, c: nat) {
    && 0 < c < n && c % EXPORT_PAGE_SIZE == 0
    && n <= |Sort(Select(table, q))|
    && Sort(Select(table, q))[c - 1].at == Sort(Select(table, q))[c].at
  }

  /** The timestamps are right in any case. */
  lemma FetchedTimes(server: Server, table: seq<Row>, t: nat, q: EventsQuery, n: nat)
    requires Serves(server, table) && n <= |Select(table, q)|
    ensures |Sort(Select(table, q))| == |Select(table, q)| && Falling(Sort(Select(table, q)))
    ensures AllReach(server, t, q, n) && SameTimes(Fetched(server, t, q, n), Sort(Select(table, q))[..n])
    ensures forall i | 0 <= i < n :: Fetched(server, t, q, n)[i] in multiset(Select(table, q))
  {
    ServersReach(server, table, t, q, n);
    SortFalls(Select(table, q));
    var rows := Fetched(server, t, q, n);
    forall i | 0 <= i < n
      ensures rows[i].at == Sort(Select(table, q))[i].at && rows[i] in multiset(Select(table, q))
    {
      var p := PageOf(i);
      assert Arranges(server, t, p, table) && Reaches(server, t, p, q, n);
      hide Serves, AllReach, Select, Sort, Falling;
      PagesKeepTimes(server(t, p), table, q);
      assert rows[i] == Listed(server, t, p, q)[i];
      assert rows[i] in multiset(Listed(server, t, p, q));
    }
  }

  lemma FetchedCuts(server: Server, table: seq<Row>, t: nat, q: EventsQuery, max: nat)
    requires Serves(server, table)
    ensures var n := Wanted(table, q, max);
            && AllReach(server, t, q, n) && Falling(Fetched(server, t, q, n))
            && Cuts(Fetched(server, t, q, n), Select(table, q), Min(max, REACH))
  {
    var n, all := Wanted(table, q, max), Select(table, q);
    FetchedTimes(server, table, t, q, n);
    forall at ensures CutCount(Fetched(server, t, q, n), all, Min(max, REACH), at) {
      SameTimesSameCounts(Fetched(server, t, q, n), Sort(all)[..n], at);
      PrefixCounts(Sort(all), n, at);
      SortCounts(all, at);
      NewerIsAtMost(all, at);
    }
  }

  /** With distinct timestamps the rows are the first ones of the one sorted list. */
  lemma FetchedIsTop(server: Server, table: seq<Row>, t: nat, q: EventsQuery, max: nat)
    requires Serves(server, table) && DistinctTimes(multiset(table))
    ensures var n := Wanted(table, q, max);
            AllReach(server, t, q, n) && Fetched(server, t, q, n) == Top(Min(max, REACH), Select(table, q))
  {
    var n, all, k := Wanted(table, q, max), Select(table, q), Min(max, REACH);
    hide Serves, AllReach, Select, Sort, Cuts, DistinctTimes, Falling;
    FetchedTimes(server, table, t, q, n);
    FetchedCuts(server, table, t, q, max);
    SelectIsDistinct(table, q);
    TopCuts(k, all);
    TopIsWithin(all, k);
    ElementsAreIn(Top(k, all), multiset(all));
    CutIsUnique(Fetched(server, t, q, n), Top(k, all), all, k);
  }

  lemma EqualEndsAreTied(s: seq<Row>, i: nat, c: nat, j: nat)
    requires Falling(s) && i < c <= j < |s| && s[i].at == s[j].at
    ensures s[c - 1].at == s[c].at == s[j].at
  {
  }

  /** A row that occurs twice stands on two pages, with a tied edge between. */
  lemma TwinsStraddleEdge(server: Server, table: seq<Row>, t: nat, q: EventsQuery, n: nat, i: nat, j: nat)
    returns (c: nat)
    requires Serves(server, table) && n <= |Select(table, q)| && Unique(multiset(table))
    requires AllReach(server, t, q, n) && i < j < n && Fetched(server, t, q, n)[i] == Fetched(server, t, q, n)[j]
    ensures i < c <= j && TiedEdge(table, q, n, c)
  {
    c := PageStart(PageOf(i) + 1);
    PageHasRow(PageOf(i), i);
    PageHasRow(PageOf(i) + 1, i);
    hide Serves, AllReach, TiedEdge, Unique, Select, PageOf, PageStart;
    if j < c {
      PageHasNoTwins(server, table, t, q, n, i, j);
    } else {
      EdgeIsTied(server, table, t, q, n, i, c, j);
    }
  }

  lemma EdgeIsTied(server: Server, table: seq<Row>, t: nat, q: EventsQuery, n: nat, i: nat, c: nat, j: nat)
    requires Serves(server, table) && n <= |Select(table, q)| && AllReach(server, t, q, n)
    requires i < c <= j < n && c % EXPORT_PAGE_SIZE == 0 && Fetched(server, t, q, n)[i] == Fetched(server, t, q, n)[j]
    ensures TiedEdge(table, q, n, c)
  {
    hide Serves, AllReach, RowAt, Sort, Select, Falling;
    FetchedTimes(server, table, t, q, n);
    TimesOfPrefix(Fetched(server, t, q, n), Sort(Select(table, q)), n, i);
    TimesOfPrefix(Fetched(server, t, q, n), Sort(Select(table, q)), n, j);
    EqualEndsAreTied(Sort(Select(table, q)), i, c, j);
  }

  lemma TimesOfPrefix(s: seq<Row>, t: seq<Row>, n: nat, i: nat)
    requires n <= |t| && SameTimes(s, t[..n]) && i < n
    ensures s[i].at == t[i].at
  {
  }

  lemma PageHasNoTwins(server: Server, table: seq<Row>, t: nat, q: EventsQuery, n: nat, i: nat, j: nat)
    requires Serves(server, table) && n <= |Select(table, q)| && Unique(multiset(table))
    requires AllReach(server, t, q, n) && i < j < n && j < PageStart(PageOf(i) + 1)
    ensures Fetched(server, t, q, n)[i] != Fetched(server, t, q, n)[j]
  {
    var p := PageOf(i);
    PageHasRow(p, i);
    PageHasRow(p, j);
    assert Arranges(server, t, p, table) && Reaches(server, t, p, q, n);
    hide Serves, AllReach, Select, Sort, PageOf, PageStart;
    PagesKeepTimes(server(t, p), table, q);
    SelectIsUnique(table, q);
    UniqueHasNoTwins(Listed(server, t, p, q));
    assert RowAt(server, t, q, n, i) == Listed(server, t, p, q)[i];
    assert RowAt(server, t, q, n, j) == Listed(server, t, p, q)[j];
  }

  lemma SelectIsUnique(table: seq<Row>, q: EventsQuery)
    requires Unique(multiset(table))
    ensures Unique(multiset(Select(table, q)))
  {
    forall r | r in multiset(Select(table, q)) ensures multiset(Select(table, q))[r] == 1 {
      SelectCounts(table, q, r);
    }
  }
}
