/**
 The dashboard's export: page through the events of each selected employee, merge, sort,
 cut.
 */
module Export {
  import opened Basics
  import opened Newest
  import opened Ranks
  import opened Pages
  import opened Ties

  // ---------------------------------------------------------------------------
  // The question and its queries.

  /** The events that the user asked for, in terms of the form: both ends of the period belong to it. */
  predicate Asked(selected: seq<EmployeeId>, since: Option<int>, until: Option<int>, r: Row) {
    && r.status == "granted"
    && (since.Some? ==> since.value <= r.at)
    && (until.Some? ==> r.at <= until.value)
    && (selected == [] || (r.employee.Some? && r.employee.value in selected))
  }

  function Chosen(rows: seq<Row>, selected: seq<EmployeeId>, since: Option<int>, until: Option<int>): seq<Row> {
    if rows == [] then [] else
    var last := rows[|rows| - 1];
    Chosen(rows[..|rows| - 1], selected, since, until) + if Asked(selected, since, until, last) then [last] else []
  }

  function SomeEach(selected: seq<EmployeeId>): seq<Option<EmployeeId>> {
    seq(|selected|, i requires 0 <= i < |selected| => Some(selected[i]))
  }

  /** No selection means one query without an employee. */
  function Targets(selected: seq<EmployeeId>): seq<Option<EmployeeId>> {
    if selected == [] then [None] else SomeEach(selected)
  }

  function Queries(targets: seq<Option<EmployeeId>>, since: Option<int>, until: Option<int>): seq<EventsQuery> {
    seq(|targets|, i requires 0 <= i < |targets| => GrantedQuery(targets[i], since, until))
  }

  predicate Covers(queries: seq<EventsQuery>, r: Row) {
    queries != [] && (Matches(queries[|queries| - 1], r) || Covers(queries[..|queries| - 1], r))
  }

  /** The selected employees differ. */
  ghost predicate Distinct(selected: seq<EmployeeId>) {
    forall i, j | 0 <= i < j < |selected| :: selected[i] != selected[j]
  }

  /** At most one of the queries finds a row. */
  ghost predicate Disjoint(queries: seq<EventsQuery>) {
    queries != [] ==>
      && Disjoint(queries[..|queries| - 1])
      && NoneTwice(queries[|queries| - 1], queries[..|queries| - 1])
  }

  ghost predicate NoneTwice(q: EventsQuery, others: seq<EventsQuery>) {
    forall r :: FoundOnce(q, others, r)
  }

  ghost predicate FoundOnce(q: EventsQuery, others: seq<EventsQuery>, r: Row) {
    !(Matches(q, r) && Covers(others, r))
  }

  lemma {:induction false} CoversSelected(selected: seq<EmployeeId>, since: Option<int>, until: Option<int>, r: Row)
    ensures Covers(Queries(SomeEach(selected), since, until), r) <==>
            Asked([], since, until, r) && r.employee.Some? && r.employee.value in selected
  {
    if selected == [] {
    } else {
      var n := |selected| - 1;
      CoversSelected(selected[..n], since, until, r);
      assert Queries(SomeEach(selected), since, until)[..n] == Queries(SomeEach(selected[..n]), since, until);
      assert selected == selected[..n] + [selected[n]];
    }
  }

  lemma {:induction false} SelectedAreDisjoint(selected: seq<EmployeeId>, since: Option<int>, until: Option<int>)
    requires Distinct(selected)
    ensures Disjoint(Queries(SomeEach(selected), since, until))
  {
    if selected == [] {
    } else {
      var n := |selected| - 1;
      var front := Queries(SomeEach(selected[..n]), since, until);
      SelectedAreDisjoint(selected[..n], since, until);
      assert Queries(SomeEach(selected), since, until)[..n] == front;
      forall r ensures FoundOnce(GrantedQuery(Some(selected[n]), since, until), front, r) {
        CoversSelected(selected[..n], since, until, r);
      }
    }
  }

  function QueriesFor(selected: seq<EmployeeId>, since: Option<int>, until: Option<int>): seq<EventsQuery> {
    Queries(Targets(selected), since, until)
  }

  /** The queries find exactly what was asked for. */
  lemma QueriesFind(selected: seq<EmployeeId>, since: Option<int>, until: Option<int>, r: Row)
    ensures Covers(QueriesFor(selected, since, until), r) <==> Asked(selected, since, until, r)
  {
    if selected == [] {
      assert QueriesFor(selected, since, until)[..0] == [];
    } else {
      CoversSelected(selected, since, until, r);
    }
  }

  lemma QueriesAsk(selected: seq<EmployeeId>, since: Option<int>, until: Option<int>, r: Row)
    requires Distinct(selected)
    ensures Disjoint(QueriesFor(selected, since, until))
    ensures Covers(QueriesFor(selected, since, until), r) <==> Asked(selected, since, until, r)
  {
    QueriesFind(selected, since, until, r);
    if selected == [] {
      assert QueriesFor(selected, since, until)[..0] == [];
    } else {
      SelectedAreDisjoint(selected, since, until);
    }
  }

  /** All that the queries find. */
  function Everything(rows: seq<Row>, queries: seq<EventsQuery>): seq<Row> {
    if queries == [] then [] else
    Everything(rows, queries[..|queries| - 1]) + Select(rows, queries[|queries| - 1])
  }

  lemma {:induction false} EverythingCounts(rows: seq<Row>, queries: seq<EventsQuery>, r: Row)
    requires Disjoint(queries)
    ensures multiset(Everything(rows, queries))[r] == if Covers(queries, r) then multiset(rows)[r] else 0
  {
    if queries == [] {
    } else {
      var n := |queries| - 1;
      EverythingCounts(rows, queries[..n], r);
      SelectCounts(rows, queries[n], r);
      assert FoundOnce(queries[n], queries[..n], r);
    }
  }

  lemma {:induction false} ChosenCounts(rows: seq<Row>, selected: seq<EmployeeId>, since: Option<int>,
                                        until: Option<int>, r: Row)
    ensures multiset(Chosen(rows, selected, since, until))[r] ==
            if Asked(selected, since, until, r) then multiset(rows)[r] else 0
  {
    if rows == [] {
    } else {
      var front, last := rows[..|rows| - 1], rows[|rows| - 1];
      ChosenCounts(front, selected, since, until, r);
      assert rows == front + [last];
    }
  }

  /** Querying employee by employee finds exactly what was asked for, each event once. */
  lemma TargetsCoverTheQuestion(rows: seq<Row>, selected: seq<EmployeeId>, since: Option<int>, until: Option<int>)
    requires Distinct(selected)
    ensures multiset(Everything(rows, QueriesFor(selected, since, until))) ==
            multiset(Chosen(rows, selected, since, until))
  {
    forall r ensures multiset(Everything(rows, QueriesFor(selected, since, until)))[r] ==
                     multiset(Chosen(rows, selected, since, until))[r]
    {
      QueriesAsk(selected, since, until, r);
      EverythingCounts(rows, QueriesFor(selected, since, until), r);
      ChosenCounts(rows, selected, since, until, r);
    }
  }

  // ---------------------------------------------------------------------------
  // What the loop over the targets collects.

  ghost predicate AllServe(server: Server, table: seq<Row>, queries: seq<EventsQuery>, max: nat) {
    forall t | 0 <= t < |queries| :: AllReach(server, t, queries[t], Wanted(table, queries[t], max))
  }

  ghost function Collected(server: Server, table: seq<Row>, queries: seq<EventsQuery>, max: nat): seq<Row>
    requires AllServe(server, table, queries, max)
  {
    if queries == [] then [] else
    var n := |queries| - 1;
    Collected(server, table, queries[..n], max) + Fetched(server, n, queries[n], Wanted(table, queries[n], max))
  }

  lemma ServersServeAll(server: Server, table: seq<Row>, queries: seq<EventsQuery>, max: nat)
    requires Serves(server, table)
    ensures AllServe(server, table, queries, max)
  {
    forall t | 0 <= t < |queries| ensures AllReach(server, t, queries[t], Wanted(table, queries[t], max)) {
      ServersReach(server, table, t, queries[t], Wanted(table, queries[t], max));
    }
  }

  /** As far as timestamps go, cutting every list to its newest k keeps the newest k of them all. */
  lemma {:induction false} CutListsSuffice(server: Server, table: seq<Row>, queries: seq<EventsQuery>, k: nat)
    requires Serves(server, table) && k <= REACH
    ensures AllServe(server, table, queries, k)
    ensures CountsUpTo(Collected(server, table, queries, k), Everything(table, queries), k)
  {
    ServersServeAll(server, table, queries, k);
    if queries == [] {
      CutsCountUpTo([], [], k);
    } else {
      var n := |queries| - 1;
      CutListsSuffice(server, table, queries[..n], k);
      hide Serves, AllServe, Select, Cuts;
      FetchedCuts(server, table, n, queries[n], k);
      var part := Fetched(server, n, queries[n], Wanted(table, queries[n], k));
      CutsCountUpTo(part, Select(table, queries[n]), k);
      PartsCountUpTo(Collected(server, table, queries[..n], k), Everything(table, queries[..n]),
                     part, Select(table, queries[n]), k);
    }
  }

  lemma SameRowsCountUpTo(c: seq<Row>, s: seq<Row>, t: seq<Row>, k: nat)
    requires CountsUpTo(c, s, k) && multiset(s) == multiset(t)
    ensures CountsUpTo(c, t, k)
  {
    SameRowsSameCounts(s, t);
    SizeIsContents(s, t);
    forall at ensures CountsAlikeUpTo(c, t, k, at) {
      assert CountsAlikeUpTo(c, s, k, at) && CountsAlike(s, t, at);
    }
  }

  /** The timestamps of the export are right, whatever the server makes of ties. */
  lemma ExportCuts(server: Server, table: seq<Row>, selected: seq<EmployeeId>, since: Option<int>, until: Option<int>, k: nat)
    requires Serves(server, table) && k <= REACH && Distinct(selected)
    ensures var queries := QueriesFor(selected, since, until);
            && AllServe(server, table, queries, k)
            && Cuts(Top(k, Collected(server, table, queries, k)), Chosen(table, selected, since, until), k)
  {
    var queries := QueriesFor(selected, since, until);
    hide QueriesFor, Serves, AllServe, Everything, Chosen, Collected;
    CutListsSuffice(server, table, queries, k);
    TargetsCoverTheQuestion(table, selected, since, until);
    SameRowsCountUpTo(Collected(server, table, queries, k), Everything(table, queries),
                      Chosen(table, selected, since, until), k);
    TopOfCountsCuts(Collected(server, table, queries, k), Chosen(table, selected, since, until), k);
  }

  // ---------------------------------------------------------------------------
  // When the export is right.

  /** The newest k of what was collected are a choice of the newest k of what was asked for. */
  ghost predicate ExportIsNewest(server: Server, table: seq<Row>, selected: seq<EmployeeId>, since: Option<int>,
                                 until: Option<int>, k: nat)
  {
    var queries := QueriesFor(selected, since, until);
    && AllServe(server, table, queries, k)
    && IsNewest(Top(k, Collected(server, table, queries, k)), Chosen(table, selected, since, until), k)
  }

  lemma {:induction false} CollectedAreFound(server: Server, table: seq<Row>, queries: seq<EventsQuery>, k: nat)
    requires Serves(server, table) && AllServe(server, table, queries, k)
    ensures forall r | r in Collected(server, table, queries, k) :: r in multiset(table) && Covers(queries, r)
  {
    if queries == [] {
    } else {
      var n := |queries| - 1;
      var q, m := queries[n], Wanted(table, queries[n], k);
      CollectedAreFound(server, table, queries[..n], k);
      FetchedTimes(server, table, n, q, m);
      var part := Fetched(server, n, q, m);
      hide Fetched, Serves, AllReach, Sort, Falling, SameTimes;
      forall r | r in part ensures r in multiset(table) && Matches(q, r) {
        var i :| 0 <= i < |part| && part[i] == r;
        SelectCounts(table, q, r);
      }
    }
  }

  /** When nothing was collected, nothing is there to be found. */
  lemma {:induction false} NothingIsFound(server: Server, table: seq<Row>, queries: seq<EventsQuery>, k: nat, r: Row)
    requires AllServe(server, table, queries, k) && k > 0
    requires Collected(server, table, queries, k) == [] && r in multiset(table)
    ensures !Covers(queries, r)
  {
    if queries == [] {
    } else {
      var n := |queries| - 1;
      NothingIsFound(server, table, queries[..n], k, r);
      assert Fetched(server, n, queries[n], Wanted(table, queries[n], k)) == [];
      SelectCounts(table, queries[n], r);
      assert Select(table, queries[n]) == [];
    }
  }

  lemma TopComesFrom(rows: seq<Row>, k: nat, i: nat)
    requires i < |Top(k, rows)|
    ensures Top(k, rows)[i] in rows
  {
    TopIsWithin(rows, k);
    hide Top;
    assert Top(k, rows)[i] in multiset(Top(k, rows));
    assert Top(k, rows)[i] in multiset(rows);
  }

  lemma ChosenIsUnique(table: seq<Row>, selected: seq<EmployeeId>, since: Option<int>, until: Option<int>)
    requires Unique(multiset(table))
    ensures Unique(multiset(Chosen(table, selected, since, until)))
  {
    forall r | r in multiset(Chosen(table, selected, since, until))
      ensures multiset(Chosen(table, selected, since, until))[r] == 1
    {
      ChosenCounts(table, selected, since, until, r);
    }
  }

  lemma ExportedAreAsked(server: Server, table: seq<Row>, selected: seq<EmployeeId>, since: Option<int>,
                         until: Option<int>, k: nat)
    requires Serves(server, table) && Distinct(selected) && AllServe(server, table, QueriesFor(selected, since, until), k)
    ensures var top := Top(k, Collected(server, table, QueriesFor(selected, since, until), k));
            forall i | 0 <= i < |top| :: top[i] in multiset(Chosen(table, selected, since, until))
  {
    var queries := QueriesFor(selected, since, until);
    hide QueriesFor, Chosen, Serves, AllServe, Top, Collected, Asked, Covers;
    CollectedAreFound(server, table, queries, k);
    var top := Top(k, Collected(server, table, queries, k));
    forall i | 0 <= i < |top| ensures top[i] in multiset(Chosen(table, selected, since, until)) {
      TopComesFrom(Collected(server, table, queries, k), k, i);
      QueriesAsk(selected, since, until, top[i]);
      ChosenCounts(table, selected, since, until, top[i]);
    }
  }

  lemma ExportIffNoTwins(server: Server, table: seq<Row>, selected: seq<EmployeeId>, since: Option<int>,
                         until: Option<int>, k: nat)
    requires Serves(server, table) && k <= REACH && Distinct(selected) && Unique(multiset(table))
    ensures var queries := QueriesFor(selected, since, until);
            && AllServe(server, table, queries, k)
            && (ExportIsNewest(server, table, selected, since, until, k)
                <==> NoTwins(Top(k, Collected(server, table, queries, k))))
  {
    var queries, chosen := QueriesFor(selected, since, until), Chosen(table, selected, since, until);
    hide QueriesFor, Chosen, Serves, AllServe, Unique, Cuts, IsNewest, Top, Collected, Asked, Covers;
    ExportCuts(server, table, selected, since, until, k);
    var top := Top(k, Collected(server, table, queries, k));
    ExportedAreAsked(server, table, selected, since, until, k);
    ChosenIsUnique(table, selected, since, until);
    PartIffNoTwins(top, multiset(chosen));
    CutsOfRowsAreNewest(top, chosen, k);
  }

  function Size(table: seq<Row>, queries: seq<EventsQuery>, k: nat): nat {
    if queries == [] then 0 else
    Size(table, queries[..|queries| - 1], k) + Wanted(table, queries[|queries| - 1], k)
  }

  lemma {:induction false} CollectedSize(server: Server, table: seq<Row>, queries: seq<EventsQuery>, k: nat)
    requires AllServe(server, table, queries, k)
    ensures |Collected(server, table, queries, k)| == Size(table, queries, k)
  {
    if queries == [] {
    } else {
      CollectedSize(server, table, queries[..|queries| - 1], k);
    }
  }

  /** Place e of the collected list is a tied edge of the query that it belongs to. */
  ghost predicate EdgeAt(table: seq<Row>, queries: seq<EventsQuery>, k: nat, e: nat) {
    queries != [] &&
    var n := |queries| - 1;
    var before := Size(table, queries[..n], k);
    if e < before then EdgeAt(table, queries[..n], k, e)
    else TiedEdge(table, queries[n], Wanted(table, queries[n], k), e - before)
  }

  lemma CollectedSplits(server: Server, table: seq<Row>, queries: seq<EventsQuery>, k: nat, i: nat)
    requires queries != [] && AllServe(server, table, queries, k) && i < |Collected(server, table, queries, k)|
    ensures var n := |queries| - 1;
            var m, size := Wanted(table, queries[n], k), Size(table, queries[..n], k);
            && AllServe(server, table, queries[..n], k) && AllReach(server, n, queries[n], m)
            && |Collected(server, table, queries[..n], k)| == size && |Collected(server, table, queries, k)| == size + m
            && Collected(server, table, queries, k)[i] ==
               if i < size then Collected(server, table, queries[..n], k)[i]
               else Fetched(server, n, queries[n], m)[i - size]
  {
    CollectedSize(server, table, queries[..|queries| - 1], k);
  }

  /** Where a row of the last query stands. */
  lemma BackAt(server: Server, table: seq<Row>, queries: seq<EventsQuery>, k: nat, i: nat)
    requires queries != [] && AllServe(server, table, queries, k) && i < Wanted(table, queries[|queries| - 1], k)
    ensures var n := |queries| - 1;
            var m, p := Wanted(table, queries[n], k), Size(table, queries[..n], k) + i;
            && AllReach(server, n, queries[n], m) && p < |Collected(server, table, queries, k)|
            && Collected(server, table, queries, k)[p] == Fetched(server, n, queries[n], m)[i]
  {
    var n := |queries| - 1;
    assert Size(table, queries, k) == Size(table, queries[..n], k) + Wanted(table, queries[n], k);
    hide *;
    CollectedSize(server, table, queries, k);
    CollectedSplits(server, table, queries, k, Size(table, queries[..n], k) + i);
  }

  /** Two equal rows of the last query, at places i and j of its list. */
  lemma TwinsInBack(server: Server, table: seq<Row>, queries: seq<EventsQuery>, k: nat, i: nat, j: nat)
    returns (e: nat)
    requires Serves(server, table) && AllServe(server, table, queries, k) && Unique(multiset(table)) && queries != []
    requires var n, all := |queries| - 1, Collected(server, table, queries, k);
             var size := Size(table, queries[..n], k);
             i < j < Wanted(table, queries[n], k) && size + j < |all| && all[size + i] == all[size + j]
    ensures var all, size := Collected(server, table, queries, k), Size(table, queries[..|queries| - 1], k);
            size + i < e <= size + j && EdgeAt(table, queries, k, e) && all[e].at == all[size + j].at
  {
    hide *;
    var n := |queries| - 1;
    BackAt(server, table, queries, k, i);
    BackAt(server, table, queries, k, j);
    var c := TwinsInPart(server, table, n, queries[n], k, i, j);
    e := Size(table, queries[..n], k) + c;
    BackAt(server, table, queries, k, c);
    EdgeInBack(table, queries, k, c);
  }

  lemma NoTwinsAcross(server: Server, table: seq<Row>, queries: seq<EventsQuery>, k: nat, i: nat, j: nat)
    requires Serves(server, table) && AllServe(server, table, queries, k) && Disjoint(queries) && queries != []
    requires i < Size(table, queries[..|queries| - 1], k) <= j < |Collected(server, table, queries, k)|
    ensures i < |Collected(server, table, queries, k)|
    ensures Collected(server, table, queries, k)[i] != Collected(server, table, queries, k)[j]
  {
    var n := |queries| - 1;
    hide Serves, AllServe, AllReach, Wanted, Fetched, Size, Collected, Disjoint;
    CollectedSplits(server, table, queries, k, i);
    CollectedSplits(server, table, queries, k, j);
    QueriesShareNothing(server, table, queries, k, Collected(server, table, queries[..n], k)[i],
                        j - Size(table, queries[..n], k));
  }

  lemma FrontIsDisjoint(queries: seq<EventsQuery>)
    requires queries != [] && Disjoint(queries)
    ensures Disjoint(queries[..|queries| - 1])
  {
  }

  /** A row collected twice stands on both sides of a tied edge. */
  lemma {:induction false} TwinsMeanEdge(server: Server, table: seq<Row>, queries: seq<EventsQuery>, k: nat, i: nat, j: nat)
    returns (e: nat)
    requires Serves(server, table) && AllServe(server, table, queries, k) && Disjoint(queries) && Unique(multiset(table))
    requires i < j < |Collected(server, table, queries, k)|
    requires Collected(server, table, queries, k)[i] == Collected(server, table, queries, k)[j]
    ensures i < e <= j && EdgeAt(table, queries, k, e)
    ensures Collected(server, table, queries, k)[e].at == Collected(server, table, queries, k)[j].at
  {
    assert queries != [];
    hide Serves, AllServe, Unique, Size, Collected, EdgeAt, Wanted, Fetched, AllReach, Disjoint;
    var n := |queries| - 1;
    if i >= Size(table, queries[..n], k) {
      CollectedSplits(server, table, queries, k, j);
      var size := Size(table, queries[..n], k);
      e := TwinsInBack(server, table, queries, k, i - size, j - size);
    } else if j >= Size(table, queries[..n], k) {
      e := 0;
      NoTwinsAcross(server, table, queries, k, i, j);
    } else {
      CollectedSplits(server, table, queries, k, i);
      CollectedSplits(server, table, queries, k, j);
      FrontIsDisjoint(queries);
      e := TwinsMeanEdge(server, table, queries[..n], k, i, j);
      CollectedSplits(server, table, queries, k, e);
      EdgeInFront(table, queries, k, e);
    }
  }

  lemma EdgeInFront(table: seq<Row>, queries: seq<EventsQuery>, k: nat, e: nat)
    requires queries != [] && e < Size(table, queries[..|queries| - 1], k)
    requires EdgeAt(table, queries[..|queries| - 1], k, e)
    ensures EdgeAt(table, queries, k, e)
  {
  }

  lemma EdgeInBack(table: seq<Row>, queries: seq<EventsQuery>, k: nat, c: nat)
    requires queries != [] && TiedEdge(table, queries[|queries| - 1], Wanted(table, queries[|queries| - 1], k), c)
    ensures EdgeAt(table, queries, k, Size(table, queries[..|queries| - 1], k) + c)
  {
  }

  lemma QueriesShareNothing(server: Server, table: seq<Row>, queries: seq<EventsQuery>, k: nat, r: Row, j: nat)
    requires Serves(server, table) && queries != [] && Disjoint(queries)
    requires var n := |queries| - 1;
             && AllServe(server, table, queries[..n], k) && r in Collected(server, table, queries[..n], k)
             && AllReach(server, n, queries[n], Wanted(table, queries[n], k)) && j < Wanted(table, queries[n], k)
    ensures var n := |queries| - 1;
            Fetched(server, n, queries[n], Wanted(table, queries[n], k))[j] != r
  {
    var n := |queries| - 1;
    CollectedAreFound(server, table, queries[..n], k);
    FetchedTimes(server, table, n, queries[n], Wanted(table, queries[n], k));
    SelectCounts(table, queries[n], r);
    assert FoundOnce(queries[n], queries[..n], r);
  }

  lemma TwinsInPart(server: Server, table: seq<Row>, t: nat, q: EventsQuery, k: nat, i: nat, j: nat)
    returns (c: nat)
    requires Serves(server, table) && Unique(multiset(table))
    requires var m := Wanted(table, q, k);
             AllReach(server, t, q, m) && i < j < m && Fetched(server, t, q, m)[i] == Fetched(server, t, q, m)[j]
    ensures var m := Wanted(table, q, k);
            i < c <= j && TiedEdge(table, q, m, c) && Fetched(server, t, q, m)[c].at == Fetched(server, t, q, m)[j].at
  {
    var m := Wanted(table, q, k);
    c := TwinsStraddleEdge(server, table, t, q, m, i, j);
    hide Serves, AllReach, Wanted, TiedEdge, Unique;
    FetchedCuts(server, table, t, q, k);
    EqualEndsAreTied(Fetched(server, t, q, m), i, c, j);
  }

  // ---------------------------------------------------------------------------
  // The exact condition.

  function Plainly(table: seq<Row>): Server { (t: nat, p: nat) => table }

  /** What is collected when every page comes from the same arrangement. */
  ghost function PlainlyCollected(table: seq<Row>, queries: seq<EventsQuery>, k: nat): seq<Row> {
    PlainServes(table, queries, k);
    Collected(Plainly(table), table, queries, k)
  }

  lemma PlainServes(table: seq<Row>, queries: seq<EventsQuery>, k: nat)
    ensures Serves(Plainly(table), table) && AllServe(Plainly(table), table, queries, k)
  {
    forall t, p ensures Arranges(Plainly(table), t, p, table) {
    }
    ServersServeAll(Plainly(table), table, queries, k);
  }

  /** A tied edge whose later row gets into the export. Ties that the cut removes are not counted. */
  ghost predicate ExportedEdge(table: seq<Row>, queries: seq<EventsQuery>, k: nat, e: nat) {
    && EdgeAt(table, queries, k, e)
    && e < |PlainlyCollected(table, queries, k)|
    && Rank(PlainlyCollected(table, queries, k), e) < k
  }

  lemma SameTimesAppend(s: seq<Row>, t: seq<Row>, s': seq<Row>, t': seq<Row>)
    requires SameTimes(s, s') && SameTimes(t, t')
    ensures SameTimes(s + t, s' + t')
  {
  }

  lemma FetchedAlike(server: Server, server': Server, table: seq<Row>, t: nat, q: EventsQuery, n: nat)
    requires Serves(server, table) && Serves(server', table) && n <= |Select(table, q)|
    ensures AllReach(server, t, q, n) && AllReach(server', t, q, n)
    ensures SameTimes(Fetched(server, t, q, n), Fetched(server', t, q, n))
  {
    hide Serves, AllReach, Sort, Select, Falling;
    FetchedTimes(server, table, t, q, n);
    FetchedTimes(server', table, t, q, n);
  }

  lemma {:induction false} CollectedAlike(server: Server, server': Server, table: seq<Row>, queries: seq<EventsQuery>, k: nat)
    requires Serves(server, table) && Serves(server', table)
    requires AllServe(server, table, queries, k) && AllServe(server', table, queries, k)
    ensures SameTimes(Collected(server, table, queries, k), Collected(server', table, queries, k))
  {
    if queries == [] {
    } else {
      var n := |queries| - 1;
      var q, m := queries[n], Wanted(table, queries[n], k);
      CollectedAlike(server, server', table, queries[..n], k);
      FetchedAlike(server, server', table, n, q, m);
      hide Serves, AllReach, Wanted, SameTimes;
      SameTimesAppend(Collected(server, table, queries[..n], k), Fetched(server, n, q, m),
                      Collected(server', table, queries[..n], k), Fetched(server', n, q, m));
    }
  }

  lemma CollectedTimes(server: Server, table: seq<Row>, queries: seq<EventsQuery>, k: nat)
    requires Serves(server, table) && AllServe(server, table, queries, k)
    ensures SameTimes(Collected(server, table, queries, k), PlainlyCollected(table, queries, k))
  {
    PlainServes(table, queries, k);
    CollectedAlike(server, Plainly(table), table, queries, k);
  }

  /** Where a fetched row stands in the collected list. */
  lemma {:induction false} CollectedAt(server: Server, table: seq<Row>, queries: seq<EventsQuery>, k: nat, t: nat, i: nat)
    requires AllServe(server, table, queries, k) && t < |queries| && i < Wanted(table, queries[t], k)
    ensures var p := Size(table, queries[..t], k) + i;
            && AllReach(server, t, queries[t], Wanted(table, queries[t], k))
            && p < |Collected(server, table, queries, k)|
            && Collected(server, table, queries, k)[p] == Fetched(server, t, queries[t], Wanted(table, queries[t], k))[i]
  {
    var n := |queries| - 1;
    CollectedSize(server, table, queries[..n], k);
    hide Wanted, AllReach;
    if t == n {
    } else {
      CollectedAt(server, table, queries[..n], k, t, i);
      assert queries[..n][..t] == queries[..t] && queries[..n][t] == queries[t];
    }
  }

  lemma {:induction false} EdgeBelongs(table: seq<Row>, queries: seq<EventsQuery>, k: nat, e: nat) returns (t: nat, c: nat)
    requires EdgeAt(table, queries, k, e)
    ensures t < |queries| && TiedEdge(table, queries[t], Wanted(table, queries[t], k), c)
    ensures e == Size(table, queries[..t], k) + c
  {
    var n := |queries| - 1;
    var before := Size(table, queries[..n], k);
    if e < before {
      t, c := EdgeBelongs(table, queries[..n], k, e);
      assert queries[..n][..t] == queries[..t] && queries[..n][t] == queries[t];
    } else {
      t, c := n, e - before;
    }
  }

  lemma RepeatIsCollected(server: Server, table: seq<Row>, queries: seq<EventsQuery>, k: nat, t: nat, c: nat)
    requires AllServe(server, table, queries, k) && t < |queries| && 0 < c < Wanted(table, queries[t], k)
    requires var n := Wanted(table, queries[t], k);
             AllReach(server, t, queries[t], n)
             && Fetched(server, t, queries[t], n)[c - 1] == Fetched(server, t, queries[t], n)[c]
    ensures var all, e := Collected(server, table, queries, k), Size(table, queries[..t], k) + c;
            e < |all| && all[e - 1] == all[e]
  {
    hide AllServe, AllReach, Wanted, Size, Collected, Fetched;
    CollectedAt(server, table, queries, k, t, c - 1);
    CollectedAt(server, table, queries, k, t, c);
  }

  /** The server that swaps rows at a tied edge makes the collected list repeat one there. */
  lemma EdgeRepeats(table: seq<Row>, queries: seq<EventsQuery>, k: nat, e: nat) returns (server: Server)
    requires EdgeAt(table, queries, k, e)
    ensures Serves(server, table) && AllServe(server, table, queries, k)
    ensures var all := Collected(server, table, queries, k); 0 < e < |all| && all[e - 1] == all[e]
  {
    var t, c := EdgeBelongs(table, queries, k, e);
    hide *;
    var q, m := queries[t], Wanted(table, queries[t], k);
    EdgeIsInside(table, q, m, c);
    WantedIsThere(table, q, k);
    server := SwapServer(table, q, m, t, c);
    SwapServerRepeats(table, q, m, t, c);
    ServersServeAll(server, table, queries, k);
    RepeatIsCollected(server, table, queries, k, t, c);
  }

  /** If a tied edge is exported, some server makes the export repeat a row. */
  lemma ExportedEdgeRepeats(table: seq<Row>, queries: seq<EventsQuery>, k: nat, e: nat) returns (server: Server)
    requires ExportedEdge(table, queries, k, e)
    ensures Serves(server, table) && AllServe(server, table, queries, k)
    ensures !NoTwins(Top(k, Collected(server, table, queries, k)))
  {
    hide Serves, AllServe, EdgeAt, Collected;
    server := EdgeRepeats(table, queries, k, e);
    CollectedTimes(server, table, queries, k);
    SameTimesSameRank(Collected(server, table, queries, k), PlainlyCollected(table, queries, k), e);
    RepeatIsExported(Collected(server, table, queries, k), k, e);
  }

  lemma RepeatIsExported(rows: seq<Row>, k: nat, e: nat)
    requires 0 < e < |rows| && rows[e - 1] == rows[e] && Rank(rows, e) < k
    ensures !NoTwins(Top(k, rows))
  {
    RankFollowsOrder(rows, e - 1, e);
    SortPlaces(rows, e - 1);
    SortPlaces(rows, e);
    hide Rank, Sort;
    var top := Top(k, rows);
    assert top[Rank(rows, e - 1)] == top[Rank(rows, e)];
  }

  /** Without an exported edge no row is exported twice. */
  lemma NoExportedEdgeNoTwins(server: Server, table: seq<Row>, queries: seq<EventsQuery>, k: nat)
    requires Serves(server, table) && AllServe(server, table, queries, k) && Disjoint(queries) && Unique(multiset(table))
    requires forall e :: !ExportedEdge(table, queries, k, e)
    ensures NoTwins(Top(k, Collected(server, table, queries, k)))
  {
    hide Serves, AllServe, Unique, Disjoint, EdgeAt;
    var all := Collected(server, table, queries, k);
    var top := Top(k, all);
    SortFalls(all);
    forall x, y | 0 <= x < y < |top| ensures top[x] != top[y] {
      var p := SortedFrom(all, x);
      var p' := SortedFrom(all, y);
      if all[p] == all[p'] {
        TwinsAreOrdered(all, p, p');
        var e := TwinsMeanEdge(server, table, queries, k, p, p');
        EdgeIsExported(server, table, queries, k, e, p');
      }
    }
  }

  lemma TwinsAreOrdered(rows: seq<Row>, p: nat, p': nat)
    requires p < |rows| && p' < |rows| && rows[p] == rows[p'] && Rank(rows, p) < Rank(rows, p')
    ensures p < p'
  {
    if p' < p {
      RankFollowsOrder(rows, p', p);
    }
  }

  lemma EdgeIsExported(server: Server, table: seq<Row>, queries: seq<EventsQuery>, k: nat, e: nat, p: nat)
    requires Serves(server, table) && AllServe(server, table, queries, k) && EdgeAt(table, queries, k, e)
    requires e <= p < |Collected(server, table, queries, k)|
    requires Collected(server, table, queries, k)[e].at == Collected(server, table, queries, k)[p].at
    requires Rank(Collected(server, table, queries, k), p) < k
    ensures ExportedEdge(table, queries, k, e)
  {
    var all := Collected(server, table, queries, k);
    hide Serves, AllServe, EdgeAt, Collected, Rank;
    CollectedTimes(server, table, queries, k);
    SameTimesSameRank(all, PlainlyCollected(table, queries, k), e);
    if e < p {
      RankFollowsOrder(all, e, p);
    }
  }

  /**
   The export is a choice of the k newest events asked for, whatever arrangements the pages
   are answered from, exactly when no exported row stands behind a page's edge that separates
   it from an equally old row.
   */
  lemma ExportIsNewestIff(table: seq<Row>, selected: seq<EmployeeId>, since: Option<int>, until: Option<int>, k: nat)
    requires k <= REACH && Distinct(selected) && Unique(multiset(table))
    ensures (forall server | Serves(server, table) :: ExportIsNewest(server, table, selected, since, until, k))
            <==> forall e :: !ExportedEdge(table, QueriesFor(selected, since, until), k, e)
  {
    var queries := QueriesFor(selected, since, until);
    hide QueriesFor, Serves, ExportIsNewest, ExportedEdge, Distinct, Unique;
    if e :| ExportedEdge(table, queries, k, e) {
      var server := ExportedEdgeRepeats(table, queries, k, e);
      ExportIffNoTwins(server, table, selected, since, until, k);
      assert !ExportIsNewest(server, table, selected, since, until, k);
    } else {
      QueriesAsk(selected, since, until, Row(0, None, "", 0));
      forall server | Serves(server, table) ensures ExportIsNewest(server, table, selected, since, until, k) {
        ExportIffNoTwins(server, table, selected, since, until, k);
        NoExportedEdgeNoTwins(server, table, queries, k);
      }
    }
  }

  lemma ChosenIsDistinct(table: seq<Row>, selected: seq<EmployeeId>, since: Option<int>, until: Option<int>)
    requires DistinctTimes(multiset(table))
    ensures DistinctTimes(multiset(Chosen(table, selected, since, until)))
  {
    forall r ensures multiset(Chosen(table, selected, since, until))[r] <= multiset(table)[r] {
      ChosenCounts(table, selected, since, until, r);
    }
    SubsetIsDistinct(multiset(table), multiset(Chosen(table, selected, since, until)));
  }

  /** With distinct timestamps the merge of the per-employee lists has one outcome: the newest k of the union. */
  lemma MergedExport(server: Server, table: seq<Row>, selected: seq<EmployeeId>, since: Option<int>, until: Option<int>, k: nat)
    requires Serves(server, table) && k <= REACH && Distinct(selected) && DistinctTimes(multiset(table))
    ensures var queries := QueriesFor(selected, since, until);
            && AllServe(server, table, queries, k)
            && Top(k, Collected(server, table, queries, k)) == Top(k, Chosen(table, selected, since, until))
  {
    var queries, chosen := QueriesFor(selected, since, until), Chosen(table, selected, since, until);
    hide QueriesFor, Chosen, Serves, AllServe, DistinctTimes, Cuts, Top, Collected, Falling;
    ExportCuts(server, table, selected, since, until, k);
    ExportedAreAsked(server, table, selected, since, until, k);
    ChosenIsDistinct(table, selected, since, until);
    TopCuts(k, Collected(server, table, queries, k));
    TopCuts(k, chosen);
    TopIsWithin(chosen, k);
    ElementsAreIn(Top(k, chosen), multiset(chosen));
    CutIsUnique(Top(k, Collected(server, table, queries, k)), Top(k, chosen), chosen, k);
  }

  // ---------------------------------------------------------------------------
  // The code.

  datatype Outcome = BadPeriod | NothingFound | Exported(rows: seq<Row>)

  /** Whatever the selection: rows of the table that were asked for, newest first; none only if there is none. */
  ghost predicate IsHonest(outcome: Outcome, table: seq<Row>, selected: seq<EmployeeId>, since: Option<int>,
                           until: Option<int>, limit: nat)
  {
    match outcome
    case BadPeriod => since.Some? && until.Some? && since.value > until.value
    case NothingFound => limit > 0 ==> forall r | r in multiset(table) :: !Asked(selected, since, until, r)
    case Exported(rows) =>
      && 0 < |rows| <= limit && Falling(rows)
      && forall i | 0 <= i < |rows| :: rows[i] in multiset(table) && Asked(selected, since, until, rows[i])
  }

  /** The newest `limit` of the events collected, if any. */
  function Report(rows: seq<Row>): Outcome {
    if rows == [] then NothingFound else Exported(rows)
  }

  lemma TopIsSorted(rows: seq<Row>, k: nat)
    ensures |Top(k, rows)| <= k && Falling(Top(k, rows)) && (Top(k, rows) == [] <==> k == 0 || rows == [])
  {
    SortFalls(rows);
  }

  lemma CollectedWereAsked(server: Server, table: seq<Row>, selected: seq<EmployeeId>, since: Option<int>,
                           until: Option<int>, k: nat, i: nat)
    requires Serves(server, table) && AllServe(server, table, QueriesFor(selected, since, until), k)
    requires i < |Top(k, Collected(server, table, QueriesFor(selected, since, until), k))|
    ensures var r := Top(k, Collected(server, table, QueriesFor(selected, since, until), k))[i];
            r in multiset(table) && Asked(selected, since, until, r)
  {
    hide *;
    var queries := QueriesFor(selected, since, until);
    CollectedAreFound(server, table, queries, k);
    TopComesFrom(Collected(server, table, queries, k), k, i);
    QueriesFind(selected, since, until, Top(k, Collected(server, table, queries, k))[i]);
  }

  lemma ReportIsHonest(server: Server, table: seq<Row>, selected: seq<EmployeeId>, since: Option<int>,
                       until: Option<int>, limit: nat)
    requires Serves(server, table) && AllServe(server, table, QueriesFor(selected, since, until), limit)
    ensures IsHonest(Report(Top(limit, Collected(server, table, QueriesFor(selected, since, until), limit))),
                     table, selected, since, until, limit)
  {
    var queries := QueriesFor(selected, since, until);
    var collected := Collected(server, table, queries, limit);
    hide QueriesFor, Serves, AllServe, Top, Collected, Asked, Covers, Falling, Sort;
    TopIsSorted(collected, limit);
    forall i | 0 <= i < |Top(limit, collected)|
      ensures Top(limit, collected)[i] in multiset(table) && Asked(selected, since, until, Top(limit, collected)[i])
    {
      CollectedWereAsked(server, table, selected, since, until, limit, i);
    }
    if collected == [] && limit > 0 {
      NothingWasAsked(server, table, selected, since, until, limit);
    }
  }

  lemma NothingWasAsked(server: Server, table: seq<Row>, selected: seq<EmployeeId>, since: Option<int>,
                        until: Option<int>, k: nat)
    requires Serves(server, table) && AllServe(server, table, QueriesFor(selected, since, until), k) && k > 0
    requires Collected(server, table, QueriesFor(selected, since, until), k) == []
    ensures forall r | r in multiset(table) :: !Asked(selected, since, until, r)
  {
    hide *;
    forall r | r in multiset(table) ensures !Asked(selected, since, until, r) {
      NothingIsFound(server, table, QueriesFor(selected, since, until), k, r);
      QueriesFind(selected, since, until, r);
    }
  }

  lemma QueriesGrow(server: Server, table: seq<Row>, targets: seq<Option<EmployeeId>>, since: Option<int>,
                    until: Option<int>, max: nat, t: nat)
    requires Serves(server, table) && t < |targets|
    ensures var all := Queries(targets, since, until);
            var q := GrantedQuery(targets[t], since, until);
            && AllServe(server, table, all[..t], max) && AllServe(server, table, all[..t + 1], max)
            && AllReach(server, t, q, Wanted(table, q, max))
            && Collected(server, table, all[..t + 1], max) ==
               Collected(server, table, all[..t], max) + Fetched(server, t, q, Wanted(table, q, max))
  {
    var all := Queries(targets, since, until);
    ServersServeAll(server, table, all[..t], max);
    ServersServeAll(server, table, all[..t + 1], max);
    assert all[..t + 1][..t] == all[..t] && all[..t + 1][t] == GrantedQuery(targets[t], since, until);
  }

  /** The loop over the targets. */
  method CollectEvents(server: Server, targets: seq<Option<EmployeeId>>, since: Option<int>, until: Option<int>,
                       limit: nat, ghost table: seq<Row>)
    returns (collected: seq<Row>)
    requires Serves(server, table)
    ensures AllServe(server, table, Queries(targets, since, until), limit)
    ensures collected == Collected(server, table, Queries(targets, since, until), limit)
  {
    ghost var all := Queries(targets, since, until);
    ServersServeAll(server, table, [], limit);
    collected := [];
    for t := 0 to |targets|
      invariant AllServe(server, table, all[..t], limit) && collected == Collected(server, table, all[..t], limit)
    {
      hide AllServe, AllReach, Serves, Queries, Collected, Fetched, Wanted, Top;
      QueriesGrow(server, table, targets, since, until, limit, t);
      var batch := FetchGrantedEvents(server, t, targets[t], since, until, limit, table);
      collected := collected + batch;
    }
    assert all[..|targets|] == all;
  }

  /** The export reports the newest rows of what its pages held. */
  method SubmitExport(server: Server, selected: seq<EmployeeId>, since: Option<int>, until: Option<int>, limit: nat,
                      ghost table: seq<Row>)
    returns (outcome: Outcome)
    requires Serves(server, table)
    ensures outcome.BadPeriod? <==> since.Some? && until.Some? && since.value > until.value
    ensures IsHonest(outcome, table, selected, since, until, limit)
    ensures var queries := QueriesFor(selected, since, until);
            && AllServe(server, table, queries, limit)
            && (!outcome.BadPeriod? ==> outcome == Report(Top(limit, Collected(server, table, queries, limit))))
    // These are a choice of the newest events asked for, unless a tied edge is exported; and
    // with distinct timestamps there is only one choice.
    ensures !outcome.BadPeriod? && Distinct(selected) && limit <= REACH ==>
              && (Unique(multiset(table)) && (forall e :: !ExportedEdge(table, QueriesFor(selected, since, until), limit, e))
                  ==> ExportIsNewest(server, table, selected, since, until, limit))
              && (DistinctTimes(multiset(table)) ==>
                    outcome == Report(Top(limit, Chosen(table, selected, since, until))))
  {
    hide AllServe, Collected, Top, Chosen, DistinctTimes, Unique, ExportedEdge, ExportIsNewest, Distinct, Asked, Falling;
    ServersServeAll(server, table, QueriesFor(selected, since, until), limit);
    ReportIsHonest(server, table, selected, since, until, limit);
    if since.Some? && until.Some? && since.value > until.value {
      return BadPeriod;
    }
    var collected := CollectEvents(server, Targets(selected), since, until, limit, table);
    if Distinct(selected) && limit <= REACH && Unique(multiset(table)) {
      ExportIsNewestIff(table, selected, since, until, limit);
    }
    if Distinct(selected) && limit <= REACH && DistinctTimes(multiset(table)) {
      MergedExport(server, table, selected, since, until, limit);
    }
    return Report(Top(limit, collected));
  }
}
