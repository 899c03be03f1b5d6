/**
 When paging goes wrong: a row can be fetched twice, and another be missed, exactly if two
 equally old rows stand on either side of a page's edge.
 */
module Ties {
  import opened Basics
  import opened Newest
  import opened Pages

  /** The rows fetched for one query are a choice of the newest. */
  ghost predicate FetchIsNewest(server: Server, table: seq<Row>, t: nat, q: EventsQuery, max: nat) {
    var n := Wanted(table, q, max);
    AllReach(server, t, q, n) && IsNewest(Fetched(server, t, q, n), Select(table, q), Min(max, REACH))
  }

  lemma NewestIffNoTwins(server: Server, table: seq<Row>, t: nat, q: EventsQuery, max: nat)
    requires Serves(server, table) && Unique(multiset(table))
    ensures var n := Wanted(table, q, max);
            AllReach(server, t, q, n) && (FetchIsNewest(server, table, t, q, max) <==> NoTwins(Fetched(server, t, q, n)))
  {
    var n := Wanted(table, q, max);
    hide Serves, AllReach, Select, Sort, Cuts, IsNewest, Unique;
    FetchedCuts(server, table, t, q, max);
    FetchedTimes(server, table, t, q, n);
    SelectIsUnique(table, q);
    var rows := Fetched(server, t, q, n);
    PartIffNoTwins(rows, multiset(Select(table, q)));
    CutsOfRowsAreNewest(rows, Select(table, q), Min(max, REACH));
  }

  // ---------------------------------------------------------------------------
  // A server that swaps two tied rows on one page.

  function Rest(rows: seq<Row>, q: EventsQuery): seq<Row> {
    if rows == [] then [] else
    Rest(rows[..|rows| - 1], q) + if Matches(q, rows[|rows| - 1]) then [] else [rows[|rows| - 1]]
  }

  lemma {:induction false} RestCounts(rows: seq<Row>, q: EventsQuery, r: Row)
    ensures multiset(Rest(rows, q))[r] == if Matches(q, r) then 0 else multiset(rows)[r]
  {
    if rows == [] {
    } else {
      RestCounts(rows[..|rows| - 1], q, r);
      LastSplitsOff(rows);
    }
  }

  lemma {:induction false} SelectAppends(s: seq<Row>, t: seq<Row>, q: EventsQuery)
    ensures Select(s + t, q) == Select(s, q) + Select(t, q)
  {
    if t == [] {
      assert s + t == s;
    } else {
      SelectAppends(s, t[..|t| - 1], q);
      assert (s + t)[..|s + t| - 1] == s + t[..|t| - 1];
    }
  }

  lemma {:induction false} SelectAll(rows: seq<Row>, q: EventsQuery)
    requires forall i | 0 <= i < |rows| :: Matches(q, rows[i])
    ensures Select(rows, q) == rows
  {
    if rows == [] {
    } else {
      SelectAll(rows[..|rows| - 1], q);
    }
  }

  lemma {:induction false} SelectNone(rows: seq<Row>, q: EventsQuery)
    ensures Select(Rest(rows, q), q) == []
  {
    if rows == [] {
    } else {
      var front, last := Rest(rows[..|rows| - 1], q), rows[|rows| - 1];
      SelectNone(rows[..|rows| - 1], q);
      if Matches(q, last) {
        assert Rest(rows, q) == front;
      } else {
        SelectAppends(front, [last], q);
      }
    }
  }

  lemma {:induction false} SortOfFalling(s: seq<Row>)
    requires Falling(s)
    ensures Sort(s) == s
  {
    if s == [] {
    } else {
      var front, last := s[..|s| - 1], s[|s| - 1];
      assert Sort(s) == Insert(Sort(front), last);
      hide Sort;
      SortOfFalling(front);
      LastSplitsOff(s);
      assert front == [] || front[|front| - 1] == s[|s| - 2];
    }
  }

  function Swapped(s: seq<Row>, c: nat): seq<Row>
    requires 0 < c < |s|
  {
    s[c - 1 := s[c]][c := s[c - 1]]
  }

  lemma SwappedAt(s: seq<Row>, c: nat)
    requires 0 < c < |s|
    ensures Swapped(s, c)[c] == s[c - 1]
  {
  }

  lemma SwappedIsArranged(s: seq<Row>, c: nat)
    requires 0 < c < |s| && Falling(s) && s[c - 1].at == s[c].at
    ensures Falling(Swapped(s, c)) && multiset(Swapped(s, c)) == multiset(s)
  {
  }

  /** The matching rows with two of them swapped, and then the others. */
  function SwappedTable(table: seq<Row>, q: EventsQuery, c: nat): seq<Row>
    requires 0 < c < |Sort(Select(table, q))|
  {
    Swapped(Sort(Select(table, q)), c) + Rest(table, q)
  }

  lemma RestCompletes(s: seq<Row>, table: seq<Row>, q: EventsQuery)
    requires multiset(s) == multiset(Select(table, q))
    ensures multiset(s + Rest(table, q)) == multiset(table)
  {
    hide Select, Rest;
    forall r ensures multiset(s + Rest(table, q))[r] == multiset(table)[r] {
      SelectCounts(table, q, r);
      RestCounts(table, q, r);
    }
  }

  lemma RestIsIgnored(s: seq<Row>, table: seq<Row>, q: EventsQuery)
    requires multiset(s) == multiset(Select(table, q))
    ensures Select(s + Rest(table, q), q) == s
  {
    hide Select, Rest;
    forall i | 0 <= i < |s| ensures Matches(q, s[i]) {
      assert s[i] in multiset(s);
      SelectCounts(table, q, s[i]);
    }
    SelectAppends(s, Rest(table, q), q);
    SelectAll(s, q);
    SelectNone(table, q);
    assert s + [] == s;
  }

  lemma SwappedTableIsArranged(table: seq<Row>, q: EventsQuery, n: nat, c: nat)
    requires TiedEdge(table, q, n, c)
    ensures multiset(SwappedTable(table, q, c)) == multiset(table)
    ensures Sort(Select(SwappedTable(table, q, c), q)) == Swapped(Sort(Select(table, q)), c)
  {
    var s := Sort(Select(table, q));
    hide Sort, Select, Rest, Swapped, Falling;
    SortSorts(Select(table, q));
    SwappedIsArranged(s, c);
    RestCompletes(Swapped(s, c), table, q);
    RestIsIgnored(Swapped(s, c), table, q);
    SortOfFalling(Swapped(s, c));
  }

  ghost function SwapServer(table: seq<Row>, q: EventsQuery, n: nat, t0: nat, c: nat): Server
    requires TiedEdge(table, q, n, c)
  {
    var swapped := SwappedTable(table, q, c);
    (t: nat, p: nat) => if t == t0 && p == PageOf(c) then swapped else table
  }

  /** It serves the table, and the row before the edge comes a second time behind it. */
  lemma SwapServerRepeats(table: seq<Row>, q: EventsQuery, n: nat, t0: nat, c: nat)
    requires TiedEdge(table, q, n, c) && n <= |Select(table, q)|
    ensures var server := SwapServer(table, q, n, t0, c);
            && Serves(server, table) && AllReach(server, t0, q, n)
            && Fetched(server, t0, q, n)[c - 1] == Fetched(server, t0, q, n)[c] == Sort(Select(table, q))[c - 1]
  {
    hide Sort, Select, Serves, AllReach, SwapServer, Fetched, TiedEdge;
    EdgeIsInside(table, q, n, c);
    var server := SwapServer(table, q, n, t0, c);
    SwapServerServes(table, q, n, t0, c);
    ServersReach(server, table, t0, q, n);
    RowsAtEdge(server, table, t0, q, n, c);
  }

  lemma RowsAtEdge(server: Server, table: seq<Row>, t0: nat, q: EventsQuery, n: nat, c: nat)
    requires TiedEdge(table, q, n, c) && server == SwapServer(table, q, n, t0, c) && AllReach(server, t0, q, n)
    ensures 0 < c < n && c < |Sort(Select(table, q))|
    ensures Fetched(server, t0, q, n)[c - 1] == Sort(Select(table, q))[c - 1]
    ensures Fetched(server, t0, q, n)[c] == Sort(Select(table, q))[c - 1]
  {
    EdgeIsInside(table, q, n, c);
    hide *;
    RowBeforeEdge(server, table, t0, q, n, c);
    RowBehindEdge(server, table, t0, q, n, c);
  }

  lemma RowBeforeEdge(server: Server, table: seq<Row>, t0: nat, q: EventsQuery, n: nat, c: nat)
    requires TiedEdge(table, q, n, c) && server == SwapServer(table, q, n, t0, c) && AllReach(server, t0, q, n)
    requires 0 < c < n && c < |Sort(Select(table, q))|
    ensures Fetched(server, t0, q, n)[c - 1] == Sort(Select(table, q))[c - 1]
  {
    hide *;
    SwapServerLists(table, q, n, t0, c);
    FetchedFrom(server, t0, q, n, c - 1);
  }

  lemma RowBehindEdge(server: Server, table: seq<Row>, t0: nat, q: EventsQuery, n: nat, c: nat)
    requires TiedEdge(table, q, n, c) && server == SwapServer(table, q, n, t0, c) && AllReach(server, t0, q, n)
    requires 0 < c < n && c < |Sort(Select(table, q))|
    ensures Fetched(server, t0, q, n)[c] == Sort(Select(table, q))[c - 1]
  {
    hide *;
    SwapServerLists(table, q, n, t0, c);
    SwappedAt(Sort(Select(table, q)), c);
    FetchedFrom(server, t0, q, n, c);
  }

  lemma SwapServerServes(table: seq<Row>, q: EventsQuery, n: nat, t0: nat, c: nat)
    requires TiedEdge(table, q, n, c)
    ensures Serves(SwapServer(table, q, n, t0, c), table)
  {
    SwappedTableIsArranged(table, q, n, c);
    hide SwappedTable, Sort, Select;
    forall t, p ensures Arranges(SwapServer(table, q, n, t0, c), t, p, table) {
    }
  }

  lemma SwapServerLists(table: seq<Row>, q: EventsQuery, n: nat, t0: nat, c: nat)
    requires TiedEdge(table, q, n, c)
    ensures var server := SwapServer(table, q, n, t0, c);
            && Listed(server, t0, PageOf(c), q) == Swapped(Sort(Select(table, q)), c)
            && Listed(server, t0, PageOf(c - 1), q) == Sort(Select(table, q))
  {
    SwappedTableIsArranged(table, q, n, c);
    EdgeSplitsPages(c);
    hide SwappedTable, Sort, Select, PageOf, Swapped;
  }

  lemma EdgeSplitsPages(c: nat)
    requires 0 < c && c % EXPORT_PAGE_SIZE == 0
    ensures PageOf(c - 1) != PageOf(c)
  {
  }

  // ---------------------------------------------------------------------------
  // The exact condition.

  /**
   The page loop returns a choice of the newest matching rows, whatever arrangements its
   pages are answered from, exactly when no edge between two of its pages separates rows with
   the same timestamp. Ties within a page or across the final cut do no harm.
   */
  lemma FetchIsNewestIff(table: seq<Row>, t: nat, q: EventsQuery, max: nat)
    requires Unique(multiset(table))
    ensures (forall server | Serves(server, table) :: FetchIsNewest(server, table, t, q, max))
            <==> forall c :: !TiedEdge(table, q, Wanted(table, q, max), c)
  {
    var n := Wanted(table, q, max);
    hide Wanted, Unique, Serves, TiedEdge, FetchIsNewest;
    WantedIsThere(table, q, max);
    if c :| TiedEdge(table, q, n, c) {
      SwapServerRepeats(table, q, n, t, c);
      var server := SwapServer(table, q, n, t, c);
      NewestIffNoTwins(server, table, t, q, max);
      EdgeIsInside(table, q, n, c);
      assert !FetchIsNewest(server, table, t, q, max);
    } else {
      forall server | Serves(server, table) ensures FetchIsNewest(server, table, t, q, max) {
        NoEdgeNoTwins(server, table, t, q, n);
        NewestIffNoTwins(server, table, t, q, max);
      }
    }
  }

  lemma WantedIsThere(table: seq<Row>, q: EventsQuery, max: nat)
    ensures Wanted(table, q, max) <= |Select(table, q)|
  {
  }

  lemma EdgeIsInside(table: seq<Row>, q: EventsQuery, n: nat, c: nat)
    requires TiedEdge(table, q, n, c)
    ensures 0 < c < n <= |Sort(Select(table, q))|
  {
  }

  lemma NoEdgeNoTwins(server: Server, table: seq<Row>, t: nat, q: EventsQuery, n: nat)
    requires Serves(server, table) && n <= |Select(table, q)| && Unique(multiset(table))
    requires forall c :: !TiedEdge(table, q, n, c)
    ensures AllReach(server, t, q, n) && NoTwins(Fetched(server, t, q, n))
  {
    hide Serves, AllReach, Select, Unique, TiedEdge;
    ServersReach(server, table, t, q, n);
    var rows := Fetched(server, t, q, n);
    forall i, j | 0 <= i < j < n ensures rows[i] != rows[j] {
      if rows[i] == rows[j] {
        var c := TwinsStraddleEdge(server, table, t, q, n, i, j);
      }
    }
  }
}
