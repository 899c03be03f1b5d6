/** Newest-first order of access events, and the newest k of a collection. */
module Newest {
  import opened Basics

  datatype Row = Row(id: int, employee: Option<EmployeeId>, status: string, at: int)

  // ---------------------------------------------------------------------------
  // A stable sort by falling timestamp.

  function Insert(s: seq<Row>, x: Row): seq<Row> {
    if s == [] || s[|s| - 1].at >= x.at then s + [x]
    else Insert(s[..|s| - 1], x) + [s[|s| - 1]]
  }

  function Sort(rows: seq<Row>): seq<Row> {
    if rows == [] then [] else Insert(Sort(rows[..|rows| - 1]), rows[|rows| - 1])
  }

  ghost predicate Falling(s: seq<Row>) {
    forall i, j | 0 <= i < j < |s| :: s[i].at >= s[j].at
  }

  ghost predicate NoneOlder(s: seq<Row>, at: int) {
    forall i | 0 <= i < |s| :: s[i].at >= at
  }

  lemma LastSplitsOff(s: seq<Row>)
    requires s != []
    ensures s == s[..|s| - 1] + [s[|s| - 1]]
    ensures multiset(s) == multiset(s[..|s| - 1]) + multiset{s[|s| - 1]}
  {
    assert s == s[..|s| - 1] + [s[|s| - 1]];
  }

  lemma {:induction false} InsertContains(s: seq<Row>, x: Row)
    ensures multiset(Insert(s, x)) == multiset(s) + multiset{x}
  {
    if s == [] || s[|s| - 1].at >= x.at {
    } else {
      LastSplitsOff(s);
      InsertContains(s[..|s| - 1], x);
    }
  }

  lemma {:induction false} InsertFalls(s: seq<Row>, x: Row, at: int)
    requires Falling(s)
    ensures Falling(Insert(s, x))
    ensures NoneOlder(s, at) && x.at >= at ==> NoneOlder(Insert(s, x), at)
  {
    if s == [] || s[|s| - 1].at >= x.at {
    } else {
      InsertFalls(s[..|s| - 1], x, s[|s| - 1].at);
      InsertFalls(s[..|s| - 1], x, at);
    }
  }

  /** Sort puts the rows in order and loses none. */
  lemma {:induction false} SortSorts(rows: seq<Row>)
    ensures Falling(Sort(rows)) && multiset(Sort(rows)) == multiset(rows) && |Sort(rows)| == |rows|
  {
    if rows == [] {
    } else {
      var front, last := rows[..|rows| - 1], rows[|rows| - 1];
      SortSorts(front);
      LastSplitsOff(rows);
      hide Insert, Falling;
      InsertFalls(Sort(front), last, 0);
      InsertContains(Sort(front), last);
    }
    SizeIsContents(Sort(rows), rows);
  }

  lemma SizeIsContents(s: seq<Row>, t: seq<Row>)
    ensures multiset(s) == multiset(t) ==> |s| == |t|
  {
    assert |multiset(s)| == |s| && |multiset(t)| == |t|;
  }

  /** No row occurs twice. */
  ghost predicate Unique(m: multiset<Row>) {
    forall r | r in m :: m[r] == 1
  }

  /** No two rows share a timestamp. */
  ghost predicate DistinctTimes(m: multiset<Row>) {
    Unique(m) && forall r, r' | r in m && r' in m && r.at == r'.at :: r == r'
  }

  lemma TwoPlacesCountTwice(s: seq<Row>, i: nat, j: nat)
    requires i < j < |s|
    ensures multiset(s)[s[i]] >= if s[i] == s[j] then 2 else 1
  {
    var front, back := s[..j], s[j..];
    assert s == front + back && front[i] == s[i] && back[0] == s[j];
    assert multiset(s) == multiset(front) + multiset(back);
  }

  // ---------------------------------------------------------------------------
  // Counting.

  /** How many rows are newer than `at`. */
  function Newer(rows: seq<Row>, at: int): nat {
    if rows == [] then 0 else
    Newer(rows[..|rows| - 1], at) + if rows[|rows| - 1].at > at then 1 else 0
  }

  lemma {:induction false} NewerAdds(s: seq<Row>, t: seq<Row>, at: int)
    ensures Newer(s + t, at) == Newer(s, at) + Newer(t, at)
  {
    if t == [] {
      assert s + t == s;
    } else {
      NewerAdds(s, t[..|t| - 1], at);
      assert (s + t)[..|s + t| - 1] == s + t[..|t| - 1];
    }
  }

  lemma {:induction false} NewerIsAtMost(s: seq<Row>, at: int)
    ensures Newer(s, at) <= |s|
  {
    if s == [] {
    } else {
      NewerIsAtMost(s[..|s| - 1], at);
    }
  }

  lemma {:induction false} NoneNewer(s: seq<Row>, at: int)
    requires forall i | 0 <= i < |s| :: s[i].at <= at
    ensures Newer(s, at) == 0
  {
    if s == [] {
    } else {
      NoneNewer(s[..|s| - 1], at);
    }
  }

  lemma {:induction false} AllNewer(s: seq<Row>, at: int)
    requires forall i | 0 <= i < |s| :: s[i].at > at
    ensures Newer(s, at) == |s|
  {
    if s == [] {
    } else {
      AllNewer(s[..|s| - 1], at);
    }
  }

  lemma {:induction false} InsertCounts(s: seq<Row>, x: Row, at: int)
    ensures Newer(Insert(s, x), at) == Newer(s + [x], at)
  {
    NewerAdds(s, [x], at);
    if s == [] || s[|s| - 1].at >= x.at {
    } else {
      var front, last := s[..|s| - 1], s[|s| - 1];
      InsertCounts(front, x, at);
      NewerAdds(front, [x], at);
      NewerAdds(Insert(front, x), [last], at);
    }
  }

  lemma {:induction false} SortCounts(rows: seq<Row>, at: int)
    ensures Newer(Sort(rows), at) == Newer(rows, at)
  {
    if rows == [] {
    } else {
      var front, last := rows[..|rows| - 1], rows[|rows| - 1];
      SortCounts(front, at);
      InsertCounts(Sort(front), last, at);
      NewerAdds(Sort(front), [last], at);
    }
  }

  lemma BackIsNotNewer(s: seq<Row>, k: nat, at: int)
    requires Falling(s) && 0 < k <= |s| && s[k - 1].at <= at
    ensures Newer(s[k - 1..], at) == 0
  {
    var back := s[k - 1..];
    forall i | 0 <= i < |back| ensures back[i].at <= at {
      assert back[i] == s[k - 1 + i];
    }
    NoneNewer(back, at);
  }

  lemma FewNewerThanLate(s: seq<Row>, k: nat, at: int)
    requires Falling(s) && 0 < k <= |s| && s[k - 1].at <= at
    ensures Newer(s, at) < k
  {
    BackIsNotNewer(s, k, at);
    hide Newer, Falling;
    NewerAdds(s[..k - 1], s[k - 1..], at);
    NewerIsAtMost(s[..k - 1], at);
    assert s[..k - 1] + s[k - 1..] == s;
  }

  lemma SortFalls(rows: seq<Row>)
    ensures Falling(Sort(rows)) && |Sort(rows)| == |rows|
  {
    SortSorts(rows);
  }

  lemma RemoveOne(s: seq<Row>, i: nat)
    requires i < |s|
    ensures multiset(s[..i] + s[i + 1..]) == multiset(s) - multiset{s[i]}
  {
    assert s == s[..i] + [s[i]] + s[i + 1..];
  }

  lemma NewerSplits(s: seq<Row>, i: nat, at: int)
    requires i < |s|
    ensures Newer(s, at) == Newer(s[..i] + s[i + 1..], at) + if s[i].at > at then 1 else 0
  {
    assert s == (s[..i] + [s[i]]) + s[i + 1..];
    NewerAdds(s[..i] + [s[i]], s[i + 1..], at);
    NewerAdds(s[..i], [s[i]], at);
    NewerAdds(s[..i], s[i + 1..], at);
  }

  /** A part has no more newer rows than the whole. */
  lemma {:induction false} NewerIsMonotone(s: seq<Row>, t: seq<Row>, at: int)
    requires multiset(s) <= multiset(t)
    ensures Newer(s, at) <= Newer(t, at)
  {
    if s == [] {
    } else {
      var front, last := s[..|s| - 1], s[|s| - 1];
      LastSplitsOff(s);
      assert last in multiset(t);
      var i :| 0 <= i < |t| && t[i] == last;
      RemoveOne(t, i);
      NewerSplits(t, i, at);
      NewerIsMonotone(front, t[..i] + t[i + 1..], at);
    }
  }

  ghost predicate SameCounts(s: seq<Row>, t: seq<Row>) {
    forall at :: CountsAlike(s, t, at)
  }

  ghost predicate CountsAlike(s: seq<Row>, t: seq<Row>, at: int) {
    Newer(s, at) == Newer(t, at)
  }

  lemma SameRowsSameCounts(s: seq<Row>, t: seq<Row>)
    requires multiset(s) == multiset(t)
    ensures SameCounts(s, t)
  {
    forall at ensures CountsAlike(s, t, at) {
      NewerIsMonotone(s, t, at);
      NewerIsMonotone(t, s, at);
    }
  }

  ghost predicate SameTimes(s: seq<Row>, t: seq<Row>) {
    |s| == |t| && forall i | 0 <= i < |s| :: s[i].at == t[i].at
  }

  lemma {:induction false} SameTimesSameCounts(s: seq<Row>, t: seq<Row>, at: int)
    requires SameTimes(s, t)
    ensures Newer(s, at) == Newer(t, at)
  {
    if s == [] {
    } else {
      SameTimesSameCounts(s[..|s| - 1], t[..|t| - 1], at);
    }
  }

  lemma PlacesCount(s: seq<Row>, i: nat, at: int)
    requires Falling(s) && i < |s|
    ensures Newer(s, at) > i <==> s[i].at > at
  {
    if s[i].at > at {
      var front := s[..i + 1];
      assert s == front + s[i + 1..];
      forall j | 0 <= j < |front| ensures front[j].at > at {
        assert front[j] == s[j];
      }
      NewerAdds(front, s[i + 1..], at);
      AllNewer(front, at);
    } else {
      FewNewerThanLate(s, i + 1, at);
    }
  }

  /** In falling order the counts determine the times. */
  lemma CountsGiveTimes(s: seq<Row>, t: seq<Row>)
    requires Falling(s) && Falling(t) && |s| == |t| && SameCounts(s, t)
    ensures SameTimes(s, t)
  {
    forall i | 0 <= i < |s| ensures s[i].at == t[i].at {
      assert CountsAlike(s, t, s[i].at) && CountsAlike(s, t, t[i].at);
      PlacesCount(s, i, s[i].at);
      PlacesCount(s, i, t[i].at);
      PlacesCount(t, i, s[i].at);
      PlacesCount(t, i, t[i].at);
    }
  }

  /** Whatever becomes of ties, two arrangements of the same rows are sorted to the same times. */
  lemma SortedTimesAgree(s: seq<Row>, t: seq<Row>)
    requires multiset(s) == multiset(t)
    ensures SameTimes(Sort(s), Sort(t))
  {
    SortSorts(s);
    SortSorts(t);
    SizeIsContents(s, t);
    hide Sort, Falling;
    SameRowsSameCounts(Sort(s), Sort(t));
    CountsGiveTimes(Sort(s), Sort(t));
  }

  lemma TimesGiveRows(s: seq<Row>, t: seq<Row>, m: multiset<Row>)
    requires SameTimes(s, t) && DistinctTimes(m)
    requires (forall i | 0 <= i < |s| :: s[i] in m) && forall i | 0 <= i < |t| :: t[i] in m
    ensures s == t
  {
  }

  lemma ElementsAreIn(s: seq<Row>, m: multiset<Row>)
    requires multiset(s) <= m
    ensures forall i | 0 <= i < |s| :: s[i] in m
  {
    forall i | 0 <= i < |s| ensures s[i] in m {
      assert s[i] in multiset(s);
    }
  }

  /** With distinct timestamps the sorted list depends on the contents only. */
  lemma SortIgnoresOrder(s: seq<Row>, t: seq<Row>)
    requires multiset(s) == multiset(t) && DistinctTimes(multiset(s))
    ensures Sort(s) == Sort(t)
  {
    SortedTimesAgree(s, t);
    SortSorts(s);
    SortSorts(t);
    hide Sort, DistinctTimes, Falling;
    ElementsAreIn(Sort(s), multiset(s));
    ElementsAreIn(Sort(t), multiset(s));
    TimesGiveRows(Sort(s), Sort(t), multiset(s));
  }

  // ---------------------------------------------------------------------------
  // The newest k.

  /** x is a choice of the newest k rows of `all`: how ties at the cut are resolved is left open. */
  ghost predicate IsNewest(x: seq<Row>, all: seq<Row>, k: nat) {
    && |x| == Min(k, |all|)
    && multiset(x) <= multiset(all)
    && forall r, i | r in multiset(all) - multiset(x) && 0 <= i < |x| :: r.at <= x[i].at
  }

  function Top(k: nat, rows: seq<Row>): seq<Row> {
    var s := Sort(rows);
    if k < |s| then s[..k] else s
  }

  /** As far as timestamps go, x is the newest k rows of `all`. */
  ghost predicate Cuts(x: seq<Row>, all: seq<Row>, k: nat) {
    |x| == Min(k, |all|) && forall at :: CutCount(x, all, k, at)
  }

  ghost predicate CutCount(x: seq<Row>, all: seq<Row>, k: nat, at: int) {
    Newer(x, at) == Min(k, Newer(all, at))
  }

  lemma LeftOutIsOlder(x: seq<Row>, all: seq<Row>, k: nat, r: Row, i: nat)
    requires Cuts(x, all, k) && multiset(x) <= multiset(all)
    requires r in multiset(all) - multiset(x) && i < |x|
    ensures r.at <= x[i].at
  {
    if r.at > x[i].at {
      var at := x[i].at;
      assert CutCount(x, all, k, at);
      NewerSplits(x, i, at);
      NewerIsAtMost(x[..i] + x[i + 1..], at);
      assert multiset(x + [r]) <= multiset(all);
      NewerIsMonotone(x + [r], all, at);
      NewerAdds(x, [r], at);
    }
  }

  /** Right times and right rows make a choice of the newest. */
  lemma CutsOfRowsAreNewest(x: seq<Row>, all: seq<Row>, k: nat)
    requires Cuts(x, all, k)
    ensures IsNewest(x, all, k) <==> multiset(x) <= multiset(all)
  {
    if multiset(x) <= multiset(all) {
      forall r, i | r in multiset(all) - multiset(x) && 0 <= i < |x| ensures r.at <= x[i].at {
        LeftOutIsOlder(x, all, k, r, i);
      }
    }
  }

  lemma PrefixCounts(s: seq<Row>, k: nat, at: int)
    requires Falling(s) && k <= |s|
    ensures Newer(s[..k], at) == Min(k, Newer(s, at))
  {
    assert s == s[..k] + s[k..];
    NewerAdds(s[..k], s[k..], at);
    NewerIsAtMost(s[..k], at);
    if k < |s| && s[k].at <= at {
      NoneNewer(s[k..], at);
    } else {
      forall i | 0 <= i < k ensures k < |s| ==> s[..k][i].at > at {
      }
      if k < |s| {
        AllNewer(s[..k], at);
      }
    }
  }

  lemma TopCuts(k: nat, rows: seq<Row>)
    ensures Cuts(Top(k, rows), rows, k) && Falling(Top(k, rows))
  {
    SortSorts(rows);
    forall at ensures CutCount(Top(k, rows), rows, k, at) {
      SortCounts(rows, at);
      PrefixCounts(Sort(rows), Min(k, |rows|), at);
      NewerIsAtMost(rows, at);
    }
  }

  lemma PrefixIsWithin(s: seq<Row>, k: nat)
    ensures k < |s| ==> multiset(s[..k]) <= multiset(s)
  {
    if k < |s| {
      assert s == s[..k] + s[k..];
    }
  }

  lemma TopIsWithin(rows: seq<Row>, k: nat)
    ensures multiset(Top(k, rows)) <= multiset(rows)
  {
    SortSorts(rows);
    hide Sort;
    PrefixIsWithin(Sort(rows), k);
  }

  /** The first k of the sorted list are a choice of the newest k. */
  lemma TopIsNewest(k: nat, rows: seq<Row>)
    ensures IsNewest(Top(k, rows), rows, k)
  {
    TopCuts(k, rows);
    TopIsWithin(rows, k);
    CutsOfRowsAreNewest(Top(k, rows), rows, k);
  }

  // ---------------------------------------------------------------------------
  // Merging.

  /** c counts like `all` as far as k rows can tell. */
  ghost predicate CountsUpTo(c: seq<Row>, all: seq<Row>, k: nat) {
    Min(k, |c|) == Min(k, |all|) && forall at :: CountsAlikeUpTo(c, all, k, at)
  }

  ghost predicate CountsAlikeUpTo(c: seq<Row>, all: seq<Row>, k: nat, at: int) {
    Min(k, Newer(c, at)) == Min(k, Newer(all, at))
  }

  lemma CutsCountUpTo(x: seq<Row>, all: seq<Row>, k: nat)
    requires Cuts(x, all, k)
    ensures CountsUpTo(x, all, k)
  {
    forall at ensures CountsAlikeUpTo(x, all, k, at) {
      assert CutCount(x, all, k, at);
    }
  }

  /** Parts may be replaced by their newest k before they are put together. */
  lemma PartsCountUpTo(c: seq<Row>, all: seq<Row>, x: seq<Row>, part: seq<Row>, k: nat)
    requires CountsUpTo(c, all, k) && CountsUpTo(x, part, k)
    ensures CountsUpTo(c + x, all + part, k)
  {
    forall at ensures CountsAlikeUpTo(c + x, all + part, k, at) {
      assert CountsAlikeUpTo(c, all, k, at) && CountsAlikeUpTo(x, part, k, at);
      NewerAdds(c, x, at);
      NewerAdds(all, part, at);
    }
  }

  lemma TopOfCountsCuts(c: seq<Row>, all: seq<Row>, k: nat)
    requires CountsUpTo(c, all, k)
    ensures Cuts(Top(k, c), all, k)
  {
    TopCuts(k, c);
    forall at ensures CutCount(Top(k, c), all, k, at) {
      assert CountsAlikeUpTo(c, all, k, at) && CutCount(Top(k, c), c, k, at);
    }
  }

  lemma SubsetIsDistinct(m: multiset<Row>, m': multiset<Row>)
    requires DistinctTimes(m) && m' <= m
    ensures DistinctTimes(m')
  {
    forall r | r in m' ensures m'[r] == 1 && r in m {
      assert m'[r] <= m[r];
    }
  }

  /** With distinct timestamps there is one choice of the newest k in falling order. */
  lemma CutIsUnique(x: seq<Row>, y: seq<Row>, all: seq<Row>, k: nat)
    requires Cuts(x, all, k) && Cuts(y, all, k) && Falling(x) && Falling(y)
    requires (forall i | 0 <= i < |x| :: x[i] in multiset(all)) && DistinctTimes(multiset(all))
    requires forall i | 0 <= i < |y| :: y[i] in multiset(all)
    ensures x == y
  {
    forall at ensures CountsAlike(x, y, at) {
      assert CutCount(x, all, k, at) && CutCount(y, all, k, at);
    }
    CountsGiveTimes(x, y);
    TimesGiveRows(x, y, multiset(all));
  }

  /** Then cutting one part down to its newest k does not change the newest k of the whole. */
  lemma TopOfParts(others: seq<Row>, part: seq<Row>, k: nat)
    requires DistinctTimes(multiset(others + part))
    ensures Top(k, others + Top(k, part)) == Top(k, others + part)
  {
    var cut := others + Top(k, part);
    TopCuts(k, part);
    TopIsWithin(part, k);
    CutsCountUpTo(Top(k, part), part, k);
    PartsCountUpTo(others, others, Top(k, part), part, k);
    TopOfCountsCuts(cut, others + part, k);
    TopCuts(k, cut);
    TopCuts(k, others + part);
    TopIsWithin(cut, k);
    TopIsWithin(others + part, k);
    ElementsAreIn(Top(k, cut), multiset(others + part));
    ElementsAreIn(Top(k, others + part), multiset(others + part));
    CutIsUnique(Top(k, cut), Top(k, others + part), others + part, k);
  }

  // ---------------------------------------------------------------------------
  // Rows that occur once.

  ghost predicate NoTwins(s: seq<Row>) {
    forall i, j | 0 <= i < j < |s| :: s[i] != s[j]
  }

  lemma {:induction false} NoTwinsCount(s: seq<Row>, r: Row)
    requires NoTwins(s)
    ensures multiset(s)[r] <= 1
  {
    if s == [] {
    } else {
      NoTwinsCount(s[..|s| - 1], r);
      LastSplitsOff(s);
    }
  }

  /** Rows taken from a table with a primary key are part of it exactly when none was taken twice. */
  lemma PartIffNoTwins(s: seq<Row>, m: multiset<Row>)
    requires Unique(m) && forall i | 0 <= i < |s| :: s[i] in m
    ensures multiset(s) <= m <==> NoTwins(s)
  {
    if NoTwins(s) {
      forall r ensures multiset(s)[r] <= m[r] {
        NoTwinsCount(s, r);
        if r in multiset(s) {
          var i :| 0 <= i < |s| && s[i] == r;
        }
      }
    }
    forall i, j | 0 <= i < j < |s| ensures multiset(s) <= m ==> s[i] != s[j] {
      TwoPlacesCountTwice(s, i, j);
      assert m[s[i]] == 1;
    }
  }

  lemma UniqueHasNoTwins(s: seq<Row>)
    requires Unique(multiset(s))
    ensures NoTwins(s)
  {
    ElementsAreIn(s, multiset(s));
    PartIffNoTwins(s, multiset(s));
  }
}
