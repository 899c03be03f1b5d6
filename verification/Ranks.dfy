/** Where the stable sort puts a row. */
module Ranks {
  import opened Newest

  /** Behind the newer rows, and behind the equally old ones that came before it. */
  function Rank(c: seq<Row>, p: nat): int
    requires p < |c|
  {
    Newer(c, c[p].at) + Newer(c[..p], c[p].at - 1) - Newer(c[..p], c[p].at)
  }

  lemma {:induction false} InsertPlace(s: seq<Row>, x: Row)
    requires Falling(s)
    ensures var m := Newer(s, x.at - 1); m <= |s| && Insert(s, x) == s[..m] + [x] + s[m..]
  {
    NewerIsAtMost(s, x.at - 1);
    if s == [] {
    } else if s[|s| - 1].at >= x.at {
      AllNewer(s, x.at - 1);
    } else {
      InsertPlace(s[..|s| - 1], x);
    }
  }

  /** What stands at place y after the insertion. */
  lemma InsertFrom(s: seq<Row>, x: Row, y: nat)
    requires Falling(s) && y <= |s|
    ensures var m := Newer(s, x.at - 1);
            && |Insert(s, x)| == |s| + 1
            && (y == m ==> Insert(s, x)[y] == x)
            && (y < m ==> y < |s| && Insert(s, x)[y] == s[y] && s[y].at >= x.at)
            && (y > m ==> Insert(s, x)[y] == s[y - 1] && s[y - 1].at < x.at)
  {
    InsertPlace(s, x);
    var m := Newer(s, x.at - 1);
    hide Insert, Newer, Falling;
    if y < m {
      PlacesCount(s, y, x.at - 1);
    } else if y > m {
      PlacesCount(s, y - 1, x.at - 1);
    }
  }

  /** Where a row stands after the insertion. */
  lemma ShiftedPlace(s: seq<Row>, x: Row, y: nat)
    requires Falling(s) && y < |s|
    ensures |Insert(s, x)| == |s| + 1 && Insert(s, x)[if x.at > s[y].at then y + 1 else y] == s[y]
  {
    PlacesCount(s, y, x.at - 1);
    hide Insert, Newer, Falling;
    InsertFrom(s, x, if x.at > s[y].at then y + 1 else y);
  }

  lemma RankGrows(c: seq<Row>, p: nat)
    requires c != [] && p < |c| - 1
    ensures Rank(c, p) == Rank(c[..|c| - 1], p) + if c[|c| - 1].at > c[p].at then 1 else 0
  {
    assert c[..|c| - 1][..p] == c[..p];
  }

  lemma RankOfLast(c: seq<Row>)
    requires c != []
    ensures Rank(c, |c| - 1) == Newer(c[..|c| - 1], c[|c| - 1].at - 1)
  {
  }

  lemma LastIsPlaced(c: seq<Row>)
    requires c != []
    ensures var r := Rank(c, |c| - 1); 0 <= r < |Sort(c)| && Sort(c)[r] == c[|c| - 1]
  {
    var front, x := c[..|c| - 1], c[|c| - 1];
    assert Sort(c) == Insert(Sort(front), x);
    hide Sort, Rank, Newer, Insert, Falling;
    SortFalls(front);
    SortCounts(front, x.at - 1);
    NewerIsAtMost(front, x.at - 1);
    RankOfLast(c);
    InsertFrom(Sort(front), x, Rank(c, |c| - 1));
  }

  lemma OthersArePlaced(c: seq<Row>, p: nat)
    requires c != [] && p < |c| - 1
    requires var front := c[..|c| - 1]; 0 <= Rank(front, p) < |Sort(front)| && Sort(front)[Rank(front, p)] == c[p]
    ensures 0 <= Rank(c, p) < |Sort(c)| && Sort(c)[Rank(c, p)] == c[p]
  {
    var front, x := c[..|c| - 1], c[|c| - 1];
    assert Sort(c) == Insert(Sort(front), x);
    hide Sort, Rank, Newer, Insert, Falling;
    SortFalls(front);
    RankGrows(c, p);
    ShiftedPlace(Sort(front), x, Rank(front, p));
  }

  /** The stable sort puts every row where its rank says. */
  lemma {:induction false} SortPlaces(c: seq<Row>, p: nat)
    requires p < |c|
    ensures 0 <= Rank(c, p) < |Sort(c)| && Sort(c)[Rank(c, p)] == c[p]
  {
    hide Sort, Rank;
    if p == |c| - 1 {
      LastIsPlaced(c);
    } else {
      SortPlaces(c[..|c| - 1], p);
      OthersArePlaced(c, p);
    }
  }

  /** Every place of the sorted list is taken by the row of that rank. */
  lemma {:induction false} SortedFrom(c: seq<Row>, y: nat) returns (p: nat)
    requires y < |c|
    ensures p < |c| && Rank(c, p) == y && |Sort(c)| == |c| && Sort(c)[y] == c[p]
  {
    var n := |c| - 1;
    var front, x := c[..n], c[n];
    assert Sort(c) == Insert(Sort(front), x);
    hide Sort, Rank, Newer, Insert, Falling;
    SortFalls(front);
    SortCounts(front, x.at - 1);
    NewerIsAtMost(front, x.at - 1);
    InsertFrom(Sort(front), x, y);
    var m := Newer(front, x.at - 1);
    if y == m {
      p := n;
      RankOfLast(c);
    } else {
      p := SortedFrom(front, if y < m then y else y - 1);
      RankGrows(c, p);
    }
  }

  /** Ranks depend on times only. */
  lemma SameTimesSameRank(c: seq<Row>, d: seq<Row>, p: nat)
    requires SameTimes(c, d) && p < |c|
    ensures Rank(c, p) == Rank(d, p)
  {
    SameTimesSameCounts(c, d, c[p].at);
    SameTimesSameCounts(c[..p], d[..p], c[p].at);
    SameTimesSameCounts(c[..p], d[..p], c[p].at - 1);
  }

  /** Among equally old rows the rank follows the order of the list. */
  lemma RankFollowsOrder(c: seq<Row>, p: nat, p': nat)
    requires p < p' < |c| && c[p].at == c[p'].at
    ensures Rank(c, p) < Rank(c, p')
    ensures p' == p + 1 ==> Rank(c, p') == Rank(c, p) + 1
  {
    var at := c[p].at;
    var back := c[p + 1..p'];
    assert c[..p'] == (c[..p] + [c[p]]) + back;
    NewerAdds(c[..p] + [c[p]], back, at);
    NewerAdds(c[..p] + [c[p]], back, at - 1);
    NewerAdds(c[..p], [c[p]], at);
    NewerAdds(c[..p], [c[p]], at - 1);
    FewerIfNewer(back, at);
  }

  lemma {:induction false} FewerIfNewer(s: seq<Row>, at: int)
    ensures Newer(s, at) <= Newer(s, at - 1)
  {
    if s == [] {
    } else {
      FewerIfNewer(s[..|s| - 1], at);
    }
  }
}
