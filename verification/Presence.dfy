/**
 Who is in the building: the dashboard's query against a replay of the day's events.
 */
module Presence {
  import opened Basics

  datatype Direction = In | Out | Unknown

  datatype AccessRow = AccessRow(employee: Option<EmployeeId>, status: string, direction: Direction, at: int)

  /** Whether a timestamp falls on today in the office's time zone. */
  type Today = int -> bool

  // ---------------------------------------------------------------------------
  // The query.

  predicate Counts(row: AccessRow, today: Today, e: EmployeeId, d: Direction) {
    row.status == "granted" && row.direction == d && row.employee == Some(e) && today(row.at)
  }

  /** MAX(timestamp_ms) of the group of one employee, in one direction; None when there is no such group. */
  function LastOf(rows: seq<AccessRow>, today: Today, e: EmployeeId, d: Direction): Option<int> {
    if rows == [] then None else
    var front, row := LastOf(rows[..|rows| - 1], today, e, d), rows[|rows| - 1];
    if !Counts(row, today, e, d) then front else
    if front.None? then Some(row.at) else Some(Max(front.value, row.at))
  }

  /** present_today: employee to last entry time. */
  function PresentToday(rows: seq<AccessRow>, employees: set<EmployeeId>, today: Today): map<EmployeeId, int> {
    map e | e in employees && IsPresent(rows, today, e) :: LastOf(rows, today, e, In).value
  }

  /** WHERE o.last_out IS NULL OR o.last_out < ti.last_in, behind the join on ti */
  predicate IsPresent(rows: seq<AccessRow>, today: Today, e: EmployeeId) {
    var entered, left := LastOf(rows, today, e, In), LastOf(rows, today, e, Out);
    entered.Some? && (left.None? || left.value < entered.value)
  }

  // ---------------------------------------------------------------------------
  // The replay.

  datatype Passage = Passage(entering: bool, at: int)

  /** The passages of one employee today. */
  function PassagesOf(rows: seq<AccessRow>, today: Today, e: EmployeeId): seq<Passage> {
    if rows == [] then [] else
    var front, row := PassagesOf(rows[..|rows| - 1], today, e), rows[|rows| - 1];
    if Counts(row, today, e, In) then front + [Passage(true, row.at)]
    else if Counts(row, today, e, Out) then front + [Passage(false, row.at)]
    else front
  }

  /** Time order, entering first at one instant. */
  ghost predicate InTimeOrder(s: seq<Passage>) {
    forall i, j | 0 <= i < j < |s| :: s[i].at < s[j].at || (s[i].at == s[j].at && (s[i].entering || !s[j].entering))
  }

  /** Walk through the passages: inside since the last entry, or outside. */
  function Replay(s: seq<Passage>): Option<int> {
    if s == [] then None else Walk(Replay(s[..|s| - 1]), s[|s| - 1])
  }

  function Walk(inside: Option<int>, p: Passage): Option<int> {
    if p.entering then Some(p.at) else None
  }

  // ---------------------------------------------------------------------------
  // They agree.

  /** m is the greatest time of the passages in one direction, if there is any. */
  ghost predicate IsLast(s: seq<Passage>, entering: bool, m: Option<int>) {
    match m
    case None => forall i | 0 <= i < |s| :: s[i].entering != entering
    case Some(t) =>
      && (forall i | 0 <= i < |s| && s[i].entering == entering :: s[i].at <= t)
      && Passage(entering, t) in s
  }

  lemma {:induction false} LastOfIsLast(rows: seq<AccessRow>, today: Today, e: EmployeeId)
    ensures IsLast(PassagesOf(rows, today, e), true, LastOf(rows, today, e, In))
    ensures IsLast(PassagesOf(rows, today, e), false, LastOf(rows, today, e, Out))
  {
    if rows == [] {
    } else {
      LastOfIsLast(rows[..|rows| - 1], today, e);
      var front, row := PassagesOf(rows[..|rows| - 1], today, e), rows[|rows| - 1];
      if Counts(row, today, e, In) {
        LastGrows(front, Passage(true, row.at), true, LastOf(rows[..|rows| - 1], today, e, In));
        LastGrows(front, Passage(true, row.at), false, LastOf(rows[..|rows| - 1], today, e, Out));
      } else if Counts(row, today, e, Out) {
        LastGrows(front, Passage(false, row.at), true, LastOf(rows[..|rows| - 1], today, e, In));
        LastGrows(front, Passage(false, row.at), false, LastOf(rows[..|rows| - 1], today, e, Out));
      }
    }
  }

  lemma LastGrows(s: seq<Passage>, p: Passage, entering: bool, m: Option<int>)
    requires IsLast(s, entering, m)
    ensures IsLast(s + [p], entering,
                   if p.entering != entering then m else Some(if m.None? then p.at else Max(m.value, p.at)))
  {
    assert (s + [p])[|s|] == p;
    if m.Some? {
      assert Passage(entering, m.value) in s + [p];
    }
  }

  lemma LastIgnoresOrder(s: seq<Passage>, t: seq<Passage>, entering: bool, m: Option<int>)
    requires multiset(s) == multiset(t) && IsLast(s, entering, m)
    ensures IsLast(t, entering, m)
  {
    forall i | 0 <= i < |t| ensures t[i] in s {
      assert t[i] in multiset(s);
    }
    if m.Some? {
      assert Passage(entering, m.value) in multiset(t);
    }
  }

  /**
   Whatever the order of the rows, an employee is listed with their last entry time exactly
   when walking through their passages in time order ends inside.
   */
  lemma PresenceIsReplay(rows: seq<AccessRow>, employees: set<EmployeeId>, today: Today, e: EmployeeId, s: seq<Passage>)
    requires multiset(s) == multiset(PassagesOf(rows, today, e)) && InTimeOrder(s) && e in employees
    ensures e in PresentToday(rows, employees, today) <==> Replay(s).Some?
    ensures Replay(s).Some? ==> PresentToday(rows, employees, today)[e] == Replay(s).value
  {
    LastOfIsLast(rows, today, e);
    var entered, left := LastOf(rows, today, e, In), LastOf(rows, today, e, Out);
    LastIgnoresOrder(PassagesOf(rows, today, e), s, true, entered);
    LastIgnoresOrder(PassagesOf(rows, today, e), s, false, left);
    ReplayEndsAtLast(s, entered, left);
  }

  lemma ReplayEndsAtLast(s: seq<Passage>, entered: Option<int>, left: Option<int>)
    requires InTimeOrder(s) && IsLast(s, true, entered) && IsLast(s, false, left)
    ensures Replay(s) == if entered.Some? && (left.None? || left.value < entered.value) then entered else None
  {
    if s != [] {
      var last := |s| - 1;
      if entered.Some? {
        var i :| 0 <= i < |s| && s[i] == Passage(true, entered.value);
        assert i == last || s[i].at <= s[last].at;
      }
      if left.Some? {
        var j :| 0 <= j < |s| && s[j] == Passage(false, left.value);
        assert j == last || s[j].at < s[last].at || !s[last].entering;
      }
    }
  }

  // ---------------------------------------------------------------------------
  // In the columns' terms.

  /** Row i is a granted passage of the employee today, in this direction. */
  ghost predicate Passed(rows: seq<AccessRow>, today: Today, e: EmployeeId, d: Direction, i: int) {
    && 0 <= i < |rows| && rows[i].status == "granted" && rows[i].direction == d
    && rows[i].employee == Some(e) && today(rows[i].at)
  }

  /** Row i is the last entry, and every exit came before it. */
  ghost predicate EnteredLast(rows: seq<AccessRow>, today: Today, e: EmployeeId, i: int) {
    && Passed(rows, today, e, In, i)
    && (forall j | Passed(rows, today, e, In, j) :: rows[j].at <= rows[i].at)
    && (forall j | Passed(rows, today, e, Out, j) :: rows[j].at < rows[i].at)
  }

  lemma {:induction false} LastOfIsLatest(rows: seq<AccessRow>, today: Today, e: EmployeeId, d: Direction)
    ensures var last := LastOf(rows, today, e, d);
            && (forall i | Passed(rows, today, e, d, i) :: last.Some? && rows[i].at <= last.value)
            && (last.Some? ==> exists i :: Passed(rows, today, e, d, i) && rows[i].at == last.value)
  {
    if rows == [] {
    } else {
      var n := |rows| - 1;
      var front := rows[..n];
      LastOfIsLatest(front, today, e, d);
      assert forall i | 0 <= i < n :: Passed(rows, today, e, d, i) <==> Passed(front, today, e, d, i);
      assert Passed(rows, today, e, d, n) <==> Counts(rows[n], today, e, d);
    }
  }

  /** An employee is listed exactly if some entry of today is later than every exit, and with the latest such time. */
  lemma PresentIff(rows: seq<AccessRow>, employees: set<EmployeeId>, today: Today, e: EmployeeId)
    ensures e in PresentToday(rows, employees, today) <==>
            e in employees && exists i :: EnteredLast(rows, today, e, i)
    ensures forall i | e in employees && EnteredLast(rows, today, e, i) ::
              e in PresentToday(rows, employees, today) && PresentToday(rows, employees, today)[e] == rows[i].at
  {
    LastOfIsLatest(rows, today, e, In);
    LastOfIsLatest(rows, today, e, Out);
    if IsPresent(rows, today, e) {
      var i :| Passed(rows, today, e, In, i) && rows[i].at == LastOf(rows, today, e, In).value;
      assert EnteredLast(rows, today, e, i);
    }
  }

  // ---------------------------------------------------------------------------
  // The day in time order.

  predicate Precedes(p: Passage, q: Passage) {
    p.at < q.at || (p.at == q.at && (p.entering || !q.entering))
  }

  function Insert(s: seq<Passage>, p: Passage): seq<Passage> {
    if s == [] || Precedes(s[|s| - 1], p) then s + [p] else Insert(s[..|s| - 1], p) + [s[|s| - 1]]
  }

  function Ordered(s: seq<Passage>): seq<Passage> {
    if s == [] then [] else Insert(Ordered(s[..|s| - 1]), s[|s| - 1])
  }

  ghost predicate AllPrecede(s: seq<Passage>, q: Passage) {
    forall i | 0 <= i < |s| :: Precedes(s[i], q)
  }

  lemma {:induction false} InsertContains(s: seq<Passage>, p: Passage)
    ensures multiset(Insert(s, p)) == multiset(s) + multiset{p}
  {
    if s == [] || Precedes(s[|s| - 1], p) {
    } else {
      InsertContains(s[..|s| - 1], p);
      assert s == s[..|s| - 1] + [s[|s| - 1]];
    }
  }

  lemma {:induction false} InsertOrders(s: seq<Passage>, p: Passage, q: Passage)
    requires InTimeOrder(s)
    ensures InTimeOrder(Insert(s, p))
    ensures AllPrecede(s, q) && Precedes(p, q) ==> AllPrecede(Insert(s, p), q)
  {
    if s == [] || Precedes(s[|s| - 1], p) {
    } else {
      var front, last := s[..|s| - 1], s[|s| - 1];
      InsertOrders(front, p, q);
      InsertOrders(front, p, last);
    }
  }

  lemma {:induction false} OrderedOrders(s: seq<Passage>)
    ensures InTimeOrder(Ordered(s)) && multiset(Ordered(s)) == multiset(s)
  {
    if s == [] {
    } else {
      var front, last := s[..|s| - 1], s[|s| - 1];
      assert s == front + [last];
      OrderedOrders(front);
      hide Insert, InTimeOrder;
      InsertOrders(Ordered(front), last, last);
      InsertContains(Ordered(front), last);
    }
  }

  /** The list of those present is the outcome of replaying everybody's day. */
  lemma PresentTodayIsReplay(rows: seq<AccessRow>, employees: set<EmployeeId>, today: Today)
    ensures PresentToday(rows, employees, today) ==
            map e | e in employees && Replay(Ordered(PassagesOf(rows, today, e))).Some? ::
              Replay(Ordered(PassagesOf(rows, today, e))).value
  {
    forall e | e in employees
      ensures var inside := Replay(Ordered(PassagesOf(rows, today, e)));
              && (e in PresentToday(rows, employees, today) <==> inside.Some?)
              && (inside.Some? ==> PresentToday(rows, employees, today)[e] == inside.value)
    {
      OrderedOrders(PassagesOf(rows, today, e));
      PresenceIsReplay(rows, employees, today, e, Ordered(PassagesOf(rows, today, e)));
    }
  }
}
