/**
 In what order messages leave the device. Every message gets a number when it is created.
 It leaves when it is published, directly or by the drainer. Numbers leave in ascending
 order exactly if no message goes past an older one that still waits.
 */
module Departures {
  import opened Basics
  import opened Storages
  import opened Traces
  import opened OfflineQueue

  datatype Ledger = Ledger(
    born: nat,              // how many messages were created
    main: Option<nat>,      // held by the main loop, between a failed publish and the enqueue
    heartbeat: Option<nat>, // held by the auxiliary thread
    tickets: seq<nat>,      // the numbers of the committed messages, in commit order
    left: seq<nat>)         // the numbers of the published messages, repeats included

  const BLANK: Ledger := Ledger(0, None, None, [], [])

  function Departs(l: Ledger, number: nat): Ledger { l.(left := l.left + [number]) }

  function Commits(l: Ledger, number: nat, broken: bool): Ledger {
    if broken then l else l.(tickets := l.tickets + [number])
  }

  /** What a step adds to the ledger. */
  function Recorded(l: Ledger, s: State, step: Step): Ledger {
    match step
    case MainPublishes(_, ok) =>
      if s.main.Some? then l
      else if ok then Departs(l, l.born).(born := l.born + 1)
      else l.(main := Some(l.born), born := l.born + 1)
    case MainEnqueues(_, broken) =>
      if l.main.None? then l else Commits(l, l.main.value, broken).(main := None)
    case HeartbeatPublishes(_, ok) =>
      if !s.drainer.Idle? then l
      else if ok then Departs(l, l.born).(born := l.born + 1)
      else l.(heartbeat := Some(l.born), born := l.born + 1)
    case HeartbeatEnqueues(_, broken) =>
      if l.heartbeat.None? then l else Commits(l, l.heartbeat.value, broken).(heartbeat := None)
    case Sends(ok) =>
      if s.drainer.Draining? && s.drainer.batch != [] && ok && s.history.drained < |l.tickets|
      then Departs(l, l.tickets[s.history.drained]) else l
    case Crashes => l.(main := None, heartbeat := None)
    case _ => l
  }

  function LedgerAfter(trace: seq<State>, schedule: seq<Step>, n: nat): Ledger
    requires n <= |schedule| < |trace|
  {
    if n == 0 then BLANK else Recorded(LedgerAfter(trace, schedule, n - 1), trace[n - 1], schedule[n - 1])
  }

  ghost predicate Above(number: nat, others: seq<nat>) {
    forall x | x in others :: x < number
  }

  /** Each number leaves for the first time after all smaller ones that leave at all. */
  ghost predicate InOrder(left: seq<nat>) {
    forall q | 0 <= q < |left| :: Repeats(left, q) || Above(left[q], left[..q])
  }

  ghost predicate Repeats(left: seq<nat>, q: nat)
    requires q < |left|
  {
    left[q] in left[..q]
  }

  /** No committed message still waits for its first departure. */
  ghost predicate NoneWaits(l: Ledger) {
    forall t | t in l.tickets :: t in l.left
  }

  /**
   The step lets no message go past an older one: a direct publish succeeds only when
   nothing waits, and a thread enqueues only when the other one holds nothing older.
   */
  ghost predicate Orderly(l: Ledger, s: State, step: Step) {
    match step
    case MainPublishes(_, ok) => s.main.None? && ok ==> l.heartbeat.None? && NoneWaits(l)
    case HeartbeatPublishes(_, ok) => s.drainer.Idle? && ok ==> l.main.None? && NoneWaits(l)
    case MainEnqueues(_, broken) =>
      l.main.Some? && l.heartbeat.Some? && !broken ==> l.main.value < l.heartbeat.value
    case HeartbeatEnqueues(_, broken) =>
      l.main.Some? && l.heartbeat.Some? && !broken ==> l.heartbeat.value < l.main.value
    case _ => true
  }

  ghost predicate OrderlyAt(trace: seq<State>, schedule: seq<Step>, n: nat)
    requires n < |schedule| < |trace|
  {
    Orderly(LedgerAfter(trace, schedule, n), trace[n], schedule[n])
  }

  // ---------------------------------------------------------------------------
  // What holds in every run.

  /** The held message is known to the ledger by a number of its own. */
  ghost predicate Holds(l: Ledger, held: Option<nat>) {
    held.Some? ==> held.value < l.born && held.value !in l.left && held.value !in l.tickets
  }

  /** The numbers in the ledger were given out, and no held one is anywhere else. */
  ghost predicate Numbered(l: Ledger) {
    && Holds(l, l.main) && Holds(l, l.heartbeat)
    && (l.main.Some? ==> l.main != l.heartbeat)
    && (forall t | t in l.tickets :: t < l.born)
    && (forall x | x in l.left :: x < l.born)
  }

  function SentOrGone(s: State): nat { s.history.drained + (if s.drainer.Deleting? then 1 else 0) }

  ghost predicate HaveLeft(tickets: seq<nat>, left: seq<nat>, n: nat) {
    n <= |tickets| && forall i | 0 <= i < n :: tickets[i] in left
  }

  ghost predicate Matches(l: Ledger, s: State) {
    && |l.tickets| == |s.history.committed|
    && l.main.Some? == s.main.Some? && l.heartbeat.Some? == s.drainer.HeartbeatFailed?
    && HaveLeft(l.tickets, l.left, SentOrGone(s))
  }

  lemma StaysNumbered(l: Ledger, s: State, step: Step)
    requires Numbered(l) && l.main.Some? == s.main.Some?
    requires l.heartbeat.Some? == s.drainer.HeartbeatFailed?
    ensures Numbered(Recorded(l, s, step))
  {
    if step.Sends? && s.history.drained < |l.tickets| {
      assert l.tickets[s.history.drained] in l.tickets;
    }
  }

  lemma StillLeft(tickets: seq<nat>, left: seq<nat>, n: nat, tickets': seq<nat>, left': seq<nat>, n': nat)
    requires HaveLeft(tickets, left, n) && tickets <= tickets' && left <= left' && n' <= n
    ensures HaveLeft(tickets', left', n')
  {
  }

  lemma OneMoreLeft(tickets: seq<nat>, left: seq<nat>, n: nat)
    requires HaveLeft(tickets, left, n) && n < |tickets|
    ensures HaveLeft(tickets, left + [tickets[n]], n + 1)
  {
  }

  lemma StaysMatched(l: Ledger, s: State, step: Step, s': State)
    requires Consistent(s) && Matches(l, s) && Next(s, step, s')
    ensures Matches(Recorded(l, s, step), s')
  {
    hide Consistent, HaveLeft, InFlight;
    var l' := Recorded(l, s, step);
    if step.Sends? && s.drainer.Draining? && s.drainer.batch != [] {
      NextIsOldest(s);
      OneMoreLeft(l.tickets, l.left, s.history.drained);
    }
    if !s'.drainer.Deleting? || s.drainer.Deleting? {
      StillLeft(l.tickets, l.left, SentOrGone(s), l'.tickets, l'.left, SentOrGone(s'));
    }
  }

  ghost predicate Fits(l: Ledger, s: State) {
    Consistent(s) && Numbered(l) && Matches(l, s)
  }

  lemma {:induction false} RunsFit(trace: seq<State>, schedule: seq<Step>, n: nat)
    requires IsRun(Next, trace, schedule) && trace[0] == EMPTY && n <= |schedule|
    ensures Fits(LedgerAfter(trace, schedule, n), trace[n])
  {
    if n == 0 {
    } else {
      hide Numbered, Matches, Consistent, Recorded;
      RunsFit(trace, schedule, n - 1);
      assert Goes(Next, trace, schedule, n - 1);
      RecordFits(LedgerAfter(trace, schedule, n - 1), trace[n - 1], schedule[n - 1], trace[n]);
    }
  }

  lemma RecordFits(l: Ledger, s: State, step: Step, s': State)
    requires Fits(l, s) && Next(s, step, s')
    ensures Fits(Recorded(l, s, step), s')
  {
    hide Numbered, Consistent, Recorded, HaveLeft, Next;
    NextKeeps(s, step, s');
    StaysNumbered(l, s, step);
    StaysMatched(l, s, step, s');
  }

  // ---------------------------------------------------------------------------
  // Orderly runs.

  ghost predicate Rises(tickets: seq<nat>) {
    forall i, j | 0 <= i < j < |tickets| :: tickets[i] < tickets[j]
  }

  /** What has left, what waits in the table and what a thread holds come in this order. */
  ghost predicate Tidy(l: Ledger) {
    && InOrder(l.left) && Rises(l.tickets)
    && (forall t | t in l.tickets :: t in l.left || Above(t, l.left))
    && (l.main.Some? ==> Above(l.main.value, l.left) && Above(l.main.value, l.tickets))
    && (l.heartbeat.Some? ==> Above(l.heartbeat.value, l.left) && Above(l.heartbeat.value, l.tickets))
  }

  lemma OrderGrows(left: seq<nat>, x: nat)
    requires InOrder(left) && (x in left || Above(x, left))
    ensures InOrder(left + [x])
  {
    var longer := left + [x];
    forall q | 0 <= q < |longer| ensures Repeats(longer, q) || Above(longer[q], longer[..q]) {
      if q < |left| {
        assert longer[..q] == left[..q];
        assert Repeats(left, q) || Above(left[q], left[..q]);
      } else {
        assert longer[..q] == left;
      }
    }
  }

  lemma PublishIsTidy(l: Ledger)
    requires Numbered(l) && Tidy(l) && l.main.None? && l.heartbeat.None? && NoneWaits(l)
    ensures Tidy(Departs(l, l.born).(born := l.born + 1))
  {
    OrderGrows(l.left, l.born);
  }

  lemma AboveMore(number: nat, others: seq<nat>, one: nat)
    ensures Above(number, others + [one]) <==> Above(number, others) && one < number
  {
    assert one in others + [one];
    assert forall x | x in others :: x in others + [one];
  }

  lemma AboveAll(number: nat, others: seq<nat>, i: nat)
    requires Above(number, others) && i < |others|
    ensures others[i] < number
  {
    assert others[i] in others;
  }

  lemma TicketsRise(l: Ledger, number: nat)
    requires Rises(l.tickets) && Above(number, l.tickets)
    ensures Rises(l.tickets + [number])
  {
    assert forall i | 0 <= i < |l.tickets| :: l.tickets[i] in l.tickets;
  }

  lemma MainCommitIsTidy(l: Ledger)
    requires Tidy(l) && l.main.Some? && (l.heartbeat.Some? ==> l.main.value < l.heartbeat.value)
    ensures Tidy(Commits(l, l.main.value, false).(main := None))
  {
    hide Above, Rises, InOrder;
    TicketsRise(l, l.main.value);
    if l.heartbeat.Some? {
      AboveMore(l.heartbeat.value, l.tickets, l.main.value);
    }
  }

  lemma HeartbeatCommitIsTidy(l: Ledger)
    requires Tidy(l) && l.heartbeat.Some? && (l.main.Some? ==> l.heartbeat.value < l.main.value)
    ensures Tidy(Commits(l, l.heartbeat.value, false).(heartbeat := None))
  {
    hide Above, Rises, InOrder;
    TicketsRise(l, l.heartbeat.value);
    if l.main.Some? {
      AboveMore(l.main.value, l.tickets, l.heartbeat.value);
    }
  }

  /** A row sent for the first time is younger than all that left, and older than all that follow. */
  lemma SendIsTidy(l: Ledger, n: nat)
    requires Tidy(l) && n < |l.tickets| && HaveLeft(l.tickets, l.left, n)
    ensures Tidy(Departs(l, l.tickets[n]))
  {
    hide InOrder, Above;
    var x := l.tickets[n];
    var left := l.left + [x];
    OrderGrows(l.left, x);
    forall t | t in l.tickets ensures t in left || Above(t, left) {
      var i :| 0 <= i < |l.tickets| && l.tickets[i] == t;
      AboveMore(t, l.left, x);
    }
    hide Rises, HaveLeft;
    if l.main.Some? { AboveAll(l.main.value, l.tickets, n); }
    if l.heartbeat.Some? { AboveAll(l.heartbeat.value, l.tickets, n); }
    if l.main.Some? { AboveMore(l.main.value, l.left, x); }
    if l.heartbeat.Some? { AboveMore(l.heartbeat.value, l.left, x); }
  }

  lemma StaysTidy(l: Ledger, s: State, step: Step)
    requires Fits(l, s) && Tidy(l) && Orderly(l, s, step)
    ensures Tidy(Recorded(l, s, step))
  {
    match step {
      case MainPublishes(_, ok) =>
        if s.main.None? {
          if ok { PublishIsTidy(l); } else { RefusalIsTidy(l); }
        }
      case HeartbeatPublishes(_, ok) =>
        if s.drainer.Idle? {
          if ok { PublishIsTidy(l); } else { RefusalIsTidy(l); }
        }
      case MainEnqueues(_, broken) => if l.main.Some? && !broken { MainCommitIsTidy(l); }
      case HeartbeatEnqueues(_, broken) => if l.heartbeat.Some? && !broken { HeartbeatCommitIsTidy(l); }
      case Sends(_) =>
        if s.drainer.Draining? && s.history.drained < |l.tickets| { SendIsTidy(l, s.history.drained); }
      case _ =>
    }
  }

  /** A refused message is the newest one. */
  lemma RefusalIsTidy(l: Ledger)
    requires Numbered(l) && Tidy(l)
    ensures Tidy(l.(main := Some(l.born), born := l.born + 1))
    ensures Tidy(l.(heartbeat := Some(l.born), born := l.born + 1))
  {
  }

  // ---------------------------------------------------------------------------
  // The first disorderly step: a message is stuck behind a newer one from then on.

  /** The newer message has left, or waits in front of the older one. */
  ghost predicate GoesFirst(tickets: seq<nat>, left: seq<nat>, newer: nat, older: nat) {
    newer in left || exists i :: Queued(tickets, newer, i) && NotAmong(tickets, older, i)
  }

  ghost predicate Queued(tickets: seq<nat>, number: nat, i: int) {
    0 <= i < |tickets| && tickets[i] == number
  }

  /** The number is not one of the first n. */
  ghost predicate NotAmong(tickets: seq<nat>, number: nat, n: int) {
    forall i | 0 <= i < n && i < |tickets| :: tickets[i] != number
  }

  ghost predicate StuckBehind(l: Ledger, newer: nat, older: nat) {
    older < newer && older < l.born && older !in l.left && GoesFirst(l.tickets, l.left, newer, older)
  }

  ghost predicate Spoiled(l: Ledger) {
    !InOrder(l.left) || exists newer, older :: StuckBehind(l, newer, older)
  }

  lemma DisorderStays(left: seq<nat>, left': seq<nat>)
    requires left <= left' && InOrder(left')
    ensures InOrder(left)
  {
    forall q | 0 <= q < |left| ensures Repeats(left, q) || Above(left[q], left[..q]) {
      assert left'[..q] == left[..q];
      assert Repeats(left', q) || Above(left'[q], left'[..q]);
    }
  }

  lemma LateDepartureDisorders(left: seq<nat>, newer: nat, older: nat)
    requires older < newer && newer in left && older !in left
    ensures !InOrder(left + [older])
  {
    var longer := left + [older];
    assert longer[..|left|] == left;
    assert !Repeats(longer, |left|) && !Above(longer[|left|], longer[..|left|]);
  }

  lemma StillFirst(tickets: seq<nat>, left: seq<nat>, newer: nat, older: nat, tickets': seq<nat>, left': seq<nat>)
    requires GoesFirst(tickets, left, newer, older) && tickets <= tickets' && left <= left'
    ensures GoesFirst(tickets', left', newer, older)
  {
    if newer !in left {
      var i :| Queued(tickets, newer, i) && NotAmong(tickets, older, i);
      assert Queued(tickets', newer, i) && NotAmong(tickets', older, i);
    }
  }

  /** When the older message is sent at last, the newer one has already left. */
  lemma StuckIsSentLate(l: Ledger, newer: nat, older: nat, n: nat)
    requires StuckBehind(l, newer, older) && n < |l.tickets| && l.tickets[n] == older
    requires HaveLeft(l.tickets, l.left, n)
    ensures !InOrder(l.left + [older])
  {
    forall i | Queued(l.tickets, newer, i) && NotAmong(l.tickets, older, i) ensures newer in l.left {
      assert i < n;
    }
    LateDepartureDisorders(l.left, newer, older);
  }

  lemma StuckStays(l: Ledger, s: State, step: Step, newer: nat, older: nat)
    requires Fits(l, s) && StuckBehind(l, newer, older)
    ensures Spoiled(Recorded(l, s, step))
  {
    var l' := Recorded(l, s, step);
    hide InOrder, Consistent, GoesFirst;
    StillFirst(l.tickets, l.left, newer, older, l'.tickets, l'.left);
    if older in l'.left {
      StuckIsSentLate(l, newer, older, s.history.drained);
    } else {
      assert StuckBehind(l', newer, older);
    }
  }

  lemma StaysSpoiled(l: Ledger, s: State, step: Step)
    requires Fits(l, s) && Spoiled(l)
    ensures Spoiled(Recorded(l, s, step))
  {
    var l' := Recorded(l, s, step);
    if InOrder(l'.left) {
      DisorderStays(l.left, l'.left);
      var newer, older :| StuckBehind(l, newer, older);
      StuckStays(l, s, step, newer, older);
    }
  }

  lemma CommitOvertakes(l: Ledger, l': Ledger, newer: nat, older: nat)
    requires Holds(l, Some(older)) && older < newer
    requires l' == l.(tickets := l.tickets + [newer], main := l'.main, heartbeat := l'.heartbeat)
    ensures Spoiled(l')
  {
    hide InOrder;
    assert Queued(l'.tickets, newer, |l.tickets|) && NotAmong(l'.tickets, older, |l.tickets|);
    assert StuckBehind(l', newer, older);
  }

  lemma PublishOvertakes(l: Ledger, other: Option<nat>)
    requires Numbered(l) && (other == l.main || other == l.heartbeat)
    requires other.Some? || !NoneWaits(l)
    ensures Spoiled(Departs(l, l.born).(born := l.born + 1))
  {
    var older :| older < l.born && older !in l.left && (other == Some(older) || older in l.tickets);
    assert StuckBehind(Departs(l, l.born).(born := l.born + 1), l.born, older);
  }

  /** A disorderly step leaves somebody stuck. */
  lemma DisorderSpoils(l: Ledger, s: State, step: Step)
    requires Fits(l, s) && !Orderly(l, s, step)
    ensures Spoiled(Recorded(l, s, step))
  {
    hide Spoiled, Consistent, Matches, NoneWaits;
    var l' := Recorded(l, s, step);
    match step {
      case MainPublishes(_, _) => PublishOvertakes(l, l.heartbeat);
      case HeartbeatPublishes(_, _) => PublishOvertakes(l, l.main);
      case MainEnqueues(_, _) => CommitOvertakes(l, l', l.main.value, l.heartbeat.value);
      case HeartbeatEnqueues(_, _) => CommitOvertakes(l, l', l.heartbeat.value, l.main.value);
      case _ =>
    }
  }

  // ---------------------------------------------------------------------------
  // Runs.

  ghost predicate OrderlyUpTo(trace: seq<State>, schedule: seq<Step>, n: nat)
    requires n <= |schedule| < |trace|
  {
    forall i | 0 <= i < n :: OrderlyAt(trace, schedule, i)
  }

  lemma {:induction false} OrderlyRunsAreTidy(trace: seq<State>, schedule: seq<Step>, n: nat)
    requires IsRun(Next, trace, schedule) && trace[0] == EMPTY && n <= |schedule|
    requires OrderlyUpTo(trace, schedule, n)
    ensures Tidy(LedgerAfter(trace, schedule, n))
  {
    if n == 0 {
    } else {
      assert OrderlyUpTo(trace, schedule, n - 1) && OrderlyAt(trace, schedule, n - 1);
      hide Tidy, Fits, Recorded, Orderly, OrderlyUpTo, IsRun, Next;
      OrderlyRunsAreTidy(trace, schedule, n - 1);
      RunsFit(trace, schedule, n - 1);
      StaysTidy(LedgerAfter(trace, schedule, n - 1), trace[n - 1], schedule[n - 1]);
    }
  }

  /** As long as every step is orderly, messages leave in the order in which they were created. */
  lemma OrderlyRunsKeepOrder(trace: seq<State>, schedule: seq<Step>)
    requires IsRun(Next, trace, schedule) && trace[0] == EMPTY
    requires OrderlyUpTo(trace, schedule, |schedule|)
    ensures InOrder(LedgerAfter(trace, schedule, |schedule|).left)
  {
    OrderlyRunsAreTidy(trace, schedule, |schedule|);
  }

  lemma {:induction false} DisorderRemains(trace: seq<State>, schedule: seq<Step>, i: nat, n: nat)
    requires IsRun(Next, trace, schedule) && trace[0] == EMPTY && i < n <= |schedule|
    requires !OrderlyAt(trace, schedule, i)
    ensures Spoiled(LedgerAfter(trace, schedule, n))
  {
    hide Spoiled, Fits, Recorded, Orderly;
    RunsFit(trace, schedule, n - 1);
    if n == i + 1 {
      DisorderSpoils(LedgerAfter(trace, schedule, i), trace[i], schedule[i]);
    } else {
      DisorderRemains(trace, schedule, i, n - 1);
      StaysSpoiled(LedgerAfter(trace, schedule, n - 1), trace[n - 1], schedule[n - 1]);
    }
  }

  /** Every message that was created has left. */
  ghost predicate AllLeft(l: Ledger) {
    forall x: nat | x < l.born :: x in l.left
  }

  /**
   In a run at whose end every message has left, they left in the order in which they were
   created exactly if every step was orderly.
   */
  lemma OrderIsKeptIff(trace: seq<State>, schedule: seq<Step>)
    requires IsRun(Next, trace, schedule) && trace[0] == EMPTY
    requires AllLeft(LedgerAfter(trace, schedule, |schedule|))
    ensures InOrder(LedgerAfter(trace, schedule, |schedule|).left)
            <==> OrderlyUpTo(trace, schedule, |schedule|)
  {
    if i :| 0 <= i < |schedule| && !OrderlyAt(trace, schedule, i) {
      DisorderRemains(trace, schedule, i, |schedule|);
    } else {
      OrderlyRunsKeepOrder(trace, schedule);
    }
  }

  // ---------------------------------------------------------------------------
  // The main loop publishes directly while an older message waits in the table.

  function OvertakingSchedule(older: Message, newer: Message): seq<Step> {
    [MainPublishes(older, false), MainEnqueues(0, false), MainPublishes(newer, true), Fetches(true, false), Sends(true)]
  }

  function OvertakingTrace(older: Message): seq<State> {
    var row, h := PendingEvent(1, older.topic, older.payload), Refuse(EMPTY.history, older);
    var waiting := State([row], None, Idle, Settle(h, older, false));
    [EMPTY, State([], Some(older), Idle, h), waiting, waiting, waiting.(drainer := Draining([row])),
     State([row], None, Deleting(row, []), Sent(waiting.history))]
  }

  lemma OvertakingIsRun(older: Message, newer: Message)
    ensures IsRun(Next, OvertakingTrace(older), OvertakingSchedule(older, newer))
  {
    var trace, schedule := OvertakingTrace(older), OvertakingSchedule(older, newer);
    var rows := trace[3].rows;
    assert rows[..Min(BATCH, 1)] == rows && rows[1..] == [];
    assert Goes(Next, trace, schedule, 0);
    assert Goes(Next, trace, schedule, 1);
    assert Goes(Next, trace, schedule, 2);
    assert Goes(Next, trace, schedule, 3);
    assert Goes(Next, trace, schedule, 4);
  }

  lemma OvertakingLedgers(older: Message, newer: Message)
    ensures var trace, schedule := OvertakingTrace(older), OvertakingSchedule(older, newer);
            && LedgerAfter(trace, schedule, 2) == Ledger(1, None, None, [0], [])
            && LedgerAfter(trace, schedule, 5) == Ledger(2, None, None, [0], [1, 0])
  {
    var trace, schedule := OvertakingTrace(older), OvertakingSchedule(older, newer);
    assert LedgerAfter(trace, schedule, 1) == Ledger(1, Some(0), None, [], []);
    assert LedgerAfter(trace, schedule, 3) == Ledger(2, None, None, [0], [1]);
    assert LedgerAfter(trace, schedule, 4) == Ledger(2, None, None, [0], [1]);
  }

  /** A run at whose end both messages have left, the newer one first. */
  lemma NewerOvertakes(older: Message, newer: Message)
    ensures var trace, schedule := OvertakingTrace(older), OvertakingSchedule(older, newer);
            && IsRun(Next, trace, schedule) && trace[0] == EMPTY && AllLeft(LedgerAfter(trace, schedule, 5))
            && LedgerAfter(trace, schedule, 5).left == [1, 0] && !InOrder([1, 0])
            && !OrderlyAt(trace, schedule, 2)
  {
    OvertakingIsRun(older, newer);
    OvertakingLedgers(older, newer);
    LateDepartureDisorders([1], 1, 0);
    assert [1] + [0] == [1, 0];
  }
}
