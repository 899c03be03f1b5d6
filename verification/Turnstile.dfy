/**
 The turnstile: callers of grant_access extend open_until_, and the PWM thread drives the
 servo line. Every method is one atomic step of one thread; `Run` interleaves them in any
 order, with the clock advancing by any amount between steps.
 */
module Turnstiles {
  import opened Basics

  /** kCloseHoldMs: how long the closed angle is commanded before the line is dropped. */
  const CLOSE_HOLD: int := 500 * MILLISECOND

  /** The maximum of grant time + hold over all grants, or the clock's epoch. */
  function OpenUntil(grants: seq<Time>, hold: int): int {
    if grants == [] then 0 else
    Max(OpenUntil(grants[..|grants| - 1], hold), grants[|grants| - 1] + hold)
  }

  /** t is the end of grant k's window. */
  ghost predicate Ends(grants: seq<Time>, hold: int, k: int, t: int) {
    0 <= k < |grants| && t == grants[k] + hold
  }

  ghost predicate EndsSomeWindow(grants: seq<Time>, hold: int, t: int) {
    t == 0 || exists k :: Ends(grants, hold, k, t)
  }

  /** t lies inside [g, g + hold), where g is grant k. */
  ghost predicate Covers(grants: seq<Time>, hold: int, k: int, t: Time) {
    0 <= k < |grants| && grants[k] <= t < grants[k] + hold
  }

  ghost predicate InSomeWindow(grants: seq<Time>, hold: int, t: Time) {
    exists k :: Covers(grants, hold, k, t)
  }

  /** OpenUntil is that maximum: an upper bound, and attained. */
  lemma {:induction false} OpenUntilIsMaximum(grants: seq<Time>, hold: int)
    ensures forall k | 0 <= k < |grants| :: grants[k] + hold <= OpenUntil(grants, hold)
    ensures EndsSomeWindow(grants, hold, OpenUntil(grants, hold))
  {
    if grants == [] {
    } else {
      var n := |grants| - 1;
      var front := grants[..n];
      OpenUntilIsMaximum(front, hold);
      if OpenUntil(grants, hold) != OpenUntil(front, hold) {
        assert Ends(grants, hold, n, OpenUntil(grants, hold));
      } else if OpenUntil(front, hold) != 0 {
        var k :| Ends(front, hold, k, OpenUntil(front, hold));
        assert Ends(grants, hold, k, OpenUntil(front, hold));
      }
    }
  }

  ghost predicate AllInSomeWindow(grants: seq<Time>, hold: int, ts: seq<Time>) {
    forall i | 0 <= i < |ts| :: InSomeWindow(grants, hold, ts[i])
  }

  ghost predicate AllBefore(ts: seq<Time>, t: Time) {
    forall i | 0 <= i < |ts| :: ts[i] <= t
  }

  /** A later grant takes nothing away. */
  lemma WindowsStay(grants: seq<Time>, g: Time, hold: int, end: int, pulses: seq<Time>)
    requires EndsSomeWindow(grants, hold, end) && AllInSomeWindow(grants, hold, pulses)
    ensures EndsSomeWindow(grants + [g], hold, end) && AllInSomeWindow(grants + [g], hold, pulses)
  {
    if end != 0 {
      var k :| Ends(grants, hold, k, end);
      assert Ends(grants + [g], hold, k, end);
    }
    forall i | 0 <= i < |pulses| ensures InSomeWindow(grants + [g], hold, pulses[i]) {
      assert InSomeWindow(grants, hold, pulses[i]);
      var k :| Covers(grants, hold, k, pulses[i]);
      assert Covers(grants + [g], hold, k, pulses[i]);
    }
  }

  /** Before the end of some window, after every grant: inside that window. */
  lemma PulseIsLicensed(grants: seq<Time>, hold: int, end: int, pulses: seq<Time>, now: Time)
    requires EndsSomeWindow(grants, hold, end) && now < end && AllBefore(grants, now)
    requires AllInSomeWindow(grants, hold, pulses)
    ensures InSomeWindow(grants, hold, now) && AllInSomeWindow(grants, hold, pulses + [now])
  {
    var k :| Ends(grants, hold, k, end);
    assert Covers(grants, hold, k, now);
  }

  lemma LaterIsBefore(ts: seq<Time>, t: Time, now: Time)
    requires AllBefore(ts, t) && t <= now
    ensures AllBefore(ts, now) && AllBefore(ts + [now], now) && AllBefore(ts + [t], now)
  {
  }

  lemma OneMoreGrant(grants: seq<Time>, g: Time, hold: int)
    ensures OpenUntil(grants + [g], hold) == Max(OpenUntil(grants, hold), g + hold)
  {
    assert (grants + [g])[..|grants|] == grants;
  }

  /** Where the PWM thread stands. */
  datatype Place =
    | CloseBegin   // about to enter emit_pulses_for(closed)
    | CloseCheck   // its loop condition
    | CloseRise
    | CloseFall
    | Drop         // set_value(INACTIVE) after the close phase
    | Top          // while (!stop_)
    | Waiting      // in cv_.wait
    | Woken        // if (stop_) break
    | OpenCheck    // inner loop condition and clock reading
    | OpenRise
    | OpenFall
    | Reread       // target = open_until_, under the lock
    | Exited

  /** The thread's next place; `past` says that the deadline or target it compares with has passed. */
  function After(p: Place, stop: bool, past: bool): Place {
    match p
    case CloseBegin => CloseCheck
    case CloseCheck => if stop || past then Drop else CloseRise
    case CloseRise => CloseFall
    case CloseFall => CloseCheck
    case Drop => Top
    case Top => if stop then Exited else Waiting
    case Waiting => if stop || !past then Woken else Waiting
    case Woken => if stop then Exited else OpenCheck
    case OpenCheck => if stop || past then CloseBegin else OpenRise
    case OpenRise => OpenFall
    case OpenFall => Reread
    case Reread => OpenCheck
    case Exited => Exited
  }

  datatype Action = GrantReads(dt: nat) | GrantStores(g: Time) | Works(dt: nat) | Stops

  /** What does not depend on the PWM thread. */
  datatype Book = Book(clock: Time, stop: bool, grants: seq<Time>, callers: multiset<Time>)

  /** A caller that got the lock has its grant, and no one else. */
  function Entry(b: Book, action: Action): Book {
    match action
    case GrantReads(dt) => b.(clock := b.clock + dt, callers := b.callers + multiset{b.clock + dt})
    case GrantStores(g) =>
      if g in b.callers then b.(grants := b.grants + [g], callers := b.callers - multiset{g}) else b
    case Works(dt) => b.(clock := b.clock + dt)
    case Stops => b.(stop := true)
  }

  function Entries(b: Book, schedule: seq<Action>): Book {
    if schedule == [] then b else Entry(Entries(b, schedule[..|schedule| - 1]), schedule[|schedule| - 1])
  }

  class Turnstile {
    const hold: int
    var openUntil: int
    var stop: bool
    // The PWM thread.
    var place: Place
    var target: int
    var deadline: int
    var high: bool
    // Callers between reading the clock and taking the lock.
    var callers: multiset<Time>
    // History.
    var clock: Time   // latest reading of the steady clock
    ghost var grants: seq<Time>
    ghost var openPulses: seq<Time>
    ghost var closeBegan: Time

    /** A full close phase has run since the last open pulse. */
    ghost predicate Closed()
      reads this`openPulses, this`closeBegan, this`clock
    {
      AllBefore(openPulses, closeBegan) && closeBegan + CLOSE_HOLD <= clock
    }

    /** The window, its callers and the clock. */
    ghost predicate WindowValid()
      reads this`openUntil, this`grants, this`callers, this`clock, this`target
    {
      && openUntil == OpenUntil(grants, hold)
      && AllBefore(grants, clock)
      && (forall c | c in callers :: c <= clock)
      && EndsSomeWindow(grants, hold, target)
    }

    ghost predicate PulsesValid()
      reads this`grants, this`openPulses, this`clock
    {
      && AllBefore(openPulses, clock)
      && AllInSomeWindow(grants, hold, openPulses)
    }

    /** The close phase and the line. */
    ghost predicate CloseValid()
      reads this`place, this`high, this`deadline, this`stop, this`openPulses, this`closeBegan, this`clock
    {
      && (high <==> place.CloseFall? || place.OpenFall?)
      && closeBegan <= clock
      && (place.CloseCheck? || place.CloseRise? || place.CloseFall? ==>
            deadline == closeBegan + CLOSE_HOLD && AllBefore(openPulses, closeBegan))
      && (place.Drop? || place.Top? || place.Waiting? ==> stop || Closed())
    }

    ghost function Booked(): Book
      reads this`clock, this`stop, this`grants, this`callers
    {
      Book(clock, stop, grants, callers)
    }

    ghost predicate Valid()
      reads this
    {
      WindowValid() && PulsesValid() && CloseValid()
    }

    constructor (hold: int)
      ensures Valid() && this.hold == hold && openUntil == 0 && grants == [] && callers == multiset{} && !stop
      ensures place.CloseBegin? && !high && openPulses == []
    {
      this.hold := hold;
      openUntil, target, deadline, high, stop, callers := 0, 0, 0, false, false, multiset{};
      place := CloseBegin;
      clock, grants, openPulses, closeBegan := 0, [], [], 0;
    }

    /** grant_access, before the lock: read the clock. */
    method GrantReads(now: Time)
      requires Valid() && clock <= now
      modifies this`callers, this`clock
      ensures Valid() && Booked() == old(Booked().(clock := now, callers := callers + multiset{now}))
    {
      callers := callers + multiset{now};
      clock := now;
    }

    /** grant_access, under the lock: only ever extend the window. */
    method GrantStores(g: Time)
      requires Valid() && g in callers
      modifies this`callers, this`openUntil, this`grants
      ensures Valid()
      ensures Booked() == old(Booked().(grants := grants + [g], callers := callers - multiset{g}))
      ensures openUntil == Max(old(openUntil), g + hold)
    {
      WindowsStay(grants, g, hold, target, openPulses);
      OneMoreGrant(grants, g, hold);
      hide EndsSomeWindow, AllInSomeWindow, OpenUntil, CloseValid;
      var newTarget := g + hold;
      if newTarget > openUntil {
        openUntil := newTarget;
      }
      grants := grants + [g];
      callers := callers - multiset{g};
    }

    method Stop()
      requires Valid()
      modifies this`stop
      ensures Valid() && Booked() == old(Booked().(stop := true))
    {
      stop := true;
    }

    /** What the thread compares the clock with. */
    ghost function Limit(): int
      reads this`place, this`openUntil, this`target, this`closeBegan
    {
      if place.Waiting? then openUntil else if place.OpenCheck? then target else closeBegan + CLOSE_HOLD
    }

    /** The worker is in the close phase. */
    predicate Closing()
      reads this`place
    {
      place.CloseBegin? || place.CloseCheck? || place.CloseRise? || place.CloseFall?
    }

    /** The worker is at the open angle. */
    predicate Pulsing()
      reads this`place
    {
      place.OpenCheck? || place.OpenRise? || place.OpenFall? || place.Reread?
    }

    /** One step inside emit_pulses_for with the closed angle. */
    method EmitClosePulses(now: Time)
      requires Valid() && clock <= now
      requires Closing()
      modifies this`place, this`deadline, this`high, this`clock, this`closeBegan
      ensures Valid() && clock == now
      ensures place == After(old(place), stop, now >= old(Limit()))
      // It ends on the stop flag or after the full hold, not before.
      ensures old(place).CloseCheck? ==> (place.Drop? <==> stop || now >= old(closeBegan) + CLOSE_HOLD)
      ensures closeBegan == if old(place).CloseBegin? then now else old(closeBegan)
    {
      LaterIsBefore(grants, clock, now);
      LaterIsBefore(openPulses, clock, now);
      hide AllBefore, AllInSomeWindow, EndsSomeWindow, OpenUntil;
      clock := now;
      match place {
        case CloseBegin =>
          closeBegan := now;
          deadline := now + CLOSE_HOLD;
          place := CloseCheck;
        case CloseCheck =>
          place := if !stop && now < deadline then CloseRise else Drop;
        case CloseRise =>
          high, place := true, CloseFall;
        case CloseFall =>
          high, place := false, CloseCheck;
      }
    }

    /** The inner loop's condition and its test of the clock. */
    method BeginPulse()
      requires Valid() && place.OpenCheck? && AllBefore(grants, clock) && AllBefore(openPulses, clock)
      modifies this`place, this`openPulses
      ensures Valid() && place == After(OpenCheck, stop, clock >= target)
      ensures if place.OpenRise? then openPulses == old(openPulses) + [clock] && !stop && InSomeWindow(grants, hold, clock)
              else openPulses == old(openPulses)
    {
      if stop || clock >= target {
        place := CloseBegin;
      } else {
        PulseIsLicensed(grants, hold, target, openPulses, clock);
        LaterIsBefore(openPulses, clock, clock);
        hide AllBefore, AllInSomeWindow, EndsSomeWindow, OpenUntil;
        openPulses := openPulses + [clock];
        place := OpenRise;
      }
    }

    /** One step of the inner loop with the open angle. */
    method EmitOpenPulses(now: Time)
      requires Valid() && clock <= now
      requires Pulsing()
      modifies this`place, this`target, this`high, this`clock, this`openPulses
      ensures Valid() && clock == now
      ensures place == After(old(place), stop, now >= old(Limit()))
      // The open angle is given up when the target last read has passed, and the target is
      // read again after every pulse.
      ensures old(place).OpenCheck? ==> (place.CloseBegin? <==> stop || now >= old(target))
      ensures target == if old(place).Reread? then openUntil else old(target)
      // A pulse is licensed by a fresh clock reading inside some granted window.
      ensures if old(place).OpenCheck? && place.OpenRise?
              then openPulses == old(openPulses) + [now] && !stop && InSomeWindow(grants, hold, now)
              else openPulses == old(openPulses)
    {
      LaterIsBefore(grants, clock, now);
      LaterIsBefore(openPulses, clock, now);
      hide AllBefore, AllInSomeWindow, EndsSomeWindow, OpenUntil;
      clock := now;
      match place {
        case OpenCheck =>
          BeginPulse();
        case OpenRise =>
          high, place := true, OpenFall;
        case OpenFall =>
          high, place := false, Reread;
        case Reread =>
          OpenUntilIsMaximum(grants, hold);
          target, place := openUntil, OpenCheck;
      }
    }

    /** One step between the pulses: drop the line, test the stop flag, wait. */
    method Await(now: Time)
      requires Valid() && clock <= now
      requires place.Drop? || place.Top? || place.Waiting? || place.Woken?
      modifies this`place, this`target, this`high, this`clock
      ensures Valid() && clock == now
      ensures place == After(old(place), stop, now >= old(Limit()))
      // It leaves the wait with the target of an open window, unless it must stop.
      ensures old(place).Waiting? ==> (place.Woken? <==> stop || now < openUntil)
      ensures target == if old(place).Waiting? && place.Woken? then openUntil else old(target)
    {
      LaterIsBefore(grants, clock, now);
      LaterIsBefore(openPulses, clock, now);
      OpenUntilIsMaximum(grants, hold);
      hide AllBefore, AllInSomeWindow, EndsSomeWindow, OpenUntil;
      clock := now;
      match place {
        case Drop =>
          high, place := false, Top;
        case Top =>
          place := if stop then Exited else Waiting;
        case Waiting =>
          if stop || now < openUntil {
            target, place := openUntil, Woken;
          }
        case Woken =>
          place := if stop then Exited else OpenCheck;
      }
    }

    /** One step of pwm_loop. */
    method Work(now: Time)
      requires Valid() && clock <= now
      modifies this`place, this`target, this`deadline, this`high, this`clock, this`openPulses, this`closeBegan
      ensures Valid() && Booked() == old(Booked().(clock := now))
      ensures place == After(old(place), stop, now >= old(Limit()))
      ensures target == if old(place).Reread? || (old(place).Waiting? && place.Woken?) then openUntil else old(target)
      ensures openPulses == old(openPulses) + if old(place).OpenCheck? && place.OpenRise? then [now] else []
      ensures closeBegan == if old(place).CloseBegin? then now else old(closeBegan)
    {
      hide Valid, After, Limit, OpenUntil;
      if place.Exited? {
        Linger(now);
      } else if Pulsing() {
        EmitOpenPulses(now);
      } else if Closing() {
        EmitClosePulses(now);
      } else {
        Await(now);
      }
    }

    /** Time passes after the thread has ended. */
    method Linger(now: Time)
      requires Valid() && clock <= now
      modifies this`clock
      ensures Valid() && clock == now && (place.Exited? ==> place == After(place, stop, now >= Limit()))
    {
      clock := now;
    }

    /** One step of a caller. */
    method Grant(action: Action)
      requires Valid() && (action.GrantReads? || action.GrantStores?)
      modifies this`callers, this`clock, this`openUntil, this`grants
      ensures Valid() && Booked() == Entry(old(Booked()), action) && openUntil >= old(openUntil)
    {
      hide Valid;
      match action {
        case GrantReads(dt) => GrantReads(clock + dt);
        case GrantStores(g) => if g in callers { GrantStores(g); }
      }
    }

    /** One step of anybody. */
    method Take(action: Action)
      requires Valid()
      modifies this
      ensures Valid() && Booked() == Entry(old(Booked()), action)
    {
      hide Valid, After;
      match action {
        case GrantReads(_) | GrantStores(_) => Grant(action);
        case Works(dt) => Work(clock + dt);
        case Stops => Stop();
      }
    }

    /** Any interleaving of callers, PWM thread and shutdown. */
    method Run(schedule: seq<Action>)
      requires Valid()
      modifies this
      ensures Valid() && Booked() == Entries(old(Booked()), schedule)
      ensures openUntil == OpenUntil(grants, hold)
      ensures AllInSomeWindow(grants, hold, openPulses)
      ensures place.Waiting? && !stop ==> Closed() && !high
    {
      for n := 0 to |schedule|
        invariant Valid() && Booked() == Entries(old(Booked()), schedule[..n])
      {
        assert schedule[..n + 1][..n] == schedule[..n];
        Take(schedule[n]);
      }
      assert schedule[..|schedule|] == schedule;
    }

    // -------------------------------------------------------------------------
    // What happens at last, not only what never happens.

    /** A waiting worker that is left alone opens while the window lasts. */
    method Opens(first: Time, second: Time, third: Time, fourth: Time)
      requires Valid() && place.Waiting? && !stop
      requires clock <= first <= second <= third <= fourth < openUntil
      modifies this
      ensures Valid() && Booked() == old(Booked().(clock := fourth)) && openUntil == old(openUntil)
      ensures high && openPulses == old(openPulses) + [third] && InSomeWindow(grants, hold, third)
    {
      Work(first);
      Work(second);
      Work(third);
      assert openPulses[|old(openPulses)|] == third;
      Work(fourth);
    }

    /** The pulses whose end the worker has seen, reading the window's end again. */
    ghost function Completed(): int
      reads this`place, this`openPulses
    {
      |openPulses| - if place.OpenCheck? then 0 else 1
    }

    /** The steps that went into the pulses so far, four each. */
    ghost function PulseSteps(): int
      reads this`place, this`openPulses
    {
      4 * |openPulses| - match place
                         case OpenRise => 3
                         case OpenFall => 2
                         case Reread => 1
                         case _ => 0
    }

    /** One step of the worker before the window's end that it read last. */
    method GoesOn(now: Time)
      requires Valid() && Pulsing() && !stop && clock <= now < target
      modifies this`place, this`target, this`deadline, this`high, this`clock, this`openPulses, this`closeBegan
      ensures Valid() && Pulsing() && Booked() == old(Booked().(clock := now)) && target >= old(target)
      ensures PulseSteps() == old(PulseSteps()) + 1 && Completed() >= old(Completed())
      ensures target == openUntil || (target == old(target) && Completed() == old(Completed()))
    {
      TargetIsRead();
      hide WindowValid, PulsesValid, CloseValid;
      Work(now);
    }

    /** The same for a step of a caller or of the worker. */
    method Proceeds(action: Action)
      requires Valid() && Pulsing() && !stop && !action.Stops? && Entry(Booked(), action).clock < target
      modifies this
      ensures Valid() && Pulsing() && Booked() == Entry(old(Booked()), action) && openUntil >= old(openUntil)
      ensures PulseSteps() == old(PulseSteps()) + (if action.Works? then 1 else 0) && Completed() >= old(Completed())
      ensures target >= old(target)
      ensures target == openUntil || (target == old(target) && Completed() == old(Completed()))
    {
      hide Valid, PulseSteps, Completed, Pulsing;
      match action {
        case Works(dt) => GoesOn(clock + dt);
        case GrantReads(_) | GrantStores(_) => Grant(action);
      }
    }

    /**
     As long as the clock stays before the window's end that the worker read last, it goes on
     pulsing: every four of its steps make a pulse, and read the end of a window extended
     meanwhile.
     */
    method KeepsOpen(schedule: seq<Action>)
      requires Valid() && Pulsing() && !stop && Stops !in schedule
      requires Entries(Booked(), schedule).clock < target
      modifies this
      ensures Valid() && Pulsing() && !stop && Booked() == Entries(old(Booked()), schedule)
      ensures PulseSteps() == old(PulseSteps()) + WorksIn(schedule)
      ensures 4 * (|openPulses| - |old(openPulses)|) >= WorksIn(schedule) - 3
      ensures target >= old(target) && (WorksIn(schedule) >= 4 ==> target >= old(openUntil))
    {
      ghost var before := Booked();
      StepsToPulses();
      assert Entries(before, []) == before && WorksIn([]) == 0;
      hide Valid, PulseSteps, Completed, Pulsing, Entries, WorksIn;
      assert schedule[..0] == [];
      for n := 0 to |schedule|
        invariant Valid() && Pulsing() && !stop && Booked() == Entries(before, schedule[..n])
        invariant PulseSteps() == old(PulseSteps()) + WorksIn(schedule[..n])
        invariant target >= old(target) && openUntil >= old(openUntil)
        invariant Completed() >= old(Completed())
        invariant Completed() > old(Completed()) ==> target >= old(openUntil)
      {
        assert schedule[n] in schedule;
        OneMoreAction(before, schedule, n);
        ClockGoesOn(before, schedule, n + 1);
        hide Entry;
        Proceeds(schedule[n]);
      }
      assert schedule[..|schedule|] == schedule;
      StepsToPulses();
    }

    lemma StepsToPulses()
      ensures 4 * Completed() <= PulseSteps() <= 4 * Completed() + 4
      ensures Pulsing() ==> PulseSteps() <= 4 * Completed() + 3
      ensures 4 * |openPulses| - 3 <= PulseSteps() <= 4 * |openPulses|
    {
    }

    lemma TargetIsRead()
      requires Valid()
      ensures target <= Max(openUntil, 0)
    {
      OpenUntilIsMaximum(grants, hold);
    }

    /**
     A grant that is stored after the window's end was read, and before a check that comes
     after that end: the worker turns to the closed angle inside a granted window.
     */
    method LateExtensionCloses(g: Time, now: Time)
      requires Valid() && place.OpenCheck? && !stop && g in callers
      requires clock <= now && target <= now < g + hold
      modifies this
      ensures Valid() && place.CloseBegin? && clock == now < openUntil && InSomeWindow(grants, hold, now)
    {
      GrantStores(g);
      Work(now);
      assert g <= now;
      assert Covers(grants, hold, |grants| - 1, now);
    }

    /** What is left of the window, or of the close phase. */
    ghost function Left(): int
      reads this
    {
      match place
      case Woken | OpenCheck | OpenRise | OpenFall | Reread => Max(0, Max(openUntil, target) - clock)
      case CloseCheck | CloseRise | CloseFall => Max(0, closeBegan + CLOSE_HOLD - clock)
      case _ => 0
    }

    ghost function Stage(): int
      reads this
    {
      match place
      case Woken | OpenCheck | OpenRise | OpenFall | Reread => 2
      case CloseBegin => 1
      case _ => 0
    }

    ghost function Phase(): int
      reads this
    {
      match place
      case Woken | CloseRise => 4
      case OpenRise | CloseFall => 3
      case OpenFall | CloseCheck => 2
      case Reread | Drop => 1
      case Top | OpenCheck => 0
      case _ => -1
    }

    /**
     Left alone with a clock that goes on, the worker comes to rest from wherever it stands:
     it waits with the line low, behind a full close phase.
     */
    method Rests(tick: nat)
      requires Valid() && !place.Exited? && !stop && tick > 0
      modifies this
      ensures Valid() && place.Waiting? && !high && Closed() && openUntil == old(openUntil) && grants == old(grants)
    {
      while !place.Waiting?
        invariant Valid() && !place.Exited? && !stop && openUntil == old(openUntil) && grants == old(grants)
        decreases Stage(), Left(), Phase() + 1
      {
        Work(clock + tick);
      }
    }
  }

  function WorksIn(schedule: seq<Action>): nat {
    if schedule == [] then 0 else
    WorksIn(schedule[..|schedule| - 1]) + if schedule[|schedule| - 1].Works? then 1 else 0
  }

  lemma OneMoreAction(b: Book, schedule: seq<Action>, n: nat)
    requires n < |schedule|
    ensures Entries(b, schedule[..n + 1]) == Entry(Entries(b, schedule[..n]), schedule[n])
    ensures WorksIn(schedule[..n + 1]) == WorksIn(schedule[..n]) + if schedule[n].Works? then 1 else 0
  {
    assert schedule[..n + 1][..n] == schedule[..n];
  }

  lemma {:induction false} ClockGoesOn(b: Book, schedule: seq<Action>, n: nat)
    requires n <= |schedule|
    ensures Entries(b, schedule[..n]).clock <= Entries(b, schedule).clock
  {
    if n == |schedule| {
      assert schedule[..n] == schedule;
    } else {
      var front, last := schedule[..|schedule| - 1], schedule[|schedule| - 1];
      assert Entries(b, schedule) == Entry(Entries(b, front), last);
      hide Entries;
      ClockGoesOn(b, front, n);
      assert front[..n] == schedule[..n];
    }
  }
}
