/**
 The status LED: callers arm a colour with a deadline, the worker thread writes the three
 lines one by one. Every method is one atomic step; `Run` interleaves them in any order.
 */
module RgbLeds {
  import opened Basics

  datatype Colour = Colour(r: bool, g: bool, b: bool)

  const OFF := Colour(false, false, false)

  /** Where the worker stands. `next` is the line write_channels writes next. */
  datatype Place =
    | Top                 // while (!stop_)
    | Waiting             // cv_.wait
    | Showing(next: nat)  // write_channels(r, g, b)
    | Holding             // cv_.wait_until
    | Clearing(next: nat) // write_channels off after the deadline
    | Leaving(next: nat)  // write_channels off after the loop
    | Exited

  datatype Action = Arms(colour: Colour, age: nat, holdMs: int) | Works(dt: nat) | Stops

  /** The colours armed by a schedule, in order. */
  function Armed(schedule: seq<Action>): seq<Colour> {
    if schedule == [] then [] else
    var last := schedule[|schedule| - 1];
    Armed(schedule[..|schedule| - 1]) + if last.Arms? then [last.colour] else []
  }

  class RgbLed {
    const activeHigh: bool
    // Shared under the mutex.
    var target: Colour
    var offAt: int
    var dirty: bool
    var stop: bool
    // The worker.
    var place: Place
    var shown: Colour      // its local r, g, b
    var deadline: int
    // The lines, as electrical levels.
    var lineR: bool
    var lineG: bool
    var lineB: bool
    var clock: Time
    // History: every colour armed, how many of them the worker has taken over, and which
    // arms were on the lines when the worker began to hold.
    ghost var arms: seq<Colour>
    ghost var taken: nat
    ghost var displayed: set<nat>

    /** The colour one sees: a channel is lit when its line has the active level. */
    function Lit(): Colour
      reads this
    {
      Colour(lineR == activeHigh, lineG == activeHigh, lineB == activeHigh)
    }

    /** The first n channels already have colour c. */
    predicate Written(c: Colour, n: nat)
      reads this
    {
      (n > 0 ==> Lit().r == c.r) && (n > 1 ==> Lit().g == c.g) && (n > 2 ==> Lit().b == c.b)
    }

    /** An arm is settled once it was displayed or a later arm replaced it. */
    ghost predicate Settled(k: nat)
      reads this
    {
      k in displayed || k + 1 < |arms|
    }

    ghost predicate Valid()
      reads this
    {
      && taken <= |arms|
      && (dirty <==> taken < |arms|)
      && (arms != [] ==> target == arms[|arms| - 1])
      && (taken > 0 ==> shown == arms[taken - 1])
      && (forall k | k in displayed :: k < taken)
      && match place {
           case Top => dirty || (Lit() == OFF && LastTakenDisplayed())
           case Waiting => dirty || (Lit() == OFF && LastTakenDisplayed())
           case Showing(n) => n <= 2 && taken > 0 && Written(shown, n)
           case Holding => taken > 0 && Lit() == shown && LastTakenDisplayed()
           case Clearing(n) => n <= 2 && Written(OFF, n) && LastTakenDisplayed()
           case Leaving(n) => n <= 2 && Written(OFF, n) && stop
           case Exited => Lit() == OFF && stop
         }
    }

    ghost predicate LastTakenDisplayed()
      reads this
    {
      taken > 0 ==> taken - 1 in displayed
    }

    /** The constructor drives the three lines off before the worker starts. */
    constructor (activeHigh: bool)
      ensures Valid() && this.activeHigh == activeHigh && Lit() == OFF && arms == [] && !stop
    {
      this.activeHigh := activeHigh;
      target, shown, offAt, deadline, dirty, stop := OFF, OFF, 0, 0, false, false;
      place, clock := Top, 0;
      lineR, lineG, lineB := !activeHigh, !activeHigh, !activeHigh;
      arms, taken, displayed := [], 0, {};
    }

    /** arm, under the mutex; `now` was read before it was taken. */
    method Arm(c: Colour, now: Time, holdMs: int)
      requires Valid() && now <= clock
      modifies this`target, this`offAt, this`dirty, this`arms
      ensures Valid() && dirty && target == c && offAt == now + holdMs * MILLISECOND
      ensures arms == old(arms) + [c]
    {
      target, offAt, dirty := c, now + holdMs * MILLISECOND, true;
      arms := arms + [c];
    }

    method Stop()
      requires Valid()
      modifies this`stop
      ensures Valid() && stop
    {
      stop := true;
    }

    /** Write one of the three lines. */
    method WriteLine(c: Colour, k: nat)
      requires k <= 2
      modifies this`lineR, this`lineG, this`lineB
      ensures old(Written(c, k)) ==> Written(c, k + 1)
    {
      match k {
        case 0 => lineR := c.r == activeHigh;
        case 1 => lineG := c.g == activeHigh;
        case _ => lineB := c.b == activeHigh;
      }
    }

    /** Steps the worker still needs before the newest arm is on the lines. */
    function StepsToShow(): int
      reads this
    {
      match place
      case Showing(n) => if dirty then 9 - n else 3 - n
      case Holding => if dirty then 6 else 0
      case Clearing(n) => 8 - n
      case Top => 5
      case Waiting => 4
      case _ => 0
    }

    /** A command waits to be shown, or is being shown. */
    predicate Busy()
      reads this
    {
      dirty || place.Showing?
    }

    /** Loop head and cv_.wait: take over the newest command. */
    method Await(now: Time)
      requires Valid() && clock <= now && (place.Top? || place.Waiting?)
      modifies this`place, this`dirty, this`shown, this`deadline, this`clock, this`taken
      ensures Valid() && clock == now
      ensures if stop then place.Leaving?
              else if old(place).Top? then place.Waiting? && dirty == old(dirty)
              else if old(dirty) then place.Showing? && !dirty && shown == target && deadline == offAt
              else place.Waiting? && !dirty
      ensures old(Busy()) && !stop ==> Busy() && 0 <= StepsToShow() < old(StepsToShow())
    {
      clock := now;
      if stop {
        place := Leaving(0);
      } else if place.Top? {
        place := Waiting;
      } else if dirty {
        dirty, shown, deadline, place := false, target, offAt, Showing(0);
        taken := |arms|;
      }
    }

    /** Write the colour, then hold it until the deadline, a new command or shutdown. */
    method Show(now: Time)
      requires Valid() && clock <= now && (place.Showing? || place.Holding?)
      modifies this`place, this`lineR, this`lineG, this`lineB, this`clock, this`displayed
      ensures Valid() && clock == now && displayed >= old(displayed)
      ensures old(place).Showing? ==> place.Showing? || place.Holding?
      ensures old(place).Holding? ==>
                && (place.Holding? <==> !stop && !dirty && now < deadline)
                && (place.Clearing? <==> !stop && !dirty && now >= deadline)
                && (place.Top? <==> !stop && dirty)
      ensures old(Busy()) && !stop ==> (Busy() || place.Holding?) && 0 <= StepsToShow() < old(StepsToShow())
    {
      clock := now;
      match place {
        case Showing(n) =>
          WriteLine(shown, n);
          if n < 2 {
            place := Showing(n + 1);
          } else {
            place := Holding;
            displayed := displayed + {taken - 1};
          }
        case Holding =>
          if stop {
            place := Leaving(0);
          } else if dirty {
            place := Top;
          } else if now >= deadline {
            place := Clearing(0);
          }
      }
    }

    /** Write the off colour, after the deadline or after the loop. */
    method Clear(now: Time)
      requires Valid() && clock <= now && (place.Clearing? || place.Leaving?)
      modifies this`place, this`lineR, this`lineG, this`lineB, this`clock
      ensures Valid() && clock == now
      ensures old(place).Clearing? ==> place.Top? || (place.Clearing? && place.next == old(place.next) + 1)
      ensures old(place).Leaving? ==> place.Leaving? || place.Exited?
      ensures old(Busy()) && !stop ==> Busy() && 0 <= StepsToShow() < old(StepsToShow())
    {
      clock := now;
      match place {
        case Clearing(n) =>
          WriteLine(OFF, n);
          place := if n < 2 then Clearing(n + 1) else Top;
        case Leaving(n) =>
          WriteLine(OFF, n);
          place := if n < 2 then Leaving(n + 1) else Exited;
      }
    }

    /** One step of worker_loop. */
    method Work(now: Time)
      requires Valid() && clock <= now
      modifies this`place, this`dirty, this`shown, this`deadline, this`lineR, this`lineG, this`lineB
      modifies this`clock, this`taken, this`displayed
      ensures Valid() && clock == now && displayed >= old(displayed)
      // Unless it must stop, every step brings a waiting command closer to the lines.
      ensures old(Busy()) && !stop ==> (Busy() || place.Holding?) && 0 <= StepsToShow() < old(StepsToShow())
    {
      match place {
        case Top | Waiting => Await(now);
        case Showing(_) | Holding => Show(now);
        case Clearing(_) | Leaving(_) => Clear(now);
        case Exited => clock := now;
      }
    }

    /** One step of anybody; the caller of arm read the clock `age` ago. */
    method Take(action: Action)
      requires Valid()
      modifies this
      ensures Valid() && arms == old(arms) + Armed([action]) && (stop <==> old(stop) || action.Stops?)
    {
      match action {
        case Arms(c, age, holdMs) => Arm(c, if age <= clock then clock - age else 0, holdMs);
        case Works(dt) => Work(clock + dt);
        case Stops => Stop();
      }
    }

    /** Any interleaving of callers, worker and shutdown. */
    method Run(schedule: seq<Action>)
      requires Valid()
      modifies this
      ensures Valid() && arms == old(arms) + Armed(schedule)
      ensures place.Waiting? && !dirty ==> Lit() == OFF
      ensures place.Holding? && !dirty ==> arms != [] && Lit() == arms[|arms| - 1]
      // When the worker has caught up, every arm was displayed or replaced by a later one.
      ensures (place.Waiting? || place.Holding?) && !dirty ==> forall k: nat | k < |arms| :: Settled(k)
      ensures place.Exited? ==> Lit() == OFF
    {
      for n := 0 to |schedule|
        invariant Valid() && arms == old(arms) + Armed(schedule[..n])
      {
        assert schedule[..n + 1][..n] == schedule[..n];
        Take(schedule[n]);
      }
      assert schedule[..|schedule|] == schedule;
    }

    /** Left alone by callers and not stopped, the worker puts the newest arm on the lines. */
    method CatchUp()
      requires Valid() && !stop && dirty
      modifies this
      ensures Valid() && arms == old(arms) && |arms| - 1 in displayed && Lit() == arms[|arms| - 1]
    {
      while !(place.Holding? && !dirty)
        invariant Valid() && !stop && arms == old(arms) && (Busy() || place.Holding?) && arms != []
        invariant 0 <= StepsToShow()
        decreases StepsToShow()
      {
        Work(clock);
      }
    }

    /** What is left to do until the lines are off: first the colour, then its time, then the clearing. */
    ghost function Stage(): int
      reads this`place
    {
      match place
      case Showing(_) => 3
      case Holding => 2
      case Clearing(_) => 1
      case _ => 0
    }

    ghost function Left(): int
      reads this`place, this`deadline, this`clock
    {
      match place
      case Showing(n) => 3 - n
      case Holding => Max(0, deadline - clock)
      case Clearing(n) => 3 - n
      case Top => 1
      case _ => 0
    }

    /** Left alone with a clock that goes on, the worker shows what is armed and in the end turns the lines off. */
    method GoesOff(tick: nat)
      requires Valid() && !stop && tick > 0 && !place.Leaving? && !place.Exited?
      modifies this
      ensures Valid() && place.Waiting? && !dirty && Lit() == OFF
      ensures arms == old(arms) && forall k: nat | k < |arms| :: Settled(k)
    {
      while !(place.Waiting? && !dirty)
        invariant Valid() && !stop && !place.Leaving? && !place.Exited? && arms == old(arms)
        invariant dirty ==> 0 <= StepsToShow()
        decreases if dirty then 1 else 0, if dirty then StepsToShow() else Stage(), if dirty then 0 else Left()
      {
        match place {
          case Top | Waiting => Await(clock + tick);
          case Showing(_) | Holding => Show(clock + tick);
          case Clearing(_) => Clear(clock + tick);
        }
      }
    }
  }
}
