/** How late an entry is: the difference to the start of the shift, brought into one day. */
module Delays {
  import opened Basics

  // Times of day in milliseconds.
  const DAY: int := 86_400_000
  const HALF_DAY: int := 43_200_000

  predicate IsTimeOfDay(t: int) { 0 <= t < DAY }

  /** The shifts' start times; any other shift has none. */
  function ShiftStart(shift: string): Option<int> {
    if shift == "manh\U{E3}" then Some(8 * 3_600_000)
    else if shift == "tarde" then Some(14 * 3_600_000)
    else if shift == "noite" then Some(22 * 3_600_000)
    else None
  }

  /** PostgreSQL's MOD: the result has the sign of the dividend. */
  function Mod(a: int, b: int): int
    requires b > 0
  {
    if a >= 0 then a % b else -((-a) % b)
  }

  /** avg_delay's delay of one day, given the time of day of the first entry. */
  function Delay(entry: int, shift: string): Option<int> {
    match ShiftStart(shift)
    case None => None
    case Some(start) => Some(Mod(entry - start + HALF_DAY + DAY, DAY) - HALF_DAY)
  }

  predicate Congruent(a: int, b: int) { (a - b) % DAY == 0 }

  predicate InWindow(d: int) { -HALF_DAY <= d < HALF_DAY }

  /** MOD never sees a negative number, so its truncation does not matter. */
  lemma DividendIsPositive(entry: int, shift: string)
    requires IsTimeOfDay(entry) && ShiftStart(shift).Some?
    ensures entry - ShiftStart(shift).value + HALF_DAY + DAY > 0
  {
  }

  /** The delay is the one value of the window that differs from the raw delta by whole days. */
  lemma DelayIsNormalised(entry: int, shift: string, d: int)
    requires IsTimeOfDay(entry) && ShiftStart(shift).Some?
    ensures Delay(entry, shift) == Some(d) <==> InWindow(d) && Congruent(d, entry - ShiftStart(shift).value)
  {
  }

  /** No other reading of the same clock times is closer to zero. */
  lemma DelayIsLeast(entry: int, shift: string, d: int, other: int)
    requires IsTimeOfDay(entry) && Delay(entry, shift) == Some(d)
    requires Congruent(other, entry - ShiftStart(shift).value)
    ensures (if d < 0 then -d else d) <= if other < 0 then -other else other
  {
  }

  /** The delay is 0 exactly at 8:00, 14:00 and 22:00 of the three shifts; other shifts have none. */
  lemma OnTimeIff(entry: int, shift: string)
    requires IsTimeOfDay(entry)
    ensures Delay(entry, shift) == Some(0) <==>
            || (shift == "manh\U{E3}" && entry == 28_800_000)
            || (shift == "tarde" && entry == 50_400_000)
            || (shift == "noite" && entry == 79_200_000)
    ensures Delay(entry, shift).None? <==> shift != "manh\U{E3}" && shift != "tarde" && shift != "noite"
  {
  }

  /** The window that the comments promise, open at -12 h and closed at +12 h. */
  predicate InDocumentedWindow(d: int) { -HALF_DAY < d <= HALF_DAY }

  /**
   The documented window is missed exactly by entries twelve hours from the start of the
   shift: they read as twelve hours early.
   */
  lemma DocumentedWindowHoldsUnlessHalfDay(entry: int, shift: string)
    requires IsTimeOfDay(entry) && ShiftStart(shift).Some?
    ensures InDocumentedWindow(Delay(entry, shift).value) <==>
            entry != ShiftStart(shift).value + HALF_DAY && entry != ShiftStart(shift).value - HALF_DAY
  {
  }
}
