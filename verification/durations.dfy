/** The unit choice of `get_time` in schedule/schedule.py: a duration in
    nanoseconds is shown in the largest of nS, uS, mS, S and min whose size it
    reaches, nanoseconds below one microsecond. Only the choice of unit and
    the exact quotient are modelled; the `round(…, 3)` and the text are not.
 */
module Durations {
  import opened Outcomes

  datatype Unit = Nanos | Micros | Millis | Seconds | Minutes

  /** Nanoseconds in one unit. */
  function Size(u: Unit): (n: int)
    ensures n >= 1
  {
    match u
    case Nanos => 1
    case Micros => 1000
    case Millis => 1000000
    case Seconds => 1000000000
    case Minutes => 60000000000
  }

  /** Position of a unit from the smallest. */
  function Rank(u: Unit): (k: nat)
    ensures k <= 4
  {
    match u
    case Nanos => 0
    case Micros => 1
    case Millis => 2
    case Seconds => 3
    case Minutes => 4
  }

  /** The next larger unit, if any. */
  function Next(u: Unit): Option<Unit>
  {
    match u
    case Nanos => Some(Micros)
    case Micros => Some(Millis)
    case Millis => Some(Seconds)
    case Seconds => Some(Minutes)
    case Minutes => None
  }

  /** The half-open thresholds of `get_time`. */
  function SelectUnit(t: int): (u: Unit)
    ensures u == Nanos || Size(u) <= t
    ensures Next(u).Some? ==> t < Size(Next(u).value)
  {
    if t < 1000 then Nanos
    else if t < 1000000 then Micros
    else if t < 1000000000 then Millis
    else if t < 60000000000 then Seconds
    else Minutes
  }

  /** The shown number before rounding: `t` divided by the unit's size. */
  function Scaled(t: int): (x: real)
    ensures SelectUnit(t) != Nanos ==> 1.0 <= x
    ensures Next(SelectUnit(t)).Some? && SelectUnit(t) != Nanos ==>
      x < (Size(Next(SelectUnit(t)).value) / Size(SelectUnit(t))) as real
    ensures x * Size(SelectUnit(t)) as real == t as real
  {
    t as real / Size(SelectUnit(t)) as real
  }

  /** A longer duration never gets a smaller unit. */
  lemma SelectUnitMonotone(t1: int, t2: int)
    requires t1 <= t2
    ensures Rank(SelectUnit(t1)) <= Rank(SelectUnit(t2))
  {
  }

  /** The chosen unit is the only one the thresholds allow: no smaller unit
      passes over its next threshold and no larger one is reached. */
  lemma SelectUnitUnique(t: int, u: Unit)
    requires u == Nanos || Size(u) <= t
    requires Next(u).Some? ==> t < Size(Next(u).value)
    ensures u == SelectUnit(t)
  {
  }
}
