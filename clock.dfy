/** The software clock task of the calendar firmware (`rtc_update`): every
    tick it reads the selected field, then either runs the clock forward by
    the tick interval (field 0) or applies one encoder step scaled by the
    selected field, and publishes the time when it changed. */
module SoftwareClock {
  import opened Wrappers
  import opened Timestamps
  import opened Channels

  /** The task's starting time, 2025-07-20 18:00:00. */
  const CALENDAR_START_MS: int := 1753034400000

  /** The update interval the task is spawned with. */
  const TICK_MS: int := 30

  /** The time change one encoder step `d` makes to field `setPos`: 365·d
      days for the year, 30·d days for the month, then d days, hours, minutes
      or seconds; `None` for any other field value. */
  function FieldAdjustment(setPos: int, d: int): (r: Option<int>)
    ensures r.Some? <==> 1 <= setPos <= 6
  {
    match setPos
    case 1 => Some(365 * d * MS_PER_DAY)
    case 2 => Some(30 * d * MS_PER_DAY)
    case 3 => Some(d * MS_PER_DAY)
    case 4 => Some(d * MS_PER_HOUR)
    case 5 => Some(d * MS_PER_MINUTE)
    case 6 => Some(d * MS_PER_SECOND)
    case _ => None
  }

  /** The new time after one tick, given the field in force and the encoder
      value received this tick, if any (only read when a field is selected). */
  function ClockStep(now: int, setPos: int, delta: Option<int>, delayMs: int): (r: int)
    ensures InRange(now) ==> InRange(r)
    ensures setPos == 0 && delayMs >= 0 ==> now <= r
    ensures setPos != 0 && delta.None? ==> r == now
  {
    if setPos != 0 then
      match delta
      case None => now
      case Some(d) =>
        match FieldAdjustment(setPos, d)
        case None => now
        case Some(ms) => AddOrKeep(now, ms)
    else
      AddOrKeep(now, delayMs)
  }

  /** Length of one encoder step for fields 1..6, in milliseconds, as the
      field labels read: year (365 days), month (30 days), day, hour, minute,
      second. */
  const FIELD_UNITS_MS: seq<int> :=
    [365 * MS_PER_DAY, 30 * MS_PER_DAY, MS_PER_DAY, MS_PER_HOUR, MS_PER_MINUTE, MS_PER_SECOND]

  /** What a tick does, stated against the table of field units: in normal
      mode the clock moves by exactly the interval; in edit mode by exactly
      d units of the selected field; anything out of range, any other field
      value, or no encoder value leaves it where it was. */
  lemma ClockStepByTable(now: int, setPos: int, delta: Option<int>, delayMs: int)
    ensures setPos == 0 ==>
      ClockStep(now, setPos, delta, delayMs) == (if InRange(now + delayMs) then now + delayMs else now)
    ensures setPos != 0 ==>
      ClockStep(now, setPos, delta, delayMs)
      == (if delta.Some? && 1 <= setPos <= 6 && InRange(now + delta.value * FIELD_UNITS_MS[setPos - 1])
          then now + delta.value * FIELD_UNITS_MS[setPos - 1]
          else now)
  {
    if setPos != 0 && delta.Some? && 1 <= setPos <= 6 {
      var d := delta.value;
      var u := FIELD_UNITS_MS[setPos - 1];
      assert FieldAdjustment(setPos, d) == Some(d * u) by {
        if setPos == 1 {
          assert 365 * d * MS_PER_DAY == d * (365 * MS_PER_DAY);
        } else if setPos == 2 {
          assert 30 * d * MS_PER_DAY == d * (30 * MS_PER_DAY);
        }
      }
    }
  }

  /** As spawned, a normal-mode tick moves the clock forward by exactly
      30 ms while the range lasts. */
  lemma SpawnedTick(now: int, delta: Option<int>)
    requires InRange(now + TICK_MS)
    ensures ClockStep(now, 0, delta, TICK_MS) == now + TICK_MS
  {
  }

  /** The task's local state: `now`, `prev_time` and `set_pos`. */
  class ClockTask {
    var now: int
    var prevTime: int
    var setPos: int
    const delayMs: int

    /** Between ticks the last published (or initial) time is the current one. */
    ghost predicate Valid()
      reads this
    {
      prevTime == now && InRange(now) && delayMs >= 0
    }

    /** `delay` is an embassy `Duration`, which is never negative. */
    constructor (delay: int)
      requires delay >= 0
      ensures Valid()
      ensures now == CALENDAR_START_MS && setPos == 0 && delayMs == delay
    {
      now := CALENDAR_START_MS;
      prevTime := CALENDAR_START_MS;
      setPos := 0;
      delayMs := delay;
    }

    /** One iteration of the task loop. `key` carries the selected field,
        `are` the encoder steps, `rtc` the published time. */
    method Tick(key: Channel<int>, are: Channel<int>, rtc: Channel<int>)
      requires Valid() && key.Valid() && are.Valid() && rtc.Valid()
      requires are != rtc
      modifies this, are, rtc
      ensures Valid() && are.Valid() && rtc.Valid()
      ensures setPos == if old(key.items) != [] then old(key.items)[0] else old(setPos)
      ensures setPos == 0 ==> are.items == old(are.items)
      ensures setPos != 0 && old(are.items) != [] ==> are.items == old(are.items)[1..]
      ensures setPos != 0 && old(are.items) == [] ==> are.items == []
      ensures now == ClockStep(old(now), setPos,
                               if setPos != 0 && old(are.items) != [] then Some(old(are.items)[0]) else None,
                               delayMs)
      ensures now != old(now) ==> rtc.items == [now]
      ensures now == old(now) ==> rtc.items == old(rtc.items)
      ensures setPos == 0 ==> old(now) <= now
    {
      var newPos := key.TryPeek();
      if newPos.Some? {
        setPos := newPos.value;
      }
      if setPos != 0 {
        var delta := are.TryReceive();
        if delta.Some? {
          now := match FieldAdjustment(setPos, delta.value)
                 case None => now
                 case Some(ms) => AddOrKeep(now, ms);
        }
      } else {
        now := AddOrKeep(now, delayMs);
      }
      if prevTime != now {
        rtc.Publish(now);
        prevTime := now;
      }
    }
  }
}
