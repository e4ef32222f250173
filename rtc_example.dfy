/** The stand-alone clock example's `rtc_update` task: starting from a
    fixed instant it adds one second per tick, saturating at the largest
    representable instant, and sends every new value. The endless loop is
    modelled over a given number of ticks and returns what it sent. */
module RtcExample {
  import opened Timestamps

  /** 2025-07-18 19:38:20, in milliseconds since the Unix epoch. */
  const EXAMPLE_START_MS: int := 1752867500000

  /** The last tick that can still add a whole second. */
  const LAST_STEP: nat := (MAX_MS - EXAMPLE_START_MS) / MS_PER_SECOND

  function Min(a: int, b: int): int {
    if a <= b then a else b
  }

  /** The instant after k ticks. */
  function ExampleTime(k: nat): int {
    EXAMPLE_START_MS + MS_PER_SECOND * Min(k, LAST_STEP)
  }

  /** Each tick advances by one second until the range ends, then holds;
      every value sent is a valid instant. */
  lemma ExampleTimeStep(k: nat)
    ensures InRange(ExampleTime(k))
    ensures ExampleTime(k + 1) == AddOrKeep(ExampleTime(k), MS_PER_SECOND)
    ensures k < LAST_STEP ==> ExampleTime(k + 1) == ExampleTime(k) + MS_PER_SECOND
    ensures k >= LAST_STEP ==> ExampleTime(k + 1) == ExampleTime(k)
  {
    if k >= LAST_STEP {
      assert !InRange(ExampleTime(k) + MS_PER_SECOND);
    }
  }

  /** `rtc_update` for `ticks` iterations: the values it sends, in order. */
  method RtcUpdate(ticks: nat) returns (sent: seq<int>)
    ensures |sent| == ticks
    ensures forall i :: 0 <= i < ticks ==> sent[i] == ExampleTime(i + 1)
  {
    var now := EXAMPLE_START_MS;
    sent := [];
    var i := 0;
    while i < ticks
      invariant 0 <= i <= ticks
      invariant now == ExampleTime(i)
      invariant |sent| == i
      invariant forall j :: 0 <= j < i ==> sent[j] == ExampleTime(j + 1)
    {
      ExampleTimeStep(i);
      now := AddOrKeep(now, MS_PER_SECOND);
      sent := sent + [now];
      i := i + 1;
    }
  }
}
