/** Timers of src/ztimer.c: 64-bit clock differences and the monotonic and absolute timers.
    A clock reading is an integer below 2^53, so a Lua number holds it exactly. */
module Timers {

  const TWO_63: int := 0x8000_0000_0000_0000
  const TWO_64: int := 0x1_0000_0000_0000_0000

  type Stamp = t: int | 0 <= t < 0x20_0000_0000_0000

  /** The two clocks the timers read. */
  datatype Clock = Clock(mono: Stamp, utc: Stamp) {
    predicate NotAfter(later: Clock) {
      mono <= later.mono && utc <= later.utc
    }
  }

  /** The clock never runs backwards, whatever the next reading claims. */
  function Later(now: Clock, reading: Clock): (c: Clock)
    ensures now.NotAfter(c) && reading.NotAfter(c)
  {
    Clock(if reading.mono > now.mono then reading.mono else now.mono,
          if reading.utc > now.utc then reading.utc else now.utc)
  }

  /** The C cast (int64_t) of an unsigned 64-bit value. */
  function ToInt64(x: int): int
    requires 0 <= x < TWO_64
  {
    if x < TWO_63 then x else x - TWO_64
  }

  /** Signed difference of two unsigned readings; exact precisely while they are less than 2^63 apart. */
  function U64Delta(s: int, e: int): (d: int)
    requires 0 <= s < TWO_64 && 0 <= e < TWO_64
    ensures d == e - s <==> -TWO_63 < e - s < TWO_63
  {
    if e > s then ToInt64(e - s) else -ToInt64(s - e)
  }

  /** `limit` is the interval of a monotonic timer and the time point of an absolute one. */
  datatype Timer = Timer(absolute: bool, start: Stamp, limit: int, started: bool, setted: bool) {

    predicate Valid() {
      (started ==> setted) && (absolute ==> 0 <= limit < TWO_63)
    }

    /** What is left until the timer is due; 0 once it is. */
    function Rest(now: Clock): (r: int)
      requires Valid() && started
      ensures r >= 0
      ensures r == 0 <==> Deadline() <= Reads(now)
      ensures r > 0 ==> Reads(now) + r == Deadline()
    {
      if absolute then
        var rest := U64Delta(now.utc, limit);
        if rest <= 0 then 0 else rest
      else
        var elapsed := U64Delta(start, now.mono);
        if elapsed >= limit then 0 else limit - elapsed
    }

    /** The reading of this timer's own clock at which it becomes due. */
    function Deadline(): int {
      if absolute then limit else start + limit
    }

    /** The clock this timer is compared with. */
    function Reads(now: Clock): int {
      if absolute then now.utc else now.mono
    }

    function Start(now: Clock): Timer {
      this.(start := if absolute then now.utc else now.mono, started := true)
    }

    function StartWith(now: Clock, newLimit: int): Timer {
      Start(now).(limit := newLimit, setted := true)
    }

    /** Stopping a timer that is not started is a Lua error. */
    function Stop(): Timer
      requires started
    {
      this.(started := false)
    }
  }

  const NEW_MONOTONIC: Timer := Timer(false, 0, 0, false, false)
  const NEW_ABSOLUTE: Timer := Timer(true, 0, 0, false, false)
}
