/** The in-memory limiter (internal/service/limiter.go): fixed-window counters and
    throttle clocks in three maps under formatted string keys. */
module Limiter {
  import opened Clock
  import opened Options

  datatype Counter = Counter(count: nat, start: int)

  /** The arguments of one call, with the instant its clock reads. */
  datatype Call = Call(user: int, domain: string,
                       perSec: int, perMin: int, perHour: int, perDay: int, throttleMS: int,
                       domainPerHour: int, domainThrottleMS: int, now: int)

  datatype Check = Check(key: string, limit: int, win: int)

  datatype Maps = Maps(buckets: map<string, Counter>,
                       lastSendAt: map<string, int>,
                       domainLastAt: map<string, int>)

  const EMPTY := Maps(map[], map[], map[])

  // ---- Keys ----

  function Digit(n: nat): char
    requires n < 10
  {
    '0' + n as char
  }

  function Digits(n: nat): string {
    if n < 10 then [Digit(n)] else Digits(n / 10) + [Digit(n % 10)]
  }

  /** Go's %d. */
  function Decimal(n: int): string {
    if n < 0 then "-" + Digits(-n) else Digits(n)
  }

  /** The windows a bucket can count over. */
  datatype Window = PerSec | PerMin | PerHour | PerDay | DomainHour(domain: string)

  function WindowName(w: Window): string {
    match w
    case PerSec => "sec"
    case PerMin => "min"
    case PerHour => "hour"
    case PerDay => "day"
    case DomainHour(d) => "domain:" + d + ":hour"
  }

  function WindowLength(w: Window): int {
    match w
    case PerSec => NANOS_PER_SECOND
    case PerMin => 60 * NANOS_PER_SECOND
    case PerHour => 3600 * NANOS_PER_SECOND
    case PerDay => 24 * 3600 * NANOS_PER_SECOND
    case DomainHour(_) => 3600 * NANOS_PER_SECOND
  }

  function BucketKey(user: int, w: Window): string {
    "u:" + Decimal(user) + ":" + WindowName(w)
  }

  function ClockKey(user: int): string {
    "u:" + Decimal(user)
  }

  function DomainClockKey(user: int, domain: string): string {
    "u:" + Decimal(user) + ":d:" + domain
  }

  // ---- One call ----

  function Lookup<V>(m: map<string, V>, k: string): Option<V> {
    if k in m then Some(m[k]) else None
  }

  predicate Throttled(last: Option<int>, throttleMS: int, now: int) {
    throttleMS > 0 && last.Some? && now - last.value < throttleMS * NANOS_PER_MILLI
  }

  function CheckFor(c: Call, w: Window): Check {
    Check(BucketKey(c.user, w),
          match w
          case PerSec => c.perSec
          case PerMin => c.perMin
          case PerHour => c.perHour
          case PerDay => c.perDay
          case DomainHour(_) => c.domainPerHour,
          WindowLength(w))
  }

  function Checks(c: Call): seq<Check> {
    [CheckFor(c, PerSec), CheckFor(c, PerMin), CheckFor(c, PerHour), CheckFor(c, PerDay),
     CheckFor(c, DomainHour(c.domain))]
  }

  /** A bucket after one check of `limit` at `now`; None when the check rejects. */
  function Bumped(b: Option<Counter>, c: Check, now: int): Option<Counter> {
    if b.None? || now - b.value.start >= c.win then Some(Counter(1, now))
    else if b.value.count + 1 > c.limit then None
    else Some(b.value.(count := b.value.count + 1))
  }

  /** Charge the checks in order, stopping at the first that rejects; what was charged
      before stays charged. */
  function Charged(buckets: map<string, Counter>, checks: seq<Check>, now: int): (bool, map<string, Counter>)
    decreases |checks|
  {
    if checks == [] then (true, buckets)
    else if checks[0].limit <= 0 then Charged(buckets, checks[1..], now)
    else
      match Bumped(Lookup(buckets, checks[0].key), checks[0], now)
      case None => (false, buckets)
      case Some(b) => Charged(buckets[checks[0].key := b], checks[1..], now)
  }

  /** Outcome and new maps of one call. */
  function Called(m: Maps, c: Call): (bool, Maps) {
    if Throttled(Lookup(m.lastSendAt, ClockKey(c.user)), c.throttleMS, c.now) then (false, m)
    else if Throttled(Lookup(m.domainLastAt, DomainClockKey(c.user, c.domain)), c.domainThrottleMS, c.now)
    then (false, m)
    else
      var (ok, buckets) := Charged(m.buckets, Checks(c), c.now);
      if !ok then (false, m.(buckets := buckets))
      else (true, Maps(buckets,
                       m.lastSendAt[ClockKey(c.user) := c.now],
                       m.domainLastAt[DomainClockKey(c.user, c.domain) := c.now]))
  }

  class Limiter {
    var buckets: map<string, Counter>
    var lastSendAt: map<string, int>
    var domainLastAt: map<string, int>

    function State(): Maps
      reads this
    {
      Maps(buckets, lastSendAt, domainLastAt)
    }

    constructor ()
      ensures State() == EMPTY
    {
      buckets, lastSendAt, domainLastAt := map[], map[], map[];
    }

    method CheckAndInc(c: Call) returns (ok: bool)
      modifies this
      ensures (ok, State()) == Called(old(State()), c)
    {
      if c.throttleMS > 0 {
        var k := ClockKey(c.user);
        if k in lastSendAt && c.now - lastSendAt[k] < c.throttleMS * NANOS_PER_MILLI {
          return false;
        }
      }
      if c.domainThrottleMS > 0 {
        var k := DomainClockKey(c.user, c.domain);
        if k in domainLastAt && c.now - domainLastAt[k] < c.domainThrottleMS * NANOS_PER_MILLI {
          return false;
        }
      }

      ok := ChargeInOrder(Checks(c), c.now);
      if ok {
        lastSendAt := lastSendAt[ClockKey(c.user) := c.now];
        domainLastAt := domainLastAt[DomainClockKey(c.user, c.domain) := c.now];
      }
    }

    /** The loop of CheckAndInc, with its early return. */
    method ChargeInOrder(checks: seq<Check>, now: int) returns (ok: bool)
      modifies this`buckets
      ensures (ok, buckets) == Charged(old(buckets), checks, now)
    {
      for i := 0 to |checks|
        invariant Charged(buckets, checks[i..], now) == Charged(old(buckets), checks, now)
      {
        var check := checks[i];
        assert checks[i..][1..] == checks[i + 1..];
        if check.limit <= 0 {
          continue;
        }
        if check.key !in buckets || now - buckets[check.key].start >= check.win {
          buckets := buckets[check.key := Counter(1, now)];
          continue;
        }
        var b := buckets[check.key];
        if b.count + 1 > check.limit {
          return false;
        }
        buckets := buckets[check.key := Counter(b.count + 1, b.start)];
      }
      ok := true;
    }
  }
}
