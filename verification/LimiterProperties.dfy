/** Properties of the limiter over whole sequences of calls. */
module LimiterProperties {
  import opened Clock
  import opened Limiter
  import opened Options
  import opened LimiterKeys

  // ---- Effect of one call on one bucket ----

  /** The call counts against bucket (user, w). */
  predicate Counts(c: Call, user: int, w: Window) {
    c.user == user && (w.DomainHour? ==> c.domain == w.domain)
  }

  function Bucket(m: Maps, user: int, w: Window): Option<Counter> {
    Lookup(m.buckets, BucketKey(user, w))
  }

  predicate DistinctKeys(checks: seq<Check>) {
    forall i, j :: 0 <= i < j < |checks| ==> checks[i].key != checks[j].key
  }

  lemma ChecksShape(c: Call)
    ensures DistinctKeys(Checks(c))
  {
    var windows := WindowsOf(c);
    forall i, j | 0 <= i < j < |Checks(c)| ensures Checks(c)[i].key != Checks(c)[j].key {
      BucketKeyInjective(c.user, windows[i], c.user, windows[j]);
    }
  }

  /** The windows of the five checks, in order. */
  function WindowsOf(c: Call): (windows: seq<Window>)
    ensures |windows| == |Checks(c)| && forall i :: 0 <= i < |windows| ==> Checks(c)[i] == CheckFor(c, windows[i])
    ensures forall i, j :: 0 <= i < j < |windows| ==> windows[i] != windows[j]
  {
    [PerSec, PerMin, PerHour, PerDay, DomainHour(c.domain)]
  }

  /** Which of the five checks counts for window `w`. */
  function CheckIndex(w: Window): (i: nat)
    ensures i < 5
  {
    match w
    case PerSec => 0
    case PerMin => 1
    case PerHour => 2
    case PerDay => 3
    case DomainHour(_) => 4
  }

  lemma {:induction false} ChargedSkips(buckets: map<string, Counter>, checks: seq<Check>, now: int, k: string)
    requires forall i :: 0 <= i < |checks| ==> checks[i].key != k
    ensures Lookup(Charged(buckets, checks, now).1, k) == Lookup(buckets, k)
    decreases |checks|
  {
    if checks != [] {
      if checks[0].limit <= 0 {
        ChargedSkips(buckets, checks[1..], now, k);
      } else {
        var b := Bumped(Lookup(buckets, checks[0].key), checks[0], now);
        if b.Some? {
          ChargedSkips(buckets[checks[0].key := b.value], checks[1..], now, k);
        }
      }
    }
  }

  /** A bucket is left alone or bumped once, and every accepted call bumped it. */
  predicate BumpedOrKept(before: Option<Counter>, after: Option<Counter>, check: Check, now: int, ok: bool) {
    && (after == before || (check.limit > 0 && after == Bumped(before, check, now)))
    && (after.None? ==> before.None?)
    && (ok && check.limit > 0 ==> after == Bumped(before, check, now))
  }

  lemma {:induction false} ChargedAt(buckets: map<string, Counter>, checks: seq<Check>, now: int, j: nat)
    requires j < |checks| && DistinctKeys(checks)
    ensures var k := checks[j].key; var (ok, after) := Charged(buckets, checks, now);
            BumpedOrKept(Lookup(buckets, k), Lookup(after, k), checks[j], now, ok)
    decreases |checks|
  {
    var tail := checks[1..];
    assert forall i :: 0 <= i < |tail| ==> tail[i] == checks[i + 1];
    if checks[0].limit <= 0 {
      if j == 0 {
        ChargedSkips(buckets, tail, now, checks[0].key);
      } else {
        ChargedAt(buckets, tail, now, j - 1);
      }
    } else {
      var b := Bumped(Lookup(buckets, checks[0].key), checks[0], now);
      if b.Some? {
        var next := buckets[checks[0].key := b.value];
        if j == 0 {
          ChargedSkips(next, tail, now, checks[0].key);
        } else {
          ChargedAt(next, tail, now, j - 1);
        }
      }
    }
  }

  lemma CallEffect(m: Maps, c: Call, user: int, w: Window)
    ensures var (ok, after) := Called(m, c);
            && (!Counts(c, user, w) ==> Bucket(after, user, w) == Bucket(m, user, w))
            && (Counts(c, user, w)
                ==> BumpedOrKept(Bucket(m, user, w), Bucket(after, user, w), CheckFor(c, w), c.now, ok))
  {
    var checks := Checks(c);
    ChecksShape(c);
    if Counts(c, user, w) {
      assert checks[CheckIndex(w)] == CheckFor(c, w);
      ChargedAt(m.buckets, checks, c.now, CheckIndex(w));
    } else {
      forall i | 0 <= i < |checks| ensures checks[i].key != BucketKey(user, w) {
        OtherKey(c, i, user, w);
      }
      ChargedSkips(m.buckets, checks, c.now, BucketKey(user, w));
    }
  }

  lemma OtherKey(c: Call, i: nat, user: int, w: Window)
    requires i < 5 && !Counts(c, user, w)
    ensures Checks(c)[i].key != BucketKey(user, w)
  {
    var v := WindowsOf(c)[i];
    BucketKeyInjective(c.user, v, user, w);
  }

  // ---- Sequences of calls ----

  predicate InOrder(calls: seq<Call>) {
    forall i, j :: 0 <= i <= j < |calls| ==> calls[i].now <= calls[j].now
  }

  function After(calls: seq<Call>): Maps {
    if calls == [] then EMPTY else Called(After(calls[..|calls| - 1]), calls[|calls| - 1]).1
  }

  /** Whether the last call of the sequence was accepted. */
  predicate LastAccepted(calls: seq<Call>)
    requires calls != []
  {
    Called(After(calls[..|calls| - 1]), calls[|calls| - 1]).0
  }

  /** Instants of the accepted calls that count against bucket (user, w). */
  function AcceptedTimes(calls: seq<Call>, user: int, w: Window): seq<int> {
    if calls == [] then []
    else
      AcceptedTimes(calls[..|calls| - 1], user, w)
      + if Counts(calls[|calls| - 1], user, w) && LastAccepted(calls) then [calls[|calls| - 1].now] else []
  }

  /** How many of the instants lie in [from, to). */
  function CountIn(times: seq<int>, from: int, to: int): nat {
    if times == [] then 0
    else CountIn(times[..|times| - 1], from, to) + if from <= times[|times| - 1] < to then 1 else 0
  }

  function CountWithin(times: seq<int>, from: int, length: int): nat {
    CountIn(times, from, from + length)
  }

  /** Every call for this bucket passes the same positive limit. */
  predicate ConstantLimit(calls: seq<Call>, user: int, w: Window, limit: int) {
    && limit > 0
    && forall i :: 0 <= i < |calls| && Counts(calls[i], user, w) ==> CheckFor(calls[i], w).limit == limit
  }

  lemma CountAppend(times: seq<int>, t: int, from: int, to: int)
    ensures CountIn(times + [t], from, to) == CountIn(times, from, to) + if from <= t < to then 1 else 0
  {
    assert (times + [t])[..|times|] == times;
  }

  lemma {:induction false} CountSplit(times: seq<int>, from: int, mid: int, to: int)
    requires from <= mid <= to
    ensures CountIn(times, from, to) == CountIn(times, from, mid) + CountIn(times, mid, to)
  {
    if times != [] {
      CountSplit(times[..|times| - 1], from, mid, to);
    }
  }

  lemma {:induction false} CountNone(times: seq<int>, from: int, to: int)
    requires forall i :: 0 <= i < |times| ==> times[i] < from
    ensures CountIn(times, from, to) == 0
  {
    if times != [] {
      CountNone(times[..|times| - 1], from, to);
    }
  }

  lemma {:induction false} CountMonotone(times: seq<int>, from: int, to: int, from': int, to': int)
    requires from' <= from && to <= to'
    ensures CountIn(times, from, to) <= CountIn(times, from', to')
  {
    if times != [] {
      CountMonotone(times[..|times| - 1], from, to, from', to');
    }
  }

  /** What a bucket knows about the accepted calls `times`, none of them after `now`:
      it never counts fewer than were accepted since it started, nor more than the limit. */
  ghost predicate BucketInvariant(b: Option<Counter>, times: seq<int>, limit: int, win: int, now: int) {
    && (forall i :: 0 <= i < |times| ==> times[i] <= now)
    && (forall x :: CountWithin(times, x, win) <= 2 * limit)
    && match b
       case None => times == []
       case Some(c) =>
         && c.start <= now
         && (forall i :: 0 <= i < |times| ==> times[i] < c.start + win)
         && CountIn(times, c.start, now + 1) <= c.count <= limit
         && forall x :: c.start - win <= x <= c.start ==> CountIn(times, x, c.start) <= limit
  }

  lemma LaterClock(b: Option<Counter>, times: seq<int>, limit: int, win: int, now: int, now': int)
    requires BucketInvariant(b, times, limit, win, now) && now <= now'
    ensures BucketInvariant(b, times, limit, win, now')
  {
    if b.Some? {
      CountSplit(times, b.value.start, now + 1, now' + 1);
      CountNone(times, now + 1, now' + 1);
    }
  }

  /** A bump keeps the invariant and leaves room for the call being decided. */
  lemma BumpKeeps(b: Option<Counter>, times: seq<int>, check: Check, now: int)
    requires BucketInvariant(b, times, check.limit, check.win, now) && check.limit > 0 && check.win > 0
    requires Bumped(b, check, now).Some?
    ensures var c := Bumped(b, check, now).value;
            && BucketInvariant(Some(c), times, check.limit, check.win, now)
            && CountIn(times, c.start, now + 1) + 1 <= c.count
            && now < c.start + check.win
  {
    if b.Some? && now - b.value.start >= check.win {
      CountNone(times, now, now + 1);
      forall x | now - check.win <= x <= now ensures CountIn(times, x, now) <= check.limit {
        CountMonotone(times, x, now, b.value.start, now + 1);
      }
    }
  }

  /** Counting the accepted call itself keeps the invariant, the 2*limit bound included. */
  lemma AcceptKeeps(c: Counter, times: seq<int>, limit: int, win: int, now: int)
    requires BucketInvariant(Some(c), times, limit, win, now) && win > 0
    requires CountIn(times, c.start, now + 1) + 1 <= c.count && now < c.start + win
    ensures BucketInvariant(Some(c), times + [now], limit, win, now)
  {
    forall x ensures CountWithin(times + [now], x, win) <= 2 * limit {
      assert CountWithin(times, x, win) <= 2 * limit;
      CountAppend(times, now, x, x + win);
      if x <= now < x + win {
        if x <= c.start {
          CountSplit(times, x, c.start, x + win);
        }
        CountMonotone(times, if x <= c.start then c.start else x, x + win, c.start, x + win);
        CountUpToNow(times, c.start, now, x + win);
      }
    }
    CountAppend(times, now, c.start, now + 1);
    forall x | c.start - win <= x <= c.start ensures CountIn(times + [now], x, c.start) <= limit {
      CountAppend(times, now, x, c.start);
    }
  }

  lemma CountUpToNow(times: seq<int>, from: int, now: int, to: int)
    requires from <= now < to && forall i :: 0 <= i < |times| ==> times[i] <= now
    ensures CountIn(times, from, to) == CountIn(times, from, now + 1)
  {
    CountSplit(times, from, now + 1, to);
    CountNone(times, now + 1, to);
  }

  lemma StepKeeps(m: Maps, c: Call, user: int, w: Window, times: seq<int>, limit: int, now: int)
    requires now <= c.now && limit > 0 && (Counts(c, user, w) ==> CheckFor(c, w).limit == limit)
    requires BucketInvariant(Bucket(m, user, w), times, limit, WindowLength(w), now)
    ensures var (ok, m') := Called(m, c);
            BucketInvariant(Bucket(m', user, w), times + if Counts(c, user, w) && ok then [c.now] else [],
                            limit, WindowLength(w), c.now)
  {
    var b := Bucket(m, user, w);
    var (ok, m') := Called(m, c);
    var check := CheckFor(c, w);
    CallEffect(m, c, user, w);
    LaterClock(b, times, limit, WindowLength(w), now, c.now);
    assert times + [] == times;
    if Counts(c, user, w) && Bucket(m', user, w) == Bumped(b, check, c.now) && Bucket(m', user, w).Some? {
      BumpKeeps(b, times, check, c.now);
      if ok {
        AcceptKeeps(Bucket(m', user, w).value, times, limit, WindowLength(w), c.now);
      }
    }
  }

  lemma {:induction false} RunKeeps(calls: seq<Call>, user: int, w: Window, limit: int, now: int)
    requires InOrder(calls) && ConstantLimit(calls, user, w, limit)
    requires calls != [] ==> now == calls[|calls| - 1].now
    ensures BucketInvariant(Bucket(After(calls), user, w), AcceptedTimes(calls, user, w), limit, WindowLength(w), now)
  {
    if calls != [] {
      var prior := calls[..|calls| - 1];
      var earlier := if prior == [] then now else prior[|prior| - 1].now;
      RunKeeps(prior, user, w, limit, earlier);
      StepKeeps(After(prior), calls[|calls| - 1], user, w, AcceptedTimes(prior, user, w), limit, earlier);
    }
  }

  /** Under a constant limit, any half-open interval of one window's length holds at most
      2*limit accepted calls of the bucket's user (and domain). */
  lemma FixedWindowBound(calls: seq<Call>, user: int, w: Window, limit: int, from: int)
    requires InOrder(calls) && ConstantLimit(calls, user, w, limit)
    ensures CountWithin(AcceptedTimes(calls, user, w), from, WindowLength(w)) <= 2 * limit
  {
    RunKeeps(calls, user, w, limit, if calls == [] then 0 else calls[|calls| - 1].now);
  }

  /** A live bucket over-approximates history, rejected calls that already charged it
      included, and never passes the limit. */
  lemma CountersOverApproximate(calls: seq<Call>, user: int, w: Window, limit: int)
    requires InOrder(calls) && ConstantLimit(calls, user, w, limit) && calls != []
    ensures match Bucket(After(calls), user, w)
            case None => AcceptedTimes(calls, user, w) == []
            case Some(c) =>
              CountIn(AcceptedTimes(calls, user, w), c.start, calls[|calls| - 1].now + 1) <= c.count <= limit
  {
    RunKeeps(calls, user, w, limit, calls[|calls| - 1].now);
  }

  /** A rejected call moves neither throttle clock; an accepted one sets both to its own
      instant. */
  lemma ClocksMoveOnAcceptOnly(m: Maps, c: Call)
    ensures var (ok, m') := Called(m, c);
            && Lookup(m'.lastSendAt, ClockKey(c.user))
               == (if ok then Some(c.now) else Lookup(m.lastSendAt, ClockKey(c.user)))
            && (!ok ==> m'.lastSendAt == m.lastSendAt && m'.domainLastAt == m.domainLastAt)
            && Lookup(m'.domainLastAt, DomainClockKey(c.user, c.domain))
               == (if ok then Some(c.now) else Lookup(m.domainLastAt, DomainClockKey(c.user, c.domain)))
            && (ok ==> !Throttled(Lookup(m.lastSendAt, ClockKey(c.user)), c.throttleMS, c.now))
            && (ok ==> !Throttled(Lookup(m.domainLastAt, DomainClockKey(c.user, c.domain)), c.domainThrottleMS, c.now))
  {
  }

  lemma LastSendAfterCall(m: Maps, c: Call, user: int)
    ensures Lookup(Called(m, c).1.lastSendAt, ClockKey(user))
            == if Called(m, c).0 && c.user == user then Some(c.now) else Lookup(m.lastSendAt, ClockKey(user))
  {
    ClockKeyInjective(c.user, user);
  }

  /** A user's send clock shows the newest accepted call. */
  lemma {:induction false} LastSendIsLastAccepted(calls: seq<Call>, user: int)
    ensures var times := AcceptedTimes(calls, user, PerSec);
            Lookup(After(calls).lastSendAt, ClockKey(user)) == if times == [] then None else Some(times[|times| - 1])
  {
    if calls != [] {
      var prior := calls[..|calls| - 1];
      LastSendIsLastAccepted(prior, user);
      LastSendAfterCall(After(prior), calls[|calls| - 1], user);
    }
  }

  predicate Apart(times: seq<int>, gap: int) {
    forall i, j :: 0 <= i < j < |times| ==> times[j] - times[i] >= gap
  }

  lemma ApartAppend(times: seq<int>, gap: int, time: int)
    requires gap > 0 && Apart(times, gap) && (times != [] ==> time - times[|times| - 1] >= gap)
    ensures Apart(times + [time], gap)
  {
  }

  /** Any two accepted calls of a user with a constant throttle are at least the throttle
      apart. */
  lemma {:induction false} ThrottleSpacing(calls: seq<Call>, user: int, throttleMS: int)
    requires throttleMS > 0
    requires forall i :: 0 <= i < |calls| && calls[i].user == user ==> calls[i].throttleMS == throttleMS
    ensures Apart(AcceptedTimes(calls, user, PerSec), throttleMS * NANOS_PER_MILLI)
  {
    if calls != [] {
      var prior := calls[..|calls| - 1];
      var c := calls[|calls| - 1];
      ThrottleSpacing(prior, user, throttleMS);
      if c.user == user && LastAccepted(calls) {
        LastSendIsLastAccepted(prior, user);
        ClocksMoveOnAcceptOnly(After(prior), c);
        ApartAppend(AcceptedTimes(prior, user, PerSec), throttleMS * NANOS_PER_MILLI, c.now);
      }
    }
  }

  lemma LastDomainSendAfterCall(m: Maps, c: Call, user: int, domain: string)
    ensures Lookup(Called(m, c).1.domainLastAt, DomainClockKey(user, domain))
            == if Called(m, c).0 && c.user == user && c.domain == domain then Some(c.now)
               else Lookup(m.domainLastAt, DomainClockKey(user, domain))
  {
    DomainClockKeyInjective(c.user, c.domain, user, domain);
  }

  /** A domain's send clock shows the newest accepted call of the user for that domain. */
  lemma {:induction false} LastDomainSendIsLastAccepted(calls: seq<Call>, user: int, domain: string)
    ensures var times := AcceptedTimes(calls, user, DomainHour(domain));
            Lookup(After(calls).domainLastAt, DomainClockKey(user, domain))
            == if times == [] then None else Some(times[|times| - 1])
  {
    if calls != [] {
      var prior := calls[..|calls| - 1];
      LastDomainSendIsLastAccepted(prior, user, domain);
      LastDomainSendAfterCall(After(prior), calls[|calls| - 1], user, domain);
    }
  }

  /** Any two accepted calls of a user for a domain with a constant throttle are at least
      that throttle apart. */
  lemma {:induction false} DomainThrottleSpacing(calls: seq<Call>, user: int, domain: string, throttleMS: int)
    requires throttleMS > 0
    requires forall i :: 0 <= i < |calls| && calls[i].user == user && calls[i].domain == domain ==>
               calls[i].domainThrottleMS == throttleMS
    ensures Apart(AcceptedTimes(calls, user, DomainHour(domain)), throttleMS * NANOS_PER_MILLI)
  {
    if calls != [] {
      var prior := calls[..|calls| - 1];
      var c := calls[|calls| - 1];
      DomainThrottleSpacing(prior, user, domain, throttleMS);
      if c.user == user && c.domain == domain && LastAccepted(calls) {
        LastDomainSendIsLastAccepted(prior, user, domain);
        ClocksMoveOnAcceptOnly(After(prior), c);
        ApartAppend(AcceptedTimes(prior, user, DomainHour(domain)), throttleMS * NANOS_PER_MILLI, c.now);
      }
    }
  }

  // ---- Non-interference ----

  /** The two states agree on everything that belongs to `user`. */
  ghost predicate SameFor(m: Maps, m': Maps, user: int) {
    && (forall w: Window :: Bucket(m, user, w) == Bucket(m', user, w))
    && Lookup(m.lastSendAt, ClockKey(user)) == Lookup(m'.lastSendAt, ClockKey(user))
    && (forall d :: Lookup(m.domainLastAt, DomainClockKey(user, d)) == Lookup(m'.domainLastAt, DomainClockKey(user, d)))
  }

  /** A call touches nothing of another user. */
  lemma OtherUserUntouched(m: Maps, c: Call, user: int)
    requires c.user != user
    ensures SameFor(m, Called(m, c).1, user)
  {
    var m' := Called(m, c).1;
    forall w: Window ensures Bucket(m, user, w) == Bucket(m', user, w) {
      CallEffect(m, c, user, w);
    }
    ClockKeyInjective(c.user, user);
    forall d
      ensures Lookup(m.domainLastAt, DomainClockKey(user, d)) == Lookup(m'.domainLastAt, DomainClockKey(user, d))
    {
      DomainClockKeyInjective(c.user, c.domain, user, d);
    }
  }

  ghost predicate SameBuckets(b: map<string, Counter>, b': map<string, Counter>, user: int) {
    forall w: Window :: Lookup(b, BucketKey(user, w)) == Lookup(b', BucketKey(user, w))
  }

  lemma {:induction false} ChargedAlike(b: map<string, Counter>, b': map<string, Counter>, c: Call, checks: seq<Check>)
    requires forall i :: 0 <= i < |checks| ==> exists w :: checks[i] == CheckFor(c, w)
    requires SameBuckets(b, b', c.user)
    ensures var (ok, r) := Charged(b, checks, c.now); var (ok', r') := Charged(b', checks, c.now);
            ok == ok' && SameBuckets(r, r', c.user)
    decreases |checks|
  {
    if checks != [] {
      var tail := checks[1..];
      assert forall i :: 0 <= i < |tail| ==> tail[i] == checks[i + 1];
      var w :| checks[0] == CheckFor(c, w);
      assert Lookup(b, BucketKey(c.user, w)) == Lookup(b', BucketKey(c.user, w));
      var next := Bumped(Lookup(b, checks[0].key), checks[0], c.now);
      if checks[0].limit <= 0 {
        ChargedAlike(b, b', c, tail);
      } else if next.Some? {
        ChargedAlike(b[checks[0].key := next.value], b'[checks[0].key := next.value], c, tail);
      }
    }
  }

  /** A user's call depends on, and changes, only what belongs to that user. */
  lemma OwnCallAlike(m: Maps, m': Maps, c: Call)
    requires SameFor(m, m', c.user)
    ensures Called(m, c).0 == Called(m', c).0
    ensures SameFor(Called(m, c).1, Called(m', c).1, c.user)
  {
    var checks := Checks(c);
    forall i | 0 <= i < |checks| ensures exists w :: checks[i] == CheckFor(c, w) {
      assert checks[i] == CheckFor(c, WindowsOf(c)[i]);
    }
    assert SameBuckets(m.buckets, m'.buckets, c.user) by {
      forall w: Window ensures Lookup(m.buckets, BucketKey(c.user, w)) == Lookup(m'.buckets, BucketKey(c.user, w)) {
        assert Bucket(m, c.user, w) == Bucket(m', c.user, w);
      }
    }
    ChargedAlike(m.buckets, m'.buckets, c, checks);
  }

  /** The outcomes `user` sees along the calls, from state `m`. */
  function AnswersTo(m: Maps, calls: seq<Call>, user: int): seq<bool>
    decreases |calls|
  {
    if calls == [] then []
    else
      var (ok, m') := Called(m, calls[0]);
      (if calls[0].user == user then [ok] else []) + AnswersTo(m', calls[1..], user)
  }

  function OwnCalls(calls: seq<Call>, user: int): seq<Call> {
    if calls == [] then []
    else (if calls[0].user == user then [calls[0]] else []) + OwnCalls(calls[1..], user)
  }

  /** What a user sees is what the user would see alone, from any state that agrees on the
      user's keys: no call of anyone else changes any later outcome. */
  lemma {:induction false} NonInterference(m: Maps, m': Maps, calls: seq<Call>, user: int)
    requires SameFor(m, m', user)
    ensures AnswersTo(m, calls, user) == AnswersTo(m', OwnCalls(calls, user), user)
    decreases |calls|
  {
    if calls != [] {
      if calls[0].user == user {
        OwnCallAlike(m, m', calls[0]);
        NonInterference(Called(m, calls[0]).1, Called(m', calls[0]).1, calls[1..], user);
        assert OwnCalls(calls, user)[1..] == OwnCalls(calls[1..], user);
      } else {
        OtherUserUntouched(m, calls[0], user);
        NonInterference(Called(m, calls[0]).1, m', calls[1..], user);
        assert OwnCalls(calls, user) == OwnCalls(calls[1..], user);
      }
    }
  }

  /** Two domains of one user have separate hourly counters and separate clocks. */
  lemma DomainsAreSeparate(m: Maps, c: Call, domain: string)
    requires domain != c.domain
    ensures var m' := Called(m, c).1;
            && Bucket(m', c.user, DomainHour(domain)) == Bucket(m, c.user, DomainHour(domain))
            && Lookup(m'.domainLastAt, DomainClockKey(c.user, domain))
               == Lookup(m.domainLastAt, DomainClockKey(c.user, domain))
  {
    CallEffect(m, c, c.user, DomainHour(domain));
    DomainClockKeyInjective(c.user, c.domain, c.user, domain);
  }
}
