/** One call of the limiter written out: when it is accepted, and what it charges. */
module LimiterMeaning {
  import opened Limiter
  import opened LimiterProperties
  import opened Options

  /** No throttle, no earlier send, or the earlier send at least the throttle ago. */
  predicate Over(last: Option<int>, throttleMS: int, now: int) {
    throttleMS > 0 && last.Some? ==> now - last.value >= throttleMS * 1_000_000
  }

  /** The bucket's window is still running. */
  predicate Live(b: Option<Counter>, length: int, now: int) {
    b.Some? && now - b.value.start < length
  }

  /** No limit, no running window, or fewer calls counted in it than the limit. */
  predicate HasRoom(b: Option<Counter>, limit: int, length: int, now: int) {
    limit > 0 && Live(b, length, now) ==> b.value.count < limit
  }

  /** The bucket after a call that was charged to it: one more, or a new window. */
  predicate ChargedTo(before: Option<Counter>, after: Option<Counter>, limit: int, length: int, now: int) {
    if limit <= 0 then after == before
    else if Live(before, length, now) then
      after.Some? && after.value.count == before.value.count + 1 && after.value.start == before.value.start
    else after.Some? && after.value.count == 1 && after.value.start == now
  }

  /** Room in every bucket of the call, limits and window lengths written out. */
  predicate RoomEverywhere(m: Maps, c: Call) {
    && HasRoom(Lookup(m.buckets, BucketKey(c.user, PerSec)), c.perSec, 1_000_000_000, c.now)
    && HasRoom(Lookup(m.buckets, BucketKey(c.user, PerMin)), c.perMin, 60_000_000_000, c.now)
    && HasRoom(Lookup(m.buckets, BucketKey(c.user, PerHour)), c.perHour, 3_600_000_000_000, c.now)
    && HasRoom(Lookup(m.buckets, BucketKey(c.user, PerDay)), c.perDay, 86_400_000_000_000, c.now)
    && HasRoom(Lookup(m.buckets, BucketKey(c.user, DomainHour(c.domain))), c.domainPerHour, 3_600_000_000_000, c.now)
  }

  predicate AllHaveRoom(buckets: map<string, Counter>, checks: seq<Check>, now: int) {
    forall i :: 0 <= i < |checks| ==> HasRoom(Lookup(buckets, checks[i].key), checks[i].limit, checks[i].win, now)
  }

  /** Charging succeeds exactly when every check has room. */
  lemma {:induction false} ChargedExactly(buckets: map<string, Counter>, checks: seq<Check>, now: int)
    requires DistinctKeys(checks)
    ensures Charged(buckets, checks, now).0 <==> AllHaveRoom(buckets, checks, now)
    decreases |checks|
  {
    if checks != [] {
      var c, tail := checks[0], checks[1..];
      assert forall i :: 0 <= i < |tail| ==> tail[i] == checks[i + 1];
      assert AllHaveRoom(buckets, checks, now)
        <==> HasRoom(Lookup(buckets, c.key), c.limit, c.win, now) && AllHaveRoom(buckets, tail, now);
      if c.limit <= 0 {
        ChargedExactly(buckets, tail, now);
      } else {
        var b := Bumped(Lookup(buckets, c.key), c, now);
        if b.Some? {
          ChargedExactly(buckets[c.key := b.value], tail, now);
          assert forall i :: 0 <= i < |tail| ==>
              Lookup(buckets[c.key := b.value], tail[i].key) == Lookup(buckets, tail[i].key);
        }
      }
    }
  }

  lemma ChecksHaveRoom(m: Maps, c: Call)
    ensures AllHaveRoom(m.buckets, Checks(c), c.now) <==> RoomEverywhere(m, c)
  {
    var checks := Checks(c);
    assert |checks| == 5;
    assert checks[0] == Check(BucketKey(c.user, PerSec), c.perSec, 1_000_000_000);
    assert checks[1] == Check(BucketKey(c.user, PerMin), c.perMin, 60_000_000_000);
    assert checks[2] == Check(BucketKey(c.user, PerHour), c.perHour, 3_600_000_000_000);
    assert checks[3] == Check(BucketKey(c.user, PerDay), c.perDay, 86_400_000_000_000);
    assert checks[4] == Check(BucketKey(c.user, DomainHour(c.domain)), c.domainPerHour, 3_600_000_000_000);
  }

  /** A call is accepted if and only if both throttles are over and every bucket has room. */
  lemma AcceptedExactly(m: Maps, c: Call)
    ensures Called(m, c).0
            <==> Over(Lookup(m.lastSendAt, ClockKey(c.user)), c.throttleMS, c.now)
                 && Over(Lookup(m.domainLastAt, DomainClockKey(c.user, c.domain)), c.domainThrottleMS, c.now)
                 && RoomEverywhere(m, c)
  {
    ChecksShape(c);
    ChargedExactly(m.buckets, Checks(c), c.now);
    ChecksHaveRoom(m, c);
  }

  lemma BumpedIsCharged(b: Option<Counter>, check: Check, now: int)
    requires check.limit > 0 && Bumped(b, check, now).Some?
    ensures ChargedTo(b, Bumped(b, check, now), check.limit, check.win, now)
  {
  }

  lemma AcceptedCharges(m: Maps, c: Call, w: Window)
    requires Called(m, c).0 && Counts(c, c.user, w)
    ensures var check := CheckFor(c, w);
            ChargedTo(Bucket(m, c.user, w), Bucket(Called(m, c).1, c.user, w), check.limit, check.win, c.now)
  {
    CallEffect(m, c, c.user, w);
    var check := CheckFor(c, w);
    if check.limit > 0 {
      BumpedIsCharged(Bucket(m, c.user, w), check, c.now);
    } else {
      assert Bucket(Called(m, c).1, c.user, w) == Bucket(m, c.user, w);
    }
  }

  /** An accepted call counts once in each bucket whose limit is on, or starts its window
      anew; the others stay. */
  lemma ChargesExactly(m: Maps, c: Call)
    requires Called(m, c).0
    ensures var b, b' := m.buckets, Called(m, c).1.buckets;
            && ChargedTo(Lookup(b, BucketKey(c.user, PerSec)), Lookup(b', BucketKey(c.user, PerSec)),
                         c.perSec, 1_000_000_000, c.now)
            && ChargedTo(Lookup(b, BucketKey(c.user, PerMin)), Lookup(b', BucketKey(c.user, PerMin)),
                         c.perMin, 60_000_000_000, c.now)
            && ChargedTo(Lookup(b, BucketKey(c.user, PerHour)), Lookup(b', BucketKey(c.user, PerHour)),
                         c.perHour, 3_600_000_000_000, c.now)
            && ChargedTo(Lookup(b, BucketKey(c.user, PerDay)), Lookup(b', BucketKey(c.user, PerDay)),
                         c.perDay, 86_400_000_000_000, c.now)
            && ChargedTo(Lookup(b, BucketKey(c.user, DomainHour(c.domain))),
                         Lookup(b', BucketKey(c.user, DomainHour(c.domain))),
                         c.domainPerHour, 3_600_000_000_000, c.now)
  {
    AcceptedCharges(m, c, PerSec);
    AcceptedCharges(m, c, PerMin);
    AcceptedCharges(m, c, PerHour);
    AcceptedCharges(m, c, PerDay);
    AcceptedCharges(m, c, DomainHour(c.domain));
  }

  lemma RestHasRoom(buckets: map<string, Counter>, checks: seq<Check>, now: int)
    requires checks != [] && AllHaveRoom(buckets, checks, now)
    ensures AllHaveRoom(buckets, checks[1..], now)
  {
  }

  predicate NoneUses(checks: seq<Check>, key: string) {
    forall i :: 0 <= i < |checks| ==> checks[i].key != key
  }

  /** What is charged when check `k` is the first without room. */
  lemma {:induction false} ChargedUpTo(buckets: map<string, Counter>, checks: seq<Check>, now: int, k: nat)
    requires DistinctKeys(checks) && k < |checks|
    requires !HasRoom(Lookup(buckets, checks[k].key), checks[k].limit, checks[k].win, now)
    requires AllHaveRoom(buckets, checks[..k], now)
    ensures var after := Charged(buckets, checks, now).1;
            && (forall i :: 0 <= i < k ==>
                  ChargedTo(Lookup(buckets, checks[i].key), Lookup(after, checks[i].key),
                            checks[i].limit, checks[i].win, now))
            && (forall key :: NoneUses(checks[..k], key) ==> Lookup(after, key) == Lookup(buckets, key))
    decreases |checks|
  {
    if k > 0 {
      var c, tail := checks[0], checks[1..];
      assert checks[..k][0] == c;
      assert tail[..k - 1] == checks[..k][1..];
      assert forall i :: 0 <= i < |tail| ==> tail[i] == checks[i + 1];
      assert HasRoom(Lookup(buckets, c.key), c.limit, c.win, now);
      var next := if c.limit <= 0 then buckets else buckets[c.key := Bumped(Lookup(buckets, c.key), c, now).value];
      assert forall i :: 0 <= i < |tail| ==> Lookup(next, tail[i].key) == Lookup(buckets, tail[i].key);
      RestHasRoom(buckets, checks[..k], now);
      assert AllHaveRoom(next, tail[..k - 1], now) by {
        forall i | 0 <= i < k - 1 ensures tail[..k - 1][i] == tail[i] {
        }
      }
      ChargedUpTo(next, tail, now, k - 1);
      var after := Charged(buckets, checks, now).1;
      assert after == Charged(next, tail, now).1;
      forall i | 0 <= i < k
        ensures ChargedTo(Lookup(buckets, checks[i].key), Lookup(after, checks[i].key),
                          checks[i].limit, checks[i].win, now)
      {
        if i == 0 {
          assert forall j :: 0 <= j < k - 1 ==> tail[j].key != c.key;
        } else {
          assert checks[i] == tail[i - 1];
        }
      }
      forall key | NoneUses(checks[..k], key) ensures Lookup(after, key) == Lookup(buckets, key) {
        assert checks[..k][0].key != key;
        assert NoneUses(tail[..k - 1], key);
      }
    }
  }

  /** A call whose throttles are over and that is rejected at window `k`, the first without
      room, has been charged to the windows before it and to nothing else. */
  lemma RejectionCharges(m: Maps, c: Call, k: nat)
    requires Over(Lookup(m.lastSendAt, ClockKey(c.user)), c.throttleMS, c.now)
    requires Over(Lookup(m.domainLastAt, DomainClockKey(c.user, c.domain)), c.domainThrottleMS, c.now)
    requires k < 5 && AllHaveRoom(m.buckets, Checks(c)[..k], c.now)
    requires var check := Checks(c)[k]; !HasRoom(Lookup(m.buckets, check.key), check.limit, check.win, c.now)
    ensures var (ok, after) := Called(m, c); var checks := Checks(c);
            && !ok && after.lastSendAt == m.lastSendAt && after.domainLastAt == m.domainLastAt
            && (forall i :: 0 <= i < k ==>
                  ChargedTo(Lookup(m.buckets, checks[i].key), Lookup(after.buckets, checks[i].key),
                            checks[i].limit, checks[i].win, c.now))
            && (forall key :: NoneUses(checks[..k], key) ==> Lookup(after.buckets, key) == Lookup(m.buckets, key))
  {
    ChecksShape(c);
    ChargedExactly(m.buckets, Checks(c), c.now);
    ChargedUpTo(m.buckets, Checks(c), c.now, k);
  }

  /** A call rejected by a throttle changes nothing. */
  lemma ThrottledChangesNothing(m: Maps, c: Call)
    requires !Over(Lookup(m.lastSendAt, ClockKey(c.user)), c.throttleMS, c.now)
             || !Over(Lookup(m.domainLastAt, DomainClockKey(c.user, c.domain)), c.domainThrottleMS, c.now)
    ensures Called(m, c) == (false, m)
  {
  }
}
