/** How close two sends of a throttled user really come.  The newest send is read back under
    a whole second, so a throttle of T is missed by anything less than a second; the bound
    T less one second is met, and no larger one is. */
module ThrottleGaps {
  import opened Acceptances
  import opened Addresses
  import opened Clock
  import opened Deliveries
  import opened Holding
  import opened HoldMeaning
  import opened Invariant
  import opened Machine
  import opened Records

  /** The user's throttle is the only rule in force for mail to `addr`. */
  predicate OnlyUserThrottle(cfg: Config, user: int, addr: string) {
    && user in cfg.users && ExtractDomain(addr) != ""
    && var u := cfg.users[user];
    && u.throttleMS > 0 && u.limitPerSec <= 0 && u.limitPerMin <= 0 && u.limitPerHour <= 0 && u.limitPerDay <= 0
    && ((user, ExtractDomain(addr)) in cfg.rules ==>
          && cfg.rules[(user, ExtractDomain(addr))].throttleMS <= 0
          && cfg.rules[(user, ExtractDomain(addr))].limitPerHour <= 0)
  }

  /** Acceptances i and j are the user's, with none of the user's in between, `gap` apart in
      real time. */
  predicate Successive(acc: seq<Acceptance>, user: int, i: nat, j: nat, gap: int) {
    && i < j < |acc| && acc[i].user == user && acc[j].user == user
    && (forall k :: i < k < j ==> acc[k].user != user)
    && acc[j].at - acc[i].at == gap
  }

  ghost predicate GapHappens(cfg: Config, user: int, gap: int) {
    exists run, i, j :: Run(cfg, run).Some? && Successive(Accepted(cfg, run), user, i, j, gap)
  }

  /** The last instant of second 0. */
  const LAST_NANO := NANOS_PER_SECOND - 1

  lemma ClearedByThrottle(cfg: Config, events: seq<Event>, user: int, addr: string, now: int)
    requires OnlyUserThrottle(cfg, user, addr) && ThrottleOver(events, user, "", cfg.users[user].throttleMS, now)
    ensures HoldVerdict(cfg, events, user, ExtractDomain(addr), now, {}) == Clear
  {
    ClearedExactly(cfg, events, user, ExtractDomain(addr), now);
  }

  lemma FirstCleared(cfg: Config, m: Message)
    requires OnlyUserThrottle(cfg, m.user, m.rcptTo)
    ensures HoldVerdict(cfg, AsQueued(START, m, 0).events, m.user, ExtractDomain(m.rcptTo), LAST_NANO, {}) == Clear
  {
    assert AsQueued(START, m, 0).events == [QueuedNow(m, 0)];
    ClearedByThrottle(cfg, [QueuedNow(m, 0)], m.user, m.rcptTo, LAST_NANO);
  }

  lemma FirstSend(cfg: Config, m: Message) returns (run: seq<Step>)
    requires OnlyUserThrottle(cfg, m.user, m.rcptTo)
    ensures Run(cfg, run).Some? && DeliveredTo(START, Run(cfg, run).value, m, 0, LAST_NANO)
    ensures Accepted(cfg, run) == [Acceptance(m.user, m.mailFrom, m.rcptTo, LAST_NANO)]
  {
    StartIsQuiet(cfg);
    FirstCleared(cfg, m);
    run := OneDelivery(cfg, [], m, 0, LAST_NANO);
  }

  function ThreeEvents(m: Message): seq<Event> {
    [QueuedNow(m, 0), SentNow(m, LAST_NANO), QueuedNow(m, LAST_NANO)]
  }

  lemma ThirdEvent(w: World, m: Message)
    requires DeliveredTo(START, w, m, 0, LAST_NANO) && ExtractDomain(m.rcptTo) != ""
    ensures AsQueued(w, m, LAST_NANO).events == ThreeEvents(m)
  {
    assert w.db.events == [QueuedNow(m, 0), SentNow(m, LAST_NANO)];
  }

  /** A second message, submitted at once, is cleared as early as the throttle allows. */
  lemma SecondCleared(cfg: Config, w: World, m: Message, gap: int)
    requires OnlyUserThrottle(cfg, m.user, m.rcptTo) && DeliveredTo(START, w, m, 0, LAST_NANO)
    requires gap > cfg.users[m.user].throttleMS * NANOS_PER_MILLI - NANOS_PER_SECOND
    ensures HoldVerdict(cfg, AsQueued(w, m, LAST_NANO).events, m.user, ExtractDomain(m.rcptTo), LAST_NANO + gap, {})
            == Clear
  {
    ThirdEvent(w, m);
    ClearedByThrottle(cfg, ThreeEvents(m), m.user, m.rcptTo, LAST_NANO + gap);
  }

  lemma TwoSends(cfg: Config, m: Message, gap: int) returns (run: seq<Step>)
    requires OnlyUserThrottle(cfg, m.user, m.rcptTo) && gap >= 0
    requires gap > cfg.users[m.user].throttleMS * NANOS_PER_MILLI - NANOS_PER_SECOND
    ensures Run(cfg, run).Some? && Successive(Accepted(cfg, run), m.user, 0, 1, gap)
  {
    var first := FirstSend(cfg, m);
    SecondCleared(cfg, Run(cfg, first).value, m, gap);
    run := OneDelivery(cfg, first, m, LAST_NANO, LAST_NANO + gap);
  }

  /** With only a user's throttle of T in force, some run has two successive messages of the
      user accepted exactly `gap` apart if and only if the gap is more than T less one second. */
  lemma ThrottleGapsExactly(cfg: Config, user: int, addr: string, gap: int)
    requires OnlyUserThrottle(cfg, user, addr) && gap >= 0
    ensures GapHappens(cfg, user, gap) <==> gap > cfg.users[user].throttleMS * 1_000_000 - 1_000_000_000
  {
    if gap > cfg.users[user].throttleMS * 1_000_000 - 1_000_000_000 {
      var run := TwoSends(cfg, Message(user, "alice@example.com", addr, ""), gap);
    } else {
      forall run, i: nat, j: nat | Run(cfg, run).Some? && Successive(Accepted(cfg, run), user, i, j, gap)
        ensures false
      {
        UserThrottleHolds(cfg, run, user);
        assert Concerns(Accepted(cfg, run)[i], user, "") && Concerns(Accepted(cfg, run)[j], user, "");
      }
    }
  }
}
