/** The life of one queue item: what its history and its row say about each other, and how
    every check and delivery keeps that. */
module ItemLife {
  import opened Addresses
  import opened Clock
  import opened EventLog
  import opened Holding
  import opened Machine
  import opened Options
  import opened Queue
  import opened Records
  import opened Worker

  const MAX_FAILED_DELIVERIES := 5

  /** How often one rule can hold an item while the newest send it sees stays the same. */
  function MaxHolds(rule: HoldRule): nat {
    if IsThrottle(rule) then 3 else 2
  }

  /** Earliest second of the next attempt after `n` > 0 holds by one rule on one newest
      send. */
  function HoldFloor(cfg: Config, h: ItemHistory, rule: HoldRule, last: int, n: nat): int
    requires h.user in cfg.users
  {
    Deadline(cfg, h.user, ExtractDomain(h.rcptTo), rule, last)
    + if IsThrottle(rule) then n - 2 else (n - 1) * WindowOf(rule)
  }

  /** Retries are at least 30 recorded seconds apart. */
  predicate Spaced(refused: seq<int>) {
    forall i, j :: 0 <= i < j < |refused| ==> refused[j] - refused[i] >= RETRY_SECONDS * (j - i)
  }

  ghost predicate HoldsBounded(h: ItemHistory) {
    forall rule: HoldRule, last: int :: h.holds[(rule, last)] <= MaxHolds(rule)
  }

  ghost predicate HoldsPushed(cfg: Config, h: ItemHistory, nextAttempt: int) {
    forall rule: HoldRule, last: int :: h.holds[(rule, last)] > 0 ==>
      h.user in cfg.users && nextAttempt >= HoldFloor(cfg, h, rule, last, h.holds[(rule, last)])
  }

  /** Holds of every history, whether its row still exists or not. */
  ghost predicate HistoryOK(h: ItemHistory) {
    && |h.accepted| <= 1
    && |h.refused| <= MAX_FAILED_DELIVERIES
    && (h.gaveUp ==> h.accepted == [])
    && Spaced(h.refused)
    && HoldsBounded(h)
  }

  /** Holds of a history and the item it is about. */
  ghost predicate ItemOK(cfg: Config, h: ItemHistory, it: Item) {
    && HistoryOK(h)
    && it.user == h.user && it.rcptTo == h.rcptTo
    && it.attempts == |h.refused| + h.checkErrors
    && (it.status == Sent <==> h.accepted != [])
    && (it.status == Failed <==> h.gaveUp)
    && (it.status != Failed ==> |h.refused| < MAX_FAILED_DELIVERIES)
    && (it.status == Failed ==> it.attempts > MAX_ATTEMPTS_BEFORE_LAST)
    && h.lateErrors <= h.checkErrors
    && (h.lateErrors == 0 <==>
          it.attempts <= if it.status == Failed then MAX_FAILED_DELIVERIES else MAX_ATTEMPTS_BEFORE_LAST)
    && (it.status == Pending ==>
          && HoldsPushed(cfg, h, it.nextAttempt)
          && (h.refused != [] ==> it.nextAttempt >= h.refused[|h.refused| - 1] + RETRY_SECONDS))
  }

  lemma NewItemOK(cfg: Config, id: nat, user: int, mailFrom: string, rcptTo: string, data: string, at: int)
    ensures ItemOK(cfg, NewHistory(user, rcptTo), NewItem(id, user, mailFrom, rcptTo, data, at))
  {
  }

  /** A failing check costs an attempt and nothing else. */
  lemma ErrorKeepsOK(cfg: Config, h: ItemHistory, it: Item, at: int)
    requires ItemOK(cfg, h, it) && it.status == Pending && it.nextAttempt <= Sec(at)
    ensures ItemOK(cfg, AfterError(h, it), RetriedItem(it, CheckFailure, at))
  {
    var h' := AfterError(h, it);
    forall rule: HoldRule, last: int | h'.holds[(rule, last)] > 0
      ensures h'.user in cfg.users && Sec(at) + RETRY_SECONDS >= HoldFloor(cfg, h', rule, last, h'.holds[(rule, last)])
    {
      assert h.holds[(rule, last)] > 0;
    }
    assert HoldsBounded(h');
  }

  /** Accepted: the one acceptance an item can have. */
  lemma AcceptKeepsOK(cfg: Config, h: ItemHistory, it: Item, account: nat, at: int)
    requires ItemOK(cfg, h, it) && it.status == Pending
    ensures ItemOK(cfg, HistoryAfterFinish(h, it, Some(account), at), SentItem(it, at))
  {
    assert HoldsBounded(HistoryAfterFinish(h, it, Some(account), at));
  }

  lemma SpacedAppend(refused: seq<int>, second: int)
    requires Spaced(refused) && (refused != [] ==> second >= refused[|refused| - 1] + RETRY_SECONDS)
    ensures Spaced(refused + [second])
  {
  }

  /** Refused: retried 30 seconds later, or given up at the fifth failed delivery at the
      latest. */
  lemma RefusalKeepsOK(cfg: Config, h: ItemHistory, it: Item, at: int)
    requires ItemOK(cfg, h, it) && it.status == Pending && it.nextAttempt <= Sec(at)
    ensures ItemOK(cfg, HistoryAfterFinish(h, it, None, at),
                   if it.attempts >= MAX_ATTEMPTS_BEFORE_LAST then FailedItem(it, DeliveryFailure, at)
                   else RetriedItem(it, DeliveryFailure, at))
  {
    var h' := HistoryAfterFinish(h, it, None, at);
    SpacedAppend(h.refused, Sec(at));
    forall rule: HoldRule, last: int | h'.holds[(rule, last)] > 0
      ensures h'.user in cfg.users && Sec(at) + RETRY_SECONDS >= HoldFloor(cfg, h', rule, last, h'.holds[(rule, last)])
    {
      assert h.holds[(rule, last)] > 0;
    }
    assert HoldsBounded(h');
  }

  /** Where one hold at `now` moves the next attempt, relative to the rule's deadline. */
  lemma HoldMoves(cfg: Config, events: seq<Event>, user: int, domain: string, rule: HoldRule, last: int, now: int,
                  at: int)
    requires user in cfg.users && !Passes(cfg, events, user, domain, rule, now) && now <= at
    requires LastSent(events, RuleScope(user, domain, rule)) == Some(last) && last <= Sec(now)
    ensures var next := Sec(at) + DeferSeconds(WaitOf(cfg, user, domain, rule, last, now));
            && next > Sec(now)
            && (next == Sec(at) + 1
                || (next - Sec(at)) * 1_000_000_000 <= WaitOf(cfg, user, domain, rule, last, now))
            && Sec(now) <= Deadline(cfg, user, domain, rule, last)
            && (if IsThrottle(rule) then next >= Deadline(cfg, user, domain, rule, last) - 1
                else next >= Sec(now) + WindowOf(rule) && next >= Deadline(cfg, user, domain, rule, last))
  {
    HeldBeforeDeadline(cfg, events, user, domain, rule, now);
    var wait := WaitOf(cfg, user, domain, rule, last, now);
    SecMonotone(now, at);
    if IsThrottle(rule) {
      assert Deadline(cfg, user, domain, rule, last) == Sec(now + wait);
    }
  }

  /** Held: at most three times by a throttle, twice by a window rule, as long as the rule
      sees the same newest send. */
  lemma HoldKeepsOK(cfg: Config, h: ItemHistory, it: Item, events: seq<Event>, rule: HoldRule,
                    last: int, now: int, at: int)
    requires ItemOK(cfg, h, it) && it.status == Pending && it.nextAttempt <= Sec(now) && now <= at
    requires it.user in cfg.users && !Passes(cfg, events, it.user, ExtractDomain(it.rcptTo), rule, now)
    requires LastSent(events, RuleScope(it.user, ExtractDomain(it.rcptTo), rule)) == Some(last) && last <= Sec(now)
    ensures ItemOK(cfg, h.(holds := h.holds + multiset{(rule, last)}),
                   DeferredItem(it, HeldBy(rule), WaitOf(cfg, it.user, ExtractDomain(it.rcptTo), rule, last, now), at))
  {
    var domain := ExtractDomain(it.rcptTo);
    var next := Sec(at) + DeferSeconds(WaitOf(cfg, it.user, domain, rule, last, now));
    var h' := h.(holds := h.holds + multiset{(rule, last)});
    HoldMoves(cfg, events, it.user, domain, rule, last, now, at);
    var n := h.holds[(rule, last)];
    if n > 0 {
      assert it.nextAttempt >= HoldFloor(cfg, h, rule, last, n);
    }
    forall r: HoldRule, l: int
      ensures h'.holds[(r, l)] <= MaxHolds(r)
      ensures h'.holds[(r, l)] > 0 ==> next >= HoldFloor(cfg, h', r, l, h'.holds[(r, l)])
    {
      if (r, l) == (rule, last) {
        assert h'.holds[(r, l)] == n + 1;
      } else {
        assert h'.holds[(r, l)] == h.holds[(r, l)];
      }
    }
  }
}
