/** The rate limits over whole runs: sliding windows and throttle spacing, in recorded
    seconds and in real time. */
module Limits {
  import opened Addresses
  import opened Clock
  import opened EventLog
  import opened Holding
  import opened Invariant
  import opened Machine
  import opened Records
  import opened Worker

  /** The rule really looks at the sends to `domain`: always so for a user rule; for a
      domain rule when the domain is its own query form. */
  predicate Binding(domain: string, rule: HoldRule) {
    rule == DomainThrottle || rule == DomainPerHour ==> domain != "" && QueryDomain(domain) == domain
  }

  function CountWindow(events: seq<Event>, scope: Scope, from: int, length: int): nat {
    CountBetween(events, scope, from, from + length)
  }

  /** Any window+1 consecutive recorded seconds hold at most `limit` sends. */
  ghost predicate WindowsFull(events: seq<Event>, scope: Scope, length: int, limit: int) {
    forall from :: CountWindow(events, scope, from, length) <= limit
  }

  /** Any two sends of the scope are further apart than the throttle less one second, and
      by at least the throttle's whole seconds on record. */
  predicate Apart(events: seq<Event>, stamps: seq<int>, scope: Scope, throttleMS: int)
    requires |stamps| == |events|
  {
    forall i, j :: 0 <= i < j < |events| && Matches(events[i], scope) && Matches(events[j], scope) ==>
      && stamps[j] - stamps[i] > throttleMS * NANOS_PER_MILLI - NANOS_PER_SECOND
      && events[j].createdAt - events[i].createdAt >= throttleMS / 1000
  }

  ghost predicate Respected(cfg: Config, w: World, user: int, domain: string, rule: HoldRule)
    requires user in cfg.users && |w.stamps| == |w.db.events|
  {
    var n := Setting(cfg, user, domain, rule);
    var scope := RuleScope(user, domain, rule);
    n > 0 ==>
      if IsThrottle(rule) then Apart(w.db.events, w.stamps, scope, n)
      else WindowsFull(w.db.events, scope, WindowOf(rule), n)
  }

  lemma OtherEventKeeps(cfg: Config, w: World, w': World, e: Event, at: int, user: int, domain: string, rule: HoldRule)
    requires user in cfg.users && LogTimed(w) && Respected(cfg, w, user, domain, rule)
    requires w'.db.events == w.db.events + [e] && w'.stamps == w.stamps + [at]
    requires !Matches(e, RuleScope(user, domain, rule))
    ensures Respected(cfg, w', user, domain, rule)
  {
    var scope := RuleScope(user, domain, rule);
    QueriesAfterAppend(w.db.events, e, scope);
    if !IsThrottle(rule) && Setting(cfg, user, domain, rule) > 0 {
      forall from ensures CountWindow(w'.db.events, scope, from, WindowOf(rule)) <= Setting(cfg, user, domain, rule) {
        assert CountWindow(w.db.events, scope, from, WindowOf(rule)) <= Setting(cfg, user, domain, rule);
      }
    }
  }

  /** The new send fits: fewer than `limit` were recorded since a window before its check,
      and it is recorded no earlier than its check. */
  lemma SendFitsWindow(events: seq<Event>, e: Event, scope: Scope, length: int, limit: int, checked: int)
    requires WindowsFull(events, scope, length, limit)
    requires CountSince(events, scope, checked - length) < limit && checked <= e.createdAt
    ensures WindowsFull(events + [e], scope, length, limit)
  {
    QueriesAfterAppend(events, e, scope);
    forall from ensures CountWindow(events + [e], scope, from, length) <= limit {
      assert CountWindow(events, scope, from, length) <= limit;
      if from <= e.createdAt <= from + length {
        BetweenIsWithinSince(events, scope, from, from + length, checked - length);
      }
    }
  }

  lemma SendFitsThrottle(w: World, e: Event, at: int, scope: Scope, throttleMS: int, checkedAt: int)
    requires LogTimed(w) && throttleMS > 0 && Apart(w.db.events, w.stamps, scope, throttleMS)
    requires checkedAt <= at && e.createdAt == Sec(at)
    requires LastSent(w.db.events, scope).Some? ==>
               checkedAt >= LastSent(w.db.events, scope).value * NANOS_PER_SECOND + throttleMS * NANOS_PER_MILLI
    ensures Apart(w.db.events + [e], w.stamps + [at], scope, throttleMS)
  {
    LastSentIsMaximum(w.db.events, scope);
    forall i | 0 <= i < |w.db.events| && Matches(w.db.events[i], scope)
      ensures at - w.stamps[i] > throttleMS * NANOS_PER_MILLI - NANOS_PER_SECOND
      ensures e.createdAt - w.db.events[i].createdAt >= throttleMS / 1000
    {
      var last := LastSent(w.db.events, scope).value;
      SecBounds(w.stamps[i]);
      SecMonotone(last * NANOS_PER_SECOND + throttleMS * NANOS_PER_MILLI, at);
      SecShift(throttleMS * NANOS_PER_MILLI, last);
    }
  }

  /** A rule the item's send counts for is one the item passed. */
  lemma SendPassed(cfg: Config, w: World, s: Step, user: int, domain: string, rule: HoldRule)
    requires Inv(cfg, w) && s.Finish? && Legal(w, s) && user in cfg.users && Binding(domain, rule)
    requires Matches(EventFor(w.current.value.item, SentEvent, NoNote, s.logAt), RuleScope(user, domain, rule))
    ensures Passes(cfg, w.db.events, user, domain, rule, w.current.value.checkedAt)
  {
    var it := w.current.value.item;
    assert Passes(cfg, w.db.events, it.user, ExtractDomain(it.rcptTo), rule, w.current.value.checkedAt);
  }

  lemma FinishRespects(cfg: Config, w: World, s: Step, user: int, domain: string, rule: HoldRule)
    requires Inv(cfg, w) && s.Finish? && Legal(w, s) && KnownItems(w)
    requires user in cfg.users && Binding(domain, rule) && Respected(cfg, w, user, domain, rule)
    ensures |AfterFinish(w, s).stamps| == |AfterFinish(w, s).db.events|
    ensures Respected(cfg, AfterFinish(w, s), user, domain, rule)
  {
    var w' := AfterFinish(w, s);
    var it := w.current.value.item;
    var scope := RuleScope(user, domain, rule);
    if |w'.db.events| > |w.db.events| {
      var e := w'.db.events[|w.db.events|];
      assert w'.db.events == w.db.events + [e];
      if Matches(e, scope) {
        SendPassed(cfg, w, s, user, domain, rule);
        var checkedAt := w.current.value.checkedAt;
        SecMonotone(checkedAt, s.logAt);
        if Setting(cfg, user, domain, rule) > 0 {
          if IsThrottle(rule) {
            SendFitsThrottle(w, e, s.logAt, scope, Setting(cfg, user, domain, rule), checkedAt);
          } else {
            SendFitsWindow(w.db.events, e, scope, WindowOf(rule), Setting(cfg, user, domain, rule), Sec(checkedAt));
          }
        }
      } else {
        OtherEventKeeps(cfg, w, w', e, s.logAt, user, domain, rule);
      }
    }
  }

  /** Only a finished delivery can log a send: any other step logs nothing, or one event
      that is not a send. */
  lemma LogsNoSend(cfg: Config, w: World, s: Step)
    requires Legal(w, s) && KnownItems(w) && !s.Finish?
    ensures var w' := After(cfg, w, s);
            || (w'.db.events == w.db.events && w'.stamps == w.stamps)
            || (exists e: Event, at: int ::
                  e.status != SentEvent && w'.db.events == w.db.events + [e] && w'.stamps == w.stamps + [at])
  {
    var w' := After(cfg, w, s);
    if s.Submit? || (s.Check? && |w'.db.events| > |w.db.events|) {
      var e, at := w'.db.events[|w.db.events|], w'.stamps[|w.stamps|];
      assert e.status != SentEvent && w'.db.events == w.db.events + [e] && w'.stamps == w.stamps + [at];
    }
  }

  lemma StepRespects(cfg: Config, w: World, s: Step, user: int, domain: string, rule: HoldRule)
    requires Inv(cfg, w) && Legal(w, s) && KnownItems(w)
    requires user in cfg.users && Binding(domain, rule) && Respected(cfg, w, user, domain, rule)
    ensures |After(cfg, w, s).stamps| == |After(cfg, w, s).db.events|
    ensures Respected(cfg, After(cfg, w, s), user, domain, rule)
  {
    if s.Finish? {
      FinishRespects(cfg, w, s, user, domain, rule);
    } else {
      LogsNoSend(cfg, w, s);
      var w' := After(cfg, w, s);
      if |w'.db.events| > |w.db.events| {
        var e: Event, at: int
          :| e.status != SentEvent && w'.db.events == w.db.events + [e] && w'.stamps == w.stamps + [at];
        OtherEventKeeps(cfg, w, w', e, at, user, domain, rule);
      }
    }
  }

  lemma {:induction false} RunRespects(cfg: Config, run: seq<Step>, user: int, domain: string, rule: HoldRule)
    requires Run(cfg, run).Some? && user in cfg.users && Binding(domain, rule)
    ensures var w := Run(cfg, run).value; |w.stamps| == |w.db.events| && Respected(cfg, w, user, domain, rule)
  {
    if run != [] {
      var prior := run[..|run| - 1];
      RunKeepsInv(cfg, prior);
      RunRespects(cfg, prior, user, domain, rule);
      StepRespects(cfg, Run(cfg, prior).value, run[|run| - 1], user, domain, rule);
    }
  }

  // ---- The theorems ----

  /** For each positive window limit, in every reachable log: any window+1 consecutive
      recorded seconds hold at most the limit. */
  lemma SlidingWindow(cfg: Config, run: seq<Step>, user: int, domain: string, rule: HoldRule, from: int)
    requires Run(cfg, run).Some? && user in cfg.users && Binding(domain, rule)
    requires !IsThrottle(rule) && Setting(cfg, user, domain, rule) > 0
    ensures CountBetween(Run(cfg, run).value.db.events, RuleScope(user, domain, rule), from, from + WindowOf(rule))
            <= Setting(cfg, user, domain, rule)
  {
    RunRespects(cfg, run, user, domain, rule);
    var scope := RuleScope(user, domain, rule);
    assert CountWindow(Run(cfg, run).value.db.events, scope, from, WindowOf(rule)) <= Setting(cfg, user, domain, rule);
  }

  /** Sends of the scope whose true instant lies in [from, end]. */
  function CountReal(events: seq<Event>, stamps: seq<int>, scope: Scope, from: int, end: int): nat
    requires |stamps| == |events|
  {
    if events == [] then 0
    else
      var n := |events| - 1;
      CountReal(events[..n], stamps[..n], scope, from, end)
      + if Matches(events[n], scope) && from <= stamps[n] <= end then 1 else 0
  }

  lemma {:induction false} RealWithinRecorded(events: seq<Event>, stamps: seq<int>, scope: Scope, from: int, end: int)
    requires |stamps| == |events| && forall i :: 0 <= i < |events| ==> events[i].createdAt == Sec(stamps[i])
    ensures CountReal(events, stamps, scope, from, end) <= CountBetween(events, scope, Sec(from), Sec(end))
  {
    if events != [] {
      var n := |events| - 1;
      RealWithinRecorded(events[..n], stamps[..n], scope, from, end);
      if from <= stamps[n] <= end {
        SecMonotone(from, stamps[n]);
        SecMonotone(stamps[n], end);
      }
    }
  }

  lemma RealWindows(w: World, scope: Scope, length: int, limit: int, from: int)
    requires LogTimed(w) && WindowsFull(w.db.events, scope, length, limit)
    ensures CountReal(w.db.events, w.stamps, scope, from, from + length * NANOS_PER_SECOND) <= limit
  {
    var end := from + length * NANOS_PER_SECOND;
    RealWithinRecorded(w.db.events, w.stamps, scope, from, end);
    SecShift(from, length);
    assert CountWindow(w.db.events, scope, Sec(from), length) <= limit;
  }

  /** Hence any real interval of the window's length, ends included, holds at most the
      limit, although every time the check sees is floored. */
  lemma SlidingWindowRealTime(cfg: Config, run: seq<Step>, user: int, domain: string, rule: HoldRule, from: int)
    requires Run(cfg, run).Some? && user in cfg.users && Binding(domain, rule)
    requires !IsThrottle(rule) && Setting(cfg, user, domain, rule) > 0
    ensures var w := Run(cfg, run).value;
            && |w.stamps| == |w.db.events|
            && CountReal(w.db.events, w.stamps, RuleScope(user, domain, rule),
                         from, from + WindowOf(rule) * NANOS_PER_SECOND)
               <= Setting(cfg, user, domain, rule)
  {
    RunIsTimed(cfg, run);
    RunRespects(cfg, run, user, domain, rule);
    RealWindows(Run(cfg, run).value, RuleScope(user, domain, rule), WindowOf(rule),
                Setting(cfg, user, domain, rule), from);
  }

  /** Any two recorded sends of a throttled user (or domain) are more than the throttle
      less one second apart in real time, and at least its whole seconds on record. */
  lemma ThrottleSpacing(cfg: Config, run: seq<Step>, user: int, domain: string, rule: HoldRule, i: nat, j: nat)
    requires Run(cfg, run).Some? && user in cfg.users && Binding(domain, rule)
    requires IsThrottle(rule) && Setting(cfg, user, domain, rule) > 0
    requires i < j < |Run(cfg, run).value.db.events|
    requires Matches(Run(cfg, run).value.db.events[i], RuleScope(user, domain, rule))
    requires Matches(Run(cfg, run).value.db.events[j], RuleScope(user, domain, rule))
    ensures var w := Run(cfg, run).value;
            && |w.stamps| == |w.db.events|
            && w.stamps[j] - w.stamps[i] > Setting(cfg, user, domain, rule) * NANOS_PER_MILLI - NANOS_PER_SECOND
            && w.db.events[j].createdAt - w.db.events[i].createdAt >= Setting(cfg, user, domain, rule) / 1000
  {
    RunRespects(cfg, run, user, domain, rule);
  }
}
