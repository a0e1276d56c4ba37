/** Whether a queued message must wait: `holdIfLimited`
    (internal/service/delivery.go:80-159) as a function of settings, log and clock, and
    what its verdicts mean rule by rule. */
module Holding {
  import opened Clock
  import opened EventLog
  import opened Options
  import opened Records

  /** A database access of the hold check, used to say which one fails. */
  datatype Access = ReadUser | ReadRule | ReadUserLast | ReadDomainLast | ReadCount(rule: HoldRule) | WriteDefer

  datatype LimitCheck = LimitCheck(limit: int, window: int, domain: string, rule: HoldRule)

  datatype Verdict = Clear | Held(rule: HoldRule, wait: int) | CheckError

  function RuleFor(cfg: Config, user: int, domain: string): DomainRule {
    if domain != "" && (user, domain) in cfg.rules then cfg.rules[(user, domain)] else DomainRule(0, 0)
  }

  /** Window lengths in seconds. */
  function WindowOf(rule: HoldRule): int {
    match rule
    case PerSecond => 1
    case PerMinute => 60
    case PerHour => 3600
    case PerDay => 86400
    case DomainPerHour => 3600
    case _ => 0
  }

  function LimitChecks(user: User, rule: DomainRule, domain: string): seq<LimitCheck> {
    [LimitCheck(user.limitPerSec, 1, "", PerSecond),
     LimitCheck(user.limitPerMin, 60, "", PerMinute),
     LimitCheck(user.limitPerHour, 3600, "", PerHour),
     LimitCheck(user.limitPerDay, 86400, "", PerDay)]
    + if domain != "" && rule.limitPerHour > 0 then [LimitCheck(rule.limitPerHour, 3600, domain, DomainPerHour)] else []
  }

  function ThrottleVerdict(last: Option<int>, throttleMS: int, now: int, fails: bool, rule: HoldRule): Verdict {
    if throttleMS <= 0 then Clear
    else if fails then CheckError
    else if last.None? then Clear
    else
      var wait := throttleMS * NANOS_PER_MILLI - (now - last.value * NANOS_PER_SECOND);
      if wait > 0 then Held(rule, wait) else Clear
  }

  function WindowVerdict(events: seq<Event>, user: int, checks: seq<LimitCheck>, now: int, faults: set<Access>): Verdict
    decreases |checks|
  {
    if checks == [] then Clear
    else
      var c := checks[0];
      if c.limit <= 0 then WindowVerdict(events, user, checks[1..], now, faults)
      else if ReadCount(c.rule) in faults then CheckError
      else if CountSince(events, QueryScope(user, c.domain), Sec(now - c.window * NANOS_PER_SECOND)) >= c.limit
      then Held(c.rule, c.window * NANOS_PER_SECOND)
      else WindowVerdict(events, user, checks[1..], now, faults)
  }

  function HoldVerdict(cfg: Config, events: seq<Event>, userId: int, domain: string, now: int,
                       faults: set<Access>): Verdict
  {
    if ReadUser in faults || userId !in cfg.users then CheckError
    else if domain != "" && ReadRule in faults then CheckError
    else
      var user := cfg.users[userId];
      var rule := RuleFor(cfg, userId, domain);
      var byUser := ThrottleVerdict(LastSent(events, QueryScope(userId, "")), user.throttleMS, now,
                                    ReadUserLast in faults, UserThrottle);
      if byUser != Clear then byUser
      else
        var byDomain := ThrottleVerdict(LastSent(events, QueryScope(userId, domain)), rule.throttleMS, now,
                                        ReadDomainLast in faults, DomainThrottle);
        if byDomain != Clear then byDomain
        else WindowVerdict(events, userId, LimitChecks(user, rule, domain), now, faults)
  }

  // ---- Rule by rule ----

  /** The number configured for a rule: milliseconds for throttles, messages for windows. */
  function Setting(cfg: Config, userId: int, domain: string, rule: HoldRule): int
    requires userId in cfg.users
  {
    var user := cfg.users[userId];
    match rule
    case UserThrottle => user.throttleMS
    case DomainThrottle => RuleFor(cfg, userId, domain).throttleMS
    case PerSecond => user.limitPerSec
    case PerMinute => user.limitPerMin
    case PerHour => user.limitPerHour
    case PerDay => user.limitPerDay
    case DomainPerHour => RuleFor(cfg, userId, domain).limitPerHour
  }

  predicate IsThrottle(rule: HoldRule) {
    rule == UserThrottle || rule == DomainThrottle
  }

  /** The sends a rule looks at. */
  function RuleScope(userId: int, domain: string, rule: HoldRule): Scope {
    if rule == DomainThrottle || rule == DomainPerHour then QueryScope(userId, domain) else QueryScope(userId, "")
  }

  /** The rule lets a message go at `now`. */
  predicate Passes(cfg: Config, events: seq<Event>, userId: int, domain: string, rule: HoldRule, now: int)
    requires userId in cfg.users
  {
    var n := Setting(cfg, userId, domain, rule);
    var scope := RuleScope(userId, domain, rule);
    n > 0 ==>
      if IsThrottle(rule)
      then LastSent(events, scope).Some? ==>
             now >= LastSent(events, scope).value * NANOS_PER_SECOND + n * NANOS_PER_MILLI
      else CountSince(events, scope, Sec(now) - WindowOf(rule)) < n
  }

  /** The last second at which a rule can still hold, when the newest send it looks at was
      recorded in second `last`. */
  function Deadline(cfg: Config, userId: int, domain: string, rule: HoldRule, last: int): int
    requires userId in cfg.users
  {
    if IsThrottle(rule)
    then Sec(last * NANOS_PER_SECOND + Setting(cfg, userId, domain, rule) * NANOS_PER_MILLI)
    else last + WindowOf(rule)
  }

  /** The wait a holding rule asks for. */
  function WaitOf(cfg: Config, userId: int, domain: string, rule: HoldRule, last: int, now: int): int
    requires userId in cfg.users
  {
    if IsThrottle(rule)
    then Setting(cfg, userId, domain, rule) * NANOS_PER_MILLI - (now - last * NANOS_PER_SECOND)
    else WindowOf(rule) * NANOS_PER_SECOND
  }

  // ---- The first rule that matters decides ----

  /** The order the rules are looked at. */
  const ALL_RULES := [UserThrottle, DomainThrottle, PerSecond, PerMinute, PerHour, PerDay, DomainPerHour]

  function ReadOf(rule: HoldRule): Access {
    match rule
    case UserThrottle => ReadUserLast
    case DomainThrottle => ReadDomainLast
    case _ => ReadCount(rule)
  }

  /** The rule is in force and its read of the log fails. */
  predicate Unreadable(cfg: Config, userId: int, domain: string, rule: HoldRule, faults: set<Access>)
    requires userId in cfg.users
  {
    Setting(cfg, userId, domain, rule) > 0 && ReadOf(rule) in faults
  }

  /** User or domain settings cannot be looked up. */
  predicate LookupFails(cfg: Config, userId: int, domain: string, faults: set<Access>) {
    ReadUser in faults || userId !in cfg.users || (domain != "" && ReadRule in faults)
  }

  /** The verdict of one rule on its own. */
  function RuleVerdict(cfg: Config, events: seq<Event>, userId: int, domain: string, rule: HoldRule, now: int,
                       faults: set<Access>): Verdict
    requires userId in cfg.users
  {
    var last := LastSent(events, RuleScope(userId, domain, rule));
    if Unreadable(cfg, userId, domain, rule, faults) then CheckError
    else if Passes(cfg, events, userId, domain, rule, now) then Clear
    else Held(rule, WaitOf(cfg, userId, domain, rule, if last.Some? then last.value else 0, now))
  }

  /** The verdict of the first rule that has something against the message. */
  function FirstVerdict(cfg: Config, events: seq<Event>, userId: int, domain: string, rules: seq<HoldRule>, now: int,
                        faults: set<Access>): Verdict
    requires userId in cfg.users
  {
    if rules == [] then Clear
    else
      var v := RuleVerdict(cfg, events, userId, domain, rules[0], now, faults);
      if v != Clear then v else FirstVerdict(cfg, events, userId, domain, rules[1..], now, faults)
  }

  /** A limit check asks what its rule asks. */
  predicate ChecksRule(cfg: Config, userId: int, domain: string, c: LimitCheck)
    requires userId in cfg.users
  {
    && !IsThrottle(c.rule) && c.window == WindowOf(c.rule)
    && c.limit == Setting(cfg, userId, domain, c.rule)
    && QueryScope(userId, c.domain) == RuleScope(userId, domain, c.rule)
  }

  lemma {:induction false} WindowsAreRules(cfg: Config, events: seq<Event>, userId: int, domain: string,
                                           checks: seq<LimitCheck>, rules: seq<HoldRule>, now: int, faults: set<Access>)
    requires userId in cfg.users && |rules| == |checks|
    requires forall i :: 0 <= i < |checks| ==> checks[i].rule == rules[i] && ChecksRule(cfg, userId, domain, checks[i])
    ensures WindowVerdict(events, userId, checks, now, faults)
            == FirstVerdict(cfg, events, userId, domain, rules, now, faults)
    decreases |checks|
  {
    if checks != [] {
      var c := checks[0];
      assert ChecksRule(cfg, userId, domain, c);
      SecShift(now, -c.window);
      WindowsAreRules(cfg, events, userId, domain, checks[1..], rules[1..], now, faults);
    }
  }

  lemma ThrottleIsRule(cfg: Config, events: seq<Event>, userId: int, domain: string, rule: HoldRule, now: int,
                       faults: set<Access>)
    requires userId in cfg.users && IsThrottle(rule)
    ensures ThrottleVerdict(LastSent(events, RuleScope(userId, domain, rule)), Setting(cfg, userId, domain, rule), now,
                            ReadOf(rule) in faults, rule)
            == RuleVerdict(cfg, events, userId, domain, rule, now, faults)
  {
  }

  /** A domain rule that is not in force adds no check and has nothing to say. */
  lemma WindowPart(cfg: Config, events: seq<Event>, userId: int, domain: string, now: int, faults: set<Access>)
    requires userId in cfg.users
    ensures var checks := LimitChecks(cfg.users[userId], RuleFor(cfg, userId, domain), domain);
            WindowVerdict(events, userId, checks, now, faults)
            == FirstVerdict(cfg, events, userId, domain, ALL_RULES[2..], now, faults)
  {
    var checks := LimitChecks(cfg.users[userId], RuleFor(cfg, userId, domain), domain);
    var base := [PerSecond, PerMinute, PerHour, PerDay];
    if Setting(cfg, userId, domain, DomainPerHour) > 0 {
      assert ALL_RULES[2..] == base + [DomainPerHour];
      WindowsAreRules(cfg, events, userId, domain, checks, ALL_RULES[2..], now, faults);
    } else {
      WindowsAreRules(cfg, events, userId, domain, checks, base, now, faults);
      assert ALL_RULES[2..] == base + [DomainPerHour];
      assert RuleVerdict(cfg, events, userId, domain, DomainPerHour, now, faults) == Clear;
      LastRuleClear(cfg, events, userId, domain, base, DomainPerHour, now, faults);
    }
  }

  lemma {:induction false} LastRuleClear(cfg: Config, events: seq<Event>, userId: int, domain: string,
                                         rules: seq<HoldRule>, rule: HoldRule, now: int, faults: set<Access>)
    requires userId in cfg.users && RuleVerdict(cfg, events, userId, domain, rule, now, faults) == Clear
    ensures FirstVerdict(cfg, events, userId, domain, rules + [rule], now, faults)
            == FirstVerdict(cfg, events, userId, domain, rules, now, faults)
  {
    if rules == [] {
      assert [rule][1..] == [];
    } else {
      assert (rules + [rule])[1..] == rules[1..] + [rule];
      LastRuleClear(cfg, events, userId, domain, rules[1..], rule, now, faults);
    }
  }

  /** A check fails when the settings cannot be looked up; otherwise the first rule, in
      order, that cannot be read or does not pass decides. */
  lemma FirstRuleDecides(cfg: Config, events: seq<Event>, userId: int, domain: string, now: int, faults: set<Access>)
    ensures HoldVerdict(cfg, events, userId, domain, now, faults)
            == if LookupFails(cfg, userId, domain, faults) then CheckError
               else FirstVerdict(cfg, events, userId, domain, ALL_RULES, now, faults)
  {
    if !LookupFails(cfg, userId, domain, faults) {
      ThrottleIsRule(cfg, events, userId, domain, UserThrottle, now, faults);
      ThrottleIsRule(cfg, events, userId, domain, DomainThrottle, now, faults);
      WindowPart(cfg, events, userId, domain, now, faults);
      assert ALL_RULES[1..][1..] == ALL_RULES[2..];
      assert ALL_RULES[0] == UserThrottle && ALL_RULES[1..][0] == DomainThrottle;
    }
  }

  lemma {:induction false} FirstVerdictMeaning(cfg: Config, events: seq<Event>, userId: int, domain: string,
                                               rules: seq<HoldRule>, now: int, faults: set<Access>)
    requires userId in cfg.users
    ensures var v := FirstVerdict(cfg, events, userId, domain, rules, now, faults);
            && (v == Clear <==> forall rule :: rule in rules ==>
                                  RuleVerdict(cfg, events, userId, domain, rule, now, faults) == Clear)
            && (v != Clear ==>
                  exists i ::
                    && 0 <= i < |rules|
                    && RuleVerdict(cfg, events, userId, domain, rules[i], now, faults) == v
                    && forall j :: 0 <= j < i ==>
                         RuleVerdict(cfg, events, userId, domain, rules[j], now, faults) == Clear)
  {
    if rules != [] {
      var tail := rules[1..];
      FirstVerdictMeaning(cfg, events, userId, domain, tail, now, faults);
      var v := FirstVerdict(cfg, events, userId, domain, rules, now, faults);
      if RuleVerdict(cfg, events, userId, domain, rules[0], now, faults) == Clear && v != Clear {
        var i :| 0 <= i < |tail| && RuleVerdict(cfg, events, userId, domain, tail[i], now, faults) == v
          && forall j :: 0 <= j < i ==> RuleVerdict(cfg, events, userId, domain, tail[j], now, faults) == Clear;
        assert rules[i + 1] == tail[i];
        forall j | 0 <= j < i + 1 ensures RuleVerdict(cfg, events, userId, domain, rules[j], now, faults) == Clear {
          if j > 0 { assert rules[j] == tail[j - 1]; }
        }
      }
    }
  }

  /** A message is cleared only when every rule passes; it is held by a rule that does not
      pass, for the wait that rule asks for; and a check fails only when a lookup fails or
      a rule in force cannot be read. */
  lemma VerdictMeaning(cfg: Config, events: seq<Event>, userId: int, domain: string, now: int, faults: set<Access>)
    ensures var v := HoldVerdict(cfg, events, userId, domain, now, faults);
            && (v == CheckError ==> LookupFails(cfg, userId, domain, faults)
                                    || exists rule: HoldRule :: Unreadable(cfg, userId, domain, rule, faults))
            && (v != CheckError ==> userId in cfg.users)
            && (v == Clear ==> forall rule: HoldRule :: Passes(cfg, events, userId, domain, rule, now))
            && (v.Held? ==>
                  && !Passes(cfg, events, userId, domain, v.rule, now)
                  && LastSent(events, RuleScope(userId, domain, v.rule)).Some?
                  && v.wait == WaitOf(cfg, userId, domain, v.rule,
                                      LastSent(events, RuleScope(userId, domain, v.rule)).value, now))
  {
    FirstRuleDecides(cfg, events, userId, domain, now, faults);
    if !LookupFails(cfg, userId, domain, faults) {
      FirstVerdictMeaning(cfg, events, userId, domain, ALL_RULES, now, faults);
      var v := HoldVerdict(cfg, events, userId, domain, now, faults);
      if v == Clear {
        forall rule: HoldRule ensures Passes(cfg, events, userId, domain, rule, now) {
          RuleListed(rule);
          assert RuleVerdict(cfg, events, userId, domain, rule, now, faults) == Clear;
        }
      } else if v.Held? {
        HeldBeforeDeadline(cfg, events, userId, domain, v.rule, now);
      }
    }
  }

  lemma RuleListed(rule: HoldRule)
    ensures rule in ALL_RULES
  {
    assert ALL_RULES[0] == UserThrottle && ALL_RULES[1] == DomainThrottle && ALL_RULES[2] == PerSecond
        && ALL_RULES[3] == PerMinute && ALL_RULES[4] == PerHour && ALL_RULES[5] == PerDay
        && ALL_RULES[6] == DomainPerHour;
  }

  /** A rule that does not pass looks at a recorded send, and its deadline is not over. */
  lemma HeldBeforeDeadline(cfg: Config, events: seq<Event>, userId: int, domain: string,
                           rule: HoldRule, now: int)
    requires userId in cfg.users && !Passes(cfg, events, userId, domain, rule, now)
    ensures var last := LastSent(events, RuleScope(userId, domain, rule));
            last.Some? && Sec(now) <= Deadline(cfg, userId, domain, rule, last.value)
  {
    if !IsThrottle(rule) {
      CountedMeansRecent(events, RuleScope(userId, domain, rule), Sec(now) - WindowOf(rule));
    }
  }
}
