/** The hold check written out: every rule with its own setting, length and sends. */
module HoldMeaning {
  import opened Addresses
  import opened Clock
  import opened EventLog
  import opened Holding
  import opened Records

  /** No send of the user (to the domain) is younger than the throttle. */
  ghost predicate ThrottleOver(events: seq<Event>, user: int, domain: string, throttleMS: int, now: int) {
    throttleMS > 0 ==>
      forall i :: IsSend(events, user, domain, i) ==>
        now - events[i].createdAt * 1_000_000_000 >= throttleMS * 1_000_000
  }

  /** Fewer sends than the limit in the `seconds` before `now`, the cutoff second included. */
  predicate RoomLeft(events: seq<Event>, user: int, domain: string, limit: int, seconds: int, now: int) {
    limit > 0 ==> |SendsSince(events, user, domain, now / 1_000_000_000 - seconds)| < limit
  }

  lemma ThrottlePasses(cfg: Config, events: seq<Event>, user: int, domain: string, rule: HoldRule, now: int)
    requires user in cfg.users && IsThrottle(rule)
    ensures var scope := RuleScope(user, domain, rule);
            Passes(cfg, events, user, domain, rule, now)
            <==> ThrottleOver(events, scope.user, scope.domain, Setting(cfg, user, domain, rule), now)
  {
    LastSentIsMaximum(events, RuleScope(user, domain, rule));
  }

  lemma WindowPasses(cfg: Config, events: seq<Event>, user: int, domain: string, rule: HoldRule, now: int, seconds: int)
    requires user in cfg.users && !IsThrottle(rule) && seconds == WindowOf(rule)
    ensures var scope := RuleScope(user, domain, rule);
            Passes(cfg, events, user, domain, rule, now)
            <==> RoomLeft(events, scope.user, scope.domain, Setting(cfg, user, domain, rule), seconds, now)
  {
    var scope := RuleScope(user, domain, rule);
    CountSinceExactly(events, scope.user, scope.domain, Sec(now) - seconds);
  }

  lemma NoDomain()
    ensures QueryDomain("") == ""
  {
  }

  /** A user's own rules, written out. */
  ghost predicate UserRulesPass(u: User, events: seq<Event>, user: int, now: int) {
    && ThrottleOver(events, user, "", u.throttleMS, now)
    && RoomLeft(events, user, "", u.limitPerSec, 1, now)
    && RoomLeft(events, user, "", u.limitPerMin, 60, now)
    && RoomLeft(events, user, "", u.limitPerHour, 3600, now)
    && RoomLeft(events, user, "", u.limitPerDay, 86400, now)
  }

  /** A domain's rules, written out; `query` is the domain the log is asked for. */
  ghost predicate DomainRulesPass(r: DomainRule, events: seq<Event>, user: int, query: string, now: int) {
    ThrottleOver(events, user, query, r.throttleMS, now) && RoomLeft(events, user, query, r.limitPerHour, 3600, now)
  }

  lemma UserRules(cfg: Config, events: seq<Event>, user: int, domain: string, now: int)
    requires user in cfg.users
    ensures UserRulesPass(cfg.users[user], events, user, now)
            <==> forall rule: HoldRule :: rule != DomainThrottle && rule != DomainPerHour ==>
                   Passes(cfg, events, user, domain, rule, now)
  {
    NoDomain();
    ThrottlePasses(cfg, events, user, domain, UserThrottle, now);
    WindowPasses(cfg, events, user, domain, PerSecond, now, 1);
    WindowPasses(cfg, events, user, domain, PerMinute, now, 60);
    WindowPasses(cfg, events, user, domain, PerHour, now, 3600);
    WindowPasses(cfg, events, user, domain, PerDay, now, 86400);
  }

  lemma DomainRules(cfg: Config, events: seq<Event>, user: int, domain: string, now: int)
    requires user in cfg.users
    ensures (domain != "" && (user, domain) in cfg.rules
             ==> DomainRulesPass(cfg.rules[(user, domain)], events, user, QueryDomain(domain), now))
            <==> Passes(cfg, events, user, domain, DomainThrottle, now)
                 && Passes(cfg, events, user, domain, DomainPerHour, now)
  {
    ThrottlePasses(cfg, events, user, domain, DomainThrottle, now);
    WindowPasses(cfg, events, user, domain, DomainPerHour, now, 3600);
  }

  /** When everything can be read, a message of a known user is cleared if and only if the
      user's throttle is over, each of the user's four windows has room, and so have throttle
      and hour of the domain's stored rule, if there is one. */
  lemma ClearedExactly(cfg: Config, events: seq<Event>, user: int, domain: string, now: int)
    requires user in cfg.users
    ensures HoldVerdict(cfg, events, user, domain, now, {}) == Clear
            <==> UserRulesPass(cfg.users[user], events, user, now)
                 && (domain != "" && (user, domain) in cfg.rules
                     ==> DomainRulesPass(cfg.rules[(user, domain)], events, user, QueryDomain(domain), now))
  {
    VerdictMeaning(cfg, events, user, domain, now, {});
    UserRules(cfg, events, user, domain, now);
    DomainRules(cfg, events, user, domain, now);
    FirstRuleDecides(cfg, events, user, domain, now, {});
    FirstVerdictMeaning(cfg, events, user, domain, ALL_RULES, now, {});
  }

  /** How long a held message is asked to wait, rule by rule. */
  lemma HeldFor(cfg: Config, events: seq<Event>, user: int, domain: string, now: int, faults: set<Access>)
    requires user in cfg.users
    ensures var v := HoldVerdict(cfg, events, user, domain, now, faults);
            v.Held? ==>
              match v.rule
              case PerSecond => v.wait == 1_000_000_000
              case PerMinute => v.wait == 60_000_000_000
              case PerHour => v.wait == 3_600_000_000_000
              case DomainPerHour => v.wait == 3_600_000_000_000
              case PerDay => v.wait == 86_400_000_000_000
              case UserThrottle => TimeLeft(events, user, "", cfg.users[user].throttleMS, now, v.wait)
              case DomainThrottle =>
                && (user, domain) in cfg.rules
                && TimeLeft(events, user, QueryDomain(domain), cfg.rules[(user, domain)].throttleMS, now, v.wait)
  {
    VerdictMeaning(cfg, events, user, domain, now, faults);
    NoDomain();
    var v := HoldVerdict(cfg, events, user, domain, now, faults);
    if v.Held? {
      LastSentIsMaximum(events, RuleScope(user, domain, v.rule));
    }
  }

  /** `wait` is what is left of the throttle, counted from the newest send. */
  ghost predicate TimeLeft(events: seq<Event>, user: int, domain: string, throttleMS: int, now: int, wait: int) {
    exists i :: IsSend(events, user, domain, i)
      && wait == throttleMS * 1_000_000 - (now - events[i].createdAt * 1_000_000_000)
      && forall j :: IsSend(events, user, domain, j) ==> events[j].createdAt <= events[i].createdAt
  }
}
