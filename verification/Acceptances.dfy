/** What upstream accounts accepted along a run, taken from the steps themselves, and the
    rate limits stated about it with every setting and length written out. */
module Acceptances {
  import opened Addresses
  import opened Clock
  import opened EventLog
  import opened Holding
  import opened Invariant
  import opened Limits
  import opened Machine
  import opened Records
  import opened Worker

  /** A message was accepted and its acceptance recorded at `at`. */
  datatype Acceptance = Acceptance(user: int, mailFrom: string, rcptTo: string, at: int)

  function AcceptedBy(it: Item, at: int): Acceptance {
    Acceptance(it.user, it.mailFrom, it.rcptTo, at)
  }

  /** The acceptances of a run, in order: one for each finished delivery with a taker. */
  function Accepted(cfg: Config, run: seq<Step>): seq<Acceptance> {
    if run == [] then []
    else
      var w, s := Run(cfg, run[..|run| - 1]), run[|run| - 1];
      Accepted(cfg, run[..|run| - 1])
      + if s.Finish? && s.taker.Some? && w.Some? && w.value.current.Some?
        then [AcceptedBy(w.value.current.value.item, s.logAt)] else []
  }

  /** An acceptance of the user, to the domain unless that is "". */
  predicate Concerns(a: Acceptance, user: int, domain: string) {
    a.user == user && (domain == "" || ExtractDomain(a.rcptTo) == domain)
  }

  /** How many of the user's acceptances (to the domain) were recorded in seconds from..to. */
  function RecordedIn(acc: seq<Acceptance>, user: int, domain: string, from: int, to: int): nat {
    if acc == [] then 0
    else
      var a := acc[|acc| - 1];
      RecordedIn(acc[..|acc| - 1], user, domain, from, to)
      + if Concerns(a, user, domain) && from <= a.at / 1_000_000_000 <= to then 1 else 0
  }

  /** How many of them fell into the instants from..to. */
  function HappenedIn(acc: seq<Acceptance>, user: int, domain: string, from: int, to: int): nat {
    if acc == [] then 0
    else
      var a := acc[|acc| - 1];
      HappenedIn(acc[..|acc| - 1], user, domain, from, to)
      + if Concerns(a, user, domain) && from <= a.at <= to then 1 else 0
  }

  // ---- The log holds the acceptances ----

  function Sent(e: Event, at: int): Acceptance {
    Acceptance(e.user, e.mailFrom, e.rcptTo, at)
  }

  /** The sends of a log as acceptances. */
  function SendsIn(events: seq<Event>, stamps: seq<int>): seq<Acceptance>
    requires |stamps| == |events|
  {
    if events == [] then []
    else
      var n := |events| - 1;
      SendsIn(events[..n], stamps[..n])
      + if events[n].status == SentEvent
        then [Sent(events[n], stamps[n])] else []
  }

  predicate DomainsLogged(events: seq<Event>) {
    forall i :: 0 <= i < |events| && events[i].status == SentEvent ==>
      events[i].domain == ExtractDomain(events[i].rcptTo)
  }

  lemma SendsAppend(events: seq<Event>, stamps: seq<int>, e: Event, at: int)
    requires |stamps| == |events|
    ensures SendsIn(events + [e], stamps + [at])
            == SendsIn(events, stamps)
               + if e.status == SentEvent then [Sent(e, at)] else []
  {
    assert (events + [e])[..|events|] == events && (stamps + [at])[..|stamps|] == stamps;
  }

  lemma FinishLogs(cfg: Config, w: World, s: Step)
    requires s.Finish? && Legal(w, s) && KnownItems(w) && |w.stamps| == |w.db.events| && DomainsLogged(w.db.events)
    ensures var w' := AfterFinish(w, s); var it := w.current.value.item;
            && |w'.stamps| == |w'.db.events| && DomainsLogged(w'.db.events)
            && SendsIn(w'.db.events, w'.stamps)
               == SendsIn(w.db.events, w.stamps)
                  + if s.taker.Some? then [AcceptedBy(it, s.logAt)] else []
  {
    var it := w.current.value.item;
    if s.taker.Some? {
      SendsAppend(w.db.events, w.stamps, EventFor(it, SentEvent, NoNote, s.logAt), s.logAt);
    } else if it.attempts >= MAX_ATTEMPTS_BEFORE_LAST {
      SendsAppend(w.db.events, w.stamps, EventFor(it, FailedEvent, DeliveryFailure, s.logAt), s.logAt);
    }
  }

  lemma OtherStepLogs(cfg: Config, w: World, s: Step)
    requires !s.Finish? && Legal(w, s) && KnownItems(w) && |w.stamps| == |w.db.events| && DomainsLogged(w.db.events)
    ensures var w' := After(cfg, w, s);
            && |w'.stamps| == |w'.db.events| && DomainsLogged(w'.db.events)
            && SendsIn(w'.db.events, w'.stamps) == SendsIn(w.db.events, w.stamps)
  {
    LogsNoSend(cfg, w, s);
    var w' := After(cfg, w, s);
    if |w'.db.events| > |w.db.events| {
      var e: Event, at: int
        :| e.status != SentEvent && w'.db.events == w.db.events + [e] && w'.stamps == w.stamps + [at];
      SendsAppend(w.db.events, w.stamps, e, at);
    }
  }

  /** The log's sends are the acceptances of the run, each under the second it was recorded
      in and under its recipient's domain. */
  lemma {:induction false} LogHoldsAcceptances(cfg: Config, run: seq<Step>)
    requires Run(cfg, run).Some?
    ensures var w := Run(cfg, run).value;
            && |w.stamps| == |w.db.events| && DomainsLogged(w.db.events)
            && SendsIn(w.db.events, w.stamps) == Accepted(cfg, run)
  {
    if run != [] {
      var prior, s := run[..|run| - 1], run[|run| - 1];
      LogHoldsAcceptances(cfg, prior);
      if s.Finish? {
        FinishLogs(cfg, Run(cfg, prior).value, s);
      } else {
        OtherStepLogs(cfg, Run(cfg, prior).value, s);
      }
    }
  }

  lemma RecordedAppend(acc: seq<Acceptance>, a: Acceptance, user: int, domain: string, from: int, to: int)
    ensures RecordedIn(acc + [a], user, domain, from, to)
            == RecordedIn(acc, user, domain, from, to)
               + if Concerns(a, user, domain) && from <= a.at / 1_000_000_000 <= to then 1 else 0
    ensures HappenedIn(acc + [a], user, domain, from, to)
            == HappenedIn(acc, user, domain, from, to)
               + if Concerns(a, user, domain) && from <= a.at <= to then 1 else 0
  {
    assert (acc + [a])[..|acc|] == acc;
  }

  lemma MatchesExactly(e: Event, at: int, user: int, domain: string)
    requires e.status == SentEvent ==> e.domain == ExtractDomain(e.rcptTo)
    ensures Matches(e, Scope(user, domain)) <==> e.status == SentEvent && Concerns(Sent(e, at), user, domain)
  {
  }

  lemma {:induction false} CountsAgree(events: seq<Event>, stamps: seq<int>, user: int, domain: string,
                                       from: int, to: int)
    requires |stamps| == |events| && DomainsLogged(events)
    requires forall i :: 0 <= i < |events| ==> events[i].createdAt == Sec(stamps[i])
    ensures CountBetween(events, Scope(user, domain), from, to)
            == RecordedIn(SendsIn(events, stamps), user, domain, from, to)
    ensures CountReal(events, stamps, Scope(user, domain), from, to)
            == HappenedIn(SendsIn(events, stamps), user, domain, from, to)
  {
    if events != [] {
      var n := |events| - 1;
      var prior := SendsIn(events[..n], stamps[..n]);
      CountsAgree(events[..n], stamps[..n], user, domain, from, to);
      MatchesExactly(events[n], stamps[n], user, domain);
      RecordedAppend(prior, Sent(events[n], stamps[n]), user, domain, from, to);
      assert SendsIn(events, stamps)
             == prior + if events[n].status == SentEvent then [Sent(events[n], stamps[n])] else [];
      assert prior + [] == prior;
    }
  }

  lemma RunCountsAgree(cfg: Config, run: seq<Step>, user: int, domain: string, from: int, to: int)
    requires Run(cfg, run).Some?
    ensures var w := Run(cfg, run).value;
            && |w.stamps| == |w.db.events|
            && CountBetween(w.db.events, Scope(user, domain), from, to)
               == RecordedIn(Accepted(cfg, run), user, domain, from, to)
            && CountReal(w.db.events, w.stamps, Scope(user, domain), from, to)
               == HappenedIn(Accepted(cfg, run), user, domain, from, to)
  {
    LogHoldsAcceptances(cfg, run);
    RunIsTimed(cfg, run);
    CountsAgree(Run(cfg, run).value.db.events, Run(cfg, run).value.stamps, user, domain, from, to);
  }

  // ---- Windows ----

  /** The user's acceptances (to the domain) in seconds+1 consecutive recorded seconds. */
  function InSeconds(acc: seq<Acceptance>, user: int, domain: string, from: int, seconds: int): nat {
    RecordedIn(acc, user, domain, from, from + seconds)
  }

  /** The same in a real interval of that many seconds, ends included. */
  function InRealTime(acc: seq<Acceptance>, user: int, domain: string, from: int, seconds: int): nat {
    HappenedIn(acc, user, domain, from, from + seconds * 1_000_000_000)
  }

  /** A positive limit holds in every such window. */
  ghost predicate WithinLimit(acc: seq<Acceptance>, user: int, domain: string, limit: int, seconds: int) {
    limit > 0 ==>
      && (forall from :: InSeconds(acc, user, domain, from, seconds) <= limit)
      && (forall from :: InRealTime(acc, user, domain, from, seconds) <= limit)
  }

  lemma RuleWithinLimit(cfg: Config, run: seq<Step>, user: int, domain: string, rule: HoldRule)
    requires Run(cfg, run).Some? && user in cfg.users && Binding(domain, rule) && !IsThrottle(rule)
    ensures WithinLimit(Accepted(cfg, run), user, RuleScope(user, domain, rule).domain,
                        Setting(cfg, user, domain, rule), WindowOf(rule))
  {
    var to, acc := RuleScope(user, domain, rule).domain, Accepted(cfg, run);
    var limit, seconds := Setting(cfg, user, domain, rule), WindowOf(rule);
    if limit > 0 {
      forall from ensures InSeconds(acc, user, to, from, seconds) <= limit {
        SlidingWindow(cfg, run, user, domain, rule, from);
        RunCountsAgree(cfg, run, user, to, from, from + seconds);
      }
      forall from ensures InRealTime(acc, user, to, from, seconds) <= limit {
        SlidingWindowRealTime(cfg, run, user, domain, rule, from);
        RunCountsAgree(cfg, run, user, to, from, from + seconds * 1_000_000_000);
      }
    }
  }

  lemma UserScopes(user: int, rule: HoldRule)
    requires rule != DomainThrottle && rule != DomainPerHour
    ensures RuleScope(user, "", rule) == Scope(user, "")
  {
  }

  /** Along every run a user's four limits hold of what was accepted for the user: per second,
      per minute, per hour and per day. */
  lemma UserLimitsHold(cfg: Config, run: seq<Step>, user: int)
    requires Run(cfg, run).Some? && user in cfg.users
    ensures var u, acc := cfg.users[user], Accepted(cfg, run);
            && WithinLimit(acc, user, "", u.limitPerSec, 1)
            && WithinLimit(acc, user, "", u.limitPerMin, 60)
            && WithinLimit(acc, user, "", u.limitPerHour, 3600)
            && WithinLimit(acc, user, "", u.limitPerDay, 86400)
  {
    UserScopes(user, PerSecond);
    RuleWithinLimit(cfg, run, user, "", PerSecond);
    UserScopes(user, PerMinute);
    RuleWithinLimit(cfg, run, user, "", PerMinute);
    UserScopes(user, PerHour);
    RuleWithinLimit(cfg, run, user, "", PerHour);
    UserScopes(user, PerDay);
    RuleWithinLimit(cfg, run, user, "", PerDay);
  }

  /** And so does the hourly limit stored for a domain that is its own query form. */
  lemma DomainLimitHolds(cfg: Config, run: seq<Step>, user: int, domain: string)
    requires Run(cfg, run).Some? && user in cfg.users && (user, domain) in cfg.rules
    requires domain != "" && QueryDomain(domain) == domain
    ensures WithinLimit(Accepted(cfg, run), user, domain, cfg.rules[(user, domain)].limitPerHour, 3600)
  {
    RuleWithinLimit(cfg, run, user, domain, DomainPerHour);
  }

  // ---- Throttles ----

  /** Any two of the user's acceptances (to the domain) are more than the throttle less one
      second apart, and at least its whole seconds on record. */
  ghost predicate Spaced(acc: seq<Acceptance>, user: int, domain: string, throttleMS: int) {
    throttleMS > 0 ==>
      forall i, j :: 0 <= i < j < |acc| && Concerns(acc[i], user, domain) && Concerns(acc[j], user, domain) ==>
        && acc[j].at - acc[i].at > throttleMS * 1_000_000 - 1_000_000_000
        && acc[j].at / 1_000_000_000 - acc[i].at / 1_000_000_000 >= throttleMS / 1000
  }

  /** Where in the log an acceptance is found. */
  lemma {:induction false} FoundAt(events: seq<Event>, stamps: seq<int>, i: nat) returns (k: nat)
    requires |stamps| == |events| && i < |SendsIn(events, stamps)|
    ensures k < |events| && events[k].status == SentEvent
    ensures SendsIn(events, stamps)[i] == Sent(events[k], stamps[k])
  {
    var n := |events| - 1;
    if i < |SendsIn(events[..n], stamps[..n])| {
      k := FoundAt(events[..n], stamps[..n], i);
    } else {
      k := n;
    }
  }

  lemma {:induction false} ApartMeansSpaced(events: seq<Event>, stamps: seq<int>, user: int, domain: string,
                                            throttleMS: int)
    requires |stamps| == |events| && DomainsLogged(events)
    requires forall i :: 0 <= i < |events| ==> events[i].createdAt == Sec(stamps[i])
    requires Apart(events, stamps, Scope(user, domain), throttleMS)
    ensures Spaced(SendsIn(events, stamps), user, domain, throttleMS)
  {
    if events != [] {
      var n := |events| - 1;
      var prior := SendsIn(events[..n], stamps[..n]);
      ApartMeansSpaced(events[..n], stamps[..n], user, domain, throttleMS);
      var acc := SendsIn(events, stamps);
      if events[n].status == SentEvent && Concerns(acc[|prior|], user, domain) {
        forall i | 0 <= i < |prior| && Concerns(acc[i], user, domain)
          ensures stamps[n] - acc[i].at > throttleMS * 1_000_000 - 1_000_000_000
          ensures Sec(stamps[n]) - Sec(acc[i].at) >= throttleMS / 1000
        {
          var k := FoundAt(events[..n], stamps[..n], i);
          assert Matches(events[k], Scope(user, domain)) && Matches(events[n], Scope(user, domain));
        }
      }
    }
  }

  lemma RuleSpaced(cfg: Config, run: seq<Step>, user: int, domain: string, rule: HoldRule)
    requires Run(cfg, run).Some? && user in cfg.users && Binding(domain, rule) && IsThrottle(rule)
    ensures Spaced(Accepted(cfg, run), user, RuleScope(user, domain, rule).domain, Setting(cfg, user, domain, rule))
  {
    var w := Run(cfg, run).value;
    LogHoldsAcceptances(cfg, run);
    RunIsTimed(cfg, run);
    RunRespects(cfg, run, user, domain, rule);
    if Setting(cfg, user, domain, rule) > 0 {
      ApartMeansSpaced(w.db.events, w.stamps, user, RuleScope(user, domain, rule).domain,
                       Setting(cfg, user, domain, rule));
    }
  }

  /** Along every run a user's throttle spaces what was accepted for the user. */
  lemma UserThrottleHolds(cfg: Config, run: seq<Step>, user: int)
    requires Run(cfg, run).Some? && user in cfg.users
    ensures Spaced(Accepted(cfg, run), user, "", cfg.users[user].throttleMS)
  {
    UserScopes(user, UserThrottle);
    RuleSpaced(cfg, run, user, "", UserThrottle);
  }

  /** And so does the throttle stored for a domain that is its own query form. */
  lemma DomainThrottleHolds(cfg: Config, run: seq<Step>, user: int, domain: string)
    requires Run(cfg, run).Some? && user in cfg.users && (user, domain) in cfg.rules
    requires domain != "" && QueryDomain(domain) == domain
    ensures Spaced(Accepted(cfg, run), user, domain, cfg.rules[(user, domain)].throttleMS)
  {
    RuleSpaced(cfg, run, user, domain, DomainThrottle);
  }
}
