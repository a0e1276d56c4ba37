/** Runs that use every limit to the full: any number of messages at once as long as the
    limits allow it, and again as soon as their windows are over. */
module Bursts {
  import opened Acceptances
  import opened Addresses
  import opened Clock
  import opened Deliveries
  import opened EventLog
  import opened Holding
  import opened Invariant
  import opened Machine
  import opened Options
  import opened Records

  // ---- Room for more ----

  /** Sends of any user recorded in second `from` or later. */
  function Sends(events: seq<Event>, from: int): nat {
    if events == [] then 0
    else
      var e := events[|events| - 1];
      Sends(events[..|events| - 1], from) + if e.status == SentEvent && e.createdAt >= from then 1 else 0
  }

  lemma {:induction false} CountIsPart(events: seq<Event>, scope: Scope, from: int)
    ensures CountSince(events, scope, from) <= Sends(events, from)
  {
    if events != [] {
      CountIsPart(events[..|events| - 1], scope, from);
    }
  }

  lemma SendsAppend(events: seq<Event>, e: Event, from: int)
    ensures Sends(events + [e], from)
            == Sends(events, from) + if e.status == SentEvent && e.createdAt >= from then 1 else 0
  {
    assert (events + [e])[..|events|] == events;
  }

  predicate OnlyTo(events: seq<Event>, domain: string) {
    forall i :: 0 <= i < |events| && events[i].status == SentEvent ==> events[i].domain == domain
  }

  /** The rule is a domain rule whose queries look at another domain. */
  predicate Misread(rule: HoldRule, domain: string) {
    (rule == DomainPerHour || rule == DomainThrottle) && QueryDomain(domain) != domain
  }

  /** Every rule in force misreads the domain, or counts sends and has room for `n` more. */
  predicate Roomy(cfg: Config, events: seq<Event>, user: int, domain: string, second: int, n: nat) {
    && user in cfg.users
    && forall rule: HoldRule :: Setting(cfg, user, domain, rule) > 0 ==>
         || Misread(rule, domain)
         || (!IsThrottle(rule) && Sends(events, second - WindowOf(rule)) + n <= Setting(cfg, user, domain, rule))
  }

  lemma {:induction false} NeverSeen(events: seq<Event>, user: int, domain: string, from: int)
    requires QueryDomain(domain) != domain && QueryDomain(domain) != "" && OnlyTo(events, domain)
    ensures CountSince(events, QueryScope(user, domain), from) == 0
    ensures LastSent(events, QueryScope(user, domain)) == None
  {
    if events != [] {
      NeverSeen(events[..|events| - 1], user, domain, from);
    }
  }

  lemma ClearedWithRoom(cfg: Config, events: seq<Event>, user: int, addr: string, now: int, n: nat)
    requires ExtractDomain(addr) != "" && OnlyTo(events, ExtractDomain(addr)) && n > 0
    requires Roomy(cfg, events, user, ExtractDomain(addr), Sec(now), n)
    ensures HoldVerdict(cfg, events, user, ExtractDomain(addr), now, {}) == Clear
  {
    var d := ExtractDomain(addr);
    VerdictMeaning(cfg, events, user, d, now, {});
    ExtractedDomainShape(addr);
    forall rule: HoldRule ensures Passes(cfg, events, user, d, rule, now) {
      if Misread(rule, d) {
        NeverSeen(events, user, d, Sec(now) - WindowOf(rule));
      } else {
        CountIsPart(events, RuleScope(user, d, rule), Sec(now) - WindowOf(rule));
      }
    }
  }

  // ---- Bursts ----

  /** `n` acceptances of the message, all at `at`. */
  function Copies(m: Message, at: int, n: nat): (acc: seq<Acceptance>)
    ensures |acc| == n && forall i :: 0 <= i < n ==> acc[i] == Acceptance(m.user, m.mailFrom, m.rcptTo, at)
  {
    seq(n, _ => Acceptance(m.user, m.mailFrom, m.rcptTo, at))
  }

  /** What one delivery at `at` does to the log. */
  lemma OneMoreLogged(events: seq<Event>, m: Message, at: int)
    requires OnlyTo(events, ExtractDomain(m.rcptTo))
    ensures var more := events + [QueuedNow(m, at)] + [SentNow(m, at)];
            && OnlyTo(more, ExtractDomain(m.rcptTo))
            && forall from :: Sends(more, from) == Sends(events, from) + if Sec(at) >= from then 1 else 0
  {
    var queued := events + [QueuedNow(m, at)];
    forall from
      ensures Sends(queued + [SentNow(m, at)], from) == Sends(events, from) + if Sec(at) >= from then 1 else 0
    {
      SendsAppend(events, QueuedNow(m, at), from);
      SendsAppend(queued, SentNow(m, at), from);
    }
  }

  lemma QueuedAddsNoSend(w: World, m: Message, at: int)
    requires ExtractDomain(m.rcptTo) != "" && OnlyTo(w.db.events, ExtractDomain(m.rcptTo))
    ensures var events := AsQueued(w, m, at).events;
            && OnlyTo(events, ExtractDomain(m.rcptTo))
            && forall from :: Sends(events, from) == Sends(w.db.events, from)
  {
    var events := AsQueued(w, m, at).events;
    assert events == w.db.events + [QueuedNow(m, at)];
    forall from ensures Sends(events, from) == Sends(w.db.events, from) {
      SendsAppend(w.db.events, QueuedNow(m, at), from);
    }
  }

  /** Quiet, at `clock` at the latest, with sends to one domain only. */
  predicate Ready(w: World, m: Message, clock: int) {
    Quiet(w) && w.clock <= clock && OnlyTo(w.db.events, ExtractDomain(m.rcptTo))
  }

  lemma OneOfBurst(cfg: Config, run: seq<Step>, m: Message, at: int, n: nat) returns (more: seq<Step>)
    requires Run(cfg, run).Some? && Ready(Run(cfg, run).value, m, at) && ExtractDomain(m.rcptTo) != "" && n > 0
    requires Roomy(cfg, Run(cfg, run).value.db.events, m.user, ExtractDomain(m.rcptTo), Sec(at), n)
    ensures Run(cfg, more).Some? && Ready(Run(cfg, more).value, m, at)
    ensures Roomy(cfg, Run(cfg, more).value.db.events, m.user, ExtractDomain(m.rcptTo), Sec(at), n - 1)
    ensures Accepted(cfg, more) == Accepted(cfg, run) + [Acceptance(m.user, m.mailFrom, m.rcptTo, at)]
    ensures forall from :: Sends(Run(cfg, more).value.db.events, from)
                        == Sends(Run(cfg, run).value.db.events, from) + if Sec(at) >= from then 1 else 0
  {
    var w := Run(cfg, run).value;
    QueuedAddsNoSend(w, m, at);
    ClearedWithRoom(cfg, AsQueued(w, m, at).events, m.user, m.rcptTo, at, n);
    more := OneDelivery(cfg, run, m, at, at);
    OneMoreLogged(w.db.events, m, at);
  }

  lemma CopiesFirst(acc: seq<Acceptance>, m: Message, at: int, n: nat)
    requires n > 0
    ensures acc + [Acceptance(m.user, m.mailFrom, m.rcptTo, at)] + Copies(m, at, n - 1) == acc + Copies(m, at, n)
  {
  }

  lemma CopiesLast(acc: seq<Acceptance>, m: Message, at: int, n: nat)
    requires n > 0
    ensures acc + Copies(m, at, n - 1) + [Acceptance(m.user, m.mailFrom, m.rcptTo, at)] == acc + Copies(m, at, n)
  {
  }

  lemma NoCopies(acc: seq<Acceptance>, m: Message, at: int)
    ensures acc + Copies(m, at, 0) == acc
  {
  }

  lemma {:induction false} Burst(cfg: Config, run: seq<Step>, m: Message, at: int, n: nat) returns (more: seq<Step>)
    requires Run(cfg, run).Some? && Ready(Run(cfg, run).value, m, at) && ExtractDomain(m.rcptTo) != ""
    requires Roomy(cfg, Run(cfg, run).value.db.events, m.user, ExtractDomain(m.rcptTo), Sec(at), n)
    ensures Run(cfg, more).Some? && Ready(Run(cfg, more).value, m, at)
    ensures Accepted(cfg, more) == Accepted(cfg, run) + Copies(m, at, n)
    ensures forall from :: Sends(Run(cfg, more).value.db.events, from)
                        == Sends(Run(cfg, run).value.db.events, from) + if Sec(at) >= from then n else 0
    decreases n
  {
    more := run;
    if n == 0 {
      NoCopies(Accepted(cfg, run), m, at);
    } else {
      var one := OneOfBurst(cfg, run, m, at, n);
      more := Burst(cfg, one, m, at, n - 1);
      CopiesFirst(Accepted(cfg, run), m, at, n);
    }
  }

  // ---- The limits are sharp ----

  /** A limit over so many seconds leaves room for `n` messages now and `n` more `gap` seconds
      later: it is off, or allows all of them, or allows `n` and the window is over. */
  predicate Allows(limit: int, seconds: int, n: nat, gap: nat) {
    limit <= 0 || limit >= 2 * n || (limit >= n && gap > seconds)
  }

  predicate AllAllow(cfg: Config, m: Message, n: nat, gap: nat)
    requires m.user in cfg.users
  {
    var u, d := cfg.users[m.user], ExtractDomain(m.rcptTo);
    && u.throttleMS <= 0
    && Allows(u.limitPerSec, 1, n, gap) && Allows(u.limitPerMin, 60, n, gap)
    && Allows(u.limitPerHour, 3600, n, gap) && Allows(u.limitPerDay, 86400, n, gap)
    && ((m.user, d) in cfg.rules ==>
          cfg.rules[(m.user, d)].throttleMS <= 0 && Allows(cfg.rules[(m.user, d)].limitPerHour, 3600, n, gap))
  }

  lemma RoomyAtFirst(cfg: Config, m: Message, n: nat, gap: nat)
    requires m.user in cfg.users && AllAllow(cfg, m, n, gap)
    ensures Roomy(cfg, [], m.user, ExtractDomain(m.rcptTo), 0, n)
  {
  }

  lemma RoomyAgain(cfg: Config, events: seq<Event>, m: Message, n: nat, gap: nat)
    requires m.user in cfg.users && AllAllow(cfg, m, n, gap)
    requires forall from :: Sends(events, from) == if 0 >= from then n else 0
    ensures Roomy(cfg, events, m.user, ExtractDomain(m.rcptTo), gap, n)
  {
  }

  /** With no throttle in force and limits that allow it, some run accepts `n` messages in
      second 0 and `n` more in second `gap`. */
  lemma TwoBursts(cfg: Config, m: Message, n: nat, gap: nat) returns (run: seq<Step>)
    requires m.user in cfg.users && ExtractDomain(m.rcptTo) != "" && AllAllow(cfg, m, n, gap)
    ensures Run(cfg, run).Some?
    ensures Accepted(cfg, run) == Copies(m, 0, n) + Copies(m, gap * NANOS_PER_SECOND, n)
  {
    RoomyAtFirst(cfg, m, n, gap);
    var first := Burst(cfg, [], m, 0, n);
    assert Accepted(cfg, []) + Copies(m, 0, n) == Copies(m, 0, n);
    SecShift(0, gap);
    RoomyAgain(cfg, Run(cfg, first).value.db.events, m, n, gap);
    run := Burst(cfg, first, m, gap * NANOS_PER_SECOND, n);
  }

  lemma {:induction false} CopiesRecorded(acc: seq<Acceptance>, m: Message, at: int, n: nat, domain: string, from: int,
                                          to: int)
    requires domain == "" || domain == ExtractDomain(m.rcptTo)
    ensures RecordedIn(acc + Copies(m, at, n), m.user, domain, from, to)
            == RecordedIn(acc, m.user, domain, from, to) + if from <= at / 1_000_000_000 <= to then n else 0
    decreases n
  {
    if n == 0 {
      NoCopies(acc, m, at);
    } else {
      CopiesRecorded(acc, m, at, n - 1, domain, from, to);
      CopiesLast(acc, m, at, n);
      RecordedAppend(acc + Copies(m, at, n - 1), Acceptance(m.user, m.mailFrom, m.rcptTo, at), m.user, domain,
                     from, to);
    }
  }

  lemma TwoBurstsRecorded(m: Message, n: nat, gap: nat, domain: string, to: int)
    requires (domain == "" || domain == ExtractDomain(m.rcptTo)) && to >= 0
    ensures RecordedIn(Copies(m, 0, n) + Copies(m, gap * NANOS_PER_SECOND, n), m.user, domain, 0, to)
            == n + if gap <= to then n else 0
  {
    CopiesRecorded([], m, 0, n, domain, 0, to);
    assert [] + Copies(m, 0, n) == Copies(m, 0, n);
    SecShift(0, gap);
    CopiesRecorded(Copies(m, 0, n), m, gap * NANOS_PER_SECOND, n, domain, 0, to);
  }

  lemma SharpCounts(acc: seq<Acceptance>, m: Message, n: nat, gap: nat, domain: string)
    requires acc == Copies(m, 0, n) + Copies(m, gap * NANOS_PER_SECOND, n) && gap > 0
    requires domain == "" || domain == ExtractDomain(m.rcptTo)
    ensures InSeconds(acc, m.user, domain, 0, gap - 1) == n && InSeconds(acc, m.user, domain, 0, gap) == 2 * n
  {
    TwoBurstsRecorded(m, n, gap, domain, gap - 1);
    TwoBurstsRecorded(m, n, gap, domain, gap);
  }

  /** A limit of `n` is reached, and its window is no longer than it says: some run accepts
      exactly `n` of the user's messages (to the domain) in seconds 0 to gap-1, and twice as
      many when the second `gap` is counted too. */
  lemma LimitsAreSharp(cfg: Config, m: Message, n: nat, gap: nat, domain: string) returns (run: seq<Step>)
    requires m.user in cfg.users && ExtractDomain(m.rcptTo) != "" && AllAllow(cfg, m, n, gap) && gap > 0
    requires domain == "" || domain == ExtractDomain(m.rcptTo)
    ensures Run(cfg, run).Some?
    ensures InSeconds(Accepted(cfg, run), m.user, domain, 0, gap - 1) == n
    ensures InSeconds(Accepted(cfg, run), m.user, domain, 0, gap) == 2 * n
  {
    run := TwoBursts(cfg, m, n, gap);
    SharpCounts(Accepted(cfg, run), m, n, gap, domain);
  }
}
