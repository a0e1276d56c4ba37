/** The two rules of a domain, its hourly limit and its throttle.  A rule is stored under a
    domain as an administrator typed it and looked up under a recipient's domain, which is
    in lower case and trimmed on one side only; the queries trim both sides.  A rule holds
    for the mail of a recipient exactly when the three spellings agree. */
module DomainLimits {
  import opened Acceptances
  import opened Addresses
  import opened Bursts
  import opened Clock
  import opened Deliveries
  import opened Holding
  import opened Invariant
  import opened Machine
  import opened Records

  /** The rules stored under `key` are the only ones that can be in force for the user. */
  ghost predicate OnlyRulesUnder(cfg: Config, user: int, key: string) {
    && user in cfg.users && (user, key) in cfg.rules
    && var u := cfg.users[user];
    && u.throttleMS <= 0 && u.limitPerSec <= 0 && u.limitPerMin <= 0 && u.limitPerHour <= 0 && u.limitPerDay <= 0
    && forall k :: (user, k) in cfg.rules && k != key ==>
         cfg.rules[(user, k)].limitPerHour <= 0 && cfg.rules[(user, k)].throttleMS <= 0
  }

  /** The recipient is in the domain that `key` stands for, case and outer white space
      aside. */
  predicate InDomain(addr: string, key: string) {
    ExtractDomain(addr) != "" && QueryDomain(ExtractDomain(addr)) == QueryDomain(key)
  }

  /** Recipient, key and query spell the domain alike. */
  predicate SpelledAlike(addr: string, key: string) {
    ExtractDomain(addr) == key == QueryDomain(key)
  }

  // ---- Runs that no rule stops ----

  /** Every rule in force for mail to `addr` is a domain rule whose queries look at another
      domain. */
  predicate Unlimited(cfg: Config, user: int, addr: string) {
    && user in cfg.users && ExtractDomain(addr) != ""
    && forall rule: HoldRule :: Setting(cfg, user, ExtractDomain(addr), rule) > 0 ==> Misread(rule, ExtractDomain(addr))
  }

  /** For every n there is a run that has n messages accepted at one instant, whatever their
      sender and text. */
  lemma AnyNumberAtOnce(cfg: Config, m: Message, n: nat) returns (run: seq<Step>)
    requires Unlimited(cfg, m.user, m.rcptTo)
    ensures Run(cfg, run).Some? && Accepted(cfg, run) == Copies(m, 0, n)
  {
    run := Burst(cfg, [], m, 0, n);
    assert [] + Copies(m, 0, n) == Copies(m, 0, n);
  }

  /** Spelled differently, a domain's rules do not stop its mail. */
  lemma MisspelledIsUnlimited(cfg: Config, user: int, key: string, addr: string)
    requires OnlyRulesUnder(cfg, user, key) && InDomain(addr, key) && !SpelledAlike(addr, key)
    ensures Unlimited(cfg, user, addr)
  {
  }

  // ---- The hourly limit ----

  /** No run has more than `limit` of the user's messages to the domain accepted within an
      hour, in recorded seconds. */
  ghost predicate HourlyLimitHolds(cfg: Config, user: int, domain: string, limit: int) {
    forall run: seq<Step>, from: int :: Run(cfg, run).Some? ==>
      InSeconds(Accepted(cfg, run), user, domain, from, 3600) <= limit
  }

  lemma ExceedsAtOnce(cfg: Config, user: int, addr: string, limit: nat)
    requires Unlimited(cfg, user, addr)
    ensures !HourlyLimitHolds(cfg, user, ExtractDomain(addr), limit)
  {
    var m := Message(user, "alice@example.com", addr, "");
    var run := AnyNumberAtOnce(cfg, m, limit + 1);
    CopiesRecorded([], m, 0, limit + 1, ExtractDomain(addr), 0, 3600);
    assert [] + Copies(m, 0, limit + 1) == Copies(m, 0, limit + 1);
    assert InSeconds(Accepted(cfg, run), user, ExtractDomain(addr), 0, 3600) == limit + 1;
  }

  /** With only the rules stored under `key` in force, no run sends more to a recipient's
      domain than the hourly limit of that key if and only if the recipient's domain is the
      key as stored, and the key is in lower case without outer white space. */
  lemma HourlyLimitHoldsExactly(cfg: Config, user: int, key: string, addr: string)
    requires OnlyRulesUnder(cfg, user, key) && InDomain(addr, key) && cfg.rules[(user, key)].limitPerHour > 0
    ensures HourlyLimitHolds(cfg, user, ExtractDomain(addr), cfg.rules[(user, key)].limitPerHour)
            <==> SpelledAlike(addr, key)
  {
    var d, limit := ExtractDomain(addr), cfg.rules[(user, key)].limitPerHour;
    if SpelledAlike(addr, key) {
      forall run: seq<Step>, from: int | Run(cfg, run).Some?
        ensures InSeconds(Accepted(cfg, run), user, d, from, 3600) <= limit
      {
        DomainLimitHolds(cfg, run, user, d);
      }
    } else {
      MisspelledIsUnlimited(cfg, user, key, addr);
      ExceedsAtOnce(cfg, user, addr, limit);
    }
  }

  /** For every key there is a recipient in its domain that spells it differently. */
  lemma MisspelledRecipient(key: string) returns (addr: string)
    requires QueryDomain(key) != "" && '@' !in key
    ensures InDomain(addr, key) && !SpelledAlike(addr, key)
  {
    var q := QueryDomain(key);
    addr := "u@ " + q;
    QueryFormShape(key);
    SpacedDomain(q);
    assert (" " + q)[0] == ' ' && |" " + q| != |q|;
  }

  /** Every hourly limit is evaded: some recipient in the domain of its key can be sent more. */
  lemma EveryHourlyLimitIsEvaded(cfg: Config, user: int, key: string)
    requires OnlyRulesUnder(cfg, user, key) && cfg.rules[(user, key)].limitPerHour > 0
    requires QueryDomain(key) != "" && '@' !in key
    ensures exists addr: string :: InDomain(addr, key)
              && !HourlyLimitHolds(cfg, user, ExtractDomain(addr), cfg.rules[(user, key)].limitPerHour)
  {
    var addr := MisspelledRecipient(key);
    HourlyLimitHoldsExactly(cfg, user, key, addr);
  }

  // ---- The throttle ----

  /** Every run keeps the user's messages to the domain apart as the throttle asks. */
  ghost predicate ThrottleHolds(cfg: Config, user: int, domain: string, throttleMS: int) {
    forall run: seq<Step> :: Run(cfg, run).Some? ==> Spaced(Accepted(cfg, run), user, domain, throttleMS)
  }

  /** Below one second the spacing says nothing: every log in clock order has it. */
  lemma ShortThrottleIsVoid(cfg: Config, run: seq<Step>, user: int, domain: string, throttleMS: int)
    requires Run(cfg, run).Some? && 0 < throttleMS < 1000
    ensures Spaced(Accepted(cfg, run), user, domain, throttleMS)
  {
    var w := Run(cfg, run).value;
    RunIsTimed(cfg, run);
    LogHoldsAcceptances(cfg, run);
    forall i, j | 0 <= i < j < |w.stamps| ensures w.db.events[i].createdAt <= w.db.events[j].createdAt {
      SecMonotone(w.stamps[i], w.stamps[j]);
    }
    ApartMeansSpaced(w.db.events, w.stamps, user, domain, throttleMS);
  }

  lemma TwoAtOnce(cfg: Config, user: int, addr: string, throttleMS: int)
    requires Unlimited(cfg, user, addr) && throttleMS >= 1000
    ensures !ThrottleHolds(cfg, user, ExtractDomain(addr), throttleMS)
  {
    var m := Message(user, "alice@example.com", addr, "");
    var run := AnyNumberAtOnce(cfg, m, 2);
    var acc := Accepted(cfg, run);
    assert Concerns(acc[0], user, ExtractDomain(addr)) && Concerns(acc[1], user, ExtractDomain(addr));
    assert !Spaced(acc, user, ExtractDomain(addr), throttleMS);
  }

  /** With only the rules stored under `key` in force, every run keeps the spacing of that
      key's throttle for a recipient's domain if and only if the throttle is below one
      second, where the spacing is void, or the recipient's domain is the key as stored, and
      the key is in lower case without outer white space. */
  lemma ThrottleHoldsExactly(cfg: Config, user: int, key: string, addr: string)
    requires OnlyRulesUnder(cfg, user, key) && InDomain(addr, key) && cfg.rules[(user, key)].throttleMS > 0
    ensures var throttleMS := cfg.rules[(user, key)].throttleMS;
            ThrottleHolds(cfg, user, ExtractDomain(addr), throttleMS)
            <==> throttleMS < 1000 || SpelledAlike(addr, key)
  {
    var d, throttleMS := ExtractDomain(addr), cfg.rules[(user, key)].throttleMS;
    if throttleMS >= 1000 && !SpelledAlike(addr, key) {
      MisspelledIsUnlimited(cfg, user, key, addr);
      TwoAtOnce(cfg, user, addr, throttleMS);
    } else {
      forall run: seq<Step> | Run(cfg, run).Some? ensures Spaced(Accepted(cfg, run), user, d, throttleMS) {
        if throttleMS < 1000 {
          ShortThrottleIsVoid(cfg, run, user, d, throttleMS);
        } else {
          DomainThrottleHolds(cfg, run, user, d);
        }
      }
    }
  }

  /** Every throttle of a second or more is evaded as well. */
  lemma EveryThrottleIsEvaded(cfg: Config, user: int, key: string)
    requires OnlyRulesUnder(cfg, user, key) && cfg.rules[(user, key)].throttleMS >= 1000
    requires QueryDomain(key) != "" && '@' !in key
    ensures exists addr: string :: InDomain(addr, key)
              && !ThrottleHolds(cfg, user, ExtractDomain(addr), cfg.rules[(user, key)].throttleMS)
  {
    var addr := MisspelledRecipient(key);
    ThrottleHoldsExactly(cfg, user, key, addr);
  }
}
