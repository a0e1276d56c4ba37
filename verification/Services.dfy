/** The services as objects: the worker's tick, the hold check, delivery with rotation, and
    mail submission, each proved to have the effect its specification function says. */
module Services {
  import opened Addresses
  import opened Clock
  import opened Delivery
  import opened EventLog
  import opened HeaderText
  import opened Holding
  import opened Options
  import opened Queue
  import opened Records
  import opened Rotation
  import opened Submission
  import opened Worker

  class DeliveryService {
    const queue: QueueRepo
    const event: MailEventRepo
    const cfg: Config
    var rrIndex: map<int, nat>

    constructor (queue: QueueRepo, event: MailEventRepo, cfg: Config)
      ensures this.queue == queue && this.event == event && this.cfg == cfg && rrIndex == map[]
    {
      this.queue, this.event, this.cfg := queue, event, cfg;
      rrIndex := map[];
    }

    function Tables(): Db
      reads queue, event
    {
      Db(queue.rows, queue.nextId, event.events)
    }

    /** One tick.  `dequeueOk` is false when the dequeue query itself fails. */
    method Process(at: int, dequeueOk: bool, envs: seq<ItemEnv>)
      requires queue.Valid() && |envs| >= 30 && AllWellFormed(envs)
      modifies this, queue, event
      ensures queue.Valid()
      ensures !dequeueOk ==> Tables() == old(Tables()) && rrIndex == old(rrIndex)
      ensures dequeueOk ==>
                var batch := Batch(old(queue.rows), old(queue.nextId), 30, at);
                |batch| <= |envs| && (Tables(), rrIndex) == HandledAll(cfg, old(Tables()), old(rrIndex), batch, envs)
    {
      if !dequeueOk {
        return;
      }
      var items := queue.DequeueBatch(BATCH_SIZE, at);
      for i := 0 to |items|
        invariant queue.Valid() && |items| <= |envs|
        invariant HandledAll(cfg, Tables(), rrIndex, items[i..], envs[i..])
               == HandledAll(cfg, old(Tables()), old(rrIndex), items, envs)
      {
        var item, env := items[i], envs[i];
        assert items[i..][1..] == items[i + 1..] && envs[i..][1..] == envs[i + 1..];
        assert (items[i..][0], envs[i..][0]) == (item, env);
        ProcessItem(item, env);
      }
    }

    /** The body of the tick's loop. */
    method ProcessItem(item: Item, env: ItemEnv)
      requires queue.Valid() && WellFormed(env.deliver)
      modifies this, queue, event
      ensures queue.Valid()
      ensures (Tables(), rrIndex) == Handled(cfg, old(Tables()), old(rrIndex), item, env)
    {
      var held, err := HoldIfLimited(item, env.check);
      if err {
        queue.MarkRetry(item.id, CheckFailure, env.check.writeAt);
        return;
      }
      if held {
        return;
      }
      var taker, wire := Deliver(item, env.deliver);
      if taker.None? {
        if item.attempts >= 4 {
          queue.MarkFailed(item.id, DeliveryFailure, env.writeAt);
          event.Create(EventFor(item, FailedEvent, DeliveryFailure, 0), env.logAt);
        } else {
          queue.MarkRetry(item.id, DeliveryFailure, env.writeAt);
        }
        return;
      }
      queue.MarkSent(item.id, env.writeAt);
      event.Create(EventFor(item, SentEvent, NoNote, 0), env.logAt);
    }

    /** `err` stands for a non-nil error; a failing defer reports held and an error. */
    method HoldIfLimited(item: Item, env: CheckEnv) returns (held: bool, err: bool)
      requires queue.Valid()
      modifies queue, event
      ensures queue.Valid()
      ensures Reported(HoldVerdict(cfg, old(event.events), item.user, ExtractDomain(item.rcptTo), env.now, env.faults),
                       held, err, old(Tables()), Tables(), item, env)
    {
      if ReadUser in env.faults || item.user !in cfg.users {
        return false, true;
      }
      var user := cfg.users[item.user];

      var domain := ExtractDomain(item.rcptTo);
      var domainPerHour, domainThrottleMS := 0, 0;
      if domain != "" {
        if ReadRule in env.faults {
          return false, true;
        }
        if (item.user, domain) in cfg.rules {
          domainPerHour := cfg.rules[(item.user, domain)].limitPerHour;
          domainThrottleMS := cfg.rules[(item.user, domain)].throttleMS;
        }
      }

      if user.throttleMS > 0 {
        held, err := CheckThrottle(item, "", user.throttleMS, UserThrottle, ReadUserLast, env);
        if held || err {
          return;
        }
      }
      if domain != "" && domainThrottleMS > 0 {
        held, err := CheckThrottle(item, domain, domainThrottleMS, DomainThrottle, ReadDomainLast, env);
        if held || err {
          return;
        }
      }

      var checks := [LimitCheck(user.limitPerSec, 1, "", PerSecond),
                     LimitCheck(user.limitPerMin, 60, "", PerMinute),
                     LimitCheck(user.limitPerHour, 3600, "", PerHour),
                     LimitCheck(user.limitPerDay, 86400, "", PerDay)];
      if domain != "" && domainPerHour > 0 {
        checks := checks + [LimitCheck(domainPerHour, 3600, domain, DomainPerHour)];
      }
      assert checks == LimitChecks(user, RuleFor(cfg, item.user, domain), domain);
      held, err := CheckWindows(item, checks, env);
    }

    /** What a check reports and does to the tables, by its verdict. */
    ghost predicate Reported(v: Verdict, held: bool, err: bool, before: Db, after: Db, item: Item, env: CheckEnv) {
      match v
      case Clear => !held && !err && after == before
      case CheckError => err && after == before
      case Held(rule, wait) =>
        held && (err <==> WriteDefer in env.faults) && after == HeldTables(before, item, rule, wait, env)
    }

    /** One throttle clock: the newest send of the scope against the throttle. */
    method CheckThrottle(item: Item, domain: string, throttleMS: int, rule: HoldRule, read: Access, env: CheckEnv)
      returns (held: bool, err: bool)
      requires queue.Valid() && throttleMS > 0
      modifies queue, event
      ensures queue.Valid()
      ensures Reported(ThrottleVerdict(LastSent(old(event.events), QueryScope(item.user, domain)), throttleMS, env.now,
                                       read in env.faults, rule),
                       held, err, old(Tables()), Tables(), item, env)
    {
      if read in env.faults {
        return false, true;
      }
      var last := event.LastSentAt(item.user, domain);
      if last.Some? {
        var wait := throttleMS * NANOS_PER_MILLI - (env.now - last.value * NANOS_PER_SECOND);
        if wait > 0 {
          err := DeferWithReason(item, rule, wait, env);
          return true, err;
        }
      }
      return false, false;
    }

    /** The loop over the window limits, with its early returns. */
    method CheckWindows(item: Item, checks: seq<LimitCheck>, env: CheckEnv) returns (held: bool, err: bool)
      requires queue.Valid()
      modifies queue, event
      ensures queue.Valid()
      ensures Reported(WindowVerdict(old(event.events), item.user, checks, env.now, env.faults),
                       held, err, old(Tables()), Tables(), item, env)
    {
      ghost var log := event.events;
      ghost var v := WindowVerdict(log, item.user, checks, env.now, env.faults);
      for i := 0 to |checks|
        invariant queue.Valid() && Tables() == old(Tables())
        invariant WindowVerdict(log, item.user, checks[i..], env.now, env.faults) == v
      {
        var c := checks[i];
        assert checks[i..][0] == c && checks[i..][1..] == checks[i + 1..];
        if c.limit <= 0 {
          continue;
        }
        if ReadCount(c.rule) in env.faults {
          return false, true;
        }
        var count := event.CountSentSince(item.user, c.domain, env.now - c.window * NANOS_PER_SECOND);
        if count >= c.limit {
          assert v == Held(c.rule, c.window * NANOS_PER_SECOND);
          err := DeferWithReason(item, c.rule, c.window * NANOS_PER_SECOND, env);
          return true, err;
        }
      }
      return false, false;
    }

    ghost function HeldTables(db: Db, item: Item, rule: HoldRule, wait: int, env: CheckEnv): Db {
      if WriteDefer in env.faults then db
      else db.(rows := Deferred(db.rows, item.id, HeldBy(rule), wait, env.writeAt),
               events := db.events + [EventFor(item, QueuedEvent, HeldBy(rule), env.logAt)])
    }

    method DeferWithReason(item: Item, rule: HoldRule, wait: int, env: CheckEnv) returns (err: bool)
      requires queue.Valid()
      modifies queue, event
      ensures queue.Valid() && (err <==> WriteDefer in env.faults)
      ensures Tables() == HeldTables(old(Tables()), item, rule, wait, env)
      ensures !err ==> event.events == old(event.events)
                       + [Event(item.user, item.mailFrom, item.rcptTo, ExtractDomain(item.rcptTo), QueuedEvent,
                                HeldBy(rule), env.logAt / 1_000_000_000)]
    {
      if WriteDefer in env.faults {
        return true;
      }
      queue.Defer(item.id, HeldBy(rule), wait, env.writeAt);
      event.Create(EventFor(item, QueuedEvent, HeldBy(rule), 0), env.logAt);
      err := false;
    }

    /** `taker` is None for every error of the Go method; `wire` is what went to which
        account, in order. */
    method Deliver(item: Item, env: DeliverEnv) returns (taker: Option<nat>, wire: seq<Transmission>)
      requires WellFormed(env)
      modifies this`rrIndex
      ensures taker == Taker(cfg, old(rrIndex), item, env)
      ensures wire == Offers(item, env.accounts, TriedBy(cfg, old(rrIndex), item, env))
      ensures Addressed(item, env.accounts, wire)
      ensures rrIndex == RotatedBy(cfg, old(rrIndex), item, env)
    {
      if !env.userOk || item.user !in cfg.users || !env.listOk || |env.accounts| == 0 {
        return None, [];
      }
      if cfg.users[item.user].rotationOn {
        var idx := NextRR(item.user, |env.accounts|);
        taker, wire := TryAll(item, env, idx);
      } else {
        taker, wire := TryAll(item, env, 0);
      }
    }

    /** First account `first`, then the others in order, until one accepts. */
    method TryAll(item: Item, env: DeliverEnv, first: nat) returns (taker: Option<nat>, wire: seq<Transmission>)
      requires WellFormed(env) && first < |env.accounts|
      ensures taker == TakerOf(Tried(TryOrder(|env.accounts|, first), env.accepts), env.accepts)
      ensures wire == Offers(item, env.accounts, Tried(TryOrder(|env.accounts|, first), env.accepts))
      ensures Addressed(item, env.accounts, wire)
    {
      var ok, sent := DeliverByAccount(item, env, first);
      wire := [sent];
      OffersAppend(item, env.accounts, [], first);
      assert [] + [first] == [first];
      InVainStart(|env.accounts|, first, env.accepts);
      if ok {
        return Some(first), wire;
      }
      var n := |env.accounts|;
      ghost var tried: seq<nat> := [first];
      for i := 0 to n
        invariant InVain(tried, n, first, i, env.accepts)
        invariant wire == Offers(item, env.accounts, tried)
      {
        if i == first {
          InVainSkips(tried, n, first, env.accepts);
          continue;
        }
        InVainNext(tried, n, first, i, env.accepts);
        ok, sent := DeliverByAccount(item, env, i);
        OffersAppend(item, env.accounts, tried, i);
        wire := wire + [sent];
        tried := tried + [i];
        if ok {
          return Some(i), wire;
        }
      }
      InVainToTheEnd(tried, n, first, env.accepts);
      taker := None;
    }

    method DeliverByAccount(item: Item, env: DeliverEnv, a: nat) returns (ok: bool, sent: Transmission)
      requires WellFormed(env) && a < |env.accounts|
      ensures ok == env.accepts[a] && sent == Offer(item, env.accounts, a)
      ensures sent.account == a && sent.rcptTo == item.rcptTo
      ensures sent.sender == if env.accounts[a].fromEmail != "" then env.accounts[a].fromEmail else item.mailFrom
    {
      var from := item.mailFrom;
      if env.accounts[a].fromEmail != "" {
        from := env.accounts[a].fromEmail;
      }
      var msg := RewriteFromHeader(item.data, from);
      sent := Transmission(a, from, item.rcptTo, msg);
      ok := env.accepts[a];
    }

    method NextRR(user: int, n: nat) returns (idx: nat)
      requires n > 0
      modifies this`rrIndex
      ensures idx == Cursor(old(rrIndex), user, n) && rrIndex == Advanced(old(rrIndex), user, n)
      ensures idx == if user in old(rrIndex) && old(rrIndex)[user] < n then old(rrIndex)[user] else 0
      ensures rrIndex == old(rrIndex)[user := (idx + 1) % n]
    {
      idx := if user in rrIndex then rrIndex[user] else 0;
      if idx >= n {
        idx := 0;
      }
      NextIsModulo(idx, n);
      rrIndex := rrIndex[user := (idx + 1) % n];
    }
  }

  class SendService {
    const events: MailEventRepo
    const queue: QueueRepo

    constructor (events: MailEventRepo, queue: QueueRepo)
      ensures this.events == events && this.queue == queue
    {
      this.events, this.queue := events, queue;
    }

    function Tables(): Db
      reads queue, events
    {
      Db(queue.rows, queue.nextId, events.events)
    }

    /** `ok` is false when some recipient is invalid or cannot be inserted; recipients
        before it stay queued. */
    method HandleMail(user: int, mailFrom: string, to: seq<string>, data: string, envs: seq<SubmitEnv>)
      returns (ok: bool)
      requires queue.Valid() && |envs| == |to|
      modifies queue, events
      ensures queue.Valid()
      ensures ok <==> Longest(Recipients(to, envs)) == |to|
      ensures Tables() == SubmittedAll(old(Tables()), user, mailFrom, Recipients(to, envs), data)
    {
      ghost var before, rs := Tables(), Recipients(to, envs);
      for i := 0 to |to|
        invariant queue.Valid()
        invariant i <= Longest(rs)
        invariant Tables() == AfterFirst(before, user, mailFrom, rs, data, i)
      {
        ghost var r := rs[i];
        OneMoreAcceptable(rs, i);
        ok := SubmitOne(user, mailFrom, to[i], data, envs[i], r);
        assert Tables() == AfterFirst(before, user, mailFrom, rs, data, i + 1);
        if !ok {
          return;
        }
      }
      return true;
    }

    /** The body of HandleMail's loop, for the recipient `r` stands for; `ok` is false where
        the loop returns an error. */
    method SubmitOne(user: int, mailFrom: string, rcpt: string, data: string, env: SubmitEnv, ghost r: Recipient)
      returns (ok: bool)
      requires queue.Valid() && r == RecipientFor(rcpt, env)
      modifies queue, events
      ensures queue.Valid()
      ensures ok == Acceptable(r) && Tables() == Submitted(old(Tables()), user, mailFrom, r, data)
    {
      var domain := ExtractDomain(rcpt);
      if domain == "" {
        events.Create(Event(user, mailFrom, rcpt, "", RejectedEvent, InvalidRecipient, 0), env.logAt);
        return false;
      }
      ok := queue.Enqueue(user, mailFrom, rcpt, data, env.at, env.insertOk);
      if !ok {
        events.Create(Event(user, mailFrom, rcpt, domain, FailedEvent, InsertFailure, 0), env.logAt);
        return;
      }
      events.Create(Event(user, mailFrom, rcpt, domain, QueuedEvent, NoNote, 0), env.logAt);
    }
  }
}
