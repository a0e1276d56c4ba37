/** The database effect of the pipeline's steps: one submitted recipient, one hold check,
    one finished delivery.  The classes in Services are proved to have exactly these
    effects, and the run machine is built from them. */
module Worker {
  import opened Addresses
  import opened Clock
  import opened Holding
  import opened Queue
  import opened Records

  const MAX_ATTEMPTS_BEFORE_LAST := 4
  const BATCH_SIZE := 30

  datatype Db = Db(rows: Rows, nextId: nat, events: seq<Event>)

  function EventFor(it: Item, status: EventStatus, reason: Note, at: int): Event {
    Event(it.user, it.mailFrom, it.rcptTo, ExtractDomain(it.rcptTo), status, reason, Sec(at))
  }

  // ---- Submission of one recipient (internal/service/send.go:21-33) ----

  /** One recipient with its domain, the database's answer to the insert and the instants
      of the two writes. */
  datatype Recipient = Recipient(rcptTo: string, domain: string, insertOk: bool, at: int, logAt: int)

  predicate Acceptable(r: Recipient) {
    r.domain != "" && r.insertOk
  }

  function SubmitEvent(user: int, mailFrom: string, r: Recipient): Event {
    if r.domain == "" then Event(user, mailFrom, r.rcptTo, "", RejectedEvent, InvalidRecipient, Sec(r.logAt))
    else if !r.insertOk then Event(user, mailFrom, r.rcptTo, r.domain, FailedEvent, InsertFailure, Sec(r.logAt))
    else Event(user, mailFrom, r.rcptTo, r.domain, QueuedEvent, NoNote, Sec(r.logAt))
  }

  function Submitted(db: Db, user: int, mailFrom: string, r: Recipient, data: string): Db {
    var logged := db.(events := db.events + [SubmitEvent(user, mailFrom, r)]);
    if !Acceptable(r) then logged
    else logged.(rows := db.rows[db.nextId := NewItem(db.nextId, user, mailFrom, r.rcptTo, data, r.at)],
                 nextId := db.nextId + 1)
  }

  // ---- Hold check of one item (internal/service/delivery.go:53-61, 80-174) ----

  /** The instants one check reads and writes at, and the accesses that fail in it. */
  datatype CheckEnv = CheckEnv(now: int, writeAt: int, logAt: int, faults: set<Access>)

  datatype CheckResult = Cleared | HeldBack(rule: HoldRule) | Errored

  function VerdictOn(cfg: Config, db: Db, it: Item, env: CheckEnv): Verdict {
    HoldVerdict(cfg, db.events, it.user, ExtractDomain(it.rcptTo), env.now, env.faults)
  }

  function ResultOf(v: Verdict, faults: set<Access>): CheckResult {
    match v
    case Clear => Cleared
    case Held(rule, _) => if WriteDefer in faults then Errored else HeldBack(rule)
    case CheckError => Errored
  }

  function Checked(cfg: Config, db: Db, it: Item, env: CheckEnv): Db {
    var v := VerdictOn(cfg, db, it, env);
    match ResultOf(v, env.faults)
    case Cleared => db
    case HeldBack(rule) =>
      db.(rows := Deferred(db.rows, it.id, HeldBy(rule), v.wait, env.writeAt),
          events := db.events + [EventFor(it, QueuedEvent, HeldBy(rule), env.logAt)])
    case Errored => db.(rows := MarkedRetry(db.rows, it.id, CheckFailure, env.writeAt))
  }

  // ---- Outcome of one delivery (internal/service/delivery.go:63-76) ----

  function Finished(db: Db, it: Item, accepted: bool, writeAt: int, logAt: int): Db {
    if accepted then
      db.(rows := MarkedSent(db.rows, it.id, writeAt),
          events := db.events + [EventFor(it, SentEvent, NoNote, logAt)])
    else if it.attempts >= MAX_ATTEMPTS_BEFORE_LAST then
      db.(rows := MarkedFailed(db.rows, it.id, DeliveryFailure, writeAt),
          events := db.events + [EventFor(it, FailedEvent, DeliveryFailure, logAt)])
    else
      db.(rows := MarkedRetry(db.rows, it.id, DeliveryFailure, writeAt))
  }

  // ---- Both written out ----

  /** A cleared item changes nothing.  A held one is put off by the whole seconds of the wait,
      with a queued event naming the rule.  A check that cannot read, or cannot write its
      hold, costs an attempt and 30 seconds.  No other row changes. */
  lemma CheckedExactly(cfg: Config, db: Db, it: Item, env: CheckEnv)
    requires it.id in db.rows
    ensures var v, after := VerdictOn(cfg, db, it, env), Checked(cfg, db, it, env);
            && OthersKept(db.rows, after.rows, it.id) && after.nextId == db.nextId
            && var row, row' := db.rows[it.id], after.rows[it.id];
            if v.Clear? then row' == row && after.events == db.events
            else if v.Held? && WriteDefer !in env.faults then
              && WholeSeconds(v.wait, row'.nextAttempt - env.writeAt / 1_000_000_000)
              && row' == row.(lastError := HeldBy(v.rule), nextAttempt := row'.nextAttempt,
                              updatedAt := env.writeAt / 1_000_000_000)
              && after.events == db.events + [Event(it.user, it.mailFrom, it.rcptTo, ExtractDomain(it.rcptTo),
                                                    QueuedEvent, HeldBy(v.rule), env.logAt / 1_000_000_000)]
            else
              && row' == row.(attempts := row.attempts + 1, lastError := CheckFailure,
                              nextAttempt := env.writeAt / 1_000_000_000 + 30,
                              updatedAt := env.writeAt / 1_000_000_000)
              && after.events == db.events
  {
    var v := VerdictOn(cfg, db, it, env);
    if v.Held? {
      DeferredExactly(db.rows[it.id], HeldBy(v.rule), v.wait, env.writeAt);
    }
  }

  /** An accepted item is sent, with a sent event.  A refused one costs an attempt; at the
      fifth it fails, with a failed event, and before that it waits 30 seconds. */
  lemma FinishedExactly(db: Db, it: Item, accepted: bool, writeAt: int, logAt: int)
    requires it.id in db.rows
    ensures var after := Finished(db, it, accepted, writeAt, logAt);
            && OthersKept(db.rows, after.rows, it.id) && after.nextId == db.nextId
            && var row, row' := db.rows[it.id], after.rows[it.id];
            if accepted then
              && row' == row.(status := Sent, updatedAt := writeAt / 1_000_000_000)
              && after.events == db.events + [Event(it.user, it.mailFrom, it.rcptTo, ExtractDomain(it.rcptTo),
                                                    SentEvent, NoNote, logAt / 1_000_000_000)]
            else if it.attempts >= 4 then
              && row' == row.(status := Failed, attempts := row.attempts + 1, lastError := DeliveryFailure,
                              updatedAt := writeAt / 1_000_000_000)
              && after.events == db.events + [Event(it.user, it.mailFrom, it.rcptTo, ExtractDomain(it.rcptTo),
                                                    FailedEvent, DeliveryFailure, logAt / 1_000_000_000)]
            else
              && row' == row.(attempts := row.attempts + 1, lastError := DeliveryFailure,
                              nextAttempt := writeAt / 1_000_000_000 + 30, updatedAt := writeAt / 1_000_000_000)
              && after.events == db.events
  {
  }
}
