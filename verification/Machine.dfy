/** Whole runs of the pipeline: a single worker that dequeues a snapshot batch, checks and
    delivers its items one by one, interleaved with submissions and deletions of pending
    rows at every point in between. */
module Machine {
  import opened Addresses
  import opened Clock
  import opened EventLog
  import opened Holding
  import opened Options
  import opened Queue
  import opened Records
  import opened Worker

  /** What has happened to one queue id so far.  `refused` holds the seconds of the failed
      deliveries, `accepted` the upstream accounts that took the message, `lateErrors`
      counts the failed checks at four attempts or more, `holds` one entry (rule, second
      of the newest send the rule saw) per hold. */
  datatype ItemHistory = ItemHistory(user: int, rcptTo: string, accepted: seq<nat>, refused: seq<int>, gaveUp: bool,
                                     checkErrors: nat, lateErrors: nat, holds: multiset<(HoldRule, int)>)

  /** An item that passed its check at `checkedAt` and is being delivered. */
  datatype Flight = Flight(item: Item, checkedAt: int)

  /** `stamps` holds the true instant of each logged event; the log keeps its second. */
  datatype World = World(db: Db, clock: int, stamps: seq<int>, batch: seq<Item>, current: Option<Flight>,
                         history: map<nat, ItemHistory>)

  datatype Step =
    | Submit(user: int, mailFrom: string, rcptTo: string, data: string, insertOk: bool, at: int, logAt: int)
    | Delete(ids: set<nat>, at: int)
    | Tick(at: int)
    | Check(env: CheckEnv)
    | Finish(taker: Option<nat>, writeAt: int, logAt: int)

  const START := World(Db(map[], 1, []), 0, [], [], None, map[])

  predicate Idle(w: World) {
    w.batch == [] && w.current.None?
  }

  /** The step can happen next: the clock never runs back and the worker does one thing at
      a time. */
  predicate Legal(w: World, s: Step) {
    match s
    case Submit(_, _, _, _, _, at, logAt) => w.clock <= at <= logAt
    case Delete(_, at) => w.clock <= at
    case Tick(at) => Idle(w) && w.clock <= at
    case Check(env) => w.current.None? && w.batch != [] && w.clock <= env.now <= env.writeAt <= env.logAt
    case Finish(_, writeAt, logAt) => w.current.Some? && w.clock <= writeAt <= logAt
  }

  function StampsAfter(w: World, db: Db, at: int): seq<int> {
    if |db.events| > |w.db.events| then w.stamps + [at] else w.stamps
  }

  function NewHistory(user: int, rcptTo: string): ItemHistory {
    ItemHistory(user, rcptTo, [], [], false, 0, 0, multiset{})
  }

  /** The second of the newest send that a rule looks at, for an item. */
  function NewestSeen(db: Db, it: Item, rule: HoldRule): int {
    var last := LastSent(db.events, RuleScope(it.user, ExtractDomain(it.rcptTo), rule));
    if last.Some? then last.value else 0
  }

  function AfterError(h: ItemHistory, it: Item): ItemHistory {
    h.(checkErrors := h.checkErrors + 1,
       lateErrors := h.lateErrors + if it.attempts >= MAX_ATTEMPTS_BEFORE_LAST then 1 else 0)
  }

  function HistoryAfterCheck(h: ItemHistory, db: Db, it: Item, r: CheckResult): ItemHistory {
    match r
    case Cleared => h
    case HeldBack(rule) => h.(holds := h.holds + multiset{(rule, NewestSeen(db, it, rule))})
    case Errored => AfterError(h, it)
  }

  function HistoryAfterFinish(h: ItemHistory, it: Item, taker: Option<nat>, at: int): ItemHistory {
    match taker
    case Some(account) => h.(accepted := h.accepted + [account])
    case None => h.(refused := h.refused + [Sec(at)], gaveUp := h.gaveUp || it.attempts >= MAX_ATTEMPTS_BEFORE_LAST)
  }

  function SubmittedRecipient(s: Step): Recipient
    requires s.Submit?
  {
    Recipient(s.rcptTo, ExtractDomain(s.rcptTo), s.insertOk, s.at, s.logAt)
  }

  function AfterSubmit(w: World, s: Step): World
    requires s.Submit?
  {
    var r := SubmittedRecipient(s);
    var db := Submitted(w.db, s.user, s.mailFrom, r, s.data);
    w.(db := db, clock := s.logAt, stamps := StampsAfter(w, db, s.logAt),
       history := if Acceptable(r) then w.history[w.db.nextId := NewHistory(s.user, s.rcptTo)] else w.history)
  }

  function AfterCheck(cfg: Config, w: World, env: CheckEnv): World
    requires w.batch != [] && w.batch[0].id in w.history
  {
    var it := w.batch[0];
    var r := ResultOf(VerdictOn(cfg, w.db, it, env), env.faults);
    var db := Checked(cfg, w.db, it, env);
    World(db, env.logAt, StampsAfter(w, db, env.logAt), w.batch[1..],
          if r.Cleared? then Some(Flight(it, env.now)) else None,
          w.history[it.id := HistoryAfterCheck(w.history[it.id], w.db, it, r)])
  }

  function AfterFinish(w: World, s: Step): World
    requires s.Finish? && w.current.Some? && w.current.value.item.id in w.history
  {
    var it := w.current.value.item;
    var db := Finished(w.db, it, s.taker.Some?, s.writeAt, s.logAt);
    w.(db := db, clock := s.logAt, stamps := StampsAfter(w, db, s.logAt), current := None,
       history := w.history[it.id := HistoryAfterFinish(w.history[it.id], it, s.taker, s.writeAt)])
  }

  /** Every item the worker holds was once enqueued. */
  predicate KnownItems(w: World) {
    && (forall i :: 0 <= i < |w.batch| ==> w.batch[i].id in w.history)
    && (w.current.Some? ==> w.current.value.item.id in w.history)
  }

  function After(cfg: Config, w: World, s: Step): World
    requires Legal(w, s) && KnownItems(w)
  {
    match s
    case Submit(_, _, _, _, _, _, _) => AfterSubmit(w, s)
    case Delete(ids, at) => w.(db := w.db.(rows := WithoutPending(w.db.rows, ids)), clock := at)
    case Tick(at) => w.(batch := Batch(w.db.rows, w.db.nextId, BATCH_SIZE, at), clock := at)
    case Check(env) => AfterCheck(cfg, w, env)
    case Finish(_, _, _) => AfterFinish(w, s)
  }
}
