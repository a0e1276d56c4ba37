/** The queue drains: with nothing submitted or deleted and no failing check, every step
    of the worker lowers a lexicographic measure (items whose row was deleted under the
    worker; pending rows; attempts left; time left before the holding rules expire; what
    the worker is doing). */
module Drain {
  import opened Addresses
  import opened Clock
  import opened EventLog
  import opened Holding
  import opened Invariant
  import opened ItemLife
  import opened Machine
  import opened Queue
  import opened Records
  import opened Worker

  // ---- The measure ----

  /** Seconds by which a rule can still hold an item due at `nextAttempt`. */
  function RuleSlack(cfg: Config, events: seq<Event>, it: Item, rule: HoldRule): nat {
    var domain := ExtractDomain(it.rcptTo);
    var last := LastSent(events, RuleScope(it.user, domain, rule));
    if it.user in cfg.users && last.Some? && Deadline(cfg, it.user, domain, rule, last.value) >= it.nextAttempt
    then Deadline(cfg, it.user, domain, rule, last.value) + 1 - it.nextAttempt
    else 0
  }

  function Slack(cfg: Config, events: seq<Event>, it: Item): nat {
    RuleSlack(cfg, events, it, UserThrottle) + RuleSlack(cfg, events, it, DomainThrottle)
    + RuleSlack(cfg, events, it, PerSecond) + RuleSlack(cfg, events, it, PerMinute)
    + RuleSlack(cfg, events, it, PerHour) + RuleSlack(cfg, events, it, PerDay)
    + RuleSlack(cfg, events, it, DomainPerHour)
  }

  datatype Part = PendingRows | AttemptsLeft | HoldSlack

  /** What one row adds to a part of the measure. */
  function Weight(cfg: Config, db: Db, part: Part, id: nat): nat {
    if id !in db.rows || db.rows[id].status != Pending then 0
    else
      var it := db.rows[id];
      match part
      case PendingRows => 1
      case AttemptsLeft => if it.attempts < MAX_FAILED_DELIVERIES then MAX_FAILED_DELIVERIES - it.attempts else 0
      case HoldSlack => Slack(cfg, db.events, it)
  }

  /** Sum of a part over the ids below `n`. */
  function Total(cfg: Config, db: Db, part: Part, n: nat): nat {
    if n == 0 then 0 else Total(cfg, db, part, n - 1) + Weight(cfg, db, part, n - 1)
  }

  function Measure(cfg: Config, w: World, part: Part): nat {
    Total(cfg, w.db, part, w.db.nextId)
  }

  function Phase(w: World): nat {
    if w.current.Some? then 0 else if w.batch != [] then 1 else 2
  }

  /** How many of the items have no row any more. */
  function Gone(items: seq<Item>, rows: Rows): nat {
    if items == [] then 0 else (if items[0].id in rows then 0 else 1) + Gone(items[1..], rows)
  }

  function GoneItems(w: World): nat {
    Gone(Active(w), w.db.rows)
  }

  predicate Lower(cfg: Config, w': World, w: World) {
    GoneItems(w') < GoneItems(w) || (GoneItems(w') == GoneItems(w) && LowerParts(cfg, w', w))
  }

  predicate LowerParts(cfg: Config, w': World, w: World) {
    var p', p := Measure(cfg, w', PendingRows), Measure(cfg, w, PendingRows);
    var a', a := Measure(cfg, w', AttemptsLeft), Measure(cfg, w, AttemptsLeft);
    var s', s := Measure(cfg, w', HoldSlack), Measure(cfg, w, HoldSlack);
    p' < p || (p' == p && (a' < a || (a' == a && (s' < s || (s' == s && Phase(w') < Phase(w))))))
  }

  lemma {:induction false} TotalSame(cfg: Config, db: Db, db': Db, part: Part, n: nat)
    requires forall id: nat :: id < n ==> Weight(cfg, db', part, id) == Weight(cfg, db, part, id)
    ensures Total(cfg, db', part, n) == Total(cfg, db, part, n)
  {
    if n > 0 {
      TotalSame(cfg, db, db', part, n - 1);
    }
  }

  /** When one row's weight changes, the sum changes by as much. */
  lemma {:induction false} TotalChange(cfg: Config, db: Db, db': Db, part: Part, n: nat, k: nat)
    requires k < n && forall id: nat :: id < n && id != k ==> Weight(cfg, db', part, id) == Weight(cfg, db, part, id)
    ensures Total(cfg, db', part, n) - Weight(cfg, db', part, k) == Total(cfg, db, part, n) - Weight(cfg, db, part, k)
  {
    if k == n - 1 {
      TotalSame(cfg, db, db', part, n - 1);
    } else {
      TotalChange(cfg, db, db', part, n - 1, k);
    }
  }

  // ---- Each step lowers it ----

  /** Steps of the worker that do something: not an empty tick. */
  predicate Works(cfg: Config, w: World, s: Step)
    requires Legal(w, s) && KnownItems(w)
  {
    (s.Tick? && After(cfg, w, s).batch != []) || s.Check? || s.Finish?
  }

  /** The check of the next item fails. */
  predicate CheckFails(cfg: Config, w: World, s: Step) {
    s.Check? && w.batch != [] && ResultOf(VerdictOn(cfg, w.db, w.batch[0], s.env), s.env.faults).Errored?
  }

  /** Only the row of `it` changed, to `it'`. */
  predicate RowMoved(db: Db, db': Db, it: Item, it': Item) {
    && it.id in db.rows && db.rows[it.id] == it && it.id < db.nextId
    && db'.nextId == db.nextId
    && db'.rows == db.rows[it.id := it']
  }

  lemma PartAfterMove(cfg: Config, db: Db, db': Db, it: Item, it': Item, part: Part)
    requires RowMoved(db, db', it, it') && (part != HoldSlack || NoNewSend(db, db'))
    ensures Total(cfg, db', part, db'.nextId) - Weight(cfg, db', part, it.id)
         == Total(cfg, db, part, db.nextId) - Weight(cfg, db, part, it.id)
  {
    forall id: nat | id < db.nextId && id != it.id
      ensures Weight(cfg, db', part, id) == Weight(cfg, db, part, id)
    {
      if part == HoldSlack && id in db.rows {
        SlackWithoutSend(cfg, db, db', db.rows[id]);
      }
    }
    TotalChange(cfg, db, db', part, db.nextId, it.id);
  }

  /** At most an event that is not a send was logged. */
  predicate NoNewSend(db: Db, db': Db) {
    db'.events == db.events
    || (|db'.events| == |db.events| + 1 && db'.events[..|db.events|] == db.events
        && db'.events[|db.events|].status != SentEvent)
  }

  lemma LastSentWithoutSend(db: Db, db': Db, scope: Scope)
    requires NoNewSend(db, db')
    ensures LastSent(db'.events, scope) == LastSent(db.events, scope)
  {
    if db'.events != db.events {
      assert db'.events == db.events + [db'.events[|db.events|]];
      QueriesAfterAppend(db.events, db'.events[|db.events|], scope);
    }
  }

  lemma SlackWithoutSend(cfg: Config, db: Db, db': Db, it: Item)
    requires NoNewSend(db, db')
    ensures Slack(cfg, db'.events, it) == Slack(cfg, db.events, it)
  {
    forall rule: HoldRule
      ensures RuleSlack(cfg, db'.events, it, rule) == RuleSlack(cfg, db.events, it, rule)
    {
      LastSentWithoutSend(db, db', RuleScope(it.user, ExtractDomain(it.rcptTo), rule));
    }
  }

  /** A later next attempt leaves less slack, strictly so for the rule that held. */
  lemma SlackShrinks(cfg: Config, events: seq<Event>, it: Item, it': Item, rule: HoldRule)
    requires it'.user == it.user && it'.rcptTo == it.rcptTo && it'.nextAttempt > it.nextAttempt
    requires RuleSlack(cfg, events, it, rule) > 0
    ensures Slack(cfg, events, it') < Slack(cfg, events, it)
  {
    forall r: HoldRule
      ensures RuleSlack(cfg, events, it', r) <= RuleSlack(cfg, events, it, r)
      ensures r == rule ==> RuleSlack(cfg, events, it', r) < RuleSlack(cfg, events, it, r)
    {
      SlackOfRule(cfg, events, it, it', r);
    }
  }

  lemma SlackOfRule(cfg: Config, events: seq<Event>, it: Item, it': Item, r: HoldRule)
    requires it'.user == it.user && it'.rcptTo == it.rcptTo && it'.nextAttempt > it.nextAttempt
    ensures RuleSlack(cfg, events, it', r) <= RuleSlack(cfg, events, it, r)
    ensures RuleSlack(cfg, events, it, r) > 0 ==> RuleSlack(cfg, events, it', r) < RuleSlack(cfg, events, it, r)
  {
  }

  lemma ActiveRow(cfg: Config, w: World, it: Item)
    requires Inv(cfg, w) && it in Active(w) && it.id in w.db.rows
    ensures w.db.rows[it.id] == it && it.id < w.db.nextId
    ensures it.status == Pending && it.nextAttempt <= Sec(w.clock)
  {
    assert FaithfulItem(w, it);
  }

  /** Pushing one pending row back, with no new send, lowers the slack alone. */
  lemma PushLowers(cfg: Config, w: World, w': World, it: Item, it': Item, rule: HoldRule)
    requires RowMoved(w.db, w'.db, it, it') && NoNewSend(w.db, w'.db)
    requires it.status == Pending == it'.status && it'.attempts == it.attempts
    requires it'.user == it.user && it'.rcptTo == it.rcptTo && it'.nextAttempt > it.nextAttempt
    requires RuleSlack(cfg, w.db.events, it, rule) > 0
    ensures LowerParts(cfg, w', w)
  {
    SlackShrinks(cfg, w.db.events, it, it', rule);
    SlackWithoutSend(cfg, w.db, w'.db, it');
    PartAfterMove(cfg, w.db, w'.db, it, it', PendingRows);
    PartAfterMove(cfg, w.db, w'.db, it, it', AttemptsLeft);
    PartAfterMove(cfg, w.db, w'.db, it, it', HoldSlack);
  }

  lemma HeldRow(cfg: Config, w: World, env: CheckEnv)
    requires Legal(w, Check(env)) && KnownItems(w)
    requires w.batch[0].id in w.db.rows && w.db.rows[w.batch[0].id] == w.batch[0]
    requires w.batch[0].id < w.db.nextId && w.batch[0].nextAttempt <= Sec(w.clock)
    requires ResultOf(VerdictOn(cfg, w.db, w.batch[0], env), env.faults).HeldBack?
    ensures var it := w.batch[0]; var w' := AfterCheck(cfg, w, env); var it' := w'.db.rows[it.id];
            && RowMoved(w.db, w'.db, it, it') && NoNewSend(w.db, w'.db)
            && it' == it.(lastError := it'.lastError, nextAttempt := it'.nextAttempt, updatedAt := it'.updatedAt)
            && it'.nextAttempt > it.nextAttempt
  {
    SecMonotone(w.clock, env.writeAt);
  }

  /** A hold lowers the slack and nothing else moves. */
  lemma HoldLowers(cfg: Config, w: World, env: CheckEnv)
    requires Inv(cfg, w) && Legal(w, Check(env)) && KnownItems(w) && w.batch[0].id in w.db.rows
    requires ResultOf(VerdictOn(cfg, w.db, w.batch[0], env), env.faults).HeldBack?
    ensures LowerParts(cfg, AfterCheck(cfg, w, env), w)
  {
    var it := w.batch[0];
    var w' := AfterCheck(cfg, w, env);
    var rule := VerdictOn(cfg, w.db, it, env).rule;
    var domain := ExtractDomain(it.rcptTo);
    assert Active(w)[0] == it;
    ActiveRow(cfg, w, it);
    HeldRow(cfg, w, env);
    VerdictMeaning(cfg, w.db.events, it.user, domain, env.now, env.faults);
    HeldBeforeDeadline(cfg, w.db.events, it.user, domain, rule, env.now);
    SecMonotone(w.clock, env.now);
    PushLowers(cfg, w, w', it, w'.db.rows[it.id], rule);
  }

  /** A finished delivery settles a row or uses up an attempt. */
  lemma FinishLowers(cfg: Config, w: World, s: Step)
    requires Inv(cfg, w) && s.Finish? && Legal(w, s) && KnownItems(w) && w.current.value.item.id in w.db.rows
    ensures LowerParts(cfg, AfterFinish(w, s), w)
  {
    var it := w.current.value.item;
    var w' := AfterFinish(w, s);
    assert Active(w)[0] == it;
    ActiveRow(cfg, w, it);
    var it' := w'.db.rows[it.id];
    PartAfterMove(cfg, w.db, w'.db, it, it', PendingRows);
    PartAfterMove(cfg, w.db, w'.db, it, it', AttemptsLeft);
  }

  lemma {:induction false} GoneByIds(items: seq<Item>, rows: Rows, rows': Rows)
    requires rows'.Keys == rows.Keys
    ensures Gone(items, rows') == Gone(items, rows)
  {
    if items != [] {
      GoneByIds(items[1..], rows, rows');
    }
  }

  /** The worker settles its first item: that item counts no more. */
  lemma GoneAfterFirst(w: World, w': World)
    requires Active(w) != [] && Active(w') == Active(w)[1..] && w'.db.rows.Keys == w.db.rows.Keys
    ensures GoneItems(w) == GoneItems(w') + if Active(w)[0].id in w.db.rows then 0 else 1
  {
    GoneByIds(Active(w'), w.db.rows, w'.db.rows);
  }

  lemma {:induction false} NoneGone(items: seq<Item>, rows: Rows)
    requires forall it :: it in items ==> it.id in rows
    ensures Gone(items, rows) == 0
  {
    if items != [] {
      assert items[0] in items;
      NoneGone(items[1..], rows);
    }
  }

  /** A dequeued batch has its rows. */
  lemma TickGone(w: World, at: int)
    requires Idle(w) && WellKeyed(w.db.rows, w.db.nextId)
    ensures var w' := w.(batch := Batch(w.db.rows, w.db.nextId, BATCH_SIZE, at), clock := at);
            GoneItems(w') == GoneItems(w) == 0
  {
    BatchMembers(w.db.rows, w.db.nextId, BATCH_SIZE, at);
    var w' := w.(batch := Batch(w.db.rows, w.db.nextId, BATCH_SIZE, at), clock := at);
    assert Active(w') == w'.batch;
    forall it | it in Active(w') ensures it.id in w'.db.rows {
      assert DueRow(w.db.rows, it, Sec(at));
    }
    NoneGone(Active(w'), w'.db.rows);
  }

  lemma HoldOrFinishLowers(cfg: Config, w: World, s: Step)
    requires Inv(cfg, w) && Legal(w, s) && KnownItems(w) && !CheckFails(cfg, w, s)
    requires s.Finish? || (s.Check? && !ResultOf(VerdictOn(cfg, w.db, w.batch[0], s.env), s.env.faults).Cleared?)
    ensures Lower(cfg, After(cfg, w, s), w)
  {
    var w' := After(cfg, w, s);
    assert Active(w') == Active(w)[1..];
    assert w'.db.rows.Keys == w.db.rows.Keys;
    GoneAfterFirst(w, w');
    if Active(w)[0].id in w.db.rows {
      if s.Finish? {
        FinishLowers(cfg, w, s);
      } else {
        HoldLowers(cfg, w, s.env);
      }
    }
  }

  lemma WorkLowers(cfg: Config, w: World, s: Step)
    requires Inv(cfg, w) && Legal(w, s) && KnownItems(w) && Works(cfg, w, s) && !CheckFails(cfg, w, s)
    ensures Lower(cfg, After(cfg, w, s), w)
  {
    if s.Tick? {
      TickGone(w, s.at);
    } else if s.Check? && ResultOf(VerdictOn(cfg, w.db, w.batch[0], s.env), s.env.faults).Cleared? {
      assert Active(After(cfg, w, s)) == Active(w);
    } else {
      HoldOrFinishLowers(cfg, w, s);
    }
  }

  // ---- Whole runs of the worker ----

  /** `worlds` is an endless run of the worker alone, from any state the machine can be in,
      no check failing. */
  ghost predicate WorkerRun(cfg: Config, worlds: nat -> World, steps: nat -> Step) {
    && Inv(cfg, worlds(0))
    && forall i: nat :: GoodStep(cfg, worlds(i), steps(i), worlds(i + 1))
  }

  predicate GoodStep(cfg: Config, w: World, s: Step, w': World) {
    && Legal(w, s) && KnownItems(w)
    && (s.Tick? || s.Check? || s.Finish?)
    && !CheckFails(cfg, w, s)
    && w' == After(cfg, w, s)
  }

  ghost predicate Reached(worlds: nat -> World, second: int) {
    exists i: nat :: Sec(worlds(i).clock) >= second
  }

  /** The clock passes every second. */
  ghost predicate TimePasses(worlds: nat -> World) {
    forall second: int :: Reached(worlds, second)
  }

  predicate Drained(w: World) {
    forall id :: id in w.db.rows ==> w.db.rows[id].status != Pending
  }

  lemma {:induction false} RunStaysGood(cfg: Config, worlds: nat -> World, steps: nat -> Step, k: nat)
    requires WorkerRun(cfg, worlds, steps)
    ensures Inv(cfg, worlds(k))
  {
    if k > 0 {
      RunStaysGood(cfg, worlds, steps, k - 1);
      assert GoodStep(cfg, worlds(k - 1), steps(k - 1), worlds(k - 1 + 1));
      StepKeeps(cfg, worlds(k - 1), steps(k - 1));
    }
  }

  /** From state k on, an idle worker with a row due by state m ticks in vain for a while
      and then finds work; ticking in vain changes nothing but the clock. */
  lemma {:induction false} FindsWork(cfg: Config, worlds: nat -> World, steps: nat -> Step, k: nat, m: nat, id: nat)
    returns (j: nat)
    requires WorkerRun(cfg, worlds, steps) && k <= m
    requires id in worlds(k).db.rows && Due(worlds(k).db.rows[id], Sec(worlds(m).clock))
    ensures k <= j && worlds(j) == worlds(k).(clock := worlds(j).clock)
    ensures Legal(worlds(j), steps(j)) && KnownItems(worlds(j)) && Works(cfg, worlds(j), steps(j))
    decreases m - k
  {
    RunStaysGood(cfg, worlds, steps, k);
    var w, s := worlds(k), steps(k);
    assert GoodStep(cfg, w, s, worlds(k + 1));
    if Works(cfg, w, s) {
      j := k;
    } else {
      SecMonotone(w.clock, s.at);
      if k == m {
        assert Due(w.db.rows[id], Sec(s.at));
        BatchMembers(w.db.rows, w.db.nextId, BATCH_SIZE, s.at);
        assert false;
      }
      assert worlds(k + 1).batch == [] && worlds(k + 1) == w.(clock := s.at);
      j := FindsWork(cfg, worlds, steps, k + 1, m, id);
    }
  }

  lemma {:induction false} ClockRuns(cfg: Config, worlds: nat -> World, steps: nat -> Step, i: nat, j: nat)
    requires WorkerRun(cfg, worlds, steps) && i <= j
    ensures worlds(i).clock <= worlds(j).clock
    decreases j
  {
    if i < j {
      ClockRuns(cfg, worlds, steps, i, j - 1);
      assert GoodStep(cfg, worlds(j - 1), steps(j - 1), worlds(j - 1 + 1));
    }
  }

  lemma {:induction false} DrainsFrom(cfg: Config, worlds: nat -> World, steps: nat -> Step, k: nat) returns (j: nat)
    requires WorkerRun(cfg, worlds, steps) && TimePasses(worlds)
    ensures Drained(worlds(j))
    decreases GoneItems(worlds(k)), Measure(cfg, worlds(k), PendingRows), Measure(cfg, worlds(k), AttemptsLeft),
              Measure(cfg, worlds(k), HoldSlack), Phase(worlds(k))
  {
    RunStaysGood(cfg, worlds, steps, k);
    var w := worlds(k);
    if Drained(w) {
      return k;
    }
    var id :| id in w.db.rows && w.db.rows[id].status == Pending;
    assert Reached(worlds, w.db.rows[id].nextAttempt);
    var i: nat :| Sec(worlds(i).clock) >= w.db.rows[id].nextAttempt;
    var m := if i < k then k else i;
    ClockRuns(cfg, worlds, steps, i, m);
    SecMonotone(worlds(i).clock, worlds(m).clock);
    var at := FindsWork(cfg, worlds, steps, k, m, id);
    RunStaysGood(cfg, worlds, steps, at);
    assert GoodStep(cfg, worlds(at), steps(at), worlds(at + 1));
    WorkLowers(cfg, worlds(at), steps(at));
    SameButClock(cfg, w, worlds(at));
    j := DrainsFrom(cfg, worlds, steps, at + 1);
  }

  lemma SameButClock(cfg: Config, w: World, w': World)
    requires w' == w.(clock := w'.clock)
    ensures forall part: Part :: Measure(cfg, w', part) == Measure(cfg, w, part)
    ensures Phase(w') == Phase(w) && GoneItems(w') == GoneItems(w)
  {
    assert Active(w') == Active(w);
  }

  /** The queue drains: however the upstream accounts answer, a worker that keeps ticking
      as time passes reaches a state with every row sent or failed, if nothing is
      submitted or deleted meanwhile and no hold check fails. */
  lemma QueueDrains(cfg: Config, worlds: nat -> World, steps: nat -> Step)
    requires WorkerRun(cfg, worlds, steps) && TimePasses(worlds)
    ensures exists j: nat :: Drained(worlds(j))
  {
    var j := DrainsFrom(cfg, worlds, steps, 0);
  }

  lemma {:induction false} WorkEndsFrom(cfg: Config, worlds: nat -> World, steps: nat -> Step, k: nat) returns (j: nat)
    requires WorkerRun(cfg, worlds, steps)
    ensures Legal(worlds(j), steps(j)) && KnownItems(worlds(j)) && !Works(cfg, worlds(j), steps(j))
    decreases GoneItems(worlds(k)), Measure(cfg, worlds(k), PendingRows), Measure(cfg, worlds(k), AttemptsLeft),
              Measure(cfg, worlds(k), HoldSlack), Phase(worlds(k))
  {
    RunStaysGood(cfg, worlds, steps, k);
    assert GoodStep(cfg, worlds(k), steps(k), worlds(k + 1));
    if Works(cfg, worlds(k), steps(k)) {
      WorkLowers(cfg, worlds(k), steps(k));
      j := WorkEndsFrom(cfg, worlds, steps, k + 1);
    } else {
      j := k;
    }
  }

  /** Whatever the clock does, the worker cannot work for ever: some tick is empty. */
  lemma WorkEnds(cfg: Config, worlds: nat -> World, steps: nat -> Step)
    requires WorkerRun(cfg, worlds, steps)
    ensures exists j: nat :: steps(j).Tick? && worlds(j + 1).batch == []
  {
    var j := WorkEndsFrom(cfg, worlds, steps, 0);
    assert GoodStep(cfg, worlds(j), steps(j), worlds(j + 1));
  }

  /** An idle worker's queue is drained exactly when every later tick is empty. */
  lemma StuckMeansDrained(w: World)
    requires WellKeyed(w.db.rows, w.db.nextId) && Idle(w)
    ensures Drained(w) <==> forall at: int :: at >= w.clock ==> Batch(w.db.rows, w.db.nextId, BATCH_SIZE, at) == []
  {
    if Drained(w) {
      forall at: int | at >= w.clock ensures Batch(w.db.rows, w.db.nextId, BATCH_SIZE, at) == [] {
        NoneDue(w.db.rows, 0, w.db.nextId, Sec(at));
      }
    } else {
      var id :| id in w.db.rows && w.db.rows[id].status == Pending;
      var second := if w.db.rows[id].nextAttempt > Sec(w.clock) then w.db.rows[id].nextAttempt else Sec(w.clock) + 1;
      var at := second * NANOS_PER_SECOND;
      SecBounds(w.clock);
      SecShift(0, second);
      BatchMembers(w.db.rows, w.db.nextId, BATCH_SIZE, at);
      assert Due(w.db.rows[id], Sec(at));
      assert Batch(w.db.rows, w.db.nextId, BATCH_SIZE, at) != [];
    }
  }
}
