/** The invariant of every reachable state of the run machine. */
module Invariant {
  import opened Addresses
  import opened Clock
  import opened EventLog
  import opened Holding
  import opened ItemLife
  import opened Machine
  import opened Options
  import opened Queue
  import opened Records
  import opened Worker

  /** The items the worker still has to deal with: the one in flight, then the batch. */
  function Active(w: World): seq<Item> {
    (if w.current.Some? then [w.current.value.item] else []) + w.batch
  }

  /** The log is in clock order and each event carries the second of its true instant. */
  predicate LogTimed(w: World) {
    && |w.stamps| == |w.db.events|
    && (forall i :: 0 <= i < |w.stamps| ==> w.db.events[i].createdAt == Sec(w.stamps[i]) && w.stamps[i] <= w.clock)
    && (forall i, j :: 0 <= i <= j < |w.stamps| ==> w.stamps[i] <= w.stamps[j])
  }

  predicate Tabled(w: World) {
    && WellKeyed(w.db.rows, w.db.nextId)
    && (forall id :: id in w.history ==> id < w.db.nextId)
    && (forall id :: id in w.db.rows ==> id in w.history)
  }

  /** A snapshot is faithful: a row the worker holds is either gone or exactly as it was
      dequeued, pending and due. */
  predicate FaithfulItem(w: World, it: Item) {
    && it.id in w.history
    && it.status == Pending
    && it.nextAttempt <= Sec(w.clock)
    && (it.id in w.db.rows ==> w.db.rows[it.id] == it)
  }

  predicate Batched(w: World) {
    && (forall it :: it in Active(w) ==> FaithfulItem(w, it))
    && (forall i, j :: 0 <= i < j < |Active(w)| ==> Active(w)[i].id != Active(w)[j].id)
  }

  ghost predicate Lives(cfg: Config, w: World) {
    && (forall id :: id in w.history ==> HistoryOK(w.history[id]))
    && (forall id :: id in w.db.rows ==> id in w.history && ItemOK(cfg, w.history[id], w.db.rows[id]))
    && (forall it :: it in Active(w) ==> it.id in w.history && ItemOK(cfg, w.history[it.id], it))
  }

  /** The item in flight passed every rule at its check, and no send was logged since. */
  predicate FlightCleared(cfg: Config, w: World) {
    w.current.Some? ==>
      var f := w.current.value;
      && f.checkedAt <= w.clock
      && f.item.user in cfg.users
      && forall rule: HoldRule :: Passes(cfg, w.db.events, f.item.user, ExtractDomain(f.item.rcptTo), rule, f.checkedAt)
  }

  ghost predicate Inv(cfg: Config, w: World) {
    LogTimed(w) && Tabled(w) && Batched(w) && Lives(cfg, w) && FlightCleared(cfg, w)
  }

  lemma InvKnows(cfg: Config, w: World)
    requires Inv(cfg, w)
    ensures KnownItems(w)
  {
    forall i | 0 <= i < |w.batch| ensures w.batch[i].id in w.history {
      assert w.batch[i] in Active(w);
    }
    if w.current.Some? {
      assert w.current.value.item in Active(w);
    }
  }

  lemma StartOK(cfg: Config)
    ensures Inv(cfg, START)
  {
  }

  // ---- One step ----

  lemma NoSendNoChange(events: seq<Event>, e: Event, scope: Scope)
    requires e.status != SentEvent
    ensures LastSent(events + [e], scope) == LastSent(events, scope)
    ensures forall from :: CountSince(events + [e], scope, from) == CountSince(events, scope, from)
  {
    QueriesAfterAppend(events, e, scope);
  }

  lemma PassesWithoutSend(cfg: Config, events: seq<Event>, e: Event, user: int, domain: string, now: int)
    requires user in cfg.users && e.status != SentEvent
    ensures forall rule: HoldRule ::
              Passes(cfg, events + [e], user, domain, rule, now) == Passes(cfg, events, user, domain, rule, now)
  {
    forall rule: HoldRule
      ensures Passes(cfg, events + [e], user, domain, rule, now) == Passes(cfg, events, user, domain, rule, now)
    {
      NoSendNoChange(events, e, RuleScope(user, domain, rule));
    }
  }

  /** At most one event was logged, at the instant the clock now shows. */
  predicate LogGrew(w: World, w': World) {
    && w'.clock >= w.clock
    && (if |w'.db.events| > |w.db.events|
        then && w'.db.events == w.db.events + [w'.db.events[|w.db.events|]]
             && w'.db.events[|w.db.events|].createdAt == Sec(w'.clock)
             && w'.stamps == w.stamps + [w'.clock]
        else w'.db.events == w.db.events && w'.stamps == w.stamps)
  }

  lemma LogStaysTimed(w: World, w': World)
    requires LogTimed(w) && LogGrew(w, w')
    ensures LogTimed(w')
  {
  }

  lemma SubmitTables(cfg: Config, w: World, s: Step)
    requires Tabled(w) && Batched(w) && s.Submit? && Legal(w, s)
    ensures Tabled(AfterSubmit(w, s)) && Batched(AfterSubmit(w, s))
  {
    var w' := AfterSubmit(w, s);
    assert Active(w') == Active(w);
    SecMonotone(w.clock, s.logAt);
    forall it | it in Active(w') ensures FaithfulItem(w', it) {
      assert FaithfulItem(w, it);
    }
  }

  lemma SubmitLives(cfg: Config, w: World, s: Step)
    requires Tabled(w) && Lives(cfg, w) && s.Submit?
    ensures Lives(cfg, AfterSubmit(w, s))
  {
    assert Active(AfterSubmit(w, s)) == Active(w);
    NewItemOK(cfg, w.db.nextId, s.user, s.mailFrom, s.rcptTo, s.data, s.at);
  }

  lemma SubmitKeeps(cfg: Config, w: World, s: Step)
    requires Inv(cfg, w) && s.Submit? && Legal(w, s)
    ensures Inv(cfg, AfterSubmit(w, s))
  {
    LogStaysTimed(w, AfterSubmit(w, s));
    SubmitTables(cfg, w, s);
    SubmitLives(cfg, w, s);
    if w.current.Some? {
      var it := w.current.value.item;
      PassesWithoutSend(cfg, w.db.events, SubmitEvent(s.user, s.mailFrom, SubmittedRecipient(s)), it.user,
                        ExtractDomain(it.rcptTo), w.current.value.checkedAt);
    }
  }

  lemma DeleteKeeps(cfg: Config, w: World, ids: set<nat>, at: int)
    requires Inv(cfg, w) && w.clock <= at
    ensures Inv(cfg, w.(db := w.db.(rows := WithoutPending(w.db.rows, ids)), clock := at))
  {
    SecMonotone(w.clock, at);
    assert Active(w.(db := w.db.(rows := WithoutPending(w.db.rows, ids)), clock := at)) == Active(w);
  }

  lemma TickKeeps(cfg: Config, w: World, at: int)
    requires Inv(cfg, w) && Idle(w) && w.clock <= at
    ensures Inv(cfg, w.(batch := Batch(w.db.rows, w.db.nextId, BATCH_SIZE, at), clock := at))
  {
    BatchMembers(w.db.rows, w.db.nextId, BATCH_SIZE, at);
    assert Active(w.(batch := Batch(w.db.rows, w.db.nextId, BATCH_SIZE, at), clock := at))
        == Batch(w.db.rows, w.db.nextId, BATCH_SIZE, at);
  }

  /** The worker has dealt with `it`: its row, if still there, became `it'`, its history
      `h'`, and nothing else changed in table or batch. */
  predicate DealtWith(w: World, w': World, it: Item, it': Item, h': ItemHistory) {
    && it'.id == it.id
    && w'.db.nextId == w.db.nextId
    && w'.clock >= w.clock
    && w'.db.rows == (if it.id in w.db.rows then w.db.rows[it.id := it'] else w.db.rows)
    && w'.history == w.history[it.id := h']
    && Active(w) != [] && it == Active(w)[0]
    && Active(w') == Active(w)[1..]
  }

  lemma OthersStay(w: World, w': World, it: Item, it': Item, h': ItemHistory)
    requires Batched(w) && DealtWith(w, w', it, it', h')
    ensures forall other :: other in Active(w') ==> other.id != it.id && other in Active(w)
    ensures forall i, j :: 0 <= i < j < |Active(w')| ==> Active(w')[i].id != Active(w')[j].id
  {
    forall i, j | 0 <= i < j < |Active(w')| ensures Active(w')[i].id != Active(w')[j].id {
      assert Active(w')[i] == Active(w)[i + 1] && Active(w')[j] == Active(w)[j + 1];
    }
    forall other | other in Active(w') ensures other.id != it.id && other in Active(w) {
      var i :| 0 <= i < |Active(w')| && Active(w')[i] == other;
      assert other == Active(w)[i + 1];
    }
  }

  lemma TablesAfter(w: World, w': World, it: Item, it': Item, h': ItemHistory)
    requires Tabled(w) && Batched(w) && DealtWith(w, w', it, it', h')
    ensures Tabled(w') && Batched(w')
  {
    OthersStay(w, w', it, it', h');
    SecMonotone(w.clock, w'.clock);
    assert FaithfulItem(w, it);
    forall other | other in Active(w') ensures FaithfulItem(w', other) {
      assert FaithfulItem(w, other);
    }
  }

  lemma LivesAfter(cfg: Config, w: World, w': World, it: Item, it': Item, h': ItemHistory)
    requires Lives(cfg, w) && DealtWith(w, w', it, it', h') && ItemOK(cfg, h', it')
    requires forall other :: other in Active(w') ==> other.id != it.id && other in Active(w)
    ensures Lives(cfg, w')
  {
    forall other | other in Active(w') ensures other.id in w'.history && ItemOK(cfg, w'.history[other.id], other) {
      assert other in Active(w);
    }
    forall id | id in w'.db.rows ensures id in w'.history && ItemOK(cfg, w'.history[id], w'.db.rows[id]) {
      if id != it.id {
        assert id in w.db.rows;
      }
    }
  }

  lemma DealtWithKeeps(cfg: Config, w: World, w': World, it: Item, it': Item, h': ItemHistory)
    requires Inv(cfg, w) && DealtWith(w, w', it, it', h') && ItemOK(cfg, h', it')
    ensures Tabled(w') && Batched(w') && Lives(cfg, w')
  {
    OthersStay(w, w', it, it', h');
    TablesAfter(w, w', it, it', h');
    LivesAfter(cfg, w, w', it, it', h');
  }

  /** What the database holds of an active item is its snapshot. */
  lemma RowIsSnapshot(cfg: Config, w: World, it: Item)
    requires Inv(cfg, w) && it in Active(w)
    ensures FaithfulItem(w, it) && ItemOK(cfg, w.history[it.id], it)
    ensures it.id in w.db.rows ==> w.db.rows[it.id] == it
  {
  }

  lemma NewestIsPast(w: World, scope: Scope)
    requires LogTimed(w)
    ensures LastSent(w.db.events, scope).Some? ==> LastSent(w.db.events, scope).value <= Sec(w.clock)
  {
    LastSentIsMaximum(w.db.events, scope);
  }

  lemma ClearedKeeps(cfg: Config, w: World, env: CheckEnv)
    requires Inv(cfg, w) && Legal(w, Check(env)) && KnownItems(w)
    requires VerdictOn(cfg, w.db, w.batch[0], env) == Clear
    ensures Inv(cfg, AfterCheck(cfg, w, env))
  {
    var it := w.batch[0];
    var w' := AfterCheck(cfg, w, env);
    VerdictMeaning(cfg, w.db.events, it.user, ExtractDomain(it.rcptTo), env.now, env.faults);
    assert w'.history == w.history;
    assert Active(w') == Active(w);
    LogStaysTimed(w, w');
    SecMonotone(w.clock, w'.clock);
    forall other | other in Active(w') ensures FaithfulItem(w', other) {
      assert FaithfulItem(w, other);
    }
  }

  /** What becomes of the row of an item that its check did not clear. */
  function CheckedItem(cfg: Config, w: World, env: CheckEnv): Item
    requires w.batch != []
  {
    var it := w.batch[0];
    var v := VerdictOn(cfg, w.db, it, env);
    if ResultOf(v, env.faults).HeldBack? then DeferredItem(it, HeldBy(v.rule), v.wait, env.writeAt)
    else RetriedItem(it, CheckFailure, env.writeAt)
  }

  lemma CheckDeals(cfg: Config, w: World, env: CheckEnv)
    requires Legal(w, Check(env)) && KnownItems(w)
    requires w.batch[0].id in w.db.rows ==> w.db.rows[w.batch[0].id] == w.batch[0]
    requires !ResultOf(VerdictOn(cfg, w.db, w.batch[0], env), env.faults).Cleared?
    ensures var it := w.batch[0]; var w' := AfterCheck(cfg, w, env);
            && it.id in w'.history
            && DealtWith(w, w', it, CheckedItem(cfg, w, env), w'.history[it.id])
            && LogGrew(w, w')
  {
    assert Active(w) == w.batch;
    assert Active(AfterCheck(cfg, w, env)) == w.batch[1..];
  }

  lemma ErroredKeeps(cfg: Config, w: World, env: CheckEnv)
    requires Inv(cfg, w) && Legal(w, Check(env)) && KnownItems(w)
    requires ResultOf(VerdictOn(cfg, w.db, w.batch[0], env), env.faults).Errored?
    ensures Inv(cfg, AfterCheck(cfg, w, env))
  {
    var it := w.batch[0];
    var w' := AfterCheck(cfg, w, env);
    assert Active(w)[0] == it;
    RowIsSnapshot(cfg, w, it);
    CheckDeals(cfg, w, env);
    LogStaysTimed(w, w');
    SecMonotone(w.clock, env.writeAt);
    ErrorKeepsOK(cfg, w.history[it.id], it, env.writeAt);
    DealtWithKeeps(cfg, w, w', it, CheckedItem(cfg, w, env), w'.history[it.id]);
  }

  /** The rule that holds an item, and where it leaves item and history. */
  lemma HeldItem(cfg: Config, w: World, env: CheckEnv)
    requires Inv(cfg, w) && Legal(w, Check(env)) && KnownItems(w)
    requires VerdictOn(cfg, w.db, w.batch[0], env).Held?
    ensures var it := w.batch[0]; var v := VerdictOn(cfg, w.db, it, env); var last := NewestSeen(w.db, it, v.rule);
            && FaithfulItem(w, it) && it.user in cfg.users
            && ItemOK(cfg, w.history[it.id].(holds := w.history[it.id].holds + multiset{(v.rule, last)}),
                      DeferredItem(it, HeldBy(v.rule), v.wait, env.writeAt))
  {
    var it := w.batch[0];
    var domain := ExtractDomain(it.rcptTo);
    var rule := VerdictOn(cfg, w.db, it, env).rule;
    assert it in Active(w);
    RowIsSnapshot(cfg, w, it);
    VerdictMeaning(cfg, w.db.events, it.user, domain, env.now, env.faults);
    SecMonotone(w.clock, env.now);
    NewestIsPast(w, RuleScope(it.user, domain, rule));
    HoldKeepsOK(cfg, w.history[it.id], it, w.db.events, rule, NewestSeen(w.db, it, rule), env.now, env.writeAt);
  }

  lemma HeldKeeps(cfg: Config, w: World, env: CheckEnv)
    requires Inv(cfg, w) && Legal(w, Check(env)) && KnownItems(w)
    requires ResultOf(VerdictOn(cfg, w.db, w.batch[0], env), env.faults).HeldBack?
    ensures Inv(cfg, AfterCheck(cfg, w, env))
  {
    var it := w.batch[0];
    var w' := AfterCheck(cfg, w, env);
    assert it in Active(w);
    RowIsSnapshot(cfg, w, it);
    HeldItem(cfg, w, env);
    CheckDeals(cfg, w, env);
    LogStaysTimed(w, w');
    DealtWithKeeps(cfg, w, w', it, CheckedItem(cfg, w, env), w'.history[it.id]);
  }

  lemma CheckKeeps(cfg: Config, w: World, env: CheckEnv)
    requires Inv(cfg, w) && Legal(w, Check(env)) && KnownItems(w)
    ensures Inv(cfg, AfterCheck(cfg, w, env))
  {
    match ResultOf(VerdictOn(cfg, w.db, w.batch[0], env), env.faults)
    case Cleared => ClearedKeeps(cfg, w, env);
    case Errored => ErroredKeeps(cfg, w, env);
    case HeldBack(_) => HeldKeeps(cfg, w, env);
  }

  /** What becomes of the row of a delivered item. */
  function FinishedItem(it: Item, s: Step): Item
    requires s.Finish?
  {
    if s.taker.Some? then SentItem(it, s.writeAt)
    else if it.attempts >= MAX_ATTEMPTS_BEFORE_LAST then FailedItem(it, DeliveryFailure, s.writeAt)
    else RetriedItem(it, DeliveryFailure, s.writeAt)
  }

  lemma FinishDeals(w: World, s: Step)
    requires s.Finish? && Legal(w, s) && KnownItems(w)
    requires var it := w.current.value.item; it.id in w.db.rows ==> w.db.rows[it.id] == it
    ensures var it := w.current.value.item; var w' := AfterFinish(w, s);
            && DealtWith(w, w', it, FinishedItem(it, s), HistoryAfterFinish(w.history[it.id], it, s.taker, s.writeAt))
            && LogGrew(w, w')
  {
    assert Active(w)[0] == w.current.value.item;
    assert Active(w)[1..] == w.batch == Active(AfterFinish(w, s));
  }

  lemma FinishKeeps(cfg: Config, w: World, s: Step)
    requires Inv(cfg, w) && s.Finish? && Legal(w, s) && KnownItems(w)
    ensures Inv(cfg, AfterFinish(w, s))
  {
    var it := w.current.value.item;
    var w' := AfterFinish(w, s);
    var h := w.history[it.id];
    assert Active(w)[0] == it;
    RowIsSnapshot(cfg, w, it);
    FinishDeals(w, s);
    LogStaysTimed(w, w');
    SecMonotone(w.clock, s.writeAt);
    if s.taker.Some? {
      AcceptKeepsOK(cfg, h, it, s.taker.value, s.writeAt);
    } else {
      RefusalKeepsOK(cfg, h, it, s.writeAt);
    }
    DealtWithKeeps(cfg, w, w', it, FinishedItem(it, s), HistoryAfterFinish(h, it, s.taker, s.writeAt));
  }

  lemma StepKeeps(cfg: Config, w: World, s: Step)
    requires Inv(cfg, w) && Legal(w, s) && KnownItems(w)
    ensures Inv(cfg, After(cfg, w, s))
  {
    match s
    case Submit(_, _, _, _, _, _, _) => SubmitKeeps(cfg, w, s);
    case Delete(ids, at) => DeleteKeeps(cfg, w, ids, at);
    case Tick(at) => TickKeeps(cfg, w, at);
    case Check(env) => CheckKeeps(cfg, w, env);
    case Finish(_, _, _) => FinishKeeps(cfg, w, s);
  }

  // ---- Whole runs ----

  /** `run` is a sequence of legal steps from the empty database; the result is None when
      some step of it could not happen. */
  function Run(cfg: Config, run: seq<Step>): Option<World> {
    if run == [] then Some(START)
    else
      var w := Run(cfg, run[..|run| - 1]);
      var s := run[|run| - 1];
      if w.Some? && Legal(w.value, s) && KnownItems(w.value) then Some(After(cfg, w.value, s)) else None
  }

  /** The invariant holds in every state a run reaches. */
  lemma {:induction false} RunKeepsInv(cfg: Config, run: seq<Step>)
    requires Run(cfg, run).Some?
    ensures Inv(cfg, Run(cfg, run).value)
  {
    if run == [] {
      StartOK(cfg);
    } else {
      var prior := run[..|run| - 1];
      RunKeepsInv(cfg, prior);
      StepKeeps(cfg, Run(cfg, prior).value, run[|run| - 1]);
    }
  }

  lemma RunIsTimed(cfg: Config, run: seq<Step>)
    requires Run(cfg, run).Some?
    ensures LogTimed(Run(cfg, run).value)
  {
    RunKeepsInv(cfg, run);
  }
}
