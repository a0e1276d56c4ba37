/** A tick of the worker as a run of the machine, and what a snapshot batch gives up by
    being a snapshot: nothing. */
module Ticks {
  import opened Clock
  import opened Delivery
  import opened Invariant
  import opened Machine
  import opened Options
  import opened Outcomes
  import opened Queue
  import opened Records
  import opened Submission
  import opened Worker

  /** The instants of the answers follow each other, starting at `clock`. */
  predicate Timely(clock: int, envs: seq<ItemEnv>)
    decreases |envs|
  {
    envs != [] ==>
      var e := envs[0];
      && clock <= e.check.now <= e.check.writeAt <= e.check.logAt <= e.writeAt <= e.logAt
      && Timely(e.logAt, envs[1..])
  }

  // ---- The worker's tick is a run ----

  function StepsAfter(cfg: Config, w: World, steps: seq<Step>): Option<World>
    decreases |steps|
  {
    if steps == [] then Some(w)
    else if Legal(w, steps[0]) && KnownItems(w) then StepsAfter(cfg, After(cfg, w, steps[0]), steps[1..])
    else None
  }

  function ItemSteps(cfg: Config, db: Db, rr: map<int, nat>, it: Item, env: ItemEnv): seq<Step>
    requires WellFormed(env.deliver)
  {
    [Check(env.check)]
    + if ResultOf(VerdictOn(cfg, db, it, env.check), env.check.faults).Cleared?
      then [Finish(Taker(cfg, rr, it, env.deliver), env.writeAt, env.logAt)] else []
  }

  function BatchSteps(cfg: Config, db: Db, rr: map<int, nat>, batch: seq<Item>, envs: seq<ItemEnv>): seq<Step>
    requires |batch| <= |envs| && AllWellFormed(envs)
    decreases |batch|
  {
    if batch == [] then []
    else
      var (db', rr') := Handled(cfg, db, rr, batch[0], envs[0]);
      ItemSteps(cfg, db, rr, batch[0], envs[0]) + BatchSteps(cfg, db', rr', batch[1..], envs[1..])
  }

  lemma {:induction false} StepsAfterConcat(cfg: Config, w: World, a: seq<Step>, b: seq<Step>)
    requires StepsAfter(cfg, w, a).Some?
    ensures StepsAfter(cfg, w, a + b) == StepsAfter(cfg, StepsAfter(cfg, w, a).value, b)
    decreases |a|
  {
    if a == [] {
      assert a + b == b;
    } else {
      assert (a + b)[1..] == a[1..] + b;
      StepsAfterConcat(cfg, After(cfg, w, a[0]), a[1..], b);
    }
  }

  lemma FirstMoved<T>(a: seq<T>, b: seq<T>)
    requires b != []
    ensures a + [b[0]] + b[1..] == a + b
  {
  }

  /** Going on from a reachable state reaches reachable states: what holds of every run
      holds after any tick or submission that follows one. */
  lemma {:induction false} RunThenSteps(cfg: Config, run: seq<Step>, steps: seq<Step>)
    requires Run(cfg, run).Some? && StepsAfter(cfg, Run(cfg, run).value, steps).Some?
    ensures Run(cfg, run + steps) == StepsAfter(cfg, Run(cfg, run).value, steps)
    decreases |steps|
  {
    if steps == [] {
      assert run + steps == run;
    } else {
      RunExtends(cfg, run, steps[0]);
      RunThenSteps(cfg, run + [steps[0]], steps[1..]);
      FirstMoved(run, steps);
    }
  }

  lemma ItemIsRun(cfg: Config, w: World, rr: map<int, nat>, env: ItemEnv)
    requires Inv(cfg, w) && w.current.None? && w.batch != [] && WellFormed(env.deliver) && Timely(w.clock, [env])
    ensures var r := StepsAfter(cfg, w, ItemSteps(cfg, w.db, rr, w.batch[0], env));
            && r.Some? && Inv(cfg, r.value)
            && r.value.db == Handled(cfg, w.db, rr, w.batch[0], env).0
            && r.value.batch == w.batch[1..] && r.value.current.None? && r.value.clock <= env.logAt
  {
    var check := Check(env.check);
    OneStep(cfg, w, check);
    var w' := After(cfg, w, check);
    if w'.current.Some? {
      var finish := Finish(Taker(cfg, rr, w.batch[0], env.deliver), env.writeAt, env.logAt);
      OneStep(cfg, w', finish);
      StepsAfterConcat(cfg, w, [check], [finish]);
    } else {
      assert ItemSteps(cfg, w.db, rr, w.batch[0], env) == [check];
    }
  }

  lemma OneStep(cfg: Config, w: World, s: Step)
    requires Inv(cfg, w) && Legal(w, s)
    ensures KnownItems(w) && StepsAfter(cfg, w, [s]) == Some(After(cfg, w, s)) && Inv(cfg, After(cfg, w, s))
  {
    InvKnows(cfg, w);
    StepKeeps(cfg, w, s);
    assert [s][1..] == [];
    assert StepsAfter(cfg, After(cfg, w, s), []) == Some(After(cfg, w, s));
  }

  lemma TimelyLater(clock: int, clock': int, envs: seq<ItemEnv>)
    requires Timely(clock, envs) && clock' <= clock
    ensures Timely(clock', envs)
  {
  }

  /** Handling a batch item by item is a run of the machine from the state after the
      dequeue, and ends idle. */
  lemma {:induction false} BatchIsRun(cfg: Config, w: World, rr: map<int, nat>, envs: seq<ItemEnv>)
    requires Inv(cfg, w) && w.current.None? && |w.batch| <= |envs| && AllWellFormed(envs) && Timely(w.clock, envs)
    ensures var r := StepsAfter(cfg, w, BatchSteps(cfg, w.db, rr, w.batch, envs));
            && r.Some? && Inv(cfg, r.value) && Idle(r.value)
            && r.value.db == HandledAll(cfg, w.db, rr, w.batch, envs).0
    decreases |envs|
  {
    if w.batch != [] {
      ItemIsRun(cfg, w, rr, envs[0]);
      var steps := ItemSteps(cfg, w.db, rr, w.batch[0], envs[0]);
      var w' := StepsAfter(cfg, w, steps).value;
      var (db', rr') := Handled(cfg, w.db, rr, w.batch[0], envs[0]);
      TimelyLater(envs[0].logAt, w'.clock, envs[1..]);
      BatchIsRun(cfg, w', rr', envs[1..]);
      StepsAfterConcat(cfg, w, steps, BatchSteps(cfg, db', rr', w.batch[1..], envs[1..]));
    }
  }

  /** A whole tick, dequeue included, is a run of the machine from an idle state to an idle
      state, with the database effect that the worker's tick is proved to have. */
  lemma TickIsRun(cfg: Config, w: World, rr: map<int, nat>, at: int, envs: seq<ItemEnv>)
    requires Inv(cfg, w) && Idle(w) && w.clock <= at && |envs| >= BATCH_SIZE && AllWellFormed(envs) && Timely(at, envs)
    ensures var batch := Batch(w.db.rows, w.db.nextId, BATCH_SIZE, at);
            && |batch| <= |envs|
            && var r := StepsAfter(cfg, w, [Tick(at)] + BatchSteps(cfg, w.db, rr, batch, envs));
               r.Some? && Inv(cfg, r.value) && Idle(r.value) && r.value.db == HandledAll(cfg, w.db, rr, batch, envs).0
  {
    var batch := Batch(w.db.rows, w.db.nextId, BATCH_SIZE, at);
    BatchMembers(w.db.rows, w.db.nextId, BATCH_SIZE, at);
    InvKnows(cfg, w);
    TickKeeps(cfg, w, at);
    var w' := After(cfg, w, Tick(at));
    BatchIsRun(cfg, w', rr, envs);
    assert StepsAfter(cfg, w, [Tick(at)]) == Some(w') by {
      assert [Tick(at)][1..] == [];
    }
    StepsAfterConcat(cfg, w, [Tick(at)], BatchSteps(cfg, w.db, rr, batch, envs));
  }

  function SubmitStep(user: int, mailFrom: string, rcpt: string, data: string, env: SubmitEnv): Step {
    Submit(user, mailFrom, rcpt, data, env.insertOk, env.at, env.logAt)
  }

  /** One Submit step for each of the first `k` recipients. */
  function SubmitSteps(user: int, mailFrom: string, to: seq<string>, data: string, envs: seq<SubmitEnv>,
                       k: nat): seq<Step>
    requires k <= |envs| == |to|
  {
    if k == 0 then []
    else SubmitSteps(user, mailFrom, to, data, envs, k - 1) + [SubmitStep(user, mailFrom, to[k - 1], data, envs[k - 1])]
  }

  predicate InTime(clock: int, envs: seq<SubmitEnv>) {
    && (forall i :: 0 <= i < |envs| ==> clock <= envs[i].at <= envs[i].logAt)
    && (forall i, j :: 0 <= i < j < |envs| ==> envs[i].logAt <= envs[j].at)
  }

  /** The steps are a run from `w` to a good state with this database and clock. */
  ghost predicate Reaches(cfg: Config, w: World, steps: seq<Step>, db: Db, clock: int) {
    var r := StepsAfter(cfg, w, steps);
    r.Some? && Inv(cfg, r.value) && r.value.db == db && r.value.clock == clock
  }

  lemma OneMoreSubmit(cfg: Config, w: World, steps: seq<Step>, db: Db, clock: int, user: int, mailFrom: string,
                      rcpt: string, data: string, env: SubmitEnv, r: Recipient)
    requires Reaches(cfg, w, steps, db, clock) && clock <= env.at <= env.logAt
    requires r == RecipientFor(rcpt, env)
    ensures Reaches(cfg, w, steps + [SubmitStep(user, mailFrom, rcpt, data, env)],
                    Submitted(db, user, mailFrom, r, data), env.logAt)
  {
    var s := SubmitStep(user, mailFrom, rcpt, data, env);
    OneStep(cfg, StepsAfter(cfg, w, steps).value, s);
    StepsAfterConcat(cfg, w, steps, [s]);
  }

  /** Submitting to several recipients is a run of one Submit step per recipient reached,
      with the database effect that submission is proved to have. */
  lemma {:induction false} SubmissionIsRun(cfg: Config, w: World, user: int, mailFrom: string, to: seq<string>,
                                           data: string, envs: seq<SubmitEnv>, k: nat)
    requires Inv(cfg, w) && k <= |envs| == |to| && InTime(w.clock, envs)
    ensures Reaches(cfg, w, SubmitSteps(user, mailFrom, to, data, envs, k),
                    AfterFirst(w.db, user, mailFrom, Recipients(to, envs), data, k),
                    if k == 0 then w.clock else envs[k - 1].logAt)
  {
    if k == 0 {
      assert StepsAfter(cfg, w, []) == Some(w);
    } else {
      SubmissionIsRun(cfg, w, user, mailFrom, to, data, envs, k - 1);
      var rs := Recipients(to, envs);
      var before := if k == 1 then w.clock else envs[k - 2].logAt;
      assert before <= envs[k - 1].at <= envs[k - 1].logAt && rs[k - 1] == RecipientFor(to[k - 1], envs[k - 1]);
      OneMoreSubmit(cfg, w, SubmitSteps(user, mailFrom, to, data, envs, k - 1),
                    AfterFirst(w.db, user, mailFrom, rs, data, k - 1),
                    before, user, mailFrom, to[k - 1], data, envs[k - 1], rs[k - 1]);
    }
  }

  // ---- Snapshots are as good as fresh reads ----

  /** Like HandledAll, but each row is read again just before it is handled. */
  function HandledFresh(cfg: Config, db: Db, rr: map<int, nat>, ids: seq<nat>, envs: seq<ItemEnv>): (Db, map<int, nat>)
    requires |ids| <= |envs| && AllWellFormed(envs)
    decreases |ids|
  {
    if ids == [] then (db, rr)
    else if ids[0] !in db.rows then HandledFresh(cfg, db, rr, ids[1..], envs[1..])
    else
      var (db', rr') := Handled(cfg, db, rr, db.rows[ids[0]], envs[0]);
      HandledFresh(cfg, db', rr', ids[1..], envs[1..])
  }

  predicate Snapshot(db: Db, batch: seq<Item>) {
    && (forall it :: it in batch ==> it.id in db.rows && db.rows[it.id] == it)
    && (forall i, j :: 0 <= i < j < |batch| ==> batch[i].id != batch[j].id)
  }

  function Ids(batch: seq<Item>): (ids: seq<nat>)
    ensures |ids| == |batch| && forall i :: 0 <= i < |ids| ==> ids[i] == batch[i].id
  {
    seq(|batch|, i requires 0 <= i < |batch| => batch[i].id)
  }

  /** Handling one item changes that item's row and no other. */
  lemma HandledRows(cfg: Config, db: Db, rr: map<int, nat>, it: Item, env: ItemEnv)
    requires WellFormed(env.deliver)
    ensures var rows := Handled(cfg, db, rr, it, env).0.rows;
            && rows.Keys == db.rows.Keys
            && forall id :: id in db.rows && id != it.id ==> rows[id] == db.rows[id]
  {
  }

  lemma RestIsSnapshot(cfg: Config, db: Db, rr: map<int, nat>, batch: seq<Item>, env: ItemEnv)
    requires batch != [] && Snapshot(db, batch) && WellFormed(env.deliver)
    ensures Snapshot(Handled(cfg, db, rr, batch[0], env).0, batch[1..])
  {
    HandledRows(cfg, db, rr, batch[0], env);
    forall it | it in batch[1..] ensures it in batch && it.id != batch[0].id {
      var i :| 0 <= i < |batch[1..]| && batch[1..][i] == it;
      assert batch[i + 1] == it;
    }
  }

  /** Handling a dequeued batch equals re-reading each row just before handling it. */
  lemma {:induction false} SnapshotIsFresh(cfg: Config, db: Db, rr: map<int, nat>, batch: seq<Item>, envs: seq<ItemEnv>)
    requires Snapshot(db, batch) && |batch| <= |envs| && AllWellFormed(envs)
    ensures HandledAll(cfg, db, rr, batch, envs) == HandledFresh(cfg, db, rr, Ids(batch), envs)
    decreases |batch|
  {
    if batch != [] {
      var (db', rr') := Handled(cfg, db, rr, batch[0], envs[0]);
      RestIsSnapshot(cfg, db, rr, batch, envs[0]);
      SnapshotIsFresh(cfg, db', rr', batch[1..], envs[1..]);
      assert batch[0] in batch;
      assert Ids(batch)[1..] == Ids(batch[1..]);
    }
  }

  // ---- A handled batch shrinks the backlog ----

  /** A handled item is no longer due at any second up to its check. */
  lemma HandledNotDue(cfg: Config, db: Db, rr: map<int, nat>, it: Item, env: ItemEnv, second: int)
    requires WellFormed(env.deliver) && Timely(env.check.now, [env]) && second <= Sec(env.check.now)
    requires it.id in db.rows && db.rows[it.id] == it
    ensures var rows := Handled(cfg, db, rr, it, env).0.rows;
            it.id in rows && !Due(rows[it.id], second)
  {
    SecMonotone(env.check.now, env.check.writeAt);
    SecMonotone(env.check.now, env.writeAt);
  }

  lemma FirstIdApart(batch: seq<Item>)
    requires batch != [] && forall i, j :: 0 <= i < j < |batch| ==> batch[i].id != batch[j].id
    ensures Ids(batch) == [batch[0].id] + Ids(batch[1..]) && batch[0].id !in Ids(batch[1..])
  {
  }

  /** Once the batch is handled, the rows due at the dequeue second are exactly those due
      before that were not in the batch. */
  lemma {:induction false} BacklogShrinks(cfg: Config, db: Db, rr: map<int, nat>, batch: seq<Item>,
                                          envs: seq<ItemEnv>, at: int)
    requires Snapshot(db, batch) && |batch| <= |envs| && AllWellFormed(envs) && Timely(at, envs)
    ensures var rows := HandledAll(cfg, db, rr, batch, envs).0.rows;
            && rows.Keys == db.rows.Keys
            && (forall id :: id in rows && id !in Ids(batch) ==> rows[id] == db.rows[id])
            && (forall id :: id in Ids(batch) ==> id in rows && !Due(rows[id], Sec(at)))
    decreases |batch|
  {
    if batch != [] {
      var env := envs[0];
      var (db', rr') := Handled(cfg, db, rr, batch[0], env);
      RestIsSnapshot(cfg, db, rr, batch, env);
      HandledRows(cfg, db, rr, batch[0], env);
      assert batch[0] in batch;
      SecMonotone(at, env.check.now);
      HandledNotDue(cfg, db, rr, batch[0], env, Sec(at));
      TimelyLater(env.logAt, at, envs[1..]);
      BacklogShrinks(cfg, db', rr', batch[1..], envs[1..], at);
      FirstIdApart(batch);
    }
  }

  /** The same about the batch that a dequeue at `at` really takes. */
  lemma DequeuedBacklogShrinks(cfg: Config, db: Db, rr: map<int, nat>, envs: seq<ItemEnv>, at: int)
    requires WellKeyed(db.rows, db.nextId) && |envs| >= BATCH_SIZE && AllWellFormed(envs) && Timely(at, envs)
    ensures var batch := Batch(db.rows, db.nextId, BATCH_SIZE, at);
            && |batch| <= |envs|
            && var rows := HandledAll(cfg, db, rr, batch, envs).0.rows;
               forall id :: id in db.rows ==>
                 id in rows && (Due(rows[id], Sec(at)) <==> Due(db.rows[id], Sec(at)) && db.rows[id] !in batch)
  {
    var batch := Batch(db.rows, db.nextId, BATCH_SIZE, at);
    BatchMembers(db.rows, db.nextId, BATCH_SIZE, at);
    BacklogShrinks(cfg, db, rr, batch, envs, at);
    var rows := HandledAll(cfg, db, rr, batch, envs).0.rows;
    forall id | id in db.rows
      ensures Due(rows[id], Sec(at)) <==> Due(db.rows[id], Sec(at)) && db.rows[id] !in batch
    {
      if db.rows[id] in batch {
        var i :| 0 <= i < |batch| && batch[i] == db.rows[id];
        assert Ids(batch)[i] == id;
      }
      if id in Ids(batch) {
        var i :| 0 <= i < |batch| && Ids(batch)[i] == id;
        assert batch[i] in batch;
        assert DueRow(db.rows, batch[i], Sec(at));
      }
    }
  }
}
