/** What whole runs guarantee about each queue item: acceptance, retries and holds. */
module Outcomes {
  import opened Addresses
  import opened Clock
  import opened Holding
  import opened Invariant
  import opened ItemLife
  import opened Machine
  import opened Options
  import opened Queue
  import opened Records
  import opened Worker

  /** Each item is accepted by at most one upstream account, once, in the whole run, and a
      surviving row says sent exactly when it was accepted, wherever submissions and
      deletions fall. */
  lemma AtMostOnceAccepted(cfg: Config, run: seq<Step>, id: nat)
    requires Run(cfg, run).Some? && id in Run(cfg, run).value.history
    ensures var w := Run(cfg, run).value; var h := w.history[id];
            && |h.accepted| <= 1
            && (id in w.db.rows ==> (w.db.rows[id].status == Sent <==> |h.accepted| == 1))
            && (id in w.db.rows && w.db.rows[id].status == Failed ==> h.accepted == [])
  {
    RunKeepsInv(cfg, run);
  }

  /** Attempts count failed deliveries and failed checks and nothing else; no item has more
      than five failed deliveries; and the cap of five attempts holds of a row exactly when
      no check failed at four attempts or more. */
  lemma RetryAccounting(cfg: Config, run: seq<Step>, id: nat)
    requires Run(cfg, run).Some? && id in Run(cfg, run).value.history
    ensures var w := Run(cfg, run).value; var h := w.history[id];
            && |h.refused| <= MAX_FAILED_DELIVERIES
            && (id in w.db.rows ==>
                  var it := w.db.rows[id];
                  && it.attempts == |h.refused| + h.checkErrors
                  && h.lateErrors <= h.checkErrors
                  && (Capped(it) <==> h.lateErrors == 0))
  {
    RunKeepsInv(cfg, run);
    var w := Run(cfg, run).value;
    if id in w.db.rows {
      assert ItemOK(cfg, w.history[id], w.db.rows[id]);
    }
  }

  /** The row is failed exactly at five attempts, and never beyond. */
  predicate Capped(it: Item) {
    it.attempts <= MAX_FAILED_DELIVERIES && (it.status == Failed <==> it.attempts == MAX_FAILED_DELIVERIES)
  }

  /** The failed deliveries of an item are 30 recorded seconds apart; five of them span at
      least 120. */
  lemma RetriesAreSpaced(cfg: Config, run: seq<Step>, id: nat, i: nat, j: nat)
    requires Run(cfg, run).Some? && id in Run(cfg, run).value.history
    requires i <= j < |Run(cfg, run).value.history[id].refused|
    ensures var refused := Run(cfg, run).value.history[id].refused;
            && refused[j] - refused[i] >= 30 * (j - i)
            && (|refused| == MAX_FAILED_DELIVERIES ==> refused[4] - refused[0] >= 120)
  {
    RunKeepsInv(cfg, run);
    assert Spaced(Run(cfg, run).value.history[id].refused);
  }

  /** While the newest send it sees stays in the same second, a throttle holds an item at
      most three times and a window rule at most twice. */
  lemma HoldsAreBounded(cfg: Config, run: seq<Step>, id: nat, rule: HoldRule, last: int)
    requires Run(cfg, run).Some? && id in Run(cfg, run).value.history
    ensures Run(cfg, run).value.history[id].holds[(rule, last)] <= if IsThrottle(rule) then 3 else 2
  {
    RunKeepsInv(cfg, run);
    assert HoldsBounded(Run(cfg, run).value.history[id]);
  }

  /** A row the worker holds is, at every moment, gone or just as it was dequeued. */
  lemma BatchesStayFaithful(cfg: Config, run: seq<Step>, it: Item)
    requires Run(cfg, run).Some? && it in Active(Run(cfg, run).value)
    ensures var w := Run(cfg, run).value;
            it.status == Pending && it.nextAttempt <= Sec(w.clock) && (it.id in w.db.rows ==> w.db.rows[it.id] == it)
  {
    RunKeepsInv(cfg, run);
    assert FaithfulItem(Run(cfg, run).value, it);
  }

  // ---- Failed checks are not capped ----

  /** The state after one submission and `n` failed checks. */
  predicate CheckFailedOnly(w: World, n: nat) {
    && Idle(w) && w.db.nextId == 2
    && w.db.rows.Keys == {1} && w.history.Keys == {1}
    && w.db.rows[1].id == 1
    && w.db.rows[1].status == Pending && w.db.rows[1].attempts == n && w.history[1].checkErrors == n
    && w.db.rows[1].nextAttempt == RETRY_SECONDS * n
    && w.clock <= RETRY_SECONDS * n * NANOS_PER_SECOND
  }

  lemma DequeuesTheOne(cfg: Config, w: World, n: nat)
    requires CheckFailedOnly(w, n)
    ensures var at := RETRY_SECONDS * n * NANOS_PER_SECOND;
            && Legal(w, Tick(at)) && KnownItems(w) && 1 in w.db.rows
            && After(cfg, w, Tick(at)) == w.(batch := [w.db.rows[1]], clock := at)
  {
    var at := RETRY_SECONDS * n * NANOS_PER_SECOND;
    var rows := w.db.rows;
    SecShift(0, RETRY_SECONDS * n);
    assert DueFrom(rows, 2, 2, Sec(at)) == [];
    assert DueFrom(rows, 1, 2, Sec(at)) == [rows[1]];
    assert DueFrom(rows, 0, 2, Sec(at)) == [rows[1]];
  }

  lemma FailsTheOne(cfg: Config, w: World, n: nat)
    requires w.current.None? && CheckFailedOnly(w.(batch := []), n) && w.batch == [w.db.rows[1]]
    requires w.clock == RETRY_SECONDS * n * NANOS_PER_SECOND
    ensures var check := Check(CheckEnv(w.clock, w.clock, w.clock, {ReadUser}));
            Legal(w, check) && KnownItems(w) && CheckFailedOnly(After(cfg, w, check), n + 1)
  {
    SecShift(0, RETRY_SECONDS * n);
  }

  lemma OneFailedCheck(cfg: Config, w: World, n: nat)
    requires CheckFailedOnly(w, n)
    ensures var at := RETRY_SECONDS * n * NANOS_PER_SECOND;
            && Legal(w, Tick(at)) && KnownItems(w)
            && var w1 := After(cfg, w, Tick(at)); var check := Check(CheckEnv(at, at, at, {ReadUser}));
               Legal(w1, check) && KnownItems(w1) && CheckFailedOnly(After(cfg, w1, check), n + 1)
  {
    DequeuesTheOne(cfg, w, n);
    FailsTheOne(cfg, After(cfg, w, Tick(RETRY_SECONDS * n * NANOS_PER_SECOND)), n);
  }

  lemma OnlySubmitted(cfg: Config, user: int, addr: string)
    requires ExtractDomain(addr) != ""
    ensures var run := [Submit(user, "", addr, "", true, 0, 0)];
            Run(cfg, run).Some? && CheckFailedOnly(Run(cfg, run).value, 0)
  {
    var run := [Submit(user, "", addr, "", true, 0, 0)];
    assert run[..0] == [];
    assert Legal(START, run[0]) && KnownItems(START);
  }

  lemma OneMoreFailedCheck(cfg: Config, run: seq<Step>, n: nat) returns (more: seq<Step>)
    requires Run(cfg, run).Some? && CheckFailedOnly(Run(cfg, run).value, n)
    ensures Run(cfg, more).Some? && CheckFailedOnly(Run(cfg, more).value, n + 1)
  {
    OneFailedCheck(cfg, Run(cfg, run).value, n);
    var at := RETRY_SECONDS * n * NANOS_PER_SECOND;
    var tick, check := Tick(at), Check(CheckEnv(at, at, at, {ReadUser}));
    RunExtends(cfg, run, tick);
    RunExtends(cfg, run + [tick], check);
    more := run + [tick] + [check];
  }

  /** The cap of five is on failed deliveries only: for every n there is a run in which an
      item is still pending after n attempts, each a failed check. */
  lemma {:induction false} FailedChecksAreUncapped(cfg: Config, user: int, addr: string, n: nat)
    returns (run: seq<Step>)
    requires ExtractDomain(addr) != ""
    ensures Run(cfg, run).Some? && CheckFailedOnly(Run(cfg, run).value, n)
  {
    if n == 0 {
      run := [Submit(user, "", addr, "", true, 0, 0)];
      OnlySubmitted(cfg, user, addr);
    } else {
      run := FailedChecksAreUncapped(cfg, user, addr, n - 1);
      run := OneMoreFailedCheck(cfg, run, n - 1);
    }
  }

  lemma RunExtends(cfg: Config, run: seq<Step>, s: Step)
    requires Run(cfg, run).Some? && Legal(Run(cfg, run).value, s) && KnownItems(Run(cfg, run).value)
    ensures Run(cfg, run + [s]) == Some(After(cfg, Run(cfg, run).value, s))
  {
    assert (run + [s])[..|run|] == run;
  }
}
