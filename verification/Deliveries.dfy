/** One message on its own, from submission to acceptance: the piece that runs showing what
    the code allows are built from. */
module Deliveries {
  import opened Acceptances
  import opened Addresses
  import opened Clock
  import opened Holding
  import opened Invariant
  import opened Machine
  import opened Options
  import opened Outcomes
  import opened Queue
  import opened Records
  import opened Worker

  /** The worker is idle and every row is settled. */
  predicate Quiet(w: World) {
    Idle(w) && WellKeyed(w.db.rows, w.db.nextId) && forall id :: id in w.db.rows ==> w.db.rows[id].status == Sent
  }

  lemma StartIsQuiet(cfg: Config)
    ensures Run(cfg, []) == Some(START) && Quiet(START) && Accepted(cfg, []) == []
  {
  }

  lemma {:induction false} OnlyLastDue(rows: Rows, from: nat, end: nat, second: int)
    requires from < end && end - 1 in rows && Due(rows[end - 1], second)
    requires forall id :: id in rows && id != end - 1 ==> !Due(rows[id], second)
    ensures DueFrom(rows, from, end, second) == [rows[end - 1]]
    decreases end - from
  {
    if from < end - 1 {
      OnlyLastDue(rows, from + 1, end, second);
    } else {
      assert DueFrom(rows, end, end, second) == [];
    }
  }

  lemma SubmittedOne(cfg: Config, run: seq<Step>, s: Step)
    requires Run(cfg, run).Some? && s.Submit? && s.insertOk && ExtractDomain(s.rcptTo) != ""
    requires Idle(Run(cfg, run).value) && Run(cfg, run).value.clock <= s.at == s.logAt
    ensures var w := Run(cfg, run).value;
            && Run(cfg, run + [s]).Some?
            && var w' := Run(cfg, run + [s]).value;
               && Idle(w') && w'.clock == s.at && w.db.nextId in w'.history && w'.stamps == w.stamps + [s.at]
               && w'.db == Submitted(w.db, s.user, s.mailFrom, SubmittedRecipient(s), s.data)
               && w'.db.nextId == w.db.nextId + 1
               && w'.db.rows
                  == w.db.rows[w.db.nextId := NewItem(w.db.nextId, s.user, s.mailFrom, s.rcptTo, s.data, s.at)]
  {
    RunExtends(cfg, run, s);
  }

  /** A tick takes the one due row that was added to a settled table. */
  lemma DequeuedOne(cfg: Config, run: seq<Step>, before: World, it: Item, at: int)
    requires Quiet(before) && it.id == before.db.nextId && Due(it, Sec(at))
    requires Run(cfg, run).Some? && Idle(Run(cfg, run).value) && Run(cfg, run).value.clock <= at
    requires var w := Run(cfg, run).value;
             w.db.rows == before.db.rows[it.id := it] && w.db.nextId == before.db.nextId + 1
    ensures var w := Run(cfg, run).value; Run(cfg, run + [Tick(at)]) == Some(w.(batch := [it], clock := at))
  {
    var w := Run(cfg, run).value;
    OnlyLastDue(w.db.rows, 0, w.db.nextId, Sec(at));
    RunExtends(cfg, run, Tick(at));
  }

  /** A cleared item that an account takes leaves the worker idle. */
  lemma ClearedIsSent(cfg: Config, run: seq<Step>, it: Item, at: int)
    requires Run(cfg, run).Some?
    requires var w := Run(cfg, run).value;
             && w.batch == [it] && w.current.None? && w.clock <= at && it.id in w.history
             && VerdictOn(cfg, w.db, it, CheckEnv(at, at, at, {})) == Clear
    ensures var w := Run(cfg, run).value; var checked := run + [Check(CheckEnv(at, at, at, {}))];
            var more := checked + [Finish(Some(0), at, at)];
            && Run(cfg, checked).Some? && Run(cfg, checked).value.current == Some(Flight(it, at))
            && Run(cfg, more).Some?
            && var w' := Run(cfg, more).value;
               && Idle(w') && w'.clock == at && w'.stamps == w.stamps + [at]
               && w'.db == Finished(w.db, it, true, at, at)
  {
    var w := Run(cfg, run).value;
    var check, finish := Check(CheckEnv(at, at, at, {})), Finish(Some(0), at, at);
    RunExtends(cfg, run, check);
    var w' := AfterCheck(cfg, w, check.env);
    assert w'.db == w.db && w'.stamps == w.stamps && w'.current == Some(Flight(it, at)) && w'.batch == [];
    RunExtends(cfg, run + [check], finish);
  }

  /** A message to one recipient, as it is submitted. */
  datatype Message = Message(user: int, mailFrom: string, rcptTo: string, data: string)

  function SubmitOf(m: Message, at: int): Step {
    Submit(m.user, m.mailFrom, m.rcptTo, m.data, true, at, at)
  }

  function QueuedNow(m: Message, at: int): Event {
    Event(m.user, m.mailFrom, m.rcptTo, ExtractDomain(m.rcptTo), QueuedEvent, NoNote, Sec(at))
  }

  function SentNow(m: Message, done: int): Event {
    Event(m.user, m.mailFrom, m.rcptTo, ExtractDomain(m.rcptTo), SentEvent, NoNote, Sec(done))
  }

  /** What is left of a message submitted at `at` and accepted at `done`. */
  predicate DeliveredTo(w: World, w': World, m: Message, at: int, done: int) {
    && Quiet(w') && w'.clock == done
    && w'.db.events == w.db.events + [QueuedNow(m, at)] + [SentNow(m, done)]
    && w'.stamps == w.stamps + [at] + [done]
  }

  function RowOf(w: World, m: Message, at: int): Item {
    NewItem(w.db.nextId, m.user, m.mailFrom, m.rcptTo, m.data, at)
  }

  /** The tables once the message is queued. */
  function AsQueued(w: World, m: Message, at: int): Db {
    Submitted(w.db, m.user, m.mailFrom, SubmittedRecipient(SubmitOf(m, at)), m.data)
  }

  lemma SettledAgain(db: Db, m: Message, at: int, done: int)
    requires WellKeyed(db.rows, db.nextId) && forall id :: id in db.rows ==> db.rows[id].status == Sent
    requires ExtractDomain(m.rcptTo) != ""
    ensures var it := NewItem(db.nextId, m.user, m.mailFrom, m.rcptTo, m.data, at);
            var r := SubmittedRecipient(SubmitOf(m, at));
            var db' := Finished(Submitted(db, m.user, m.mailFrom, r, m.data), it, true, done, done);
            && WellKeyed(db'.rows, db'.nextId)
            && (forall id :: id in db'.rows ==> db'.rows[id].status == Sent)
            && db'.events == db.events + [QueuedNow(m, at)] + [SentNow(m, done)]
  {
  }

  lemma AcceptedNext(cfg: Config, run: seq<Step>, s: Step)
    ensures Accepted(cfg, run + [s])
            == Accepted(cfg, run)
               + if s.Finish? && s.taker.Some? && Run(cfg, run).Some? && Run(cfg, run).value.current.Some?
                 then [AcceptedBy(Run(cfg, run).value.current.value.item, s.logAt)] else []
  {
    assert (run + [s])[..|run|] == run;
  }

  lemma AcceptedAtTheEnd(cfg: Config, run: seq<Step>, it: Item, at: int)
    requires var check := Check(CheckEnv(at, at, at, {}));
             Run(cfg, run + [check]).Some? && Run(cfg, run + [check]).value.current == Some(Flight(it, at))
    ensures Accepted(cfg, run + [Check(CheckEnv(at, at, at, {}))] + [Finish(Some(0), at, at)])
            == Accepted(cfg, run) + [AcceptedBy(it, at)]
  {
    AcceptedNext(cfg, run, Check(CheckEnv(at, at, at, {})));
    AcceptedNext(cfg, run + [Check(CheckEnv(at, at, at, {}))], Finish(Some(0), at, at));
  }

  lemma AcceptedBefore(cfg: Config, run: seq<Step>, m: Message, at: int)
    ensures Accepted(cfg, run + [SubmitOf(m, at)] + [Tick(at)]) == Accepted(cfg, run)
  {
    AcceptedNext(cfg, run, SubmitOf(m, at));
    AcceptedNext(cfg, run + [SubmitOf(m, at)], Tick(at));
  }

  /** A message submitted to a quiet system at `at`, and cleared and accepted at `done`. */
  lemma OneDelivery(cfg: Config, run: seq<Step>, m: Message, at: int, done: int) returns (more: seq<Step>)
    requires Run(cfg, run).Some? && Quiet(Run(cfg, run).value) && Run(cfg, run).value.clock <= at <= done
    requires ExtractDomain(m.rcptTo) != ""
    requires HoldVerdict(cfg, AsQueued(Run(cfg, run).value, m, at).events, m.user, ExtractDomain(m.rcptTo), done, {})
             == Clear
    ensures Run(cfg, more).Some? && DeliveredTo(Run(cfg, run).value, Run(cfg, more).value, m, at, done)
    ensures Accepted(cfg, more) == Accepted(cfg, run) + [Acceptance(m.user, m.mailFrom, m.rcptTo, done)]
  {
    var w := Run(cfg, run).value;
    var it := RowOf(w, m, at);
    SubmittedOne(cfg, run, SubmitOf(m, at));
    DequeuedOne(cfg, run + [SubmitOf(m, at)], w, it, at);
    more := run + [SubmitOf(m, at)] + [Tick(at)];
    ClearedIsSent(cfg, more, it, done);
    AcceptedBefore(cfg, run, m, at);
    AcceptedAtTheEnd(cfg, more, it, done);
    SettledAgain(w.db, m, at, done);
    more := more + [Check(CheckEnv(done, done, done, {}))] + [Finish(Some(0), done, done)];
  }
}
