/** Nothing is lost between submission and outcome: the log, the table and the deletions
    account for each other, user by user. */
module Conservation {
  import opened Addresses
  import opened Clock
  import opened Invariant
  import opened ItemLife
  import opened Machine
  import opened Queue
  import opened Records
  import opened Worker

  /** Events of the user with this status and reason. */
  function Noted(events: seq<Event>, user: int, status: EventStatus, reason: Note): nat {
    if events == [] then 0
    else
      var e := events[|events| - 1];
      Noted(events[..|events| - 1], user, status, reason)
      + if e.user == user && e.status == status && e.reason == reason then 1 else 0
  }

  function IdsOf(history: map<nat, ItemHistory>, user: int): set<nat> {
    set id | id in history && history[id].user == user
  }

  function TakenOf(history: map<nat, ItemHistory>, user: int): set<nat> {
    set id | id in history && history[id].user == user && history[id].accepted != []
  }

  function GivenUpOf(history: map<nat, ItemHistory>, user: int): set<nat> {
    set id | id in history && history[id].user == user && history[id].gaveUp
  }

  /** The log's accepted submissions, sends and failures of a user are the ids enqueued,
      accepted and given up. */
  predicate Logged(w: World, user: int) {
    && Noted(w.db.events, user, QueuedEvent, NoNote) == |IdsOf(w.history, user)|
    && Noted(w.db.events, user, SentEvent, NoNote) == |TakenOf(w.history, user)|
    && Noted(w.db.events, user, FailedEvent, DeliveryFailure) == |GivenUpOf(w.history, user)|
  }

  lemma NotedAppend(events: seq<Event>, e: Event, user: int, status: EventStatus, reason: Note)
    ensures Noted(events + [e], user, status, reason)
            == Noted(events, user, status, reason)
               + if e.user == user && e.status == status && e.reason == reason then 1 else 0
  {
    assert (events + [e])[..|events|] == events;
  }

  lemma NotedAll(events: seq<Event>, e: Event, user: int)
    ensures forall status, reason ::
              Noted(events + [e], user, status, reason)
              == Noted(events, user, status, reason)
                 + if e.user == user && e.status == status && e.reason == reason then 1 else 0
  {
    forall status, reason
      ensures Noted(events + [e], user, status, reason)
           == Noted(events, user, status, reason)
              + if e.user == user && e.status == status && e.reason == reason then 1 else 0
    {
      NotedAppend(events, e, user, status, reason);
    }
  }

  lemma SetsAfterNew(history: map<nat, ItemHistory>, id: nat, h: ItemHistory, user: int)
    requires id !in history && h.accepted == [] && !h.gaveUp
    ensures |IdsOf(history[id := h], user)| == |IdsOf(history, user)| + if h.user == user then 1 else 0
    ensures TakenOf(history[id := h], user) == TakenOf(history, user)
    ensures GivenUpOf(history[id := h], user) == GivenUpOf(history, user)
  {
    assert IdsOf(history[id := h], user)
        == if h.user == user then IdsOf(history, user) + {id} else IdsOf(history, user);
  }

  /** The history of one undecided id moves on: the sets grow by that id at most. */
  lemma IdsAfterChange(history: map<nat, ItemHistory>, id: nat, h: ItemHistory, user: int)
    requires id in history && h.user == history[id].user
    ensures IdsOf(history[id := h], user) == IdsOf(history, user)
  {
  }

  lemma TakenAfterChange(history: map<nat, ItemHistory>, id: nat, h: ItemHistory, user: int)
    requires id in history && h.user == history[id].user && history[id].accepted == []
    ensures |TakenOf(history[id := h], user)|
            == |TakenOf(history, user)| + if h.user == user && h.accepted != [] then 1 else 0
  {
    var before, after := TakenOf(history, user), TakenOf(history[id := h], user);
    assert after == if h.user == user && h.accepted != [] then before + {id} else before;
  }

  lemma GivenUpAfterChange(history: map<nat, ItemHistory>, id: nat, h: ItemHistory, user: int)
    requires id in history && h.user == history[id].user && !history[id].gaveUp
    ensures |GivenUpOf(history[id := h], user)|
            == |GivenUpOf(history, user)| + if h.user == user && h.gaveUp then 1 else 0
  {
    var before, after := GivenUpOf(history, user), GivenUpOf(history[id := h], user);
    assert after == if h.user == user && h.gaveUp then before + {id} else before;
  }

  lemma SetsAfterChange(history: map<nat, ItemHistory>, id: nat, h: ItemHistory, user: int)
    requires id in history && h.user == history[id].user && history[id].accepted == [] && !history[id].gaveUp
    ensures IdsOf(history[id := h], user) == IdsOf(history, user)
    ensures |TakenOf(history[id := h], user)|
            == |TakenOf(history, user)| + if h.user == user && h.accepted != [] then 1 else 0
    ensures |GivenUpOf(history[id := h], user)|
            == |GivenUpOf(history, user)| + if h.user == user && h.gaveUp then 1 else 0
  {
    IdsAfterChange(history, id, h, user);
    TakenAfterChange(history, id, h, user);
    GivenUpAfterChange(history, id, h, user);
  }

  lemma SubmitLogged(w: World, s: Step, user: int)
    requires s.Submit? && Logged(w, user) && w.db.nextId !in w.history
    ensures Logged(AfterSubmit(w, s), user)
  {
    NotedAll(w.db.events, SubmitEvent(s.user, s.mailFrom, SubmittedRecipient(s)), user);
    SetsAfterNew(w.history, w.db.nextId, NewHistory(s.user, s.rcptTo), user);
  }

  /** The item has neither been accepted nor given up. */
  predicate Undecided(w: World, it: Item) {
    && it.id in w.history
    && w.history[it.id].accepted == [] && !w.history[it.id].gaveUp && w.history[it.id].user == it.user
  }

  /** A check logs no submission, no send and no failure. */
  lemma CheckNotes(cfg: Config, db: Db, it: Item, env: CheckEnv, user: int, status: EventStatus, reason: Note)
    requires (status == QueuedEvent && reason == NoNote) || status == SentEvent || status == FailedEvent
    ensures Noted(Checked(cfg, db, it, env).events, user, status, reason) == Noted(db.events, user, status, reason)
  {
    var r := ResultOf(VerdictOn(cfg, db, it, env), env.faults);
    if r.HeldBack? {
      NotedAppend(db.events, EventFor(it, QueuedEvent, HeldBy(r.rule), env.logAt), user, status, reason);
    }
  }

  /** And it decides nothing. */
  lemma CheckSets(cfg: Config, w: World, env: CheckEnv, user: int)
    requires w.batch != [] && Undecided(w, w.batch[0])
    ensures var after := AfterCheck(cfg, w, env).history;
            && |IdsOf(after, user)| == |IdsOf(w.history, user)|
            && |TakenOf(after, user)| == |TakenOf(w.history, user)|
            && |GivenUpOf(after, user)| == |GivenUpOf(w.history, user)|
  {
    var it := w.batch[0];
    var r := ResultOf(VerdictOn(cfg, w.db, it, env), env.faults);
    SetsAfterChange(w.history, it.id, HistoryAfterCheck(w.history[it.id], w.db, it, r), user);
  }

  lemma CheckLogged(cfg: Config, w: World, env: CheckEnv, user: int)
    requires w.batch != [] && Undecided(w, w.batch[0]) && Logged(w, user)
    ensures Logged(AfterCheck(cfg, w, env), user)
  {
    CheckSets(cfg, w, env, user);
    CheckNotes(cfg, w.db, w.batch[0], env, user, QueuedEvent, NoNote);
    CheckNotes(cfg, w.db, w.batch[0], env, user, SentEvent, NoNote);
    CheckNotes(cfg, w.db, w.batch[0], env, user, FailedEvent, DeliveryFailure);
  }

  lemma FinishLogged(w: World, s: Step, user: int)
    requires s.Finish? && w.current.Some? && Undecided(w, w.current.value.item) && Logged(w, user)
    ensures Logged(AfterFinish(w, s), user)
  {
    var it := w.current.value.item;
    SetsAfterChange(w.history, it.id, HistoryAfterFinish(w.history[it.id], it, s.taker, s.writeAt), user);
    if s.taker.Some? {
      NotedAll(w.db.events, EventFor(it, SentEvent, NoNote, s.logAt), user);
    } else if it.attempts >= MAX_ATTEMPTS_BEFORE_LAST {
      NotedAll(w.db.events, EventFor(it, FailedEvent, DeliveryFailure, s.logAt), user);
    }
  }

  lemma ActiveUndecided(cfg: Config, w: World, it: Item)
    requires Inv(cfg, w) && it in Active(w)
    ensures Undecided(w, it)
  {
    RowIsSnapshot(cfg, w, it);
  }

  lemma StepLogged(cfg: Config, w: World, s: Step, user: int)
    requires Inv(cfg, w) && Legal(w, s) && KnownItems(w) && Logged(w, user)
    ensures Logged(After(cfg, w, s), user)
  {
    match s
    case Submit(_, _, _, _, _, _, _) => SubmitLogged(w, s, user);
    case Delete(_, _) =>
    case Tick(_) =>
    case Check(env) =>
      assert w.batch[0] in Active(w);
      ActiveUndecided(cfg, w, w.batch[0]);
      CheckLogged(cfg, w, env, user);
    case Finish(_, _, _) =>
      assert w.current.value.item in Active(w);
      ActiveUndecided(cfg, w, w.current.value.item);
      FinishLogged(w, s, user);
  }

  lemma {:induction false} RunLogged(cfg: Config, run: seq<Step>, user: int)
    requires Run(cfg, run).Some?
    ensures Logged(Run(cfg, run).value, user)
  {
    if run == [] {
      assert IdsOf(START.history, user) == TakenOf(START.history, user) == GivenUpOf(START.history, user) == {};
    } else {
      var prior := run[..|run| - 1];
      RunKeepsInv(cfg, prior);
      RunLogged(cfg, prior, user);
      StepLogged(cfg, Run(cfg, prior).value, run[|run| - 1], user);
    }
  }

  // ---- The accounts ----

  function RowsOf(w: World, user: int, status: Status): set<nat> {
    set id | id in w.db.rows && w.db.rows[id].user == user && w.db.rows[id].status == status
  }

  function DeletedOf(w: World, user: int): set<nat> {
    IdsOf(w.history, user) - w.db.rows.Keys
  }

  /** Rows agree with the histories of their ids. */
  predicate Consistent(w: World) {
    forall id :: id in w.db.rows ==>
      && id in w.history
      && w.db.rows[id].user == w.history[id].user
      && (w.db.rows[id].status == Sent <==> w.history[id].accepted != [])
      && (w.db.rows[id].status == Failed <==> w.history[id].gaveUp)
  }

  lemma InvConsistent(cfg: Config, w: World)
    requires Inv(cfg, w)
    ensures Consistent(w)
  {
    forall id | id in w.db.rows
      ensures id in w.history && w.db.rows[id].user == w.history[id].user
      ensures w.db.rows[id].status == Sent <==> w.history[id].accepted != []
      ensures w.db.rows[id].status == Failed <==> w.history[id].gaveUp
    {
      assert ItemOK(cfg, w.history[id], w.db.rows[id]);
    }
  }

  lemma DisjointSizes(a: set<nat>, b: set<nat>, whole: set<nat>)
    requires a !! b && whole == a + b
    ensures |whole| == |a| + |b|
  {
  }

  lemma FourSizes(a: set<nat>, b: set<nat>, c: set<nat>, d: set<nat>, whole: set<nat>)
    requires a !! b && a !! c && b !! c && d !! a && d !! b && d !! c
    requires forall id: nat :: id in whole <==> id in a || id in b || id in c || id in d
    ensures |whole| == |a| + |b| + |c| + |d|
  {
    DisjointSizes(a, b, a + b);
    DisjointSizes(a + b, c, a + b + c);
    DisjointSizes(a + b + c, d, whole);
  }

  lemma Memberships(w: World, user: int, id: nat)
    requires Consistent(w)
    ensures id in RowsOf(w, user, Sent) <==> id in TakenOf(w.history, user) && id in w.db.rows
    ensures id in RowsOf(w, user, Failed) <==> id in GivenUpOf(w.history, user) && id in w.db.rows
    ensures id in IdsOf(w.history, user) && id in w.db.rows <==>
            id in RowsOf(w, user, Pending) || id in RowsOf(w, user, Sent) || id in RowsOf(w, user, Failed)
    ensures id in DeletedOf(w, user) <==> id in IdsOf(w.history, user) && id !in w.db.rows
    ensures id in TakenOf(w.history, user) || id in GivenUpOf(w.history, user) ==> id in IdsOf(w.history, user)
  {
  }

  lemma TakenSplit(w: World, user: int)
    requires Consistent(w)
    ensures |TakenOf(w.history, user)| == |RowsOf(w, user, Sent)| + |TakenOf(w.history, user) * DeletedOf(w, user)|
  {
    var whole, rows := TakenOf(w.history, user), RowsOf(w, user, Sent);
    var lost := whole * DeletedOf(w, user);
    forall id: nat ensures (id in whole <==> id in rows || id in lost) && !(id in rows && id in lost) {
      Memberships(w, user, id);
    }
    DisjointSizes(rows, lost, whole);
  }

  lemma GivenUpSplit(w: World, user: int)
    requires Consistent(w)
    ensures |GivenUpOf(w.history, user)|
            == |RowsOf(w, user, Failed)| + |GivenUpOf(w.history, user) * DeletedOf(w, user)|
  {
    var whole, rows := GivenUpOf(w.history, user), RowsOf(w, user, Failed);
    var lost := whole * DeletedOf(w, user);
    forall id: nat ensures (id in whole <==> id in rows || id in lost) && !(id in rows && id in lost) {
      Memberships(w, user, id);
    }
    DisjointSizes(rows, lost, whole);
  }

  lemma Partition(w: World, user: int)
    requires Consistent(w)
    ensures |IdsOf(w.history, user)|
            == |RowsOf(w, user, Pending)| + |RowsOf(w, user, Sent)| + |RowsOf(w, user, Failed)| + |DeletedOf(w, user)|
  {
    var pending, sent, failed := RowsOf(w, user, Pending), RowsOf(w, user, Sent), RowsOf(w, user, Failed);
    var whole, deleted := IdsOf(w.history, user), DeletedOf(w, user);
    forall id: nat
      ensures id in whole <==> id in pending || id in sent || id in failed || id in deleted
      ensures !(id in deleted && (id in pending || id in sent || id in failed))
    {
      Memberships(w, user, id);
    }
    FourSizes(pending, sent, failed, deleted, whole);
  }

  /** What one deletion of pending rows takes from a user. */
  function TakenAway(rows: Rows, ids: set<nat>, user: int): set<nat> {
    set id | id in rows && id in ids && rows[id].status == Pending && rows[id].user == user
  }

  /** The rows of the user that the deletions of a run took out of the table. */
  function DeletedIn(cfg: Config, run: seq<Step>, user: int): set<nat> {
    if run == [] then {}
    else
      var prior, s := run[..|run| - 1], run[|run| - 1];
      DeletedIn(cfg, prior, user)
      + if s.Delete? && Run(cfg, prior).Some? then TakenAway(Run(cfg, prior).value.db.rows, s.ids, user) else {}
  }

  lemma WorkDeletesNothing(cfg: Config, w: World, s: Step, user: int)
    requires Legal(w, s) && KnownItems(w) && (s.Check? || s.Finish?)
    ensures DeletedOf(After(cfg, w, s), user) == DeletedOf(w, user)
  {
    var w' := After(cfg, w, s);
    assert w'.db.rows.Keys == w.db.rows.Keys;
    assert IdsOf(w'.history, user) == IdsOf(w.history, user);
  }

  lemma SubmitDeletesNothing(w: World, s: Step, user: int)
    requires s.Submit? && w.db.nextId !in w.history
    ensures DeletedOf(AfterSubmit(w, s), user) == DeletedOf(w, user)
  {
  }

  lemma StepDeletes(cfg: Config, w: World, s: Step, user: int)
    requires Inv(cfg, w) && Legal(w, s) && KnownItems(w)
    ensures DeletedOf(After(cfg, w, s), user)
            == DeletedOf(w, user) + if s.Delete? then TakenAway(w.db.rows, s.ids, user) else {}
  {
    match s
    case Submit(_, _, _, _, _, _, _) => SubmitDeletesNothing(w, s, user);
    case Delete(_, _) => InvConsistent(cfg, w);
    case Tick(_) =>
    case Check(_) => WorkDeletesNothing(cfg, w, s, user);
    case Finish(_, _, _) => WorkDeletesNothing(cfg, w, s, user);
  }

  /** An id enqueued for the user is missing from the table exactly when a deletion took
      its pending row. */
  lemma {:induction false} MissingMeansDeleted(cfg: Config, run: seq<Step>, user: int)
    requires Run(cfg, run).Some?
    ensures DeletedOf(Run(cfg, run).value, user) == DeletedIn(cfg, run, user)
  {
    if run != [] {
      var prior := run[..|run| - 1];
      RunKeepsInv(cfg, prior);
      MissingMeansDeleted(cfg, prior, user);
      StepDeletes(cfg, Run(cfg, prior).value, run[|run| - 1], user);
    }
  }

  /** Per user, accepted submissions = pending + sent + failed + deleted; sends = sent rows
      + accepted ids whose row was deleted; failures = failed rows + given-up ids whose row
      was deleted. */
  lemma AccountsBalance(cfg: Config, run: seq<Step>, user: int)
    requires Run(cfg, run).Some?
    ensures var w := Run(cfg, run).value; var deleted := DeletedIn(cfg, run, user);
            && Noted(w.db.events, user, QueuedEvent, NoNote)
               == |RowsOf(w, user, Pending)| + |RowsOf(w, user, Sent)| + |RowsOf(w, user, Failed)| + |deleted|
            && Noted(w.db.events, user, SentEvent, NoNote)
               == |RowsOf(w, user, Sent)| + |TakenOf(w.history, user) * deleted|
            && Noted(w.db.events, user, FailedEvent, DeliveryFailure)
               == |RowsOf(w, user, Failed)| + |GivenUpOf(w.history, user) * deleted|
  {
    RunKeepsInv(cfg, run);
    RunLogged(cfg, run, user);
    MissingMeansDeleted(cfg, run, user);
    InvConsistent(cfg, Run(cfg, run).value);
    Partition(Run(cfg, run).value, user);
    TakenSplit(Run(cfg, run).value, user);
    GivenUpSplit(Run(cfg, run).value, user);
  }

  // ---- Deletions between ticks only ----

  /** Rows are deleted only while the worker holds none. */
  predicate DeletesBetweenTicks(cfg: Config, run: seq<Step>) {
    run != [] ==>
      var prior := run[..|run| - 1];
      && DeletesBetweenTicks(cfg, prior)
      && (run[|run| - 1].Delete? && Run(cfg, prior).Some? ==> Idle(Run(cfg, prior).value))
  }

  predicate NothingLost(w: World) {
    && (forall it :: it in Active(w) ==> it.id in w.db.rows)
    && (forall id :: id in w.history && (w.history[id].accepted != [] || w.history[id].gaveUp) ==> id in w.db.rows)
  }

  /** The worker drops no row and decides no id but that of its first item. */
  lemma WorkChanges(cfg: Config, w: World, s: Step)
    requires Legal(w, s) && KnownItems(w) && (s.Check? || s.Finish?)
    ensures var w' := After(cfg, w, s);
            && Active(w) != []
            && (Active(w') == Active(w) || Active(w') == Active(w)[1..])
            && w'.db.rows.Keys == w.db.rows.Keys
            && w'.history.Keys == w.history.Keys
            && forall id :: id in w.history && id != Active(w)[0].id ==> w'.history[id] == w.history[id]
  {
    var w' := After(cfg, w, s);
    assert Active(w') == Active(w) || Active(w') == Active(w)[1..];
    assert w'.db.rows.Keys == w.db.rows.Keys;
  }

  lemma ActiveStepLosesNothing(cfg: Config, w: World, s: Step)
    requires Legal(w, s) && KnownItems(w) && NothingLost(w) && (s.Check? || s.Finish?)
    ensures NothingLost(After(cfg, w, s))
  {
    WorkChanges(cfg, w, s);
    assert Active(w)[0] in Active(w);
  }

  lemma IdleStepLosesNothing(cfg: Config, w: World, s: Step)
    requires Legal(w, s) && KnownItems(w) && NothingLost(w) && Consistent(w) && WellKeyed(w.db.rows, w.db.nextId)
    requires !s.Check? && !s.Finish? && (s.Delete? ==> Idle(w))
    ensures NothingLost(After(cfg, w, s))
  {
    var w' := After(cfg, w, s);
    if s.Submit? {
      assert Active(w') == Active(w);
    } else if s.Tick? {
      BatchMembers(w.db.rows, w.db.nextId, BATCH_SIZE, s.at);
      assert Active(w') == w'.batch;
      forall it | it in Active(w') ensures it.id in w'.db.rows {
        assert DueRow(w.db.rows, it, Sec(s.at));
      }
    } else {
      assert Active(w') == [];
    }
  }

  lemma StepLosesNothing(cfg: Config, w: World, s: Step)
    requires Inv(cfg, w) && Legal(w, s) && KnownItems(w) && NothingLost(w) && (s.Delete? ==> Idle(w))
    ensures NothingLost(After(cfg, w, s))
  {
    InvConsistent(cfg, w);
    if s.Check? || s.Finish? {
      ActiveStepLosesNothing(cfg, w, s);
    } else {
      IdleStepLosesNothing(cfg, w, s);
    }
  }

  lemma {:induction false} RunLosesNothing(cfg: Config, run: seq<Step>)
    requires Run(cfg, run).Some? && DeletesBetweenTicks(cfg, run)
    ensures NothingLost(Run(cfg, run).value)
  {
    if run != [] {
      var prior := run[..|run| - 1];
      RunKeepsInv(cfg, prior);
      RunLosesNothing(cfg, prior);
      StepLosesNothing(cfg, Run(cfg, prior).value, run[|run| - 1]);
    }
  }

  /** With deletions between ticks only, sent and failed rows match sent and failed events
      exactly, and what is missing was deleted while pending. */
  lemma ConservationBetweenTicks(cfg: Config, run: seq<Step>, user: int)
    requires Run(cfg, run).Some? && DeletesBetweenTicks(cfg, run)
    ensures var w := Run(cfg, run).value; var deleted := DeletedIn(cfg, run, user);
            && Noted(w.db.events, user, SentEvent, NoNote) == |RowsOf(w, user, Sent)|
            && Noted(w.db.events, user, FailedEvent, DeliveryFailure) == |RowsOf(w, user, Failed)|
            && Noted(w.db.events, user, QueuedEvent, NoNote)
               == |RowsOf(w, user, Pending)| + |RowsOf(w, user, Sent)| + |RowsOf(w, user, Failed)| + |deleted|
  {
    AccountsBalance(cfg, run, user);
    MissingMeansDeleted(cfg, run, user);
    RunLosesNothing(cfg, run);
    var w := Run(cfg, run).value;
    assert TakenOf(w.history, user) * DeletedOf(w, user) == {};
    assert GivenUpOf(w.history, user) * DeletedOf(w, user) == {};
  }

  predicate DomainsKnown(w: World) {
    forall id :: id in w.history ==> ExtractDomain(w.history[id].rcptTo) != ""
  }

  /** No step forgets an id, changes a recipient, or adds an id without a domain. */
  lemma StepKeepsRecipients(cfg: Config, w: World, s: Step, id: nat)
    requires Legal(w, s) && KnownItems(w) && id in After(cfg, w, s).history
    ensures var h' := After(cfg, w, s).history[id];
            || (id in w.history && h'.rcptTo == w.history[id].rcptTo)
            || (s.Submit? && h'.rcptTo == s.rcptTo && ExtractDomain(s.rcptTo) != "")
  {
  }

  lemma StepKeepsDomains(cfg: Config, w: World, s: Step)
    requires Legal(w, s) && KnownItems(w) && DomainsKnown(w)
    ensures DomainsKnown(After(cfg, w, s))
  {
    forall id | id in After(cfg, w, s).history
      ensures ExtractDomain(After(cfg, w, s).history[id].rcptTo) != ""
    {
      StepKeepsRecipients(cfg, w, s, id);
    }
  }

  lemma {:induction false} RunKeepsDomains(cfg: Config, run: seq<Step>)
    requires Run(cfg, run).Some?
    ensures DomainsKnown(Run(cfg, run).value)
  {
    if run != [] {
      RunKeepsDomains(cfg, run[..|run| - 1]);
      StepKeepsDomains(cfg, Run(cfg, run[..|run| - 1]).value, run[|run| - 1]);
    }
  }

  /** Every row ever present, and every id ever enqueued, has a recipient with a domain. */
  lemma EveryRowHasADomain(cfg: Config, run: seq<Step>, id: nat)
    requires Run(cfg, run).Some? && id in Run(cfg, run).value.db.rows
    ensures ExtractDomain(Run(cfg, run).value.db.rows[id].rcptTo) != ""
  {
    RunKeepsInv(cfg, run);
    RunKeepsDomains(cfg, run);
    var w := Run(cfg, run).value;
    assert ItemOK(cfg, w.history[id], w.db.rows[id]);
  }
}
