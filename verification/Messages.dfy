/** Every row, every item the worker holds and every event of a run is about a message as it
    was submitted. */
module Messages {
  import opened Addresses
  import opened Clock
  import opened Invariant
  import opened Machine
  import opened Queue
  import opened Records
  import opened Worker

  /** One more submission, if the step is one that becomes row `id`. */
  function OriginsAfter(origins: map<nat, Step>, id: nat, s: Step): map<nat, Step> {
    if s.Submit? && s.insertOk && ExtractDomain(s.rcptTo) != "" then origins[id := s] else origins
  }

  /** The submissions of a run that became rows, by the id they got. */
  function Origins(cfg: Config, run: seq<Step>): map<nat, Step> {
    if run == [] then map[]
    else
      var w, s := Run(cfg, run[..|run| - 1]), run[|run| - 1];
      var before := Origins(cfg, run[..|run| - 1]);
      if w.Some? then OriginsAfter(before, w.value.db.nextId, s) else before
  }

  /** The row carries the message of its submission. */
  predicate Carries(it: Item, s: Step) {
    && s.Submit?
    && it.user == s.user && it.mailFrom == s.mailFrom && it.rcptTo == s.rcptTo && it.data == s.data
    && it.createdAt == s.at / 1_000_000_000
  }

  /** The event is about the message of that submission. */
  predicate About(e: Event, s: Step) {
    && s.Submit?
    && e.user == s.user && e.mailFrom == s.mailFrom && e.rcptTo == s.rcptTo && e.domain == ExtractDomain(s.rcptTo)
  }

  /** The run submits the message that the event is about. */
  ghost predicate FromRun(run: seq<Step>, e: Event) {
    exists i :: 0 <= i < |run| && About(e, run[i])
  }

  predicate RowsCarry(w: World, origins: map<nat, Step>) {
    && (forall id :: id in w.db.rows ==> id in origins && Carries(w.db.rows[id], origins[id]))
    && (forall it :: it in Active(w) ==> it.id in origins && Carries(it, origins[it.id]))
  }

  ghost predicate OriginsKnown(w: World, run: seq<Step>, origins: map<nat, Step>) {
    && (forall id :: id in origins ==> id < w.db.nextId && origins[id] in run)
    && (forall i :: 0 <= i < |w.db.events| ==> FromRun(run, w.db.events[i]))
  }

  lemma SubmitCarries(cfg: Config, w: World, s: Step, origins: map<nat, Step>)
    requires Inv(cfg, w) && s.Submit? && Legal(w, s) && RowsCarry(w, origins)
    requires forall id :: id in origins ==> id < w.db.nextId
    ensures RowsCarry(AfterSubmit(w, s), OriginsAfter(origins, w.db.nextId, s))
  {
    assert Active(AfterSubmit(w, s)) == Active(w);
  }

  lemma DealtCarries(w: World, w': World, it: Item, it': Item, h': ItemHistory, origins: map<nat, Step>)
    requires Batched(w) && DealtWith(w, w', it, it', h') && RowsCarry(w, origins)
    requires it.id in origins && Carries(it', origins[it.id])
    ensures RowsCarry(w', origins)
  {
    OthersStay(w, w', it, it', h');
  }

  lemma FinishCarries(cfg: Config, w: World, s: Step, origins: map<nat, Step>)
    requires Inv(cfg, w) && Legal(w, s) && KnownItems(w) && RowsCarry(w, origins) && s.Finish?
    ensures RowsCarry(AfterFinish(w, s), origins)
  {
    var it := w.current.value.item;
    assert Active(w)[0] == it;
    RowIsSnapshot(cfg, w, it);
    FinishDeals(w, s);
    DealtCarries(w, AfterFinish(w, s), it, FinishedItem(it, s), AfterFinish(w, s).history[it.id], origins);
  }

  lemma CheckCarries(cfg: Config, w: World, env: CheckEnv, origins: map<nat, Step>)
    requires Inv(cfg, w) && Legal(w, Check(env)) && KnownItems(w) && RowsCarry(w, origins)
    ensures RowsCarry(AfterCheck(cfg, w, env), origins)
  {
    var it := w.batch[0];
    var w' := AfterCheck(cfg, w, env);
    assert Active(w)[0] == it;
    RowIsSnapshot(cfg, w, it);
    if ResultOf(VerdictOn(cfg, w.db, it, env), env.faults).Cleared? {
      assert Active(w') == Active(w);
    } else {
      CheckDeals(cfg, w, env);
      DealtCarries(w, w', it, CheckedItem(cfg, w, env), w'.history[it.id], origins);
    }
  }

  lemma IdleCarries(cfg: Config, w: World, s: Step, origins: map<nat, Step>)
    requires Inv(cfg, w) && Legal(w, s) && KnownItems(w) && RowsCarry(w, origins) && (s.Delete? || s.Tick?)
    ensures RowsCarry(After(cfg, w, s), origins)
  {
    var w' := After(cfg, w, s);
    if s.Delete? {
      assert Active(w') == Active(w);
    } else {
      TickKeeps(cfg, w, s.at);
      assert Active(w') == w'.batch;
      BatchMembers(w.db.rows, w.db.nextId, BATCH_SIZE, s.at);
      forall it | it in Active(w') ensures it.id in origins && Carries(it, origins[it.id]) {
        assert DueRow(w.db.rows, it, Sec(s.at));
      }
    }
  }

  lemma FromLonger(run: seq<Step>, s: Step, e: Event)
    requires FromRun(run, e)
    ensures FromRun(run + [s], e)
  {
    var i :| 0 <= i < |run| && About(e, run[i]);
    assert (run + [s])[i] == run[i];
  }

  /** Whatever a step logs is about the submitted message or the item in hand. */
  lemma StepLogs(cfg: Config, w: World, s: Step, origins: map<nat, Step>)
    requires Inv(cfg, w) && Legal(w, s) && KnownItems(w) && RowsCarry(w, origins)
    ensures var w' := After(cfg, w, s);
            || w'.db.events == w.db.events
            || (exists e: Event :: w'.db.events == w.db.events + [e]
                  && (About(e, s)
                      || (Active(w) != [] && Active(w)[0].id in origins && About(e, origins[Active(w)[0].id]))))
  {
    var w' := After(cfg, w, s);
    if |w'.db.events| > |w.db.events| {
      var e := w'.db.events[|w.db.events|];
      if s.Submit? {
        assert w'.db.events == w.db.events + [e] && About(e, s);
      } else {
        var it := Active(w)[0];
        assert it in Active(w);
        assert w'.db.events == w.db.events + [e] && About(e, origins[it.id]);
      }
    }
  }

  lemma OriginIsFromRun(run: seq<Step>, s: Step, e: Event, o: Step)
    requires About(e, o) && (o == s || o in run)
    ensures FromRun(run + [s], e)
  {
    if o == s {
      assert (run + [s])[|run|] == s;
    } else {
      var k :| 0 <= k < |run| && run[k] == o;
      assert (run + [s])[k] == o;
    }
  }

  /** One more event about a submission of the run, or none. */
  lemma LogStaysKnown(run: seq<Step>, s: Step, events: seq<Event>, events': seq<Event>)
    requires forall i :: 0 <= i < |events| ==> FromRun(run, events[i])
    requires events' == events || (|events'| == |events| + 1 && events'[..|events|] == events
                                   && FromRun(run + [s], events'[|events|]))
    ensures forall i :: 0 <= i < |events'| ==> FromRun(run + [s], events'[i])
  {
    forall i | 0 <= i < |events'| ensures FromRun(run + [s], events'[i]) {
      if i < |events| {
        assert events'[i] == events'[..|events|][i];
        FromLonger(run, s, events[i]);
      }
    }
  }

  lemma NextKnown(cfg: Config, run: seq<Step>, w: World, s: Step, origins: map<nat, Step>)
    requires Inv(cfg, w) && Legal(w, s) && KnownItems(w) && RowsCarry(w, origins) && OriginsKnown(w, run, origins)
    ensures forall i :: 0 <= i < |After(cfg, w, s).db.events| ==> FromRun(run + [s], After(cfg, w, s).db.events[i])
  {
    var w' := After(cfg, w, s);
    StepLogs(cfg, w, s, origins);
    if w'.db.events != w.db.events {
      var e: Event :| w'.db.events == w.db.events + [e]
        && (About(e, s) || (Active(w) != [] && Active(w)[0].id in origins && About(e, origins[Active(w)[0].id])));
      OriginIsFromRun(run, s, e, if About(e, s) then s else origins[Active(w)[0].id]);
    }
    LogStaysKnown(run, s, w.db.events, w'.db.events);
  }

  /** Ids stay below the next one, and the submissions in the run. */
  lemma OriginsStay(cfg: Config, run: seq<Step>, w: World, s: Step, origins: map<nat, Step>)
    requires Legal(w, s) && KnownItems(w) && forall id :: id in origins ==> id < w.db.nextId && origins[id] in run
    ensures var after := OriginsAfter(origins, w.db.nextId, s);
            forall id :: id in after ==> id < After(cfg, w, s).db.nextId && after[id] in run + [s]
  {
  }

  lemma NextCarries(cfg: Config, w: World, s: Step, origins: map<nat, Step>)
    requires Inv(cfg, w) && Legal(w, s) && KnownItems(w) && RowsCarry(w, origins)
    requires forall id :: id in origins ==> id < w.db.nextId
    ensures RowsCarry(After(cfg, w, s), OriginsAfter(origins, w.db.nextId, s))
  {
    match s
    case Submit(_, _, _, _, _, _, _) => SubmitCarries(cfg, w, s, origins);
    case Delete(_, _) => IdleCarries(cfg, w, s, origins);
    case Tick(_) => IdleCarries(cfg, w, s, origins);
    case Check(env) => CheckCarries(cfg, w, env, origins);
    case Finish(_, _, _) => FinishCarries(cfg, w, s, origins);
  }

  lemma NextOriginsKnown(cfg: Config, run: seq<Step>, w: World, s: Step, origins: map<nat, Step>)
    requires Inv(cfg, w) && Legal(w, s) && KnownItems(w) && RowsCarry(w, origins) && OriginsKnown(w, run, origins)
    ensures OriginsKnown(After(cfg, w, s), run + [s], OriginsAfter(origins, w.db.nextId, s))
  {
    NextKnown(cfg, run, w, s, origins);
    OriginsStay(cfg, run, w, s, origins);
  }

  /** What the two parts of the invariant say about a run. */
  ghost predicate Traced(cfg: Config, run: seq<Step>)
    requires Run(cfg, run).Some?
  {
    RowsCarry(Run(cfg, run).value, Origins(cfg, run)) && OriginsKnown(Run(cfg, run).value, run, Origins(cfg, run))
  }

  lemma StaysTraced(cfg: Config, run: seq<Step>, prior: seq<Step>, s: Step)
    requires Run(cfg, run).Some? && run == prior + [s] && Run(cfg, prior).Some? && Traced(cfg, prior)
    ensures Traced(cfg, run)
  {
    var w, origins := Run(cfg, prior).value, Origins(cfg, prior);
    assert run[..|run| - 1] == prior && run[|run| - 1] == s;
    RunKeepsInv(cfg, prior);
    NextCarries(cfg, w, s, origins);
    NextOriginsKnown(cfg, prior, w, s, origins);
  }

  lemma {:induction false} RunCarries(cfg: Config, run: seq<Step>)
    requires Run(cfg, run).Some?
    ensures Traced(cfg, run)
  {
    if run != [] {
      var prior := run[..|run| - 1];
      RunCarries(cfg, prior);
      StaysTraced(cfg, run, prior, run[|run| - 1]);
    }
  }

  /** Every row, and every item the worker holds, keeps sender, recipient and text of the
      submission that made it. */
  lemma RowsKeepTheirMessage(cfg: Config, run: seq<Step>, it: Item)
    requires Run(cfg, run).Some? && (it in Run(cfg, run).value.db.rows.Values || it in Active(Run(cfg, run).value))
    ensures it.id in Origins(cfg, run) && Carries(it, Origins(cfg, run)[it.id]) && Origins(cfg, run)[it.id] in run
  {
    RunCarries(cfg, run);
    RunKeepsInv(cfg, run);
    if it in Run(cfg, run).value.db.rows.Values {
      var id :| id in Run(cfg, run).value.db.rows && Run(cfg, run).value.db.rows[id] == it;
    }
  }

  /** Every event names user, sender, recipient and domain of a message the run submitted. */
  lemma EventsNameTheirMessage(cfg: Config, run: seq<Step>, i: nat)
    requires Run(cfg, run).Some? && i < |Run(cfg, run).value.db.events|
    ensures exists k :: 0 <= k < |run| && About(Run(cfg, run).value.db.events[i], run[k])
  {
    RunCarries(cfg, run);
    assert FromRun(run, Run(cfg, run).value.db.events[i]);
  }
}
