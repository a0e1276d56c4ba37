/** Submission of a message to several recipients (internal/service/send.go:20-36). */
module Submission {
  import opened Addresses
  import opened Queue
  import opened Records
  import opened Worker

  /** The environment's part in one recipient's submission. */
  datatype SubmitEnv = SubmitEnv(insertOk: bool, at: int, logAt: int)

  function RecipientFor(rcpt: string, env: SubmitEnv): Recipient {
    Recipient(rcpt, ExtractDomain(rcpt), env.insertOk, env.at, env.logAt)
  }

  function Recipients(to: seq<string>, envs: seq<SubmitEnv>): (rs: seq<Recipient>)
    requires |envs| == |to|
    ensures |rs| == |to|
  {
    seq(|to|, i requires 0 <= i < |to| => RecipientFor(to[i], envs[i]))
  }

  lemma RecipientsExactly(to: seq<string>, envs: seq<SubmitEnv>, i: nat)
    requires |envs| == |to| && i < |to|
    ensures var r := Recipients(to, envs)[i];
            && r.rcptTo == to[i] && r.domain == ExtractDomain(to[i])
            && r.insertOk == envs[i].insertOk && r.at == envs[i].at && r.logAt == envs[i].logAt
  {
  }

  /** Length of the longest acceptable prefix. */
  function Longest(rs: seq<Recipient>): (k: nat)
    ensures k <= |rs|
    ensures forall i :: 0 <= i < k ==> Acceptable(rs[i])
    ensures k < |rs| ==> !Acceptable(rs[k])
  {
    if rs == [] || !Acceptable(rs[0]) then 0 else 1 + Longest(rs[1..])
  }

  lemma OneMoreAcceptable(rs: seq<Recipient>, i: nat)
    requires i < |rs| && i <= Longest(rs)
    ensures if Acceptable(rs[i]) then i + 1 <= Longest(rs) else Longest(rs) == i
  {
  }

  function AfterFirst(db: Db, user: int, mailFrom: string, rs: seq<Recipient>, data: string, k: nat): Db
    requires k <= |rs|
  {
    if k == 0 then db else Submitted(AfterFirst(db, user, mailFrom, rs, data, k - 1), user, mailFrom, rs[k - 1], data)
  }

  /** Recipients are submitted up to the first that is not acceptable, that one included. */
  function SubmittedAll(db: Db, user: int, mailFrom: string, rs: seq<Recipient>, data: string): Db {
    var k := Longest(rs);
    AfterFirst(db, user, mailFrom, rs, data, if k < |rs| then k + 1 else k)
  }

  /** A row as an insert leaves it. */
  predicate IsNewRow(it: Item, id: nat, user: int, mailFrom: string, rcptTo: string, data: string, at: int) {
    && it.id == id && it.user == user && it.mailFrom == mailFrom && it.rcptTo == rcptTo && it.data == data
    && it.status == Pending && it.attempts == 0 && it.lastError == NoNote
    && it.nextAttempt == at / 1_000_000_000 && it.createdAt == at / 1_000_000_000 && it.updatedAt == at / 1_000_000_000
  }

  /** The first `k` recipients became rows, in order, and nothing else changed. */
  ghost predicate RowsAdded(db: Db, db': Db, user: int, mailFrom: string, rs: seq<Recipient>, data: string, k: nat)
    requires k <= |rs|
  {
    && db'.nextId == db.nextId + k
    && (forall id :: id in db'.rows <==> id in db.rows || db.nextId <= id < db.nextId + k)
    && (forall id :: id in db.rows ==> db'.rows[id] == db.rows[id])
    && (forall i :: 0 <= i < k ==>
          IsNewRow(db'.rows[db.nextId + i], db.nextId + i, user, mailFrom, rs[i].rcptTo, data, rs[i].at))
  }

  lemma {:induction false} RowsOfPrefix(db: Db, user: int, mailFrom: string, rs: seq<Recipient>, data: string, k: nat)
    requires k <= |rs| && (forall i :: 0 <= i < k ==> Acceptable(rs[i]))
    requires forall id :: id in db.rows ==> id < db.nextId
    ensures RowsAdded(db, AfterFirst(db, user, mailFrom, rs, data, k), user, mailFrom, rs, data, k)
  {
    if k > 0 {
      RowsOfPrefix(db, user, mailFrom, rs, data, k - 1);
    }
  }

  function EventsOf(user: int, mailFrom: string, rs: seq<Recipient>): (es: seq<Event>)
    ensures |es| == |rs|
  {
    seq(|rs|, i requires 0 <= i < |rs| => SubmitEvent(user, mailFrom, rs[i]))
  }

  lemma {:induction false} EventsOfPrefix(db: Db, user: int, mailFrom: string, rs: seq<Recipient>, data: string, k: nat)
    requires k <= |rs|
    ensures AfterFirst(db, user, mailFrom, rs, data, k).events == db.events + EventsOf(user, mailFrom, rs[..k])
  {
    if k > 0 {
      EventsOfPrefix(db, user, mailFrom, rs, data, k - 1);
      assert EventsOf(user, mailFrom, rs[..k])
          == EventsOf(user, mailFrom, rs[..k - 1]) + [SubmitEvent(user, mailFrom, rs[k - 1])];
    }
  }

  lemma RowsOfAll(db: Db, user: int, mailFrom: string, rs: seq<Recipient>, data: string)
    requires WellKeyed(db.rows, db.nextId)
    ensures RowsAdded(db, SubmittedAll(db, user, mailFrom, rs, data), user, mailFrom, rs, data, Longest(rs))
  {
    var k := Longest(rs);
    RowsOfPrefix(db, user, mailFrom, rs, data, k);
    var mid := AfterFirst(db, user, mailFrom, rs, data, k);
    var db' := SubmittedAll(db, user, mailFrom, rs, data);
    assert db'.rows == mid.rows && db'.nextId == mid.nextId;
  }

  /** The event of one recipient: a rejection without a domain, a failure when the insert
      fails, and otherwise a queued message. */
  predicate IsSubmitEvent(e: Event, user: int, mailFrom: string, r: Recipient) {
    && e.user == user && e.mailFrom == mailFrom && e.rcptTo == r.rcptTo && e.domain == r.domain
    && e.createdAt == r.logAt / 1_000_000_000
    && if r.domain == "" then e.status == RejectedEvent && e.reason == InvalidRecipient
       else if !r.insertOk then e.status == FailedEvent && e.reason == InsertFailure
       else e.status == QueuedEvent && e.reason == NoNote
  }

  /** The log grew by the events of the first `k` recipients, in order. */
  predicate EventsAdded(db: Db, db': Db, user: int, mailFrom: string, rs: seq<Recipient>, k: nat)
    requires k <= |rs|
  {
    && |db'.events| == |db.events| + k
    && db'.events[..|db.events|] == db.events
    && forall i :: 0 <= i < k ==> IsSubmitEvent(db'.events[|db.events| + i], user, mailFrom, rs[i])
  }

  lemma EventsAreAdded(db: Db, db': Db, user: int, mailFrom: string, rs: seq<Recipient>, k: nat)
    requires k <= |rs| && db'.events == db.events + EventsOf(user, mailFrom, rs[..k])
    ensures EventsAdded(db, db', user, mailFrom, rs, k)
  {
    forall i | 0 <= i < k ensures IsSubmitEvent(db'.events[|db.events| + i], user, mailFrom, rs[i]) {
      assert db'.events[|db.events| + i] == EventsOf(user, mailFrom, rs[..k])[i];
      assert rs[..k][i] == rs[i];
    }
  }

  /** A recipient with a domain whose insert works. */
  predicate Works(r: Recipient) {
    r.domain != "" && r.insertOk
  }

  /** Exactly the longest acceptable prefix of the recipients is enqueued, one row and one
      event each, in order; the recipient that stops it leaves one event and no row. */
  lemma {:induction false} EnqueuesLongestPrefix(db: Db, user: int, mailFrom: string, rs: seq<Recipient>, data: string)
    requires WellKeyed(db.rows, db.nextId)
    ensures var k := Longest(rs); var db' := SubmittedAll(db, user, mailFrom, rs, data);
            && k <= |rs| && (forall i :: 0 <= i < k ==> Works(rs[i])) && (k < |rs| ==> !Works(rs[k]))
            && RowsAdded(db, db', user, mailFrom, rs, data, k)
            && EventsAdded(db, db', user, mailFrom, rs, if k < |rs| then k + 1 else k)
  {
    var k := Longest(rs);
    var n := if k < |rs| then k + 1 else k;
    RowsOfAll(db, user, mailFrom, rs, data);
    EventsOfPrefix(db, user, mailFrom, rs, data, n);
    EventsAreAdded(db, SubmittedAll(db, user, mailFrom, rs, data), user, mailFrom, rs, n);
  }
}
