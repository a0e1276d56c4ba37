/** outbound_queue (internal/repo/queue_repo.go): each statement's effect on the table. */
module Queue {
  import opened Clock
  import opened Records

  type Rows = map<nat, Item>

  const RETRY_SECONDS := 30
  const SECONDS_PER_DAY := 86400

  predicate Due(it: Item, second: int) {
    it.status == Pending && it.nextAttempt <= second
  }

  /** The due rows with ids in [from, end), by id. */
  function DueFrom(rows: Rows, from: nat, end: nat, second: int): seq<Item>
    decreases end - from
  {
    if from >= end then []
    else (if from in rows && Due(rows[from], second) then [rows[from]] else []) + DueFrom(rows, from + 1, end, second)
  }

  /** The first `limit` due rows by id. */
  function Batch(rows: Rows, nextId: nat, limit: nat, now: int): seq<Item> {
    var due := DueFrom(rows, 0, nextId, Sec(now));
    if |due| <= limit then due else due[..limit]
  }

  function NewItem(id: nat, user: int, mailFrom: string, rcptTo: string, data: string, at: int): Item {
    Item(id, user, mailFrom, rcptTo, data, Pending, 0, Sec(at), NoNote, Sec(at), Sec(at))
  }

  function DeferSeconds(wait: int): int {
    (if wait < NANOS_PER_SECOND then NANOS_PER_SECOND else wait) / NANOS_PER_SECOND
  }

  /** `seconds` are the whole seconds of the wait, or 1 when there is none. */
  predicate WholeSeconds(wait: int, seconds: int) {
    if wait < 2_000_000_000 then seconds == 1
    else seconds * 1_000_000_000 <= wait < (seconds + 1) * 1_000_000_000
  }

  /** A deferral is the whole seconds of the wait, at least one. */
  lemma DeferredExactly(it: Item, note: Note, wait: int, at: int)
    ensures var it' := DeferredItem(it, note, wait, at);
            && WholeSeconds(wait, it'.nextAttempt - at / 1_000_000_000)
            && it' == it.(lastError := note, nextAttempt := it'.nextAttempt, updatedAt := at / 1_000_000_000)
  {
  }

  /** A retry is one more attempt, 30 recorded seconds later. */
  lemma RetriedExactly(it: Item, note: Note, at: int)
    ensures RetriedItem(it, note, at)
            == it.(attempts := it.attempts + 1, lastError := note, nextAttempt := at / 1_000_000_000 + 30,
                   updatedAt := at / 1_000_000_000)
  {
  }

  function SentItem(it: Item, at: int): Item {
    it.(status := Sent, updatedAt := Sec(at))
  }

  function RetriedItem(it: Item, note: Note, at: int): Item {
    it.(attempts := it.attempts + 1, lastError := note, nextAttempt := Sec(at) + RETRY_SECONDS, updatedAt := Sec(at))
  }

  function DeferredItem(it: Item, note: Note, wait: int, at: int): Item {
    it.(lastError := note, nextAttempt := Sec(at) + DeferSeconds(wait), updatedAt := Sec(at))
  }

  function FailedItem(it: Item, note: Note, at: int): Item {
    it.(status := Failed, attempts := it.attempts + 1, lastError := note, updatedAt := Sec(at))
  }

  // Each UPDATE ... WHERE id leaves the table alone when the row is missing.

  function MarkedSent(rows: Rows, id: nat, at: int): Rows {
    if id in rows then rows[id := SentItem(rows[id], at)] else rows
  }

  function MarkedRetry(rows: Rows, id: nat, note: Note, at: int): Rows {
    if id in rows then rows[id := RetriedItem(rows[id], note, at)] else rows
  }

  function Deferred(rows: Rows, id: nat, note: Note, wait: int, at: int): Rows {
    if id in rows then rows[id := DeferredItem(rows[id], note, wait, at)] else rows
  }

  function MarkedFailed(rows: Rows, id: nat, note: Note, at: int): Rows {
    if id in rows then rows[id := FailedItem(rows[id], note, at)] else rows
  }

  /** DELETE ... WHERE status='pending' AND id in `ids`. */
  function WithoutPending(rows: Rows, ids: set<nat>): Rows {
    map id | id in rows && !(id in ids && rows[id].status == Pending) :: rows[id]
  }

  predicate OthersKept(rows: Rows, rows': Rows, id: nat) {
    rows'.Keys == rows.Keys && forall other :: other in rows && other != id ==> rows'[other] == rows[other]
  }

  predicate WellKeyed(rows: Rows, nextId: nat) {
    forall id :: id in rows ==> id < nextId && rows[id].id == id
  }

  class QueueRepo {
    var rows: Rows
    var nextId: nat

    ghost predicate Valid()
      reads this
    {
      WellKeyed(rows, nextId)
    }

    constructor ()
      ensures Valid() && rows == map[] && nextId == 1
    {
      rows, nextId := map[], 1;
    }

    /** `ok` is the database's answer: a failed insert changes nothing. */
    method Enqueue(user: int, mailFrom: string, rcptTo: string, data: string, at: int, ok: bool) returns (done: bool)
      requires Valid()
      modifies this
      ensures Valid() && done == ok
      ensures ok ==> rows == old(rows)[old(nextId) := NewItem(old(nextId), user, mailFrom, rcptTo, data, at)]
                     && nextId == old(nextId) + 1
      ensures ok ==>
                var it := rows[old(nextId)];
                && it.user == user && it.mailFrom == mailFrom && it.rcptTo == rcptTo && it.data == data
                && it.status == Pending && it.attempts == 0 && it.nextAttempt == it.createdAt == at / 1_000_000_000
      ensures !ok ==> rows == old(rows) && nextId == old(nextId)
    {
      if !ok {
        return false;
      }
      rows := rows[nextId := NewItem(nextId, user, mailFrom, rcptTo, data, at)];
      nextId := nextId + 1;
      done := true;
    }

    method DequeueBatch(n: nat, now: int) returns (out: seq<Item>)
      requires Valid()
      ensures out == Batch(rows, nextId, n, now)
    {
      out := [];
      for id := 0 to nextId
        invariant |out| <= n
        invariant out + DueFrom(rows, id, nextId, Sec(now)) == DueFrom(rows, 0, nextId, Sec(now))
      {
        if |out| == n {
          return;
        }
        if id in rows && Due(rows[id], Sec(now)) {
          out := out + [rows[id]];
        }
      }
    }

    method MarkSent(id: nat, at: int)
      requires Valid()
      modifies this`rows
      ensures Valid()
      ensures rows == MarkedSent(old(rows), id, at) && OthersKept(old(rows), rows, id)
      ensures id in rows ==> rows[id].status == Sent && rows[id].attempts == old(rows[id].attempts)
    {
      if id in rows {
        rows := rows[id := rows[id].(status := Sent, updatedAt := Sec(at))];
      }
    }

    method MarkRetry(id: nat, note: Note, at: int)
      requires Valid()
      modifies this`rows
      ensures Valid()
      ensures rows == MarkedRetry(old(rows), id, note, at) && OthersKept(old(rows), rows, id)
      ensures id in rows ==> rows[id].attempts == old(rows[id].attempts) + 1
                             && rows[id].nextAttempt == at / 1_000_000_000 + 30 && rows[id].lastError == note
    {
      if id in rows {
        rows := rows[id := rows[id].(attempts := rows[id].attempts + 1, lastError := note,
                                     nextAttempt := Sec(at) + RETRY_SECONDS, updatedAt := Sec(at))];
      }
    }

    method Defer(id: nat, note: Note, wait: int, at: int)
      requires Valid()
      modifies this`rows
      ensures Valid()
      ensures rows == Deferred(old(rows), id, note, wait, at) && OthersKept(old(rows), rows, id)
      ensures id in rows ==> rows[id].attempts == old(rows[id].attempts) && rows[id].lastError == note
                             && WholeSeconds(wait, rows[id].nextAttempt - at / 1_000_000_000)
    {
      var w := wait;
      if w < NANOS_PER_SECOND {
        w := NANOS_PER_SECOND;
      }
      var seconds := w / NANOS_PER_SECOND;
      if id in rows {
        rows := rows[id := rows[id].(lastError := note, nextAttempt := Sec(at) + seconds, updatedAt := Sec(at))];
      }
    }

    method MarkFailed(id: nat, note: Note, at: int)
      requires Valid()
      modifies this`rows
      ensures Valid()
      ensures rows == MarkedFailed(old(rows), id, note, at) && OthersKept(old(rows), rows, id)
      ensures id in rows ==> rows[id].status == Failed && rows[id].attempts == old(rows[id].attempts) + 1
                             && rows[id].lastError == note
    {
      if id in rows {
        rows := rows[id := rows[id].(status := Failed, attempts := rows[id].attempts + 1, lastError := note,
                                     updatedAt := Sec(at))];
      }
    }

    /** `user` <= 0 means every user, here and in the two methods below. */
    method DeletePendingAll(user: int)
      requires Valid()
      modifies this`rows
      ensures Valid()
      ensures rows == WithoutPending(old(rows), set id | id in old(rows) && (user > 0 ==> old(rows)[id].user == user))
    {
      rows := map id | id in rows && !(rows[id].status == Pending && (user > 0 ==> rows[id].user == user)) :: rows[id];
    }

    /** The span is a pair of creation seconds. */
    method DeletePendingDateRange(user: int, from: int, to: int)
      requires Valid()
      modifies this`rows
      ensures Valid()
      ensures rows == WithoutPending(old(rows), set id | id in old(rows) && (user > 0 ==> old(rows)[id].user == user)
                                                         && from <= old(rows)[id].createdAt <= to)
    {
      rows := map id | id in rows && !(rows[id].status == Pending && (user > 0 ==> rows[id].user == user)
                                       && from <= rows[id].createdAt <= to) :: rows[id];
    }

    method DeletePendingSinceDays(user: int, days: int, now: int) returns (ok: bool)
      requires Valid()
      modifies this`rows
      ensures Valid() && ok == (days > 0)
      ensures rows == if !ok then old(rows) else
                WithoutPending(old(rows), set id | id in old(rows) && (user > 0 ==> old(rows)[id].user == user)
                                                   && old(rows)[id].createdAt >= now / 1_000_000_000 - days * 86400)
    {
      if days <= 0 {
        return false;
      }
      rows := map id | id in rows && !(rows[id].status == Pending && (user > 0 ==> rows[id].user == user)
                                       && rows[id].createdAt >= Sec(now) - days * SECONDS_PER_DAY) :: rows[id];
      ok := true;
    }
  }

  // ---- What a batch is ----

  /** `it` is a row of the table as it stands, and due. */
  predicate DueRow(rows: Rows, it: Item, second: int) {
    it.id in rows && rows[it.id] == it && Due(it, second)
  }

  lemma {:induction false} DueFromMembers(rows: Rows, from: nat, end: nat, second: int)
    requires WellKeyed(rows, end)
    ensures var due := DueFrom(rows, from, end, second);
            && (forall it :: it in due ==> from <= it.id && DueRow(rows, it, second))
            && (forall i, j :: 0 <= i < j < |due| ==> due[i].id < due[j].id)
            && (forall id :: id in rows && from <= id && Due(rows[id], second) ==> rows[id] in due)
    decreases end - from
  {
    if from < end {
      DueFromMembers(rows, from + 1, end, second);
      var rest := DueFrom(rows, from + 1, end, second);
      forall id | id in rows && from <= id && Due(rows[id], second)
        ensures rows[id] in DueFrom(rows, from, end, second)
      {
        if id != from {
          assert rows[id] in rest;
        }
      }
    }
  }

  lemma {:induction false} NoneDue(rows: Rows, from: nat, end: nat, second: int)
    requires forall id :: id in rows ==> !Due(rows[id], second)
    ensures DueFrom(rows, from, end, second) == []
    decreases end - from
  {
    if from < end {
      NoneDue(rows, from + 1, end, second);
    }
  }

  /** A batch holds due rows as they stand, in order of id; rows that are due but left out
      come later by id, and none is left out while the batch is short. */
  lemma BatchMembers(rows: Rows, nextId: nat, limit: nat, now: int)
    requires WellKeyed(rows, nextId)
    ensures var batch := Batch(rows, nextId, limit, now);
            && |batch| <= limit
            && (forall it :: it in batch ==> DueRow(rows, it, Sec(now)))
            && (forall i, j :: 0 <= i < j < |batch| ==> batch[i].id < batch[j].id)
            && (forall id :: id in rows && Due(rows[id], Sec(now)) && rows[id] !in batch ==>
                  |batch| == limit && forall i :: 0 <= i < |batch| ==> batch[i].id < id)
  {
    DueFromMembers(rows, 0, nextId, Sec(now));
    var due := DueFrom(rows, 0, nextId, Sec(now));
    var batch := Batch(rows, nextId, limit, now);
    forall id | id in rows && Due(rows[id], Sec(now)) && rows[id] !in batch
      ensures |batch| == limit && forall i :: 0 <= i < |batch| ==> batch[i].id < id
    {
      var k :| 0 <= k < |due| && due[k] == rows[id];
      assert forall m :: 0 <= m < |batch| ==> batch[m] == due[m];
    }
  }
}
