/** mail_events (internal/repo/event_repo.go): an append-only log and the two queries the
    limits are computed from. */
module EventLog {
  import opened Addresses
  import opened Clock
  import opened Options
  import opened Records

  /** What a query selects: a user and, unless "", one domain. */
  datatype Scope = Scope(user: int, domain: string)

  /** The scope a query builds from its raw domain argument. */
  function QueryScope(user: int, domain: string): Scope {
    Scope(user, QueryDomain(domain))
  }

  predicate Matches(e: Event, scope: Scope) {
    e.status == SentEvent && e.user == scope.user && (scope.domain != "" ==> e.domain == scope.domain)
  }

  /** Matching events recorded in seconds from..to. */
  function CountBetween(events: seq<Event>, scope: Scope, from: int, to: int): nat {
    if events == [] then 0
    else
      var e := events[|events| - 1];
      CountBetween(events[..|events| - 1], scope, from, to)
      + if Matches(e, scope) && from <= e.createdAt <= to then 1 else 0
  }

  /** Matching events recorded in second `from` or later. */
  function CountSince(events: seq<Event>, scope: Scope, from: int): nat {
    if events == [] then 0
    else
      var e := events[|events| - 1];
      CountSince(events[..|events| - 1], scope, from) + if Matches(e, scope) && from <= e.createdAt then 1 else 0
  }

  function Later(a: Option<int>, second: int): Option<int> {
    if a.Some? && a.value >= second then a else Some(second)
  }

  /** The greatest second of a matching event. */
  function LastSent(events: seq<Event>, scope: Scope): Option<int> {
    if events == [] then None
    else
      var e := events[|events| - 1];
      var before := LastSent(events[..|events| - 1], scope);
      if Matches(e, scope) then Later(before, e.createdAt) else before
  }

  class MailEventRepo {
    var events: seq<Event>

    constructor ()
      ensures events == []
    {
      events := [];
    }

    method Create(e: Event, at: int)
      modifies this
      ensures events == old(events) + [e.(createdAt := Sec(at))]
    {
      events := events + [e.(createdAt := Sec(at))];
    }

    /** `since` is formatted to whole seconds before it is compared. */
    function CountSentSince(user: int, domain: string, since: int): nat
      reads this
    {
      CountSince(events, QueryScope(user, domain), Sec(since))
    }

    function LastSentAt(user: int, domain: string): Option<int>
      reads this
    {
      LastSent(events, QueryScope(user, domain))
    }
  }

  // ---- Facts about the queries ----

  lemma QueriesAfterAppend(events: seq<Event>, e: Event, scope: Scope)
    ensures LastSent(events + [e], scope)
            == if Matches(e, scope) then Later(LastSent(events, scope), e.createdAt) else LastSent(events, scope)
    ensures forall from :: CountSince(events + [e], scope, from)
              == CountSince(events, scope, from) + if Matches(e, scope) && from <= e.createdAt then 1 else 0
    ensures forall from, to :: CountBetween(events + [e], scope, from, to)
              == CountBetween(events, scope, from, to) + if Matches(e, scope) && from <= e.createdAt <= to then 1 else 0
  {
    assert (events + [e])[..|events|] == events;
  }

  /** Event `i` is a send of the user, to the domain unless that is "". */
  predicate IsSend(events: seq<Event>, user: int, domain: string, i: int) {
    && 0 <= i < |events| && events[i].status == SentEvent && events[i].user == user
    && (domain == "" || events[i].domain == domain)
  }

  /** Places in the log of the sends recorded in second `from` or later. */
  function SendsSince(events: seq<Event>, user: int, domain: string, from: int): set<int> {
    set i | 0 <= i < |events| && IsSend(events, user, domain, i) && events[i].createdAt >= from
  }

  /** The count is the number of sends of the user (to the domain) since the cutoff. */
  lemma {:induction false} CountSinceExactly(events: seq<Event>, user: int, domain: string, from: int)
    ensures CountSince(events, Scope(user, domain), from) == |SendsSince(events, user, domain, from)|
  {
    if events != [] {
      var n := |events| - 1;
      var prior := events[..n];
      CountSinceExactly(prior, user, domain, from);
      assert SendsSince(events, user, domain, from)
          == SendsSince(prior, user, domain, from)
             + if IsSend(events, user, domain, n) && events[n].createdAt >= from then {n} else {};
    } else {
      assert SendsSince(events, user, domain, from) == {};
    }
  }

  /** The last-sent query returns the greatest second of a send of the user (to the domain),
      and nothing only when there is none. */
  lemma {:induction false} LastSentIsMaximum(events: seq<Event>, scope: Scope)
    ensures forall i :: IsSend(events, scope.user, scope.domain, i) ==>
              LastSent(events, scope).Some? && events[i].createdAt <= LastSent(events, scope).value
    ensures LastSent(events, scope).Some? ==>
              exists i :: IsSend(events, scope.user, scope.domain, i)
                          && events[i].createdAt == LastSent(events, scope).value
  {
    if events != [] {
      var prior := events[..|events| - 1];
      LastSentIsMaximum(prior, scope);
      forall i | IsSend(events, scope.user, scope.domain, i)
        ensures LastSent(events, scope).Some? && events[i].createdAt <= LastSent(events, scope).value
      {
        assert i < |prior| ==> IsSend(prior, scope.user, scope.domain, i);
      }
      if LastSent(prior, scope).Some? {
        var i :| IsSend(prior, scope.user, scope.domain, i) && prior[i].createdAt == LastSent(prior, scope).value;
        assert IsSend(events, scope.user, scope.domain, i) && events[i].createdAt == LastSent(prior, scope).value;
      }
      if Matches(events[|events| - 1], scope) {
        assert IsSend(events, scope.user, scope.domain, |events| - 1);
      }
    }
  }

  lemma {:induction false} CountedMeansRecent(events: seq<Event>, scope: Scope, from: int)
    requires CountSince(events, scope, from) > 0
    ensures LastSent(events, scope).Some? && LastSent(events, scope).value >= from
  {
    var prior := events[..|events| - 1];
    if CountSince(prior, scope, from) > 0 {
      CountedMeansRecent(prior, scope, from);
    }
  }

  lemma {:induction false} BetweenIsWithinSince(events: seq<Event>, scope: Scope, from: int, to: int, since: int)
    requires since <= from
    ensures CountBetween(events, scope, from, to) <= CountSince(events, scope, since)
  {
    if events != [] {
      BetweenIsWithinSince(events[..|events| - 1], scope, from, to, since);
    }
  }

  /** A domain query counts the sends to exactly that domain, on every log, just when the
      domain is its own query form: lower case and without surrounding white space. */
  lemma DomainQueryExact(user: int, domain: string)
    requires QueryDomain(domain) != ""
    ensures (forall events, from ::
               CountSince(events, QueryScope(user, domain), from) == |SendsSince(events, user, domain, from)|)
            <==> QueryDomain(domain) == domain
  {
    if QueryDomain(domain) == domain {
      forall events, from
        ensures CountSince(events, QueryScope(user, domain), from) == |SendsSince(events, user, domain, from)|
      {
        CountSinceExactly(events, user, domain, from);
      }
    } else {
      var e := Event(user, "", "", domain, SentEvent, NoNote, 0);
      assert [e][..0] == [];
      assert CountSince([e], QueryScope(user, domain), 0) == 0;
      assert IsSend([e], user, domain, 0) && 0 in SendsSince([e], user, domain, 0);
    }
  }
}
