/** Choice of the upstream account: the per-user round-robin cursor and the exhaustive
    fallback of `deliver` (internal/service/delivery.go:191-239). */
module Rotation {
  /** The cursor as `nextRR` reads it for a list of n accounts. */
  function Cursor(rr: map<int, nat>, user: int, n: nat): (r: nat)
    ensures n > 0 ==> r < n
  {
    if user in rr && rr[user] < n then rr[user] else 0
  }

  function Advanced(rr: map<int, nat>, user: int, n: nat): map<int, nat>
    requires n > 0
  {
    rr[user := Next(Cursor(rr, user, n), n)]
  }

  /** The account after `c` on a ring of n. */
  function Next(c: nat, n: nat): (r: nat)
    requires c < n
    ensures r < n
  {
    if c + 1 == n then 0 else c + 1
  }

  lemma NextIsModulo(c: nat, n: nat)
    requires c < n
    ensures (c + 1) % n == Next(c, n)
  {
  }

  /** 0, 1, ..., n-1 without `skip`. */
  function Others(n: nat, skip: nat): (r: seq<nat>)
    ensures forall i :: 0 <= i < |r| ==> r[i] < n && r[i] != skip
  {
    if n == 0 then [] else Others(n - 1, skip) + if n - 1 == skip then [] else [n - 1]
  }

  /** The accounts in the order `deliver` turns to them. */
  function TryOrder(n: nat, first: nat): (r: seq<nat>)
    requires first < n
    ensures forall i :: 0 <= i < |r| ==> r[i] < n
  {
    [first] + Others(n, first)
  }

  /** The accounts actually tried: up to and including the first that accepts. */
  function Tried(order: seq<nat>, accepts: seq<bool>): (r: seq<nat>)
    requires forall i :: 0 <= i < |order| ==> order[i] < |accepts|
    ensures r <= order && (order != [] ==> r != [])
  {
    if order == [] then []
    else if accepts[order[0]] then [order[0]]
    else [order[0]] + Tried(order[1..], accepts)
  }

  lemma {:induction false} OthersAre(n: nat, skip: nat)
    ensures forall i, j :: 0 <= i < j < |Others(n, skip)| ==> Others(n, skip)[i] < Others(n, skip)[j]
    ensures forall a :: 0 <= a < n && a != skip ==> a in Others(n, skip)
    ensures |Others(n, skip)| == if skip < n then n - 1 else n
  {
    if n > 0 {
      OthersAre(n - 1, skip);
    }
  }

  lemma {:induction false} OthersOfFirst(n: nat)
    requires n > 0
    ensures |Others(n, 0)| == n - 1 && forall i :: 0 <= i < n - 1 ==> Others(n, 0)[i] == i + 1
  {
    if n > 1 {
      OthersOfFirst(n - 1);
    }
  }

  /** `order` is a rearrangement of the accounts 0..n. */
  predicate CoversOnce(order: seq<nat>, n: nat) {
    && |order| == n
    && (forall i :: 0 <= i < |order| ==> order[i] < n)
    && (forall i, j :: 0 <= i < j < |order| ==> order[i] != order[j])
  }

  lemma TryOrderCovers(n: nat, first: nat)
    requires first < n
    ensures CoversOnce(TryOrder(n, first), n)
    ensures forall a :: 0 <= a < n ==> a in TryOrder(n, first)
  {
    OthersAre(n, first);
  }

  lemma {:induction false} TriedStops(order: seq<nat>, accepts: seq<bool>)
    requires order != [] && forall i :: 0 <= i < |order| ==> order[i] < |accepts|
    ensures var tried := Tried(order, accepts);
            && (forall i :: 0 <= i < |tried| - 1 ==> !accepts[tried[i]])
            && (!accepts[tried[|tried| - 1]] ==> tried == order)
  {
    if !accepts[order[0]] && |order| > 1 {
      TriedStops(order[1..], accepts);
    }
  }

  lemma {:induction false} OthersPrefix(i: nat, n: nat, skip: nat)
    requires i <= n
    ensures Others(i, skip) <= Others(n, skip)
    decreases n
  {
    if i < n {
      OthersPrefix(i, n - 1, skip);
    }
  }

  /** A prefix of the order that was refused up to its end, or whose last account alone
      accepted, is what was tried. */
  lemma {:induction false} TriedIs(order: seq<nat>, accepts: seq<bool>, tried: seq<nat>)
    requires forall i :: 0 <= i < |order| ==> order[i] < |accepts|
    requires tried != [] && tried <= order
    requires forall i :: 0 <= i < |tried| - 1 ==> !accepts[tried[i]]
    requires accepts[tried[|tried| - 1]] || tried == order
    ensures Tried(order, accepts) == tried
  {
    if |tried| > 1 {
      TriedIs(order[1..], accepts, tried[1..]);
    }
  }

  /** `tried` is what has been tried, in vain, when the fallback loop reaches account `i`. */
  predicate InVain(tried: seq<nat>, n: nat, first: nat, i: nat, accepts: seq<bool>)
    requires first < n == |accepts| && i <= n
  {
    && tried == [first] + Others(i, first)
    && forall j :: 0 <= j < |tried| ==> tried[j] < n && !accepts[tried[j]]
  }

  lemma InVainNext(tried: seq<nat>, n: nat, first: nat, i: nat, accepts: seq<bool>)
    requires first < n == |accepts| && i < n && i != first && InVain(tried, n, first, i, accepts)
    ensures accepts[i] ==> Tried(TryOrder(n, first), accepts) == tried + [i]
    ensures !accepts[i] ==> InVain(tried + [i], n, first, i + 1, accepts)
  {
    OthersPrefix(i + 1, n, first);
    assert tried + [i] == [first] + Others(i + 1, first);
    if accepts[i] {
      TriedIs(TryOrder(n, first), accepts, tried + [i]);
    }
  }

  lemma InVainSkips(tried: seq<nat>, n: nat, first: nat, accepts: seq<bool>)
    requires first < n == |accepts| && InVain(tried, n, first, first, accepts)
    ensures InVain(tried, n, first, first + 1, accepts)
  {
  }

  lemma InVainStart(n: nat, first: nat, accepts: seq<bool>)
    requires first < n == |accepts|
    ensures accepts[first] ==> Tried(TryOrder(n, first), accepts) == [first]
    ensures !accepts[first] ==> InVain([first], n, first, 0, accepts)
  {
  }

  lemma InVainToTheEnd(tried: seq<nat>, n: nat, first: nat, accepts: seq<bool>)
    requires first < n == |accepts| && InVain(tried, n, first, n, accepts)
    ensures Tried(TryOrder(n, first), accepts) == tried
  {
    TriedIs(TryOrder(n, first), accepts, tried);
  }

  lemma RefusedByAll(n: nat, first: nat, accepts: seq<bool>)
    requires first < n && |accepts| == n
    requires forall a :: a in TryOrder(n, first) ==> !accepts[a]
    ensures forall a :: 0 <= a < n ==> !accepts[a]
  {
    TryOrderCovers(n, first);
  }

  /** What one delivery did with n accounts, `tried` in order. */
  predicate Exhaustive(tried: seq<nat>, accepts: seq<bool>) {
    && tried != []
    && (forall i :: 0 <= i < |tried| ==> tried[i] < |accepts|)
    && (forall i, j :: 0 <= i < j < |tried| ==> tried[i] != tried[j])
    && (forall i :: 0 <= i < |tried| - 1 ==> !accepts[tried[i]])
    && (accepts[tried[|tried| - 1]] <==> exists a :: 0 <= a < |accepts| && accepts[a])
    && (!accepts[tried[|tried| - 1]] ==> |tried| == |accepts|)
  }

  lemma PrefixOfCover(order: seq<nat>, tried: seq<nat>, n: nat)
    requires CoversOnce(order, n) && tried <= order
    ensures forall i :: 0 <= i < |tried| ==> tried[i] < n
    ensures forall i, j :: 0 <= i < j < |tried| ==> tried[i] != tried[j]
  {
    forall i | 0 <= i < |tried| ensures tried[i] == order[i] {
    }
  }

  lemma AllRefused(order: seq<nat>, accepts: seq<bool>)
    requires order != [] && (forall i :: 0 <= i < |order| ==> order[i] < |accepts|)
    requires forall i :: 0 <= i < |order| - 1 ==> !accepts[order[i]]
    requires !accepts[order[|order| - 1]]
    ensures forall a :: a in order ==> !accepts[a]
  {
  }

  /** Each delivery tries no account twice, stops at the first that accepts, and gives up
      only after all n refused. */
  lemma DeliveryIsExhaustive(n: nat, first: nat, accepts: seq<bool>)
    requires first < n && |accepts| == n
    ensures Exhaustive(Tried(TryOrder(n, first), accepts), accepts)
    ensures Tried(TryOrder(n, first), accepts)[0] == first
  {
    var order := TryOrder(n, first);
    var tried := Tried(order, accepts);
    TryOrderCovers(n, first);
    TriedStops(order, accepts);
    PrefixOfCover(order, tried, n);
    if !accepts[tried[|tried| - 1]] {
      AllRefused(order, accepts);
      RefusedByAll(n, first, accepts);
    }
  }

  // ---- Fairness ----

  /** One rotated delivery: whose, and how many accounts the user has at that moment. */
  datatype Turn = Turn(user: int, n: nat)

  predicate Playable(turns: seq<Turn>) {
    forall i :: 0 <= i < |turns| ==> turns[i].n > 0
  }

  /** First choices made for `user` along the turns, those of other users interleaved. */
  function FirstChoices(rr: map<int, nat>, turns: seq<Turn>, user: int): seq<nat>
    requires Playable(turns)
    decreases |turns|
  {
    if turns == [] then []
    else
      (if turns[0].user == user then [Cursor(rr, user, turns[0].n)] else [])
      + FirstChoices(Advanced(rr, turns[0].user, turns[0].n), turns[1..], user)
  }

  /** The cursors after the turns. */
  function AfterTurns(rr: map<int, nat>, turns: seq<Turn>): map<int, nat>
    requires Playable(turns)
    decreases |turns|
  {
    if turns == [] then rr else AfterTurns(Advanced(rr, turns[0].user, turns[0].n), turns[1..])
  }

  lemma {:induction false} ChoicesGoOn(rr: map<int, nat>, a: seq<Turn>, b: seq<Turn>, user: int)
    requires Playable(a) && Playable(b)
    ensures FirstChoices(rr, a + b, user) == FirstChoices(rr, a, user) + FirstChoices(AfterTurns(rr, a), b, user)
    decreases |a|
  {
    if a == [] {
      assert a + b == b;
    } else {
      assert (a + b)[1..] == a[1..] + b;
      ChoicesGoOn(Advanced(rr, a[0].user, a[0].n), a[1..], b, user);
    }
  }

  function Times(choices: seq<nat>, a: nat): nat {
    if choices == [] then 0 else (if choices[0] == a then 1 else 0) + Times(choices[1..], a)
  }

  /** Turns from `c` until the cursor stands on `a`. */
  function Distance(c: nat, a: nat, n: nat): nat
    requires c < n && a < n
  {
    if a >= c then a - c else a - c + n
  }

  /** k steps round a ring of n from c. */
  function Ring(c: nat, n: nat, k: nat): (r: seq<nat>)
    requires c < n
    ensures |r| == k
    decreases k
  {
    if k == 0 then [] else [c] + Ring(Next(c, n), n, k - 1)
  }

  lemma OneRoundMore(q: nat, n: nat)
    requires q > 0 && n > 0
    ensures q * n > 0
  {
  }

  lemma OneRoundLess(q: nat, n: nat)
    requires q * n > 0
    ensures q > 0 && (q - 1) * n + (n - 1) == q * n - 1
  {
  }

  /** k = q*n + t steps visit `a` q times, once more if `a` is among the first t. */
  lemma {:induction false} RingVisits(c: nat, n: nat, k: nat, a: nat, q: nat, t: nat)
    requires c < n && a < n && t < n && k == q * n + t
    ensures Times(Ring(c, n, k), a) == q + if Distance(c, a, n) < t then 1 else 0
    decreases k
  {
    if k == 0 {
      if q > 0 {
        OneRoundMore(q, n);
      }
    } else if t > 0 {
      RingVisits(Next(c, n), n, k - 1, a, q, t - 1);
    } else {
      OneRoundLess(q, n);
      RingVisits(Next(c, n), n, k - 1, a, q - 1, n - 1);
    }
  }

  lemma {:induction false} ChoicesGoRound(rr: map<int, nat>, turns: seq<Turn>, user: int, n: nat)
    requires Playable(turns) && n > 0
    requires forall i :: 0 <= i < |turns| && turns[i].user == user ==> turns[i].n == n
    ensures var choices := FirstChoices(rr, turns, user);
            choices == Ring(Cursor(rr, user, n), n, |choices|)
    decreases |turns|
  {
    if turns != [] {
      ChoicesGoRound(Advanced(rr, turns[0].user, turns[0].n), turns[1..], user, n);
    }
  }

  lemma ModuloWraps(x: nat, n: nat)
    requires n > 0
    ensures (x + n) % n == x % n
  {
    assert x + n == (x / n + 1) * n + x % n;
    assert x + n == (x + n) / n * n + (x + n) % n;
    SameRemainder(x / n + 1, x % n, (x + n) / n, (x + n) % n, n);
  }

  lemma {:induction false} AtLeastOnce(q: nat, n: nat)
    requires q > 0
    ensures q * n >= n
  {
    if q > 1 {
      AtLeastOnce(q - 1, n);
      assert q * n == (q - 1) * n + n;
    }
  }

  lemma SameRemainder(q: int, r: int, p: int, s: int, n: nat)
    requires 0 <= r < n && 0 <= s < n && q * n + r == p * n + s
    ensures r == s
  {
    assert (q - p) * n == q * n - p * n && (p - q) * n == p * n - q * n;
    if q > p {
      AtLeastOnce(q - p, n);
    } else if q < p {
      AtLeastOnce(p - q, n);
    }
  }

  lemma {:induction false} RingAt(c: nat, n: nat, k: nat, i: nat)
    requires c < n && i < k
    ensures Ring(c, n, k)[i] == (c + i) % n
    decreases k
  {
    if i > 0 {
      RingAt(Next(c, n), n, k - 1, i - 1);
      assert Ring(c, n, k)[i] == Ring(Next(c, n), n, k - 1)[i - 1];
      if c + 1 == n {
        ModuloWraps(i - 1, n);
      }
    }
  }

  /** With n accounts, the i-th rotated delivery of a user turns first to the account i places
      after the first one's, whatever other users' deliveries are interleaved. */
  lemma RotationGoesRound(rr: map<int, nat>, turns: seq<Turn>, user: int, n: nat, i: nat)
    requires Playable(turns) && i < |FirstChoices(rr, turns, user)| && n > 0
    requires forall j :: 0 <= j < |turns| && turns[j].user == user ==> turns[j].n == n
    ensures var start := if user in rr && rr[user] < n then rr[user] else 0;
            FirstChoices(rr, turns, user)[i] == (start + i) % n
  {
    var c, k := Cursor(rr, user, n), |FirstChoices(rr, turns, user)|;
    ChoicesGoRound(rr, turns, user, n);
    RingAt(c, n, k, i);
  }

  lemma Quotient(k: nat, n: nat) returns (q: nat, t: nat)
    requires n > 0
    ensures k == q * n + t && t < n
  {
    if k < n {
      q, t := 0, k;
    } else {
      q, t := Quotient(k - n, n);
      q := q + 1;
    }
  }

  /** With n accounts, the rotated deliveries of a user name any two of them first equally
      often, up to one, however other users' deliveries are interleaved. */
  lemma RotationIsFair(rr: map<int, nat>, turns: seq<Turn>, user: int, n: nat, a: nat, b: nat)
    requires Playable(turns) && a < n && b < n
    requires forall i :: 0 <= i < |turns| && turns[i].user == user ==> turns[i].n == n
    ensures var choices := FirstChoices(rr, turns, user);
            -1 <= Times(choices, a) - Times(choices, b) <= 1
  {
    ChoicesGoRound(rr, turns, user, n);
    var k := |FirstChoices(rr, turns, user)|;
    var q, t := Quotient(k, n);
    RingVisits(Cursor(rr, user, n), n, k, a, q, t);
    RingVisits(Cursor(rr, user, n), n, k, b, q, t);
  }

  /** The numbers of accounts a user had at the successive rotated deliveries. */
  function Sizes(turns: seq<Turn>, user: int): seq<nat> {
    if turns == [] then []
    else (if turns[0].user == user then [turns[0].n] else []) + Sizes(turns[1..], user)
  }

  /** Index by index, `a` stays below `b`. */
  predicate Below(a: seq<nat>, b: seq<nat>) {
    |a| == |b| && forall i :: 0 <= i < |a| ==> a[i] < b[i]
  }

  lemma BelowPrepend(x: seq<nat>, a: seq<nat>, y: seq<nat>, b: seq<nat>)
    requires Below(x, y) && Below(a, b)
    ensures Below(x + a, y + b)
  {
  }

  /** Every first choice is a valid index of the list it was made from, even when the
      number of accounts changes between deliveries. */
  lemma {:induction false} ChoicesInRange(rr: map<int, nat>, turns: seq<Turn>, user: int)
    requires Playable(turns)
    ensures Below(FirstChoices(rr, turns, user), Sizes(turns, user))
    decreases |turns|
  {
    if turns != [] {
      var next := Advanced(rr, turns[0].user, turns[0].n);
      ChoicesInRange(next, turns[1..], user);
      var x := if turns[0].user == user then [Cursor(rr, user, turns[0].n)] else [];
      var y := if turns[0].user == user then [turns[0].n] else [];
      BelowPrepend(x, FirstChoices(next, turns[1..], user), y, Sizes(turns[1..], user));
    }
  }
}
