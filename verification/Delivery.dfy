/** What one delivery and one tick of the worker do, as functions of the environment's
    answers (internal/service/delivery.go:46-78, 176-228). */
module Delivery {
  import opened Addresses
  import opened HeaderProperties
  import opened HeaderText
  import opened Options
  import opened Records
  import opened Rotation
  import opened Worker

  /** The environment's answers to one delivery: whether the two lookups work, the
      assigned accounts, and which of them would take the message. */
  datatype DeliverEnv = DeliverEnv(userOk: bool, listOk: bool, accounts: seq<Account>, accepts: seq<bool>)

  predicate WellFormed(env: DeliverEnv) {
    |env.accepts| == |env.accounts|
  }

  /** A message handed to an upstream account. */
  datatype Transmission = Transmission(account: nat, sender: string, rcptTo: string, message: string)

  function SenderFor(it: Item, acc: Account): string {
    if acc.fromEmail != "" then acc.fromEmail else it.mailFrom
  }

  function Offer(it: Item, accounts: seq<Account>, a: nat): Transmission
    requires a < |accounts|
  {
    var sender := SenderFor(it, accounts[a]);
    Transmission(a, sender, it.rcptTo, Rewritten(it.data, sender))
  }

  /** Each transmission goes to the recipient, through the account tried at that point, from
      the account's address if it has one and from the queued sender otherwise. */
  predicate Addressed(it: Item, accounts: seq<Account>, wire: seq<Transmission>) {
    forall i :: 0 <= i < |wire| ==>
      && wire[i].rcptTo == it.rcptTo
      && wire[i].account < |accounts|
      && (accounts[wire[i].account].fromEmail != "" ==> wire[i].sender == accounts[wire[i].account].fromEmail)
      && (accounts[wire[i].account].fromEmail == "" ==> wire[i].sender == it.mailFrom)
  }

  function Offers(it: Item, accounts: seq<Account>, tried: seq<nat>): (wire: seq<Transmission>)
    requires forall i :: 0 <= i < |tried| ==> tried[i] < |accounts|
    ensures |wire| == |tried| && forall i :: 0 <= i < |tried| ==> wire[i] == Offer(it, accounts, tried[i])
    ensures Addressed(it, accounts, wire)
  {
    seq(|tried|, i requires 0 <= i < |tried| => Offer(it, accounts, tried[i]))
  }

  lemma OffersAppend(it: Item, accounts: seq<Account>, tried: seq<nat>, a: nat)
    requires a < |accounts| && forall i :: 0 <= i < |tried| ==> tried[i] < |accounts|
    ensures Offers(it, accounts, tried + [a]) == Offers(it, accounts, tried) + [Offer(it, accounts, a)]
  {
  }

  /** There is somebody to deliver through. */
  predicate Deliverable(cfg: Config, it: Item, env: DeliverEnv) {
    env.userOk && it.user in cfg.users && env.listOk && env.accounts != []
  }

  function FirstChoice(cfg: Config, rr: map<int, nat>, it: Item, env: DeliverEnv): (r: nat)
    requires Deliverable(cfg, it, env)
    ensures r < |env.accounts|
  {
    if cfg.users[it.user].rotationOn then Cursor(rr, it.user, |env.accounts|) else 0
  }

  function TriedBy(cfg: Config, rr: map<int, nat>, it: Item, env: DeliverEnv): (tried: seq<nat>)
    requires WellFormed(env)
    ensures forall i :: 0 <= i < |tried| ==> tried[i] < |env.accounts|
  {
    if !Deliverable(cfg, it, env) then []
    else Tried(TryOrder(|env.accounts|, FirstChoice(cfg, rr, it, env)), env.accepts)
  }

  /** The account that took the message, if any did. */
  function TakerOf(tried: seq<nat>, accepts: seq<bool>): Option<nat>
    requires forall i :: 0 <= i < |tried| ==> tried[i] < |accepts|
  {
    if tried != [] && accepts[tried[|tried| - 1]] then Some(tried[|tried| - 1]) else None
  }

  function Taker(cfg: Config, rr: map<int, nat>, it: Item, env: DeliverEnv): Option<nat>
    requires WellFormed(env)
  {
    TakerOf(TriedBy(cfg, rr, it, env), env.accepts)
  }

  function RotatedBy(cfg: Config, rr: map<int, nat>, it: Item, env: DeliverEnv): map<int, nat> {
    if Deliverable(cfg, it, env) && cfg.users[it.user].rotationOn then Advanced(rr, it.user, |env.accounts|) else rr
  }

  /** A message is taken exactly when it is deliverable and some account would take it,
      whatever the cursor; then by one account, the last one tried. */
  lemma TakenIffPossible(cfg: Config, rr: map<int, nat>, it: Item, env: DeliverEnv)
    requires WellFormed(env)
    ensures Taker(cfg, rr, it, env).Some?
            <==> Deliverable(cfg, it, env) && exists a :: 0 <= a < |env.accepts| && env.accepts[a]
    ensures Deliverable(cfg, it, env) ==> Exhaustive(TriedBy(cfg, rr, it, env), env.accepts)
  {
    if Deliverable(cfg, it, env) {
      DeliveryIsExhaustive(|env.accounts|, FirstChoice(cfg, rr, it, env), env.accepts);
      ExhaustiveTaker(TriedBy(cfg, rr, it, env), env.accepts);
    }
  }

  lemma ExhaustiveTaker(tried: seq<nat>, accepts: seq<bool>)
    requires Exhaustive(tried, accepts)
    ensures TakerOf(tried, accepts).Some? <==> exists a :: 0 <= a < |accepts| && accepts[a]
  {
  }

  // ---- One delivery written out ----

  /** Accounts are tried from `first` on, then the others in their order, each once, up to the
      first that accepts; all of them when none does. */
  predicate TriedInOrder(tried: seq<nat>, first: nat, accepts: seq<bool>) {
    && tried != [] && tried[0] == first && |tried| <= |accepts|
    && (forall i :: 0 <= i < |tried| ==> tried[i] < |accepts|)
    && (forall i, j :: 1 <= i < j < |tried| ==> tried[i] < tried[j])
    && (forall i :: 1 <= i < |tried| ==> tried[i] != first)
    && (first == 0 ==> forall i :: 0 <= i < |tried| ==> tried[i] == i)
    && (forall i :: 0 <= i < |tried| - 1 ==> !accepts[tried[i]])
    && (!accepts[tried[|tried| - 1]] ==> |tried| == |accepts|)
  }

  lemma OrderOfTrying(n: nat, first: nat, accepts: seq<bool>)
    requires first < n == |accepts|
    ensures TriedInOrder(Tried(TryOrder(n, first), accepts), first, accepts)
  {
    OthersAre(n, first);
    OthersOfFirst(n);
    DeliveryIsExhaustive(n, first, accepts);
    var tried, order := Tried(TryOrder(n, first), accepts), TryOrder(n, first);
    forall i | 0 <= i < |tried| ensures tried[i] == order[i] {
    }
  }

  /** The accounts a message was handed to, in order. */
  function AccountsOf(wire: seq<Transmission>): (accounts: seq<nat>)
    ensures |accounts| == |wire| && forall i :: 0 <= i < |wire| ==> accounts[i] == wire[i].account
  {
    seq(|wire|, i requires 0 <= i < |wire| => wire[i].account)
  }

  /** The account a delivery begins with: the cursor when the user rotates, the first account
      when not. */
  function Beginning(cfg: Config, rr: map<int, nat>, user: int, n: nat): nat
    requires user in cfg.users
  {
    if cfg.users[user].rotationOn && user in rr && rr[user] < n then rr[user] else 0
  }

  /** What a delivery puts on the wire: nothing when there is nobody to deliver through;
      otherwise the message for the recipient, through the accounts in order. */
  lemma DeliveryWrittenOut(cfg: Config, rr: map<int, nat>, it: Item, env: DeliverEnv)
    requires WellFormed(env)
    ensures var wire := Offers(it, env.accounts, TriedBy(cfg, rr, it, env)); var n := |env.accounts|;
            && Addressed(it, env.accounts, wire)
            && if env.userOk && it.user in cfg.users && env.listOk && n > 0
               then TriedInOrder(AccountsOf(wire), Beginning(cfg, rr, it.user, n), env.accepts)
               else wire == []
  {
    var tried := TriedBy(cfg, rr, it, env);
    assert AccountsOf(Offers(it, env.accounts, tried)) == tried;
    if Deliverable(cfg, it, env) {
      OrderOfTrying(|env.accounts|, FirstChoice(cfg, rr, it, env), env.accepts);
    }
  }

  // ---- One tick ----

  /** Everything the environment answers while one item is handled. */
  datatype ItemEnv = ItemEnv(check: CheckEnv, deliver: DeliverEnv, writeAt: int, logAt: int)

  predicate AllWellFormed(envs: seq<ItemEnv>) {
    forall i :: 0 <= i < |envs| ==> WellFormed(envs[i].deliver)
  }

  function Handled(cfg: Config, db: Db, rr: map<int, nat>, it: Item, env: ItemEnv): (Db, map<int, nat>)
    requires WellFormed(env.deliver)
  {
    var checked := Checked(cfg, db, it, env.check);
    if ResultOf(VerdictOn(cfg, db, it, env.check), env.check.faults) != Cleared then (checked, rr)
    else
      (Finished(checked, it, Taker(cfg, rr, it, env.deliver).Some?, env.writeAt, env.logAt),
       RotatedBy(cfg, rr, it, env.deliver))
  }

  function HandledAll(cfg: Config, db: Db, rr: map<int, nat>, batch: seq<Item>, envs: seq<ItemEnv>): (Db, map<int, nat>)
    requires |batch| <= |envs| && AllWellFormed(envs)
    decreases |batch|
  {
    if batch == [] then (db, rr)
    else
      var (db', rr') := Handled(cfg, db, rr, batch[0], envs[0]);
      HandledAll(cfg, db', rr', batch[1..], envs[1..])
  }

  // ---- Rotation along a tick ----

  predicate Rotates(cfg: Config, db: Db, it: Item, env: ItemEnv) {
    && ResultOf(VerdictOn(cfg, db, it, env.check), env.check.faults) == Cleared
    && Deliverable(cfg, it, env.deliver) && cfg.users[it.user].rotationOn
  }

  /** The rotated deliveries of a batch, as turns. */
  function TurnsOf(cfg: Config, db: Db, rr: map<int, nat>, batch: seq<Item>, envs: seq<ItemEnv>): (turns: seq<Turn>)
    requires |batch| <= |envs| && AllWellFormed(envs)
    ensures Playable(turns)
    decreases |batch|
  {
    if batch == [] then []
    else
      var (db', rr') := Handled(cfg, db, rr, batch[0], envs[0]);
      (if Rotates(cfg, db, batch[0], envs[0]) then [Turn(batch[0].user, |envs[0].deliver.accounts|)] else [])
      + TurnsOf(cfg, db', rr', batch[1..], envs[1..])
  }

  /** The accounts that the rotated deliveries of `user` in a batch turn to first. */
  function FirstTried(cfg: Config, db: Db, rr: map<int, nat>, batch: seq<Item>, envs: seq<ItemEnv>, user: int): seq<nat>
    requires |batch| <= |envs| && AllWellFormed(envs)
    decreases |batch|
  {
    if batch == [] then []
    else
      var (db', rr') := Handled(cfg, db, rr, batch[0], envs[0]);
      (if Rotates(cfg, db, batch[0], envs[0]) && batch[0].user == user
       then TriedBy(cfg, rr, batch[0], envs[0].deliver)[..1] else [])
      + FirstTried(cfg, db', rr', batch[1..], envs[1..], user)
  }

  lemma {:induction false} BatchTakesTurns(cfg: Config, db: Db, rr: map<int, nat>, batch: seq<Item>,
                                           envs: seq<ItemEnv>, user: int)
    requires |batch| <= |envs| && AllWellFormed(envs)
    ensures FirstTried(cfg, db, rr, batch, envs, user) == FirstChoices(rr, TurnsOf(cfg, db, rr, batch, envs), user)
    decreases |batch|
  {
    if batch != [] {
      var (db', rr') := Handled(cfg, db, rr, batch[0], envs[0]);
      BatchTakesTurns(cfg, db', rr', batch[1..], envs[1..], user);
      if Rotates(cfg, db, batch[0], envs[0]) {
        var n := |envs[0].deliver.accounts|;
        DeliveryIsExhaustive(n, FirstChoice(cfg, rr, batch[0], envs[0].deliver), envs[0].deliver.accepts);
        var rest := TurnsOf(cfg, db', rr', batch[1..], envs[1..]);
        var turns := TurnsOf(cfg, db, rr, batch, envs);
        assert turns == [Turn(batch[0].user, n)] + rest;
        assert turns[0] == Turn(batch[0].user, n) && turns[1..] == rest;
        assert rr' == Advanced(rr, batch[0].user, n);
        var tried := TriedBy(cfg, rr, batch[0], envs[0].deliver);
        assert tried[..1] == [tried[0]] && tried[0] == Cursor(rr, batch[0].user, n);
        assert FirstChoices(rr, turns, user)
            == (if batch[0].user == user then [Cursor(rr, user, n)] else []) + FirstChoices(rr', rest, user);
      } else {
        assert TurnsOf(cfg, db, rr, batch, envs) == TurnsOf(cfg, db', rr', batch[1..], envs[1..]);
      }
    }
  }

  lemma {:induction false} TurnSizes(cfg: Config, db: Db, rr: map<int, nat>, batch: seq<Item>, envs: seq<ItemEnv>,
                                     user: int, n: nat)
    requires |batch| <= |envs| && AllWellFormed(envs)
    requires forall i :: 0 <= i < |batch| && batch[i].user == user ==> |envs[i].deliver.accounts| == n
    ensures forall t :: t in TurnsOf(cfg, db, rr, batch, envs) && t.user == user ==> t.n == n
    decreases |batch|
  {
    if batch != [] {
      var (db', rr') := Handled(cfg, db, rr, batch[0], envs[0]);
      TurnSizes(cfg, db', rr', batch[1..], envs[1..], user, n);
    }
  }

  lemma {:induction false} BatchAdvances(cfg: Config, db: Db, rr: map<int, nat>, batch: seq<Item>, envs: seq<ItemEnv>)
    requires |batch| <= |envs| && AllWellFormed(envs)
    ensures HandledAll(cfg, db, rr, batch, envs).1 == AfterTurns(rr, TurnsOf(cfg, db, rr, batch, envs))
    decreases |batch|
  {
    if batch != [] {
      var (db', rr') := Handled(cfg, db, rr, batch[0], envs[0]);
      BatchAdvances(cfg, db', rr', batch[1..], envs[1..]);
      var rest := TurnsOf(cfg, db', rr', batch[1..], envs[1..]);
      if Rotates(cfg, db, batch[0], envs[0]) {
        var turn := Turn(batch[0].user, |envs[0].deliver.accounts|);
        assert ([turn] + rest)[1..] == rest;
      } else {
        assert [] + rest == rest;
      }
    }
  }

  // ---- Rotation over any number of ticks ----

  /** One tick: the tables as it finds them, its batch and the environment's answers. */
  datatype TickInput = TickInput(db: Db, batch: seq<Item>, envs: seq<ItemEnv>)

  predicate Ready(tick: TickInput) {
    |tick.batch| <= |tick.envs| && AllWellFormed(tick.envs)
  }

  predicate AllReady(ticks: seq<TickInput>) {
    forall i :: 0 <= i < |ticks| ==> Ready(ticks[i])
  }

  /** The accounts that a user's rotated deliveries turn to first, along ticks that hand on
      the cursors they leave. */
  function FirstTriedIn(cfg: Config, rr: map<int, nat>, ticks: seq<TickInput>, user: int): seq<nat>
    requires AllReady(ticks)
    decreases |ticks|
  {
    if ticks == [] then []
    else
      var t := ticks[0];
      FirstTried(cfg, t.db, rr, t.batch, t.envs, user)
      + FirstTriedIn(cfg, HandledAll(cfg, t.db, rr, t.batch, t.envs).1, ticks[1..], user)
  }

  function TurnsIn(cfg: Config, rr: map<int, nat>, ticks: seq<TickInput>): (turns: seq<Turn>)
    requires AllReady(ticks)
    ensures Playable(turns)
    decreases |ticks|
  {
    if ticks == [] then []
    else
      var t := ticks[0];
      TurnsOf(cfg, t.db, rr, t.batch, t.envs)
      + TurnsIn(cfg, HandledAll(cfg, t.db, rr, t.batch, t.envs).1, ticks[1..])
  }

  lemma {:induction false} TicksTakeTurns(cfg: Config, rr: map<int, nat>, ticks: seq<TickInput>, user: int)
    requires AllReady(ticks)
    ensures FirstTriedIn(cfg, rr, ticks, user) == FirstChoices(rr, TurnsIn(cfg, rr, ticks), user)
    decreases |ticks|
  {
    if ticks != [] {
      var t := ticks[0];
      var next := HandledAll(cfg, t.db, rr, t.batch, t.envs).1;
      BatchTakesTurns(cfg, t.db, rr, t.batch, t.envs, user);
      BatchAdvances(cfg, t.db, rr, t.batch, t.envs);
      TicksTakeTurns(cfg, next, ticks[1..], user);
      ChoicesGoOn(rr, TurnsOf(cfg, t.db, rr, t.batch, t.envs), TurnsIn(cfg, next, ticks[1..]), user);
    }
  }

  /** The user has n accounts at every delivery of the tick. */
  predicate ConstantAccounts(tick: TickInput, user: int, n: nat)
    requires Ready(tick)
  {
    forall i :: 0 <= i < |tick.batch| && tick.batch[i].user == user ==> |tick.envs[i].deliver.accounts| == n
  }

  lemma {:induction false} TurnSizesIn(cfg: Config, rr: map<int, nat>, ticks: seq<TickInput>, user: int, n: nat)
    requires AllReady(ticks) && forall i :: 0 <= i < |ticks| ==> ConstantAccounts(ticks[i], user, n)
    ensures forall t :: t in TurnsIn(cfg, rr, ticks) && t.user == user ==> t.n == n
    decreases |ticks|
  {
    if ticks != [] {
      var t := ticks[0];
      assert ConstantAccounts(t, user, n);
      TurnSizes(cfg, t.db, rr, t.batch, t.envs, user, n);
      TurnSizesIn(cfg, HandledAll(cfg, t.db, rr, t.batch, t.envs).1, ticks[1..], user, n);
    }
  }

  /** Over any sequence of ticks, the rotated deliveries of a user with n accounts turn first
      to any two of them equally often, up to one. */
  lemma TicksAreFair(cfg: Config, rr: map<int, nat>, ticks: seq<TickInput>, user: int, n: nat,
                     a: nat, b: nat)
    requires AllReady(ticks) && (forall i :: 0 <= i < |ticks| ==> ConstantAccounts(ticks[i], user, n)) && a < n && b < n
    ensures var firsts := FirstTriedIn(cfg, rr, ticks, user);
            -1 <= Times(firsts, a) - Times(firsts, b) <= 1
  {
    TicksTakeTurns(cfg, rr, ticks, user);
    TurnSizesIn(cfg, rr, ticks, user, n);
    RotationIsFair(rr, TurnsIn(cfg, rr, ticks), user, n, a, b);
  }

  /** And the i-th of them begins i places after the first. */
  lemma TicksGoRound(cfg: Config, rr: map<int, nat>, ticks: seq<TickInput>, user: int, n: nat, i: nat)
    requires AllReady(ticks) && (forall j :: 0 <= j < |ticks| ==> ConstantAccounts(ticks[j], user, n)) && n > 0
    requires i < |FirstTriedIn(cfg, rr, ticks, user)|
    ensures var start := if user in rr && rr[user] < n then rr[user] else 0;
            FirstTriedIn(cfg, rr, ticks, user)[i] == (start + i) % n
  {
    TicksTakeTurns(cfg, rr, ticks, user);
    TurnSizesIn(cfg, rr, ticks, user, n);
    RotationGoesRound(rr, TurnsIn(cfg, rr, ticks), user, n, i);
  }

  // ---- What an upstream account is given ----

  /** The envelope sender is the account's address when it has one and the queued sender
      otherwise, the recipient is the queued one.  Read back as bytes, the first From line of
      what the account gets is that sender's exactly when the sender has no line break and is
      not empty with an empty line in the message, or that line was there already; and no
      other line changed exactly when every other line is 7-bit. */
  lemma AccountSenderForced(it: Item, accounts: seq<Account>, a: nat)
    requires a < |accounts|
    ensures var offer := Offer(it, accounts, a);
            var address := if accounts[a].fromEmail != "" then accounts[a].fromEmail else it.mailFrom;
            var before, after := RawLines(it.data), RawLines(offer.message);
            && offer.account == a && offer.sender == address && offer.rcptTo == it.rcptTo
            && (SenderFirst(after, address)
                <==> NoBreaks(TrimSpace(address))
                     && ((address != "" && HasHeaderEnd(it.data)) || SenderFirst(before, address)))
            && (address != "" ==>
                  (LocallyRewritten(before, after, address)
                   <==> HasHeaderEnd(it.data) && NoBreaks(TrimSpace(address)) && AllPlain(KeptLines(it.data))))
            && (address == "" ==> offer.message == it.data)
  {
    var address := if accounts[a].fromEmail != "" then accounts[a].fromEmail else it.mailFrom;
    SenderForcedExactly(it.data, address);
    if address != "" {
      RewritingIsLocal(it.data, address);
    }
  }
}
