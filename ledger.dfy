/** The `portfolio` table as a value: a finite map from (user_id, symbol) to
    a share quantity, and the meaning of each SQL statement the commands run
    against it. The class in module PortfolioCog applies these in place. */
module Ledger {
  import opened Symbols

  /** A Discord user id (BIGINT column). */
  type UserId = int

  /** The primary key (user_id, symbol). */
  type Key = (UserId, string)

  /** The whole table; a map, so a key occurs at most once. */
  type Table = map<Key, real>

  /** The key a command addresses: the symbol is upper-cased first. */
  function KeyOf(user: UserId, symbol: string): (k: Key)
    ensures k.0 == user && IsNormalized(k.1)
    ensures EqualIgnoringCase(k.1, symbol)
  {
    UpperNormalizes(symbol);
    UpperNormalizes(Upper(symbol));
    UpperEqualIff(Upper(symbol), symbol);
    (user, Upper(symbol))
  }

  /** Shares stored under `k`, zero when there is no row. */
  function Held(t: Table, k: Key): real
  {
    if k in t then t[k] else 0.0
  }

  /** Every stored row has a strictly positive quantity. */
  predicate AllPositive(t: Table)
  {
    forall k :: k in t ==> t[k] > 0.0
  }

  /** Every stored symbol is in upper-case form. */
  predicate AllNormalized(t: Table)
  {
    forall k :: k in t ==> IsNormalized(k.1)
  }

  /** `r` agrees with `t` on every key except `key`. */
  ghost predicate SameExcept(t: Table, r: Table, key: Key)
  {
    forall k :: k != key ==> (k in r <==> k in t) && (k in r ==> r[k] == t[k])
  }

  /** The symbols held by `user`. */
  function HoldingsOf(t: Table, user: UserId): (s: set<string>)
    ensures forall sym :: sym in s <==> (user, sym) in t
  {
    set k | k in t && k.0 == user :: k.1
  }

  /** INSERT ... ON CONFLICT (user_id, symbol) DO UPDATE SET
      shares = portfolio.shares + EXCLUDED.shares: the key ends up holding what
      it held before (nothing, if absent) plus `amount`; no other row moves.
      The amount is not validated. */
  function Bought(t: Table, user: UserId, symbol: string, amount: real): (r: Table)
    ensures KeyOf(user, symbol) in r
    ensures r[KeyOf(user, symbol)] == Held(t, KeyOf(user, symbol)) + amount
    ensures SameExcept(t, r, KeyOf(user, symbol))
  {
    var key := KeyOf(user, symbol);
    if key in t then t[key := t[key] + amount] else t[key := amount]
  }

  /** DELETE FROM portfolio WHERE shares <= 0, over the whole table. */
  function Swept(t: Table): (r: Table)
    ensures forall k :: k in r <==> k in t && t[k] > 0.0
    ensures forall k :: k in r ==> r[k] == t[k]
    ensures AllPositive(r)
  {
    map k | k in t && t[k] > 0.0 :: t[k]
  }

  /** Outcome of the sell command on the table. */
  datatype SellResult = NotEnoughShares | Sold(table: Table)

  /** The sell command: rejected, with nothing changed, when the key is absent
      or holds fewer than `amount` shares; otherwise the key is decremented by
      `amount` and then every row of the table with shares <= 0 is deleted. */
  function SellOn(t: Table, user: UserId, symbol: string, amount: real): (r: SellResult)
    ensures r.NotEnoughShares? <==> KeyOf(user, symbol) !in t || t[KeyOf(user, symbol)] < amount
    ensures r.Sold? ==> AllPositive(r.table) && r.table.Keys <= t.Keys
    ensures r.Sold? ==>
      var key := KeyOf(user, symbol);
      && (key in r.table <==> t[key] - amount > 0.0)
      && (key in r.table ==> r.table[key] == t[key] - amount)
    ensures r.Sold? ==> forall k :: k != KeyOf(user, symbol) && k in t ==>
      (k in r.table <==> t[k] > 0.0) && (k in r.table ==> r.table[k] == t[k])
  {
    var key := KeyOf(user, symbol);
    if key !in t || t[key] < amount then NotEnoughShares
    else Sold(Swept(t[key := t[key] - amount]))
  }

  /** DELETE FROM portfolio WHERE user_id = $1. */
  function Reset(t: Table, user: UserId): (r: Table)
    ensures forall k :: k in r <==> k in t && k.0 != user
    ensures forall k :: k in r ==> r[k] == t[k]
  {
    map k | k in t && k.0 != user :: t[k]
  }

  // ---------------------------------------------------------------------
  // Properties of single commands

  /** Buying a positive amount keeps every row positive; a non-positive buy
      is accepted as well and may store a row with shares <= 0. */
  lemma BuyKeepsPositive(t: Table, user: UserId, symbol: string, amount: real)
    requires AllPositive(t) && amount > 0.0
    ensures AllPositive(Bought(t, user, symbol, amount))
  {
  }

  lemma BuyNonPositiveStoresNonPositiveRow(t: Table, user: UserId, symbol: string, amount: real)
    requires KeyOf(user, symbol) !in t && amount <= 0.0
    ensures var r := Bought(t, user, symbol, amount);
      KeyOf(user, symbol) in r && r[KeyOf(user, symbol)] <= 0.0
  {
  }

  /** Selling exactly the quantity held removes the row. */
  lemma SellAllRemovesKey(t: Table, user: UserId, symbol: string)
    requires KeyOf(user, symbol) in t
    ensures var r := SellOn(t, user, symbol, t[KeyOf(user, symbol)]);
      r.Sold? && KeyOf(user, symbol) !in r.table
  {
  }

  /** The cleanup after a successful sell is table-wide: a row of another
      user whose shares are <= 0 (left by a non-positive buy) is deleted too. */
  lemma SellSweepsOtherRows(t: Table, user: UserId, symbol: string, amount: real, other: Key)
    requires SellOn(t, user, symbol, amount).Sold?
    requires other != KeyOf(user, symbol) && other in t && t[other] <= 0.0
    ensures other !in SellOn(t, user, symbol, amount).table
  {
  }

  /** On a table whose rows are all positive the sweep deletes nothing but
      the sold key when it reaches zero: every other row is kept. */
  lemma SellOnPositiveTableIsKeyScoped(t: Table, user: UserId, symbol: string, amount: real)
    requires AllPositive(t) && SellOn(t, user, symbol, amount).Sold?
    ensures SameExcept(t, SellOn(t, user, symbol, amount).table, KeyOf(user, symbol))
  {
  }

  /** Buying an amount and then selling the same amount gives back the table,
      whatever the amount, as long as every row was positive to begin with. */
  lemma BuyThenSellRestores(t: Table, user: UserId, symbol: string, amount: real)
    requires AllPositive(t)
    ensures SellOn(Bought(t, user, symbol, amount), user, symbol, amount) == Sold(t)
  {
    var key := KeyOf(user, symbol);
    var b := Bought(t, user, symbol, amount);
    var r := SellOn(b, user, symbol, amount);
    assert r.Sold?;
    forall k | k in t
      ensures k in r.table && r.table[k] == t[k]
    {
      if k == key {
        assert b[key] - amount == t[key];
      }
    }
    assert r.table.Keys == t.Keys;
  }

  /** Resetting removes the user's rows only, and a second reset changes
      nothing. */
  lemma ResetIdempotent(t: Table, user: UserId)
    ensures HoldingsOf(Reset(t, user), user) == {}
    ensures Reset(Reset(t, user), user) == Reset(t, user)
  {
    var once := Reset(t, user);
    var twice := Reset(once, user);
    assert twice.Keys == once.Keys;
  }

  // ---------------------------------------------------------------------
  // Sequences of commands

  /** One chat command that changes the table. */
  datatype Command =
    | Buy(user: UserId, symbol: string, amount: real)
    | Sell(user: UserId, symbol: string, amount: real)
    | ResetPortfolio(user: UserId)

  /** The table after one command; a rejected sell leaves it unchanged. */
  function Apply(t: Table, c: Command): Table
  {
    match c
    case Buy(u, s, a) => Bought(t, u, s, a)
    case Sell(u, s, a) =>
      (match SellOn(t, u, s, a)
       case NotEnoughShares => t
       case Sold(r) => r)
    case ResetPortfolio(u) => Reset(t, u)
  }

  /** The table after the commands, applied in order. */
  function Run(t: Table, cs: seq<Command>): Table
    decreases |cs|
  {
    if cs == [] then t else Run(Apply(t, cs[0]), cs[1..])
  }

  /** The change a command makes to its own key's quantity: the amount of a
      buy, minus the amount of an accepted sell, nothing otherwise. */
  function Step(t: Table, c: Command): real
  {
    match c
    case Buy(_, _, a) => a
    case Sell(u, s, a) => if SellOn(t, u, s, a).Sold? then -a else 0.0
    case ResetPortfolio(_) => 0.0
  }

  /** The sum of `Step` along the run of `cs` from `t`. */
  function Net(t: Table, cs: seq<Command>): real
    decreases |cs|
  {
    if cs == [] then 0.0 else Step(t, cs[0]) + Net(Apply(t, cs[0]), cs[1..])
  }

  /** `c` is a buy or a sell addressing key `k`. */
  predicate TradesOn(c: Command, k: Key)
  {
    (c.Buy? || c.Sell?) && KeyOf(c.user, c.symbol) == k
  }

  /** One buy or sell moves its key's quantity by exactly its `Step`: an
      accepted sell leaves `shares - amount >= 0`, and the sweep deletes the
      key only when that is exactly 0. */
  lemma TradeStep(t: Table, c: Command, k: Key)
    requires TradesOn(c, k)
    ensures Held(Apply(t, c), k) == Held(t, k) + Step(t, c)
  {
  }

  /** For any sequence of buys and sells on one key, the stored quantity is
      what it was plus the buy amounts minus the accepted sell amounts;
      rejected sells add nothing. */
  lemma {:induction false} SingleKeyAccounting(t: Table, cs: seq<Command>, k: Key)
    requires forall i :: 0 <= i < |cs| ==> TradesOn(cs[i], k)
    ensures Held(Run(t, cs), k) == Held(t, k) + Net(t, cs)
    decreases |cs|
  {
    if cs != [] {
      TradeStep(t, cs[0], k);
      assert forall i :: 0 <= i < |cs[1..]| ==> TradesOn(cs[1..][i], k) by {
        forall i | 0 <= i < |cs[1..]|
          ensures TradesOn(cs[1..][i], k)
        {
          assert cs[1..][i] == cs[i + 1];
        }
      }
      SingleKeyAccounting(Apply(t, cs[0]), cs[1..], k);
    }
  }

  /** Commands on other keys can break that accounting: another user's
      non-positive buy leaves a row that a sell of an unrelated key sweeps, so
      the buy's -5 is lost and the key holds 0. */
  lemma SweepBreaksAccounting()
    ensures var t := map[(1, "AAPL") := 10.0];
      var cs := [Buy(2, "MSFT", -5.0), Sell(1, "AAPL", 1.0)];
      && Held(Run(t, cs), (2, "MSFT")) == 0.0
      && Held(t, (2, "MSFT")) + Step(t, cs[0]) == -5.0
  {
    UpperNormalizes("AAPL");
    UpperNormalizes("MSFT");
    var t := map[(1, "AAPL") := 10.0];
    var cs := [Buy(2, "MSFT", -5.0), Sell(1, "AAPL", 1.0)];
    var t1 := Apply(t, cs[0]);
    assert t1 == map[(1, "AAPL") := 10.0, (2, "MSFT") := -5.0];
    var t2 := Apply(t1, cs[1]);
    assert (2, "MSFT") !in t2;
    assert Run(t, cs) == Run(t1, cs[1..]);
    assert cs[1..][1..] == [];
    assert Run(t1, cs[1..]) == t2;
  }

  /** No buy in `cs` has a non-positive amount. */
  predicate BuysPositive(cs: seq<Command>)
  {
    forall i :: 0 <= i < |cs| && cs[i].Buy? ==> cs[i].amount > 0.0
  }

  /** Every command keeps the stored symbols in upper-case form. */
  lemma ApplyKeepsNormalized(t: Table, c: Command)
    requires AllNormalized(t)
    ensures AllNormalized(Apply(t, c))
  {
  }

  /** As long as every buy is for a positive amount, no sequence of commands
      can leave a row with shares <= 0 in a table that had none. */
  lemma {:induction false} RunKeepsPositive(t: Table, cs: seq<Command>)
    requires AllPositive(t) && BuysPositive(cs)
    ensures AllPositive(Run(t, cs))
    decreases |cs|
  {
    if cs != [] {
      var next := Apply(t, cs[0]);
      match cs[0] {
        case Buy(u, s, a) =>
          assert cs[0].amount > 0.0;
          BuyKeepsPositive(t, u, s, a);
        case Sell(u, s, a) =>
        case ResetPortfolio(u) =>
      }
      assert BuysPositive(cs[1..]) by {
        forall i | 0 <= i < |cs[1..]| && cs[1..][i].Buy?
          ensures cs[1..][i].amount > 0.0
        {
          assert cs[1..][i] == cs[i + 1];
        }
      }
      RunKeepsPositive(next, cs[1..]);
    }
  }

  /** A user's rows under other users' commands: no row is added or changed,
      and every positive row survives. A row with shares <= 0 may vanish, as
      an accepted sell by anyone sweeps the whole table. */
  lemma {:induction false} OthersOnlySweepRows(t: Table, cs: seq<Command>, user: UserId)
    requires forall i :: 0 <= i < |cs| ==> cs[i].user != user
    ensures forall sym :: (user, sym) in Run(t, cs) ==>
      (user, sym) in t && Run(t, cs)[(user, sym)] == t[(user, sym)]
    ensures forall sym :: (user, sym) in t && t[(user, sym)] > 0.0 ==>
      (user, sym) in Run(t, cs) && Run(t, cs)[(user, sym)] == t[(user, sym)]
    decreases |cs|
  {
    if cs != [] {
      var next := Apply(t, cs[0]);
      assert cs[0].user != user;
      assert forall sym :: (user, sym) in next ==>
        (user, sym) in t && next[(user, sym)] == t[(user, sym)];
      assert forall sym :: (user, sym) in t && t[(user, sym)] > 0.0 ==>
        (user, sym) in next && next[(user, sym)] == t[(user, sym)];
      assert forall i :: 0 <= i < |cs[1..]| ==> cs[1..][i].user != user by {
        forall i | 0 <= i < |cs[1..]|
          ensures cs[1..][i].user != user
        {
          assert cs[1..][i] == cs[i + 1];
        }
      }
      OthersOnlySweepRows(next, cs[1..], user);
    }
  }

  /** A user whose rows are all positive finds them exactly as they were
      after any commands of other users, whatever amounts those use. */
  lemma OthersLeaveRowsAlone(t: Table, cs: seq<Command>, user: UserId)
    requires forall sym :: (user, sym) in t ==> t[(user, sym)] > 0.0
    requires forall i :: 0 <= i < |cs| ==> cs[i].user != user
    ensures forall sym :: ((user, sym) in Run(t, cs) <==> (user, sym) in t)
    ensures forall sym :: (user, sym) in t ==> Run(t, cs)[(user, sym)] == t[(user, sym)]
  {
    OthersOnlySweepRows(t, cs, user);
  }
}
