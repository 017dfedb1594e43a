/** The seeding transaction, the first way money comes in. */
module Seed {
  import opened Decimals
  import opened Money
  import opened Format
  import opened Schema
  import opened Settlement
  import opened LedgerInvariant
  import opened Tables

  datatype Funding = Funding(currency: Currency, amount: string)

  /** A funding amount as text, in minor units, if it can be stored. */
  function FundingMinor(f: Funding): Option<int> {
    match TextToMinorUnits(f.amount)
    case None => None
    case Some(m) => if -MAX_BIGINT - 1 <= m <= MAX_BIGINT then Some(m) else None
  }

  predicate Fundable(f: Funding) {
    FundingMinor(f).Some? && FundingMinor(f).value >= 0
  }

  function FundingAmount(f: Funding): int {
    if Fundable(f) then FundingMinor(f).value else 0
  }

  /** The database with the first entries of the funding paid in. */
  function Funded(db: Database, clientId: ClientId, funding: seq<Funding>): Database {
    if funding == [] then db
    else
      var before, f := Funded(db, clientId, funding[..|funding| - 1]), funding[|funding| - 1];
      var a, amount := Account(clientId, f.currency), FundingAmount(f);
      before.(balances := before.balances[a := amount], ledger := before.ledger + [Entry(a, amount, SeedRef(clientId))])
  }

  /** The client is new: no row and no entry is theirs. */
  predicate NewClient(db: Database, clientId: ClientId) {
    && (forall a :: a in db.balances ==> a.clientId != clientId)
    && (forall e :: e in db.ledger ==> e.account.clientId != clientId)
  }

  predicate DistinctFunding(funding: seq<Funding>) {
    && (forall i :: 0 <= i < |funding| ==> Fundable(funding[i]))
    && (forall i, j :: 0 <= i < j < |funding| ==> funding[i].currency != funding[j].currency)
  }

  /** The ledger entries of the funding, in its order. */
  function FundingEntries(clientId: ClientId, funding: seq<Funding>): seq<Entry> {
    seq(|funding|, i requires 0 <= i < |funding| =>
      Entry(Account(clientId, funding[i].currency), FundingAmount(funding[i]), SeedRef(clientId)))
  }

  /** Each funded balance is its amount, the ledger has one entry an item, and nothing else has changed. */
  predicate PaidIn(db: Database, after: Database, clientId: ClientId, funding: seq<Funding>) {
    && (forall i :: 0 <= i < |funding| ==>
          && Account(clientId, funding[i].currency) in after.balances
          && after.balances[Account(clientId, funding[i].currency)] == FundingAmount(funding[i]))
    && (forall a :: a in db.balances && !Funds(a, clientId, funding) ==> a in after.balances && after.balances[a] == db.balances[a])
    && (forall a :: a in after.balances && !Funds(a, clientId, funding) ==> a in db.balances)
    && after.ledger == db.ledger + FundingEntries(clientId, funding)
    && after.quotes == db.quotes && after.trades == db.trades
  }

  predicate Funds(a: Account, clientId: ClientId, funding: seq<Funding>) {
    a.clientId == clientId && exists i :: 0 <= i < |funding| && funding[i].currency == a.currency
  }

  lemma FundsOneMore(a: Account, clientId: ClientId, funding: seq<Funding>)
    requires funding != []
    ensures Funds(a, clientId, funding) <==>
      Funds(a, clientId, funding[..|funding| - 1]) || a == Account(clientId, funding[|funding| - 1].currency)
  {
    var n := |funding| - 1;
    if Funds(a, clientId, funding) {
      var i :| 0 <= i < |funding| && funding[i].currency == a.currency;
      assert i < n ==> funding[..n][i].currency == a.currency;
    }
    if Funds(a, clientId, funding[..n]) {
      var i :| 0 <= i < n && funding[..n][i].currency == a.currency;
      assert funding[i].currency == a.currency;
    }
  }

  lemma EntriesOneMore(clientId: ClientId, funding: seq<Funding>)
    requires funding != []
    ensures var f := funding[|funding| - 1];
      FundingEntries(clientId, funding) == FundingEntries(clientId, funding[..|funding| - 1])
        + [Entry(Account(clientId, f.currency), FundingAmount(f), SeedRef(clientId))]
  {
  }

  /** One item more, on an account none of the others funds. */
  lemma PaidInOneMore(db: Database, before: Database, clientId: ClientId, rest: seq<Funding>, funding: seq<Funding>, f: Funding)
    requires funding == rest + [f] && PaidIn(db, before, clientId, rest)
    requires !Funds(Account(clientId, f.currency), clientId, rest)
    ensures PaidIn(db, before.(balances := before.balances[Account(clientId, f.currency) := FundingAmount(f)],
                               ledger := before.ledger + [Entry(Account(clientId, f.currency), FundingAmount(f), SeedRef(clientId))]),
                   clientId, funding)
  {
    var after := before.balances[Account(clientId, f.currency) := FundingAmount(f)];
    assert funding[..|funding| - 1] == rest;
    EntriesOneMore(clientId, funding);
    forall a: Account ensures Funds(a, clientId, funding) <==> Funds(a, clientId, rest) || a == Account(clientId, f.currency) {
      FundsOneMore(a, clientId, funding);
    }
    forall i | 0 <= i < |funding|
      ensures Account(clientId, funding[i].currency) in after
      ensures after[Account(clientId, funding[i].currency)] == FundingAmount(funding[i])
    {
      if i < |rest| {
        assert rest[i] == funding[i];
        assert Funds(Account(clientId, rest[i].currency), clientId, rest);
      }
    }
  }

  lemma RestIsDistinct(clientId: ClientId, funding: seq<Funding>)
    requires DistinctFunding(funding) && funding != []
    ensures var rest, f := funding[..|funding| - 1], funding[|funding| - 1];
      DistinctFunding(rest) && funding == rest + [f] && !Funds(Account(clientId, f.currency), clientId, rest)
  {
  }

  lemma {:induction false} FundedPaysIn(db: Database, clientId: ClientId, funding: seq<Funding>)
    requires DistinctFunding(funding)
    ensures PaidIn(db, Funded(db, clientId, funding), clientId, funding)
  {
    if funding != [] {
      var rest, f := funding[..|funding| - 1], funding[|funding| - 1];
      RestIsDistinct(clientId, funding);
      FundedPaysIn(db, clientId, rest);
      PaidInOneMore(db, Funded(db, clientId, rest), clientId, rest, funding, f);
    }
  }

  lemma {:induction false} FundedElsewhere(db: Database, clientId: ClientId, funding: seq<Funding>, a: Account)
    requires DistinctFunding(funding)
    requires a.clientId != clientId || forall i :: 0 <= i < |funding| ==> funding[i].currency != a.currency
    ensures var after := Funded(db, clientId, funding);
      (a in after.balances <==> a in db.balances) && Available(after.balances, a) == Available(db.balances, a)
  {
    if funding != [] {
      FundedElsewhere(db, clientId, funding[..|funding| - 1], a);
    }
  }

  /** Seeding a new client keeps every part of the ledger invariant. */
  lemma {:induction false} SeedingIsConsistent(db: Database, clientId: ClientId, funding: seq<Funding>)
    requires Consistent(db) && NewClient(db, clientId) && DistinctFunding(funding)
    ensures Consistent(Funded(db, clientId, funding))
  {
    if funding != [] {
      var rest, f := funding[..|funding| - 1], funding[|funding| - 1];
      SeedingIsConsistent(db, clientId, rest);
      var a := Account(clientId, f.currency);
      FundedElsewhere(db, clientId, rest, a);
      SeedEntryStep(Funded(db, clientId, rest), a, FundingAmount(f));
    }
  }

  lemma SeedEntryStep(db: Database, a: Account, amount: int)
    requires Consistent(db) && a !in db.balances && 0 <= amount <= MAX_BIGINT
    ensures Consistent(db.(balances := db.balances[a := amount], ledger := db.ledger + [Entry(a, amount, SeedRef(a.clientId))]))
  {
    var e := Entry(a, amount, SeedRef(a.clientId));
    var after := db.(balances := db.balances[a := amount], ledger := db.ledger + [e]);
    Append(db.ledger, e);
    forall b: Account ensures 0 <= Available(after.balances, b) == Total(after.ledger, b) <= MAX_BIGINT {
      assert 0 <= Available(db.balances, b) == Total(db.ledger, b) <= MAX_BIGINT;
    }
    forall t | t in after.trades ensures SettledFrom(after, t) {
      assert SettledFrom(db, t);
    }
  }

  /** The demo client's 10000 and 1, in minor units. */
  lemma DemoFunding(usdt: Currency, btc: Currency)
    requires usdt != btc
    ensures DistinctFunding([Funding(usdt, "10000"), Funding(btc, "1")])
    ensures FundingAmount(Funding(usdt, "10000")) == 1_000_000_000_000
    ensures FundingAmount(Funding(btc, "1")) == 100_000_000
  {
    OneAndZeros(4);
    OneAndZeros(0);
    assert "1" + Zeros(4) == "10000" && "1" + Zeros(0) == "1";
    assert Pow10(4) == 10_000 && Pow10(0) == 1;
    TwoFundings(Funding(usdt, "1" + Zeros(4)), Funding(btc, "1" + Zeros(0)), 1_000_000_000_000, 100_000_000);
  }

  /** What seeding an empty database leaves is a state every run may start from. */
  lemma SeededDatabaseIsConsistent(clientId: ClientId, usdt: Currency, btc: Currency)
    requires usdt != btc
    ensures var seeded := Funded(EMPTY_DATABASE, clientId, [Funding(usdt, "10000"), Funding(btc, "1")]);
      Consistent(seeded) && seeded.trades == []
  {
    EmptyIsConsistent();
    DemoFunding(usdt, btc);
    SeedingIsConsistent(EMPTY_DATABASE, clientId, [Funding(usdt, "10000"), Funding(btc, "1")]);
    FundingMakesNoTrades(EMPTY_DATABASE, clientId, [Funding(usdt, "10000"), Funding(btc, "1")]);
  }

  /** Two items paid into an empty database are its only rows and entries. */
  lemma TwoRows(clientId: ClientId, f: Funding, g: Funding, seeded: Database)
    requires f.currency != g.currency && PaidIn(EMPTY_DATABASE, seeded, clientId, [f, g])
    ensures seeded.balances == map[Account(clientId, f.currency) := FundingAmount(f), Account(clientId, g.currency) := FundingAmount(g)]
    ensures seeded.ledger == [Entry(Account(clientId, f.currency), FundingAmount(f), SeedRef(clientId)),
                              Entry(Account(clientId, g.currency), FundingAmount(g), SeedRef(clientId))]
  {
    var funding := [f, g];
    assert funding[0] == f && funding[1] == g;
    assert seeded.ledger == FundingEntries(clientId, funding);
    forall a | a in seeded.balances ensures a == Account(clientId, f.currency) || a == Account(clientId, g.currency) {
      assert Funds(a, clientId, funding);
    }
  }

  /** The demo client's two balances and two entries, in minor units. */
  lemma DemoBalances(clientId: ClientId, usdt: Currency, btc: Currency)
    requires usdt != btc
    ensures var seeded := Funded(EMPTY_DATABASE, clientId, [Funding(usdt, "10000"), Funding(btc, "1")]);
      && seeded.balances == map[Account(clientId, usdt) := 1_000_000_000_000, Account(clientId, btc) := 100_000_000]
      && seeded.ledger == [Entry(Account(clientId, usdt), 1_000_000_000_000, SeedRef(clientId)),
                           Entry(Account(clientId, btc), 100_000_000, SeedRef(clientId))]
  {
    var f, g := Funding(usdt, "10000"), Funding(btc, "1");
    DemoFunding(usdt, btc);
    FundedPaysIn(EMPTY_DATABASE, clientId, [f, g]);
    TwoRows(clientId, f, g, Funded(EMPTY_DATABASE, clientId, [f, g]));
  }

  lemma {:induction false} FundingMakesNoTrades(db: Database, clientId: ClientId, funding: seq<Funding>)
    ensures Funded(db, clientId, funding).trades == db.trades
  {
    if funding != [] {
      FundingMakesNoTrades(db, clientId, funding[..|funding| - 1]);
    }
  }

  lemma OneAndZeros(n: nat)
    requires n <= 4
    ensures forall currency :: FundingMinor(Funding(currency, "1" + Zeros(n))) == Some(Pow10(n) * 100_000_000)
  {
    OneThenZeros(n);
    Pow10Monotone(n, 4);
    assert Pow10(4) == 10_000;
    WholeAmount("1" + Zeros(n), Pow10(n));
  }

  lemma TwoFundings(f: Funding, g: Funding, m: nat, n: nat)
    requires f.currency != g.currency && FundingMinor(f) == Some(m as int) && FundingMinor(g) == Some(n as int)
    ensures DistinctFunding([f, g]) && FundingAmount(f) == m && FundingAmount(g) == n
  {
  }

  /** A whole number of units as text. */
  lemma WholeAmount(text: string, n: nat)
    requires text != "" && AllDigits(text) && ParseNat(text) == n && n * 100_000_000 <= MAX_BIGINT
    ensures forall currency :: FundingMinor(Funding(currency, text)) == Some(n * 100_000_000)
  {
    IntegerReads(text);
    assert text[0] in text;
    StorableFits(n);
    assert Pow10(0) == 1;
    PrecisionCheck(Decimal(n, 0));
  }

  /** The seeding transaction: all of the funding, or nothing when the client is already there. */
  method Seed(db: Connection, clientId: ClientId, alreadySeeded: bool, funding: seq<Funding>) returns (seeded: bool)
    requires DistinctFunding(funding) && (!alreadySeeded ==> NewClient(db.Db(), clientId))
    modifies db
    ensures seeded == !alreadySeeded
    ensures db.Db() == if seeded then Funded(old(db.Db()), clientId, funding) else old(db.Db())
    ensures seeded ==> PaidIn(old(db.Db()), db.Db(), clientId, funding)
    ensures Consistent(old(db.Db())) ==> Consistent(db.Db())
  {
    if alreadySeeded {
      return false;
    }
    ghost var before := db.Db();
    for i := 0 to |funding|
      invariant db.Db() == Funded(before, clientId, funding[..i])
    {
      var amountMinor := FundingAmount(funding[i]);
      var a := Account(clientId, funding[i].currency);
      assert funding[..i + 1][..i] == funding[..i];
      db.balances := db.balances[a := amountMinor];
      db.ledger := db.ledger + [Entry(a, amountMinor, SeedRef(clientId))];
    }
    assert funding[..|funding|] == funding;
    FundedPaysIn(before, clientId, funding);
    if Consistent(before) { SeedingIsConsistent(before, clientId, funding); }
    return true;
  }
}
