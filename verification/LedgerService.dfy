/** Money movement inside a transaction: lock the rows, then debit and credit them. */
module LedgerService {
  import opened Schema
  import opened Settlement
  import opened Tables

  /** What lockBalanceRows returns, and what debit and credit ask for. */
  datatype BalanceLock = BalanceLock(clientId: ClientId, currencies: set<Currency>)

  datatype Movement = Movement(clientId: ClientId, currency: Currency, amountMinor: int, ref: Ref)

  datatype LedgerError = NotCovered | Insufficient | Overflow

  function LegOf(m: Movement): Leg {
    Leg(Account(m.clientId, m.currency), m.amountMinor)
  }

  function Accounts(clientId: ClientId, currencies: seq<Currency>): seq<Account> {
    seq(|currencies|, i requires 0 <= i < |currencies| => Account(clientId, currencies[i]))
  }

  /** Where a currency first stands in the list; the length when it does not. */
  function FirstIndex(currencies: seq<Currency>, c: Currency): (i: nat)
    ensures i <= |currencies|
    ensures i < |currencies| <==> c in currencies
    ensures i < |currencies| ==> currencies[i] == c && c !in currencies[..i]
  {
    if currencies == [] then 0
    else
      var before := currencies[..|currencies| - 1];
      assert currencies == before + [currencies[|currencies| - 1]];
      if c in before then FirstIndex(before, c)
      else if currencies[|currencies| - 1] == c then |currencies| - 1
      else |currencies|
  }

  /** [...new Set(currencies)]: each currency once, in the order of first occurrence. */
  function Distinct(currencies: seq<Currency>): (r: seq<Currency>)
    ensures forall c :: c in r <==> c in currencies
    ensures forall i, j :: 0 <= i < j < |r| ==> FirstIndex(currencies, r[i]) < FirstIndex(currencies, r[j])
  {
    if currencies == [] then []
    else
      var before, last := currencies[..|currencies| - 1], currencies[|currencies| - 1];
      var r := Distinct(before);
      assert currencies == before + [last];
      assert forall i :: 0 <= i < |r| ==> r[i] in r;
      if last in r then r else r + [last]
  }

  /** assertCovers. */
  predicate Covers(lock: BalanceLock, m: Movement) {
    lock.clientId == m.clientId && m.currency in lock.currencies
  }

  class Service {
    constructor () {
    }

    /** Every row there afterwards, at zero if it was missing; the rest of the database as it was. */
    method LockBalanceRows(tx: Connection, clientId: ClientId, currencies: seq<Currency>) returns (lock: BalanceLock)
      modifies tx
      ensures tx.Db() == EnsureRows(old(tx.Db()), Accounts(clientId, currencies))
      ensures forall a :: a in tx.balances <==> a in old(tx.balances) || (a.clientId == clientId && a.currency in currencies)
      ensures forall a :: a in tx.balances ==> tx.balances[a] == if a in old(tx.balances) then old(tx.balances)[a] else 0
      ensures tx.ledger == old(tx.ledger) && tx.quotes == old(tx.quotes) && tx.trades == old(tx.trades)
      ensures forall c :: c in currencies <==> c in lock.currencies
      ensures lock.clientId == clientId
    {
      var uniqueCurrencies := Distinct(currencies);
      ghost var before := tx.balances;
      for i := 0 to |uniqueCurrencies|
        invariant tx.ledger == old(tx.ledger) && tx.quotes == old(tx.quotes) && tx.trades == old(tx.trades)
        invariant tx.balances == before + ZeroRows(before, Accounts(clientId, uniqueCurrencies[..i]))
      {
        var a := Account(clientId, uniqueCurrencies[i]);
        RowInserted(before, clientId, uniqueCurrencies, i);
        if a !in tx.balances {
          tx.balances := tx.balances[a := 0];
        }
      }
      assert uniqueCurrencies[..|uniqueCurrencies|] == uniqueCurrencies;
      SameRows(before, clientId, uniqueCurrencies, currencies);
      forall a: Account ensures a in Accounts(clientId, currencies) <==> a.clientId == clientId && a.currency in currencies {
        InAccounts(clientId, currencies, a);
      }
      lock := BalanceLock(clientId, set c | c in uniqueCurrencies);
    }

    method Debit(tx: Connection, lock: BalanceLock, m: Movement) returns (error: Option<LedgerError>)
      modifies tx
      ensures error == Some(NotCovered) <==> !Covers(lock, m)
      ensures error == Some(Insufficient) <==> Covers(lock, m) && Settlement.Debit(old(tx.Db()), LegOf(m), m.ref).None?
      ensures error == Some(Insufficient) <==>
        && Covers(lock, m)
        && !(Account(m.clientId, m.currency) in old(tx.balances)
             && old(tx.balances)[Account(m.clientId, m.currency)] >= m.amountMinor)
      ensures error.None? ==>
        var a := Account(m.clientId, m.currency);
        && a in old(tx.balances) && tx.balances == old(tx.balances)[a := old(tx.balances)[a] - m.amountMinor]
        && tx.ledger == old(tx.ledger) + [Entry(a, -m.amountMinor, m.ref)]
        && tx.quotes == old(tx.quotes) && tx.trades == old(tx.trades)
      ensures error.Some? ==> tx.Db() == old(tx.Db()) && error.value != Overflow
      ensures error.None? ==> Some(tx.Db()) == Settlement.Debit(old(tx.Db()), LegOf(m), m.ref)
    {
      if !Covers(lock, m) {
        return Some(NotCovered);
      }
      var a := Account(m.clientId, m.currency);
      if a !in tx.balances || tx.balances[a] < m.amountMinor {
        return Some(Insufficient);
      }
      tx.balances := tx.balances[a := tx.balances[a] - m.amountMinor];
      tx.ledger := tx.ledger + [Entry(a, -m.amountMinor, m.ref)];
      return None;
    }

    method Credit(tx: Connection, lock: BalanceLock, m: Movement) returns (error: Option<LedgerError>)
      modifies tx
      ensures error == Some(NotCovered) <==> !Covers(lock, m)
      ensures error == Some(Overflow) <==> Covers(lock, m) && Settlement.Credit(old(tx.Db()), LegOf(m), m.ref).None?
      ensures error == Some(Overflow) <==>
        && Covers(lock, m)
        && (m.amountMinor > MAX_BIGINT || (Account(m.clientId, m.currency) in old(tx.balances)
              && old(tx.balances)[Account(m.clientId, m.currency)] + m.amountMinor > MAX_BIGINT))
      ensures error.None? ==>
        var a := Account(m.clientId, m.currency);
        && tx.balances == old(tx.balances)[a := (if a in old(tx.balances) then old(tx.balances)[a] else 0) + m.amountMinor]
        && tx.ledger == old(tx.ledger) + [Entry(a, m.amountMinor, m.ref)]
        && tx.quotes == old(tx.quotes) && tx.trades == old(tx.trades)
      ensures error.Some? ==> tx.Db() == old(tx.Db()) && error.value != Insufficient
      ensures error.None? ==> Some(tx.Db()) == Settlement.Credit(old(tx.Db()), LegOf(m), m.ref)
    {
      if !Covers(lock, m) {
        return Some(NotCovered);
      }
      var a := Account(m.clientId, m.currency);
      if a !in tx.balances {
        if m.amountMinor > MAX_BIGINT {
          return Some(Overflow);
        }
        tx.balances := tx.balances[a := m.amountMinor];
      } else {
        if m.amountMinor > MAX_BIGINT || tx.balances[a] + m.amountMinor > MAX_BIGINT {
          return Some(Overflow);
        }
        tx.balances := tx.balances[a := tx.balances[a] + m.amountMinor];
      }
      tx.ledger := tx.ledger + [Entry(a, m.amountMinor, m.ref)];
      return None;
    }
  }

  lemma RowInserted(before: map<Account, int>, clientId: ClientId, currencies: seq<Currency>, i: nat)
    requires i < |currencies|
    ensures var a := Account(clientId, currencies[i]);
      var rows := before + ZeroRows(before, Accounts(clientId, currencies[..i]));
      before + ZeroRows(before, Accounts(clientId, currencies[..i + 1])) == if a in rows then rows else rows[a := 0]
  {
    var a := Account(clientId, currencies[i]);
    assert Accounts(clientId, currencies[..i + 1]) == Accounts(clientId, currencies[..i]) + [a];
  }

  lemma InAccounts(clientId: ClientId, currencies: seq<Currency>, a: Account)
    ensures a in Accounts(clientId, currencies) <==> a.clientId == clientId && a.currency in currencies
  {
    var accounts := Accounts(clientId, currencies);
    if a.clientId == clientId && a.currency in currencies {
      var i :| 0 <= i < |currencies| && currencies[i] == a.currency;
      assert accounts[i] == a;
    }
  }

  lemma SameRows(before: map<Account, int>, clientId: ClientId, a: seq<Currency>, b: seq<Currency>)
    requires forall c :: c in a <==> c in b
    ensures ZeroRows(before, Accounts(clientId, a)) == ZeroRows(before, Accounts(clientId, b))
  {
    forall x: Account ensures x in Accounts(clientId, a) <==> x in Accounts(clientId, b) {
      InAccounts(clientId, a, x);
      InAccounts(clientId, b, x);
    }
  }
}
