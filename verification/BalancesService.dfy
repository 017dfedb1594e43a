/** createDeposit as it is written. */
module BalancesService {
  import opened Format
  import opened Schema
  import opened Settlement
  import opened LedgerInvariant
  import opened Effects
  import opened Tables
  import LedgerService

  datatype DepositError = TooManyDecimals | NotPositive | Overflow

  class Service {
    const db: Connection
    const ledger: LedgerService.Service

    constructor (db: Connection, ledger: LedgerService.Service)
      ensures this.db == db && this.ledger == ledger
    {
      this.db, this.ledger := db, ledger;
    }

    /**
     * Refused exactly when the text, cut to 20 significant digits, is no whole number
     * of minor units, or is not positive; then nothing changes. Otherwise what the cut
     * amount is worth is added to one balance, with one ledger entry, or overflows it.
     */
    method CreateDeposit(clientId: ClientId, currency: Currency, amount: string, depositId: CallId)
      returns (error: Option<DepositError>)
      modifies db
      ensures error == Some(TooManyDecimals) <==> !Acceptable(amount)
      ensures error == Some(NotPositive) <==> Acceptable(amount) && AmountOf(amount) <= 0
      ensures error.Some? ==> db.Db() == old(db.Db())
      ensures AmountOf(amount) > 0 ==>
        && CutWorth(amount, AmountOf(amount))
        && match ExecuteDeposit(old(db.Db()), Leg(Account(clientId, currency), AmountOf(amount)), depositId)
           case Aborted(why) => error == Some(Overflow)
           case Committed(after) => error.None? && db.Db() == after
      ensures AmountOf(amount) > 0 ==>
        var sum := Balance(old(db.Db()), clientId, currency) + AmountOf(amount);
        && (error == Some(Overflow) <==> AmountOf(amount) > MAX_BIGINT || sum > MAX_BIGINT)
        && (error.None? ==>
              && db.balances == old(db.balances)[Account(clientId, currency) := sum]
              && db.ledger == old(db.ledger) + [Entry(Account(clientId, currency), AmountOf(amount), DepositRef(depositId))]
              && db.quotes == old(db.quotes) && db.trades == old(db.trades))
      ensures error.None? ==> AmountOf(amount) > 0
      ensures Consistent(old(db.Db())) ==> Consistent(db.Db())
    {
      var converted := TextToMinorUnits(amount);
      TextConvertsExactlyWhen(amount);
      if converted.None? {
        return Some(TooManyDecimals);
      }
      if converted.value <= 0 {
        return Some(NotPositive);
      }
      var before := db.Db();
      var leg := Leg(Account(clientId, currency), converted.value);
      DepositExactly(before, leg, depositId);
      var lock := ledger.LockBalanceRows(db, clientId, [currency]);
      assert LedgerService.Accounts(clientId, [currency]) == [leg.account];
      assert currency in [currency];
      var refused := ledger.Credit(db, lock, LedgerService.Movement(clientId, currency, converted.value, DepositRef(depositId)));
      if refused.Some? {
        db.Rollback(before);
        return Some(Overflow);
      }
      if Consistent(before) { DepositStep(before, leg, depositId); }
      return None;
    }
  }
}
