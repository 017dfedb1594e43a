/** The database connection the services work on: the tables, changed in place. */
module Tables {
  import opened Schema

  class Connection {
    var balances: map<Account, int>
    var ledger: seq<Entry>
    var quotes: map<QuoteId, Quote>
    var trades: seq<Trade>

    constructor (db: Database)
      ensures Db() == db
    {
      balances, ledger, quotes, trades := db.balances, db.ledger, db.quotes, db.trades;
    }

    function Db(): Database
      reads this
    {
      Database(balances, ledger, quotes, trades)
    }

    /** What a rolled-back transaction leaves. */
    method Rollback(before: Database)
      modifies this
      ensures Db() == before
    {
      balances, ledger, quotes, trades := before.balances, before.ledger, before.quotes, before.trades;
    }
  }
}
