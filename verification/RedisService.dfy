/** The fail-soft TTL store: every failure of the client reads as a miss or as nothing done. */
module RedisService {
  import opened Schema
  import opened Format
  import opened QuoteMapper

  /** A value and the moment its PX expiry removes it. */
  datatype Item = Item(value: CachedQuote, deadline: int)

  function QuoteCacheKey(id: QuoteId): string {
    "quote:" + NatString(id)
  }

  /** Different quotes never share a key. */
  lemma KeysAreDistinct(a: QuoteId, b: QuoteId)
    ensures QuoteCacheKey(a) == QuoteCacheKey(b) <==> a == b
  {
    NatStringReads(a);
    NatStringReads(b);
    assert QuoteCacheKey(a)[6..] == NatString(a) && QuoteCacheKey(b)[6..] == NatString(b);
  }

  class Service {
    var store: map<string, Item>

    constructor ()
      ensures store == map[]
    {
      store := map[];
    }

    function Live(key: string, now: int): Option<CachedQuote>
      reads this
    {
      if key in store && now < store[key].deadline then Some(store[key].value) else None
    }

    /** `reachable` is whether the client's command succeeds. */
    method GetJson(key: string, now: int, reachable: bool) returns (value: Option<CachedQuote>)
      ensures value == if reachable then Live(key, now) else None
    {
      value := None;
      if reachable && key in store && now < store[key].deadline {
        value := Some(store[key].value);
      }
    }

    method SetJson(key: string, value: CachedQuote, ttlMs: int, now: int, reachable: bool)
      modifies this
      ensures store == if reachable then old(store)[key := Item(value, now + ttlMs)] else old(store)
    {
      if reachable {
        store := store[key := Item(value, now + ttlMs)];
      }
    }

    method Del(key: string, reachable: bool)
      modifies this
      ensures store == if reachable then old(store) - {key} else old(store)
    {
      if reachable {
        store := store - {key};
      }
    }
  }
}
