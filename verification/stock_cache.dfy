/** `fetch_stock_data` of w_ai_share_main_third.py: a lookup record built from
    the provider's `info`, served from a per-symbol cache for 300 seconds.
    The clock (`time.time()`) is the parameter `now`; the provider lookup is
    the parameter `lookup`, consulted only on a cache miss. */
module StockCache {
  import opened Text
  import opened StockQuotes

  /** `self.cache_timeout`, in seconds. */
  const CacheTimeout: real := 300.0

  /** The part of the `stock_data` record the model keeps: the upper-cased
      symbol, the current price, the daily change (never the TypeError), the
      recommendation mean and the retrieval time. */
  datatype StockData = StockData(
    ticker: string,
    currentPrice: Field,
    dailyChange: Change,
    recommendationMean: Field,
    retrieved: real)

  /** The record returned to callers: the data, or the `{'Error': ...}` record. */
  datatype Result = Data(data: StockData) | Error(ticker: string)

  /** `{'data': stock_data, 'timestamp': current_time}`. */
  datatype Entry = Entry(data: StockData, timestamp: real)

  type Cache = map<string, Entry>

  /** The cache condition of `fetch_stock_data`. */
  predicate Fresh(cache: Cache, ticker: string, now: real) {
    ticker in cache && now - cache[ticker].timestamp < CacheTimeout
  }

  /** The body of the `try` block: build the record from `info`, or fail. The
      only failure the model sees inside it is the TypeError of the change
      computation on a `None` price; every other exception is a `Failed` lookup. */
  function Build(ticker: string, l: Lookup, now: real): (r: Result)
    ensures r.Error? <==>
      (l.Failed? || ChangePercent(l.info.currentPrice, l.info.previousClose).TypeError?)
    ensures r.Error? ==> r.ticker == ticker
    ensures r.Data? ==>
      && r.data.ticker == Upper(ticker)
      && r.data.currentPrice == l.info.currentPrice
      && r.data.recommendationMean == l.info.recommendationMean
      && r.data.retrieved == now
      && !r.data.dailyChange.TypeError?
      && (r.data.dailyChange.Percent? <==> l.info.currentPrice.Num? && UsableClose(l.info.previousClose))
  {
    match l
    case Failed => Error(ticker)
    case Answered(info) =>
      var change := ChangePercent(info.currentPrice, info.previousClose);
      if change.TypeError? then Error(ticker)
      else Data(StockData(Upper(ticker), info.currentPrice, change, info.recommendationMean, now))
  }

  /** What one call returns, and the cache after it. */
  datatype Fetched = Fetched(result: Result, cache: Cache)

  /** `fetch_stock_data`: a fresh entry is served unchanged; otherwise the
      provider is asked, a successful record is stored with the current time,
      and an error record is returned without touching the cache. */
  function FetchStockData(cache: Cache, ticker: string, now: real, lookup: Lookup): (f: Fetched)
    ensures Fresh(cache, ticker, now) ==> f == Fetched(Data(cache[ticker].data), cache)
    ensures !Fresh(cache, ticker, now) ==> f.result == Build(ticker, lookup, now)
    ensures !Fresh(cache, ticker, now) && f.result.Data? ==>
      f.cache == cache[ticker := Entry(f.result.data, now)]
    ensures f.result.Error? ==> f.cache == cache
  {
    if Fresh(cache, ticker, now) then Fetched(Data(cache[ticker].data), cache)
    else
      match Build(ticker, lookup, now)
      case Data(d) => Fetched(Data(d), cache[ticker := Entry(d, now)])
      case Error(t) => Fetched(Error(t), cache)
  }

  /** What every cache entry satisfies: it holds a successful record for its
      own symbol, stored at or before `now`, with the record's retrieval time
      equal to the entry's timestamp. */
  predicate Valid(cache: Cache, now: real) {
    forall t :: t in cache ==>
      && cache[t].data.ticker == Upper(t)
      && !cache[t].data.dailyChange.TypeError?
      && cache[t].data.retrieved == cache[t].timestamp
      && cache[t].timestamp <= now
  }

  /** Every call keeps the cache valid as the clock moves forward, and every
      record it returns is valid for the requested symbol. */
  lemma FetchKeepsValid(cache: Cache, ticker: string, now: real, later: real, lookup: Lookup)
    requires Valid(cache, now) && now <= later
    ensures var f := FetchStockData(cache, ticker, later, lookup);
      Valid(f.cache, later) &&
      (f.result.Data? ==> f.result.data.ticker == Upper(ticker) && f.result.data.retrieved <= later)
  {
  }

  /** Two calls within 300 seconds return the same record, with the first
      call's retrieval time, and the provider is not asked again; a call 300
      seconds or more after the store asks the provider again and, if that
      succeeds, returns a record with the new time. */
  lemma CacheScenario(cache: Cache, ticker: string, t0: real, t1: real, t2: real,
                      first: Lookup, second: Lookup, third: Lookup)
    requires !Fresh(cache, ticker, t0)
    requires Build(ticker, first, t0).Data?
    requires t0 <= t1 < t0 + CacheTimeout && t0 + CacheTimeout <= t2
    ensures var f0 := FetchStockData(cache, ticker, t0, first);
      var f1 := FetchStockData(f0.cache, ticker, t1, second);
      var f2 := FetchStockData(f1.cache, ticker, t2, third);
      && f1 == Fetched(f0.result, f0.cache)
      && f1.result.data.retrieved == t0
      && f2.result == Build(ticker, third, t2)
      && (f2.result.Data? ==> f2.result.data.retrieved == t2)
  {
  }

  /** An error is never cached: after a failed lookup for an uncached symbol
      the next call, at any time, asks the provider again. */
  lemma ErrorNotCached(cache: Cache, ticker: string, now: real, later: real, lookup: Lookup, next: Lookup)
    requires ticker !in cache
    requires Build(ticker, lookup, now).Error?
    ensures var f := FetchStockData(cache, ticker, now, lookup);
      FetchStockData(f.cache, ticker, later, next).result == Build(ticker, next, later)
  {
  }
}
