/** The Add/Remove buttons of w_ai_share_main_third.py. Unlike the tape, the
    entry text is stripped before the emptiness test, and an add first
    validates the symbol with one provider lookup. */
module StockTickers {
  import opened Text
  import opened Symbols

  /** The list used when no saved list can be loaded. */
  const DefaultTickers: seq<string> := ["AAPL", "MSFT", "BHP.AX", "CBA.AX", "AIA.NZ", "FPH.NZ"]

  /** The validation lookup `yf.Ticker(t).info` for one symbol: it has a
      non-null `currentPrice`, it has none (missing key or null), or it raised. */
  datatype Validation = HasCurrentPrice | NoCurrentPrice | Raised

  /** `add_ticker`: normalise, reject an empty symbol, validate, then append
      only if absent. Validation runs before the duplicate test, so a failed
      validation is reported even for a symbol already in the list. */
  function AddTicker(tickers: seq<string>, entry: string, validate: string -> Validation): (m: Mutation)
    ensures AllSpace(entry) ==> m == Mutation(tickers, EmptyTicker)
    ensures !AllSpace(entry) ==>
      var t := Normalize(entry);
      match validate(t)
      case NoCurrentPrice => m == Mutation(tickers, Outcome.NoCurrentPrice)
      case Raised => m == Mutation(tickers, ValidationError)
      case HasCurrentPrice =>
        if t in tickers then m == Mutation(tickers, AlreadyPresent)
        else m == Mutation(tickers + [t], Added)
  {
    var ticker := Normalize(entry);
    if ticker == [] then Mutation(tickers, EmptyTicker)
    else match validate(ticker)
      case NoCurrentPrice => Mutation(tickers, Outcome.NoCurrentPrice)
      case Raised => Mutation(tickers, ValidationError)
      case HasCurrentPrice =>
        if ticker !in tickers then Mutation(AppendIfAbsent(tickers, ticker), Added)
        else Mutation(tickers, AlreadyPresent)
  }

  /** `remove_ticker`: normalise, reject an empty symbol, remove the first
      occurrence or report it missing. */
  function RemoveTicker(tickers: seq<string>, entry: string): (m: Mutation)
    ensures AllSpace(entry) ==> m == Mutation(tickers, EmptyTicker)
    ensures !AllSpace(entry) && Normalize(entry) in tickers ==>
      var k := IndexOf(tickers, Normalize(entry));
      m == Mutation(tickers[..k] + tickers[k + 1..], Removed)
    ensures !AllSpace(entry) && Normalize(entry) !in tickers ==>
      m == Mutation(tickers, NotFound)
  {
    var ticker := Normalize(entry);
    if ticker == [] then Mutation(tickers, EmptyTicker)
    else if ticker in tickers then Mutation(RemoveFirst(tickers, ticker), Removed)
    else Mutation(tickers, NotFound)
  }

  /** The default list meets the invariant the buttons keep: no duplicates
      and no empty symbol. */
  lemma DefaultsValid()
    ensures NoDuplicates(DefaultTickers) && "" !in DefaultTickers
  {
  }

  /** An add changes the list only when it reports success, and keeps it free
      of duplicates and of the empty symbol. */
  lemma AddKeepsInvariant(tickers: seq<string>, entry: string, validate: string -> Validation)
    requires NoDuplicates(tickers) && "" !in tickers
    ensures var m := AddTicker(tickers, entry, validate);
      NoDuplicates(m.tickers) && "" !in m.tickers && (m.tickers != tickers ==> m.outcome == Added)
  {
    AppendKeepsNoDuplicates(tickers, Normalize(entry));
  }

  /** A remove changes the list only when it reports success, and keeps it
      free of duplicates and of the empty symbol. */
  lemma RemoveKeepsInvariant(tickers: seq<string>, entry: string)
    requires NoDuplicates(tickers) && "" !in tickers
    ensures var m := RemoveTicker(tickers, entry);
      NoDuplicates(m.tickers) && "" !in m.tickers && (m.tickers != tickers ==> m.outcome == Removed)
  {
    var t := Normalize(entry);
    RemoveKeepsNoDuplicates(tickers, t);
    RemoveFirstMultiset(tickers, t);
    assert multiset(tickers)[""] == 0;
  }

  /** Removing with the same entry right after a successful add restores the
      list, and repeating the add reports a duplicate (given the same
      validation answer). */
  lemma AddThenRemove(tickers: seq<string>, entry: string, validate: string -> Validation)
    requires AddTicker(tickers, entry, validate).outcome == Added
    ensures RemoveTicker(AddTicker(tickers, entry, validate).tickers, entry) == Mutation(tickers, Removed)
    ensures var once := AddTicker(tickers, entry, validate).tickers;
      AddTicker(once, entry, validate) == Mutation(once, AlreadyPresent)
  {
    RemoveUndoesAppend(tickers, Normalize(entry));
  }

  /** Case-insensitive deduplication: "aapl" and " AAPL " name one symbol, so
      after adding one the other is reported as a duplicate. */
  lemma CaseInsensitiveDuplicate(tickers: seq<string>, validate: string -> Validation)
    requires "AAPL" !in tickers && validate("AAPL") == HasCurrentPrice
    ensures AddTicker(tickers, "aapl", validate) == Mutation(tickers + ["AAPL"], Added)
    ensures AddTicker(tickers + ["AAPL"], " AAPL ", validate) ==
      Mutation(tickers + ["AAPL"], AlreadyPresent)
  {
    assert Strip("aapl") == "aapl";
    assert Upper("aapl") == "AAPL";
    assert LStrip(" AAPL ") == "AAPL ";
    assert Strip(" AAPL ") == "AAPL";
    assert Upper("AAPL") == "AAPL";
  }
}
