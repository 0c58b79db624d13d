/** Quote fields of the stock app (w_ai_share_main_third.py) as the provider's
    `info` dictionary delivers them, the change-percent guard, the text of the
    in-window ticker tape and its character-rotation scroll. */
module StockQuotes {
  import opened Text

  /** One numeric entry of `info`: the key is missing, present with `None`,
      or present with a number. */
  datatype Field = Missing | Null | Num(x: real)

  /** The entries of `yf.Ticker(t).info` the model reads. */
  datatype Info = Info(currentPrice: Field, previousClose: Field, recommendationMean: Field)

  /** One provider lookup: the `info` dictionary, or an exception. */
  datatype Lookup = Answered(info: Info) | Failed

  /** Python truthiness of `info.get('previousClose', None)`: a non-zero number. */
  predicate UsableClose(prev: Field) {
    prev.Num? && prev.x != 0.0
  }

  /** The value of `change_percent`: the string 'N/A', a number, or the
      TypeError that `None - prev_close` raises. */
  datatype Change = NotAvailable | Percent(p: real) | TypeError

  /** `((price - prev_close) / prev_close * 100) if price != 'N/A' and prev_close
      else 'N/A'` with `price = info.get('currentPrice', 'N/A')`. The division
      happens only behind a non-zero previous close, and a percentage is
      produced exactly when both inputs are numbers. */
  function ChangePercent(price: Field, prev: Field): (c: Change)
    ensures c.NotAvailable? <==> price.Missing? || !UsableClose(prev)
    ensures c.TypeError? <==> price.Null? && UsableClose(prev)
    ensures c.Percent? ==>
      price.Num? && UsableClose(prev) && c.p * prev.x == (price.x - prev.x) * 100.0
  {
    if !price.Missing? && UsableClose(prev) then
      match price
      case Null => TypeError
      case Num(x) =>
        var p := (x - prev.x) / prev.x * 100.0;
        assert p * prev.x == (x - prev.x) * 100.0;
        Percent(p)
    else NotAvailable
  }

  /** The closing text of each tape segment. */
  const SegmentEnd: string := "  |  "

  /** Shown when the ticker list is empty. */
  const FallbackText: string :=
    "No data available for ticker tape stocks. Please check logs or try adding new tickers."

  /** The segment for a symbol whose lookup or formatting raised. */
  function UnavailableSegment(ticker: string): string {
    ticker + ": N/A" + SegmentEnd
  }

  /** The loop body of `update_ticker_tape` for one symbol. Prices and
      percentages are rendered by `money` (`:.2f`) and `signed` (`:+.2f`).
      Formatting a price that is 'N/A' or `None` with `:.2f` raises, so those
      symbols fall into the exception branch as well. */
  function TapeSegment(ticker: string, l: Lookup, money: real -> string, signed: real -> string): (seg: string)
    ensures |seg| >= |ticker| + 2 + |SegmentEnd| && seg[..|ticker| + 2] == ticker + ": "
    ensures seg[|seg| - |SegmentEnd|..] == SegmentEnd
    ensures seg == UnavailableSegment(ticker) <==>
      l.Failed? || !l.info.currentPrice.Num?
    ensures l.Answered? && l.info.currentPrice.Num? ==>
      var price := ticker + ": $" + money(l.info.currentPrice.x);
      match ChangePercent(l.info.currentPrice, l.info.previousClose)
      case Percent(p) => seg == price + " (" + signed(p) + "%)" + SegmentEnd
      case _ => seg == price + SegmentEnd
  {
    var na := UnavailableSegment(ticker);
    assert na[|ticker| + 2] == 'N';
    match l
    case Failed => na
    case Answered(info) =>
      match ChangePercent(info.currentPrice, info.previousClose)
      case TypeError => na
      case Percent(p) =>
        var seg := ticker + ": $" + money(info.currentPrice.x) + " (" + signed(p) + "%)" + SegmentEnd;
        assert seg[|ticker| + 2] == '$';
        seg
      case NotAvailable =>
        if info.currentPrice.Num? then
          var seg := ticker + ": $" + money(info.currentPrice.x) + SegmentEnd;
          assert seg[|ticker| + 2] == '$';
          seg
        else na
  }

  /** `ticker_text`'s segments: one per symbol, in list order. */
  function TapeSegments(tickers: seq<string>, fetch: string -> Lookup, money: real -> string, signed: real -> string): (segs: seq<string>)
    ensures |segs| == |tickers|
  {
    if tickers == [] then []
    else [TapeSegment(tickers[0], fetch(tickers[0]), money, signed)] + TapeSegments(tickers[1..], fetch, money, signed)
  }

  /** Each symbol's segment is decided by that symbol's own lookup alone, so a
      failure affects only its own segment. */
  lemma {:induction false} TapeSegmentsAt(tickers: seq<string>, fetch: string -> Lookup, money: real -> string, signed: real -> string)
    ensures forall i :: 0 <= i < |tickers| ==>
      TapeSegments(tickers, fetch, money, signed)[i] == TapeSegment(tickers[i], fetch(tickers[i]), money, signed)
  {
    if tickers != [] {
      TapeSegmentsAt(tickers[1..], fetch, money, signed);
    }
  }

  /** The loop appends the last symbol's segment after the others'. */
  lemma {:induction false} TapeSegmentsSnoc(tickers: seq<string>, fetch: string -> Lookup, money: real -> string, signed: real -> string)
    requires tickers != []
    ensures var n := |tickers| - 1;
      TapeSegments(tickers, fetch, money, signed) ==
        TapeSegments(tickers[..n], fetch, money, signed) + [TapeSegment(tickers[n], fetch(tickers[n]), money, signed)]
  {
    var n := |tickers| - 1;
    if n > 0 {
      TapeSegmentsSnoc(tickers[1..], fetch, money, signed);
      assert tickers[1..][..n - 1] == tickers[..n][1..];
      assert tickers[1..][n - 1] == tickers[n];
    }
  }

  /** Concatenating parts one at a time: appending the last part to the
      concatenation of the others gives the concatenation of all, which
      starts with the first part. */
  lemma ConcatStep(parts: seq<string>, init: seq<string>, last: string)
    requires parts == init + [last]
    ensures Join(init, "") + last == Join(parts, "")
    ensures |Join(parts, "")| >= |parts[0]| && Join(parts, "")[..|parts[0]|] == parts[0]
  {
    JoinSnoc(init, last, "");
    JoinStartsWith(parts, "");
  }

  /** `ticker_text` after the loop, which appends one symbol's segment per
      iteration: the segments of all symbols concatenated in list order. */
  function TickerText(tickers: seq<string>, fetch: string -> Lookup, money: real -> string, signed: real -> string): (text: string)
    ensures text == Join(TapeSegments(tickers, fetch, money, signed), "")
    ensures text == [] <==> tickers == []
    ensures tickers != [] ==>
      var seg := TapeSegment(tickers[0], fetch(tickers[0]), money, signed);
      |text| >= |seg| && text[..|seg|] == seg
    decreases |tickers|
  {
    if tickers == [] then []
    else
      var n := |tickers| - 1;
      var seg := TapeSegment(tickers[n], fetch(tickers[n]), money, signed);
      var before := TickerText(tickers[..n], fetch, money, signed);
      TapeSegmentsSnoc(tickers, fetch, money, signed);
      ConcatStep(TapeSegments(tickers, fetch, money, signed), TapeSegments(tickers[..n], fetch, money, signed), seg);
      before + seg
  }

  /** The label text: the fallback message replaces an empty ticker text. */
  function DisplayText(tickerText: string): (text: string)
    ensures text != []
    ensures tickerText != [] ==> text == tickerText
  {
    if tickerText == [] then FallbackText else tickerText
  }

  /** Python's `s[i:]` for a non-negative `i`. */
  function SliceFrom(s: string, i: nat): string {
    if i >= |s| then [] else s[i..]
  }

  /** Python's `s[:i]` for a non-negative `i`. */
  function SliceTo(s: string, i: nat): string {
    if i >= |s| then s else s[..i]
  }

  /** `ticker_text[pos:] + ticker_text[:pos]`: the text rotated left by `pos`
      characters, or the text itself once `pos` reaches its length. */
  function Rotate(text: string, pos: nat): (r: string)
    ensures |r| == |text|
    ensures pos >= |text| ==> r == text
    ensures pos < |text| ==>
      (forall k :: 0 <= k < |text| - pos ==> r[k] == text[pos + k]) &&
      (forall k :: |text| - pos <= k < |text| ==> r[k] == text[k - (|text| - pos)])
  {
    SliceFrom(text, pos) + SliceTo(text, pos)
  }

  /** A frame shows the same characters as the text, with the same counts. */
  lemma RotateIsPermutation(text: string, pos: nat)
    ensures multiset(Rotate(text, pos)) == multiset(text)
  {
    if pos < |text| {
      assert text == text[..pos] + text[pos..];
    }
  }

  /** Rotating by `pos` and then by the rest of the length restores the text. */
  lemma RotateInverse(text: string, pos: nat)
    requires 0 < pos < |text|
    ensures Rotate(Rotate(text, pos), |text| - pos) == text
  {
    var r := Rotate(text, pos);
    var q := Rotate(r, |text| - pos);
    forall k | 0 <= k < |text| ensures q[k] == text[k] {
      if k < pos {
        assert q[k] == r[|text| - pos + k];
      } else {
        assert q[k] == r[k - pos];
      }
    }
  }

  /** The length of one scroll cycle: the text's length plus 50. */
  function Cycle(text: string): nat {
    |text| + 50
  }

  /** `(pos + 1) % (len(ticker_text) + 50) if ticker_text else 0`. */
  function NextPos(text: string, pos: nat): (r: nat)
    ensures r < Cycle(text)
    ensures text != [] && pos + 1 < Cycle(text) ==> r == pos + 1
    ensures text != [] && pos + 1 == Cycle(text) ==> r == 0
    ensures text == [] ==> r == 0
  {
    if text != [] then (pos + 1) % Cycle(text) else 0
  }

  /** The position after `n` frames of `scroll_text`, which starts at 0. */
  function PosAfter(text: string, n: nat): nat {
    if n == 0 then 0 else NextPos(text, PosAfter(text, n - 1))
  }

  /** During the first cycle the position counts the frames: the first
      `|text|` frames show each rotation once, and the remaining 50 show the
      text unrotated. */
  lemma {:induction false} FirstCycle(text: string, n: nat)
    requires n < Cycle(text) && text != []
    ensures PosAfter(text, n) == n
    ensures n >= |text| ==> Rotate(text, PosAfter(text, n)) == text
  {
    if n > 0 {
      FirstCycle(text, n - 1);
    }
  }

  /** The scroll is periodic: after one full cycle the position is back at 0
      and every later frame repeats the frame one cycle earlier. */
  lemma {:induction false} Periodic(text: string, n: nat)
    requires text != []
    ensures PosAfter(text, Cycle(text)) == 0
    ensures PosAfter(text, n + Cycle(text)) == PosAfter(text, n)
  {
    FirstCycle(text, Cycle(text) - 1);
    if n > 0 {
      Periodic(text, n - 1);
      assert PosAfter(text, n + Cycle(text)) == NextPos(text, PosAfter(text, n - 1 + Cycle(text)));
    }
  }
}
