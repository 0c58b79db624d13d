/** The borderless scrolling tape of w_ticker.py: the ticker list commands of
    its context menu, one fetch cycle that assembles the tape text, and the
    animation step that moves the label two pixels left every 20 ms. */
module TickerTape {
  import opened Text
  import opened Symbols

  /** The indices shown when no ticker file exists. */
  const DefaultTickers: seq<string> := ["^GSPC", "^AXJO", "^NZ50"]

  /** Joins the segments of the tape; one copy also ends the text. */
  const Separator: string := "    |    "

  /** What `askstring` returned: `None` when the dialog was cancelled. */
  datatype Answer = Cancelled | Entered(text: string)

  /** Python's `if symbol:`: a non-empty answer. The test is on the raw
      answer, before `strip()`. */
  predicate Truthy(a: Answer) {
    a.Entered? && a.text != []
  }

  /** `add_ticker`: a non-empty answer is stripped and upper-cased; the symbol
      is appended when absent, otherwise the list is left as it was. */
  function AddTicker(tickers: seq<string>, a: Answer): (m: Mutation)
    ensures !Truthy(a) ==> m == Mutation(tickers, Ignored)
    ensures Truthy(a) && Normalize(a.text) !in tickers ==>
      m == Mutation(tickers + [Normalize(a.text)], Added)
    ensures Truthy(a) && Normalize(a.text) in tickers ==>
      m == Mutation(tickers, AlreadyPresent)
  {
    if !Truthy(a) then Mutation(tickers, Ignored)
    else
      var symbol := Normalize(a.text);
      if symbol !in tickers then Mutation(AppendIfAbsent(tickers, symbol), Added)
      else Mutation(tickers, AlreadyPresent)
  }

  /** `remove_ticker`: the first occurrence of the normalised symbol is
      removed; an absent symbol leaves the list as it was. */
  function RemoveTicker(tickers: seq<string>, a: Answer): (m: Mutation)
    ensures !Truthy(a) ==> m == Mutation(tickers, Ignored)
    ensures Truthy(a) && Normalize(a.text) in tickers ==>
      var k := IndexOf(tickers, Normalize(a.text));
      m == Mutation(tickers[..k] + tickers[k + 1..], Removed)
    ensures Truthy(a) && Normalize(a.text) !in tickers ==>
      m == Mutation(tickers, NotFound)
  {
    if !Truthy(a) then Mutation(tickers, Ignored)
    else
      var symbol := Normalize(a.text);
      if symbol in tickers then Mutation(RemoveFirst(tickers, symbol), Removed)
      else Mutation(tickers, NotFound)
  }

  /** Both commands keep the list free of duplicates. */
  lemma CommandsKeepNoDuplicates(tickers: seq<string>, a: Answer)
    requires NoDuplicates(tickers)
    ensures NoDuplicates(AddTicker(tickers, a).tickers)
    ensures NoDuplicates(RemoveTicker(tickers, a).tickers)
  {
    if Truthy(a) {
      AppendKeepsNoDuplicates(tickers, Normalize(a.text));
      RemoveKeepsNoDuplicates(tickers, Normalize(a.text));
    }
  }

  /** Removing with the same answer right after a successful add restores the
      list; adding the same answer twice changes the list only once. */
  lemma AddThenRemove(tickers: seq<string>, a: Answer)
    requires AddTicker(tickers, a).outcome == Added
    ensures RemoveTicker(AddTicker(tickers, a).tickers, a) == Mutation(tickers, Removed)
    ensures AddTicker(AddTicker(tickers, a).tickers, a) ==
      Mutation(AddTicker(tickers, a).tickers, AlreadyPresent)
  {
    RemoveUndoesAppend(tickers, Normalize(a.text));
  }

  /** The emptiness test comes before `strip()`: an answer of only whitespace
      passes it and appends the empty symbol. */
  lemma WhitespaceAnswerAddsEmptySymbol(tickers: seq<string>, s: string)
    requires s != [] && AllSpace(s)
    requires "" !in tickers
    ensures AddTicker(tickers, Entered(s)) == Mutation(tickers + [""], Added)
  {
  }

  /** One symbol's `stock.history(period="1d")`: rows with the last close and
      the change since the open (both already rendered with two decimals), an
      empty frame, or an exception. */
  datatype History = Rows(close: string, change: string) | NoRows | Raised

  /** The segment one symbol contributes to the tape. */
  function Segment(symbol: string, h: History): (seg: string)
    ensures |seg| > |symbol| + 2 && seg[..|symbol| + 2] == symbol + ": "
    ensures h.NoRows? ==> seg == symbol + ": No data"
    ensures h.Raised? ==> seg == symbol + ": Error"
    ensures h.Rows? ==> seg == symbol + ": $" + h.close + " (" + h.change + "%)"
  {
    match h
    case Rows(close, change) => symbol + ": $" + close + " (" + change + "%)"
    case NoRows => symbol + ": No data"
    case Raised => symbol + ": Error"
  }

  /** The loop body of `fetch_data`: one segment per symbol, in list order,
      each decided by that symbol's own fetch alone. */
  function Segments(tickers: seq<string>, fetch: string -> History): (segs: seq<string>)
    ensures |segs| == |tickers|
    ensures forall i :: 0 <= i < |tickers| ==> segs[i] == Segment(tickers[i], fetch(tickers[i]))
  {
    if tickers == [] then []
    else [Segment(tickers[0], fetch(tickers[0]))] + Segments(tickers[1..], fetch)
  }

  /** `"    |    ".join(segments) + "    |    "`. */
  function TapeText(segs: seq<string>): string {
    Join(segs, Separator) + Separator
  }

  /** Each segment followed by its own separator, concatenated: an independent
      reading of the tape text. */
  function Terminated(segs: seq<string>): string {
    if segs == [] then "" else segs[0] + Separator + Terminated(segs[1..])
  }

  /** For a non-empty ticker list the tape text is every segment followed by
      its own separator. */
  lemma {:induction false} TapeTextIsTerminated(segs: seq<string>)
    requires segs != []
    ensures TapeText(segs) == Terminated(segs)
  {
    if |segs| > 1 {
      TapeTextIsTerminated(segs[1..]);
    }
  }

  /** One iteration of the `while self.running` loop: the new tape text. */
  function FetchCycle(tickers: seq<string>, fetch: string -> History): (text: string)
    ensures |text| >= |Separator| && text[|text| - |Separator|..] == Separator
    ensures tickers == [] ==> text == Separator
    ensures tickers != [] ==>
      |text| > |tickers[0]| + 2 && text[..|tickers[0]| + 2] == tickers[0] + ": "
  {
    var segs := Segments(tickers, fetch);
    if tickers == [] then TapeText(segs)
    else
      JoinStartsWith(segs, Separator);
      var j := Join(segs, Separator);
      var n := |tickers[0]| + 2;
      assert segs[0][..n] == tickers[0] + ": ";
      assert j[..n] == segs[0][..n];
      assert (j + Separator)[..n] == j[..n];
      TapeText(segs)
  }

  /** Animation variables: the text last published by the fetch loop, the
      measured label width and the label's x position. */
  datatype Animation = Animation(text: string, textWidth: int, xPos: int)

  /** The state set up by the constructor: no text yet, width 0, x at the
      screen width. */
  function Initial(screenWidth: int): Animation {
    Animation("", 0, screenWidth)
  }

  /** The start-up state: the default list is free of duplicates, and until a
      fetch cycle publishes its text the animation idles at the right edge. */
  lemma StartUp(measured: int, screenWidth: int)
    ensures NoDuplicates(DefaultTickers)
    ensures Initial(screenWidth).xPos == screenWidth
    ensures Animate(Initial(screenWidth), measured, screenWidth) == Initial(screenWidth)
  {
  }

  /** The position update of one tick with label width `w`: two pixels left,
      and back to the screen width once the label is entirely off the left. */
  function Step(xPos: int, w: int, screenWidth: int): (x: int)
    ensures x == xPos - 2 || x == screenWidth
    ensures x == xPos - 2 <==> xPos - 2 >= -w || xPos - 2 == screenWidth
  {
    var moved := xPos - 2;
    if moved < -w then screenWidth else moved
  }

  /** `animate`: with no text it only reschedules itself; otherwise it takes
      the label's measured width and steps the position. */
  function Animate(a: Animation, measured: int, screenWidth: int): (r: Animation)
    ensures a.text == [] ==> r == a
    ensures a.text != [] ==> r.text == a.text && r.textWidth == measured
    ensures a.text != [] && a.xPos - 2 >= -measured ==> r.xPos == a.xPos - 2
    ensures a.text != [] && a.xPos - 2 < -measured ==> r.xPos == screenWidth
  {
    if a.text == [] then a
    else Animation(a.text, measured, Step(a.xPos, measured, screenWidth))
  }

  /** The label stays in the band from fully off-left to the screen's right
      edge, provided the width and the screen are not negative. */
  lemma AnimateKeepsBand(a: Animation, measured: int, screenWidth: int)
    requires a.text != [] && measured >= 0 && screenWidth >= 0
    requires a.xPos <= screenWidth
    ensures var r := Animate(a, measured, screenWidth);
      -r.textWidth <= r.xPos <= screenWidth
  {
  }

  /** `n` ticks with a fixed label width. */
  function Run(xPos: int, w: int, screenWidth: int, n: nat): int
    decreases n
  {
    if n == 0 then xPos else Run(Step(xPos, w, screenWidth), w, screenWidth, n - 1)
  }

  /** Number of ticks from the right edge until the label re-enters. */
  function Period(w: nat, screenWidth: nat): nat {
    (screenWidth + w) / 2 + 1
  }

  /** Starting at the screen width, the label moves two pixels per tick with no
      reset for `floor((screen_width + text_width) / 2)` ticks ... */
  lemma {:induction false} RunBeforeReset(w: nat, screenWidth: nat, k: nat)
    requires k < Period(w, screenWidth)
    ensures Run(screenWidth, w, screenWidth, k) == screenWidth - 2 * k
    ensures Run(screenWidth, w, screenWidth, k) + w >= 0
  {
    if k > 0 {
      RunSplit(screenWidth, w, screenWidth, k - 1);
      RunBeforeReset(w, screenWidth, k - 1);
    }
  }

  /** ... and the next tick is the reset: the label is back at the screen width
      after exactly `Period` ticks, and so the motion repeats with that period. */
  lemma ResetAfterPeriod(w: nat, screenWidth: nat)
    ensures Run(screenWidth, w, screenWidth, Period(w, screenWidth)) == screenWidth
    ensures forall k :: 0 < k < Period(w, screenWidth) ==>
      Run(screenWidth, w, screenWidth, k) < screenWidth
  {
    var p := Period(w, screenWidth);
    RunBeforeReset(w, screenWidth, p - 1);
    RunSplit(screenWidth, w, screenWidth, p - 1);
    forall k | 0 < k < p ensures Run(screenWidth, w, screenWidth, k) < screenWidth {
      RunBeforeReset(w, screenWidth, k);
    }
  }

  /** Running `n + 1` ticks is running `n` ticks and then one more. */
  lemma {:induction false} RunSplit(xPos: int, w: int, screenWidth: int, n: nat)
    decreases n
    ensures Run(xPos, w, screenWidth, n + 1) == Step(Run(xPos, w, screenWidth, n), w, screenWidth)
  {
    if n > 0 {
      RunSplit(Step(xPos, w, screenWidth), w, screenWidth, n - 1);
    }
  }

  /** Once a fetch cycle has published its text, the animation never idles
      again: the text is non-empty, so every tick measures the label and moves it. */
  lemma PublishedTextMoves(tickers: seq<string>, fetch: string -> History, a: Animation, measured: int, screenWidth: int)
    ensures var a' := a.(text := FetchCycle(tickers, fetch));
      Animate(a', measured, screenWidth) == Animation(a'.text, measured, Step(a.xPos, measured, screenWidth))
  {
  }
}
