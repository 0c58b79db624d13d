# Stock ticker tape and stock information app — a Dafny model

Two small Python desktop programs are modelled here:

- `w_ticker.py` is a borderless window that scrolls a tape of index quotes.
- `w_ai_share_main_third.py` is a stock information app with its own ticker tape, a quote cache, a daily-recommendations ranking and a CSV export of the output area.

Under the tkinter and yfinance glue are a few pure rules. The model states each of them as a Dafny function over `seq`, `map`, `string`, `int` and `real`, and proves what the code promises about it.

Modules and what they model:

- `Text` (text.dfy): Python's `strip`, `upper`, substring `in`, `split`, `join` and `split()[-1]`, over ASCII.
  - Whitespace is space, `\t`..`\r` and `\x1c`..`\x1f`.
  - `upper` maps `a`..`z` only.
- `Symbols` (symbols.dfy): the ordered ticker list.
  - `x in list`, `list.append`, `list.remove` (first occurrence) and `list.index` (first occurrence).
  - The "no duplicates" invariant.
- `TickerTape` (ticker_tape.dfy), for `w_ticker.py`:
  - the Add/Remove menu commands;
  - one cycle of the `fetch_data` loop, which builds the tape text;
  - the `animate` step, which moves the label two pixels left and resets it at the screen width.
- `StockTickers` (stock_tickers.dfy): the Add/Remove buttons of `w_ai_share_main_third.py`.
  - The entry is stripped before the emptiness test.
  - An add first validates the symbol.
- `StockQuotes` (stock_quotes.dfy):
  - the change-percent guard;
  - the text of the in-window ticker tape;
  - its `scroll_text` rotation and position counter.
- `StockCache` (stock_cache.dfy): `fetch_stock_data` with its 300-second per-symbol cache.
- `Recommendations` (recommendations.dfy): `display_daily_recommendations`, both as written and with a corrected ranking.
  - The loop looks up each fixed candidate through the cache.
  - The corrected ranking recommends the lowest known means first.
- `CsvExport` (export.dfy): the line parser of `export_to_csv`, and `display_stock_data` as the writer of the text it parses.
  - The parser is a state machine over the lines.
  - Each line becomes an `Action`: open a record, set a cell, fail, or skip.
  - `Perform`/`Run` apply the actions to the loop state.
  - The main theorem is a round trip. Exporting the text that `display_stock_data` writes for any list of valid blocks gives back exactly one record per block, in order. It holds for the corrected lookahead.

Oracles and parameters:

- The provider (`yf.Ticker(...)`) is an input datatype or a function parameter: `History`, `Lookup`, `Validation` or `Result`.
- The clock is the parameter `now`.
- The measured label width and the screen width are integer parameters.
- Price formatting (`:.2f`, `:+.2f`) is a `real -> string` parameter or a pre-rendered string.

Why the ranking is corrected:

- The provider's `recommendationMean` runs from 1 (strong buy) to 5 (strong sell).
- The method shows a list of "recommendations", so the lowest means should come first.
- The code sorts by `-mean` ascending, which puts the highest means first. See Findings.
- In the code, an unknown mean scores 0, which sorts after every known positive mean. The corrected ranking keeps unknown means after the known ones.

## Model

| member | source | states |
|---|---|---|
| Text.StripSpec | w_ai_share_main_third.py:100 | `strip()` leaves neither leading nor trailing whitespace, and gives the empty string exactly when the input is all whitespace |
| Text.StripPadded | w_ai_share_main_third.py:298 | stripping whitespace padding off a text that starts and ends visibly gives back that text |
| Text.StripIdempotent | w_ai_share_main_third.py:100 | stripping twice is stripping once |
| Text.UpperIdempotent | w_ai_share_main_third.py:100 | `upper()` leaves no lower-case letter, and upper-casing twice is upper-casing once |
| Text.Normalize | w_ticker.py:121 | `strip().upper()` has no lower-case letter, is empty exactly when the input is all whitespace, and has no whitespace at its ends |
| Text.NormalizeIdempotent | w_ticker.py:121 | normalising an already normalised symbol changes nothing |
| Text.JoinSplit | w_ai_share_main_third.py:305 | joining the parts of `split('\n')` with line breaks gives back the text |
| Text.SplitJoin | w_ai_share_main_third.py:305 | splitting a join of break-free lines gives back exactly those lines |
| Text.TrailingWordSpec | w_ai_share_main_third.py:314 | the trailing word is the whole non-whitespace run at the end of the line, preceded by whitespace or by nothing |
| Text.LastWordOfSuffix | w_ai_share_main_third.py:314 | `split()[-1]` of a line that ends in whitespace followed by one word is that word |
| Text.LastWordExists | w_ai_share_main_third.py:314 | a line with a visible character has a last word, so `split()[-1]` on a header line does not raise |
| Symbols.IndexOf | w_ai_share_main_third.py:320 | `list.index` returns the FIRST position holding the value: the value is there and nowhere before it |
| Symbols.AppendIfAbsent | w_ticker.py:122-123 | an absent symbol is appended at the end with the rest unchanged; a present one leaves the list as it was |
| Symbols.RemoveFirst | w_ticker.py:134-135 | `list.remove` cuts out exactly the first occurrence; an absent symbol leaves the list as it was |
| Symbols.RemoveFirstMultiset | w_ticker.py:135 | removal takes away exactly one copy of the symbol, and nothing else |
| Symbols.RemoveKeepsOrder | w_ai_share_main_third.py:134-135 | the symbols that remain keep their relative order |
| Symbols.AppendKeepsNoDuplicates | w_ai_share_main_third.py:118-119 | the guarded append keeps the list free of duplicates |
| Symbols.RemoveKeepsNoDuplicates | w_ai_share_main_third.py:134-135 | removal keeps the list free of duplicates, and afterwards the symbol is gone |
| Symbols.RemoveUndoesAppend | w_ticker.py:122-135 | removing a symbol right after appending it restores the list |
| TickerTape.AddTicker | w_ticker.py:117-127 | a cancelled or empty answer changes nothing; otherwise the normalised symbol is appended when absent and reported as a duplicate when present |
| TickerTape.RemoveTicker | w_ticker.py:129-139 | a cancelled or empty answer changes nothing; otherwise the first occurrence of the normalised symbol is cut out, or it is reported as not found |
| TickerTape.CommandsKeepNoDuplicates | w_ticker.py:117-139 | both menu commands keep the list free of duplicates |
| TickerTape.AddThenRemove | w_ticker.py:117-139 | a remove with the same answer right after a successful add restores the list, and a second add reports a duplicate |
| TickerTape.WhitespaceAnswerAddsEmptySymbol | w_ticker.py:120-123 | the emptiness test precedes `strip()`, so an all-whitespace answer appends the empty symbol |
| TickerTape.Segment | w_ticker.py:84-91 | each symbol's segment starts with `symbol: ` and is the price, `No data` or `Error` text according to that symbol's own fetch |
| TickerTape.Segments | w_ticker.py:80-91 | exactly one segment per symbol, in list order, each depending only on that symbol's fetch |
| TickerTape.TapeTextIsTerminated | w_ticker.py:92 | the joined tape with its extra separator is every segment followed by its own separator |
| TickerTape.FetchCycle | w_ticker.py:79-92 | the tape text always ends with the separator, is the separator alone for an empty list, and starts with the first symbol's `symbol: ` otherwise |
| TickerTape.StartUp | w_ticker.py:22-55 | the default list is free of duplicates, and until a fetch cycle publishes its text the animation idles at the right edge |
| TickerTape.Step | w_ticker.py:104-107 | a tick moves the label two pixels left, unless it then lies entirely off the left edge, in which case it resets to the screen width |
| TickerTape.Animate | w_ticker.py:95-111 | with no text the state is unchanged; otherwise the width is re-measured and the position stepped |
| TickerTape.AnimateKeepsBand | w_ticker.py:104-107 | with non-negative width and screen, the position stays between minus the width and the screen width |
| TickerTape.RunBeforeReset | w_ticker.py:104-107 | from the right edge the label moves two pixels per tick, with no reset, for the first `(screen + width) / 2` ticks |
| TickerTape.ResetAfterPeriod | w_ticker.py:104-107 | the reset happens after exactly `floor((screen + width) / 2) + 1` ticks, and not earlier |
| TickerTape.PublishedTextMoves | w_ticker.py:92-106 | once a fetch cycle has published its text, every animation tick measures and moves the label |
| StockQuotes.ChangePercent | w_ai_share_main_third.py:191 | the percentage is computed only behind a non-zero previous close (no division by zero), is `N/A` when the price is missing or the close unusable, and the `None` price raises |
| StockQuotes.TapeSegment | w_ai_share_main_third.py:150-161 | each segment starts with `ticker: ` and ends with the segment end `SegmentEnd`; it is the `N/A` segment exactly when the lookup or the price formatting fails, and shows the percentage exactly when one was computed |
| StockQuotes.TapeSegmentsAt | w_ai_share_main_third.py:149-161 | there is one segment per symbol, in list order, and each depends only on that symbol's own lookup, so a failure affects only its own segment |
| StockQuotes.TickerText | w_ai_share_main_third.py:148-161 | the text the loop accumulates with `+=` is the concatenation of all segments in list order; it is empty exactly for an empty list, and starts with the first symbol's segment |
| StockQuotes.DisplayText | w_ai_share_main_third.py:164-165 | the fallback message makes the label text never empty, and a non-empty tape text is shown as it is |
| StockQuotes.Rotate | w_ai_share_main_third.py:172 | the frame `text[pos:] + text[:pos]` is the text rotated left by `pos`, with the same length, and the text itself once `pos` reaches the length |
| StockQuotes.RotateIsPermutation | w_ai_share_main_third.py:172 | every frame shows the same characters as the text, each as often |
| StockQuotes.RotateInverse | w_ai_share_main_third.py:172 | rotating by `pos` and then by the rest of the length restores the text |
| StockQuotes.NextPos | w_ai_share_main_third.py:173 | the position stays below `len(text) + 50`, advances by one and wraps to 0 |
| StockQuotes.FirstCycle | w_ai_share_main_third.py:169-176 | in the first cycle the position counts the frames, and the last 50 frames show the text unrotated |
| StockQuotes.Periodic | w_ai_share_main_third.py:169-176 | after `len(text) + 50` frames the position is back at 0, and every later frame repeats the one a cycle earlier |
| StockCache.Build | w_ai_share_main_third.py:185-225 | the lookup becomes an error record exactly when it raised or the change computation hit a `None` price; otherwise the record holds the upper-cased symbol, the price, the mean and the retrieval time |
| StockCache.FetchStockData | w_ai_share_main_third.py:179-225 | an entry younger than 300 s is served unchanged; otherwise the provider is asked, a success is stored with the current time, and an error is returned without touching the cache |
| StockCache.FetchKeepsValid | w_ai_share_main_third.py:179-225 | every call keeps each cache entry a successful record of its own symbol, stamped no later than now |
| StockCache.CacheScenario | w_ai_share_main_third.py:181-221 | two calls within 300 s return the same record with the first call's time; a call 300 s or more later fetches again with the new time |
| StockCache.ErrorNotCached | w_ai_share_main_third.py:221-225 | after an error the next call, at any time, asks the provider again |
| StockTickers.AddTicker | w_ai_share_main_third.py:98-125 | an all-whitespace entry is rejected; a failed validation is reported before the duplicate test; a valid absent symbol is appended, a present one reported as a duplicate |
| StockTickers.RemoveTicker | w_ai_share_main_third.py:127-141 | an all-whitespace entry is rejected; a present symbol has its first occurrence cut out; an absent one is reported as not found |
| StockTickers.DefaultsValid | w_ai_share_main_third.py:78-87 | the default list is free of duplicates and of the empty symbol, the invariant the buttons keep |
| StockTickers.AddKeepsInvariant | w_ai_share_main_third.py:98-125 | an add keeps the list free of duplicates and of the empty symbol, and changes it only when it reports success |
| StockTickers.RemoveKeepsInvariant | w_ai_share_main_third.py:127-141 | a remove keeps the list free of duplicates and of the empty symbol, and changes it only when it reports success |
| StockTickers.AddThenRemove | w_ai_share_main_third.py:98-141 | a remove right after a successful add restores the list, and a repeated add reports a duplicate |
| StockTickers.CaseInsensitiveDuplicate | w_ai_share_main_third.py:100-125 | `aapl` and ` AAPL ` name one symbol: after adding one, the other is a duplicate |
| Recommendations.Collect | w_ai_share_main_third.py:340-345 | a `None` mean makes the whole method raise; otherwise the kept entries are exactly the successful lookups, once each and in order, each with its mean |
| Recommendations.SuccessesAreCandidates | w_ai_share_main_third.py:340-345 | there is one kept entry per successful lookup, and each stands for one of the lookups with its mean |
| Recommendations.Sort | w_ai_share_main_third.py:347 | the sort result is ordered by the key |
| Recommendations.SortPermutes | w_ai_share_main_third.py:347 | the sort is a permutation of its input |
| Recommendations.SortStable | w_ai_share_main_third.py:347 | the sort is stable: candidates with equal keys keep their relative order |
| Recommendations.Take | w_ai_share_main_third.py:348 | `[:3]` keeps the first `min(3, n)` candidates: a prefix of the list |
| Recommendations.WithKeyPrefix | w_ai_share_main_third.py:347-348 | keeping the candidates of one key turns a prefix into a prefix, so `[:3]` of a stable sort keeps the earliest candidates of each key |
| Recommendations.RankAsWrittenChosen | w_ai_share_main_third.py:343-348 | as written, the shown candidates are drawn from the candidates in ascending score, and no candidate left out scores lower than a shown one |
| Recommendations.RankAsWrittenStable | w_ai_share_main_third.py:343-348 | as written, for every score the shown candidates with that score are the first candidates with it, in candidate order, as the stable `list.sort` and `[:3]` give |
| Recommendations.RankAsWrittenSpec | w_ai_share_main_third.py:343-348 | as written, the chosen `min(3, n)` candidates and the rest split the candidates, the chosen ones ascend in score, and none left out scores lower |
| Recommendations.LargerMeansFirst | w_ai_share_main_third.py:344 | with score `-mean`, a larger known mean ranks first and a known positive mean ranks ahead of an unknown one |
| Recommendations.AsWrittenPicksSells | w_ai_share_main_third.py:343-348 | on means 1.0, 4.0, 4.5 and 5.0 the code shows the three most sell-leaning symbols |
| Recommendations.DailyRecommendationsAsWritten | w_ai_share_main_third.py:336-348 | the method raises exactly on a `None` mean; otherwise it shows `min(3, #successful)` of the successful lookups in ascending score order, no successful lookup left out scores lower than a shown one, and of equally scored lookups the earliest are shown, in lookup order; each shown entry stands for a successful lookup |
| Recommendations.IntendedOrderSpec | w_ai_share_main_third.py:336-348 | the corrected order is a permutation in which a known mean is preceded only by known means no larger than it |
| Recommendations.RankIntendedSpec | w_ai_share_main_third.py:336-348 | the corrected ranking chooses the lowest known means, in ascending order, and an unknown mean only after every known one |
| Recommendations.RankIntendedLowest | w_ai_share_main_third.py:336-348 | the corrected ranking leaves out no known mean lower than a shown one |
| Recommendations.RankIntendedChosen | w_ai_share_main_third.py:336-348 | the corrected ranking shows candidates drawn from the candidates, known means first and ascending, with no lower known mean left out |
| Recommendations.KnownsPrefix | w_ai_share_main_third.py:336-348 | splitting off the known and the unknown means turns a prefix into a prefix |
| Recommendations.KnownsConcat | w_ai_share_main_third.py:336-348 | splitting off the known and the unknown means distributes over concatenation |
| Recommendations.KnownsOfKnown | w_ai_share_main_third.py:336-348 | of candidates with known means, all are known and none unknown |
| Recommendations.UnknownsOfUnknown | w_ai_share_main_third.py:336-348 | of candidates with unknown means, all are unknown and none known |
| Recommendations.SortedKnownsAreKnown | w_ai_share_main_third.py:336-348 | sorting the known means keeps every one of them known |
| Recommendations.RankIntendedStable | w_ai_share_main_third.py:336-348 | the corrected ranking shows, for every known mean, the earliest candidates with it, and the candidates without a mean in candidate order |
| Recommendations.IntendedPicksBuys | w_ai_share_main_third.py:336-348 | on the same four means the corrected ranking shows the three most buy-leaning symbols |
| Recommendations.DailyRecommendations | w_ai_share_main_third.py:336-348 | the corrected method raises exactly on a `None` mean; otherwise it shows `min(3, #successful)` of the successful lookups, known means first and ascending, no successful lookup left out has a lower known mean, equal known means are shown earliest first in lookup order, and lookups without a mean follow in lookup order |
| Recommendations.FetchAll | w_ai_share_main_third.py:339-345 | the loop asks `fetch_stock_data` once per symbol, in order, each call seeing the cache the previous one left, and stops right after the first lookup with a `None` mean; a valid cache stays valid, and each successful record names its symbol |
| Recommendations.DailyFrom | w_ai_share_main_third.py:338-348 | the method raises exactly when the lookups stopped at a `None` mean, with the cache as of that lookup; otherwise every symbol was looked up and, of the successful lookups, it shows three or all if fewer, in ascending score, none left out scoring lower, the earliest first among equal scores, each a listed symbol standing for its lookup; the cache stays valid |
| Recommendations.NullMeanEndsLookups | w_ai_share_main_third.py:340-344 | a `None` mean on the first symbol makes the method raise with the cache holding that one lookup, so no later symbol is asked for |
| Recommendations.DisplayDailyRecommendations | w_ai_share_main_third.py:338-348 | over the fixed candidate list, of the successful lookups the method shows three or all if fewer, in ascending score, none left out scoring lower, the earliest first among equal scores, each a candidate symbol standing for its lookup; the cache stays valid |
| CsvExport.SplitAtColonSpec | w_ai_share_main_third.py:317 | `split(":", 1)` puts the line back together with the colon, and its key part has no colon |
| CsvExport.SplitAtColonOf | w_ai_share_main_third.py:317 | splitting `key:value` with a colon-free key gives back the key and the value |
| CsvExport.Decode | w_ai_share_main_third.py:311-321 | a line opens a record exactly when it holds the header marker, fails exactly when it is a ratings table header with nothing to read, and is skipped exactly when no branch applies |
| CsvExport.Apply | w_ai_share_main_third.py:311-321 | a loop step fails only on the failing read, and otherwise only appends non-empty records |
| CsvExport.Close | w_ai_share_main_third.py:322-323 | the final `if current_stock` appends only a non-empty record and keeps what was collected |
| CsvExport.Run | w_ai_share_main_third.py:310-323 | the loop keeps the records already collected and never adds an empty one |
| CsvExport.ExportText | w_ai_share_main_third.py:298-323 | the export warns exactly when the output area is all whitespace, and never produces an empty record |
| CsvExport.RunFailsIff | w_ai_share_main_third.py:310-323 | a run fails exactly when one of its steps is the failing read |
| CsvExport.ParseFailsIff | w_ai_share_main_third.py:319-321 | the export fails with an IndexError exactly when some ratings table header has no line to read |
| CsvExport.FailsOnlyOnLastLine | w_ai_share_main_third.py:319-321 | reading the following line, the export fails exactly when the last line is a ratings table header |
| CsvExport.AsWrittenFailsIff | w_ai_share_main_third.py:320 | as written, the export fails exactly when the last line is a ratings table header that occurs nowhere before it |
| CsvExport.DashLineSkipped | w_ai_share_main_third.py:316 | any line holding a dash, and neither marker, is dropped, whatever colon it has |
| CsvExport.OutputAreaTextTrimmed | w_ai_share_main_third.py:229-246 | the text of one or more displayed blocks starts and ends with a visible character |
| CsvExport.SplitDisplay | w_ai_share_main_third.py:305 | splitting the displayed text at line breaks gives back the displayed lines |
| CsvExport.DisplayActions | w_ai_share_main_third.py:227-247 | with the corrected lookahead, the lines `display_stock_data` writes for valid blocks open one record per block, set each field, skip the rules and titles, and read each block's own ratings row |
| CsvExport.DisplayRun | w_ai_share_main_third.py:310-323 | running the actions of one or more blocks appends one record per block, in order |
| CsvExport.ParseDisplay | w_ai_share_main_third.py:310-323 | with the corrected lookahead, parsing the lines of valid blocks gives one record per block |
| CsvExport.ExportRoundTrip | w_ai_share_main_third.py:227-323 | exporting the output area that holds the displayed blocks, with any whitespace around it, gives back exactly the blocks' records in order, or the warning when there are none |
| CsvExport.LookaheadAsWritten | w_ai_share_main_third.py:319-321 | as written, for two blocks with ratings, the second record gets the FIRST block's ratings row |
| CsvExport.LookaheadDiffers | w_ai_share_main_third.py:319-321 | when the two rows differ, the as-written export differs from the corrected one |
| CsvExport.ExportLookaheadAsWritten | w_ai_share_main_third.py:298-323 | the same misattribution at the level of the whole output area |

## Left out

- GUI: tkinter windows, labels, menus, message boxes, `root.after` scheduling and `winfo_*` measurements. Widths are integer parameters, and each report is an `Outcome` value.
- The background thread of `w_ticker.py`, `time.sleep` and the `running` flags. Concurrency is out of scope; one fetch cycle is one function call.
- yfinance calls. Lookups are input datatypes or oracle functions.
  - The add validation reduces to has-price, no-price or raised.
  - Every exception other than the `None`-price TypeError is one `Failed` lookup.
- YAML and JSON load/save, logging and the matplotlib chart (`show_chart`): I/O only.
- pandas: building the DataFrame and writing the CSV file. The export ends at the list of records, and a record is a map, so the key order of each dict (the CSV column order) is not kept.
- The ratings table's `to_string` layout. It is modelled as the header line followed by one row line.
- Floating point and formatting:
  - The percentage is a `real`.
  - `:.2f`/`:+.2f` rendering is a parameter.
  - Market-cap and dividend rounding are left out, and so are the record fields the code only copies from `info` (name, P/E, 52-week range, target, date).
- Unicode: `strip` and `upper` are modelled over ASCII whitespace and ASCII letters only.
- StockCache.Build: the record keeps only the symbol, price, change, mean and retrieval time, not every field the code copies.
- CsvExport.ExportRoundTrip: holds only for the corrected lookahead, and only for blocks of successful lookups that meet these conditions:
  - the ticker is one non-empty word, without whitespace;
  - field keys and values have no whitespace at their ends;
  - a field line has no dash, no colon in its key, no line break and neither marker;
  - the ratings row is non-empty, ends visibly, and has no colon, no line break and neither marker.
  - Error blocks (`display_stock_data` lines 232-234), the "Fetching data" line of `get_stock_info` and the recommendations title lines are parsed by the model, but they are not part of the round-trip statement.
  - Fields with a dash, such as dates and negative changes, are dropped by the code as written (CsvExport.DashLineSkipped), so they cannot round-trip.
- Recommendations.DailyRecommendationsAsWritten: the second `fetch_stock_data` call for each chosen symbol and its display are not modelled. Only the chosen symbols are returned.
- Recommendations.DailyFrom: the TypeError of a `None` mean is not caught anywhere, so it ends the program. The model returns `Aborted` with the cache as of the raising lookup.
- Recommendations.FetchAll: the clock is read once for the whole loop, where the code calls `time.time()` once per symbol.
- CsvExport.DisplayActions: proved only for the corrected lookahead. As written, a second block with ratings reads the first block's row (CsvExport.LookaheadAsWritten).
- CsvExport.ParseDisplay: proved only for the corrected lookahead, for the same reason.

## Findings

| source | as written | input that shows it | evidently intended | confidence | as-written member | corrected member |
|---|---|---|---|---|---|---|
| w_ai_share_main_third.py:344-348 | the score is `-mean` and the sort ascends, so the highest (most sell-leaning) analyst means are recommended first | candidates with means 1.0, 4.0, 4.5 and 5.0: the code recommends 5.0, 4.5 and 4.0 and leaves out the strong buy | recommend the lowest known means (most buy-leaning) in ascending order, with unknown means after the known ones | not executed; high that this is unintended, because on the provider's scale 1 is a strong buy and 5 a strong sell, and the method is meant to show recommendations | Recommendations.AsWrittenPicksSells | Recommendations.RankIntendedSpec |
| w_ai_share_main_third.py:320 | the ratings row is read with `lines[lines.index(line) + 1]`, i.e. after the FIRST line equal to the current header | two displayed blocks with ratings tables whose rows differ: the second record gets the first block's ratings row | read the line right after the current header | not executed; high, because every ratings header line `display_stock_data` writes for the same columns is identical | CsvExport.LookaheadAsWritten | CsvExport.ExportRoundTrip |
