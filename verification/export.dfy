/** The line parser of `export_to_csv` in w_ai_share_main_third.py: the text of
    the output area is cut into lines, and a small state machine turns the
    blocks written by `display_stock_data` back into one record per symbol. */
module CsvExport {
  import opened Text
  import opened Symbols

  /** One row of the exported table: column name to cell text. */
  type Record = map<string, string>

  /** A line containing this opens the record of a new symbol. */
  const HeaderMarker: string := "Investment Information for"

  /** A line containing this is never read as a `key: value` line. */
  const RatingsTitle: string := "Analyst Ratings"

  /** A line containing this is the header of the ratings table; the line
      after it holds the tally. */
  const RatingsHeader: string := "Strong Buy  Buy  Hold  Sell  Strong Sell"

  /** The column a header line fills with the symbol. */
  const TickerKey: string := "Ticker"

  datatype Option<T> = None | Some(value: T)

  /** What the export produces: the warning for an empty output area, the
      records, or the IndexError of a ratings header on the last line (the
      `except` branch that reports the failure). */
  datatype Export = NoData | Rows(records: seq<Record>) | IndexError

  /** The branch of the `for line in lines` loop a line takes, tested in the
      order the code tests them. */
  datatype Kind = Header | Field | Ratings | Other

  function Classify(line: string): Kind {
    if Contains(line, HeaderMarker) then Header
    else if ':' in line && !Contains(line, RatingsTitle) && '-' !in line then Field
    else if Contains(line, RatingsHeader) then Ratings
    else Other
  }

  /** `line.split(":", 1)`: the text before the first colon and the text after it. */
  function SplitAtColon(line: string): (string, string)
    requires ':' in line
  {
    if line[0] == ':' then ("", line[1..])
    else
      assert ':' in line[1..] by {
        var k :| 0 <= k < |line| && line[k] == ':';
        assert line[1..][k - 1] == ':';
      }
      var kv := SplitAtColon(line[1..]);
      ([line[0]] + kv.0, kv.1)
  }

  /** The split puts the line back together with the colon, and the key part
      holds no colon. */
  lemma {:induction false} SplitAtColonSpec(line: string)
    requires ':' in line
    ensures var kv := SplitAtColon(line); kv.0 + ":" + kv.1 == line && ':' !in kv.0
  {
    if line[0] != ':' {
      assert ':' in line[1..] by {
        var k :| 0 <= k < |line| && line[k] == ':';
        assert line[1..][k - 1] == ':';
      }
      SplitAtColonSpec(line[1..]);
      assert line == [line[0]] + line[1..];
    }
  }

  /** The split is the only one with a colon-free key: splitting `key:value`
      gives back `key` and `value`. */
  lemma {:induction false} SplitAtColonOf(key: string, value: string)
    requires ':' !in key
    ensures ':' in key + ":" + value
    ensures SplitAtColon(key + ":" + value) == (key, value)
  {
    var line := key + ":" + value;
    assert line[|key|] == ':';
    if key != [] {
      assert line[1..] == key[1..] + ":" + value;
      SplitAtColonOf(key[1..], value);
      assert [key[0]] + key[1..] == key;
    }
  }

  /** The loop variables: the records appended to `data` so far and
      `current_stock`. */
  datatype Parser = Parser(records: seq<Record>, current: Record)

  predicate NoEmptyRecord(rs: seq<Record>) {
    forall k :: 0 <= k < |rs| ==> rs[k] != map[]
  }

  /** `rs` is `prior` with records appended, none of them empty. */
  predicate Extends(rs: seq<Record>, prior: seq<Record>) {
    && |rs| >= |prior| && rs[..|prior|] == prior
    && forall k :: |prior| <= k < |rs| ==> rs[k] != map[]
  }

  /** `if current_stock: data.append(current_stock)`. */
  function Close(p: Parser): (rs: seq<Record>)
    ensures Extends(rs, p.records)
  {
    if p.current != map[] then p.records + [p.current] else p.records
  }

  /** What one line does to the loop state: open a new record for a symbol,
      set one cell of the current record, raise the IndexError of the ratings
      branch, or nothing. */
  datatype Action = Open(ticker: string) | Set(key: string, value: string) | Fail | Skip

  /** The branch of the loop body a line takes, with the values that branch
      reads. `next` is the line the ratings branch reads, or `None` when that
      read is out of range. */
  function Decode(line: string, next: Option<string>): (a: Action)
    ensures a.Open? <==> Classify(line) == Header
    ensures a.Fail? <==> Classify(line) == Ratings && next.None?
    ensures a.Skip? <==> Classify(line) == Other
  {
    match Classify(line)
    case Header => Open(LastWord(line))
    case Field =>
      var kv := SplitAtColon(line);
      Set(Strip(kv.0), Strip(kv.1))
    case Ratings =>
      if next.None? then Fail else Set(RatingsTitle, Strip(next.value))
    case Other => Skip
  }

  /** One iteration of the loop: a header line appends the open record (if it
      is not empty) and opens a new one holding the symbol. */
  function Apply(p: Parser, a: Action): (r: Option<Parser>)
    ensures r.None? <==> a.Fail?
    ensures r.Some? ==> Extends(r.value.records, p.records)
  {
    match a
    case Open(t) => Some(Parser(Close(p), map[TickerKey := t]))
    case Set(k, v) => Some(p.(current := p.current[k := v]))
    case Fail => None
    case Skip => Some(p)
  }

  /** Which line the ratings branch reads: the code reads the line after the
      FIRST line equal to the current one (`lines.index(line) + 1`); the
      corrected parser reads the line after the current one. */
  datatype Lookahead = FirstOccurrence | Following

  function Next(mode: Lookahead, lines: seq<string>, i: nat): (r: Option<string>)
    requires i < |lines|
    ensures mode == Following ==> (r.Some? <==> i + 1 < |lines|)
    ensures mode == Following && r.Some? ==> r.value == lines[i + 1]
  {
    match mode
    case FirstOccurrence =>
      var k := IndexOf(lines, lines[i]);
      if k + 1 < |lines| then Some(lines[k + 1]) else None
    case Following =>
      if i + 1 < |lines| then Some(lines[i + 1]) else None
  }

  /** The action of every line from index `i` on, in order. */
  function ActionsFrom(lines: seq<string>, i: nat, mode: Lookahead): (acts: seq<Action>)
    requires i <= |lines|
    ensures |acts| == |lines| - i
    decreases |lines| - i
  {
    if i == |lines| then [] else [Decode(lines[i], Next(mode, lines, i))] + ActionsFrom(lines, i + 1, mode)
  }

  /** The action of every line. */
  function Actions(lines: seq<string>, mode: Lookahead): seq<Action> {
    ActionsFrom(lines, 0, mode)
  }

  /** The action at position `k` is the action of line `k`. */
  lemma {:induction false} ActionAt(lines: seq<string>, i: nat, k: nat, mode: Lookahead)
    requires i <= k < |lines|
    ensures ActionsFrom(lines, i, mode)[k - i] == Decode(lines[k], Next(mode, lines, k))
    decreases k - i
  {
    var acts := ActionsFrom(lines, i, mode);
    if k > i {
      ActionAt(lines, i + 1, k, mode);
      assert acts[k - i] == acts[1..][k - (i + 1)];
    }
  }

  /** The actions applied one after another, without the final append;
      `None` once one of them fails. */
  function Perform(acts: seq<Action>, p: Parser): Option<Parser>
    decreases |acts|
  {
    if acts == [] then Some(p)
    else
      match Apply(p, acts[0])
      case None => None
      case Some(q) => Perform(acts[1..], q)
  }

  /** The loop over the actions and the final `if current_stock:
      data.append(current_stock)`. The records already collected are kept as
      they are, and no empty record is ever added. */
  function Run(acts: seq<Action>, p: Parser): (r: Export)
    ensures !r.NoData?
    ensures r.Rows? ==> Extends(r.records, p.records)
    decreases |acts|
  {
    if acts == [] then Rows(Close(p))
    else
      match Apply(p, acts[0])
      case None => IndexError
      case Some(q) =>
        var r := Run(acts[1..], q);
        ExtendsTrans(r, q.records, p.records);
        r
  }

  lemma ExtendsTrans(r: Export, mid: seq<Record>, prior: seq<Record>)
    requires Extends(mid, prior)
    requires r.Rows? ==> Extends(r.records, mid)
    ensures r.Rows? ==> Extends(r.records, prior)
  {
    if r.Rows? {
      assert r.records[..|prior|] == r.records[..|mid|][..|prior|];
    }
  }

  /** The loop over all lines, from the empty state. */
  function ParseLines(lines: seq<string>, mode: Lookahead): Export {
    Run(Actions(lines, mode), Parser([], map[]))
  }

  /** `export_to_csv` up to the DataFrame: strip the output text, warn when
      nothing is left, otherwise parse its lines. */
  function ExportText(content: string, mode: Lookahead): (r: Export)
    ensures r.NoData? <==> AllSpace(content)
    ensures r.Rows? ==> NoEmptyRecord(r.records)
  {
    StripSpec(content);
    var output := Strip(content);
    if output == [] then NoData else ParseLines(Split(output, '\n'), mode)
  }

  /** The export as written. */
  function ExportAsWritten(content: string): Export {
    ExportText(content, FirstOccurrence)
  }

  /** The export with the corrected lookahead. */
  function ExportRecords(content: string): Export {
    ExportText(content, Following)
  }

  /** Running two stretches of actions is running the first and then the
      second from where the first left off. */
  lemma {:induction false} RunConcat(a: seq<Action>, b: seq<Action>, p: Parser)
    ensures Run(a + b, p) ==
      match Perform(a, p)
      case None => IndexError
      case Some(q) => Run(b, q)
    decreases |a|
  {
    if a == [] {
      assert a + b == b;
    } else {
      assert (a + b)[0] == a[0];
      assert (a + b)[1..] == a[1..] + b;
      match Apply(p, a[0])
      case None =>
      case Some(q) => RunConcat(a[1..], b, q);
    }
  }

  /** The same for actions that end without the final append. */
  lemma {:induction false} PerformConcat(a: seq<Action>, b: seq<Action>, p: Parser)
    ensures Perform(a + b, p) ==
      match Perform(a, p)
      case None => None
      case Some(q) => Perform(b, q)
    decreases |a|
  {
    if a == [] {
      assert a + b == b;
    } else {
      assert (a + b)[0] == a[0];
      assert (a + b)[1..] == a[1..] + b;
      match Apply(p, a[0])
      case None =>
      case Some(q) => PerformConcat(a[1..], b, q);
    }
  }

  /** A run fails exactly when one of its actions is the failing read. */
  lemma {:induction false} RunFailsIff(acts: seq<Action>, p: Parser)
    ensures Run(acts, p).IndexError? <==> exists k :: 0 <= k < |acts| && acts[k].Fail?
    decreases |acts|
  {
    if acts != [] {
      match Apply(p, acts[0])
      case None =>
        assert acts[0].Fail?;
      case Some(q) =>
        RunFailsIff(acts[1..], q);
        if exists k :: 0 <= k < |acts| && acts[k].Fail? {
          var k :| 0 <= k < |acts| && acts[k].Fail?;
          assert acts[1..][k - 1].Fail?;
        }
        if exists k :: 0 <= k < |acts[1..]| && acts[1..][k].Fail? {
          var k :| 0 <= k < |acts[1..]| && acts[1..][k].Fail?;
          assert acts[k + 1].Fail?;
        }
    }
  }

  /** The export fails with an IndexError exactly when some ratings header
      line has no line to read after it. */
  lemma ParseFailsIff(lines: seq<string>, mode: Lookahead)
    ensures ParseLines(lines, mode).IndexError? <==>
      exists j :: 0 <= j < |lines| && Classify(lines[j]) == Ratings && Next(mode, lines, j).None?
  {
    var acts := Actions(lines, mode);
    RunFailsIff(acts, Parser([], map[]));
    if exists j :: 0 <= j < |lines| && Classify(lines[j]) == Ratings && Next(mode, lines, j).None? {
      var j :| 0 <= j < |lines| && Classify(lines[j]) == Ratings && Next(mode, lines, j).None?;
      FailAt(lines, j, mode);
    }
    if exists k :: 0 <= k < |acts| && acts[k].Fail? {
      var k :| 0 <= k < |acts| && acts[k].Fail?;
      FailAt(lines, k, mode);
    }
  }

  /** A line's action is the failing read exactly when it is a ratings table
      header with nothing to read. */
  lemma FailAt(lines: seq<string>, k: nat, mode: Lookahead)
    requires k < |lines|
    ensures Actions(lines, mode)[k].Fail? <==>
      Classify(lines[k]) == Ratings && Next(mode, lines, k).None?
  {
    ActionAt(lines, 0, k, mode);
  }

  /** With the corrected lookahead only the last line can fail: the export
      fails exactly when the last line holds the ratings table header. */
  lemma FailsOnlyOnLastLine(lines: seq<string>)
    ensures ParseLines(lines, Following).IndexError? <==>
      lines != [] && Classify(lines[|lines| - 1]) == Ratings
  {
    ParseFailsIff(lines, Following);
    if lines != [] && Classify(lines[|lines| - 1]) == Ratings {
      assert Next(Following, lines, |lines| - 1).None?;
    }
  }

  /** As written, the read fails exactly when the FIRST occurrence of a
      ratings header line is the last line: a ratings header that also
      appears earlier reads the line after that earlier copy instead. */
  lemma AsWrittenFailsIff(lines: seq<string>)
    ensures ParseLines(lines, FirstOccurrence).IndexError? <==>
      lines != [] && Classify(lines[|lines| - 1]) == Ratings &&
      lines[|lines| - 1] !in lines[..|lines| - 1]
  {
    ParseFailsIff(lines, FirstOccurrence);
    var n := |lines|;
    if exists j :: 0 <= j < n && Classify(lines[j]) == Ratings && Next(FirstOccurrence, lines, j).None? {
      var j :| 0 <= j < n && Classify(lines[j]) == Ratings && Next(FirstOccurrence, lines, j).None?;
      var k := IndexOf(lines, lines[j]);
      assert k == n - 1;
      assert lines[n - 1] == lines[j];
      assert lines[..n - 1] == lines[..k];
    }
    if n > 0 && Classify(lines[n - 1]) == Ratings && lines[n - 1] !in lines[..n - 1] {
      var k := IndexOf(lines, lines[n - 1]);
      assert Next(FirstOccurrence, lines, n - 1).None?;
    }
  }

  /** One symbol's block as `display_stock_data` writes it for a successful
      lookup: the symbol, the `key: value` lines in order, and the ratings
      table row when there is one. */
  datatype Block = Block(ticker: string, fields: seq<(string, string)>, ratings: Option<string>)

  /** Python's `c * n` for one character. */
  function Repeat(c: char, n: nat): (r: string)
    ensures |r| == n && forall k :: 0 <= k < n ==> r[k] == c
  {
    if n == 0 then [] else [c] + Repeat(c, n - 1)
  }

  /** `"-" * 50`. */
  const Rule: string := Repeat('-', 50)

  const SummaryTitle: string := "Analyst Ratings Summary (Last 30 Days)"

  const NoRatings: string := "No recent analyst ratings available."

  function HeaderLine(ticker: string): string {
    HeaderMarker + " " + ticker
  }

  function FieldLines(fields: seq<(string, string)>): (ls: seq<string>)
    ensures |ls| == |fields|
  {
    if fields == [] then [] else [fields[0].0 + ": " + fields[0].1] + FieldLines(fields[1..])
  }

  /** The symbol line and the rule under it. */
  function HeadLines(ticker: string): seq<string> {
    [HeaderLine(ticker), Rule]
  }

  /** The blank line, the title and the rule before the ratings. */
  const SummaryLines: seq<string> := ["", SummaryTitle, Rule]

  /** The ratings table (its header and one row), or the notice that there
      is none. */
  function RatingsLines(ratings: Option<string>): seq<string> {
    match ratings
    case None => [NoRatings]
    case Some(row) => [RatingsHeader, row]
  }

  /** The lines of one block, without the blank lines around it. */
  function BlockLines(b: Block): seq<string> {
    HeadLines(b.ticker) + FieldLines(b.fields) + SummaryLines + RatingsLines(b.ratings)
  }

  /** The lines of several blocks; two blank lines separate neighbours. */
  function DisplayLines(blocks: seq<Block>): seq<string> {
    if blocks == [] then []
    else if |blocks| == 1 then BlockLines(blocks[0])
    else BlockLines(blocks[0]) + ["", ""] + DisplayLines(blocks[1..])
  }

  /** A field line the parser reads back as it was written: the key has no
      colon, neither part has a dash or a line break or whitespace at its
      ends, and the line mentions neither marker. */
  predicate ValidField(f: (string, string)) {
    var line := f.0 + ": " + f.1;
    && ':' !in f.0 && '-' !in line && '\n' !in line
    && Strip(f.0) == f.0 && Strip(f.1) == f.1
    && !Contains(line, HeaderMarker) && !Contains(line, RatingsTitle)
  }

  /** A ratings row with no colon or line break, neither marker, and a
      non-blank last character. */
  predicate ValidRow(row: string) {
    && row != [] && !IsSpace(row[|row| - 1])
    && ':' !in row && '\n' !in row
    && !Contains(row, HeaderMarker) && !Contains(row, RatingsHeader)
  }

  /** A symbol is one non-empty word. */
  predicate ValidBlock(b: Block) {
    && b.ticker != [] && NoSpace(b.ticker)
    && (forall k :: 0 <= k < |b.fields| ==> ValidField(b.fields[k]))
    && (b.ratings.Some? ==> ValidRow(b.ratings.value))
  }

  predicate ValidBlocks(blocks: seq<Block>) {
    forall k :: 0 <= k < |blocks| ==> ValidBlock(blocks[k])
  }

  lemma ValidRest(blocks: seq<Block>)
    requires blocks != [] && ValidBlocks(blocks)
    ensures ValidBlock(blocks[0]) && ValidBlocks(blocks[1..])
  {
    forall k | 0 <= k < |blocks| - 1 ensures ValidBlock(blocks[1..][k]) {
      assert blocks[1..][k] == blocks[k + 1];
    }
  }

  /** The record of a block: the symbol, then the fields in order (a later
      key overwrites an earlier one), then the ratings cell. */
  function Fields(m: Record, fields: seq<(string, string)>): Record
    decreases |fields|
  {
    if fields == [] then m else Fields(m[fields[0].0 := fields[0].1], fields[1..])
  }

  /** The record of a block whose ratings cell reads `cell`. */
  function RatedRecord(b: Block, cell: string): (r: Record)
    ensures TickerKey in r
  {
    FieldsKeepKey(map[TickerKey := b.ticker], b.fields, TickerKey);
    var m := Fields(map[TickerKey := b.ticker], b.fields);
    if b.ratings.Some? then m[RatingsTitle := cell] else m
  }

  lemma {:induction false} FieldsKeepKey(m: Record, fields: seq<(string, string)>, key: string)
    requires key in m
    ensures key in Fields(m, fields)
    decreases |fields|
  {
    if fields != [] {
      FieldsKeepKey(m[fields[0].0 := fields[0].1], fields[1..], key);
    }
  }

  /** The record a block was written from: its ratings cell is the stripped row. */
  function BlockRecord(b: Block): Record {
    RatedRecord(b, if b.ratings.Some? then Strip(b.ratings.value) else "")
  }

  function BlockRecords(blocks: seq<Block>): (rs: seq<Record>)
    ensures |rs| == |blocks|
  {
    if blocks == [] then [] else [BlockRecord(blocks[0])] + BlockRecords(blocks[1..])
  }


  /** A line without a colon that mentions neither marker is skipped. */
  lemma ClassifyOther(line: string)
    requires ':' !in line
    requires !Contains(line, HeaderMarker) && !Contains(line, RatingsHeader)
    ensures Classify(line) == Other
  {
  }

  /** Without a capital I a line cannot hold the header marker. */
  lemma NoHeaderMarker(line: string)
    requires 'I' !in line
    ensures !Contains(line, HeaderMarker)
  {
    assert HeaderMarker[0] == 'I';
    MissingCharNotContained(line, HeaderMarker, 'I');
  }

  /** Without a capital B a line cannot hold the ratings table header. */
  lemma NoRatingsHeader(line: string)
    requires 'B' !in line
    ensures !Contains(line, RatingsHeader)
  {
    assert RatingsHeader[7] == 'B';
    MissingCharNotContained(line, RatingsHeader, 'B');
  }

  /** The characters of the fixed texts the classification depends on, one
      fact at a time. */
  lemma SummaryTitleNoColon() ensures ':' !in SummaryTitle {}
  lemma SummaryTitleNoI() ensures 'I' !in SummaryTitle {}
  lemma NoRatingsNoColon() ensures ':' !in NoRatings {}
  lemma NoRatingsNoI() ensures 'I' !in NoRatings {}
  lemma RatingsHeaderNoColon() ensures ':' !in RatingsHeader {}
  lemma RatingsHeaderNoI() ensures 'I' !in RatingsHeader {}
  lemma SummaryTitleNoBreak() ensures '\n' !in SummaryTitle {}
  lemma NoRatingsNoBreak() ensures '\n' !in NoRatings {}
  lemma RatingsHeaderNoBreak() ensures '\n' !in RatingsHeader {}
  lemma HeaderMarkerNoBreak() ensures '\n' !in HeaderMarker {}

  /** A text shorter than the ratings table header cannot hold it. */
  lemma ShortNoRatingsHeader(line: string)
    requires |line| < |RatingsHeader|
    ensures !Contains(line, RatingsHeader)
  {
  }

  lemma ClassifyRule()
    ensures Classify(Rule) == Other
  {
    assert forall k :: 0 <= k < |Rule| ==> Rule[k] == '-';
    NoHeaderMarker(Rule);
    NoRatingsHeader(Rule);
    ClassifyOther(Rule);
  }

  lemma ClassifySummaryTitle()
    ensures Classify(SummaryTitle) == Other
  {
    SummaryTitleNoColon();
    SummaryTitleNoI();
    NoHeaderMarker(SummaryTitle);
    ShortNoRatingsHeader(SummaryTitle);
    ClassifyOther(SummaryTitle);
  }

  lemma ClassifyNoRatings()
    ensures Classify(NoRatings) == Other
  {
    NoRatingsNoColon();
    NoRatingsNoI();
    NoHeaderMarker(NoRatings);
    ShortNoRatingsHeader(NoRatings);
    ClassifyOther(NoRatings);
  }

  lemma ClassifyRatingsHeader()
    ensures Classify(RatingsHeader) == Ratings
  {
    RatingsHeaderNoColon();
    RatingsHeaderNoI();
    NoHeaderMarker(RatingsHeader);
    ContainsPrefix(RatingsHeader, []);
    assert RatingsHeader + [] == RatingsHeader;
  }

  /** A header line opens a record for its symbol. */
  lemma ClassifyHeader(ticker: string)
    requires ticker != [] && NoSpace(ticker)
    ensures Classify(HeaderLine(ticker)) == Header
    ensures LastWord(HeaderLine(ticker)) == ticker
  {
    ContainsPrefix(HeaderMarker, " " + ticker);
    assert HeaderLine(ticker) == HeaderMarker + (" " + ticker);
    LastWordOfSuffix(HeaderMarker + " ", ticker);
  }

  /** A valid field line is read back as its own key and value. */
  lemma ClassifyField(f: (string, string))
    requires ValidField(f)
    ensures Classify(f.0 + ": " + f.1) == Field
    ensures SplitAtColon(f.0 + ": " + f.1) == (f.0, " " + f.1)
  {
    var line := f.0 + ": " + f.1;
    ColonSpace(f.0, f.1);
    SplitAtColonOf(f.0, " " + f.1);
    ClassifyFieldLine(line);
  }

  lemma ColonSpace(key: string, value: string)
    ensures key + ": " + value == key + ":" + (" " + value)
  {
  }

  lemma ClassifyFieldLine(line: string)
    requires ':' in line && '-' !in line
    requires !Contains(line, HeaderMarker) && !Contains(line, RatingsTitle)
    ensures Classify(line) == Field
  {
  }


  /** A line with no colon and no marker is skipped whatever follows it. */
  lemma DecodeOther(line: string, next: Option<string>)
    requires Classify(line) == Other
    ensures Decode(line, next) == Skip
  {
  }

  lemma BlankIsOther()
    ensures Classify("") == Other
  {
    NoHeaderMarker("");
    ShortNoRatingsHeader("");
    ClassifyOther("");
  }

  /** A header line opens a record for its symbol. */
  lemma DecodeHeader(ticker: string, next: Option<string>)
    requires ticker != [] && NoSpace(ticker)
    ensures Decode(HeaderLine(ticker), next) == Open(ticker)
  {
    ClassifyHeader(ticker);
  }

  /** A valid field line sets its key to its value. */
  lemma DecodeField(f: (string, string), next: Option<string>)
    requires ValidField(f)
    ensures Decode(f.0 + ": " + f.1, next) == Set(f.0, f.1)
  {
    ClassifyField(f);
    StripLeadingSpace(' ', f.1);
    assert " " + f.1 == [' '] + f.1;
  }

  /** The ratings table header stores the stripped line it reads. */
  lemma DecodeRatingsHeader(cell: string)
    ensures Decode(RatingsHeader, Some(cell)) == Set(RatingsTitle, Strip(cell))
  {
    ClassifyRatingsHeader();
  }

  /** A ratings row is skipped when the loop reaches it. */
  lemma DecodeRow(row: string, next: Option<string>)
    requires ValidRow(row)
    ensures Decode(row, next) == Skip
  {
    ClassifyOther(row);
  }

  /** A line that contains a dash and no marker is skipped, so a field whose
      key or value contains a dash (`52-Week High: 199.62`, a negative daily
      change, the retrieval date) never reaches the record. */
  lemma DashLineSkipped(line: string, next: Option<string>)
    requires '-' in line
    requires !Contains(line, HeaderMarker) && !Contains(line, RatingsHeader)
    ensures Decode(line, next) == Skip
  {
  }

  /** The actions of the field lines. */
  function FieldActs(fields: seq<(string, string)>): (acts: seq<Action>)
    ensures |acts| == |fields|
  {
    if fields == [] then [] else [Set(fields[0].0, fields[0].1)] + FieldActs(fields[1..])
  }

  /** The actions of the ratings lines when the header reads `cell`. */
  function RatingsActs(ratings: Option<string>, cell: string): (acts: seq<Action>)
    ensures |acts| == |RatingsLines(ratings)|
  {
    if ratings.Some? then [Set(RatingsTitle, Strip(cell)), Skip] else [Skip]
  }

  /** The actions of a block whose ratings header reads `cell`. */
  function BlockActs(b: Block, cell: string): (acts: seq<Action>)
    ensures |acts| == |BlockLines(b)|
  {
    [Open(b.ticker), Skip] + FieldActs(b.fields) + [Skip, Skip, Skip] + RatingsActs(b.ratings, cell)
  }

  /** The line a block's ratings header is followed by. */
  function Cell(b: Block): string {
    if b.ratings.Some? then b.ratings.value else ""
  }

  /** The actions of the lines of several blocks, each ratings header reading
      the row under it. */
  function DisplayActs(blocks: seq<Block>): (acts: seq<Action>)
    ensures |acts| == |DisplayLines(blocks)|
  {
    if blocks == [] then []
    else if |blocks| == 1 then BlockActs(blocks[0], Cell(blocks[0]))
    else BlockActs(blocks[0], Cell(blocks[0])) + [Skip, Skip] + DisplayActs(blocks[1..])
  }

  /** The line after a stretch of lines `y` that is followed by `after`. */
  function First(y: seq<string>, after: Option<string>): Option<string> {
    if y == [] then after else Some(y[0])
  }

  /** The actions of a stretch of lines under the corrected lookahead, where
      `after` is the line that follows the stretch (`None` at the end of the
      text): each ratings header reads the line right after it. */
  function Follow(lines: seq<string>, after: Option<string>): (acts: seq<Action>)
    ensures |acts| == |lines|
    decreases |lines|
  {
    if lines == [] then []
    else [Decode(lines[0], First(lines[1..], after))] + Follow(lines[1..], after)
  }

  /** The actions of two stretches are the actions of each, the first one
      followed by the first line of the second. */
  lemma {:induction false} FollowConcat(x: seq<string>, y: seq<string>, after: Option<string>)
    ensures Follow(x + y, after) == Follow(x, First(y, after)) + Follow(y, after)
    decreases |x|
  {
    if x == [] {
      assert x + y == y;
    } else {
      var xy := x + y;
      assert xy[0] == x[0];
      assert xy[1..] == x[1..] + y;
      FirstConcat(x[1..], y, after);
      FollowConcat(x[1..], y, after);
    }
  }

  lemma FirstConcat(x: seq<string>, y: seq<string>, after: Option<string>)
    ensures First(x + y, after) == First(x, First(y, after))
  {
    if x != [] {
      assert (x + y)[0] == x[0];
    } else {
      assert x + y == y;
    }
  }

  /** Under the corrected lookahead the loop's actions are `Follow`'s. */
  lemma {:induction false} FollowFrom(lines: seq<string>, i: nat)
    requires i <= |lines|
    ensures ActionsFrom(lines, i, Following) == Follow(lines[i..], None)
    decreases |lines| - i
  {
    if i < |lines| {
      FollowFrom(lines, i + 1);
      assert lines[i..][0] == lines[i];
      assert lines[i..][1..] == lines[i + 1..];
      if i + 1 < |lines| {
        assert lines[i + 1..][0] == lines[i + 1];
      }
    }
  }

  lemma FollowActions(lines: seq<string>)
    ensures Actions(lines, Following) == Follow(lines, None)
  {
    FollowFrom(lines, 0);
    assert lines[0..] == lines;
  }

  lemma FollowHead(ticker: string, after: Option<string>)
    requires ticker != [] && NoSpace(ticker)
    ensures Follow(HeadLines(ticker), after) == [Open(ticker), Skip]
  {
    var h := HeadLines(ticker);
    assert h[1..] == [Rule];
    assert h[1..][1..] == [];
    DecodeHeader(ticker, Some(Rule));
    ClassifyRule();
    DecodeOther(Rule, after);
  }

  lemma {:induction false} FollowFields(fields: seq<(string, string)>, after: Option<string>)
    requires forall k :: 0 <= k < |fields| ==> ValidField(fields[k])
    ensures Follow(FieldLines(fields), after) == FieldActs(fields)
    decreases |fields|
  {
    if fields != [] {
      var f := fields[0];
      var rest := fields[1..];
      var line := f.0 + ": " + f.1;
      assert FieldLines(fields) == [line] + FieldLines(rest);
      FollowConcat([line], FieldLines(rest), after);
      assert [line][1..] == [];
      DecodeField(f, First(FieldLines(rest), after));
      ValidFieldsRest(fields);
      FollowFields(rest, after);
    }
  }

  /** A skipped line contributes one `Skip`, whatever follows it. */
  lemma FollowSkipped(line: string, rest: seq<string>, after: Option<string>)
    requires Classify(line) == Other
    ensures Follow([line] + rest, after) == [Skip] + Follow(rest, after)
  {
    var s := [line] + rest;
    assert s[0] == line;
    assert s[1..] == rest;
    DecodeOther(line, First(rest, after));
  }

  lemma FollowSummary(after: Option<string>)
    ensures Follow(SummaryLines, after) == [Skip, Skip, Skip]
  {
    BlankIsOther();
    ClassifySummaryTitle();
    ClassifyRule();
    assert SummaryLines == [""] + ([SummaryTitle] + ([Rule] + []));
    FollowSkipped(Rule, [], after);
    FollowSkipped(SummaryTitle, [Rule] + [], after);
    FollowSkipped("", [SummaryTitle] + ([Rule] + []), after);
  }

  lemma FollowRatings(ratings: Option<string>, after: Option<string>)
    requires ratings.Some? ==> ValidRow(ratings.value)
    ensures Follow(RatingsLines(ratings), after) ==
      RatingsActs(ratings, if ratings.Some? then ratings.value else "")
  {
    var r := RatingsLines(ratings);
    if ratings.Some? {
      assert r[1..] == [ratings.value];
      assert r[1..][1..] == [];
      DecodeRatingsHeader(ratings.value);
      DecodeRow(ratings.value, after);
    } else {
      assert r[1..] == [];
      ClassifyNoRatings();
      DecodeOther(NoRatings, after);
    }
  }

  /** The lines of a valid block give the block's actions, its ratings header
      reading the row under it. */
  lemma FollowBlock(b: Block, after: Option<string>)
    requires ValidBlock(b)
    ensures Follow(BlockLines(b), after) == BlockActs(b, Cell(b))
  {
    var h := HeadLines(b.ticker);
    var fl := FieldLines(b.fields);
    var rl := RatingsLines(b.ratings);
    FollowConcat(h + fl + SummaryLines, rl, after);
    FollowConcat(h + fl, SummaryLines, First(rl, after));
    FollowConcat(h, fl, First(SummaryLines, First(rl, after)));
    FollowHead(b.ticker, First(fl, First(SummaryLines, First(rl, after))));
    FollowFields(b.fields, First(SummaryLines, First(rl, after)));
    FollowSummary(First(rl, after));
    FollowRatings(b.ratings, after);
  }

  /** The two blank lines between blocks are skipped. */
  lemma FollowSeparator(after: Option<string>)
    ensures Follow(["", ""], after) == [Skip, Skip]
  {
    assert ["", ""][1..] == [""];
    assert ["", ""][1..][1..] == [];
    BlankIsOther();
    DecodeOther("", Some(""));
    DecodeOther("", after);
  }

  lemma {:induction false} FollowDisplay(blocks: seq<Block>, after: Option<string>)
    requires ValidBlocks(blocks)
    ensures Follow(DisplayLines(blocks), after) == DisplayActs(blocks)
    decreases |blocks|
  {
    if blocks != [] {
      var b := blocks[0];
      if |blocks| == 1 {
        FollowBlock(b, after);
      } else {
        var rest := blocks[1..];
        var bl := BlockLines(b);
        var rl := DisplayLines(rest);
        FollowConcat(bl + ["", ""], rl, after);
        FollowConcat(bl, ["", ""], First(rl, after));
        FollowBlock(b, First(["", ""], First(rl, after)));
        FollowSeparator(First(rl, after));
        ValidRest(blocks);
        FollowDisplay(rest, after);
      }
    }
  }

  /** With the corrected lookahead, the lines of valid blocks decode to the
      blocks' actions. */
  lemma DisplayActions(blocks: seq<Block>)
    requires ValidBlocks(blocks)
    ensures Actions(DisplayLines(blocks), Following) == DisplayActs(blocks)
  {
    FollowActions(DisplayLines(blocks));
    FollowDisplay(blocks, None);
  }

  /** The field actions set the fields, in order. */
  lemma {:induction false} PerformFields(fields: seq<(string, string)>, p: Parser)
    ensures Perform(FieldActs(fields), p) == Some(p.(current := Fields(p.current, fields)))
    decreases |fields|
  {
    if fields != [] {
      var acts := FieldActs(fields);
      var q := p.(current := p.current[fields[0].0 := fields[0].1]);
      assert acts[0] == Set(fields[0].0, fields[0].1);
      assert acts[1..] == FieldActs(fields[1..]);
      PerformFields(fields[1..], q);
    } else {
      assert p.(current := Fields(p.current, fields)) == p;
    }
  }

  /** A block's actions append the open record (if any) and leave the
      block's own record open. */
  lemma PerformBlock(b: Block, cell: string, p: Parser)
    ensures Perform(BlockActs(b, cell), p) == Some(Parser(Close(p), RatedRecord(b, Strip(cell))))
  {
    var ha := [Open(b.ticker), Skip];
    var fa := FieldActs(b.fields);
    var sa := [Skip, Skip, Skip];
    var ra := RatingsActs(b.ratings, cell);
    PerformConcat(ha + fa + sa, ra, p);
    PerformConcat(ha + fa, sa, p);
    PerformConcat(ha, fa, p);
    var q0 := Parser(Close(p), map[TickerKey := b.ticker]);
    assert Perform(ha, p) == Some(q0);
    PerformFields(b.fields, q0);
    var q1 := q0.(current := Fields(q0.current, b.fields));
    assert Perform(sa, q1) == Some(q1);
  }

  /** A block's own record is never empty, so closing it appends it. */
  lemma BlockStep(b: Block, p: Parser)
    ensures Perform(BlockActs(b, Cell(b)), p) == Some(Parser(Close(p), BlockRecord(b)))
    ensures Close(Parser(Close(p), BlockRecord(b))) == Close(p) + [BlockRecord(b)]
  {
    PerformBlock(b, Cell(b), p);
    assert TickerKey in BlockRecord(b);
  }

  /** A block that ends the text appends its record. */
  lemma RunLastBlock(b: Block, p: Parser)
    ensures Run(BlockActs(b, Cell(b)), p) == Rows(Close(p) + [BlockRecord(b)])
  {
    var ba := BlockActs(b, Cell(b));
    BlockStep(b, p);
    RunConcat(ba, [], p);
    assert ba + [] == ba;
  }

  /** A block and the two blank lines after it leave the block's record
      open for the blocks that follow. */
  lemma RunBlockThen(b: Block, rest: seq<Action>, p: Parser)
    ensures Run(BlockActs(b, Cell(b)) + [Skip, Skip] + rest, p) ==
      Run(rest, Parser(Close(p), BlockRecord(b)))
  {
    var ba := BlockActs(b, Cell(b));
    var q := Parser(Close(p), BlockRecord(b));
    BlockStep(b, p);
    RunConcat(ba + [Skip, Skip], rest, p);
    PerformConcat(ba, [Skip, Skip], p);
    assert Perform([Skip, Skip], q) == Some(q);
  }

  /** Running the actions of one or more blocks appends one record per
      block, in order. */
  lemma {:induction false} DisplayRun(blocks: seq<Block>, p: Parser)
    requires blocks != []
    ensures Run(DisplayActs(blocks), p) == Rows(Close(p) + BlockRecords(blocks))
    decreases |blocks|
  {
    var b := blocks[0];
    var r := BlockRecord(b);
    if |blocks| == 1 {
      RunLastBlock(b, p);
      assert BlockRecords(blocks) == [r];
    } else {
      var rest := blocks[1..];
      var q := Parser(Close(p), r);
      RunBlockThen(b, DisplayActs(rest), p);
      BlockStep(b, p);
      DisplayRun(rest, q);
      assert BlockRecords(blocks) == [r] + BlockRecords(rest);
      assert Close(q) + BlockRecords(rest) == Close(p) + BlockRecords(blocks);
    }
  }

  /** No line holds a line break. */
  predicate NoBreaks(lines: seq<string>) {
    forall k :: 0 <= k < |lines| ==> '\n' !in lines[k]
  }

  lemma NoBreaksConcat(a: seq<string>, b: seq<string>)
    requires NoBreaks(a) && NoBreaks(b)
    ensures NoBreaks(a + b)
  {
    forall k | 0 <= k < |a + b| ensures '\n' !in (a + b)[k] {
      if k >= |a| {
        assert (a + b)[k] == b[k - |a|];
      }
    }
  }

  lemma RuleNoBreak()
    ensures '\n' !in Rule
  {
    assert forall k :: 0 <= k < |Rule| ==> Rule[k] == '-';
  }

  lemma HeaderNoBreak(ticker: string)
    requires NoSpace(ticker)
    ensures '\n' !in HeaderLine(ticker)
  {
    HeaderMarkerNoBreak();
    assert '\n' !in ticker by {
      assert IsSpace('\n');
    }
    assert HeaderLine(ticker) == HeaderMarker + (" " + ticker);
  }

  lemma SummaryNoBreaks()
    ensures NoBreaks(SummaryLines)
  {
    RuleNoBreak();
    SummaryTitleNoBreak();
    assert '\n' !in "";
  }

  lemma RatingsNoBreaks(ratings: Option<string>)
    requires ratings.Some? ==> ValidRow(ratings.value)
    ensures NoBreaks(RatingsLines(ratings))
  {
    if ratings.Some? {
      RatingsHeaderNoBreak();
    } else {
      NoRatingsNoBreak();
    }
  }

  lemma {:induction false} FieldsNoBreaks(fields: seq<(string, string)>)
    requires forall k :: 0 <= k < |fields| ==> ValidField(fields[k])
    ensures NoBreaks(FieldLines(fields))
    decreases |fields|
  {
    if fields != [] {
      var line := fields[0].0 + ": " + fields[0].1;
      ValidFieldsRest(fields);
      FieldNoBreak(fields[0]);
      FieldsNoBreaks(fields[1..]);
      NoBreaksConcat([line], FieldLines(fields[1..]));
    }
  }

  lemma FieldNoBreak(f: (string, string))
    requires ValidField(f)
    ensures '\n' !in f.0 + ": " + f.1
  {
  }

  lemma BlockNoBreaks(b: Block)
    requires ValidBlock(b)
    ensures NoBreaks(BlockLines(b))
  {
    var h := HeadLines(b.ticker);
    var fl := FieldLines(b.fields);
    var rl := RatingsLines(b.ratings);
    RuleNoBreak();
    HeaderNoBreak(b.ticker);
    assert NoBreaks(h);
    FieldsNoBreaks(b.fields);
    SummaryNoBreaks();
    RatingsNoBreaks(b.ratings);
    NoBreaksConcat(h, fl);
    NoBreaksConcat(h + fl, SummaryLines);
    NoBreaksConcat(h + fl + SummaryLines, rl);
  }

  lemma {:induction false} DisplayNoBreaks(blocks: seq<Block>)
    requires ValidBlocks(blocks)
    ensures NoBreaks(DisplayLines(blocks))
    decreases |blocks|
  {
    if blocks != [] {
      BlockNoBreaks(blocks[0]);
      if |blocks| > 1 {
        var rest := blocks[1..];
        ValidRest(blocks);
        DisplayNoBreaks(rest);
        assert NoBreaks(["", ""]);
        NoBreaksConcat(BlockLines(blocks[0]), ["", ""]);
        NoBreaksConcat(BlockLines(blocks[0]) + ["", ""], DisplayLines(rest));
      }
    }
  }

  /** The display of one or more blocks starts with the first symbol line. */
  lemma DisplayFirst(blocks: seq<Block>)
    requires blocks != []
    ensures DisplayLines(blocks) != [] && DisplayLines(blocks)[0] == HeaderLine(blocks[0].ticker)
  {
    var b := blocks[0];
    var bl := BlockLines(b);
    assert bl[0] == HeaderLine(b.ticker);
    if |blocks| > 1 {
      assert DisplayLines(blocks)[0] == (bl + ["", ""])[0];
    }
  }

  /** ... and ends with the last block's ratings row or notice. */
  lemma {:induction false} DisplayLast(blocks: seq<Block>)
    requires blocks != []
    ensures var ls := DisplayLines(blocks); var r := RatingsLines(blocks[|blocks| - 1].ratings);
      ls != [] && ls[|ls| - 1] == r[|r| - 1]
    decreases |blocks|
  {
    var b := blocks[0];
    if |blocks| == 1 {
      var r := RatingsLines(b.ratings);
      assert BlockLines(b)[|BlockLines(b)| - 1] == r[|r| - 1];
    } else {
      var rest := blocks[1..];
      DisplayLast(rest);
      assert rest[|rest| - 1] == blocks[|blocks| - 1];
      var ls := DisplayLines(blocks);
      assert ls == BlockLines(b) + ["", ""] + DisplayLines(rest);
    }
  }

  /** The text of the output area: the blocks' lines joined by line breaks. */
  function OutputAreaText(blocks: seq<Block>): string {
    Join(DisplayLines(blocks), "\n")
  }

  /** `s` starts with a visible character. */
  predicate StartsVisible(s: string) {
    s != [] && !IsSpace(s[0])
  }

  /** `s` ends with a visible character. */
  predicate EndsVisible(s: string) {
    s != [] && !IsSpace(s[|s| - 1])
  }

  /** The text of one or more blocks starts and ends with a visible character. */
  lemma OutputAreaTextTrimmed(blocks: seq<Block>)
    requires blocks != [] && ValidBlocks(blocks)
    ensures StartsVisible(OutputAreaText(blocks)) && EndsVisible(OutputAreaText(blocks))
  {
    var ls := DisplayLines(blocks);
    DisplayFirst(blocks);
    HeaderStartsVisible(blocks[0].ticker);
    DisplayLast(blocks);
    RatingsEndVisible(blocks[|blocks| - 1]);
    JoinVisibleEnds(ls, "\n");
  }

  lemma HeaderStartsVisible(ticker: string)
    ensures StartsVisible(HeaderLine(ticker))
  {
    assert HeaderLine(ticker)[0] == HeaderMarker[0] == 'I';
  }

  lemma RatingsEndVisible(b: Block)
    requires ValidBlock(b)
    ensures var r := RatingsLines(b.ratings); EndsVisible(r[|r| - 1])
  {
    if b.ratings.None? {
      assert NoRatings[|NoRatings| - 1] == '.';
    }
  }

  /** Lines that start and end visible join into a text that does. */
  lemma JoinVisibleEnds(ls: seq<string>, sep: string)
    requires ls != [] && StartsVisible(ls[0]) && EndsVisible(ls[|ls| - 1])
    ensures StartsVisible(Join(ls, sep)) && EndsVisible(Join(ls, sep))
  {
    var t := Join(ls, sep);
    var l := ls[|ls| - 1];
    JoinStartsWith(ls, sep);
    assert t[0] == t[..|ls[0]|][0];
    JoinEndsWith(ls, sep);
    assert t[|t| - 1] == t[|t| - |l|..][|l| - 1];
  }

  /** Text padded with whitespace exports what its lines parse to. */
  lemma ExportOfText(pre: string, t: string, post: string, mode: Lookahead)
    requires AllSpace(pre) && AllSpace(post)
    requires StartsVisible(t) && EndsVisible(t)
    ensures ExportText(pre + t + post, mode) == ParseLines(Split(t, '\n'), mode)
  {
    StripPadded(pre, t, post);
    StripSpec(pre + t + post);
  }

  /** Whitespace alone exports nothing. */
  lemma ExportOfSpace(pre: string, t: string, post: string)
    requires AllSpace(pre) && AllSpace(post) && t == []
    ensures ExportRecords(pre + t + post) == NoData
  {
    var content := pre + t + post;
    forall k | 0 <= k < |content| ensures IsSpace(content[k]) {
      if k >= |pre| {
        assert content[k] == post[k - |pre|];
      }
    }
  }

  /** Splitting the text of valid blocks at the line breaks gives their lines. */
  lemma SplitDisplay(blocks: seq<Block>)
    requires blocks != []
    requires ValidBlocks(blocks)
    ensures Split(OutputAreaText(blocks), '\n') == DisplayLines(blocks)
  {
    DisplayNoBreaks(blocks);
    DisplayFirst(blocks);
    SplitLines(DisplayLines(blocks));
  }

  /** Line-break-free lines come back from their join. */
  lemma SplitLines(ls: seq<string>)
    requires ls != [] && NoBreaks(ls)
    ensures Split(Join(ls, "\n"), '\n') == ls
  {
    SplitJoin(ls, '\n');
  }

  /** Parsing the lines of valid blocks gives one record per block. */
  lemma ParseDisplay(blocks: seq<Block>)
    requires blocks != []
    requires ValidBlocks(blocks)
    ensures ParseLines(DisplayLines(blocks), Following) == Rows(BlockRecords(blocks))
  {
    DisplayActions(blocks);
    ParseOf(DisplayLines(blocks), DisplayActs(blocks));
    StartRun(blocks);
  }

  lemma ParseOf(lines: seq<string>, acts: seq<Action>)
    requires Actions(lines, Following) == acts
    ensures ParseLines(lines, Following) == Run(acts, Parser([], map[]))
  {
  }

  /** From the empty state, the blocks' actions give their records. */
  lemma StartRun(blocks: seq<Block>)
    requires blocks != []
    ensures Run(DisplayActs(blocks), Parser([], map[])) == Rows(BlockRecords(blocks))
  {
    DisplayRun(blocks, Parser([], map[]));
    assert Close(Parser([], map[])) == [];
    assert [] + BlockRecords(blocks) == BlockRecords(blocks);
  }

  /** The round trip of the corrected export: the text `display_stock_data`
      writes for valid blocks, with any whitespace around it, exports one
      record per block, in order; no blocks means the "no data" warning. */
  lemma ExportRoundTrip(pre: string, blocks: seq<Block>, post: string)
    requires AllSpace(pre) && AllSpace(post)
    requires ValidBlocks(blocks)
    ensures ExportRecords(pre + OutputAreaText(blocks) + post) ==
      if blocks == [] then NoData else Rows(BlockRecords(blocks))
  {
    if blocks == [] {
      ExportOfSpace(pre, OutputAreaText(blocks), post);
    } else {
      ExportBlocks(pre, blocks, post);
    }
  }

  lemma ExportBlocks(pre: string, blocks: seq<Block>, post: string)
    requires AllSpace(pre) && AllSpace(post)
    requires blocks != []
    requires ValidBlocks(blocks)
    ensures ExportRecords(pre + OutputAreaText(blocks) + post) == Rows(BlockRecords(blocks))
  {
    OutputAreaTextTrimmed(blocks);
    SplitDisplay(blocks);
    ParseDisplay(blocks);
    ExportOfText(pre, OutputAreaText(blocks), post, Following);
  }

  /** Where a block's ratings table header sits among its lines. */
  function RatingsIndex(b: Block): nat {
    |b.fields| + 5
  }

  /** No line of `lines` but the one at index `j` is a ratings table header
      line (none is when `j` is negative). */
  predicate RatingsOnlyAt(lines: seq<string>, j: int) {
    forall k :: 0 <= k < |lines| && Classify(lines[k]) == Ratings ==> k == j
  }

  lemma RatingsOnlyConcat(x: seq<string>, i: int, y: seq<string>, j: int)
    requires RatingsOnlyAt(x, i) && RatingsOnlyAt(y, j)
    requires i < 0 || j < 0
    ensures RatingsOnlyAt(x + y, if j < 0 then i else |x| + j)
  {
    forall k | 0 <= k < |x + y| && Classify((x + y)[k]) == Ratings
      ensures k == (if j < 0 then i else |x| + j)
    {
      if k < |x| {
        assert (x + y)[k] == x[k];
      } else {
        assert (x + y)[k] == y[k - |x|];
      }
    }
  }

  lemma {:induction false} FieldsRatingsFree(fields: seq<(string, string)>)
    requires forall k :: 0 <= k < |fields| ==> ValidField(fields[k])
    ensures RatingsOnlyAt(FieldLines(fields), -1)
    decreases |fields|
  {
    if fields != [] {
      var line := fields[0].0 + ": " + fields[0].1;
      ValidFieldsRest(fields);
      FieldLineKind(fields[0]);
      assert RatingsOnlyAt([line], -1);
      FieldsRatingsFree(fields[1..]);
      RatingsOnlyConcat([line], -1, FieldLines(fields[1..]), -1);
    }
  }

  lemma ValidFieldsRest(fields: seq<(string, string)>)
    requires fields != [] && forall k :: 0 <= k < |fields| ==> ValidField(fields[k])
    ensures ValidField(fields[0]) && forall k :: 0 <= k < |fields| - 1 ==> ValidField(fields[1..][k])
  {
    forall k | 0 <= k < |fields| - 1 ensures ValidField(fields[1..][k]) {
      assert fields[1..][k] == fields[k + 1];
    }
  }

  /** A valid field line takes the field branch. */
  lemma FieldLineKind(f: (string, string))
    requires ValidField(f)
    ensures Classify(f.0 + ": " + f.1) == Field
  {
    var line := f.0 + ": " + f.1;
    assert line[|f.0|] == ':';
    ClassifyFieldLine(line);
  }

  lemma RatingsLinesAt(ratings: Option<string>)
    requires ratings.Some? ==> ValidRow(ratings.value)
    ensures RatingsOnlyAt(RatingsLines(ratings), if ratings.Some? then 0 else -1)
  {
    if ratings.Some? {
      ClassifyOther(ratings.value);
    } else {
      ClassifyNoRatings();
    }
  }

  /** The only ratings table header line of a valid block is its own. */
  lemma BlockRatingsOnly(b: Block)
    requires ValidBlock(b)
    ensures RatingsOnlyAt(BlockLines(b), if b.ratings.Some? then RatingsIndex(b) else -1)
  {
    var h := HeadLines(b.ticker);
    var fl := FieldLines(b.fields);
    HeadRatingsFree(b.ticker);
    FieldsRatingsFree(b.fields);
    SummaryRatingsFree();
    RatingsLinesAt(b.ratings);
    RatingsOnlyConcat(h, -1, fl, -1);
    RatingsOnlyConcat(h + fl, -1, SummaryLines, -1);
    RatingsOnlyConcat(h + fl + SummaryLines, -1, RatingsLines(b.ratings), if b.ratings.Some? then 0 else -1);
  }

  lemma HeadRatingsFree(ticker: string)
    requires ticker != [] && NoSpace(ticker)
    ensures RatingsOnlyAt(HeadLines(ticker), -1)
  {
    ClassifyHeader(ticker);
    ClassifyRule();
  }

  lemma SummaryRatingsFree()
    ensures RatingsOnlyAt(SummaryLines, -1)
  {
    BlankIsOther();
    ClassifySummaryTitle();
    ClassifyRule();
  }

  lemma SeparatorRatingsFree()
    ensures RatingsOnlyAt(["", ""], -1)
  {
    BlankIsOther();
  }

  /** A rated block holds the ratings table header and then its row. */
  lemma RatingsLineAt(b: Block)
    requires b.ratings.Some?
    ensures var bl := BlockLines(b);
      RatingsIndex(b) + 1 < |bl| && bl[RatingsIndex(b)] == RatingsHeader &&
      bl[RatingsIndex(b) + 1] == b.ratings.value
  {
    var pre := HeadLines(b.ticker) + FieldLines(b.fields) + SummaryLines;
    assert BlockLines(b) == pre + [RatingsHeader, b.ratings.value];
  }

  /** A rated block's actions depend on what its header reads only at the
      header. */
  lemma BlockActsCell(b: Block, c: string, d: string, k: nat)
    requires b.ratings.Some? && k < |BlockLines(b)|
    ensures BlockActs(b, c)[k] ==
      if k == RatingsIndex(b) then Set(RatingsTitle, Strip(c)) else BlockActs(b, d)[k]
  {
    var pre := [Open(b.ticker), Skip] + FieldActs(b.fields) + [Skip, Skip, Skip];
    assert BlockActs(b, c) == pre + [Set(RatingsTitle, Strip(c)), Skip];
    assert BlockActs(b, d) == pre + [Set(RatingsTitle, Strip(d)), Skip];
  }

  /** Two rated blocks, written one after the other. */
  function Pair(b1: Block, b2: Block): seq<string> {
    BlockLines(b1) + ["", ""] + BlockLines(b2)
  }

  lemma PairLines(b1: Block, b2: Block)
    ensures DisplayLines([b1, b2]) == Pair(b1, b2)
  {
    assert [b1, b2][1..] == [b2];
  }

  /** In the text of two rated blocks, no ratings table header comes before
      the first block's. */
  lemma FirstRatingsHeader(b1: Block, b2: Block)
    requires ValidBlock(b1) && b1.ratings.Some?
    ensures RatingsHeader !in Pair(b1, b2)[..RatingsIndex(b1)]
  {
    var lines := Pair(b1, b2);
    var j := RatingsIndex(b1);
    BlockRatingsOnly(b1);
    ClassifyRatingsHeader();
    forall i | 0 <= i < j ensures lines[..j][i] != RatingsHeader {
      assert lines[..j][i] == BlockLines(b1)[i];
    }
  }

  /** The ratings table header lines of two rated blocks are the two
      blocks' own. */
  lemma PairRatingsLines(b1: Block, b2: Block, k: nat)
    requires ValidBlock(b1) && ValidBlock(b2) && b1.ratings.Some? && b2.ratings.Some?
    requires k < |Pair(b1, b2)| && Classify(Pair(b1, b2)[k]) == Ratings
    ensures k == RatingsIndex(b1) || k == |BlockLines(b1)| + 2 + RatingsIndex(b2)
    ensures Pair(b1, b2)[k] == RatingsHeader
  {
    var lines := Pair(b1, b2);
    var n1 := |BlockLines(b1)| + 2;
    BlockRatingsOnly(b1);
    BlockRatingsOnly(b2);
    SeparatorRatingsFree();
    RatingsOnlyConcat(BlockLines(b1), RatingsIndex(b1), ["", ""], -1);
    RatingsLineAt(b1);
    RatingsLineAt(b2);
    if k < n1 {
      assert lines[k] == (BlockLines(b1) + ["", ""])[k];
      assert lines[k] == BlockLines(b1)[k];
    } else {
      assert lines[k] == BlockLines(b2)[k - n1];
    }
  }

  /** A line that is not a ratings table header ignores what follows it. */
  lemma DecodeIgnoresNext(line: string, next: Option<string>, other: Option<string>)
    requires Classify(line) != Ratings
    ensures Decode(line, next) == Decode(line, other)
  {
  }

  /** Under the lookahead as written, every ratings table header line reads
      the line after the first one, at `j`. */
  lemma ReadsAfterFirst(lines: seq<string>, k: nat, j: nat, other: nat)
    requires k < |lines| && j + 1 < |lines|
    requires lines[j] == RatingsHeader && RatingsHeader !in lines[..j]
    requires other < |lines| && lines[other] == RatingsHeader
    requires Classify(lines[k]) == Ratings ==> lines[k] == RatingsHeader && (k == j || k == other)
    ensures Decode(lines[k], Next(FirstOccurrence, lines, k)) ==
      if k == other then Set(RatingsTitle, Strip(lines[j + 1]))
      else Decode(lines[k], Next(Following, lines, k))
  {
    if Classify(lines[k]) == Ratings {
      assert IndexOf(lines, RatingsHeader) == j;
      DecodeRatingsHeader(lines[j + 1]);
    } else {
      ClassifyRatingsHeader();
      DecodeIgnoresNext(lines[k], Next(FirstOccurrence, lines, k), Next(Following, lines, k));
    }
  }

  /** Line `k` of two rated blocks decodes the same under both lookaheads,
      except that the second ratings table header reads the first block's
      row. */
  lemma AsWrittenActionAt(b1: Block, b2: Block, k: nat)
    requires ValidBlock(b1) && ValidBlock(b2) && b1.ratings.Some? && b2.ratings.Some?
    requires k < |Pair(b1, b2)|
    ensures var lines := Pair(b1, b2);
      Decode(lines[k], Next(FirstOccurrence, lines, k)) ==
      if k == |BlockLines(b1)| + 2 + RatingsIndex(b2) then Set(RatingsTitle, Strip(Cell(b1)))
      else Decode(lines[k], Next(Following, lines, k))
  {
    var lines := Pair(b1, b2);
    var j1 := RatingsIndex(b1);
    FirstRatingsHeader(b1, b2);
    RatingsLineAt(b1);
    assert lines[j1] == RatingsHeader && lines[j1 + 1] == b1.ratings.value;
    RatingsLineAt(b2);
    var n1 := |BlockLines(b1)| + 2;
    assert lines[n1 + RatingsIndex(b2)] == BlockLines(b2)[RatingsIndex(b2)];
    if Classify(lines[k]) == Ratings {
      PairRatingsLines(b1, b2, k);
    }
    ReadsAfterFirst(lines, k, j1, |BlockLines(b1)| + 2 + RatingsIndex(b2));
  }

  /** As written, the second of two rated blocks reads the first block's
      ratings row. */
  lemma AsWrittenActions(b1: Block, b2: Block)
    requires ValidBlock(b1) && ValidBlock(b2) && b1.ratings.Some? && b2.ratings.Some?
    ensures Actions(Pair(b1, b2), FirstOccurrence) ==
      BlockActs(b1, Cell(b1)) + [Skip, Skip] + BlockActs(b2, Cell(b1))
  {
    var lines := Pair(b1, b2);
    var all := Actions(lines, FirstOccurrence);
    var target := BlockActs(b1, Cell(b1)) + [Skip, Skip] + BlockActs(b2, Cell(b1));
    PairLines(b1, b2);
    ValidPair(b1, b2);
    DisplayActions([b1, b2]);
    assert Actions(lines, Following) == BlockActs(b1, Cell(b1)) + [Skip, Skip] + BlockActs(b2, Cell(b2));
    forall k | 0 <= k < |lines| ensures all[k] == target[k] {
      AsWrittenIndex(b1, b2, k);
    }
  }

  lemma AsWrittenIndex(b1: Block, b2: Block, k: nat)
    requires ValidBlock(b1) && ValidBlock(b2) && b1.ratings.Some? && b2.ratings.Some?
    requires Actions(Pair(b1, b2), Following) ==
      BlockActs(b1, Cell(b1)) + [Skip, Skip] + BlockActs(b2, Cell(b2))
    requires k < |Pair(b1, b2)|
    ensures Actions(Pair(b1, b2), FirstOccurrence)[k] ==
      (BlockActs(b1, Cell(b1)) + [Skip, Skip] + BlockActs(b2, Cell(b1)))[k]
  {
    var lines := Pair(b1, b2);
    var n1 := |BlockLines(b1)| + 2;
    ActionAt(lines, 0, k, FirstOccurrence);
    ActionAt(lines, 0, k, Following);
    AsWrittenActionAt(b1, b2, k);
    if k >= n1 {
      BlockActsCell(b2, Cell(b1), Cell(b2), k - n1);
    }
  }

  lemma ValidPair(b1: Block, b2: Block)
    requires ValidBlock(b1) && ValidBlock(b2)
    ensures ValidBlocks([b1, b2])
  {
  }

  /** The actions of two blocks, their ratings headers reading `c1` and `c2`,
      give the two records. */
  lemma PairRun(b1: Block, c1: string, b2: Block, c2: string)
    ensures Run(BlockActs(b1, c1) + [Skip, Skip] + BlockActs(b2, c2), Parser([], map[])) ==
      Rows([RatedRecord(b1, Strip(c1)), RatedRecord(b2, Strip(c2))])
  {
    var init := Parser([], map[]);
    var a1 := BlockActs(b1, c1);
    var a2 := BlockActs(b2, c2);
    RunConcat(a1 + [Skip, Skip], a2, init);
    PerformConcat(a1, [Skip, Skip], init);
    PerformBlock(b1, c1, init);
    var q := Parser([], RatedRecord(b1, Strip(c1)));
    assert Close(init) == [];
    assert Perform([Skip, Skip], q) == Some(q);
    RunConcat(a2, [], q);
    assert a2 + [] == a2;
    PerformBlock(b2, c2, q);
  }

  /** The lookahead as written: exporting the text of two rated blocks gives
      the second symbol the first symbol's ratings. */
  lemma LookaheadAsWritten(b1: Block, b2: Block)
    requires ValidBlock(b1) && ValidBlock(b2) && b1.ratings.Some? && b2.ratings.Some?
    ensures ParseLines(DisplayLines([b1, b2]), FirstOccurrence) ==
      Rows([BlockRecord(b1), RatedRecord(b2, Strip(b1.ratings.value))])
  {
    PairLines(b1, b2);
    AsWrittenActions(b1, b2);
    PairRun(b1, Cell(b1), b2, Cell(b1));
  }

  /** ... while the corrected export keeps each symbol's own ratings, so the
      two differ whenever the two rows differ. */
  lemma LookaheadDiffers(b1: Block, b2: Block)
    requires ValidBlock(b1) && ValidBlock(b2) && b1.ratings.Some? && b2.ratings.Some?
    requires Strip(b1.ratings.value) != Strip(b2.ratings.value)
    ensures ParseLines(DisplayLines([b1, b2]), FirstOccurrence) !=
      ParseLines(DisplayLines([b1, b2]), Following)
  {
    LookaheadAsWritten(b1, b2);
    ValidPair(b1, b2);
    ParseDisplay([b1, b2]);
    var rs := BlockRecords([b1, b2]);
    assert rs[1] == BlockRecord(b2);
    assert BlockRecord(b2)[RatingsTitle] == Strip(b2.ratings.value);
    assert RatedRecord(b2, Strip(b1.ratings.value))[RatingsTitle] == Strip(b1.ratings.value);
  }

  /** The same at the level of the exported text: as written, the export of
      two rated blocks, with any whitespace around them, gives the second
      symbol the first symbol's ratings. */
  lemma ExportLookaheadAsWritten(pre: string, b1: Block, b2: Block, post: string)
    requires AllSpace(pre) && AllSpace(post)
    requires ValidBlock(b1) && ValidBlock(b2) && b1.ratings.Some? && b2.ratings.Some?
    ensures ExportAsWritten(pre + OutputAreaText([b1, b2]) + post) ==
      Rows([BlockRecord(b1), RatedRecord(b2, Strip(b1.ratings.value))])
  {
    ValidPair(b1, b2);
    OutputAreaTextTrimmed([b1, b2]);
    SplitDisplay([b1, b2]);
    LookaheadAsWritten(b1, b2);
    ExportOfText(pre, OutputAreaText([b1, b2]), post, FirstOccurrence);
  }
}
