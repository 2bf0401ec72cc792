/**
 Rows of the whole section and the commitments they resolve to
 (`_strict_open_buy_source_rows` and `resolve_strict_current_open_buy_commitments` in
 mmi/portfolio_projection.py).
 */
module Commitments {
  import opened Outcomes
  import opened Traversal
  import opened Amounts
  import opened Decimals
  import opened DecimalSums
  import SourceText
  import opened OpenBuyTable
  import opened OpenBuyRows

  /** The older parser of the same text, as far as it is used: it accepts the rows or it does not. */
  type CrossCheck = (Lines, seq<Row>) -> bool

  // ----- all rows -----

  predicate FullRows(rows: seq<Fields>) {
    forall i :: 0 <= i < |rows| ==> |rows[i]| == COLUMN_COUNT
  }

  /** Rows from k on, each under a ticker not seen before. */
  function ParsedFrom(rows: seq<Fields>, parse: Fields --> Option<Row>, k: nat, tickers: seq<string>, parsed: seq<Row>)
    : Option<seq<Row>>
    requires k <= |rows| && forall i :: 0 <= i < |rows| ==> parse.requires(rows[i])
    decreases |rows| - k
  {
    if k == |rows| then Some(parsed)
    else
      match parse(rows[k])
      case None => None
      case Some(row) =>
        if row.ticker in tickers then None
        else ParsedFrom(rows, parse, k + 1, tickers + [row.ticker], parsed + [row])
  }

  function SourceRows(f: Format, lines: Lines, accepts: CrossCheck): Option<seq<Row>> {
    match ExtractedRows(f, lines)
    case None => None
    case Some(rows) =>
      NoDataLineLost(f, lines);
      if |rows| > MAXIMUM_OPEN_BUY_RECORDS then None
      else
        match ParsedFrom(rows, ParseRow, 0, [], [])
        case None => None
        case Some(parsed) => if accepts(lines, parsed) then Some(parsed) else None
  }

  method ParseRows(rows: seq<Fields>, parse: Fields --> Option<Row>) returns (r: Option<seq<Row>>)
    requires forall i :: 0 <= i < |rows| ==> parse.requires(rows[i])
    ensures r == ParsedFrom(rows, parse, 0, [], [])
  {
    var tickers: seq<string> := [];
    var parsedRows: seq<Row> := [];
    for k := 0 to |rows|
      invariant ParsedFrom(rows, parse, 0, [], []) == ParsedFrom(rows, parse, k, tickers, parsedRows)
    {
      var row := parse(rows[k]);
      if row.None? || row.value.ticker in tickers {
        return None;
      }
      tickers := tickers + [row.value.ticker];
      parsedRows := parsedRows + [row.value];
    }
    return Some(parsedRows);
  }

  method StrictOpenBuySourceRows(f: Format, text: string, accepts: CrossCheck) returns (r: Option<seq<Row>>)
    ensures r == SourceRows(f, SourceText.SplitLines(text), accepts)
  {
    var lines := SourceText.SplitLines(text);
    var rows := ExtractStrictOpenBuyRows(f, text);
    if rows.None? {
      return None;
    }
    NoDataLineLost(f, lines);
    if |rows.value| > MAXIMUM_OPEN_BUY_RECORDS {
      return None;
    }
    var parsed := ParseRows(rows.value, ParseRow);
    if parsed.None? || !accepts(lines, parsed.value) {
      return None;
    }
    return parsed;
  }

  // ----- commitments -----

  datatype Origin = StatedAndReconstructed | StatedCompiledNotional | ReconstructedRemainingLimitNotional

  datatype Commitment = Commitment(ticker: string, text: string, origin: Origin)

  datatype ResolveError = OpenBuyOrdersParseFailed | CommitmentNotProvable

  datatype Resolved = Resolved(commitments: seq<Commitment>, total: string)

  /** What every parsed row satisfies. */
  predicate SoundRow(row: Row) {
    && Ladder(row.steps, row.quantities)
    && (row.stated.Some? ==> IsUnsignedText(row.stated.value.text))
  }

  function RowCommitment(row: Row): Option<Commitment>
    requires SoundRow(row)
  {
    match row.stated
    case Some(stated) =>
      Some(Commitment(row.ticker, stated.text,
                      if row.steps != [] then StatedAndReconstructed else StatedCompiledNotional))
    case None =>
      if row.steps == [] then None
      else
        match Reconstruct(row.steps, row.quantities)
        case None => None
        case Some(text) => Some(Commitment(row.ticker, text, ReconstructedRemainingLimitNotional))
  }

  predicate SoundRows(rows: seq<Row>) {
    forall i :: 0 <= i < |rows| ==> SoundRow(rows[i])
  }

  function CommitmentsOf(rows: seq<Row>): Option<seq<Commitment>>
    requires SoundRows(rows)
  {
    Collect(rows, RowCommitment, 0, [])
  }

  function Texts(commitments: seq<Commitment>): (r: seq<string>)
    ensures |r| == |commitments|
    ensures forall i :: 0 <= i < |commitments| ==> r[i] == commitments[i].text
  {
    seq(|commitments|, i requires 0 <= i < |commitments| => commitments[i].text)
  }

  lemma ParsedIsSound(fields: Fields)
    requires |fields| == COLUMN_COUNT && ParseRow(fields).Some?
    ensures SoundRow(ParseRow(fields).value)
  {
    LadderFieldsCover(fields);
    SourceDecimalMeaning(fields[2], true);
  }

  lemma {:induction false} ParsedRowsAre(rows: seq<Fields>, parse: Fields --> Option<Row>, k: nat, tickers: seq<string>,
                                         parsed: seq<Row>)
    requires k <= |rows| && forall i :: 0 <= i < |rows| ==> parse.requires(rows[i])
    requires ParsedFrom(rows, parse, k, tickers, parsed).Some?
    ensures Collect(rows, parse, k, parsed) == ParsedFrom(rows, parse, k, tickers, parsed)
    decreases |rows| - k
  {
    if k < |rows| {
      var row := parse(rows[k]).value;
      ParsedRowsAre(rows, parse, k + 1, tickers + [row.ticker], parsed + [row]);
    }
  }

  /** Every admitted row is the reading of one extracted row, in order. */
  lemma SourceRowsAre(f: Format, lines: Lines, accepts: CrossCheck)
    requires SourceRows(f, lines, accepts).Some?
    ensures ExtractedRows(f, lines).Some?
    ensures var rows, parsed := ExtractedRows(f, lines).value, SourceRows(f, lines, accepts).value;
            && FullRows(rows) && |parsed| == |rows| <= MAXIMUM_OPEN_BUY_RECORDS
            && forall i :: 0 <= i < |rows| ==> ParseRow(rows[i]) == Some(parsed[i])
    ensures SoundRows(SourceRows(f, lines, accepts).value)
  {
    NoDataLineLost(f, lines);
    var rows := ExtractedRows(f, lines).value;
    ParsedRowsAre(rows, ParseRow, 0, [], []);
    CollectExactly(rows, ParseRow);
    var parsed := SourceRows(f, lines, accepts).value;
    forall i | 0 <= i < |parsed| ensures SoundRow(parsed[i]) {
      ParsedIsSound(rows[i]);
    }
  }

  lemma RowCommitmentText(row: Row)
    requires SoundRow(row) && RowCommitment(row).Some?
    ensures IsUnsignedText(RowCommitment(row).value.text)
  {
    if row.stated.None? {
      ReconstructExactly(row.steps, row.quantities);
    }
  }

  predicate UnsignedTexts(texts: seq<string>) {
    forall i :: 0 <= i < |texts| ==> IsUnsignedText(texts[i])
  }

  lemma CommitmentTexts(rows: seq<Row>)
    requires SoundRows(rows) && CommitmentsOf(rows).Some?
    ensures UnsignedTexts(Texts(CommitmentsOf(rows).value)) && |CommitmentsOf(rows).value| == |rows|
  {
    CollectExactly(rows, RowCommitment);
    var commitments := CommitmentsOf(rows).value;
    forall i | 0 <= i < |commitments| ensures IsUnsignedText(Texts(commitments)[i]) {
      RowCommitmentText(rows[i]);
    }
  }

  function ResolveRows(rows: seq<Row>): Result<Resolved, ResolveError>
    requires SoundRows(rows)
  {
    match CommitmentsOf(rows)
    case None => Err(CommitmentNotProvable)
    case Some(commitments) =>
      CommitmentTexts(rows);
      match SumTexts(Texts(commitments))
      case None => Err(OpenBuyOrdersParseFailed)
      case Some(total) => Ok(Resolved(commitments, total))
  }

  function Resolve(f: Format, lines: Lines, accepts: CrossCheck): Result<Resolved, ResolveError> {
    match SourceRows(f, lines, accepts)
    case None => Err(OpenBuyOrdersParseFailed)
    case Some(rows) =>
      SourceRowsAre(f, lines, accepts);
      ResolveRows(rows)
  }

  method CollectCommitments(rows: seq<Row>, commit: Row --> Option<Commitment>)
    returns (r: Option<seq<Commitment>>, texts: seq<string>)
    requires forall i :: 0 <= i < |rows| ==> commit.requires(rows[i])
    ensures r == Collect(rows, commit, 0, [])
    ensures r.Some? ==> texts == Texts(r.value)
  {
    var commitments: seq<Commitment> := [];
    texts := [];
    for k := 0 to |rows|
      invariant Collect(rows, commit, 0, []) == Collect(rows, commit, k, commitments)
      invariant texts == Texts(commitments)
    {
      var c := commit(rows[k]);
      if c.None? {
        return None, texts;
      }
      commitments := commitments + [c.value];
      texts := texts + [c.value.text];
    }
    return Some(commitments), texts;
  }

  method ResolveStrictCurrentOpenBuyCommitments(f: Format, text: string, accepts: CrossCheck)
    returns (r: Result<Resolved, ResolveError>)
    ensures r == Resolve(f, SourceText.SplitLines(text), accepts)
  {
    ghost var lines := SourceText.SplitLines(text);
    var rows := StrictOpenBuySourceRows(f, text, accepts);
    if rows.None? {
      return Err(OpenBuyOrdersParseFailed);
    }
    SourceRowsAre(f, lines, accepts);
    var commitments, commitmentTexts := CollectCommitments(rows.value, RowCommitment);
    if commitments.None? {
      return Err(CommitmentNotProvable);
    }
    CommitmentTexts(rows.value);
    var total := SumTexts(commitmentTexts);
    if total.None? {
      return Err(OpenBuyOrdersParseFailed);
    }
    return Ok(Resolved(commitments.value, total.value));
  }

  // ----- conservation, from source lines to the total -----

  /** What a row commits, read from its fields: the stated notional, or else the ladder's exact sum. */
  function RowAmount(fields: Fields): Amount
    requires |fields| == COLUMN_COUNT && ParseRow(fields).Some?
  {
    if fields[2] != "" then
      SourceDecimalMeaning(fields[2], true);
      TextAmount(fields[2])
    else LadderAmount(fields)
  }

  /** The exact sum of price times quantity over the row's ladder. */
  function LadderAmount(fields: Fields): Amount
    requires |fields| == COLUMN_COUNT && ParseRow(fields).Some?
  {
    ParsedIsSound(fields);
    Total(ExactProducts(ParseRow(fields).value.steps, ParseRow(fields).value.quantities))
  }

  /** A row that states a notional beside a ladder states exactly the ladder's sum. */
  lemma StatedEqualsLadder(fields: Fields)
    requires |fields| == COLUMN_COUNT && ParseRow(fields).Some?
    requires fields[2] != "" && fields[11] != ""
    ensures Same(RowAmount(fields), LadderAmount(fields))
  {
    var row := ParseRow(fields).value;
    ParsedIsSound(fields);
    SourceDecimalMeaning(fields[2], true);
    LadderNotEmpty(fields[11], '@');
    ReconstructExactly(row.steps, row.quantities);
    SameIffReduced(TextAmount(row.stated.value.text), TextAmount(fields[2]));
    SameIffReduced(TextAmount(row.stated.value.text), LadderAmount(fields));
    SameIffReduced(TextAmount(fields[2]), LadderAmount(fields));
  }

  lemma LadderNotEmpty(raw: string, separator: char)
    requires raw != "" && Summary(raw, separator).Some?
    ensures Summary(raw, separator).value != []
  {
    SummaryGrows(SourceText.Split(raw, ';'), (token: string) => SummaryEntry(token, separator), 0, []);
  }

  lemma {:induction false} SummaryGrows(tokens: seq<string>, parse: string -> Option<Entry>, k: nat,
                                        entries: seq<Entry>)
    requires k <= |tokens| && SummaryFrom(tokens, parse, k, entries).Some?
    ensures |SummaryFrom(tokens, parse, k, entries).value| == |entries| + |tokens| - k
    decreases |tokens| - k
  {
    if k < |tokens| {
      SummaryGrows(tokens, parse, k + 1, entries + [parse(tokens[k]).value]);
    }
  }

  /** A row that states both parts of its budget states parts that add up to it exactly. */
  lemma PartsEqualBudget(fields: Fields)
    requires |fields| == COLUMN_COUNT && ParseRow(fields).Some?
    requires fields[2] != "" && fields[3] != ""
    ensures IsUnsignedText(fields[1]) && IsUnsignedText(fields[2]) && IsUnsignedText(fields[3])
    ensures Same(Total(Pair(TextAmount(fields[2]), TextAmount(fields[3]))), TextAmount(fields[1]))
  {
    BudgetCheckDecides(fields[1], fields[2], fields[3]);
  }

  /** The commitment of one row denotes exactly what the row commits. */
  lemma CommitmentIsExact(fields: Fields)
    requires |fields| == COLUMN_COUNT && ParseRow(fields).Some?
    requires SoundRow(ParseRow(fields).value) && RowCommitment(ParseRow(fields).value).Some?
    ensures var c := RowCommitment(ParseRow(fields).value).value;
            && c.ticker == fields[0] && IsUnsignedText(c.text) && Same(TextAmount(c.text), RowAmount(fields))
  {
    var row := ParseRow(fields).value;
    SourceDecimalMeaning(fields[2], true);
    if fields[2] == "" {
      ReconstructExactly(row.steps, row.quantities);
    }
  }

  function RowAmounts(rows: seq<Fields>): (r: seq<Amount>)
    requires FullRows(rows) && forall i :: 0 <= i < |rows| ==> ParseRow(rows[i]).Some?
    ensures |r| == |rows| && forall i :: 0 <= i < |rows| ==> r[i] == RowAmount(rows[i])
  {
    seq(|rows|, i requires 0 <= i < |rows| => RowAmount(rows[i]))
  }

  predicate Readable(rows: seq<Fields>) {
    FullRows(rows) && forall i :: 0 <= i < |rows| ==> ParseRow(rows[i]).Some?
  }

  /** A row whose commitment can be proved: a stated notional, or a ladder whose sum has a spelling. */
  predicate Provable(fields: Fields)
    requires |fields| == COLUMN_COUNT && ParseRow(fields).Some?
  {
    fields[2] != "" || (fields[11] != "" && NormalizedAmount(LadderAmount(fields)).Ok?)
  }

  lemma ProvableRow(row: Row)
    requires SoundRow(row)
    ensures RowCommitment(row).Some? <==>
              row.stated.Some?
              || (row.steps != [] && NormalizedAmount(Total(ExactProducts(row.steps, row.quantities))).Ok?)
  {
    if row.stated.None? {
      ReconstructExactly(row.steps, row.quantities);
    }
  }

  lemma ProvableExactly(fields: Fields)
    requires |fields| == COLUMN_COUNT && ParseRow(fields).Some? && SoundRow(ParseRow(fields).value)
    ensures RowCommitment(ParseRow(fields).value).Some? <==> Provable(fields)
  {
    ProvableRow(ParseRow(fields).value);
    ParsedFields(fields);
    SourceDecimalMeaning(fields[2], true);
    if fields[11] != "" {
      LadderNotEmpty(fields[11], '@');
    }
  }

  lemma CommitmentsExact(rows: seq<Fields>, parsed: seq<Row>)
    requires Readable(rows) && |parsed| == |rows| && SoundRows(parsed)
    requires forall i :: 0 <= i < |rows| ==> ParseRow(rows[i]) == Some(parsed[i])
    ensures CommitmentsOf(parsed).Some? <==> forall i :: 0 <= i < |rows| ==> Provable(rows[i])
    ensures CommitmentsOf(parsed).Some? ==>
              var c := CommitmentsOf(parsed).value;
              && |c| == |rows| && UnsignedTexts(Texts(c)) && SameAll(AllUnits(Texts(c)), RowAmounts(rows))
              && forall i :: 0 <= i < |c| ==> c[i].ticker == rows[i][0]
  {
    CollectExactly(parsed, RowCommitment);
    forall i | 0 <= i < |rows| ensures RowCommitment(parsed[i]).Some? <==> Provable(rows[i]) {
      ProvableExactly(rows[i]);
    }
    if CommitmentsOf(parsed).Some? {
      CommitmentTexts(parsed);
      var c := CommitmentsOf(parsed).value;
      forall i | 0 <= i < |c| ensures Same(AllUnits(Texts(c))[i], RowAmounts(rows)[i]) && c[i].ticker == rows[i][0] {
        CommitmentIsExact(rows[i]);
      }
    }
  }

  /**
   Conservation: when the section resolves, every data-like line but the header is one
   commitment, in order, for exactly what that line commits, and the total is their exact sum.
   */
  lemma CommitmentsConserved(f: Format, lines: Lines, accepts: CrossCheck)
    requires Resolve(f, lines, accepts).Ok?
    ensures ExtractedRows(f, lines).Some? && Readable(RowsOf(TableLines(f, lines)))
    ensures var rows, r := RowsOf(TableLines(f, lines)), Resolve(f, lines, accepts).value;
            && |r.commitments| == |TableLines(f, lines)|
            && UnsignedTexts(Texts(r.commitments)) && IsUnsignedText(r.total)
            && (forall i :: 0 <= i < |rows| ==> r.commitments[i].ticker == rows[i][0])
            && SameAll(AllUnits(Texts(r.commitments)), RowAmounts(rows))
            && Same(TextAmount(r.total), Total(RowAmounts(rows)))
  {
    SourceRowsAre(f, lines, accepts);
    NoDataLineLost(f, lines);
    var rows, parsed := RowsOf(TableLines(f, lines)), SourceRows(f, lines, accepts).value;
    CommitmentsExact(rows, parsed);
    TotalIsExact(CommitmentsOf(parsed).value, RowAmounts(rows));
  }

  lemma TotalIsExact(commitments: seq<Commitment>, amounts: seq<Amount>)
    requires UnsignedTexts(Texts(commitments)) && SameAll(AllUnits(Texts(commitments)), amounts)
    ensures SumTexts(Texts(commitments)).Some? <==> Spellable(Total(amounts))
    ensures SumTexts(Texts(commitments)).Some? ==>
              var t := SumTexts(Texts(commitments)).value; IsUnsignedText(t) && Same(TextAmount(t), Total(amounts))
  {
    var units := AllUnits(Texts(commitments));
    SumExactly(units);
    TotalsSame(units, amounts);
    SameIffReduced(Total(units), Total(amounts));
    AmountAccepted(Total(units));
    AmountAccepted(Total(amounts));
    if SumText(units).Some? {
      SameTransitive(TextAmount(SumText(units).value), Total(units), Total(amounts));
    }
  }

  /** An empty section commits nothing. */
  lemma EmptySectionCommitsZero(f: Format, lines: Lines, accepts: CrossCheck)
    requires ExtractedRows(f, lines) == Some([]) && accepts(lines, [])
    ensures Resolve(f, lines, accepts) == Ok(Resolved([], "0"))
  {
    NoRows();
  }

  lemma NoRows()
    ensures ResolveRows([]) == Ok(Resolved([], "0"))
  {
    assert Texts([]) == [] && AllUnits([]) == [];
  }

  /** Exactly when admitted rows resolve, and which of the two failures it is when they do not. */
  lemma ResolveExactly(f: Format, lines: Lines, accepts: CrossCheck)
    requires SourceRows(f, lines, accepts).Some?
    ensures ExtractedRows(f, lines).Some? && Readable(RowsOf(TableLines(f, lines)))
    ensures var rows := RowsOf(TableLines(f, lines));
            var provable := forall i :: 0 <= i < |rows| ==> Provable(rows[i]);
            && (Resolve(f, lines, accepts) == Err(CommitmentNotProvable) <==> !provable)
            && (Resolve(f, lines, accepts).Ok? <==> provable && Spellable(Total(RowAmounts(rows))))
  {
    SourceRowsAre(f, lines, accepts);
    NoDataLineLost(f, lines);
    var rows, parsed := RowsOf(TableLines(f, lines)), SourceRows(f, lines, accepts).value;
    CommitmentsExact(rows, parsed);
    if CommitmentsOf(parsed).Some? {
      TotalIsExact(CommitmentsOf(parsed).value, RowAmounts(rows));
    }
  }

  // ----- the budget never enters a commitment -----

  predicate SameCommittedFields(a: Fields, b: Fields)
    requires |a| == COLUMN_COUNT && |b| == COLUMN_COUNT
  {
    a[0] == b[0] && a[2] == b[2] && a[11] == b[11] && a[12] == b[12]
  }

  lemma ParsedFields(fields: Fields)
    requires |fields| == COLUMN_COUNT && ParseRow(fields).Some?
    ensures SourceDecimal(fields[2], true).Some? && Summary(fields[11], '@').Some? && Summary(fields[12], ':').Some?
    ensures var row := ParseRow(fields).value;
            && row.ticker == fields[0] && row.stated == SourceDecimal(fields[2], true).value
            && row.steps == Summary(fields[11], '@').value && row.quantities == Summary(fields[12], ':').value
  {
  }

  lemma CommitmentIgnoresBudget(a: Row, b: Row)
    requires SoundRow(a) && SoundRow(b) && a == b.(budget := a.budget)
    ensures RowCommitment(a) == RowCommitment(b)
  {
  }

  predicate SameCommitted(a: seq<Fields>, b: seq<Fields>) {
    FullRows(a) && FullRows(b) && |a| == |b| && forall i :: 0 <= i < |a| ==> SameCommittedFields(a[i], b[i])
  }

  lemma ParsedCommitSame(rowsA: seq<Fields>, rowsB: seq<Fields>, a: seq<Row>, b: seq<Row>)
    requires SameCommitted(rowsA, rowsB) && |a| == |rowsA| && |b| == |rowsB| && SoundRows(a) && SoundRows(b)
    requires forall i :: 0 <= i < |rowsA| ==> ParseRow(rowsA[i]) == Some(a[i])
    requires forall i :: 0 <= i < |rowsB| ==> ParseRow(rowsB[i]) == Some(b[i])
    ensures CommitmentsOf(a) == CommitmentsOf(b)
  {
    forall i | 0 <= i < |a| ensures RowCommitment(a[i]) == RowCommitment(b[i]) {
      ParsedFields(rowsA[i]);
      ParsedFields(rowsB[i]);
      CommitmentIgnoresBudget(a[i], b[i]);
    }
    SameCollected(a, b);
  }

  /** Two admitted texts that differ in budgets alone resolve to the same commitments and total. */
  lemma BudgetsDoNotCommit(f: Format, a: Lines, b: Lines, accepts: CrossCheck)
    requires SourceRows(f, a, accepts).Some? && SourceRows(f, b, accepts).Some?
    requires SameCommitted(ExtractedRows(f, a).value, ExtractedRows(f, b).value)
    ensures Resolve(f, a, accepts) == Resolve(f, b, accepts)
  {
    SourceRowsAre(f, a, accepts);
    SourceRowsAre(f, b, accepts);
    var rowsA, rowsB := SourceRows(f, a, accepts).value, SourceRows(f, b, accepts).value;
    ParsedCommitSame(ExtractedRows(f, a).value, ExtractedRows(f, b).value, rowsA, rowsB);
    SameResolved(rowsA, rowsB);
  }

  lemma SameResolved(a: seq<Row>, b: seq<Row>)
    requires SoundRows(a) && SoundRows(b) && CommitmentsOf(a) == CommitmentsOf(b)
    ensures ResolveRows(a) == ResolveRows(b)
  {
  }

  lemma SameCollected(a: seq<Row>, b: seq<Row>)
    requires |a| == |b| && SoundRows(a) && SoundRows(b)
    requires forall i :: 0 <= i < |a| ==> RowCommitment(a[i]) == RowCommitment(b[i])
    ensures CommitmentsOf(a) == CommitmentsOf(b)
  {
    CollectExactly(a, RowCommitment);
    CollectExactly(b, RowCommitment);
    if CommitmentsOf(a).Some? {
      var x, y := CommitmentsOf(a).value, CommitmentsOf(b).value;
      forall i | 0 <= i < |x| ensures x[i] == y[i] {
        assert RowCommitment(a[i]) == Some(x[i]) && RowCommitment(b[i]) == Some(y[i]);
      }
      assert x == y;
    }
  }
}
