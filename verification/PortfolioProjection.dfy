/**
 The portfolio snapshot projection: header date, open-BUY records, gaps, and the separately
 written semantic checks (mmi/portfolio_projection.py).
 */
module PortfolioProjection {
  import opened Outcomes
  import opened Digits
  import opened Amounts
  import opened Decimals
  import opened Dates
  import opened DecimalSums
  import opened SourceText
  import opened Traversal
  import opened OpenBuyTable
  import opened OpenBuyRows
  import opened Commitments
  import Universe
  import opened PolicyProjection

  // ----- the header date -----

  /** A word character of the Unicode database, which a pattern's word boundary consults. */
  type WordClass = char -> bool

  datatype SourceError = TimestampAmbiguous | TimestampInvalid | TimestampFuture

  /** Length of the run of characters from i on that satisfy p. */
  function RunOf(s: string, i: nat, p: char -> bool): (n: nat)
    requires i <= |s|
    ensures i + n <= |s|
    decreases |s| - i
  {
    if i < |s| && p(s[i]) then 1 + RunOf(s, i + 1, p) else 0
  }

  /** `(` digits, then lower-case letters or underscores, then `)`. */
  predicate IsSectionLine(line: string) {
    && line != "" && line[0] == '('
    && var digits := RunOf(line, 1, IsAsciiDigit);
    && digits > 0
    && var end := 1 + digits + RunOf(line, 1 + digits, (c: char) => 'a' <= c <= 'z' || c == '_');
    && end < |line| && line[end] == ')'
  }

  /** `#`, `updated` in any case, and then the end of a word. */
  predicate IsMarkerCandidate(line: string, isWord: WordClass) {
    var s := StripLeft(line);
    && s != "" && s[0] == '#'
    && var rest := StripLeft(s[1..]);
    && |rest| >= 7 && FoldAll(rest[..7]) == "updated" && (|rest| == 7 || !isWord(rest[7]))
  }

  predicate IsHeaderDate(line: string) {
    |line| == 20 && line[..10] == "# updated " && IsDateText(line[10..])
  }

  function BeforeSections(lines: Lines): Lines {
    if lines == [] || IsSectionLine(lines[0]) then [] else [lines[0]] + BeforeSections(lines[1..])
  }

  function Markers(lines: Lines, isWord: WordClass): (r: Lines) {
    if lines == [] then []
    else (if IsMarkerCandidate(lines[0], isWord) then [lines[0]] else []) + Markers(lines[1..], isWord)
  }

  function HeaderDate(lines: Lines, date: nat, isWord: WordClass): (r: Result<Option<string>, SourceError>)
    ensures r.Ok? && r.value.Some? ==> IsDateText(r.value.value) && DateKey(r.value.value) <= date
  {
    var markers := Markers(BeforeSections(lines), isWord);
    if markers == [] then Ok(None)
    else if |markers| != 1 then Err(TimestampAmbiguous)
    else if !IsHeaderDate(markers[0]) then Err(TimestampInvalid)
    else if DateKey(markers[0][10..]) > date then Err(TimestampFuture)
    else Ok(Some(markers[0][10..]))
  }

  // ----- the projection -----

  /** Areas the snapshot never projects; each has its own gap code. */
  datatype Area =
    | Holdings
    | OpenSellOrders
    | TaxLots
    | DeployableCash
    | Weights
    | NavConcentration
    | LookthroughExposure

  datatype PortfolioGapCode =
    | SourceMissing
    | SourceTimestampUnavailable
    | OpenBuyOrdersParseFailed
    | OpenBuyOrderOutsidePolicyUniverse
    | Uncovered(area: Area)

  /** The fixed order of the gap list. */
  const GAP_CODE_ORDER: seq<PortfolioGapCode> :=
    [ SourceMissing, SourceTimestampUnavailable, Uncovered(Holdings), PortfolioGapCode.OpenBuyOrdersParseFailed,
      OpenBuyOrderOutsidePolicyUniverse, Uncovered(OpenSellOrders), Uncovered(TaxLots), Uncovered(DeployableCash),
      Uncovered(Weights), Uncovered(NavConcentration), Uncovered(LookthroughExposure) ]

  const STATIC_GAP_CODES: set<PortfolioGapCode> :=
    { Uncovered(Holdings), Uncovered(OpenSellOrders), Uncovered(TaxLots), Uncovered(DeployableCash),
      Uncovered(Weights), Uncovered(NavConcentration), Uncovered(LookthroughExposure) }

  datatype PortfolioGap = PortfolioGap(code: PortfolioGapCode, tickers: seq<string>, policyIdentity: string,
                                       sourceIdentity: Option<string>)

  datatype OpenStatus = OpenSourceAbsent | OpenSourceValidated | OpenParseFailed

  datatype Classification = InPolicy(role: Universe.Role) | OutsidePolicyUniverse

  datatype Record = Record(
    ticker: string,
    reserved: string,
    stated: Option<string>,
    classification: Classification,
    role: Option<Universe.Role>,
    outside: bool)

  datatype Portfolio = Portfolio(
    context: RunContext,
    policyIdentity: string,
    sourcePresent: bool,
    sourceIdentity: Option<string>,
    sourceDate: Option<string>,
    openStatus: OpenStatus,
    records: seq<Record>,
    total: Option<string>,
    gaps: seq<PortfolioGap>,
    identity: string)

  type IdentifyPortfolio = Portfolio -> Option<string>

  ghost predicate PortfolioIgnoresSlot(identify: IdentifyPortfolio) {
    forall p: Portfolio, id :: identify(p.(identity := id)) == identify(p)
  }

  type Roles = map<string, Universe.Role>

  function RoleOf(roles: Roles, ticker: string): Option<Universe.Role> {
    if ticker in roles then Some(roles[ticker]) else None
  }

  function ClassOf(role: Option<Universe.Role>): Classification {
    match role case None => OutsidePolicyUniverse case Some(r) => InPolicy(r)
  }

  // ----- gaps -----

  function OutsideTickers(records: seq<Record>): (r: seq<string>)
    ensures forall t :: t in r <==> exists x :: x in records && x.outside && x.ticker == t
  {
    if records == [] then []
    else
      var rest := OutsideTickers(records[1..]);
      assert forall x :: x in records <==> x == records[0] || x in records[1..];
      (if records[0].outside then [records[0].ticker] else []) + rest
  }

  /** Codes that hold, each with the tickers it affects. */
  function ActiveCodes(p: Portfolio): map<PortfolioGapCode, seq<string>> {
    var fixed: map<PortfolioGapCode, seq<string>> := map c | c in STATIC_GAP_CODES :: [];
    var sourced :=
      if !p.sourcePresent then fixed[SourceMissing := []]
      else if p.sourceDate.None? then fixed[SourceTimestampUnavailable := []]
      else fixed;
    var parsed := if p.openStatus.OpenParseFailed? then sourced[PortfolioGapCode.OpenBuyOrdersParseFailed := []]
                  else sourced;
    var outside := OutsideTickers(p.records);
    if outside != [] then parsed[OpenBuyOrderOutsidePolicyUniverse := outside] else parsed
  }

  /** The active codes in list order, as gap records. */
  function GapsOf(codes: seq<PortfolioGapCode>, active: map<PortfolioGapCode, seq<string>>, policyIdentity: string,
                  sourceIdentity: Option<string>): seq<PortfolioGap>
  {
    if codes == [] then []
    else (if codes[0] in active then [PortfolioGap(codes[0], active[codes[0]], policyIdentity, sourceIdentity)] else [])
         + GapsOf(codes[1..], active, policyIdentity, sourceIdentity)
  }

  function ExpectedGaps(p: Portfolio): seq<PortfolioGap> {
    GapsOf(GAP_CODE_ORDER, ActiveCodes(p), p.policyIdentity, p.sourceIdentity)
  }

  method ListGaps(codes: seq<PortfolioGapCode>, active: map<PortfolioGapCode, seq<string>>, policyIdentity: string,
                  sourceIdentity: Option<string>) returns (gaps: seq<PortfolioGap>)
    ensures gaps == GapsOf(codes, active, policyIdentity, sourceIdentity)
  {
    gaps := [];
    for k := 0 to |codes|
      invariant gaps + GapsOf(codes[k..], active, policyIdentity, sourceIdentity)
             == GapsOf(codes, active, policyIdentity, sourceIdentity)
    {
      assert codes[k..][1..] == codes[k + 1..];
      if codes[k] in active {
        gaps := gaps + [PortfolioGap(codes[k], active[codes[k]], policyIdentity, sourceIdentity)];
      }
    }
  }

  method DeriveExpectedGaps(p: Portfolio) returns (gaps: seq<PortfolioGap>)
    ensures gaps == ExpectedGaps(p)
  {
    var outside := OutsideTickers(p.records);
    var active: map<PortfolioGapCode, seq<string>> := map c | c in STATIC_GAP_CODES :: [];
    if !p.sourcePresent {
      active := active[SourceMissing := []];
    } else if p.sourceDate.None? {
      active := active[SourceTimestampUnavailable := []];
    }
    if p.openStatus.OpenParseFailed? {
      active := active[PortfolioGapCode.OpenBuyOrdersParseFailed := []];
    }
    if outside != [] {
      active := active[OpenBuyOrderOutsidePolicyUniverse := outside];
    }
    gaps := ListGaps(GAP_CODE_ORDER, active, p.policyIdentity, p.sourceIdentity);
  }

  // ----- building -----

  function RecordOf(row: Row, roles: Roles): Record {
    var role := RoleOf(roles, row.ticker);
    Record(row.ticker, row.budget.text,
           match row.stated case None => None case Some(m) => Some(m.text),
           ClassOf(role), role, role.None?)
  }

  function RecordsOf(rows: seq<Row>, roles: Roles): (r: seq<Record>)
    ensures |r| == |rows| && forall i :: 0 <= i < |rows| ==> r[i] == RecordOf(rows[i], roles)
  {
    seq(|rows|, i requires 0 <= i < |rows| => RecordOf(rows[i], roles))
  }

  function Reserved(records: seq<Record>): (r: seq<string>)
    ensures |r| == |records| && forall i :: 0 <= i < |records| ==> r[i] == records[i].reserved
  {
    seq(|records|, i requires 0 <= i < |records| => records[i].reserved)
  }

  datatype OpenBuy = OpenBuy(status: OpenStatus, records: seq<Record>, total: Option<string>)

  /** Records and their total, or a parse failure; an overflowing total is one too. */
  function OpenBuyOf(rows: Option<seq<Row>>, roles: Roles): OpenBuy {
    match rows
    case None => OpenBuy(OpenParseFailed, [], None)
    case Some(parsed) =>
      var records := RecordsOf(parsed, roles);
      if !UnsignedTexts(Reserved(records)) then OpenBuy(OpenParseFailed, [], None)
      else
        match SumTexts(Reserved(records))
        case None => OpenBuy(OpenParseFailed, [], None)
        case Some(total) => OpenBuy(OpenSourceValidated, records, Some(total))
  }

  function BaseProjection(context: RunContext, policyIdentity: string, sourceIdentity: Option<string>,
                          sourceDate: Option<string>, openBuy: OpenBuy): Portfolio
  {
    var bare := Portfolio(context, policyIdentity, sourceIdentity.Some?, sourceIdentity, sourceDate, openBuy.status,
                          openBuy.records, openBuy.total, [], "");
    bare.(gaps := ExpectedGaps(bare))
  }

  /** A supplied snapshot: its lines and the identity of its source record. */
  datatype Source = Source(lines: Lines, identity: string)

  datatype PortfolioFailure = PortfolioBlocked(why: SourceError) | PortfolioUnencodable

  function AssemblePortfolio(f: Format, source: Option<Source>, policyIdentity: string, roles: Roles,
                             context: RunContext,
                             accepts: CrossCheck, isWord: WordClass): Result<Portfolio, SourceError>
  {
    match source
    case None => Ok(BaseProjection(context, policyIdentity, None, None, OpenBuy(OpenSourceAbsent, [], None)))
    case Some(s) =>
      match HeaderDate(s.lines, context.Date(), isWord)
      case Err(e) => Err(e)
      case Ok(date) =>
        Ok(BaseProjection(context, policyIdentity, Some(s.identity), date,
                          OpenBuyOf(SourceRows(f, s.lines, accepts), roles)))
  }

  function FinishPortfolio(assembled: Result<Portfolio, SourceError>, identify: IdentifyPortfolio)
    : Result<Portfolio, PortfolioFailure>
  {
    match assembled
    case Err(why) => Err(PortfolioBlocked(why))
    case Ok(p) =>
      match identify(p)
      case None => Err(PortfolioUnencodable)
      case Some(id) => Ok(p.(identity := id))
  }

  function BuildPortfolio(f: Format, source: Option<Source>, policyIdentity: string, roles: Roles, context: RunContext,
                          accepts: CrossCheck, isWord: WordClass, identify: IdentifyPortfolio)
    : Result<Portfolio, PortfolioFailure>
  {
    FinishPortfolio(AssemblePortfolio(f, source, policyIdentity, roles, context, accepts, isWord), identify)
  }

  // ----- the separately written checks -----

  predicate IsSha256(s: string) {
    |s| == 64 && forall i :: 0 <= i < 64 ==> IsAsciiDigit(s[i]) || 'a' <= s[i] <= 'f'
  }

  /** Normalized decimal text of a value that is not negative. */
  predicate CanonicalNonNegative(s: string) {
    IsUnsignedText(s) && Normalized(TextInput(s)) == Ok(s)
  }

  predicate ValidRecord(r: Record, roles: Roles) {
    && IsTicker(r.ticker) && CanonicalNonNegative(r.reserved)
    && (r.stated.Some? ==> CanonicalNonNegative(r.stated.value)
                           && !AmountLess(TextAmount(r.reserved), TextAmount(r.stated.value)))
    && r.role == RoleOf(roles, r.ticker) && r.classification == ClassOf(r.role) && r.outside == r.role.None?
  }

  predicate DistinctTickers(records: seq<Record>) {
    forall i, j :: 0 <= i < j < |records| ==> records[i].ticker != records[j].ticker
  }

  predicate ValidSource(p: Portfolio) {
    if !p.sourcePresent then p.sourceIdentity == None && p.sourceDate == None
    else
      && p.sourceIdentity.Some? && IsSha256(p.sourceIdentity.value)
      && (p.sourceDate.Some? ==> IsDateText(p.sourceDate.value) && DateKey(p.sourceDate.value) <= p.context.Date())
  }

  predicate ValidOpenBuy(p: Portfolio, roles: Roles) {
    match p.openStatus
    case OpenSourceValidated =>
      && p.sourcePresent
      && (forall i :: 0 <= i < |p.records| ==> ValidRecord(p.records[i], roles))
      && DistinctTickers(p.records)
      && UnsignedTexts(Reserved(p.records)) && p.total.Some? && SumTexts(Reserved(p.records)) == p.total
    case OpenParseFailed => p.sourcePresent && p.records == [] && p.total == None
    case OpenSourceAbsent => !p.sourcePresent && p.records == [] && p.total == None
  }

  predicate ValidPortfolio(p: Portfolio, policyIdentity: string, roles: Roles, context: RunContext,
                           identify: IdentifyPortfolio)
  {
    && p.context == context && p.policyIdentity == policyIdentity
    && ValidSource(p) && ValidOpenBuy(p, roles)
    && p.gaps == ExpectedGaps(p) && p.gaps != []
    && identify(p) == Some(p.identity)
  }

  // ----- the builder always passes them -----

  lemma AmountLessSame(a: Amount, b: Amount, c: Amount, d: Amount)
    requires Same(a, c) && Same(b, d)
    ensures AmountLess(a, b) <==> AmountLess(c, d)
  {
    var scale := a.scale + b.scale + c.scale + d.scale;
    SameAt(a, c, scale);
    SameAt(b, d, scale);
    LessAt(a, b, scale);
    LessAt(c, d, scale);
  }

  /** Order, too, can be read off at any common scale. */
  lemma LessAt(a: Amount, b: Amount, scale: nat)
    requires a.scale <= scale && b.scale <= scale
    ensures AmountLess(a, b) <==> At(a, scale) < At(b, scale)
  {
    var p, q := Pow10(scale - a.scale), Pow10(scale - b.scale);
    Pow10Sum(scale - a.scale, a.scale);
    Pow10Sum(scale - b.scale, b.scale);
    Commute(a.units, p, Pow10(a.scale), Pow10(b.scale));
    Commute(b.units, q, Pow10(b.scale), Pow10(a.scale));
    Monotone(At(a, scale), At(b, scale), Pow10(a.scale) * Pow10(b.scale));
    Monotone(a.units * Pow10(b.scale), b.units * Pow10(a.scale), Pow10(scale));
    assert Pow10(a.scale) * Pow10(b.scale) == Pow10(b.scale) * Pow10(a.scale);
  }

  lemma Monotone(x: int, y: int, p: int)
    requires p > 0
    ensures x < y <==> x * p < y * p
  {
    assert x < y ==> (y - x) * p > 0;
    assert x >= y ==> (x - y) * p >= 0;
  }

  lemma MoneyIsCanonical(raw: string, optional: bool)
    requires SourceDecimal(raw, optional).Some? && SourceDecimal(raw, optional).value.Some?
    ensures var m := SourceDecimal(raw, optional).value.value;
            && CanonicalNonNegative(m.text) && m.value.Finite? && Same(TextAmount(m.text), DecimalAmount(m.value))
  {
    SourceDecimalMeaning(raw, optional);
    NormalizationIdempotent(DecimalInput(SourceDecimal(raw, optional).value.value.value));
    SameIffReduced(TextAmount(SourceDecimal(raw, optional).value.value.text), TextAmount(raw));
  }

  lemma StatedWithinBudget(fields: Fields)
    requires |fields| == COLUMN_COUNT && MoneyFields(fields).Some?
    ensures var m := MoneyFields(fields).value;
            && CanonicalNonNegative(m.budget.text)
            && (m.stated.Some? ==> CanonicalNonNegative(m.stated.value.text)
                                   && !AmountLess(TextAmount(m.budget.text), TextAmount(m.stated.value.text)))
  {
    SourceDecimalMeaning(fields[1], false);
    MoneyIsCanonical(fields[1], false);
    var m := MoneyFields(fields).value;
    if m.stated.Some? {
      MoneyIsCanonical(fields[2], true);
      AmountLessSame(TextAmount(m.budget.text), TextAmount(m.stated.value.text),
                     DecimalAmount(m.budget.value), DecimalAmount(m.stated.value.value));
    }
  }

  lemma RowRecordValid(fields: Fields, roles: Roles)
    requires |fields| == COLUMN_COUNT && ParseRow(fields).Some?
    ensures ValidRecord(RecordOf(ParseRow(fields).value, roles), roles)
  {
    StatedWithinBudget(fields);
  }

  lemma {:induction false} ParsedTickersDistinct(rows: seq<Fields>, parse: Fields --> Option<Row>, k: nat,
                                                 tickers: seq<string>, parsed: seq<Row>)
    requires k <= |rows| && forall i :: 0 <= i < |rows| ==> parse.requires(rows[i])
    requires |tickers| == |parsed| && forall i :: 0 <= i < |parsed| ==> tickers[i] == parsed[i].ticker
    requires forall i, j :: 0 <= i < j < |parsed| ==> parsed[i].ticker != parsed[j].ticker
    requires ParsedFrom(rows, parse, k, tickers, parsed).Some?
    ensures var r := ParsedFrom(rows, parse, k, tickers, parsed).value;
            forall i, j :: 0 <= i < j < |r| ==> r[i].ticker != r[j].ticker
    decreases |rows| - k
  {
    if k < |rows| {
      var row := parse(rows[k]).value;
      ParsedTickersDistinct(rows, parse, k + 1, tickers + [row.ticker], parsed + [row]);
    }
  }

  lemma RowsDistinct(f: Format, lines: Lines, accepts: CrossCheck)
    requires SourceRows(f, lines, accepts).Some?
    ensures var r := SourceRows(f, lines, accepts).value;
            forall i, j :: 0 <= i < j < |r| ==> r[i].ticker != r[j].ticker
  {
    NoDataLineLost(f, lines);
    ParsedTickersDistinct(ExtractedRows(f, lines).value, ParseRow, 0, [], []);
  }

  predicate ValidRecords(records: seq<Record>, roles: Roles) {
    DistinctTickers(records) && forall i :: 0 <= i < |records| ==> ValidRecord(records[i], roles)
  }

  lemma RecordsAreValid(f: Format, lines: Lines, accepts: CrossCheck, roles: Roles)
    requires SourceRows(f, lines, accepts).Some?
    ensures ValidRecords(RecordsOf(SourceRows(f, lines, accepts).value, roles), roles)
    ensures |SourceRows(f, lines, accepts).value| <= MAXIMUM_OPEN_BUY_RECORDS
  {
    SourceRowsAre(f, lines, accepts);
    RowsDistinct(f, lines, accepts);
    var rows, parsed := ExtractedRows(f, lines).value, SourceRows(f, lines, accepts).value;
    forall i | 0 <= i < |parsed| ensures ValidRecord(RecordsOf(parsed, roles)[i], roles) {
      RowRecordValid(rows[i], roles);
    }
  }

  predicate SoundOpenBuy(o: OpenBuy, roles: Roles, present: bool) {
    && |o.records| <= MAXIMUM_OPEN_BUY_RECORDS
    && match o.status
       case OpenSourceValidated =>
         && present && ValidRecords(o.records, roles)
         && UnsignedTexts(Reserved(o.records)) && o.total.Some? && SumTexts(Reserved(o.records)) == o.total
       case OpenParseFailed => present && o.records == [] && o.total == None
       case OpenSourceAbsent => !present && o.records == [] && o.total == None
  }

  lemma OpenBuySound(rows: Option<seq<Row>>, roles: Roles)
    requires rows.Some? ==>
               ValidRecords(RecordsOf(rows.value, roles), roles) && |rows.value| <= MAXIMUM_OPEN_BUY_RECORDS
    ensures SoundOpenBuy(OpenBuyOf(rows, roles), roles, true)
  {
  }

  lemma StaticGapsThere(p: Portfolio)
    ensures ExpectedGaps(p) != []
  {
    assert Uncovered(Holdings) in ActiveCodes(p);
    ActiveCodeListed(GAP_CODE_ORDER, ActiveCodes(p), p.policyIdentity, p.sourceIdentity, 2);
  }

  lemma {:induction false} ActiveCodeListed(codes: seq<PortfolioGapCode>, active: map<PortfolioGapCode, seq<string>>,
                                            policyIdentity: string, sourceIdentity: Option<string>, i: nat)
    requires i < |codes| && codes[i] in active
    ensures PortfolioGap(codes[i], active[codes[i]], policyIdentity, sourceIdentity)
              in GapsOf(codes, active, policyIdentity, sourceIdentity)
  {
    if i > 0 {
      ActiveCodeListed(codes[1..], active, policyIdentity, sourceIdentity, i - 1);
    }
  }

  lemma BaseIsValid(context: RunContext, policyIdentity: string, sourceIdentity: Option<string>,
                    sourceDate: Option<string>, openBuy: OpenBuy, roles: Roles)
    requires SoundOpenBuy(openBuy, roles, sourceIdentity.Some?)
    requires if sourceIdentity.Some?
             then IsSha256(sourceIdentity.value)
                  && (sourceDate.Some? ==> IsDateText(sourceDate.value) && DateKey(sourceDate.value) <= context.Date())
             else sourceDate == None
    ensures var p := BaseProjection(context, policyIdentity, sourceIdentity, sourceDate, openBuy);
            && p.context == context && p.policyIdentity == policyIdentity && ValidSource(p) && ValidOpenBuy(p, roles)
            && p.gaps == ExpectedGaps(p) && p.gaps != [] && |p.records| <= MAXIMUM_OPEN_BUY_RECORDS
            && p.sourceIdentity == sourceIdentity
  {
    StaticGapsThere(BaseProjection(context, policyIdentity, sourceIdentity, sourceDate, openBuy));
  }

  /** Everything but the identity check. */
  predicate SoundPortfolio(p: Portfolio, policyIdentity: string, roles: Roles, context: RunContext) {
    && p.context == context && p.policyIdentity == policyIdentity && ValidSource(p) && ValidOpenBuy(p, roles)
    && p.gaps == ExpectedGaps(p) && p.gaps != [] && |p.records| <= MAXIMUM_OPEN_BUY_RECORDS
  }

  lemma AssembledIsSound(f: Format, source: Option<Source>, policyIdentity: string, roles: Roles, context: RunContext,
                         accepts: CrossCheck, isWord: WordClass)
    requires source.Some? ==> IsSha256(source.value.identity)
    requires AssemblePortfolio(f, source, policyIdentity, roles, context, accepts, isWord).Ok?
    ensures SoundPortfolio(AssemblePortfolio(f, source, policyIdentity, roles, context, accepts, isWord).value,
                           policyIdentity, roles, context)
  {
    match source {
      case None => BaseIsValid(context, policyIdentity, None, None, OpenBuy(OpenSourceAbsent, [], None), roles);
      case Some(s) =>
        var rows := SourceRows(f, s.lines, accepts);
        if rows.Some? {
          RecordsAreValid(f, s.lines, accepts, roles);
        }
        OpenBuySound(rows, roles);
        BaseIsValid(context, policyIdentity, Some(s.identity), HeaderDate(s.lines, context.Date(), isWord).value,
                    OpenBuyOf(rows, roles), roles);
    }
  }

  lemma FinishedPortfolioValid(assembled: Result<Portfolio, SourceError>, policyIdentity: string, roles: Roles,
                               context: RunContext, identify: IdentifyPortfolio)
    requires PortfolioIgnoresSlot(identify)
    requires assembled.Ok? ==> SoundPortfolio(assembled.value, policyIdentity, roles, context)
    requires FinishPortfolio(assembled, identify).Ok?
    ensures ValidPortfolio(FinishPortfolio(assembled, identify).value, policyIdentity, roles, context, identify)
    ensures |FinishPortfolio(assembled, identify).value.records| <= MAXIMUM_OPEN_BUY_RECORDS
  {
    var p := assembled.value;
    assert identify(p.(identity := identify(p).value)) == identify(p);
  }

  /** Every value the builder yields from a source text passes the separate semantic validator. */
  lemma BuiltPortfolioIsValid(f: Format, source: Option<Source>, policyIdentity: string, roles: Roles,
                              context: RunContext, accepts: CrossCheck, isWord: WordClass, identify: IdentifyPortfolio)
    requires PortfolioIgnoresSlot(identify)
    requires source.Some? ==> IsSha256(source.value.identity)
    requires BuildPortfolio(f, source, policyIdentity, roles, context, accepts, isWord, identify).Ok?
    ensures ValidPortfolio(BuildPortfolio(f, source, policyIdentity, roles, context, accepts, isWord, identify).value,
                           policyIdentity, roles, context, identify)
    ensures |BuildPortfolio(f, source, policyIdentity, roles, context, accepts, isWord, identify).value.records|
              <= MAXIMUM_OPEN_BUY_RECORDS
  {
    AssembledIsSound(f, source, policyIdentity, roles, context, accepts, isWord);
    FinishedPortfolioValid(AssemblePortfolio(f, source, policyIdentity, roles, context, accepts, isWord),
                           policyIdentity, roles, context, identify);
  }
}
