/**
 Strict rows of the open-BUY table (`_strict_open_buy_source_rows` and the field parsers in
 mmi/portfolio_projection.py). The second, older parser the source cross-checks with is a
 parameter: all it can do is reject.
 */
module OpenBuyRows {
  import opened Outcomes
  import opened Digits
  import opened Amounts
  import opened Decimals
  import opened DecimalSums
  import SourceText
  import opened Dates
  import opened OpenBuyTable

  const MAXIMUM_OPEN_BUY_RECORDS: nat := 256

  /** A money field: its normalized text and its exact value. */
  datatype Money = Money(text: string, value: Decimal)

  datatype Entry = Entry(name: string, value: Decimal)

  datatype Row = Row(ticker: string, budget: Money, stated: Option<Money>, steps: seq<Entry>, quantities: seq<Entry>)

  // ----- fields -----

  /** A field that must hold a decimal without a sign, or may be empty; None is a parse failure. */
  function SourceDecimal(raw: string, optional: bool): Option<Option<Money>> {
    if optional && raw == "" then Some(None)
    else if |raw| > 64 || !IsUnsignedText(raw) then None
    else
      match Normalized(DecimalInput(TextDecimal(raw)))
      case Err(_) => None
      case Ok(text) => Some(Some(Money(text, TextDecimal(raw))))
  }

  predicate IsOptionalDate(raw: string) {
    raw == "" || IsDateText(raw)
  }

  /** An optional count of at most three digits; None is a parse failure. */
  function SourceCount(raw: string): Option<Option<nat>> {
    if raw == "" then Some(None)
    else if |raw| > 3 || !AllDigits(raw) || (raw[0] == '0' && |raw| > 1) then None
    else
      var n := Number(DigitValues(raw));
      if n > MAXIMUM_OPEN_BUY_RECORDS then None else Some(Some(n))
  }

  predicate HasName(entries: seq<Entry>, name: string) {
    exists i :: 0 <= i < |entries| && entries[i].name == name
  }

  /** One `name<separator>number` token. */
  function SummaryEntry(token: string, separator: char): Option<Entry> {
    var stripped := SourceText.Strip(token);
    var at := SourceText.Find(stripped, separator);
    if at == |stripped| then None
    else
      var name := SourceText.Strip(stripped[..at]);
      if !SourceText.IsStepName(name) then None
      else
        match SourceDecimal(SourceText.Strip(stripped[at + 1..]), false)
        case Some(Some(money)) => Some(Entry(name, money.value))
        case _ => None
  }

  /** Entries of the tokens from k on, in order, each under a name not seen before. */
  function SummaryFrom(tokens: seq<string>, parse: string -> Option<Entry>, k: nat,
                       entries: seq<Entry>): Option<seq<Entry>>
    requires k <= |tokens|
    decreases |tokens| - k
  {
    if k == |tokens| then Some(entries)
    else
      match parse(tokens[k])
      case None => None
      case Some(entry) =>
        if HasName(entries, entry.name) then None else SummaryFrom(tokens, parse, k + 1, entries + [entry])
  }

  method ReadSummary(tokens: seq<string>, parse: string -> Option<Entry>) returns (r: Option<seq<Entry>>)
    ensures r == SummaryFrom(tokens, parse, 0, [])
  {
    var values: seq<Entry> := [];
    for k := 0 to |tokens|
      invariant SummaryFrom(tokens, parse, 0, []) == SummaryFrom(tokens, parse, k, values)
    {
      var entry := parse(tokens[k]);
      if entry.None? || HasName(values, entry.value.name) {
        return None;
      }
      values := values + [entry.value];
    }
    return Some(values);
  }

  /** A semicolon-separated ladder; names are distinct. */
  function Summary(raw: string, separator: char): Option<seq<Entry>> {
    if raw == "" then Some([])
    else SummaryFrom(SourceText.Split(raw, ';'), (token: string) => SummaryEntry(token, separator), 0, [])
  }

  method StrictNamedNumericSummary(raw: string, separator: char) returns (r: Option<seq<Entry>>)
    ensures r == Summary(raw, separator)
  {
    if raw == "" {
      return Some([]);
    }
    r := ReadSummary(SourceText.Split(raw, ';'), (token: string) => SummaryEntry(token, separator));
  }

  // ----- admitted values -----

  /** A value the field parser admits: finite, without a sign, within the digit bounds. */
  predicate Admitted(d: Decimal) {
    d.Finite? && ValidDecimal(d) && !d.negative && Normalized(DecimalInput(d)).Ok?
  }

  predicate AllAdmitted(entries: seq<Entry>) {
    forall i :: 0 <= i < |entries| ==> Admitted(entries[i].value)
  }

  lemma TextDecimalAmount(s: string)
    requires IsDecimalText(s)
    ensures DecimalAmount(TextDecimal(s)) == TextAmount(s)
  {
    NumberOfNumeral(Number(DigitValues(Integral(s) + Fraction(s))));
    assert Pow10(0) == 1;
  }

  /** What a money field means: the exact value of its text, under its one normalized spelling. */
  lemma SourceDecimalMeaning(raw: string, optional: bool)
    requires SourceDecimal(raw, optional).Some?
    ensures SourceDecimal(raw, optional).value.None? <==> optional && raw == ""
    ensures SourceDecimal(raw, optional).value.Some? ==>
              var money := SourceDecimal(raw, optional).value.value;
              && IsUnsignedText(raw) && Admitted(money.value)
              && DecimalAmount(money.value) == TextAmount(raw)
              && Normalized(DecimalInput(money.value)) == Ok(money.text)
              && IsUnsignedText(money.text) && Same(TextAmount(money.text), TextAmount(raw))
  {
    if raw != "" || !optional {
      TextDecimalAmount(raw);
      AmountText(TextAmount(raw));
    }
  }

  lemma EntryAdmitted(token: string, separator: char)
    ensures SummaryEntry(token, separator).Some? ==> Admitted(SummaryEntry(token, separator).value.value)
  {
    var stripped := SourceText.Strip(token);
    var at := SourceText.Find(stripped, separator);
    if at < |stripped| {
      var number := SourceText.Strip(stripped[at + 1..]);
      if SourceDecimal(number, false).Some? {
        SourceDecimalMeaning(number, false);
      }
    }
  }

  lemma {:induction false} SummaryAdmits(tokens: seq<string>, parse: string -> Option<Entry>, k: nat,
                                         entries: seq<Entry>)
    requires forall t :: parse(t).Some? ==> Admitted(parse(t).value.value)
    requires k <= |tokens| && AllAdmitted(entries) && SummaryFrom(tokens, parse, k, entries).Some?
    ensures AllAdmitted(SummaryFrom(tokens, parse, k, entries).value)
    decreases |tokens| - k
  {
    if k < |tokens| {
      SummaryAdmits(tokens, parse, k + 1, entries + [parse(tokens[k]).value]);
    }
  }

  lemma SummaryIsAdmitted(raw: string, separator: char)
    requires Summary(raw, separator).Some?
    ensures AllAdmitted(Summary(raw, separator).value)
  {
    if raw != "" {
      forall t: string ensures SummaryEntry(t, separator).Some? ==> Admitted(SummaryEntry(t, separator).value.value) {
        EntryAdmitted(t, separator);
      }
      SummaryAdmits(SourceText.Split(raw, ';'), (token: string) => SummaryEntry(token, separator), 0, []);
    }
  }

  // ----- ladders -----

  function Names(entries: seq<Entry>): set<string> {
    set e | e in entries :: e.name
  }

  /** `quantities[name]`. */
  function Lookup(entries: seq<Entry>, name: string): (d: Decimal)
    requires HasName(entries, name)
    ensures exists i :: 0 <= i < |entries| && entries[i] == Entry(name, d)
  {
    if entries[0].name == name then entries[0].value
    else
      assert HasName(entries[1..], name) by {
        var i :| 0 <= i < |entries| && entries[i].name == name;
        assert entries[1..][i - 1] == entries[i];
      }
      var d := Lookup(entries[1..], name);
      assert exists i :: 0 <= i < |entries[1..]| && entries[1..][i] == Entry(name, d)
               && entries[i + 1] == Entry(name, d);
      d
  }

  predicate Covered(steps: seq<Entry>, quantities: seq<Entry>) {
    forall i :: 0 <= i < |steps| ==> HasName(quantities, steps[i].name)
  }

  predicate Ladder(steps: seq<Entry>, quantities: seq<Entry>) {
    AllAdmitted(steps) && AllAdmitted(quantities) && Covered(steps, quantities)
  }

  /** Normalized text of an admitted value, and its units. */
  function NormalUnits(d: Decimal): (a: Amount)
    requires Admitted(d)
    ensures a.units >= 0
  {
    AmountText(DecimalAmount(d));
    DecimalUnits(Normalized(DecimalInput(d)).value)
  }

  lemma NormalUnitsExact(d: Decimal)
    requires Admitted(d)
    ensures Same(NormalUnits(d), DecimalAmount(d))
  {
    AmountText(DecimalAmount(d));
  }

  /** Price times quantity over normalized texts. */
  function NormalProduct(price: Decimal, quantity: Decimal): (a: Amount)
    requires Admitted(price) && Admitted(quantity)
    ensures a.units >= 0
  {
    NonNegativeProduct(NormalUnits(price).units, NormalUnits(quantity).units);
    Product(NormalUnits(price), NormalUnits(quantity))
  }

  lemma NormalProductExact(price: Decimal, quantity: Decimal)
    requires Admitted(price) && Admitted(quantity)
    ensures Same(NormalProduct(price, quantity), Product(DecimalAmount(price), DecimalAmount(quantity)))
  {
    NormalUnitsExact(price);
    NormalUnitsExact(quantity);
    ProductsSame(NormalUnits(price), NormalUnits(quantity), DecimalAmount(price), DecimalAmount(quantity));
  }

  lemma NonNegativeProduct(x: int, y: int)
    requires x >= 0 && y >= 0
    ensures x * y >= 0
  {
  }

  function QuantityOf(quantities: seq<Entry>, name: string): (d: Decimal)
    requires AllAdmitted(quantities) && HasName(quantities, name)
    ensures Admitted(d)
  {
    Lookup(quantities, name)
  }

  function NormalProducts(steps: seq<Entry>, quantities: seq<Entry>): (r: seq<Amount>)
    requires Ladder(steps, quantities)
    ensures |r| == |steps|
    ensures forall i :: 0 <= i < |r| ==> r[i] == NormalProduct(steps[i].value, QuantityOf(quantities, steps[i].name))
    ensures forall i :: 0 <= i < |r| ==> r[i].units >= 0
  {
    seq(|steps|, i requires 0 <= i < |steps| => NormalProduct(steps[i].value, QuantityOf(quantities, steps[i].name)))
  }

  /** `_reconstruct_summary_notional`: None is an overflow. */
  function Reconstruct(steps: seq<Entry>, quantities: seq<Entry>): Option<string>
    requires Ladder(steps, quantities)
  {
    SumText(NormalProducts(steps, quantities))
  }

  /** Price times quantity, exactly, step by step. */
  function ExactProducts(steps: seq<Entry>, quantities: seq<Entry>): (r: seq<Amount>)
    requires Ladder(steps, quantities)
    ensures |r| == |steps|
  {
    seq(|steps|, i requires 0 <= i < |steps| => ExactProduct(steps[i].value, QuantityOf(quantities, steps[i].name)))
  }

  function ExactProduct(price: Decimal, quantity: Decimal): Amount
    requires price.Finite? && quantity.Finite?
  {
    Product(DecimalAmount(price), DecimalAmount(quantity))
  }

  lemma ProductsAreExact(steps: seq<Entry>, quantities: seq<Entry>)
    requires Ladder(steps, quantities)
    ensures SameAll(NormalProducts(steps, quantities), ExactProducts(steps, quantities))
  {
    var normal, exact := NormalProducts(steps, quantities), ExactProducts(steps, quantities);
    forall i | 0 <= i < |normal| ensures Same(normal[i], exact[i]) {
      NormalProductExact(steps[i].value, QuantityOf(quantities, steps[i].name));
    }
  }

  /**
   The reconstruction is the exact sum of price times quantity, in the one text that denotes it,
   and fails exactly when that sum has no admissible spelling.
   */
  lemma ReconstructExactly(steps: seq<Entry>, quantities: seq<Entry>)
    requires Ladder(steps, quantities)
    ensures Reconstruct(steps, quantities) == Rendered(NormalizedAmount(Total(ExactProducts(steps, quantities))))
    ensures Reconstruct(steps, quantities).Some? <==> Spellable(Total(ExactProducts(steps, quantities)))
    ensures Reconstruct(steps, quantities).Some? ==>
              var t := Reconstruct(steps, quantities).value;
              IsUnsignedText(t) && Same(TextAmount(t), Total(ExactProducts(steps, quantities)))
  {
    var normal, exact := NormalProducts(steps, quantities), ExactProducts(steps, quantities);
    ProductsAreExact(steps, quantities);
    TotalsSame(normal, exact);
    SumExactly(normal);
    AmountsDecide(Total(normal), Total(exact));
    AmountAccepted(Total(exact));
    if Reconstruct(steps, quantities).Some? {
      TotalNonNegative(normal);
      AmountText(Total(normal));
      SameTransitive(TextAmount(Reconstruct(steps, quantities).value), Total(normal), Total(exact));
    }
  }

  lemma TotalNonNegative(amounts: seq<Amount>)
    requires forall i :: 0 <= i < |amounts| ==> amounts[i].units >= 0
    ensures Total(amounts).units >= 0
  {
    SumAtNonNegative(amounts, MaxScale(amounts));
  }

  // ----- one row -----

  predicate Exceeds(m: Option<Money>, budget: Money)
    requires m.Some? ==> m.value.value.Finite?
    requires budget.value.Finite?
  {
    m.Some? && AmountLess(DecimalAmount(budget.value), DecimalAmount(m.value.value))
  }

  datatype RowMoney = RowMoney(budget: Money, stated: Option<Money>)

  /** Stated and residual notional sum to the budget, compared as texts. */
  predicate BudgetAdmits(budget: Money, stated: Option<Money>, residual: Option<Money>)
    requires stated.Some? ==> IsUnsignedText(stated.value.text)
    requires residual.Some? ==> IsUnsignedText(residual.value.text)
  {
    stated.Some? && residual.Some? ==> SumTexts([stated.value.text, residual.value.text]) == Some(budget.text)
  }

  /** Budget, stated and residual notional, within the budget and adding up to it. */
  function MoneyFields(fields: Fields): Option<RowMoney>
    requires |fields| == COLUMN_COUNT
  {
    var b, s, r := SourceDecimal(fields[1], false), SourceDecimal(fields[2], true), SourceDecimal(fields[3], true);
    if b.None? || s.None? || r.None? then None
    else
      SourceDecimalMeaning(fields[1], false);
      SourceDecimalMeaning(fields[2], true);
      SourceDecimalMeaning(fields[3], true);
      var budget := b.value.value;
      if Exceeds(s.value, budget) || Exceeds(r.value, budget) || !BudgetAdmits(budget, s.value, r.value) then None
      else Some(RowMoney(budget, s.value))
  }

  /** The highest live limit is not below the lowest. */
  predicate LimitsOrdered(high: Option<Option<Money>>, low: Option<Option<Money>>)
    requires high.Some? && high.value.Some? ==> high.value.value.value.Finite?
    requires low.Some? && low.value.Some? ==> low.value.value.value.Finite?
  {
    high.Some? && low.Some?
    && (high.value.Some? && low.value.Some? ==>
        !AmountLess(DecimalAmount(high.value.value.value), DecimalAmount(low.value.value.value)))
  }

  /** The fields that carry no commitment. */
  predicate DescriptiveFields(fields: Fields)
    requires |fields| == COLUMN_COUNT
  {
    var high, low := SourceDecimal(fields[8], true), SourceDecimal(fields[9], true);
    if high.Some? && low.Some? then
      SourceDecimalMeaning(fields[8], true);
      SourceDecimalMeaning(fields[9], true);
      && SourceText.IsTemplateId(fields[4]) && SourceDecimal(fields[5], true).Some?
      && IsOptionalDate(fields[6]) && IsOptionalDate(fields[7]) && LimitsOrdered(high, low)
    else false
  }

  datatype RowLadder = RowLadder(steps: seq<Entry>, quantities: seq<Entry>)

  /** The two ladders over one set of names, as many as counted. */
  function LadderFields(fields: Fields): (r: Option<RowLadder>)
    requires |fields| == COLUMN_COUNT
  {
    var count, steps, quantities := SourceCount(fields[10]), Summary(fields[11], '@'), Summary(fields[12], ':');
    if count.None? || steps.None? || quantities.None? then None
    else if (steps.value != []) != (quantities.value != []) || Names(steps.value) != Names(quantities.value) then None
    else if count.value.Some? && count.value.value != |steps.value| then None
    else Some(RowLadder(steps.value, quantities.value))
  }

  lemma LadderFieldsCover(fields: Fields)
    requires |fields| == COLUMN_COUNT && LadderFields(fields).Some?
    ensures Ladder(LadderFields(fields).value.steps, LadderFields(fields).value.quantities)
  {
    var steps, quantities := LadderFields(fields).value.steps, LadderFields(fields).value.quantities;
    SummaryIsAdmitted(fields[11], '@');
    SummaryIsAdmitted(fields[12], ':');
    forall i | 0 <= i < |steps| ensures HasName(quantities, steps[i].name) {
      assert steps[i].name in Names(quantities);
      var e :| e in quantities && e.name == steps[i].name;
    }
  }

  /** A stated notional and a complete ladder name one value. */
  predicate StatedAgrees(stated: Option<Money>, ladder: RowLadder)
    requires Ladder(ladder.steps, ladder.quantities)
  {
    stated.Some? && ladder.steps != [] ==> Reconstruct(ladder.steps, ladder.quantities) == Some(stated.value.text)
  }

  function ParseRow(fields: Fields): Option<Row>
    requires |fields| == COLUMN_COUNT
  {
    var money, ladder := MoneyFields(fields), LadderFields(fields);
    if !SourceText.IsTicker(fields[0]) || money.None? || !DescriptiveFields(fields) || ladder.None? then None
    else
      LadderFieldsCover(fields);
      if !StatedAgrees(money.value.stated, ladder.value) then None
      else Some(Row(fields[0], money.value.budget, money.value.stated, ladder.value.steps, ladder.value.quantities))
  }

  // ----- what a parsed row means -----

  function Pair(a: Amount, b: Amount): seq<Amount> { [a, b] }

  /** The textual check decides exact equality: it passes if and only if the amounts add up. */
  lemma BudgetCheckDecides(budgetRaw: string, statedRaw: string, residualRaw: string)
    requires statedRaw != "" && residualRaw != ""
    requires SourceDecimal(budgetRaw, false).Some? && SourceDecimal(statedRaw, true).Some?
             && SourceDecimal(residualRaw, true).Some?
    ensures IsUnsignedText(budgetRaw) && IsUnsignedText(statedRaw) && IsUnsignedText(residualRaw)
    ensures SourceDecimal(budgetRaw, false).value.Some? && SourceDecimal(statedRaw, true).value.Some?
    ensures SourceDecimal(residualRaw, true).value.Some?
    ensures IsUnsignedText(SourceDecimal(statedRaw, true).value.value.text)
    ensures IsUnsignedText(SourceDecimal(residualRaw, true).value.value.text)
    ensures BudgetAdmits(SourceDecimal(budgetRaw, false).value.value, SourceDecimal(statedRaw, true).value,
                         SourceDecimal(residualRaw, true).value)
       <==> Same(Total(Pair(TextAmount(statedRaw), TextAmount(residualRaw))), TextAmount(budgetRaw))
  {
    SourceDecimalMeaning(budgetRaw, false);
    SourceDecimalMeaning(statedRaw, true);
    SourceDecimalMeaning(residualRaw, true);
    var budget := SourceDecimal(budgetRaw, false).value.value;
    var stated := SourceDecimal(statedRaw, true).value.value;
    var residual := SourceDecimal(residualRaw, true).value.value;
    TextsSumTo(stated.text, residual.text, TextAmount(statedRaw), TextAmount(residualRaw), budget);
  }

  lemma TextsSumTo(a: string, b: string, x: Amount, y: Amount, budget: Money)
    requires IsUnsignedText(a) && IsUnsignedText(b) && Same(TextAmount(a), x) && Same(TextAmount(b), y)
    requires budget.value.Finite? && Normalized(DecimalInput(budget.value)) == Ok(budget.text)
    ensures SumTexts([a, b]) == Some(budget.text) <==> Same(Total(Pair(x, y)), DecimalAmount(budget.value))
  {
    var texts := AllUnits([a, b]);
    assert texts == Pair(DecimalUnits(a), DecimalUnits(b));
    TotalsSame(texts, Pair(x, y));
    SumEqualsText(texts, DecimalInput(budget.value));
    SameIffReduced(Total(texts), Total(Pair(x, y)));
    SameIffReduced(Total(texts), DecimalAmount(budget.value));
    SameIffReduced(Total(Pair(x, y)), DecimalAmount(budget.value));
  }
}
