/** The limitation codes of the policy side, their texts, and the order of the texts. */
module GapCodes {

  /** In the order of their texts. */
  datatype GapCode =
    | ExtendedEtfThemeMappingIncomplete
    | ExtendedThemeMapUnavailable
    | CashModelUnavailable
    | ExtendedActivationConstraintsUnavailable
    | LookthroughExposureUnavailable
    | MaxNewTickerRuleUnavailable
    | MinimumHoldingEnforcementIncomplete
    | PerRunBudgetApplicabilityUnverified
    | PerRunNewBuyBudgetUnavailable
    | PortfolioNavConcentrationUnavailable
    | SellEligibilityIncomplete
    | TaxLotEnforcementUnavailable
    | TurnoverEnforcementIncomplete

  predicate IsUniverseCode(c: GapCode) {
    c.ExtendedEtfThemeMappingIncomplete? || c.ExtendedThemeMapUnavailable?
  }

  /** The text after the prefix that the code's scope gives it. */
  function Stem(c: GapCode): string {
    match c
    case ExtendedEtfThemeMappingIncomplete => "ETF_THEME_MAPPING_INCOMPLETE"
    case ExtendedThemeMapUnavailable => "THEME_MAP_UNAVAILABLE"
    case CashModelUnavailable => "CASH_MODEL_UNAVAILABLE"
    case ExtendedActivationConstraintsUnavailable => "EXTENDED_ACTIVATION_CONSTRAINTS_UNAVAILABLE"
    case LookthroughExposureUnavailable => "LOOKTHROUGH_EXPOSURE_UNAVAILABLE"
    case MaxNewTickerRuleUnavailable => "MAX_NEW_TICKER_RULE_UNAVAILABLE"
    case MinimumHoldingEnforcementIncomplete => "MINIMUM_HOLDING_ENFORCEMENT_INCOMPLETE"
    case PerRunBudgetApplicabilityUnverified => "PER_RUN_" + "BUDGET_APPLICABILITY_UNVERIFIED"
    case PerRunNewBuyBudgetUnavailable => "PER_RUN_" + "NEW_BUY_BUDGET_UNAVAILABLE"
    case PortfolioNavConcentrationUnavailable => "PORTFOLIO_NAV_CONCENTRATION_UNAVAILABLE"
    case SellEligibilityIncomplete => "SELL_ELIGIBILITY_INCOMPLETE"
    case TaxLotEnforcementUnavailable => "TAX_LOT_ENFORCEMENT_UNAVAILABLE"
    case TurnoverEnforcementIncomplete => "TURNOVER_ENFORCEMENT_INCOMPLETE"
  }

  function CodeText(c: GapCode): string {
    (if IsUniverseCode(c) then "EXTENDED_" else "POLICY_") + Stem(c)
  }

  function Position(c: GapCode): (r: nat)
    ensures r < 13
  {
    match c
    case ExtendedEtfThemeMappingIncomplete => 0
    case ExtendedThemeMapUnavailable => 1
    case CashModelUnavailable => 2
    case ExtendedActivationConstraintsUnavailable => 3
    case LookthroughExposureUnavailable => 4
    case MaxNewTickerRuleUnavailable => 5
    case MinimumHoldingEnforcementIncomplete => 6
    case PerRunBudgetApplicabilityUnverified => 7
    case PerRunNewBuyBudgetUnavailable => 8
    case PortfolioNavConcentrationUnavailable => 9
    case SellEligibilityIncomplete => 10
    case TaxLotEnforcementUnavailable => 11
    case TurnoverEnforcementIncomplete => 12
  }

  /** Text order: the first difference decides; neither may be a prefix of the other. */
  ghost predicate TextBefore(a: string, b: string) {
    exists k :: 0 <= k < |a| && k < |b| && a[..k] == b[..k] && a[k] < b[k]
  }

  lemma TextBeforeTransitive(a: string, b: string, c: string)
    requires TextBefore(a, b) && TextBefore(b, c)
    ensures TextBefore(a, c)
  {
    var j :| 0 <= j < |a| && j < |b| && a[..j] == b[..j] && a[j] < b[j];
    var k :| 0 <= k < |b| && k < |c| && b[..k] == c[..k] && b[k] < c[k];
    var m := if j < k then j else k;
    assert a[..m] == a[..j][..m] == b[..m] == b[..k][..m] == c[..m];
    assert m < j ==> a[m] == a[..j][m] == b[..j][m] == b[m];
    assert m < k ==> c[m] == c[..k][m] == b[..k][m] == b[m];
  }

  lemma HeadBefore(a: string, b: string)
    requires a != "" && b != "" && a[0] < b[0]
    ensures TextBefore(a, b)
  {
    assert a[..0] == b[..0];
  }

  lemma SecondBefore(a: string, b: string)
    requires |a| > 1 && |b| > 1 && a[0] == b[0] && a[1] < b[1]
    ensures TextBefore(a, b)
  {
    assert a[..1] == [a[0]] && b[..1] == [b[0]];
  }

  lemma PrefixBefore(p: string, a: string, b: string)
    requires TextBefore(a, b)
    ensures TextBefore(p + a, p + b)
  {
    var k :| 0 <= k < |a| && k < |b| && a[..k] == b[..k] && a[k] < b[k];
    assert (p + a)[..|p| + k] == p + a[..k] && (p + b)[..|p| + k] == p + b[..k];
    assert (p + a)[|p| + k] == a[k] && (p + b)[|p| + k] == b[k];
  }

  function Next(c: GapCode): (d: GapCode)
    requires Position(c) < 12
    ensures Position(d) == Position(c) + 1
  {
    match c
    case ExtendedEtfThemeMappingIncomplete => ExtendedThemeMapUnavailable
    case ExtendedThemeMapUnavailable => CashModelUnavailable
    case CashModelUnavailable => ExtendedActivationConstraintsUnavailable
    case ExtendedActivationConstraintsUnavailable => LookthroughExposureUnavailable
    case LookthroughExposureUnavailable => MaxNewTickerRuleUnavailable
    case MaxNewTickerRuleUnavailable => MinimumHoldingEnforcementIncomplete
    case MinimumHoldingEnforcementIncomplete => PerRunBudgetApplicabilityUnverified
    case PerRunBudgetApplicabilityUnverified => PerRunNewBuyBudgetUnavailable
    case PerRunNewBuyBudgetUnavailable => PortfolioNavConcentrationUnavailable
    case PortfolioNavConcentrationUnavailable => SellEligibilityIncomplete
    case SellEligibilityIncomplete => TaxLotEnforcementUnavailable
    case TaxLotEnforcementUnavailable => TurnoverEnforcementIncomplete
  }

  lemma MaxNewDiffers()
    ensures TextBefore(Stem(MaxNewTickerRuleUnavailable), Stem(MinimumHoldingEnforcementIncomplete))
  {
    SecondBefore(Stem(MaxNewTickerRuleUnavailable), Stem(MinimumHoldingEnforcementIncomplete));
  }

  lemma NewBuyDiffers()
    ensures TextBefore(Stem(PerRunNewBuyBudgetUnavailable), Stem(PortfolioNavConcentrationUnavailable))
  {
    SecondBefore(Stem(PerRunNewBuyBudgetUnavailable), Stem(PortfolioNavConcentrationUnavailable));
  }

  lemma TaxLotDiffers()
    ensures TextBefore(Stem(TaxLotEnforcementUnavailable), Stem(TurnoverEnforcementIncomplete))
  {
    SecondBefore(Stem(TaxLotEnforcementUnavailable), Stem(TurnoverEnforcementIncomplete));
  }

  lemma PerRunDiffers()
    ensures TextBefore(Stem(PerRunBudgetApplicabilityUnverified), Stem(PerRunNewBuyBudgetUnavailable))
  {
    HeadBefore("BUDGET_APPLICABILITY_UNVERIFIED", "NEW_BUY_BUDGET_UNAVAILABLE");
    PrefixBefore("PER_RUN_", "BUDGET_APPLICABILITY_UNVERIFIED", "NEW_BUY_BUDGET_UNAVAILABLE");
  }

  lemma HeadDiffersEarly(c: GapCode)
    requires c.ExtendedEtfThemeMappingIncomplete? || c.CashModelUnavailable?
             || c.ExtendedActivationConstraintsUnavailable?
    ensures TextBefore(Stem(c), Stem(Next(c)))
  {
    HeadBefore(Stem(c), Stem(Next(c)));
  }

  lemma HeadDiffersLate(c: GapCode)
    requires c.LookthroughExposureUnavailable? || c.MinimumHoldingEnforcementIncomplete?
             || c.PortfolioNavConcentrationUnavailable? || c.SellEligibilityIncomplete?
    ensures TextBefore(Stem(c), Stem(Next(c)))
  {
    HeadBefore(Stem(c), Stem(Next(c)));
  }

  lemma AdjacentStems(c: GapCode)
    requires Position(c) < 12 && IsUniverseCode(c) == IsUniverseCode(Next(c))
    ensures TextBefore(Stem(c), Stem(Next(c)))
  {
    match c
    case MaxNewTickerRuleUnavailable => MaxNewDiffers();
    case PerRunNewBuyBudgetUnavailable => NewBuyDiffers();
    case TaxLotEnforcementUnavailable => TaxLotDiffers();
    case PerRunBudgetApplicabilityUnverified => PerRunDiffers();
    case ExtendedEtfThemeMappingIncomplete => HeadDiffersEarly(c);
    case CashModelUnavailable => HeadDiffersEarly(c);
    case ExtendedActivationConstraintsUnavailable => HeadDiffersEarly(c);
    case _ => HeadDiffersLate(c);
  }

  lemma AdjacentTexts(c: GapCode)
    requires Position(c) < 12
    ensures TextBefore(CodeText(c), CodeText(Next(c)))
  {
    if IsUniverseCode(c) == IsUniverseCode(Next(c)) {
      AdjacentStems(c);
      PrefixBefore(if IsUniverseCode(c) then "EXTENDED_" else "POLICY_", Stem(c), Stem(Next(c)));
    } else {
      HeadBefore(CodeText(c), CodeText(Next(c)));
    }
  }

  lemma PositionsDiffer(c: GapCode, d: GapCode)
    requires Position(c) == Position(d)
    ensures c == d
  {
  }

  /** Sorting the codes as texts is sorting them by their position here. */
  lemma {:induction false} PositionIsTextOrder(c: GapCode, d: GapCode)
    requires Position(c) < Position(d)
    ensures TextBefore(CodeText(c), CodeText(d))
    decreases Position(d) - Position(c)
  {
    var n := Next(c);
    AdjacentTexts(c);
    if Position(n) < Position(d) {
      PositionIsTextOrder(n, d);
      TextBeforeTransitive(CodeText(c), CodeText(n), CodeText(d));
    } else {
      PositionsDiffer(n, d);
    }
  }
}
