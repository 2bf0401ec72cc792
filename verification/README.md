# Deterministic artifacts of the investment orchestrator: a verified model

The `mmi` kernel of the orchestrator turns trusted source files into self-identified JSON
artifacts: it captures bytes from the file system, parses money out of a text table, builds a
policy and a portfolio projection, composes a view that an analyst may see, and prints, hashes,
embeds and reloads the results. This project models that kernel and proves what its artifacts
rest on. It has four linked parts.

1. **Canonical values and identities.** `Texts` (UTF-8), `JsonValues`, `JsonText` (printer and
   parser), `JsonRoundTrip`, `Canonical`, `Snapshot` (the copy of an arbitrary object graph),
   `Identity`, `PromptFrame`, `BraceScanner`, `FlatRecords`, `PreparedHandoff`. Printing is undone
   by parsing, framing loses nothing, and identities bind.
2. **Exact decimal money.** `Digits`, `Amounts`, `Decimals`, `DecimalSums`, `SourceText`,
   `OpenBuyTable`, `OpenBuyRows`, `Traversal`, `Commitments`. An amount is an integer and a scale;
   text comparisons decide exact equality; no line of the table is lost on the way to the total.
3. **The projection pipeline.** `Dates`, `Timestamps`, `GapCodes`, `Universe`, `PolicyProjection`,
   `PortfolioProjection`, `AnalystView`, `ViewContract`, `ComposedView`, `ViewExamples`,
   `PlainJson`, `ViewNames`, `ViewText`, `ViewBound`, `LargestView` (the view as the JSON its contract
   bounds), `References`. Builders and the separately written validators agree, and what the builders
   compose lands inside the later contracts.
4. **Stable capture.** `BoundedReaders`, `Descriptors`, `FileReads` and `FileReader` (two readers
   of a single file), `CaptureProtocol`, `CaptureLaws`, `CaptureAbsence`, `CaptureStability`,
   `CaptureSession`, `CaptureExample`, and `SessionCalendar`. The operating system is an oracle whose answer to each
   call is arbitrary, so a writer may act between any two calls.

Where the source works in place, a method with the same loop or a class with the same fields is
proved equal to a specification function, and the lemmas are about that function. `Snapshot.Walk`,
`FileReader.Reader` and `CaptureSession.Capture` are the classes. A specification function in the
table below is one whose own contract states something; most get their meaning from the lemmas
beside them.

SHA-256 is a parameter, a function from bytes to hexadecimal text. No injectivity is assumed:
every binding result ends in "or these two byte strings collide", with the byte strings named.

## Where the code does less than it seems to promise

- The handoff's byte bound never rejects a prompt that keeps its own byte bound, but the outer
  limits on depth and nodes do: a prompt of 32 levels, or of more than 16,375 nodes, is admitted
  alone and rejected in the envelope. `PreparedHandoff.BuildExactly` gives the exact condition,
  `PreparedHandoff.DeepPromptRejected` an input.
- A policy or portfolio dated before the year 1000 is admitted by the projections. The view
  contract formats the date again with `strftime`, which pads years to four digits on some
  platforms only; where it does not, the view is rejected. `ComposedView.ViewDerives` gives the
  exact condition, `ViewExamples.EarlyYearRejected` an input.
- The policy builder writes the time of evaluation and the time its source ran with the same
  `strftime`, and the policy's own validator reads both back with `strptime`, which wants four
  digits. So a source that ran before the year 1000, or a clock that shows such a year, is accepted
  by the builder and rejected by the validator of what it built.
  `PolicyProjection.BuiltPolicyIsValid` gives the exact condition, `ViewExamples.EarlyRunRejected`
  an input.
- Closing the retained descriptors never masks an earlier failure. One other place does: when the
  final descriptor is inheritable, or its inheritance cannot be read, it is closed at once, and a
  failure of that close is reported instead. `CaptureLaws.CloseFailureExactly` and
  `CaptureLaws.BoundCloseFailureExactly` say exactly when each capture reports a close failure, and
  `CaptureExample.DroppedCloseOutranks` is a run of both in which it outranks.
- The two readers of a single file close in a `finally` that may itself raise, so there a failed
  close does replace an earlier failure; `FileReads.ClosingMasks` says exactly when, and
  `FileReads.CloseMasksRejection` is a run in which it does.

## Model

| member | source | states |
|---|---|---|
| Texts.DecodeEncoded | src/investment_orchestrator/mmi/canonical.py:286-297 | UTF-8 (RFC 3629, section 3) is undone by the strict decoder for every text without surrogates |
| Texts.EncodeDecoded | src/investment_orchestrator/mmi/canonical.py:286-297 | every byte string the strict decoder accepts is re-encoded to the very same bytes |
| JsonRoundTrip.LoadPrinted | src/investment_orchestrator/mmi/canonical.py:286-297 | a whole printed document parses back, under the RFC 8259 grammar, to exactly the value printed, with or without the duplicate-key hook |
| JsonValues.SameValueIsSameNormal | src/investment_orchestrator/mmi/canonical.py:271-297 | equality with object key order ignored, at every level, is exactly equality after sorting keys by code point |
| Canonical.AdmitExactly | src/investment_orchestrator/mmi/canonical.py:214-268 | the depth and node walk accepts exactly the values without floats that stay within 32 levels and 16,384 nodes, and leaves the counter advanced by exactly their nodes |
| Canonical.CanonicalReloads | src/investment_orchestrator/mmi/canonical.py:271-297 | canonical bytes parse back to the value that was printed, with its keys in order |
| Canonical.CanonicalInjective | src/investment_orchestrator/mmi/canonical.py:271-297 | two accepted values have the same canonical bytes if and only if they are equal up to key order |
| Canonical.DetachedIsCanonical | src/investment_orchestrator/mmi/run_context_resumption.py:51-69 | reloading a value from its canonical bytes leaves its canonical bytes unchanged, under any bound that still holds them |
| Snapshot.Walk.Copy | src/investment_orchestrator/mmi/canonical.py:214-268 | on any object graph: terminates; restores the set of active containers on success and failure; a success is the unfolding, within depth and node bounds, with the counter advanced by its nodes; each error names its cause (no finite tree, or a bound the tree exceeds) |
| Snapshot.Walk.CopyItems | src/investment_orchestrator/mmi/canonical.py:230-249 | the same of the loop over a list, for the container it completes |
| Snapshot.Walk.CopyEntries | src/investment_orchestrator/mmi/canonical.py:250-267 | the same of the loop over an object, non-text keys included |
| Snapshot.CycleNeverUnfolds | src/investment_orchestrator/mmi/canonical.py:230-254 | an object reachable from itself has no finite unfolding, so rejecting an active container rejects no tree |
| Snapshot.UnfoldsOnce | src/investment_orchestrator/mmi/canonical.py:214-268 | an object unfolds to at most one tree, however much is shared |
| Snapshot.CanonicalGraphBytes | src/investment_orchestrator/mmi/canonical.py:271-297 | on an arbitrary graph with sharing and cycles: if it unfolds, success and bytes are exactly those of the tree; if it does not, failure; the cycle error only where no tree exists |
| Identity.FrameInjective | src/investment_orchestrator/mmi/canonical.py:300-320 | domain, eight-byte length and payload can each be recovered from the hashed material |
| Identity.DigestBinds | src/investment_orchestrator/mmi/canonical.py:300-320 | equal digests mean equal domains and values equal up to key order, or an explicit hash collision |
| Identity.FillThenCheck | src/investment_orchestrator/mmi/canonical.py:323-339 | the stored identity never affects the computed one, whatever placeholder it held, and filling it in makes the check pass |
| Identity.IdentityBinds | src/investment_orchestrator/mmi/canonical.py:323-339 | two records with one identity have one domain and agree on every field but the identity field, or a collision |
| Identity.IdentityOfDetached | src/investment_orchestrator/mmi/run_context_resumption.py:51-69 | a record and its detached snapshot have the same identity |
| Identity.SnapshotIsNormal | src/investment_orchestrator/mmi/run_context_resumption.py:51-69 | the snapshot succeeds exactly when canonical bytes of an object exist, and is that object with keys in order |
| Identity.ResumedTimesAgree | src/investment_orchestrator/mmi/run_context_resumption.py:72-114 | two artifacts resumed under one expected identity yield one evaluation time, or a collision |
| PromptFrame.UnframeFrame | src/investment_orchestrator/mmi/grounded_prompt_v2.py:408-455 | reading a frame returns the evidence bytes, even when they contain the end marker or the suffix |
| PromptFrame.FrameUnframe | src/investment_orchestrator/mmi/grounded_prompt_v2.py:408-455 | whatever the frame reader accepts is the frame of what it returns, to the byte |
| PromptFrame.ReadRendered | src/investment_orchestrator/mmi/grounded_prompt_v2.py:408-455 | reading a rendered prompt returns exactly the embedded view |
| PromptFrame.RenderRead | src/investment_orchestrator/mmi/grounded_prompt_v2.py:408-455 | every prompt text the reader accepts is the rendering of the view it returns |
| PromptFrame.PromptsInjective | src/investment_orchestrator/mmi/grounded_prompt_v2.py:360-382 | two prompts under one layout and binding are the same text if and only if their views are equal up to key order |
| BraceScanner.ExtractFirstBalancedJson | src/investment_orchestrator/parsers/extract_research_json.py:17-44 | the nested loops compute the recursive scan whose meaning the next lemmas give |
| BraceScanner.ExtractExactly | src/investment_orchestrator/parsers/extract_research_json.py:17-44 | the result is none exactly when no brace starts a balanced run outside strings, and otherwise is the run of the first brace that starts one |
| BraceScanner.ExtractIdempotent | src/investment_orchestrator/parsers/extract_research_json.py:17-44 | scanning a result again returns it unchanged |
| BraceScanner.PrintedObjectIsExtracted | src/investment_orchestrator/parsers/extract_research_json.py:17-44 | any printed object is extracted exactly from after any text without an opening brace and before any suffix |
| FlatRecords.FlatCanonical | src/investment_orchestrator/mmi/mmi_h1_prepared_handoff_v1.py:196-231 | the envelope has canonical bytes exactly when depth, nodes and summed length fit, and then has exactly the summed length |
| FlatRecords.FilledIdentifiesItself | src/investment_orchestrator/mmi/mmi_h1_prepared_handoff_v1.py:196-231 | a record filled with the digest of its other fields carries its own identity after being detached |
| PreparedHandoff.HandoffIsSized | src/investment_orchestrator/mmi/mmi_h1_prepared_handoff_v1.py:60-87 | the field names and constants have the lengths, alphabet and domain form that the byte count rests on |
| PreparedHandoff.BuildExactly | src/investment_orchestrator/mmi/mmi_h1_prepared_handoff_v1.py:196-231 | the builder succeeds exactly when its inputs pass their own checks and the prompt has at most 31 levels and 16,375 nodes; what it builds validates to itself |
| PreparedHandoff.EnvelopeByteBound | src/investment_orchestrator/mmi/mmi_h1_prepared_handoff_v1.py:68-73 | an envelope is exactly its prompt plus a fixed overhead, never above 394,367 bytes, and at that bound exactly when the portfolio digest is present and the prompt is at its own |
| PreparedHandoff.FullEnvelope | src/investment_orchestrator/mmi/mmi_h1_prepared_handoff_v1.py:68-73 | a prompt of exactly 393,852 bytes beside a present portfolio builds an envelope of exactly 394,367 |
| PreparedHandoff.DeepPromptRejected | src/investment_orchestrator/mmi/mmi_h1_prepared_handoff_v1.py:196-231 | a prompt of 32 levels is admitted by its own bounds and rejected inside the envelope |
| PreparedHandoff.BuiltResumes | src/investment_orchestrator/mmi/mmi_h1_prepared_handoff_v1.py:249-280 | whatever was built resumes, under the identity it carries, to the time it was built with |
| PreparedHandoff.ResumedHandoffTimesAgree | src/investment_orchestrator/mmi/mmi_h1_prepared_handoff_v1.py:249-280 | two envelopes resumed under one identity yield one evaluation time, or a collision |
| Amounts.SameIffReduced | src/investment_orchestrator/mmi/canonical.py:144-152 | two scaled amounts are equal exactly when their lowest terms are |
| Decimals.NormalizeDecimal | src/investment_orchestrator/mmi/canonical.py:117-211 | the branches on integers, texts and decimals compute the specification by value, with each error |
| Decimals.NormalizeFinite | src/investment_orchestrator/mmi/canonical.py:144-152 | zero-stripping leaves the denoted value and its acceptance unchanged |
| Decimals.CountDigits | src/investment_orchestrator/mmi/canonical.py:154-171 | the two digit counts are those of the text that will be placed, whatever the digits |
| Decimals.PlaceDigits | src/investment_orchestrator/mmi/canonical.py:173-191 | the three placements of the point yield the digits before and after it, with neither guard able to fire |
| Decimals.RenderStripped | src/investment_orchestrator/mmi/canonical.py:154-211 | a stripped coefficient renders as the normal text of the amount it denotes, or fails exactly when its digits exceed a limit |
| Decimals.NormalizationPreservesValue | src/investment_orchestrator/mmi/canonical.py:117-211 | the text denotes exactly the value given |
| Decimals.NormalizationDecidesEquality | src/investment_orchestrator/mmi/canonical.py:117-211 | equal values, however spelt, fare alike; different values never share a text |
| Decimals.NormalizationIdempotent | src/investment_orchestrator/mmi/canonical.py:117-211 | a normal text is its own normal text |
| Decimals.AcceptedByValue | src/investment_orchestrator/mmi/canonical.py:151-171 | a number is accepted by value alone: exactly when some spelling of it keeps to 48 integral, 24 fractional and 56 total digits |
| Decimals.NormalizedShape | src/investment_orchestrator/mmi/canonical.py:188-211 | no minus zero, no redundant zero, and the guards after rendering always pass |
| DecimalSums.RenderUnitsExactly | src/investment_orchestrator/mmi/portfolio_projection.py:633-645 | rendering scaled units equals normalizing the amount they stand for, failure included |
| DecimalSums.TotalAtAnyScale | src/investment_orchestrator/mmi/portfolio_projection.py:656-668 | the sum is the same number at whatever common scale it is taken |
| DecimalSums.SumExactly | src/investment_orchestrator/mmi/portfolio_projection.py:656-668 | the text denotes the exact sum at every scale, and there is none exactly when that sum has no admissible spelling |
| DecimalSums.SumOrderIndependent | src/investment_orchestrator/mmi/portfolio_projection.py:656-668 | permuting the operands leaves the text unchanged |
| DecimalSums.SumSpellingIndependent | src/investment_orchestrator/mmi/portfolio_projection.py:656-668 | respelling the operands leaves the text unchanged |
| DecimalSums.SumEqualsText | src/investment_orchestrator/mmi/portfolio_projection.py:656-668 | comparing the text of a sum with a normal text decides exact equality |
| SourceText.LinesCover | src/investment_orchestrator/mmi/portfolio_projection.py:557-558 | splitting a text into lines loses nothing but line ends: put back they make the text again, and no line holds one |
| OpenBuyTable.ExtractStrictOpenBuyRows | src/investment_orchestrator/mmi/portfolio_projection.py:557-630 | splitting, then the section, header and row loops, compute the specified rows, or fail |
| OpenBuyTable.ReadRows | src/investment_orchestrator/mmi/portfolio_projection.py:604-630 | the row loop is the specified scan from the first line, with nothing read and the table not yet ended |
| OpenBuyTable.NoDataLineLost | src/investment_orchestrator/mmi/portfolio_projection.py:557-630 | on success the rows are exactly the data-like lines of the section but the header, in order, each of full width |
| OpenBuyRows.StrictNamedNumericSummary | src/investment_orchestrator/mmi/portfolio_projection.py:527-554 | the token loop reads the whole summary or fails |
| OpenBuyRows.SummaryIsAdmitted | src/investment_orchestrator/mmi/portfolio_projection.py:527-554 | every entry of a summary carries a decimal within the digit bounds, under its normal spelling |
| OpenBuyRows.SourceDecimalMeaning | src/investment_orchestrator/mmi/portfolio_projection.py:470-490 | an admitted money field denotes exactly its text, under its one normal spelling, and is absent only where optional and empty |
| OpenBuyRows.ReconstructExactly | src/investment_orchestrator/mmi/portfolio_projection.py:671-699 | the ladder denotes the exact sum of price times quantity, and fails exactly when that sum has no admissible spelling |
| OpenBuyRows.BudgetCheckDecides | src/investment_orchestrator/mmi/portfolio_projection.py:743-751 | the textual comparison of stated plus residual with the budget decides exact equality |
| Commitments.StrictOpenBuySourceRows | src/investment_orchestrator/mmi/portfolio_projection.py:702-845 | the row loop and the cross-check compute the specified rows, or fail |
| Commitments.StatedEqualsLadder | src/investment_orchestrator/mmi/portfolio_projection.py:702-845 | a row that states a notional beside a ladder states exactly the ladder's sum |
| Commitments.PartsEqualBudget | src/investment_orchestrator/mmi/portfolio_projection.py:702-845 | a row that states both parts of its budget states parts that add up to it exactly |
| Commitments.ResolveStrictCurrentOpenBuyCommitments | src/investment_orchestrator/mmi/portfolio_projection.py:848-927 | the resolving loop computes the specified commitments and total, or the specified failure |
| Commitments.CommitmentsConserved | src/investment_orchestrator/mmi/portfolio_projection.py:848-927 | on success there is one commitment for each data-like line, in order and under its ticker, for exactly the stated notional or else the ladder's sum, and the total is the exact sum of those |
| Commitments.ResolveExactly | src/investment_orchestrator/mmi/portfolio_projection.py:848-927 | admitted rows resolve exactly when each states a notional or has a ladder whose sum can be spelt, and the total can be; which failure it is otherwise |
| Commitments.BudgetsDoNotCommit | src/investment_orchestrator/mmi/portfolio_projection.py:848-927 | two admitted texts that differ outside ticker, stated notional and ladder resolve alike |
| Commitments.EmptySectionCommitsZero | src/investment_orchestrator/mmi/portfolio_projection.py:848-927 | an empty section commits nothing |
| GapCodes.PositionIsTextOrder | src/investment_orchestrator/mmi/policy_projection.py:545-551 | sorting gap codes as texts is sorting them by their fixed position |
| Universe.SortGapsSorts | src/investment_orchestrator/mmi/policy_projection.py:545-551 | sorting keeps the gaps and orders their codes as texts |
| Universe.SortGapsStrict | src/investment_orchestrator/mmi/policy_projection.py:545-551 | gaps with distinct codes sort into strictly increasing order |
| Universe.ReadThemes | src/investment_orchestrator/mmi/policy_projection.py:657-690 | filling the theme map in a loop computes the specified map or the first error |
| Universe.UniverseIsPartitioned | src/investment_orchestrator/mmi/policy_projection.py:602-737 | core, satellite and extended tickers partition the analysis scope and the role map |
| Universe.UniverseValidationRedundant | src/investment_orchestrator/mmi/policy_projection.py:1257-1335 | whatever is assembled passes the separate semantic checks, so validation can only stop for want of an identity |
| PolicyProjection.DeriveExpectedPolicyGaps | src/investment_orchestrator/mmi/policy_projection.py:1005-1081 | the appending and sorting computes the specified gap list |
| PolicyProjection.PolicyGapsExactly | src/investment_orchestrator/mmi/policy_projection.py:1005-1081 | the gaps are the universe's own, one for each missing optional rule and the fixed ones, nothing else, in strictly increasing code order |
| PolicyProjection.DecimalSettingValid | src/investment_orchestrator/mmi/policy_projection.py:752-771 | a decimal setting within its limit is still so, as the validator reads it, after normalization |
| Timestamps.ParseFormatted | src/investment_orchestrator/mmi/policy_projection.py:1583-1589 | a UTC timestamp as formatted parses back to itself exactly when its year has four digits or the platform pads it, and does not parse otherwise |
| PolicyProjection.BuiltPolicyIsValid | src/investment_orchestrator/mmi/policy_projection.py:1523-1610 | every policy built from settings has a partitioned universe and passes every separate semantic check, but for its timestamps parsed again, which pass exactly when the platform pads years, or evaluation and source run, if there is one, are in UTC years of at least 1000 |
| PortfolioProjection.HeaderDate | src/investment_orchestrator/mmi/portfolio_projection.py:426-467 | a header date is a calendar date not after the evaluation date |
| PortfolioProjection.ListGaps | src/investment_orchestrator/mmi/portfolio_projection.py:989-1058 | the loop over the fixed order lists the active codes |
| PortfolioProjection.DeriveExpectedGaps | src/investment_orchestrator/mmi/portfolio_projection.py:989-1058 | the conditional updates compute the specified gap list |
| PortfolioProjection.StatedWithinBudget | src/investment_orchestrator/mmi/portfolio_projection.py:702-845 | an admitted stated notional is canonical, non-negative and not above the budget |
| PortfolioProjection.BuiltPortfolioIsValid | src/investment_orchestrator/mmi/portfolio_projection.py:1246-1374 | every projection built from a source text, or from none, passes the separate semantic validator |
| AnalystView.AppendGroup | src/investment_orchestrator/mmi/analyst_visible_evidence_view.py:501-569 | appending a role group with its duplicate check is the specified fold |
| AnalystView.Observe | src/investment_orchestrator/mmi/analyst_visible_evidence_view.py:591-625 | the deduplicating loop is the specified fold, conflicts included |
| AnalystView.TranslatePolicyGaps | src/investment_orchestrator/mmi/analyst_visible_evidence_view.py:704-799 | the translating loop over policy gaps is the specified fold |
| AnalystView.TranslatePortfolioGaps | src/investment_orchestrator/mmi/analyst_visible_evidence_view.py:704-799 | the translating loop over portfolio gaps is the specified fold |
| ViewContract.InstrumentsValid | src/investment_orchestrator/mmi/contracts.py:1143-1200 | the instruments of a partitioned universe meet the contract, name its scope and nothing else, and include the benchmark as core |
| ViewContract.PolicyViewDerives | src/investment_orchestrator/mmi/analyst_visible_evidence_view.py:501-569 | the policy view derives without a guard firing, and meets its contract exactly when its date formats back to itself |
| ViewContract.ObservationsDerive | src/investment_orchestrator/mmi/analyst_visible_evidence_view.py:591-625 | observations of valid records never conflict and meet the contract; outside-policy tickers are distinct and each is observed |
| ComposedView.PolicyLimitationsDerive | src/investment_orchestrator/mmi/analyst_visible_evidence_view.py:704-799 | every policy gap translates: eight limitations and one more for each missing optional rule, in increasing table order |
| ComposedView.PortfolioGapsExactly | src/investment_orchestrator/mmi/portfolio_projection.py:989-1058 | each portfolio gap is listed exactly when its condition holds, in the fixed order |
| ComposedView.PortfolioLimitationsDerive | src/investment_orchestrator/mmi/analyst_visible_evidence_view.py:704-799 | every portfolio gap translates, appended after what is there, each code exactly when its condition holds |
| ComposedView.LimitationsDerive | src/investment_orchestrator/mmi/analyst_visible_evidence_view.py:704-799 | all gaps translate; the number is an explicit count; codes strictly increase; only the outside-policy limitation names tickers, and exactly the observed ones |
| ComposedView.ViewDerives | src/investment_orchestrator/mmi/contracts.py:1286-1331 | for sound projections the view derives, has at most 12 limitations in strictly increasing order, and passes the contract validator exactly when its dates format back to themselves |
| ComposedView.TwelveExactly | src/investment_orchestrator/mmi/contracts.py:1286-1331 | twelve limitations occur exactly when both optional rules are missing, a portfolio is supplied, and its source and its orders are each limited |
| ComposedView.BuildersCompose | src/investment_orchestrator/mmi/analyst_visible_evidence_view.py:802-865 | the same of every policy built from settings and every portfolio built from text against it, with the exact conditions on which the policy passes its validator and the view its contract |
| ComposedView.BuiltSound | src/investment_orchestrator/mmi/analyst_visible_evidence_view.py:802-865 | whatever policy and portfolio the builders yield meets what the derivation is proved from |
| ViewBound.ViewFits | src/investment_orchestrator/mmi/contracts.py:1376-1390 | every view that holds to the rest of its contract prints to at most 47,584 canonical bytes, within depth and node bounds |
| ViewBound.BoundNeverRejects | src/investment_orchestrator/mmi/contracts.py:1334-1390 | so the byte bound never decides: header and parts do |
| ViewBound.DerivedViewAccepted | src/investment_orchestrator/mmi/analyst_visible_evidence_view.py:868-889 | every view derived from sound projections is accepted by the whole contract, with a valid header, exactly when its dates format back to themselves |
| LargestView.BoundReached | src/investment_orchestrator/mmi/contracts.py:1376-1390 | a valid view that prints to exactly 47,584 bytes |
| ViewExamples.SmallPolicyBuilds | src/investment_orchestrator/mmi/policy_projection.py:1084-1173 | a small settings map builds, with both optional rules missing |
| ViewExamples.TwelveReached | src/investment_orchestrator/mmi/analyst_visible_evidence_view.py:802-865 | the bound of twelve limitations is reached |
| ViewExamples.EarlyYearRejected | src/investment_orchestrator/mmi/contracts.py:1120-1131 | a policy dated below the year 1000 builds and derives, and then fails the view contract where years are formatted unpadded |
| ViewExamples.EarlyRunRejected | src/investment_orchestrator/mmi/policy_projection.py:792-818 | a policy whose source ran at midnight Eastern time of the first day of 999 builds, and then fails its own validator where years are formatted unpadded |
| References.UpdateNumbered | src/investment_orchestrator/mmi/validated_grounded_analysis_response.py:463-507 | the loop adds exactly the numbered references up to a count |
| References.SourceBoundReferenceCatalog | src/investment_orchestrator/mmi/validated_grounded_analysis_response.py:453-507 | the catalog filled in place is the specified set |
| References.PatternsArePositions | src/investment_orchestrator/mmi/contracts.py:1933-1943 | the digit patterns spell exactly the positions from 1 to 256 and from 1 to 14 |
| References.MatchesExactly | src/investment_orchestrator/mmi/contracts.py:1933-1943 | a reference matches the numbered grammar exactly when it spells a position within its limit |
| References.NumberedInjective | src/investment_orchestrator/mmi/validated_grounded_analysis_response.py:463-507 | different kinds or positions never share a reference |
| References.CatalogAgainstGrammar | src/investment_orchestrator/mmi/validated_grounded_analysis_response.py:453-507 | for every contract-valid view each catalog reference is in the grammar, and a grammar reference is in the catalog exactly when its position, or the portfolio part it names, is present |
| BoundedReaders.ReadExactBounded | src/investment_orchestrator/mmi/source_capture.py:412-430 | the loop is the specified run of reads, with its result and failure |
| BoundedReaders.ReadToEofOnce | src/investment_orchestrator/common/stable_read.py:89-103 | the loop is the specified run of reads |
| BoundedReaders.ReadExactly | src/investment_orchestrator/cli/weekly_shadow_01_report_publisher_cli.py:166-192 | the loop and the trailing read are the specified run, with its result and failure |
| BoundedReaders.ReadExactMeetsSpec | src/investment_orchestrator/mmi/source_capture.py:412-430 | never asks for nothing or past a chunk, never reads on after an end or error, holds at most one byte too many, and succeeds exactly on the expected length with the end observed |
| BoundedReaders.ReadToEofMeetsSpec | src/investment_orchestrator/common/stable_read.py:89-131 | the same, with the caller's length check |
| BoundedReaders.ReadExactlyMeetsSpec | src/investment_orchestrator/cli/weekly_shadow_01_report_publisher_cli.py:166-192 | the same |
| BoundedReaders.SteadyFile | src/investment_orchestrator/common/stable_read.py:106-131 | on a file that stays put any of the three succeeds exactly when its length is the expected one, and returns its whole content |
| FileReads.ReadersConserve | src/investment_orchestrator/cli/weekly_shadow_01_report_publisher_cli.py:295-304 | on every run of either single-file reader, whatever fails, each descriptor opened is closed exactly once |
| FileReads.ClosingMasks | src/investment_orchestrator/cli/weekly_shadow_01_report_publisher_cli.py:266-304 | in both readers a failed close replaces whatever there was to report, success or failure, exactly when some close fails |
| FileReads.CloseMasksRejection | src/investment_orchestrator/common/stable_read.py:106-136 | a run of the single reading that is about to report a file that is not regular, and whose failing close is reported instead |
| FileReads.StableReadStable | src/investment_orchestrator/common/stable_read.py:106-136 | if writes move the change time, what the single reading returns was the whole content from the first observation of its descriptor to the last, and within its bounds |
| FileReads.SecondPassRedundant | src/investment_orchestrator/cli/weekly_shadow_01_report_publisher_cli.py:243-266 | under the same hypothesis, once the evidence after each pass holds, the two passes cannot differ |
| FileReads.AuthenticatedStable | src/investment_orchestrator/cli/weekly_shadow_01_report_publisher_cli.py:195-268 | so what the double reading returns was the whole content from the first observation of its descriptor to the last |
| FileReads.QuietStableRead | src/investment_orchestrator/common/stable_read.py:106-136 | a file that stays put, within bounds, is read, whatever the pattern of short reads |
| FileReads.QuietResponse | src/investment_orchestrator/cli/weekly_shadow_01_report_publisher_cli.py:195-268 | so is it by the double reading, if each pass is served from the start |
| FileReader.Reader.StableReadExactBytes | src/investment_orchestrator/common/stable_read.py:106-136 | the whole reading leaves the state and outcome of the specification, its close included |
| FileReader.Reader.CloseEvery | src/investment_orchestrator/cli/weekly_shadow_01_report_publisher_cli.py:295-304 | the popping loop closes everything, and reports whether any close failed |
| FileReader.Reader.AuthenticatedResponseBytes | src/investment_orchestrator/cli/weekly_shadow_01_report_publisher_cli.py:195-268 | the whole double reading leaves the state and outcome of the specification, its closing included |
| CaptureLaws.DescriptorsConserved | src/investment_orchestrator/mmi/source_capture.py:394-409 | on every run of the bound capture, the digest and the absence check, whatever fails, each descriptor opened is closed exactly once |
| CaptureLaws.ClosingNeverMasks | src/investment_orchestrator/mmi/source_capture.py:1328-1347 | an earlier failure is what is reported; closing is reported only over a success, exactly when some close fails; descriptors close in reverse |
| CaptureLaws.OpenFinalOutcome | src/investment_orchestrator/mmi/source_capture.py:897-954 | a final descriptor whose inheritance is set or unknown is a failure of its own, whose name is that of the close failure exactly when closing it at once fails; nothing else makes the final open report a close failure |
| CaptureLaws.FinalReadOutcome | src/investment_orchestrator/mmi/source_capture.py:957-1065 | the final reading succeeds exactly when the descriptor was kept, read well and closed well; it reports a close failure exactly when that last close fails, or the descriptor was dropped and that close failed |
| CaptureLaws.CloseFailureExactly | src/investment_orchestrator/mmi/source_capture.py:1468-1563 | the digest reports a close failure exactly when the path was verified and then either the final descriptor was dropped and that close failed, or everything else went well and one of the closes from the final one on failed; so it outranks an earlier failure in the first case alone |
| CaptureLaws.BoundCloseFailureExactly | src/investment_orchestrator/mmi/source_capture.py:1199-1347 | the hash-bound capture does for exactly the same two reasons, once digest and record of the first sample are met |
| CaptureLaws.DroppedOutcome | src/investment_orchestrator/mmi/source_capture.py:932-953 | a dropped final descriptor fails the digest, whatever later closes do: with the missing primitive if its close works, with the close failure if not |
| CaptureLaws.BoundDroppedOutcome | src/investment_orchestrator/mmi/source_capture.py:932-953 | so it does the hash-bound capture |
| CaptureLaws.AbsenceCloseFailureExactly | src/investment_orchestrator/mmi/source_capture.py:1623-1707 | the absence check does exactly when nothing else failed and some close did |
| CaptureAbsence.VerifyPathExactly | src/investment_orchestrator/mmi/source_capture.py:691-789 | a path verification passes exactly when root and every opened component show, each by name and by descriptor at its own two calls, what was recorded of them |
| CaptureAbsence.ConfirmedAbsentExactly | src/investment_orchestrator/mmi/source_capture.py:1623-1707 | a source is confirmed absent exactly when the trusted parents are reached, the leaf is not there, everything opened so far, each parent included, is then still what it was, the leaf is not there after that either, and every descriptor closes |
| CaptureLaws.BoundExactly | src/investment_orchestrator/mmi/source_capture.py:1199-1347 | on the same system answers the capture bound to a digest succeeds exactly when the stable digest is that digest and the sampled bytes meet their record; it returns those bytes |
| CaptureLaws.BoundMeetsDigest | src/investment_orchestrator/mmi/source_capture.py:1468-1563 | so, for a record check that asks no more than digest and size, exactly when the stable digest is that digest |
| CaptureStability.VerifiedSeesAgain | src/investment_orchestrator/mmi/source_capture.py:691-789 | a path verification that passes observed every opened file again, unchanged |
| CaptureStability.SteadyReading | src/investment_orchestrator/mmi/source_capture.py:412-430 | a successful read over a span without writes returns the front of the content |
| CaptureStability.ContentStable | src/investment_orchestrator/mmi/source_capture.py:957-1065 | if writes move the change time, the final re-read equals the first sample, and both were the whole content at every instant from the first observation of the descriptor to the path verification |
| CaptureStability.BoundContentStable | src/investment_orchestrator/mmi/source_capture.py:1199-1347 | so for every success of the hash-bound capture |
| CaptureStability.DigestContentStable | src/investment_orchestrator/mmi/source_capture.py:1468-1563 | so for every success of the digest: its digest and size are those of the content throughout |
| CaptureExample.CalmFileIsCaptured | src/investment_orchestrator/mmi/source_capture.py:1468-1563 | on a system where nothing fails a one-byte file below the root is captured, by digest and bound to it: successes exist |
| CaptureExample.DroppedCloseOutranks | src/investment_orchestrator/mmi/source_capture.py:932-953 | a whole run of both captures in which the inheritance of the final descriptor cannot be read: they report that if closing it works, and the close failure in its stead if not |
| CaptureSession.Capture.OpenFixedRegularPath | src/investment_orchestrator/mmi/source_capture.py:588-624 | a fixed path, component by component |
| CaptureSession.Capture.OpenAbsoluteRepositoryRoot | src/investment_orchestrator/mmi/source_capture.py:541-585 | the root, from the filesystem's own |
| CaptureSession.Capture.OpenTrustedRepositoryContext | src/investment_orchestrator/mmi/source_capture.py:627-688 | root and markers, with the module's binding |
| CaptureSession.Capture.ValidateMarkerMaterials | src/investment_orchestrator/mmi/source_capture.py:1075-1090 | every marker read and its fragments present |
| CaptureSession.Capture.VerifyCompleteOpenedPath | src/investment_orchestrator/mmi/source_capture.py:691-789 | the loop and its two flags give the protocol's verdict, path before source |
| CaptureSession.Capture.CaptureFinalBoundSourceSnapshot | src/investment_orchestrator/mmi/source_capture.py:957-1065 | verification, final open, re-read and close, with the pending failure kept |
| CaptureSession.Capture.CloseAllDescriptors | src/investment_orchestrator/mmi/source_capture.py:394-409 | the popping loop closes everything retained, and reports whether any close failed |
| CaptureSession.Capture.CaptureFixedSourceBytes | src/investment_orchestrator/mmi/source_capture.py:1199-1347 | the whole hash-bound capture leaves the state and outcome of the protocol |
| CaptureSession.Capture.CaptureFixedSourceStableDigest | src/investment_orchestrator/mmi/source_capture.py:1468-1563 | the whole digest, likewise |
| CaptureSession.Capture.ObserveFixedSourceAbsence | src/investment_orchestrator/mmi/source_capture.py:1623-1707 | the whole absence check, likewise |
| SessionCalendar.ParseSessions | src/investment_orchestrator/market/us_equity_session_calendar.py:231-253 | the validating loop computes the specified sessions or the first error |
| SessionCalendar.ScheduleValidExactly | src/investment_orchestrator/market/us_equity_session_calendar.py:231-253 | a schedule validates exactly when it has rows, all readable, in strictly increasing date order |
| SessionCalendar.ResolveLatestCompletedSession | src/investment_orchestrator/market/us_equity_session_calendar.py:335-366 | the loop with early exit computes the specified scan |
| SessionCalendar.LatestIsMaximum | src/investment_orchestrator/market/us_equity_session_calendar.py:335-366 | over a validated schedule the scan returns the latest of all sessions completed by the evaluation time |
| SessionCalendar.LatestMonotone | src/investment_orchestrator/market/us_equity_session_calendar.py:335-366 | a later evaluation time never yields an earlier session |
| SessionCalendar.RepeatedHour | src/investment_orchestrator/market/us_equity_session_calendar.py:335-366 | wall times of one day before its first possible close resolve alike, so a repeated hour changes nothing |
| SessionCalendar.FreshExactly | src/investment_orchestrator/market/us_equity_session_calendar.py:434-520 | a mark is fresh exactly when it is the date of the last completed session |
| SessionCalendar.OtherVerdicts | src/investment_orchestrator/market/us_equity_session_calendar.py:434-520 | exactly when each other verdict is given, a mark before coverage among them; an uncompleted session is always the evaluation day's |
| SessionCalendar.NoVerdictExactly | src/investment_orchestrator/market/us_equity_session_calendar.py:434-520 | no verdict exactly when the clock is outside coverage or nothing is completed yet |

## Left out

Contracts that state less than the source does:

- Identity.ResumedTimesAgree: the artifact's own validator and the timestamp check are parameters, and the provenance of a minted run context is not modelled.
- Canonical.CanonicalReloads: the recursion limit of the interpreter's JSON reader is not modelled; its limit of 4,300 digits on integers is.
- PromptFrame.ReadRendered: prompt prose is an arbitrary layout of prefix, middle and suffix; the context binding is one text, and the prompt artifact's other fields are not modelled beyond the identity lemmas, which hold of any record.
- PreparedHandoff.BuildExactly: the envelope's schema is not part of this model; its clauses are those the code repeats.
- OpenBuyTable.NoDataLineLost: stated over the lines that splitting the decoded text yields (`SourceText.LinesCover` says what that loses); decoding and the checks on byte order marks and zero bytes are not modelled.
- Commitments.CommitmentsConserved: the older open-orders parser is an arbitrary cross-check of the lines and the rows that can only reject.
- PolicyProjection.BuiltPolicyIsValid: starts from the parsed settings map, since YAML loading is a library; reading an Eastern wall-clock text and looking it up is a parameter; fields of the projection that are constants are not carried; the identity is a function that ignores its own slot, and exceeding the 524,288 canonical bytes of a policy is one of the reasons it may yield none: whether a policy built from settings can exceed them is not decided here.
- Universe.UniverseValidationRedundant: likewise for the 131,072 canonical bytes of a universe.
- Timestamps.ParseFormatted: digits are those of ASCII; `strptime` also reads some others.
- PortfolioProjection.BuiltPortfolioIsValid: likewise for constants, identity and the 524,288 canonical bytes of a portfolio; the class of word characters in the header search is a parameter.
- ComposedView.ViewDerives: its coverage areas and completeness statuses are constants of the projections and are not compared; the constant texts and the byte bound are `ViewBound`'s, where the identity is any digest.
- References.CatalogAgainstGrammar: collecting the references of a response and comparing each with the catalog is a subset check and is not modelled.
- FileReads.StableReadStable: error numbers are three classes; the number carried along with a translated error is not.
- FileReads.AuthenticatedStable: the selector is a text; one of another type is not modelled.
- CaptureStability.BoundContentStable: stability holds under the stated hypothesis that equal change times mean no write between; a file system whose change time is too coarse to show a write is outside it.
- CaptureLaws.BoundMeetsDigest: the source record and its own contract are a predicate on the bytes, so rebuilding the record from equal bytes cannot differ; `CaptureLaws.BoundExactly` asks nothing of that predicate.
- SessionCalendar.LatestIsMaximum: takes the Eastern wall time directly; the time-zone database is not modelled.
- SessionCalendar.ResolveLatestCompletedSession: likewise, so the failure to convert the time is not modelled.
- CaptureSession.Capture.CaptureFinalBoundSourceSnapshot: its final open starts at the system call; encoding the path and the checks on the call's own constants are not modelled.

Parts of the repository that are not modelled:

- Python values equal across types (`1` and `True`): values here have one type each.
- System calls, `openat2` and errno tables: only the branching on their answers.
- Path encoding, and file names beyond the check of their components.
- Schedule approval by digest, the header checks of the schedule file, and its loading.
- The evidence bundle's manifest, coverage texts and response schema checks.
- The earlier prompt and view modules, which repeat the derivations modelled here.
- The step, weekly and later workflow engines, floating-point market scripts, archiving and command lines.
