# DCF calculator core in Dafny

This project models the valuation logic of a browser discounted-cash-flow calculator. That logic is the `DCFLite` engine object and the pure arithmetic inside the screen's `updateUI` roll-up. All of it is written over Dafny `real`, and the project proves properties of it.

| module | file | what it models |
|---|---|---|
| `Wrappers` | `wrappers.dfy` | `Option`, used where JavaScript yields NaN |
| `Strings` | `strings.dfy` | `trim`, one-character-class `split`, `includes`, ASCII `toLowerCase` |
| `SpreadsheetData` | `spreadsheet_data.dfy` | `parseSpreadsheetData`: line splitting on `\r?\n`, cell splitting on tab/comma, cell parsing, the row filter |
| `Rates` | `rates.dfy` | `calculateWACC`, `calculateCostOfEquity`, `calculateCreditMetrics`, `calculateTVGrowth`, `calculateTVMultiple`, `calculatePV` |
| `Projections` | `projections.dfy` | `projectFCF`, `projectDetailedFinancials` (closed form, plus the loop as written, proved equal) |
| `Valuation` | `valuation.dfy` | form coercion, the roll-up from forecast to implied share price, upside, margin of safety, IRR inputs, credit verdict |
| `Sensitivity` | `sensitivity.dfy` | the per-cell price function and the 5 × 5 sensitivity table |
| `Prefill` | `prefill.dfy` | `autoPopulateFromData`: keyword mapping of spreadsheet rows onto form fields |

Three things the JavaScript takes from its runtime are parameters here:
- `parseFloat` is `parseNumber: string -> Option<real>`, where `None` stands for NaN;
- the square root that mid-year discounting needs is `root: real -> real`;
- number-to-string conversion (`String(n)`) is `show: real -> string`.

Mid-year discounting, `Math.pow(1 + r, year - 0.5)`, is written as `(1 + r)^year / sqrt(1 + r)`, which holds for `1 + r > 0`. `CalculatePv` therefore divides `fv · root(1 + r)` by `(1 + r)^year`. The lemmas that need a true square root assume `IsSquareRoot(root)`.

## Model

| member | source | states |
|---|---|---|
| Strings.Trim | logic.js:16-17 | the trimmed text has no whitespace at either end, and it is the input with only whitespace removed from its front and back |
| Strings.TrimIdempotent | logic.js:16-17 | trimming a trimmed cell changes nothing |
| Strings.SplitBy | logic.js:14 | a split yields one more piece than there are separators, and no piece contains a separator |
| Strings.SplitWeave | logic.js:14 | splitting loses nothing: the pieces woven back with the separators found give the input |
| Strings.SplitConcat | logic.js:14 | splitting a text at a separator gives the pieces of the left part followed by those of the right part |
| Strings.Contains | ui.js:130-133 | `includes` holds exactly when the pattern occurs at some position |
| Strings.ToLowerAscii | ui.js:128 | lower-casing keeps the length and lowers every character in place |
| SpreadsheetData.StripSymbols | logic.js:16 | no `$`, `,` or `%` survives; the length drops by the number of those symbols; text without them is unchanged |
| SpreadsheetData.StripSymbolsKeeps | logic.js:16 | a character is in the stripped text exactly when it is in the input and is not one of the three symbols |
| SpreadsheetData.StripSymbolsOne | logic.js:16 | a single symbol is removed and any other single character is kept |
| SpreadsheetData.StripSymbolsConcat | logic.js:16 | stripping a joined text strips each part and keeps their order; with `StripSymbolsOne` the result is the in-order sequence of the non-symbol characters |
| SpreadsheetData.ParseCell | logic.js:15-17 | a cell is a number exactly when `parseFloat` of its trimmed, symbol-free text is not NaN, and then it is that number; otherwise it is the cell's trimmed text |
| SpreadsheetData.Lines | logic.js:12 | the lines are one more than the line feeds, and no line contains a line feed |
| SpreadsheetData.OneLine | logic.js:12 | a text without line feeds is a single line |
| SpreadsheetData.LinesAtCrLf | logic.js:12 | a CR-LF break yields the lines before it followed by the lines after it |
| SpreadsheetData.LinesAtLf | logic.js:12 | a bare line feed does the same, unless the text before it ends in a carriage return |
| SpreadsheetData.ParseRow | logic.js:14-18 | a row has one cell per tab- or comma-separated field, and each cell is the parse of its field |
| SpreadsheetData.KeepRows | logic.js:19 | a row is kept exactly when it has a first cell that is not empty text: every kept row is an input row that passes, and every input row that passes is kept |
| SpreadsheetData.KeepOneRow | logic.js:19 | a single row is kept exactly when it passes the filter |
| SpreadsheetData.KeepRowsConcat | logic.js:19 | the filter keeps row order |
| SpreadsheetData.ParseSpreadsheetData | logic.js:10-20 | empty text gives no rows; there are at most as many rows as lines; no row starts with empty text |
| SpreadsheetData.ParseOneLine | logic.js:10-20 | one line gives its row, or nothing when its first cell is empty text |
| SpreadsheetData.EmptyLineGivesNoRow | logic.js:12-19 | since `parseFloat("")` is NaN, an empty line parses to the single cell `""`, which the filter drops |
| SpreadsheetData.ParseIsGrid | logic.js:11-19 | the early return for empty text gives what splitting, parsing and filtering would give anyway |
| SpreadsheetData.ParseAtCrLf | logic.js:11-19 | for any two texts, including empty ones, the rows of the texts joined by a CR-LF break are the rows of the first followed by the rows of the second |
| SpreadsheetData.ParseAtLf | logic.js:11-19 | the same across a bare line feed, unless the first text ends in a carriage return |
| SpreadsheetData.TrailingBreakAddsNoRow | logic.js:11-19 | a trailing CR-LF, or a trailing line feed after a text not ending in a carriage return, adds no row |
| SpreadsheetData.LeadingBreakAddsNoRow | logic.js:11-19 | a leading line break, CR-LF or bare LF, adds no row |
| SpreadsheetData.BlankLineAddsNoRow | logic.js:11-19 | a blank line between two blocks adds no row, with CR-LF breaks and with the bare-LF breaks of a pasted text-area value (when the first block does not end in CR) |
| Rates.Max | logic.js:92 | `Math.max`: the larger of two amounts is above both and is one of them; the levered tax `max(0, …)` is never negative and never below the tax it clamps |
| Rates.CalculateWacc | logic.js:25-31 | 0 without capital; otherwise the WACC times total capital is the equity-weighted cost of equity plus the debt-weighted after-tax cost of debt; with no debt and nonzero equity it is the cost of equity |
| Rates.WaccBetweenCosts | logic.js:25-31 | with non-negative capital the WACC lies between the cost of equity and the after-tax cost of debt |
| Rates.CalculateCostOfEquity | logic.js:36-38 | CAPM: 100 times the result is the risk-free rate plus beta times the premium, both in percent |
| Rates.CostOfEquityMonotoneInBeta | logic.js:36-38 | with a non-negative premium, a higher beta never lowers the cost of equity |
| Rates.CalculateCreditMetrics | logic.js:109-114 | coverage is 99 when there is no interest and otherwise coverage times interest is EBIT; leverage is 0 when EBITDA is not positive and otherwise leverage times EBITDA is the debt |
| Rates.CreditExample | logic.js:109-114 | EBIT 50, no interest, debt 100, EBITDA 40 gives coverage 99 and leverage 2.5 |
| Rates.CoverageSentinelIsAmbiguous | logic.js:111 | a coverage of 99 does not imply zero interest: EBIT 99 over interest 1 gives the same number |
| Rates.CalculateTvGrowth | logic.js:119-122 | 0 when the discount rate does not exceed the growth rate (equality included); otherwise the value times (r − g) is next year's cash flow `fcf·(1+g)` |
| Rates.ImpliedExitMultiple | logic.js:119-129 | for a nonzero metric, the exit value at multiple `tv / metric` is `tv` again (stated for a Gordon value `tv`, though it holds for any amount); each extra turn of multiple adds one metric to the exit value |
| Rates.GordonOneYearOn | logic.js:119-122 | the perpetuity one year on is this one grown by `1+g`, and this one is next year's cash flow plus next year's perpetuity discounted one year |
| Rates.CalculateTvMultiple | logic.js:127-129 | with a nonzero multiple, the value divided by the multiple is the metric; the value is 0 exactly when one factor is 0 |
| Rates.CalculatePv | logic.js:134-137 | the present value times `(1+r)^year` is the future value, or under the mid-year convention the future value times `sqrt(1+r)` |
| Rates.PvExample | logic.js:134-137 | 100 due in one year at 10% is worth 1000/11 |
| Rates.PvAtZeroRate | logic.js:134-137 | at a zero rate, end-of-year discounting returns the future value |
| Rates.PvAdditive | logic.js:134-137 | discounting a sum is the sum of the discounted amounts |
| Rates.PvOneYearLater | logic.js:134-137 | an amount grown one year at the discount rate and discounted one year longer keeps its present value |
| Rates.PvBelowFaceValue | logic.js:134-137 | at a positive rate a positive amount due in year 1 or later is worth more than 0 and less than its face value |
| Rates.MidYearBetween | logic.js:134-137 | with a true square root, a mid-year amount is worth more than at the end of its year and less than at the end of the year before |
| Projections.ProjectFcf | logic.js:43-51 | `max(years, 0)` entries; entry `k` is year `k+1` with the current cash flow compounded `k+1` times |
| Projections.PercentOf | logic.js:75-85 | 100 times the result is the amount times the percentage |
| Projections.BridgeRow | logic.js:74-94 | the row carries its year and revenue; COGS, SG&A, D&A and capex are their percentages of revenue; the unlevered tax is `taxRate`% of EBIT, negative on a loss; the working-capital change is `nwcPct`% of the revenue change; net income is EBT less `max(0, taxRate% of EBT)`, so it never exceeds EBT; the gross-profit, EBITDA, EBIT, NOPAT, UFCF and LFCF identities hold |
| Projections.BridgeRatios | logic.js:75-85 | EBIT is what the COGS, SG&A and D&A percentages leave of revenue |
| Projections.RevenueRecurrence | logic.js:71-74 | each year's revenue is the previous year's times both growth factors |
| Projections.DriversFrom | logic.js:66-72 | the loop run from year `i` yields one year's drivers for each year from `i` to `years`, and none once `i` passes `years` |
| Projections.ProjectDetailedFinancials | logic.js:56-104 | `max(years, 0)` rows; row `k` is the bridge of year `k+1` at revenue `units·(1+ug)^(k+1) · price·(1+pg)^(k+1)` against the previous year's revenue, year 1 against the ungrown `units·price` |
| Projections.DriversClosedForm | logic.js:66-74 | the compounding loop, started from any year's units and price, yields the closed-form revenues |
| Projections.RowsNumberedAndBalanced | logic.js:70-99 | rows are numbered 1, 2, … in order and each satisfies the accounting identities |
| Projections.FirstYearRevenueExample | logic.js:66-74 | 100 units at 10 growing 5% and 2% sell 1071 in year 1 |
| Projections.NoGrowthNoWorkingCapital | logic.js:66-101 | without unit or price growth every working-capital change is 0 |
| Projections.UfcfMargin | logic.js:74-88 | UFCF as a margin on revenue: after-tax operating margin plus D&A less capex, less the working-capital share of the revenue change |
| Projections.LeveredVersusUnlevered | logic.js:82-94 | LFCF − UFCF is net income − NOPAT plus net borrowing |
| Projections.UnleveredTaxCanBeNegative | logic.js:81-93 | at a positive tax rate an operating loss books a negative unlevered tax, while a pre-tax loss after interest is taxed at 0 |
| Projections.NoDebtLeveredIsUnlevered | logic.js:81-94 | with no interest or borrowing, non-negative EBIT and a non-negative tax rate, net income is NOPAT and LFCF is UFCF |
| Projections.ProjectDetailedFinancialsLoop | logic.js:56-104 | the loop as written, with running units, price and previous revenue, returns exactly the rows of the closed form |
| Valuation.OrElse | ui.js:139-160 | `parseFloat(v) \|\| d` is the parsed number unless it is NaN or 0, and then it is `d` |
| Valuation.ReadInputs | ui.js:138-161 | the share count is never 0 and is the entered one when that is a nonzero number; growth and discount rates are the entered percentages over 100; the terminal input is divided by 100 only in growth mode; the cost, tax, capex and working-capital percentages stay on the 0-100 scale; units, price, interest, borrowing, net debt and market price are the entered numbers; each blank or zero entry reads as 0 |
| Valuation.FormRoundTrip | ui.js:138-161 | a form showing a set of inputs, with the rates in percent, reads back as exactly those inputs when the share count is nonzero |
| Valuation.BlankSharesReadAsOne | ui.js:152 | a blank or zero share count reads as 1 |
| Valuation.PerShare | ui.js:193 | the implied price times the share count is the equity value |
| Valuation.Forecast | ui.js:163 | the screen's forecast is always five rows, because `years` is fixed at 5 |
| Valuation.Valuate | ui.js:163-193 | five rows; the terminal value is the growth perpetuity of the final row's selected cash flow or the final EBITDA times the multiple; it is discounted over year 5; enterprise value less equity value is net debt; the levered model sets equity and the unlevered model sets enterprise value to the discounted total; price times shares is equity |
| Valuation.TerminalDiscountedAtFinalYear | ui.js:163-182 | the final forecast row is year 5, the period the terminal value is discounted over |
| Valuation.Upside | ui.js:218 | 0 without a positive market price; otherwise `(upside + 1)·market = implied price` |
| Valuation.MarginOfSafety | ui.js:219 | 0 without a positive implied price; otherwise `mos·price = (price − market)·100` |
| Valuation.UpsideAndMarginAgree | ui.js:218-219 | with both prices positive, upside and margin of safety have the same sign and `mos·(1+upside) = 100·upside` |
| Valuation.IrrCashFlows | ui.js:211 | the IRR series has one entry per row, the same levered/unlevered selection as the PV sum |
| Valuation.TerminalValue | ui.js:174-180 | in growth mode 0 when the rate does not exceed the growth and otherwise the value times `(r − g)` is the final year's selected cash flow grown one year; in multiple mode the value divided by a nonzero multiple is the final EBITDA, and the value is 0 exactly when the final EBITDA or the multiple is 0 (so 0 for a zero multiple) |
| Valuation.RollUp | ui.js:184-193 | levered: equity is the discounted total and EV adds net debt; unlevered: EV is the discounted total and equity subtracts net debt; price times shares is equity |
| Valuation.SumPv | ui.js:167-172 | no contract of its own: `SumPvOfNumberedRows` and `IrrSeriesMatchesValuation` state its value |
| Valuation.SumPvOfNumberedRows | ui.js:167-172 | summing the rows' discounted cash flows over their own years equals discounting the IRR series entry `k` over year `k+1` |
| Valuation.IrrSeriesMatchesValuation | ui.js:167-172 | discounting the IRR series at the model's rate gives back `sumPV` |
| Valuation.IrrTarget | ui.js:213-215 | the target is the market capitalisation, plus net debt in the unlevered model |
| Valuation.IrrTargetAtImpliedPrice | ui.js:213-215 | at a market price equal to the implied price the target is `sumPV + pvOfTV` |
| Valuation.CreditStatusOf | ui.js:204 | strong exactly when coverage exceeds 3 and leverage is below 4 |
| Valuation.CreditStatusInTermsOfFigures | ui.js:199-204 | strong exactly when there is no interest or EBIT/interest > 3, and EBITDA is not positive or debt < 4·EBITDA |
| Valuation.CreditOf | ui.js:199 | the roll-up's metrics: final-year EBIT over the interest expense (99 without interest) and net debt over final-year EBITDA (0 without positive EBITDA) |
| Valuation.RollUpCreditStatus | ui.js:199-208 | the screen reports a strong credit exactly when the final forecast year covers the interest more than three times (or there is none) and net debt is below four times that year's EBITDA (or EBITDA is not positive) |
| Valuation.SentinelsReadAsStrong | ui.js:199-204 | no interest and no positive EBITDA always read as a strong credit |
| Sensitivity.SensitivityPrice | ui.js:233-251 | the table's per-cell recalculation gives the headline implied share price of the same inputs |
| Sensitivity.Perturb | ui.js:323-329 | the discount rate moves by the row offset; the growth the table varies moves by the column offset; it is the terminal growth in growth mode and the unit growth otherwise, and nothing else changes |
| Sensitivity.GrowthColumnsKeepForecast | ui.js:326-328 | in growth mode the columns leave the operating forecast unchanged |
| Sensitivity.PriceRow | ui.js:325-333 | a table row has five prices, each the per-cell price at that column's growth offset |
| Sensitivity.SensitivityTable | ui.js:313-335 | 5 × 5; row headings are the discount rate plus the offsets, column headings the base growth plus the offsets; cell `(i, j)` is the price at offsets `(i, j)` |
| Sensitivity.BaseCellIsUnique | ui.js:331 | the highlighted cell is the centre and only the centre |
| Sensitivity.CentreIsSharePrice | ui.js:313-335 | the centre cell shows the headline implied share price |
| Prefill.AutoPopulate | ui.js:126-135 | after all rows, each field holds its old contents or the last cell of one of the rows |
| Prefill.ApplyRow | ui.js:128-133 | every field whose keyword the lower-cased first cell contains takes the row's last cell; the other fields keep their contents |
| Prefill.UnmatchedFieldKept | ui.js:126-135 | a field that no row mentions keeps its contents |
| Prefill.LastMatchWins | ui.js:126-135 | the last row that mentions a field decides its contents |
| Prefill.AutoPopulateConcat | ui.js:127-134 | applying two blocks of rows in turn is applying the joined block |
| Prefill.ParsedRowsHaveKeys | logic.js:19 | every parsed row has a first cell to read the key from |
| Prefill.UpperCaseLabelRecognised | ui.js:128-130 | the keyword match ignores case: "UNITS" fills the units field |

## Left out

- `DCFLite.calculateIRR` and `DCFLite.getInvestmentVerdict` are not part of this model. Their definitions are not in `logic.js`. The model stops at their inputs: `IrrCashFlows`, the terminal value and `IrrTarget`.
- DOM reads and writes, number formatting (`toFixed`, `toLocaleString`), chart rendering and spreadsheet export. These are presentation and I/O. The `p.pv` field the roll-up writes onto each row is never read afterwards: the cash-flow table, the chart and the export (ui.js:256-277, 279-311, 417-434) do not use it, so it is not modelled.
- IEEE-754 doubles: rounding, NaN and Infinity are not modelled. All arithmetic is exact over `real`.
- `parseFloat` is the parameter `parseNumber`. Its prefix-parsing rules are not modelled.
- Number-to-string conversion is the parameter `show`. The square root in mid-year discounting is the parameter `root`. Non-integer powers do not exist over `real`.
- `CalculatePv`, `Valuate` and the sensitivity table require the discount factor `1 + r` to be nonzero. At `r = −1` the JavaScript divides by zero and yields Infinity or NaN. Below `r = −1` the mid-year power of a negative base is NaN in JavaScript, while the model applies `root` to `1 + r` whatever its sign. The sensitivity table requires this for each of its five rates.
- `parseSpreadsheetData(undefined)`: a Dafny string cannot be undefined. Only the empty-text case of `!text` is modelled.
- `tvMethod` and `modelType` are arbitrary strings. Only `"growth"` and `"levered"` are distinguished, as at ui.js:175 and ui.js:169.
- ToLowerAscii: lowers only the ASCII letters. `toLowerCase` also maps non-ASCII letters, which no keyword contains.
- Strings.SplitBy: models a split on a one-character separator class, used for the cell split at logic.js:14. The line split is `Lines`.
- Projections.ProjectFcf and Projections.ProjectDetailedFinancials: `years` is an integer. In JavaScript a fractional `years` runs each loop ⌊years⌋ times, and not at all below 1.
- Valuation.SumPv: carries no contract of its own. An ensures relating it to the IRR series made every use of it in the roll-up too costly to verify. `SumPvOfNumberedRows` states that relation instead.
- The line-order, blank-line and trailing-break lemmas assume `parseNumber("") == None`, which is what `parseFloat("")` returns. Nothing else about `parseFloat` is assumed.
- The module-export boilerplate at the end of `logic.js` is left out.

## Notes

- Zero or negative `years` give an empty list, because the `for (let i = 1; i <= years; i++)` loops never run. No error is raised. `ProjectFcf` and `ProjectDetailedFinancials` give `max(years, 0)` entries.
- The credit coverage sentinel does not identify the zero-interest case. `CalculateCreditMetrics` returns 99 when interest is 0, but a genuine coverage of exactly 99 returns the same value (`CoverageSentinelIsAmbiguous`). So "coverage is 99 exactly when interest is 0" holds in one direction only.
- Sentinels also feed the credit verdict. With no interest expense and no positive EBITDA, both ratios take their sentinel values and the screen reports a strong credit (`SentinelsReadAsStrong`).
- Unlevered taxes are not floored at zero, while levered taxes are. The model keeps this asymmetry (`UnleveredTaxCanBeNegative`).
