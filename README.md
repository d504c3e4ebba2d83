# MI-FINANZA ledger core in Dafny

MI-FINANZA is a personal-finance tracker. Each user records:

- companies with hourly day and night rates, an IRPF withholding percentage and fixed deductions;
- worked days, whose daily gross is derived from those rates;
- expenses, either posted to the bank or kept out of it;
- debts and their payments.

At the end of a month the user closes it. The closure posts that month's net income, minus the expenses kept out of the bank, as one bank movement per supported currency. From then on the month is read-only. All money is integer cents. The only currencies are EUR and XAF.

This project models three layers:

- **Money and calendar helpers** (`app/utils.py`) as pure functions, modules `Money`, `Calendar`, `Text` and `Rounding`. These cover money parsing with half-up rounding, the two-decimal rendering, half-open month ranges and the cents sum.
- **The ledger engine** (`app/services.py`). The SQLite tables become sequences of row values (`Tables`). Every SQL aggregation becomes a pure function over those rows (`Queries`, with `Grouping` for `GROUP BY`/`SUM` and for the dictionary loops). The tables live in class `Ledgers.Ledger`, whose methods append rows. `close_month` is the method `Ledger.CloseMonth`; its posting loop is `Ledger.PostAmounts`.
- **The business rules inside the HTTP handlers** (`app/main.py`), as validation functions (`Handlers`) and `Ledger` methods. The creation paths are companies, expenses, work entries, debts and debt payments, plus the month-close request and the annual projection. The user table, the `require_*_user` gates and the admin role policy (set-plan, set-role, claim-owner) live in module `Admin`, with class `Admin.Directory` holding the user rows.

`Scenarios` replays the repository's close-month test (one company, one work entry, one expense kept out of the bank) on the model. It arrives at the test's single EUR movement of 73000 cents, dated 2026-02-28.

Modelling choices:

- **Ids:** row ids and user ids are natural numbers drawn from one counter, `Ledger.nextId`, in place of `new_id()`'s UUIDs.
- **Dates:** dates are `(year, month, day)` triples. `Calendar.IsoOrderIsDateOrder` proves that comparing the ISO strings, as the SQL filters do, is the same as comparing the triples.
- **Floats:** hours and the IRPF percentage are `real`. Python's `round()` is `Rounding.RoundHalfEven`, while the `Decimal` `ROUND_HALF_UP` of the money parser is `Money.HalfUpCents`.
- **Dictionary order:** the closure loop runs over the supported currencies in the fixed order `["EUR", "XAF"]`. In the source it follows the iteration order of `amounts_by_currency`, which contains the same supported currencies.

## Model

| member | source | states |
|---|---|---|
| Money.SupportedListMatchesSet | app/utils.py:8 | the posting order `["EUR","XAF"]` lists exactly the supported currency set, each once |
| Money.ParseMoneyToCents | app/utils.py:19-29 | an unsupported currency is rejected before the amount is read; an unparsable amount is `InvalidAmount`; a value ≤ 0 is `NonPositiveAmount`; a positive value in a supported currency is accepted exactly when its half-up cents stay below 10^28, the 28-digit precision of the default decimal context, and then the result is those cents; otherwise it is `AmountTooLarge` |
| Money.ParseDecimal | app/utils.py:22-25 | a parse needs non-blank text after stripping, has fewer decimal places than that text has characters, and is negative only when the text starts with `-`; SignedParses gives the value of every text in the grammar |
| Money.LargeAmountRejected | app/utils.py:28 | a whole amount whose cents reach 10^28 is `AmountTooLarge`, as `quantize` raising `InvalidOperation` |
| Money.HalfUpCentsRounds | app/utils.py:28 | the computed cents are the value rounded half-up to two decimals, times 100 |
| Money.RoundsHalfUpUnique | app/utils.py:28 | that rounding has only one result |
| Money.ExactWithTwoDecimals | app/utils.py:28-29 | with at most two fractional digits the result is the value × 100 exactly |
| Money.BelowHalfCentIsZero | app/utils.py:28-29 | a positive value below 0.005 gives 0 cents |
| Money.ReplaceCommas | app/utils.py:23 | every comma becomes a dot and every other character is kept |
| Money.ReplaceCommasIdempotent | app/utils.py:23 | replacing commas twice is the same as once |
| Money.CommaIsDot | app/utils.py:23 | parsing the text with commas equals parsing it with dots |
| Money.TwoSeparatorsRejected | app/utils.py:22-25 | any text with two separators does not parse |
| Money.ParseThousandsRejected | app/utils.py:22-25 | "1,000.50" is `InvalidAmount` |
| Money.ParseDotTwelveFifty | app/utils.py:19-29 | "12.50" in EUR gives 1250 |
| Money.ParseCommaTwelveFifty | app/utils.py:19-29 | "12,50" in EUR gives 1250 |
| Money.ParseZeroRejected | app/utils.py:26-27 | "0" is `NonPositiveAmount` |
| Money.ParseUnknownCurrency | app/utils.py:20-21 | currency "XYZ" is `UnsupportedCurrency` |
| Money.IntegerParses | app/utils.py:22-25 | a digit string parses to its value with scale 0 |
| Money.SignedParses | app/utils.py:22-25 | surrounding whitespace, an optional '+' or '-', then digits with at most one '.': the value is all the digits read as one number, the scale is the number of digits after the point, the sign is negative exactly for '-'; a text with no digit is refused |
| Money.DottedParses | app/utils.py:22-25 | an optionally negative text of digits, one '.', digits parses to all its digits read as one number, with scale the number of digits after the point ("12.345" is 12345 at scale 3); "." alone is refused |
| Money.AcceptedCents | app/utils.py:19-29 | a parsed positive amount in a supported currency whose cents fit 28 digits is accepted with its half-up cents |
| Money.ThousandthsCents | app/utils.py:28 | d thousandths (d < 10) round half-up to 1 cent from 5 on, and to 0 below |
| Money.ParseThousandths | app/utils.py:19-29 | "0.000" is refused as not positive, "0.001" to "0.004" are accepted as 0 cents, "0.005" to "0.009" as 1 cent |
| Money.ParseHalfCentRoundsUp | app/utils.py:19-29 | "0.005" in EUR is 1 cent |
| Money.ParseBelowHalfCent | app/utils.py:19-29 | "0.004" in EUR is accepted as 0 cents |
| Money.CentsToStr | app/utils.py:32-34 | the rendering has at least four characters, with the decimal point third from the end |
| Money.CentsToStrParses | app/utils.py:32-34 | the rendering uses only digits, `-` and `.`, and reads back as the decimal with the sign of c, coefficient \|c\| and two decimal places |
| Money.RenderThousands | app/utils.py:32-34 | 12345 renders as "123.45" |
| Money.RenderTwelveFifty | app/utils.py:32-34 | 1250 renders as "12.50" |
| Money.RenderMinusFive | app/utils.py:32-34 | -5 renders as "-0.05" |
| Money.RenderZero | app/utils.py:32-34 | 0 renders as "0.00" |
| Money.RenderedHasNoCommas | app/utils.py:23 | a rendering has no comma, so the comma replacement leaves it alone |
| Money.RenderThenParse | app/utils.py:19-34 | for every 0 < c < 10^28 and supported currency, parsing the rendering of c gives back c |
| Money.SumAppend | app/utils.py:37-41 | the sum of a concatenation is the sum of the sums |
| Money.SumCents | app/utils.py:37-41 | the accumulation loop returns the sum of the values, and 0 for none |
| Text.Strip | app/main.py:618 | the result is the slice of the input left after removing a whitespace prefix and a whitespace suffix, and it neither starts nor ends with whitespace; whitespace is every character `str.isspace()` accepts |
| Text.StripUnchanged | app/main.py:618 | text without surrounding whitespace is left as is |
| Text.StripAllSpace | app/main.py:632 | whitespace-only text strips to the empty string |
| Text.AsciiUpper | app/main.py:621 | the result keeps the length and upper-cases each ASCII letter |
| Text.UpperUnchanged | app/main.py:621 | text without lower-case letters is unchanged |
| Text.LexLess | app/main.py:809 | Python's `<` on strings: a string is never below itself, and the empty string is below exactly the non-empty strings |
| Text.ZeroPad | app/services.py:457 | the padded digits denote the number and are at least the requested width |
| Text.NatToDigits | app/services.py:457 | the decimal digits denote the number, with no leading zero |
| Text.DigitsValueAppend | app/services.py:457 | the value of two digit strings joined is the first shifted by the second's length, plus the second |
| Rounding.RoundHalfEven | app/services.py:299 | `round()` is within ½ of its argument, and an exact tie goes to the even integer |
| Rounding.RoundHalfEvenUnique | app/services.py:299 | only one integer satisfies that contract |
| Rounding.RoundIntegral | app/services.py:299 | an integer rounds to itself |
| Rounding.RoundTiesToEven | app/services.py:345 | 2.5 → 2, 3.5 → 4, -2.5 → -2, 0.5 → 0 |
| Calendar.DaysInMonth | app/services.py:438 | 28..31 days, and February has 29 exactly in Gregorian leap years |
| Calendar.BeforeTotal | app/services.py:335-336 | the date order is total and asymmetric |
| Calendar.MonthRange | app/utils.py:50-56 | defined exactly for the months `date()` accepts; starts on (y,m,1); ends on (y,m+1,1), or (y+1,1,1) for December; start < end |
| Calendar.MonthRangeContains | app/utils.py:50-56 | a valid date lies in the range exactly when it has that year and month |
| Calendar.MonthKey | app/utils.py:15-16 | the key is the date's (year, month) |
| Calendar.MonthKeyRange | app/utils.py:15-16 | lying in a month's range is having that month key |
| Calendar.PrevDay | app/services.py:438 | the day before is a valid date earlier than the given one |
| Calendar.PrevDayImmediate | app/services.py:438 | no valid date lies strictly between the two |
| Calendar.LastDayOfMonth | app/services.py:437-438 | the day before the range's end is (y, m, days in month) and lies in the month |
| Calendar.CalendarExamples | app/utils.py:50-56 | the December roll-over, leap and non-leap Februaries, and the rejected months 13 and 9999-12 |
| Calendar.IsoDate | app/services.py:339 | the ISO form is ten characters with dashes at positions 4 and 7 |
| Calendar.ZeroPadExact | app/services.py:339 | a number below 10^w pads to exactly w digits |
| Calendar.DigitsOrder | app/services.py:335-336 | on equal-length digit strings, string order is numeric order and string equality is numeric equality |
| Calendar.JoinedOrder | app/services.py:335-336 | three equal-width digit fields joined by a separator compare field by field |
| Calendar.IsoOrderIsDateOrder | app/services.py:335-336 | comparing ISO date strings is comparing the dates |
| Roles.RoleLevel | app/services.py:70-86 | the level is 0 exactly for a string outside the five roles, and at most 50 |
| Roles.RoleLevelsStrictlyIncrease | app/services.py:70-82 | FREE=10 < PREMIUM < ADMIN < SUPER_ADMIN < OWNER=50 |
| Roles.RoleLevelInjective | app/services.py:76-82 | two roles with the same level are the same role |
| Roles.CanManageIrreflexive | app/services.py:225-226 | nobody manages their own role |
| Roles.CanManageAsymmetric | app/services.py:225-226 | if a manages b then b does not manage a |
| Roles.CanManageTransitive | app/services.py:225-226 | managing is transitive |
| Roles.UnknownRoleManagesNobody | app/services.py:85-86 | an unknown role manages nobody and every real role manages it |
| Roles.EnsureCanManageUser | app/services.py:229-231 | passes exactly when the actor's level is strictly higher, and otherwise fails with the privilege error |
| Roles.ManageExamples | tests/test_admin_security.py:50-57 | ADMIN→ADMIN and ADMIN→SUPER_ADMIN fail; ADMIN→PREMIUM, SUPER_ADMIN→ADMIN and OWNER→SUPER_ADMIN pass |
| Grouping.KeysOf | app/services.py:376-387 | a key is present exactly when some row carries it |
| Grouping.GroupSum | app/services.py:376-387 | one entry per key present, each the sum of that key's values; a missing key reads as 0 |
| Grouping.SumForNonNegative | app/services.py:396-405 | non-negative values give a non-negative group sum |
| Grouping.GroupSumSnoc | app/services.py:367-370 | one more row adds its value to its own key only, and adds its key |
| Grouping.Accumulate | app/services.py:367-370 | the `defaultdict` accumulation loop ends with the grouped sums |
| Grouping.Combine | app/main.py:1400-1403 | keys are the union, and each value is a.get(k,0) ± b.get(k,0) |
| Grouping.CombineEmpty | app/main.py:1396-1399 | merging with an empty dictionary changes nothing |
| Grouping.CombineAssociative | app/main.py:1393-1399 | key-wise addition is associative |
| Grouping.MergeInto | app/services.py:432-435 | the `acc[k] ±= v` loop over a dictionary, in any key order, gives the key-wise sum or difference |
| Grouping.TotalOverIsSum | app/main.py:1393-1399 | the month-by-month totals hold each key's sum over the months, and have exactly the keys of some month |
| Grouping.Diffs | app/main.py:1400-1403 | the monthly savings are the key-wise differences, month by month |
| Grouping.CombineInterchange | app/main.py:1412-1415 | subtracting two merged maps equals merging the two differences |
| Grouping.TotalOfDiffs | app/main.py:1412-1415 | total savings (total income − total expenses) equal the sum of the monthly savings |
| Queries.IsMonthClosed | app/services.py:408-413 | true exactly when a closure row exists for that user, year and month |
| Queries.EnsureMonthOpen | app/services.py:280-287 | fails, with `MonthClosed`, exactly when the date's month is closed for that user |
| Queries.ClosureFrame | app/services.py:280-287 | a new closure closes its own month and leaves every other user or month as it was |
| Queries.UniqueClosureKeysAppend | app/db.py:108 | adding a closure for a month not yet closed keeps (user, year, month) unique |
| Queries.ComputeGrossDay | app/services.py:290-301 | the gross is bonus + pluses + day hours × rate + night hours × rate, to within one cent |
| Queries.GrossDayWholeHours | app/services.py:290-301 | with whole hours the gross is exact |
| Queries.GrossDayExample | app/services.py:290-301 | 8 day hours at 1000 with nothing else give 8000 |
| Queries.GetCompany | app/services.py:304-316 | returns a company with that id owned by that user, and fails with `CompanyNotFound` exactly when there is none |
| Queries.FindDebt | app/services.py:480-485 | returns a debt with that id owned by that user, and fails with `DebtNotFound` exactly when there is none |
| Queries.IncomeRows | app/services.py:319-340 | no more rows than companies (grouped by company) |
| Queries.IncomeRowsMembers | app/services.py:319-340 | a row is present exactly for a company with at least one of the user's entries in the range, and carries the stored gross and advances of those entries |
| Queries.ItemOf | app/services.py:343-349 | final net = gross − IRPF − other deductions − advances |
| Queries.IrpfWithinGross | app/services.py:345 | with 0 ≤ IRPF% ≤ 100 the withholding lies between 0 and the gross |
| Queries.Irpf | app/services.py:345 | the withholding is within ½ of gross × IRPF% / 100, and an exact tie goes to the even integer |
| Queries.Breakdown | app/services.py:319-360 | every item has estimated net = gross − IRPF − other deductions and final net = estimated net − advances; every key is the id of a company whose name, currency and deductions the item carries, with the IRPF computed from that company's percentage |
| Queries.BreakdownKeys | app/services.py:319-360 | the breakdown holds exactly the companies that have entries of the user in the range |
| Queries.BreakdownValue | app/services.py:342-359 | each company's item is computed from the sums of its stored daily gross and advances |
| Queries.BreakdownSnoc | app/services.py:342-359 | adding a company adds its item exactly when it has entries |
| Queries.GrossOfSnoc | app/services.py:329-338 | a new entry adds to a company's sums only when it is the user's, in range and for that company |
| Queries.IncomeRowsIgnoreUncounted | app/services.py:335-336 | another user's entry, or one outside the month, changes no row |
| Queries.IncomeRowsIgnoreUnreferenced | app/services.py:332 | a company without entries adds no row |
| Queries.NetRows | app/services.py:367-370 | one (currency, final net) pair per breakdown row |
| Queries.IncomeNetByCurrency | app/services.py:363-370 | a currency has an income total exactly when a company in that currency has entries of the user in the range |
| Queries.IncomeNetIsBreakdownSum | app/services.py:363-370 | the net income of a currency is the sum of the final nets of the breakdown companies in that currency |
| Queries.NotInBankRowsWithin | app/services.py:373-405 | the not-in-bank rows are a subset of the expense rows, with sums at most the full sums when amounts are non-negative |
| Queries.ExpensesByCurrency | app/services.py:373-387 | a currency has a total exactly when some expense of the user dated in the range is in that currency; with non-negative amounts every total is ≥ 0 |
| Queries.ExpensesNotInBankByCurrency | app/services.py:390-405 | a currency has a total exactly when some expense of the user dated in the range, kept out of the bank, is in that currency; with non-negative amounts every total is ≥ 0 |
| Queries.NotInBankWithinExpenses | app/services.py:373-405 | the not-in-bank expense keys are a subset of the expense keys, and with non-negative amounts each value is at most its total |
| Queries.ExpenseRowsIgnoreUncounted | app/services.py:383-385 | another user's expense, or one outside the month, changes no expense sum |
| Queries.MovementRowsAppend | app/services.py:464-474 | the balance rows of appended movements are the appended rows |
| Queries.BankBalance | app/services.py:464-474 | a currency has a balance exactly when some movement of the user is in that currency |
| Queries.SumForConcat | app/services.py:464-474 | a group sum over a concatenation is the sum of the two group sums |
| Queries.BankBalanceAppend | app/services.py:464-474 | appending movements adds their balances currency by currency |
| Queries.BankBalanceOneMovement | app/services.py:464-474 | one movement of the user gives that amount in its currency, and one of another user gives nothing |
| Queries.BankBalanceAppendOne | app/services.py:464-474 | one more movement moves only its own user's balance in its own currency, by its amount |
| Queries.DebtRemaining | app/services.py:477-497 | fails with `DebtNotFound` exactly when the debt is not the user's; otherwise it returns the total and total − the sum of that debt's payments by that user |
| Queries.DebtPaymentEffect | app/services.py:477-497 | with no payments the remaining equals the total; a payment of that debt by that user lowers the remaining by its amount, and any other payment changes nothing |
| Queries.DebtRemainingExample | tests/test_business_rules.py:113-129 | total 10000 with one payment of 3000 gives (10000, 7000) |
| Queries.ClosureAmounts | app/services.py:431-435 | the amounts have the union of the keys and equal income net − not-in-bank expenses, key by key |
| Queries.ClosureNote | app/services.py:457 | the note starts with "Cierre "; for a four-digit year and a two-digit month it is 14 characters, the year's four digits, a dash and the month's two digits |
| Queries.ClosurePostings | app/services.py:439-460 | at most one movement per listed currency |
| Queries.ClosurePostingsWellFormed | app/services.py:439-460 | every posting is the user's closure movement, on the given day with the given note, with consecutive ids, in a listed currency, carrying that currency's non-zero amount |
| Queries.ClosurePostingsUnfold | app/services.py:439-444 | a zero amount skips the currency and a non-zero one posts a movement first |
| Queries.ClosurePostingsSnoc | app/services.py:439-460 | one more currency appends its movement, if any, after the others |
| Queries.ClosurePostingsCover | app/services.py:441-444 | every listed currency with a non-zero amount gets a movement |
| Queries.ClosurePostingsDistinct | app/services.py:439-460 | distinct currencies give movements in distinct currencies |
| Queries.ClosurePostingsBalance | app/services.py:439-460 | the postings move the user's balance in a listed currency by its amount, and in other currencies not at all |
| Queries.AppendEntryKeepsClosedMonths | app/main.py:805 | a work entry that passed the open-month check leaves every closed month's figures unchanged |
| Queries.AppendExpenseKeepsClosedMonths | app/main.py:700 | an expense that passed the open-month check leaves every closed month's figures unchanged |
| Queries.AppendCompanyKeepsClosedMonths | app/main.py:612-661 | a new company, which has no entries yet, leaves every closed month's figures unchanged |
| Handlers.NormalizeCurrency | app/main.py:707 | the currency is the stripped, upper-cased field, "EUR" when absent |
| Handlers.DefaultCurrencyIsEur | app/main.py:707 | an absent currency becomes "EUR" |
| Handlers.CanonicalCurrency | app/main.py:707 | an already upper-case, stripped code is kept |
| Handlers.OptionalAmount | app/main.py:822-830 | blank text means 0; otherwise the amount is parsed; a success is ≥ 0 |
| Handlers.ClockField | app/main.py:807-808 | blank means absent; otherwise the stripped text |
| Handlers.ClockOrderWrong | app/main.py:809-810 | the order check fails only when both times are present; it fails on two equal times and passes when entry < exit as strings |
| Handlers.ValidateCompany | app/main.py:617-633 | name required, then the currency, then the day and night rates, then IRPF within 0..100, then the other deductions, each failure reported in that order; once all pass it succeeds exactly when the three cent columns fit SQLite's 64-bit INTEGER, and otherwise fails with `IntegerOverflow`; a success carries the stripped name, the normalised currency and the parsed fields |
| Handlers.ValidateExpense | app/main.py:699-711 | date, then open month, then category, concept and amount, each failure reported in that order; once they pass it succeeds exactly when the amount and the bank movement's −amount fit 64 bits, and otherwise fails with `IntegerOverflow`; `afectaBanco` defaults to true |
| Handlers.ExpenseNote | app/main.py:743 | the note is the category, then ": ", then the concept |
| Handlers.ExpenseMovement | app/main.py:733-746 | a "gasto" movement of −amount in the expense's currency, on its date, linked to the expense |
| Handlers.ValidateWorkEntry | app/main.py:801-836 | company first, then the date, the open month, clock order, break, hours, then bonus, pluses and advances, each failure reported in that order; once they pass it succeeds exactly when the stored cent and minute columns fit 64 bits, and otherwise fails with `IntegerOverflow`; a success stores the fields and the gross computed from the company's rates |
| Handlers.ValidateDebt | app/main.py:1005-1012 | creditor, then currency, then total, each failure reported in that order; once they pass it succeeds exactly when the total fits 64 bits, and otherwise fails with `IntegerOverflow` |
| Handlers.ValidatePayment | app/main.py:1056-1065 | date, then open month, then a debt of the caller, then the amount in the debt's currency, each failure reported in that order; once they pass it succeeds exactly when the amount and −amount fit 64 bits, and otherwise fails with `IntegerOverflow` |
| Handlers.PaymentNote | app/main.py:1087 | the note is "Pago deuda " followed by the decimal digits of the debt id, without a leading zero |
| Handlers.PaymentMovement | app/main.py:1075-1090 | a "pagoDeuda" movement of −amount in the debt's currency, on the payment date, linked to the payment |
| Handlers.CheckClosePeriod | app/main.py:909-910 | passes exactly for years 2000..2100 and months 1..12 |
| Handlers.CheckProjectionYear | app/main.py:1388-1389 | passes exactly for years 2000..2100 |
| Ledgers.ClosingAmounts | app/services.py:426-435 | a currency has a closing amount exactly when some company in it has entries in the month or some expense in it was kept out of the bank; each amount is income net − not-in-bank expenses |
| Ledgers.ClosingDay | app/services.py:437-438 | the movement date is the month's last day |
| Ledgers.MonthClosurePostings | app/services.py:437-460 | at most one movement per supported currency; each is a closure movement of the user on the month's last day with note "Cierre YYYY-MM", in a supported currency, with a non-zero amount and consecutive ids |
| Ledgers.MonthClosurePostingsShape | app/services.py:437-460 | each closing movement is the user's, dated the last day, typed "ingresoMesCerrado" and linked to the closure, with consecutive ids; a supported currency gets a movement exactly when its amount is non-zero, and at most once |
| Ledgers.SupportedPostingsShape | app/services.py:439-460 | the same shape for any amounts and any day over the two supported currencies |
| Ledgers.MonthClosureBalance | app/services.py:416-474 | after the closing postings the user's balance in a supported currency has moved by income net − not-in-bank expenses, and in any other currency it has not moved |
| Ledgers.Incomes | app/main.py:1393-1399 | one income map per month |
| Ledgers.Expenses | app/main.py:1393-1399 | one expense map per month |
| Ledgers.ProjectionMonths | app/main.py:1393-1411 | one projection entry per month |
| Ledgers.IncomesAt | app/main.py:1394 | the i-th income map is month i+1's net income |
| Ledgers.ExpensesAt | app/main.py:1395 | the i-th expense map is month i+1's expenses |
| Ledgers.ProjectionMonthsAt | app/main.py:1400-1411 | entry i is month i+1, with that month's income, expenses and savings |
| Ledgers.AnnualFigures | app/main.py:1384-1427 | twelve months numbered 1..12, each with that month's income net and expenses and savings = income − expenses key by key; total savings = total income − total expenses key by key |
| Ledgers.ProjectionMonthsShape | app/main.py:1393-1411 | each of the twelve entries is that month's number, income, expenses and key-wise savings |
| Ledgers.AnnualFiguresSums | app/main.py:1384-1427 | twelve months, each with its income, expenses and savings = income − expenses over the union of keys; totals are the sums of the months, and total savings are the sum of the monthly savings |
| Ledgers.ExpenseRow | app/main.py:712-731 | the stored expense carries the validated fields |
| Ledgers.ExpensePosts | app/main.py:733-746 | exactly one movement when the expense affects the bank, and none otherwise |
| Ledgers.PaymentRow | app/main.py:1067-1073 | the stored payment carries the user, debt, date and amount |
| Ledgers.PaymentPosts | app/main.py:1074-1090 | a payment always posts exactly one movement |
| Ledgers.ConsistentAddClosure | app/db.py:108 | a closure for a month not yet closed keeps the ledger invariant, including one closure per user and month |
| Ledgers.ConsistentAddCompany | app/db.py:65 | a company with the next id and a name the user does not already have keeps the invariant, and no work entry refers to it yet |
| Ledgers.ConsistentAddEntry | app/main.py:802 | an entry for a company of the user keeps the invariant that every entry refers to a company |
| Ledgers.Ledger.NewId | app/services.py:15-16 | returns the counter and advances it by one, so ids are never reused |
| Ledgers.Ledger.AddClosure | app/services.py:420-424 | appends exactly one closure row, after which the month is closed |
| Ledgers.Ledger.MonthIncomeBreakdown | app/services.py:319-360 | an invalid month fails; otherwise it returns the breakdown of the current tables |
| Ledgers.Ledger.MonthIncomeNetByCurrency | app/services.py:363-370 | an invalid month fails; otherwise it returns the net income by currency of the current tables |
| Ledgers.Ledger.CloseMonth | app/services.py:416-461 | a closed month fails with `AlreadyClosed` and changes nothing; otherwise exactly one closure row is appended and the month is closed; for a valid period the result is the closure id and exactly the closing movements are appended, while an invalid period fails with `InvalidMonth` and posts nothing |
| Ledgers.Ledger.PostClosure | app/services.py:437-460 | appends exactly the month's closing movements |
| Ledgers.Ledger.PostAmounts | app/services.py:439-460 | the posting loop appends exactly `ClosurePostings` over the supported currencies, with ids from the counter |
| Ledgers.Ledger.PostCurrency | app/services.py:440-460 | a zero amount posts nothing; otherwise one closure movement with the next id |
| Ledgers.Ledger.Post | app/services.py:464-474 | appending a movement changes only its user's balance in its currency, by its amount |
| Ledgers.Ledger.CloseMonthRequest | app/main.py:901-917 | the period is checked first and changes nothing when rejected; then it behaves as `CloseMonth` |
| Ledgers.Ledger.CreateCompany | app/main.py:612-661 | a validation failure or a duplicate name for the user changes nothing; a valid request succeeds exactly when the user has no company of that name, and then appends one company with a fresh id; closed months keep their figures |
| Ledgers.Ledger.CreateExpense | app/main.py:693-751 | a validation failure changes nothing; otherwise one expense row, plus one bank movement exactly when it affects the bank; closed months keep their figures |
| Ledgers.Ledger.InsertExpense | app/main.py:711-746 | appends the expense and, when it affects the bank, its movement |
| Ledgers.Ledger.AddExpense | app/main.py:711-731 | appends the expense row; closed months keep their figures |
| Ledgers.Ledger.CreateWorkEntry | app/main.py:796-866 | a validation failure changes nothing; otherwise one entry with the computed gross; closed months keep their figures |
| Ledgers.Ledger.AddEntry | app/main.py:839-861 | appends the entry; closed months keep their figures |
| Ledgers.Ledger.AddCompany | app/main.py:638-658 | appends the company; closed months keep their figures |
| Ledgers.Ledger.CreateDebt | app/main.py:1000-1025 | a validation failure changes nothing; otherwise one debt with a fresh id |
| Ledgers.Ledger.InsertDebt | app/main.py:1013-1022 | appends the debt, with the next id |
| Ledgers.Ledger.CreateDebtPayment | app/main.py:1050-1095 | a validation failure changes nothing; otherwise one payment row and one "pagoDeuda" movement of −amount in the debt's currency |
| Ledgers.Ledger.InsertPayment | app/main.py:1066-1090 | appends the payment and its movement |
| Ledgers.Ledger.AnnualProjection | app/main.py:1384-1427 | an out-of-range year fails; otherwise it returns the annual figures |
| Scenarios.FebruaryRange | tests/test_business_rules.py:88 | February 2026 is a valid period, from 2026-02-01 to 2026-03-01 |
| Scenarios.ScenarioIncomeRows | tests/test_business_rules.py:59-66 | the test company has one row with gross 100000 and advances 10000 |
| Scenarios.ScenarioItem | tests/test_business_rules.py:40-50 | IRPF 10000, other deductions 5000, estimated net 85000, final net 75000 |
| Scenarios.ScenarioIncomeNet | tests/test_business_rules.py:59-66 | net income is 75000 EUR |
| Scenarios.ScenarioNotInBank | tests/test_business_rules.py:68-75 | the expense kept out of the bank is 2000 EUR |
| Scenarios.ScenarioAmounts | tests/test_business_rules.py:77-92 | the closing amounts are 73000 EUR |
| Scenarios.EuroOnlyPostings | app/services.py:439-460 | with only a euro amount, one euro movement is posted |
| Scenarios.ScenarioClosurePostings | tests/test_business_rules.py:77-92 | the closure posts one EUR movement of 73000 dated 2026-02-28, linked to the closure |
| Admin.EffectiveRole | app/services.py:112 | a non-empty stored role is kept, the result is never empty, and it is a real role exactly when the stored one is a role or empty |
| Admin.GetUser | app/services.py:99-117 | fails with `UserNotFound` exactly when no row has the id; otherwise it returns such a row, read with the default role |
| Admin.GetUserAt | app/services.py:99-117 | with unique ids it returns that very row |
| Admin.RequireUserRecord | app/main.py:83-90 | no session is `NotAuthenticated`, a missing user is `UserNotFound`, an inactive or deleted one is `AccountSuspended`; otherwise the caller's record |
| Admin.RequireLevel | app/main.py:111-132 | passes exactly when the record passes and its level is at least the minimum |
| Admin.RequireAdmin | app/main.py:111-114 | a passing caller is a real role of level ≥ ADMIN |
| Admin.RequireSuperAdmin | app/main.py:117-120 | a passing caller is SUPER_ADMIN or OWNER |
| Admin.RequirePremium | app/main.py:129-132 | a passing caller is a real role of level ≥ PREMIUM |
| Admin.RequireOwner | app/main.py:123-126 | passes exactly when the caller's role is OWNER |
| Admin.GatesNested | app/main.py:111-132 | owner ⇒ super-admin ⇒ admin ⇒ premium ⇒ signed in |
| Admin.SetRoleWhere | app/main.py:1291-1298 | the row with that id gets the role and every other row is unchanged |
| Admin.SetRoleWhereAbsent | app/main.py:1291-1298 | an update of a missing id changes nothing |
| Admin.SetRoleWhereKeepsIds | app/main.py:1291-1298 | ids, and so their uniqueness, are kept |
| Admin.OwnerCount | app/main.py:1320-1325 | the OWNER count is at most the number of users |
| Admin.OwnerCountZero | app/main.py:1320-1325 | the OWNER count is 0 exactly when no user is OWNER |
| Admin.OwnerCountAfterUpdate | app/main.py:1320-1325 | the OWNER count changes by losing the old role and gaining the new one |
| Admin.GetUserAfterUpdate | app/main.py:1331-1337 | after the update the user reads back with the new role |
| Admin.IndexOf | app/main.py:1291-1298 | the position of the row with that id |
| Admin.SetPlanCheck | app/main.py:1126-1142 | a failing admin gate gives its own error; then an invalid plan, one's own plan, a missing target (`UserNotFound`) and a target not on FREE/PREMIUM fail in that order; it passes exactly when the caller is an admin, the plan is FREE/PREMIUM, and the target is another existing user on FREE/PREMIUM |
| Admin.SetPlanPolicy | app/main.py:1126-1142 | the manage check after the gate can never fail; a passing set-plan has an admin actor other than the target, a FREE/PREMIUM target and desired role, and an actor who manages the target |
| Admin.SetRoleRules | app/main.py:1278-1290 | an OWNER target, a SUPER_ADMIN target for a non-OWNER, a target the actor does not outrank, a SUPER_ADMIN assigning beyond ADMIN, assigning OWNER and a non-OWNER assigning SUPER_ADMIN each give their own error in that order; a passing rule set never touches an OWNER or assigns OWNER, and the actor manages the target |
| Admin.SetRoleRulesPolicy | app/main.py:1278-1290 | the target's and the desired level are below the actor's, and SUPER_ADMIN is assigned or modified only by an OWNER |
| Admin.SetRoleCheck | app/main.py:1265-1290 | a failing super-admin gate gives its own error; then an invalid role, one's own role, a missing target (`UserNotFound`) and the role rules' error fail in that order; it passes exactly when the gate passes, the role is valid, the target is another existing user and the role rules pass |
| Admin.SetRolePolicy | app/main.py:1265-1290 | a successful set-role has actor ≠ target, target not OWNER, desired not OWNER, both levels below the actor's, and SUPER_ADMIN handled only by an OWNER |
| Admin.ClaimOwnerCheck | app/main.py:1311-1327 | passes exactly when signed in with a non-empty matching token and fewer than two OWNERs; a missing or wrong token is `InvalidToken`, two OWNERs `OwnerLimitReached` |
| Admin.Directory.Update | app/main.py:1291-1298 | the row is updated and the OWNER count moves accordingly |
| Admin.Directory.SetPlan | app/main.py:1126-1160 | a rejection changes nothing; a pass sets the target's role to the desired plan; the OWNER count never changes |
| Admin.Directory.SetRole | app/main.py:1265-1309 | a rejection changes nothing; a pass sets the target's role; the OWNER count never changes |
| Admin.Directory.ClaimOwner | app/main.py:1311-1348 | a rejection changes nothing; a caller already OWNER is left unchanged; a pass leaves the caller OWNER; the count grows by at most one and never past 2 when it started at ≤ 2 |

## Left out

- HTTP plumbing, page rendering, cookies, the listing endpoints and the CSV and HTML exports: I/O and formatting only.
- Google OAuth and Firebase sign-in, `app/security.py` (password hashing, the signed session cookie): foreign crypto and network calls. The session is an `Option<Id>` parameter; the owner bootstrap token is a string parameter.
- `authenticate` and `create_user`, and the user lookups by e-mail or Firebase uid: sign-up and sign-in are not part of this model.
- The suspend, soft-delete and recover admin handlers: not part of the role policy modelled here. Their effect is visible only through `active` and `deleted` in `Admin.User`.
- `audit_log`: an append-only side effect with no bearing on the ledger.
- `new_id`: UUID generation becomes a counter. Uniqueness is a property of the counter, not of randomness.
- `utc_now_iso` and every `updated_at`/`created_at` stamp: clocks are left out.
- `app/db.py`: the schema becomes the row datatypes. The two constraints the logic relies on are kept. `UNIQUE(user_id, year, month)` on closures is the `Ledger` invariant. `UNIQUE(user_id, name)` on companies is the `DuplicateCompanyName` error of `Ledger.CreateCompany`, standing for the `IntegrityError` caught as a 500 response.
- Concurrency, transactions and commit/rollback: the model is sequential. Every handler runs to completion.
- `close_month` on a period that `month_range` rejects cannot be reached through `Ledger.CloseMonthRequest`, which validates 2000..2100 first. Called directly, the source inserts the closure before `month_range` raises. The model keeps that closure and returns `InvalidMonth`, whereas the real outcome depends on the surrounding transaction.
- `Money.ParseMoneyToCents`: `Decimal` accepts more than the model's grammar. After stripping whitespace, the model takes an optional sign, then digits with at most one separator, where either side of the separator may be empty but not both ("12." and ".5" parse, "." does not). "NaN", "Infinity", exponents and underscores are not modelled.
- `parse_date_or_raise` (`date.fromisoformat`): requests carry an already parsed `Option<Date>`. No ISO text parsing is modelled.
- Floating point: hours and IRPF percentages are exact reals with half-even rounding. Float representation error is not modelled, so `Queries.ComputeGrossDay` is exact to within one cent of the real product and makes no float-exact claims.
- `Handlers.ValidateCompany`, `Handlers.ValidateWorkEntry` and `Handlers.CheckClosePeriod`: the `float()`/`int()` conversions of numeric request fields (app/main.py:628, 812, 816-817, 907-908) are not modelled; those fields arrive already as numbers. So the model has no path for text that is not a number, which the source turns into a `ValueError` (a 400 response) at that point of the check order, and none for a missing `year`/`month`, where `int(None)` raises `TypeError`. NaN and infinity are not modelled either. In the source, an `irpfPorcentaje` of "nan" passes the 0..100 test at app/main.py:629 and is stored, and every later breakdown of a month with entries for that company then fails in `round()` (app/services.py:345). NaN hours pass app/main.py:818 and fail in `round()` at app/main.py:831-832. Infinite hours raise `OverflowError` there, which the handler answers with a 500. The model's success branch of `Handlers.ValidateCompany` promises 0 ≤ IRPF ≤ 100 only for its real-valued field.
- `Text.AsciiUpper`: only ASCII letters are upper-cased. Python's `str.upper` acts on all of Unicode, so a currency code with non-ASCII letters would be compared differently. `Text.Strip` does cover every character `str.isspace()` accepts.
- `Money.CentsToStr`: the 28-digit decimal context is not modelled for rendering. For |c| ≥ 10^28 the source's `quantize` raises, while the model still renders the digits. Every amount the parser accepts is below that bound.
- `Queries.BankBalance`, `Queries.ExpensesByCurrency`, `Queries.IncomeNetByCurrency` and the other `SUM` queries use unbounded integers. SQLite raises on a 64-bit overflow in `SUM`; the model does not. Each stored row fits 64 bits, because every validator ends with that check, but a sum of many rows may not.
- `Ledgers.Ledger.CloseMonth`: the closing movement amounts are not checked against 64 bits. In the source, an amount outside that range (net income minus expenses, each near the limit) makes the INSERT raise after the closure row is written; the model posts the amount.
- The `str(...)` coercion of request-body values: request fields arrive as strings, or as an `Option` where the handler has a default.
- SQL `ORDER BY` and dictionary iteration order: results are maps, and the closure loop runs in the fixed currency order `["EUR", "XAF"]`.
- The annual projection's `_format_cents_map` rendering: it returns cents.
- A `NULL` role in the users table is modelled as the empty string, which `Admin.EffectiveRole` reads as ROLE_FREE.
