# PagAI ledger engine in Dafny

PagAI keeps a list of debtors and the payments received from them. This
project models the ledger logic of that application and proves properties
about it. The logic covers:

- the free-form amount parser (`parseAmountBR`) and the Brazilian money
  formatter (`formatMoneyBR`);
- the visibility predicates each page filters by (live, active, archived) and
  the flag changes that move a debtor between views;
- the balance card: paid, remaining, settled and progress;
- the metrics page: summary figures, the pie, the per-debtor ranking of
  received amounts, and the semicolon-separated spreadsheet export;
- the calendar pages: the years list, the months of a year, and the debtors
  of a month.

Modules, one per file:

| module | file | models |
|---|---|---|
| `Wrappers` | wrappers.dfy | `Option` (missing field, `NaN`, `null`) and `Result` |
| `Text` | text.dfy | JavaScript string operations the pages use: `trim`, `\s` removal, `replace`, `lastIndexOf`, `toLowerCase`, `includes`, `padStart` |
| `Money` | money.dfy | `src/lib/money.ts` |
| `Seqs` | seqs.dfy | `filter`, `reduce`-sums and JavaScript's stable `sort` on sequences |
| `Records` | records.dfy | `src/types.ts` records, the visibility predicates, the payment-method label |
| `Balance` | balance.dfy | the balance card shared by three pages |
| `Dashboard` | dashboard.dfy | `src/pages/Dashboard.tsx` |
| `DebtorPage` | debtor_page.dfy | `src/pages/Debtor.tsx` |
| `Archive` | archive.dfy | `src/pages/Archived.tsx` |
| `Csv` | csv.dfy | the quoting helper `q` and the line/file layout of the export, with a reader for it |
| `Metrics` | metrics.dfy | `src/pages/Metrics.tsx`: filters, figures, pie, ranking |
| `Report` | report.dfy | `src/pages/Metrics.tsx`: the spreadsheet contents |
| `Calendar` | calendar.dfy | `src/pages/CalendarYears.tsx`, `CalendarMonths.tsx`, `CalendarMonthDebtors.tsx` |

Modelling conventions:

- **Amounts.** The parser returns an exact decimal `Dec(mant, scale)`, meaning
  `mant / 10^scale`. `None` stands for `NaN`. Stored amounts are whole cents
  (`int`), because every write path rounds to two places (`toFixed(2)`).
  `Math.round` is round-half-up on exact rationals.
- **Number().** JavaScript's `Number(x)` is modelled on its decimal-literal
  grammar only: an optional sign, then digits with at most one point and at
  least one digit. The empty string reads as 0; anything else is `NaN`.
- **White space** is the JavaScript `\s` set. Lower-casing is ASCII only.
- **Records.** `Debtor` and `Payment` follow `src/types.ts`. `Payment` also
  carries the `paymentMethod` / `paymentMethodOther` fields that the payment
  form writes. They are named `methodCode` / `methodOther` because `method`
  is a Dafny keyword. An optional or non-numeric field is an `Option`.
- **Store and environment values are parameters.** Store-assigned
  identifiers, the signed-in user id, `Date.now()` (`now`) and the parsed
  date field of the payment form (`when`) are all parameters. Snapshots
  arrive as sequences in store order.
- **Local time.** Local time is a parameter `LocalTime(monthStart,
  monthOf)` over an absolute month index `k = 12*year + month`.
  - `monthStart(k)` is `new Date(y, m, 1).getTime()`.
  - `monthOf(t)` is the month index of instant `t`.
  - `WellFormed` ties the two together: month starts increase, and every
    instant lies between the start of its month and the start of the next.
- **Dates in the export.** The date text of the export is a parameter `fmt`,
  standing for `toLocaleString('pt-BR')`.
- **Sorting and key order.** Sorting is JavaScript's stable sort: an
  insertion sort, descending by an integer key. `Object.keys` order is taken
  as first-insertion order.

Behaviour of the code worth noting:

- `deletePayment` fails only when the payment document does not exist. A
  payment that is already deleted is marked deleted again.
- The archive page's soft delete sets `deleted` and `deletedAt` but not
  `deletedBy`. The debtor page's soft delete sets all three.
- In the export, a debtor without payments gets three quoted cells followed
  by four empty cells that are not quoted. Debtors appear in the order
  of the snapshot.
- No code path sets `archived = true`. The only archive transitions modelled
  are un-archiving and soft delete.

## Model

| member | source | states |
|---|---|---|
| Money.ParseAmountBlank | src/lib/money.ts:14-16 | an empty or all-white-space entry is rejected (`NaN`); it never reads as 0 |
| Money.ParseAmountIgnoresSpace | src/lib/money.ts:15 | inserting a white-space character anywhere in the entry leaves the result unchanged |
| Money.ParseAmountCommaDecimal | src/lib/money.ts:22-39 | digit groups joined by dots, then a comma and digits: the comma is the decimal point and the dots are dropped ("1.234,56", "1234,56") |
| Money.ParseAmountDotDecimal | src/lib/money.ts:22-33 | two or more digit groups joined by commas, then a dot and digits: the dot is the decimal point and the commas are dropped ("1,234.56") |
| Money.ParseAmountTwoCommas | src/lib/money.ts:26-39 | two or more commas, with no dot after the last comma, make the entry unreadable |
| Money.ParseAmountManyDots | src/lib/money.ts:42-48 | three or more digit groups joined by dots read as one integer ("1.000.000") |
| Money.ParseAmountOneDot | src/lib/money.ts:49-58 | a single dot with exactly three digits after it and at least one before groups thousands; otherwise it is the decimal point |
| Money.ParseAmountDigits | src/lib/money.ts:61-62 | a plain digit string reads as that integer |
| Money.ParseAmountExamples | src/lib/money.ts:3-12 | the documented examples, plus "1.5" → 1.5, "" → NaN, ".." → 0 and "1,2,3" → NaN |
| Money.ToNumberFixed | src/lib/money.ts:65-68 | `Number()` reads `[-]a.b` as the exact decimal of the digits of `a` and `b`, scaled by the length of `b` |
| Money.ToNumberInteger | src/lib/money.ts:65-68 | `Number()` reads `[-]digits` as that integer |
| Money.ToNumberRejectsComma | src/lib/money.ts:65-68 | any text containing a comma is `NaN` |
| Money.RoundCents | src/pages/Dashboard.tsx:86 | `Number(x.toFixed(2))` in cents: the nearest cent, ties rounded up |
| Money.RoundCentsExact | src/pages/Dashboard.tsx:86 | an amount with at most two decimal places is stored exactly |
| Money.GroupFacts | src/lib/money.ts:71-75 | the grouped whole part loses only its dots, and has a dot exactly when it has more than three digits; it is groups of exactly three digits, counted from the right, after a first group of one to three digits, joined by dots |
| Money.Triples | src/lib/money.ts:71-75 | cutting the whole part into pt-BR groups: a first group of one to three digits, then groups of exactly three, together spelling the digits |
| Money.GroupJoin | src/lib/money.ts:71-75 | the grouped whole part is those groups joined by dots |
| Money.FormatMoney | src/lib/money.ts:71-72 | a missing or `NaN` amount is shown as "0,00" |
| Money.FormatExamples | src/lib/money.ts:70 | 1000.5 → "1.000,50", 0 → "0,00", 1234567.89 → "1.234.567,89", -0.05 → "-0,05" |
| Money.ParseFormat | src/lib/money.ts:13-76 | parsing any formatted amount in cents, negative ones included, gives back exactly that amount |
| Text.Trim | src/pages/Dashboard.tsx:76 | `trim()` is empty exactly when the text is all white space, and otherwise has no white space at either end |
| Text.Contains | src/pages/Debtor.tsx:148 | `includes` holds exactly when the needle occurs at some position |
| Records.ViewsPartitionLive | src/pages/Dashboard.tsx:28 | a debtor is live exactly when it is active or in the archive view, and never both |
| Records.MethodText | src/pages/Debtor.tsx:376-379 | no method gives no text; an unknown code is shown raw; `outros` with a label is "Outros: label"; a known code shows its table name |
| Balance.SnapshotPaid | src/pages/Dashboard.tsx:45-50 | the one-pass sum of a payments snapshot equals the sum of the amounts of its live payments |
| Balance.LivePaidAppend | src/pages/Dashboard.tsx:46-49 | one more payment adds its amount to the paid sum if it is live, and nothing if deleted |
| Balance.Remaining | src/pages/Dashboard.tsx:158-159 | remaining is never negative, is at least total − paid, and equals either 0 or total − paid |
| Balance.SettledIff | src/pages/Dashboard.tsx:160 | settled exactly when the paid sum is within one cent of the total or above it |
| Balance.RoundDiv | src/pages/Dashboard.tsx:163 | `Math.round(n / d)`: the result is within half a unit of the exact quotient, ties upward |
| Balance.Progress | src/pages/Dashboard.tsx:161-166 | at most 100; for a positive total, `round(100 · paid / total)` (ties up) when that is below 100, and 100 exactly when it is 100 or more, at least 0 when paid ≥ 0; for a zero or missing total, 100 if settled and 0 otherwise |
| Balance.ProgressMonotone | src/pages/Dashboard.tsx:161-166 | paying more never lowers the progress bar |
| Balance.PaidInFull | src/pages/Dashboard.tsx:158-166 | paying at least the total gives progress 100, settled, and nothing remaining |
| Balance.CardOf | src/pages/CalendarMonthDebtors.tsx:88-91 | the month page's card: remaining and progress are the `Remaining` and `Progress` of the debtor's total and the paid sum, remaining ≥ 0, settled exactly when within a cent, progress ≤ 100 and ≥ 0 for non-negative amounts, and for a zero or missing total 100 if settled and 0 otherwise |
| Balance.BalanceExample | src/pages/Dashboard.tsx:157-166 | a total of 1.000,00 with 550,50 paid leaves 449,50, is not settled, and shows 55% |
| Balance.LedgerExample | src/pages/Dashboard.tsx:45-50 | with live payments of 300,00 and 250,50 and a deleted one of 500,00, the paid sum is 550,50 and the card is (550,50; 449,50; not settled; 55%) |
| Dashboard.ActiveListCorrect | src/pages/Dashboard.tsx:27-29 | the list holds exactly the active debtors (same multiset), sorted by `createdAt` descending with missing as 0; equal keys keep snapshot order |
| Dashboard.ReportPaid | src/pages/Dashboard.tsx:50 | a payments snapshot sets that debtor's paid sum to its live total and leaves every other debtor's entry unchanged |
| Dashboard.DashboardCard | src/pages/Dashboard.tsx:157-166 | the card shows the reported paid sum, 0 when none arrived yet; settled exactly when within a cent of the total |
| Dashboard.CreateDebtor | src/pages/Dashboard.tsx:67-90 | rejects, in this order, an unreadable total, a negative total and a blank name, each exactly in its case; otherwise the debtor has the trimmed name, the total rounded to the cent, `now` as creation time, and is neither deleted nor archived |
| Dashboard.CreateFromDisplayed | src/pages/Dashboard.tsx:67-86 | typing a formatted amount as the total creates a debtor with exactly that total |
| Dashboard.CreatedDebtorListed | src/pages/Dashboard.tsx:27-29 | a newly created debtor appears on the dashboard |
| DebtorPage.OnDebtorSnapshot | src/pages/Debtor.tsx:103-114 | a missing document clears the debtor; a deleted one is ignored; any other replaces the held one |
| DebtorPage.ReplayNeverDeleted | src/pages/Debtor.tsx:107-113 | whatever snapshots arrive, the page never holds a deleted debtor |
| DebtorPage.SoftDeleteDebtor | src/pages/Debtor.tsx:253-263 | sets `deleted`, `deletedAt` and `deletedBy` and changes nothing else; the debtor leaves every view |
| DebtorPage.SoftDeletedSnapshotIgnored | src/pages/Debtor.tsx:107-111 | the snapshot of a soft-deleted debtor leaves the page state as it was |
| DebtorPage.LivePaymentsMember | src/pages/Debtor.tsx:118-125 | the payment list holds exactly the payments that are not deleted |
| DebtorPage.PageRemaining | src/pages/Debtor.tsx:130-134 | the debtor page's remaining amount is never negative, and is 0 before the debtor loads |
| DebtorPage.PageRemainingMatchesCard | src/pages/Debtor.tsx:130-134 | the debtor page's remaining amount equals the balance card's remaining amount |
| DebtorPage.FilteredPaymentsMembers | src/pages/Debtor.tsx:145-150 | the filtered list is a permutation of the listed payments whose note contains the query (ignoring case); an empty query keeps all; a payment without a note never matches a non-empty query |
| DebtorPage.FilteredPaymentsOrdered | src/pages/Debtor.tsx:139-157 | the filtered list is ordered by `dateMs` descending or ascending as chosen, a missing date counting as 0 |
| DebtorPage.EmptyQueryShowsAll | src/pages/Debtor.tsx:147-149 | with an empty query the list is a permutation of all listed payments |
| DebtorPage.AddPayment | src/pages/Debtor.tsx:159-196 | rejects, in this order, an unreadable or negative amount, `outros` without a label, and an invalid date, each exactly in its case; otherwise the payment is live, with the amount rounded to the cent, the trimmed note or none, and, exactly for `outros`, the trimmed other-label, which is then not empty |
| DebtorPage.AddedPaymentCounts | src/pages/Debtor.tsx:187-196 | a stored payment is listed and raises the paid sum by its amount, the typed amount rounded to the cent |
| DebtorPage.AddFromDisplayed | src/pages/Debtor.tsx:163-190 | typing a displayed amount stores exactly that amount |
| DebtorPage.FindPayment | src/pages/Debtor.tsx:225-227 | finds the first payment with the identifier, or reports that none has it |
| DebtorPage.DeletePayment | src/pages/Debtor.tsx:218-229 | fails exactly when no payment has the identifier; otherwise marks that payment deleted by the user at `now` and leaves every other payment as it was |
| DebtorPage.DeletePaymentPaid | src/pages/Debtor.tsx:224-229 | after a deletion the paid sum drops by exactly the payment's live amount, and the payment is no longer listed |
| Archive.ArchivedListCorrect | src/pages/Archived.tsx:24-25 | the archive page holds exactly the archived, undeleted debtors (same multiset), sorted by `archivedAt` descending with missing as 0; equal keys keep snapshot order |
| Archive.ListsDisjoint | src/pages/Archived.tsx:24 | no debtor is on both the dashboard and the archive page |
| Archive.Unarchive | src/pages/Archived.tsx:31-34 | clears `archived` and `archivedAt` and nothing else; the debtor leaves the archive view and is active if live; no-op without an id |
| Archive.UnarchiveMovesToDashboard | src/pages/Archived.tsx:31-34 | an un-archived debtor leaves the archive list and appears on the dashboard |
| Archive.SoftDelete | src/pages/Archived.tsx:36-41 | sets `deleted` and `deletedAt` and nothing else, leaving `archived` as it was; the debtor leaves every view; no-op without an id |
| Archive.DeletedLeavesLists | src/pages/Archived.tsx:36-41 | a deleted debtor is on neither the dashboard nor the archive page |
| Metrics.ById | src/pages/Metrics.tsx:86 | the id lookup finds nothing exactly when no active debtor has the id, and otherwise finds the last debtor with it |
| Metrics.PaymentsVisibleMember | src/pages/Metrics.tsx:85-90 | a payment counts exactly when it is not deleted and its debtor is active |
| Metrics.ComputeStats | src/pages/Metrics.tsx:94-109 | counts the active debtors; sums their totals and all visible amounts; sums the amounts dated inside the inclusive month range; pending = max(0, owed − paid in all time); monthly ≤ total for non-negative amounts |
| Metrics.PaymentsForView | src/pages/Metrics.tsx:111-114 | total mode keeps every visible payment; monthly mode keeps exactly those dated inside the inclusive month range |
| Metrics.PieData | src/pages/Metrics.tsx:116-128 | the mode's money slice, named "Pago" with the all-time paid sum or "Recebido no mês" with the month's sum, then "Pendente", then a debtor-count slice exactly when there are active debtors |
| Metrics.PieCoversDebt | src/pages/Metrics.tsx:116-128 | in total mode the two money slices add up to the larger of total owed and total paid |
| Metrics.GroupByDebtor | src/pages/Metrics.tsx:131-135 | one key per debtor with a payment in view, in first-seen order without repeats; each key maps to that debtor's sum; the keyed sums add up to the view's total |
| Metrics.RowsOfSum | src/pages/Metrics.tsx:136-141 | the rows built from the keys add up to the keyed sums |
| Metrics.ReceivedByDebtor | src/pages/Metrics.tsx:130-143 | one row per debtor with a payment in view, no debtor twice; each row carries that debtor's sum, name ("(Sem nome)" if unknown) and creation time; rows in non-increasing value order; the values add up to the view's total |
| Csv.Q | src/pages/Metrics.tsx:46-49 | a quoted field always starts and ends with a quote |
| Csv.ReadQuotedEscape | src/pages/Metrics.tsx:48 | doubling the inner quotes can be undone: the reader recovers the text and stops at the closing quote |
| Csv.UnquoteQ | src/pages/Metrics.tsx:46-49 | unquoting `q(v)` gives back `v`, and `""` for a missing value |
| Csv.ReadCellRender | src/pages/Metrics.tsx:46-49 | a quoted cell whatever it holds, or a bare cell without separator, line break or quote, reads back as the same cell when a separator, a line break or the end follows |
| Csv.ReadLineRender | src/pages/Metrics.tsx:176-184 | a line of cells joined by `;` reads back as the same cells |
| Csv.ReadLinesRender | src/pages/Metrics.tsx:189 | lines joined by CRLF, with no CRLF at the end, read back as the same lines |
| Csv.ReadFileRender | src/pages/Metrics.tsx:189 | the BOM-prefixed file reads back as the same lines |
| Report.HeaderShaped | src/pages/Metrics.tsx:146 | the header has seven columns and reads back |
| Report.DebtorLines | src/pages/Metrics.tsx:157-186 | a debtor takes one line per payment, or one line when it has none |
| Report.BodyLinesFacts | src/pages/Metrics.tsx:156-187 | the body has Σ max(1, payments) lines, each of seven columns |
| Report.ReportShape | src/pages/Metrics.tsx:146-187 | the file has 1 + Σ max(1, payments) lines over the active debtors, each of seven columns and readable |
| Report.ReportReadsBack | src/pages/Metrics.tsx:146-189 | the downloaded text reads back as exactly the header and body lines |
| Report.AmountCellParses | src/pages/Metrics.tsx:166 | the amount cell of a payment line parses back to the payment's amount |
| Calendar.MonthIndexOf | src/pages/CalendarMonths.tsx:41 | `getMonth()` lies in 0..11 |
| Calendar.BetweenStartsIff | src/pages/CalendarMonthDebtors.tsx:25-26 | an instant is in `[start of month k, start of month k+1 − 1]` exactly when it belongs to month k, so adjacent ranges are disjoint and contiguous |
| Calendar.YearRangeIff | src/pages/CalendarMonths.tsx:22-23 | an instant is in `[start of year y, start of year y+1 − 1]` exactly when it belongs to year y |
| Calendar.CreationYearsMember | src/pages/CalendarYears.tsx:26-31 | a year is collected exactly when some live debtor with a creation time was created in it |
| Calendar.YearsCorrect | src/pages/CalendarYears.tsx:21-33 | the years list is strictly descending (no repeats) and holds exactly the creation years of live debtors with a non-zero creation time |
| Calendar.MonthsPresent | src/pages/CalendarMonths.tsx:39-43 | the months present lie in 0..11 |
| Calendar.MonthEnabledIff | src/pages/CalendarMonths.tsx:22-43 | month m of year y is enabled exactly when a live debtor was created in it |
| Calendar.ListedYearHasMonth | src/pages/CalendarMonths.tsx:60-61 | every listed year has at least one enabled month |
| Calendar.IntTextRoundTrip | src/pages/CalendarYears.tsx:48 | the year in a link reads back as the same year |
| Calendar.MonthSegmentRoundTrip | src/pages/CalendarMonths.tsx:62 | the padded month segment "01".."12" reads back as idx + 1 |
| Calendar.MonthDebtorsMembers | src/pages/CalendarMonthDebtors.tsx:25-38 | the month page holds exactly the live debtors created inside the month's range |
| Calendar.MonthDebtorsSorted | src/pages/CalendarMonthDebtors.tsx:36-38 | the month page lists newest first |
| Calendar.MonthDebtorsCorrect | src/pages/CalendarMonthDebtors.tsx:25-38 | the month page holds exactly the live debtors created in that month (archived ones included), newest first |
| Calendar.EnabledMonthNotEmpty | src/pages/CalendarMonths.tsx:60-62 | an enabled month opens a page that is not empty |

## Left out

- Firestore I/O is left out: the `onSnapshot` subscriptions and their lifecycle, `addDoc`/`updateDoc`/`runTransaction`, and the best-effort `logs` writes. Only the state a snapshot produces and the fields a write sets are modelled.
- Authentication, routing, toasts, timers, confirmation dialogs, chart rendering and the Blob download are user-interface plumbing with no ledger logic.
- Floating-point arithmetic is left out. Amounts are exact, so double rounding of `toFixed(2)` and `paid / total * 100` at exact ties is not modelled.
- Money.ToNumber: the exponent, hexadecimal, binary, `Infinity` and other non-decimal forms of `Number()` read as `NaN` in the model, because entries in those forms are not amounts users type. The `Number.isFinite` guard (lines 65-68) is not modelled either: a digit string beyond the double range (about 309 digits) is `NaN` in the code but an exact decimal in the model, because the model has exact numbers and no overflow.
- Money.FormatMoney: `toLocaleString('pt-BR')` is modelled on whole cents only, because every stored amount has two decimal places.
- The second `formatMoneyBR` copy in `src/pages/Archived.tsx` (lines 11-13) only renders the archived cards and is the same as the shared one.
- Local-time `Date` arithmetic is a parameter (`LocalTime`), so time zones, daylight-saving gaps and the `new Date(y, …)` mapping of years 0-99 to 19xx are not modelled.
- `monthRangeNow` (the current month's range on the metrics page) is a pair of parameters `mStart`/`mEnd`.
- `localDatetimeNow` and the `new Date(dateStr)` parse of the payment form are one parameter `when`, `None` for an invalid date.
- `toLocaleString` date texts in the export and the month names are a parameter or left out, being locale data.
- Route parameters that are not numbers (`Number(year)` giving `NaN`) are not modelled, because the pages only link to numeric years and months.
- DebtorPage.FilteredPaymentsMembers: lower-casing is ASCII only; Unicode case mapping is not modelled.
- Metrics.GroupByDebtor: `Object.keys` lists integer-like keys first in numeric order; the model keeps first-insertion order for all keys.
- Property names inherited from `Object.prototype` (a method code or debtor id such as `constructor`) are not modelled in the label table or the keyed maps.
- Dashboard.ReportPaid: the merge of paid sums from several concurrent listeners, and the stale entries kept for debtors that left the list, are reactive concurrency and are not modelled.
- Archiving a debtor: no code path sets `archived = true`, so there is no archive transition to model.
