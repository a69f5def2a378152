# Annual-report assembly, modelled in Dafny

This project models the part of `summarizeAnnual.py` that has logic of its own. That part turns a validated `AnnualReportSummary` record into a Markdown report. It builds the report as a list of lines: a fixed five-line header, one line for each financial fact that is present, then the optional business description, risk factors and management discussion. The lines are joined with a blank line between them. The file name comes from the company name and the fiscal year.

The modules are:

- `Summary`: the record, with both dates as calendar dates. Every USD amount is held as exact integer cents.
- `Decimal`: Python's `str(int)`, fixed-width zero padding, and the thousands grouping of the `,` format option. Each writer has a reader that undoes it.
- `Money`: the `,.2f` text of an amount of cents, and the reader for it.
- `Dates`: `strftime('%Y-%m-%d')` and the reader for it.
- `Render`: the report, in two forms.
  - `AssembleReport` and its `Append…` helpers follow the script step by step. They grow the line list by appends and guard each step as the script does: `is not None` for amounts, truthiness for text and lists.
  - A set of functions (`HeaderLines`, `FinancialLines`, `NarrativeLines`, `ReportLines`, `Join`, `ReportFilename`) describes the same report without steps. Each method is proved equal to one of these functions.
- `ReportProperties`: what a reader of the report can rely on, proved about those functions:
  - each fact can be read back from its line;
  - the sections come in a fixed order;
  - every line sits at a known offset of the document;
  - the file name has a known shape.

Where the script disagrees with the record, the model follows the record. The script reads `ar.fiscal_year_end` (summarizeAnnual.py:64, 66, 98) and `ar.risk_factors` (:90-91). The record declares only `fiscal_year` (:27) and `risks` (:42). The model uses `fiscalYear` as the fiscal-year-end date and `risks` as the risk list.

## Model

| member | source | states |
|---|---|---|
| Render.AssembleReport | summarizeAnnual.py:63-98 | The lines the script builds are exactly `ReportLines(ar)`: the header, then the financials, then the narrative sections. The document is those lines joined with `"\n\n"`. The file name is `ReportFilename(ar)`. |
| Render.AppendFinancials | summarizeAnnual.py:71-86 | Appending the financials adds exactly `FinancialLines(ar)` to the lines already there and changes none of them. The employee line is appended unconditionally (the count is a required int); the auditor line only when the auditor is truthy. |
| Render.AppendAmount | summarizeAnnual.py:71-82 | An amount adds its one `- **<caption>:** $<amount>` line when present and nothing when None, after the existing lines. |
| Render.AppendNarrative | summarizeAnnual.py:88-93 | The three optional sections are appended in the order business description, risk factors, management discussion, after the existing lines. |
| Render.AppendSection | summarizeAnnual.py:88-89 | A truthy text adds its heading and the text; None or `""` adds nothing. |
| Render.AppendRisks | summarizeAnnual.py:90-91 | A non-empty risk list adds the risk heading, then its bullets; None or `[]` adds nothing. |
| Render.Bullets | summarizeAnnual.py:91 | One `- <risk>` line per risk, same length as the list, the i-th line bulleting the i-th risk. |
| Render.FieldLines | summarizeAnnual.py:71-86 | A table of entries prints one line per shown entry. |
| Render.FieldLinesAppend | summarizeAnnual.py:71-86 | Printing two tables one after the other gives their lines one after the other. |
| Render.Join | summarizeAnnual.py:95 | Joining no lines gives `""`. Joining n ≥ 1 lines gives a document as long as the lines together plus n−1 separators. |
| Render.ReplaceSpaces | summarizeAnnual.py:97 | Same length as the company name; every space becomes `_`, every other character is kept. |
| Render.ReportFilename | summarizeAnnual.py:97-98 | The file name contains no space, and its length is the company name's length plus the year's digits plus 19. |
| ReportProperties.HeaderReadsBack | summarizeAnnual.py:63-69 | The report opens with the title, from which the fiscal year reads back as an int; the CIK line; the two tagged `YYYY-MM-DD` dates, which read back as the record's dates; and `## Financials`. At least one line follows. |
| ReportProperties.NarrativeLayout | summarizeAnnual.py:63-93 | The first five lines are the header and the next are the financials. After them come the business description, then the risks, then the management discussion, each present exactly when truthy, and nothing else. The risk bullets read back as the risk list. |
| ReportProperties.SectionsAfter | summarizeAnnual.py:88-93 | The narrative sections leave whatever precedes them unchanged and sit in the layout `SectionsAt` describes. |
| Render.FinancialEntries | summarizeAnnual.py:71-86 | The financials are the lines of the eight entries of `FinancialFields` one after the other, in the script's order: Total Revenue, Net Income, Total Assets, Total Liabilities, Operating Cash Flow, Cash & Equivalents, Number of Employees, Auditor. |
| ReportProperties.FinancialCount | summarizeAnnual.py:71-86 | The financials have one line per present amount, one for the employee count, one for a truthy auditor, and no other. |
| ReportProperties.FinancialsReadBack | summarizeAnnual.py:71-86 | Each of the six amounts reads back from its line as the record's value, and reads as None when the record has None. The employee count always has its line, zero included. The auditor reads back exactly when it is truthy. |
| ReportProperties.FieldLinePosition | summarizeAnnual.py:71-86 | A shown entry's line sits right after the lines of the shown entries before it in the table. |
| ReportProperties.ShownCountGrows | summarizeAnnual.py:71-86 | An earlier shown entry's line comes strictly before any later entry's line. |
| ReportProperties.FieldLineParses | summarizeAnnual.py:72-86 | A `- **<caption>:** <value>` line splits back into its caption and value when the caption has no colon. |
| ReportProperties.CaptionFacts | summarizeAnnual.py:72-86 | No caption contains a colon, and distinct entries have distinct captions. |
| ReportProperties.ValueOfAbsent | summarizeAnnual.py:71-86 | An entry missing from a table yields no line with its caption. |
| ReportProperties.FieldLinesReadBack | summarizeAnnual.py:71-86 | In a table of distinct entries, each entry's caption reads back its shown value, or None when it is not shown. |
| ReportProperties.BulletsRoundTrip | summarizeAnnual.py:91 | Stripping the bullets gives back the risk list, in order. |
| ReportProperties.BulletsCanonical | summarizeAnnual.py:91 | Lines that read back as a list are exactly the bullets of that list. |
| ReportProperties.UnprintedFieldsIgnored | summarizeAnnual.py:37-43 | Changing market cap, stock price, EPS, key highlights or future outlook changes neither the lines nor the file name. |
| ReportProperties.JoinPlacement | summarizeAnnual.py:95 | Line i sits in the document at its offset (the lengths of the lines before it plus one separator each), and a separator follows every line but the last. |
| ReportProperties.FilenameReadsBack | summarizeAnnual.py:97-98 | The file name is `annual_report_`, the company name with spaces made `_`, `_`, a year that reads back as the fiscal year, and `.pdf`. |
| Money.FormatAmount | summarizeAnnual.py:72-82 | The amount text ends in `.` and two digits. It starts with `-` exactly when the amount is negative, and its whole units carry no leading zero. |
| Money.UnsignedText | summarizeAnnual.py:72-82 | A magnitude's text starts with a digit, has no leading zero in its whole units, and ends in `.` and two digits. |
| Money.AmountRoundTrip | summarizeAnnual.py:72-82 | The `,.2f` text of every amount of cents reads back as the same amount. |
| Money.AmountCanonical | summarizeAnnual.py:72-82 | Any text that reads as an amount, has no leading zero and no minus sign before zero is exactly the `,.2f` text of that amount; with `AmountRoundTrip`, the text of every amount is fixed. |
| Money.UnsignedCanonical | summarizeAnnual.py:72-82 | An unsigned text without a leading zero that reads as a magnitude is that magnitude's text. |
| Money.UnsignedRoundTrip | summarizeAnnual.py:72-82 | The grouped text of every magnitude reads back as that magnitude. |
| Decimal.Group | summarizeAnnual.py:72-82 | Grouping puts 1-3 leading digits, then comma-led groups of exactly three. It keeps the value and adds one comma per three digits after the first. |
| Decimal.Ungroup | summarizeAnnual.py:72-82 | Taking the commas out of a grouped integer gives digits of the same value, and grouping them again gives the grouped integer back. |
| Decimal.GroupCanonical | summarizeAnnual.py:72-82 | A grouped integer without a leading zero is the grouping of `str` of its value. |
| Decimal.NatToDigits | summarizeAnnual.py:64 | `str(n)` is a non-empty digit string with no leading zero (except `"0"`) that denotes n. |
| Decimal.NatToDigitsCanonical | summarizeAnnual.py:98 | Every canonical digit string is `str` of the value it denotes. |
| Decimal.IntRoundTrip | summarizeAnnual.py:84 | `str(i)` of every int, negative ones included, reads back as i. |
| Decimal.DigitsValueAppend | summarizeAnnual.py:72-82 | The value of two digit strings put together is the first shifted by the second's length plus the second. |
| Decimal.Pad2 | summarizeAnnual.py:66-67 | Two digits denoting the value, zero-padded. |
| Decimal.Pad4 | summarizeAnnual.py:66-67 | Four digits denoting the value, zero-padded. |
| Decimal.Pad4Canonical | summarizeAnnual.py:66-67 | Any four digits are the padding of the value they denote. |
| Dates.IsoDate | summarizeAnnual.py:66-67 | Ten characters: four digits, `-`, two digits, `-`, two digits. |
| Dates.IsoDateRoundTrip | summarizeAnnual.py:66-67 | Every valid date reads back from its `YYYY-MM-DD` text. |
| Dates.IsoDateCanonical | summarizeAnnual.py:66-67 | Text that reads back as a date is exactly that date's `YYYY-MM-DD` text. |

## Left out

- Loading the PDF (`load_file`), environment loading, the Gemini client, the prompt and the model call (summarizeAnnual.py:14-19, 45-58). These are file and network I/O into libraries not part of this model.
- Schema generation and validation with pydantic, and the `print` (summarizeAnnual.py:46, 60-61). The model takes a record that has already been validated. `WellFormed` only adds that both dates are real calendar dates.
- Markdown-to-HTML conversion and PDF writing (summarizeAnnual.py:96, 99). These are markdown2 and weasyprint calls plus file output. The model stops at the document text and the file name.
- Money.FormatAmount: amounts are exact integer cents, not Python floats. Binary rounding in `,.2f`, `-0.00`, precision loss above 2^53, and the non-finite floats (`inf` and `nan`, which the script would print as `$inf` and `$nan`) are not modelled.
- Dates.IsoDate: `%Y` is written as four zero-padded digits. Some C libraries print years below 1000 unpadded. Only the date part of the `datetime` values is kept, because the report prints nothing else.
- Render.AppendFinancials: the `is not None` guard on the employee count (summarizeAnnual.py:83) is always taken. The record declares the count as a required `int`, so None cannot occur.
- The script's reads of `fiscal_year_end` and `risk_factors`, which the record does not declare, are modelled as reads of `fiscal_year` and `risks` (see above).
- A concrete worked example, such as the exact text of a given amount, is not included. The general lemmas cover every input.
