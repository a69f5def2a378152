/** Assembly of the Markdown report from a validated summary: the ordered
    lines, the document they join into, and the output file name.
    `AssembleReport` follows the script step by step, growing the line list
    by appends; the functions above it state the same report declaratively,
    as a header, a table of financial fields and the narrative sections. */
module Render {
  import opened Wrappers
  import opened Decimal
  import opened Money
  import opened Dates
  import opened Summary

  const CikTag := "**CIK:** "
  const FiscalYearEndTag := "**Fiscal Year End:** "
  const FilingDateTag := "**Filing Date:** "
  const FinancialsHeading := "## Financials"
  const BusinessHeading := "\n## Business Description"
  const RiskHeading := "\n## Risk Factors"
  const DiscussionHeading := "\n## Management Discussion & Analysis"
  const LineSeparator := "\n\n"

  /** The entries of the financials section, in report order. */
  datatype Entry =
    | TotalRevenue | NetIncome | TotalAssets | TotalLiabilities
    | OperatingCashFlow | CashAndEquivalents | Employees | Auditor

  /** The bold label each entry is printed under. */
  function Caption(e: Entry): string {
    match e
    case TotalRevenue => "Total Revenue"
    case NetIncome => "Net Income"
    case TotalAssets => "Total Assets"
    case TotalLiabilities => "Total Liabilities"
    case OperatingCashFlow => "Operating Cash Flow"
    case CashAndEquivalents => "Cash & Equivalents"
    case Employees => "Number of Employees"
    case Auditor => "Auditor"
  }

  /** `# <company> Annual Report <year>`; the year is printed as `str(year)`. */
  function TitleLine(ar: AnnualReportSummary): string {
    "# " + ar.companyName + " Annual Report " + NatToDigits(ar.fiscalYear.year)
  }

  /** The five lines every report starts with. */
  function HeaderLines(ar: AnnualReportSummary): seq<string>
    requires WellFormed(ar)
  {
    [ TitleLine(ar),
      CikTag + ar.cik,
      FiscalYearEndTag + IsoDate(ar.fiscalYear),
      FilingDateTag + IsoDate(ar.filingDate),
      FinancialsHeading ]
  }

  /** A bulleted `- **<label>:** <value>` line of the financials section. */
  function FieldLine(caption: string, value: string): string {
    "- **" + caption + ":** " + value
  }

  /** A financials entry and the text shown for it, if it is shown at all. */
  datatype Field = Field(entry: Entry, value: Option<string>)

  /** The text of an optional amount: `$` and the `,.2f` format. */
  function Dollars(amount: Option<int>): Option<string> {
    match amount
    case None => None
    case Some(cents) => Some("$" + FormatAmount(cents))
  }

  /** The financials entries in report order. Amounts are shown when not
      None, the employee count always (the record requires it), the auditor
      when truthy. */
  function FinancialFields(ar: AnnualReportSummary): seq<Field> {
    [ Field(TotalRevenue, Dollars(ar.totalRevenue)),
      Field(NetIncome, Dollars(ar.netIncome)),
      Field(TotalAssets, Dollars(ar.totalAssets)),
      Field(TotalLiabilities, Dollars(ar.totalLiabilities)),
      Field(OperatingCashFlow, Dollars(ar.operatingCashFlow)),
      Field(CashAndEquivalents, Dollars(ar.cashAndEquivalents)),
      Field(Employees, Some(IntToString(ar.numEmployees))),
      Field(Auditor, ShownText(ar.auditor)) ]
  }

  /** Number of entries that are shown. */
  function ShownCount(fields: seq<Field>): nat {
    if fields == [] then 0 else (if fields[0].value.Some? then 1 else 0) + ShownCount(fields[1..])
  }

  /** The line of one entry: none when it is not shown. */
  function EntryLines(f: Field): seq<string> {
    match f.value
    case Some(v) => [FieldLine(Caption(f.entry), v)]
    case None => []
  }

  /** One line per shown entry, in table order. */
  function FieldLines(fields: seq<Field>): (lines: seq<string>)
    ensures |lines| == ShownCount(fields)
  {
    if fields == [] then [] else EntryLines(fields[0]) + FieldLines(fields[1..])
  }

  /** The lines of a table are the lines of its parts, in order. */
  lemma {:induction false} FieldLinesAppend(a: seq<Field>, b: seq<Field>)
    ensures FieldLines(a + b) == FieldLines(a) + FieldLines(b)
  {
    if a == [] {
      assert a + b == b;
    } else {
      assert (a + b)[1..] == a[1..] + b;
      FieldLinesAppend(a[1..], b);
    }
  }


  /** The auditor entry's text: shown only when truthy. */
  function ShownText(text: Option<string>): Option<string> {
    if Truthy(text) then text else None
  }

  /** The financials section: the table `FinancialFields` printed in order. */
  function FinancialLines(ar: AnnualReportSummary): seq<string> {
    FieldLines(FinancialFields(ar))
  }

  lemma FieldLinesSnoc(fields: seq<Field>, f: Field)
    ensures FieldLines(fields + [f]) == FieldLines(fields) + EntryLines(f)
  {
    FieldLinesAppend(fields, [f]);
    assert [f][1..] == [];
    assert EntryLines(f) + [] == EntryLines(f);
  }

  lemma FieldLinesSingle(f: Field)
    ensures FieldLines([f]) == EntryLines(f)
  {
    assert [f][1..] == [];
    assert EntryLines(f) + [] == EntryLines(f);
  }

  /** Eight entries print as their lines one after the other. */
  lemma EightFields(f0: Field, f1: Field, f2: Field, f3: Field, f4: Field, f5: Field, f6: Field, f7: Field)
    ensures FieldLines([f0, f1, f2, f3, f4, f5, f6, f7])
            == EntryLines(f0) + EntryLines(f1) + EntryLines(f2) + EntryLines(f3)
               + EntryLines(f4) + EntryLines(f5) + EntryLines(f6) + EntryLines(f7)
  {
    FieldLinesSingle(f0);
    FieldLinesSnoc([f0], f1);
    assert [f0] + [f1] == [f0, f1];
    FieldLinesSnoc([f0, f1], f2);
    assert [f0, f1] + [f2] == [f0, f1, f2];
    FieldLinesSnoc([f0, f1, f2], f3);
    assert [f0, f1, f2] + [f3] == [f0, f1, f2, f3];
    FieldLinesSnoc([f0, f1, f2, f3], f4);
    assert [f0, f1, f2, f3] + [f4] == [f0, f1, f2, f3, f4];
    FieldLinesSnoc([f0, f1, f2, f3, f4], f5);
    assert [f0, f1, f2, f3, f4] + [f5] == [f0, f1, f2, f3, f4, f5];
    FieldLinesSnoc([f0, f1, f2, f3, f4, f5], f6);
    assert [f0, f1, f2, f3, f4, f5] + [f6] == [f0, f1, f2, f3, f4, f5, f6];
    FieldLinesSnoc([f0, f1, f2, f3, f4, f5, f6], f7);
    assert [f0, f1, f2, f3, f4, f5, f6] + [f7] == [f0, f1, f2, f3, f4, f5, f6, f7];
  }

  /** The financials section, entry by entry. */
  lemma FinancialEntries(ar: AnnualReportSummary)
    ensures var fs := FinancialFields(ar);
            FinancialLines(ar) == EntryLines(fs[0]) + EntryLines(fs[1]) + EntryLines(fs[2]) + EntryLines(fs[3])
                                  + EntryLines(fs[4]) + EntryLines(fs[5]) + EntryLines(fs[6]) + EntryLines(fs[7])
  {
    var fs := FinancialFields(ar);
    EightFields(fs[0], fs[1], fs[2], fs[3], fs[4], fs[5], fs[6], fs[7]);
    assert fs == [fs[0], fs[1], fs[2], fs[3], fs[4], fs[5], fs[6], fs[7]];
  }

  /** The list comprehension `[f"- {rf}" for rf in items]`. */
  function Bullets(items: seq<string>): (lines: seq<string>)
    ensures |lines| == |items|
    ensures forall i :: 0 <= i < |items| ==> lines[i] == "- " + items[i]
  {
    if items == [] then [] else ["- " + items[0]] + Bullets(items[1..])
  }

  /** A heading and one bullet per risk; nothing when the list is None or empty. */
  function RiskLines(risks: Option<seq<string>>): seq<string> {
    if HasItems(risks) then [RiskHeading] + Bullets(risks.value) else []
  }

  /** A heading and its text; nothing when the text is None or empty. */
  function SectionLines(heading: string, text: Option<string>): seq<string> {
    if Truthy(text) then [heading, text.value] else []
  }

  function NarrativeLines(ar: AnnualReportSummary): seq<string> {
    SectionLines(BusinessHeading, ar.businessDescription)
    + RiskLines(ar.risks)
    + SectionLines(DiscussionHeading, ar.managementDiscussion)
  }

  /** The whole report, line by line. */
  function ReportLines(ar: AnnualReportSummary): seq<string>
    requires WellFormed(ar)
  {
    HeaderLines(ar) + FinancialLines(ar) + NarrativeLines(ar)
  }

  function TotalLength(lines: seq<string>): nat {
    if lines == [] then 0 else |lines[0]| + TotalLength(lines[1..])
  }

  /** `sep.join(lines)`. */
  function Join(lines: seq<string>, sep: string): (doc: string)
    ensures lines == [] ==> doc == ""
    ensures lines != [] ==> |doc| == TotalLength(lines) + |sep| * (|lines| - 1)
  {
    if lines == [] then ""
    else if |lines| == 1 then lines[0]
    else lines[0] + sep + Join(lines[1..], sep)
  }

  /** `s.replace(" ", "_")`. */
  function ReplaceSpaces(s: string): (r: string)
    ensures |r| == |s|
    ensures forall i :: 0 <= i < |s| ==> r[i] == if s[i] == ' ' then '_' else s[i]
  {
    if s == [] then [] else [if s[0] == ' ' then '_' else s[0]] + ReplaceSpaces(s[1..])
  }

  /** `annual_report_<company with spaces replaced>_<year>.pdf`. */
  function ReportFilename(ar: AnnualReportSummary): (name: string)
    ensures ' ' !in name
    ensures |name| == |ar.companyName| + |NatToDigits(ar.fiscalYear.year)| + 19
  {
    var company := ReplaceSpaces(ar.companyName);
    var name := "annual_report_" + company + "_" + NatToDigits(ar.fiscalYear.year) + ".pdf";
    assert forall i :: 0 <= i < |name| ==> name[i] != ' ' by {
      forall i | 0 <= i < |name| ensures name[i] != ' ' {
        if 14 <= i < 14 + |company| {
          assert name[i] == company[i - 14];
        }
      }
    }
    name
  }

  /** `if amount is not None: md_lines.append(f"- **<caption>:** ${amount:,.2f}")`. */
  method AppendAmount(mdLines: seq<string>, entry: Entry, amount: Option<int>) returns (r: seq<string>)
    ensures r == mdLines + EntryLines(Field(entry, Dollars(amount)))
  {
    r := mdLines;
    if amount.Some? {
      r := r + [FieldLine(Caption(entry), "$" + FormatAmount(amount.value))];
    }
  }

  lemma ConcatAssoc(a: seq<string>, b: seq<string>, c: seq<string>)
    ensures (a + b) + c == a + (b + c)
  {
  }

  /** The financials block of the script: six guarded amount lines, the
      employee count, and the auditor when truthy. */
  method AppendFinancials(mdLines: seq<string>, ar: AnnualReportSummary) returns (r: seq<string>)
    ensures r == mdLines + FinancialLines(ar)
  {
    r := AppendAmount(mdLines, TotalRevenue, ar.totalRevenue);
    ghost var shown := EntryLines(Field(TotalRevenue, Dollars(ar.totalRevenue)));
    r := AppendAmount(r, NetIncome, ar.netIncome);
    ConcatAssoc(mdLines, shown, EntryLines(Field(NetIncome, Dollars(ar.netIncome))));
    shown := shown + EntryLines(Field(NetIncome, Dollars(ar.netIncome)));
    r := AppendAmount(r, TotalAssets, ar.totalAssets);
    ConcatAssoc(mdLines, shown, EntryLines(Field(TotalAssets, Dollars(ar.totalAssets))));
    shown := shown + EntryLines(Field(TotalAssets, Dollars(ar.totalAssets)));
    r := AppendAmount(r, TotalLiabilities, ar.totalLiabilities);
    ConcatAssoc(mdLines, shown, EntryLines(Field(TotalLiabilities, Dollars(ar.totalLiabilities))));
    shown := shown + EntryLines(Field(TotalLiabilities, Dollars(ar.totalLiabilities)));
    r := AppendAmount(r, OperatingCashFlow, ar.operatingCashFlow);
    ConcatAssoc(mdLines, shown, EntryLines(Field(OperatingCashFlow, Dollars(ar.operatingCashFlow))));
    shown := shown + EntryLines(Field(OperatingCashFlow, Dollars(ar.operatingCashFlow)));
    r := AppendAmount(r, CashAndEquivalents, ar.cashAndEquivalents);
    ConcatAssoc(mdLines, shown, EntryLines(Field(CashAndEquivalents, Dollars(ar.cashAndEquivalents))));
    shown := shown + EntryLines(Field(CashAndEquivalents, Dollars(ar.cashAndEquivalents)));
    // The record's employee count is a required int, so the script's
    // `is not None` guard always holds.
    r := r + [FieldLine(Caption(Employees), IntToString(ar.numEmployees))];
    ConcatAssoc(mdLines, shown, EntryLines(Field(Employees, Some(IntToString(ar.numEmployees)))));
    shown := shown + EntryLines(Field(Employees, Some(IntToString(ar.numEmployees))));
    if ar.auditor.Some? && ar.auditor.value != "" {
      r := r + [FieldLine(Caption(Auditor), ar.auditor.value)];
    }
    ConcatAssoc(mdLines, shown, EntryLines(Field(Auditor, ShownText(ar.auditor))));
    shown := shown + EntryLines(Field(Auditor, ShownText(ar.auditor)));
    FinancialEntries(ar);
  }

  /** `if text: md_lines += [heading, text]`. */
  method AppendSection(mdLines: seq<string>, heading: string, text: Option<string>) returns (r: seq<string>)
    ensures r == mdLines + SectionLines(heading, text)
  {
    r := mdLines;
    if text.Some? && text.value != "" {
      r := r + [heading, text.value];
    }
  }

  /** `if risks:` the risk heading, then one bullet per risk. */
  method AppendRisks(mdLines: seq<string>, risks: Option<seq<string>>) returns (r: seq<string>)
    ensures r == mdLines + RiskLines(risks)
  {
    r := mdLines;
    if risks.Some? && risks.value != [] {
      r := r + [RiskHeading] + Bullets(risks.value);
    }
  }

  /** The optional sections of the script, each guarded by truthiness. */
  method AppendNarrative(mdLines: seq<string>, ar: AnnualReportSummary) returns (r: seq<string>)
    ensures r == mdLines + NarrativeLines(ar)
  {
    ghost var business := SectionLines(BusinessHeading, ar.businessDescription);
    ghost var risks := RiskLines(ar.risks);
    ghost var discussion := SectionLines(DiscussionHeading, ar.managementDiscussion);
    r := AppendSection(mdLines, BusinessHeading, ar.businessDescription);
    r := AppendRisks(r, ar.risks);
    ConcatAssoc(mdLines, business, risks);
    r := AppendSection(r, DiscussionHeading, ar.managementDiscussion);
    ConcatAssoc(mdLines, business + risks, discussion);
  }

  /** The report script: the header, then one append per shown financial
      entry, then the optional sections, then the joined document and the
      file name. */
  method AssembleReport(ar: AnnualReportSummary) returns (mdLines: seq<string>, md: string, filename: string)
    requires WellFormed(ar)
    ensures mdLines == ReportLines(ar)
    ensures md == Join(mdLines, LineSeparator)
    ensures filename == ReportFilename(ar)
  {
    mdLines := [
      "# " + ar.companyName + " Annual Report " + NatToDigits(ar.fiscalYear.year),
      CikTag + ar.cik,
      FiscalYearEndTag + IsoDate(ar.fiscalYear),
      FilingDateTag + IsoDate(ar.filingDate),
      FinancialsHeading
    ];

    mdLines := AppendFinancials(mdLines, ar);
    mdLines := AppendNarrative(mdLines, ar);
    md := Join(mdLines, LineSeparator);
    filename := "annual_report_" + ReplaceSpaces(ar.companyName) + "_" + NatToDigits(ar.fiscalYear.year) + ".pdf";
  }
}
