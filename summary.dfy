/** The annual-report summary record, one field per entry of the
    `AnnualReportSummary` schema. Amounts in USD are held as exact integer
    cents; dates keep only the calendar date the report prints. */
module Summary {
  import opened Wrappers
  import opened Dates

  datatype AnnualReportSummary = AnnualReportSummary(
    companyName: string,
    cik: string,
    filingDate: Date,
    fiscalYear: Date,                    // the fiscal-year-end date
    totalRevenue: Option<int>,
    netIncome: Option<int>,
    totalAssets: Option<int>,
    totalLiabilities: Option<int>,
    operatingCashFlow: Option<int>,
    cashAndEquivalents: Option<int>,
    numEmployees: int,
    auditor: Option<string>,
    businessDescription: Option<string>,
    marketCap: Option<int>,
    stockPrice: Option<int>,
    managementDiscussion: Option<string>,
    eps: Option<int>,
    keyHighlights: Option<seq<string>>,
    risks: Option<seq<string>>,
    futureOutlook: Option<string>)

  /** What validation guarantees beyond the field types: both dates are real
      calendar dates. */
  predicate WellFormed(ar: AnnualReportSummary) {
    ValidDate(ar.filingDate) && ValidDate(ar.fiscalYear)
  }

  /** Python truthiness of an optional string: present and not empty. */
  predicate Truthy(text: Option<string>) {
    text.Some? && text.value != ""
  }

  /** Python truthiness of an optional list: present and not empty. */
  predicate HasItems(items: Option<seq<string>>) {
    items.Some? && items.value != []
  }
}
