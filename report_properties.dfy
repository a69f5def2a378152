/** What the assembled report promises a reader: the header names the
    company, year and dates; every financial fact can be read back from its
    line exactly when the record has it; the sections sit in a fixed order;
    the document places every line at a known offset; and the file name is
    built from the company name and the fiscal year. */
module ReportProperties {
  import opened Wrappers
  import opened Decimal
  import opened Money
  import opened Dates
  import opened Summary
  import opened Render

  predicate StartsWith(s: string, p: string) {
    |p| <= |s| && s[..|p|] == p
  }

  // ---------------------------------------------------------------------
  // Reading the financials lines back

  /** The characters before the first `:`. */
  function UpToColon(s: string): string {
    if s == [] || s[0] == ':' then [] else [s[0]] + UpToColon(s[1..])
  }

  lemma {:induction false} UpToColonOf(caption: string, rest: string)
    requires ':' !in caption && rest != [] && rest[0] == ':'
    ensures UpToColon(caption + rest) == caption
    decreases |caption|
  {
    if caption == [] {
      assert caption + rest == rest;
    } else {
      assert (caption + rest)[1..] == caption[1..] + rest;
      UpToColonOf(caption[1..], rest);
      assert [caption[0]] + caption[1..] == caption;
    }
  }

  /** Splits a `- **<caption>:** <value>` line into its caption and value. */
  function ParseFieldLine(line: string): Option<(string, string)> {
    if !StartsWith(line, "- **") then None
    else
      var rest := line[4..];
      var caption := UpToColon(rest);
      if |caption| > |rest| then None
      else
        var after := rest[|caption|..];
        if StartsWith(after, ":** ") then Some((caption, after[4..])) else None
  }

  lemma FieldLineParses(caption: string, value: string)
    requires ':' !in caption
    ensures ParseFieldLine(FieldLine(caption, value)) == Some((caption, value))
  {
    var line := FieldLine(caption, value);
    var tail := ":** " + value;
    assert line == "- **" + (caption + tail);
    assert line[4..] == caption + tail;
    UpToColonOf(caption, tail);
    assert (caption + tail)[|caption|..] == tail;
    assert tail[4..] == value;
  }

  /** The value on the first line captioned `caption`, if any. */
  function ValueOf(lines: seq<string>, caption: string): Option<string> {
    if lines == [] then None
    else
      var parsed := ParseFieldLine(lines[0]);
      if parsed.Some? && parsed.value.0 == caption then Some(parsed.value.1)
      else ValueOf(lines[1..], caption)
  }

  /** An amount line's value read back as cents. */
  function ReadAmount(lines: seq<string>, e: Entry): Option<int> {
    match ValueOf(lines, Caption(e))
    case None => None
    case Some(v) => if StartsWith(v, "$") then ParseAmount(v[1..]) else None
  }

  lemma CaptionFacts(e: Entry, e': Entry)
    ensures ':' !in Caption(e)
    ensures Caption(e) == Caption(e') ==> e == e'
  {
    CaptionColonFree(e);
    if e != e' {
      CaptionsDiffer(e, e');
    }
  }

  lemma CaptionColonFree(e: Entry)
    ensures ':' !in Caption(e)
  {
  }

  /** Captions differ in their length or in their first letter. */
  lemma CaptionsDiffer(e: Entry, e': Entry)
    requires e != e'
    ensures Caption(e) != Caption(e')
  {
    var c, c' := Caption(e), Caption(e');
    assert |c| != |c'| || c[0] != c'[0];
  }

  predicate DistinctEntries(fields: seq<Field>) {
    forall i, j :: 0 <= i < j < |fields| ==> fields[i].entry != fields[j].entry
  }

  /** Reading a caption past one entry's lines: the entry's own line
      answers for its caption, and is skipped for any other. */
  lemma ValueOfPastEntry(f: Field, rest: seq<string>, e: Entry)
    ensures ValueOf(EntryLines(f) + rest, Caption(e)) ==
              if f.entry == e && f.value.Some? then f.value else ValueOf(rest, Caption(e))
  {
    CaptionFacts(f.entry, e);
    if f.value.Some? {
      var line := FieldLine(Caption(f.entry), f.value.value);
      var all := [line] + rest;
      assert EntryLines(f) == [line];
      assert all[0] == line && all[1..] == rest;
      FieldLineParses(Caption(f.entry), f.value.value);
    } else {
      assert EntryLines(f) + rest == rest;
    }
  }

  lemma {:induction false} ValueOfAbsent(fields: seq<Field>, e: Entry)
    requires forall i :: 0 <= i < |fields| ==> fields[i].entry != e
    ensures ValueOf(FieldLines(fields), Caption(e)) == None
  {
    if fields != [] {
      ValueOfAbsent(fields[1..], e);
      ValueOfPastEntry(fields[0], FieldLines(fields[1..]), e);
    }
  }

  /** A table whose entries are distinct prints lines from which every
      entry's shown value reads back, and nothing for an entry not shown. */
  lemma {:induction false} FieldLinesReadBack(fields: seq<Field>, k: nat)
    requires k < |fields| && DistinctEntries(fields)
    ensures ValueOf(FieldLines(fields), Caption(fields[k].entry)) == fields[k].value
  {
    var e := fields[k].entry;
    ValueOfPastEntry(fields[0], FieldLines(fields[1..]), e);
    if k == 0 {
      ValueOfAbsent(fields[1..], e);
    } else {
      assert fields[1..][k - 1] == fields[k];
      FieldLinesReadBack(fields[1..], k - 1);
    }
  }

  /** A shown entry's line sits after exactly the lines of the shown
      entries before it in the table. */
  lemma {:induction false} FieldLinePosition(fields: seq<Field>, i: nat)
    requires i < |fields| && fields[i].value.Some?
    ensures ShownCount(fields[..i]) < |FieldLines(fields)|
    ensures FieldLines(fields)[ShownCount(fields[..i])] == FieldLine(Caption(fields[i].entry), fields[i].value.value)
    decreases i
  {
    var head, rest := EntryLines(fields[0]), FieldLines(fields[1..]);
    assert FieldLines(fields) == head + rest;
    if i == 0 {
      assert fields[..0] == [];
    } else {
      FieldLinePosition(fields[1..], i - 1);
      assert fields[..i][1..] == fields[1..][..i - 1];
      assert fields[1..][i - 1] == fields[i];
      assert ShownCount(fields[..i]) == |head| + ShownCount(fields[1..][..i - 1]);
    }
  }

  /** A shown entry is counted before every later position, so the line of
      an earlier shown entry comes before the line of a later one. */
  lemma ShownCountGrows(fields: seq<Field>, i: nat, j: nat)
    requires i < j <= |fields| && fields[i].value.Some?
    ensures ShownCount(fields[..i]) < ShownCount(fields[..j])
  {
    assert fields[..j] == fields[..i] + fields[i..j];
    ShownCountAppend(fields[..i], fields[i..j]);
    assert fields[i..j][0] == fields[i];
  }

  lemma {:induction false} ShownCountAppend(a: seq<Field>, b: seq<Field>)
    ensures ShownCount(a + b) == ShownCount(a) + ShownCount(b)
  {
    if a != [] {
      assert (a + b)[1..] == a[1..] + b;
      ShownCountAppend(a[1..], b);
    } else {
      assert a + b == b;
    }
  }

  function Shown<T>(value: Option<T>): nat {
    if value.Some? then 1 else 0
  }

  lemma FinancialFieldsDistinct(ar: AnnualReportSummary)
    ensures DistinctEntries(FinancialFields(ar))
  {
    var fs := FinancialFields(ar);
    var entries := [TotalRevenue, NetIncome, TotalAssets, TotalLiabilities,
                    OperatingCashFlow, CashAndEquivalents, Employees, Auditor];
    assert forall i :: 0 <= i < 8 ==> fs[i].entry == entries[i];
  }

  /** One line per amount present, one for the employee count, one for a
      truthy auditor, and no other. */
  lemma FinancialCount(ar: AnnualReportSummary)
    ensures |FinancialLines(ar)| == Shown(ar.totalRevenue) + Shown(ar.netIncome) + Shown(ar.totalAssets)
                                   + Shown(ar.totalLiabilities) + Shown(ar.operatingCashFlow)
                                   + Shown(ar.cashAndEquivalents) + 1 + (if Truthy(ar.auditor) then 1 else 0)
  {
    var e1 := EntryLines(Field(TotalRevenue, Dollars(ar.totalRevenue)));
    var e2 := EntryLines(Field(NetIncome, Dollars(ar.netIncome)));
    var e3 := EntryLines(Field(TotalAssets, Dollars(ar.totalAssets)));
    var e4 := EntryLines(Field(TotalLiabilities, Dollars(ar.totalLiabilities)));
    var e5 := EntryLines(Field(OperatingCashFlow, Dollars(ar.operatingCashFlow)));
    var e6 := EntryLines(Field(CashAndEquivalents, Dollars(ar.cashAndEquivalents)));
    var e7 := EntryLines(Field(Employees, Some(IntToString(ar.numEmployees))));
    var e8 := EntryLines(Field(Auditor, ShownText(ar.auditor)));
    FinancialEntries(ar);
    AmountCount(TotalRevenue, ar.totalRevenue);
    AmountCount(NetIncome, ar.netIncome);
    AmountCount(TotalAssets, ar.totalAssets);
    AmountCount(TotalLiabilities, ar.totalLiabilities);
    AmountCount(OperatingCashFlow, ar.operatingCashFlow);
    AmountCount(CashAndEquivalents, ar.cashAndEquivalents);
    assert |e7| == 1;
    assert |e8| == if Truthy(ar.auditor) then 1 else 0;
  }

  /** An amount's entry has a line exactly when the amount is present. */
  lemma AmountCount(e: Entry, amount: Option<int>)
    ensures |EntryLines(Field(e, Dollars(amount)))| == Shown(amount)
  {
  }

  /** Each amount is read back from its line exactly when the record has it;
      the employee count always has its line, zero included; the auditor has
      a line exactly when it is truthy. */
  lemma FinancialsReadBack(ar: AnnualReportSummary)
    ensures ReadAmount(FinancialLines(ar), TotalRevenue) == ar.totalRevenue
    ensures ReadAmount(FinancialLines(ar), NetIncome) == ar.netIncome
    ensures ReadAmount(FinancialLines(ar), TotalAssets) == ar.totalAssets
    ensures ReadAmount(FinancialLines(ar), TotalLiabilities) == ar.totalLiabilities
    ensures ReadAmount(FinancialLines(ar), OperatingCashFlow) == ar.operatingCashFlow
    ensures ReadAmount(FinancialLines(ar), CashAndEquivalents) == ar.cashAndEquivalents
    ensures ValueOf(FinancialLines(ar), Caption(Employees)) == Some(IntToString(ar.numEmployees))
    ensures ValueOf(FinancialLines(ar), Caption(Auditor)) == if Truthy(ar.auditor) then ar.auditor else None
  {
    var fs := FinancialFields(ar);
    FinancialFieldsDistinct(ar);
    AmountRowReadBack(fs, 0, ar.totalRevenue);
    AmountRowReadBack(fs, 1, ar.netIncome);
    AmountRowReadBack(fs, 2, ar.totalAssets);
    AmountRowReadBack(fs, 3, ar.totalLiabilities);
    AmountRowReadBack(fs, 4, ar.operatingCashFlow);
    AmountRowReadBack(fs, 5, ar.cashAndEquivalents);
    FieldLinesReadBack(fs, 6);
    FieldLinesReadBack(fs, 7);
  }

  lemma AmountRowReadBack(fields: seq<Field>, k: nat, amount: Option<int>)
    requires k < |fields| && DistinctEntries(fields) && fields[k].value == Dollars(amount)
    ensures ReadAmount(FieldLines(fields), fields[k].entry) == amount
  {
    FieldLinesReadBack(fields, k);
    AmountReadBack(FieldLines(fields), fields[k].entry, amount);
  }

  lemma AmountReadBack(lines: seq<string>, e: Entry, amount: Option<int>)
    requires ValueOf(lines, Caption(e)) == Dollars(amount)
    ensures ReadAmount(lines, e) == amount
  {
    if amount.Some? {
      var v := "$" + FormatAmount(amount.value);
      assert v[1..] == FormatAmount(amount.value);
      AmountRoundTrip(amount.value);
    }
  }

  // ---------------------------------------------------------------------
  // The header

  /** The report opens with exactly these five lines: the title naming the
      company and the fiscal year, the CIK, the fiscal-year-end date and the
      filing date as `YYYY-MM-DD`, and the financials heading. */
  lemma HeaderReadsBack(ar: AnnualReportSummary)
    requires WellFormed(ar)
    ensures var lines := ReportLines(ar);
            var title := "# " + ar.companyName + " Annual Report ";
            && |lines| >= 6
            && StartsWith(lines[0], title) && ParseInt(lines[0][|title|..]) == Some(ar.fiscalYear.year)
            && lines[1] == CikTag + ar.cik
            && StartsWith(lines[2], FiscalYearEndTag)
            && ParseIsoDate(lines[2][|FiscalYearEndTag|..]) == Some(ar.fiscalYear)
            && StartsWith(lines[3], FilingDateTag)
            && ParseIsoDate(lines[3][|FilingDateTag|..]) == Some(ar.filingDate)
            && lines[4] == FinancialsHeading
  {
    FinancialCount(ar);
    assert ReportLines(ar) == HeaderLines(ar) + (FinancialLines(ar) + NarrativeLines(ar));
    HeaderFirst(ar, FinancialLines(ar) + NarrativeLines(ar));
  }

  lemma HeaderFirst(ar: AnnualReportSummary, rest: seq<string>)
    requires WellFormed(ar)
    ensures var lines := HeaderLines(ar) + rest;
            var title := "# " + ar.companyName + " Annual Report ";
            && |lines| == 5 + |rest|
            && StartsWith(lines[0], title) && ParseInt(lines[0][|title|..]) == Some(ar.fiscalYear.year)
            && lines[1] == CikTag + ar.cik
            && StartsWith(lines[2], FiscalYearEndTag)
            && ParseIsoDate(lines[2][|FiscalYearEndTag|..]) == Some(ar.fiscalYear)
            && StartsWith(lines[3], FilingDateTag)
            && ParseIsoDate(lines[3][|FilingDateTag|..]) == Some(ar.filingDate)
            && lines[4] == FinancialsHeading
  {
    TitleReadsBack(ar.companyName, ar.fiscalYear.year);
    TaggedDateReadsBack(FiscalYearEndTag, ar.fiscalYear);
    TaggedDateReadsBack(FilingDateTag, ar.filingDate);
  }

  lemma TitleReadsBack(company: string, year: nat)
    ensures var title := "# " + company + " Annual Report ";
            var line := title + NatToDigits(year);
            StartsWith(line, title) && ParseInt(line[|title|..]) == Some(year)
  {
    var title := "# " + company + " Annual Report ";
    var line := title + NatToDigits(year);
    assert line[..|title|] == title && line[|title|..] == NatToDigits(year);
    IntRoundTrip(year);
  }

  lemma TaggedDateReadsBack(tag: string, d: Date)
    requires ValidDate(d)
    ensures StartsWith(tag + IsoDate(d), tag) && ParseIsoDate((tag + IsoDate(d))[|tag|..]) == Some(d)
  {
    var line := tag + IsoDate(d);
    assert line[..|tag|] == tag && line[|tag|..] == IsoDate(d);
    IsoDateRoundTrip(d);
  }

  // ---------------------------------------------------------------------
  // Risk bullets

  /** Strips the `- ` of every bullet; None if some line is not a bullet. */
  function Unbullet(lines: seq<string>): Option<seq<string>> {
    if lines == [] then Some([])
    else if !StartsWith(lines[0], "- ") then None
    else
      match Unbullet(lines[1..])
      case None => None
      case Some(items) => Some([lines[0][2..]] + items)
  }

  /** Bullets lose nothing and keep the list order. */
  lemma {:induction false} BulletsRoundTrip(items: seq<string>)
    ensures Unbullet(Bullets(items)) == Some(items)
  {
    if items != [] {
      var b := Bullets(items);
      assert b[1..] == Bullets(items[1..]);
      assert b[0] == "- " + items[0] && b[0][2..] == items[0];
      BulletsRoundTrip(items[1..]);
      assert [items[0]] + items[1..] == items;
    }
  }

  /** ...and a list of bullets is the bulleting of what it reads back as. */
  lemma {:induction false} BulletsCanonical(lines: seq<string>, items: seq<string>)
    requires Unbullet(lines) == Some(items)
    ensures Bullets(items) == lines
  {
    if lines != [] {
      var rest :| Unbullet(lines[1..]) == Some(rest) && items == [lines[0][2..]] + rest;
      BulletsCanonical(lines[1..], rest);
      assert items[1..] == rest;
      assert "- " + lines[0][2..] == lines[0];
      assert Bullets(items) == ["- " + items[0]] + Bullets(items[1..]);
    }
  }

  // ---------------------------------------------------------------------
  // Layout of the whole report

  /** From line `k` on, `lines` holds, in this order, the business
      description (heading and text), the risk factors (heading and one
      bullet per risk in list order) and the management discussion (heading
      and text), each present exactly when its field is truthy, and nothing
      else. */
  predicate SectionsAt(lines: seq<string>, k: nat, ar: AnnualReportSummary) {
    var b := if Truthy(ar.businessDescription) then 2 else 0;
    var r := if HasItems(ar.risks) then 1 + |ar.risks.value| else 0;
    var m := if Truthy(ar.managementDiscussion) then 2 else 0;
    && |lines| == k + b + r + m
    && SectionAt(lines, k, BusinessHeading, ar.businessDescription)
    && RisksAt(lines, k + b, ar.risks)
    && SectionAt(lines, k + b + r, DiscussionHeading, ar.managementDiscussion)
  }

  /** A truthy text sits at line `k` after its heading. */
  predicate SectionAt(lines: seq<string>, k: nat, heading: string, text: Option<string>) {
    Truthy(text) ==> k + 2 <= |lines| && lines[k] == heading && lines[k + 1] == text.value
  }

  /** A non-empty list of risks sits at line `k`: the heading, then the
      bullets, which read back as the risks. */
  predicate RisksAt(lines: seq<string>, k: nat, risks: Option<seq<string>>) {
    HasItems(risks) ==>
      && k + 1 + |risks.value| <= |lines|
      && lines[k] == RiskHeading
      && Unbullet(lines[k + 1..k + 1 + |risks.value|]) == Some(risks.value)
  }

  lemma SectionAtBlock(lines: seq<string>, k: nat, heading: string, text: Option<string>)
    requires k + |SectionLines(heading, text)| <= |lines|
    requires lines[k..k + |SectionLines(heading, text)|] == SectionLines(heading, text)
    ensures SectionAt(lines, k, heading, text)
    ensures |SectionLines(heading, text)| == if Truthy(text) then 2 else 0
  {
    if Truthy(text) {
      assert lines[k..k + 2][0] == lines[k] && lines[k..k + 2][1] == lines[k + 1];
    }
  }

  lemma RisksAtBlock(lines: seq<string>, k: nat, risks: Option<seq<string>>)
    requires k + |RiskLines(risks)| <= |lines|
    requires lines[k..k + |RiskLines(risks)|] == RiskLines(risks)
    ensures RisksAt(lines, k, risks)
    ensures |RiskLines(risks)| == if HasItems(risks) then 1 + |risks.value| else 0
  {
    if HasItems(risks) {
      var items := risks.value;
      var rl := RiskLines(risks);
      assert lines[k] == rl[0];
      assert lines[k + 1..k + 1 + |items|] == rl[1..] == Bullets(items);
      BulletsRoundTrip(items);
    }
  }

  /** The header and the financials are never moved by what follows, and
      the narrative sections come after them. */
  lemma NarrativeLayout(ar: AnnualReportSummary)
    requires WellFormed(ar)
    ensures var lines, k := ReportLines(ar), 5 + |FinancialLines(ar)|;
            && k <= |lines| && lines[..5] == HeaderLines(ar) && lines[5..k] == FinancialLines(ar)
            && SectionsAt(lines, k, ar)
  {
    var header, financials := HeaderLines(ar), FinancialLines(ar);
    var prefix := header + financials;
    assert prefix[..5] == header && prefix[5..] == financials;
    SectionsAfter(ReportLines(ar), prefix, ar);
  }

  /** The narrative sections after any prefix of lines, which they leave alone. */
  lemma SectionsAfter(lines: seq<string>, prefix: seq<string>, ar: AnnualReportSummary)
    requires lines == prefix + NarrativeLines(ar)
    ensures |prefix| <= |lines| && lines[..|prefix|] == prefix
    ensures SectionsAt(lines, |prefix|, ar)
  {
    BusinessPlaced(prefix, ar);
    RisksPlaced(prefix, ar);
    DiscussionPlaced(prefix, ar);
    assert lines[..|prefix|] == prefix;
  }

  lemma BusinessPlaced(prefix: seq<string>, ar: AnnualReportSummary)
    ensures SectionAt(prefix + NarrativeLines(ar), |prefix|, BusinessHeading, ar.businessDescription)
    ensures |SectionLines(BusinessHeading, ar.businessDescription)| == if Truthy(ar.businessDescription) then 2 else 0
  {
    var bd := SectionLines(BusinessHeading, ar.businessDescription);
    var rl := RiskLines(ar.risks);
    var md := SectionLines(DiscussionHeading, ar.managementDiscussion);
    Blocks(prefix, bd, rl, md);
    SectionAtBlock(prefix + NarrativeLines(ar), |prefix|, BusinessHeading, ar.businessDescription);
  }

  lemma RisksPlaced(prefix: seq<string>, ar: AnnualReportSummary)
    ensures var b := |SectionLines(BusinessHeading, ar.businessDescription)|;
            RisksAt(prefix + NarrativeLines(ar), |prefix| + b, ar.risks)
    ensures |RiskLines(ar.risks)| == if HasItems(ar.risks) then 1 + |ar.risks.value| else 0
  {
    var bd := SectionLines(BusinessHeading, ar.businessDescription);
    var rl := RiskLines(ar.risks);
    var md := SectionLines(DiscussionHeading, ar.managementDiscussion);
    Blocks(prefix, bd, rl, md);
    RisksAtBlock(prefix + NarrativeLines(ar), |prefix| + |bd|, ar.risks);
  }

  lemma DiscussionPlaced(prefix: seq<string>, ar: AnnualReportSummary)
    ensures var b, r := |SectionLines(BusinessHeading, ar.businessDescription)|, |RiskLines(ar.risks)|;
            SectionAt(prefix + NarrativeLines(ar), |prefix| + b + r, DiscussionHeading, ar.managementDiscussion)
    ensures var m := |SectionLines(DiscussionHeading, ar.managementDiscussion)|;
            |NarrativeLines(ar)| == |SectionLines(BusinessHeading, ar.businessDescription)| + |RiskLines(ar.risks)| + m
    ensures |SectionLines(DiscussionHeading, ar.managementDiscussion)| == if Truthy(ar.managementDiscussion) then 2 else 0
  {
    var bd := SectionLines(BusinessHeading, ar.businessDescription);
    var rl := RiskLines(ar.risks);
    var md := SectionLines(DiscussionHeading, ar.managementDiscussion);
    Blocks(prefix, bd, rl, md);
    SectionAtBlock(prefix + NarrativeLines(ar), |prefix| + |bd| + |rl|, DiscussionHeading, ar.managementDiscussion);
  }

  /** Four consecutive blocks of lines, each found where it was put. */
  lemma Blocks(p: seq<string>, x: seq<string>, y: seq<string>, z: seq<string>)
    ensures var lines := p + (x + y + z);
            var i, j, k := |p|, |p| + |x|, |p| + |x| + |y|;
            && |lines| == k + |z|
            && lines[..i] == p && lines[i..j] == x && lines[j..k] == y && lines[k..] == z
  {
  }

  /** Fields the report never prints (market capitalisation, stock price,
      earnings per share, key highlights, future outlook) do not change the
      lines or the file name. */
  lemma UnprintedFieldsIgnored(ar: AnnualReportSummary, marketCap: Option<int>, stockPrice: Option<int>,
                               eps: Option<int>, highlights: Option<seq<string>>, outlook: Option<string>)
    requires WellFormed(ar)
    ensures var other := ar.(marketCap := marketCap, stockPrice := stockPrice, eps := eps,
                             keyHighlights := highlights, futureOutlook := outlook);
            WellFormed(other) && ReportLines(other) == ReportLines(ar)
            && ReportFilename(other) == ReportFilename(ar)
  {
  }

  // ---------------------------------------------------------------------
  // The joined document

  /** Where line `i` starts in the joined document. */
  function Offset(lines: seq<string>, sep: string, i: nat): nat
    requires i <= |lines|
  {
    TotalLength(lines[..i]) + |sep| * i
  }

  /** Every line sits in the document at its offset, followed by the
      separator unless it is the last. */
  lemma {:induction false} JoinPlacement(lines: seq<string>, sep: string, i: nat)
    requires i < |lines|
    ensures Offset(lines, sep, i) + |lines[i]| <= |Join(lines, sep)|
    ensures Join(lines, sep)[Offset(lines, sep, i)..Offset(lines, sep, i) + |lines[i]|] == lines[i]
    ensures i + 1 < |lines| ==> Offset(lines, sep, i) + |lines[i]| + |sep| <= |Join(lines, sep)|
    ensures i + 1 < |lines| ==>
              Join(lines, sep)[Offset(lines, sep, i) + |lines[i]|..Offset(lines, sep, i) + |lines[i]| + |sep|] == sep
  {
    if i == 0 {
      JoinFirst(lines, sep);
    } else {
      JoinPlacement(lines[1..], sep, i - 1);
      JoinLater(lines, sep, i);
    }
  }

  /** The placement of line `i` follows from that of line `i - 1` in the
      document that starts at the second line. */
  lemma JoinLater(lines: seq<string>, sep: string, i: nat)
    requires 0 < i < |lines|
    requires var o, n := Offset(lines[1..], sep, i - 1), |lines[i]|;
             var tail := Join(lines[1..], sep);
             && o + n <= |tail| && tail[o..o + n] == lines[i]
             && (i + 1 < |lines| ==> o + n + |sep| <= |tail| && tail[o + n..o + n + |sep|] == sep)
    ensures var o, n := Offset(lines, sep, i), |lines[i]|;
            var doc := Join(lines, sep);
            && o + n <= |doc| && doc[o..o + n] == lines[i]
            && (i + 1 < |lines| ==> o + n + |sep| <= |doc| && doc[o + n..o + n + |sep|] == sep)
  {
    var head, tail := lines[0] + sep, Join(lines[1..], sep);
    var doc := Join(lines, sep);
    assert doc == head + tail;
    OffsetStep(lines, sep, i);
    var o, n := Offset(lines[1..], sep, i - 1), |lines[i]|;
    assert Offset(lines, sep, i) == |head| + o;
    assert doc[|head| + o..|head| + o + n] == lines[i] by {
      SliceAfter(head, tail, o, o + n);
    }
    if i + 1 < |lines| {
      assert doc[|head| + o + n..|head| + o + n + |sep|] == sep by {
        SliceAfter(head, tail, o + n, o + n + |sep|);
      }
    }
  }

  lemma JoinFirst(lines: seq<string>, sep: string)
    requires lines != []
    ensures Offset(lines, sep, 0) == 0
    ensures |lines[0]| <= |Join(lines, sep)| && Join(lines, sep)[..|lines[0]|] == lines[0]
    ensures 1 < |lines| ==> |lines[0]| + |sep| <= |Join(lines, sep)|
    ensures 1 < |lines| ==> Join(lines, sep)[|lines[0]|..|lines[0]| + |sep|] == sep
  {
    assert lines[..0] == [];
    if |lines| > 1 {
      var doc := Join(lines, sep);
      assert doc == lines[0] + sep + Join(lines[1..], sep);
      assert doc[..|lines[0]|] == lines[0];
      assert doc[|lines[0]|..|lines[0]| + |sep|] == sep;
    }
  }

  lemma OffsetStep(lines: seq<string>, sep: string, i: nat)
    requires 0 < i <= |lines|
    ensures Offset(lines, sep, i) == |lines[0]| + |sep| + Offset(lines[1..], sep, i - 1)
  {
    assert lines[..i][0] == lines[0] && lines[..i][1..] == lines[1..][..i - 1];
    assert |sep| * i == |sep| * (i - 1) + |sep|;
  }

  lemma SliceAfter(a: string, b: string, x: nat, y: nat)
    requires x <= y <= |b|
    ensures (a + b)[|a| + x..|a| + y] == b[x..y]
  {
  }

  // ---------------------------------------------------------------------
  // The file name

  /** `annual_report_`, the company name with spaces made underscores, `_`,
      the fiscal year as read back by `int()`, and `.pdf`. */
  lemma FilenameReadsBack(ar: AnnualReportSummary)
    ensures var name := ReportFilename(ar);
            var c := |ar.companyName|;
            && StartsWith(name, "annual_report_")
            && name[14..14 + c] == ReplaceSpaces(ar.companyName)
            && name[14 + c] == '_'
            && ParseInt(name[15 + c..|name| - 4]) == Some(ar.fiscalYear.year)
            && name[|name| - 4..] == ".pdf"
  {
    var year := NatToDigits(ar.fiscalYear.year);
    FilenameParts(ReplaceSpaces(ar.companyName), year);
    IntRoundTrip(ar.fiscalYear.year);
  }

  /** Where the parts of a file name sit. */
  lemma FilenameParts(company: string, year: string)
    ensures var name := "annual_report_" + company + "_" + year + ".pdf";
            var c := |company|;
            && |name| == c + |year| + 19
            && name[..14] == "annual_report_"
            && name[14..14 + c] == company
            && name[14 + c] == '_'
            && name[15 + c..|name| - 4] == year
            && name[|name| - 4..] == ".pdf"
  {
  }
}
