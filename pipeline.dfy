/** The report of budget_streamlit.py:20-55 as one function from the loaded
    sheet to either the ranked table or the column error, and what the
    report is promised to be. */
module Pipeline {
  import opened Wrappers
  import opened CaseFold
  import opened Sheets
  import opened Cleaning
  import opened Aggregation
  import opened Ranking

  /** What the page shows: the grand total and the ranked table. */
  datatype Report = Report(grandTotal: real, table: seq<Ranked>)

  /** The summary of a cleaned table (budget_streamlit.py:38-51): group by
      name, take the grand total, add the shares, sort by share, rank. The
      script divides every group's amount by the grand total without a
      guard; the division is defined when there is no group to divide or the
      grand total is not zero. */
  function Summarise(kept: seq<Contribution>): Report
    requires kept != [] ==> Total(kept) != 0.0
  {
    var groups := GroupByName(kept);
    var grand := Total(groups);
    Report(grand, Rank(SortByShare(WithShares(groups, grand))))
  }

  /** Cleaning leaves something to divide by, or nothing to divide. */
  predicate GrandTotalDefined(conv: Conversions, sheet: Sheet) {
    var kept := Clean(conv, sheet.rows);
    kept != [] ==> Total(kept) != 0.0
  }

  /** The whole pipeline: stop with the list of available columns when a
      needed column is missing, otherwise clean and summarise. */
  function Run(conv: Conversions, sheet: Sheet): (r: Result<Report, ColumnError>)
    requires HasExpectedColumns(sheet) ==> GrandTotalDefined(conv, sheet)
    ensures r.Failure? <==> NameColumn !in sheet.columns || AmountColumn !in sheet.columns
    ensures r.Failure? ==> r.error == ColumnsNotFound(sheet.columns)
  {
    if NameColumn !in sheet.columns || AmountColumn !in sheet.columns then
      Failure(ColumnsNotFound(sheet.columns))
    else
      Success(Summarise(Clean(conv, sheet.rows)))
  }

  /** The precondition of Run, for the lemmas below. */
  predicate Reportable(conv: Conversions, sheet: Sheet) {
    HasExpectedColumns(sheet) && GrandTotalDefined(conv, sheet)
  }

  /** The summary's names: no name appears twice and every name of the
      cleaned table appears, so there are as many rows as distinct names. */
  lemma SummaryNames(kept: seq<Contribution>)
    requires kept != [] ==> Total(kept) != 0.0
    ensures var t := Summarise(kept).table;
      && (forall i, j :: 0 <= i < j < |t| ==> t[i].name != t[j].name)
      && (forall n :: n in NameSet(kept) <==> exists i :: 0 <= i < |t| && t[i].name == n)
      && |t| == |NameSet(kept)|
  {
    var groups := GroupByName(kept);
    var shares := WithShares(groups, Total(groups));
    var t := Summarise(kept).table;
    ShareNames(kept);
    RankedOrder(shares);
    RankedRows(shares);
    RankedNamesAndSum(shares);
    forall i | 0 <= i < |t| ensures t[i].name in NameSet(kept) {
      var x := Share(t[i].name, t[i].amount, t[i].percent);
      assert x in shares;
      var k :| 0 <= k < |shares| && shares[k] == x;
    }
    forall n | n in NameSet(kept) ensures exists i :: 0 <= i < |t| && t[i].name == n {
      var k :| 0 <= k < |shares| && shares[k].name == n;
      assert shares[k] in shares;
    }
  }

  /** The summary's amounts: each row holds the sum of the amounts with its
      name, the grand total is the sum of all amounts, and each share is the
      row's amount as a percentage of the grand total. */
  lemma SummaryAmounts(kept: seq<Contribution>)
    requires kept != [] ==> Total(kept) != 0.0
    ensures var report := Summarise(kept);
      && report.grandTotal == Total(kept)
      && (report.table != [] ==> report.grandTotal != 0.0)
      && (forall i :: 0 <= i < |report.table| ==>
            && report.table[i].amount == AmountFor(report.table[i].name, kept)
            && report.table[i].percent == Percentage(report.table[i].amount, report.grandTotal))
  {
    var groups := GroupByName(kept);
    var grand := Total(groups);
    var shares := WithShares(groups, grand);
    var t := Summarise(kept).table;
    assert t == Rank(SortByShare(shares));
    ShareAmounts(kept);
    SharePercents(groups, grand);
    RankedOrder(shares);
    RankedRows(shares);
    forall i | 0 <= i < |t|
      ensures t[i].amount == AmountFor(t[i].name, kept) && grand != 0.0 && t[i].percent == Percentage(t[i].amount, grand)
    {
      assert Share(t[i].name, t[i].amount, t[i].percent) in shares;
    }
  }

  /** The names of the report: each is a name the cleaning kept (present,
      not a summary or legend row), no name appears twice, and every kept
      name appears, so there are as many rows as distinct kept names. */
  lemma ReportNames(conv: Conversions, sheet: Sheet)
    requires Reportable(conv, sheet)
    ensures var t := Run(conv, sheet).value.table;
      var kept := Clean(conv, sheet.rows);
      && (forall i :: 0 <= i < |t| ==> !t[i].name.Missing? && !IsMarker(NameText(conv, t[i].name)))
      && (forall i, j :: 0 <= i < j < |t| ==> t[i].name != t[j].name)
      && (forall n :: n in NameSet(kept) <==> exists i :: 0 <= i < |t| && t[i].name == n)
      && |t| == |NameSet(kept)|
  {
    var kept := Clean(conv, sheet.rows);
    var t := Run(conv, sheet).value.table;
    assert t == Summarise(kept).table;
    SummaryNames(kept);
    CleanedRowsAreNamed(conv, sheet.rows);
    forall i | 0 <= i < |t| ensures !t[i].name.Missing? && !IsMarker(NameText(conv, t[i].name)) {
      assert t[i].name in NameSet(kept);
    }
  }

  /** The amounts of the report: each row holds the sum of the kept amounts
      with its name, the grand total is the sum of all kept amounts, and
      each share is the row's amount as a percentage of the grand total. */
  lemma ReportAmounts(conv: Conversions, sheet: Sheet)
    requires Reportable(conv, sheet)
    ensures var report := Run(conv, sheet).value;
      var kept := Clean(conv, sheet.rows);
      && report.grandTotal == Total(kept)
      && (report.table != [] ==> report.grandTotal != 0.0)
      && (forall i :: 0 <= i < |report.table| ==>
            && report.table[i].amount == AmountFor(report.table[i].name, kept)
            && report.table[i].percent == Percentage(report.table[i].amount, report.grandTotal))
  {
    var kept := Clean(conv, sheet.rows);
    assert Run(conv, sheet).value == Summarise(kept);
    SummaryAmounts(kept);
  }

  /** The order of the report: shares never increase down the table, the
      ranks are exactly 1, 2, ..., N in table order, and a better rank never
      has a smaller share. With a positive grand total the amounts never
      increase down the table either, so rank 1 is the largest contribution;
      with a negative grand total the amounts never decrease instead. */
  lemma ReportOrder(conv: Conversions, sheet: Sheet)
    requires Reportable(conv, sheet)
    ensures var t := Run(conv, sheet).value.table;
      && (forall i :: 0 <= i < |t| ==> t[i].rank == i + 1)
      && (forall i, j :: 0 <= i < j < |t| ==> t[i].percent >= t[j].percent)
      && (forall i, j :: 0 <= i < |t| && 0 <= j < |t| && t[i].rank < t[j].rank ==> t[i].percent >= t[j].percent)
    ensures var report := Run(conv, sheet).value;
      report.grandTotal > 0.0 ==>
        forall i, j :: 0 <= i < j < |report.table| ==> report.table[i].amount >= report.table[j].amount
    ensures var report := Run(conv, sheet).value;
      report.grandTotal < 0.0 ==>
        forall i, j :: 0 <= i < j < |report.table| ==> report.table[i].amount <= report.table[j].amount
  {
    var report := Run(conv, sheet).value;
    var t, grand := report.table, report.grandTotal;
    ReportAmounts(conv, sheet);
    forall i, j | 0 <= i < j < |t|
      ensures grand > 0.0 ==> t[i].amount >= t[j].amount
      ensures grand < 0.0 ==> t[i].amount <= t[j].amount
    {
      PercentageOrder(t[i].amount, t[j].amount, grand);
    }
  }

  /** The shares of a non-empty report add up to exactly 100 (before the
      script's rounding to two decimals). */
  lemma ReportSharesSumToHundred(conv: Conversions, sheet: Sheet)
    requires Reportable(conv, sheet) && Run(conv, sheet).value.table != []
    ensures TablePercentSum(Run(conv, sheet).value.table) == 100.0
  {
    var groups := GroupByName(Clean(conv, sheet.rows));
    var shares := WithShares(groups, Total(groups));
    assert Run(conv, sheet).value.table == Rank(SortByShare(shares));
    RankedNamesAndSum(shares);
    SharesSumToHundred(groups);
  }

  /** A sheet with two contributors of 100 each and a "Total" footer row. */
  function ExampleSheet(): Sheet {
    Sheet([NameColumn, AmountColumn],
      [ map[NameColumn := Text("Alice"), AmountColumn := Number(100.0)],
        map[NameColumn := Text("Bob"), AmountColumn := Number(100.0)],
        map[NameColumn := Text("Total"), AmountColumn := Number(9999.0)] ])
  }

  /** Cleaning the example keeps the two contributors and drops the footer. */
  lemma ExampleClean(conv: Conversions)
    ensures Clean(conv, ExampleSheet().rows)
         == [Contribution(Text("Alice"), 100.0), Contribution(Text("Bob"), 100.0)]
  {
    var rows := ExampleSheet().rows;
    assert !ContainsIgnoringCase("Alice", TotalMarker) by {
      forall i: nat | i + |TotalMarker| <= |"Alice"| ensures !MatchesAt("Alice", TotalMarker, i) {
        assert Fold("Alice"[i]) != Fold(TotalMarker[0]);
      }
    }
    assert !IsMarker("Alice");
    assert !IsMarker("Bob");
    assert IsMarker("Total") by {
      assert MatchesAt("Total", TotalMarker, 0);
    }
    var alice, bob := Contribution(Text("Alice"), 100.0), Contribution(Text("Bob"), 100.0);
    assert Survivor(conv, rows[0]) == Some(alice);
    assert Survivor(conv, rows[1]) == Some(bob);
    assert Survivor(conv, rows[2]) == None;
    CleanIsRowwise(conv, rows);
    assert rows[1..][1..] == [rows[2]] && [rows[2]][1..] == [];
    assert Survivors(conv, [rows[2]]) == [];
    assert Survivors(conv, rows[1..]) == [bob];
  }

  /** Grouping two rows with different names keeps both, the later one first. */
  lemma GroupsOfTwo(a: Contribution, b: Contribution)
    requires a.name != b.name
    ensures Total([a, b]) == a.amount + b.amount
    ensures GroupByName([a, b]) == [b, a]
  {
    assert [a, b][1..] == [b] && [b][1..] == [];
    assert GroupByName([b]) == [b];
    assert AddTo([b], a) == [b] + AddTo([], a);
  }

  /** Summarising the example's two contributors. */
  lemma ExampleSummary()
    ensures var alice, bob := Contribution(Text("Alice"), 100.0), Contribution(Text("Bob"), 100.0);
      && Total([alice, bob]) == 200.0
      && Summarise([alice, bob]) == Report(200.0, [Ranked(1, bob.name, 100.0, 50.0), Ranked(2, alice.name, 100.0, 50.0)])
  {
    var alice, bob := Contribution(Text("Alice"), 100.0), Contribution(Text("Bob"), 100.0);
    GroupsOfTwo(alice, bob);
    var groups := [bob, alice];
    assert groups[1..] == [alice] && [alice][1..] == [];
    assert Total(groups) == 200.0;
    var shares := WithShares(groups, 200.0);
    assert Percentage(100.0, 200.0) == 50.0;
    assert shares == [Share(Text("Bob"), 100.0, 50.0), Share(Text("Alice"), 100.0, 50.0)];
    assert shares[1..] == [shares[1]] && [shares[1]][1..] == [];
    assert SortByShare(shares) == shares;
  }

  /** With a negative grand total the ranking follows the shares, not the
      amounts: of two contributions of -10 and -30, the -30 has the larger
      share (75%) and is ranked first. */
  lemma ExampleNegativeTotal()
    ensures var a, b := Contribution(Text("A"), -10.0), Contribution(Text("B"), -30.0);
      && Total([a, b]) == -40.0
      && Summarise([a, b]) == Report(-40.0, [Ranked(1, b.name, -30.0, 75.0), Ranked(2, a.name, -10.0, 25.0)])
  {
    var a, b := Contribution(Text("A"), -10.0), Contribution(Text("B"), -30.0);
    GroupsOfTwo(a, b);
    var groups := [b, a];
    assert groups[1..] == [a] && [a][1..] == [];
    assert Total(groups) == -40.0;
    assert Percentage(-30.0, -40.0) == 75.0;
    assert Percentage(-10.0, -40.0) == 25.0;
    var shares := WithShares(groups, -40.0);
    assert shares == [Share(Text("B"), -30.0, 75.0), Share(Text("A"), -10.0, 25.0)];
    assert shares[1..] == [shares[1]] && [shares[1]][1..] == [];
    assert SortByShare(shares) == shares;
  }

  /** The footer row is excluded; the grand total is 200, and the two
      contributors have 50% each, ranked 1 and 2 in some order. */
  lemma ExampleReport(conv: Conversions)
    ensures Reportable(conv, ExampleSheet())
    ensures var r := Run(conv, ExampleSheet());
      && r.Success?
      && r.value.grandTotal == 200.0
      && |r.value.table| == 2
      && {r.value.table[0].name, r.value.table[1].name} == {Text("Alice"), Text("Bob")}
      && r.value.table[0].percent == 50.0 && r.value.table[1].percent == 50.0
      && r.value.table[0].rank == 1 && r.value.table[1].rank == 2
  {
    ExampleClean(conv);
    ExampleSummary();
  }
}
