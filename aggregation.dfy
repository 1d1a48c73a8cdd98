/** The aggregation stage of budget_streamlit.py:38-40: one row per name
    with the sum of its amounts, the grand total, and each name's share of
    it as a percentage. */
module Aggregation {
  import opened Seqs
  import opened Sheets
  import opened Cleaning

  /** The sum of the amounts of a table (a column sum). */
  function Total(rows: seq<Contribution>): real {
    if rows == [] then 0.0 else rows[0].amount + Total(rows[1..])
  }

  /** The sum of the amounts of the rows named `name`: what grouping by
      name is meant to compute for that name. */
  function AmountFor(name: Cell, rows: seq<Contribution>): real {
    if rows == [] then 0.0
    else (if rows[0].name == name then rows[0].amount else 0.0) + AmountFor(name, rows[1..])
  }

  /** The name column of a table. */
  function Names(rows: seq<Contribution>): seq<Cell> {
    seq(|rows|, i requires 0 <= i < |rows| => rows[i].name)
  }

  /** The names that occur in a table. */
  function NameSet(rows: seq<Contribution>): set<Cell> {
    set c | c in rows :: c.name
  }

  lemma NameSetCons(rows: seq<Contribution>)
    requires rows != []
    ensures NameSet(rows) == {rows[0].name} + NameSet(rows[1..])
    ensures Names(rows) == [rows[0].name] + Names(rows[1..])
  {
  }

  /** A table's names are pairwise different exactly when the first name
      does not recur and the rest are pairwise different. */
  lemma DistinctCons(rows: seq<Contribution>)
    requires rows != []
    ensures Distinct(Names(rows)) <==> rows[0].name !in NameSet(rows[1..]) && Distinct(Names(rows[1..]))
  {
    NameSetCons(rows);
    var ns, tail := Names(rows), Names(rows[1..]);
    if Distinct(ns) {
      forall d | d in rows[1..] ensures d.name != rows[0].name {
        var j :| 0 <= j < |rows[1..]| && rows[1..][j] == d;
        assert ns[j + 1] == d.name && ns[0] == rows[0].name;
        assert ns[0] != ns[j + 1];
      }
      forall i, j | 0 <= i < j < |tail| ensures tail[i] != tail[j] {
        assert tail[i] == ns[i + 1] && tail[j] == ns[j + 1];
      }
    }
    if rows[0].name !in NameSet(rows[1..]) && Distinct(tail) {
      forall i, j | 0 <= i < j < |ns| ensures ns[i] != ns[j] {
        if i == 0 {
          assert rows[1..][j - 1] in rows[1..];
        } else {
          assert ns[i] == tail[i - 1] && ns[j] == tail[j - 1];
        }
      }
    }
  }

  /** A name that does not occur in a table has nothing summed for it. */
  lemma {:induction false} AmountForAbsent(name: Cell, rows: seq<Contribution>)
    requires name !in NameSet(rows)
    ensures AmountFor(name, rows) == 0.0
  {
    if rows != [] {
      NameSetCons(rows);
      AmountForAbsent(name, rows[1..]);
    }
  }

  /** Adds one row to a grouped table: into the group with the same name if
      there is one, otherwise as a new group at the end. */
  function AddTo(groups: seq<Contribution>, c: Contribution): (r: seq<Contribution>)
    ensures NameSet(r) == NameSet(groups) + {c.name}
    ensures forall n :: AmountFor(n, r) == AmountFor(n, groups) + (if n == c.name then c.amount else 0.0)
    ensures Total(r) == Total(groups) + c.amount
  {
    if groups == [] then [c]
    else
      NameSetCons(groups);
      var r := if groups[0].name == c.name
        then [Contribution(c.name, groups[0].amount + c.amount)] + groups[1..]
        else [groups[0]] + AddTo(groups[1..], c);
      NameSetCons(r);
      assert r[1..] == if groups[0].name == c.name then groups[1..] else AddTo(groups[1..], c);
      r
  }

  /** Adding a row to a grouped table never makes two groups share a name. */
  lemma {:induction false} AddToKeepsDistinct(groups: seq<Contribution>, c: Contribution)
    requires Distinct(Names(groups))
    ensures Distinct(Names(AddTo(groups, c)))
  {
    if groups != [] {
      var r := AddTo(groups, c);
      NameSetCons(groups);
      DistinctCons(groups);
      NameSetCons(r);
      DistinctCons(r);
      if groups[0].name == c.name {
        assert r[1..] == groups[1..];
      } else {
        AddToKeepsDistinct(groups[1..], c);
        assert r[1..] == AddTo(groups[1..], c);
      }
    }
  }

  /** `groupby('Nom').sum()`: the groups have pairwise different names, the
      same names as the rows, for each name the sum of that name's amounts,
      and together the same total as the rows. */
  function GroupByName(rows: seq<Contribution>): (groups: seq<Contribution>)
    ensures groups == [] <==> rows == []
    ensures Distinct(Names(groups))
    ensures NameSet(groups) == NameSet(rows)
    ensures forall n :: AmountFor(n, groups) == AmountFor(n, rows)
    ensures Total(groups) == Total(rows)
  {
    if rows == [] then []
    else
      NameSetCons(rows);
      AddToKeepsDistinct(GroupByName(rows[1..]), rows[0]);
      AddTo(GroupByName(rows[1..]), rows[0])
  }

  /** In a table whose names are pairwise different, a row's amount is all
      that is summed for its name. */
  lemma {:induction false} AmountForDistinct(rows: seq<Contribution>, i: nat)
    requires Distinct(Names(rows)) && i < |rows|
    ensures AmountFor(rows[i].name, rows) == rows[i].amount
  {
    NameSetCons(rows);
    DistinctCons(rows);
    if i == 0 {
      AmountForAbsent(rows[0].name, rows[1..]);
    } else {
      assert rows[1..][i - 1] == rows[i];
      assert rows[0].name != rows[i].name by {
        assert rows[i] in rows[1..];
      }
      AmountForDistinct(rows[1..], i - 1);
    }
  }

  /** Duplicate names are merged: each group holds the sum of the amounts of
      all rows with its name, and each name occurs in exactly one group. */
  lemma GroupsMergeDuplicates(rows: seq<Contribution>)
    ensures var groups := GroupByName(rows);
      && (forall i :: 0 <= i < |groups| ==> groups[i].amount == AmountFor(groups[i].name, rows))
      && (forall i, j :: 0 <= i < j < |groups| ==> groups[i].name != groups[j].name)
      && (forall n :: n in NameSet(rows) <==> exists i :: 0 <= i < |groups| && groups[i].name == n)
  {
    var groups := GroupByName(rows);
    forall i | 0 <= i < |groups| ensures groups[i].amount == AmountFor(groups[i].name, rows) {
      AmountForDistinct(groups, i);
    }
    forall i, j | 0 <= i < j < |groups| ensures groups[i].name != groups[j].name {
      assert Names(groups)[i] == groups[i].name && Names(groups)[j] == groups[j].name;
    }
    forall n | n in NameSet(rows) ensures exists i :: 0 <= i < |groups| && groups[i].name == n {
      assert n in NameSet(groups);
      var d :| d in groups && d.name == n;
      var i :| 0 <= i < |groups| && groups[i] == d;
    }
  }

  /** There are exactly as many groups as distinct names among the rows. */
  lemma GroupCount(rows: seq<Contribution>)
    ensures |GroupByName(rows)| == |NameSet(rows)|
  {
    var groups := GroupByName(rows);
    DistinctCardinality(Names(groups));
    NameColumnValues(groups);
  }

  lemma NameColumnValues(rows: seq<Contribution>)
    ensures (set x | x in Names(rows)) == NameSet(rows)
  {
    var ns := Names(rows);
    forall x | x in NameSet(rows) ensures x in ns {
      var d :| d in rows && d.name == x;
      var i :| 0 <= i < |rows| && rows[i] == d;
      assert ns[i] == x;
    }
    forall x | x in ns ensures x in NameSet(rows) {
      var i :| 0 <= i < |ns| && ns[i] == x;
      assert rows[i] in rows;
    }
  }

  /** A group's row once its share of the grand total is known. */
  datatype Share = Share(name: Cell, amount: real, percent: real)

  /** `amount` as a percentage of `grand`. */
  function Percentage(amount: real, grand: real): real
    requires grand != 0.0
  {
    amount / grand * 100.0
  }

  /** Shares order amounts: against a positive grand total the larger share
      belongs to the larger amount; against a negative one the order is
      reversed. */
  lemma PercentageOrder(x: real, y: real, grand: real)
    requires grand != 0.0
    ensures grand > 0.0 ==> (Percentage(x, grand) >= Percentage(y, grand) <==> x >= y)
    ensures grand < 0.0 ==> (Percentage(x, grand) >= Percentage(y, grand) <==> x <= y)
  {
  }

  /** The 'Part (%)' column: each group's amount as a percentage of `grand`.
      The script divides without a guard, so a non-empty table needs a
      non-zero grand total. */
  function WithShares(groups: seq<Contribution>, grand: real): (shares: seq<Share>)
    requires groups != [] ==> grand != 0.0
    ensures |shares| == |groups|
    ensures forall i :: 0 <= i < |groups| ==>
      && shares[i].name == groups[i].name
      && shares[i].amount == groups[i].amount
      && shares[i].percent == Percentage(groups[i].amount, grand)
  {
    if groups == [] then []
    else [Share(groups[0].name, groups[0].amount, Percentage(groups[0].amount, grand))] + WithShares(groups[1..], grand)
  }

  function PercentSum(shares: seq<Share>): real {
    if shares == [] then 0.0 else shares[0].percent + PercentSum(shares[1..])
  }

  lemma {:induction false} PercentSumScales(groups: seq<Contribution>, grand: real)
    requires grand != 0.0
    ensures PercentSum(WithShares(groups, grand)) == Percentage(Total(groups), grand)
  {
    if groups != [] {
      var shares := WithShares(groups, grand);
      assert shares[1..] == WithShares(groups[1..], grand);
      PercentSumScales(groups[1..], grand);
      var a, t := groups[0].amount, Total(groups[1..]);
      assert (a + t) / grand == a / grand + t / grand;
    }
  }

  /** The shares of a non-empty table add up to exactly 100 when the grand
      total is the sum of the group amounts (before rounding). */
  lemma SharesSumToHundred(groups: seq<Contribution>)
    requires groups != [] && Total(groups) != 0.0
    ensures PercentSum(WithShares(groups, Total(groups))) == 100.0
  {
    PercentSumScales(groups, Total(groups));
    assert Total(groups) / Total(groups) == 1.0;
  }

  /** No two rows share a name. */
  predicate NamesDistinct(s: seq<Share>) {
    forall i, j :: 0 <= i < j < |s| ==> s[i].name != s[j].name
  }

  /** The share table of a cleaned table has one row per distinct name. */
  lemma ShareNames(rows: seq<Contribution>)
    requires rows != [] ==> Total(rows) != 0.0
    ensures var shares := WithShares(GroupByName(rows), Total(GroupByName(rows)));
      && NamesDistinct(shares)
      && (forall n :: n in NameSet(rows) <==> exists i :: 0 <= i < |shares| && shares[i].name == n)
      && |shares| == |NameSet(rows)|
  {
    var groups := GroupByName(rows);
    var shares := WithShares(groups, Total(groups));
    GroupsMergeDuplicates(rows);
    GroupCount(rows);
    forall n | n in NameSet(rows) ensures exists i :: 0 <= i < |shares| && shares[i].name == n {
      var k :| 0 <= k < |groups| && groups[k].name == n;
      assert shares[k].name == n;
    }
  }

  /** Each row of the share table holds its name's summed amount. */
  lemma ShareAmounts(rows: seq<Contribution>)
    requires rows != [] ==> Total(rows) != 0.0
    ensures var shares := WithShares(GroupByName(rows), Total(GroupByName(rows)));
      forall x :: x in shares ==> x.amount == AmountFor(x.name, rows)
  {
    var groups := GroupByName(rows);
    var shares := WithShares(groups, Total(groups));
    forall x | x in shares ensures x.amount == AmountFor(x.name, rows) {
      var k :| 0 <= k < |shares| && shares[k] == x;
      assert x.name == groups[k].name && x.amount == groups[k].amount;
      AmountForDistinct(groups, k);
    }
  }

  /** Each row of a share table holds its amount as a percentage of the
      grand total it was computed with. */
  lemma SharePercents(groups: seq<Contribution>, grand: real)
    requires groups != [] ==> grand != 0.0
    ensures forall x :: x in WithShares(groups, grand) ==> grand != 0.0 && x.percent == Percentage(x.amount, grand)
  {
  }
}
