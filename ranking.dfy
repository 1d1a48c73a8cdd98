/** The ranking stage of budget_streamlit.py:43-51: sort by share, largest
    first, then number the rows 1, 2, ... in that order. */
module Ranking {
  import opened Seqs
  import opened Sheets
  import opened Aggregation

  /** Non-increasing by share. */
  predicate SortedByShare(s: seq<Share>) {
    forall i, j :: 0 <= i < j < |s| ==> s[i].percent >= s[j].percent
  }

  /** A row with a share at least every share of a sorted table can go in front. */
  lemma ConsSorted(x: Share, s: seq<Share>)
    requires SortedByShare(s) && forall y | y in s :: y.percent <= x.percent
    ensures SortedByShare([x] + s)
  {
  }

  /** Puts `x` into a table sorted by share, before the first row whose share
      is not larger. */
  function Insert(x: Share, s: seq<Share>): (r: seq<Share>)
    requires SortedByShare(s)
    ensures forall y :: y in r ==> y == x || y in s
    ensures SortedByShare(r)
  {
    if s == [] || x.percent >= s[0].percent then
      [x] + s
    else
      assert s == [s[0]] + s[1..];
      var rest := Insert(x, s[1..]);
      var r := [s[0]] + rest;
      assert forall y | y in rest :: y.percent <= s[0].percent by {
        forall y | y in rest ensures y.percent <= s[0].percent {
          assert y == x || y in s[1..];
        }
      }
      ConsSorted(s[0], rest);
      r
  }

  /** Inserting adds exactly the new row and loses none. */
  lemma {:induction false} InsertAddsOne(x: Share, s: seq<Share>)
    requires SortedByShare(s)
    ensures multiset(Insert(x, s)) == multiset(s) + multiset{x}
  {
    if s != [] && x.percent < s[0].percent {
      assert s == [s[0]] + s[1..];
      InsertAddsOne(x, s[1..]);
      assert Insert(x, s) == [s[0]] + Insert(x, s[1..]);
    }
  }

  /** `sort_values(by='Part (%)', ascending=False)`: the rows in order of
      non-increasing share, none added or lost. Which of several rows with an
      equal share comes first is not specified. */
  function SortByShare(s: seq<Share>): (r: seq<Share>)
    ensures SortedByShare(r)
    ensures multiset(r) == multiset(s)
  {
    if s == [] then []
    else
      assert s == [s[0]] + s[1..];
      InsertAddsOne(s[0], SortByShare(s[1..]));
      Insert(s[0], SortByShare(s[1..]))
  }

  /** A row of the displayed table: 'Classement', 'Nom', 'Total Individuel', 'Part (%)'. */
  datatype Ranked = Ranked(rank: nat, name: Cell, amount: real, percent: real)

  /** Numbers the rows consecutively from `first`. */
  function RankFrom(s: seq<Share>, first: nat): (r: seq<Ranked>)
    ensures |r| == |s|
    ensures forall i :: 0 <= i < |s| ==> r[i] == Ranked(first + i, s[i].name, s[i].amount, s[i].percent)
  {
    if s == [] then []
    else [Ranked(first, s[0].name, s[0].amount, s[0].percent)] + RankFrom(s[1..], first + 1)
  }

  /** The 'Classement' column: index + 1 after resetting the index. */
  function Rank(s: seq<Share>): seq<Ranked> {
    RankFrom(s, 1)
  }

  /** Inserting adds the new row's share to the sum of shares, and keeps the
      names pairwise different when the new name is new. */
  lemma {:induction false} InsertKeepsNamesAndSum(x: Share, s: seq<Share>)
    requires SortedByShare(s)
    ensures PercentSum(Insert(x, s)) == x.percent + PercentSum(s)
    ensures NamesDistinct(s) && (forall y :: y in s ==> y.name != x.name) ==> NamesDistinct(Insert(x, s))
  {
    var r := Insert(x, s);
    if s == [] || x.percent >= s[0].percent {
      assert r[1..] == s;
    } else {
      InsertKeepsNamesAndSum(x, s[1..]);
      var rest := Insert(x, s[1..]);
      assert r[1..] == rest;
      if NamesDistinct(s) && (forall y :: y in s ==> y.name != x.name) {
        forall y | y in s[1..] ensures y.name != x.name {
          assert y in s;
        }
        forall i, j | 0 <= i < j < |r| ensures r[i].name != r[j].name {
          if i == 0 {
            assert r[j] in rest;
            if r[j] != x {
              var k :| 0 <= k < |s[1..]| && s[1..][k] == r[j];
              assert s[0].name != s[k + 1].name;
            }
          } else {
            assert r[i] == rest[i - 1] && r[j] == rest[j - 1];
          }
        }
      }
    }
  }

  /** Sorting keeps the sum of shares and keeps names pairwise different. */
  lemma {:induction false} SortKeepsNamesAndSum(s: seq<Share>)
    ensures PercentSum(SortByShare(s)) == PercentSum(s)
    ensures NamesDistinct(s) ==> NamesDistinct(SortByShare(s))
  {
    if s != [] {
      var tail := SortByShare(s[1..]);
      SortKeepsNamesAndSum(s[1..]);
      InsertKeepsNamesAndSum(s[0], tail);
      if NamesDistinct(s) {
        assert NamesDistinct(s[1..]) by {
          forall i, j | 0 <= i < j < |s[1..]| ensures s[1..][i].name != s[1..][j].name {
            assert s[1..][i] == s[i + 1] && s[1..][j] == s[j + 1];
          }
        }
        forall y | y in tail ensures y.name != s[0].name {
          assert y in multiset(s[1..]);
          var k :| 0 <= k < |s[1..]| && s[1..][k] == y;
          assert s[0].name != s[k + 1].name;
        }
      }
    }
  }

  /** The sum of the 'Part (%)' column of the displayed table. */
  function TablePercentSum(t: seq<Ranked>): real {
    if t == [] then 0.0 else t[0].percent + TablePercentSum(t[1..])
  }

  lemma {:induction false} RankKeepsPercentSum(s: seq<Share>, first: nat)
    ensures TablePercentSum(RankFrom(s, first)) == PercentSum(s)
  {
    if s != [] {
      assert RankFrom(s, first)[1..] == RankFrom(s[1..], first + 1);
      RankKeepsPercentSum(s[1..], first + 1);
    }
  }

  /** The ranked table of a share table is ordered by non-increasing share
      and ranked 1, 2, ..., N down the table, so a better rank never has a
      smaller share. */
  lemma RankedOrder(s: seq<Share>)
    ensures var t := Rank(SortByShare(s));
      && |t| == |s|
      && (forall i :: 0 <= i < |t| ==> t[i].rank == i + 1)
      && (forall i, j :: 0 <= i < j < |t| ==> t[i].percent >= t[j].percent)
      && (forall i, j :: 0 <= i < |t| && 0 <= j < |t| && t[i].rank < t[j].rank ==> t[i].percent >= t[j].percent)
  {
    var sorted := SortByShare(s);
    assert |multiset(sorted)| == |multiset(s)|;
  }

  /** The ranked table holds exactly the rows of the share table: sorting
      adds and loses none. */
  lemma RankedRows(s: seq<Share>)
    ensures var t := Rank(SortByShare(s));
      && (forall i :: 0 <= i < |t| ==> Share(t[i].name, t[i].amount, t[i].percent) in s)
      && (forall x :: x in s ==> exists i :: 0 <= i < |t| && Share(t[i].name, t[i].amount, t[i].percent) == x)
  {
    var sorted := SortByShare(s);
    var t := Rank(sorted);
    forall i | 0 <= i < |t| ensures Share(t[i].name, t[i].amount, t[i].percent) in s {
      assert Share(t[i].name, t[i].amount, t[i].percent) == sorted[i];
      assert sorted[i] in multiset(s);
    }
    forall x | x in s ensures exists i :: 0 <= i < |t| && Share(t[i].name, t[i].amount, t[i].percent) == x {
      assert x in multiset(sorted);
      var i :| 0 <= i < |sorted| && sorted[i] == x;
      assert Share(t[i].name, t[i].amount, t[i].percent) == x;
    }
  }

  /** The ranked table has the same sum of shares as the share table and,
      when the shares' names are pairwise different, so are the table's. */
  lemma RankedNamesAndSum(s: seq<Share>)
    ensures var t := Rank(SortByShare(s));
      && TablePercentSum(t) == PercentSum(s)
      && (NamesDistinct(s) ==> forall i, j :: 0 <= i < j < |t| ==> t[i].name != t[j].name)
  {
    var sorted := SortByShare(s);
    var t := Rank(sorted);
    SortKeepsNamesAndSum(s);
    RankKeepsPercentSum(sorted, 1);
    if NamesDistinct(s) {
      forall i, j | 0 <= i < j < |t| ensures t[i].name != t[j].name {
        assert t[i].name == sorted[i].name && t[j].name == sorted[j].name;
      }
    }
  }
}
