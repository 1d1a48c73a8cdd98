/** The cleaning stage of budget_streamlit.py:30-35: drop rows without a
    name, drop summary and legend rows, keep the two columns, coerce the
    amounts to numbers and drop the rows whose amount is not a number. */
module Cleaning {
  import opened Wrappers
  import opened Seqs
  import opened CaseFold
  import opened Sheets

  /** The two conversions the data-frame library performs and that are not
      part of this model: reading text as a number (`pd.to_numeric` with
      coercion, `None` where it yields NaN) and rendering a number as text
      (`astype(str)`). */
  datatype Conversions = Conversions(parseNumber: string -> Option<real>, showNumber: real -> string)

  /** A name cell as text, as the marker filter sees it. */
  function NameText(conv: Conversions, c: Cell): string {
    match c
    case Missing => "nan"
    case Text(s) => s
    case Number(x) => conv.showNumber(x)
  }

  /** The numeric coercion of an amount cell: numbers stay, text is parsed,
      an empty cell has no value. */
  function Coerce(conv: Conversions, c: Cell): Option<real> {
    match c
    case Missing => None
    case Text(s) => conv.parseNumber(s)
    case Number(x) => Some(x)
  }

  predicate HasName(r: Record) {
    !CellOf(r, NameColumn).Missing?
  }

  predicate IsMarkerRow(conv: Conversions, r: Record) {
    IsMarker(NameText(conv, CellOf(r, NameColumn)))
  }

  /** The row mask of the marker filter. */
  function Unmarked(conv: Conversions): Record -> bool {
    r => !IsMarkerRow(conv, r)
  }

  /** Rows with an empty name cell are dropped; the others stay, in order. */
  function DropMissingNames(rows: seq<Record>): seq<Record> {
    Filter(HasName, rows)
  }

  /** Rows whose name contains "Total" or "Code couleur", in any case, are
      dropped; the others stay, in order. */
  function DropMarkerRows(conv: Conversions, rows: seq<Record>): seq<Record> {
    Filter(Unmarked(conv), rows)
  }

  /** A row reduced to the two columns the report uses ('Nom', 'Total Individuel'). */
  datatype Entry = Entry(name: Cell, amount: Cell)

  function Project(rows: seq<Record>): seq<Entry> {
    seq(|rows|, i requires 0 <= i < |rows| => Entry(CellOf(rows[i], NameColumn), CellOf(rows[i], AmountColumn)))
  }

  /** A projected row after numeric coercion of its amount. */
  datatype Coerced = Coerced(name: Cell, amount: Option<real>)

  function CoerceAmounts(conv: Conversions, entries: seq<Entry>): seq<Coerced> {
    seq(|entries|, i requires 0 <= i < |entries| => Coerced(entries[i].name, Coerce(conv, entries[i].amount)))
  }

  /** A row of the cleaned table, and also of the grouped table, which has
      the same two columns: a name and a number. */
  datatype Contribution = Contribution(name: Cell, amount: real)

  /** Rows whose amount did not coerce are dropped, without any error. */
  function DropUnparsed(coerced: seq<Coerced>): seq<Contribution> {
    if coerced == [] then []
    else
      match coerced[0].amount
      case None => DropUnparsed(coerced[1..])
      case Some(a) => [Contribution(coerced[0].name, a)] + DropUnparsed(coerced[1..])
  }

  /** Every row with a name stays, as often as it occurs; every row without
      one goes. */
  lemma DropMissingNamesKeeps(rows: seq<Record>)
    ensures forall r :: multiset(DropMissingNames(rows))[r] == if CellOf(r, NameColumn).Missing? then 0 else multiset(rows)[r]
  {
    FilterKeeps(HasName, rows);
  }

  /** Every row whose name is not a marker stays, as often as it occurs;
      every marker row goes. */
  lemma DropMarkerRowsKeeps(conv: Conversions, rows: seq<Record>)
    ensures forall r :: multiset(DropMarkerRows(conv, rows))[r]
                     == if IsMarker(NameText(conv, CellOf(r, NameColumn))) then 0 else multiset(rows)[r]
  {
    FilterKeeps(Unmarked(conv), rows);
  }

  /** The rows left are exactly those whose amount coerced, with that value,
      each as often as it occurs; the others go without any error being
      raised. */
  lemma {:induction false} DropUnparsedKeeps(coerced: seq<Coerced>)
    ensures |DropUnparsed(coerced)| <= |coerced|
    ensures forall c :: c in DropUnparsed(coerced) <==> Coerced(c.name, Some(c.amount)) in coerced
    ensures forall c :: multiset(DropUnparsed(coerced))[c] == multiset(coerced)[Coerced(c.name, Some(c.amount))]
  {
    if coerced != [] {
      assert coerced == [coerced[0]] + coerced[1..];
      DropUnparsedKeeps(coerced[1..]);
      var head, rest := coerced[0], DropUnparsed(coerced[1..]);
      forall c ensures multiset(DropUnparsed(coerced))[c] == multiset(coerced)[Coerced(c.name, Some(c.amount))] {
        assert multiset(coerced) == multiset{head} + multiset(coerced[1..]);
        if head.amount.Some? {
          assert DropUnparsed(coerced) == [Contribution(head.name, head.amount.value)] + rest;
        }
      }
    }
  }

  /** The whole cleaning stage, step by step as the script performs it. */
  function Clean(conv: Conversions, rows: seq<Record>): seq<Contribution> {
    DropUnparsed(CoerceAmounts(conv, Project(DropMarkerRows(conv, DropMissingNames(rows)))))
  }

  /** Reference for the cleaning stage, one row at a time: what a single
      spreadsheet row contributes to the cleaned table, if anything. */
  function Survivor(conv: Conversions, r: Record): Option<Contribution> {
    var name := CellOf(r, NameColumn);
    if name.Missing? || IsMarker(NameText(conv, name)) then None
    else
      match Coerce(conv, CellOf(r, AmountColumn))
      case None => None
      case Some(a) => Some(Contribution(name, a))
  }

  /** The survivor of one row as a table of zero or one rows. */
  function SurvivorRows(conv: Conversions, r: Record): seq<Contribution> {
    match Survivor(conv, r)
    case None => []
    case Some(c) => [c]
  }

  function Survivors(conv: Conversions, rows: seq<Record>): seq<Contribution> {
    if rows == [] then [] else SurvivorRows(conv, rows[0]) + Survivors(conv, rows[1..])
  }

  lemma {:induction false} DropUnparsedAppend(a: seq<Coerced>, b: seq<Coerced>)
    ensures DropUnparsed(a + b) == DropUnparsed(a) + DropUnparsed(b)
  {
    if a == [] {
      assert a + b == b;
    } else {
      assert a + b == [a[0]] + (a[1..] + b);
      DropUnparsedAppend(a[1..], b);
    }
  }

  lemma ProjectAppend(a: seq<Record>, b: seq<Record>)
    ensures Project(a + b) == Project(a) + Project(b)
  {
  }

  lemma CoerceAmountsAppend(conv: Conversions, a: seq<Entry>, b: seq<Entry>)
    ensures CoerceAmounts(conv, a + b) == CoerceAmounts(conv, a) + CoerceAmounts(conv, b)
  {
  }

  /** Cleaning works row by row: cleaning two blocks of rows one after the
      other gives the cleaned blocks one after the other. */
  lemma CleanAppend(conv: Conversions, a: seq<Record>, b: seq<Record>)
    ensures Clean(conv, a + b) == Clean(conv, a) + Clean(conv, b)
  {
    FilterAppend(HasName, a, b);
    var na, nb := DropMissingNames(a), DropMissingNames(b);
    FilterAppend(Unmarked(conv), na, nb);
    var ma, mb := DropMarkerRows(conv, na), DropMarkerRows(conv, nb);
    ProjectAppend(ma, mb);
    CoerceAmountsAppend(conv, Project(ma), Project(mb));
    DropUnparsedAppend(CoerceAmounts(conv, Project(ma)), CoerceAmounts(conv, Project(mb)));
  }

  /** A single row comes out of the cleaning steps as its survivor. */
  lemma CleanSingle(conv: Conversions, r: Record)
    ensures Clean(conv, [r]) == SurvivorRows(conv, r)
  {
    var named := DropMissingNames([r]);
    assert [r][1..] == [] && [r][0] == r;
    assert Filter(HasName, []) == [];
    assert named == if HasName(r) then [r] else [];
    var unmarked := DropMarkerRows(conv, named);
    assert Filter(Unmarked(conv), []) == [];
    assert Unmarked(conv)(r) == !IsMarkerRow(conv, r);
    assert unmarked == if HasName(r) && !IsMarkerRow(conv, r) then [r] else [];
    if unmarked != [] {
      var coerced := CoerceAmounts(conv, Project(unmarked));
      assert coerced == [Coerced(CellOf(r, NameColumn), Coerce(conv, CellOf(r, AmountColumn)))];
      assert DropUnparsed(coerced[1..]) == [];
    }
  }

  /** The four cleaning steps together keep exactly the rows that survive
      one by one, in their order and with their multiplicity. */
  lemma {:induction false} CleanIsRowwise(conv: Conversions, rows: seq<Record>)
    ensures Clean(conv, rows) == Survivors(conv, rows)
  {
    if rows != [] {
      assert rows == [rows[0]] + rows[1..];
      CleanAppend(conv, [rows[0]], rows[1..]);
      CleanSingle(conv, rows[0]);
      CleanIsRowwise(conv, rows[1..]);
    }
  }

  /** A cleaned row is the survivor of some spreadsheet row, and every
      surviving spreadsheet row is in the cleaned table. */
  lemma {:induction false} CleanedRowOrigin(conv: Conversions, rows: seq<Record>)
    ensures forall c :: c in Clean(conv, rows) <==> exists i :: 0 <= i < |rows| && Survivor(conv, rows[i]) == Some(c)
  {
    CleanIsRowwise(conv, rows);
    SurvivorsOrigin(conv, rows);
  }

  lemma {:induction false} SurvivorsOrigin(conv: Conversions, rows: seq<Record>)
    ensures forall c :: c in Survivors(conv, rows) <==> exists i :: 0 <= i < |rows| && Survivor(conv, rows[i]) == Some(c)
  {
    if rows != [] {
      SurvivorsOrigin(conv, rows[1..]);
      forall c ensures c in Survivors(conv, rows) <==> exists i :: 0 <= i < |rows| && Survivor(conv, rows[i]) == Some(c) {
        if c in Survivors(conv, rows) && c !in Survivors(conv, rows[1..]) {
          assert Survivor(conv, rows[0]) == Some(c);
        }
        if exists i :: 0 <= i < |rows| && Survivor(conv, rows[i]) == Some(c) {
          var i :| 0 <= i < |rows| && Survivor(conv, rows[i]) == Some(c);
          if i > 0 {
            assert rows[1..][i - 1] == rows[i];
          }
        }
      }
    }
  }

  /** No row of the cleaned table has an empty name, or a name that contains
      "Total" or "Code couleur" in any case. */
  lemma CleanedRowsAreNamed(conv: Conversions, rows: seq<Record>)
    ensures forall c :: c in Clean(conv, rows) ==> !c.name.Missing? && !IsMarker(NameText(conv, c.name))
  {
    CleanedRowOrigin(conv, rows);
  }

  /** A row with an empty name, a marker name, or an amount that does not
      coerce to a number leaves the cleaned table exactly as if it were not
      there: it is dropped silently, and nothing else changes. */
  lemma DroppedRowIsIgnored(conv: Conversions, before: seq<Record>, r: Record, after: seq<Record>)
    requires CellOf(r, NameColumn).Missing? || IsMarker(NameText(conv, CellOf(r, NameColumn)))
             || Coerce(conv, CellOf(r, AmountColumn)).None?
    ensures Clean(conv, before + [r] + after) == Clean(conv, before + after)
  {
    CleanAppend(conv, before + [r], after);
    CleanAppend(conv, before, [r]);
    CleanAppend(conv, before, after);
    CleanSingle(conv, r);
  }

  /** A row with a name that is not a marker and an amount that coerces to
      `x` yields exactly one cleaned row, with that name and amount `x`, in
      its place. */
  lemma KeptRowIsKept(conv: Conversions, before: seq<Record>, r: Record, after: seq<Record>, x: real)
    requires !CellOf(r, NameColumn).Missing? && !IsMarker(NameText(conv, CellOf(r, NameColumn)))
    requires Coerce(conv, CellOf(r, AmountColumn)) == Some(x)
    ensures Clean(conv, before + [r] + after)
         == Clean(conv, before) + [Contribution(CellOf(r, NameColumn), x)] + Clean(conv, after)
  {
    CleanAppend(conv, before + [r], after);
    CleanAppend(conv, before, [r]);
    CleanSingle(conv, r);
  }
}
