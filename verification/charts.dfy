/** The flexible charts page: given a table, a role mapping and the widget
    values, derive the value series, filter the rows by date range and
    category, re-align the value series to the surviving rows, and build the
    three value charts (revenue over time, top products, category share).
 */
module Charts {
  import opened Cells
  import opened Frames
  import opened Groups
  import opened Roles

  /** The "no category filter" entry of the category selectbox. */
  const AllCategories: Cell := Text("(todas)")

  /** A numeric series aligned with some rows; None entries are NaN. */
  type Series = seq<Option<real>>

  /** The total-value role names an existing column. */
  predicate TotalMapped(t: Table, m: Mapping)
  {
    m.total != NoColumn && m.total in t.columns
  }

  /** Both the price and the quantity roles name existing columns. */
  predicate ProductMapped(t: Table, m: Mapping)
  {
    m.price != NoColumn && m.quantity != NoColumn && m.price in t.columns && m.quantity in t.columns
  }

  /** Where the value of a row comes from. */
  datatype ValueSource = FromTotal(total: string) | FromProduct(price: string, quantity: string)

  /** The precedence rule: an existing total column wins over price times
      quantity; with neither there is no value series. */
  function Source(t: Table, m: Mapping): Option<ValueSource>
  {
    if TotalMapped(t, m) then Some(FromTotal(m.total))
    else if ProductMapped(t, m) then Some(FromProduct(m.price, m.quantity))
    else None
  }

  /** The value of one row: the coerced total, or the product of the coerced
      price and quantity with missing operands filled with 0. */
  function RowValue(p: Parsers, s: ValueSource, row: Row): Option<real>
  {
    match s
    case FromTotal(c) => ToNumeric(p, At(row, c))
    case FromProduct(pc, qc) => Some(OrZero(ToNumeric(p, At(row, pc))) * OrZero(ToNumeric(p, At(row, qc))))
  }

  /** `valor_series`: derived row by row over the whole, unfiltered table. */
  function DeriveValue(t: Table, m: Mapping, p: Parsers): (r: Option<Series>)
    ensures r.Some? <==> TotalMapped(t, m) || ProductMapped(t, m)
    ensures r.Some? ==> |r.value| == |t.rows|
    ensures TotalMapped(t, m) ==> r == Some(NumericColumn(p, t.rows, m.total))
    ensures !TotalMapped(t, m) && ProductMapped(t, m) ==>
              forall i :: 0 <= i < |t.rows| ==>
                && r.value[i].Some?
                && r.value[i].value == OrZero(ToNumeric(p, At(t.rows[i], m.price)))
                                       * OrZero(ToNumeric(p, At(t.rows[i], m.quantity)))
  {
    var s := Source(t, m);
    if s.None? then None
    else
      var vs := MapSeq(t.rows, (row: Row) => RowValue(p, s.value, row));
      assert forall i :: 0 <= i < |t.rows| ==> vs[i] == RowValue(p, s.value, t.rows[i]);
      assert TotalMapped(t, m) ==> vs == NumericColumn(p, t.rows, m.total);
      if !TotalMapped(t, m) then
        var pc, qc := m.price, m.quantity;
        assert s.value == FromProduct(pc, qc);
        ProductValues(p, pc, qc, t.rows);
        Some(vs)
      else
        Some(vs)
  }

  /** The price times quantity value of every row. */
  lemma ProductValues(p: Parsers, pc: string, qc: string, rows: seq<Row>)
    ensures forall i :: 0 <= i < |rows| ==>
              && RowValue(p, FromProduct(pc, qc), rows[i]).Some?
              && RowValue(p, FromProduct(pc, qc), rows[i]).value
                 == OrZero(ToNumeric(p, At(rows[i], pc))) * OrZero(ToNumeric(p, At(rows[i], qc)))
  {
  }

  /** Precedence law: once the total role names an existing column, the
      price and quantity roles have no influence on the value series, and a
      total cell that cannot be read stays missing. */
  lemma TotalWins(t: Table, m: Mapping, p: Parsers, price: string, quantity: string)
    requires TotalMapped(t, m)
    ensures DeriveValue(t, m.(price := price, quantity := quantity), p) == DeriveValue(t, m, p)
    ensures forall i :: 0 <= i < |t.rows| ==>
              (DeriveValue(t, m, p).value[i].None? <==> ToNumeric(p, At(t.rows[i], m.total)).None?)
  {
  }

  /** The price times quantity series has no missing entry; with neither
      branch available there is no series at all. */
  lemma ProductHasNoGaps(t: Table, m: Mapping, p: Parsers)
    ensures !TotalMapped(t, m) && ProductMapped(t, m) ==>
              forall i :: 0 <= i < |t.rows| ==> DeriveValue(t, m, p).value[i].Some?
    ensures !TotalMapped(t, m) && !ProductMapped(t, m) ==> DeriveValue(t, m, p).None?
  {
  }

  /** The parsed date column, or no dates when the date role is unmapped. */
  function Dates(t: Table, m: Mapping, p: Parsers): (ds: seq<Option<int>>)
    ensures |ds| == |t.rows|
  {
    if m.date != NoColumn then DateColumn(p, t.rows, m.date)
    else seq(|t.rows|, i => None)
  }

  /** `df[col_data] = pd.to_datetime(df[col_data], errors="coerce")`: with a
      mapped date role, the date column is overwritten in place by its
      timestamps (NaT where unreadable) before anything else reads it. Every
      role naming that column therefore sees timestamps. */
  function CoerceDates(t: Table, m: Mapping, p: Parsers): (u: Table)
    ensures u.columns == t.columns && |u.rows| == |t.rows|
    ensures m.date == NoColumn ==> u == t
    ensures m.date != NoColumn ==>
              forall i :: 0 <= i < |t.rows| ==> At(u.rows[i], m.date) == DateCell(p, At(t.rows[i], m.date))
    ensures forall i, c :: 0 <= i < |t.rows| && c != m.date ==> At(u.rows[i], c) == At(t.rows[i], c)
  {
    if m.date == NoColumn then t
    else Table(t.columns, MapSeq(t.rows, (row: Row) => row[m.date := DateCell(p, At(row, m.date))]))
  }

  /** Coercion keeps the dates: the coerced column parses to the same
      timestamps, and coercing twice is coercing once. */
  lemma CoercedDates(t: Table, m: Mapping, p: Parsers)
    ensures Dates(CoerceDates(t, m, p), m, p) == Dates(t, m, p)
    ensures CoerceDates(CoerceDates(t, m, p), m, p) == CoerceDates(t, m, p)
  {
    var u := CoerceDates(t, m, p);
    if m.date != NoColumn {
      forall i | 0 <= i < |t.rows|
        ensures Dates(u, m, p)[i] == Dates(t, m, p)[i]
        ensures u.rows[i][m.date := DateCell(p, At(u.rows[i], m.date))] == u.rows[i]
      {
        DateCellIdempotent(p, At(t.rows[i], m.date));
        assert m.date in u.rows[i];
      }
    }
  }

  /** After coercion the date column holds a timestamp exactly where the
      date parses, and NaT elsewhere; so a category or product role naming
      it compares and groups timestamps, merging spellings of one instant
      and dropping the unreadable ones. */
  lemma DateRoleCells(t: Table, m: Mapping, p: Parsers)
    requires m.date != NoColumn
    ensures var u, ds := CoerceDates(t, m, p), Dates(t, m, p);
            forall i :: 0 <= i < |t.rows| ==>
              At(u.rows[i], m.date) == (if ds[i].Some? then Stamp(ds[i].value) else Missing)
  {
  }

  /** A total role naming the date column reads the coerced timestamps as
      numbers (nanoseconds), NaT as missing, never the raw text. */
  lemma DateAsTotal(t: Table, m: Mapping, p: Parsers)
    requires m.date != NoColumn && m.total == m.date && m.total in t.columns
    ensures var r, ds := DeriveValue(CoerceDates(t, m, p), m, p), Dates(t, m, p);
            && r.Some?
            && forall i :: 0 <= i < |t.rows| ==>
                 r.value[i] == (if ds[i].Some? then Some(ds[i].value as real) else None)
  {
    var u := CoerceDates(t, m, p);
    DateRoleCells(t, m, p);
    assert TotalMapped(u, m);
  }

  /** The date filter runs only with a mapped date role and a valid date. */
  predicate DateFilterActive(t: Table, m: Mapping, p: Parsers)
  {
    m.date != NoColumn && AnyPresent(Dates(t, m, p))
  }

  /** The category filter runs with a mapped category role and a selection
      other than "(todas)". */
  predicate CategoryFilterActive(m: Mapping, sel: Cell)
  {
    m.category != NoColumn && sel != AllCategories
  }

  /** The rows of `idx` whose date lies in [d1, d2]; NaT fails both bounds. */
  function DateStep(idx: seq<nat>, ds: seq<Option<int>>, d1: int, d2: int): (r: seq<nat>)
    ensures forall i :: i in r <==> i in idx && i < |ds| && InRange(ds[i], d1, d2)
  {
    Keep(idx, (i: nat) => i < |ds| && InRange(ds[i], d1, d2))
  }

  /** The rows of `idx` whose cell in `col` equals `sel`. */
  function CategoryStep(idx: seq<nat>, rows: seq<Row>, col: string, sel: Cell): (r: seq<nat>)
    ensures forall i :: i in r <==> i in idx && i < |rows| && CellEq(At(rows[i], col), sel)
  {
    Keep(idx, (i: nat) => i < |rows| && CellEq(At(rows[i], col), sel))
  }

  /** `df_f.index` after both filters: exactly the rows in the date range (when
      that filter runs) whose category equals the selection (when that filter
      runs), in table order. */
  function FilterIndex(t: Table, m: Mapping, p: Parsers, d1: int, d2: int, sel: Cell): (idx: seq<nat>)
    ensures Increasing(idx) && Within(idx, |t.rows|)
    ensures forall i: nat :: i in idx <==>
              && i < |t.rows|
              && (DateFilterActive(t, m, p) ==> InRange(Dates(t, m, p)[i], d1, d2))
              && (CategoryFilterActive(m, sel) ==> CellEq(At(t.rows[i], m.category), sel))
  {
    var n := |t.rows|;
    var all := AllRows(n);
    AllRowsMember(n);
    var afterDate := if DateFilterActive(t, m, p) then DateStep(all, Dates(t, m, p), d1, d2) else all;
    KeepIncreasing(all, (i: nat) => i < |Dates(t, m, p)| && InRange(Dates(t, m, p)[i], d1, d2), n);
    var afterCategory := if CategoryFilterActive(m, sel) then CategoryStep(afterDate, t.rows, m.category, sel) else afterDate;
    KeepIncreasing(afterDate, (i: nat) => i < |t.rows| && CellEq(At(t.rows[i], m.category), sel), n);
    afterCategory
  }

  /** With no active filter the frame is the whole table. */
  lemma NoFilterKeepsAll(t: Table, m: Mapping, p: Parsers, d1: int, d2: int, sel: Cell)
    requires !DateFilterActive(t, m, p) && !CategoryFilterActive(m, sel)
    ensures FilterIndex(t, m, p, d1, d2, sel) == AllRows(|t.rows|)
  {
  }

  /** A "(todas)" selection leaves the table as the date filter left it. */
  lemma AllCategoriesIsNoop(t: Table, m: Mapping, p: Parsers, d1: int, d2: int)
    ensures forall i: nat :: i in FilterIndex(t, m, p, d1, d2, AllCategories) <==>
              i < |t.rows| && (DateFilterActive(t, m, p) ==> InRange(Dates(t, m, p)[i], d1, d2))
  {
  }

  /** The default widget range is `(dmin.date(), dmax.date())`, read back as
      midnights. With it, the date filter keeps exactly the rows with a valid
      date no later than midnight of the latest day: rows of that last day
      after 00:00 are dropped along with the undated ones. */
  lemma DefaultRangeKeeps(t: Table, m: Mapping, p: Parsers)
    requires DateFilterActive(t, m, p)
    ensures var ds := Dates(t, m, p);
            var r := DefaultRange(ds);
            forall i: nat :: i in FilterIndex(t, m, p, r.0, r.1, AllCategories) <==>
              i < |t.rows| && ds[i].Some? && ds[i].value <= Midnight(MaxPresent(ds))
  {
    var ds := Dates(t, m, p);
    var lo := MinPresent(ds);
    assert Midnight(lo) <= lo;
  }

  /** When every valid date is a whole day, the default range drops exactly
      the rows without a valid date. */
  lemma DefaultRangeDropsOnlyMissing(t: Table, m: Mapping, p: Parsers)
    requires DateFilterActive(t, m, p)
    requires forall i :: 0 <= i < |t.rows| && Dates(t, m, p)[i].Some? ==> Dates(t, m, p)[i].value % NanosPerDay == 0
    ensures var r := DefaultRange(Dates(t, m, p));
            forall i: nat :: i in FilterIndex(t, m, p, r.0, r.1, AllCategories) <==>
              i < |t.rows| && Dates(t, m, p)[i].Some?
  {
    var ds := Dates(t, m, p);
    var hi := MaxPresent(ds);
    var k :| 0 <= k < |ds| && ds[k] == Some(hi);
    WholeDay(hi);
    DefaultRangeKeeps(t, m, p);
  }

  /** A whole-day timestamp is its own midnight. */
  lemma WholeDay(ns: int)
    requires ns % NanosPerDay == 0
    ensures Midnight(ns) == ns
  {
    assert ns == (ns / NanosPerDay) * NanosPerDay + ns % NanosPerDay;
  }

  /** The table of the example below: one date column, two sales, at 10:00
      on the first day after the epoch and at 15:00 on the second. */
  function LateSaleTable(): Table
  {
    Table(["data"], [map["data" := Stamp(36_000_000_000_000)], map["data" := Stamp(140_400_000_000_000)]])
  }

  function DateOnly(): Mapping
  {
    Mapping("data", NoColumn, NoColumn, NoColumn, NoColumn, NoColumn, NoColumn)
  }

  lemma LateSaleDates(p: Parsers)
    ensures Dates(LateSaleTable(), DateOnly(), p) == [Some(36_000_000_000_000), Some(140_400_000_000_000)]
  {
    var t := LateSaleTable();
    assert At(t.rows[0], "data") == Stamp(36_000_000_000_000);
    assert At(t.rows[1], "data") == Stamp(140_400_000_000_000);
  }

  /** With the default range the second sale is filtered out. */
  lemma LateSaleDropped(p: Parsers)
    ensures var ds := Dates(LateSaleTable(), DateOnly(), p);
            && ds[1] == Some(140_400_000_000_000)
            && var r := DefaultRange(ds);
               && r == (0, NanosPerDay)
               && FilterIndex(LateSaleTable(), DateOnly(), p, r.0, r.1, AllCategories) == [0]
  {
    var t, m := LateSaleTable(), DateOnly();
    var ds := Dates(t, m, p);
    LateSaleDates(p);
    assert ds[1].Some?;
    assert MaxPresent(ds) == 140_400_000_000_000;
    assert MinPresent(ds) == 36_000_000_000_000;
    assert Midnight(140_400_000_000_000) == NanosPerDay;
    assert Midnight(36_000_000_000_000) == 0;
    DefaultRangeKeeps(t, m, p);
    var idx := FilterIndex(t, m, p, 0, NanosPerDay, AllCategories);
    assert 0 in idx && 1 !in idx;
    OnlyFirst(idx);
  }

  /** Idempotence: filtering the filtered rows again with the same date
      range and category selection keeps every one of them. */
  lemma FilterIdempotent(t: Table, m: Mapping, p: Parsers, d1: int, d2: int, sel: Cell)
    ensures var idx := FilterIndex(t, m, p, d1, d2, sel);
            && (DateFilterActive(t, m, p) ==> DateStep(idx, Dates(t, m, p), d1, d2) == idx)
            && (CategoryFilterActive(m, sel) ==> CategoryStep(idx, t.rows, m.category, sel) == idx)
  {
    var idx := FilterIndex(t, m, p, d1, d2, sel);
    var ds := Dates(t, m, p);
    if DateFilterActive(t, m, p) {
      KeepAll(idx, (i: nat) => i < |ds| && InRange(ds[i], d1, d2));
    }
    if CategoryFilterActive(m, sel) {
      KeepAll(idx, (i: nat) => i < |t.rows| && CellEq(At(t.rows[i], m.category), sel));
    }
  }

  /** `valor_f`: the pre-filter series looked up at the surviving row
      positions, never recomputed; absent exactly when the series is. */
  function Realign(vs: Option<Series>, idx: seq<nat>): (r: Option<Series>)
    requires vs.Some? ==> Within(idx, |vs.value|)
    ensures r.None? <==> vs.None?
    ensures r.Some? ==> |r.value| == |idx|
    ensures r.Some? ==> forall k :: 0 <= k < |idx| ==> r.value[k] == vs.value[idx[k]]
  {
    if vs.None? then None else Some(Select(vs.value, idx))
  }

  /** Alignment invariant: the k-th surviving row is paired with the value
      derived from that same row, so re-alignment agrees with deriving the
      series afresh on the filtered table. */
  lemma RealignMatchesFilteredTable(t: Table, m: Mapping, p: Parsers, idx: seq<nat>)
    requires Within(idx, |t.rows|)
    ensures Realign(DeriveValue(t, m, p), idx) == DeriveValue(Table(t.columns, Select(t.rows, idx)), m, p)
  {
    var s := Source(t, m);
    if s.Some? {
      var u := Table(t.columns, Select(t.rows, idx));
      assert Source(u, m) == s;
      SelectMap(t.rows, (row: Row) => RowValue(p, s.value, row), idx);
    }
  }

  /** Coercing a column commutes with selecting rows: coercion is row by row. */
  lemma NumericColumnSelect(p: Parsers, rows: seq<Row>, c: string, idx: seq<nat>)
    requires Within(idx, |rows|)
    ensures NumericColumn(p, Select(rows, idx), c) == Select(NumericColumn(p, rows, c), idx)
  {
  }

  /** One (date, value) entry per surviving row. */
  function DateEntries(ds: seq<Option<int>>, idx: seq<nat>, vf: Series): (es: seq<Entry<int>>)
    requires Within(idx, |ds|) && |vf| == |idx|
    ensures |es| == |idx|
    ensures forall k :: 0 <= k < |idx| ==> es[k] == Entry(ds[idx[k]], vf[k])
  {
    seq(|idx|, k requires 0 <= k < |idx| => Entry(ds[idx[k]], vf[k]))
  }

  /** One (cell of `col`, value) entry per surviving row. */
  function CellEntries(rows: seq<Row>, col: string, idx: seq<nat>, vf: Series): (es: seq<Entry<Cell>>)
    requires Within(idx, |rows|) && |vf| == |idx|
    ensures |es| == |idx|
    ensures forall k :: 0 <= k < |idx| ==> es[k] == Entry(KeyOf(At(rows[idx[k]], col)), vf[k])
  {
    seq(|idx|, k requires 0 <= k < |idx| => Entry(KeyOf(At(rows[idx[k]], col)), vf[k]))
  }

  /** `ts`: revenue per date over the surviving rows with a date and a value;
      drawn only with a date role and a value series. */
  function RevenueOverTime(t: Table, m: Mapping, p: Parsers, idx: seq<nat>, vf: Option<Series>): (r: Option<seq<Group<int>>>)
    requires Within(idx, |t.rows|) && (vf.Some? ==> |vf.value| == |idx|)
    ensures r.Some? <==> m.date != NoColumn && vf.Some?
    ensures r.Some? ==> DistinctKeys(r.value)
    ensures r.Some? ==> GroupKeys(r.value) == CompleteKeys(DateEntries(Dates(t, m, p), idx, vf.value))
    ensures r.Some? ==> forall k :: Lookup(r.value, k) == KeySum(DateEntries(Dates(t, m, p), idx, vf.value), k)
  {
    if m.date != NoColumn && vf.Some? then
      var es := DateEntries(Dates(t, m, p), idx, vf.value);
      PresentKeysDrop(es);
      forall k
        ensures KeySum(DropIncomplete(es), k) == KeySum(es, k)
      {
        KeySumDrop(es, k);
      }
      Some(GroupSum(DropIncomplete(es)))
    else None
  }

  /** `top_prod`: at most five products, largest revenue first, none left
      out with more revenue than one shown. */
  function TopProducts(t: Table, m: Mapping, idx: seq<nat>, vf: Option<Series>): (r: Option<seq<Group<Cell>>>)
    requires Within(idx, |t.rows|) && (vf.Some? ==> |vf.value| == |idx|)
    ensures r.Some? <==> m.product != NoColumn && vf.Some?
    ensures r.Some? ==> |r.value| <= 5 && SortedDesc(r.value)
    ensures r.Some? ==>
              var all := GroupSum(DropIncomplete(CellEntries(t.rows, m.product, idx, vf.value)));
              && multiset(r.value) <= multiset(all)
              && |r.value| == (if |all| < 5 then |all| else 5)
              && forall x, y :: x in r.value && y in multiset(all) - multiset(r.value) ==> y.total <= x.total
  {
    if m.product != NoColumn && vf.Some? then
      Some(TopN(GroupSum(DropIncomplete(CellEntries(t.rows, m.product, idx, vf.value))), 5))
    else None
  }

  /** `cat`: every category group, largest revenue first. */
  function CategoryShare(t: Table, m: Mapping, idx: seq<nat>, vf: Option<Series>): (r: Option<seq<Group<Cell>>>)
    requires Within(idx, |t.rows|) && (vf.Some? ==> |vf.value| == |idx|)
    ensures r.Some? <==> m.category != NoColumn && vf.Some?
    ensures r.Some? ==> SortedDesc(r.value)
    ensures r.Some? ==> multiset(r.value) == multiset(GroupSum(DropIncomplete(CellEntries(t.rows, m.category, idx, vf.value))))
  {
    if m.category != NoColumn && vf.Some? then
      Some(SortDesc(GroupSum(DropIncomplete(CellEntries(t.rows, m.category, idx, vf.value)))))
    else None
  }

  /** The whole page: filtered index, aligned values and the three charts. */
  datatype Page = Page(
    index: seq<nat>,
    values: Option<Series>,
    overTime: Option<seq<Group<int>>>,
    topProducts: Option<seq<Group<Cell>>>,
    categoryShare: Option<seq<Group<Cell>>>)

  /** The page reads every role from the table after the date coercion. */
  function Render(t: Table, m: Mapping, p: Parsers, d1: int, d2: int, sel: Cell): (pg: Page)
    ensures var u := CoerceDates(t, m, p);
            && pg.index == FilterIndex(u, m, p, d1, d2, sel)
            && Within(pg.index, |t.rows|)
            && pg.values == Realign(DeriveValue(u, m, p), pg.index)
            && pg.overTime == RevenueOverTime(u, m, p, pg.index, pg.values)
            && pg.topProducts == TopProducts(u, m, pg.index, pg.values)
            && pg.categoryShare == CategoryShare(u, m, pg.index, pg.values)
    ensures pg.values.None? <==> !TotalMapped(t, m) && !ProductMapped(t, m)
  {
    var u := CoerceDates(t, m, p);
    var idx := FilterIndex(u, m, p, d1, d2, sel);
    var vf := Realign(DeriveValue(u, m, p), idx);
    Page(idx, vf,
      RevenueOverTime(u, m, p, idx, vf),
      TopProducts(u, m, idx, vf),
      CategoryShare(u, m, idx, vf))
  }

  /** Every group of a chart is a key of some surviving row with a value,
      holding the sum of the aligned values of exactly those rows. */
  lemma ChartGroupsAreSums<K(!new)>(es: seq<Entry<K>>)
    ensures forall g :: g in GroupSum(DropIncomplete(es)) ==>
              g.key in PresentKeys(DropIncomplete(es)) && g.total == KeySum(DropIncomplete(es), g.key)
  {
    GroupSumTotals(DropIncomplete(es));
  }
}
