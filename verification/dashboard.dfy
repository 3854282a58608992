/** The fixed-schema dashboard: the sales file must carry seven named
    columns; revenue, total cost and profit are derived when the file does
    not already have them; rows are filtered by date range and by store and
    type selections; four KPIs and three groupings are computed from the
    filtered rows.
 */
module Dashboard {
  import opened Cells
  import opened Frames
  import opened Groups

  /** The columns the page refuses to run without, in the order reported. */
  const Required: seq<string> :=
    ["Dia", "Loja", "Quantidade", "Tipo", "Marca", "Custo de compra", "Valor de venda"]

  /** `missing`: the required names absent from the header, in required order. */
  function MissingColumns(cols: seq<string>): (r: seq<string>)
    ensures forall c :: c in r <==> c in Required && c !in cols
    ensures Subseq(r, Required)
  {
    Keep(Required, (c: string) => c !in cols)
  }

  /** One prepared sales row: the coerced inputs and the three derived amounts. */
  datatype Sale = Sale(
    dia: Option<int>,
    loja: Cell,
    tipo: Cell,
    quantidade: Option<real>,
    custo: Option<real>,
    venda: Option<real>,
    receita: Option<real>,
    custoTotal: Option<real>,
    lucro: Option<real>)

  /** Coerces the typed columns and derives `Receita`, `Custo Total` and
      `Lucro`, each only when the file lacks a column of that name; a
      missing operand leaves the derived amount missing. */
  function PrepareRow(cols: seq<string>, p: Parsers, row: Row): (r: Sale)
    ensures r.loja == At(row, "Loja") && r.tipo == At(row, "Tipo")
    ensures At(row, "Dia").Missing? ==> r.dia.None?
    ensures At(row, "Dia").Stamp? ==> r.dia == Some(At(row, "Dia").ns)
    ensures At(row, "Quantidade").Number? ==> r.quantidade == Some(At(row, "Quantidade").x)
    ensures At(row, "Custo de compra").Number? ==> r.custo == Some(At(row, "Custo de compra").x)
    ensures At(row, "Valor de venda").Number? ==> r.venda == Some(At(row, "Valor de venda").x)
    ensures !At(row, "Dia").Missing? && !At(row, "Dia").Stamp? ==> r.dia == p.date(At(row, "Dia"))
    ensures At(row, "Quantidade").Missing? ==> r.quantidade.None?
    ensures At(row, "Custo de compra").Missing? ==> r.custo.None?
    ensures At(row, "Valor de venda").Missing? ==> r.venda.None?
    ensures At(row, "Quantidade").Text? ==> r.quantidade == p.number(At(row, "Quantidade").s)
    ensures At(row, "Custo de compra").Text? ==> r.custo == p.number(At(row, "Custo de compra").s)
    ensures At(row, "Valor de venda").Text? ==> r.venda == p.number(At(row, "Valor de venda").s)
    ensures At(row, "Quantidade").Stamp? ==> r.quantidade == Some(At(row, "Quantidade").ns as real)
    ensures At(row, "Custo de compra").Stamp? ==> r.custo == Some(At(row, "Custo de compra").ns as real)
    ensures At(row, "Valor de venda").Stamp? ==> r.venda == Some(At(row, "Valor de venda").ns as real)
    ensures "Receita" in cols ==> r.receita == ToNumeric(p, At(row, "Receita"))
    ensures "Custo Total" in cols ==> r.custoTotal == ToNumeric(p, At(row, "Custo Total"))
    ensures "Lucro" in cols ==> r.lucro == ToNumeric(p, At(row, "Lucro"))
  {
    var quantidade := ToNumeric(p, At(row, "Quantidade"));
    var venda := ToNumeric(p, At(row, "Valor de venda"));
    var custo := ToNumeric(p, At(row, "Custo de compra"));
    var receita := if "Receita" in cols then ToNumeric(p, At(row, "Receita")) else Mul(venda, quantidade);
    var custoTotal := if "Custo Total" in cols then ToNumeric(p, At(row, "Custo Total")) else Mul(custo, quantidade);
    var lucro := if "Lucro" in cols then ToNumeric(p, At(row, "Lucro")) else Sub(receita, custoTotal);
    Sale(ToDatetime(p, At(row, "Dia")), At(row, "Loja"), At(row, "Tipo"),
         quantidade, custo, venda, receita, custoTotal, lucro)
  }

  /** Loads the table: halts with the missing names before any derivation
      when a required column is absent, otherwise prepares every row. */
  function Prepare(t: Table, p: Parsers): (r: Result<seq<Sale>, seq<string>>)
    ensures r.Failure? <==> exists c :: c in Required && c !in t.columns
    ensures r.Failure? ==> r.error == MissingColumns(t.columns) && |r.error| > 0
    ensures r.Success? ==> |r.value| == |t.rows|
    ensures r.Success? ==> forall i :: 0 <= i < |t.rows| ==> r.value[i] == PrepareRow(t.columns, p, t.rows[i])
  {
    var missing := MissingColumns(t.columns);
    MissingIff(t.columns);
    if |missing| > 0 then
      Failure(missing)
    else
      Success(MapSeq(t.rows, (row: Row) => PrepareRow(t.columns, p, row)))
  }

  /** Some required column is absent exactly when the missing list is not empty. */
  lemma MissingIff(cols: seq<string>)
    ensures |MissingColumns(cols)| > 0 <==> exists c :: c in Required && c !in cols
  {
    var missing := MissingColumns(cols);
    if |missing| > 0 {
      assert missing[0] in missing;
    }
  }

  /** Revenue is sale value times quantity when derived, missing as soon as
      either is; a revenue column already in the file is taken as it is,
      whatever the sale value and quantity say. */
  lemma ReceitaRule(cols: seq<string>, p: Parsers, row: Row, other: Row)
    requires At(other, "Receita") == At(row, "Receita")
    ensures var s := PrepareRow(cols, p, row);
            "Receita" !in cols ==>
              && (s.receita.Some? <==> s.venda.Some? && s.quantidade.Some?)
              && (s.receita.Some? ==> s.receita.value == s.venda.value * s.quantidade.value)
    ensures "Receita" in cols ==> PrepareRow(cols, p, other).receita == PrepareRow(cols, p, row).receita
  {
  }

  /** With all three amounts derived and all inputs present, profit is the
      unit margin times the quantity; an unreadable quantity leaves revenue,
      total cost and profit all missing. */
  lemma LucroIsMargin(cols: seq<string>, p: Parsers, row: Row)
    requires "Receita" !in cols && "Custo Total" !in cols && "Lucro" !in cols
    ensures var s := PrepareRow(cols, p, row);
            s.venda.Some? && s.custo.Some? && s.quantidade.Some? ==>
              s.lucro.Some? && s.lucro.value == (s.venda.value - s.custo.value) * s.quantidade.value
    ensures var s := PrepareRow(cols, p, row);
            s.quantidade.None? ==> s.receita.None? && s.custoTotal.None? && s.lucro.None?
  {
    var s := PrepareRow(cols, p, row);
    assert s.receita == Mul(s.venda, s.quantidade);
    assert s.custoTotal == Mul(s.custo, s.quantidade);
    assert s.lucro == Sub(s.receita, s.custoTotal);
    if s.venda.Some? && s.custo.Some? && s.quantidade.Some? {
      var v, c, q := s.venda.value, s.custo.value, s.quantidade.value;
      assert s.receita.value == v * q && s.custoTotal.value == c * q;
      Margin(v, c, q);
      assert s.lucro.Some? && s.lucro.value == (v - c) * q;
    }
  }

  /** Total cost and profit follow the same rule as revenue, each on its
      own: a `Custo Total` or `Lucro` column already in the file is taken as
      read; otherwise total cost is purchase cost times quantity, and profit
      is revenue minus total cost, whichever way revenue and total cost were
      obtained. A missing operand leaves the amount missing. */
  lemma CustoTotalAndLucroRule(cols: seq<string>, p: Parsers, row: Row, other: Row)
    requires At(other, "Custo Total") == At(row, "Custo Total") && At(other, "Lucro") == At(row, "Lucro")
    ensures var s := PrepareRow(cols, p, row);
            "Custo Total" !in cols ==>
              && (s.custoTotal.Some? <==> s.custo.Some? && s.quantidade.Some?)
              && (s.custoTotal.Some? ==> s.custoTotal.value == s.custo.value * s.quantidade.value)
    ensures "Custo Total" in cols ==> PrepareRow(cols, p, other).custoTotal == PrepareRow(cols, p, row).custoTotal
    ensures var s := PrepareRow(cols, p, row);
            "Lucro" !in cols ==>
              && (s.lucro.Some? <==> s.receita.Some? && s.custoTotal.Some?)
              && (s.lucro.Some? ==> s.lucro.value == s.receita.value - s.custoTotal.value)
    ensures "Lucro" in cols ==> PrepareRow(cols, p, other).lucro == PrepareRow(cols, p, row).lucro
  {
  }

  /** Revenue minus cost, both scaled by the quantity. */
  lemma Margin(v: real, c: real, q: real)
    ensures Sub(Mul(Some(v), Some(q)), Mul(Some(c), Some(q))) == Some((v - c) * q)
  {
    var r := Sub(Mul(Some(v), Some(q)), Mul(Some(c), Some(q)));
    assert v * q - c * q == (v - c) * q;
    assert r.Some? && r.value == (v - c) * q;
  }

  /** Some row has a valid `Dia`. */
  predicate AnyDia(sales: seq<Sale>)
  {
    exists i :: 0 <= i < |sales| && sales[i].dia.Some?
  }

  /** The rows of `idx` whose `Dia` lies in [d1, d2]. */
  function DiaStep(sales: seq<Sale>, idx: seq<nat>, d1: int, d2: int): (r: seq<nat>)
    ensures forall i :: i in r <==> i in idx && i < |sales| && InRange(sales[i].dia, d1, d2)
  {
    Keep(idx, (i: nat) => i < |sales| && InRange(sales[i].dia, d1, d2))
  }

  /** `isin` over a multiselect: an empty selection keeps every row, any
      other keeps the rows whose value is selected. */
  function IsinStep(idx: seq<nat>, vals: seq<Cell>, sel: seq<Cell>): (r: seq<nat>)
    ensures forall i :: i in r <==> i in idx && (|sel| > 0 ==> i < |vals| && vals[i] in sel)
  {
    if |sel| == 0 then idx else Keep(idx, (i: nat) => i < |vals| && vals[i] in sel)
  }

  function Lojas(sales: seq<Sale>): seq<Cell>
  {
    MapSeq(sales, (s: Sale) => s.loja)
  }

  function Tipos(sales: seq<Sale>): seq<Cell>
  {
    MapSeq(sales, (s: Sale) => s.tipo)
  }

  /** `df_f.index`: the rows in the date range (when some `Dia` is valid),
      of a selected store and of a selected type (when selections are made). */
  function FilterIndex(sales: seq<Sale>, d1: int, d2: int, selLojas: seq<Cell>, selTipos: seq<Cell>): (idx: seq<nat>)
    ensures Increasing(idx) && Within(idx, |sales|)
    ensures forall i: nat :: i in idx <==>
              && i < |sales|
              && (AnyDia(sales) ==> InRange(sales[i].dia, d1, d2))
              && (|selLojas| > 0 ==> sales[i].loja in selLojas)
              && (|selTipos| > 0 ==> sales[i].tipo in selTipos)
  {
    var n := |sales|;
    var all := AllRows(n);
    AllRowsMember(n);
    var a := if AnyDia(sales) then DiaStep(sales, all, d1, d2) else all;
    KeepIncreasing(all, (i: nat) => i < |sales| && InRange(sales[i].dia, d1, d2), n);
    var b := IsinStep(a, Lojas(sales), selLojas);
    KeepIncreasing(a, (i: nat) => i < |Lojas(sales)| && Lojas(sales)[i] in selLojas, n);
    var c := IsinStep(b, Tipos(sales), selTipos);
    KeepIncreasing(b, (i: nat) => i < |Tipos(sales)| && Tipos(sales)[i] in selTipos, n);
    c
  }

  /** The parsed `Dia` of every row. */
  function Dias(sales: seq<Sale>): (ds: seq<Option<int>>)
    ensures |ds| == |sales|
    ensures forall i :: 0 <= i < |sales| ==> ds[i] == sales[i].dia
    ensures AnyPresent(ds) <==> AnyDia(sales)
  {
    MapSeq(sales, (s: Sale) => s.dia)
  }

  /** With the date widget left at its default `(dmin.date(), dmax.date())`,
      read back as midnights, and no store or type selected, the rows kept
      are those with a valid `Dia` no later than midnight of the latest day. */
  lemma DefaultDiaRangeKeeps(sales: seq<Sale>)
    requires AnyDia(sales)
    ensures var r := DefaultRange(Dias(sales));
            forall i: nat :: i in FilterIndex(sales, r.0, r.1, [], []) <==>
              i < |sales| && sales[i].dia.Some? && sales[i].dia.value <= Midnight(MaxPresent(Dias(sales)))
  {
    var ds := Dias(sales);
    var lo := MinPresent(ds);
    assert Midnight(lo) <= lo;
  }

  /** The store and type filters compose in either order. */
  lemma IsinCommute(idx: seq<nat>, lojas: seq<Cell>, selLojas: seq<Cell>, tipos: seq<Cell>, selTipos: seq<Cell>)
    ensures IsinStep(IsinStep(idx, lojas, selLojas), tipos, selTipos)
            == IsinStep(IsinStep(idx, tipos, selTipos), lojas, selLojas)
  {
    if |selLojas| > 0 && |selTipos| > 0 {
      KeepCommute(idx, (i: nat) => i < |lojas| && lojas[i] in selLojas, (i: nat) => i < |tipos| && tipos[i] in selTipos);
    }
  }

  /** Re-applying a selection to rows it already kept changes nothing. */
  lemma IsinIdempotent(idx: seq<nat>, vals: seq<Cell>, sel: seq<Cell>)
    ensures IsinStep(IsinStep(idx, vals, sel), vals, sel) == IsinStep(idx, vals, sel)
  {
    if |sel| > 0 {
      KeepIdempotent(idx, (i: nat) => i < |vals| && vals[i] in sel);
    }
  }

  /** The headline numbers of the filtered rows. */
  datatype Kpis = Kpis(rows: nat, receita: real, quantidade: real, lucro: real)

  /** A numeric field of every surviving row, in index order. */
  function Column(sales: seq<Sale>, idx: seq<nat>, f: Sale -> Option<real>): (r: seq<Option<real>>)
    requires Within(idx, |sales|)
    ensures |r| == |idx|
    ensures forall k :: 0 <= k < |idx| ==> r[k] == f(sales[idx[k]])
  {
    seq(|idx|, k requires 0 <= k < |idx| => f(sales[idx[k]]))
  }

  /** Row count and the NaN-skipping sums of revenue, quantity and profit:
      no rows give zeros, and each further row adds its amounts, a missing
      amount counting as nothing. */
  function ComputeKpis(sales: seq<Sale>, idx: seq<nat>): (k: Kpis)
    requires Within(idx, |sales|)
    ensures k.rows == |idx|
    ensures |idx| == 0 ==> k.receita == 0.0 && k.quantidade == 0.0 && k.lucro == 0.0
    ensures |idx| > 0 ==>
              var prev, s := ComputeKpis(sales, idx[..|idx| - 1]), sales[idx[|idx| - 1]];
              && k.receita == prev.receita + OrZero(s.receita)
              && k.quantidade == prev.quantidade + OrZero(s.quantidade)
              && k.lucro == prev.lucro + OrZero(s.lucro)
    decreases |idx|
  {
    var k := Kpis(|idx|,
                  SumPresent(Column(sales, idx, (s: Sale) => s.receita)),
                  SumPresent(Column(sales, idx, (s: Sale) => s.quantidade)),
                  SumPresent(Column(sales, idx, (s: Sale) => s.lucro)));
    if |idx| == 0 then k
    else
      ColumnSnoc(sales, idx, (s: Sale) => s.receita);
      ColumnSnoc(sales, idx, (s: Sale) => s.quantidade);
      ColumnSnoc(sales, idx, (s: Sale) => s.lucro);
      k
  }

  /** The sum of a column over the surviving rows is the sum without the
      last row plus that row's amount. */
  lemma ColumnSnoc(sales: seq<Sale>, idx: seq<nat>, f: Sale -> Option<real>)
    requires Within(idx, |sales|) && |idx| > 0
    ensures Within(idx[..|idx| - 1], |sales|)
    ensures SumPresent(Column(sales, idx, f))
            == SumPresent(Column(sales, idx[..|idx| - 1], f)) + OrZero(f(sales[idx[|idx| - 1]]))
  {
    var c := Column(sales, idx, f);
    assert c[..|c| - 1] == Column(sales, idx[..|idx| - 1], f);
  }

  /** The KPIs are additive: splitting the surviving rows into two runs
      splits the row count and each of the three sums accordingly. */
  lemma KpisAdditive(sales: seq<Sale>, a: seq<nat>, b: seq<nat>)
    requires Within(a, |sales|) && Within(b, |sales|)
    ensures Within(a + b, |sales|)
    ensures var k, ka, kb := ComputeKpis(sales, a + b), ComputeKpis(sales, a), ComputeKpis(sales, b);
            && k.rows == ka.rows + kb.rows
            && k.receita == ka.receita + kb.receita
            && k.quantidade == ka.quantidade + kb.quantidade
            && k.lucro == ka.lucro + kb.lucro
  {
    var ab := a + b;
    assert forall k :: 0 <= k < |ab| ==> ab[k] == (if k < |a| then a[k] else b[k - |a|]);
    ColumnAppend(sales, a, b, (s: Sale) => s.receita);
    ColumnAppend(sales, a, b, (s: Sale) => s.quantidade);
    ColumnAppend(sales, a, b, (s: Sale) => s.lucro);
    SumPresentAppend(Column(sales, a, (s: Sale) => s.receita), Column(sales, b, (s: Sale) => s.receita));
    SumPresentAppend(Column(sales, a, (s: Sale) => s.quantidade), Column(sales, b, (s: Sale) => s.quantidade));
    SumPresentAppend(Column(sales, a, (s: Sale) => s.lucro), Column(sales, b, (s: Sale) => s.lucro));
  }

  /** A column over two runs of rows is the two columns one after the other. */
  lemma ColumnAppend(sales: seq<Sale>, a: seq<nat>, b: seq<nat>, f: Sale -> Option<real>)
    requires Within(a, |sales|) && Within(b, |sales|) && Within(a + b, |sales|)
    ensures Column(sales, a + b, f) == Column(sales, a, f) + Column(sales, b, f)
  {
    var ab := a + b;
    assert forall k :: 0 <= k < |ab| ==> ab[k] == (if k < |a| then a[k] else b[k - |a|]);
  }

  /** Rows whose profit is missing add nothing to the profit KPI. */
  lemma KpiLucroSkipsMissing(sales: seq<Sale>, idx: seq<nat>)
    requires Within(idx, |sales|)
    requires forall k :: 0 <= k < |idx| ==> sales[idx[k]].lucro.None?
    ensures ComputeKpis(sales, idx).lucro == 0.0
  {
    SumPresentAllMissing(Column(sales, idx, (s: Sale) => s.lucro));
  }

  /** One (group cell, revenue) entry per surviving row. */
  function SaleEntries(sales: seq<Sale>, idx: seq<nat>, key: Sale -> Cell): (es: seq<Entry<Cell>>)
    requires Within(idx, |sales|)
    ensures |es| == |idx|
    ensures forall k :: 0 <= k < |idx| ==> es[k] == Entry(KeyOf(key(sales[idx[k]])), sales[idx[k]].receita)
  {
    seq(|idx|, k requires 0 <= k < |idx| => Entry(KeyOf(key(sales[idx[k]])), sales[idx[k]].receita))
  }

  /** One (day, revenue) entry per surviving row. */
  function DayEntries(sales: seq<Sale>, idx: seq<nat>): (es: seq<Entry<int>>)
    requires Within(idx, |sales|)
    ensures |es| == |idx|
    ensures forall k :: 0 <= k < |idx| ==> es[k] == Entry(sales[idx[k]].dia, sales[idx[k]].receita)
  {
    seq(|idx|, k requires 0 <= k < |idx| => Entry(sales[idx[k]].dia, sales[idx[k]].receita))
  }

  /** The distinct non-missing values of a cell field over the surviving rows. */
  function PresentCells(sales: seq<Sale>, idx: seq<nat>, key: Sale -> Cell): set<Cell>
    requires Within(idx, |sales|)
  {
    set k | 0 <= k < |idx| && !key(sales[idx[k]]).Missing? :: key(sales[idx[k]])
  }

  /** `por_loja`: one group per distinct non-missing store among the
      surviving rows, holding that store's revenue. */
  function PorLoja(sales: seq<Sale>, idx: seq<nat>): (r: seq<Group<Cell>>)
    requires Within(idx, |sales|)
    ensures DistinctKeys(r)
    ensures GroupKeys(r) == PresentCells(sales, idx, (s: Sale) => s.loja)
    ensures forall c :: Lookup(r, c) == KeySum(SaleEntries(sales, idx, (s: Sale) => s.loja), c)
  {
    var key := (s: Sale) => s.loja;
    var es := SaleEntries(sales, idx, key);
    PresentKeysOfCells(sales, idx, key);
    GroupSum(es)
  }

  /** The keys of the cell entries are the non-missing cells. */
  lemma PresentKeysOfCells(sales: seq<Sale>, idx: seq<nat>, key: Sale -> Cell)
    requires Within(idx, |sales|)
    ensures PresentKeys(SaleEntries(sales, idx, key)) == PresentCells(sales, idx, key)
  {
    var es := SaleEntries(sales, idx, key);
    forall c | c in PresentKeys(es)
      ensures c in PresentCells(sales, idx, key)
    {
      var k :| 0 <= k < |es| && es[k].key.Some? && es[k].key.value == c;
      assert key(sales[idx[k]]) == c;
    }
    forall c | c in PresentCells(sales, idx, key)
      ensures c in PresentKeys(es)
    {
      var k :| 0 <= k < |idx| && !key(sales[idx[k]]).Missing? && key(sales[idx[k]]) == c;
      assert es[k].key == Some(c);
    }
  }

  /** `top_tipo`: at most ten types, largest revenue first, none left out
      with more revenue than one shown. */
  function TopTipos(sales: seq<Sale>, idx: seq<nat>): (r: seq<Group<Cell>>)
    requires Within(idx, |sales|)
    ensures |r| <= 10 && SortedDesc(r)
    ensures var all := GroupSum(SaleEntries(sales, idx, (s: Sale) => s.tipo));
            && multiset(r) <= multiset(all)
            && |r| == (if |all| < 10 then |all| else 10)
            && forall x, y :: x in r && y in multiset(all) - multiset(r) ==> y.total <= x.total
  {
    TopN(GroupSum(SaleEntries(sales, idx, (s: Sale) => s.tipo)), 10)
  }

  /** The valid days of the surviving rows. */
  function ValidDays(sales: seq<Sale>, idx: seq<nat>): set<int>
    requires Within(idx, |sales|)
  {
    set k | 0 <= k < |idx| && sales[idx[k]].dia.Some? :: sales[idx[k]].dia.value
  }

  /** `ts`: revenue per day, drawn only when some surviving row has a valid day. */
  function ReceitaPorDia(sales: seq<Sale>, idx: seq<nat>): (r: Option<seq<Group<int>>>)
    requires Within(idx, |sales|)
    ensures r.Some? <==> exists k :: 0 <= k < |idx| && sales[idx[k]].dia.Some?
    ensures r.Some? ==> DistinctKeys(r.value)
    ensures r.Some? ==> GroupKeys(r.value) == ValidDays(sales, idx)
    ensures r.Some? ==> forall d :: Lookup(r.value, d) == KeySum(DayEntries(sales, idx), d)
  {
    var es := DayEntries(sales, idx);
    assert PresentKeys(es) == ValidDays(sales, idx) by {
      forall d | d in ValidDays(sales, idx)
        ensures d in PresentKeys(es)
      {
        var k :| 0 <= k < |idx| && sales[idx[k]].dia.Some? && sales[idx[k]].dia.value == d;
        assert es[k].key == Some(d);
      }
    }
    if AnyDia(Select(sales, idx)) then Some(GroupSum(es)) else None
  }

  /** The revenue KPI splits into the store groups plus the rows without a
      store: grouping loses and duplicates nothing. */
  lemma KpiReceitaMatchesPorLoja(sales: seq<Sale>, idx: seq<nat>)
    requires Within(idx, |sales|)
    ensures ComputeKpis(sales, idx).receita
            == SumTotals(PorLoja(sales, idx))
               + SumPresent(Column(sales, idx, (s: Sale) => if s.loja.Missing? then s.receita else None))
  {
    var es := SaleEntries(sales, idx, (s: Sale) => s.loja);
    GroupSumConserves(es);
    assert Values(es) == Column(sales, idx, (s: Sale) => s.receita);
    assert UnkeyedValues(es) == Column(sales, idx, (s: Sale) => if s.loja.Missing? then s.receita else None);
  }

  /** One sales row of the worked example. */
  function ExampleRow(day: string, venda: real, quantidade: real): Row
  {
    map["Dia" := Text(day), "Loja" := Text("A"), "Quantidade" := Number(quantidade),
        "Tipo" := Text("B"), "Marca" := Text("C"), "Custo de compra" := Number(0.0),
        "Valor de venda" := Number(venda)]
  }

  /** Midnight of 2024-01-01, in nanoseconds since the epoch. */
  const Jan1: int := 1_704_067_200_000_000_000

  /** Midnight of 2024-01-02. */
  const Jan2: int := 1_704_153_600_000_000_000

  /** Reads the two example days as their midnights. */
  function ExampleParsers(): Parsers
  {
    Parsers((s: string) => None,
            (c: Cell) => if c == Text("2024-01-01") then Some(Jan1)
                         else if c == Text("2024-01-02") then Some(Jan2) else None)
  }

  /** A header carrying every required column loads. */
  lemma NothingMissing(cols: seq<string>)
    requires forall c :: c in Required ==> c in cols
    ensures MissingColumns(cols) == []
  {
    KeepNone(Required, (c: string) => c !in cols);
  }

  /** A prepared example row: its day as parsed, revenue = value x quantity. */
  lemma ExampleRowPrepared(day: string, venda: real, quantidade: real)
    ensures var s := PrepareRow(Required, ExampleParsers(), ExampleRow(day, venda, quantidade));
            && s.dia == ExampleParsers().date(Text(day))
            && s.receita.Some? && s.receita.value == venda * quantidade
  {
    var row := ExampleRow(day, venda, quantidade);
    assert At(row, "Valor de venda") == Number(venda);
    assert At(row, "Quantidade") == Number(quantidade);
    assert At(row, "Dia") == Text(day);
    assert "Receita" !in Required;
  }

  /** The worked example's file: sales of 100 x 1 on 2024-01-01 and
      200 x 2 on 2024-01-02, with every required column and no derived one. */
  function ExampleTable(): Table
  {
    Table(Required, [ExampleRow("2024-01-01", 100.0, 1.0), ExampleRow("2024-01-02", 200.0, 2.0)])
  }

  /** The example file loads into two rows dated on their two days, with
      revenues 100 and 400. */
  lemma ExampleLoads()
    ensures var r := Prepare(ExampleTable(), ExampleParsers());
            && r.Success? && |r.value| == 2
            && r.value[0].dia == Some(Jan1) && r.value[1].dia == Some(Jan2)
            && r.value[0].receita == Some(100.0) && r.value[1].receita == Some(400.0)
  {
    var t, p := ExampleTable(), ExampleParsers();
    NothingMissing(t.columns);
    ExampleRowPrepared("2024-01-01", 100.0, 1.0);
    ExampleRowPrepared("2024-01-02", 200.0, 2.0);
    assert p.date(Text("2024-01-01")) == Some(Jan1);
    assert p.date(Text("2024-01-02")) == Some(Jan2);
  }

  /** Of two rows dated at consecutive midnights, the one-day range of the
      first day with no store or type selected keeps the first row only. */
  lemma ExampleFilter(sales: seq<Sale>)
    requires |sales| == 2 && sales[0].dia == Some(Jan1) && sales[1].dia == Some(Jan2)
    ensures FilterIndex(sales, Jan1, Jan1, [], []) == [0]
  {
    var idx := FilterIndex(sales, Jan1, Jan1, [], []);
    assert AnyDia(sales);
    OnlyFirst(idx);
  }

  /** The KPIs of a single row carry that row's revenue. */
  lemma ExampleKpi(sales: seq<Sale>)
    requires |sales| >= 1 && sales[0].receita == Some(100.0)
    ensures ComputeKpis(sales, [0]).receita == 100.0
  {
    var one: seq<nat> := [0];
    assert one[..0] == [];
  }

  /** Worked example: the example file gives revenues 100 and 400; the
      range [2024-01-01, 2024-01-01] keeps the first row only, with
      revenue 100. */
  lemma Example()
    ensures var r := Prepare(ExampleTable(), ExampleParsers());
            && r.Success?
            && r.value[0].receita == Some(100.0) && r.value[1].receita == Some(400.0)
            && FilterIndex(r.value, Jan1, Jan1, [], []) == [0]
            && ComputeKpis(r.value, [0]).receita == 100.0
  {
    ExampleLoads();
    var sales := Prepare(ExampleTable(), ExampleParsers()).value;
    ExampleFilter(sales);
    ExampleKpi(sales);
  }

  /** What the page shows after a successful load. */
  datatype View = View(
    index: seq<nat>,
    kpis: Kpis,
    receitaPorDia: Option<seq<Group<int>>>,
    topTipos: seq<Group<Cell>>,
    porLoja: seq<Group<Cell>>)

  /** The whole page: halts on missing columns, otherwise filters and
      aggregates. */
  function Render(t: Table, p: Parsers, d1: int, d2: int, selLojas: seq<Cell>, selTipos: seq<Cell>): (r: Result<View, seq<string>>)
    ensures r.Failure? <==> |MissingColumns(t.columns)| > 0
    ensures r.Failure? ==> r.error == MissingColumns(t.columns)
    ensures r.Success? ==>
              var sales := Prepare(t, p).value;
              && Within(r.value.index, |t.rows|)
              && r.value.index == FilterIndex(sales, d1, d2, selLojas, selTipos)
              && r.value.kpis == ComputeKpis(sales, r.value.index)
              && r.value.kpis.rows == |r.value.index|
              && r.value.porLoja == PorLoja(sales, r.value.index)
              && r.value.topTipos == TopTipos(sales, r.value.index)
              && r.value.receitaPorDia == ReceitaPorDia(sales, r.value.index)
    ensures r.Success? ==> |r.value.topTipos| <= 10
  {
    match Prepare(t, p)
    case Failure(missing) => Failure(missing)
    case Success(sales) =>
      var idx := FilterIndex(sales, d1, d2, selLojas, selTipos);
      Success(View(idx, ComputeKpis(sales, idx), ReceitaPorDia(sales, idx), TopTipos(sales, idx), PorLoja(sales, idx)))
  }
}
