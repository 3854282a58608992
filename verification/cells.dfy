/** Cells, rows and tables of a loaded sales CSV, and the tolerant type
    coercions (numeric and date) that turn unparseable cells into explicit
    missing values instead of failing.
 */
module Cells {

  datatype Option<+T> = None | Some(value: T)

  datatype Result<+T, +E> = Success(value: T) | Failure(error: E)

  /** A cell: empty (NaN or NaT), text, or a number the CSV reader already
      recognised, or a timestamp written back by a date coercion. Timestamps
      count nanoseconds since the epoch, as pandas stores them. */
  datatype Cell = Missing | Text(s: string) | Number(x: real) | Stamp(ns: int)

  /** A row maps each column name (kept exactly as in the file) to its cell. */
  type Row = map<string, Cell>

  /** A loaded table: its header, in file order, and its rows. The position
      of a row in `rows` is its identity (the pandas index). */
  datatype Table = Table(columns: seq<string>, rows: seq<Row>)

  /** The cell of column `c` in `row`; Missing when the row has no such column. */
  function At(row: Row, c: string): Cell
  {
    if c in row then row[c] else Missing
  }

  /** The parsers behind `pd.to_numeric(..., errors="coerce")` and
      `pd.to_datetime(..., errors="coerce")`. They are parameters of the model:
      `number` reads decimal text, `date` reads a non-missing cell as a
      timestamp; both answer None for anything they cannot read. */
  datatype Parsers = Parsers(number: string -> Option<real>, date: Cell -> Option<int>)

  /** Numeric coercion of one cell: missing stays missing, numbers pass through,
      a timestamp reads as its nanosecond count, text is parsed. */
  function ToNumeric(p: Parsers, c: Cell): (r: Option<real>)
    ensures c.Missing? ==> r.None?
    ensures c.Number? ==> r == Some(c.x)
    ensures c.Stamp? ==> r == Some(c.ns as real)
    ensures c.Text? ==> r == p.number(c.s)
  {
    match c
    case Missing => None
    case Number(x) => Some(x)
    case Stamp(ns) => Some(ns as real)
    case Text(s) => p.number(s)
  }

  /** Date coercion of one cell: missing stays missing (NaT), a timestamp
      passes through, anything else is parsed. */
  function ToDatetime(p: Parsers, c: Cell): (r: Option<int>)
    ensures c.Missing? ==> r.None?
    ensures c.Stamp? ==> r == Some(c.ns)
    ensures !c.Missing? && !c.Stamp? ==> r == p.date(c)
  {
    match c
    case Missing => None
    case Stamp(ns) => Some(ns)
    case _ => p.date(c)
  }

  /** The cell that `df[c] = pd.to_datetime(df[c], errors="coerce")` writes
      back: a timestamp, or NaT. */
  function DateCell(p: Parsers, c: Cell): (r: Cell)
    ensures r.Missing? || r.Stamp?
    ensures r.Missing? <==> ToDatetime(p, c).None?
    ensures r.Stamp? ==> Some(r.ns) == ToDatetime(p, c)
  {
    var d := ToDatetime(p, c);
    if d.Some? then Stamp(d.value) else Missing
  }

  /** Coercing an already coerced cell changes nothing. */
  lemma DateCellIdempotent(p: Parsers, c: Cell)
    ensures DateCell(p, DateCell(p, c)) == DateCell(p, c)
    ensures ToDatetime(p, DateCell(p, c)) == ToDatetime(p, c)
  {
  }

  /** Numeric coercion of a whole column, one entry per row. */
  function NumericColumn(p: Parsers, rows: seq<Row>, c: string): (r: seq<Option<real>>)
    ensures |r| == |rows|
    ensures forall i :: 0 <= i < |rows| ==> r[i] == ToNumeric(p, At(rows[i], c))
    ensures forall i :: 0 <= i < |rows| && At(rows[i], c).Missing? ==> r[i].None?
    ensures forall i :: 0 <= i < |rows| && At(rows[i], c).Number? ==> r[i] == Some(At(rows[i], c).x)
    ensures forall i :: 0 <= i < |rows| && At(rows[i], c).Stamp? ==> r[i] == Some(At(rows[i], c).ns as real)
    ensures forall i :: 0 <= i < |rows| && At(rows[i], c).Text? ==> r[i] == p.number(At(rows[i], c).s)
  {
    seq(|rows|, i requires 0 <= i < |rows| => ToNumeric(p, At(rows[i], c)))
  }

  /** Date coercion of a whole column, one entry per row. */
  function DateColumn(p: Parsers, rows: seq<Row>, c: string): (r: seq<Option<int>>)
    ensures |r| == |rows|
    ensures forall i :: 0 <= i < |rows| ==> r[i] == ToDatetime(p, At(rows[i], c))
  {
    seq(|rows|, i requires 0 <= i < |rows| => ToDatetime(p, At(rows[i], c)))
  }

  /** A cell as a grouping key: missing cells have no key. */
  function KeyOf(c: Cell): Option<Cell>
  {
    if c.Missing? then None else Some(c)
  }

  /** pandas `==` between a cell and a selected value: NaN equals nothing. */
  predicate CellEq(c: Cell, v: Cell)
  {
    !c.Missing? && c == v
  }

  /** Missing operand gives a missing product (no zero-fill). */
  function Mul(a: Option<real>, b: Option<real>): (r: Option<real>)
    ensures r.Some? <==> a.Some? && b.Some?
    ensures r.Some? ==> r.value == a.value * b.value
  {
    if a.Some? && b.Some? then Some(a.value * b.value) else None
  }

  /** Missing operand gives a missing difference. */
  function Sub(a: Option<real>, b: Option<real>): (r: Option<real>)
    ensures r.Some? <==> a.Some? && b.Some?
    ensures r.Some? ==> r.value == a.value - b.value
  {
    if a.Some? && b.Some? then Some(a.value - b.value) else None
  }

  /** `fillna(0)` on one entry. */
  function OrZero(a: Option<real>): real
  {
    if a.Some? then a.value else 0.0
  }

  /** Inclusive date range test; a missing date (NaT) is never in range. */
  predicate InRange(d: Option<int>, d1: int, d2: int)
  {
    d.Some? && d1 <= d.value <= d2
  }

  /** Nanoseconds in a day. */
  const NanosPerDay: int := 86_400_000_000_000

  /** Midnight of the day a timestamp falls on: `Timestamp.date()` read back
      by `pd.to_datetime`. Floor division, so days before the epoch round
      down as well. */
  function Midnight(ns: int): (r: int)
    ensures r <= ns < r + NanosPerDay
    ensures r % NanosPerDay == 0
  {
    (ns / NanosPerDay) * NanosPerDay
  }

  /** Some entry is present. */
  predicate AnyPresent(ds: seq<Option<int>>)
  {
    exists i :: 0 <= i < |ds| && ds[i].Some?
  }

  /** The latest present entry (pandas `max` skips NaT). */
  function MaxPresent(ds: seq<Option<int>>): (r: int)
    requires AnyPresent(ds)
    ensures exists i :: 0 <= i < |ds| && ds[i] == Some(r)
    ensures forall i :: 0 <= i < |ds| && ds[i].Some? ==> ds[i].value <= r
    decreases |ds|
  {
    var init := ds[..|ds| - 1];
    var last := ds[|ds| - 1];
    assert forall i :: 0 <= i < |init| ==> init[i] == ds[i];
    if !AnyPresent(init) then
      assert last.Some?;
      last.value
    else
      var m := MaxPresent(init);
      if last.Some? && last.value > m then last.value else m
  }

  /** The earliest present entry (pandas `min` skips NaT). */
  function MinPresent(ds: seq<Option<int>>): (r: int)
    requires AnyPresent(ds)
    ensures exists i :: 0 <= i < |ds| && ds[i] == Some(r)
    ensures forall i :: 0 <= i < |ds| && ds[i].Some? ==> r <= ds[i].value
    decreases |ds|
  {
    var init := ds[..|ds| - 1];
    var last := ds[|ds| - 1];
    assert forall i :: 0 <= i < |init| ==> init[i] == ds[i];
    if !AnyPresent(init) then
      assert last.Some?;
      last.value
    else
      var m := MinPresent(init);
      if last.Some? && last.value < m then last.value else m
  }

  /** The date widget's initial range, as the filter reads it back:
      midnight of the earliest and of the latest valid day. */
  function DefaultRange(ds: seq<Option<int>>): (r: (int, int))
    requires AnyPresent(ds)
    ensures r.0 <= r.1
    ensures r.0 % NanosPerDay == 0 && r.1 % NanosPerDay == 0
    ensures forall i :: 0 <= i < |ds| && ds[i].Some? ==> r.0 <= ds[i].value < r.1 + NanosPerDay
    ensures exists i :: 0 <= i < |ds| && ds[i].Some? && r.0 <= ds[i].value < r.0 + NanosPerDay
    ensures exists i :: 0 <= i < |ds| && ds[i].Some? && r.1 <= ds[i].value < r.1 + NanosPerDay
  {
    (Midnight(MinPresent(ds)), Midnight(MaxPresent(ds)))
  }

  /** Sum of the present entries (pandas `sum` skips NaN). */
  function SumPresent(xs: seq<Option<real>>): real
  {
    if |xs| == 0 then 0.0 else SumPresent(xs[..|xs| - 1]) + OrZero(xs[|xs| - 1])
  }

  /** Summing skips missing entries: a missing entry adds nothing, and the
      sum splits over concatenation. */
  lemma {:induction false} SumPresentAppend(xs: seq<Option<real>>, ys: seq<Option<real>>)
    ensures SumPresent(xs + ys) == SumPresent(xs) + SumPresent(ys)
    decreases |ys|
  {
    if |ys| == 0 {
      assert xs + ys == xs;
    } else {
      var ys' := ys[..|ys| - 1];
      assert (xs + ys)[..|xs + ys| - 1] == xs + ys';
      SumPresentAppend(xs, ys');
    }
  }

  /** A series whose entries are all missing sums to zero. */
  lemma {:induction false} SumPresentAllMissing(xs: seq<Option<real>>)
    requires forall i :: 0 <= i < |xs| ==> xs[i].None?
    ensures SumPresent(xs) == 0.0
    decreases |xs|
  {
    if |xs| > 0 {
      SumPresentAllMissing(xs[..|xs| - 1]);
    }
  }
}
