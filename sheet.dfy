/** Values read from the survey workbook: the cells of a row, calendar dates,
    and Python's notion of which cell values are "truthy". */
module Sheet {

  datatype Option<+T> = None | Some(value: T)

  /** A calendar date: the year, month and day of a datetime. */
  datatype Date = Date(year: int, month: int, day: int)

  /** One cell value as openpyxl yields it with values_only=True.
      A `DateTime` keeps its calendar date and its time of day, in
      microseconds since midnight, so two datetimes of one day at different
      times are different values.  `Other` stands for any further Python
      value (float, bool, time, ...), identified by its textual form and
      carrying its truthiness. */
  datatype Cell =
    | Empty
    | Str(text: string)
    | Int(number: int)
    | DateTime(date: Date, microsecond: nat)
    | Other(repr: string, truthy: bool)

  /** A worksheet row: a tuple of cells at fixed column positions. */
  type Row = seq<Cell>

  /** Python truthiness of a cell: None, "" and 0 are false, every datetime is true. */
  predicate Truthy(c: Cell)
  {
    match c
    case Empty => false
    case Str(s) => s != ""
    case Int(n) => n != 0
    case DateTime(_, _) => true
    case Other(_, t) => t
  }

  /** Python truthiness of an optional text query parameter. */
  predicate Given(p: Option<string>)
  {
    p.Some? && p.value != ""
  }

  /** Python truthiness of an optional integer query parameter. */
  predicate GivenBound(p: Option<int>)
  {
    p.Some? && p.value != 0
  }

  /** Lexicographic order on (year, month, day): Python's tuple comparison. */
  predicate OnOrBefore(a: Date, b: Date)
  {
    a.year < b.year || (a.year == b.year && (a.month < b.month || (a.month == b.month && a.day <= b.day)))
  }

  /** Every row of `rows` has at least `width` cells. */
  predicate AllWide(rows: seq<Row>, width: nat)
  {
    forall i :: 0 <= i < |rows| ==> |rows[i]| >= width
  }

  /** `idx` lists, in strictly increasing order, positions of `ys` whose
      elements, read in that order, are exactly `xs`: `xs` is an
      order-preserving subsequence of `ys`, witnessed by `idx`. */
  ghost predicate Embeds<T>(idx: seq<nat>, xs: seq<T>, ys: seq<T>)
  {
    && |idx| == |xs|
    && (forall k :: 0 <= k < |idx| ==> idx[k] < |ys| && xs[k] == ys[idx[k]])
    && (forall j, k :: 0 <= j < k < |idx| ==> idx[j] < idx[k])
  }

  ghost predicate IsSubsequence<T>(xs: seq<T>, ys: seq<T>)
  {
    exists idx :: Embeds(idx, xs, ys)
  }

  /** Appending to the longer sequence keeps an embedding valid. */
  lemma EmbedsExtend<T>(idx: seq<nat>, xs: seq<T>, ys: seq<T>, y: T)
    requires Embeds(idx, xs, ys)
    ensures Embeds(idx, xs, ys + [y])
  {
  }

  /** Appending the same element to both sides extends an embedding by the new last position. */
  lemma EmbedsAppend<T>(idx: seq<nat>, xs: seq<T>, ys: seq<T>, y: T)
    requires Embeds(idx, xs, ys)
    ensures Embeds(idx + [|ys|], xs + [y], ys + [y])
  {
  }
}
