/**
  The table header widget of the dashboard: an ordered row of titled
  column cells, some of fixed width and some sharing the width left over,
  laid out left to right from the header's own x position.

  The cells are modelled as plain records; the termui library's cell type
  is not part of this model, and its setters are taken to be field
  assignments.  In the Go widget, the header's three column lists share the
  same cell pointers, so a width resolved through `columns` is seen through
  `varWidthColumns` too.  The model keeps one copy of each cell in
  `columns` and lets the two kind lists hold positions into it.
 */
module Header {
  import GoInt

  /** The width a variable column carries until a width pass resolves it. */
  const VariableWidth: int := -1

  datatype Column = Column(title: string, x: int, y: int, width: int, height: int)

  datatype TableHeader = TableHeader(
    x: int,
    y: int,
    height: int,
    width: int,
    columns: seq<Column>,
    columnSpacing: int,
    fixedWidthColumns: seq<nat>,  // positions in `columns`
    varWidthColumns: seq<nat>,    // positions in `columns`
    columnWidths: seq<int>)

  /** The only failure: the Go run-time panic of an integer division by
      zero, when a width pass finds no variable column to share among. */
  datatype HeaderError = IntegerDivideByZero

  datatype Result<+T> = Success(value: T) | Failure(error: HeaderError)

  // ---------------------------------------------------------------------
  // The partition of the columns into fixed and variable ones

  predicate Increasing(s: seq<nat>)
  {
    forall i, j :: 0 <= i < j < |s| ==> s[i] < s[j]
  }

  predicate Below(s: seq<nat>, n: nat)
  {
    forall i :: 0 <= i < |s| ==> s[i] < n
  }

  /** `fixed` and `variable` list the positions `0 .. n-1` between them,
      each position in exactly one list, each list in insertion order. */
  predicate Partition(fixed: seq<nat>, variable: seq<nat>, n: nat)
  {
    && |fixed| + |variable| == n
    && Increasing(fixed) && Increasing(variable)
    && Below(fixed, n) && Below(variable, n)
    && forall k :: 0 <= k < n ==> (k in fixed <==> k !in variable)
  }

  /** The representation invariant every operation keeps. */
  predicate Valid(h: TableHeader)
  {
    Partition(h.fixedWidthColumns, h.varWidthColumns, |h.columns|)
  }

  /** No width pass has resolved a variable column yet, and no fixed column
      was declared with the sentinel width. */
  predicate Unresolved(h: TableHeader)
    requires Valid(h)
  {
    && (forall i :: 0 <= i < |h.varWidthColumns| ==>
          h.columns[h.varWidthColumns[i]].width == VariableWidth)
    && (forall i :: 0 <= i < |h.fixedWidthColumns| ==>
          h.columns[h.fixedWidthColumns[i]].width != VariableWidth)
  }

  // ---------------------------------------------------------------------
  // Width sums

  function Sum(s: seq<int>): int
  {
    if s == [] then 0 else Sum(s[..|s| - 1]) + s[|s| - 1]
  }

  function Widths(cols: seq<Column>): (ws: seq<int>)
    ensures |ws| == |cols|
  {
    seq(|cols|, i requires 0 <= i < |cols| => cols[i].width)
  }

  /** The widths of the columns at the given positions, in list order. */
  function WidthsAt(cols: seq<Column>, positions: seq<nat>): (ws: seq<int>)
    requires Below(positions, |cols|)
    ensures |ws| == |positions|
  {
    seq(|positions|, k requires 0 <= k < |positions| => cols[positions[k]].width)
  }

  lemma SumAppend(a: seq<int>, b: seq<int>)
    ensures Sum(a + b) == Sum(a) + Sum(b)
  {
    if b == [] {
      assert a + b == a;
    } else {
      assert (a + b)[..|a + b| - 1] == a + b[..|b| - 1];
      SumAppend(a, b[..|b| - 1]);
    }
  }

  // ---------------------------------------------------------------------
  // Construction

  /** A header of height 1 at the origin, of width 0, with no spacing,
      no columns and no recorded widths. */
  function NewHeader(): (h: TableHeader)
    ensures h.height == 1
    ensures h.x == 0 && h.y == 0 && h.width == 0 && h.columnSpacing == 0
    ensures h.columns == [] && h.columnWidths == []
    ensures Valid(h) && Unresolved(h)
  {
    TableHeader(0, 0, 1, 0, [], 0, [], [], [])
  }

  /** A fresh cell: the given title, the header's height, and the sentinel
      width.  Its position is the library's default origin. */
  function NewHeaderColumn(title: string, h: TableHeader): (c: Column)
    ensures c.title == title && c.height == h.height
    ensures c.width == VariableWidth
  {
    Column(title, 0, 0, VariableWidth, h.height)
  }

  function ColumnCount(h: TableHeader): (n: nat)
    ensures Valid(h) ==> n == |h.fixedWidthColumns| + |h.varWidthColumns|
  {
    |h.columns|
  }

  function ColumnWidths(h: TableHeader): seq<int>
  {
    h.columnWidths
  }

  /** Appends a variable column; it goes to the end of the variable list. */
  function AddColumn(h: TableHeader, title: string): (r: TableHeader)
    ensures |r.columns| == |h.columns| + 1 && r.columns[..|h.columns|] == h.columns
    ensures var c := r.columns[|h.columns|];
            c.title == title && c.width == VariableWidth && c.height == h.height
    ensures r.varWidthColumns == h.varWidthColumns + [|h.columns|]
    ensures r.fixedWidthColumns == h.fixedWidthColumns
    ensures r.(columns := h.columns, varWidthColumns := h.varWidthColumns) == h
    ensures ColumnCount(r) == ColumnCount(h) + 1
    ensures Valid(h) ==> Valid(r)
    ensures Valid(h) && Unresolved(h) ==> Unresolved(r)
  {
    var p := NewHeaderColumn(title, h);
    h.(varWidthColumns := h.varWidthColumns + [|h.columns|],
       columns := h.columns + [p])
  }

  /** Appends a column of the given width; it goes to the end of the fixed
      list.  The width is not checked: a negative one, even the sentinel,
      is taken as it is. */
  function AddFixedWidthColumn(h: TableHeader, title: string, width: int): (r: TableHeader)
    ensures |r.columns| == |h.columns| + 1 && r.columns[..|h.columns|] == h.columns
    ensures var c := r.columns[|h.columns|];
            c.title == title && c.width == width && c.height == h.height
    ensures r.fixedWidthColumns == h.fixedWidthColumns + [|h.columns|]
    ensures r.varWidthColumns == h.varWidthColumns
    ensures r.(columns := h.columns, fixedWidthColumns := h.fixedWidthColumns) == h
    ensures ColumnCount(r) == ColumnCount(h) + 1
    ensures Valid(h) ==> Valid(r)
    ensures Valid(h) && Unresolved(h) && width != VariableWidth ==> Unresolved(r)
  {
    var p := NewHeaderColumn(title, h).(width := width);
    h.(fixedWidthColumns := h.fixedWidthColumns + [|h.columns|],
       columns := h.columns + [p])
  }

  // ---------------------------------------------------------------------
  // Positioning

  /** Moves the header's anchor only; the columns stay where they are until
      the next width pass. */
  function SetX(h: TableHeader, x: int): (r: TableHeader)
    ensures r.x == x
    ensures r.columns == h.columns && r.columnWidths == h.columnWidths
    ensures r.(x := h.x) == h
  {
    h.(x := x)
  }

  /** Moves every column and the header to row `y` at once. */
  function SetY(h: TableHeader, y: int): (r: TableHeader)
    ensures r.y == y && |r.columns| == |h.columns|
    ensures forall i :: 0 <= i < |h.columns| ==> r.columns[i] == h.columns[i].(y := y)
    ensures Widths(r.columns) == Widths(h.columns)
    ensures r.(y := h.y, columns := h.columns) == h
    ensures Valid(h) ==> Valid(r)
  {
    h.(columns := seq(|h.columns|, i requires 0 <= i < |h.columns| => h.columns[i].(y := y)),
       y := y)
  }

  // ---------------------------------------------------------------------
  // The width pass

  /** The header width minus the variable columns' spacing and the fixed
      columns' widths: what the variable columns share. */
  function SharedSpace(h: TableHeader): int
    requires Valid(h)
  {
    h.width - (h.columnSpacing * |h.varWidthColumns| + Sum(WidthsAt(h.columns, h.fixedWidthColumns)))
  }

  /** The width every variable column receives: the shared space divided
      among them, truncated toward zero; a division by zero when there are
      none. */
  function CalcColumnWidth(h: TableHeader): (r: Result<int>)
    requires Valid(h)
    ensures r.Failure? <==> |h.varWidthColumns| == 0
    ensures r.Success? ==>
              GoInt.IsTruncatedQuotient(SharedSpace(h), |h.varWidthColumns|, r.value)
  {
    var colCount := |h.varWidthColumns|;
    if colCount == 0 then Failure(IntegerDivideByZero)
    else Success(GoInt.Quot(SharedSpace(h), colCount))
  }

  /** A column as the width pass leaves it: the shared width if it still
      carries the sentinel, its own width otherwise. */
  function Resolve(c: Column, shared: int): Column
  {
    if c.width == VariableWidth then c.(width := shared) else c
  }

  /** `after` is `before` with every column resolved, each at some
      position. */
  predicate ResolvedFrom(before: seq<Column>, after: seq<Column>, shared: int)
  {
    && |after| == |before|
    && forall i :: 0 <= i < |before| ==> after[i] == Resolve(before[i], shared).(x := after[i].x)
  }

  /** The first column sits at `x0` and every later one right after its
      predecessor plus the spacing. */
  predicate Abutting(cols: seq<Column>, x0: int, spacing: int)
  {
    && (|cols| > 0 ==> cols[0].x == x0)
    && forall i :: 0 < i < |cols| ==> cols[i].x == cols[i - 1].x + cols[i - 1].width + spacing
  }

  /** The state of the left-to-right walk: the columns placed, the widths
      recorded so far, and the cursor after the last column. */
  datatype Walk = Walk(columns: seq<Column>, recorded: seq<int>, cursor: int)

  /** Walks `cols` from cursor `x`: places each column at the cursor,
      resolves it, records its width and moves the cursor past it and the
      spacing. */
  function Place(cols: seq<Column>, x: int, shared: int, spacing: int, recorded: seq<int>): (r: Walk)
    ensures |r.columns| == |cols|
    ensures ResolvedFrom(cols, r.columns, shared)
    ensures Abutting(r.columns, x, spacing)
    ensures r.recorded == recorded + Widths(r.columns)
    ensures r.cursor == x + Sum(Widths(r.columns)) + spacing * |cols|
    decreases |cols|
  {
    if cols == [] then Walk([], recorded, x)
    else
      var c := Resolve(cols[0], shared).(x := x);
      var rest := Place(cols[1..], x + c.width + spacing, shared, spacing, recorded + [c.width]);
      PlaceStep(cols, x, shared, spacing, rest.columns);
      PlaceStepWidths(c, x, spacing, recorded, rest);
      Walk([c] + rest.columns, rest.recorded, rest.cursor)
  }

  /** Putting the first column in front of the walk over the others keeps
      the columns resolved and abutting. */
  lemma PlaceStep(cols: seq<Column>, x: int, shared: int, spacing: int, rest: seq<Column>)
    requires |cols| > 0
    requires var c := Resolve(cols[0], shared).(x := x);
             && ResolvedFrom(cols[1..], rest, shared)
             && Abutting(rest, x + c.width + spacing, spacing)
    ensures var placed := [Resolve(cols[0], shared).(x := x)] + rest;
            && ResolvedFrom(cols, placed, shared)
            && Abutting(placed, x, spacing)
  {
    var placed := [Resolve(cols[0], shared).(x := x)] + rest;
    forall i | 0 < i < |placed|
      ensures placed[i].x == placed[i - 1].x + placed[i - 1].width + spacing
      ensures placed[i] == Resolve(cols[i], shared).(x := placed[i].x)
    {
      assert placed[i] == rest[i - 1];
      assert cols[i] == cols[1..][i - 1];
    }
  }

  /** ... and keeps the recorded widths and the cursor in step with the
      placed widths. */
  lemma PlaceStepWidths(c: Column, x: int, spacing: int, recorded: seq<int>, rest: Walk)
    requires rest.recorded == recorded + [c.width] + Widths(rest.columns)
    requires rest.cursor == x + c.width + spacing + Sum(Widths(rest.columns)) + spacing * |rest.columns|
    ensures rest.recorded == recorded + Widths([c] + rest.columns)
    ensures rest.cursor == x + Sum(Widths([c] + rest.columns)) + spacing * (|rest.columns| + 1)
  {
    assert Widths([c] + rest.columns) == [c.width] + Widths(rest.columns);
    SumAppend([c.width], Widths(rest.columns));
    assert Sum([c.width]) == c.width;
  }

  /** Stores the width, divides what is left among the variable columns,
      lays the columns out from the header's x, and appends every column's
      width to the recorded widths.  Panics with no variable column. */
  function SetWidth(h: TableHeader, w: int): (r: Result<TableHeader>)
    requires Valid(h)
    ensures r.Failure? <==> |h.varWidthColumns| == 0
    ensures r.Success? ==> Valid(r.value) && r.value.width == w
    ensures r.Success? ==>
              r.value.(width := h.width, columns := h.columns, columnWidths := h.columnWidths) == h
    ensures r.Success? ==>
              ResolvedFrom(h.columns, r.value.columns, CalcColumnWidth(h.(width := w)).value)
    ensures r.Success? ==> Abutting(r.value.columns, h.x, h.columnSpacing)
    ensures r.Success? ==> r.value.columnWidths == h.columnWidths + Widths(r.value.columns)
  {
    var sized := h.(width := w);
    match CalcColumnWidth(sized)
    case Failure(e) => Failure(e)
    case Success(shared) =>
      var walk := Place(h.columns, h.x, shared, h.columnSpacing, h.columnWidths);
      Success(sized.(columns := walk.columns, columnWidths := walk.recorded))
  }
}
