# Table header layout

A model of the table header widget of the dry terminal dashboard
(`ui/termui/header.go`). A header is an ordered row of titled cells. Each
cell has either a fixed width or the sentinel width -1, which marks a
variable column. A width pass (`SetWidth`) works in three steps:

- it divides the width left over by the fixed columns and the spacing
  among the variable columns, truncating toward zero;
- it lays the cells out left to right from the header's x, giving the
  shared width to every cell still at -1;
- it appends each cell's width to a list of recorded widths.

The model is functional. A header is an immutable `TableHeader` datatype
and every operation returns a new header. In Go, the header's three cell
lists share the same `*termui.Par` pointers, so a width resolved through
`Columns` is also seen through `varWidthColumns`. The model keeps each
cell once, in `columns`. `fixedWidthColumns` and `varWidthColumns` hold
positions into `columns`, and `Header.Valid` (the two lists partition the
positions in insertion order) is the invariant every operation keeps.

Modules:

- `GoInt` (`go_int.dfy`): Go's truncating integer division, `Quot`. It is
  specified by the remainder's size and sign, proved unique, and related
  to Dafny's Euclidean `/`.
- `Header` (`header.dfy`): the cell and header datatypes, the operations
  of `header.go`, and the panic as `Result.Failure(IntegerDivideByZero)`.
- `LayoutProperties` (`layout_properties.dfy`): properties that span
  several calls. They cover positions in closed form, the width budget,
  repeated passes, `SetX`/`SetY` against a pass, and building a header
  column by column.
- `Scenarios` (`scenarios.dfy`): concrete headers and the exact layout a
  pass gives them.

Three behaviours of `header.go` the model keeps as written:

- Spacing is reserved only for the variable columns
  (`ColumnSpacing * len(varWidthColumns)`, header.go:97). So fixed 10,
  variable, fixed 20, variable at spacing 1 and width 100 gives
  (100 - 2 - 30) / 2 = 34 per variable column, and the row with its four
  spacings ends at 102, past the width (`Scenarios.MixedHeaderLayout`).
- Every pass appends a full row of widths and nothing resets them
  (header.go:47), so a second pass at the same width doubles the recorded
  widths (`LayoutProperties.RecordedWidthsGrow`,
  `Scenarios.SecondPassDuplicatesWidths`).
- With no variable column the division at header.go:98 panics; the model
  returns `Failure(IntegerDivideByZero)`.

`Header.ColumnWidths` (header.go:107-109) is modelled as a plain accessor
of the recorded widths. Its contents are fixed by `Header.SetWidth` and
`LayoutProperties.RecordedWidthsGrow`.

## Model

| member | source | states |
|---|---|---|
| GoInt.Quot | ui/termui/header.go:98 | Go's `/`: the remainder is below the divisor in magnitude and never has the sign opposite to the dividend |
| GoInt.QuotUnique | ui/termui/header.go:98 | only one quotient meets that contract, so `Quot` is Go's division and no other |
| GoInt.QuotNonNegative | ui/termui/header.go:98 | for a non-negative share and a positive count, Go's quotient is the Euclidean one, with remainder in [0, count) |
| GoInt.QuotNegativeDividend | ui/termui/header.go:98 | for a negative share that does not divide exactly, Go's quotient is one above the Euclidean one (rounds toward zero) |
| Header.NewHeader | ui/termui/header.go:26-28 | height 1, x = y = width = spacing = 0, no columns, no recorded widths, partition valid |
| Header.NewHeaderColumn | ui/termui/header.go:111-120 | a new cell has the given title, the header's height and the sentinel width -1 |
| Header.ColumnCount | ui/termui/header.go:102-104 | the number of columns, which on a valid header is the fixed count plus the variable count |
| Header.AddColumn | ui/termui/header.go:74-78 | appends one cell with the title, width -1 and the header's height; files its position at the end of the variable list; count + 1; nothing else changes; the partition is kept |
| Header.AddFixedWidthColumn | ui/termui/header.go:81-87 | appends one cell with the title and the given width; files its position at the end of the fixed list; count + 1; nothing else changes; the partition is kept |
| Header.SetX | ui/termui/header.go:52-54 | only the header's x changes; no cell moves and the recorded widths stay |
| Header.SetY | ui/termui/header.go:57-62 | every cell and the header move to row y; widths, x positions and all other fields stay; the partition is kept |
| Header.CalcColumnWidth | ui/termui/header.go:91-99 | fails exactly when there is no variable column; otherwise gives the truncated quotient of width minus (spacing × variable count + fixed widths) by the variable count |
| Header.Place | ui/termui/header.go:41-48 | the walk resolves every sentinel cell to the shared width and keeps all others, places the first cell at the start and each next one after its predecessor's width plus spacing, records the widths in column order after the earlier ones, and ends the cursor at start + widths + spacing × count |
| Header.SetWidth | ui/termui/header.go:36-49 | panics exactly when there is no variable column; otherwise stores the width, resolves only sentinel cells, lays the row out from the header's x, and appends one width per column to the recorded widths; all else stays and the partition is kept |
| LayoutProperties.XIsPrefixSum | ui/termui/header.go:37-46 | after a pass, column i's x is the header's x plus the widths of the columns before it plus i spacings |
| LayoutProperties.PartitionSum | ui/termui/header.go:91-97 | the fixed columns' widths plus the variable columns' widths sum to all columns' widths |
| LayoutProperties.ResolvedWidthsByKind | ui/termui/header.go:43-45 | on a header no pass has touched and with no fixed column declared at -1, fixed columns keep their widths and every variable column gets the shared width |
| LayoutProperties.WidthBudget | ui/termui/header.go:92-98 | on a header no pass has touched and with no fixed column declared at -1, a pass uses the given width plus one spacing per fixed column, less the slack the division drops; for a non-negative share that slack is below the variable count |
| LayoutProperties.OnlyVariableColumnsFit | ui/termui/header.go:91-98 | on a header no pass has touched, with variable columns only and width enough for the spacing, all columns get one width and the row fits, losing less than one unit per column |
| LayoutProperties.NoResizeOnSecondCall | ui/termui/header.go:43-47 | once a pass has resolved the variable columns to a width other than -1, a later pass at any width neither resizes nor moves a column; it only appends the same widths again |
| LayoutProperties.ResolvedRowIsFixedPoint | ui/termui/header.go:43-45 | resolving and placing an already resolved row from its own start changes nothing |
| LayoutProperties.SetWidthEach | ui/termui/header.go:36-49 | a sequence of passes keeps the partition and the column count, and fails exactly when it has a pass and there is no variable column |
| LayoutProperties.PassRecordsOneRow | ui/termui/header.go:41-48 | on a header with a variable column, one pass succeeds, appends exactly one width per column after the widths already recorded, and the rest of a sequence continues from its result |
| LayoutProperties.RecordedWidthsGrow | ui/termui/header.go:47 | on a header with a variable column, after k passes the recorded widths are the old ones as a prefix followed by k × column-count more; nothing resets them |
| LayoutProperties.ShiftedRow | ui/termui/header.go:41-46 | one row resolved with one shared width and laid out from two starts differs only by the shift, column by column |
| LayoutProperties.SetXTakesEffectAtNextPass | ui/termui/header.go:37-42 | on a header with a variable column, the pass after `SetX(x)` puts column 0 at x and every column where a pass at the same width without `SetX` would put it, shifted by the change in x and otherwise unchanged |
| LayoutProperties.RowThenResolve | ui/termui/header.go:41-46 | resolving and laying out a row moved to row y gives the same cells as moving the laid-out row to y |
| LayoutProperties.SameSharedWidth | ui/termui/header.go:91-99 | two headers with the same kinds, spacing and widths share out the same width, whatever their positions |
| LayoutProperties.SetYCommutesWithSetWidth | ui/termui/header.go:57-62 | `SetY` before a pass gives the same header (or the same panic) as `SetY` after it |
| LayoutProperties.AddOne | ui/termui/header.go:74-87 | adding either kind of column appends it with its title and width, files it under its kind, and leaves earlier columns and their kinds alone |
| LayoutProperties.AddColumnsInOrder | ui/termui/header.go:74-87 | adding any sequence of columns keeps the partition, adds their count, keeps the existing columns as a prefix, and puts each new column at its call position with its title, declared width and kind |
| Scenarios.MixedHeader | ui/termui/header.go:74-87 | the header fixed 10, variable, fixed 20, variable with spacing 1 is valid and untouched by any pass |
| Scenarios.MixedHeaderShare | ui/termui/header.go:91-99 | at width 100 that header shares out (100 - 1 × 2 - 30) / 2 = 34 |
| Scenarios.MixedHeaderLayout | ui/termui/header.go:36-49 | at width 100 the recorded widths are [10, 34, 20, 34], the columns start at 0, 11, 46 and 67, and the row ends at 102, past the width |
| Scenarios.MixedRow | ui/termui/header.go:36-49 | any valid header at x 0, spacing 1, no recorded widths, variable positions [1, 3] and widths [10, -1, 20, -1] that shares out 34 gets the layout above |
| Scenarios.SecondPassDuplicatesWidths | ui/termui/header.go:47 | a second pass at 100 records [10, 34, 20, 34, 10, 34, 20, 34] |
| Scenarios.SecondPass | ui/termui/header.go:43-47 | the same for any header of that shape: the second pass at 100 doubles the recorded widths |
| Scenarios.NoVariableColumnPanics | ui/termui/header.go:96-98 | a header with only fixed columns panics with a division by zero |
| Scenarios.VariableOnlyRounding | ui/termui/header.go:97-98 | three variable columns, spacing 1, width 10 each get (10 - 3) / 3 = 2 |
| Scenarios.NegativeShareTruncatesTowardZero | ui/termui/header.go:98 | fixed 6 with two variable columns at width 1 gives -5 / 2 = -2 (not -3) to each variable column |
| Scenarios.SentinelShareIsResizedLater | ui/termui/header.go:43-44 | a share of exactly -1 leaves the variable columns at the sentinel, and the next pass at 20 resizes them to 7 |
| Scenarios.ColumnAddedAfterSetYKeepsRowZero | ui/termui/header.go:57-62 | a column added after `SetY(5)` keeps the new cell's row 0, while the header's y is 5 |

## Left out

- `Buffer` (header.go:65-71) and all termui buffer creation and merging. This is rendering through a library that is not part of this model.
- Theme and colours: `Theme`, `Bg`, `TextBgColor`, `TextFgColor` and `Border` (header.go:21, 114-117). These are opaque library attributes with no logic. A nil theme makes both add operations panic at header.go:115; the model assumes a non-nil theme.
- The internals of `termui.Par`. Its `SetX`, `SetY` and `SetWidth` are modelled as field assignment. A new cell is taken to start at x = 0 and y = 0, the library's zero value for a new cell.
- `GetHeight` (header.go:31-33) is a plain accessor. The `Table` interface (header.go:9-11) only declares `ColumnWidths`, modelled as `Header.ColumnWidths`.
- 64-bit overflow of Go's `int`. Widths and positions are terminal cells, far below 2^63, so the model uses unbounded integers.
- Writes from outside to the exported `Columns` slice, which can break the link with the two kind lists. The width pass (`CalcColumnWidth`, `SetWidth`) requires `Header.Valid`. Every other operation keeps it. The model says nothing about what a pass does to a header whose `Columns` was rewritten from outside.
- The Go panic is not unwound. A pass that divides by zero returns `Failure(IntegerDivideByZero)`. In Go, `Width` is already stored when the panic happens, but the model discards the half-updated header.
