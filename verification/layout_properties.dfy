/**
  Properties of the header's width pass and positioning that relate
  several calls, or that restate a pass's outcome in closed form.
 */
module LayoutProperties {
  import GoInt
  import opened Header

  // ---------------------------------------------------------------------
  // Positions in closed form

  /** In an abutting row, column `i` starts after the widths of the
      columns before it and `i` spacings. */
  lemma {:induction false} XIsPrefixSum(cols: seq<Column>, x0: int, spacing: int, i: nat)
    requires Abutting(cols, x0, spacing)
    requires i < |cols|
    ensures cols[i].x == x0 + Sum(Widths(cols[..i])) + spacing * i
  {
    if i == 0 {
      assert Widths(cols[..0]) == [];
    } else {
      XIsPrefixSum(cols, x0, spacing, i - 1);
      var ws := Widths(cols[..i]);
      assert ws[..i - 1] == Widths(cols[..i - 1]);
      assert ws[i - 1] == cols[i - 1].width;
    }
  }

  /** Two abutting rows from the same start with the same widths have
      their columns at the same positions. */
  lemma AbuttingSameWidths(a: seq<Column>, b: seq<Column>, x0: int, spacing: int)
    requires Abutting(a, x0, spacing) && Abutting(b, x0, spacing)
    requires Widths(a) == Widths(b)
    ensures forall i :: 0 <= i < |a| ==> a[i].x == b[i].x
  {
    forall i | 0 <= i < |a|
      ensures a[i].x == b[i].x
    {
      XIsPrefixSum(a, x0, spacing, i);
      XIsPrefixSum(b, x0, spacing, i);
      assert Widths(a[..i]) == Widths(a)[..i];
      assert Widths(b[..i]) == Widths(b)[..i];
    }
  }

  /** Moving the start of an abutting row moves every column by as much. */
  lemma AbuttingShift(a: seq<Column>, b: seq<Column>, x0: int, x1: int, spacing: int)
    requires Abutting(a, x0, spacing) && Abutting(b, x1, spacing)
    requires Widths(a) == Widths(b)
    ensures forall i :: 0 <= i < |a| ==> b[i].x == a[i].x + (x1 - x0)
  {
    forall i | 0 <= i < |a|
      ensures b[i].x == a[i].x + (x1 - x0)
    {
      XIsPrefixSum(a, x0, spacing, i);
      XIsPrefixSum(b, x1, spacing, i);
      assert Widths(a[..i]) == Widths(a)[..i];
      assert Widths(b[..i]) == Widths(b)[..i];
    }
  }

  // ---------------------------------------------------------------------
  // Sums over the partition

  lemma {:induction false} SumConstant(s: seq<int>, w: int)
    requires forall i :: 0 <= i < |s| ==> s[i] == w
    ensures Sum(s) == |s| * w
  {
    if s != [] {
      SumConstant(s[..|s| - 1], w);
    }
  }

  lemma PartitionSwap(f: seq<nat>, v: seq<nat>, n: nat)
    requires Partition(f, v, n)
    ensures Partition(v, f, n)
  {
  }

  /** The last position belongs to the end of its list; dropping it leaves
      a partition of the other positions. */
  lemma PartitionDropLast(f: seq<nat>, v: seq<nat>, n: nat)
    requires Partition(f, v, n) && n > 0 && n - 1 in f
    ensures |f| > 0 && f[|f| - 1] == n - 1
    ensures Partition(f[..|f| - 1], v, n - 1)
  {
    var p :| 0 <= p < |f| && f[p] == n - 1;
    assert f[p] <= f[|f| - 1] < n;
    var f' := f[..|f| - 1];
    assert n - 1 !in v;
    forall k | 0 <= k < n - 1
      ensures k in f' <==> k !in v
    {
      assert k in f <==> k in f';
    }
  }

  /** Summing the fixed columns' widths and the variable columns' widths
      gives the sum over all columns. */
  lemma {:induction false} PartitionSum(cols: seq<Column>, f: seq<nat>, v: seq<nat>)
    requires Partition(f, v, |cols|)
    ensures Sum(Widths(cols)) == Sum(WidthsAt(cols, f)) + Sum(WidthsAt(cols, v))
    decreases |cols|, 1
  {
    if |cols| == 0 {
      assert WidthsAt(cols, f) == [] && WidthsAt(cols, v) == [];
    } else if |cols| - 1 in f {
      PartitionSumLastIn(cols, f, v);
    } else {
      PartitionSwap(f, v, |cols|);
      PartitionSumLastIn(cols, v, f);
    }
  }

  /** The induction step of `PartitionSum`, for the list holding the last
      position. */
  lemma {:induction false} PartitionSumLastIn(cols: seq<Column>, f: seq<nat>, v: seq<nat>)
    requires Partition(f, v, |cols|) && |cols| > 0 && |cols| - 1 in f
    ensures Sum(Widths(cols)) == Sum(WidthsAt(cols, f)) + Sum(WidthsAt(cols, v))
    decreases |cols|, 0
  {
    var m := |cols| - 1;
    var front := cols[..m];
    PartitionDropLast(f, v, |cols|);
    var f' := f[..|f| - 1];
    PartitionSum(front, f', v);
    assert Widths(cols)[..m] == Widths(front);
    assert WidthsAt(cols, f)[..|f'|] == WidthsAt(front, f');
    assert WidthsAt(cols, v) == WidthsAt(front, v);
  }

  // ---------------------------------------------------------------------
  // One width pass

  /** On a header no pass has touched, a pass leaves every fixed column at
      its declared width and gives every variable column the shared
      width. */
  lemma ResolvedWidthsByKind(h: TableHeader, w: int)
    requires Valid(h) && Unresolved(h) && |h.varWidthColumns| > 0
    ensures var r := SetWidth(h, w).value;
            var shared := CalcColumnWidth(h.(width := w)).value;
            && WidthsAt(r.columns, r.fixedWidthColumns) == WidthsAt(h.columns, h.fixedWidthColumns)
            && forall k :: 0 <= k < |h.varWidthColumns| ==>
                 WidthsAt(r.columns, r.varWidthColumns)[k] == shared
  {
  }

  /** The width a pass uses: the header width it is given, less the
      spacing and widths the row needs, less the slack the truncating
      division drops.  The spacing is reserved for the variable columns
      only, so each fixed column's trailing spacing overruns the header
      width. */
  lemma WidthBudget(h: TableHeader, w: int)
    requires Valid(h) && Unresolved(h) && |h.varWidthColumns| > 0
    ensures var r := SetWidth(h, w).value;
            var shared := CalcColumnWidth(h.(width := w)).value;
            var slack := SharedSpace(h.(width := w)) - |h.varWidthColumns| * shared;
            var used := Sum(Widths(r.columns)) + h.columnSpacing * |r.columns|;
            && used + slack == w + h.columnSpacing * |h.fixedWidthColumns|
            && (SharedSpace(h.(width := w)) >= 0 ==> 0 <= slack < |h.varWidthColumns|)
  {
    var hw := h.(width := w);
    var r := SetWidth(h, w).value;
    var shared := CalcColumnWidth(hw).value;
    var f, v := h.fixedWidthColumns, h.varWidthColumns;
    ResolvedWidthsByKind(h, w);
    PartitionSum(r.columns, f, v);
    SumConstant(WidthsAt(r.columns, v), shared);
    Distribute(h.columnSpacing, |f|, |v|);
    if SharedSpace(hw) >= 0 {
      SlackBounds(SharedSpace(hw), |v|, shared);
    }
  }

  lemma Distribute(s: int, a: int, b: int)
    ensures s * (a + b) == s * a + s * b
  {
  }

  /** A non-negative dividend leaves a remainder between zero and the
      divisor. */
  lemma SlackBounds(num: int, n: int, q: int)
    requires n > 0 && num >= 0 && GoInt.IsTruncatedQuotient(num, n, q)
    ensures 0 <= num - n * q < n
  {
    assert q * n == n * q;
  }

  /** With variable columns only, all columns get one width, and when the
      header is wide enough for the spacing the row fits inside it, losing
      less than one unit per column to rounding. */
  lemma OnlyVariableColumnsFit(h: TableHeader, w: int)
    requires Valid(h) && Unresolved(h)
    requires |h.fixedWidthColumns| == 0 && |h.varWidthColumns| > 0
    requires w >= h.columnSpacing * |h.columns|
    ensures var r := SetWidth(h, w).value;
            var shared := CalcColumnWidth(h.(width := w)).value;
            var used := Sum(Widths(r.columns)) + h.columnSpacing * |r.columns|;
            && (forall i :: 0 <= i < |r.columns| ==> r.columns[i].width == shared)
            && used <= w < used + |r.columns|
  {
    var r := SetWidth(h, w).value;
    var v := h.varWidthColumns;
    WidthBudget(h, w);
    ResolvedWidthsByKind(h, w);
    forall i | 0 <= i < |r.columns|
      ensures r.columns[i].width == CalcColumnWidth(h.(width := w)).value
    {
      assert i !in h.fixedWidthColumns;
      var k :| 0 <= k < |v| && v[k] == i;
      assert WidthsAt(r.columns, v)[k] == r.columns[i].width;
    }
    assert WidthsAt(h.columns, h.fixedWidthColumns) == [];
  }

  // ---------------------------------------------------------------------
  // Repeated passes

  /** Once a pass has given the variable columns a width other than the
      sentinel, a later pass, whatever its width, neither resizes nor moves
      any column: it only appends the same widths once more. */
  lemma NoResizeOnSecondCall(h: TableHeader, w1: int, w2: int)
    requires Valid(h) && |h.varWidthColumns| > 0
    requires CalcColumnWidth(h.(width := w1)).value != VariableWidth
    ensures var h1 := SetWidth(h, w1).value;
            && SetWidth(h1, w2).Success?
            && SetWidth(h1, w2).value.columns == h1.columns
            && SetWidth(h1, w2).value.columnWidths == h1.columnWidths + Widths(h1.columns)
  {
    var h1 := SetWidth(h, w1).value;
    var shared := CalcColumnWidth(h.(width := w1)).value;
    assert Valid(h1) && |h1.varWidthColumns| > 0;
    ResolvedRowIsFixedPoint(h.columns, h1.columns, SetWidth(h1, w2).value.columns,
                            shared, CalcColumnWidth(h1.(width := w2)).value, h.x, h.columnSpacing);
  }

  /** Resolving a row whose columns no longer carry the sentinel, and
      placing it from where it already starts, changes nothing. */
  lemma ResolvedRowIsFixedPoint(cols: seq<Column>, r1: seq<Column>, r2: seq<Column>,
                                shared1: int, shared2: int, x0: int, spacing: int)
    requires shared1 != VariableWidth
    requires ResolvedFrom(cols, r1, shared1) && Abutting(r1, x0, spacing)
    requires ResolvedFrom(r1, r2, shared2) && Abutting(r2, x0, spacing)
    ensures r2 == r1
  {
    forall i | 0 <= i < |r1|
      ensures r1[i].width != VariableWidth
    {
    }
    assert Widths(r2) == Widths(r1);
    AbuttingSameWidths(r1, r2, x0, spacing);
    forall i | 0 <= i < |r1|
      ensures r2[i] == r1[i]
    {
    }
  }

  /** `SetWidth` applied once per width, in order; the first panic stops the
      sequence. */
  function SetWidthEach(h: TableHeader, ws: seq<int>): (r: Result<TableHeader>)
    requires Valid(h)
    ensures r.Success? ==> Valid(r.value)
    ensures r.Success? ==> ColumnCount(r.value) == ColumnCount(h)
    ensures r.Failure? <==> |ws| > 0 && |h.varWidthColumns| == 0
    decreases |ws|
  {
    if ws == [] then Success(h)
    else
      match SetWidth(h, ws[0])
      case Failure(e) => Failure(e)
      case Success(h1) => SetWidthEach(h1, ws[1..])
  }

  /** The recorded widths never shrink and grow by one full row per pass:
      they are reset by nothing. */
  lemma {:induction false} RecordedWidthsGrow(h: TableHeader, ws: seq<int>)
    requires Valid(h) && |h.varWidthColumns| > 0
    ensures var r := SetWidthEach(h, ws).value;
            && |ColumnWidths(r)| == |ColumnWidths(h)| + |ws| * ColumnCount(h)
            && ColumnWidths(h) <= ColumnWidths(r)
    decreases |ws|, 1
  {
    if ws == [] {
      assert 0 * ColumnCount(h) == 0;
    } else {
      RecordedWidthsGrowStep(h, ws);
    }
  }

  /** The induction step of `RecordedWidthsGrow`: the first pass, then the
      others. */
  lemma {:induction false} RecordedWidthsGrowStep(h: TableHeader, ws: seq<int>)
    requires Valid(h) && |h.varWidthColumns| > 0 && ws != []
    ensures var r := SetWidthEach(h, ws).value;
            && |ColumnWidths(r)| == |ColumnWidths(h)| + |ws| * ColumnCount(h)
            && ColumnWidths(h) <= ColumnWidths(r)
    decreases |ws|, 0
  {
    var h1 := PassRecordsOneRow(h, ws[0]);
    assert ws == [ws[0]] + ws[1..];
    RecordedWidthsGrow(h1, ws[1..]);
    var r := SetWidthEach(h1, ws[1..]).value;
    RowCount(|ColumnWidths(h)|, |ColumnWidths(h1)|, |ColumnWidths(r)|, ColumnCount(h), |ws| - 1);
    PrefixTransitive(ColumnWidths(h), ColumnWidths(h1), ColumnWidths(r));
  }

  lemma RowCount(a: int, b: int, c: int, n: nat, k: nat)
    requires b == a + n && c == b + k * n
    ensures c == a + (k + 1) * n
  {
  }

  lemma PrefixTransitive(a: seq<int>, b: seq<int>, c: seq<int>)
    requires a <= b && b <= c
    ensures a <= c
  {
  }

  /** One pass appends exactly one width per column after the widths
      already recorded. */
  lemma PassRecordsOneRow(h: TableHeader, w: int) returns (r: TableHeader)
    requires Valid(h) && |h.varWidthColumns| > 0
    ensures SetWidth(h, w) == Success(r)
    ensures forall ws :: SetWidthEach(h, [w] + ws) == SetWidthEach(r, ws)
    ensures && Valid(r) && |r.varWidthColumns| == |h.varWidthColumns|
            && ColumnCount(r) == ColumnCount(h)
            && ColumnWidths(r) == ColumnWidths(h) + Widths(r.columns)
            && |ColumnWidths(r)| == |ColumnWidths(h)| + ColumnCount(h)
            && ColumnWidths(h) <= ColumnWidths(r)
  {
    r := SetWidth(h, w).value;
    forall ws
      ensures SetWidthEach(h, [w] + ws) == SetWidthEach(r, ws)
    {
      assert ([w] + ws)[0] == w && ([w] + ws)[1..] == ws;
    }
  }

  // ---------------------------------------------------------------------
  // Positioning and the width pass

  /** Resolving rows of equal widths with the same shared width gives rows
      of equal widths. */
  lemma ResolvedWidthsAgree(c1: seq<Column>, a1: seq<Column>, c2: seq<Column>, a2: seq<Column>, shared: int)
    requires ResolvedFrom(c1, a1, shared) && ResolvedFrom(c2, a2, shared)
    requires Widths(c1) == Widths(c2)
    ensures Widths(a1) == Widths(a2)
  {
    forall i | 0 <= i < |a1|
      ensures a1[i].width == a2[i].width
    {
      assert Widths(c1)[i] == Widths(c2)[i];
    }
  }

  /** The anchor only takes effect at the next pass: `SetX` itself moves no
      column, and a pass after `SetX` lays the row out from the new anchor,
      every column shifted by the same amount and otherwise unchanged. */
  lemma SetXTakesEffectAtNextPass(h: TableHeader, x: int, w: int)
    requires Valid(h) && |h.varWidthColumns| > 0
    ensures var before := SetWidth(h, w).value;
            var after := SetWidth(SetX(h, x), w).value;
            && |after.columns| == |before.columns| > 0
            && after.columns[0].x == x
            && forall i :: 0 <= i < |after.columns| ==>
                 after.columns[i] == before.columns[i].(x := before.columns[i].x + (x - h.x))
  {
    var hx := SetX(h, x);
    assert h.varWidthColumns[0] < |h.columns|;
    var shared := SameSharedWidth(h, hx, w);
    ShiftedRow(h.columns, SetWidth(h, w).value.columns, SetWidth(hx, w).value.columns,
               shared, h.x, x, h.columnSpacing);
  }

  /** One row resolved with one shared width and placed from two starts:
      the placements differ by the shift alone. */
  lemma ShiftedRow(cols: seq<Column>, before: seq<Column>, after: seq<Column>,
                   shared: int, x0: int, x1: int, spacing: int)
    requires ResolvedFrom(cols, before, shared) && Abutting(before, x0, spacing)
    requires ResolvedFrom(cols, after, shared) && Abutting(after, x1, spacing)
    ensures forall i :: 0 <= i < |after| ==>
              after[i] == before[i].(x := before[i].x + (x1 - x0))
  {
    ResolvedWidthsAgree(cols, before, cols, after, shared);
    AbuttingShift(before, after, x0, x1, spacing);
  }

  /** Two headers that differ only in position or row share out the same
      width. */
  lemma SameSharedWidth(h: TableHeader, g: TableHeader, w: int) returns (shared: int)
    requires Valid(h) && |h.varWidthColumns| > 0
    requires g.fixedWidthColumns == h.fixedWidthColumns && g.varWidthColumns == h.varWidthColumns
    requires g.columnSpacing == h.columnSpacing && Widths(g.columns) == Widths(h.columns)
    ensures Valid(g)
    ensures shared == CalcColumnWidth(h.(width := w)).value == CalcColumnWidth(g.(width := w)).value
  {
    forall k | 0 <= k < |h.fixedWidthColumns|
      ensures WidthsAt(g.columns, g.fixedWidthColumns)[k] == WidthsAt(h.columns, h.fixedWidthColumns)[k]
    {
      assert Widths(g.columns)[h.fixedWidthColumns[k]] == Widths(h.columns)[h.fixedWidthColumns[k]];
    }
    assert WidthsAt(g.columns, g.fixedWidthColumns) == WidthsAt(h.columns, h.fixedWidthColumns);
    assert SharedSpace(g.(width := w)) == SharedSpace(h.(width := w));
    shared := CalcColumnWidth(h.(width := w)).value;
  }

  /** Rows and widths are independent: moving to row `y` before or after a
      pass gives the same header. */
  lemma SetYCommutesWithSetWidth(h: TableHeader, y: int, w: int)
    requires Valid(h)
    ensures SetWidth(SetY(h, y), w)
            == match SetWidth(h, w)
               case Success(r) => Success(SetY(r, y))
               case Failure(e) => Failure(e)
  {
    if |h.varWidthColumns| > 0 {
      SetYThenPass(h, y, w);
    }
  }

  lemma SetYThenPass(h: TableHeader, y: int, w: int)
    requires Valid(h) && |h.varWidthColumns| > 0
    ensures SetWidth(SetY(h, y), w).value.columns == SetY(SetWidth(h, w).value, y).columns
  {
    var hy := SetY(h, y);
    var shared := SameSharedWidth(h, hy, w);
    var r := SetWidth(h, w).value;
    RowThenResolve(h.columns, hy.columns, SetWidth(hy, w).value.columns, r.columns,
                   SetY(r, y).columns, shared, y, h.x, h.columnSpacing);
  }

  /** Resolving and placing a row moved to row `y` gives the same columns
      as moving the resolved and placed row to `y`. */
  lemma RowThenResolve(cols: seq<Column>, moved: seq<Column>, a: seq<Column>,
                       r: seq<Column>, b: seq<Column>, shared: int, y: int, x0: int, spacing: int)
    requires |moved| == |cols| && forall i :: 0 <= i < |cols| ==> moved[i] == cols[i].(y := y)
    requires ResolvedFrom(moved, a, shared) && Abutting(a, x0, spacing)
    requires ResolvedFrom(cols, r, shared) && Abutting(r, x0, spacing)
    requires |b| == |r| && forall i :: 0 <= i < |r| ==> b[i] == r[i].(y := y)
    ensures a == b
  {
    assert Widths(moved) == Widths(cols);
    ResolvedWidthsAgree(moved, a, cols, r, shared);
    AbuttingSameWidths(a, r, x0, spacing);
    forall i | 0 <= i < |a|
      ensures a[i] == b[i]
    {
      assert Resolve(moved[i], shared) == Resolve(cols[i], shared).(y := y);
    }
  }

  // ---------------------------------------------------------------------
  // Building a header column by column

  datatype ColumnSpec = VariableColumn(title: string) | FixedColumn(title: string, width: int)

  function Add(h: TableHeader, spec: ColumnSpec): TableHeader
  {
    match spec
    case VariableColumn(title) => AddColumn(h, title)
    case FixedColumn(title, width) => AddFixedWidthColumn(h, title, width)
  }

  /** The column a spec asks for: its title, and its width or the
      sentinel. */
  predicate Matches(c: Column, spec: ColumnSpec)
  {
    && c.title == spec.title
    && c.width == (if spec.FixedColumn? then spec.width else VariableWidth)
  }

  /** Adding one column appends it, files it under its kind, and leaves the
      earlier columns and their kinds alone. */
  lemma AddOne(h: TableHeader, spec: ColumnSpec)
    requires Valid(h)
    ensures var r := Add(h, spec);
            && Valid(r)
            && |r.columns| == |h.columns| + 1
            && r.columns[..|h.columns|] == h.columns
            && Matches(r.columns[|h.columns|], spec)
            && (|h.columns| in r.varWidthColumns <==> spec.VariableColumn?)
            && forall p :: 0 <= p < |h.columns| ==> (p in r.varWidthColumns <==> p in h.varWidthColumns)
  {
  }

  /** Adds the columns in order. */
  function AddColumns(h: TableHeader, specs: seq<ColumnSpec>): TableHeader
  {
    if specs == [] then h else Add(AddColumns(h, specs[..|specs| - 1]), specs[|specs| - 1])
  }

  /** Adding columns keeps the partition, appends the new columns in call
      order after the existing ones, gives each its title and declared
      width, and files each under its kind. */
  lemma {:induction false} AddColumnsInOrder(h: TableHeader, specs: seq<ColumnSpec>)
    requires Valid(h)
    ensures var r := AddColumns(h, specs);
            && Valid(r)
            && ColumnCount(r) == ColumnCount(h) + |specs|
            && r.columns[..|h.columns|] == h.columns
            && forall k :: 0 <= k < |specs| ==>
                 && Matches(r.columns[|h.columns| + k], specs[k])
                 && (|h.columns| + k in r.varWidthColumns <==> specs[k].VariableColumn?)
  {
    if specs != [] {
      var init := specs[..|specs| - 1];
      var last := specs[|specs| - 1];
      var mid := AddColumns(h, init);
      AddColumnsInOrder(h, init);
      AddOne(mid, last);
      var r := Add(mid, last);
      assert r.columns[..|h.columns|] == mid.columns[..|h.columns|];
      forall k | 0 <= k < |specs|
        ensures && Matches(r.columns[|h.columns| + k], specs[k])
                && (|h.columns| + k in r.varWidthColumns <==> specs[k].VariableColumn?)
      {
        var p := |h.columns| + k;
        if k < |init| {
          assert specs[k] == init[k];
          assert r.columns[p] == mid.columns[p];
          assert p in r.varWidthColumns <==> p in mid.varWidthColumns;
        } else {
          assert specs[k] == last;
          assert p == |mid.columns|;
        }
      }
    }
  }
}
