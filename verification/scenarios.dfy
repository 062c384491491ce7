/**
  Concrete headers and what the width pass does to them.
 */
module Scenarios {
  import opened Header
  import opened LayoutProperties

  /** A header with spacing 1 holding fixed 10, variable, fixed 20 and
      variable, in that order. */
  function MixedHeader(): (h: TableHeader)
    ensures Valid(h) && Unresolved(h)
  {
    var h0 := NewHeader().(columnSpacing := 1);
    AddColumn(AddFixedWidthColumn(AddColumn(AddFixedWidthColumn(h0, "A", 10), "B"), "C", 20), "D")
  }

  /** The header built above, field by field. */
  lemma MixedHeaderContents()
    ensures var h := MixedHeader();
            && h.x == 0 && h.columnSpacing == 1 && h.columnWidths == []
            && h.fixedWidthColumns == [0, 2] && h.varWidthColumns == [1, 3]
            && Widths(h.columns) == [10, -1, 20, -1]
  {
  }

  /** Width 100 leaves 100 - (1 * 2 + 30) = 68 for the two variable
      columns: 34 each. */
  lemma MixedHeaderShare()
    ensures CalcColumnWidth(MixedHeader().(width := 100)) == Success(34)
  {
    var h := MixedHeader();
    MixedHeaderContents();
    assert WidthsAt(h.columns, h.fixedWidthColumns) == [10, 20] by {
      assert h.columns[0].width == Widths(h.columns)[0];
      assert h.columns[2].width == Widths(h.columns)[2];
    }
    assert [10, 20][..1] == [10] && [10][..0] == [];
    assert SharedSpace(h.(width := 100)) == 68;
    GoInt.QuotNonNegative(68, 2);
  }

  /** Only the two variable columns' spacing is reserved, so the row with
      its four trailing spacings ends at 102, past the header's width. */
  lemma MixedHeaderLayout()
    ensures SetWidth(MixedHeader(), 100).Success?
    ensures var r := SetWidth(MixedHeader(), 100).value;
            && ColumnWidths(r) == [10, 34, 20, 34]
            && r.columns[0].x == 0 && r.columns[1].x == 11
            && r.columns[2].x == 46 && r.columns[3].x == 67
            && r.columns[3].x + r.columns[3].width + r.columnSpacing == 102
  {
    MixedHeaderContents();
    MixedHeaderShare();
    MixedRow(MixedHeader());
  }

  /** The width pass at 100 over any header shaped like the one above. */
  lemma MixedRow(h: TableHeader)
    requires Valid(h) && h.x == 0 && h.columnSpacing == 1 && h.columnWidths == []
    requires h.varWidthColumns == [1, 3]
    requires Widths(h.columns) == [10, -1, 20, -1]
    requires CalcColumnWidth(h.(width := 100)) == Success(34)
    ensures SetWidth(h, 100).Success?
    ensures var r := SetWidth(h, 100).value;
            && ColumnWidths(r) == [10, 34, 20, 34]
            && r.columns[0].x == 0 && r.columns[1].x == 11
            && r.columns[2].x == 46 && r.columns[3].x == 67
            && r.columns[3].x + r.columns[3].width + r.columnSpacing == 102
  {
    var r := SetWidth(h, 100).value;
    forall i | 0 <= i < 4
      ensures r.columns[i].width == [10, 34, 20, 34][i]
    {
      assert h.columns[i].width == Widths(h.columns)[i];
      assert r.columns[i] == Resolve(h.columns[i], 34).(x := r.columns[i].x);
    }
    assert Widths(r.columns) == [10, 34, 20, 34];
  }

  /** A second pass at the same width appends the same four widths again:
      the recorded widths double instead of staying as they were. */
  lemma SecondPassDuplicatesWidths()
    ensures var r1 := SetWidth(MixedHeader(), 100).value;
            && SetWidth(r1, 100).Success?
            && ColumnWidths(SetWidth(r1, 100).value) == [10, 34, 20, 34, 10, 34, 20, 34]
  {
    MixedHeaderContents();
    MixedHeaderShare();
    SecondPass(MixedHeader());
  }

  lemma SecondPass(h: TableHeader)
    requires Valid(h) && h.x == 0 && h.columnSpacing == 1 && h.columnWidths == []
    requires h.varWidthColumns == [1, 3]
    requires Widths(h.columns) == [10, -1, 20, -1]
    requires CalcColumnWidth(h.(width := 100)) == Success(34)
    ensures var r1 := SetWidth(h, 100).value;
            && SetWidth(r1, 100).Success?
            && ColumnWidths(SetWidth(r1, 100).value) == [10, 34, 20, 34, 10, 34, 20, 34]
  {
    MixedRow(h);
    NoResizeOnSecondCall(h, 100, 100);
  }

  /** Fixed columns only: the pass divides by zero. */
  lemma NoVariableColumnPanics()
    ensures SetWidth(AddFixedWidthColumn(NewHeader(), "A", 10), 50) == Failure(IntegerDivideByZero)
  {
  }

  /** Three variable columns, spacing 1, width 10: (10 - 3) / 3 = 2 each;
      the row uses 9 and the remaining unit is dropped. */
  lemma VariableOnlyRounding()
    ensures var h := AddColumn(AddColumn(AddColumn(NewHeader().(columnSpacing := 1), "A"), "B"), "C");
            && SetWidth(h, 10).Success?
            && ColumnWidths(SetWidth(h, 10).value) == [2, 2, 2]
  {
    var h := AddColumn(AddColumn(AddColumn(NewHeader().(columnSpacing := 1), "A"), "B"), "C");
    assert WidthsAt(h.columns, h.fixedWidthColumns) == [];
    assert SharedSpace(h.(width := 10)) == 7;
    var r := SetWidth(h, 10).value;
    assert Widths(r.columns) == [2, 2, 2];
  }

  /** When the fixed columns take more than the width, the share is
      negative and truncates toward zero: -5 / 2 is -2 (a floor division
      would give -3). */
  lemma NegativeShareTruncatesTowardZero()
    ensures var h := AddColumn(AddColumn(AddFixedWidthColumn(NewHeader(), "A", 6), "B"), "C");
            && SetWidth(h, 1).Success?
            && ColumnWidths(SetWidth(h, 1).value) == [6, -2, -2]
  {
    var h := AddColumn(AddColumn(AddFixedWidthColumn(NewHeader(), "A", 6), "B"), "C");
    assert WidthsAt(h.columns, h.fixedWidthColumns) == [6];
    assert SharedSpace(h.(width := 1)) == -5;
    var r := SetWidth(h, 1).value;
    assert Widths(r.columns) == [6, -2, -2];
  }

  /** A share of exactly -1 is the sentinel itself: the variable columns
      stay unresolved, and the next pass does resize them. */
  lemma SentinelShareIsResizedLater()
    ensures var h := AddColumn(AddColumn(AddFixedWidthColumn(NewHeader(), "A", 5), "B"), "C");
            && SetWidth(h, 2).Success?
            && ColumnWidths(SetWidth(h, 2).value) == [5, -1, -1]
            && SetWidth(SetWidth(h, 2).value, 20).Success?
            && SetWidth(SetWidth(h, 2).value, 20).value.columns[1].width == 7
  {
    var h := AddColumn(AddColumn(AddFixedWidthColumn(NewHeader(), "A", 5), "B"), "C");
    assert WidthsAt(h.columns, h.fixedWidthColumns) == [5];
    assert SharedSpace(h.(width := 2)) == -3;
    var r1 := SetWidth(h, 2).value;
    assert Widths(r1.columns) == [5, -1, -1];
    assert WidthsAt(r1.columns, r1.fixedWidthColumns) == [5];
    assert SharedSpace(r1.(width := 20)) == 15;
  }

  /** A column added after `SetY` is not moved to the header's row: it
      keeps the new cell's row 0. */
  lemma ColumnAddedAfterSetYKeepsRowZero()
    ensures var h := AddColumn(SetY(NewHeader(), 5), "A");
            && h.y == 5 && h.columns[0].y == 0
  {
  }
}
