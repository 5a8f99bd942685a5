/** Where a cursor stands in wrapped text. */
module CursorCell {
  import opened Common
  import opened TextWrap

  // ---------------------------------------------------------------- wrapping is determined

  lemma {:induction false} StepAfter(text: seq<byte>, from: nat, a: nat, b: nat, cells: Cells)
    requires from <= a < b <= |text| && Steps(text, from, a) && Steps(text, from, b)
    ensures a + Glyph(text, a) <= b
    ensures Width(text, from, b, cells) >= Width(text, from, a, cells) + GlyphCells(text, a, cells)
    decreases if from < a then a - from else 0
  {
    hide Glyph, GlyphCells;
    if from < a {
      StepsBound(text, from + Glyph(text, from), a);
      StepAfter(text, from + Glyph(text, from), a, b, cells);
    } else {
      StepsBound(text, from + Glyph(text, from), b);
    }
  }

  lemma LimitUnique(text: seq<byte>, columns: nat, cells: Cells, a: Row, la: nat, b: Row, lb: nat)
    requires IsRow(text, columns, cells, a, la) && IsRow(text, columns, cells, b, lb) && a.start == b.start
    ensures la >= lb
  {
    hide Glyph, GlyphCells, Width, Steps, LastSpace, AfterSpace;
    if la < lb {
      StepAfter(text, a.start, la, lb, cells);
      StepsStart(text, a.start, cells);
      if la > a.start {
        StepAfter(text, a.start, a.start, la, cells);
        WidthMonotone(text, a.start, la, lb, cells);
      }
      assert false;
    }
  }

  /** At most one row can start at a place. */
  lemma RowUnique(text: seq<byte>, columns: nat, cells: Cells, a: Row, la: nat, b: Row, lb: nat)
    requires IsRow(text, columns, cells, a, la) && IsRow(text, columns, cells, b, lb) && a.start == b.start
    ensures a == b
  {
    hide Glyph, GlyphCells, Width, Steps, FitsTo, Stops;
    LimitUnique(text, columns, cells, a, la, b, lb);
    LimitUnique(text, columns, cells, b, lb, a, la);
  }

  ghost predicate RowOf(text: seq<byte>, columns: nat, cells: Cells, row: Row) {
    exists limit: nat :: IsRow(text, columns, cells, row, limit)
  }

  /** The first rows of a wrapped text. */
  ghost predicate Wrapped(text: seq<byte>, columns: nat, cells: Cells, rows: seq<Row>) {
    forall i :: 0 <= i < |rows| ==> RowOf(text, columns, cells, rows[i]) && rows[i].start == StartOf(rows, i)
  }

  lemma WrappedPrefix(text: seq<byte>, columns: nat, cells: Cells, rows: seq<Row>, n: nat)
    requires Wrapped(text, columns, cells, rows) && n <= |rows|
    ensures Wrapped(text, columns, cells, rows[..n])
  {
    hide RowOf;
    forall i | 0 <= i < n ensures RowOf(text, columns, cells, rows[..n][i]) && rows[..n][i].start == StartOf(rows[..n], i) {
      assert rows[..n][i] == rows[i] && StartOf(rows[..n], i) == StartOf(rows, i);
    }
  }

  lemma RowAt(text: seq<byte>, columns: nat, cells: Cells, rows: seq<Row>, n: nat)
    requires Wrapped(text, columns, cells, rows) && n < |rows|
    ensures RowOf(text, columns, cells, rows[n]) && rows[n].start == StartOf(rows, n) < |text|
  {
  }

  /** A text is wrapped in one way: of two lists of its first rows, one begins the other. */
  lemma {:induction false} WrappedUnique(text: seq<byte>, columns: nat, cells: Cells, a: seq<Row>, b: seq<Row>)
    requires Wrapped(text, columns, cells, a) && Wrapped(text, columns, cells, b) && |a| <= |b|
    ensures a <= b
    decreases |a|
  {
    hide IsRow, Wrapped;
    if a != [] {
      var n := |a| - 1;
      WrappedPrefix(text, columns, cells, a, n);
      WrappedUnique(text, columns, cells, a[..n], b);
      RowAt(text, columns, cells, a, n);
      RowAt(text, columns, cells, b, n);
      assert a[..n] == b[..n] && StartOf(a, n) == StartOf(a[..n], n) == StartOf(b[..n], n) == StartOf(b, n);
      var la: nat :| IsRow(text, columns, cells, a[n], la);
      var lb: nat :| IsRow(text, columns, cells, b[n], lb);
      RowUnique(text, columns, cells, a[n], la, b[n], lb);
      assert a == a[..n] + [a[n]];
    }
  }

  lemma WrappedSnoc(text: seq<byte>, columns: nat, cells: Cells, rows: seq<Row>, row: Row, limit: nat)
    requires Wrapped(text, columns, cells, rows) && IsRow(text, columns, cells, row, limit)
    requires row.start == StartOf(rows, |rows|)
    ensures Wrapped(text, columns, cells, rows + [row])
  {
    hide IsRow;
    var all := rows + [row];
    forall i | 0 <= i < |all| ensures RowOf(text, columns, cells, all[i]) && all[i].start == StartOf(all, i) {
      assert StartOf(all, i) == StartOf(rows, i);
      if i < |rows| {
        assert all[i] == rows[i];
      }
    }
  }

  // ---------------------------------------------------------------- the cell of a cursor

  /** The row a cursor is shown in: it stands before the next row, or at the end of a text
      whose last row is not closed by a newline. */
  predicate InRow(text: seq<byte>, row: Row, cursor: nat) {
    || cursor < row.next
    || (cursor == row.next == |text| && (row.bytes == 0 || row.next == 0 || text[row.next - 1] != NEWLINE))
  }

  function Until(row: Row, cursor: nat): nat {
    if cursor < row.End() then cursor else row.End()
  }

  /** The cell in row k; behind a full row it is the first of the next one. */
  ghost function CellIn(text: seq<byte>, columns: nat, cells: Cells, row: Row, k: nat, cursor: nat): (nat, nat)
    requires row.start <= Until(row, cursor) <= |text|
  {
    var used := Width(text, row.start, Until(row, cursor), cells);
    if used >= columns then (k + 1, 0) else (k, used)
  }

  /** The cell of the first row that shows the cursor; behind all rows, the first cell after them. */
  ghost predicate Located(text: seq<byte>, columns: nat, cells: Cells, cursor: nat, rows: seq<Row>, cell: (nat, nat)) {
    var n := |rows|;
    && Wrapped(text, columns, cells, rows)
    && (forall i :: 0 <= i < n - 1 ==> !InRow(text, rows[i], cursor))
    && if n > 0 && InRow(text, rows[n - 1], cursor)
       then && rows[n - 1].start <= Until(rows[n - 1], cursor) <= |text|
            && cell == CellIn(text, columns, cells, rows[n - 1], n - 1, cursor)
       else StartOf(rows, n) == |text| && cell == (n, 0)
  }

  /** A cursor has one cell. */
  lemma CellUnique(text: seq<byte>, columns: nat, cells: Cells, cursor: nat, a: seq<Row>, b: seq<Row>, x: (nat, nat), y: (nat, nat))
    requires Located(text, columns, cells, cursor, a, x) && Located(text, columns, cells, cursor, b, y)
    ensures a == b && x == y
  {
    hide IsRow, InRow, CellIn, Wrapped;
    NotShorter(text, columns, cells, cursor, a, b, x, y);
    NotShorter(text, columns, cells, cursor, b, a, y, x);
    WrappedUnique(text, columns, cells, a, b);
    assert a == b;
  }

  lemma NotShorter(text: seq<byte>, columns: nat, cells: Cells, cursor: nat, a: seq<Row>, b: seq<Row>, x: (nat, nat), y: (nat, nat))
    requires Located(text, columns, cells, cursor, a, x) && Located(text, columns, cells, cursor, b, y)
    ensures |a| >= |b|
  {
    hide InRow, CellIn, IsRow, Wrapped;
    if |a| < |b| {
      WrappedUnique(text, columns, cells, a, b);
      RowAt(text, columns, cells, b, |a|);
    }
  }

  /** The furthest glyph boundary of a row within some cells. */
  ghost predicate Furthest(text: seq<byte>, row: Row, column: nat, cells: Cells, at: nat) {
    && row.start <= at <= |text| && Steps(text, row.start, at)
    && Width(text, row.start, at, cells) <= column
    && (at < row.End() && at < |text| ==> Width(text, row.start, at, cells) + GlyphCells(text, at, cells) > column)
  }
}
