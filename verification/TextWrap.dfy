/** Wrapping text into terminal rows. Octets that are not UTF-8 count as one-cell glyphs of
    one octet; `cells` is the terminal's width of a character. */
module TextWrap {
  import opened Common
  import opened Utf8

  const NEWLINE: byte := 10
  const SPACE: byte := 32

  type Cells = scalar -> nat

  /** The octets of the glyph at a position. */
  function Glyph(text: seq<byte>, at: nat): (n: nat)
    requires at < |text|
    ensures 1 <= n <= |text| - at
  {
    LengthZero(text[at..]);
    if Length(text[at..]) == 0 then 1 else Length(text[at..])
  }

  function GlyphCells(text: seq<byte>, at: nat, cells: Cells): nat
    requires at < |text|
  {
    match First(text[at..])
    case None => 1
    case Some(c) => cells(c)
  }

  /** `to` is reached from `from` by whole glyphs. */
  predicate Steps(text: seq<byte>, from: nat, to: nat)
    decreases if from < to then to - from else 0
  {
    from == to || (from < to <= |text| && Steps(text, from + Glyph(text, from), to))
  }

  function Width(text: seq<byte>, from: nat, to: nat, cells: Cells): nat
    requires from <= to <= |text|
    decreases if from < to then to - from else 0
  {
    if from == to then 0
    else
      var next := from + Glyph(text, from);
      GlyphCells(text, from, cells) + if next <= to then Width(text, next, to, cells) else 0
  }

  lemma {:induction false} StepsSnoc(text: seq<byte>, from: nat, to: nat, cells: Cells)
    requires from <= to < |text| && Steps(text, from, to)
    ensures Steps(text, from, to + Glyph(text, to))
    ensures Width(text, from, to + Glyph(text, to), cells)
         == Width(text, from, to, cells) + GlyphCells(text, to, cells)
    decreases if from < to then to - from else 0
  {
    hide Glyph, GlyphCells;
    if from < to {
      StepsSnoc(text, from + Glyph(text, from), to, cells);
    }
  }

  lemma {:induction false} StepsBound(text: seq<byte>, from: nat, to: nat)
    requires from <= |text| && Steps(text, from, to)
    ensures from <= to <= |text|
  {
  }

  /** Rows never get wider by being cut at an earlier glyph. */
  lemma {:induction false} WidthMonotone(text: seq<byte>, from: nat, mid: nat, to: nat, cells: Cells)
    requires from <= mid <= to <= |text| && Steps(text, from, mid) && Steps(text, from, to)
    ensures Width(text, from, mid, cells) <= Width(text, from, to, cells)
    decreases if from < mid then mid - from else 0
  {
    hide Glyph, GlyphCells;
    if from < mid {
      StepsBound(text, from + Glyph(text, from), mid);
      WidthMonotone(text, from + Glyph(text, from), mid, to, cells);
    }
  }

  // ---------------------------------------------------------------- one row

  /** A row: the octets shown, and where the next row starts, which is after the newline
      that ended this one, if one did. */
  datatype Row = Row(start: nat, bytes: nat, next: nat)
  {
    function End(): nat {
      start + bytes
    }
  }

  /** `at` lies behind a space of the row that starts at `start`. */
  predicate AfterSpace(text: seq<byte>, start: nat, at: nat)
  {
    start < at <= |text| && text[at - 1] == SPACE
  }

  /** No glyph boundary after `word`, up to `limit`, lies behind a space. */
  ghost predicate LastSpace(text: seq<byte>, start: nat, word: nat, limit: nat)
  {
    forall p :: word < p <= limit && Steps(text, start, p) ==> !AfterSpace(text, start, p)
  }

  /** `limit` is how far the glyphs of the row fit. */
  ghost predicate FitsTo(text: seq<byte>, start: nat, limit: nat, columns: nat, cells: Cells)
    requires start <= limit <= |text|
  {
    && Steps(text, start, limit)
    && (forall i :: start <= i < limit ==> text[i] != NEWLINE || !Steps(text, start, i))
    && (Width(text, start, limit, cells) <= columns || limit == start + Glyph(text, start))
  }

  ghost predicate Stops(text: seq<byte>, start: nat, limit: nat, columns: nat, cells: Cells)
    requires start <= limit <= |text|
  {
    limit == |text| || text[limit] == NEWLINE
    || Width(text, start, limit, cells) > columns
    || Width(text, start, limit, cells) + GlyphCells(text, limit, cells) > columns
  }

  /** The row that wrapping must produce: as many glyphs as fit, cut back to the last
      space when the text goes on in the same line. */
  ghost predicate IsRow(text: seq<byte>, columns: nat, cells: Cells, row: Row, limit: nat)
  {
    && row.start < |text| && row.start <= limit <= |text|
    && FitsTo(text, row.start, limit, columns, cells)
    && Stops(text, row.start, limit, columns, cells)
    && row.start <= row.End() <= limit
    && Steps(text, row.start, row.End())
    && row.start < row.next <= |text|
    && (if limit < |text| && text[limit] == NEWLINE && Width(text, row.start, limit, cells) <= columns
        then row.End() == limit && row.next == limit + 1
        else
          && row.next == row.End()
          && (if limit == |text| || text[limit] == NEWLINE then row.End() == limit
              else if AfterSpace(text, row.start, row.End())
              then LastSpace(text, row.start, row.End(), limit)
              else row.End() == limit && LastSpace(text, row.start, row.start, limit)))
  }

  lemma StepsStart(text: seq<byte>, at: nat, cells: Cells)
    requires at <= |text|
    ensures Steps(text, at, at) && Width(text, at, at, cells) == 0
    ensures at < |text| ==> Steps(text, at, at + Glyph(text, at))
  {
  }

  /** The glyphs of a row have been looked at up to `at`; `word` lies behind the last space, if there is one. */
  ghost predicate Scanned(text: seq<byte>, start: nat, word: nat, at: nat) {
    && start <= word <= at <= |text|
    && Steps(text, start, at) && Steps(text, start, word)
    && (forall i :: start <= i < at ==> text[i] != NEWLINE || !Steps(text, start, i))
    && (word == start || AfterSpace(text, start, word))
    && LastSpace(text, start, word, at)
  }

  lemma ScanStart(text: seq<byte>, start: nat, cells: Cells)
    requires start <= |text|
    ensures Scanned(text, start, start, start) && Width(text, start, start, cells) == 0
  {
    StepsStart(text, start, cells);
  }

  lemma ScanGlyph(text: seq<byte>, start: nat, word: nat, at: nat, cells: Cells)
    requires Scanned(text, start, word, at) && at < |text| && text[at] != NEWLINE
    ensures var next := at + Glyph(text, at);
            && at < next <= |text|
            && Width(text, start, next, cells) == Width(text, start, at, cells) + GlyphCells(text, at, cells)
            && Scanned(text, start, if text[next - 1] == SPACE then next else word, next)
  {
    hide Glyph, GlyphCells, Width, Steps;
    StepsSnoc(text, start, at, cells);
    NoStepInside(text, start, at);
  }

  lemma ScanLine(text: seq<byte>, start: nat, word: nat, at: nat, columns: nat, cells: Cells)
    requires Scanned(text, start, word, at) && at < |text| && text[at] == NEWLINE
    requires Width(text, start, at, cells) <= columns
    ensures IsRow(text, columns, cells, Row(start, at - start, at + 1), at)
  {
    hide Glyph, GlyphCells, Width, Steps, LastSpace, AfterSpace;
  }

  lemma ScanEnds(text: seq<byte>, start: nat, word: nat, at: nat, columns: nat, cells: Cells)
    requires Scanned(text, start, word, at) && start < at
    requires Width(text, start, at, cells) <= columns || at == start + Glyph(text, start)
    requires at < |text| ==> Width(text, start, at, cells) > columns
                             || (text[at] != NEWLINE
                                 && Width(text, start, at, cells) + GlyphCells(text, at, cells) > columns)
    ensures var end := if at < |text| && text[at] != NEWLINE && word > start then word else at;
            IsRow(text, columns, cells, Row(start, end - start, end), at)
  {
    hide Glyph, GlyphCells, Width, Steps;
  }

  method WrapNext(text: seq<byte>, columns: nat, offset: nat, cells: Cells)
    returns (more: bool, row: Row, ghost limit: nat)
    ensures more <==> columns > 0 && offset < |text|
    ensures more ==> row.start == offset && IsRow(text, columns, cells, row, limit)
  {
    hide Glyph, GlyphCells, Width, Scanned, IsRow;
    row, limit := Row(offset, 0, offset), offset;
    if columns == 0 || offset >= |text| {
      return false, row, limit;
    }
    ScanStart(text, offset, cells);
    var at, used, word := offset, 0, offset;
    while at < |text|
      invariant offset <= word <= at <= |text| && Scanned(text, offset, word, at)
      invariant used == Width(text, offset, at, cells) && used <= columns
      decreases |text| - at
    {
      if text[at] == NEWLINE {
        ScanLine(text, offset, word, at, columns, cells);
        return true, Row(offset, at - offset, at + 1), at;
      }
      var n, width := Glyph(text, at), GlyphCells(text, at, cells);
      if used + width > columns && at > offset {
        break;
      }
      ScanGlyph(text, offset, word, at, cells);
      used := used + width;
      at := at + n;
      if text[at - 1] == SPACE {
        word := at;
      }
      if used > columns {
        break;
      }
    }
    limit := at;
    ScanEnds(text, offset, word, at, columns, cells);
    if at < |text| && text[at] != NEWLINE && word > offset {
      at := word;
    }
    row, more := Row(offset, at - offset, at), true;
  }

  /** Between a glyph boundary and the next there is none. */
  lemma {:induction false} NoStepInside(text: seq<byte>, from: nat, at: nat)
    requires from <= at < |text| && Steps(text, from, at)
    ensures forall i :: at < i < at + Glyph(text, at) ==> !Steps(text, from, i)
    decreases if from < at then at - from else 0
  {
    hide Glyph;
    forall i | at < i < at + Glyph(text, at)
      ensures !Steps(text, from, i)
    {
      if from < at {
        StepsBound(text, from + Glyph(text, from), at);
        NoStepInside(text, from + Glyph(text, from), at);
      } else if Steps(text, from, i) {
        StepsBound(text, from + Glyph(text, from), i);
        assert false;
      }
    }
  }

  // ---------------------------------------------------------------- what a row guarantees

  /** A row fits its columns, unless it is one glyph that is wider than they are. */
  lemma RowFits(text: seq<byte>, columns: nat, cells: Cells, row: Row, limit: nat)
    requires IsRow(text, columns, cells, row, limit)
    ensures row.End() <= |text|
    ensures Width(text, row.start, row.End(), cells) <= columns || row.bytes == Glyph(text, row.start)
  {
    hide Glyph, GlyphCells, Width, Steps;
    WidthMonotone(text, row.start, row.End(), limit, cells);
    StepsStart(text, row.start, cells);
    if Width(text, row.start, row.End(), cells) > columns && row.End() < limit {
      NoStepInside(text, row.start, row.start);
    }
  }

  /** A newline octet is always a glyph of its own. */
  lemma NewlineAlone(text: seq<byte>, at: nat, i: nat)
    requires at < i < |text| && i < at + Glyph(text, at)
    ensures text[i] != NEWLINE
  {
    var data := text[at..];
    assert data[i - at] == text[i];
    if First(data).Some? {
      assert Continues(data[i - at]);
    }
  }

  lemma {:induction false} NewlineIsStep(text: seq<byte>, from: nat, i: nat, to: nat)
    requires from <= i < to <= |text| && Steps(text, from, to) && text[i] == NEWLINE
    ensures Steps(text, from, i)
    decreases if from < to then to - from else 0
  {
    hide Glyph;
    if from < i {
      if i < from + Glyph(text, from) {
        NewlineAlone(text, from, i);
      } else {
        NewlineIsStep(text, from + Glyph(text, from), i, to);
      }
    }
  }

  /** A row and the newline that ended it are exactly the octets up to the next row. */
  lemma RowIsExact(text: seq<byte>, columns: nat, cells: Cells, row: Row, limit: nat)
    requires IsRow(text, columns, cells, row, limit)
    ensures row.start < row.next <= |text| && row.End() <= |text|
    ensures forall i :: row.start <= i < row.End() ==> text[i] != NEWLINE
    ensures text[row.start..row.next]
         == text[row.start..row.End()] + if row.next > row.End() then [NEWLINE] else []
  {
    hide Glyph, GlyphCells, Width, Steps;
    forall i | row.start <= i < row.End()
      ensures text[i] != NEWLINE
    {
      if text[i] == NEWLINE {
        NewlineIsStep(text, row.start, i, row.End());
      }
    }
  }

  lemma {:induction false} StepsValid(text: seq<byte>, from: nat, to: nat)
    requires from <= to <= |text| && Valid(text[from..]) && Steps(text, from, to)
    ensures Valid(text[to..])
    decreases if from < to then to - from else 0
  {
    if from < to {
      var next := from + Glyph(text, from);
      LengthZero(text[from..]);
      assert text[from..][Length(text[from..])..] == text[next..];
      hide First, Length;
      StepsBound(text, next, to);
      StepsValid(text, next, to);
    }
  }

  /** In valid text that starts a row on a code-point boundary, the row ends on one and
      so starts the next. */
  lemma RowKeepsBoundaries(text: seq<byte>, columns: nat, cells: Cells, row: Row, limit: nat)
    requires IsRow(text, columns, cells, row, limit) && Valid(text[row.start..])
    ensures Valid(text[row.End()..]) && Valid(text[row.next..])
  {
    hide Glyph, GlyphCells, Width, Steps;
    StepsValid(text, row.start, row.End());
    if row.next > row.End() {
      NewlineGlyph(text, row.End());
      StepsStart(text, row.End(), cells);
      StepsValid(text, row.End(), row.next);
    }
  }

  lemma NewlineGlyph(text: seq<byte>, at: nat)
    requires at < |text| && text[at] == NEWLINE
    ensures Glyph(text, at) == 1
  {
  }

  // ---------------------------------------------------------------- whole texts

  /** The octets a row accounts for. */
  function RowText(text: seq<byte>, row: Row): seq<byte>
    requires row.start + row.bytes <= |text|
  {
    text[row.start..row.start + row.bytes] + if row.next > row.End() then [NEWLINE] else []
  }

  function Rejoined(text: seq<byte>, rows: seq<Row>): seq<byte>
    requires forall i :: 0 <= i < |rows| ==> rows[i].start + rows[i].bytes <= |text|
  {
    if rows == [] then [] else Rejoined(text, rows[..|rows| - 1]) + RowText(text, rows[|rows| - 1])
  }

  lemma RejoinedSnoc(text: seq<byte>, rows: seq<Row>, row: Row)
    requires forall i :: 0 <= i < |rows| ==> rows[i].start + rows[i].bytes <= |text|
    requires row.start + row.bytes <= |text|
    ensures Rejoined(text, rows + [row]) == Rejoined(text, rows) + RowText(text, row)
  {
    assert (rows + [row])[..|rows|] == rows;
  }

  /** Where a row starts: where the one before it says. */
  function StartOf(rows: seq<Row>, i: nat): nat
    requires i <= |rows|
  {
    if i == 0 then 0 else rows[i - 1].next
  }

  /** A row as wrapping makes it; in valid text it starts on a code-point boundary. */
  ghost predicate GoodRow(text: seq<byte>, columns: nat, cells: Cells, row: Row) {
    && row.start + row.bytes <= |text|
    && (exists limit: nat :: IsRow(text, columns, cells, row, limit))
    && (Valid(text) ==> Valid(text[row.start..]))
  }

  method NextGoodRow(text: seq<byte>, columns: nat, cells: Cells, offset: nat) returns (row: Row)
    requires columns > 0 && offset < |text| && (Valid(text) ==> Valid(text[offset..]))
    ensures GoodRow(text, columns, cells, row) && row.start == offset < row.next <= |text|
    ensures RowText(text, row) == text[offset..row.next]
    ensures Valid(text) ==> Valid(text[row.next..])
  {
    hide Glyph, GlyphCells, Width, Steps, IsRow, Valid;
    var more;
    ghost var limit;
    more, row, limit := WrapNext(text, columns, offset, cells);
    RowIsExact(text, columns, cells, row, limit);
    if Valid(text) {
      RowKeepsBoundaries(text, columns, cells, row, limit);
    }
  }

  /** Repeated wrapping ends, and its rows with their newlines are the text again. */
  method WrapAll(text: seq<byte>, columns: nat, cells: Cells) returns (rows: seq<Row>)
    requires columns > 0
    ensures forall i :: 0 <= i < |rows| ==> rows[i].start + rows[i].bytes <= |text|
    ensures forall i :: 0 <= i < |rows| ==> GoodRow(text, columns, cells, rows[i]) && rows[i].start == StartOf(rows, i)
    ensures StartOf(rows, |rows|) == |text|
    ensures Rejoined(text, rows) == text
  {
    hide IsRow, Valid, RowText;
    rows := [];
    var offset := 0;
    assert text[0..] == text;
    while offset < |text|
      invariant offset <= |text| && (Valid(text) ==> Valid(text[offset..]))
      invariant forall i :: 0 <= i < |rows| ==> rows[i].start + rows[i].bytes <= |text|
      invariant forall i :: 0 <= i < |rows| ==> GoodRow(text, columns, cells, rows[i]) && rows[i].start == StartOf(rows, i)
      invariant StartOf(rows, |rows|) == offset
      invariant Rejoined(text, rows) == text[..offset]
      decreases |text| - offset
    {
      var row := NextGoodRow(text, columns, cells, offset);
      RejoinedSnoc(text, rows, row);
      assert text[..row.next] == text[..offset] + text[offset..row.next];
      assert forall i :: 0 <= i <= |rows| ==> StartOf(rows + [row], i) == StartOf(rows, i);
      rows, offset := rows + [row], row.next;
    }
    assert text[..offset] == text;
  }
}
