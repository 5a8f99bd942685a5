/** The byte-buffer editor, proved to edit scalar values. */
module Editor {
  import opened Common
  import opened Utf8
  import opened Zipper
  import opened TextWrap
  import opened EditorBytes
  import opened CursorCell

  const EDITOR_MAX := 1024

  class Editor {
    const text: array<byte>
    const capacity: nat
    const pending: array<byte>
    var length: nat
    var cursor: nat
    var pendingLength: nat

    /** What the buffer means. */
    ghost var z: Zipper

    ghost predicate Shape()
      reads this, text, pending
    {
      && text.Length == EDITOR_MAX + 1 && pending.Length == 4 && text != pending
      && cursor <= length <= capacity <= EDITOR_MAX
      && text[length] == 0
      && pendingLength <= 3
      && (pendingLength > 0 ==> pendingLength < LeadWidth(pending[0]))
    }

    /** Valid UTF-8 within capacity, with the cursor between two scalar values. */
    ghost predicate Valid()
      reads this, text, pending
    {
      Shape() && Spells(text[..length], cursor, z)
    }

    ghost function State(): Typing
      reads this, pending
      requires pendingLength <= pending.Length
    {
      Typing(z, pending[..pendingLength])
    }

    constructor (wanted: nat)
      ensures Valid() && fresh(text) && fresh(pending)
      ensures z == Zipper([], []) && pendingLength == 0
      ensures capacity == if wanted < EDITOR_MAX then wanted else EDITOR_MAX
    {
      text := new byte[EDITOR_MAX + 1](_ => 0);
      pending := new byte[4](_ => 0);
      capacity := if wanted < EDITOR_MAX then wanted else EDITOR_MAX;
      length, cursor, pendingLength, z := 0, 0, 0, Zipper([], []);
    }

    method Clear()
      requires Valid()
      modifies this, text
      ensures Valid() && z == Zipper([], []) && pendingLength == 0
    {
      text[0] := 0;
      length, cursor, pendingLength, z := 0, 0, 0, Zipper([], []);
    }

    /** Removes the octets from start to end and leaves the cursor at start. */
    method Erase(start: nat, end: nat)
      requires Shape() && start <= end <= length
      modifies this`length, this`cursor, text
      ensures Shape() && cursor == start
      ensures text[..length] == old(text[..start]) + old(text[end..length])
    {
      var gap := end - start;
      forall i | start <= i <= length - gap {
        text[i] := text[i + gap];
      }
      length, cursor := length - gap, start;
    }

    /** Inserts a complete run of valid UTF-8 at the cursor, or nothing. */
    method Insert(utf8: seq<byte>) returns (ok: bool)
      requires Valid()
      modifies this`length, this`cursor, this`z, text
      ensures Valid() && (z, ok) == Inserted(old(z), utf8, capacity - old(length))
    {
      hide Decode, EncodeAll;
      if |utf8| == 0 {
        InsertNothing(z, capacity - length);
        return true;
      }
      if length + |utf8| > capacity {
        return false;
      }
      ok := CheckValid(utf8);
      if ok {
        InsertSpells(text[..length], cursor, z, utf8);
        MakeRoom(utf8);
        z := z.(left := z.left + Decode(utf8).value);
      }
    }

    method MakeRoom(utf8: seq<byte>)
      requires Shape() && length + |utf8| <= capacity
      modifies this`length, this`cursor, text
      ensures Shape() && length == old(length) + |utf8| && cursor == old(cursor) + |utf8|
      ensures text[..length] == old(text[..cursor]) + utf8 + old(text[cursor..length])
    {
      var n := |utf8|;
      ghost var was := text[..];
      ShiftUp(text, cursor, length + 1, n);
      Put(text, cursor, utf8);
      Assembled(was, text[..], cursor, length, utf8);
      assert text[..length + n] == text[..][..length + n];
      assert was[..cursor] == old(text[..cursor]) && was[cursor..length] == old(text[cursor..length]);
      cursor, length := cursor + n, length + n;
    }

    /** One octet from the terminal; sequences are staged until they are complete. */
    method InsertByte(b: byte) returns (ok: bool)
      requires Valid()
      modifies this`length, this`cursor, this`z, this`pendingLength, text, pending
      ensures Valid() && (State(), ok) == TypeByte(old(State()), b, capacity - old(length))
    {
      hide Inserted, EncodeAll;
      if pendingLength != 0 && Continues(b) {
        pending[pendingLength] := b;
        assert pending[..pendingLength + 1] == old(pending[..pendingLength]) + [b];
        if pendingLength + 1 < LeadWidth(pending[0]) {
          pendingLength := pendingLength + 1;
          return true;
        }
        var complete := pending[..pendingLength + 1];
        pendingLength := 0;
        ok := Insert(complete);
        return;
      }
      pendingLength := 0;
      if 0x20 <= b < 0x7f {
        ok := Insert([b]);
      } else if LeadWidth(b) < 2 {
        ok := false;
      } else {
        pending[0] := b;
        pendingLength := 1;
        assert pending[..1] == [b];
        ok := true;
      }
    }

    /** Start of the sequence that ends immediately before offset. */
    method SequenceStart(offset: nat) returns (start: nat)
      requires Shape() && 0 < offset <= length
      ensures start < offset
      ensures forall i :: start < i < offset ==> Continues(text[i])
      ensures start == 0 || !Continues(text[start])
    {
      start := offset;
      while start > 0
        invariant start <= offset
        invariant forall i :: start <= i < offset ==> Continues(text[i])
      {
        start := start - 1;
        if !Continues(text[start]) {
          break;
        }
      }
    }

    /** The octet position of the last scalar value before the cursor. */
    method LastStart() returns (start: nat)
      requires Valid() && cursor > 0
      ensures z.left != [] && start == |EncodeAll(z.left[..|z.left| - 1])| && start < cursor
    {
      hide EncodeAll, Continues;
      start := SequenceStart(cursor);
      EncodeNothing();
      FirstOctet(z.left);
      assert forall i :: 0 <= i < cursor ==> EncodeAll(z.left)[i] == text[..length][i];
      LastSequence(z.left, start);
    }

    /** Drops scalar values before the cursor: `start` is where the kept ones end. */
    method CutBefore(start: nat, ghost k: nat)
      requires Valid() && k <= |z.left| && start == |EncodeAll(z.left[..k])|
      modifies this`length, this`cursor, this`z, text
      ensures Valid() && z == old(z).(left := old(z).left[..k])
    {
      hide EncodeAll;
      CutLeft(text[..length], cursor, z, k);
      assert text[..length][..start] == text[..start] && text[..length][cursor..] == text[cursor..length];
      Erase(start, cursor);
      z := z.(left := z.left[..k]);
    }

    method EraseNext() returns (ok: bool)
      requires Valid()
      modifies this`length, this`cursor, this`z, text
      ensures Valid() && (z, ok) == Edit(old(z), Delete)
    {
      hide EncodeAll, Length, WordStart;
      EmptySides(text[..length], cursor, z);
      if cursor >= length {
        return false;
      }
      NextWidth(text[..length], cursor, z);
      assert text[..length][cursor..] == text[cursor..length];
      var width := SequenceLength(text[cursor..length]);
      CutRight(text[..length], cursor, z);
      assert text[..length][..cursor] == text[..cursor] && text[..length][cursor + width..] == text[cursor + width..length];
      Erase(cursor, cursor + width);
      z := z.(right := z.right[1..]);
      return true;
    }

    /** Moves the cursor to the boundary behind the first k scalar values. */
    method MoveTo(at: nat, ghost k: nat)
      requires Valid() && k <= |z.Text()| && at == |EncodeAll(z.Text()[..k])|
      modifies this`cursor, this`z
      ensures Valid() && z == Zipper(old(z).Text()[..k], old(z).Text()[k..]) && cursor == at
    {
      hide EncodeAll;
      Resplit(text[..length], cursor, z, k);
      cursor := at;
      z := Zipper(z.Text()[..k], z.Text()[k..]);
    }

    method MoveLeft() returns (ok: bool)
      requires Valid()
      modifies this`cursor, this`z
      ensures Valid() && (z, ok) == Edit(old(z), Command.Left)
    {
      hide EncodeAll, WordStart;
      EmptySides(text[..length], cursor, z);
      if cursor == 0 {
        return false;
      }
      var start := LastStart();
      ghost var k := |z.left| - 1;
      assert z.Text()[..k] == z.left[..k];
      assert z.Text()[k..] == [z.left[k]] + z.right;
      MoveTo(start, k);
      return true;
    }

    method MoveRight() returns (ok: bool)
      requires Valid()
      modifies this`cursor, this`z
      ensures Valid() && (z, ok) == Edit(old(z), Command.Right)
    {
      hide EncodeAll, Length, WordStart;
      EmptySides(text[..length], cursor, z);
      if cursor >= length {
        return false;
      }
      NextWidth(text[..length], cursor, z);
      assert text[..length][cursor..] == text[cursor..length];
      var width := SequenceLength(text[cursor..length]);
      ghost var k := |z.left| + 1;
      EncodeSnoc(z.Text(), |z.left|);
      assert z.Text()[..|z.left|] == z.left && z.Text()[..k] == z.left + [z.right[0]];
      assert z.Text()[k..] == z.right[1..];
      MoveTo(cursor + width, k);
      return true;
    }

    /** Deletes the word before the cursor and the spaces behind it. */
    method EraseWord() returns (ok: bool)
      requires Valid()
      modifies this`length, this`cursor, this`z, text
      ensures Valid() && (z, ok) == Edit(old(z), KillWord)
    {
      hide EncodeAll, Trimmed, IsSpace;
      ghost var left := EncodeAll(z.left);
      assert text[..cursor] == left;
      var start := cursor;
      while start > 0 && IsSpace(text[start - 1])
        invariant 0 <= start <= cursor
        invariant forall i :: start <= i < cursor ==> IsSpace(left[i])
      {
        start := start - 1;
      }
      TrimmedUnique(left, true, start);
      ghost var middle := start;
      while start > 0 && !IsSpace(text[start - 1])
        invariant 0 <= start <= middle
        invariant forall i :: start <= i < middle ==> !IsSpace(left[i])
      {
        start := start - 1;
      }
      TrimmedUnique(left[..middle], false, start);
      WordStartOctets(z.left);
      PrefixLength(z.left, WordStart(z.left));
      if start == cursor {
        return false;
      }
      CutBefore(start, WordStart(z.left));
      return true;
    }

    /** Every editing command acts on whole scalar values, exactly as on two lists. */
    method Apply(command: Command) returns (ok: bool)
      requires Valid()
      modifies this`length, this`cursor, this`z, this`pendingLength, text
      ensures Valid() && pendingLength == 0 && (z, ok) == Edit(old(z), command)
    {
      hide EncodeAll, WordStart;
      pendingLength := 0;
      EmptySides(text[..length], cursor, z);
      match command {
        case Backspace =>
          if cursor == 0 { return false; }
          var start := LastStart();
          CutBefore(start, |z.left| - 1);
          ok := true;
        case Delete =>
          ok := EraseNext();
        case Left =>
          ok := MoveLeft();
        case Right =>
          ok := MoveRight();
        case Home =>
          assert z.Text()[..0] == [] && z.Text()[0..] == z.Text();
          EncodeNothing();
          MoveTo(0, 0);
          ok := true;
        case End =>
          assert z.Text()[..|z.Text()|] == z.Text() && z.Text()[|z.Text()|..] == [];
          EncodeAppend(z.left, z.right);
          MoveTo(length, |z.Text()|);
          ok := true;
        case KillToStart =>
          if cursor == 0 { return false; }
          EncodeNothing();
          assert z.left[..0] == [];
          CutBefore(0, 0);
          ok := true;
        case KillToEnd =>
          if cursor >= length { return false; }
          TruncateRight(text[..length], cursor, z);
          text[cursor] := 0;
          length := cursor;
          z := z.(right := []);
          ok := true;
        case KillWord =>
          ok := EraseWord();
      }
    }

    /** The cursor's row and column when the text is wrapped; the column is always inside the pane. */
    method Position(columns: nat, cells: Cells) returns (row: nat, column: nat, ghost shown: seq<Row>)
      requires Valid()
      ensures columns == 0 ==> row == column == 0
      ensures columns > 0 ==> column < columns && Located(text[..length], columns, cells, cursor, shown, (row, column))
    {
      row, column, shown := FindCell(text[..length], cursor, columns, cells);
    }

    /** Moves the cursor to a glyph boundary of the wrapped text. */
    method MoveToStep(at: nat)
      requires Valid() && Steps(text[..length], 0, at)
      modifies this`cursor, this`z
      ensures Valid() && z.Text() == old(z.Text()) && cursor == at
    {
      hide EncodeAll, Steps;
      EncodeAppend(z.left, z.right);
      ghost var k := StepsSplit(z.Text(), at);
      assert z.Text()[..k] + z.Text()[k..] == z.Text();
      MoveTo(at, k);
    }

    /** Puts the cursor into a row of the wrapped text, at a column or as near before it as a glyph ends; one
        scalar value further back if that place is shown in a later row. */
    method MoveIntoRow(rows: seq<Row>, target: nat, column: nat, columns: nat, cells: Cells)
      returns (ghost at: nat, ghost landedRows: seq<Row>, ghost landed: (nat, nat), ghost reached: Zipper)
      requires Valid() && columns > 0 && target < |rows| && rows[target].End() <= length
      requires Steps(text[..length], 0, rows[target].start)
      modifies this`cursor, this`z, this`pendingLength
      ensures Valid() && z.Text() == old(z.Text()) && pendingLength == 0
      ensures Furthest(text[..length], rows[target], column, cells, at) && Spells(text[..length], at, reached)
      ensures Located(text[..length], columns, cells, at, landedRows, landed)
      ensures z == if landed.0 > target && at > rows[target].start then Edit(reached, Command.Left).0 else reached
    {
      hide Glyph, GlyphCells, EncodeAll, Steps, Located, Wrapped, Furthest, Spells;
      var place := ColumnInRow(text[..length], rows[target], column, cells);
      MoveToStep(place);
      pendingLength := 0;
      var actualRow, actualColumn;
      actualRow, actualColumn, landedRows := Position(columns, cells);
      at, landed, reached := place, (actualRow, actualColumn), z;
      if actualRow > target && place > rows[target].start {
        var _ := MoveLeft();
      }
    }

    /** Up or down one row of the wrapped text: only the cursor moves, and it stays between
        two scalar values. What was staged goes exactly when there is such a row. */
    method MoveVertical(columns: nat, delta: int, cells: Cells) returns (ok: bool, ghost m: Motion)
      requires Valid()
      modifies this`cursor, this`z, this`pendingLength
      ensures Valid() && z.Text() == old(z.Text())
      ensures !ok ==> z == old(z)
      ensures columns == 0 || delta == 0 ==> !ok
      ensures columns > 0 && delta != 0 ==>
                && Located(text[..length], columns, cells, old(cursor), m.shown, m.cell)
                && Moves(text[..length], columns, cells, delta, m, z, ok)
      ensures pendingLength == if columns > 0 && delta != 0 && Reaches(delta, m) then 0 else old(pendingLength)
    {
      hide Glyph, GlyphCells, EncodeAll, Steps, Located, Wrapped, Furthest, Spells;
      m := Motion([], (0, 0), [], 0, [], (0, 0), z);
      if columns == 0 || delta == 0 {
        return false, m;
      }
      var row, column;
      ghost var shown;
      row, column, shown := Position(columns, cells);
      m := m.(shown := shown, cell := (row, column));
      if delta < 0 && row == 0 {
        return false, m;
      }
      var target := if delta < 0 then row - 1 else row + 1;
      var rows := RowsTo(text[..length], target, columns, cells);
      m := m.(rows := rows);
      if |rows| == target + 1 {
        ghost var at, landedRows, landed, reached;
        at, landedRows, landed, reached := MoveIntoRow(rows, target, column, columns, cells);
        m := m.(at := at, landedRows := landedRows, landed := landed, z := reached);
        return true, m;
      }
      if delta > 0 {
        var _ := MoveToEnd();
        return true, m;
      }
      return false, m;
    }

    method MoveToEnd() returns (ok: bool)
      requires Valid()
      modifies this`cursor, this`z
      ensures Valid() && ok && z == Zipper(old(z.Text()), [])
    {
      hide EncodeAll;
      assert z.Text()[..|z.Text()|] == z.Text() && z.Text()[|z.Text()|..] == [];
      EncodeAppend(z.left, z.right);
      MoveTo(length, |z.Text()|);
      ok := true;
    }
  }

  /** How a vertical move came about: the rows up to the cursor's cell, that cell, the rows up to the target,
      the place in the target row, the rows up to the cell of that place, that cell, and the text split there. */
  datatype Motion = Motion(
    shown: seq<Row>, cell: (nat, nat), rows: seq<Row>, at: nat, landedRows: seq<Row>, landed: (nat, nat), z: Zipper)

  /** From its cell the cursor goes to the same column, or as near before it as a glyph ends, of the next or the
      previous row; one scalar value further back if that place is shown in a later row; and to the end of
      the text if there is no next row. */
  ghost predicate Moves(t: seq<byte>, columns: nat, cells: Cells, delta: int, m: Motion, z: Zipper, ok: bool) {
    var target := if delta < 0 then m.cell.0 - 1 else m.cell.0 + 1;
    if target < 0 then !ok
    else
      && Wrapped(t, columns, cells, m.rows)
      && |m.rows| <= target + 1
      && if |m.rows| == target + 1
         then
           && ok
           && Furthest(t, m.rows[target], m.cell.1, cells, m.at)
           && Spells(t, m.at, m.z)
           && Located(t, columns, cells, m.at, m.landedRows, m.landed)
           && z == if m.landed.0 > target && m.at > m.rows[target].start then Edit(m.z, Command.Left).0 else m.z
         else
           && StartOf(m.rows, |m.rows|) == |t|
           && ok == (delta > 0)
           && (ok ==> z.right == [])
  }

  /** There is a row above or below the cursor's. */
  predicate Reaches(delta: int, m: Motion) {
    var target := if delta < 0 then m.cell.0 - 1 else m.cell.0 + 1;
    0 <= target && |m.rows| == target + 1
  }

  /** The rows of a text up to row `target`, or all of them if there are fewer. */
  method RowsTo(t: seq<byte>, target: nat, columns: nat, cells: Cells) returns (rows: seq<Row>)
    requires columns > 0
    ensures Wrapped(t, columns, cells, rows) && |rows| <= target + 1
    ensures if |rows| == target + 1 then rows[target].End() <= |t| && Steps(t, 0, rows[target].start)
            else StartOf(rows, |rows|) == |t|
  {
    hide IsRow, Glyph, GlyphCells, Steps, Wrapped;
    var offset := 0;
    rows := [];
    NoneWrapped(t, columns, cells);
    StepsStart(t, 0, cells);
    while offset < |t| && |rows| <= target
      invariant offset <= |t| && Steps(t, 0, offset)
      invariant Wrapped(t, columns, cells, rows) && |rows| <= target + 1 && StartOf(rows, |rows|) == offset
      invariant rows != [] ==> rows[|rows| - 1].End() <= |t| && Steps(t, 0, rows[|rows| - 1].start)
      decreases |t| - offset
    {
      var more, r, limit := WrapNext(t, columns, offset, cells);
      RowIsExact(t, columns, cells, r, limit);
      RowSteps(t, columns, cells, r, limit);
      StepsTransitive(t, 0, r.start, r.next);
      WrappedSnoc(t, columns, cells, rows, r, limit);
      rows, offset := rows + [r], r.next;
    }
  }

  lemma NoneWrapped(t: seq<byte>, columns: nat, cells: Cells)
    ensures Wrapped(t, columns, cells, []) && StartOf([], 0) == 0
  {
  }

  /** The cells between two boundaries, glyph by glyph. */
  method MeasureTo(t: seq<byte>, from: nat, to: nat, cells: Cells) returns (used: nat)
    requires from <= to <= |t|
    ensures used == Width(t, from, to, cells)
  {
    hide Glyph, GlyphCells;
    used := 0;
    var i := from;
    while i < to
      invariant from <= i <= |t|
      invariant used + (if i <= to then Width(t, i, to, cells) else 0) == Width(t, from, to, cells)
      decreases |t| - i
    {
      used := used + GlyphCells(t, i, cells);
      i := i + Glyph(t, i);
    }
  }

  /** The row and column of a place in a text that is wrapped. */
  method FindCell(t: seq<byte>, cursor: nat, columns: nat, cells: Cells) returns (row: nat, column: nat, ghost shown: seq<Row>)
    requires cursor <= |t|
    ensures columns == 0 ==> row == column == 0
    ensures columns > 0 ==> column < columns && Located(t, columns, cells, cursor, shown, (row, column))
  {
    hide IsRow, Glyph, GlyphCells, Wrapped, InRow, Width;
    row, column, shown := 0, 0, [];
    if columns == 0 {
      return;
    }
    NoneWrapped(t, columns, cells);
    var offset := 0;
    while offset < |t|
      invariant offset <= |t| && column == 0 && row == |shown|
      invariant Wrapped(t, columns, cells, shown) && StartOf(shown, row) == offset
      invariant forall i :: 0 <= i < row ==> !InRow(t, shown[i], cursor)
      invariant offset <= cursor
      decreases |t| - offset
    {
      var more, r, limit := WrapNext(t, columns, offset, cells);
      RowIsExact(t, columns, cells, r, limit);
      WrappedSnoc(t, columns, cells, shown, r, limit);
      shown := shown + [r];
      offset := r.next;
      NotInRow(t, r, cursor);
      if InRow(t, r, cursor) {
        column := MeasureTo(t, r.start, Until(r, cursor), cells);
        if column >= columns {
          row, column := row + 1, 0;
        }
        return;
      }
      row := row + 1;
    }
  }

  lemma NotInRow(t: seq<byte>, r: Row, cursor: nat)
    ensures !InRow(t, r, cursor) ==> r.next <= cursor
  {
  }

  /** The furthest boundary of a row within `column` cells. */
  method ColumnInRow(t: seq<byte>, r: Row, column: nat, cells: Cells) returns (at: nat)
    requires r.start + r.bytes <= |t| && Steps(t, 0, r.start)
    ensures Furthest(t, r, column, cells, at) && Steps(t, 0, at)
  {
    hide Glyph, GlyphCells, Width;
    at := r.start;
    StepsStart(t, at, cells);
    var used := 0;
    while at < r.End()
      invariant r.start <= at <= |t| && Steps(t, 0, at) && Steps(t, r.start, at)
      invariant used == Width(t, r.start, at, cells) <= column
      decreases |t| - at
    {
      var w := GlyphCells(t, at, cells);
      if used + w > column {
        return;
      }
      StepsSnoc(t, 0, at, cells);
      StepsSnoc(t, r.start, at, cells);
      used, at := used + w, at + Glyph(t, at);
    }
  }

  /** memmove to higher positions. */
  method ShiftUp(a: array<byte>, from: nat, to: nat, gap: nat)
    requires from <= to && to + gap <= a.Length
    modifies a
    ensures forall i :: from <= i < to ==> a[i + gap] == old(a[i])
    ensures forall i :: 0 <= i < from ==> a[i] == old(a[i])
  {
    forall i | from <= i < to {
      a[i + gap] := a[i];
    }
  }

  method Put(a: array<byte>, at: nat, data: seq<byte>)
    requires at + |data| <= a.Length
    modifies a
    ensures forall i :: 0 <= i < |data| ==> a[at + i] == data[i]
    ensures forall i :: 0 <= i < at || at + |data| <= i < a.Length ==> a[i] == old(a[i])
  {
    forall i | 0 <= i < |data| {
      a[at + i] := data[i];
    }
  }

  lemma Assembled(was: seq<byte>, now: seq<byte>, cursor: nat, length: nat, data: seq<byte>)
    requires |now| == |was| && cursor <= length && length + |data| < |now|
    requires forall i :: 0 <= i < cursor ==> now[i] == was[i]
    requires forall i :: 0 <= i < |data| ==> now[cursor + i] == data[i]
    requires forall i :: cursor <= i <= length ==> now[i + |data|] == was[i]
    ensures now[..length + |data|] == was[..cursor] + data + was[cursor..length]
    ensures now[length + |data|] == was[length]
  {
    forall i | 0 <= i < length + |data|
      ensures now[i] == (was[..cursor] + data + was[cursor..length])[i]
    {
      if i >= cursor + |data| {
        assert now[(i - |data|) + |data|] == was[i - |data|];
      } else if i >= cursor {
        assert now[cursor + (i - cursor)] == data[i - cursor];
      }
    }
  }

  // ---------------------------------------------------------------- spelling

  ghost predicate Spells(bytes: seq<byte>, cursor: nat, z: Zipper) {
    bytes == EncodeAll(z.left) + EncodeAll(z.right) && cursor == |EncodeAll(z.left)|
  }

  lemma InsertNothing(z: Zipper, room: nat)
    ensures Inserted(z, [], room) == (z, true)
  {
    assert Decode([]) == Some([]);
    assert z.left + [] == z.left;
  }

  lemma InsertSpells(bytes: seq<byte>, cursor: nat, z: Zipper, utf8: seq<byte>)
    requires Spells(bytes, cursor, z) && cursor <= |bytes| && Valid(utf8)
    ensures Spells(bytes[..cursor] + utf8 + bytes[cursor..], cursor + |utf8|, z.(left := z.left + Decode(utf8).value))
  {
    hide EncodeAll, Decode;
    EncodeDecode(utf8);
    EncodeAppend(z.left, Decode(utf8).value);
  }

  lemma EmptySides(bytes: seq<byte>, cursor: nat, z: Zipper)
    requires Spells(bytes, cursor, z)
    ensures cursor <= |bytes|
    ensures cursor == 0 <==> z.left == []
    ensures cursor == |bytes| <==> z.right == []
  {
    EncodeNonEmpty(z.left);
    EncodeNonEmpty(z.right);
  }

  lemma CutLeft(bytes: seq<byte>, cursor: nat, z: Zipper, k: nat)
    requires Spells(bytes, cursor, z) && k <= |z.left|
    ensures var start := |EncodeAll(z.left[..k])|;
            start <= cursor && Spells(bytes[..start] + bytes[cursor..], start, z.(left := z.left[..k]))
  {
    hide EncodeAll;
    EncodeSplit(z.left, k);
    assert bytes[cursor..] == EncodeAll(z.right);
    assert bytes[..|EncodeAll(z.left[..k])|] == EncodeAll(z.left[..k]);
  }

  lemma NextWidth(bytes: seq<byte>, cursor: nat, z: Zipper)
    requires Spells(bytes, cursor, z) && z.right != []
    ensures cursor <= |bytes| && Length(bytes[cursor..]) == |Encode(z.right[0])|
  {
    FirstOfEncoding(z.right[0], EncodeAll(z.right[1..]));
    assert bytes[cursor..] == Encode(z.right[0]) + EncodeAll(z.right[1..]);
  }

  lemma CutRight(bytes: seq<byte>, cursor: nat, z: Zipper)
    requires Spells(bytes, cursor, z) && z.right != []
    ensures var end := cursor + |Encode(z.right[0])|;
            end <= |bytes| && Spells(bytes[..cursor] + bytes[end..], cursor, z.(right := z.right[1..]))
  {
    var end := cursor + |Encode(z.right[0])|;
    assert bytes == EncodeAll(z.left) + Encode(z.right[0]) + EncodeAll(z.right[1..]);
    assert bytes[end..] == EncodeAll(z.right[1..]) && bytes[..cursor] == EncodeAll(z.left);
  }

  lemma TruncateRight(bytes: seq<byte>, cursor: nat, z: Zipper)
    requires Spells(bytes, cursor, z)
    ensures cursor <= |bytes| && Spells(bytes[..cursor], cursor, z.(right := []))
  {
    EncodeNothing();
  }

  lemma Resplit(bytes: seq<byte>, cursor: nat, z: Zipper, k: nat)
    requires Spells(bytes, cursor, z) && k <= |z.Text()|
    ensures |EncodeAll(z.Text()[..k])| <= |bytes|
    ensures Spells(bytes, |EncodeAll(z.Text()[..k])|, Zipper(z.Text()[..k], z.Text()[k..]))
  {
    hide EncodeAll;
    EncodeAppend(z.left, z.right);
    EncodeSplit(z.Text(), k);
  }

  lemma PrefixLength(cs: seq<scalar>, k: nat)
    requires k <= |cs|
    ensures |EncodeAll(cs[..k])| == |EncodeAll(cs)| <==> k == |cs|
  {
    hide EncodeAll;
    EncodeSplit(cs, k);
    EncodeNonEmpty(cs[k..]);
    EncodeNothing();
    assert cs[..|cs|] == cs;
  }
}
