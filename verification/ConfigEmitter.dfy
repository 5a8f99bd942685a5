/** The writer: a buffer that texts are appended to, and the configuration written into it. */
module ConfigEmitter {
  import opened Common
  import opened Config

  /** A piece of text and the error that not fitting it is, or an interface that cannot be written. */
  datatype Piece = Piece(text: string, failure: Status) | Untyped

  function LinePieces(lines: seq<string>): seq<Piece> {
    seq(|lines|, i requires 0 <= i < |lines| => Piece(lines[i] + "\n", Overflow))
  }

  /** The heading, type and state of an interface go together, the rest line by line. */
  function ItemPieces(i: Interface): seq<Piece> {
    if i.kind.None? then [Untyped]
    else
      [Piece(Joined([NameLine(i.name), PairLine(Pair(KType, KindName(i.kind.value))), PairLine(Pair(KEnabled, YesNo(i.enabled)))]),
             Protocol)]
      + LinePieces(PairLines(KindPairs(i, i.kind.value)) + [""])
  }

  function ItemsPieces(items: seq<Interface>): seq<Piece> {
    if items == [] then [] else ItemsPieces(items[..|items| - 1]) + ItemPieces(items[|items| - 1])
  }

  function Pieces(c: Config): seq<Piece> {
    [Piece(Joined(HeaderLines(c.options)), Overflow)] + ItemsPieces(c.interfaces)
  }

  /** What comes of writing pieces one after another where the text so far has a length. */
  function Result(pieces: seq<Piece>, length: nat, capacity: nat): (Status, nat) {
    if pieces == [] then (Ok, length)
    else
      var (status, used) := Result(pieces[..|pieces| - 1], length, capacity);
      var p := pieces[|pieces| - 1];
      if status != Ok then (status, used)
      else if p.Untyped? then (Protocol, used)
      else if used + |p.text| >= capacity then (p.failure, used)
      else (Ok, used + |p.text|)
  }

  function PieceText(pieces: seq<Piece>): string {
    if pieces == [] then ""
    else PieceText(pieces[..|pieces| - 1]) + (if pieces[|pieces| - 1].Piece? then pieces[|pieces| - 1].text else "")
  }

  lemma TextSnoc(pieces: seq<Piece>, p: Piece)
    ensures PieceText(pieces + [p]) == PieceText(pieces) + (if p.Piece? then p.text else "")
  {
    assert (pieces + [p])[..|pieces|] == pieces;
  }

  lemma {:induction false} TextAppend(a: seq<Piece>, b: seq<Piece>)
    ensures PieceText(a + b) == PieceText(a) + PieceText(b)
    decreases b
  {
    hide PieceText;
    if b == [] {
      NoPieces();
      assert a + b == a;
    } else {
      var front, last := b[..|b| - 1], b[|b| - 1];
      TextAppend(a, front);
      assert a + b == (a + front) + [last] && b == front + [last];
      TextSnoc(a + front, last);
      TextSnoc(front, last);
    }
  }

  predicate Faults(pieces: seq<Piece>) {
    forall i :: 0 <= i < |pieces| && pieces[i].Piece? ==> pieces[i].failure != Ok
  }

  predicate Emittable(pieces: seq<Piece>) {
    forall i :: 0 <= i < |pieces| ==> pieces[i].Piece?
  }

  /** Writing succeeds exactly when nothing is untyped and the whole text, with its terminator, fits. */
  lemma {:induction false} ResultExact(pieces: seq<Piece>, capacity: nat)
    requires capacity > 0 && Faults(pieces)
    ensures Result(pieces, 0, capacity).0 == Ok <==> Emittable(pieces) && |PieceText(pieces)| < capacity
    ensures Result(pieces, 0, capacity).0 == Ok ==> Result(pieces, 0, capacity).1 == |PieceText(pieces)|
    decreases pieces
  {
    if pieces != [] {
      var front, last := pieces[..|pieces| - 1], pieces[|pieces| - 1];
      assert pieces == front + [last];
      ResultExact(front, capacity);
      TextSnoc(front, last);
    }
  }

  lemma {:induction false} LinePiecesText(lines: seq<string>)
    ensures PieceText(LinePieces(lines)) == Joined(lines)
    ensures Emittable(LinePieces(lines)) && Faults(LinePieces(lines))
  {
    if lines != [] {
      var first, rest := lines[0], lines[1..];
      LinePiecesText(rest);
      var p := Piece(first + "\n", Overflow);
      assert LinePieces(lines) == [p] + LinePieces(rest);
      TextAppend([p], LinePieces(rest));
      OnePiece(p);
    }
  }

  lemma OnePiece(p: Piece)
    ensures PieceText([p]) == if p.Piece? then p.text else ""
  {
    TextSnoc([], p);
    assert [] + [p] == [p];
  }

  lemma {:induction false} JoinedAppend(a: seq<string>, b: seq<string>)
    ensures Joined(a + b) == Joined(a) + Joined(b)
  {
    if a == [] {
      assert a + b == b;
    } else {
      JoinedAppend(a[1..], b);
      assert (a + b)[1..] == a[1..] + b;
    }
  }

  lemma ItemPiecesText(i: Interface)
    requires i.kind.Some?
    ensures PieceText(ItemPieces(i)) == Joined(InterfaceLines(i))
    ensures Emittable(ItemPieces(i)) && Faults(ItemPieces(i))
  {
    hide PieceText, Joined, LinePieces, KindPairs, KindName, YesNo, NameLine, PairLine;
    var k := i.kind.value;
    var head := [NameLine(i.name), PairLine(Pair(KType, KindName(k))), PairLine(Pair(KEnabled, YesNo(i.enabled)))];
    var rest := PairLines(KindPairs(i, k)) + [""];
    LinePiecesText(rest);
    OnePiece(Piece(Joined(head), Protocol));
    TextAppend([Piece(Joined(head), Protocol)], LinePieces(rest));
    JoinedAppend(head, rest);
    assert InterfaceLines(i) == head + rest;
  }

  lemma {:induction false} ItemsPiecesText(items: seq<Interface>)
    ensures Faults(ItemsPieces(items))
    ensures Emittable(ItemsPieces(items)) <==> AllTyped(items)
    ensures AllTyped(items) ==> PieceText(ItemsPieces(items)) == Joined(ItemLines(items))
    decreases items
  {
    hide PieceText, Joined, ItemPieces, InterfaceLines;
    if items == [] {
      NoPieces();
    } else {
      var front, last := items[..|items| - 1], items[|items| - 1];
      ItemsPiecesText(front);
      if last.kind.None? {
        UntypedPieces(last);
        assert ItemsPieces(items)[|ItemsPieces(front)|].Untyped?;
      } else {
        ItemPiecesText(last);
        TextAppend(ItemsPieces(front), ItemPieces(last));
        assert items == front + [last];
        if AllTyped(front) {
          ItemLinesSnoc(front, last);
          JoinedAppend(ItemLines(front), InterfaceLines(last));
        }
      }
    }
  }

  lemma NoPieces()
    ensures PieceText([]) == "" && Joined([]) == ""
  {
  }

  lemma UntypedPieces(i: Interface)
    requires i.kind.None?
    ensures ItemPieces(i) == [Untyped]
  {
  }

  lemma {:induction false} ItemLinesSnoc(items: seq<Interface>, i: Interface)
    requires AllTyped(items) && i.kind.Some?
    ensures ItemLines(items + [i]) == ItemLines(items) + InterfaceLines(i)
  {
    hide InterfaceLines;
    if items == [] {
      assert items + [i] == [i] && [i][1..] == [];
    } else {
      ItemLinesSnoc(items[1..], i);
      assert (items + [i])[1..] == items[1..] + [i];
    }
  }

  /** The pieces of a typed configuration make up its text, and nothing else can be written. */
  lemma PiecesText(c: Config)
    ensures Faults(Pieces(c))
    ensures Emittable(Pieces(c)) <==> AllTyped(c.interfaces)
    ensures AllTyped(c.interfaces) ==> PieceText(Pieces(c)) == Written(c)
  {
    hide PieceText, Joined, ItemsPieces, HeaderLines, ItemLines;
    var head := Piece(Joined(HeaderLines(c.options)), Overflow);
    ItemsPiecesText(c.interfaces);
    OnePiece(head);
    TextAppend([head], ItemsPieces(c.interfaces));
    if AllTyped(c.interfaces) {
      JoinedAppend(HeaderLines(c.options), ItemLines(c.interfaces));
    } else {
      var j :| 0 <= j < |ItemsPieces(c.interfaces)| && ItemsPieces(c.interfaces)[j].Untyped?;
      assert Pieces(c)[j + 1] == ItemsPieces(c.interfaces)[j];
    }
  }

  // ---------------------------------------------------------------- the buffer

  class Emitter {
    const output: array<char>
    var length: nat

    ghost predicate Valid()
      reads this
    {
      length <= output.Length
    }

    ghost function Contents(): string
      requires Valid()
      reads this, output
    {
      output[..length]
    }

    constructor (buffer: array<char>)
      ensures Valid() && output == buffer && length == 0
    {
      output := buffer;
      length := 0;
    }

    /** Appends a text that fits with its terminator, or changes nothing that counts. */
    method Emit(text: string) returns (ok: bool)
      requires Valid()
      modifies this, output
      ensures Valid()
      ensures ok <==> old(length) + |text| < output.Length
      ensures Contents() == old(Contents()) + (if ok then text else "")
    {
      ghost var before := Contents();
      assert before + "" == before;
      if length >= output.Length || |text| >= output.Length - length {
        return false;
      }
      for i := 0 to |text|
        invariant length + i <= output.Length && length == old(length)
        invariant output[..length + i] == before + text[..i]
      {
        output[length + i] := text[i];
        assert output[..length + i + 1] == output[..length + i] + [text[i]];
        assert text[..i + 1] == text[..i] + [text[i]];
      }
      assert text[..|text|] == text;
      length := length + |text|;
      return true;
    }

    /** Writes pieces until one cannot be written. */
    method EmitAll(pieces: seq<Piece>) returns (status: Status)
      requires Valid() && output.Length > 0 && Faults(pieces)
      modifies this, output
      ensures Valid()
      ensures (status, length) == Result(pieces, old(length), output.Length)
      ensures status == Ok ==> Contents() == old(Contents()) + PieceText(pieces)
    {
      hide Result, PieceText;
      ghost var before := Contents();
      NoResult(length, output.Length);
      NoPieces();
      assert pieces[..0] == [];
      for i := 0 to |pieces|
        invariant Valid() && Result(pieces[..i], old(length), output.Length) == (Ok, length)
        invariant Contents() == before + PieceText(pieces[..i])
      {
        assert pieces[..i + 1] == pieces[..i] + [pieces[i]];
        ResultSnoc(pieces[..i], pieces[i], old(length), output.Length);
        TextSnoc(pieces[..i], pieces[i]);
        if pieces[i].Untyped? {
          ResultFails(pieces, i + 1, old(length), output.Length);
          return Protocol;
        }
        var ok := Emit(pieces[i].text);
        if !ok {
          ResultFails(pieces, i + 1, old(length), output.Length);
          return pieces[i].failure;
        }
      }
      assert pieces[..|pieces|] == pieces;
      return Ok;
    }
  }

  lemma NoResult(length: nat, capacity: nat)
    ensures Result([], length, capacity) == (Ok, length)
  {
  }

  lemma ResultSnoc(pieces: seq<Piece>, p: Piece, length: nat, capacity: nat)
    requires Result(pieces, length, capacity).0 == Ok
    ensures var used := Result(pieces, length, capacity).1;
            Result(pieces + [p], length, capacity)
            == if p.Untyped? then (Protocol, used)
               else if used + |p.text| >= capacity then (p.failure, used)
               else (Ok, used + |p.text|)
  {
    assert (pieces + [p])[..|pieces|] == pieces;
  }

  lemma {:induction false} ResultFails(pieces: seq<Piece>, i: nat, length: nat, capacity: nat)
    requires i <= |pieces| && Result(pieces[..i], length, capacity).0 != Ok
    ensures Result(pieces, length, capacity) == Result(pieces[..i], length, capacity)
    decreases |pieces|
  {
    if i < |pieces| {
      var front := pieces[..|pieces| - 1];
      assert front[..i] == pieces[..i];
      ResultFails(front, i, length, capacity);
    } else {
      assert pieces[..i] == pieces;
    }
  }

  /** Writes a configuration. It succeeds exactly when every interface has a type and the text fits with
      its terminator; the length is set only then. */
  method WriteConfig(c: Config, output: array<char>) returns (status: Status, length: nat)
    modifies output
    ensures output.Length == 0 ==> status == InvalidArgument
    ensures output.Length > 0 ==> status == Result(Pieces(c), 0, output.Length).0
    ensures status == Ok <==> output.Length > 0 && AllTyped(c.interfaces) && |Written(c)| < output.Length
    ensures status == Ok ==> length == |Written(c)| && output[..length] == Written(c)
    ensures status != Ok ==> length == 0
  {
    hide Result, PieceText, Pieces, Written, AllTyped;
    if output.Length == 0 {
      return InvalidArgument, 0;
    }
    PiecesText(c);
    ResultExact(Pieces(c), output.Length);
    var emitter := new Emitter(output);
    status := emitter.EmitAll(Pieces(c));
    if status != Ok {
      return status, 0;
    }
    return Ok, emitter.length;
  }
}
