/** The editor's meaning: two lists of scalar values with the cursor between them. */
module Zipper {
  import opened Common
  import opened Utf8

  datatype Zipper = Zipper(left: seq<scalar>, right: seq<scalar>)
  {
    function Text(): seq<scalar> {
      left + right
    }

    function Size(): nat {
      |EncodeAll(left)| + |EncodeAll(right)|
    }
  }

  datatype Command =
    | Backspace | Delete | Left | Right | Home | End | KillToStart | KillToEnd | KillWord

  /** ASCII white space. */
  predicate IsSpace(c: int) {
    9 <= c <= 13 || c == 32
  }

  /** How many leading elements remain when trailing ones of the given kind are dropped. */
  function Trimmed(cs: seq<int>, spaces: bool): (n: nat)
    ensures n <= |cs|
    ensures forall i :: n <= i < |cs| ==> IsSpace(cs[i]) == spaces
    ensures n > 0 ==> IsSpace(cs[n - 1]) != spaces
  {
    if cs != [] && IsSpace(cs[|cs| - 1]) == spaces then Trimmed(cs[..|cs| - 1], spaces) else |cs|
  }

  /** Where the word before the end starts: behind it spaces, before it a space or nothing. */
  function WordStart(cs: seq<int>): (n: nat)
    ensures n <= |cs|
  {
    Trimmed(cs[..Trimmed(cs, true)], false)
  }

  /** The edited text, and whether the command did anything it could report. */
  function Edit(z: Zipper, command: Command): (Zipper, bool) {
    var n := |z.left|;
    match command
    case Backspace => if n == 0 then (z, false) else (z.(left := z.left[..n - 1]), true)
    case Delete => if z.right == [] then (z, false) else (z.(right := z.right[1..]), true)
    case Left => if n == 0 then (z, false) else (Zipper(z.left[..n - 1], [z.left[n - 1]] + z.right), true)
    case Right => if z.right == [] then (z, false) else (Zipper(z.left + [z.right[0]], z.right[1..]), true)
    case Home => (Zipper([], z.Text()), true)
    case End => (Zipper(z.Text(), []), true)
    case KillToStart => if n == 0 then (z, false) else (z.(left := []), true)
    case KillToEnd => if z.right == [] then (z, false) else (z.(right := []), true)
    case KillWord =>
      var k := WordStart(z.left);
      if k == n then (z, false) else (z.(left := z.left[..k]), true)
  }

  // ---------------------------------------------------------------- typing

  /** A text and the octets of an unfinished sequence from the terminal. */
  datatype Typing = Typing(z: Zipper, pending: seq<byte>)

  function Inserted(z: Zipper, bytes: seq<byte>, room: nat): (Zipper, bool) {
    if |bytes| <= room && Valid(bytes) then (z.(left := z.left + Decode(bytes).value), true) else (z, false)
  }

  function TypeFresh(z: Zipper, b: byte, room: nat): (Typing, bool) {
    if 0x20 <= b < 0x7f then
      var (z', ok) := Inserted(z, [b], room);
      (Typing(z', []), ok)
    else if LeadWidth(b) < 2 then (Typing(z, []), false)
    else (Typing(z, [b]), true)
  }

  function TypeByte(t: Typing, b: byte, room: nat): (Typing, bool) {
    if t.pending == [] || !Continues(b) then TypeFresh(t.z, b, room)
    else
      var p := t.pending + [b];
      if |p| < LeadWidth(p[0]) then (Typing(t.z, p), true)
      else
        var (z', ok) := Inserted(t.z, p, room);
        (Typing(z', []), ok)
  }

  function TypeAll(t: Typing, bytes: seq<byte>, capacity: nat): Typing {
    if bytes == [] then t
    else
      var before := TypeAll(t, bytes[..|bytes| - 1], capacity);
      var used := before.z.Size();
      TypeByte(before, bytes[|bytes| - 1], if used <= capacity then capacity - used else 0).0
  }

  lemma DecodeOne(c: scalar)
    ensures Decode(Encode(c)) == Some([c])
  {
    EncodeOne(c);
    DecodeEncode([c]);
  }

  lemma {:induction false} TypingPrefix(t: Typing, c: scalar, k: nat, capacity: nat)
    requires c >= 0x80 && 1 <= k < |Encode(c)|
    ensures TypeAll(t, Encode(c)[..k], capacity) == Typing(t.z, Encode(c)[..k])
  {
    EncodingShape(c);
    var e := Encode(c);
    assert e[..k][..k - 1] == e[..k - 1];
    hide Encode, Valid, Decode;
    if k > 1 {
      TypingPrefix(t, c, k - 1, capacity);
      assert e[..k - 1] + [e[k - 1]] == e[..k];
    } else {
      assert e[..k] == [e[0]];
    }
  }

  /** Typing the octets of any printable scalar value, from whatever state, with room for
      it, inserts that value at the cursor and leaves nothing pending. */
  lemma TypingScalar(t: Typing, c: scalar, capacity: nat)
    requires c >= 0x20 && c != 0x7f && t.z.Size() + |Encode(c)| <= capacity
    ensures TypeAll(t, Encode(c), capacity) == Typing(t.z.(left := t.z.left + [c]), [])
  {
    EncodingShape(c);
    DecodeOne(c);
    var e := Encode(c);
    var n := |e|;
    if n > 1 {
      TypingPrefix(t, c, n - 1, capacity);
      assert e[..n - 1] + [e[n - 1]] == e;
    } else {
      assert e[..0] == [] && e == [c];
    }
  }
}
