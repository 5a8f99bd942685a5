/** UTF-8 (section 3 of RFC 3629): the encoder is the specification, the scanners of the
    text layer are proved against it. */
module Utf8 {
  import opened Common

  /** A Unicode scalar value. */
  type scalar = c: int | 0 <= c <= 0x10ffff && !(0xd800 <= c <= 0xdfff)

  function Encode(c: scalar): (bytes: seq<byte>)
    ensures 1 <= |bytes| <= 4
  {
    var q := c / 64;
    var r := q / 64;
    if c < 0x80 then [c]
    else if c < 0x800 then [0xc0 + q, 0x80 + c % 64]
    else if c < 0x10000 then [0xe0 + r, 0x80 + q % 64, 0x80 + c % 64]
    else [0xf0 + r / 64, 0x80 + r % 64, 0x80 + q % 64, 0x80 + c % 64]
  }

  function EncodeAll(cs: seq<scalar>): seq<byte> {
    if cs == [] then [] else Encode(cs[0]) + EncodeAll(cs[1..])
  }

  // ---------------------------------------------------------------- one sequence

  predicate Continues(b: byte) {
    0x80 <= b < 0xc0
  }

  /** How long the sequence that starts with this octet is; 0 for none. */
  function LeadWidth(lead: byte): nat {
    if lead < 0x80 then 1
    else if 0xc2 <= lead <= 0xdf then 2
    else if 0xe0 <= lead <= 0xef then 3
    else if 0xf0 <= lead <= 0xf4 then 4
    else 0
  }

  function LeadBits(lead: byte): nat {
    if lead < 0x80 then lead
    else if lead <= 0xdf then lead % 32
    else if lead <= 0xef then lead % 16
    else lead % 8
  }

  function LowBits(b: byte): (low: nat)
    ensures low < 64
  {
    b % 64
  }

  /** The number spelt by a lead octet's bits and the continuation octets after it. */
  function Spelt(data: seq<byte>): nat
    requires data != []
  {
    if |data| == 1 then LeadBits(data[0])
    else Spelt(data[..|data| - 1]) * 64 + LowBits(data[|data| - 1])
  }

  predicate Acceptable(width: nat, code: nat) {
    && !(width == 2 && code < 0x80) && !(width == 3 && code < 0x800) && !(width == 4 && code < 0x10000)
    && code <= 0x10ffff && !(0xd800 <= code <= 0xdfff)
  }

  /** The scalar value at the front of the data, if a sequence stands there. */
  function First(data: seq<byte>): Option<scalar> {
    if data == [] then None
    else
      var width := LeadWidth(data[0]);
      if width == 0 || |data| < width || (exists i :: 1 <= i < width && !Continues(data[i])) then None
      else if !Acceptable(width, Spelt(data[..width])) then None
      else Some(Spelt(data[..width]))
  }

  function Length(data: seq<byte>): (n: nat)
    ensures n <= |data|
  {
    if First(data).None? then 0 else LeadWidth(data[0])
  }

  lemma SpeltSnoc(data: seq<byte>, b: byte)
    requires data != []
    ensures Spelt(data + [b]) == Spelt(data) * 64 + LowBits(b)
  {
    assert (data + [b])[..|data|] == data;
  }

  lemma SpeltTwo(a: byte, b: byte)
    ensures Spelt([a, b]) == LeadBits(a) * 64 + LowBits(b)
  {
    SpeltSnoc([a], b);
    assert [a, b] == [a] + [b];
  }

  lemma SpeltThree(a: byte, b: byte, c: byte)
    ensures Spelt([a, b, c]) == (LeadBits(a) * 64 + LowBits(b)) * 64 + LowBits(c)
  {
    hide LeadBits, LowBits;
    SpeltTwo(a, b);
    SpeltSnoc([a, b], c);
    assert [a, b, c] == [a, b] + [c];
  }

  lemma SpeltFour(a: byte, b: byte, c: byte, d: byte)
    ensures Spelt([a, b, c, d]) == ((LeadBits(a) * 64 + LowBits(b)) * 64 + LowBits(c)) * 64 + LowBits(d)
  {
    hide LeadBits, LowBits;
    SpeltThree(a, b, c);
    SpeltSnoc([a, b, c], d);
    assert [a, b, c, d] == [a, b, c] + [d];
  }

  lemma LowOf(x: nat)
    requires x < 64
    ensures LowBits(0x80 + x) == x && Continues(0x80 + x)
  {
  }

  lemma LeadOf(x: nat)
    ensures 2 <= x < 32 ==> LeadBits(0xc0 + x) == x && LeadWidth(0xc0 + x) == 2
    ensures x < 16 ==> LeadBits(0xe0 + x) == x && LeadWidth(0xe0 + x) == 3
    ensures x < 5 ==> LeadBits(0xf0 + x) == x && LeadWidth(0xf0 + x) == 4
  {
  }

  ghost predicate Shaped(e: seq<byte>, c: nat) {
    && e != []
    && LeadWidth(e[0]) == |e|
    && (forall i :: 1 <= i < |e| ==> Continues(e[i]))
    && Spelt(e) == c
    && Acceptable(|e|, c)
  }

  lemma ShapeTwo(c: scalar)
    requires 0x80 <= c < 0x800
    ensures Shaped(Encode(c), c)
  {
    hide Spelt, LeadBits, LowBits, LeadWidth, Continues;
    var q := c / 64;
    assert c == q * 64 + c % 64;
    LeadOf(q);
    LowOf(c % 64);
    SpeltTwo(0xc0 + q, 0x80 + c % 64);
  }

  lemma ShapeThree(c: scalar)
    requires 0x800 <= c < 0x10000
    ensures Shaped(Encode(c), c)
  {
    hide Spelt, LeadBits, LowBits, LeadWidth, Continues;
    var q := c / 64;
    var r := q / 64;
    assert c == q * 64 + c % 64 && q == r * 64 + q % 64;
    LeadOf(r);
    LowOf(q % 64);
    LowOf(c % 64);
    SpeltThree(0xe0 + r, 0x80 + q % 64, 0x80 + c % 64);
  }

  lemma ShapeFour(c: scalar)
    requires 0x10000 <= c
    ensures Shaped(Encode(c), c)
  {
    hide Spelt, LeadBits, LowBits, LeadWidth, Continues;
    var q := c / 64;
    var r := q / 64;
    var t := r / 64;
    assert c == q * 64 + c % 64 && q == r * 64 + q % 64 && r == t * 64 + r % 64;
    LeadOf(t);
    LowOf(r % 64);
    LowOf(q % 64);
    LowOf(c % 64);
    SpeltFour(0xf0 + t, 0x80 + r % 64, 0x80 + q % 64, 0x80 + c % 64);
  }

  /** The encoding of a scalar value has the width its lead octet says, continues as it
      should and spells the value. */
  lemma EncodingShape(c: scalar)
    ensures Shaped(Encode(c), c)
  {
    if c < 0x80 {
      SpeltOne(c);
    } else {
      hide Shaped;
      if c < 0x800 {
        ShapeTwo(c);
      } else if c < 0x10000 {
        ShapeThree(c);
      } else {
        ShapeFour(c);
      }
    }
  }

  lemma SpeltOne(a: byte)
    ensures Spelt([a]) == LeadBits(a)
  {
  }

  /** An encoded scalar value, whatever follows it, is read back. */
  lemma FirstOfEncoding(c: scalar, rest: seq<byte>)
    ensures First(Encode(c) + rest) == Some(c)
    ensures Length(Encode(c) + rest) == |Encode(c)|
  {
    hide Encode, Spelt, LeadWidth, Acceptable, Continues;
    EncodingShape(c);
    assert (Encode(c) + rest)[..|Encode(c)|] == Encode(c);
  }

  lemma UnshapeTwo(a: byte, b: byte)
    requires Shaped([a, b], Spelt([a, b]))
    ensures Encode(Spelt([a, b])) == [a, b]
  {
    SpeltTwo(a, b);
    Undo(LeadBits(a), b);
    hide Spelt, LowBits;
  }

  lemma UnshapeThree(a: byte, b: byte, c: byte)
    requires Shaped([a, b, c], Spelt([a, b, c]))
    ensures Encode(Spelt([a, b, c])) == [a, b, c]
  {
    SpeltThree(a, b, c);
    assert Continues([a, b, c][1]) && Continues([a, b, c][2]);
    Undo(LeadBits(a), b);
    Undo(LeadBits(a) * 64 + LowBits(b), c);
  }

  lemma UnshapeFour(a: byte, b: byte, c: byte, d: byte)
    requires Shaped([a, b, c, d], Spelt([a, b, c, d]))
    ensures Encode(Spelt([a, b, c, d])) == [a, b, c, d]
  {
    SpeltFour(a, b, c, d);
    assert Continues([a, b, c, d][1]) && Continues([a, b, c, d][2]) && Continues([a, b, c, d][3]);
    Undo(LeadBits(a), b);
    Undo(LeadBits(a) * 64 + LowBits(b), c);
    Undo((LeadBits(a) * 64 + LowBits(b)) * 64 + LowBits(c), d);
  }

  /** Octets that start like a sequence, continue like one and spell an acceptable value
      are that value's encoding. */
  lemma ShapeIsEncoding(e: seq<byte>)
    requires e != [] && Shaped(e, Spelt(e))
    ensures Encode(Spelt(e)) == e
  {
    hide Spelt, Encode, LeadBits;
    if |e| == 1 {
      assert e == [e[0]];
      UnshapeOne(e[0]);
    } else if |e| == 2 {
      assert e == [e[0], e[1]];
      UnshapeTwo(e[0], e[1]);
    } else if |e| == 3 {
      assert e == [e[0], e[1], e[2]];
      UnshapeThree(e[0], e[1], e[2]);
    } else {
      assert e == [e[0], e[1], e[2], e[3]];
      UnshapeFour(e[0], e[1], e[2], e[3]);
    }
  }

  lemma UnshapeOne(a: byte)
    requires Shaped([a], Spelt([a]))
    ensures Encode(Spelt([a])) == [a]
  {
  }

  lemma Undo(high: nat, b: byte)
    requires Continues(b)
    ensures (high * 64 + LowBits(b)) / 64 == high
    ensures 0x80 + (high * 64 + LowBits(b)) % 64 == b
  {
  }

  /** What is read is an encoding: the reader accepts nothing else. */
  lemma FirstIsEncoding(data: seq<byte>)
    requires First(data).Some?
    ensures Length(data) == |Encode(First(data).value)|
    ensures data[..Length(data)] == Encode(First(data).value)
  {
    hide Encode, Spelt, LeadWidth, Acceptable, Continues;
    assert Shaped(data[..LeadWidth(data[0])], Spelt(data[..LeadWidth(data[0])]));
    ShapeIsEncoding(data[..LeadWidth(data[0])]);
  }

  // ---------------------------------------------------------------- whole texts

  function Decode(data: seq<byte>): Option<seq<scalar>> {
    if data == [] then Some([])
    else if First(data).None? then None
    else
      FirstIsEncoding(data);
      match Decode(data[Length(data)..])
      case None => None
      case Some(more) => Some([First(data).value] + more)
  }

  predicate Valid(data: seq<byte>) {
    Decode(data).Some?
  }

  lemma {:induction false} DecodeEncode(cs: seq<scalar>)
    ensures Decode(EncodeAll(cs)) == Some(cs)
  {
    hide First, Length, Encode;
    if cs != [] {
      FirstOfEncoding(cs[0], EncodeAll(cs[1..]));
      assert EncodeAll(cs)[|Encode(cs[0])|..] == EncodeAll(cs[1..]);
      DecodeEncode(cs[1..]);
      assert [cs[0]] + cs[1..] == cs;
    }
  }

  lemma {:induction false} EncodeDecode(data: seq<byte>)
    requires Valid(data)
    ensures EncodeAll(Decode(data).value) == data
  {
    hide First, Length, Encode;
    if data != [] {
      FirstIsEncoding(data);
      EncodeDecode(data[Length(data)..]);
      assert Decode(data).value[1..] == Decode(data[Length(data)..]).value;
      assert data == data[..Length(data)] + data[Length(data)..];
    }
  }

  lemma {:induction false} EncodeAppend(a: seq<scalar>, b: seq<scalar>)
    ensures EncodeAll(a + b) == EncodeAll(a) + EncodeAll(b)
  {
    hide Encode;
    if a == [] {
      assert a + b == b;
    } else {
      EncodeAppend(a[1..], b);
      assert (a + b)[1..] == a[1..] + b;
    }
  }

  lemma {:induction false} EncodeNonEmpty(cs: seq<scalar>)
    ensures |EncodeAll(cs)| >= |cs|
  {
    hide Encode;
    if cs != [] {
      EncodeNonEmpty(cs[1..]);
    }
  }

  lemma EncodeOne(c: scalar)
    ensures EncodeAll([c]) == Encode(c)
  {
    assert EncodeAll([c][1..]) == [];
  }

  lemma EncodeSplit(cs: seq<scalar>, k: nat)
    requires k <= |cs|
    ensures EncodeAll(cs) == EncodeAll(cs[..k]) + EncodeAll(cs[k..])
  {
    hide EncodeAll;
    EncodeAppend(cs[..k], cs[k..]);
    assert cs == cs[..k] + cs[k..];
  }

  lemma EncodeSnoc(cs: seq<scalar>, k: nat)
    requires k < |cs|
    ensures EncodeAll(cs[..k + 1]) == EncodeAll(cs[..k]) + Encode(cs[k])
    ensures EncodeAll(cs[k..]) == Encode(cs[k]) + EncodeAll(cs[k + 1..])
  {
    hide EncodeAll;
    EncodeAppend(cs[..k], [cs[k]]);
    EncodeAppend([cs[k]], cs[k + 1..]);
    EncodeOne(cs[k]);
    assert cs[..k + 1] == cs[..k] + [cs[k]];
    assert cs[k..] == [cs[k]] + cs[k + 1..];
  }

  lemma EncodeLast(cs: seq<scalar>)
    requires cs != []
    ensures EncodeAll(cs) == EncodeAll(cs[..|cs| - 1]) + Encode(cs[|cs| - 1])
  {
    hide EncodeAll, Encode;
    EncodeSnoc(cs, |cs| - 1);
    assert cs[..|cs|] == cs;
  }

  /** Equal bytes, equal scalar values. */
  lemma EncodeInjective(a: seq<scalar>, b: seq<scalar>)
    requires EncodeAll(a) == EncodeAll(b)
    ensures a == b
  {
    DecodeEncode(a);
    DecodeEncode(b);
  }

  /** A boundary between two encoded texts is found again: no sequence straddles it. */
  lemma {:induction false} SplitUnique(a: seq<scalar>, b: seq<scalar>, c: seq<scalar>, d: seq<scalar>)
    requires EncodeAll(a) + EncodeAll(b) == EncodeAll(c) + EncodeAll(d)
    requires |EncodeAll(a)| == |EncodeAll(c)|
    ensures a == c && b == d
  {
    assert EncodeAll(a) == (EncodeAll(a) + EncodeAll(b))[..|EncodeAll(a)|] == EncodeAll(c);
    assert EncodeAll(b) == (EncodeAll(a) + EncodeAll(b))[|EncodeAll(a)|..] == EncodeAll(d);
    EncodeInjective(a, c);
    EncodeInjective(b, d);
  }

  // ---------------------------------------------------------------- the scanners

  /** The length of the sequence at the front, by one pass over its continuation octets. */
  method SequenceLength(data: seq<byte>) returns (n: nat)
    ensures n == Length(data)
  {
    if |data| == 0 {
      return 0;
    }
    var lead := data[0];
    if lead < 0x80 {
      assert Spelt(data[..1]) == lead;
      return 1;
    }
    var width, code: nat := 0, 0;
    if 0xc2 <= lead <= 0xdf {
      width, code := 2, lead % 32;
    } else if 0xe0 <= lead <= 0xef {
      width, code := 3, lead % 16;
    } else if 0xf0 <= lead <= 0xf4 {
      width, code := 4, lead % 8;
    } else {
      return 0;
    }
    if |data| < width {
      return 0;
    }
    for i := 1 to width
      invariant forall j :: 1 <= j < i ==> Continues(data[j])
      invariant code == Spelt(data[..i])
    {
      if !Continues(data[i]) {
        return 0;
      }
      assert data[..i + 1][..i] == data[..i];
      code := code * 64 + LowBits(data[i]);
    }
    return if Acceptable(width, code) then width else 0;
  }

  /** Validity, by stepping over sequences. */
  method CheckValid(data: seq<byte>) returns (ok: bool)
    ensures ok == Valid(data)
  {
    hide First, Length;
    var offset := 0;
    assert data[0..] == data;
    while offset < |data|
      invariant offset <= |data|
      invariant Valid(data) == Valid(data[offset..])
      decreases |data| - offset
    {
      var width := SequenceLength(data[offset..]);
      LengthZero(data[offset..]);
      if width == 0 {
        return false;
      }
      assert data[offset..][width..] == data[offset + width..];
      offset := offset + width;
    }
    return true;
  }

  lemma LengthZero(data: seq<byte>)
    ensures Length(data) == 0 <==> First(data).None?
  {
  }
}
