/** The reflected CRC-32 of the settings file, and the errors it cannot miss. */
module Crc32 {
  import opened Common

  // ---------------------------------------------------------------- octets as bits

  /** The eight bits of an octet, lowest first. */
  datatype Bits = Bits(b0: bool, b1: bool, b2: bool, b3: bool, b4: bool, b5: bool, b6: bool, b7: bool)

  function Odd(n: nat): bool {
    n % 2 == 1
  }

  function BitsOf(b: byte): Bits {
    Bits(Odd(b), Odd(b / 2), Odd(b / 2 / 2), Odd(b / 2 / 2 / 2), Odd(b / 2 / 2 / 2 / 2),
         Odd(b / 2 / 2 / 2 / 2 / 2), Odd(b / 2 / 2 / 2 / 2 / 2 / 2), Odd(b / 2 / 2 / 2 / 2 / 2 / 2 / 2))
  }

  lemma HalfOdd(n: nat, m: nat)
    requires n / 2 == m / 2 && Odd(n) == Odd(m)
    ensures n == m
  {
  }

  lemma BitsInjective(a: byte, b: byte)
    requires BitsOf(a) == BitsOf(b)
    ensures a == b
  {
    var a1, b1 := a / 2, b / 2;
    var a2, b2 := a1 / 2, b1 / 2;
    var a3, b3 := a2 / 2, b2 / 2;
    var a4, b4 := a3 / 2, b3 / 2;
    var a5, b5 := a4 / 2, b4 / 2;
    var a6, b6 := a5 / 2, b5 / 2;
    var a7, b7 := a6 / 2, b6 / 2;
    assert a7 < 2 && b7 < 2;
    HalfOdd(a7, b7);
    HalfOdd(a6, b6);
    HalfOdd(a5, b5);
    HalfOdd(a4, b4);
    HalfOdd(a3, b3);
    HalfOdd(a2, b2);
    HalfOdd(a1, b1);
    HalfOdd(a, b);
  }

  function WordOf(x: Bits): bv32 {
    (if x.b0 then 1 else 0) | (if x.b1 then 2 else 0) | (if x.b2 then 4 else 0) | (if x.b3 then 8 else 0)
    | (if x.b4 then 16 else 0) | (if x.b5 then 32 else 0) | (if x.b6 then 64 else 0) | (if x.b7 then 128 else 0)
  }

  lemma WordOfInjective(x: Bits, y: Bits)
    requires WordOf(x) == WordOf(y)
    ensures x == y
  {
  }

  lemma WordOfBound(x: Bits)
    ensures WordOf(x) <= 0xff
  {
  }

  function Word(b: byte): bv32 {
    WordOf(BitsOf(b))
  }

  lemma WordInjective(a: byte, b: byte)
    requires Word(a) == Word(b)
    ensures a == b
  {
    hide WordOf, BitsOf;
    WordOfInjective(BitsOf(a), BitsOf(b));
    BitsInjective(a, b);
  }

  // ---------------------------------------------------------------- the register

  function Xor(a: bv32, b: bv32): bv32 {
    a ^ b
  }

  function Down(w: bv32): bv32 {
    w >> 1
  }

  /** What a shift mixes in for the bit that falls out. */
  function Feedback(w: bv32): bv32 {
    if w & 1 == 1 then 0xedb88320 else 0
  }

  function Shift(crc: bv32): bv32 {
    Xor(Down(crc), Feedback(crc))
  }

  function Shifts(crc: bv32, n: nat): bv32
    decreases n
  {
    if n == 0 then crc else Shifts(Shift(crc), n - 1)
  }

  function Update(crc: bv32, data: seq<byte>): bv32
    decreases data
  {
    if data == [] then crc else Update(Shifts(Xor(crc, Word(data[0])), 8), data[1..])
  }

  /** The checksum of a message. */
  function Checksum(data: seq<byte>): bv32 {
    Xor(Update(0xffffffff, data), 0xffffffff)
  }

  /** One pass over the data, eight shifts an octet. */
  method UpdateInPlace(start: bv32, data: seq<byte>) returns (crc: bv32)
    ensures crc == Update(start, data)
  {
    hide Shift, Xor, Word;
    crc := start;
    assert data[0..] == data;
    for i := 0 to |data|
      invariant Update(start, data) == Update(crc, data[i..])
    {
      ghost var mixed := Xor(crc, Word(data[i]));
      crc := Xor(crc, Word(data[i]));
      for bit := 0 to 8
        invariant Shifts(mixed, 8) == Shifts(crc, 8 - bit)
      {
        crc := Shift(crc);
      }
      assert data[i..][1..] == data[i + 1..];
    }
  }

  // ---------------------------------------------------------------- injectivity

  lemma XorInjective(a: bv32, b: bv32, w: bv32)
    requires Xor(a, w) == Xor(b, w) || Xor(w, a) == Xor(w, b)
    ensures a == b
  {
  }

  /** The top bit of the polynomial is set, so a shift can be undone. */
  lemma ShiftInjective(a: bv32, b: bv32)
    requires Shift(a) == Shift(b)
    ensures a == b
  {
  }

  lemma {:induction false} ShiftsInjective(a: bv32, b: bv32, n: nat)
    requires Shifts(a, n) == Shifts(b, n)
    ensures a == b
    decreases n
  {
    hide Shift;
    if n > 0 {
      ShiftsInjective(Shift(a), Shift(b), n - 1);
      ShiftInjective(a, b);
    }
  }

  /** Different registers stay different, whatever follows. */
  lemma {:induction false} UpdateInjective(a: bv32, b: bv32, data: seq<byte>)
    requires Update(a, data) == Update(b, data)
    ensures a == b
    decreases data
  {
    hide Shifts, Word, Xor;
    if data != [] {
      var w := Word(data[0]);
      UpdateInjective(Shifts(Xor(a, w), 8), Shifts(Xor(b, w), 8), data[1..]);
      ShiftsInjective(Xor(a, w), Xor(b, w), 8);
      XorInjective(a, b, w);
    }
  }

  lemma {:induction false} UpdateAppend(crc: bv32, a: seq<byte>, b: seq<byte>)
    ensures Update(crc, a + b) == Update(Update(crc, a), b)
    decreases a
  {
    hide Shifts, Word, Xor;
    if a == [] {
      assert a + b == b;
    } else {
      UpdateAppend(Shifts(Xor(crc, Word(a[0])), 8), a[1..], b);
      assert (a + b)[1..] == a[1..] + b;
    }
  }

  // ---------------------------------------------------------------- four octets at once

  function Up(w: bv32): bv32 {
    w << 8
  }

  /** Octets as the register takes them in: the first in the lowest position. */
  function LittleEndian(data: seq<byte>): bv32 {
    if data == [] then 0 else Xor(Word(data[0]), Up(LittleEndian(data[1..])))
  }

  function Double(w: bv32): bv32 {
    w << 1
  }

  predicate Half(w: bv32) {
    w <= 0x7fffffff
  }

  lemma DownMix(v: bv32, w: bv32)
    requires Half(w)
    ensures Down(Xor(v, Double(w))) == Xor(Down(v), w)
  {
  }

  lemma FeedbackMix(v: bv32, w: bv32)
    ensures Feedback(Xor(v, Double(w))) == Feedback(v)
  {
    assert Xor(v, Double(w)) & 1 == v & 1;
  }

  lemma XorAssociative(a: bv32, b: bv32, c: bv32)
    ensures Xor(Xor(a, b), c) == Xor(a, Xor(b, c))
  {
  }

  lemma XorCommutes(a: bv32, b: bv32)
    ensures Xor(a, b) == Xor(b, a)
  {
  }

  /** What is mixed in after a shift may be mixed in one position higher before it. */
  lemma ShiftAhead(v: bv32, w: bv32)
    requires Half(w)
    ensures Shift(Xor(v, Double(w))) == Xor(Shift(v), w)
  {
    hide Xor, Double, Half, Down, Feedback;
    DownMix(v, w);
    FeedbackMix(v, w);
    XorAssociative(Down(v), w, Feedback(v));
    XorCommutes(w, Feedback(v));
    XorAssociative(Down(v), Feedback(v), w);
  }

  lemma ShiftAheadTwice(v: bv32, w: bv32)
    requires Half(w) && Half(Double(w))
    ensures Shift(Shift(Xor(v, Double(Double(w))))) == Xor(Shift(Shift(v)), w)
  {
    hide Shift, Xor, Double, Half;
    ShiftAhead(v, Double(w));
    ShiftAhead(Shift(v), w);
  }

  lemma Doublings(w: bv32)
    requires w <= 0xffffff
    ensures Half(w) && Half(w << 1) && Half(w << 2) && Half(w << 3)
    ensures Half(w << 4) && Half(w << 5) && Half(w << 6) && Half(w << 7)
    ensures Double(w) == w << 1 && Double(w << 2) == w << 3
    ensures Double(w << 4) == w << 5 && Double(w << 6) == w << 7
    ensures Double(w << 1) == w << 2 && Double(w << 3) == w << 4
    ensures Double(w << 5) == w << 6 && Double(w << 7) == Up(w)
  {
  }

  lemma ShiftsEight(v: bv32)
    ensures Shifts(v, 8) == Shift(Shift(Shift(Shift(Shift(Shift(Shift(Shift(v))))))))
  {
    hide Shift;
    ShiftsTwo(v, 8);
    ShiftsTwo(Shift(Shift(v)), 6);
    ShiftsTwo(Shift(Shift(Shift(Shift(v)))), 4);
    ShiftsTwo(Shift(Shift(Shift(Shift(Shift(Shift(v)))))), 2);
  }

  lemma ShiftsTwo(v: bv32, n: nat)
    requires n >= 2
    ensures Shifts(v, n) == Shifts(Shift(Shift(v)), n - 2)
  {
    hide Shift;
  }

  lemma ShiftsAhead(v: bv32, w: bv32)
    requires w <= 0xffffff
    ensures Shifts(Xor(v, Up(w)), 8) == Xor(Shifts(v, 8), w)
  {
    hide Shift, Shifts, Xor, Up, Double, Half;
    Doublings(w);
    var v2 := Shift(Shift(v));
    var v4 := Shift(Shift(v2));
    var v6 := Shift(Shift(v4));
    ShiftAheadTwice(v, w << 6);
    ShiftAheadTwice(v2, w << 4);
    ShiftAheadTwice(v4, w << 2);
    ShiftAheadTwice(v6, w);
    ShiftsEight(v);
    ShiftsEight(Xor(v, Up(w)));
  }

  lemma {:induction false} LittleEndianBound(data: seq<byte>)
    requires |data| <= 3
    ensures LittleEndian(data) <= 0xffffff
    ensures |data| <= 2 ==> LittleEndian(data) <= 0xffff
    ensures |data| <= 1 ==> LittleEndian(data) <= 0xff
    ensures |data| == 0 ==> LittleEndian(data) == 0
  {
    if data != [] {
      LittleEndianBound(data[1..]);
      BoundUp(Word(data[0]), LittleEndian(data[1..]));
      WordOfBound(BitsOf(data[0]));
      hide Word, WordOf, BitsOf, Xor, Up;
    }
  }

  lemma BoundUp(w: bv32, rest: bv32)
    ensures w <= 0xff && rest <= 0xffff ==> Xor(w, Up(rest)) <= 0xffffff
    ensures w <= 0xff && rest <= 0xff ==> Xor(w, Up(rest)) <= 0xffff
    ensures w <= 0xff && rest == 0 ==> Xor(w, Up(rest)) <= 0xff
  {
  }

  /** Up to four octets enter the register as one word. */
  lemma {:induction false} UpdateIsOneMix(crc: bv32, data: seq<byte>)
    requires |data| <= 4
    ensures Update(crc, data) == Shifts(Xor(crc, LittleEndian(data)), 8 * |data|)
    decreases data
  {
    hide Shift, Word, Up, Xor;
    if data == [] {
      XorZero(crc);
    } else {
      var w, rest := Word(data[0]), LittleEndian(data[1..]);
      LittleEndianBound(data[1..]);
      ShiftsAhead(Xor(crc, w), rest);
      XorAssociative(crc, w, Up(rest));
      UpdateIsOneMix(Shifts(Xor(crc, w), 8), data[1..]);
      ShiftsAdd(Xor(crc, LittleEndian(data)), 8, 8 * |data[1..]|);
    }
  }

  lemma XorZero(a: bv32)
    ensures Xor(a, 0) == a
  {
  }

  lemma {:induction false} ShiftsAdd(v: bv32, m: nat, n: nat)
    ensures Shifts(Shifts(v, m), n) == Shifts(v, m + n)
    decreases m
  {
    hide Shift;
    if m > 0 {
      ShiftsAdd(Shift(v), m - 1, n);
    }
  }

  lemma {:induction false} LittleEndianInjective(a: seq<byte>, b: seq<byte>)
    requires |a| == |b| <= 4 && LittleEndian(a) == LittleEndian(b)
    ensures a == b
    decreases a
  {
    if a != [] {
      LittleEndianBound(a[1..]);
      LittleEndianBound(b[1..]);
      WordOfBound(BitsOf(a[0]));
      WordOfBound(BitsOf(b[0]));
      Unmix(Word(a[0]), LittleEndian(a[1..]), Word(b[0]), LittleEndian(b[1..]));
      WordInjective(a[0], b[0]);
      LittleEndianInjective(a[1..], b[1..]);
      assert a == [a[0]] + a[1..] && b == [b[0]] + b[1..];
      hide Word, WordOf, BitsOf, Xor, Up;
    }
  }

  lemma Unmix(w: bv32, rest: bv32, w': bv32, rest': bv32)
    requires w <= 0xff && w' <= 0xff && rest <= 0xffffff && rest' <= 0xffffff
    requires Xor(w, Up(rest)) == Xor(w', Up(rest'))
    ensures w == w' && rest == rest'
  {
  }

  /** Any change confined to four consecutive octets changes the checksum. */
  lemma BurstDetected(before: seq<byte>, a: seq<byte>, b: seq<byte>, after: seq<byte>)
    requires |a| == |b| <= 4 && a != b
    ensures Checksum(before + a + after) != Checksum(before + b + after)
  {
    hide Shifts, Word, Xor, LittleEndian, Update;
    var crc := Update(0xffffffff, before);
    UpdateAppend(0xffffffff, before + a, after);
    UpdateAppend(0xffffffff, before, a);
    UpdateAppend(0xffffffff, before + b, after);
    UpdateAppend(0xffffffff, before, b);
    if Checksum(before + a + after) == Checksum(before + b + after) {
      XorInjective(Update(0xffffffff, before + a + after), Update(0xffffffff, before + b + after), 0xffffffff);
      UpdateInjective(Update(crc, a), Update(crc, b), after);
      UpdateIsOneMix(crc, a);
      UpdateIsOneMix(crc, b);
      ShiftsInjective(Xor(crc, LittleEndian(a)), Xor(crc, LittleEndian(b)), 8 * |a|);
      XorInjective(LittleEndian(a), LittleEndian(b), crc);
      LittleEndianInjective(a, b);
    }
  }

  // ---------------------------------------------------------------- the stored checksum

  function Digit(bit: bool): nat {
    if bit then 1 else 0
  }

  function Low(n: nat, bit: bool): nat {
    2 * n + Digit(bit)
  }

  lemma LowHalves(n: nat, bit: bool)
    ensures Low(n, bit) / 2 == n && Odd(Low(n, bit)) == bit
  {
  }

  function ByteOf(x: Bits): (b: byte)
    ensures BitsOf(b) == x
  {
    var n7 := Digit(x.b7);
    var n6 := Low(n7, x.b6);
    var n5 := Low(n6, x.b5);
    var n4 := Low(n5, x.b4);
    var n3 := Low(n4, x.b3);
    var n2 := Low(n3, x.b2);
    var n1 := Low(n2, x.b1);
    LowHalves(n7, x.b6);
    LowHalves(n6, x.b5);
    LowHalves(n5, x.b4);
    LowHalves(n4, x.b3);
    LowHalves(n3, x.b2);
    LowHalves(n2, x.b1);
    LowHalves(n1, x.b0);
    Low(n1, x.b0)
  }

  function LowBits(w: bv32): Bits {
    Bits(w & 1 != 0, w & 2 != 0, w & 4 != 0, w & 8 != 0, w & 16 != 0, w & 32 != 0, w & 64 != 0, w & 128 != 0)
  }

  function Octet(w: bv32): byte {
    ByteOf(LowBits(w))
  }

  /** A word as four octets, the highest first. */
  function Spell(w: bv32): (octets: seq<byte>)
    ensures |octets| == 4
  {
    [Octet(w >> 24), Octet(w >> 16), Octet(w >> 8), Octet(w)]
  }

  function ReadWord(octets: seq<byte>): bv32
    requires |octets| == 4
  {
    (Word(octets[0]) << 24) | (Word(octets[1]) << 16) | (Word(octets[2]) << 8) | Word(octets[3])
  }

  lemma LowBitsMask(w: bv32)
    ensures WordOf(LowBits(w)) == w & 0xff
  {
  }

  lemma OctetWord(w: bv32)
    ensures Word(Octet(w)) == w & 0xff
  {
    hide WordOf, LowBits;
    LowBitsMask(w);
  }

  lemma FourOctets(w: bv32)
    ensures (((w >> 24) & 0xff) << 24) | (((w >> 16) & 0xff) << 16) | (((w >> 8) & 0xff) << 8) | (w & 0xff) == w
  {
  }

  lemma ReadSpell(w: bv32)
    ensures ReadWord(Spell(w)) == w
  {
    hide Word, Octet;
    OctetWord(w >> 24);
    OctetWord(w >> 16);
    OctetWord(w >> 8);
    OctetWord(w);
    FourOctets(w);
  }
}
