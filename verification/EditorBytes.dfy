/** How editing octets of encoded text relates to editing its scalar values. */
module EditorBytes {
  import opened Common
  import opened Utf8
  import opened Zipper
  import opened TextWrap

  // ---------------------------------------------------------------- bytes and scalar values

  /** Going back over continuation octets from the end of an encoded text stops at the
      start of its last sequence. */
  lemma LastSequence(cs: seq<scalar>, start: nat)
    requires cs != [] && start < |EncodeAll(cs)|
    requires !Continues(EncodeAll(cs)[start])
    requires forall i :: start < i < |EncodeAll(cs)| ==> Continues(EncodeAll(cs)[i])
    ensures start == |EncodeAll(cs[..|cs| - 1])|
  {
    hide EncodeAll, Encode, LeadWidth, Continues, Spelt;
    var n, e := |cs| - 1, Encode(cs[|cs| - 1]);
    EncodeLast(cs);
    EncodingShape(cs[n]);
    LeadNeverContinues(e[0]);
    var whole, at := EncodeAll(cs), |EncodeAll(cs[..n])|;
    assert forall i :: 0 <= i < |e| ==> whole[at + i] == e[i];
    assert whole[at] == e[0];
  }

  lemma LeadNeverContinues(lead: byte)
    requires LeadWidth(lead) > 0
    ensures !Continues(lead)
  {
  }

  lemma FirstOctet(cs: seq<scalar>)
    requires cs != []
    ensures EncodeAll(cs) != [] && !Continues(EncodeAll(cs)[0])
  {
    EncodingShape(cs[0]);
    LeadNeverContinues(Encode(cs[0])[0]);
  }

  /** The octets of a scalar value are spaces exactly when it is one. */
  lemma SpaceOctets(c: scalar)
    ensures forall i :: 0 <= i < |Encode(c)| ==> IsSpace(Encode(c)[i]) == IsSpace(c)
  {
    EncodingShape(c);
    if c >= 0x80 {
      assert LeadWidth(Encode(c)[0]) >= 2;
    }
  }

  lemma {:induction false} SpacesEncoded(cs: seq<scalar>, spaces: bool)
    ensures (forall i :: 0 <= i < |cs| ==> IsSpace(cs[i]) == spaces) ==>
              forall i :: 0 <= i < |EncodeAll(cs)| ==> IsSpace(EncodeAll(cs)[i]) == spaces
  {
    hide Encode, IsSpace;
    if cs != [] {
      SpaceOctets(cs[0]);
      SpacesEncoded(cs[1..], spaces);
    }
  }

  lemma LastOctetSpace(cs: seq<scalar>)
    requires cs != []
    ensures EncodeAll(cs) != []
    ensures IsSpace(EncodeAll(cs)[|EncodeAll(cs)| - 1]) == IsSpace(cs[|cs| - 1])
  {
    hide EncodeAll, Encode, IsSpace;
    EncodeLast(cs);
    SpaceOctets(cs[|cs| - 1]);
    assert |Encode(cs[|cs| - 1])| >= 1;
  }

  /** Trimming octets and trimming scalar values leave the same text. */
  lemma TrimmedOctets(cs: seq<scalar>, spaces: bool)
    ensures Trimmed(EncodeAll(cs), spaces) == |EncodeAll(cs[..Trimmed(cs, spaces)])|
  {
    hide EncodeAll, Encode, IsSpace, Trimmed;
    var k := Trimmed(cs, spaces);
    var kept, cut := cs[..k], cs[k..];
    EncodeSplit(cs, k);
    SpacesEncoded(cut, spaces);
    if kept != [] {
      LastOctetSpace(kept);
    } else {
      EncodeNothing();
    }
    var b, n := EncodeAll(cs), |EncodeAll(kept)|;
    assert forall i :: n <= i < |b| ==> b[i] == EncodeAll(cut)[i - n];
    TrimmedUnique(b, spaces, n);
  }

  lemma EncodeNothing()
    ensures EncodeAll([]) == []
  {
  }

  lemma TrimmedUnique(cs: seq<int>, spaces: bool, n: nat)
    requires n <= |cs|
    requires forall i :: n <= i < |cs| ==> IsSpace(cs[i]) == spaces
    requires n > 0 ==> IsSpace(cs[n - 1]) != spaces
    ensures Trimmed(cs, spaces) == n
  {
    hide IsSpace, Trimmed;
    var m := Trimmed(cs, spaces);
    if m < n || n < m {
      assert false;
    }
  }

  lemma WordStartOctets(cs: seq<scalar>)
    ensures WordStart(EncodeAll(cs)) == |EncodeAll(cs[..WordStart(cs)])|
  {
    hide Trimmed, EncodeAll;
    var k := Trimmed(cs, true);
    TrimmedOctets(cs, true);
    TrimmedOctets(cs[..k], false);
    EncodeSplit(cs, k);
    assert EncodeAll(cs)[..|EncodeAll(cs[..k])|] == EncodeAll(cs[..k]);
    assert cs[..k][..WordStart(cs)] == cs[..WordStart(cs)];
  }

  // ---------------------------------------------------------------- boundaries

  lemma {:induction false} StepsTransitive(text: seq<byte>, a: nat, b: nat, c: nat)
    requires a <= b <= |text| && Steps(text, a, b) && Steps(text, b, c)
    ensures Steps(text, a, c)
    decreases if a < b then b - a else 0
  {
    hide Glyph;
    if a < b {
      StepsBound(text, a + Glyph(text, a), b);
      StepsTransitive(text, a + Glyph(text, a), b, c);
      StepsBound(text, b, c);
    }
  }

  lemma RowSteps(text: seq<byte>, columns: nat, cells: Cells, row: Row, limit: nat)
    requires IsRow(text, columns, cells, row, limit)
    ensures Steps(text, row.start, row.next)
  {
    hide Glyph, GlyphCells, Width, Steps;
    if row.next > row.End() {
      NewlineGlyph(text, row.End());
      StepsStart(text, row.End(), cells);
      StepsTransitive(text, row.start, row.End(), row.next);
    }
  }

  /** Every glyph boundary of an encoded text is a cursor position between scalar values. */
  lemma {:induction false} StepsSplit(cs: seq<scalar>, at: nat) returns (k: nat)
    requires Steps(EncodeAll(cs), 0, at)
    ensures k <= |cs| && at == |EncodeAll(cs[..k])|
  {
    k := SplitFrom(cs, 0, at);
  }

  lemma {:induction false} SplitFrom(cs: seq<scalar>, i: nat, at: nat) returns (k: nat)
    requires i <= |cs| && |EncodeAll(cs[..i])| <= |EncodeAll(cs)|
    requires Steps(EncodeAll(cs), |EncodeAll(cs[..i])|, at)
    ensures k <= |cs| && at == |EncodeAll(cs[..k])|
    decreases |cs| - i
  {
    hide EncodeAll, Encode, Glyph;
    var text, from := EncodeAll(cs), |EncodeAll(cs[..i])|;
    if from == at {
      return i;
    }
    EncodeSplit(cs, i);
    assert cs[..|cs|] == cs;
    if i == |cs| {
      assert false;
    } else {
      EncodeSnoc(cs, i);
      EncodeSplit(cs, i + 1);
      assert text[from..] == Encode(cs[i]) + EncodeAll(cs[i + 1..]);
      GlyphOfEncoding(text, from, cs[i], EncodeAll(cs[i + 1..]));
      k := SplitFrom(cs, i + 1, at);
    }
  }

  lemma GlyphOfEncoding(text: seq<byte>, at: nat, c: scalar, rest: seq<byte>)
    requires at < |text| && text[at..] == Encode(c) + rest
    ensures Glyph(text, at) == |Encode(c)|
  {
    FirstOfEncoding(c, rest);
  }
}
