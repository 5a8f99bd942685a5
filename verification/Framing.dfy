/** The two serial codecs, HDLC-like octet stuffing and KISS, as one family.

    `Feed` and `Flush` are the byte-at-a-time decoders. Their specification is
    independent of them: cut the stream at the flags, then read each segment unit by
    unit (`Scan`). */
module Framing {
  import opened Common

  datatype Kind = Hdlc | Kiss

  function Flag(k: Kind): byte {
    if k.Hdlc? then 0x7e else 0xc0
  }

  function Escape(k: Kind): byte {
    if k.Hdlc? then 0x7d else 0xdb
  }

  /** Exclusive or with 0x20. */
  function Toggle(b: byte): byte {
    if (b / 32) % 2 == 0 then b + 32 else b - 32
  }

  /** The octet sent after the escape octet in place of `b`. */
  function Cover(k: Kind, b: byte): byte {
    if k.Hdlc? then Toggle(b) else if b == 0xc0 then 0xdc else 0xdd
  }

  /** The octet meant by an escape octet followed by `b`; KISS knows only two. */
  function Uncover(k: Kind, b: byte): Option<byte> {
    if k.Hdlc? then Some(Toggle(b))
    else if b == 0xdc then Some(0xc0)
    else if b == 0xdd then Some(0xdb)
    else None
  }

  /** A KISS frame starts with one unescaped octet, port and command; HDLC has none. */
  datatype Frame = Frame(header: Option<byte>, data: seq<byte>)

  // ---------------------------------------------------------------- encoding

  predicate Special(k: Kind, b: byte) {
    b == Flag(k) || b == Escape(k)
  }

  function StuffByte(k: Kind, b: byte): seq<byte> {
    if Special(k, b) then [Escape(k), Cover(k, b)] else [b]
  }

  function Stuff(k: Kind, data: seq<byte>): seq<byte> {
    if data == [] then [] else Stuff(k, data[..|data| - 1]) + StuffByte(k, data[|data| - 1])
  }

  function HeaderBytes(f: Frame): seq<byte> {
    if f.header.Some? then [f.header.value] else []
  }

  function Encode(k: Kind, f: Frame): seq<byte> {
    [Flag(k)] + HeaderBytes(f) + Stuff(k, f.data) + [Flag(k)]
  }

  function EncodeAll(k: Kind, frames: seq<Frame>): seq<byte> {
    if frames == [] then []
    else EncodeAll(k, frames[..|frames| - 1]) + Encode(k, frames[|frames| - 1])
  }

  /** What a decoder of this kind and capacity can hand over. */
  predicate Carriable(k: Kind, f: Frame, capacity: nat) {
    && |f.data| <= capacity
    && if k.Hdlc? then f.header.None? && f.data != [] else f.header.Some? && f.header.value != Flag(k)
  }

  // ---------------------------------------------------------------- the decoders

  datatype Decoder = Decoder(capacity: nat, buffer: seq<byte>, header: Option<byte>,
                             synchronized: bool, escaped: bool, discarding: bool,
                             malformed: nat, oversized: nat)

  datatype Result = Result(next: Decoder, frame: Option<Frame>)

  function Fresh(capacity: nat): Decoder {
    Decoder(capacity, [], None, false, false, false, 0, 0)
  }

  /** Synchronised, between two frames. */
  function Cleared(d: Decoder): Decoder {
    d.(buffer := [], header := None, synchronized := true, escaped := false, discarding := false)
  }

  predicate Complete(k: Kind, d: Decoder) {
    if k.Hdlc? then d.buffer != [] else d.header.Some?
  }

  function Flush(k: Kind, d: Decoder): Result {
    var d' := if d.escaped then d.(malformed := d.malformed + 1, discarding := true) else d;
    Result(Cleared(d'),
           if d'.synchronized && !d'.discarding && Complete(k, d')
           then Some(Frame(d'.header, d'.buffer)) else None)
  }

  function Store(d: Decoder, b: byte): Decoder {
    if |d.buffer| == d.capacity
    then d.(oversized := d.oversized + 1, discarding := true, buffer := [], escaped := false)
    else d.(buffer := d.buffer + [b], escaped := false)
  }

  function Octet(k: Kind, d: Decoder, b: byte): Decoder {
    if !d.synchronized || d.discarding then d
    else if k.Kiss? && d.header.None? then d.(header := Some(b))
    else if d.escaped then
      match Uncover(k, b)
      case Some(c) => Store(d, c)
      case None => d.(malformed := d.malformed + 1, discarding := true, escaped := false, buffer := [])
    else if b == Escape(k) then d.(escaped := true)
    else Store(d, b)
  }

  function Feed(k: Kind, d: Decoder, b: byte): Result {
    if b == Flag(k) then Flush(k, d) else Result(Octet(k, d, b), None)
  }

  /** The state after a stretch of input, and the frames handed over meanwhile, when
      every callback succeeds. */
  function After(k: Kind, d: Decoder, input: seq<byte>): Decoder {
    if input == [] then d
    else Feed(k, After(k, d, input[..|input| - 1]), input[|input| - 1]).next
  }

  function Optional<T>(o: Option<T>): seq<T> {
    if o.Some? then [o.value] else []
  }

  function Frames(k: Kind, d: Decoder, input: seq<byte>): seq<Frame> {
    if input == [] then []
    else Frames(k, d, input[..|input| - 1])
         + Optional(Feed(k, After(k, d, input[..|input| - 1]), input[|input| - 1]).frame)
  }

  lemma NothingFed(k: Kind, d: Decoder)
    ensures After(k, d, []) == d && Frames(k, d, []) == []
  {
  }

  lemma AfterSnoc(k: Kind, d: Decoder, input: seq<byte>, b: byte)
    ensures After(k, d, input + [b]) == Feed(k, After(k, d, input), b).next
    ensures Frames(k, d, input + [b]) == Frames(k, d, input) + Optional(Feed(k, After(k, d, input), b).frame)
  {
    assert (input + [b])[..|input|] == input;
  }

  /** Chunk boundaries do not matter. */
  lemma {:induction false} AfterAppend(k: Kind, d: Decoder, a: seq<byte>, b: seq<byte>)
    ensures After(k, d, a + b) == After(k, After(k, d, a), b)
    ensures Frames(k, d, a + b) == Frames(k, d, a) + Frames(k, After(k, d, a), b)
  {
    NothingFed(k, d);
    NothingFed(k, After(k, d, a));
    hide After, Frames, Feed;
    if b == [] {
      assert a + b == a;
    } else {
      var b', z := b[..|b| - 1], b[|b| - 1];
      AfterAppend(k, d, a, b');
      assert a + b == (a + b') + [z] && b == b' + [z];
      AfterSnoc(k, d, a + b', z);
      AfterSnoc(k, After(k, d, a), b', z);
    }
  }

  // ---------------------------------------------------------------- specification

  /** What a segment holds, read from the front in units of one octet or one escape pair. */
  datatype Verdict =
    | Clean(data: seq<byte>)
    | Dangling(data: seq<byte>)     // ends inside an escape pair
    | Bad                           // an escape pair that means nothing
    | TooLong

  function Prepend(b: byte, v: Verdict): Verdict {
    match v
    case Clean(d) => Clean([b] + d)
    case Dangling(d) => Dangling([b] + d)
    case _ => v
  }

  function Scan(k: Kind, segment: seq<byte>, capacity: nat): Verdict {
    if segment == [] then Clean([])
    else if segment[0] == Escape(k) then
      if |segment| == 1 then Dangling([])
      else if Uncover(k, segment[1]).None? then Bad
      else if capacity == 0 then TooLong
      else Prepend(Uncover(k, segment[1]).value, Scan(k, segment[2..], capacity - 1))
    else if capacity == 0 then TooLong
    else Prepend(segment[0], Scan(k, segment[1..], capacity - 1))
  }

  function Payload(k: Kind, segment: seq<byte>): seq<byte> {
    if k.Kiss? && segment != [] then segment[1..] else segment
  }

  function SegmentVerdict(k: Kind, segment: seq<byte>, capacity: nat): Verdict {
    Scan(k, Payload(k, segment), capacity)
  }

  /** The frame that a closed segment carries, if any. */
  function Carried(k: Kind, segment: seq<byte>, capacity: nat): Option<Frame> {
    if FateOf(k, segment, capacity) == Handed
    then Some(Frame(if k.Kiss? then Some(segment[0]) else None, SegmentVerdict(k, segment, capacity).data))
    else None
  }

  /** What becomes of a closed segment. */
  datatype Fate = Empty | Handed | CountedMalformed | CountedOversized

  function FateOf(k: Kind, segment: seq<byte>, capacity: nat): Fate {
    if segment == [] then Empty
    else
      match SegmentVerdict(k, segment, capacity)
      case Clean(_) => Handed
      case TooLong => CountedOversized
      case _ => CountedMalformed
  }

  /** A stream cut at its flags: what precedes the first flag, the segments between two
      flags, and what follows the last one (nothing if there was no flag). */
  datatype Cut = Cut(lead: seq<byte>, closed: seq<seq<byte>>, open: Option<seq<byte>>)

  function Extended(k: Kind, c: Cut, b: byte): Cut {
    match c.open
    case None => if b == Flag(k) then c.(open := Some([])) else c.(lead := c.lead + [b])
    case Some(o) => if b == Flag(k) then c.(closed := c.closed + [o], open := Some([]))
                    else c.(open := Some(o + [b]))
  }

  function CutAtFlags(k: Kind, stream: seq<byte>): Cut {
    if stream == [] then Cut([], [], None)
    else Extended(k, CutAtFlags(k, stream[..|stream| - 1]), stream[|stream| - 1])
  }

  function Closed(k: Kind, segments: seq<seq<byte>>): seq<byte> {
    if segments == [] then []
    else Closed(k, segments[..|segments| - 1]) + segments[|segments| - 1] + [Flag(k)]
  }

  function Uncut(k: Kind, c: Cut): seq<byte> {
    c.lead + match c.open case None => [] case Some(o) => [Flag(k)] + Closed(k, c.closed) + o
  }

  ghost predicate FlagFree(k: Kind, s: seq<byte>) {
    forall i :: 0 <= i < |s| ==> s[i] != Flag(k)
  }

  ghost predicate FlagFreeCut(k: Kind, c: Cut) {
    && FlagFree(k, c.lead)
    && (forall i :: 0 <= i < |c.closed| ==> FlagFree(k, c.closed[i]))
    && (c.open.Some? ==> FlagFree(k, c.open.value))
    && (c.open.None? ==> c.closed == [])
  }

  lemma ExtendedFlagFree(k: Kind, c: Cut, b: byte)
    requires FlagFreeCut(k, c)
    ensures FlagFreeCut(k, Extended(k, c, b))
  {
  }

  lemma ExtendedIsExact(k: Kind, c: Cut, b: byte)
    requires c.open.None? ==> c.closed == []
    ensures Uncut(k, Extended(k, c, b)) == Uncut(k, c) + [b]
  {
    if c.open.Some? {
      var before, o := c.lead + [Flag(k)] + Closed(k, c.closed), c.open.value;
      ClosedSnoc(k, c.closed, o);
      assert Uncut(k, c) + [b] == before + (o + [b]);
      assert Uncut(k, Extended(k, c, b)) == before + (o + [b]);
    }
  }

  lemma ClosedSnoc(k: Kind, segments: seq<seq<byte>>, o: seq<byte>)
    ensures Closed(k, segments + [o]) == Closed(k, segments) + o + [Flag(k)]
  {
    assert (segments + [o])[..|segments|] == segments;
  }

  /** The cut loses nothing and leaves no flag inside a piece. */
  lemma {:induction false} CutIsExact(k: Kind, stream: seq<byte>)
    ensures Uncut(k, CutAtFlags(k, stream)) == stream
    ensures FlagFreeCut(k, CutAtFlags(k, stream))
  {
    if stream != [] {
      CutIsExact(k, stream[..|stream| - 1]);
      hide Uncut, Extended;
      ExtendedFlagFree(k, CutAtFlags(k, stream[..|stream| - 1]), stream[|stream| - 1]);
      ExtendedIsExact(k, CutAtFlags(k, stream[..|stream| - 1]), stream[|stream| - 1]);
      assert stream == stream[..|stream| - 1] + [stream[|stream| - 1]];
    }
  }

  function Gather(k: Kind, segments: seq<seq<byte>>, capacity: nat): seq<Frame> {
    if segments == [] then []
    else Gather(k, segments[..|segments| - 1], capacity)
         + Optional(Carried(k, segments[|segments| - 1], capacity))
  }

  function Tally(k: Kind, segments: seq<seq<byte>>, capacity: nat, fate: Fate): nat {
    if segments == [] then 0
    else Tally(k, segments[..|segments| - 1], capacity, fate)
         + if FateOf(k, segments[|segments| - 1], capacity) == fate then 1 else 0
  }
}
