/** The decoders refine cut-then-scan, and the encoders are their inverse. */
module FramingProofs {
  import opened Common
  import opened Framing

  // ---------------------------------------------------------------- one segment

  function Extend(k: Kind, v: Verdict, b: byte, capacity: nat): Verdict {
    match v
    case Clean(d) =>
      if b == Escape(k) then Dangling(d) else if |d| == capacity then TooLong else Clean(d + [b])
    case Dangling(d) =>
      if Uncover(k, b).None? then Bad
      else if |d| == capacity then TooLong else Clean(d + [Uncover(k, b).value])
    case _ => v
  }

  /** Reading one more octet at the end agrees with reading units from the front. */
  lemma {:induction false} ScanSnoc(k: Kind, segment: seq<byte>, b: byte, capacity: nat)
    ensures Scan(k, segment + [b], capacity) == Extend(k, Scan(k, segment, capacity), b, capacity)
    ensures var v := Scan(k, segment, capacity); v.Clean? || v.Dangling? ==> |v.data| <= capacity
  {
    hide Uncover;
    if segment != [] {
      var unit := if segment[0] == Escape(k) then 2 else 1;
      if unit <= |segment| && capacity > 0 {
        ScanSnoc(k, segment[unit..], b, capacity - 1);
        assert (segment + [b])[unit..] == segment[unit..] + [b];
      }
    }
  }

  /** The state of a decoder that was between frames and has read `segment` since. */
  function Loaded(k: Kind, d: Decoder, segment: seq<byte>): Decoder {
    var c := Cleared(d).(header := if k.Kiss? && segment != [] then Some(segment[0]) else None);
    match SegmentVerdict(k, segment, d.capacity)
    case Clean(data) => c.(buffer := data)
    case Dangling(data) => c.(buffer := data, escaped := true)
    case Bad => c.(discarding := true, malformed := d.malformed + 1)
    case TooLong => c.(discarding := true, oversized := d.oversized + 1)
  }

  /** The counters after `segment` has been closed by a flag. */
  function Charged(k: Kind, d: Decoder, segment: seq<byte>): Decoder {
    var fate := FateOf(k, segment, d.capacity);
    Cleared(d).(malformed := d.malformed + (if fate == CountedMalformed then 1 else 0),
                oversized := d.oversized + (if fate == CountedOversized then 1 else 0))
  }

  lemma OctetExtends(k: Kind, d: Decoder, segment: seq<byte>, b: byte)
    requires b != Flag(k)
    ensures Feed(k, Loaded(k, d, segment), b) == Result(Loaded(k, d, segment + [b]), None)
  {
    ScanSnoc(k, Payload(k, segment), b, d.capacity);
    if k.Kiss? && segment == [] {
      assert Payload(k, [b]) == [] && segment + [b] == [b];
    } else {
      assert Payload(k, segment + [b]) == Payload(k, segment) + [b];
    }
  }

  lemma {:induction false} CleanNonEmpty(k: Kind, segment: seq<byte>, capacity: nat)
    ensures segment != [] && Scan(k, segment, capacity).Clean? ==> Scan(k, segment, capacity).data != []
  {
  }

  lemma FlagCloses(k: Kind, d: Decoder, segment: seq<byte>)
    ensures Feed(k, Loaded(k, d, segment), Flag(k))
         == Result(Charged(k, d, segment), Carried(k, segment, d.capacity))
  {
    CleanNonEmpty(k, segment, d.capacity);
  }

  // ---------------------------------------------------------------- refinement

  /** A decoder between frames, charged for the given closed segments. */
  function Settled(k: Kind, segments: seq<seq<byte>>, capacity: nat): Decoder {
    Cleared(Fresh(capacity)).(malformed := Tally(k, segments, capacity, CountedMalformed),
                              oversized := Tally(k, segments, capacity, CountedOversized))
  }

  /** What a fresh decoder has become after a stream, told from the cut alone. */
  function Expected(k: Kind, c: Cut, capacity: nat): Decoder {
    match c.open
    case None => Fresh(capacity)
    case Some(o) => Loaded(k, Settled(k, c.closed, capacity), o)
  }

  /** For every byte stream, the frames handed over are exactly those that the closed
      segments carry, in order, and the counters count exactly the other non-empty ones. */
  lemma {:induction false} DecoderRefinesCut(k: Kind, stream: seq<byte>, capacity: nat)
    ensures Frames(k, Fresh(capacity), stream) == Gather(k, CutAtFlags(k, stream).closed, capacity)
    ensures After(k, Fresh(capacity), stream) == Expected(k, CutAtFlags(k, stream), capacity)
  {
    hide Feed, Expected, Extended;
    if stream != [] {
      var s, b := stream[..|stream| - 1], stream[|stream| - 1];
      DecoderRefinesCut(k, s, capacity);
      CutIsExact(k, s);
      OctetRefinesCut(k, CutAtFlags(k, s), b, capacity);
    } else {
      ExpectedAtStart(k, capacity);
    }
  }

  lemma ExpectedAtStart(k: Kind, capacity: nat)
    ensures Expected(k, Cut([], [], None), capacity) == Fresh(capacity)
  {
  }

  lemma OctetRefinesCut(k: Kind, c: Cut, b: byte, capacity: nat)
    requires c.open.None? ==> c.closed == []
    ensures var n, r := Extended(k, c, b), Feed(k, Expected(k, c, capacity), b);
            && r.next == Expected(k, n, capacity)
            && Gather(k, n.closed, capacity) == Gather(k, c.closed, capacity) + Optional(r.frame)
  {
    if c.open.Some? {
      hide Feed, Loaded, Charged, Settled, Gather, Carried;
      SettledSnoc(k, c.closed, c.open.value, capacity);
      if b == Flag(k) {
        FlagCloses(k, Settled(k, c.closed, capacity), c.open.value);
      } else {
        OctetExtends(k, Settled(k, c.closed, capacity), c.open.value, b);
      }
    }
  }

  lemma SettledSnoc(k: Kind, segments: seq<seq<byte>>, o: seq<byte>, capacity: nat)
    ensures Settled(k, segments, capacity).capacity == capacity
    ensures Charged(k, Settled(k, segments, capacity), o) == Settled(k, segments + [o], capacity)
    ensures Loaded(k, Settled(k, segments + [o], capacity), []) == Settled(k, segments + [o], capacity)
    ensures Gather(k, segments + [o], capacity)
         == Gather(k, segments, capacity) + Optional(Carried(k, o, capacity))
  {
    assert (segments + [o])[..|segments|] == segments;
  }

  /** A closed segment has exactly one fate, and the hand-overs are the clean ones. */
  lemma {:induction false} CountedOnce(k: Kind, segments: seq<seq<byte>>, capacity: nat)
    ensures |Gather(k, segments, capacity)| == Tally(k, segments, capacity, Handed)
    ensures Tally(k, segments, capacity, Handed) + Tally(k, segments, capacity, CountedMalformed)
            + Tally(k, segments, capacity, CountedOversized) + Tally(k, segments, capacity, Empty)
         == |segments|
  {
    if segments != [] {
      CountedOnce(k, segments[..|segments| - 1], capacity);
    }
  }

  /** When the stream ends on a flag, hand-overs and counters add up to its non-empty
      closed segments. */
  lemma StreamCountedOnce(k: Kind, stream: seq<byte>, capacity: nat)
    requires stream != [] && stream[|stream| - 1] == Flag(k)
    ensures |Frames(k, Fresh(capacity), stream)|
            + After(k, Fresh(capacity), stream).malformed + After(k, Fresh(capacity), stream).oversized
         == |CutAtFlags(k, stream).closed| - Tally(k, CutAtFlags(k, stream).closed, capacity, Empty)
  {
    DecoderRefinesCut(k, stream, capacity);
    CountedOnce(k, CutAtFlags(k, stream).closed, capacity);
  }

  // ---------------------------------------------------------------- round trip

  lemma ScanEmpty(k: Kind, capacity: nat)
    ensures Scan(k, [], capacity) == Clean([])
  {
  }

  lemma CoverInverts(k: Kind, b: byte)
    requires Special(k, b)
    ensures Uncover(k, Cover(k, b)) == Some(b) && Cover(k, b) != Flag(k)
  {
  }

  lemma {:induction false} StuffReads(k: Kind, data: seq<byte>, capacity: nat)
    requires |data| <= capacity
    ensures Scan(k, Stuff(k, data), capacity) == Clean(data)
    ensures FlagFree(k, Stuff(k, data))
  {
    ScanEmpty(k, capacity);
    hide Scan, Uncover, Cover;
    if data != [] {
      var rest, b := data[..|data| - 1], data[|data| - 1];
      if Special(k, b) { CoverInverts(k, b); }
      StuffReads(k, rest, capacity);
      ScanSnoc(k, Stuff(k, rest), StuffByte(k, b)[0], capacity);
      if Special(k, b) {
        ScanSnoc(k, Stuff(k, rest) + [Escape(k)], Cover(k, b), capacity);
        assert Stuff(k, data) == Stuff(k, rest) + [Escape(k)] + [Cover(k, b)];
      }
      assert data == rest + [b];
    }
  }

  lemma {:induction false} SegmentLoads(k: Kind, d: Decoder, segment: seq<byte>)
    requires FlagFree(k, segment)
    ensures After(k, Cleared(d), segment) == Loaded(k, d, segment)
    ensures Frames(k, Cleared(d), segment) == []
  {
    NothingFed(k, Cleared(d));
    LoadedEmpty(k, d);
    hide After, Frames, Feed, Loaded;
    if segment != [] {
      var s, b := segment[..|segment| - 1], segment[|segment| - 1];
      SegmentLoads(k, d, s);
      OctetExtends(k, d, s, b);
      AfterSnoc(k, Cleared(d), s, b);
      assert segment == s + [b];
    }
  }

  lemma LoadedEmpty(k: Kind, d: Decoder)
    ensures Loaded(k, d, []) == Cleared(d)
  {
  }

  lemma FlagFed(k: Kind, d: Decoder)
    ensures Feed(k, d, Flag(k)) == Flush(k, d)
  {
    hide Flush, Octet;
  }

  lemma FlagAlone(k: Kind, d: Decoder)
    ensures After(k, d, [Flag(k)]) == Flush(k, d).next
    ensures Frames(k, d, [Flag(k)]) == Optional(Flush(k, d).frame)
  {
    hide After, Frames, Feed, Flush, Flag;
    NothingFed(k, d);
    FlagFed(k, d);
    AfterSnoc(k, d, [], Flag(k));
    assert [] + [Flag(k)] == [Flag(k)];
  }

  lemma FlagFirst(k: Kind, d: Decoder, rest: seq<byte>)
    ensures After(k, d, [Flag(k)] + rest) == After(k, Flush(k, d).next, rest)
    ensures Frames(k, d, [Flag(k)] + rest) == Optional(Flush(k, d).frame) + Frames(k, Flush(k, d).next, rest)
  {
    hide After, Frames, Feed, Flush, Flag;
    FlagAlone(k, d);
    AfterAppend(k, d, [Flag(k)], rest);
  }

  /** A segment that carries a frame, closed by a flag, hands it over. */
  lemma SegmentDelivers(k: Kind, d: Decoder, segment: seq<byte>)
    requires FlagFree(k, segment)
    ensures Frames(k, Cleared(d), segment + [Flag(k)]) == Optional(Carried(k, segment, d.capacity))
    ensures After(k, Cleared(d), segment + [Flag(k)]) == Charged(k, d, segment)
  {
    SegmentLoads(k, d, segment);
    FlagCloses(k, d, segment);
    AfterSnoc(k, Cleared(d), segment, Flag(k));
  }

  lemma FrameSegment(k: Kind, f: Frame, capacity: nat)
    requires Carriable(k, f, capacity)
    ensures Carried(k, HeaderBytes(f) + Stuff(k, f.data), capacity) == Some(f)
    ensures FlagFree(k, HeaderBytes(f) + Stuff(k, f.data))
  {
    StuffReads(k, f.data, capacity);
    var segment := HeaderBytes(f) + Stuff(k, f.data);
    assert Payload(k, segment) == Stuff(k, f.data);
  }

  /** From any state: at most one leftover frame is flushed, then the frame itself arrives. */
  lemma FrameRoundTrip(k: Kind, d: Decoder, f: Frame)
    requires Carriable(k, f, d.capacity)
    ensures Frames(k, d, Encode(k, f)) == Optional(Flush(k, d).frame) + [f]
    ensures After(k, d, Encode(k, f)) == Flush(k, d).next
  {
    hide After, Frames, Stuff, Flush, Scan;
    var segment, c := HeaderBytes(f) + Stuff(k, f.data), Flush(k, d).next;
    FrameSegment(k, f, d.capacity);
    IdleFlush(k, d);
    assert Encode(k, f) == [Flag(k)] + (segment + [Flag(k)]);
    FlagFirst(k, d, segment + [Flag(k)]);
    SegmentDelivers(k, c, segment);
  }

  /** Any list of frames, from any decoder state: one possible leftover, then the list. */
  lemma {:induction false} StreamRoundTrip(k: Kind, d: Decoder, frames: seq<Frame>)
    requires forall i :: 0 <= i < |frames| ==> Carriable(k, frames[i], d.capacity)
    ensures Frames(k, d, EncodeAll(k, frames))
         == if frames == [] then [] else Optional(Flush(k, d).frame) + frames
    ensures After(k, d, EncodeAll(k, frames)) == if frames == [] then d else Flush(k, d).next
  {
    NothingFed(k, d);
    hide After, Frames, Encode, Flush, Carriable;
    if frames != [] {
      var rest, f := frames[..|frames| - 1], frames[|frames| - 1];
      StreamRoundTrip(k, d, rest);
      IdleFlush(k, d);
      FrameRoundTrip(k, After(k, d, EncodeAll(k, rest)), f);
      AfterAppend(k, d, EncodeAll(k, rest), Encode(k, f));
      assert frames == rest + [f];
    }
  }

  /** Between two frames a flag changes nothing, and every flag leads there. */
  lemma IdleFlush(k: Kind, d: Decoder)
    ensures Flush(k, Cleared(d)) == Result(Cleared(d), None)
    ensures Flush(k, Flush(k, d).next) == Result(Flush(k, d).next, None)
    ensures Flush(k, d).next.capacity == d.capacity
    ensures Flush(k, d).next == Cleared(Flush(k, d).next)
  {
  }

  function Flatten(chunks: seq<seq<byte>>): seq<byte> {
    if chunks == [] then [] else chunks[0] + Flatten(chunks[1..])
  }

  /** The frames handed over when the input arrives chunk by chunk. */
  function ChunkedFrames(k: Kind, d: Decoder, chunks: seq<seq<byte>>): seq<Frame>
    decreases chunks
  {
    if chunks == [] then []
    else Frames(k, d, chunks[0]) + ChunkedFrames(k, After(k, d, chunks[0]), chunks[1..])
  }

  lemma {:induction false} ChunkingInvisible(k: Kind, d: Decoder, chunks: seq<seq<byte>>)
    ensures ChunkedFrames(k, d, chunks) == Frames(k, d, Flatten(chunks))
    decreases chunks
  {
    if chunks != [] {
      ChunkingInvisible(k, After(k, d, chunks[0]), chunks[1..]);
      AfterAppend(k, d, chunks[0], Flatten(chunks[1..]));
    }
  }

  /** Round trip with resynchronisation: encodings of any frames, cut into any chunks,
      fed to a decoder in any state. */
  lemma ChunkedRoundTrip(k: Kind, d: Decoder, frames: seq<Frame>, chunks: seq<seq<byte>>)
    requires forall i :: 0 <= i < |frames| ==> Carriable(k, frames[i], d.capacity)
    requires Flatten(chunks) == EncodeAll(k, frames)
    ensures ChunkedFrames(k, d, chunks)
         == if frames == [] then [] else Optional(Flush(k, d).frame) + frames
  {
    ChunkingInvisible(k, d, chunks);
    StreamRoundTrip(k, d, frames);
  }

  lemma NeverFlagHeader(segment: seq<byte>, capacity: nat)
    requires FlagFree(Kiss, segment)
    ensures Carried(Kiss, segment, capacity).Some? ==>
              Carried(Kiss, segment, capacity).value.header != Some(0xc0)
  {
    hide Scan;
  }

  /** Behind a flag for a header, the first octet of the stuffed data is taken for one. */
  lemma FlagHeaderLost(d: Decoder, data: seq<byte>)
    requires |data| <= d.capacity
    ensures Frames(Kiss, Cleared(d), Encode(Kiss, Frame(Some(0xc0), data)))
         == Optional(Carried(Kiss, Stuff(Kiss, data), d.capacity))
    ensures FlagFree(Kiss, Stuff(Kiss, data))
  {
    StuffReads(Kiss, data, d.capacity);
    IdleFlush(Kiss, d);
    FlagHeaderEncoding(data);
    hide After, Frames, Stuff, Flush, Carried, FlagFree, Encode;
    FlagFirst(Kiss, Cleared(d), [0xc0] + (Stuff(Kiss, data) + [0xc0]));
    FlagFirst(Kiss, Cleared(d), Stuff(Kiss, data) + [0xc0]);
    SegmentDelivers(Kiss, d, Stuff(Kiss, data));
  }

  lemma FlagHeaderEncoding(data: seq<byte>)
    ensures Encode(Kiss, Frame(Some(0xc0), data)) == [0xc0] + ([0xc0] + (Stuff(Kiss, data) + [0xc0]))
  {
    hide Stuff;
  }

  /** The KISS encoder does not escape its header octet. The exact consequence: between
      frames, an encoded frame that fits arrives if and only if its header is not the
      flag, that is, unless it is a data frame on port 12. */
  lemma KissHeaderExact(d: Decoder, header: byte, data: seq<byte>)
    requires |data| <= d.capacity
    ensures Frames(Kiss, Cleared(d), Encode(Kiss, Frame(Some(header), data))) == [Frame(Some(header), data)]
            <==> header != 0xc0
  {
    IdleFlush(Kiss, d);
    hide After, Frames, Encode, Stuff, Flush, Carried;
    if header == 0xc0 {
      FlagHeaderLost(d, data);
      NeverFlagHeader(Stuff(Kiss, data), d.capacity);
    } else {
      FrameRoundTrip(Kiss, Cleared(d), Frame(Some(header), data));
    }
  }
}
