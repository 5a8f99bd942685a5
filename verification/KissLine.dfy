/** The values behind the KISS serial endpoint: what waits in a ring, what is on the wire, and what
    was read from it. */
module KissLine {
  import opened Common
  import opened Framing

  const QUEUE_DEPTH := 8
  const MTU := 500
  const ENCODED_MAX := 1003
  const FLOW_TIMEOUT: real := 5.0

  type Packet = seq<byte>

  // ---------------------------------------------------------------- rings

  /** The slot `i` places behind `head`. */
  function Slot(head: nat, i: nat): nat {
    (head + i) % QUEUE_DEPTH
  }

  /** The occupied part of a ring of QUEUE_DEPTH slots, oldest first. */
  function Ring(slots: seq<Packet>, head: nat, count: nat): seq<Packet>
    requires |slots| == QUEUE_DEPTH && count <= QUEUE_DEPTH
  {
    seq(count, i requires 0 <= i < count => slots[Slot(head, i)])
  }

  lemma RingLength(slots: seq<Packet>, head: nat, count: nat)
    requires |slots| == QUEUE_DEPTH && count <= QUEUE_DEPTH
    ensures |Ring(slots, head, count)| == count
  {
  }

  lemma RingPush(slots: seq<Packet>, head: nat, count: nat, p: Packet)
    requires |slots| == QUEUE_DEPTH && count < QUEUE_DEPTH && head < QUEUE_DEPTH
    ensures Slot(head, count) < QUEUE_DEPTH
    ensures Ring(slots[Slot(head, count) := p], head, count + 1) == Ring(slots, head, count) + [p]
  {
  }

  lemma RingPop(slots: seq<Packet>, head: nat, count: nat)
    requires |slots| == QUEUE_DEPTH && 0 < count <= QUEUE_DEPTH && head < QUEUE_DEPTH
    ensures Slot(head, 1) < QUEUE_DEPTH && Ring(slots, head, count)[0] == slots[head]
    ensures Ring(slots, Slot(head, 1), count - 1) == Ring(slots, head, count)[1..]
  {
  }

  // ---------------------------------------------------------------- the transmit line

  /** A frame put on the line: a configuration command, or a queued packet. */
  datatype Written = Command(command: byte, value: byte) | Data(packet: Packet)

  function Bytes(w: Written): seq<byte> {
    match w
    case Command(c, v) => Encode(Kiss, Frame(Some(c), [v]))
    case Data(p) => Encode(Kiss, Frame(Some(0), p))
  }

  function OnWire(frames: seq<Written>): seq<byte> {
    if frames == [] then [] else OnWire(frames[..|frames| - 1]) + Bytes(frames[|frames| - 1])
  }

  function DataOf(frames: seq<Written>): seq<Packet> {
    if frames == [] then []
    else DataOf(frames[..|frames| - 1])
         + match frames[|frames| - 1] case Data(p) => [p] case Command(_, _) => []
  }

  function CommandsOf(frames: seq<Written>): seq<Written> {
    if frames == [] then []
    else CommandsOf(frames[..|frames| - 1])
         + if frames[|frames| - 1].Command? then [frames[|frames| - 1]] else []
  }

  /** One connection: every byte written on it, the frames completed, and the frame of
      which `offset` bytes have been written. */
  datatype Line = Line(wire: seq<byte>, done: seq<Written>, current: Option<Written>, offset: nat)
  {
    ghost predicate Valid() {
      && offset <= |Partial()|
      && wire == OnWire(done) + Partial()[..offset]
    }

    /** The line as the output buffer and its offset show it. */
    ghost predicate Holds(output: seq<byte>, at: nat) {
      Valid() && offset == at <= |output| && Partial() == output && (output == [] <==> current.None?)
    }

    function Partial(): seq<byte> {
      if current.Some? then Bytes(current.value) else []
    }

    function Begin(w: Written): Line
      requires current.None?
    {
      Line(wire, done, Some(w), 0)
    }

    function Advance(n: nat): Line
      requires offset + n <= |Partial()|
    {
      Line(wire + Partial()[offset..offset + n], done, current, offset + n)
    }

    function Finish(): Line
      requires offset == |Partial()|
    {
      Line(wire, done + Optional(current), None, 0)
    }

    function Frames(): seq<Written> {
      done + Optional(current)
    }
  }

  const IDLE := Line([], [], None, 0)

  lemma IdleHolds()
    ensures IDLE.Holds([], 0)
  {
  }

  lemma AdvanceValid(l: Line, n: nat)
    requires l.Valid() && l.offset + n <= |l.Partial()|
    ensures l.Advance(n).Valid()
  {
    hide OnWire, Bytes;
    assert l.Partial()[..l.offset] + l.Partial()[l.offset..l.offset + n] == l.Partial()[..l.offset + n];
  }

  lemma BeginHolds(l: Line, w: Written)
    requires l.Holds([], 0) && Bytes(w) != []
    ensures l.Begin(w).Holds(Bytes(w), 0)
  {
    hide OnWire, Bytes;
    assert Bytes(w)[..0] == [];
  }

  lemma FinishValid(l: Line)
    requires l.Valid() && l.offset == |l.Partial()|
    ensures l.Finish().Valid() && l.Finish().Frames() == l.Frames()
  {
    hide Bytes;
    if l.current.Some? {
      assert (l.done + [l.current.value])[..|l.done|] == l.done;
      assert l.Partial()[..l.offset] == l.Partial();
    } else {
      assert l.done + [] == l.done;
    }
  }

  /** `n` more bytes written; a frame written whole is done. */
  ghost function Move(l: Line, n: nat): Line
    requires l.offset + n <= |l.Partial()|
  {
    if l.offset + n < |l.Partial()| then l.Advance(n) else l.Advance(n).Finish()
  }

  lemma MoveHolds(l: Line, output: seq<byte>, at: nat, n: nat)
    requires l.Holds(output, at) && at + n <= |output|
    ensures l.offset + n <= |l.Partial()|
    ensures Move(l, n).wire == l.wire + output[at..at + n] && Move(l, n).Frames() == l.Frames()
    ensures if at + n < |output|
            then Move(l, n).Holds(output, at + n) && Move(l, n).current == l.current && Move(l, n).done == l.done
            else Move(l, n).Holds([], 0) && Move(l, n).current.None?
  {
    hide OnWire, Bytes, Line.Valid;
    AdvanceValid(l, n);
    if at + n == |output| {
      FinishValid(l.Advance(n));
    }
  }

  lemma HoldsNothing(l: Line, output: seq<byte>, at: nat)
    requires l.Holds(output, at) && output == []
    ensures l.current.None?
  {
  }

  lemma HoldsWithin(l: Line, output: seq<byte>, at: nat)
    requires l.Holds(output, at)
    ensures at <= |output| && (output == [] <==> l.current.None?)
  {
  }

  lemma DataOfSnoc(frames: seq<Written>, w: Written)
    ensures DataOf(frames + [w]) == DataOf(frames) + if w.Data? then [w.packet] else []
    ensures CommandsOf(frames + [w]) == CommandsOf(frames) + if w.Command? then [w] else []
  {
    assert (frames + [w])[..|frames|] == frames;
  }

  // ---------------------------------------------------------------- transmission

  /** The transmit side. `before` counts the packets that left on earlier connections;
      `claimed` says that the oldest queued packet has been put on the line; `index` is
      the number of configuration commands put on the line. */
  datatype Transmit = Transmit(accepted: seq<Packet>, departed: seq<Packet>, before: nat, queued: seq<Packet>,
                               line: Line, claimed: bool, sent: nat,
                               configuration: seq<Written>, index: nat, connected: bool)
  {
    predicate OnLine() {
      line.current.Some? && line.current.value.Data?
    }

    /** The packets whose whole frame is on the line: those that left the ring on this
        connection, and the claimed one if its frame is complete. */
    function Complete(): seq<Packet>
      requires before <= |departed|
    {
      departed[before..] + if claimed && !OnLine() && queued != [] then [queued[0]] else []
    }

    ghost predicate Valid() {
      && accepted == departed + queued
      && (forall i :: 0 <= i < |accepted| ==> |accepted[i]| <= MTU)
      && sent == |departed|
      && before <= |departed|
      && (claimed ==> queued != [])
      && (OnLine() ==> claimed && line.current.value.packet == queued[0])
      && DataOf(line.done) == Complete()
      && (forall i :: 0 <= i < |configuration| ==> configuration[i].Command?)
      && index <= |configuration|
      && CommandsOf(line.Frames()) == configuration[..index]
      && (!connected ==> line == IDLE && before == |departed| && !claimed && index == 0)
    }

    function Accept(p: Packet): Transmit {
      this.(accepted := accepted + [p], queued := queued + [p])
    }

    function Drop(): Transmit {
      this.(before := |departed|, line := IDLE, claimed := false, index := 0, connected := false)
    }

    function Claim(): Transmit
      requires queued != [] && line.current.None?
    {
      this.(line := line.Begin(Data(queued[0])), claimed := true)
    }

    function Depart(): Transmit
      requires queued != []
    {
      this.(departed := departed + [queued[0]], queued := queued[1..], claimed := false, sent := sent + 1)
    }

    function Configure(): Transmit
      requires index < |configuration| && line.current.None?
    {
      this.(line := line.Begin(configuration[index]), index := index + 1)
    }
  }

  lemma StartValid(configuration: seq<Written>)
    requires forall i :: 0 <= i < |configuration| ==> configuration[i].Command?
    ensures Transmit([], [], 0, [], IDLE, false, 0, configuration, 0, false).Valid()
  {
  }

  lemma AcceptValid(t: Transmit, p: Packet)
    requires t.Valid() && |p| <= MTU
    ensures t.Accept(p).Valid()
  {
    hide DataOf, CommandsOf;
    assert t.accepted + [p] == t.departed + (t.queued + [p]);
  }

  lemma DropValid(t: Transmit)
    requires t.Valid()
    ensures t.Drop().Valid()
  {
    assert t.departed[|t.departed|..] == [];
  }

  lemma ConnectValid(t: Transmit)
    requires t.Valid()
    ensures t.(connected := true).Valid()
  {
    hide DataOf, CommandsOf;
  }

  lemma ClaimValid(t: Transmit)
    requires t.Valid() && t.connected && !t.claimed && t.queued != [] && t.line.current.None?
    ensures t.Claim().Valid()
  {
    hide DataOf, CommandsOf;
    DataOfSnoc(t.line.done, Data(t.queued[0]));
    assert t.line.done + [] == t.line.done;
    assert CommandsOf(t.line.done) + [] == CommandsOf(t.line.done);
  }

  lemma DepartValid(t: Transmit)
    requires t.Valid() && t.claimed && !t.OnLine()
    ensures t.Depart().Valid()
  {
    hide DataOf, CommandsOf;
    assert t.departed + t.queued == t.departed + [t.queued[0]] + t.queued[1..];
    assert (t.departed + [t.queued[0]])[t.before..] == t.departed[t.before..] + [t.queued[0]];
  }

  lemma ConfigureValid(t: Transmit)
    requires t.Valid() && t.connected && t.index < |t.configuration| && t.line.current.None?
    ensures t.Configure().Valid()
  {
    hide DataOf, CommandsOf;
    DataOfSnoc(t.line.done, t.configuration[t.index]);
    assert t.line.done + [] == t.line.done;
    assert t.configuration[..t.index + 1] == t.configuration[..t.index] + [t.configuration[t.index]];
  }

  /** Bytes may leave, and the frame on the line may be completed. */
  lemma LineMoves(t: Transmit, l: Line)
    requires t.Valid() && t.connected
    requires l.Frames() == t.line.Frames()
    requires l.current.None? || (l.current == t.line.current && l.done == t.line.done)
    ensures t.(line := l).Valid()
  {
    hide DataOf, CommandsOf;
    if l.current.None? {
      assert l.done == l.done + [] == t.line.Frames();
      if t.line.current.Some? {
        DataOfSnoc(t.line.done, t.line.current.value);
      } else {
        assert t.line.done + [] == t.line.done;
      }
    }
  }

  lemma ClaimedNonEmpty(t: Transmit)
    requires t.Valid() && t.claimed
    ensures t.queued != []
  {
  }

  lemma QueuedFits(t: Transmit)
    requires t.Valid() && t.queued != []
    ensures |t.queued[0]| <= MTU
  {
    hide DataOf, CommandsOf;
    assert t.accepted[|t.departed|] == t.queued[0];
  }

  lemma Balance(t: Transmit)
    requires t.Valid()
    ensures |t.accepted| == |t.departed| + |t.queued|
  {
    hide DataOf, CommandsOf;
  }

  lemma NextAccepted(t: Transmit)
    requires t.Valid() && t.queued != []
    ensures |t.departed| < |t.accepted|
  {
    hide DataOf, CommandsOf;
  }

  lemma ConfiguredLine(t: Transmit)
    requires t.Valid() && t.index == |t.configuration| && t.line.current.None?
    ensures CommandsOf(t.line.done) == t.configuration
  {
    hide DataOf, CommandsOf;
    assert t.line.done + [] == t.line.done;
  }

  /** On one connection the data frames are the accepted packets from position `before`
      on, each once and in acceptance order; only complete ones have left the ring. */
  lemma FramesFollowAcceptance(t: Transmit)
    requires t.Valid()
    ensures |t.accepted| == t.sent + |t.queued|
    ensures var n := |DataOf(t.line.done)|;
            && t.before + n <= |t.accepted|
            && DataOf(t.line.done) == t.accepted[t.before..t.before + n]
            && |t.departed| <= t.before + n <= |t.departed| + 1
    ensures t.OnLine() ==> t.line.current.value.packet == t.accepted[|t.departed|]
                           && t.before + |DataOf(t.line.done)| == |t.departed|
  {
    hide DataOf, CommandsOf;
    assert t.accepted[t.before..|t.departed|] == t.departed[t.before..];
  }

  /** All data frames put on the line of the present connection. */
  lemma FramesBegun(t: Transmit)
    requires t.Valid()
    ensures DataOf(t.line.Frames()) == t.accepted[t.before..|t.departed|] + if t.claimed then [t.queued[0]] else []
  {
    hide DataOf, CommandsOf;
    FramesFollowAcceptance(t);
    if t.line.current.Some? {
      DataOfSnoc(t.line.done, t.line.current.value);
    } else {
      assert t.line.done + [] == t.line.done;
    }
  }

  // ---------------------------------------------------------------- size

  lemma {:induction false} StuffAtMostDoubles(data: seq<byte>)
    ensures |data| <= |Stuff(Kiss, data)| <= 2 * |data|
  {
    if data != [] {
      StuffAtMostDoubles(data[..|data| - 1]);
    }
  }

  /** Whatever the endpoint puts on the line fits its output buffer. */
  lemma FrameFits(w: Written)
    requires w.Data? ==> |w.packet| <= MTU
    ensures 0 < |Bytes(w)| <= ENCODED_MAX
  {
    StuffAtMostDoubles(if w.Data? then w.packet else [w.value]);
  }

  // ---------------------------------------------------------------- what was read

  /** The frames of the octets read on each connection, by a decoder that starts afresh on each. */
  function DecodedAll(inputs: seq<seq<byte>>): seq<Frame> {
    if inputs == [] then []
    else DecodedAll(inputs[..|inputs| - 1]) + Frames(Kiss, Fresh(MTU), inputs[|inputs| - 1])
  }

  function Uncounted(d: Decoder): Decoder {
    d.(malformed := 0, oversized := 0)
  }

  /** The counters of a decoder do not decide what it hands over. */
  lemma CountersIgnored(d: Decoder, e: Decoder, b: byte)
    requires Uncounted(d) == Uncounted(e)
    ensures Feed(Kiss, d, b).frame == Feed(Kiss, e, b).frame
    ensures Uncounted(Feed(Kiss, d, b).next) == Uncounted(Feed(Kiss, e, b).next)
  {
  }

  /** The decoded frames are those of the octets read, and the decoder stands where the present
      connection's octets leave it. */
  ghost predicate HeardSafe(inputs: seq<seq<byte>>, decoded: seq<Frame>, d: Decoder) {
    && inputs != []
    && decoded == DecodedAll(inputs)
    && Uncounted(d) == Uncounted(After(Kiss, Fresh(MTU), inputs[|inputs| - 1]))
  }

  /** More octets on the present connection. */
  function Heard(inputs: seq<seq<byte>>, data: seq<byte>): seq<seq<byte>> {
    if inputs == [] then [data] else inputs[|inputs| - 1 := inputs[|inputs| - 1] + data]
  }

  lemma HeardMore(inputs: seq<seq<byte>>, data: seq<byte>, b: byte)
    requires inputs != []
    ensures Heard(inputs, []) == inputs
    ensures Heard(Heard(inputs, data), [b]) == Heard(inputs, data + [b])
  {
    assert inputs[|inputs| - 1] + [] == inputs[|inputs| - 1];
    assert inputs[|inputs| - 1] + data + [b] == inputs[|inputs| - 1] + (data + [b]);
  }

  lemma HeardNothing()
    ensures HeardSafe([[]], [], Fresh(MTU))
  {
    NothingFed(Kiss, Fresh(MTU));
    var inputs: seq<seq<byte>> := [[]];
    assert inputs[..0] == [];
  }

  lemma HeardOctet(inputs: seq<seq<byte>>, decoded: seq<Frame>, d: Decoder, b: byte)
    requires HeardSafe(inputs, decoded, d)
    ensures HeardSafe(Heard(inputs, [b]), decoded + Optional(Feed(Kiss, d, b).frame), Feed(Kiss, d, b).next)
  {
    hide Feed, After, Frames, Uncounted;
    var n := |inputs| - 1;
    var more := Heard(inputs, [b]);
    assert more[..n] == inputs[..n] && more[n] == inputs[n] + [b];
    AfterSnoc(Kiss, Fresh(MTU), inputs[n], b);
    CountersIgnored(d, After(Kiss, Fresh(MTU), inputs[n]), b);
  }

  /** A reset decoder keeps its counters and starts on a new connection. */
  lemma HeardReset(inputs: seq<seq<byte>>, decoded: seq<Frame>, d: Decoder, malformed: nat, oversized: nat)
    requires HeardSafe(inputs, decoded, d)
    ensures HeardSafe(inputs + [[]], decoded, Fresh(MTU).(malformed := malformed, oversized := oversized))
  {
    NothingFed(Kiss, Fresh(MTU));
    assert (inputs + [[]])[..|inputs|] == inputs;
  }

  /** Earlier connections stay as they were, and the last one only went on. */
  ghost predicate Continued(before: seq<seq<byte>>, after: seq<seq<byte>>) {
    && 0 < |before| <= |after|
    && before[..|before| - 1] == after[..|before| - 1]
    && before[|before| - 1] <= after[|before| - 1]
  }

  lemma ContinuedSame(inputs: seq<seq<byte>>, decoded: seq<Frame>, d: Decoder, data: seq<byte>)
    requires HeardSafe(inputs, decoded, d)
    ensures Continued(inputs, inputs)
    ensures Continued(inputs, Heard(inputs, data)) && |Heard(inputs, data)| == |inputs|
  {
    hide DecodedAll, After, Uncounted;
    assert Heard(inputs, data)[..|inputs| - 1] == inputs[..|inputs| - 1];
  }

  lemma ContinuedReset(start: seq<seq<byte>>, inputs: seq<seq<byte>>)
    requires Continued(start, inputs)
    ensures Continued(start, inputs + [[]])
  {
    assert (inputs + [[]])[..|start| - 1] == inputs[..|start| - 1];
  }

  lemma HeardSome(inputs: seq<seq<byte>>, decoded: seq<Frame>, d: Decoder)
    requires HeardSafe(inputs, decoded, d)
    ensures inputs != []
  {
  }
}
