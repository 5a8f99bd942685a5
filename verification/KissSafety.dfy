/** What the endpoint's invariant means, at every moment of every run. */
module KissSafety {
  import opened Common
  import opened Framing
  import opened FramingProofs
  import opened SerialCodecs
  import opened KissLine
  import opened KissTrace
  import opened KissEndpoint

  /** At every moment of every run: the bytes written on the present connection are whole
      encoded frames and a prefix of one more; the data frames among them are the accepted
      packets from some position on, each once and in order; every packet that left the
      ring on this connection is among the completed ones; and no accepted packet is lost. */
  lemma TransmitSafety(e: Endpoint)
    requires e.Valid()
    ensures var l := e.past.line;
            l.wire == OnWire(l.done) + l.Partial()[..e.pending.offset] && e.pending.offset <= |l.Partial()|
    ensures |e.past.accepted| == e.info.packetsSent + e.queueCount
    ensures e.past.accepted == e.past.departed + e.Sending().queued
    ensures var n := |DataOf(e.past.line.done)|;
            && e.past.before + n <= |e.past.accepted|
            && DataOf(e.past.line.done) == e.past.accepted[e.past.before..e.past.before + n]
            && e.info.packetsSent <= e.past.before + n
    ensures CommandsOf(e.past.line.Frames()) == Configuration(e.options)[..e.link.configureIndex]
  {
    hide Ring, DataOf, CommandsOf, OnWire, Bytes, Slot, Run, Legal, HeardSafe, KissDecoder.Valid,
         KissDecoder.Model, Configuration;
    FramesFollowAcceptance(e.Sending());
    RingLength(e.queue[..], e.queueHead, e.queueCount);
  }

  /** What happened to the endpoint is a legal run of the protocol machine, and the endpoint is where the
      machine is. */
  lemma RunIsLegal(e: Endpoint)
    requires e.Valid()
    ensures Legal(e.trace, e.options.flowControl, e.world) && e.Replays(Run(e.trace, e.world))
  {
    hide Ring, Slot, Run, Legal, HeardSafe, KissDecoder.Valid, KissDecoder.Model, Configuration,
         Transmit.Valid, Line.Holds;
  }

  /** The data frames on the present connection are those begun since the last loss, each the frame of
      the accepted packet it is counted by. Over the whole run frames are begun in acceptance order, and
      the frame of a packet is begun a second time only if the connection went down in between. */
  lemma RepeatSafety(e: Endpoint)
    requires e.Valid()
    ensures var data := DataOf(e.past.line.Frames());
            && |Begun(e.trace)| == |data|
            && (forall i :: 0 <= i < |data| ==>
                  Begun(e.trace)[i] < |e.past.accepted| && data[i] == e.past.accepted[Begun(e.trace)[i]])
    ensures forall i, j :: 0 <= i < j < |e.trace| && e.trace[i].Started? && e.trace[j].Started? ==>
              && e.trace[i].place <= e.trace[j].place
              && (e.trace[i].place == e.trace[j].place ==> exists k :: i < k < j && e.trace[k].WentDown?)
  {
    hide Ring, Slot, Run, Legal, HeardSafe, KissDecoder.Valid, KissDecoder.Model, Configuration,
         Transmit.Valid, Line.Holds, DataOf, Begun;
    BegunExact(e.trace, e.options.flowControl, e.world);
    FramesBegun(e.Sending());
    BegunAre(e.Sending(), Begun(e.trace));
    forall i: nat, j: nat | i < j < |e.trace| && e.trace[i].Started? && e.trace[j].Started?
      ensures e.trace[i].place <= e.trace[j].place
      ensures e.trace[i].place == e.trace[j].place ==> exists k :: i < k < j && e.trace[k].WentDown?
    {
      BegunAgain(e.trace, e.options.flowControl, e.world, i, j);
    }
  }

  lemma BegunAre(t: Transmit, begun: seq<nat>)
    requires t.Valid() && t.before <= |t.departed|
    requires begun == Span(t.before, |t.departed|) + if t.claimed then [|t.departed|] else []
    ensures var data := t.accepted[t.before..|t.departed|] + if t.claimed then [t.queued[0]] else [];
            && |begun| == |data|
            && (forall i :: 0 <= i < |data| ==> begun[i] < |t.accepted| && data[i] == t.accepted[begun[i]])
  {
    hide DataOf, CommandsOf;
  }

  /** With flow control, of two data frames that follow each other on one connection the first one ended in
      between, and behind its end a READY was decoded or a clock reading came five seconds later. Only
      before the endpoint was up may its coming up stand for these, and that happens once on a connection.
      The clock readings are those of the run, in the order they were asked for. */
  lemma FlowSafety(e: Endpoint, i: nat, j: nat) returns (k: nat)
    requires e.Valid() && e.options.flowControl && i < j < |e.trace| && e.trace[i].Started? && e.trace[j].Started?
    requires forall m :: i < m < j ==> !e.trace[m].Started? && !e.trace[m].WentDown?
    ensures i < k < j && e.trace[k].Ended? && e.trace[k].lock.Some?
    ensures || ReleasedBetween(e.trace, e.world, k, j)
            || (!Run(e.trace[..i], e.world).up && UpBetween(e.trace, k, j))
    ensures forall a, b :: 0 <= a < b < |e.trace| && e.trace[a].CameUp? && e.trace[b].CameUp? ==>
              exists m :: a < m < b && e.trace[m].WentDown?
    ensures forall a, b :: 0 <= a < b < |e.trace| && Question(e.trace[a]).Some? && Question(e.trace[b]).Some? ==>
              Question(e.trace[a]).value < Question(e.trace[b]).value < e.calls
  {
    hide Ring, Slot, Run, Legal, HeardSafe, KissDecoder.Valid, KissDecoder.Model, Configuration,
         Transmit.Valid, Line.Holds, ReleasedBetween, UpBetween;
    var log, w := e.trace, e.world;
    k := FlowControlled(log, w, i, j);
    forall a: nat, b: nat | a < b < |log| && log[a].CameUp? && log[b].CameUp?
      ensures exists m :: a < m < b && log[m].WentDown?
    {
      UpOnce(log, true, w, a, b);
    }
    forall a: nat, b: nat | a < b < |log| && Question(log[a]).Some? && Question(log[b]).Some?
      ensures Question(log[a]).value < Question(log[b]).value < e.calls
    {
      QuestionsInOrder(log, true, w, a, b);
      QuestionsUsed(log, true, w, b, |log|);
      assert log[..|log|] == log;
    }
  }

  /** What the octets read carry: on each connection, the frames of the segments between its flags. */
  function CarriedAll(inputs: seq<seq<byte>>): seq<Frame> {
    if inputs == [] then []
    else CarriedAll(inputs[..|inputs| - 1]) + Gather(Kiss, CutAtFlags(Kiss, inputs[|inputs| - 1]).closed, MTU)
  }

  lemma {:induction false} DecodedIsCarried(inputs: seq<seq<byte>>)
    ensures DecodedAll(inputs) == CarriedAll(inputs)
  {
    hide Frames, Gather, CutAtFlags;
    if inputs != [] {
      DecodedIsCarried(inputs[..|inputs| - 1]);
      DecoderRefinesCut(Kiss, inputs[|inputs| - 1], MTU);
    }
  }

  /** The frames decoded over the run are those carried by the octets read, connection by connection. */
  lemma InputSafety(e: Endpoint)
    requires e.Valid()
    ensures Run(e.trace, e.world).decoded == CarriedAll(e.Inputs())
  {
    hide Ring, Slot, Run, Legal, Configuration, Transmit.Valid, Line.Holds, CarriedAll, DecodedAll,
         KissDecoder.Valid, KissDecoder.Model, After, Uncounted;
    DecodedIsCarried(e.Inputs());
  }

  /** The receive ring holds, of the data frames kept, those the callback has not accepted. A data frame is
      lost if and only if eight packets wait where it arrives; losses and refusals are what is counted.
      Each call of the callback offers the oldest kept packet that no earlier call has accepted. */
  lemma ReceiveSafety(e: Endpoint)
    requires e.Valid()
    ensures var kept := Kept(e.trace, e.world);
            && |kept| == e.info.packetsReceived + e.receiveCount
            && e.Waiting() == kept[e.info.packetsReceived..]
            && |Payloads(CarriedAll(e.Inputs()))| == |kept| + Lost(e.trace, e.world)
            && e.info.packetsDropped == Lost(e.trace, e.world) + Refusals(e.trace)
    ensures forall j :: 0 <= j < |e.trace| && e.trace[j].Decoded? && IsData(e.trace[j].frame) ==>
              && Kept(e.trace[..j + 1], e.world) <= Kept(e.trace, e.world)
              && Kept(e.trace[..j + 1], e.world)
                 == Kept(e.trace[..j], e.world)
                    + if |Run(e.trace[..j], e.world).waiting| == QUEUE_DEPTH then [] else [e.trace[j].frame.data]
    ensures forall j :: 0 <= j < |e.trace| && e.trace[j].Offered? ==>
              var n := Run(e.trace[..j], e.world).received;
              n < |Kept(e.trace, e.world)| && e.trace[j].packet == Kept(e.trace, e.world)[n]
  {
    hide Ring, Slot, Run, Legal, HeardSafe, KissDecoder.Valid, KissDecoder.Model, Configuration,
         Transmit.Valid, Line.Holds, Kept, Lost, Refusals, Payloads, CarriedAll;
    var log, control, w := e.trace, e.options.flowControl, e.world;
    RingIsKept(log, control, w);
    RingLength(e.receiveQueue[..], e.receiveHead, e.receiveCount);
    InputSafety(e);
    forall j: nat | j < |log| && log[j].Decoded? && IsData(log[j].frame)
      ensures Kept(log[..j + 1], w) <= Kept(log, w)
      ensures Kept(log[..j + 1], w)
           == Kept(log[..j], w) + if |Run(log[..j], w).waiting| == QUEUE_DEPTH then [] else [log[j].frame.data]
    {
      ArrivalKept(log, control, w, j);
    }
    forall j: nat | j < |log| && log[j].Offered?
      ensures Run(log[..j], w).received < |Kept(log, w)|
      ensures log[j].packet == Kept(log, w)[Run(log[..j], w).received]
    {
      OfferedInOrder(log, control, w, j);
    }
  }

  function FrameOf(w: Written): Frame {
    match w
    case Command(c, v) => Frame(Some(c), [v])
    case Data(p) => Frame(Some(0), p)
  }

  function FramesOf(ws: seq<Written>): seq<Frame> {
    seq(|ws|, i requires 0 <= i < |ws| => FrameOf(ws[i]))
  }

  lemma {:induction false} WireEncodes(ws: seq<Written>)
    ensures OnWire(ws) == EncodeAll(Kiss, FramesOf(ws))
  {
    if ws != [] {
      var rest := ws[..|ws| - 1];
      WireEncodes(rest);
      hide Encode;
      assert FramesOf(ws)[..|ws| - 1] == FramesOf(rest);
    }
  }

  lemma {:induction false} WrittenFits(ws: seq<Written>, config: seq<Written>, limit: nat)
    requires forall i :: 0 <= i < |DataOf(ws)| ==> |DataOf(ws)[i]| <= limit
    requires forall i :: 0 <= i < |CommandsOf(ws)| ==> CommandsOf(ws)[i] in config
    ensures forall i :: 0 <= i < |ws| ==> if ws[i].Data? then |ws[i].packet| <= limit else ws[i] in config
  {
    if ws != [] {
      var rest, w := ws[..|ws| - 1], ws[|ws| - 1];
      assert ws == rest + [w];
      DataOfSnoc(rest, w);
      assert forall i :: 0 <= i < |DataOf(rest)| ==> DataOf(ws)[i] == DataOf(rest)[i];
      assert forall i :: 0 <= i < |CommandsOf(rest)| ==> CommandsOf(ws)[i] == CommandsOf(rest)[i];
      WrittenFits(rest, config, limit);
      if w.Data? {
        assert DataOf(ws)[|DataOf(rest)|] == w.packet;
      } else {
        assert CommandsOf(ws)[|CommandsOf(rest)|] == w;
      }
    }
  }

  /** A device that decodes KISS reads back, after at most one leftover frame of its own,
      exactly the commands and packets completed on this connection. */
  lemma PeerReadsLine(e: Endpoint, d: Decoder)
    requires e.Valid() && d.capacity >= MTU
    ensures var done := e.past.line.done;
            Frames(Kiss, d, OnWire(done))
            == if done == [] then [] else Optional(Flush(Kiss, d).frame) + FramesOf(done)
  {
    hide Frames, After, Flush, OnWire, EncodeAll, Encode, Ring, Transmit.Valid, Line.Holds, Slot,
         Run, Legal, HeardSafe, KissDecoder.Valid, KissDecoder.Model, Configuration,
         Carriable;
    var done := e.past.line.done;
    LineFits(e.Sending(), Configuration(e.options));
    LineCarriable(done, e.options, d.capacity);
    WireEncodes(done);
    StreamRoundTrip(Kiss, d, FramesOf(done));
  }

  lemma LineCarriable(done: seq<Written>, o: Options, capacity: nat)
    requires capacity >= MTU
    requires forall i :: 0 <= i < |done| ==>
               if done[i].Data? then |done[i].packet| <= MTU else done[i] in Configuration(o)
    ensures forall i :: 0 <= i < |FramesOf(done)| ==> Carriable(Kiss, FramesOf(done)[i], capacity)
  {
  }

  lemma LineFits(t: Transmit, config: seq<Written>)
    requires t.Valid() && t.configuration == config
    ensures forall i :: 0 <= i < |t.line.done| ==>
              if t.line.done[i].Data? then |t.line.done[i].packet| <= MTU else t.line.done[i] in config
  {
    hide DataOf, CommandsOf;
    FramesFollowAcceptance(t);
    var done := t.line.done;
    if t.line.current.Some? {
      DataOfSnoc(done, t.line.current.value);
    } else {
      assert done + [] == done;
    }
    assert CommandsOf(done) <= CommandsOf(t.line.Frames());
    forall i | 0 <= i < |CommandsOf(done)|
      ensures CommandsOf(done)[i] in config
    {
      assert CommandsOf(done)[i] == config[..t.index][i];
    }
    WrittenFits(done, config, MTU);
  }
}
