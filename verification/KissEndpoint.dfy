/** The KISS serial endpoint: two ring queues, one output buffer written in pieces,
    device configuration, reconnection and flow control.

    The outside world answers through `World`: the n-th question put to it, over the
    endpoint's whole life, gets its n-th answer. Every property holds for every world. */
module KissEndpoint {
  import opened Common
  import opened Framing
  import opened SerialCodecs
  import opened KissLine
  import opened KissTrace

  const DEVICE_MAX := 255

  datatype Options = Options(device: seq<byte>, speed: nat, dataBits: nat, parity: char, stopBits: nat,
                             flowControl: bool, preamble: nat, txTail: nat, persistence: byte, slotTime: nat,
                             configureDelay: real, reconnectDelay: real)

  predicate Usable(o: Options) {
    && 0 < |o.device| <= DEVICE_MAX && o.speed != 0
    && 5 <= o.dataBits <= 8 && o.parity in {'N', 'E', 'O'} && 1 <= o.stopBits <= 2
    && o.configureDelay >= 0.0 && o.reconnectDelay > 0.0
  }

  datatype State = Down | Configuring | Up

  function Tens(milliseconds: nat): byte {
    if milliseconds / 10 > 255 then 255 else milliseconds / 10
  }

  /** The configuration sent on every connection, in this order. */
  function Configuration(o: Options): (c: seq<Written>)
    ensures |c| == 5
  {
    [Command(1, Tens(o.preamble)), Command(4, Tens(o.txTail)), Command(2, o.persistence),
     Command(3, Tens(o.slotTime)), Command(15, 1)]
  }

  /** The connection: whether the device is open, how far configuration has come, and
      the clock readings that gate reconnection, configuration and flow control. */
  datatype Link = Link(connected: bool, state: State, configureAt: real, reconnectAt: real,
                       configureIndex: nat, configured: bool, flowReady: bool, flowLockedAt: real)

  /** The part of the output buffer in use, how much of it is written, and whether the
      oldest queued packet has been put on the line. */
  datatype Output = Output(offset: nat, length: nat, packet: bool)
  {
    function Left(): nat {
      if offset < length then length - offset else 0
    }
  }

  /** `n` octets of the output buffer. */
  function Piece(output: seq<byte>, offset: nat, n: nat): seq<byte> {
    if offset + n <= |output| then output[offset..offset + n] else []
  }

  datatype Info = Info(packetsSent: nat, packetsReceived: nat, packetsDropped: nat)

  /** Everything sent so far: accepted packets, those that left the ring (`before` of them
      on earlier connections), and the present connection. */
  datatype Past = Past(accepted: seq<Packet>, departed: seq<Packet>, before: nat, line: Line)

  lemma PieceWritten(output: array<byte>, length: nat, offset: nat, n: nat)
    requires offset + n <= length <= output.Length
    ensures output[..length][offset..offset + n] == Piece(output[..], offset, n)
  {
  }

  /** How far the device takes `remaining` octets, from its n-th answer on. */
  datatype Drained = Drained(written: nat, calls: nat, status: Status)

  function Drain(writing: nat -> WriteResult, n: nat, remaining: nat): Drained
    decreases remaining
  {
    if remaining == 0 then Drained(0, n, Ok)
    else match writing(n)
         case Wrote(bytes) =>
           if bytes == 0 then Drained(0, n + 1, Io)
           else var taken := if bytes > remaining then remaining else bytes;
                var rest := Drain(writing, n + 1, remaining - taken);
                rest.(written := taken + rest.written)
         case WouldBlock => Drained(0, n + 1, Ok)
         case WriteFailed => Drained(0, n + 1, Io)
  }

  lemma {:induction false} DrainBounds(writing: nat -> WriteResult, n: nat, remaining: nat)
    ensures var r := Drain(writing, n, remaining);
            r.written <= remaining && n <= r.calls <= n + remaining && (r.status == Ok || r.status == Io)
    ensures var r := Drain(writing, n, remaining); r.written == remaining ==> r.status == Ok
    decreases remaining
  {
    if remaining != 0 && writing(n).Wrote? && 0 < writing(n).bytes < remaining {
      DrainBounds(writing, n + 1, remaining - writing(n).bytes);
    }
  }

  /** The number of the last question. */
  function Last(calls: nat): nat {
    if calls == 0 then 0 else calls - 1
  }

  predicate AnyReady(frames: seq<Frame>) {
    exists i :: 0 <= i < |frames| && IsReady(frames[i])
  }

  lemma NoneReady()
    ensures !AnyReady([])
  {
  }

  lemma DecodingsMore(log: seq<Event>, frames: seq<Frame>, more: seq<Frame>)
    ensures log + Decodings(frames) + Decodings(more) == log + Decodings(frames + more)
    ensures AnyReady(frames + more) <==> AnyReady(frames) || AnyReady(more)
  {
    forall i | 0 <= i < |more|
      ensures (frames + more)[|frames| + i] == more[i]
    {
    }
    forall i | 0 <= i < |frames|
      ensures (frames + more)[i] == frames[i]
    {
    }
  }

  class Endpoint {
    const world: World
    const options: Options
    const queue: array<Packet>
    const receiveQueue: array<Packet>
    const output: array<byte>
    const decoder: KissDecoder

    var calls: nat
    var link: Link
    var info: Info
    var queueHead: nat
    var queueCount: nat
    var receiveHead: nat
    var receiveCount: nat
    var pending: Output

    ghost var past: Past
    ghost var trace: seq<Event>          // everything that happened

    // ---------------------------------------------------------------- invariants

    ghost predicate Shape()
      reads this, decoder
    {
      && queue.Length == receiveQueue.Length == QUEUE_DEPTH && queue != receiveQueue
      && output.Length == ENCODED_MAX && output != decoder.buffer
      && decoder.Valid() && decoder.capacity == MTU
      && queueHead < QUEUE_DEPTH && queueCount <= QUEUE_DEPTH
      && receiveHead < QUEUE_DEPTH && receiveCount <= QUEUE_DEPTH
      && pending.length <= ENCODED_MAX && link.configureIndex <= 5
      && (link.connected <==> link.state != Down) && (link.configured <==> link.state == Up)
      && (link.configured ==> link.configureIndex == 5)
    }

    ghost function Sending(): Transmit
      reads this, queue
      requires queue.Length == QUEUE_DEPTH && queueCount <= QUEUE_DEPTH
    {
      Transmit(past.accepted, past.departed, past.before, Ring(queue[..], queueHead, queueCount), past.line,
               pending.packet, info.packetsSent, Configuration(options), link.configureIndex, link.connected)
    }

    ghost function Waiting(): seq<Packet>
      reads this, receiveQueue
      requires receiveQueue.Length == QUEUE_DEPTH && receiveCount <= QUEUE_DEPTH
    {
      Ring(receiveQueue[..], receiveHead, receiveCount)
    }

    /** The endpoint is where the machine is after everything that happened. */
    ghost predicate Replays(m: Machine)
      reads this, receiveQueue
      requires receiveQueue.Length == QUEUE_DEPTH && receiveCount <= QUEUE_DEPTH
    {
      && m == Machine(past.accepted, |past.departed|, past.before, pending.packet, link.configured, m.locked, m.asked,
                      m.inputs, m.decoded, Waiting(), info.packetsReceived, info.packetsDropped)
      && m.asked <= calls
      && FlowAgrees(m, world, options.flowControl, link.flowReady, link.flowLockedAt, link.connected)
    }

    ghost function Replayed(): Machine
      reads this
    {
      Run(trace, world)
    }

    /** The octets read on each connection. */
    ghost function Inputs(): seq<seq<byte>>
      reads this
    {
      Replayed().inputs
    }

    ghost predicate Working()
      reads this, queue, receiveQueue, output, decoder
    {
      && Shape()
      && past.line.Holds(output[..pending.length], pending.offset)
      && Sending().Valid()
      && Legal(trace, options.flowControl, world) && Replays(Replayed())
    }

    ghost predicate Valid()
      reads this, queue, receiveQueue, output, decoder, decoder.buffer
    {
      Working() && HeardSafe(Inputs(), Replayed().decoded, decoder.Model())
    }

    /** The state in the midst of a read, with `extra` of its octets decoded. */
    ghost predicate Listening(extra: seq<byte>)
      reads this, queue, receiveQueue, output, decoder, decoder.buffer
    {
      Working() && Inputs() != [] && HeardSafe(Heard(Inputs(), extra), Replayed().decoded, decoder.Model())
    }

    lemma InputsContinue(data: seq<byte>)
      requires Valid()
      ensures decoder.Valid() && Inputs() != [] && Continued(Inputs(), Inputs())
      ensures Continued(Inputs(), Heard(Inputs(), data))
      ensures |Heard(Inputs(), data)| == |Inputs()|
    {
      hide Ring, Slot, Run, Legal, HeardSafe, KissDecoder.Valid, KissDecoder.Model, Line.Holds, Transmit.Valid;
      HeardSome(Inputs(), Replayed().decoded, decoder.Model());
      ContinuedSame(Inputs(), Replayed().decoded, decoder.Model(), data);
    }

    // ---------------------------------------------------------------- connection

    constructor (w: World, o: Options)
      ensures Valid() && fresh(queue) && fresh(receiveQueue) && fresh(output) && fresh(decoder) && fresh(decoder.buffer)
      ensures past == Past([], [], 0, IDLE) && trace == []
      ensures options == o && world == w && calls == 0
      ensures link == Link(false, Down, 0.0, 0.0, 0, false, !o.flowControl, 0.0)
      ensures pending == Output(0, 0, false) && info == Info(0, 0, 0) && queueCount == receiveCount == 0
    {
      world, options := w, o;
      queue := new Packet[QUEUE_DEPTH](_ => []);
      receiveQueue := new Packet[QUEUE_DEPTH](_ => []);
      output := new byte[ENCODED_MAX](_ => 0);
      var storage := new byte[MTU](_ => 0);
      decoder := new KissDecoder(storage, MTU);
      link := Link(false, Down, 0.0, 0.0, 0, false, !o.flowControl, 0.0);
      info := Info(0, 0, 0);
      calls, queueHead, queueCount, receiveHead, receiveCount := 0, 0, 0, 0, 0;
      pending := Output(0, 0, false);
      past, trace := Past([], [], 0, IDLE), [];
      new;
      StartValid(Configuration(o));
      AtStart(o.flowControl, w);
      HeardNothing();
    }

    /** Creation refuses unusable options and tries to open the device at once; a failure to
        open is not an error. */
    static method Create(w: World, o: Options) returns (status: Status, e: Endpoint?)
      ensures status == if Usable(o) then Ok else InvalidArgument
      ensures e == null <==> status != Ok
      ensures e != null ==> fresh(e) && e.Valid() && e.options == o && e.world == w
      ensures e != null ==> e.past == Past([], [], 0, IDLE) && e.trace == []
      ensures e != null ==>
                e.link == if w.opening(0) == Ok
                          then Link(true, Configuring, w.clock(1) + o.configureDelay, 0.0, 0, false,
                                    !o.flowControl, w.clock(2))
                          else Link(false, Down, 0.0, w.clock(3) + o.reconnectDelay, 0, false, !o.flowControl, 0.0)
    {
      hide Endpoint.Valid, Usable, Run;
      if !Usable(o) {
        return InvalidArgument, null;
      }
      e := new Endpoint(w, o);
      var opening := e.OpenSerial();
      if opening != Ok {
        var asked := e.Ask();
        e.Postpone(w.clock(asked) + o.reconnectDelay);
      }
      return Ok, e;
    }

    /** The number of the next question to the outside world. */
    method Ask() returns (n: nat)
      requires Valid()
      modifies this`calls
      ensures Valid() && n == old(calls) && calls == n + 1 && Replayed().asked <= n
    {
      hide Ring, Slot, Run, Legal, HeardSafe, KissDecoder.Valid, KissDecoder.Model, Line.Holds, Transmit.Valid,
           Configuration;
      n := calls;
      calls := calls + 1;
    }

    /** Sets when to try the device again. */
    method Postpone(at: real)
      requires Valid()
      modifies this`link
      ensures Valid() && link == old(link).(reconnectAt := at)
    {
      hide Ring, Slot, Run, Legal, HeardSafe, KissDecoder.Valid, KissDecoder.Model, Line.Holds, Transmit.Valid,
           Configuration;
      link := link.(reconnectAt := at);
    }

    method OpenSerial() returns (status: Status)
      requires Valid() && !link.connected
      modifies this`calls, this`link
      ensures Valid() && status == world.opening(old(calls)) && calls == old(calls) + 3
      ensures link == if status != Ok then old(link)
                      else old(link).(connected := true, state := Configuring,
                                      configureAt := world.clock(old(calls) + 1) + options.configureDelay,
                                      flowLockedAt := world.clock(old(calls) + 2))
    {
      hide Ring, Slot, Run, Legal, HeardSafe, KissDecoder.Valid, KissDecoder.Model, Line.Holds, Transmit.Valid,
           Configuration;
      status := world.opening(calls);
      if status == Ok {
        ConnectValid(Sending());
        link := link.(connected := true, state := Configuring,
                      configureAt := world.clock(calls + 1) + options.configureDelay,
                      flowLockedAt := world.clock(calls + 2));
      }
      calls := calls + 3;
    }

    /** The decoder starts afresh and keeps its counters. */
    method ForgetInput()
      requires Valid()
      modifies decoder
      ensures Working() && HeardSafe(Inputs() + [[]], Replayed().decoded, decoder.Model())
    {
      hide Ring, Slot, Run, Legal, HeardSafe, KissDecoder.Valid, KissDecoder.Model, Line.Holds, Transmit.Valid,
           Configuration, Fresh;
      HeardReset(Inputs(), Replayed().decoded, decoder.Model(), decoder.malformed, decoder.oversized);
      decoder.Reset();
    }

    /** Gives up what was being written, and every claim on the device. */
    method ForgetOutput()
      requires Working() && HeardSafe(Inputs() + [[]], Replayed().decoded, decoder.Model())
      modifies this`calls, this`link, this`pending, this`past, this`trace
      ensures Valid() && trace == old(trace) + [WentDown] && Inputs() == old(Inputs()) + [[]]
      ensures past == old(past).(before := |old(past).departed|, line := IDLE)
      ensures link == old(link).(connected := false, state := Down,
                                 reconnectAt := world.clock(old(calls)) + options.reconnectDelay,
                                 configured := false, configureIndex := 0, flowReady := !options.flowControl)
      ensures pending == Output(0, 0, false)
    {
      hide Ring, Slot, Run, Legal, HeardSafe, KissDecoder.Valid, KissDecoder.Model, Line.Holds, Transmit.Valid,
           Configuration;
      DropValid(Sending());
      Next(trace, options.flowControl, world, WentDown);
      IdleHolds();
      link := link.(connected := false, state := Down,
                    reconnectAt := world.clock(calls) + options.reconnectDelay,
                    configured := false, configureIndex := 0, flowReady := !options.flowControl);
      pending := Output(0, 0, false);
      past, trace := past.(before := |past.departed|, line := IDLE), trace + [WentDown];
      calls := calls + 1;
    }

    /** Closes the device and forgets everything about the connection but the rings. */
    method MarkDown()
      requires Valid()
      modifies this`calls, this`link, this`pending, this`past, this`trace, decoder
      ensures Valid()
      ensures link == old(link).(connected := false, state := Down,
                                 reconnectAt := world.clock(old(calls)) + options.reconnectDelay,
                                 configured := false, configureIndex := 0, flowReady := !options.flowControl)
      ensures past == old(past).(before := |old(past).departed|, line := IDLE) && pending == Output(0, 0, false)
      ensures trace == old(trace) + [WentDown] && Inputs() == old(Inputs()) + [[]]
    {
      hide Valid, Working, Run, HeardSafe, KissDecoder.Model;
      ForgetInput();
      ForgetOutput();
    }

    // ---------------------------------------------------------------- sending

    method Send(packet: Packet) returns (status: Status)
      requires Valid()
      modifies this`queueCount, this`info, this`past, this`trace, queue
      ensures Valid()
      ensures status == if |packet| == 0 || |packet| > MTU then InvalidArgument
                        else if link.state == Down then InvalidState
                        else if old(queueCount) == QUEUE_DEPTH then Overflow else Ok
      ensures past == if status == Ok then old(past).(accepted := old(past).accepted + [packet]) else old(past)
      ensures trace == old(trace) + (if status == Ok then [Accepted(packet)] else [])
                       + if status == Overflow then [Refused] else []
      ensures queueCount == old(queueCount) + if status == Ok then 1 else 0
      ensures info == old(info).(packetsDropped := old(info).packetsDropped + if status == Overflow then 1 else 0)
    {
      hide Ring, Slot, Run, Legal, HeardSafe, KissDecoder.Valid, KissDecoder.Model, Line.Holds, Transmit.Valid,
           Configuration;
      if |packet| == 0 || |packet| > MTU {
        return InvalidArgument;
      }
      if link.state == Down {
        return InvalidState;
      }
      RingLength(queue[..], queueHead, queueCount);
      Balance(Sending());
      if queueCount == QUEUE_DEPTH {
        Next(trace, options.flowControl, world, Refused);
        info, trace := info.(packetsDropped := info.packetsDropped + 1), trace + [Refused];
        return Overflow;
      }
      RingPush(queue[..], queueHead, queueCount, packet);
      var tail := Slot(queueHead, queueCount);
      AcceptValid(Sending(), packet);
      Next(trace, options.flowControl, world, Accepted(packet));
      queue[tail] := packet;
      assert queue[..] == old(queue[..])[tail := packet];
      queueCount := queueCount + 1;
      past, trace := past.(accepted := past.accepted + [packet]), trace + [Accepted(packet)];
      return Ok;
    }

    /** Offers the device what is left of the output until it is written or refused. */
    method WriteOut(offset: nat, length: nat) returns (r: Drained)
      requires offset <= length
      ensures r == Drain(world.writing, calls, length - offset)
    {
      var n, written := calls, 0;
      while offset + written < length
        invariant offset + written <= length
        invariant var rest := Drain(world.writing, n, length - offset - written);
                  Drain(world.writing, calls, length - offset) == rest.(written := written + rest.written)
      {
        var result := world.writing(n);
        n := n + 1;
        if result.Wrote? && result.bytes > 0 {
          var remaining := length - offset - written;
          written := written + if result.bytes > remaining then remaining else result.bytes;
        } else {
          return Drained(written, n, if result.WouldBlock? then Ok else Io);
        }
      }
      return Drained(written, n, Ok);
    }

    /** Writes as much of the output as the device takes; a frame written whole is done. */
    method FlushOutput() returns (status: Status)
      requires Valid() && link.connected
      modifies this`calls, this`pending, this`past
      ensures Valid() && (status == Ok || status == Io)
      ensures past == old(past).(line := past.line) && past.line.Frames() == old(past.line.Frames())
      ensures var r := Drain(world.writing, old(calls), old(pending).Left());
              && status == r.status && calls == r.calls >= old(calls)
              && past.line.wire == old(past.line.wire) + Piece(output[..], old(pending).offset, r.written)
              && pending == if r.written == old(pending).Left() then Output(0, 0, old(pending).packet)
                            else old(pending).(offset := old(pending).offset + r.written)
      ensures pending.length != 0 ==>
                past.line.current == old(past.line.current) && past.line.done == old(past.line.done)
    {
      hide Ring, Slot, Run, Legal, HeardSafe, KissDecoder.Valid, KissDecoder.Model, Transmit.Valid, Line.Holds,
           Move, Configuration, Bytes, Drain, Piece;
      HoldsWithin(past.line, output[..pending.length], pending.offset);
      var r := WriteOut(pending.offset, pending.length);
      DrainBounds(world.writing, calls, pending.Left());
      MoveHolds(past.line, output[..pending.length], pending.offset, r.written);
      PieceWritten(output, pending.length, pending.offset, r.written);
      ghost var l := Move(past.line, r.written);
      LineMoves(Sending(), l);
      calls, status, past := r.calls, r.status, past.(line := l);
      pending := if pending.offset + r.written < pending.length then pending.(offset := pending.offset + r.written)
                 else Output(0, 0, pending.packet);
      assert output[..0] == [];
    }

    /** Encodes a frame into the free output buffer; every frame of the endpoint fits. */
    method PutOnLine(command: byte, payload: seq<byte>, ghost w: Written)
      requires Shape() && pending.length == 0 && pending.offset == 0
      requires command <= 15 && |payload| <= MTU && Bytes(w) == Encode(Kiss, Frame(Some(command), payload))
      requires 0 < |Bytes(w)| <= ENCODED_MAX
      modifies this`pending, output
      ensures pending == old(pending).(length := |Bytes(w)|)
      ensures output[..pending.length] == Bytes(w)
    {
      hide Encode;
      var status, length := EncodeKiss(0, command, payload, output);
      pending := pending.(length := length);
    }

    /** Puts the next configuration command on the line. */
    method QueueCommand()
      requires Valid() && link.connected && pending.length == 0 && link.configureIndex < 5
      modifies this`pending, this`link, this`past, output
      ensures Valid()
      ensures past == old(past).(line := old(past.line).Begin(Configuration(options)[old(link.configureIndex)]))
      ensures link == old(link).(configureIndex := old(link.configureIndex) + 1)
      ensures pending == old(pending).(length := pending.length)
    {
      hide Ring, Slot, Run, Legal, HeardSafe, KissDecoder.Valid, KissDecoder.Model, Transmit.Valid, OnWire,
           Encode, Tens;
      var c := Configuration(options)[link.configureIndex];
      ConfigureValid(Sending());
      FrameFits(c);
      PutOnLine(c.command, [c.value], c);
      BeginHolds(past.line, c);
      past := past.(line := past.line.Begin(c));
      link := link.(configureIndex := link.configureIndex + 1);
    }

    method ComeUp()
      requires Valid() && link.connected && !link.configured && pending.length == 0 && link.configureIndex >= 5
      modifies this`link, this`trace
      ensures Valid() && trace == old(trace) + [CameUp] && Replayed().asked == old(Replayed().asked)
      ensures Inputs() == old(Inputs())
      ensures link == old(link).(configureIndex := 5, configured := true, flowReady := true, state := Up)
      ensures CommandsOf(past.line.done) == Configuration(options)
    {
      hide Ring, Slot, Run, Legal, HeardSafe, KissDecoder.Valid, KissDecoder.Model, Transmit.Valid, Line.Holds,
           Configuration, CommandsOf;
      HoldsWithin(past.line, output[..pending.length], pending.offset);
      ConfiguredLine(Sending());
      Next(trace, options.flowControl, world, CameUp);
      link, trace := link.(configured := true, flowReady := true, state := Up), trace + [CameUp];
    }

    /** Sends what is missing of the configuration; the endpoint is up once all of it is out. */
    method ConfigureDevice() returns (status: Status)
      requires Valid() && link.connected && !link.configured
      modifies this`calls, this`pending, this`link, this`past, this`trace, output
      ensures Valid() && (status == Ok || status == Io)
      ensures past == old(past).(line := past.line) && old(past.line.wire) <= past.line.wire
      ensures link.connected && pending.packet == old(pending.packet) && calls >= old(calls)
      ensures if status == Ok && pending.length == 0
              then && link == old(link).(configureIndex := 5, configured := true, flowReady := true, state := Up)
                   && trace == old(trace) + [CameUp] && CommandsOf(past.line.done) == Configuration(options)
              else link == old(link).(configureIndex := link.configureIndex) && trace == old(trace)
      ensures Inputs() == old(Inputs()) && Replayed().asked == old(Replayed().asked)
    {
      hide Valid, Run, Configuration, CommandsOf, Drain;
      status := FlushOutput();
      if status != Ok || pending.length != 0 {
        return;
      }
      while link.configureIndex < 5
        invariant Valid() && link.connected && pending.length == 0 && pending.packet == old(pending.packet)
        invariant link == old(link).(configureIndex := link.configureIndex)
        invariant past == old(past).(line := past.line) && old(past.line.wire) <= past.line.wire
        invariant trace == old(trace) && status == Ok && calls >= old(calls)
        decreases 5 - link.configureIndex
      {
        QueueCommand();
        status := FlushOutput();
        if status != Ok || pending.length != 0 {
          return;
        }
      }
      ComeUp();
    }

    /** Locks the flow at a clock reading. */
    method LockFlow()
      requires Valid() && link.connected && pending.packet && options.flowControl
      modifies this`calls, this`link
      ensures Valid() && calls == old(calls) + 1 && Replayed().asked <= old(calls)
      ensures link == old(link).(flowReady := false, flowLockedAt := world.clock(old(calls)))
    {
      hide Ring, Slot, Run, Legal, HeardSafe, KissDecoder.Valid, KissDecoder.Model, Line.Holds, Transmit.Valid,
           Configuration, Machine.Take, Machine.Allows;
      ClaimedUnlocked(trace, options.flowControl, world);
      link := link.(flowReady := false, flowLockedAt := world.clock(calls));
      calls := calls + 1;
    }

    /** Takes the claimed packet out of the ring. */
    method PopPacket(ghost lock: Option<nat>)
      requires Valid() && link.connected && pending.packet && pending.length == 0
      requires lock.Some? <==> options.flowControl
      requires lock.Some? ==> && Replayed().asked <= lock.value < calls && !link.flowReady
                              && link.flowLockedAt == world.clock(lock.value)
      modifies this`pending, this`info, this`queueHead, this`queueCount, this`past, this`trace
      ensures Valid() && past == old(past).(departed := old(past).departed + [queue[old(queueHead)]])
      ensures queueCount == old(queueCount) - 1 && pending == old(pending).(packet := false)
      ensures info == old(info).(packetsSent := old(info).packetsSent + 1) && trace == old(trace) + [Ended(lock)]
      ensures Inputs() == old(Inputs())
    {
      hide Ring, Slot, Run, Legal, HeardSafe, KissDecoder.Valid, KissDecoder.Model, Line.Holds, Transmit.Valid,
           Configuration, Machine.Take, Machine.Allows;
      ghost var t := Sending();
      HoldsNothing(past.line, output[..pending.length], pending.offset);
      ClaimedNonEmpty(t);
      DepartValid(t);
      RingLength(queue[..], queueHead, queueCount);
      RingPop(queue[..], queueHead, queueCount);
      NextEnded(trace, options.flowControl, world, lock);
      past, trace, queueHead, queueCount, info, pending :=
        past.(departed := past.departed + [queue[queueHead]]), trace + [Ended(lock)], Slot(queueHead, 1),
        queueCount - 1, info.(packetsSent := info.packetsSent + 1), pending.(packet := false);
    }

    /** The claimed packet's frame is complete: the packet leaves the ring and, under flow control,
        locks out the next one. */
    method RetirePacket()
      requires Valid() && link.connected && pending.packet && pending.length == 0
      modifies this`calls, this`pending, this`link, this`info, this`queueHead, this`queueCount, this`past, this`trace
      ensures Valid()
      ensures past == old(past).(departed := old(past).departed + [queue[old(queueHead)]])
      ensures queueCount == old(queueCount) - 1 && pending == old(pending).(packet := false)
      ensures info == old(info).(packetsSent := old(info).packetsSent + 1)
      ensures trace == old(trace) + [Ended(if options.flowControl then Some(old(calls)) else None)]
      ensures Inputs() == old(Inputs())
      ensures calls == old(calls) + if options.flowControl then 1 else 0
      ensures link == if options.flowControl
                      then old(link).(flowReady := false, flowLockedAt := world.clock(old(calls))) else old(link)
    {
      hide Ring, Slot, Run, Legal, HeardSafe, KissDecoder.Valid, KissDecoder.Model, Line.Holds, Transmit.Valid,
           Configuration, Machine.Take, Machine.Allows;
      ghost var lock := if options.flowControl then Some(calls) else None;
      if options.flowControl {
        LockFlow();
      }
      PopPacket(lock);
    }

    /** Puts the oldest queued packet on the line. */
    method ClaimPacket()
      requires Valid() && link.connected && !pending.packet && pending.length == 0 && queueCount > 0 && link.flowReady
      modifies this`pending, this`past, this`trace, output
      ensures Valid() && pending.packet
      ensures past == old(past).(line := old(past.line).Begin(Data(queue[queueHead])))
      ensures trace == old(trace) + [Started(|old(past.departed)|)] && Inputs() == old(Inputs())
    {
      hide Ring, Slot, Run, Legal, HeardSafe, KissDecoder.Valid, KissDecoder.Model, Transmit.Valid, Line.Valid,
           Configuration, OnWire, Encode;
      var packet := queue[queueHead];
      RingLength(queue[..], queueHead, queueCount);
      RingPop(queue[..], queueHead, queueCount);
      QueuedFits(Sending());
      NextAccepted(Sending());
      ClaimValid(Sending());
      FrameFits(Data(packet));
      PutOnLine(0, packet, Data(packet));
      BeginHolds(past.line, Data(packet));
      Next(trace, options.flowControl, world, Started(|past.departed|));
      past, trace := past.(line := past.line.Begin(Data(packet))), trace + [Started(|past.departed|)];
      pending := pending.(packet := true);
    }

    /** One round of writing: at most one packet leaves the ring. */
    method PollWrite() returns (status: Status)
      requires Valid() && link.connected
      modifies this`calls, this`pending, this`link, this`info, this`queueHead, this`queueCount, this`past, this`trace,
               output
      ensures Valid() && link.connected && (status == Ok || status == Io)
      ensures past == old(past).(departed := past.departed, line := past.line)
      ensures old(past.departed) <= past.departed && |past.departed| <= |old(past.departed)| + 1
      ensures old(past.line.wire) <= past.line.wire && info == old(info).(packetsSent := info.packetsSent)
      ensures var ended := |past.departed| > |old(past.departed)|;
              var started := !old(pending).packet && (ended || pending.packet);
              && trace == Writings(old(trace), started, |old(past.departed)|, ended,
                                   if options.flowControl then Some(Last(calls)) else None)
              && link == if ended && options.flowControl
                         then old(link).(flowReady := false, flowLockedAt := world.clock(Last(calls))) else old(link)
      ensures Inputs() == old(Inputs())
      ensures status == Ok && pending.length == 0 ==>
                && !pending.packet
                && (old(queueCount) > 0 && (old(pending).packet || old(link).flowReady) ==>
                      |past.departed| == |old(past.departed)| + 1)
    {
      hide Valid, Run, Drain;
      status := FlushOutput();
      if status != Ok || pending.length != 0 {
        return;
      }
      if pending.packet {
        RetirePacket();
        return;
      }
      if queueCount == 0 || !link.flowReady {
        return;
      }
      ClaimPacket();
      status := FlushOutput();
      if status == Ok && pending.length == 0 {
        RetirePacket();
      }
    }

    // ---------------------------------------------------------------- receiving

    /** A data frame is queued, or dropped by a full ring. */
    method ReceiveData(f: Frame)
      requires Working() && IsData(f)
      modifies this`info, this`receiveCount, this`trace, receiveQueue
      ensures Working()
      ensures trace == old(trace) + [Decoded(f)]
      ensures Replayed().decoded == old(Replayed().decoded) + [f]
      ensures Inputs() == old(Inputs()) && Replayed().asked == old(Replayed().asked)
      ensures receiveCount == old(receiveCount) + (if old(receiveCount) < QUEUE_DEPTH then 1 else 0)
      ensures info == old(info).(packetsDropped := old(info).packetsDropped
                                                   + if old(receiveCount) == QUEUE_DEPTH then 1 else 0)
    {
      hide Ring, Slot, Run, Legal, HeardSafe, KissDecoder.Valid, KissDecoder.Model, Line.Holds, Transmit.Valid,
           Configuration, Machine.Take, Machine.Allows;
      RingLength(receiveQueue[..], receiveHead, receiveCount);
      NextDecoded(trace, options.flowControl, world, f);
      trace := trace + [Decoded(f)];
      if receiveCount == QUEUE_DEPTH {
        info := info.(packetsDropped := info.packetsDropped + 1);
        return;
      }
      RingPush(receiveQueue[..], receiveHead, receiveCount, f.data);
      var tail := Slot(receiveHead, receiveCount);
      receiveQueue[tail] := f.data;
      assert receiveQueue[..] == old(receiveQueue[..])[tail := f.data];
      receiveCount := receiveCount + 1;
    }

    /** Any other frame; READY releases flow control. */
    method ReceiveOther(f: Frame)
      requires Working() && !IsData(f)
      modifies this`link, this`trace
      ensures Working() && link == old(link).(flowReady := old(link).flowReady || IsReady(f))
      ensures trace == old(trace) + [Decoded(f)]
      ensures Replayed().decoded == old(Replayed().decoded) + [f]
      ensures Inputs() == old(Inputs()) && Replayed().asked == old(Replayed().asked)
    {
      hide Ring, Slot, Run, Legal, HeardSafe, KissDecoder.Valid, KissDecoder.Model, Line.Holds, Transmit.Valid,
           Configuration, Machine.Take, Machine.Allows;
      NextDecoded(trace, options.flowControl, world, f);
      trace := trace + [Decoded(f)];
      if IsReady(f) {
        link := link.(flowReady := true);
      }
    }

    /** A decoded frame: READY releases flow control, data is queued or dropped, the rest
        is ignored. */
    method ReceiveFrame(f: Frame)
      requires Working()
      modifies this`link, this`info, this`receiveCount, this`trace, receiveQueue
      ensures Working() && link == old(link).(flowReady := old(link).flowReady || IsReady(f))
      ensures trace == old(trace) + [Decoded(f)]
      ensures Replayed().decoded == old(Replayed().decoded) + [f]
      ensures Inputs() == old(Inputs()) && Replayed().asked == old(Replayed().asked)
      ensures receiveCount == old(receiveCount) + (if IsData(f) && old(receiveCount) < QUEUE_DEPTH then 1 else 0)
      ensures info == old(info).(packetsDropped := old(info).packetsDropped
                                                   + if IsData(f) && old(receiveCount) == QUEUE_DEPTH then 1 else 0)
    {
      hide Working, Run;
      if IsData(f) {
        ReceiveData(f);
      } else {
        ReceiveOther(f);
      }
    }

    /** One octet from the device. */
    method TakeInput(b: byte, ghost extra: seq<byte>)
      requires Listening(extra)
      modifies this`link, this`info, this`receiveCount, this`trace, receiveQueue, decoder, decoder.buffer
      ensures Listening(extra + [b]) && info == old(info).(packetsDropped := info.packetsDropped)
      ensures decoder.Valid() && decoder.Model() == Feed(Kiss, old(decoder.Model()), b).next
      ensures var frames := Optional(Feed(Kiss, old(decoder.Model()), b).frame);
              && trace == old(trace) + Decodings(frames)
              && link == old(link).(flowReady := old(link).flowReady || AnyReady(frames))
      ensures Inputs() == old(Inputs()) && Replayed().asked == old(Replayed().asked)
    {
      hide Ring, Slot, Run, Legal, HeardSafe, KissDecoder.Valid, KissDecoder.Model, Line.Holds, Transmit.Valid,
           Configuration, Feed;
      HeardOctet(Heard(Inputs(), extra), Replayed().decoded, decoder.Model(), b);
      HeardMore(Inputs(), extra, b);
      var frame := decoder.Take(b);
      if frame.Some? {
        ReceiveFrame(frame.value);
        assert Optional(frame)[0] == frame.value;
      } else {
        assert Replayed().decoded + [] == Replayed().decoded;
      }
    }

    /** Records a read whose octets have all been decoded. */
    method NoteRead(asked: nat)
      requires Listening(if world.reading(asked).Read? then world.reading(asked).input else [])
      requires Replayed().asked <= asked < calls
      modifies this`trace
      ensures Valid() && trace == old(trace) + [Fetched(asked)]
      ensures Inputs() == if world.reading(asked).Read? then Heard(old(Inputs()), world.reading(asked).input)
                          else old(Inputs())
    {
      hide Ring, Slot, Run, Legal, HeardSafe, KissDecoder.Valid, KissDecoder.Model, Line.Holds, Transmit.Valid,
           Configuration;
      HeardMore(Inputs(), [], 0);
      Next(trace, options.flowControl, world, Fetched(asked));
      trace := trace + [Fetched(asked)];
    }

    lemma ListeningStarts()
      requires Valid()
      ensures decoder.Valid() && Listening([])
    {
      hide Ring, Slot, Run, Legal, HeardSafe, KissDecoder.Valid, KissDecoder.Model, Line.Holds, Transmit.Valid,
           Configuration;
      HeardSome(Inputs(), Replayed().decoded, decoder.Model());
      HeardMore(Inputs(), [], 0);
    }

    /** Feeds whatever the device has to the decoder: the decoded frames are those of the
        codec on this input, in wire order. */
    method PollRead() returns (status: Status)
      requires Valid()
      modifies this`calls, this`link, this`info, this`receiveCount, this`trace, receiveQueue, decoder, decoder.buffer
      ensures Valid() && info == old(info).(packetsDropped := info.packetsDropped)
      ensures var r := world.reading(old(calls));
              var frames := if r.Read? then Frames(Kiss, old(decoder.Model()), r.input) else [];
              && status == (if r.ReadFailed? then Io else Ok)
              && trace == old(trace) + Decodings(frames) + [Fetched(old(calls))]
              && link == old(link).(flowReady := old(link).flowReady || AnyReady(frames))
              && Inputs() == if r.Read? then Heard(old(Inputs()), r.input) else old(Inputs())
    {
      hide Valid, Listening, KissDecoder.Valid, KissDecoder.Model, Run, Feed, After, Frames, AnyReady;
      ListeningStarts();
      var asked := Ask();
      var r := world.reading(asked);
      NoneReady();
      ListeningStarts();
      if r.Read? {
        ghost var start := decoder.Model();
        NothingFed(Kiss, start);
        for i := 0 to |r.input|
          invariant Listening(r.input[..i]) && info == old(info).(packetsDropped := info.packetsDropped)
          invariant decoder.Valid() && decoder.Model() == After(Kiss, start, r.input[..i])
          invariant trace == old(trace) + Decodings(Frames(Kiss, start, r.input[..i]))
          invariant link == old(link).(flowReady := old(link).flowReady || AnyReady(Frames(Kiss, start, r.input[..i])))
          invariant Inputs() == old(Inputs()) && Replayed().asked <= asked < calls
        {
          AfterSnoc(Kiss, start, r.input[..i], r.input[i]);
          assert r.input[..i + 1] == r.input[..i] + [r.input[i]];
          DecodingsMore(old(trace), Frames(Kiss, start, r.input[..i]),
                        Optional(Feed(Kiss, decoder.Model(), r.input[i]).frame));
          TakeInput(r.input[i], r.input[..i]);
        }
        assert r.input[..|r.input|] == r.input;
      } else {
        assert trace == old(trace) + Decodings([]);
      }
      NoteRead(asked);
      status := if r.ReadFailed? then Io else Ok;
    }

    /** The callback accepts the oldest waiting packet. */
    method OldestAccepted()
      requires Valid() && receiveCount > 0 && world.answers(calls) == Ok
      modifies this`calls, this`info, this`receiveHead, this`receiveCount, this`trace
      ensures Valid() && Inputs() == old(Inputs()) && receiveCount == old(receiveCount) - 1
      ensures trace == old(trace) + [Offered(receiveQueue[old(receiveHead)], old(calls))]
      ensures info == old(info).(packetsReceived := old(info.packetsReceived) + 1)
    {
      hide Ring, Slot, Run, Legal, HeardSafe, KissDecoder.Valid, KissDecoder.Model, Line.Holds, Transmit.Valid,
           Configuration, Machine.Take, Machine.Allows;
      RingLength(receiveQueue[..], receiveHead, receiveCount);
      RingPop(receiveQueue[..], receiveHead, receiveCount);
      NextOffered(trace, options.flowControl, world, receiveQueue[receiveHead], calls);
      trace, calls := trace + [Offered(receiveQueue[receiveHead], calls)], calls + 1;
      info := info.(packetsReceived := info.packetsReceived + 1);
      receiveHead, receiveCount := Slot(receiveHead, 1), receiveCount - 1;
    }

    /** The callback refuses the oldest waiting packet. */
    method OldestRefused()
      requires Valid() && receiveCount > 0 && world.answers(calls) != Ok
      modifies this`calls, this`trace
      ensures Valid() && Inputs() == old(Inputs())
      ensures trace == old(trace) + [Offered(receiveQueue[receiveHead], old(calls))]
    {
      hide Ring, Slot, Run, Legal, HeardSafe, KissDecoder.Valid, KissDecoder.Model, Line.Holds, Transmit.Valid,
           Configuration, Machine.Take, Machine.Allows;
      RingLength(receiveQueue[..], receiveHead, receiveCount);
      RingPop(receiveQueue[..], receiveHead, receiveCount);
      NextOffered(trace, options.flowControl, world, receiveQueue[receiveHead], calls);
      trace, calls := trace + [Offered(receiveQueue[receiveHead], calls)], calls + 1;
    }

    /** Offers the oldest waiting packet; it leaves the ring if the callback accepts it. */
    method OfferOldest() returns (status: Status)
      requires Valid() && receiveCount > 0
      modifies this`calls, this`info, this`receiveHead, this`receiveCount, this`trace
      ensures Valid() && status == world.answers(old(calls)) && Inputs() == old(Inputs())
      ensures trace == old(trace) + [Offered(receiveQueue[old(receiveHead)], old(calls))]
      ensures receiveCount == old(receiveCount) - (if status == Ok then 1 else 0)
      ensures info == old(info).(packetsReceived := old(info.packetsReceived) + if status == Ok then 1 else 0)
    {
      hide Working, HeardSafe, KissDecoder.Model, Run;
      status := world.answers(calls);
      if status == Ok {
        OldestAccepted();
      } else {
        OldestRefused();
      }
    }

    /** Offers waiting packets to the callback, oldest first, until one is refused. */
    method DispatchReceived(limit: nat, already: nat) returns (status: Status, processed: nat)
      requires Valid() && already <= limit
      modifies this`calls, this`info, this`receiveHead, this`receiveCount, this`trace
      ensures Valid() && already <= processed <= limit && OffersOnly(old(trace), trace)
      ensures |trace| == |old(trace)| + (processed - already) + if status == Ok then 0 else 1
      ensures info == old(info).(packetsReceived := old(info.packetsReceived) + (processed - already))
      ensures status == Ok ==> receiveCount == 0 || processed == limit
      ensures status != Ok ==>
                |trace| > 0 && trace[|trace| - 1].Offered? && world.answers(trace[|trace| - 1].at) == status
      ensures Inputs() == old(Inputs())
    {
      hide Valid, Run;
      status, processed := Ok, already;
      while receiveCount != 0 && processed < limit
        invariant Valid() && already <= processed <= limit && OffersOnly(old(trace), trace)
        invariant Inputs() == old(Inputs()) && |trace| == |old(trace)| + (processed - already)
        invariant info == old(info).(packetsReceived := old(info.packetsReceived) + (processed - already))
        decreases limit - processed
      {
        status := OfferOldest();
        if status != Ok {
          return;
        }
        processed := processed + 1;
      }
      status := Ok;
    }

    // ---------------------------------------------------------------- polling

    /** Nothing that happened is forgotten; the ring only loses its front. */
    twostate predicate Extends()
      reads this
    {
      && past.accepted == old(past.accepted)
      && old(past.departed) <= past.departed && |past.departed| <= |old(past.departed)| + 1
      && old(trace) <= trace
      && Continued(old(Inputs()), Inputs())
    }

    /** The connection is the same one: what was written on it stays written. */
    twostate predicate Unbroken()
      reads this
    {
      && past.before == old(past.before)
      && old(past.line.wire) <= past.line.wire
      && |Inputs()| == |old(Inputs())|
    }

    /** Nothing is rewritten unless the connection went down. */
    twostate predicate Grows()
      reads this
    {
      Extends() && (Unbroken() || WentDownSince(old(trace), trace))
    }

    /** Reading, as a stage of the poll that began at `start`. */
    method ReadIn(ghost start: seq<Event>, ghost stage: nat) returns (status: Status)
      requires Valid() && Proceeds(start, 2, trace, stage) && Settled(stage) && stage <= 3
      modifies this`calls, this`link, this`info, this`receiveCount, this`trace, receiveQueue, decoder, decoder.buffer
      ensures Valid() && link == old(link).(flowReady := link.flowReady)
      ensures info == old(info).(packetsDropped := info.packetsDropped)
      ensures old(trace) <= trace && Proceeds(start, 2, trace, 5) && Settled(5)
      ensures Continued(old(Inputs()), Inputs()) && |Inputs()| == |old(Inputs())|
    {
      hide Valid, Run, Frames, Continued, Proceeds, AnyReady, KissDecoder.Valid, KissDecoder.Model, Heard, Decodings,
           Settled;
      ghost var r := world.reading(calls);
      ListeningStarts();
      InputsContinue(if r.Read? then r.input else []);
      ghost var frames := if r.Read? then Frames(Kiss, decoder.Model(), r.input) else [];
      ProceedsReading(start, 2, trace, stage, frames, calls);
      status := PollRead();
    }

    /** Offering, reading, and offering again. */
    method Intake(limit: nat) returns (status: Status, processed: nat, ghost stage: nat)
      requires Valid() && link.connected
      modifies this`calls, this`link, this`info, this`receiveHead, this`receiveCount, this`trace,
               receiveQueue, decoder, decoder.buffer
      ensures Valid() && Extends() && Unbroken() && link.connected && processed <= limit
      ensures info == old(info).(packetsReceived := old(info.packetsReceived) + processed,
                                 packetsDropped := info.packetsDropped)
      ensures Proceeds(old(trace), 2, trace, stage) && Settled(stage)
    {
      hide Valid, Run, Continued, Proceeds, OffersOnly, Settled;
      InputsContinue([]);
      ProceedsNot(trace, 2);
      status, processed := DispatchReceived(limit, 0);
      OffersExtend(old(trace), trace);
      stage := Offering(old(trace), 2, old(trace), 2, trace);
      if status == Ok && processed < limit {
        status := ReadIn(old(trace), stage);
        stage := 5;
      }
      if status == Ok {
        ghost var before := trace;
        status, processed := DispatchReceived(limit, processed);
        OffersExtend(before, trace);
        stage := Offering(old(trace), 2, before, stage, trace);
      }
    }

    /** Reading, dispatching and writing on an open device. */
    method Exchange(limit: nat) returns (status: Status, processed: nat, ghost stage: nat)
      requires Valid() && link.connected
      modifies this, queue, receiveQueue, output, decoder, decoder.buffer
      ensures Valid() && Extends() && Unbroken() && link.connected && processed <= limit
      ensures info.packetsReceived == old(info.packetsReceived) + processed
      ensures Proceeds(old(trace), 2, trace, stage) && stage <= 7
    {
      hide Valid, Run, Continued, Proceeds;
      status, processed, stage := Intake(limit);
      if status == Ok {
        ghost var before := trace;
        status := PollWrite();
        stage := Writing(old(trace), 2, before, stage, trace);
      }
    }

    /** A closed device is reopened once its reconnection delay is over. */
    method Reconnect(now: real) returns (status: Status)
      requires Valid()
      modifies this`calls, this`link
      ensures Valid() && calls >= old(calls)
      ensures if old(link).connected || now < old(link).reconnectAt then status == Ok && link == old(link)
              else && status == world.opening(old(calls)) && link.connected == (status == Ok)
                   && (status != Ok ==> link == old(link).(reconnectAt := now + options.reconnectDelay))
    {
      hide Valid;
      status := Ok;
      if !link.connected && now >= link.reconnectAt {
        status := OpenSerial();
        if status != Ok {
          Postpone(now + options.reconnectDelay);
        }
      }
    }

    /** The flow timeout; `asked` is the number of the clock reading of this poll. */
    method ReleaseFlow(asked: nat)
      requires Valid() && Replayed().asked <= asked < calls
      modifies this`link, this`trace
      ensures Valid() && trace == old(trace) + [Tick(asked)] && Inputs() == old(Inputs())
      ensures link == old(link).(flowReady := old(link).flowReady
                                              || (options.flowControl
                                                  && world.clock(asked) - old(link).flowLockedAt >= FLOW_TIMEOUT))
    {
      hide Ring, Slot, Run, Legal, HeardSafe, KissDecoder.Valid, KissDecoder.Model, Transmit.Valid, Line.Holds,
           Configuration;
      Next(trace, options.flowControl, world, Tick(asked));
      trace := trace + [Tick(asked)];
      if options.flowControl && !link.flowReady && world.clock(asked) - link.flowLockedAt >= FLOW_TIMEOUT {
        link := link.(flowReady := true);
      }
    }

    /** Brings the connection up as far as the clock allows. `proceed` says that the device
        is open and the rest of the poll may run. */
    method Advance() returns (status: Status, proceed: bool)
      requires Valid()
      modifies this`calls, this`pending, this`link, this`past, this`trace, output, decoder
      ensures Valid() && Extends() && past.departed == old(past.departed)
      ensures if proceed then Unbroken() && Inputs() == old(Inputs())
              else Unbroken() || WentDownSince(old(trace), trace)
      ensures proceed == link.connected && (proceed ==> status == Ok)
      ensures if proceed then Proceeds(old(trace), 0, trace, 2) && trace[|trace| - 1] == Tick(old(calls))
              else trace == old(trace) || trace == old(trace) + [WentDown]
      ensures !old(link).connected && world.clock(old(calls)) < old(link).reconnectAt ==>
                status == Ok && link == old(link) && past == old(past) && trace == old(trace)
    {
      hide Valid, Continued, CommandsOf, Configuration, Run, Proceeds;
      InputsContinue([]);
      ghost var stage := 0;
      ProceedsNot(trace, 0);
      var asked := Ask();
      var now := world.clock(asked);
      status := Reconnect(now);
      if !link.connected {
        return status, false;
      }
      if !link.configured && now >= link.configureAt {
        ProceedsBy(old(trace), 0, trace, 0, CameUp);
        status := ConfigureDevice();
        if status != Ok {
          DownNow(old(trace), trace);
          ContinuedReset(old(Inputs()), Inputs());
          MarkDown();
          return status, false;
        }
        stage := if trace == old(trace) then 0 else 1;
      }
      ProceedsBy(old(trace), 0, trace, stage, Tick(asked));
      ReleaseFlow(asked);
      return Ok, true;
    }

    /** One poll. Whatever the device and the callback answer, the invariant survives; any
        failure, of either, takes the connection down. What happens goes through its stages in order. */
    method Poll(maxPackets: nat) returns (status: Status, processed: nat)
      requires Valid()
      modifies this, queue, receiveQueue, output, decoder, decoder.buffer
      ensures Valid() && Grows()
      ensures processed <= if maxPackets == 0 then QUEUE_DEPTH else maxPackets
      ensures info.packetsReceived == old(info.packetsReceived) + processed
      ensures status != Ok ==> !link.connected
      ensures Stage(0, Since(old(trace), trace)).Some?
      ensures !old(link).connected && world.clock(old(calls)) < old(link).reconnectAt ==>
                status == Ok && link == old(link) && past == old(past) && trace == old(trace)
    {
      hide Valid, Run, Continued, Proceeds, Stage;
      processed := 0;
      var proceed;
      ProceedsNot(trace, 0);
      ProceedsBy(trace, 0, trace, 0, WentDown);
      status, proceed := Advance();
      ghost var stage := if trace == old(trace) then 0 else 8;
      if proceed {
        ghost var before := trace;
        status, processed, stage := Exchange(if maxPackets == 0 then QUEUE_DEPTH else maxPackets);
        ProceedsOn(old(trace), 0, before, 2, trace, stage);
        if status != Ok {
          DownNow(old(trace), trace);
          ProceedsBy(old(trace), 0, trace, stage, WentDown);
          ContinuedReset(old(Inputs()), Inputs());
          MarkDown();
          stage := 8;
        }
      }
      ProceedsStaged(old(trace), 0, trace, stage);
    }
  }
}
