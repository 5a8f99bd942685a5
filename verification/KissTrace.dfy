/** The KISS endpoint's protocol as a machine over one log of what happens to it: packets accepted,
    frames put on the line and completed, frames decoded, packets offered, w readings. */
module KissTrace {
  import opened Common
  import opened Framing
  import opened KissLine

  datatype WriteResult = Wrote(bytes: nat) | WouldBlock | WriteFailed

  /** `NoData` also stands for a read of nothing on a device that has not hung up. */
  datatype ReadResult = Read(input: seq<byte>) | NoData | ReadFailed

  datatype World = World(clock: nat -> real, opening: nat -> Status, writing: nat -> WriteResult,
                         reading: nat -> ReadResult, answers: nat -> Status)

  datatype Event =
    | Accepted(packet: Packet)                  // a packet entered the transmit ring
    | Refused                                   // the transmit ring was full
    | CameUp                                    // configuration finished
    | WentDown
    | Started(place: nat)                       // the frame of the packet accepted at this place was put on the line
    | Ended(lock: Option<nat>)                  // its packet left the ring; flow control read the clock
    | Decoded(frame: Frame)
    | Fetched(at: nat)                          // everything one read gave has been decoded
    | Offered(packet: Packet, at: nat)          // one call of the packet callback
    | Tick(at: nat)                             // a poll compared the clock

  /** Any port, command 0, at least one octet. */
  predicate IsData(f: Frame) {
    f.header.Some? && f.header.value % 16 == 0 && f.data != []
  }

  predicate IsReady(f: Frame) {
    f.header.Some? && f.header.value % 16 == 15
  }

  /** Answers of the outside world go by the number of the question; those from `asked` on have not been
      used. `locked` is the clock reading at the end of a data frame that nothing has released yet. `inputs`
      are the octets read on each connection. */
  datatype Machine = Machine(accepted: seq<Packet>, departed: nat, before: nat, claimed: bool, up: bool,
                             locked: Option<nat>, asked: nat, inputs: seq<seq<byte>>, decoded: seq<Frame>,
                             waiting: seq<Packet>, received: nat, dropped: nat)
  {
    /** What may happen next. */
    predicate Allows(control: bool, e: Event) {
      match e
      case Accepted(p) => 0 < |p| <= MTU && |accepted| < departed + QUEUE_DEPTH
      case Refused => |accepted| == departed + QUEUE_DEPTH
      case CameUp => !up
      case WentDown => true
      case Started(n) => !claimed && n == departed < |accepted| && (control ==> locked.None?)
      case Ended(lock) => claimed && (lock.Some? <==> control) && (lock.Some? ==> asked <= lock.value)
      case Decoded(_) => true
      case Fetched(at) => asked <= at
      case Offered(p, at) => waiting != [] && p == waiting[0] && asked <= at
      case Tick(at) => asked <= at
    }

    /** What it does. */
    function Take(w: World, e: Event): Machine {
      match e
      case Accepted(p) => this.(accepted := accepted + [p])
      case Refused => this.(dropped := dropped + 1)
      case CameUp => this.(up := true, locked := None)
      case WentDown => 
        this.(before := departed, claimed := false, up := false, locked := None, inputs := inputs + [[]])
      case Started(_) => this.(claimed := true)
      case Ended(lock) =>
        this.(departed := departed + 1, claimed := false, locked := lock,
              asked := if lock.Some? then lock.value + 1 else asked)
      case Decoded(f) =>
        var m := this.(decoded := decoded + [f], locked := if IsReady(f) then None else locked);
        if !IsData(f) then m
        else if |waiting| < QUEUE_DEPTH then m.(waiting := waiting + [f.data])
        else m.(dropped := dropped + 1)
      case Fetched(at) =>
        this.(asked := at + 1, inputs := if w.reading(at).Read? then Heard(inputs, w.reading(at).input) else inputs)
      case Offered(_, at) =>
        var m := this.(asked := at + 1);
        if w.answers(at) == Ok && waiting != [] then m.(waiting := waiting[1..], received := received + 1) else m
      case Tick(at) =>
        this.(asked := at + 1,
              locked := if locked.Some? && w.clock(at) - w.clock(locked.value) >= FLOW_TIMEOUT then None else locked)
    }
  }

  const START := Machine([], 0, 0, false, false, None, 0, [[]], [], [], 0, 0)

  function Run(log: seq<Event>, w: World): Machine {
    if log == [] then START else Run(log[..|log| - 1], w).Take(w, log[|log| - 1])
  }

  /** Every event was allowed where it stands. */
  ghost predicate Legal(log: seq<Event>, control: bool, w: World) {
    log != [] ==>
      && Legal(log[..|log| - 1], control, w)
      && Run(log[..|log| - 1], w).Allows(control, log[|log| - 1])
  }

  lemma Next(log: seq<Event>, control: bool, w: World, e: Event)
    ensures Run(log + [e], w) == Run(log, w).Take(w, e)
    ensures Legal(log + [e], control, w) <==> Legal(log, control, w) && Run(log, w).Allows(control, e)
  {
    hide Machine.Take, Machine.Allows;
    assert (log + [e])[..|log|] == log;
  }

  lemma NextEnded(log: seq<Event>, control: bool, w: World, lock: Option<nat>)
    requires Legal(log, control, w) && Run(log, w).claimed
    requires (lock.Some? <==> control) && (lock.Some? ==> Run(log, w).asked <= lock.value)
    ensures var m := Run(log, w);
            && Legal(log + [Ended(lock)], control, w)
            && Run(log + [Ended(lock)], w) == m.(departed := m.departed + 1, claimed := false, locked := lock,
                                                     asked := if lock.Some? then lock.value + 1 else m.asked)
  {
    Next(log, control, w, Ended(lock));
  }

  lemma NextDecoded(log: seq<Event>, control: bool, w: World, f: Frame)
    requires Legal(log, control, w)
    ensures var m := Run(log, w); var kept := IsData(f) && |m.waiting| < QUEUE_DEPTH;
            && Legal(log + [Decoded(f)], control, w)
            && Run(log + [Decoded(f)], w)
               == m.(decoded := m.decoded + [f], locked := if IsReady(f) then None else m.locked,
                     waiting := if kept then m.waiting + [f.data] else m.waiting,
                     dropped := if IsData(f) && !kept then m.dropped + 1 else m.dropped)
  {
    Next(log, control, w, Decoded(f));
  }

  lemma NextOffered(log: seq<Event>, control: bool, w: World, p: Packet, at: nat)
    requires Legal(log, control, w) && Run(log, w).asked <= at
    requires Run(log, w).waiting != [] && p == Run(log, w).waiting[0]
    ensures var m := Run(log, w).(asked := at + 1);
            && Legal(log + [Offered(p, at)], control, w)
            && Run(log + [Offered(p, at)], w)
               == if w.answers(at) == Ok then m.(waiting := m.waiting[1..], received := m.received + 1) else m
  {
    Next(log, control, w, Offered(p, at));
  }

  lemma AtStart(control: bool, w: World)
    ensures Run([], w) == START && Legal([], control, w)
  {
  }

  lemma {:induction false} LegalPrefix(log: seq<Event>, control: bool, w: World, j: nat)
    requires Legal(log, control, w) && j <= |log|
    ensures Legal(log[..j], control, w)
  {
    hide Machine.Allows, Run;
    if j < |log| {
      LegalPrefix(log[..|log| - 1], control, w, j);
      assert log[..|log| - 1][..j] == log[..j];
    } else {
      assert log[..j] == log;
    }
  }

  /** The event at a place was allowed there, and made the machine what it is behind it. */
  lemma At(log: seq<Event>, control: bool, w: World, j: nat)
    requires Legal(log, control, w) && j < |log|
    ensures Run(log[..j], w).Allows(control, log[j])
    ensures Run(log[..j + 1], w) == Run(log[..j], w).Take(w, log[j])
  {
    hide Machine.Allows, Machine.Take, Run, Legal;
    LegalPrefix(log, control, w, j + 1);
    assert log[..j + 1] == log[..j] + [log[j]];
    Next(log[..j], control, w, log[j]);
  }

  /** Nothing is locked while a frame is on the line. */
  lemma {:induction false} ClaimedUnlocked(log: seq<Event>, control: bool, w: World)
    requires Legal(log, control, w)
    ensures Run(log, w).claimed && control ==> Run(log, w).locked.None?
  {
    if log != [] {
      ClaimedUnlocked(log[..|log| - 1], control, w);
    }
  }

  // ---------------------------------------------------------------- frames begun again

  ghost predicate DownBetween(log: seq<Event>, i: nat, j: nat)
    requires i < j <= |log|
  {
    exists k :: i < k < j && log[k].WentDown?
  }

  lemma DownStays(log: seq<Event>, i: nat, j: nat)
    requires i < j < |log|
    ensures DownBetween(log, i, j + 1) <==> DownBetween(log, i, j) || log[j].WentDown?
  {
    if log[j].WentDown? {
      assert i < j < j + 1;
    }
  }

  /** A packet whose frame was begun is on the line, gone, or was given up when the connection went down. */
  lemma {:induction false} BegunStays(log: seq<Event>, control: bool, w: World, i: nat, j: nat)
    requires Legal(log, control, w) && i < j <= |log| && log[i].Started?
    ensures var m := Run(log[..j], w);
            m.departed > log[i].place || (m.departed == log[i].place && (m.claimed || DownBetween(log, i, j)))
  {
    hide Run, Legal, DownBetween;
    At(log, control, w, j - 1);
    if i + 1 < j {
      BegunStays(log, control, w, i, j - 1);
      DownStays(log, i, j - 1);
    }
  }

  /** Frames are begun in acceptance order; one is begun again only once the connection went down. */
  lemma BegunAgain(log: seq<Event>, control: bool, w: World, i: nat, j: nat)
    requires Legal(log, control, w) && i < j < |log| && log[i].Started? && log[j].Started?
    ensures log[i].place <= log[j].place
    ensures log[i].place == log[j].place ==> DownBetween(log, i, j)
  {
    hide Run, Legal, DownBetween;
    BegunStays(log, control, w, i, j);
    At(log, control, w, j);
  }

  /** The packets begun since the connection last went down. */
  function Begun(log: seq<Event>): seq<nat> {
    if log == [] then []
    else var e := log[|log| - 1];
         if e.WentDown? then [] else Begun(log[..|log| - 1]) + if e.Started? then [e.place] else []
  }

  function Span(from: nat, to: nat): seq<nat>
    requires from <= to
  {
    seq(to - from, i requires 0 <= i < to - from => from + i)
  }

  /** What was begun on the present connection: the packets that left on it, and the one on the line. */
  ghost predicate BegunBy(m: Machine, begun: seq<nat>) {
    m.before <= m.departed && begun == Span(m.before, m.departed) + if m.claimed then [m.departed] else []
  }

  lemma BegunStep(m: Machine, begun: seq<nat>, control: bool, w: World, e: Event)
    requires BegunBy(m, begun) && m.Allows(control, e)
    ensures BegunBy(m.Take(w, e), if e.WentDown? then [] else begun + if e.Started? then [e.place] else [])
  {
    assert Span(m.before, m.departed + 1) == Span(m.before, m.departed) + [m.departed];
    assert begun + [] == begun;
  }

  lemma {:induction false} BegunExact(log: seq<Event>, control: bool, w: World)
    requires Legal(log, control, w)
    ensures BegunBy(Run(log, w), Begun(log))
  {
    hide Machine.Take, Machine.Allows;
    if log != [] {
      var rest, e := log[..|log| - 1], log[|log| - 1];
      BegunExact(rest, control, w);
      BegunStep(Run(rest, w), Begun(rest), control, w, e);
    }
  }

  // ---------------------------------------------------------------- flow control

  /** No start, end or loss in between. */
  ghost predicate Quiet(log: seq<Event>, i: nat, j: nat)
    requires i < j <= |log|
  {
    forall k :: i < k < j ==> !log[k].Started? && !log[k].Ended? && !log[k].WentDown?
  }

  /** A READY, or the flow timeout after the end at `k`. */
  ghost predicate Releases(log: seq<Event>, w: World, k: nat, m: nat)
    requires k < |log| && m < |log| && log[k].Ended? && log[k].lock.Some?
  {
    || (log[m].Decoded? && IsReady(log[m].frame))
    || (log[m].Tick? && w.clock(log[m].at) - w.clock(log[k].lock.value) >= FLOW_TIMEOUT)
  }

  ghost predicate ReleasedBetween(log: seq<Event>, w: World, k: nat, j: nat)
    requires k < j <= |log| && log[k].Ended? && log[k].lock.Some?
  {
    exists m :: k < m < j && Releases(log, w, k, m)
  }

  ghost predicate UpBetween(log: seq<Event>, i: nat, j: nat)
    requires i < j <= |log|
  {
    exists k :: i < k < j && log[k].CameUp?
  }

  /** After an end the next frame is locked out until something releases it. */
  lemma {:induction false} LockedUntilReleased(log: seq<Event>, w: World, k: nat, j: nat)
    requires Legal(log, true, w) && k < j <= |log| && log[k].Ended? && log[k].lock.Some? && Quiet(log, k, j)
    ensures || Run(log[..j], w).locked == log[k].lock
            || ReleasedBetween(log, w, k, j) || UpBetween(log, k, j)
  {
    hide Run, Legal;
    At(log, true, w, j - 1);
    if k + 1 < j {
      LockedUntilReleased(log, w, k, j - 1);
      if !ReleasedBetween(log, w, k, j) && !UpBetween(log, k, j) {
        assert !Releases(log, w, k, j - 1) && !log[j - 1].CameUp?;
      }
    }
  }

  /** While the connection lasts, a frame that was begun is on the line until it ends. */
  lemma {:induction false} ClaimedUntilEnd(log: seq<Event>, control: bool, w: World, i: nat, j: nat)
    requires Legal(log, control, w) && i < j <= |log| && log[i].Started? && !DownBetween(log, i, j)
    ensures Run(log[..j], w).claimed || exists k :: i < k < j && log[k].Ended?
  {
    hide Run, Legal, DownBetween;
    At(log, control, w, j - 1);
    if i + 1 < j {
      DownStays(log, i, j - 1);
      ClaimedUntilEnd(log, control, w, i, j - 1);
      assert log[j - 1].Ended? ==> exists k :: i < k < j && log[k].Ended?;
    }
  }

  lemma {:induction false} LastEnd(log: seq<Event>, i: nat, j: nat) returns (k: nat)
    requires i < j <= |log| && exists k :: i < k < j && log[k].Ended?
    ensures i < k < j && log[k].Ended? && forall m :: k < m < j ==> !log[m].Ended?
  {
    if log[j - 1].Ended? {
      k := j - 1;
    } else {
      k := LastEnd(log, i, j - 1);
    }
  }

  lemma {:induction false} UpWhileConnected(log: seq<Event>, control: bool, w: World, i: nat, j: nat)
    requires Legal(log, control, w) && i <= j <= |log| && Run(log[..i], w).up
    requires forall k :: i <= k < j ==> !log[k].WentDown?
    ensures Run(log[..j], w).up && forall k :: i <= k < j ==> !log[k].CameUp?
  {
    hide Run, Legal;
    if i < j {
      UpWhileConnected(log, control, w, i, j - 1);
      At(log, control, w, j - 1);
    }
  }

  /** Flow control: between two data frames on one connection the first one ends, and behind its end there
      is a READY or a clock reading five seconds later. Only the first time round may the end of the
      configuration stand for these. */
  lemma FlowControlled(log: seq<Event>, w: World, i: nat, j: nat) returns (k: nat)
    requires Legal(log, true, w) && i < j < |log| && log[i].Started? && log[j].Started?
    requires forall k :: i < k < j ==> !log[k].Started? && !log[k].WentDown?
    ensures i < k < j && log[k].Ended? && log[k].lock.Some?
    ensures ReleasedBetween(log, w, k, j) || (!Run(log[..i], w).up && UpBetween(log, k, j))
  {
    hide Run, Legal;
    ClaimedUntilEnd(log, true, w, i, j);
    At(log, true, w, j);
    k := LastEnd(log, i, j);
    At(log, true, w, k);
    LockedUntilReleased(log, w, k, j);
    if Run(log[..i], w).up {
      UpWhileConnected(log, true, w, i, j);
    }
  }

  /** The endpoint comes up at most once on a connection. */
  lemma UpOnce(log: seq<Event>, control: bool, w: World, i: nat, j: nat)
    requires Legal(log, control, w) && i < j < |log| && log[i].CameUp? && log[j].CameUp?
    ensures DownBetween(log, i, j)
  {
    hide Run, Legal;
    if !DownBetween(log, i, j) {
      At(log, control, w, i);
      UpWhileConnected(log, control, w, i + 1, j + 1);
      assert false;
    }
  }

  lemma QuestionUsed(m: Machine, control: bool, w: World, e: Event)
    requires m.Allows(control, e)
    ensures m.asked <= m.Take(w, e).asked
    ensures Question(e).Some? ==> m.asked <= Question(e).value < m.Take(w, e).asked
  {
  }

  lemma {:induction false} QuestionsUsed(log: seq<Event>, control: bool, w: World, i: nat, j: nat)
    requires Legal(log, control, w) && i < j <= |log| && Question(log[i]).Some?
    ensures Question(log[i]).value < Run(log[..j], w).asked
  {
    hide Run, Legal, Question, Machine.Allows, Machine.Take;
    At(log, control, w, j - 1);
    QuestionUsed(Run(log[..j - 1], w), control, w, log[j - 1]);
    if i + 1 < j {
      QuestionsUsed(log, control, w, i, j - 1);
    }
  }

  /** Answers are used in the order they were asked for, each once. */
  lemma QuestionsInOrder(log: seq<Event>, control: bool, w: World, i: nat, j: nat)
    requires Legal(log, control, w) && i < j < |log| && Question(log[i]).Some? && Question(log[j]).Some?
    ensures Question(log[i]).value < Question(log[j]).value
  {
    hide Run, Legal, Question, Machine.Allows, Machine.Take;
    QuestionsUsed(log, control, w, i, j);
    At(log, control, w, j);
    QuestionUsed(Run(log[..j], w), control, w, log[j]);
  }

  /** The question whose answer an event used. */
  function Question(e: Event): Option<nat> {
    match e
    case Ended(lock) => lock
    case Fetched(at) => Some(at)
    case Offered(_, at) => Some(at)
    case Tick(at) => Some(at)
    case _ => None
  }

  // ---------------------------------------------------------------- reception

  /** The payloads of the non-empty data frames among decoded frames. */
  function Payloads(frames: seq<Frame>): seq<Packet> {
    if frames == [] then []
    else Payloads(frames[..|frames| - 1])
         + if IsData(frames[|frames| - 1]) then [frames[|frames| - 1].data] else []
  }

  lemma PayloadSnoc(frames: seq<Frame>, f: Frame)
    ensures Payloads(frames + [f]) == Payloads(frames) + if IsData(f) then [f.data] else []
  {
    assert (frames + [f])[..|frames|] == frames;
  }

  /** A data frame that arrives while fewer than eight packets wait. */
  predicate Keeps(m: Machine, e: Event) {
    e.Decoded? && IsData(e.frame) && |m.waiting| < QUEUE_DEPTH
  }

  predicate Loses(m: Machine, e: Event) {
    e.Decoded? && IsData(e.frame) && |m.waiting| >= QUEUE_DEPTH
  }

  /** The data of all frames that were kept. */
  function Kept(log: seq<Event>, w: World): seq<Packet> {
    if log == [] then []
    else Kept(log[..|log| - 1], w)
         + if Keeps(Run(log[..|log| - 1], w), log[|log| - 1]) then [log[|log| - 1].frame.data] else []
  }

  function Lost(log: seq<Event>, w: World): nat {
    if log == [] then 0
    else Lost(log[..|log| - 1], w) + if Loses(Run(log[..|log| - 1], w), log[|log| - 1]) then 1 else 0
  }

  function Refusals(log: seq<Event>): nat {
    if log == [] then 0 else Refusals(log[..|log| - 1]) + if log[|log| - 1].Refused? then 1 else 0
  }

  lemma KeptSnoc(log: seq<Event>, w: World, e: Event)
    ensures Kept(log + [e], w) == Kept(log, w) + if Keeps(Run(log, w), e) then [e.frame.data] else []
  {
    hide Run, Keeps;
    assert (log + [e])[..|log|] == log;
  }

  /** The ring holds, of the packets kept, those not accepted by the callback; what was not kept is counted. */
  ghost predicate RingOf(m: Machine, kept: seq<Packet>, lost: nat, refusals: nat) {
    && m.received <= |kept| && m.waiting == kept[m.received..] && |m.waiting| <= QUEUE_DEPTH
    && |Payloads(m.decoded)| == |kept| + lost
    && m.dropped == lost + refusals
  }

  lemma RingStep(m: Machine, kept: seq<Packet>, lost: nat, refusals: nat, control: bool, w: World, e: Event)
    requires RingOf(m, kept, lost, refusals) && m.Allows(control, e)
    ensures RingOf(m.Take(w, e), kept + (if Keeps(m, e) then [e.frame.data] else []),
                   lost + (if Loses(m, e) then 1 else 0), refusals + if e.Refused? then 1 else 0)
  {
    hide Payloads;
    assert kept + [] == kept;
    if e.Decoded? {
      PayloadSnoc(m.decoded, e.frame);
      assert (kept + [e.frame.data])[m.received..] == kept[m.received..] + [e.frame.data];
    }
  }

  lemma {:induction false} RingIsKept(log: seq<Event>, control: bool, w: World)
    requires Legal(log, control, w)
    ensures RingOf(Run(log, w), Kept(log, w), Lost(log, w), Refusals(log))
  {
    hide Machine.Take, Machine.Allows, RingOf, Keeps, Loses;
    if log != [] {
      var rest, e := log[..|log| - 1], log[|log| - 1];
      RingIsKept(rest, control, w);
      RingStep(Run(rest, w), Kept(rest, w), Lost(rest, w), Refusals(rest), control, w, e);
    } else {
      RingEmpty();
    }
  }

  lemma RingEmpty()
    ensures RingOf(START, [], 0, 0)
  {
  }

  lemma {:induction false} KeptPrefix(log: seq<Event>, w: World, j: nat)
    requires j <= |log|
    ensures Kept(log[..j], w) <= Kept(log, w)
  {
    if j < |log| {
      KeptPrefix(log[..|log| - 1], w, j);
      hide Run, Keeps;
      assert log[..|log| - 1][..j] == log[..j];
    } else {
      assert log[..j] == log;
    }
  }

  /** Each call of the callback offers the oldest kept packet that no earlier call has accepted. */
  lemma OfferedInOrder(log: seq<Event>, control: bool, w: World, j: nat)
    requires Legal(log, control, w) && j < |log| && log[j].Offered?
    ensures var n := Run(log[..j], w).received;
            n < |Kept(log, w)| && log[j].packet == Kept(log, w)[n]
  {
    hide Run, Legal, Kept, Lost, Refusals, Payloads;
    At(log, control, w, j);
    LegalPrefix(log, control, w, j);
    RingIsKept(log[..j], control, w);
    KeptPrefix(log, w, j);
  }

  /** A data frame is lost if and only if eight packets wait where it arrives. */
  lemma ArrivalKept(log: seq<Event>, control: bool, w: World, j: nat)
    requires Legal(log, control, w) && j < |log| && log[j].Decoded? && IsData(log[j].frame)
    ensures var before := Kept(log[..j], w); var waiting := Run(log[..j], w).waiting;
            && (if |waiting| == QUEUE_DEPTH then Kept(log[..j + 1], w) == before
                else Kept(log[..j + 1], w) == before + [log[j].frame.data])
            && Kept(log[..j + 1], w) <= Kept(log, w)
  {
    hide Run, Legal, Kept, Lost, Refusals, Payloads;
    LegalPrefix(log, control, w, j);
    RingIsKept(log[..j], control, w);
    assert log[..j + 1] == log[..j] + [log[j]];
    KeptSnoc(log[..j], w, log[j]);
    KeptPrefix(log, w, j + 1);
  }

  // ---------------------------------------------------------------- the endpoint's switches

  /** The endpoint's flow switch and lock time, against the machine's lock. */
  ghost predicate FlowAgrees(m: Machine, w: World, control: bool, ready: bool, lockedAt: real, connected: bool) {
    && (!control || ready || !connected ==> m.locked.None?)
    && (m.locked.Some? ==> w.clock(m.locked.value) == lockedAt)
  }

  // ---------------------------------------------------------------- one poll

  /** The decoding of frames, in order. */
  function Decodings(frames: seq<Frame>): seq<Event> {
    seq(|frames|, i requires 0 <= i < |frames| => Decoded(frames[i]))
  }

  /** No read is in progress, and nothing is being written. */
  predicate Settled(stage: nat) {
    stage == 2 || stage == 3 || stage == 5
  }

  /** The stage a poll is in behind an event: 1 up, 2 timeout checked, 3 offering, 4 decoding, 5 read and
      offering again, 6 writing, 7 written, 8 closed. */
  function Onward(stage: nat, e: Event): Option<nat> {
    match e
    case CameUp => if stage == 0 then Some(1) else None
    case Tick(_) => if stage <= 1 then Some(2) else None
    case Offered(_, _) => if 2 <= stage <= 3 then Some(3) else if stage == 5 then Some(5) else None
    case Decoded(_) => if 2 <= stage <= 4 then Some(4) else None
    case Fetched(_) => if 2 <= stage <= 4 then Some(5) else None
    case Started(_) => if Settled(stage) then Some(6) else None
    case Ended(_) => if (Settled(stage) || stage == 6) then Some(7) else None
    case WentDown => if stage <= 7 then Some(8) else None
    case _ => None
  }

  function Stage(from: nat, events: seq<Event>): Option<nat> {
    if events == [] then Some(from)
    else match Stage(from, events[..|events| - 1])
         case None => None
         case Some(stage) => Onward(stage, events[|events| - 1])
  }

  /** The events behind a prefix of a log. */
  function Since(before: seq<Event>, log: seq<Event>): seq<Event> {
    if |before| <= |log| then log[|before|..] else []
  }

  /** The log went on, through stages of a poll. */
  ghost predicate Proceeds(before: seq<Event>, from: nat, log: seq<Event>, to: nat) {
    before <= log && Stage(from, Since(before, log)) == Some(to)
  }

  lemma ProceedsNot(log: seq<Event>, from: nat)
    ensures Proceeds(log, from, log, from) && (from == 2 ==> Settled(from))
  {
  }

  lemma ProceedsBy(before: seq<Event>, from: nat, log: seq<Event>, to: nat, e: Event)
    requires Proceeds(before, from, log, to) && Onward(to, e).Some?
    ensures Proceeds(before, from, log + [e], Onward(to, e).value)
  {
    assert Since(before, log + [e]) == Since(before, log) + [e];
    assert (Since(before, log) + [e])[..|Since(before, log)|] == Since(before, log);
  }

  /** The stage behind a read and its decodings. */
  lemma ProceedsReading(before: seq<Event>, from: nat, log: seq<Event>, to: nat, frames: seq<Frame>, at: nat)
    requires Proceeds(before, from, log, to) && Settled(to) && to <= 3
    ensures Proceeds(before, from, log + Decodings(frames) + [Fetched(at)], 5) && Settled(5)
  {
    hide Proceeds;
    ProceedsDecoding(before, from, log, to, frames);
    ProceedsBy(before, from, log + Decodings(frames), if frames == [] then to else 4, Fetched(at));
  }

  lemma {:induction false} ProceedsDecoding(before: seq<Event>, from: nat, log: seq<Event>, to: nat, frames: seq<Frame>)
    requires Proceeds(before, from, log, to) && 2 <= to <= 4
    ensures Proceeds(before, from, log + Decodings(frames), if frames == [] then to else 4)
  {
    hide Proceeds;
    if frames == [] {
      assert log + Decodings(frames) == log;
    } else {
      var rest, f := frames[..|frames| - 1], frames[|frames| - 1];
      ProceedsDecoding(before, from, log, to, rest);
      assert log + Decodings(frames) == log + Decodings(rest) + [Decoded(f)];
      ProceedsBy(before, from, log + Decodings(rest), if rest == [] then to else 4, Decoded(f));
    }
  }

  ghost predicate OffersOnly(before: seq<Event>, log: seq<Event>) {
    before <= log && forall k :: |before| <= k < |log| ==> log[k].Offered?
  }

  lemma OffersExtend(before: seq<Event>, log: seq<Event>)
    requires OffersOnly(before, log)
    ensures before <= log
  {
  }

  lemma {:induction false} ProceedsOffering(before: seq<Event>, from: nat, log: seq<Event>, to: nat, log': seq<Event>)
    requires Proceeds(before, from, log, to) && Settled(to) && OffersOnly(log, log')
    ensures Proceeds(before, from, log', if log' == log then to else if to <= 3 then 3 else 5)
    decreases |log'|
  {
    hide Proceeds;
    if log' != log {
      var rest, e := log'[..|log'| - 1], log'[|log'| - 1];
      ProceedsOffering(before, from, log, to, rest);
      assert log' == rest + [e];
      ProceedsBy(before, from, rest, if rest == log then to else if to <= 3 then 3 else 5, e);
    }
  }

  lemma {:induction false} ProceedsOn(a: seq<Event>, from: nat, b: seq<Event>, mid: nat, c: seq<Event>, to: nat)
    requires Proceeds(a, from, b, mid) && Proceeds(b, mid, c, to)
    ensures Proceeds(a, from, c, to)
    decreases |c|
  {
    if c != b {
      var rest, e := c[..|c| - 1], c[|c| - 1];
      assert c == rest + [e] && b <= rest;
      assert Since(b, c)[..|Since(b, c)| - 1] == Since(b, rest);
      var stage := Stage(mid, Since(b, rest)).value;
      ProceedsOn(a, from, b, mid, rest, stage);
      ProceedsBy(a, from, rest, stage, e);
    }
  }

  /** The stage behind offers. */
  lemma Offering(before: seq<Event>, from: nat, log: seq<Event>, stage: nat, log': seq<Event>) returns (stage': nat)
    requires Proceeds(before, from, log, stage) && Settled(stage) && OffersOnly(log, log')
    ensures Proceeds(before, from, log', stage') && Settled(stage') && (stage <= 3 ==> stage' <= 3)
  {
    ProceedsOffering(before, from, log, stage, log');
    stage' := if log' == log then stage else if stage <= 3 then 3 else 5;
  }

  /** The stage behind writing. */
  lemma Writing(before: seq<Event>, from: nat, log: seq<Event>, stage: nat, log': seq<Event>) returns (stage': nat)
    requires Proceeds(before, from, log, stage) && Settled(stage)
    requires exists started: bool, ended: bool, n: nat, lock: Option<nat> ::
               log' == Writings(log, started, n, ended, lock)
    ensures Proceeds(before, from, log', stage') && stage' <= 7
  {
    hide Proceeds;
    var started: bool, ended: bool, n: nat, lock: Option<nat> :| log' == Writings(log, started, n, ended, lock);
    var mid := if started then log + [Started(n)] else log;
    stage' := stage;
    if started {
      ProceedsBy(before, from, log, stage', Started(n));
      stage' := 6;
    }
    if ended {
      ProceedsBy(before, from, mid, stage', Ended(lock));
      stage' := 7;
    }
    assert log' == if ended then mid + [Ended(lock)] else mid;
  }

  /** A log with the start, the end or both of a frame behind it. */
  function Writings(log: seq<Event>, started: bool, n: nat, ended: bool, lock: Option<nat>): seq<Event> {
    log + (if started then [Started(n)] else []) + (if ended then [Ended(lock)] else [])
  }

  lemma ProceedsStaged(before: seq<Event>, from: nat, log: seq<Event>, to: nat)
    requires Proceeds(before, from, log, to)
    ensures Stage(from, Since(before, log)).Some?
  {
  }

  /** What happened since includes the loss of the connection. */
  ghost predicate WentDownSince(before: seq<Event>, log: seq<Event>) {
    WentDown in Since(before, log)
  }

  lemma DownNow(before: seq<Event>, log: seq<Event>)
    requires before <= log
    ensures before <= log + [WentDown] && WentDownSince(before, log + [WentDown])
  {
    assert Since(before, log + [WentDown])[|log| - |before|] == WentDown;
  }
}
