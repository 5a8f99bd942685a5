/** LoRa split framing: a packet travels as one PHY frame or as two fragments that
    share a 4-bit sequence. The value model of the reassembler is `Reassembly`; the
    class that updates itself in place, and is proved against it, is in RadioReassembler. */
module RadioFraming {
  import opened Common

  const PHY_MTU := 255
  const PAYLOAD_MTU := 254
  const PACKET_MTU := 500
  const SEQUENCE_COUNT := 16

  // ---------------------------------------------------------------- encoding

  predicate Encodable(packet: seq<byte>, sequence: nat) {
    0 < |packet| <= PACKET_MTU && sequence < SEQUENCE_COUNT
  }

  predicate NeedsSplit(packet: seq<byte>) {
    |packet| > PAYLOAD_MTU
  }

  /** High nibble: the sequence. Bit 0: the split flag. Bits 1 to 3: reserved, zero. */
  function Header(sequence: nat, split: bool): byte
    requires sequence < SEQUENCE_COUNT
  {
    sequence * 16 + if split then 1 else 0
  }

  function EncodeFrames(packet: seq<byte>, sequence: nat): Option<seq<seq<byte>>> {
    if !Encodable(packet, sequence) then None
    else if !NeedsSplit(packet) then Some([[Header(sequence, false)] + packet])
    else Some([[Header(sequence, true)] + packet[..PAYLOAD_MTU],
               [Header(sequence, true)] + packet[PAYLOAD_MTU..]])
  }

  // ---------------------------------------------------------------- reassembler state

  datatype Pending = Pending(sequence: nat, since: u64, first: seq<byte>)

  datatype Counters = Counters(completed: nat, malformed: nat, oversized: nat, timedOut: nat,
                               duplicates: nat, outOfOrder: nat, collisions: nat, discarded: nat)

  datatype Reassembly = Reassembly(capacity: nat, timeout: u64, guard: u64,
                                   pending: Option<Pending>, blocked: seq<Option<u64>>,
                                   counters: Counters)
  {
    /** A pending sequence is never blocked: its block is taken out when it ends. */
    ghost predicate Valid() {
      && 0 < capacity <= PACKET_MTU
      && 0 < timeout && 0 < guard
      && |blocked| == SEQUENCE_COUNT
      && (pending.Some? ==>
            && pending.value.sequence < SEQUENCE_COUNT
            && |pending.value.first| == PAYLOAD_MTU <= capacity
            && blocked[pending.value.sequence].None?)
    }
  }

  function Initial(capacity: nat, timeout: u64, guard: u64): Reassembly {
    Reassembly(capacity, timeout, guard, None, seq(SEQUENCE_COUNT, i => None),
               Counters(0, 0, 0, 0, 0, 0, 0, 0))
  }

  /** Saturating addition: a deadline beyond the last clock value is that last value. */
  function DeadlineAfter(now: u64, interval: u64): u64 {
    if interval > UINT64_MAX - now then UINT64_MAX else now + interval
  }

  function Block(r: Reassembly, sequence: nat, now: u64): Reassembly
    requires sequence < |r.blocked|
  {
    r.(blocked := r.blocked[sequence := Some(DeadlineAfter(now, r.guard))])
  }

  /** Drops the pending fragment and starts the guard interval of its sequence. */
  function Finish(r: Reassembly, now: u64): Reassembly
    requires r.pending.Some? && r.pending.value.sequence < |r.blocked|
  {
    Block(r.(pending := None), r.pending.value.sequence, now)
  }

  predicate TimedOut(r: Reassembly, now: u64) {
    r.pending.Some? && now >= r.pending.value.since && now - r.pending.value.since >= r.timeout
  }

  function Expire(r: Reassembly, now: u64): Reassembly
    requires r.Valid()
  {
    if TimedOut(r, now)
    then Finish(r, now).(counters := r.counters.(timedOut := r.counters.timedOut + 1))
    else r
  }

  function Discard(r: Reassembly, now: u64): Reassembly
    requires r.Valid()
  {
    if r.pending.Some?
    then Finish(r, now).(counters := r.counters.(discarded := r.counters.discarded + 1))
    else r
  }

  predicate IsBlocked(r: Reassembly, sequence: nat, now: u64)
    requires sequence < |r.blocked|
  {
    r.blocked[sequence].Some? && now < r.blocked[sequence].value
  }

  /** Asking whether a sequence is blocked forgets a block whose deadline has passed. */
  function Unblock(r: Reassembly, sequence: nat, now: u64): Reassembly
    requires sequence < |r.blocked|
  {
    if IsBlocked(r, sequence, now) then r else r.(blocked := r.blocked[sequence := None])
  }

  // ---------------------------------------------------------------- one frame

  /** What one call did with its frame. */
  datatype Event =
    | Malformed
    | Whole(packet: seq<byte>)          // an unsplit packet was handed to the callback
    | WholeOverflow
    | Refused                           // first fragment of a blocked sequence
    | Duplicate
    | Collision                         // a different first fragment of the pending sequence
    | Accepted(sequence: nat)           // first fragment buffered
    | AcceptOverflow
    | Orphan                            // second fragment with no matching first
    | SecondOverflow
    | Joined(sequence: nat, packet: seq<byte>)   // a split packet was handed to the callback
    | Quiet                             // a bare expiry check

  datatype Outcome = Outcome(next: Reassembly, event: Event, status: Status)

  function FeedWhole(r: Reassembly, payload: seq<byte>, now: u64, callback: Status): Outcome
    requires r.Valid()
  {
    var d := Discard(r, now);
    if |payload| > r.capacity
    then Outcome(d.(counters := d.counters.(oversized := d.counters.oversized + 1)), WholeOverflow, Overflow)
    else if callback == Ok
    then Outcome(d.(counters := d.counters.(completed := d.counters.completed + 1)), Whole(payload), Ok)
    else Outcome(d, Whole(payload), callback)
  }

  function BufferFirst(r: Reassembly, payload: seq<byte>, sequence: nat, now: u64): Outcome
    requires r.Valid()
  {
    if PAYLOAD_MTU > r.capacity
    then Outcome(r.(counters := r.counters.(oversized := r.counters.oversized + 1)), AcceptOverflow, Overflow)
    else Outcome(r.(pending := Some(Pending(sequence, now, payload))), Accepted(sequence), Ok)
  }

  function FeedFirst(r: Reassembly, sequence: nat, payload: seq<byte>, now: u64): Outcome
    requires r.Valid() && sequence < SEQUENCE_COUNT
  {
    if IsBlocked(r, sequence, now)
    then Outcome(r.(counters := r.counters.(collisions := r.counters.collisions + 1)), Refused, InvalidState)
    else
      var u := Unblock(r, sequence, now);
      if u.pending.Some? && u.pending.value.sequence == sequence then
        if u.pending.value.first == payload
        then Outcome(u.(counters := u.counters.(duplicates := u.counters.duplicates + 1)), Duplicate, Ok)
        else Outcome(Finish(u, now).(counters := u.counters.(collisions := u.counters.collisions + 1)),
                     Collision, Protocol)
      else BufferFirst(Discard(u, now), payload, sequence, now)
  }

  function FeedSecond(r: Reassembly, sequence: nat, payload: seq<byte>, now: u64, callback: Status): Outcome
    requires r.Valid() && sequence < SEQUENCE_COUNT
  {
    if |payload| > PACKET_MTU - PAYLOAD_MTU
    then Outcome(r.(counters := r.counters.(malformed := r.counters.malformed + 1)), Malformed, Protocol)
    else if r.pending.None? || r.pending.value.sequence != sequence
    then Outcome(r.(counters := r.counters.(outOfOrder := r.counters.outOfOrder + 1)), Orphan, Protocol)
    else if |payload| > r.capacity - PAYLOAD_MTU
    then Outcome(Finish(r, now).(counters := r.counters.(oversized := r.counters.oversized + 1)),
                 SecondOverflow, Overflow)
    else
      var packet := r.pending.value.first + payload;
      var f := Finish(r, now);
      if callback == Ok
      then Outcome(f.(counters := f.counters.(completed := f.counters.completed + 1)), Joined(sequence, packet), Ok)
      else Outcome(f, Joined(sequence, packet), callback)
  }

  predicate WellFormed(frame: seq<byte>) {
    1 < |frame| <= PHY_MTU && (frame[0] / 2) % 8 == 0
  }

  /** `callback` is the status the packet callback answers, should this frame reach it. */
  function Feed(r: Reassembly, frame: seq<byte>, now: u64, callback: Status): Outcome
    requires r.Valid()
  {
    if !WellFormed(frame)
    then Outcome(r.(counters := r.counters.(malformed := r.counters.malformed + 1)), Malformed, Protocol)
    else
      ExpireValid(r, now);
      var e := Expire(r, now);
      var sequence, payload := frame[0] / 16, frame[1..];
      if frame[0] % 2 == 0 then FeedWhole(e, payload, now, callback)
      else if |frame| == PHY_MTU then FeedFirst(e, sequence, payload, now)
      else FeedSecond(e, sequence, payload, now, callback)
  }

  // ---------------------------------------------------------------- runs

  datatype Input = Frame(bytes: seq<byte>, now: u64, callback: Status) | Tick(now: u64)

  function Step(r: Reassembly, input: Input): Outcome
    requires r.Valid()
  {
    match input
    case Frame(bytes, now, callback) => Feed(r, bytes, now, callback)
    case Tick(now) => Outcome(Expire(r, now), Quiet, Ok)
  }

  /** The state after a whole run of calls. */
  ghost function After(r: Reassembly, run: seq<Input>): (result: Reassembly)
    requires r.Valid()
    ensures result.Valid()
  {
    if run == [] then r
    else
      var before := After(r, run[..|run| - 1]);
      StepValid(before, run[|run| - 1]);
      Step(before, run[|run| - 1]).next
  }

  /** The event of the k-th call of a run. */
  ghost function EventAt(r: Reassembly, run: seq<Input>, k: nat): Event
    requires r.Valid() && k < |run|
  {
    Step(After(r, run[..k]), run[k]).event
  }

  lemma ExpireValid(r: Reassembly, now: u64)
    requires r.Valid()
    ensures Expire(r, now).Valid()
  {
  }

  ghost predicate Keeps(r: Reassembly, r': Reassembly) {
    r'.Valid() && r'.capacity == r.capacity && r'.timeout == r.timeout && r'.guard == r.guard
  }

  lemma FeedWholeKeeps(r: Reassembly, payload: seq<byte>, now: u64, callback: Status)
    requires r.Valid()
    ensures Keeps(r, FeedWhole(r, payload, now, callback).next)
  {
  }

  lemma FeedFirstKeeps(r: Reassembly, sequence: nat, payload: seq<byte>, now: u64)
    requires r.Valid() && sequence < SEQUENCE_COUNT && |payload| == PAYLOAD_MTU
    ensures Keeps(r, FeedFirst(r, sequence, payload, now).next)
  {
  }

  lemma FeedSecondKeeps(r: Reassembly, sequence: nat, payload: seq<byte>, now: u64, callback: Status)
    requires r.Valid() && sequence < SEQUENCE_COUNT
    ensures Keeps(r, FeedSecond(r, sequence, payload, now, callback).next)
  {
  }

  /** Every call keeps the invariant and the configuration. */
  lemma StepValid(r: Reassembly, input: Input)
    requires r.Valid()
    ensures Keeps(r, Step(r, input).next)
  {
    hide FeedWhole, FeedFirst, FeedSecond;
    if input.Frame? && WellFormed(input.bytes) {
      var e, sequence, payload := Expire(r, input.now), input.bytes[0] / 16, input.bytes[1..];
      FeedWholeKeeps(e, payload, input.now, input.callback);
      if |input.bytes| == PHY_MTU { FeedFirstKeeps(e, sequence, payload, input.now); }
      FeedSecondKeeps(e, sequence, payload, input.now, input.callback);
    }
  }
}
