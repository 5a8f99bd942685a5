/** The reassembler as the firmware holds it: one packet buffer, two arrays indexed by
    sequence and a row of counters, all updated in place. */
module RadioReassembler {
  import opened Common
  import opened RadioFraming

  class Reassembler {
    const buffer: array<byte>
    const capacity: nat
    const timeout: u64
    const guard: u64
    const blockedFlags: array<bool>
    const blockedUntil: array<u64>
    var length: nat
    var pending: bool
    var pendingSince: u64
    var sequence: nat
    var counters: Counters

    ghost function Blocks(): seq<Option<u64>>
      reads blockedFlags, blockedUntil
      requires blockedFlags.Length == blockedUntil.Length == SEQUENCE_COUNT
    {
      seq(SEQUENCE_COUNT, i reads blockedFlags, blockedUntil requires 0 <= i < SEQUENCE_COUNT
                            => if blockedFlags[i] then Some(blockedUntil[i]) else None)
    }

    /** The value this object stands for. */
    ghost function Model(): Reassembly
      reads this, buffer, blockedFlags, blockedUntil
      requires length <= buffer.Length
      requires blockedFlags.Length == blockedUntil.Length == SEQUENCE_COUNT
    {
      Reassembly(capacity, timeout, guard,
                 if pending then Some(Pending(sequence, pendingSince, buffer[..length])) else None,
                 Blocks(),
                 counters)
    }

    ghost predicate Shape()
      reads this
    {
      && blockedFlags.Length == blockedUntil.Length == SEQUENCE_COUNT
      && length <= buffer.Length
      && capacity <= buffer.Length
      && (!pending ==> length == 0)
    }

    ghost predicate Valid()
      reads this, buffer, blockedFlags, blockedUntil
    {
      Shape() && Model().Valid()
    }

    /** `storage` is the caller's; `Init` has checked the arguments. */
    constructor (storage: array<byte>, storageCapacity: nat, fragmentTimeout: u64, reuseGuard: u64)
      requires 0 < storageCapacity <= PACKET_MTU && storageCapacity <= storage.Length
      requires 0 < fragmentTimeout && 0 < reuseGuard
      ensures Valid() && fresh(blockedFlags) && fresh(blockedUntil) && buffer == storage
      ensures Model() == Initial(storageCapacity, fragmentTimeout, reuseGuard)
    {
      buffer, capacity, timeout, guard := storage, storageCapacity, fragmentTimeout, reuseGuard;
      blockedFlags := new bool[SEQUENCE_COUNT](_ => false);
      blockedUntil := new u64[SEQUENCE_COUNT](_ => 0);
      length, pending, pendingSince, sequence := 0, false, 0, 0;
      counters := Counters(0, 0, 0, 0, 0, 0, 0, 0);
    }

    /** Checked initialisation: refused arguments leave no reassembler. */
    static method Init(storage: array<byte>, storageCapacity: nat, fragmentTimeout: u64, reuseGuard: u64)
      returns (status: Status, created: Reassembler?)
      requires storageCapacity <= storage.Length
      ensures status == Ok <==> 0 < storageCapacity <= PACKET_MTU && 0 < fragmentTimeout && 0 < reuseGuard
      ensures status != Ok ==> status == InvalidArgument && created == null
      ensures status == Ok ==> created != null && fresh(created) && created.Valid()
      ensures status == Ok ==> created.Model() == Initial(storageCapacity, fragmentTimeout, reuseGuard)
    {
      if storageCapacity == 0 || storageCapacity > PACKET_MTU || fragmentTimeout == 0 || reuseGuard == 0 {
        return InvalidArgument, null;
      }
      created := new Reassembler(storage, storageCapacity, fragmentTimeout, reuseGuard);
      status := Ok;
    }

    /** Forgets the pending fragment and every block; the counters stay. */
    method Reset()
      requires Valid()
      modifies this, blockedFlags, blockedUntil
      ensures Valid()
      ensures Model() == Initial(capacity, timeout, guard).(counters := old(counters))
    {
      length, pendingSince, sequence, pending := 0, 0, 0, false;
      forall i | 0 <= i < SEQUENCE_COUNT {
        blockedFlags[i] := false;
      }
      forall i | 0 <= i < SEQUENCE_COUNT {
        blockedUntil[i] := 0;
      }
    }

    /** Forgets the pending fragment and blocks its sequence. */
    method FinishPending(now: u64)
      requires Valid() && pending
      modifies this, blockedFlags, blockedUntil
      ensures Valid() && Model() == Finish(old(Model()), now) && !pending
      ensures buffer[..] == old(buffer[..])
    {
      var ended := sequence;
      length, pendingSince, sequence, pending := 0, 0, 0, false;
      blockedFlags[ended] := true;
      blockedUntil[ended] := DeadlineAfter(now, guard);
      assert Model().blocked == Finish(old(Model()), now).blocked;
    }

    method CheckExpiry(now: u64) returns (expired: bool)
      requires Valid()
      modifies this, blockedFlags, blockedUntil
      ensures Valid() && Model() == Expire(old(Model()), now)
      ensures expired <==> TimedOut(old(Model()), now)
    {
      if !pending || now < pendingSince || now - pendingSince < timeout {
        return false;
      }
      FinishPending(now);
      counters := counters.(timedOut := counters.timedOut + 1);
      return true;
    }

    method DiscardPending(now: u64)
      requires Valid()
      modifies this, blockedFlags, blockedUntil
      ensures Valid() && Model() == Discard(old(Model()), now) && !pending
    {
      if pending {
        FinishPending(now);
        counters := counters.(discarded := counters.discarded + 1);
      }
    }

    method SequenceBlocked(s: nat, now: u64) returns (blocked: bool)
      requires Valid() && s < SEQUENCE_COUNT
      modifies this, blockedFlags, blockedUntil
      ensures Valid() && blocked == IsBlocked(old(Model()), s, now)
      ensures Model() == Unblock(old(Model()), s, now)
    {
      if !blockedFlags[s] {
        assert Model().blocked == Model().blocked[s := None];
        return false;
      }
      if now >= blockedUntil[s] {
        blockedFlags[s] := false;
        blockedUntil[s] := 0;
        assert Model().blocked == Unblock(old(Model()), s, now).blocked;
        return false;
      }
      return true;
    }

    method StoreFirst(payload: seq<byte>, s: nat, now: u64) returns (status: Status, ghost event: Event)
      requires Valid() && !pending && s < SEQUENCE_COUNT && |payload| == PAYLOAD_MTU
      requires !blockedFlags[s]
      modifies this, buffer
      ensures Valid()
      ensures Outcome(Model(), event, status) == BufferFirst(old(Model()), payload, s, now)
    {
      if PAYLOAD_MTU > capacity {
        counters := counters.(oversized := counters.oversized + 1);
        return Overflow, AcceptOverflow;
      }
      Write(buffer, 0, payload);
      length, pendingSince, sequence, pending := PAYLOAD_MTU, now, s, true;
      assert buffer[..length] == payload;
      return Ok, Accepted(s);
    }

    /** One PHY frame. `handed` is what the callback was given, if it was called; it
        answers `callback`. */
    method FeedFrame(frame: seq<byte>, now: u64, callback: Status)
      returns (status: Status, handed: Option<seq<byte>>, ghost event: Event)
      requires Valid()
      modifies this, buffer, blockedFlags, blockedUntil
      ensures Valid()
      ensures Outcome(Model(), event, status) == Step(old(Model()), Frame(frame, now, callback))
      ensures handed == if event.Whole? || event.Joined? then Some(event.packet) else None
    {
      hide FeedWhole, FeedFirst, FeedSecond, Expire;
      handed := None;
      if |frame| <= 1 || |frame| > PHY_MTU || (frame[0] / 2) % 8 != 0 {
        counters := counters.(malformed := counters.malformed + 1);
        return Protocol, None, Malformed;
      }
      var _ := CheckExpiry(now);
      var s, payload := frame[0] / 16, frame[1..];
      if frame[0] % 2 == 0 {
        status, handed, event := FeedUnsplit(payload, now, callback);
      } else if |frame| == PHY_MTU {
        status, event := FeedFirstFragment(payload, s, now);
      } else {
        status, handed, event := FeedSecondFragment(payload, s, now, callback);
      }
    }

    method FeedUnsplit(payload: seq<byte>, now: u64, callback: Status)
      returns (status: Status, handed: Option<seq<byte>>, ghost event: Event)
      requires Valid()
      modifies this, blockedFlags, blockedUntil
      ensures Valid()
      ensures Outcome(Model(), event, status) == FeedWhole(old(Model()), payload, now, callback)
      ensures handed == if event.Whole? then Some(event.packet) else None
      ensures !event.Joined?
    {
      DiscardPending(now);
      if |payload| > capacity {
        counters := counters.(oversized := counters.oversized + 1);
        return Overflow, None, WholeOverflow;
      }
      if callback == Ok {
        counters := counters.(completed := counters.completed + 1);
      }
      return callback, Some(payload), Whole(payload);
    }

    method FeedFirstFragment(payload: seq<byte>, s: nat, now: u64) returns (status: Status, ghost event: Event)
      requires Valid() && s < SEQUENCE_COUNT && |payload| == PAYLOAD_MTU
      modifies this, buffer, blockedFlags, blockedUntil
      ensures Valid()
      ensures Outcome(Model(), event, status) == FeedFirst(old(Model()), s, payload, now)
      ensures !event.Whole? && !event.Joined?
    {
      var blocked := SequenceBlocked(s, now);
      if blocked {
        counters := counters.(collisions := counters.collisions + 1);
        return InvalidState, Refused;
      }
      if pending && sequence == s {
        if buffer[..length] == payload {
          counters := counters.(duplicates := counters.duplicates + 1);
          return Ok, Duplicate;
        }
        FinishPending(now);
        counters := counters.(collisions := counters.collisions + 1);
        return Protocol, Collision;
      }
      DiscardPending(now);
      assert Model().blocked[s].None?;
      status, event := StoreFirst(payload, s, now);
    }

    method FeedSecondFragment(payload: seq<byte>, s: nat, now: u64, callback: Status)
      returns (status: Status, handed: Option<seq<byte>>, ghost event: Event)
      requires Valid() && s < SEQUENCE_COUNT
      modifies this, buffer, blockedFlags, blockedUntil
      ensures Valid()
      ensures Outcome(Model(), event, status) == FeedSecond(old(Model()), s, payload, now, callback)
      ensures !event.Whole?
      ensures handed == if event.Joined? then Some(event.packet) else None
    {
      if |payload| > PACKET_MTU - PAYLOAD_MTU {
        counters := counters.(malformed := counters.malformed + 1);
        return Protocol, None, Malformed;
      }
      if !pending || sequence != s {
        counters := counters.(outOfOrder := counters.outOfOrder + 1);
        return Protocol, None, Orphan;
      }
      if |payload| > capacity - length {
        FinishPending(now);
        counters := counters.(oversized := counters.oversized + 1);
        return Overflow, None, SecondOverflow;
      }
      var packet := CompletePending(payload, now);
      if callback == Ok {
        counters := counters.(completed := counters.completed + 1);
      }
      return callback, Some(packet), Joined(s, packet);
    }

    /** Appends the second fragment and hands the whole packet on. */
    method CompletePending(payload: seq<byte>, now: u64) returns (packet: seq<byte>)
      requires Valid() && pending && |payload| <= capacity - length
      modifies this, buffer, blockedFlags, blockedUntil
      ensures Valid() && Model() == Finish(old(Model()), now)
      ensures packet == old(Model()).pending.value.first + payload
    {
      Write(buffer, length, payload);
      var total := length + |payload|;
      assert buffer[..length] == old(buffer[..length]);
      assert buffer[..total] == old(buffer[..length]) + payload;
      FinishPending(now);
      packet := buffer[..total];
    }
  }

  /** memcpy into a caller's buffer: the written range, and nothing else. */
  method Write(target: array<byte>, at: nat, data: seq<byte>)
    requires at + |data| <= target.Length
    modifies target
    ensures target[..] == old(target[..at]) + data + old(target[at + |data|..])
  {
    forall i | 0 <= i < |data| {
      target[at + i] := data[i];
    }
  }
}
