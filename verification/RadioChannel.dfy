/** The radio link end to end: a sender, a channel that loses, duplicates, reorders and
    delays frames, and the reassembler. */
module RadioChannel {
  import opened Common
  import opened RadioFraming
  import opened RadioProperties

  /** One transmission; an unsplit packet has a single frame, sent at `firstAt`. */
  datatype Sent = Sent(packet: seq<byte>, sequence: nat, firstAt: nat, secondAt: nat)

  /** What reaches the receiver: frame number `half` of transmission `origin`, or a bare
      expiry check. Which transmissions appear, how often and in what order is the
      channel's choice. */
  datatype Reception = Arrives(origin: nat, half: nat, now: u64, callback: Status) | Poll(now: u64)

  /** Within the delay, the second fragment of `b` can arrive while the first one of `a` is held. */
  ghost predicate Mixable(a: Sent, b: Sent, delay: nat, timeout: nat) {
    && NeedsSplit(a.packet) && NeedsSplit(b.packet) && a.sequence == b.sequence
    && a.firstAt <= b.secondAt + delay
    && b.secondAt < a.firstAt + delay + timeout
  }

  /** A split sequence is not reused so soon that two packets could be mixed up. */
  ghost predicate GoodSender(sent: seq<Sent>, delay: nat, timeout: nat) {
    && (forall i :: 0 <= i < |sent| ==>
          Encodable(sent[i].packet, sent[i].sequence) && sent[i].firstAt <= sent[i].secondAt)
    && (forall i, j :: 0 <= i < |sent| && 0 <= j < |sent| && i != j ==> !Mixable(sent[i], sent[j], delay, timeout))
  }

  ghost predicate Arrival(sent: seq<Sent>, x: Reception, delay: nat) {
    x.Arrives? ==>
      && x.origin < |sent|
      && Encodable(sent[x.origin].packet, sent[x.origin].sequence)
      && x.half < (if NeedsSplit(sent[x.origin].packet) then 2 else 1)
      && var at := if x.half == 0 then sent[x.origin].firstAt else sent[x.origin].secondAt;
         at <= x.now <= at + delay
  }

  ghost predicate Channel(sent: seq<Sent>, heard: seq<Reception>, delay: nat) {
    && (forall k :: 0 <= k < |heard| ==> Arrival(sent, heard[k], delay) && heard[k].now < UINT64_MAX)
    && (forall a, b :: 0 <= a <= b < |heard| ==> heard[a].now <= heard[b].now)
  }

  /** The call that a reception causes. */
  ghost function InputOf(sent: seq<Sent>, x: Reception, delay: nat): Input
    requires Arrival(sent, x, delay)
  {
    match x
    case Arrives(origin, half, now, callback) =>
      Frame(EncodeFrames(sent[origin].packet, sent[origin].sequence).value[half], now, callback)
    case Poll(now) => Tick(now)
  }

  ghost function InputsOf(sent: seq<Sent>, heard: seq<Reception>, delay: nat): (run: seq<Input>)
    requires Channel(sent, heard, delay)
    ensures |run| == |heard| && Clocked(run)
  {
    seq(|heard|, k requires 0 <= k < |heard| => InputOf(sent, heard[k], delay))
  }

  // ---------------------------------------------------------------- soundness

  /** Transmission o is where the pending fragment came from. */
  ghost predicate ComesFrom(p: Pending, sent: seq<Sent>, delay: nat, o: nat) {
    && o < |sent|
    && NeedsSplit(sent[o].packet)
    && sent[o].sequence == p.sequence
    && sent[o].packet[..PAYLOAD_MTU] == p.first
    && sent[o].firstAt <= p.since <= sent[o].firstAt + delay
  }

  ghost predicate PendingSent(r: Reassembly, sent: seq<Sent>, delay: nat) {
    r.pending.Some? ==> exists o: nat :: ComesFrom(r.pending.value, sent, delay, o)
  }

  /** The frame of a split packet, as the receiver sees it. */
  lemma FrameShape(s: Sent, half: nat)
    requires Encodable(s.packet, s.sequence) && NeedsSplit(s.packet) && half < 2
    ensures var f := EncodeFrames(s.packet, s.sequence).value[half];
            && WellFormed(f) && f[0] % 2 == 1 && f[0] / 16 == s.sequence
            && (half == 0 <==> |f| == PHY_MTU)
            && f[1..] == if half == 0 then s.packet[..PAYLOAD_MTU] else s.packet[PAYLOAD_MTU..]
  {
  }

  lemma StepKeepsPendingSent(r: Reassembly, sent: seq<Sent>, x: Reception, delay: nat)
    requires r.Valid() && Arrival(sent, x, delay) && PendingSent(r, sent, delay)
    ensures PendingSent(Step(r, InputOf(sent, x, delay)).next, sent, delay)
  {
    var next := Step(r, InputOf(sent, x, delay)).next;
    if next.pending.Some? && next.pending != r.pending {
      assert NeedsSplit(sent[x.origin].packet);
      FrameShape(sent[x.origin], x.half);
      assert ComesFrom(next.pending.value, sent, delay, x.origin);
    }
  }

  /** A completed packet is the packet its second fragment was cut from. */
  lemma JoinIsSent(r: Reassembly, sent: seq<Sent>, x: Reception, delay: nat)
    requires r.Valid() && Arrival(sent, x, delay) && PendingSent(r, sent, delay)
    requires GoodSender(sent, delay, r.timeout)
    requires r.pending.Some? ==> r.pending.value.since <= x.now
    requires Step(r, InputOf(sent, x, delay)).event.Joined?
    ensures x.Arrives? && x.half == 1
    ensures Step(r, InputOf(sent, x, delay)).event
         == Joined(sent[x.origin].sequence, sent[x.origin].packet)
  {
    assert NeedsSplit(sent[x.origin].packet);
    FrameShape(sent[x.origin], x.half);
    var o: nat :| ComesFrom(r.pending.value, sent, delay, o);
    assert x.now < r.pending.value.since + r.timeout;
    assert o != x.origin ==> Mixable(sent[o], sent[x.origin], delay, r.timeout);
    assert sent[o].packet == sent[o].packet[..PAYLOAD_MTU] + sent[o].packet[PAYLOAD_MTU..];
  }

  lemma NothingPendingIsSent(r: Reassembly, sent: seq<Sent>, delay: nat)
    requires r.pending.None?
    ensures PendingSent(r, sent, delay)
  {
  }

  lemma PendingIsRecent(r: Reassembly, input: Input)
    requires r.Valid() && (r.pending.Some? ==> r.pending.value.since <= input.now)
    ensures var n := Step(r, input).next; n.pending.Some? ==> n.pending.value.since <= input.now
  {
  }

  ghost predicate Tracked(r: Reassembly, sent: seq<Sent>, heard: seq<Reception>, delay: nat, k: nat)
    requires r.Valid() && Channel(sent, heard, delay) && k <= |heard|
  {
    var now := After(r, InputsOf(sent, heard, delay)[..k]);
    && PendingSent(now, sent, delay)
    && (now.pending.Some? ==> k > 0 && now.pending.value.since <= heard[k - 1].now)
  }

  lemma {:induction false} AlwaysTracked(r: Reassembly, sent: seq<Sent>, heard: seq<Reception>, delay: nat, k: nat)
    requires r.Valid() && r.pending.None? && Channel(sent, heard, delay) && k <= |heard|
    ensures Tracked(r, sent, heard, delay, k)
  {
    hide Step, PendingSent;
    var run := InputsOf(sent, heard, delay);
    NothingPendingIsSent(r, sent, delay);
    if k > 0 {
      AlwaysTracked(r, sent, heard, delay, k - 1);
      AfterPrefix(r, run, k - 1);
      StepKeepsPendingSent(After(r, run[..k - 1]), sent, heard[k - 1], delay);
      PendingIsRecent(After(r, run[..k - 1]), run[k - 1]);
    }
  }

  /** Every split packet handed to the callback is, byte for byte, the packet whose
      second fragment completed it. */
  lemma SplitPacketsAreSent(r: Reassembly, sent: seq<Sent>, heard: seq<Reception>, delay: nat, k: nat)
    requires r.Valid() && r.pending.None? && Channel(sent, heard, delay) && k < |heard|
    requires GoodSender(sent, delay, r.timeout)
    requires EventAt(r, InputsOf(sent, heard, delay), k).Joined?
    ensures heard[k].Arrives?
    ensures EventAt(r, InputsOf(sent, heard, delay), k)
         == Joined(sent[heard[k].origin].sequence, sent[heard[k].origin].packet)
    ensures heard[k].half == 1
  {
    AlwaysTracked(r, sent, heard, delay, k);
    var run := InputsOf(sent, heard, delay);
    hide Step, PendingSent;
    GuardConstant(r, run[..k]);
    JoinIsSent(After(r, run[..k]), sent, heard[k], delay);
  }

  /** With a guard longer than the channel delay, no transmission is handed over twice. */
  lemma HandedOverAtMostOnce(r: Reassembly, sent: seq<Sent>, heard: seq<Reception>, delay: nat, i: nat, j: nat)
    requires r.Valid() && r.pending.None? && Channel(sent, heard, delay) && i < j < |heard|
    requires GoodSender(sent, delay, r.timeout)
    requires r.guard > delay
    requires EventAt(r, InputsOf(sent, heard, delay), i).Joined?
    requires EventAt(r, InputsOf(sent, heard, delay), j).Joined?
    ensures heard[i].Arrives? && heard[j].Arrives? && heard[i].origin != heard[j].origin
  {
    SplitPacketsAreSent(r, sent, heard, delay, i);
    SplitPacketsAreSent(r, sent, heard, delay, j);
    if heard[i].origin == heard[j].origin {
      CompletionsSpaced(r, InputsOf(sent, heard, delay), i, j, sent[heard[i].origin].sequence);
      assert false;
    }
  }

  // ---------------------------------------------------------------- delivery

  /** A packet whose frames both arrive, in order and in time, on a sequence that is not
      blocked, is handed over; so is every unsplit packet that fits. */
  lemma RoundTrip(r: Reassembly, s: Sent, t: u64, t': u64, callback: Status)
    requires r.Valid() && Encodable(s.packet, s.sequence) && |s.packet| <= r.capacity
    requires t <= t' < t + r.timeout
    requires NeedsSplit(s.packet) ==> !IsBlocked(Expire(r, t), s.sequence, t)
    requires NeedsSplit(s.packet) && r.pending.Some? && !TimedOut(r, t) ==>
               r.pending.value.sequence != s.sequence
    ensures var f := EncodeFrames(s.packet, s.sequence).value;
            if NeedsSplit(s.packet)
            then var o := Step(r, Frame(f[0], t, callback));
                 && o.event == Accepted(s.sequence) && o.next.Valid()
                 && Step(o.next, Frame(f[1], t', callback)).event == Joined(s.sequence, s.packet)
            else Step(r, Frame(f[0], t, callback)).event == Whole(s.packet)
  {
    if NeedsSplit(s.packet) {
      FrameShape(s, 0);
      FrameShape(s, 1);
      assert s.packet == s.packet[..PAYLOAD_MTU] + s.packet[PAYLOAD_MTU..];
    } else {
      assert EncodeFrames(s.packet, s.sequence).value[0][1..] == s.packet;
    }
  }

  /** After a fresh reassembler has joined both fragments it holds nothing, and blocks
      only their sequence, until the guard is over. */
  lemma FirstPairBlocks(r: Reassembly, s: Sent, t: u64)
    requires r.Valid() && r.pending.None? && (forall q :: 0 <= q < SEQUENCE_COUNT ==> r.blocked[q].None?)
    requires Encodable(s.packet, s.sequence) && NeedsSplit(s.packet) && |s.packet| <= r.capacity
    requires t + r.guard < UINT64_MAX
    ensures var f := EncodeFrames(s.packet, s.sequence).value;
            var o := Step(r, Frame(f[0], t, Ok)).next;
            && Keeps(r, o)
            && var n := Step(o, Frame(f[1], t, Ok)).next;
               Keeps(r, n) && n.pending.None? && n.blocked[s.sequence] == Some(t + r.guard)
  {
    FrameShape(s, 0);
    FrameShape(s, 1);
  }

  /** The guard bound is exact: for every guard no longer than the delay, some channel
      makes the reassembler hand one transmission over twice. */
  lemma ShortGuardRepeats(s: Sent, capacity: nat, timeout: u64, guard: u64, delay: nat)
    returns (heard: seq<Reception>)
    requires Encodable(s.packet, s.sequence) && NeedsSplit(s.packet)
    requires s.firstAt == s.secondAt && s.firstAt + guard < UINT64_MAX
    requires |s.packet| <= capacity <= PACKET_MTU && 0 < timeout && 0 < guard <= delay
    ensures Initial(capacity, timeout, guard).Valid()
    ensures GoodSender([s], delay, timeout) && Channel([s], heard, delay) && |heard| == 4
    ensures EventAt(Initial(capacity, timeout, guard), InputsOf([s], heard, delay), 1)
         == EventAt(Initial(capacity, timeout, guard), InputsOf([s], heard, delay), 3)
         == Joined(s.sequence, s.packet)
  {
    hide Step;
    var t: u64 := s.firstAt;
    heard := [Arrives(0, 0, t, Ok), Arrives(0, 1, t, Ok), Arrives(0, 0, t + guard, Ok), Arrives(0, 1, t + guard, Ok)];
    assert Channel([s], heard, delay);
    var r := Initial(capacity, timeout, guard);
    var run := InputsOf([s], heard, delay);
    NothingRun(r);
    assert run[..0] == [];
    AfterPrefix(r, run, 0);
    AfterPrefix(r, run, 1);
    AfterPrefix(r, run, 2);
    RoundTrip(r, s, t, t, Ok);
    FirstPairBlocks(r, s, t);
    RoundTrip(After(r, run[..2]), s, t + guard, t + guard, Ok);
  }

  /** The spacing is exact: whenever a split sequence is reused closer than a good sender does, some
      channel makes the reassembler hand over the first half of one packet with the second of another. */
  lemma CloseReuseMixes(sent: seq<Sent>, a: nat, b: nat, capacity: nat, timeout: u64, guard: u64, delay: nat)
    returns (heard: seq<Reception>)
    requires a < |sent| && b < |sent| && Mixable(sent[a], sent[b], delay, timeout)
    requires Encodable(sent[a].packet, sent[a].sequence) && Encodable(sent[b].packet, sent[b].sequence)
    requires sent[a].firstAt < UINT64_MAX && sent[b].secondAt < UINT64_MAX
    requires |sent[b].packet| <= capacity <= PACKET_MTU && 0 < timeout && 0 < guard
    ensures Initial(capacity, timeout, guard).Valid()
    ensures Channel(sent, heard, delay) && |heard| == 2
    ensures EventAt(Initial(capacity, timeout, guard), InputsOf(sent, heard, delay), 1)
         == Joined(sent[b].sequence, sent[a].packet[..PAYLOAD_MTU] + sent[b].packet[PAYLOAD_MTU..])
    ensures sent[a].packet[..PAYLOAD_MTU] != sent[b].packet[..PAYLOAD_MTU] ==>
              sent[a].packet[..PAYLOAD_MTU] + sent[b].packet[PAYLOAD_MTU..] != sent[b].packet
  {
    hide Step;
    assert (sent[a].packet[..PAYLOAD_MTU] + sent[b].packet[PAYLOAD_MTU..])[..PAYLOAD_MTU] == sent[a].packet[..PAYLOAD_MTU];
    var latest := sent[a].firstAt + delay;
    var t' := if sent[b].secondAt < sent[a].firstAt then sent[a].firstAt else sent[b].secondAt;
    var t := if t' < latest then t' else latest;
    heard := [Arrives(a, 0, t, Ok), Arrives(b, 1, t', Ok)];
    assert Channel(sent, heard, delay);
    var r := Initial(capacity, timeout, guard);
    var run := InputsOf(sent, heard, delay);
    AfterPrefix(r, run, 0);
    HalvesJoin(r, sent[a], sent[b], t, t');
  }

  lemma HalvesJoin(r: Reassembly, a: Sent, b: Sent, t: u64, t': u64)
    requires r.Valid() && r.pending.None? && (forall q :: 0 <= q < SEQUENCE_COUNT ==> r.blocked[q].None?)
    requires Encodable(a.packet, a.sequence) && Encodable(b.packet, b.sequence)
    requires NeedsSplit(a.packet) && NeedsSplit(b.packet) && a.sequence == b.sequence
    requires |b.packet| <= r.capacity && t <= t' < t + r.timeout
    ensures var o := Step(r, Frame(EncodeFrames(a.packet, a.sequence).value[0], t, Ok)).next;
            && o.Valid()
            && Step(o, Frame(EncodeFrames(b.packet, b.sequence).value[1], t', Ok)).event
               == Joined(b.sequence, a.packet[..PAYLOAD_MTU] + b.packet[PAYLOAD_MTU..])
  {
    FrameShape(a, 0);
    FrameShape(b, 1);
  }

  lemma NothingRun(r: Reassembly)
    requires r.Valid()
    ensures After(r, []) == r
  {
  }
}
