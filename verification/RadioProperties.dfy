/** What every run of the reassembler keeps: live blocks, the reuse guard, and the
    conservation of accepted first fragments. */
module RadioProperties {
  import opened Common
  import opened RadioFraming

  // ---------------------------------------------------------------- the reuse guard

  /** No call, whatever it is fed, changes or forgets a block that is still live. */
  lemma LiveBlockKept(r: Reassembly, input: Input, sequence: nat)
    requires r.Valid() && sequence < SEQUENCE_COUNT
    requires IsBlocked(r, sequence, input.now)
    ensures Step(r, input).next.blocked[sequence] == r.blocked[sequence]
    ensures !Step(r, input).event.Accepted? || Step(r, input).event.sequence != sequence
    ensures !Step(r, input).event.Joined? || Step(r, input).event.sequence != sequence
  {
  }

  /** The caller's clock never runs back and never reaches its last value. */
  ghost predicate Clocked(run: seq<Input>) {
    && (forall k :: 0 <= k < |run| ==> run[k].now < UINT64_MAX)
    && (forall a, b :: 0 <= a <= b < |run| ==> run[a].now <= run[b].now)
  }

  ghost predicate JoinedAt(r: Reassembly, run: seq<Input>, k: nat, sequence: nat)
    requires r.Valid() && k < |run|
  {
    EventAt(r, run, k).Joined? && EventAt(r, run, k).sequence == sequence
  }

  /** Until the guard of a completion at i is over, its sequence stays blocked. */
  lemma {:induction false} BlockedThroughGuard(r: Reassembly, run: seq<Input>, i: nat, k: nat, sequence: nat)
    requires r.Valid() && Clocked(run) && i < k <= |run| && sequence < SEQUENCE_COUNT
    requires JoinedAt(r, run, i, sequence)
    requires forall m :: i < m < k ==> run[m].now < run[i].now + r.guard
    ensures After(r, run[..k]).blocked[sequence] == Some(DeadlineAfter(run[i].now, r.guard))
    ensures After(r, run[..k]).guard == r.guard
  {
    hide Step, DeadlineAfter;
    GuardConstant(r, run[..k]);
    GuardConstant(r, run[..i]);
    AfterPrefix(r, run, k - 1);
    if k == i + 1 {
      JoinBlocks(After(r, run[..i]), run[i]);
    } else {
      BlockedThroughGuard(r, run, i, k - 1, sequence);
      DeadlineBeyond(run[i].now, r.guard, run[k - 1].now);
      LiveBlockKept(After(r, run[..k - 1]), run[k - 1], sequence);
    }
  }

  lemma JoinBlocks(r: Reassembly, input: Input)
    requires r.Valid() && Step(r, input).event.Joined?
    ensures Step(r, input).event.sequence < SEQUENCE_COUNT == |Step(r, input).next.blocked|
    ensures Step(r, input).next.blocked[Step(r, input).event.sequence] == Some(DeadlineAfter(input.now, r.guard))
  {
  }

  lemma DeadlineBeyond(now: u64, interval: u64, later: u64)
    requires later < UINT64_MAX && later < now + interval
    ensures later < DeadlineAfter(now, interval)
  {
  }

  lemma AfterPrefix(r: Reassembly, run: seq<Input>, k: nat)
    requires r.Valid() && k < |run|
    ensures After(r, run[..k + 1]) == Step(After(r, run[..k]), run[k]).next
  {
    assert run[..k + 1][..k] == run[..k];
  }

  lemma {:induction false} GuardConstant(r: Reassembly, run: seq<Input>)
    requires r.Valid()
    ensures After(r, run).guard == r.guard
    ensures After(r, run).timeout == r.timeout
    ensures After(r, run).capacity == r.capacity
  {
    if run != [] {
      GuardConstant(r, run[..|run| - 1]);
      StepValid(After(r, run[..|run| - 1]), run[|run| - 1]);
    }
  }

  /** Two completions that use one sequence are at least the guard interval apart. */
  lemma CompletionsSpaced(r: Reassembly, run: seq<Input>, i: nat, j: nat, sequence: nat)
    requires r.Valid() && Clocked(run) && i < j < |run| && sequence < SEQUENCE_COUNT
    requires JoinedAt(r, run, i, sequence) && JoinedAt(r, run, j, sequence)
    ensures run[j].now >= run[i].now + r.guard
  {
    hide Step, DeadlineAfter;
    if run[j].now < run[i].now + r.guard {
      BlockedThroughGuard(r, run, i, j, sequence);
      DeadlineBeyond(run[i].now, r.guard, run[j].now);
      LiveBlockKept(After(r, run[..j]), run[j], sequence);
      assert false;
    }
  }

  // ---------------------------------------------------------------- conservation

  /** How many calls of a run had an event that `p` selects. */
  ghost function Occurrences(r: Reassembly, run: seq<Input>, p: Event -> bool): nat
    requires r.Valid()
  {
    if run == [] then 0
    else Occurrences(r, run[..|run| - 1], p)
         + if p(Step(After(r, run[..|run| - 1]), run[|run| - 1]).event) then 1 else 0
  }

  function Held(r: Reassembly): nat {
    if r.pending.Some? then 1 else 0
  }

  const ACCEPTED: Event -> bool := (e: Event) => e.Accepted?
  const JOINED: Event -> bool := (e: Event) => e.Joined?
  const COLLIDED: Event -> bool := (e: Event) => e.Collision?
  const OVERFLOWED: Event -> bool := (e: Event) => e.SecondOverflow?

  /** Every accepted first fragment ends in exactly one way, or is the one still held. */
  lemma {:induction false} FragmentsConserved(r: Reassembly, run: seq<Input>)
    requires r.Valid()
    ensures After(r, run).counters.timedOut >= r.counters.timedOut
    ensures After(r, run).counters.discarded >= r.counters.discarded
    ensures Occurrences(r, run, ACCEPTED) + Held(r)
         == Occurrences(r, run, JOINED)
            + (After(r, run).counters.timedOut - r.counters.timedOut)
            + (After(r, run).counters.discarded - r.counters.discarded)
            + Occurrences(r, run, COLLIDED)
            + Occurrences(r, run, OVERFLOWED)
            + Held(After(r, run))
  {
    if run != [] {
      FragmentsConserved(r, run[..|run| - 1]);
      StepConserves(After(r, run[..|run| - 1]), run[|run| - 1]);
    }
  }

  lemma StepConserves(r: Reassembly, input: Input)
    requires r.Valid()
    ensures var o := Step(r, input);
            && o.next.counters.timedOut >= r.counters.timedOut
            && o.next.counters.discarded >= r.counters.discarded
            && Held(r) + (if o.event.Accepted? then 1 else 0)
               == (if o.event.Joined? then 1 else 0)
                  + (o.next.counters.timedOut - r.counters.timedOut)
                  + (o.next.counters.discarded - r.counters.discarded)
                  + (if o.event.Collision? then 1 else 0)
                  + (if o.event.SecondOverflow? then 1 else 0)
                  + Held(o.next)
  {
  }
}
