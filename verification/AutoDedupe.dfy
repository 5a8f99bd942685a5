/** The ring that suppresses packets heard more than once over an automatic interface. */
module AutoDedupe {
  import opened Common

  const CAPACITY: nat := 48
  const TTL: real := 0.75

  type digest = d: seq<byte> | |d| == 32 witness seq(32, _ => 0)

  /** A packet that was let through: its digest and when it came. */
  datatype Seen = Seen(hash: digest, at: real)

  /** Where the last forty-eight records of a log begin. */
  function Window(log: seq<Seen>): nat {
    if |log| < CAPACITY then 0 else |log| - CAPACITY
  }

  predicate Matches(s: Seen, hash: digest, now: real) {
    s.hash == hash && now < s.at + TTL
  }

  /** An equal digest among the last forty-eight records, not yet too old. */
  predicate Heard(log: seq<Seen>, hash: digest, now: real) {
    exists m :: Window(log) <= m < |log| && Matches(log[m], hash, now)
  }

  /** The slots hold the last forty-eight records, each where its number puts it. */
  predicate Holds(slots: seq<Option<Seen>>, next: nat, log: seq<Seen>) {
    && |slots| == CAPACITY
    && next == |log| % CAPACITY
    && (forall m :: Window(log) <= m < |log| ==> slots[m % CAPACITY] == Some(log[m]))
    && (forall k :: |log| <= k < CAPACITY ==> slots[k] == None)
  }

  lemma Holder(log: seq<Seen>, k: nat) returns (m: nat)
    requires k < CAPACITY && k < |log|
    ensures Window(log) <= m < |log| && m % CAPACITY == k
  {
    var d := |log| - 1 - k;
    m := |log| - 1 - d % CAPACITY;
    assert m == k + CAPACITY * (d / CAPACITY);
  }

  /** A full slot holds a record of the window, and every record of the window is in some slot. */
  lemma SlotsAreWindow(slots: seq<Option<Seen>>, next: nat, log: seq<Seen>, hash: digest, now: real)
    requires Holds(slots, next, log)
    ensures Heard(log, hash, now)
       <==> exists k :: 0 <= k < CAPACITY && slots[k].Some? && Matches(slots[k].value, hash, now)
  {
    hide Matches;
    if Heard(log, hash, now) {
      var m :| Window(log) <= m < |log| && Matches(log[m], hash, now);
      assert slots[m % CAPACITY] == Some(log[m]);
    }
    if k :| 0 <= k < CAPACITY && slots[k].Some? && Matches(slots[k].value, hash, now) {
      var m := Holder(log, k);
      assert slots[m % CAPACITY] == Some(log[m]);
    }
  }

  lemma SmallShift(m: nat, n: nat)
    requires m < n < m + CAPACITY
    ensures m % CAPACITY != n % CAPACITY
  {
  }

  lemma Recorded(slots: seq<Option<Seen>>, next: nat, log: seq<Seen>, s: Seen)
    requires Holds(slots, next, log)
    ensures Holds(slots[next := Some(s)], (next + 1) % CAPACITY, log + [s])
  {
    var log', slots' := log + [s], slots[next := Some(s)];
    forall m | Window(log') <= m < |log'| ensures slots'[m % CAPACITY] == Some(log'[m]) {
      if m < |log| {
        SmallShift(m, |log|);
        assert slots[m % CAPACITY] == Some(log[m]);
      }
    }
    assert (|log| + 1) % CAPACITY == (|log| % CAPACITY + 1) % CAPACITY;
  }

  /** Between two records of one packet within the time limit lie at least forty-eight others. */
  predicate Spaced(log: seq<Seen>) {
    forall i, j :: 0 <= i < j < |log| && Matches(log[i], log[j].hash, log[j].at) ==> j - i > CAPACITY
  }

  lemma SpacedGrows(log: seq<Seen>, hash: digest, now: real)
    requires Spaced(log) && !Heard(log, hash, now)
    ensures Spaced(log + [Seen(hash, now)])
  {
    hide Matches;
    var log' := log + [Seen(hash, now)];
    forall i, j | 0 <= i < j < |log'| && Matches(log'[i], log'[j].hash, log'[j].at) ensures j - i > CAPACITY {
      if j < |log| {
        assert log'[i] == log[i] && log'[j] == log[j];
      } else {
        assert log'[i] == log[i];
        assert !(Window(log) <= i < |log|);
      }
    }
  }

  class Ring {
    const slots: array<Option<Seen>>
    var next: nat

    /** Every record since creation, the oldest first. */
    ghost var log: seq<Seen>

    ghost predicate Valid()
      reads this, slots
    {
      Holds(slots[..], next, log) && Spaced(log)
    }

    constructor ()
      ensures Valid() && log == [] && fresh(slots)
    {
      slots := new Option<Seen>[CAPACITY](_ => None);
      next := 0;
      log := [];
    }

    /** Suppresses a packet exactly when it cannot be hashed or was heard; otherwise records it. */
    method Suppress(hash: Option<digest>, now: real) returns (duplicate: bool)
      requires Valid()
      modifies this, slots
      ensures Valid()
      ensures duplicate <==> hash.None? || Heard(old(log), hash.value, now)
      ensures log == old(log) + (if duplicate then [] else [Seen(hash.value, now)])
    {
      hide Heard, Holds, Spaced, Matches;
      assert log == log + [];
      if hash.None? {
        return true;
      }
      SlotCount(slots[..], next, log);
      SlotsAreWindow(slots[..], next, log, hash.value, now);
      for k := 0 to CAPACITY
        invariant forall i :: 0 <= i < k ==> !(slots[i].Some? && Matches(slots[i].value, hash.value, now))
        invariant Valid() && log == old(log) && slots[..] == old(slots[..])
      {
        if slots[k].Some? && Matches(slots[k].value, hash.value, now) {
          assert slots[..][k] == slots[k];
          return true;
        }
      }
      Recorded(slots[..], next, log, Seen(hash.value, now));
      SpacedGrows(log, hash.value, now);
      ghost var before := slots[..];
      slots[next] := Some(Seen(hash.value, now));
      assert slots[..] == before[next := Some(Seen(hash.value, now))];
      next := (next + 1) % CAPACITY;
      log := log + [Seen(hash.value, now)];
      return false;
    }
  }

  lemma SlotCount(slots: seq<Option<Seen>>, next: nat, log: seq<Seen>)
    requires Holds(slots, next, log)
    ensures |slots| == CAPACITY && next < CAPACITY
  {
  }
}
