/** The peer table of an automatic interface: fixed slots read as a map from addresses. */
module AutoTable {
  import opened Ipv6Text

  datatype Info = Info(octets: address, port: nat, scope: nat, index: nat, lastHeard: real, lastOutbound: real)

  datatype Slot = Free | Used(info: Info)

  predicate Holder(s: Slot, a: address) {
    s.Used? && s.info.octets == a
  }

  /** No two slots hold one address. */
  ghost predicate Distinct(ps: seq<Slot>) {
    forall i, j :: 0 <= i < j < |ps| && ps[i].Used? ==> !Holder(ps[j], ps[i].info.octets)
  }

  function Count(ps: seq<Slot>): nat {
    if ps == [] then 0 else Count(ps[..|ps| - 1]) + (if ps[|ps| - 1].Used? then 1 else 0)
  }

  function Table(ps: seq<Slot>): map<address, Info> {
    if ps == [] then map[]
    else if ps[|ps| - 1].Used? then
      Table(ps[..|ps| - 1])[ps[|ps| - 1].info.octets := ps[|ps| - 1].info]
    else Table(ps[..|ps| - 1])
  }

  lemma {:induction false} TableAt(ps: seq<Slot>, i: nat)
    requires Distinct(ps) && i < |ps| && ps[i].Used?
    ensures ps[i].info.octets in Table(ps) && Table(ps)[ps[i].info.octets] == ps[i].info
    decreases |ps|
  {
    var n := |ps| - 1;
    if i < n {
      TableAt(ps[..n], i);
      assert ps[..n][i] == ps[i];
    }
  }

  lemma {:induction false} TableKey(ps: seq<Slot>, a: address) returns (i: nat)
    requires a in Table(ps)
    ensures i < |ps| && Holder(ps[i], a)
    decreases |ps|
  {
    var n := |ps| - 1;
    if Holder(ps[n], a) {
      return n;
    }
    i := TableKey(ps[..n], a);
  }

  lemma {:induction false} TableCount(ps: seq<Slot>)
    requires Distinct(ps)
    ensures |Table(ps)| == Count(ps)
  {
    if ps != [] {
      var n := |ps| - 1;
      TableCount(ps[..n]);
      if ps[n].Used? && ps[n].info.octets in Table(ps[..n]) {
        var i := TableKey(ps[..n], ps[n].info.octets);
        assert Holder(ps[n], ps[i].info.octets);
        assert false;
      }
      assert ps[n].Used? ==> Table(ps).Keys == Table(ps[..n]).Keys + {ps[n].info.octets};
    }
  }

  lemma {:induction false} CountPut(ps: seq<Slot>, i: nat, s: Slot)
    requires i < |ps|
    ensures Count(ps[i := s]) == Count(ps) + (if s.Used? then 1 else 0) - (if ps[i].Used? then 1 else 0)
    decreases |ps|
  {
    var n := |ps| - 1;
    if i == n {
      assert ps[i := s][..n] == ps[..n];
    } else {
      CountPut(ps[..n], i, s);
      assert ps[i := s][..n] == ps[..n][i := s];
    }
  }

  lemma {:induction false} CountFull(ps: seq<Slot>)
    ensures Count(ps) <= |ps|
    ensures Count(ps) == |ps| <==> forall i :: 0 <= i < |ps| ==> ps[i].Used?
  {
    if ps != [] {
      var n := |ps| - 1;
      CountFull(ps[..n]);
      assert forall i :: 0 <= i < n ==> ps[..n][i] == ps[i];
    }
  }

  /** Writing a slot that was free, or that held the address already, is one assignment of the map. */
  lemma TablePut(ps: seq<Slot>, i: nat, info: Info)
    requires Distinct(ps) && i < |ps|
    requires forall j :: 0 <= j < |ps| && j != i ==> !Holder(ps[j], info.octets)
    requires ps[i].Free? || ps[i].info.octets == info.octets
    ensures Distinct(ps[i := Used(info)])
    ensures Table(ps[i := Used(info)]) == Table(ps)[info.octets := info]
  {
    hide Table;
    var ps' := ps[i := Used(info)];
    var t, t' := Table(ps), Table(ps');
    assert Distinct(ps');
    TableAt(ps', i);
    forall a | a in t' ensures a in t[info.octets := info] && t[info.octets := info][a] == t'[a] {
      var j := TableKey(ps', a);
      TableAt(ps', j);
      if j != i {
        assert ps'[j] == ps[j];
        TableAt(ps, j);
      }
    }
    forall a | a in t ensures a in t' {
      var j := TableKey(ps, a);
      if j != i {
        assert ps'[j] == ps[j];
        TableAt(ps', j);
      }
    }
    assert t' == t[info.octets := info];
  }

  // ---------------------------------------------------------------- one poll

  datatype Timing = Timing(timeout: real, reverse: real)

  /** Silent for longer than the timeout. */
  predicate Expired(info: Info, timing: Timing, now: real) {
    now > info.lastHeard + timing.timeout
  }

  /** Not expired, and not announced to for longer than the reverse interval. */
  predicate Due(info: Info, timing: Timing, now: real) {
    !Expired(info, timing, now) && now > info.lastOutbound + timing.reverse
  }

  function Kept(info: Info, timing: Timing, now: real): Info {
    if Due(info, timing, now) then info.(lastOutbound := now) else info
  }

  function PollSlot(s: Slot, timing: Timing, now: real): Slot {
    if s.Free? || Expired(s.info, timing, now) then Free else Used(Kept(s.info, timing, now))
  }

  function PollSlots(ps: seq<Slot>, timing: Timing, now: real): (qs: seq<Slot>)
    ensures |qs| == |ps|
  {
    seq(|ps|, i requires 0 <= i < |ps| => PollSlot(ps[i], timing, now))
  }

  /** A poll drops exactly the expired peers and keeps the others. */
  lemma TablePolled(ps: seq<Slot>, timing: Timing, now: real)
    requires Distinct(ps)
    ensures Distinct(PollSlots(ps, timing, now))
    ensures Table(PollSlots(ps, timing, now))
         == map a | a in Table(ps) && !Expired(Table(ps)[a], timing, now) :: Kept(Table(ps)[a], timing, now)
  {
    hide Table, Expired, Due;
    var qs := PollSlots(ps, timing, now);
    var t, u := Table(ps), Table(qs);
    PollKeepsDistinct(ps, timing, now);
    forall a | a in u ensures a in t && !Expired(t[a], timing, now) && u[a] == Kept(t[a], timing, now) {
      var i := TableKey(qs, a);
      TableAt(qs, i);
      TableAt(ps, i);
    }
    forall a | a in t && !Expired(t[a], timing, now) ensures a in u {
      var i := TableKey(ps, a);
      TableAt(ps, i);
      TableAt(qs, i);
    }
  }

  lemma PollKeepsDistinct(ps: seq<Slot>, timing: Timing, now: real)
    requires Distinct(ps)
    ensures Distinct(PollSlots(ps, timing, now))
  {
    hide Expired, Due;
    var qs := PollSlots(ps, timing, now);
    forall i, j | 0 <= i < j < |qs| && qs[i].Used? ensures !Holder(qs[j], qs[i].info.octets) {
      assert !Holder(ps[j], ps[i].info.octets);
    }
  }
}
