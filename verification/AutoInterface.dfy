/** The automatic interface: local carriers, discovered peers, duplicate suppression and timers. */
module AutoInterface {
  import opened Common
  import opened Ipv6Text
  import opened AutoTable
  import AutoDedupe

  const HW_MTU := 1196
  const TOKEN_SIZE := 32
  const MAX_LOCAL := 32

  type digest = AutoDedupe.digest

  datatype Udp = Udp(ipv6: bool, octets: address, port: nat, scope: nat)

  datatype Local = Local(octets: address, port: nat, index: nat, nextAnnounce: real, lastEcho: real)

  /** What the endpoint was created with; `sha` is the platform's digest. */
  datatype Config = Config(
    group: seq<byte>, multicast: address, capacity: nat, discoveryPort: nat, dataPort: nat,
    announceInterval: real, timing: Timing, onlineAt: real,
    sha: seq<byte> -> Option<digest>)

  /** What the caller asks for. */
  datatype Options = Options(
    group: seq<byte>, scope: nat, multicastType: nat, discoveryPort: nat, dataPort: nat, capacity: nat,
    announceInterval: real, timeout: real, reverse: real, initialWait: real)

  predicate Acceptable(o: Options) {
    && 1 <= |o.group| <= 128
    && o.scope in {2, 4, 5, 8, 14} && o.multicastType in {0, 1}
    && 1 <= o.discoveryPort < 0xffff && 1 <= o.dataPort <= 0xffff
    && 1 <= o.capacity <= 128
    && o.announceInterval > 0.0 && o.timeout > 0.0 && o.reverse > 0.0 && o.initialWait >= 0.0
  }

  /** The group's multicast address: scope, kind and twelve octets of the group's digest. */
  function MulticastOf(o: Options, hash: digest): address
    requires Acceptable(o)
  {
    [0xff, 16 * o.multicastType + o.scope, 0, 0] + hash[2..14]
  }

  datatype Kind = Multicast | Unicast | Data

  /** A datagram handed to the emit callback, or that could not be made, and what came of it. */
  datatype Attempt = Attempt(kind: Kind, index: nat, destination: Udp, payload: Option<seq<byte>>, status: Status)

  datatype Delivery = Delivery(packet: seq<byte>, source: Udp, index: nat)

  // ---------------------------------------------------------------- carriers

  predicate Clash(l: Local, a: address, index: nat) {
    l.index == index || l.octets == a
  }

  ghost predicate LocalsValid(ls: seq<Local>) {
    && |ls| <= MAX_LOCAL
    && (forall i :: 0 <= i < |ls| ==> ls[i].index != 0)
    && (forall i, j :: 0 <= i < j < |ls| ==> !Clash(ls[j], ls[i].octets, ls[i].index))
  }

  function Octets(text: string): seq<byte> {
    seq(|text|, i requires 0 <= i < |text| => text[i] as int % 256)
  }

  /** The token peers expect from an address: the digest of the group followed by the address text. */
  ghost function Token(c: Config, a: address): Option<digest> {
    c.sha(c.group + Octets(TextOf(a)))
  }

  ghost function LocalToken(c: Config, ls: seq<Local>, index: nat): (Option<digest>, Status) {
    if ls == [] then (None, NotFound)
    else if ls[0].index == index then
      match Token(c, ls[0].octets)
      case Some(t) => (Some(t), Ok)
      case None => (None, Crypto)
    else LocalToken(c, ls[1..], index)
  }

  method MakeToken(c: Config, a: address) returns (t: Option<digest>)
    ensures t == Token(c, a)
  {
    var text := Format(a);
    t := c.sha(c.group + Octets(text));
  }

  method FindToken(c: Config, ls: seq<Local>, index: nat) returns (t: Option<digest>, status: Status)
    ensures (t, status) == LocalToken(c, ls, index)
    ensures t.Some? <==> status == Ok
  {
    assert ls[0..] == ls;
    for i := 0 to |ls|
      invariant LocalToken(c, ls, index) == LocalToken(c, ls[i..], index)
    {
      if ls[i].index == index {
        t := MakeToken(c, ls[i].octets);
        return t, if t.Some? then Ok else Crypto;
      }
      assert ls[i..][1..] == ls[i + 1..];
    }
    return None, NotFound;
  }

  // ---------------------------------------------------------------- what a poll sends

  ghost function Announcement(c: Config, ls: seq<Local>, kind: Kind, index: nat, destination: Udp, answer: Status): Attempt {
    var (token, status) := LocalToken(c, ls, index);
    Attempt(kind, index, destination, token, if token.Some? then answer else status)
  }

  function ReverseTo(c: Config, p: Info): Udp {
    Udp(true, p.octets, (c.discoveryPort + 1) % 0x1_0000, p.scope)
  }

  function BeaconTo(c: Config, l: Local): Udp {
    Udp(true, c.multicast, c.discoveryPort, l.index)
  }

  /** One unicast announcement to every peer that is due, in slot order. */
  ghost function Reverses(c: Config, ls: seq<Local>, ps: seq<Slot>, now: real, emit: nat -> Status): seq<Attempt> {
    if ps == [] then []
    else
      var before, p := Reverses(c, ls, ps[..|ps| - 1], now, emit), ps[|ps| - 1];
      if p.Used? && Due(p.info, c.timing, now) then
        before + [Announcement(c, ls, Unicast, p.info.index, ReverseTo(c, p.info), emit(|before|))]
      else before
  }

  /** Then one multicast announcement on every carrier that is due, in order. */
  ghost function Beacons(c: Config, all: seq<Local>, ls: seq<Local>, now: real, emit: nat -> Status, before: seq<Attempt>): seq<Attempt> {
    if ls == [] then before
    else
      var sent, l := Beacons(c, all, ls[..|ls| - 1], now, emit, before), ls[|ls| - 1];
      if now >= l.nextAnnounce then
        sent + [Announcement(c, all, Multicast, l.index, BeaconTo(c, l), emit(|sent|))]
      else sent
  }

  function Announced(l: Local, now: real, interval: real): Local {
    if now >= l.nextAnnounce then l.(nextAnnounce := now + interval) else l
  }

  function AllAnnounced(ls: seq<Local>, now: real, interval: real): seq<Local> {
    seq(|ls|, i requires 0 <= i < |ls| => Announced(ls[i], now, interval))
  }

  function FirstError(attempts: seq<Attempt>): Status {
    if attempts == [] then Ok
    else
      var before := FirstError(attempts[..|attempts| - 1]);
      if before != Ok then before else attempts[|attempts| - 1].status
  }

  lemma FirstErrorSnoc(attempts: seq<Attempt>, a: Attempt)
    ensures FirstError(attempts + [a]) == if FirstError(attempts) != Ok then FirstError(attempts) else a.status
  {
    assert (attempts + [a])[..|attempts|] == attempts;
  }

  /** Timers aside, the same carriers. */
  ghost predicate SameCarriers(ls: seq<Local>, ms: seq<Local>) {
    |ls| == |ms| && forall i :: 0 <= i < |ls| ==> ls[i].octets == ms[i].octets && ls[i].index == ms[i].index
  }

  /** A token does not depend on when its carrier next announces. */
  lemma {:induction false} TokenIgnoresTimers(c: Config, ls: seq<Local>, ms: seq<Local>, index: nat)
    requires SameCarriers(ls, ms)
    ensures LocalToken(c, ls, index) == LocalToken(c, ms, index)
    decreases ls
  {
    if ls != [] {
      TokenIgnoresTimers(c, ls[1..], ms[1..], index);
    }
  }

  // ---------------------------------------------------------------- the endpoint

  /** The status a discovery datagram gets before the tables are looked at. */
  ghost function Screened(c: Config, locals: nat, source: Udp, index: nat, token: seq<byte>, clock: real): Status {
    if !source.ipv6 || index == 0 then InvalidArgument
    else if |token| != TOKEN_SIZE then Protocol
    else if locals == 0 || clock < c.onlineAt then InvalidState
    else if Token(c, source.octets) != Some(token) then Crypto
    else Ok
  }

  function Echoed(ls: seq<Local>, a: address, now: real): seq<Local> {
    seq(|ls|, i requires 0 <= i < |ls| => if ls[i].octets == a then ls[i].(lastEcho := now) else ls[i])
  }

  predicate IsLocal(ls: seq<Local>, a: address) {
    exists i :: 0 <= i < |ls| && ls[i].octets == a
  }

  /** What the table says of a peer once it has been discovered. */
  function Discovered(c: Config, t: map<address, Info>, a: address, index: nat, now: real): Info {
    if a in t then t[a].(lastHeard := now, index := index, scope := index)
    else Info(a, c.dataPort, index, index, now, now)
  }

  /** Each packet handed over left one record, under its own digest. */
  ghost predicate Accounted(c: Config, delivered: seq<Delivery>, log: seq<AutoDedupe.Seen>) {
    && |delivered| == |log|
    && forall k :: 0 <= k < |log| ==> c.sha(delivered[k].packet) == Some(log[k].hash)
  }

  lemma AccountedSnoc(c: Config, delivered: seq<Delivery>, log: seq<AutoDedupe.Seen>, d: Delivery, s: AutoDedupe.Seen)
    requires Accounted(c, delivered, log) && c.sha(d.packet) == Some(s.hash)
    ensures Accounted(c, delivered + [d], log + [s])
  {
  }

  /** Over every run: a packet handed over again before its record is too old
      had at least forty-eight others handed over in between. */
  lemma RepeatsAreFar(c: Config, delivered: seq<Delivery>, log: seq<AutoDedupe.Seen>, i: nat, j: nat)
    requires Accounted(c, delivered, log) && AutoDedupe.Spaced(log)
    requires i < j < |delivered| && delivered[i].packet == delivered[j].packet
    ensures log[j].at >= log[i].at + AutoDedupe.TTL || j - i > AutoDedupe.CAPACITY
  {
    assert c.sha(delivered[i].packet) == Some(log[i].hash);
    assert c.sha(delivered[j].packet) == Some(log[j].hash);
    if log[j].at < log[i].at + AutoDedupe.TTL {
      assert AutoDedupe.Matches(log[i], log[j].hash, log[j].at);
    }
  }

  class Endpoint {
    const config: Config
    const peers: array<Slot>
    const ring: AutoDedupe.Ring
    var local: seq<Local>
    var peerCount: nat

    /** Every packet handed to the receive callback, in order. */
    ghost var delivered: seq<Delivery>

    ghost predicate Valid()
      reads this, peers, ring, ring.slots
    {
      && 1 <= config.capacity <= 128
      && peers.Length == config.capacity
      && LocalsValid(local)
      && Distinct(peers[..])
      && peerCount == Count(peers[..])
      && ring.Valid()
      && Accounted(config, delivered, ring.log)
    }

    /** The peers by address. */
    ghost function Peers(): map<address, Info>
      reads this, peers
    {
      Table(peers[..])
    }

    constructor (c: Config)
      requires 1 <= c.capacity <= 128
      ensures Valid() && config == c && local == [] && delivered == [] && Peers() == map[] && ring.log == []
      ensures fresh(peers) && fresh(ring) && fresh(ring.slots)
    {
      config := c;
      var slots := new Slot[c.capacity](_ => Free);
      peers := slots;
      ring := new AutoDedupe.Ring();
      local := [];
      peerCount := 0;
      delivered := [];
      new;
      AllFree(peers[..]);
    }

    /** Bad options are refused; otherwise an endpoint without carriers or peers, online once the initial wait is over. */
    static method Create(o: Options, now: real, sha: seq<byte> -> Option<digest>) returns (status: Status, e: Endpoint?)
      ensures status == if !Acceptable(o) then InvalidArgument else if sha(o.group).None? then Crypto else Ok
      ensures status != Ok ==> e == null
      ensures status == Ok ==>
                && e != null && fresh(e) && e.Valid() && e.local == [] && e.Peers() == map[] && e.ring.log == []
                && e.config == Config(o.group, MulticastOf(o, sha(o.group).value), o.capacity, o.discoveryPort, o.dataPort,
                                      o.announceInterval, Timing(o.timeout, o.reverse), now + o.initialWait, sha)
    {
      if !Acceptable(o) {
        return InvalidArgument, null;
      }
      var hash := sha(o.group);
      if hash.None? {
        return Crypto, null;
      }
      e := new Endpoint(Config(o.group, MulticastOf(o, hash.value), o.capacity, o.discoveryPort, o.dataPort,
                               o.announceInterval, Timing(o.timeout, o.reverse), now + o.initialWait, sha));
      return Ok, e;
    }

    /** A carrier is added unless it is not link-local, clashes with another, or the list is full. */
    method AddLocal(source: Udp, index: nat, now: real) returns (status: Status)
      requires Valid()
      modifies this`local
      ensures Valid()
      ensures status == (
        if !source.ipv6 || index == 0 || source.octets[0] != 0xfe || source.octets[1] != 0x80 then InvalidArgument
        else if exists i :: 0 <= i < |old(local)| && Clash(old(local)[i], source.octets, index) then InvalidState
        else if |old(local)| == MAX_LOCAL then Overflow
        else Ok)
      ensures local == old(local)
                + (if status == Ok then [Local(source.octets, config.discoveryPort, index, now, 0.0)] else [])
    {
      hide Distinct, Count;
      assert local + [] == local;
      if !source.ipv6 || index == 0 || source.octets[0] != 0xfe || source.octets[1] != 0x80 {
        return InvalidArgument;
      }
      for i := 0 to |local|
        invariant forall j :: 0 <= j < i ==> !Clash(local[j], source.octets, index)
      {
        if Clash(local[i], source.octets, index) {
          return InvalidState;
        }
      }
      if |local| == MAX_LOCAL {
        return Overflow;
      }
      local := local + [Local(source.octets, config.discoveryPort, index, now, 0.0)];
      return Ok;
    }

    /** The slot of a peer, or the number of slots. */
    method FindPeer(a: address) returns (i: nat)
      requires Valid()
      ensures i <= peers.Length
      ensures i < peers.Length ==> Holder(peers[i], a) && a in Peers() && Peers()[a] == peers[i].info
      ensures i == peers.Length ==> a !in Peers() && forall j :: 0 <= j < peers.Length ==> !Holder(peers[j], a)
      ensures i < peers.Length ==> forall j :: 0 <= j < peers.Length && j != i ==> !Holder(peers[j], a)
    {
      hide Count, Table, LocalsValid, Accounted;
      ghost var ps := peers[..];
      for k := 0 to peers.Length
        invariant forall j :: 0 <= j < k ==> !Holder(peers[j], a)
      {
        if peers[k].Used? && peers[k].info.octets == a {
          TableAt(ps, k);
          assert forall j :: k < j < |ps| ==> !Holder(ps[j], ps[k].info.octets);
          assert forall j :: 0 <= j < peers.Length && j != k ==> peers[j] == ps[j];
          return k;
        }
      }
      if a in Table(ps) {
        ghost var j := TableKey(ps, a);
        assert false;
      }
      return peers.Length;
    }

    /** Stores what is known of a peer in its slot. */
    method PutPeer(i: nat, info: Info)
      requires Valid() && i < peers.Length
      requires peers[i].Free? || peers[i].info.octets == info.octets
      requires forall j :: 0 <= j < peers.Length && j != i ==> !Holder(peers[j], info.octets)
      modifies this`peerCount, peers
      ensures Valid() && Peers() == old(Peers())[info.octets := info]
    {
      hide Count, Table, LocalsValid, Distinct, Accounted;
      ghost var ps := peers[..];
      TablePut(ps, i, info);
      CountPut(ps, i, Used(info));
      if peers[i].Free? {
        peerCount := peerCount + 1;
      }
      peers[i] := Used(info);
      assert peers[..] == ps[i := Used(info)];
    }

    /** A discovery datagram: an echo of our own, news of a known peer, or a new peer while there is room. */
    method IngestDiscovery(source: Udp, index: nat, token: seq<byte>, clock: real, now: real) returns (status: Status)
      requires Valid()
      modifies this`local, this`peerCount, peers
      ensures Valid()
      ensures var a, t := source.octets, old(Peers());
              var screened := Screened(config, |old(local)|, source, index, token, clock);
              var room := a in t || |t| < config.capacity;
              var echo := IsLocal(old(local), a);
              && status == (if screened != Ok then screened else if echo || room then Ok else Overflow)
              && local == (if screened == Ok && echo then Echoed(old(local), a, now) else old(local))
              && Peers() == (if screened == Ok && !echo && room then t[a := Discovered(config, t, a, index, now)] else t)
    {
      hide Count, Table, Distinct, Token, Accounted;
      if !source.ipv6 || index == 0 {
        return InvalidArgument;
      }
      if |token| != TOKEN_SIZE {
        return Protocol;
      }
      if |local| == 0 || clock < config.onlineAt {
        return InvalidState;
      }
      var expected := MakeToken(config, source.octets);
      if expected != Some(token) {
        return Crypto;
      }
      for i := 0 to |local|
        invariant forall j :: 0 <= j < i ==> local[j].octets != source.octets
      {
        if local[i].octets == source.octets {
          assert local[i := local[i].(lastEcho := now)] == Echoed(local, source.octets, now);
          local := local[i := local[i].(lastEcho := now)];
          return Ok;
        }
      }
      status := Remember(source.octets, index, now);
    }

    method Remember(a: address, index: nat, now: real) returns (status: Status)
      requires Valid()
      modifies this`peerCount, peers
      ensures Valid()
      ensures var t := old(Peers());
              var room := a in t || |t| < config.capacity;
              && status == (if room then Ok else Overflow)
              && Peers() == (if room then t[a := Discovered(config, t, a, index, now)] else t)
    {
      hide Count, Table, LocalsValid, Distinct, Accounted;
      TableCount(peers[..]);
      CountFull(peers[..]);
      var i := FindPeer(a);
      if i < peers.Length {
        PutPeer(i, peers[i].info.(lastHeard := now, index := index, scope := index));
        return Ok;
      }
      for k := 0 to peers.Length
        invariant forall j :: 0 <= j < k ==> peers[j].Used?
      {
        if peers[k].Free? {
          assert !peers[..][k].Used?;
          PutPeer(k, Info(a, config.dataPort, index, index, now, now));
          return Ok;
        }
      }
      return Overflow;
    }

    /** A data packet from a known peer is handed over once; a repeat only keeps the peer alive. */
    method IngestData(source: Udp, index: nat, packet: seq<byte>, clock: real, now: real, received: Status)
      returns (status: Status)
      requires Valid()
      modifies this`peerCount, this`delivered, peers, ring, ring.slots
      ensures Valid()
      ensures var a, t, log := source.octets, old(Peers()), old(ring.log);
              var hash := config.sha(packet);
              var accepted := source.ipv6 && index != 0 && 0 < |packet| <= HW_MTU && local != []
                              && clock >= config.onlineAt && a in t;
              var novel := accepted && hash.Some? && !AutoDedupe.Heard(log, hash.value, now);
              && status == (if !source.ipv6 || index == 0 || packet == [] then InvalidArgument
                            else if |packet| > HW_MTU then Overflow
                            else if local == [] || clock < config.onlineAt then InvalidState
                            else if a !in t then NotFound
                            else if novel then received else Ok)
              && Peers() == (if accepted then t[a := t[a].(lastHeard := now)] else t)
              && ring.log == log + (if novel then [AutoDedupe.Seen(hash.value, now)] else [])
              && delivered == old(delivered) + (if novel then [Delivery(packet, source, index)] else [])
    {
      hide Count, Table, LocalsValid, Distinct, AutoDedupe.Heard, AutoDedupe.Ring.Valid, Accounted;
      assert ring.log + [] == ring.log && delivered + [] == delivered;
      if !source.ipv6 || index == 0 || packet == [] {
        return InvalidArgument;
      }
      if |packet| > HW_MTU {
        return Overflow;
      }
      if |local| == 0 || clock < config.onlineAt {
        return InvalidState;
      }
      var i := FindPeer(source.octets);
      if i == peers.Length {
        return NotFound;
      }
      PutPeer(i, peers[i].info.(lastHeard := now));
      var duplicate := ring.Suppress(config.sha(packet), now);
      if duplicate {
        return Ok;
      }
      AccountedSnoc(config, delivered, old(ring.log), Delivery(packet, source, index), ring.log[|ring.log| - 1]);
      delivered := delivered + [Delivery(packet, source, index)];
      return received;
    }

    /** Sends a packet to every peer, in slot order. */
    method Send(packet: seq<byte>, clock: real, emit: nat -> Status) returns (status: Status, sent: nat, attempts: seq<Attempt>)
      requires Valid()
      ensures var refused := if packet == [] then InvalidArgument
                             else if |packet| > HW_MTU then Overflow
                             else if local == [] || clock < config.onlineAt then InvalidState else Ok;
              && attempts == (if refused == Ok then Copies(peers[..], packet, emit) else [])
              && sent == Successes(attempts)
              && status == (if refused != Ok then refused else if sent > 0 then Ok
                            else if FirstError(attempts) != Ok then FirstError(attempts) else NotFound)
    {
      hide Count, Table, LocalsValid, Distinct, Copies, FirstError, Successes;
      EmptyAttempts();
      attempts, sent := [], 0;
      if packet == [] {
        return InvalidArgument, sent, attempts;
      }
      if |packet| > HW_MTU {
        return Overflow, sent, attempts;
      }
      if |local| == 0 || clock < config.onlineAt {
        return InvalidState, sent, attempts;
      }
      var firstError := Ok;
      assert peers[..0] == [];
      NoCopies(packet, emit);
      for i := 0 to peers.Length
        invariant attempts == Copies(peers[..i], packet, emit)
        invariant sent == Successes(attempts) && firstError == FirstError(attempts)
      {
        CopiesSnoc(peers[..i], peers[i], packet, emit);
        assert peers[..i + 1] == peers[..i] + [peers[i]];
        if peers[i].Used? {
          var p := peers[i].info;
          var answer := emit(|attempts|);
          var attempt := Attempt(Data, p.index, Udp(true, p.octets, p.port, p.scope), Some(packet), answer);
          FirstErrorSnoc(attempts, attempt);
          SuccessesSnoc(attempts, attempt);
          attempts := attempts + [attempt];
          if answer == Ok {
            sent := sent + 1;
          } else if firstError == Ok {
            firstError := answer;
          }
        }
      }
      assert peers[..peers.Length] == peers[..];
      status := if sent > 0 then Ok else if firstError != Ok then firstError else NotFound;
    }

    /** Drops the peers that fell silent and sends the announcements that are due. */
    method Poll(now: real, emit: nat -> Status) returns (status: Status, attempts: seq<Attempt>)
      requires Valid()
      modifies this`local, this`peerCount, peers
      ensures Valid()
      ensures Peers() == map a | a in old(Peers()) && !Expired(old(Peers())[a], config.timing, now)
                         :: Kept(old(Peers())[a], config.timing, now)
      ensures local == AllAnnounced(old(local), now, config.announceInterval)
      ensures attempts == Beacons(config, old(local), old(local), now, emit,
                                  Reverses(config, old(local), old(peers[..]), now, emit))
      ensures status == FirstError(attempts)
    {
      hide Count, Table, Distinct, Reverses, Beacons, FirstError, Expired, Due;
      attempts := PollPeers(now, emit);
      attempts := PollLocals(now, emit, attempts);
      status := FirstError(attempts);
    }

    method PollPeers(now: real, emit: nat -> Status) returns (attempts: seq<Attempt>)
      requires Valid()
      modifies this`peerCount, peers
      ensures Valid()
      ensures Peers() == map a | a in old(Peers()) && !Expired(old(Peers())[a], config.timing, now)
                         :: Kept(old(Peers())[a], config.timing, now)
      ensures attempts == Reverses(config, local, old(peers[..]), now, emit)
    {
      hide Count, Table, Distinct, Reverses, Expired, LocalsValid, Announcement, AutoDedupe.Ring.Valid, Accounted, PollSlots, PollSlot;
      ghost var ps := peers[..];
      ghost var qs := PollSlots(ps, config.timing, now);
      attempts := [];
      SweepStarts(ps, qs);
      NoReverses(config, local, now, emit);
      for i := 0 to peers.Length
        invariant peers[..] == Swept(ps, qs, i)
        invariant peerCount == Count(peers[..])
        invariant attempts == Reverses(config, local, ps[..i], now, emit)
        invariant ring.Valid()
      {
        SweepStep(ps, qs, i);
        PollSlotsAt(ps, config.timing, now, i);
        ReversesSnoc(config, local, ps[..i], ps[i], now, emit);
        CountPut(peers[..], i, qs[i]);
        assert peers[i] == peers[..][i];
        var attempt := PollPeer(i, now, emit(|attempts|));
        if attempt.Some? {
          attempts := attempts + [attempt.value];
        }
      }
      SweepEnds(ps, qs);
      TablePolled(ps, config.timing, now);
    }

    method PollPeer(i: nat, now: real, answer: Status) returns (attempt: Option<Attempt>)
      requires i < peers.Length && peerCount == Count(peers[..])
      modifies this`peerCount, peers
      ensures peers[..] == old(peers[..])[i := PollSlot(old(peers[i]), config.timing, now)]
      ensures peerCount == Count(peers[..])
      ensures var slot := old(peers[i]);
              attempt == if slot.Used? && Due(slot.info, config.timing, now)
                         then Some(Announcement(config, local, Unicast, slot.info.index, ReverseTo(config, slot.info), answer))
                         else None
    {
      hide Count, Announcement, ReverseTo;
      var slot := peers[i];
      ghost var before := peers[..];
      CountPut(before, i, PollSlot(slot, config.timing, now));
      CountPut(before, i, slot);
      attempt := None;
      if slot.Used? {
        if Expired(slot.info, config.timing, now) {
          peers[i] := Free;
          peerCount := peerCount - 1;
        } else if now > slot.info.lastOutbound + config.timing.reverse {
          var made := Announce(Unicast, slot.info.index, ReverseTo(config, slot.info), answer);
          attempt := Some(made);
          peers[i] := Used(slot.info.(lastOutbound := now));
        }
      }
      assert peers[..] == before[i := PollSlot(slot, config.timing, now)];
    }

    method Announce(kind: Kind, index: nat, destination: Udp, answer: Status) returns (attempt: Attempt)
      ensures attempt == Announcement(config, local, kind, index, destination, answer)
    {
      var token, failure := FindToken(config, local, index);
      attempt := Attempt(kind, index, destination, token, if token.Some? then answer else failure);
    }

    method PollLocals(now: real, emit: nat -> Status, before: seq<Attempt>) returns (attempts: seq<Attempt>)
      requires Valid()
      modifies this`local
      ensures Valid()
      ensures local == AllAnnounced(old(local), now, config.announceInterval)
      ensures attempts == Beacons(config, old(local), old(local), now, emit, before)
    {
      hide Count, Table, Distinct, Beacons, AutoDedupe.Ring.Valid, Accounted, LocalsValid, AllAnnounced, Announcement, Swept, SameCarriers;
      ghost var all := local;
      ghost var after := AllAnnounced(all, now, config.announceInterval);
      AnnouncedSame(all, now, config.announceInterval);
      attempts := before;
      SweepStarts(all, after);
      NoBeacons(config, all, now, emit, before);
      for i := 0 to |local|
        invariant local == Swept(all, after, i)
        invariant attempts == Beacons(config, all, all[..i], now, emit, before)
      {
        SweepStep(all, after, i);
        AnnouncedAt(all, now, config.announceInterval, i);
        var l := local[i];
        BeaconsSnoc(config, all, all[..i], l, now, emit, before);
        if now >= l.nextAnnounce {
          SweptSame(all, after, i);
          AnnouncementIgnoresTimers(config, local, all, Multicast, l.index, BeaconTo(config, l), emit(|attempts|));
          var attempt := Announce(Multicast, l.index, BeaconTo(config, l), emit(|attempts|));
          attempts := attempts + [attempt];
          local := local[i := l.(nextAnnounce := now + config.announceInterval)];
        }
      }
      SweepEnds(all, after);
      LocalsIgnoreTimers(all, after);
    }
  }

  /** A pass that has rewritten the first i of some entries. */
  ghost function Swept<T>(before: seq<T>, after: seq<T>, i: nat): (s: seq<T>)
    requires i <= |before| == |after|
    ensures |s| == |before|
  {
    after[..i] + before[i..]
  }

  lemma SweepStarts<T>(before: seq<T>, after: seq<T>)
    requires |before| == |after|
    ensures Swept(before, after, 0) == before && before[..0] == []
  {
  }

  lemma SweepStep<T>(before: seq<T>, after: seq<T>, i: nat)
    requires i < |before| == |after|
    ensures Swept(before, after, i)[i] == before[i]
    ensures Swept(before, after, i)[i := after[i]] == Swept(before, after, i + 1)
    ensures Swept(before, after, i)[i := before[i]] == Swept(before, after, i)
    ensures before[..i + 1] == before[..i] + [before[i]]
  {
  }

  lemma SweepEnds<T>(before: seq<T>, after: seq<T>)
    requires |before| == |after|
    ensures Swept(before, after, |before|) == after && before[..|before|] == before
  {
  }

  lemma PollSlotsAt(ps: seq<Slot>, timing: Timing, now: real, i: nat)
    requires i < |ps|
    ensures PollSlots(ps, timing, now)[i] == PollSlot(ps[i], timing, now)
  {
  }

  lemma AnnouncedSame(ls: seq<Local>, now: real, interval: real)
    ensures SameCarriers(AllAnnounced(ls, now, interval), ls)
    ensures |AllAnnounced(ls, now, interval)| == |ls|
  {
  }

  lemma AnnouncedAt(ls: seq<Local>, now: real, interval: real, i: nat)
    requires i < |ls|
    ensures AllAnnounced(ls, now, interval)[i] == Announced(ls[i], now, interval)
  {
  }

  lemma SweptSame(ls: seq<Local>, ms: seq<Local>, i: nat)
    requires SameCarriers(ms, ls) && i <= |ls| == |ms|
    ensures SameCarriers(Swept(ls, ms, i), ls)
  {
  }

  lemma LocalsIgnoreTimers(ls: seq<Local>, ms: seq<Local>)
    requires LocalsValid(ls) && SameCarriers(ms, ls)
    ensures LocalsValid(ms)
  {
    forall i, j | 0 <= i < j < |ms| ensures !Clash(ms[j], ms[i].octets, ms[i].index) {
      assert !Clash(ls[j], ls[i].octets, ls[i].index);
    }
    forall i | 0 <= i < |ms| ensures ms[i].index != 0 {
      assert ls[i].index != 0;
    }
  }

  lemma {:induction false} AllFree(ps: seq<Slot>)
    requires forall i :: 0 <= i < |ps| ==> ps[i].Free?
    ensures Count(ps) == 0 && Table(ps) == map[] && Distinct(ps)
  {
    if ps != [] {
      AllFree(ps[..|ps| - 1]);
    }
  }

  /** The copies of a packet sent to every peer. */
  ghost function Copies(ps: seq<Slot>, packet: seq<byte>, emit: nat -> Status): seq<Attempt> {
    if ps == [] then []
    else
      var before, p := Copies(ps[..|ps| - 1], packet, emit), ps[|ps| - 1];
      if p.Used? then
        before + [Attempt(Data, p.info.index, Udp(true, p.info.octets, p.info.port, p.info.scope), Some(packet), emit(|before|))]
      else before
  }

  function Successes(attempts: seq<Attempt>): nat {
    if attempts == [] then 0
    else Successes(attempts[..|attempts| - 1]) + (if attempts[|attempts| - 1].status == Ok then 1 else 0)
  }

  lemma SuccessesSnoc(attempts: seq<Attempt>, a: Attempt)
    ensures Successes(attempts + [a]) == Successes(attempts) + (if a.status == Ok then 1 else 0)
  {
    assert (attempts + [a])[..|attempts|] == attempts;
  }

  lemma EmptyAttempts()
    ensures FirstError([]) == Ok && Successes([]) == 0
  {
  }

  lemma NoCopies(packet: seq<byte>, emit: nat -> Status)
    ensures Copies([], packet, emit) == []
  {
  }

  lemma CopiesSnoc(ps: seq<Slot>, p: Slot, packet: seq<byte>, emit: nat -> Status)
    ensures var before := Copies(ps, packet, emit);
            Copies(ps + [p], packet, emit)
            == if p.Used? then
                 before + [Attempt(Data, p.info.index, Udp(true, p.info.octets, p.info.port, p.info.scope), Some(packet), emit(|before|))]
               else before
  {
    assert (ps + [p])[..|ps|] == ps;
  }

  lemma NoReverses(c: Config, ls: seq<Local>, now: real, emit: nat -> Status)
    ensures Reverses(c, ls, [], now, emit) == []
  {
  }

  lemma ReversesSnoc(c: Config, ls: seq<Local>, ps: seq<Slot>, p: Slot, now: real, emit: nat -> Status)
    ensures var before := Reverses(c, ls, ps, now, emit);
            Reverses(c, ls, ps + [p], now, emit)
            == if p.Used? && Due(p.info, c.timing, now) then
                 before + [Announcement(c, ls, Unicast, p.info.index, ReverseTo(c, p.info), emit(|before|))]
               else before
  {
    assert (ps + [p])[..|ps|] == ps;
  }

  lemma NoBeacons(c: Config, all: seq<Local>, now: real, emit: nat -> Status, before: seq<Attempt>)
    ensures Beacons(c, all, [], now, emit, before) == before
  {
  }

  lemma BeaconsSnoc(c: Config, all: seq<Local>, ls: seq<Local>, l: Local, now: real, emit: nat -> Status, before: seq<Attempt>)
    ensures var sent := Beacons(c, all, ls, now, emit, before);
            Beacons(c, all, ls + [l], now, emit, before)
            == if now >= l.nextAnnounce then
                 sent + [Announcement(c, all, Multicast, l.index, BeaconTo(c, l), emit(|sent|))]
               else sent
  {
    assert (ls + [l])[..|ls|] == ls;
  }

  lemma AnnouncementIgnoresTimers(c: Config, ls: seq<Local>, ms: seq<Local>, kind: Kind, index: nat, destination: Udp, answer: Status)
    requires SameCarriers(ls, ms)
    ensures Announcement(c, ls, kind, index, destination, answer) == Announcement(c, ms, kind, index, destination, answer)
  {
    TokenIgnoresTimers(c, ls, ms, index);
  }
}
