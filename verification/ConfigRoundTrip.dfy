/** What is written for one interface, and for the instance, is read back. */
module ConfigRoundTrip {
  import opened Common
  import opened ConfigText
  import opened Config
  import opened ConfigLines
  import opened ConfigKeys

  // ---------------------------------------------------------------- what reading keeps true

  predicate Numbered(n: nat, low: nat, high: nat) {
    low <= n <= high
  }

  predicate NetWell(n: Net) {
    && Writable(n.targetHost) && Writable(n.listenIp) && Writable(n.forwardIp)
    && n.targetPort <= U16 && n.listenPort <= U16 && n.forwardPort <= U16
  }

  predicate DiscoveryWell(d: Discovery) {
    && Writable(d.group) && Writable(d.devices) && Writable(d.ignored)
    && (d.scope == "" || (Scope(d.scope) == Some(d.scope) && Writable(d.scope)))
    && (d.addressType == "" || (AddressType(d.addressType) == Some(d.addressType) && Writable(d.addressType)))
    && Numbered(d.discoveryPort, 1, U16) && Numbered(d.dataPort, 1, U16) && Numbered(d.bitrate, 5, U32)
  }

  predicate SerialWell(p: Serial) {
    && Writable(p.device)
    && Numbered(p.speed, 1, U32) && p.preamble <= U16 && p.tail <= U16 && p.slot <= U16 && p.persistence <= U8
    && Numbered(p.dataBits, 5, 8) && Numbered(p.stopBits, 1, 2)
    && (p.parity == 'N' || p.parity == 'E' || p.parity == 'O')
  }

  predicate LimitWell(l: Option<nat>) {
    l.Some? ==> l.value <= 10000
  }

  predicate RadioWell(r: Radio) {
    && r.frequency <= U32 && r.bandwidth <= U32 && -127 <= r.power <= 127
    && r.spreading <= U8 && r.coding <= U8
    && LimitWell(r.shortLimit) && LimitWell(r.longLimit)
  }

  /** What every interface the reader has made satisfies. */
  predicate ItemWell(i: Interface) {
    && Clean(i.name) && 0 < |i.name| < NAME_MAX
    && i.kind != Some(Provider)
    && NetWell(i.net) && DiscoveryWell(i.discovery) && SerialWell(i.serial) && RadioWell(i.radio)
  }

  predicate OptionsWell(o: Options) {
    Writable(o.name) && o.name != "" && Numbered(o.port, 1, U16) && Numbered(o.controlPort, 1, U16)
  }

  // ---------------------------------------------------------------- assigning pairs

  function AssignAll(e: Entry, ps: seq<Pair>): Outcome<Entry>
    decreases ps
  {
    if ps == [] then Good(e)
    else if ps[0].value == "" then Bad(Protocol)
    else
      match Assign(e, ps[0].key, ps[0].value)
      case Bad(status) => Bad(status)
      case Good(next) => AssignAll(next, ps[1..])
  }

  /** The first pair, then the rest. */
  lemma AssignWith(e: Entry, k: Key, value: string, rest: seq<Pair>)
    ensures AssignAll(e, With(k, value, rest))
         == if value == "" then Bad(Protocol)
            else if Assign(e, k, value).Bad? then Bad(Assign(e, k, value).status)
            else AssignAll(Assign(e, k, value).value, rest)
  {
    hide Assign;
    assert With(k, value, rest)[1..] == rest;
  }

  predicate AllWritable(ps: seq<Pair>) {
    forall i :: 0 <= i < |ps| ==> Writable(ps[i].value)
  }

  /** Lines of pairs do to the interface being read what their pairs do. */
  lemma {:induction false} StepPairs(st: State, e: Entry, ps: seq<Pair>)
    requires st.section == Section.Within(e) && AllWritable(ps)
    ensures StepAll(st, PairLines(ps))
         == match AssignAll(e, ps) case Bad(s) => Bad(s) case Good(e') => Good(st.(section := Section.Within(e')))
    decreases ps
  {
    hide Assign, Step, Writable, KeyName, KeyOf, Keyword, PairLine;
    if ps == [] {
      assert st.(section := Section.Within(e)) == st;
    } else {
      var p := ps[0];
      StepPairOf(st, e, p);
      assert PairLines(ps)[0] == PairLine(p) && PairLines(ps)[1..] == PairLines(ps[1..]);
      if p.value != "" && Assign(e, p.key, p.value).Good? {
        var e' := Assign(e, p.key, p.value).value;
        StepPairs(st.(section := Section.Within(e')), e', ps[1..]);
      }
    }
  }

  lemma StepPairOf(st: State, e: Entry, p: Pair)
    requires st.section == Section.Within(e) && Writable(p.value)
    ensures Step(st, PairLine(p))
         == if p.value == "" then Bad(Protocol)
            else match Assign(e, p.key, p.value) case Bad(s) => Bad(s) case Good(e') => Good(st.(section := Section.Within(e')))
  {
    hide Assign, Step, KeyName, KeyOf, Keyword, Clean;
    KeyRead(p.key);
    KeyKeyword(p.key);
    StepPair(st, "    ", KeyName(p.key), p.value);
  }

  // ---------------------------------------------------------------- one interface

  /** The interface a kind of interface is read back as: what its kind does not use is forgotten. */
  function Based(i: Interface, k: Kind): Interface {
    OfKind(Fresh(i.name), k).(enabled := i.enabled)
  }

  function NormalNet(n: Net, k: Kind): Net {
    match k
    case TcpClient => Net(n.targetHost, n.targetPort, "", 0, "", 0)
    case TcpServer => Net("", 0, n.listenIp, n.listenPort, "", 0)
    case Udp => Net("", 0, n.listenIp, n.listenPort, n.forwardIp, n.forwardPort)
    case _ => Net("", 0, "", 0, "", 0)
  }

  function NormalDiscovery(d: Discovery): Discovery {
    Discovery(Or(d.group, "reticulum"), Or(d.scope, "link"), Or(d.addressType, "temporary"), d.devices, d.ignored,
              NumberOr(d.discoveryPort, 29716), NumberOr(d.dataPort, 42671), NumberOr(d.bitrate, 10000000))
  }

  function Normal(i: Interface, k: Kind): Interface {
    var base := Based(i, k);
    match k
    case Auto => base.(discovery := NormalDiscovery(i.discovery))
    case Kiss => base.(serial := i.serial)
    case Rnode => base.(serial := base.serial.(device := i.serial.device, flow := i.serial.flow), radio := i.radio)
    case _ => base.(net := NormalNet(i.net, k))
  }

  /** The texts that are always written for an interface are there. */
  predicate Named(i: Interface, k: Kind) {
    match k
    case TcpServer => i.enabled ==> i.net.listenIp != ""
    case Udp => i.enabled ==> i.net.listenIp != ""
    case Kiss => i.serial.device != ""
    case Rnode => i.serial.device != ""
    case _ => true
  }

  function Start(i: Interface, k: Kind): Entry {
    Entry(Based(i, k), i.enabled, false)
  }

  lemma HeadReads(i: Interface, k: Kind)
    requires !k.Provider?
    ensures AssignAll(Entry(Fresh(i.name), false, false), Pairs(i, k)) == AssignAll(Start(i, k), KindPairs(i, k))
  {
    hide KindName, ParseKind, Boolean, YesNo, Fresh, AssignAll, With, KindPairs, Writable;
    var e := Entry(Fresh(i.name), false, false);
    KindReads(k);
    KindWord(k);
    YesNoReads(i.enabled);
    AssignWith(e, KType, KindName(k), With(KEnabled, YesNo(i.enabled), KindPairs(i, k)));
    AssignWith(e.(item := OfKind(e.item, k)), KEnabled, YesNo(i.enabled), KindPairs(i, k));
  }

  lemma AssignNone(e: Entry)
    ensures AssignAll(e, []) == Good(e)
  {
  }

  // ---------------------------------------------------------------- network

  function NetEntry(e: Entry, n: Net): Entry {
    e.(item := e.item.(net := n))
  }

  lemma NetWith(e: Entry, k: Key, value: string, n: Net, rest: seq<Pair>)
    requires value != "" && IsNet(k) && NetValue(e.item.net, k, value) == Some(n)
    ensures AssignAll(e, With(k, value, rest)) == AssignAll(NetEntry(e, n), rest)
  {
    hide NetValue, AssignAll, With;
    AssignWith(e, k, value, rest);
  }

  function Hosted(n: Net, host: Key, text: string): Net {
    match host
    case KTargetHost => n.(targetHost := text)
    case KListenIp => n.(listenIp := text)
    case _ => n.(forwardIp := text)
  }

  function Ported(n: Net, port: Key, number: nat): Net {
    match port
    case KTargetPort => n.(targetPort := number)
    case KListenPort => n.(listenPort := number)
    case _ => n.(forwardPort := number)
  }

  predicate Fellows(host: Key, port: Key) {
    || (host == KTargetHost && port == KTargetPort)
    || (host == KListenIp && port == KListenPort)
    || (host == KForwardIp && port == KForwardPort)
  }

  /** Writing a text and a port, each only if it says something, and reading them into empty fields. */
  lemma NetPairsRead(e: Entry, enabled: bool, host: Key, text: string, port: Key, number: nat, rest: seq<Pair>)
    requires Fellows(host, port) && Writable(text) && number <= U16
    requires enabled ==> text != "" && number != 0
    requires Hosted(e.item.net, host, "") == e.item.net == Ported(e.item.net, port, 0)
    ensures AssignAll(e, NetPairs(enabled, host, text, port, number, rest))
         == AssignAll(NetEntry(e, Ported(Hosted(e.item.net, host, text), port, number)), rest)
  {
    hide Dec, Number, Clean, AssignAll, With;
    var tail := WithIf(enabled || number != 0, port, Dec(number), rest);
    var n := Hosted(e.item.net, host, text);
    if enabled || text != "" {
      NetWith(e, host, text, n, tail);
    }
    if enabled || number != 0 {
      NumberReads(number, 1, U16);
      NetWith(NetEntry(e, n), port, Dec(number), Ported(n, port, number), rest);
    }
  }

  lemma NetReads(i: Interface, k: Kind)
    requires ItemWell(i) && Named(i, k) && Validate(i.(kind := Some(k))) == Ok
    requires k.TcpClient? || k.TcpServer? || k.Udp?
    ensures AssignAll(Start(i, k), KindPairs(i, k)) == Good(Entry(Normal(i, k), i.enabled, false))
  {
    hide Writable, Dec, NetPairs, AssignAll, DiscoveryWell, SerialWell, RadioWell, Clean;
    var e, n := Start(i, k), i.net;
    AssignNone(Entry(Normal(i, k), i.enabled, false));
    if k.TcpClient? {
      NetPairsRead(e, i.enabled, KTargetHost, n.targetHost, KTargetPort, n.targetPort, []);
    } else if k.TcpServer? {
      NetPairsRead(e, i.enabled, KListenIp, n.listenIp, KListenPort, n.listenPort, []);
    } else {
      var forward := NetPairs(i.enabled, KForwardIp, n.forwardIp, KForwardPort, n.forwardPort, []);
      NetPairsRead(e, i.enabled, KListenIp, n.listenIp, KListenPort, n.listenPort, forward);
      var e' := NetEntry(e, e.item.net.(listenIp := n.listenIp, listenPort := n.listenPort));
      NetPairsRead(e', i.enabled, KForwardIp, n.forwardIp, KForwardPort, n.forwardPort, []);
    }
  }

  // ---------------------------------------------------------------- discovery

  function DiscoveryEntry(e: Entry, d: Discovery): Entry {
    e.(item := e.item.(discovery := d))
  }

  lemma DiscoveryWith(e: Entry, k: Key, value: string, d: Discovery, rest: seq<Pair>)
    requires value != "" && IsDiscovery(k) && DiscoveryValue(e.item.discovery, k, value) == Some(d)
    ensures AssignAll(e, With(k, value, rest)) == AssignAll(DiscoveryEntry(e, d), rest)
  {
    hide DiscoveryValue, AssignAll, With;
    AssignWith(e, k, value, rest);
  }

  lemma ScopesRead(d: Discovery)
    requires DiscoveryWell(d)
    ensures var s := Or(d.scope, "link"); Scope(s) == Some(s) && s != ""
    ensures var t := Or(d.addressType, "temporary"); AddressType(t) == Some(t) && t != ""
    ensures Or(d.group, "reticulum") != "" && Text(Or(d.group, "reticulum")) == Some(Or(d.group, "reticulum"))
  {
    hide Clean;
  }

  lemma DiscoveryPairsRead(e: Entry, d: Discovery, rest: seq<Pair>)
    requires DiscoveryWell(d)
    ensures AssignAll(e, DiscoveryPairs(d, rest))
         == AssignAll(DiscoveryEntry(e, NormalDiscovery(d).(devices := e.item.discovery.devices,
                                                            ignored := e.item.discovery.ignored)), rest)
  {
    hide Dec, Number, Scope, AddressType, Text, Or, Writable, With, AssignAll;
    ScopesRead(d);
    NumberReads(d.discoveryPort, 1, U16);
    NumberReads(d.dataPort, 1, U16);
    NumberReads(d.bitrate, 5, U32);
    var d1 := e.item.discovery.(group := Or(d.group, "reticulum"));
    var d2 := d1.(scope := Or(d.scope, "link"));
    var d3 := d2.(addressType := Or(d.addressType, "temporary"));
    var d4 := d3.(discoveryPort := d.discoveryPort);
    var d5 := d4.(dataPort := d.dataPort);
    var d6 := d5.(bitrate := d.bitrate);
    var r5 := With(KBitrate, Dec(d.bitrate), rest);
    var r4 := With(KDataPort, Dec(d.dataPort), r5);
    var r3 := With(KDiscoveryPort, Dec(d.discoveryPort), r4);
    var r2 := With(KAddressType, Or(d.addressType, "temporary"), r3);
    var r1 := With(KScope, Or(d.scope, "link"), r2);
    DiscoveryWith(e, KGroup, Or(d.group, "reticulum"), d1, r1);
    DiscoveryWith(DiscoveryEntry(e, d1), KScope, Or(d.scope, "link"), d2, r2);
    DiscoveryWith(DiscoveryEntry(e, d2), KAddressType, Or(d.addressType, "temporary"), d3, r3);
    DiscoveryWith(DiscoveryEntry(e, d3), KDiscoveryPort, Dec(d.discoveryPort), d4, r4);
    DiscoveryWith(DiscoveryEntry(e, d4), KDataPort, Dec(d.dataPort), d5, r5);
    DiscoveryWith(DiscoveryEntry(e, d5), KBitrate, Dec(d.bitrate), d6, rest);
  }

  lemma DevicePairsRead(e: Entry, d: Discovery)
    requires DiscoveryWell(d) && e.item.discovery.devices == "" && e.item.discovery.ignored == ""
    ensures AssignAll(e, DevicePairs(d, []))
         == Good(DiscoveryEntry(e, e.item.discovery.(devices := d.devices, ignored := d.ignored)))
  {
    hide Clean, With, AssignAll, Scope, AddressType;
    var d1 := e.item.discovery.(devices := d.devices);
    var d2 := d1.(ignored := d.ignored);
    AssignNone(DiscoveryEntry(e, d2));
    if d.devices != "" {
      DiscoveryWith(e, KDevices, d.devices, d1, WithIf(d.ignored != "", KIgnored, d.ignored, []));
    }
    if d.ignored != "" {
      DiscoveryWith(DiscoveryEntry(e, d1), KIgnored, d.ignored, d2, []);
    }
  }

  lemma AutoReads(i: Interface)
    requires ItemWell(i)
    ensures AssignAll(Start(i, Auto), KindPairs(i, Auto)) == Good(Entry(Normal(i, Auto), i.enabled, false))
  {
    hide AssignAll, Clean, Or, NetWell, SerialWell, RadioWell, DiscoveryPairs, DevicePairs, DiscoveryWell;
    var e, d := Start(i, Auto), i.discovery;
    DiscoveryPairsRead(e, d, DevicePairs(d, []));
    DevicePairsRead(DiscoveryEntry(e, NormalDiscovery(d).(devices := "", ignored := "")), d);
  }

  // ---------------------------------------------------------------- serial

  function SerialEntry(e: Entry, p: Serial): Entry {
    e.(item := e.item.(serial := p))
  }

  lemma SerialWith(e: Entry, k: Key, value: string, p: Serial, rest: seq<Pair>)
    requires value != "" && IsSerial(k) && SerialValue(e.item.serial, k, value) == Some(p)
    ensures AssignAll(e, With(k, value, rest)) == AssignAll(SerialEntry(e, p), rest)
  {
    hide SerialValue, AssignAll, With;
    AssignWith(e, k, value, rest);
  }

  lemma PreambleValue(q: Serial, v: nat)
    requires v <= U16
    ensures SerialValue(q, KPreamble, Dec(v)) == Some(q.(preamble := v))
  {
    hide Dec, Number, Writable;
    NumberReads(v, 0, U16);
  }

  lemma TailValue(q: Serial, v: nat)
    requires v <= U16
    ensures SerialValue(q, KTail, Dec(v)) == Some(q.(tail := v))
  {
    hide Dec, Number, Writable;
    NumberReads(v, 0, U16);
  }

  lemma PersistenceValue(q: Serial, v: nat)
    requires v <= U8
    ensures SerialValue(q, KPersistence, Dec(v)) == Some(q.(persistence := v))
  {
    hide Dec, Number, Writable;
    NumberReads(v, 0, U8);
  }

  lemma SlotValue(q: Serial, v: nat)
    requires v <= U16
    ensures SerialValue(q, KSlot, Dec(v)) == Some(q.(slot := v))
  {
    hide Dec, Number, Writable;
    NumberReads(v, 0, U16);
  }

  lemma DataBitsValue(q: Serial, v: nat)
    requires 5 <= v <= 8
    ensures SerialValue(q, KDataBits, Dec(v)) == Some(q.(dataBits := v))
  {
    hide Dec, Number, Writable;
    NumberReads(v, 5, 8);
  }

  lemma StopBitsValue(q: Serial, v: nat)
    requires 1 <= v <= 2
    ensures SerialValue(q, KStopBits, Dec(v)) == Some(q.(stopBits := v))
  {
    hide Dec, Number, Writable;
    NumberReads(v, 1, 2);
  }

  lemma SpeedValue(q: Serial, v: nat)
    requires 1 <= v <= U32
    ensures SerialValue(q, KSpeed, Dec(v)) == Some(q.(speed := v))
  {
    hide Dec, Number, Writable;
    NumberReads(v, 1, U32);
  }

  lemma FlowValue(q: Serial, v: bool)
    ensures YesNo(v) != ""
    ensures SerialValue(q, KFlow, YesNo(v)) == Some(q.(flow := v))
  {
    hide Writable, YesNo, Boolean;
    YesNoReads(v);
  }

  lemma ParityValue(q: Serial, v: char)
    requires v == 'N' || v == 'E' || v == 'O'
    ensures SerialValue(q, KParity, [v]) == Some(q.(parity := v))
  {
    hide Writable, Parity;
    ParityReads(v);
  }

  lemma TimingPairsRead(e: Entry, p: Serial, rest: seq<Pair>)
    requires SerialWell(p)
    ensures AssignAll(e, TimingPairs(p, rest))
         == AssignAll(SerialEntry(e, e.item.serial.(preamble := p.preamble, tail := p.tail,
                                                    persistence := p.persistence, slot := p.slot, flow := p.flow)), rest)
  {
    hide Dec, SerialValue, Writable, YesNo, With, AssignAll;
    var p1 := e.item.serial.(preamble := p.preamble);
    var p2 := p1.(tail := p.tail);
    var p3 := p2.(persistence := p.persistence);
    var p4 := p3.(slot := p.slot);
    var p5 := p4.(flow := p.flow);
    PreambleValue(e.item.serial, p.preamble);
    TailValue(p1, p.tail);
    PersistenceValue(p2, p.persistence);
    SlotValue(p3, p.slot);
    FlowValue(p4, p.flow);
    var r4 := With(KFlow, YesNo(p.flow), rest);
    var r3 := With(KSlot, Dec(p.slot), r4);
    var r2 := With(KPersistence, Dec(p.persistence), r3);
    var r1 := With(KTail, Dec(p.tail), r2);
    SerialWith(e, KPreamble, Dec(p.preamble), p1, r1);
    SerialWith(SerialEntry(e, p1), KTail, Dec(p.tail), p2, r2);
    SerialWith(SerialEntry(e, p2), KPersistence, Dec(p.persistence), p3, r3);
    SerialWith(SerialEntry(e, p3), KSlot, Dec(p.slot), p4, r4);
    SerialWith(SerialEntry(e, p4), KFlow, YesNo(p.flow), p5, rest);
  }

  lemma LinePairsRead(e: Entry, p: Serial, rest: seq<Pair>)
    requires SerialWell(p)
    ensures AssignAll(e, LinePairs(p, rest))
         == AssignAll(SerialEntry(e, e.item.serial.(dataBits := p.dataBits, parity := p.parity, stopBits := p.stopBits)), rest)
  {
    hide Dec, SerialValue, Writable, With, AssignAll;
    var p1 := e.item.serial.(dataBits := p.dataBits);
    var p2 := p1.(parity := p.parity);
    var p3 := p2.(stopBits := p.stopBits);
    DataBitsValue(e.item.serial, p.dataBits);
    ParityValue(p1, p.parity);
    StopBitsValue(p2, p.stopBits);
    var r2 := With(KStopBits, Dec(p.stopBits), rest);
    var r1 := With(KParity, [p.parity], r2);
    SerialWith(e, KDataBits, Dec(p.dataBits), p1, r1);
    SerialWith(SerialEntry(e, p1), KParity, [p.parity], p2, r2);
    SerialWith(SerialEntry(e, p2), KStopBits, Dec(p.stopBits), p3, rest);
  }

  lemma KissReads(i: Interface)
    requires ItemWell(i) && Named(i, Kiss)
    ensures AssignAll(Start(i, Kiss), KindPairs(i, Kiss)) == Good(Entry(Normal(i, Kiss), i.enabled, false))
  {
    hide Dec, Number, AssignAll, NetWell, DiscoveryWell, RadioWell, Clean, With, TimingPairs, LinePairs;
    var e, p := Start(i, Kiss), i.serial;
    var line := LinePairs(p, []);
    var timing := TimingPairs(p, line);
    var p1 := e.item.serial.(device := p.device);
    var p2 := p1.(speed := p.speed);
    var p3 := p2.(preamble := p.preamble, tail := p.tail, persistence := p.persistence, slot := p.slot, flow := p.flow);
    SpeedValue(p1, p.speed);
    SerialWith(e, KDevice, p.device, p1, With(KSpeed, Dec(p.speed), timing));
    SerialWith(SerialEntry(e, p1), KSpeed, Dec(p.speed), p2, timing);
    TimingPairsRead(SerialEntry(e, p2), p, line);
    LinePairsRead(SerialEntry(e, p3), p, []);
    AssignNone(SerialEntry(e, p));
  }

  // ---------------------------------------------------------------- radio

  function RadioEntry(e: Entry, r: Radio): Entry {
    e.(item := e.item.(radio := r))
  }

  predicate IsRadio(k: Key) {
    k.KFrequency? || k.KBandwidth? || k.KPower? || k.KSpreading? || k.KCoding? || k.KShortLimit? || k.KLongLimit?
  }

  lemma RadioWith(e: Entry, k: Key, value: string, r: Radio, rest: seq<Pair>)
    requires value != "" && IsRadio(k) && RadioValue(e.item.radio, k, value) == Some(r)
    ensures AssignAll(e, With(k, value, rest)) == AssignAll(RadioEntry(e, r), rest)
  {
    hide RadioValue, AssignAll, With;
    AssignWith(e, k, value, rest);
  }

  lemma FrequencyValue(q: Radio, v: nat)
    requires v <= U32
    ensures RadioValue(q, KFrequency, Dec(v)) == Some(q.(frequency := v))
  {
    hide Dec, Number, Writable, Percent, Signed;
    NumberReads(v, 0, U32);
  }

  lemma BandwidthValue(q: Radio, v: nat)
    requires v <= U32
    ensures RadioValue(q, KBandwidth, Dec(v)) == Some(q.(bandwidth := v))
  {
    hide Dec, Number, Writable, Percent, Signed;
    NumberReads(v, 0, U32);
  }

  lemma SpreadingValue(q: Radio, v: nat)
    requires v <= U8
    ensures RadioValue(q, KSpreading, Dec(v)) == Some(q.(spreading := v))
  {
    hide Dec, Number, Writable, Percent, Signed;
    NumberReads(v, 0, U8);
  }

  lemma CodingValue(q: Radio, v: nat)
    requires v <= U8
    ensures RadioValue(q, KCoding, Dec(v)) == Some(q.(coding := v))
  {
    hide Dec, Number, Writable, Percent, Signed;
    NumberReads(v, 0, U8);
  }

  lemma PowerValue(q: Radio, v: int)
    requires -127 <= v <= 127
    ensures RadioValue(q, KPower, Int(v)) == Some(q.(power := v))
  {
    hide Int, Number, Percent, Signed;
    IntSigned(v, -127, 127);
  }

  lemma TuningPairsRead(e: Entry, r: Radio, flow: bool, rest: seq<Pair>)
    requires RadioWell(r)
    ensures AssignAll(e, TuningPairs(r, flow, rest))
         == AssignAll(SerialEntry(RadioEntry(e, r.(shortLimit := e.item.radio.shortLimit, longLimit := e.item.radio.longLimit)),
                                  e.item.serial.(flow := flow)), rest)
  {
    hide Dec, Int, RadioValue, LimitWell, SerialValue, YesNo, With, AssignAll;
    var r1 := e.item.radio.(frequency := r.frequency);
    var r2 := r1.(bandwidth := r.bandwidth);
    var r3 := r2.(power := r.power);
    var r4 := r3.(spreading := r.spreading);
    var r5 := r4.(coding := r.coding);
    FrequencyValue(e.item.radio, r.frequency);
    BandwidthValue(r1, r.bandwidth);
    PowerValue(r2, r.power);
    SpreadingValue(r3, r.spreading);
    CodingValue(r4, r.coding);
    FlowValue(e.item.serial, flow);
    var t5 := With(KFlow, YesNo(flow), rest);
    var t4 := With(KCoding, Dec(r.coding), t5);
    var t3 := With(KSpreading, Dec(r.spreading), t4);
    var t2 := With(KPower, Int(r.power), t3);
    var t1 := With(KBandwidth, Dec(r.bandwidth), t2);
    RadioWith(e, KFrequency, Dec(r.frequency), r1, t1);
    RadioWith(RadioEntry(e, r1), KBandwidth, Dec(r.bandwidth), r2, t2);
    RadioWith(RadioEntry(e, r2), KPower, Int(r.power), r3, t3);
    RadioWith(RadioEntry(e, r3), KSpreading, Dec(r.spreading), r4, t4);
    RadioWith(RadioEntry(e, r4), KCoding, Dec(r.coding), r5, t5);
    SerialWith(RadioEntry(e, r5), KFlow, YesNo(flow), e.item.serial.(flow := flow), rest);
  }

  function Limited(r: Radio, k: Key, limit: Option<nat>): Radio {
    if k.KShortLimit? then r.(shortLimit := limit) else r.(longLimit := limit)
  }

  lemma LimitReads(e: Entry, k: Key, limit: Option<nat>, rest: seq<Pair>)
    requires LimitWell(limit) && (k.KShortLimit? || k.KLongLimit?)
    requires Limited(e.item.radio, k, None) == e.item.radio
    ensures AssignAll(e, WithLimit(k, limit, rest)) == AssignAll(RadioEntry(e, Limited(e.item.radio, k, limit)), rest)
  {
    hide Percent, PercentText, Writable, AssignAll, With;
    if limit.Some? {
      PercentReads(limit.value);
      PercentWritable(limit.value);
      RadioWith(e, k, PercentText(limit.value), Limited(e.item.radio, k, limit), rest);
    }
  }

  lemma RnodeReads(i: Interface)
    requires ItemWell(i) && Named(i, Rnode)
    ensures AssignAll(Start(i, Rnode), KindPairs(i, Rnode)) == Good(Entry(Normal(i, Rnode), i.enabled, false))
  {
    hide AssignAll, Clean, NetWell, DiscoveryWell, TuningPairs, WithLimit, LimitWell, With;
    var e, r := Start(i, Rnode), i.radio;
    var long := WithLimit(KLongLimit, r.longLimit, []);
    var limits := WithLimit(KShortLimit, r.shortLimit, long);
    var tuning := TuningPairs(r, i.serial.flow, limits);
    var e1 := SerialEntry(e, e.item.serial.(device := i.serial.device));
    var e2 := SerialEntry(RadioEntry(e1, r.(shortLimit := None, longLimit := None)), e1.item.serial.(flow := i.serial.flow));
    var e3 := RadioEntry(e2, r.(longLimit := None));
    SerialWith(e, KDevice, i.serial.device, e1.item.serial, tuning);
    TuningPairsRead(e1, r, i.serial.flow, limits);
    LimitReads(e2, KShortLimit, r.shortLimit, long);
    LimitReads(e3, KLongLimit, r.longLimit, []);
    AssignNone(RadioEntry(e3, r));
  }
}
