/** Writing a configuration that was read, reading it again and writing it again. */
module ConfigStability {
  import opened Common
  import opened ConfigText
  import opened Config
  import opened ConfigLines
  import opened ConfigKeys
  import opened ConfigRoundTrip

  // ---------------------------------------------------------------- one interface

  /** Read, typed and accepted. */
  predicate Accepted(i: Interface) {
    ItemWell(i) && i.kind.Some? && Validate(i) == Ok
  }

  lemma MissingTextFails(i: Interface, k: Kind)
    requires !Named(i, k)
    ensures AssignAll(Start(i, k), KindPairs(i, k)) == Bad(Protocol)
  {
    hide AssignAll, With, Dec, TimingPairs, TuningPairs;
    var e := Start(i, k);
    match k {
      case TcpServer =>
        AssignWith(e, KListenIp, "", WithIf(true, KListenPort, Dec(i.net.listenPort), []));
      case Udp =>
        var rest := NetPairs(true, KForwardIp, i.net.forwardIp, KForwardPort, i.net.forwardPort, []);
        AssignWith(e, KListenIp, "", WithIf(true, KListenPort, Dec(i.net.listenPort), rest));
      case Kiss =>
        AssignWith(e, KDevice, "", With(KSpeed, Dec(i.serial.speed), TimingPairs(i.serial, LinePairs(i.serial, []))));
      case Rnode =>
        var limits := WithLimit(KShortLimit, i.radio.shortLimit, WithLimit(KLongLimit, i.radio.longLimit, []));
        AssignWith(e, KDevice, "", TuningPairs(i.radio, i.serial.flow, limits));
      case _ =>
    }
  }

  /** The pairs of an accepted interface are read back, unless a text they must name is missing. */
  lemma PairsRead(i: Interface)
    requires Accepted(i)
    ensures AssignAll(Entry(Fresh(i.name), false, false), Pairs(i, i.kind.value))
         == if Named(i, i.kind.value) then Good(Entry(Normal(i, i.kind.value), i.enabled, false)) else Bad(Protocol)
  {
    hide AssignAll, Pairs, KindPairs, Normal, Fresh, ItemWell, Named, Start;
    var k := i.kind.value;
    NotProvider(i);
    HeadReads(i, k);
    if !Named(i, k) {
      MissingTextFails(i, k);
    } else {
      assert i.(kind := Some(k)) == i;
      match k {
        case Auto => AutoReads(i);
        case Kiss => KissReads(i);
        case Rnode => RnodeReads(i);
        case _ => NetReads(i, k);
      }
    }
  }

  lemma NotProvider(i: Interface)
    requires ItemWell(i)
    ensures i.kind != Some(Provider)
  {
  }

  /** What is forgotten is never written. */
  lemma NormalPairs(i: Interface, k: Kind)
    requires !k.Provider?
    ensures Pairs(Normal(i, k), k) == Pairs(i, k)
    ensures Normal(i, k).name == i.name && Normal(i, k).kind == Some(k)
  {
    hide With, Dec, Int, YesNo, KindName, PercentText;
  }

  lemma NormalAccepted(i: Interface, k: Kind)
    requires i.kind == Some(k) && !k.Provider?
    ensures Validate(i) == Ok ==> Validate(Normal(i, k)) == Ok
  {
    hide StartsWith, Or;
  }

  // ---------------------------------------------------------------- what may be written

  lemma WithWritable(k: Key, value: string, rest: seq<Pair>)
    requires Writable(value) && AllWritable(rest)
    ensures AllWritable(With(k, value, rest))
  {
    hide Writable;
  }

  lemma NetPairsWritable(enabled: bool, host: Key, text: string, port: Key, number: nat, rest: seq<Pair>)
    requires Writable(text) && number <= U16 && AllWritable(rest)
    ensures AllWritable(NetPairs(enabled, host, text, port, number, rest))
  {
    hide Writable, AllWritable, With, Dec;
    DecWritable(number);
    WithWritable(port, Dec(number), rest);
    WithWritable(host, text, WithIf(enabled || number != 0, port, Dec(number), rest));
  }

  lemma DiscoveryWords()
    ensures Word("reticulum") && Word("link") && Word("temporary")
  {
  }

  lemma ScopesWritable(d: Discovery)
    requires DiscoveryWell(d)
    ensures Writable(Or(d.group, "reticulum")) && Writable(Or(d.scope, "link")) && Writable(Or(d.addressType, "temporary"))
  {
    hide Writable, Scope, AddressType, Word;
    DiscoveryWords();
    WordWritable("link");
    WordWritable("temporary");
    WordWritable("reticulum");
  }

  lemma NoneWritable()
    ensures AllWritable([])
  {
  }

  lemma DiscoveryPairsWritable(d: Discovery)
    requires DiscoveryWell(d)
    ensures AllWritable(DiscoveryPairs(d, DevicePairs(d, [])))
  {
    hide Writable, AllWritable, With, Dec, Or, Scope, AddressType;
    NoneWritable();
    ScopesWritable(d);
    DecWritable(d.discoveryPort);
    DecWritable(d.dataPort);
    DecWritable(d.bitrate);
    var r8 := WithIf(d.ignored != "", KIgnored, d.ignored, []);
    WithWritable(KIgnored, d.ignored, []);
    var r7 := DevicePairs(d, []);
    WithWritable(KDevices, d.devices, r8);
    var r5 := With(KBitrate, Dec(d.bitrate), r7);
    WithWritable(KBitrate, Dec(d.bitrate), r7);
    var r4 := With(KDataPort, Dec(d.dataPort), r5);
    WithWritable(KDataPort, Dec(d.dataPort), r5);
    var r3 := With(KDiscoveryPort, Dec(d.discoveryPort), r4);
    WithWritable(KDiscoveryPort, Dec(d.discoveryPort), r4);
    var r2 := With(KAddressType, Or(d.addressType, "temporary"), r3);
    WithWritable(KAddressType, Or(d.addressType, "temporary"), r3);
    var r1 := With(KScope, Or(d.scope, "link"), r2);
    WithWritable(KScope, Or(d.scope, "link"), r2);
    WithWritable(KGroup, Or(d.group, "reticulum"), r1);
  }

  lemma LinePairsWritable(p: Serial, rest: seq<Pair>)
    requires SerialWell(p) && AllWritable(rest)
    ensures AllWritable(LinePairs(p, rest))
  {
    hide Writable, AllWritable, With, Dec;
    DecWritable(p.dataBits);
    ParityReads(p.parity);
    DecWritable(p.stopBits);
    var r2 := With(KStopBits, Dec(p.stopBits), rest);
    WithWritable(KStopBits, Dec(p.stopBits), rest);
    WithWritable(KParity, [p.parity], r2);
    WithWritable(KDataBits, Dec(p.dataBits), With(KParity, [p.parity], r2));
  }

  lemma TimingPairsWritable(p: Serial, rest: seq<Pair>)
    requires SerialWell(p) && AllWritable(rest)
    ensures AllWritable(TimingPairs(p, rest))
  {
    hide Writable, AllWritable, With, Dec, YesNo;
    DecWritable(p.preamble);
    DecWritable(p.tail);
    DecWritable(p.persistence);
    DecWritable(p.slot);
    YesNoReads(p.flow);
    var r4 := With(KFlow, YesNo(p.flow), rest);
    WithWritable(KFlow, YesNo(p.flow), rest);
    var r3 := With(KSlot, Dec(p.slot), r4);
    WithWritable(KSlot, Dec(p.slot), r4);
    var r2 := With(KPersistence, Dec(p.persistence), r3);
    WithWritable(KPersistence, Dec(p.persistence), r3);
    WithWritable(KTail, Dec(p.tail), r2);
    WithWritable(KPreamble, Dec(p.preamble), With(KTail, Dec(p.tail), r2));
  }

  lemma LimitWritable(k: Key, limit: Option<nat>, rest: seq<Pair>)
    requires LimitWell(limit) && AllWritable(rest)
    ensures AllWritable(WithLimit(k, limit, rest))
  {
    hide Writable, AllWritable, With, PercentText;
    if limit.Some? {
      PercentWritable(limit.value);
      WithWritable(k, PercentText(limit.value), rest);
    }
  }

  lemma TuningPairsWritable(r: Radio, flow: bool, rest: seq<Pair>)
    requires RadioWell(r) && AllWritable(rest)
    ensures AllWritable(TuningPairs(r, flow, rest))
  {
    hide Writable, AllWritable, With, Dec, Int, YesNo, LimitWell;
    DecWritable(r.frequency);
    DecWritable(r.bandwidth);
    IntWritable(r.power);
    DecWritable(r.spreading);
    DecWritable(r.coding);
    YesNoReads(flow);
    var r5 := With(KFlow, YesNo(flow), rest);
    WithWritable(KFlow, YesNo(flow), rest);
    var r4 := With(KCoding, Dec(r.coding), r5);
    WithWritable(KCoding, Dec(r.coding), r5);
    var r3 := With(KSpreading, Dec(r.spreading), r4);
    WithWritable(KSpreading, Dec(r.spreading), r4);
    var r2 := With(KPower, Int(r.power), r3);
    WithWritable(KPower, Int(r.power), r3);
    WithWritable(KBandwidth, Dec(r.bandwidth), r2);
    WithWritable(KFrequency, Dec(r.frequency), With(KBandwidth, Dec(r.bandwidth), r2));
  }

  lemma KindPairsWritable(i: Interface, k: Kind)
    requires ItemWell(i)
    ensures AllWritable(KindPairs(i, k))
  {
    hide Writable, AllWritable, With, Dec, NetPairs, DiscoveryPairs, DevicePairs, LinePairs, TimingPairs, TuningPairs,
         WithLimit, LimitWell, Clean, DiscoveryWell;
    NoneWritable();
    var n, p, r := i.net, i.serial, i.radio;
    match k {
      case TcpClient => NetPairsWritable(i.enabled, KTargetHost, n.targetHost, KTargetPort, n.targetPort, []);
      case TcpServer => NetPairsWritable(i.enabled, KListenIp, n.listenIp, KListenPort, n.listenPort, []);
      case Udp =>
        var rest := NetPairs(i.enabled, KForwardIp, n.forwardIp, KForwardPort, n.forwardPort, []);
        NetPairsWritable(i.enabled, KForwardIp, n.forwardIp, KForwardPort, n.forwardPort, []);
        NetPairsWritable(i.enabled, KListenIp, n.listenIp, KListenPort, n.listenPort, rest);
      case Auto => DiscoveryPairsWritable(i.discovery);
      case Kiss =>
        LinePairsWritable(p, []);
        TimingPairsWritable(p, LinePairs(p, []));
        DecWritable(p.speed);
        WithWritable(KSpeed, Dec(p.speed), TimingPairs(p, LinePairs(p, [])));
        WithWritable(KDevice, p.device, With(KSpeed, Dec(p.speed), TimingPairs(p, LinePairs(p, []))));
      case Rnode =>
        var long := WithLimit(KLongLimit, r.longLimit, []);
        LimitWritable(KLongLimit, r.longLimit, []);
        LimitWritable(KShortLimit, r.shortLimit, long);
        TuningPairsWritable(r, p.flow, WithLimit(KShortLimit, r.shortLimit, long));
        WithWritable(KDevice, p.device, TuningPairs(r, p.flow, WithLimit(KShortLimit, r.shortLimit, long)));
      case Provider =>
    }
  }

  lemma PairsWritable(i: Interface, k: Kind)
    requires ItemWell(i)
    ensures AllWritable(Pairs(i, k))
  {
    hide Writable, AllWritable, With, KindName, YesNo, KindPairs, ItemWell;
    KindPairsWritable(i, k);
    YesNoReads(i.enabled);
    KindWord(k);
    WithWritable(KEnabled, YesNo(i.enabled), KindPairs(i, k));
    WithWritable(KType, KindName(k), With(KEnabled, YesNo(i.enabled), KindPairs(i, k)));
  }
}
