/** The configuration file: its reader, its checks and its writer. */
module Config {
  import opened Common
  import opened ConfigText

  const LINE_MAX := 512
  const NAME_MAX := 64
  const VALUE_MAX := 128
  const MAX_INTERFACES := 16

  datatype Outcome<+T> = Good(value: T) | Bad(status: Status)

  datatype Kind = TcpClient | TcpServer | Udp | Auto | Kiss | Rnode | Provider

  function KindName(k: Kind): string {
    match k
    case TcpClient => "TCPClientInterface"
    case TcpServer => "TCPServerInterface"
    case Udp => "UDPInterface"
    case Auto => "AutoInterface"
    case Kiss => "KISSInterface"
    case Rnode => "RNodeInterface"
    case Provider => "RuntimeProvider"
  }

  datatype Options = Options(
    transport: bool, share: bool, panic: bool, unix: bool, name: string, port: nat, controlPort: nat)

  datatype Net = Net(
    targetHost: string, targetPort: nat, listenIp: string, listenPort: nat, forwardIp: string, forwardPort: nat)

  datatype Discovery = Discovery(
    group: string, scope: string, addressType: string, devices: string, ignored: string,
    discoveryPort: nat, dataPort: nat, bitrate: nat)

  datatype Serial = Serial(
    device: string, speed: nat, preamble: nat, tail: nat, slot: nat, persistence: nat,
    dataBits: nat, parity: char, stopBits: nat, flow: bool)

  datatype Radio = Radio(
    frequency: nat, bandwidth: nat, power: int, spreading: nat, coding: nat,
    shortLimit: Option<nat>, longLimit: Option<nat>)

  datatype Interface = Interface(
    name: string, kind: Option<Kind>, enabled: bool, net: Net, discovery: Discovery, serial: Serial, radio: Radio)

  datatype Config = Config(options: Options, interfaces: seq<Interface>)

  function DefaultOptions(): Options {
    Options(false, true, false, false, "default", 37428, 37429)
  }

  /** An interface as its heading leaves it. */
  function Fresh(name: string): Interface {
    Interface(name, None, false,
              Net("", 0, "", 0, "", 0),
              Discovery("", "", "", "", "", 29716, 42671, 10000000),
              Serial("", 9600, 350, 20, 20, 64, 8, 'N', 1, false),
              Radio(0, 0, 0, 0, 0, None, None))
  }

  // ---------------------------------------------------------------- values

  function Boolean(s: string): Option<bool> {
    if Same(s, "yes") || Same(s, "true") || Same(s, "on") || s == "1" then Some(true)
    else if Same(s, "no") || Same(s, "false") || Same(s, "off") || s == "0" then Some(false)
    else None
  }

  function ParseKind(s: string): Option<Kind> {
    if Same(s, KindName(TcpClient)) then Some(TcpClient)
    else if Same(s, KindName(TcpServer)) then Some(TcpServer)
    else if Same(s, KindName(Udp)) then Some(Udp)
    else if Same(s, KindName(Auto)) then Some(Auto)
    else if Same(s, KindName(Kiss)) then Some(Kiss)
    else if Same(s, KindName(Rnode)) then Some(Rnode)
    else None
  }

  function Scope(s: string): Option<string> {
    if Same(s, "link") then Some("link")
    else if Same(s, "admin") then Some("admin")
    else if Same(s, "site") then Some("site")
    else if Same(s, "organisation") then Some("organisation")
    else if Same(s, "global") then Some("global")
    else None
  }

  function AddressType(s: string): Option<string> {
    if Same(s, "temporary") then Some("temporary")
    else if Same(s, "permanent") then Some("permanent")
    else None
  }

  function Parity(s: string): Option<char> {
    if Same(s, "N") || Same(s, "none") then Some('N')
    else if Same(s, "E") || Same(s, "even") then Some('E')
    else if Same(s, "O") || Same(s, "odd") then Some('O')
    else None
  }

  /** A text that fits its field. */
  function Text(s: string): Option<string> {
    if |s| < VALUE_MAX then Some(s) else None
  }

  /** A number within bounds. */
  function Number(s: string, low: nat, high: nat): Option<nat> {
    match Unsigned(s, high)
    case Some(n) => if n >= low then Some(n) else None
    case None => None
  }

  const U8 := 0xff
  const U16 := 0xffff
  const U32 := 0xffff_ffff

  // ---------------------------------------------------------------- options of an interface

  datatype Key =
    | KType | KEnabled | KLegacyEnabled
    | KTargetHost | KTargetPort | KListenIp | KListenPort | KForwardIp | KForwardPort
    | KGroup | KScope | KAddressType | KDiscoveryPort | KDataPort | KBitrate | KDevices | KIgnored
    | KDevice | KSpeed | KPreamble | KTail | KSlot | KPersistence | KFlow | KDataBits | KParity | KStopBits
    | KFrequency | KBandwidth | KPower | KSpreading | KCoding | KShortLimit | KLongLimit

  /** The spelling the writer uses. */
  function KeyName(k: Key): string {
    match k
    case KType => "type"
    case KEnabled => "enabled"
    case KLegacyEnabled => "interface_enabled"
    case KTargetHost => "target_host"
    case KTargetPort => "target_port"
    case KListenIp => "listen_ip"
    case KListenPort => "listen_port"
    case KForwardIp => "forward_ip"
    case KForwardPort => "forward_port"
    case KGroup => "group_id"
    case KScope => "discovery_scope"
    case KAddressType => "multicast_address_type"
    case KDiscoveryPort => "discovery_port"
    case KDataPort => "data_port"
    case KBitrate => "configured_bitrate"
    case KDevices => "devices"
    case KIgnored => "ignored_devices"
    case KDevice => "port"
    case KSpeed => "speed"
    case KPreamble => "preamble"
    case KTail => "txtail"
    case KSlot => "slottime"
    case KPersistence => "persistence"
    case KFlow => "flow_control"
    case KDataBits => "databits"
    case KParity => "parity"
    case KStopBits => "stopbits"
    case KFrequency => "frequency"
    case KBandwidth => "bandwidth"
    case KPower => "txpower"
    case KSpreading => "spreadingfactor"
    case KCoding => "codingrate"
    case KShortLimit => "airtime_limit_short"
    case KLongLimit => "airtime_limit_long"
  }

  function ShortKey(s: string): Option<Key> {
    if s == "type" then Some(KType)
    else if s == "enabled" then Some(KEnabled)
    else if s == "devices" then Some(KDevices)
    else if s == "bitrate" then Some(KBitrate)
    else if s == "port" then Some(KDevice)
    else if s == "speed" then Some(KSpeed)
    else if s == "txtail" then Some(KTail)
    else if s == "parity" then Some(KParity)
    else if s == "txpower" then Some(KPower)
    else None
  }

  function MiddleKey(s: string): Option<Key> {
    if s == "listen_ip" then Some(KListenIp)
    else if s == "group_id" then Some(KGroup)
    else if s == "data_port" then Some(KDataPort)
    else if s == "preamble" then Some(KPreamble)
    else if s == "slottime" then Some(KSlot)
    else if s == "databits" then Some(KDataBits)
    else if s == "stopbits" then Some(KStopBits)
    else if s == "frequency" then Some(KFrequency)
    else if s == "bandwidth" then Some(KBandwidth)
    else if s == "tx_power" then Some(KPower)
    else None
  }

  function LongKey(s: string): Option<Key> {
    if s == "target_host" then Some(KTargetHost)
    else if s == "forward_ip" then Some(KForwardIp)
    else if s == "target_port" then Some(KTargetPort)
    else if s == "listen_port" then Some(KListenPort)
    else if s == "forward_port" then Some(KForwardPort)
    else if s == "persistence" then Some(KPersistence)
    else if s == "flow_control" then Some(KFlow)
    else if s == "codingrate" then Some(KCoding)
    else if s == "coding_rate" then Some(KCoding)
    else None
  }

  function LongestKey(s: string): Option<Key> {
    if s == "interface_enabled" then Some(KLegacyEnabled)
    else if s == "ignored_devices" then Some(KIgnored)
    else if s == "discovery_scope" then Some(KScope)
    else if s == "multicast_address_type" then Some(KAddressType)
    else if s == "discovery_port" then Some(KDiscoveryPort)
    else if s == "configured_bitrate" then Some(KBitrate)
    else if s == "airtime_limit_short" then Some(KShortLimit)
    else if s == "airtime_limit_long" then Some(KLongLimit)
    else if s == "spreadingfactor" then Some(KSpreading)
    else if s == "spreading_factor" then Some(KSpreading)
    else None
  }

  /** The spellings the reader knows, grouped by length. */
  function KeyOf(s: string): Option<Key> {
    if |s| <= 7 then ShortKey(s)
    else if |s| <= 9 then MiddleKey(s)
    else if |s| <= 12 then LongKey(s)
    else LongestKey(s)
  }

  function NetValue(n: Net, k: Key, s: string): Option<Net> {
    match k
    case KTargetHost => (match Text(s) case Some(v) => Some(n.(targetHost := v)) case None => None)
    case KTargetPort => (match Number(s, 1, U16) case Some(v) => Some(n.(targetPort := v)) case None => None)
    case KListenIp => (match Text(s) case Some(v) => Some(n.(listenIp := v)) case None => None)
    case KListenPort => (match Number(s, 1, U16) case Some(v) => Some(n.(listenPort := v)) case None => None)
    case KForwardIp => (match Text(s) case Some(v) => Some(n.(forwardIp := v)) case None => None)
    case KForwardPort => (match Number(s, 1, U16) case Some(v) => Some(n.(forwardPort := v)) case None => None)
    case _ => None
  }

  function DiscoveryValue(d: Discovery, k: Key, s: string): Option<Discovery> {
    match k
    case KGroup => (match Text(s) case Some(v) => Some(d.(group := v)) case None => None)
    case KScope => (match Scope(s) case Some(v) => Some(d.(scope := v)) case None => None)
    case KAddressType => (match AddressType(s) case Some(v) => Some(d.(addressType := v)) case None => None)
    case KDiscoveryPort => (match Number(s, 1, U16) case Some(v) => Some(d.(discoveryPort := v)) case None => None)
    case KDataPort => (match Number(s, 1, U16) case Some(v) => Some(d.(dataPort := v)) case None => None)
    case KBitrate => (match Number(s, 5, U32) case Some(v) => Some(d.(bitrate := v)) case None => None)
    case KDevices => (match Text(s) case Some(v) => Some(d.(devices := v)) case None => None)
    case KIgnored => (match Text(s) case Some(v) => Some(d.(ignored := v)) case None => None)
    case _ => None
  }

  function SerialValue(p: Serial, k: Key, s: string): Option<Serial> {
    match k
    case KDevice => (match Text(s) case Some(v) => Some(p.(device := v)) case None => None)
    case KSpeed => (match Number(s, 1, U32) case Some(v) => Some(p.(speed := v)) case None => None)
    case KPreamble => (match Number(s, 0, U16) case Some(v) => Some(p.(preamble := v)) case None => None)
    case KTail => (match Number(s, 0, U16) case Some(v) => Some(p.(tail := v)) case None => None)
    case KSlot => (match Number(s, 0, U16) case Some(v) => Some(p.(slot := v)) case None => None)
    case KPersistence => (match Number(s, 0, U8) case Some(v) => Some(p.(persistence := v)) case None => None)
    case KFlow => (match Boolean(s) case Some(v) => Some(p.(flow := v)) case None => None)
    case KDataBits => (match Number(s, 5, 8) case Some(v) => Some(p.(dataBits := v)) case None => None)
    case KParity => (match Parity(s) case Some(v) => Some(p.(parity := v)) case None => None)
    case KStopBits => (match Number(s, 1, 2) case Some(v) => Some(p.(stopBits := v)) case None => None)
    case _ => None
  }

  function RadioValue(r: Radio, k: Key, s: string): Option<Radio> {
    match k
    case KFrequency => (match Number(s, 0, U32) case Some(v) => Some(r.(frequency := v)) case None => None)
    case KBandwidth => (match Number(s, 0, U32) case Some(v) => Some(r.(bandwidth := v)) case None => None)
    case KPower => (match Signed(s, -127, 127) case Some(v) => Some(r.(power := v)) case None => None)
    case KSpreading => (match Number(s, 0, U8) case Some(v) => Some(r.(spreading := v)) case None => None)
    case KCoding => (match Number(s, 0, U8) case Some(v) => Some(r.(coding := v)) case None => None)
    case KShortLimit => (match Percent(s) case Some(v) => Some(r.(shortLimit := Some(v))) case None => None)
    case KLongLimit => (match Percent(s) case Some(v) => Some(r.(longLimit := Some(v))) case None => None)
    case _ => None
  }

  predicate IsNet(k: Key) {
    k.KTargetHost? || k.KTargetPort? || k.KListenIp? || k.KListenPort? || k.KForwardIp? || k.KForwardPort?
  }

  predicate IsDiscovery(k: Key) {
    || k.KGroup? || k.KScope? || k.KAddressType? || k.KDiscoveryPort? || k.KDataPort? || k.KBitrate?
    || k.KDevices? || k.KIgnored?
  }

  predicate IsSerial(k: Key) {
    || k.KDevice? || k.KSpeed? || k.KPreamble? || k.KTail? || k.KSlot? || k.KPersistence? || k.KFlow?
    || k.KDataBits? || k.KParity? || k.KStopBits?
  }

  function OfKind(i: Interface, k: Kind): Interface {
    i.(kind := Some(k),
       serial := if k == Rnode && i.serial.speed == 9600 then i.serial.(speed := 115200) else i.serial)
  }

  /** An interface being read, and what each spelling of "enabled" last said. */
  datatype Entry = Entry(item: Interface, enabled: bool, legacy: bool)

  /** Sets one option; an interface is enabled when either spelling says so. */
  function Assign(e: Entry, k: Key, s: string): Outcome<Entry> {
    if k == KType then
      match ParseKind(s)
      case Some(kind) => Good(e.(item := OfKind(e.item, kind)))
      case None => Bad(Unsupported)
    else if k == KEnabled then
      match Boolean(s)
      case Some(b) => Good(Entry(e.item.(enabled := b || e.legacy), b, e.legacy))
      case None => Bad(Protocol)
    else if k == KLegacyEnabled then
      match Boolean(s)
      case Some(b) => Good(Entry(e.item.(enabled := e.enabled || b), e.enabled, b))
      case None => Bad(Protocol)
    else if IsNet(k) then
      match NetValue(e.item.net, k, s)
      case Some(v) => Good(e.(item := e.item.(net := v)))
      case None => Bad(Protocol)
    else if IsDiscovery(k) then
      match DiscoveryValue(e.item.discovery, k, s)
      case Some(v) => Good(e.(item := e.item.(discovery := v)))
      case None => Bad(Protocol)
    else if IsSerial(k) then
      match SerialValue(e.item.serial, k, s)
      case Some(v) => Good(e.(item := e.item.(serial := v)))
      case None => Bad(Protocol)
    else
      match RadioValue(e.item.radio, k, s)
      case Some(v) => Good(e.(item := e.item.(radio := v)))
      case None => Bad(Protocol)
  }

  // ---------------------------------------------------------------- options of the instance

  datatype OptionKey = OTransport | OShare | OPanic | OType | OName | OPort | OControlPort

  function OptionName(k: OptionKey): string {
    match k
    case OTransport => "enable_transport"
    case OShare => "share_instance"
    case OPanic => "panic_on_interface_error"
    case OType => "shared_instance_type"
    case OName => "instance_name"
    case OPort => "shared_instance_port"
    case OControlPort => "instance_control_port"
  }

  function OptionOf(s: string): Option<OptionKey> {
    if s == "enable_transport" then Some(OTransport)
    else if s == "share_instance" then Some(OShare)
    else if s == "panic_on_interface_error" then Some(OPanic)
    else if s == "shared_instance_type" then Some(OType)
    else if s == "instance_name" then Some(OName)
    else if s == "shared_instance_port" || s == "instance_data_port" then Some(OPort)
    else if s == "instance_control_port" then Some(OControlPort)
    else None
  }

  function SharedType(s: string): Option<bool> {
    if Same(s, "tcp") then Some(false) else if Same(s, "unix") then Some(true) else None
  }

  function SetOption(o: Options, k: OptionKey, s: string): Option<Options> {
    match k
    case OTransport => (match Boolean(s) case Some(v) => Some(o.(transport := v)) case None => None)
    case OShare => (match Boolean(s) case Some(v) => Some(o.(share := v)) case None => None)
    case OPanic => (match Boolean(s) case Some(v) => Some(o.(panic := v)) case None => None)
    case OType => (match SharedType(s) case Some(v) => Some(o.(unix := v)) case None => None)
    case OName => (match Text(s) case Some(v) => Some(o.(name := v)) case None => None)
    case OPort => (match Number(s, 1, U16) case Some(v) => Some(o.(port := v)) case None => None)
    case OControlPort => (match Number(s, 1, U16) case Some(v) => Some(o.(controlPort := v)) case None => None)
  }

  // ---------------------------------------------------------------- lines

  datatype Section = Outside | Reticulum | Interfaces | Within(entry: Entry)

  datatype State = State(options: Options, finished: seq<Interface>, section: Section) {
    /** Every interface so far, the one being read last. */
    function All(): seq<Interface> {
      if section.Within? then finished + [section.entry.item] else finished
    }
  }

  function Initial(): State {
    State(DefaultOptions(), [], Outside)
  }

  function Heading(st: State, c: string): Outcome<State>
    requires c != "" && c[0] == '['
  {
    var n := |c|;
    if n >= 4 && c[1] == '[' && c[n - 2] == ']' && c[n - 1] == ']' then
      var name := Trim(c[2..n - 2]);
      if !st.section.Interfaces? && !st.section.Within? then Bad(Protocol)
      else if name == "" || |st.All()| >= MAX_INTERFACES || |name| >= NAME_MAX then Bad(Overflow)
      else Good(State(st.options, st.All(), Section.Within(Entry(Fresh(name), false, false))))
    else if n >= 2 && c[n - 1] == ']' then
      var name := Trim(c[1..n - 1]);
      if name == "reticulum" then Good(State(st.options, st.All(), Reticulum))
      else if name == "interfaces" then Good(State(st.options, st.All(), Interfaces))
      else Bad(Unsupported)
    else Bad(Protocol)
  }

  function Dispatch(st: State, key: string, value: string): Outcome<State> {
    match st.section
    case Reticulum => (
      match OptionOf(key)
      case None => Bad(Unsupported)
      case Some(k) =>
        match SetOption(st.options, k, value)
        case None => Bad(Protocol)
        case Some(o) => Good(st.(options := o)))
    case Within(e) => (
      match KeyOf(key)
      case None => Bad(Unsupported)
      case Some(k) =>
        match Assign(e, k, value)
        case Bad(status) => Bad(status)
        case Good(e') => Good(st.(section := Section.Within(e'))))
    case _ => Bad(Protocol)
  }

  function Setting(st: State, c: string): Outcome<State> {
    var i := Scan(c, "=");
    if i == |c| then Bad(Protocol)
    else
      var key, value := Trim(c[..i]), Trim(c[i + 1..]);
      if key == "" || value == "" then Bad(Protocol) else Dispatch(st, key, value)
  }

  function WithoutReturn(raw: string): string {
    if raw != "" && raw[|raw| - 1] == '\r' then raw[..|raw| - 1] else raw
  }

  /** What is left of a line without its comment and the white space around it. */
  function Content(line: string): string {
    Trim(line[..Scan(line, "#;")])
  }

  function Step(st: State, raw: string): Outcome<State> {
    var line := WithoutReturn(raw);
    if |line| >= LINE_MAX then Bad(Overflow)
    else
      var c := Content(line);
      if c == "" then Good(st)
      else if c[0] == '[' then Heading(st, c)
      else Setting(st, c)
  }

  function ParseLines(st: State, text: string): Outcome<State>
    decreases |text|
  {
    if text == "" then Good(st)
    else
      var i := Scan(text, "\n");
      match Step(st, text[..i])
      case Bad(status) => Bad(status)
      case Good(next) => ParseLines(next, if i < |text| then text[i + 1..] else "")
  }

  // ---------------------------------------------------------------- checks

  predicate StartsWith(s: string, prefix: string) {
    |s| >= |prefix| && Same(s[..|prefix|], prefix)
  }

  function Validate(i: Interface): Status {
    if i.kind.None? then Protocol
    else if !i.enabled then Ok
    else
      match i.kind.value
      case TcpClient => if i.net.targetHost == "" || i.net.targetPort == 0 then Protocol else Ok
      case TcpServer => if i.net.listenPort == 0 then Protocol else Ok
      case Udp => if i.net.listenPort == 0 || i.net.forwardPort == 0 || i.net.forwardIp == "" then Protocol else Ok
      case Auto =>
        if i.discovery.discoveryPort == 0 || i.discovery.discoveryPort == U16 || i.discovery.dataPort == 0
        then Protocol else Ok
      case Kiss => if i.serial.device == "" || i.serial.speed == 0 then Protocol else Ok
      case Rnode => (
        var r := i.radio;
        if i.serial.device == "" then Protocol
        else if StartsWith(i.serial.device, "tcp://") || StartsWith(i.serial.device, "ble://") then Unsupported
        else if 137000000 <= r.frequency <= 3000000000 && 7800 <= r.bandwidth <= 1625000 && 0 <= r.power <= 37
                && 5 <= r.spreading <= 12 && 5 <= r.coding <= 8
        then Ok else Protocol)
      case Provider => Ok
  }

  /** The first complaint, if any. */
  function ValidateAll(items: seq<Interface>): Status
    decreases items
  {
    if items == [] then Ok else if Validate(items[0]) != Ok then Validate(items[0]) else ValidateAll(items[1..])
  }

  function Parse(text: string): Outcome<Config> {
    if '\0' in text then Bad(InvalidArgument)
    else
      match ParseLines(Initial(), text)
      case Bad(status) => Bad(status)
      case Good(st) =>
        if ValidateAll(st.All()) != Ok then Bad(ValidateAll(st.All())) else Good(Config(st.options, st.All()))
  }

  // ---------------------------------------------------------------- the writer

  function YesNo(b: bool): string {
    if b then "Yes" else "No"
  }

  datatype Pair = Pair(key: Key, value: string)

  /** A pair, then the rest. */
  function With(k: Key, value: string, rest: seq<Pair>): seq<Pair> {
    [Pair(k, value)] + rest
  }

  /** A pair that is written only if it says something, then the rest. */
  function WithIf(condition: bool, k: Key, value: string, rest: seq<Pair>): seq<Pair> {
    if condition then With(k, value, rest) else rest
  }

  function WithLimit(k: Key, limit: Option<nat>, rest: seq<Pair>): seq<Pair> {
    match limit case Some(h) => With(k, PercentText(h), rest) case None => rest
  }

  function Or(s: string, fallback: string): string {
    if s != "" then s else fallback
  }

  function NumberOr(n: nat, fallback: nat): nat {
    if n != 0 then n else fallback
  }

  /** A text and a port; a disabled interface may go without either. */
  function NetPairs(enabled: bool, host: Key, text: string, port: Key, number: nat, rest: seq<Pair>): seq<Pair> {
    WithIf(enabled || text != "", host, text, WithIf(enabled || number != 0, port, Dec(number), rest))
  }

  function DiscoveryPairs(d: Discovery, rest: seq<Pair>): seq<Pair> {
    With(KGroup, Or(d.group, "reticulum"),
    With(KScope, Or(d.scope, "link"),
    With(KAddressType, Or(d.addressType, "temporary"),
    With(KDiscoveryPort, Dec(NumberOr(d.discoveryPort, 29716)),
    With(KDataPort, Dec(NumberOr(d.dataPort, 42671)),
    With(KBitrate, Dec(NumberOr(d.bitrate, 10000000)),
    rest))))))
  }

  function DevicePairs(d: Discovery, rest: seq<Pair>): seq<Pair> {
    WithIf(d.devices != "", KDevices, d.devices,
    WithIf(d.ignored != "", KIgnored, d.ignored,
    rest))
  }

  function TimingPairs(p: Serial, rest: seq<Pair>): seq<Pair> {
    With(KPreamble, Dec(p.preamble),
    With(KTail, Dec(p.tail),
    With(KPersistence, Dec(p.persistence),
    With(KSlot, Dec(p.slot),
    With(KFlow, YesNo(p.flow),
    rest)))))
  }

  function LinePairs(p: Serial, rest: seq<Pair>): seq<Pair> {
    With(KDataBits, Dec(p.dataBits),
    With(KParity, [p.parity],
    With(KStopBits, Dec(p.stopBits),
    rest)))
  }

  function TuningPairs(r: Radio, flow: bool, rest: seq<Pair>): seq<Pair> {
    With(KFrequency, Dec(r.frequency),
    With(KBandwidth, Dec(r.bandwidth),
    With(KPower, Int(r.power),
    With(KSpreading, Dec(r.spreading),
    With(KCoding, Dec(r.coding),
    With(KFlow, YesNo(flow),
    rest))))))
  }

  /** The options an interface of each kind is written with. */
  function KindPairs(i: Interface, k: Kind): seq<Pair> {
    var n, p, r := i.net, i.serial, i.radio;
    match k
    case TcpClient => NetPairs(i.enabled, KTargetHost, n.targetHost, KTargetPort, n.targetPort, [])
    case TcpServer => NetPairs(i.enabled, KListenIp, n.listenIp, KListenPort, n.listenPort, [])
    case Udp =>
      NetPairs(i.enabled, KListenIp, n.listenIp, KListenPort, n.listenPort,
      NetPairs(i.enabled, KForwardIp, n.forwardIp, KForwardPort, n.forwardPort, []))
    case Auto => DiscoveryPairs(i.discovery, DevicePairs(i.discovery, []))
    case Kiss => With(KDevice, p.device, With(KSpeed, Dec(p.speed), TimingPairs(p, LinePairs(p, []))))
    case Rnode =>
      With(KDevice, p.device,
      TuningPairs(r, p.flow, WithLimit(KShortLimit, r.shortLimit, WithLimit(KLongLimit, r.longLimit, []))))
    case Provider => []
  }

  /** Everything an interface is written with. */
  function Pairs(i: Interface, k: Kind): seq<Pair> {
    With(KType, KindName(k), With(KEnabled, YesNo(i.enabled), KindPairs(i, k)))
  }

  function PairLine(p: Pair): string {
    "    " + KeyName(p.key) + " = " + p.value
  }

  function NameLine(name: string): string {
    "  [[" + name + "]]"
  }

  function PairLines(ps: seq<Pair>): seq<string> {
    seq(|ps|, i requires 0 <= i < |ps| => PairLine(ps[i]))
  }

  function InterfaceLines(i: Interface): seq<string>
    requires i.kind.Some?
  {
    [NameLine(i.name)] + PairLines(Pairs(i, i.kind.value)) + [""]
  }

  datatype OptionPair = OptionPair(key: OptionKey, value: string)

  function OptionPairs(o: Options): seq<OptionPair> {
    [OptionPair(OTransport, YesNo(o.transport)), OptionPair(OShare, YesNo(o.share)),
     OptionPair(OType, if o.unix then "unix" else "tcp"), OptionPair(OName, o.name),
     OptionPair(OPanic, YesNo(o.panic)), OptionPair(OPort, Dec(o.port)), OptionPair(OControlPort, Dec(o.controlPort))]
  }

  function OptionLine(p: OptionPair): string {
    "  " + OptionName(p.key) + " = " + p.value
  }

  function OptionLines(ps: seq<OptionPair>): seq<string> {
    seq(|ps|, i requires 0 <= i < |ps| => OptionLine(ps[i]))
  }

  function HeaderLines(o: Options): seq<string> {
    ["[reticulum]"] + OptionLines(OptionPairs(o)) + ["", "[interfaces]"]
  }

  predicate AllTyped(items: seq<Interface>) {
    forall j :: 0 <= j < |items| ==> items[j].kind.Some?
  }

  function ItemLines(items: seq<Interface>): seq<string>
    requires AllTyped(items)
  {
    if items == [] then [] else InterfaceLines(items[0]) + ItemLines(items[1..])
  }

  function Lines(c: Config): seq<string>
    requires AllTyped(c.interfaces)
  {
    HeaderLines(c.options) + ItemLines(c.interfaces)
  }

  /** Lines, each closed by a newline. */
  function Joined(lines: seq<string>): string {
    if lines == [] then "" else lines[0] + "\n" + Joined(lines[1..])
  }

  /** The text a configuration is written as. */
  function Written(c: Config): string
    requires AllTyped(c.interfaces)
  {
    Joined(Lines(c))
  }
}
