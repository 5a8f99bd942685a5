/** The settings file of the terminal client: validity, the version 1 and version 2 formats. */
module Settings {
  import opened Common
  import Utf8
  import Crc32

  const NAME_MAX := 127
  const HUB_MAX := 32
  const IDENTITY_MAX := 128
  const NICK_MAX := 32
  const ROOM_MAX := 64
  const DRAFT_MAX := 350
  const ROOT_MAX := 512
  const PAGES_MAX := 1024
  const UNKNOWN_MAX := 1024
  const BODY_MAX := 4096
  const MIN_INTERVAL := 30
  const V1_HEADER := 40
  const V2_HEADER := 20

  /** "NOMSET" and two zero octets. */
  const MAGIC: seq<byte> := [78, 79, 77, 83, 69, 84, 0, 0]

  type u16 = n: nat | n < 0x1_0000
  type u32 = n: nat | n < 0x1_0000_0000

  /** What a zero-terminated buffer holds. */
  type text = t: seq<byte> | 0 !in t

  type node = a: seq<byte> | |a| == 16 witness seq(16, _ => 0)

  datatype General = General(
    announceAtStart: bool, hasStampCost: bool, hasNode: bool,
    stampCost: byte, interval: u32, propagationNode: node)

  datatype Settings = Settings(
    version: u16, name: seq<byte>, general: General,
    hub: text, identity: text, nick: text, room: text, draft: text, reconnect: bool,
    root: text, pages: text, enabled: bool, identifiedOnly: bool,
    unknown: seq<byte>)

  /** "Anonymous Peer", announcing at start and every six hours, serving "index.mu" to nobody. */
  function Defaults(): Settings {
    Settings(2, [65, 110, 111, 110, 121, 109, 111, 117, 115, 32, 80, 101, 101, 114],
             General(true, false, false, 0, 360, seq(16, _ => 0)),
             [], [], [], [], [], true,
             [], [105, 110, 100, 101, 120, 46, 109, 117], false, false, [])
  }

  // ---------------------------------------------------------------- numbers

  function Put16(n: u16): (b: seq<byte>)
    ensures |b| == 2
  {
    [n / 256, n % 256]
  }

  function Get16(b: seq<byte>): u16
    requires |b| >= 2
  {
    var high: nat := b[0];
    256 * high + b[1]
  }

  lemma GetPut16(n: u16, rest: seq<byte>)
    ensures Get16(Put16(n) + rest) == n
  {
  }

  lemma PutGet16(b: seq<byte>)
    requires |b| == 2
    ensures Put16(Get16(b)) == b
  {
  }

  function Put32(n: u32): (b: seq<byte>)
    ensures |b| == 4
  {
    Put16(n / 0x1_0000) + Put16(n % 0x1_0000)
  }

  function Get32(b: seq<byte>): u32
    requires |b| == 4
  {
    0x1_0000 * Get16(b[..2]) + Get16(b[2..])
  }

  lemma GetPut32(n: u32)
    ensures Get32(Put32(n)) == n
  {
    hide Put16, Get16;
    var hi, lo := n / 0x1_0000, n % 0x1_0000;
    GetPut16(hi, []);
    GetPut16(lo, []);
    assert Put32(n)[..2] == Put16(hi) + [] && Put32(n)[2..] == Put16(lo) + [];
  }

  // ---------------------------------------------------------------- validity

  predicate Control(b: byte) {
    b < 0x20 || b == 0x7f
  }

  predicate Plain(t: seq<byte>) {
    forall i :: 0 <= i < |t| ==> !Control(t[i])
  }

  predicate TextValid(t: seq<byte>, capacity: nat, allowControl: bool) {
    |t| <= capacity && Utf8.Valid(t) && (allowControl || Plain(t))
  }

  predicate HexDigit(b: byte) {
    48 <= b <= 57 || 97 <= b <= 102 || 65 <= b <= 70
  }

  predicate HexOrEmpty(t: seq<byte>, digits: nat) {
    |t| == 0 || (|t| == digits && forall i :: 0 <= i < |t| ==> HexDigit(t[i]))
  }

  predicate Known(kind: u16) {
    kind == 1 || kind == 2 || 10 <= kind <= 15 || 20 <= kind <= 22
  }

  /** Whole records, none of a known kind. */
  predicate UnknownValid(u: seq<byte>)
    decreases |u|
  {
    |u| == 0
    || (|u| >= 4 && !Known(Get16(u)) && Get16(u[2..]) <= |u| - 4 && UnknownValid(u[4 + Get16(u[2..])..]))
  }

  predicate HostValid(s: Settings) {
    && TextValid(s.root, ROOT_MAX, false)
    && TextValid(s.pages, PAGES_MAX, false)
    && (s.root == [] || s.root[0] == 47)
    && (s.enabled ==> s.root != [] && s.pages != [])
  }

  predicate ChatValid(s: Settings) {
    && HexOrEmpty(s.hub, HUB_MAX)
    && HexOrEmpty(s.identity, IDENTITY_MAX)
    && TextValid(s.nick, NICK_MAX, false)
    && TextValid(s.room, ROOM_MAX, false)
    && TextValid(s.draft, DRAFT_MAX, true)
  }

  predicate Valid(s: Settings) {
    && s.version >= 2
    && TextValid(s.name, NAME_MAX, false)
    && s.general.interval >= MIN_INTERVAL
    && (s.general.hasStampCost ==> 1 <= s.general.stampCost <= 254)
    && HostValid(s)
    && ChatValid(s)
    && |s.unknown| <= UNKNOWN_MAX
    && UnknownValid(s.unknown)
  }

  /** The first forbidden octet ends the scan. */
  method CheckText(t: seq<byte>, capacity: nat, allowControl: bool) returns (ok: bool)
    ensures ok == TextValid(t, capacity, allowControl)
  {
    if |t| > capacity {
      return false;
    }
    var shaped := Utf8.CheckValid(t);
    if !shaped {
      return false;
    }
    if !allowControl {
      for i := 0 to |t|
        invariant forall j :: 0 <= j < i ==> !Control(t[j])
      {
        if Control(t[i]) {
          return false;
        }
      }
    }
    return true;
  }

  method CheckHex(t: text, digits: nat) returns (ok: bool)
    ensures ok == HexOrEmpty(t, digits)
  {
    if |t| == 0 {
      return true;
    }
    if |t| != digits {
      return false;
    }
    for i := 0 to |t|
      invariant forall j :: 0 <= j < i ==> HexDigit(t[j])
    {
      if !HexDigit(t[i]) {
        return false;
      }
    }
    return true;
  }

  method CheckUnknown(u: seq<byte>) returns (ok: bool)
    ensures ok == (|u| <= UNKNOWN_MAX && UnknownValid(u))
  {
    hide Known, Get16;
    if |u| > UNKNOWN_MAX {
      return false;
    }
    var offset := 0;
    assert u[0..] == u;
    while offset < |u|
      invariant offset <= |u|
      invariant UnknownValid(u) == UnknownValid(u[offset..])
    {
      var rest := u[offset..];
      if |rest| < 4 || Known(Get16(rest)) || Get16(rest[2..]) > |rest| - 4 {
        return false;
      }
      var size := 4 + Get16(rest[2..]);
      assert rest[size..] == u[offset + size..];
      offset := offset + size;
    }
    return true;
  }

  // ---------------------------------------------------------------- records

  /** One record of the body: kind, length, value. */
  function Record(kind: u16, value: seq<byte>): seq<byte>
    requires |value| < 0x1_0000
  {
    Put16(kind) + Put16(|value|) + value
  }

  /** The longest text a kind of record may hold; only text kinds have one. */
  function Limit(kind: u16): Option<nat> {
    if kind == 1 then Some(NAME_MAX)
    else if kind == 10 then Some(HUB_MAX)
    else if kind == 11 then Some(IDENTITY_MAX)
    else if kind == 12 then Some(NICK_MAX)
    else if kind == 13 then Some(ROOM_MAX)
    else if kind == 14 then Some(DRAFT_MAX)
    else if kind == 20 then Some(ROOT_MAX)
    else if kind == 21 then Some(PAGES_MAX)
    else None
  }

  predicate Acceptable(kind: u16, value: seq<byte>) {
    match Limit(kind)
    case Some(limit) => |value| <= limit && 0 !in value
    case None =>
      if kind == 2 then |value| == 22 && value[0] < 8 && value[1] <= 254
      else if kind == 15 then |value| == 1 && value[0] <= 1
      else kind == 22 && |value| == 1 && value[0] <= 3
  }

  function Flag(n: byte, weight: nat): bool
    requires weight > 0
  {
    n / weight % 2 == 1
  }

  function ReadGeneral(value: seq<byte>): General
    requires |value| == 22
  {
    General(Flag(value[0], 1), Flag(value[0], 2), Flag(value[0], 4), value[1], Get32(value[2..6]), value[6..])
  }

  /** Stores an acceptable value in the field its record names. */
  function Store(s: Settings, kind: u16, value: seq<byte>): Settings
    requires Acceptable(kind, value)
  {
    if kind == 1 then s.(name := value)
    else if kind == 2 then s.(general := ReadGeneral(value))
    else if kind == 10 then s.(hub := value)
    else if kind == 11 then s.(identity := value)
    else if kind == 12 then s.(nick := value)
    else if kind == 13 then s.(room := value)
    else if kind == 14 then s.(draft := value)
    else if kind == 15 then s.(reconnect := value[0] != 0)
    else if kind == 20 then s.(root := value)
    else if kind == 21 then s.(pages := value)
    else s.(enabled := Flag(value[0], 1), identifiedOnly := Flag(value[0], 2))
  }

  /** What has been read so far, and which known kinds were in it. */
  datatype Reading = Reading(settings: Settings, seen: set<u16>)

  function Take(r: Reading, kind: u16, value: seq<byte>): Option<Reading>
    requires |value| < 0x1_0000
  {
    if Known(kind) then
      if kind in r.seen || !Acceptable(kind, value) then None
      else Some(Reading(Store(r.settings, kind, value), r.seen + {kind}))
    else if 4 + |value| > UNKNOWN_MAX - |r.settings.unknown| then None
    else Some(r.(settings := r.settings.(unknown := r.settings.unknown + Record(kind, value))))
  }

  predicate Framed(body: seq<byte>) {
    |body| >= 4 && Get16(body[2..]) <= |body| - 4
  }

  function TakeAll(r: Reading, body: seq<byte>): Option<Reading>
    decreases |body|
  {
    if body == [] then Some(r)
    else if !Framed(body) then None
    else
      var size := 4 + Get16(body[2..]);
      match Take(r, Get16(body), body[4..size])
      case None => None
      case Some(next) => TakeAll(next, body[size..])
  }

  /** The records of unknown kind, as they stand in the body, in order. */
  function Unknowns(body: seq<byte>): seq<byte>
    decreases |body|
  {
    if !Framed(body) then []
    else
      var size := 4 + Get16(body[2..]);
      (if Known(Get16(body)) then [] else body[..size]) + Unknowns(body[size..])
  }

  lemma RecordSpelling(body: seq<byte>)
    requires Framed(body)
    ensures Record(Get16(body), body[4..4 + Get16(body[2..])]) == body[..4 + Get16(body[2..])]
  {
    PutGet16(body[..2]);
    PutGet16(body[2..4]);
  }

  /** One pass over the body, a record at a time; an unknown record is copied as it stands. */
  method TakeRecords(start: Reading, body: seq<byte>) returns (r: Option<Reading>)
    ensures r == TakeAll(start, body)
  {
    hide Known, Get16, Put16, Store, Acceptable;
    var reading := start;
    var offset := 0;
    assert body[0..] == body;
    while offset < |body|
      invariant offset <= |body|
      invariant TakeAll(start, body) == TakeAll(reading, body[offset..])
    {
      var rest := body[offset..];
      if |rest| < 4 {
        return None;
      }
      var kind, length := Get16(rest), Get16(rest[2..]);
      if length > |rest| - 4 {
        return None;
      }
      RecordSpelling(rest);
      var value := rest[4..4 + length];
      if Known(kind) {
        if kind in reading.seen || !Acceptable(kind, value) {
          return None;
        }
        reading := Reading(Store(reading.settings, kind, value), reading.seen + {kind});
      } else {
        var kept := reading.settings.unknown;
        if 4 + length > UNKNOWN_MAX - |kept| {
          return None;
        }
        reading := reading.(settings := reading.settings.(unknown := kept + rest[..4 + length]));
      }
      assert rest[4 + length..] == body[offset + 4 + length..];
      offset := offset + 4 + length;
    }
    return Some(reading);
  }

  // ---------------------------------------------------------------- loading

  /** Version 1: a fixed header and the display name. */
  function LoadV1(file: seq<byte>): Option<Settings> {
    if |file| < V1_HEADER || Get16(file[10..]) != V1_HEADER then None
    else
      var length := Get16(file[12..]);
      if length > NAME_MAX || |file| != V1_HEADER + length
         || Crc32.Checksum(file[8..36] + file[40..]) != Crc32.ReadWord(file[36..40])
         || file[14] >= 8 || file[15] > 254
      then None
      else
        var s := Defaults().(
                   name := file[40..],
                   general := General(Flag(file[14], 1), Flag(file[14], 2), Flag(file[14], 4),
                                      file[15], Get32(file[16..20]), file[20..36]));
        if Valid(s) then Some(s) else None
  }

  /** Version 2 and later: a header and a body of records. */
  function LoadV2(file: seq<byte>): Option<Settings>
    requires |file| >= 12 && Get16(file[8..]) >= 2
  {
    if |file| < V2_HEADER || Get16(file[10..]) != V2_HEADER then None
    else
      var length := Get32(file[12..16]);
      if length > BODY_MAX || |file| != V2_HEADER + length
         || Crc32.Checksum(file[8..16] + file[20..]) != Crc32.ReadWord(file[16..20])
      then None
      else
        match TakeAll(Reading(Defaults().(version := Get16(file[8..])), {}), file[20..])
        case None => None
        case Some(r) => if Valid(r.settings) then Some(r.settings) else None
  }

  function Load(file: seq<byte>): Option<Settings> {
    if |file| < 12 || file[..8] != MAGIC then None
    else if Get16(file[8..]) == 1 then LoadV1(file)
    else if Get16(file[8..]) >= 2 then LoadV2(file)
    else None
  }

  // ---------------------------------------------------------------- saving

  function FlagSum(a: bool, b: bool, c: bool): byte {
    (if a then 1 else 0) + (if b then 2 else 0) + (if c then 4 else 0)
  }

  function GeneralBytes(g: General): (b: seq<byte>)
    ensures |b| == 22
  {
    [FlagSum(g.announceAtStart, g.hasStampCost, g.hasNode), g.stampCost] + Put32(g.interval) + g.propagationNode
  }

  datatype Item = Item(kind: u16, value: seq<byte>)

  /** The known records in the order they are written. */
  function Items(s: Settings): seq<Item> {
    [Item(1, s.name), Item(2, GeneralBytes(s.general)), Item(10, s.hub), Item(11, s.identity),
     Item(12, s.nick), Item(13, s.room), Item(14, s.draft), Item(15, [FlagSum(s.reconnect, false, false)]),
     Item(20, s.root), Item(21, s.pages), Item(22, [FlagSum(s.enabled, s.identifiedOnly, false)])]
  }

  predicate Writable(items: seq<Item>) {
    forall i :: 0 <= i < |items| ==> |items[i].value| <= 1024
  }

  function Records(items: seq<Item>): seq<byte>
    requires Writable(items)
  {
    if items == [] then [] else Record(items[0].kind, items[0].value) + Records(items[1..])
  }

  lemma ValidWritable(s: Settings)
    requires Valid(s)
    ensures Writable(Items(s))
  {
    hide UnknownValid, Utf8.Valid, GeneralBytes, Plain, HexDigit;
  }

  function Body(s: Settings): seq<byte>
    requires Valid(s)
  {
    ValidWritable(s);
    Records(Items(s)) + s.unknown
  }

  /** The part of the header the checksum covers. */
  function Covered(version: u16, length: u32): (b: seq<byte>)
    ensures |b| == 8
  {
    Put16(version) + Put16(V2_HEADER) + Put32(length)
  }

  function Wrap(version: u16, body: seq<byte>): seq<byte>
    requires |body| <= BODY_MAX
  {
    var covered := Covered(version, |body|);
    MAGIC + covered + Crc32.Spell(Crc32.Checksum(covered + body)) + body
  }

  /** The file a settings value is saved as. */
  function Image(s: Settings): seq<byte>
    requires Valid(s)
  {
    BodyFits(s);
    Wrap(s.version, Body(s))
  }

  // ---------------------------------------------------------------- the size of a saved body

  function Size(items: seq<Item>): nat {
    if items == [] then 0 else 4 + |items[0].value| + Size(items[1..])
  }

  lemma {:induction false} RecordsSize(items: seq<Item>)
    requires Writable(items)
    ensures |Records(items)| == Size(items)
  {
    hide Put16;
    if items != [] {
      RecordsSize(items[1..]);
    }
  }

  lemma {:induction false} SizeAppend(a: seq<Item>, b: seq<Item>)
    ensures Size(a + b) == Size(a) + Size(b)
  {
    if a == [] {
      assert a + b == b;
    } else {
      SizeAppend(a[1..], b);
      assert (a + b)[1..] == a[1..] + b;
    }
  }

  lemma SizeOne(item: Item)
    ensures Size([item]) == 4 + |item.value|
  {
    assert Size([item][1..]) == 0;
  }

  lemma SizeThree(a: Item, b: Item, c: Item)
    ensures Size([a, b, c]) == 12 + |a.value| + |b.value| + |c.value|
  {
    hide Size;
    SizeOne(a);
    SizeOne(b);
    SizeOne(c);
    SizeAppend([a], [b]);
    SizeAppend([a, b], [c]);
    assert [a] + [b] == [a, b] && [a, b] + [c] == [a, b, c];
  }

  /** Eleven record headers and the longest value of every field leave room for the unknown records. */
  lemma BodyFits(s: Settings)
    requires Valid(s)
    ensures |Body(s)| <= BODY_MAX
  {
    hide Size, UnknownValid, Utf8.Valid, GeneralBytes, Plain, HexDigit, Records;
    ValidWritable(s);
    var i := Items(s);
    RecordsSize(i);
    SizeThree(i[0], i[1], i[2]);
    SizeThree(i[3], i[4], i[5]);
    SizeThree(i[6], i[7], i[8]);
    SizeOne(i[9]);
    SizeOne(i[10]);
    SizeAppend(i[..3], i[3..6]);
    SizeAppend(i[..6], i[6..9]);
    SizeAppend(i[..9], i[9..10]);
    SizeAppend(i[..10], i[10..]);
    assert i[..3] + i[3..6] == i[..6] && i[..6] + i[6..9] == i[..9];
    assert i[..9] + i[9..10] == i[..10] && i[..10] + i[10..] == i;
    assert i[..3] == [i[0], i[1], i[2]] && i[3..6] == [i[3], i[4], i[5]] && i[6..9] == [i[6], i[7], i[8]];
    assert i[9..10] == [i[9]] && i[10..] == [i[10]];
  }

  // ---------------------------------------------------------------- writing the body

  /** Appends one record to a buffer, or leaves the buffer alone. */
  method AppendRecord(body: array<byte>, used: nat, kind: u16, value: seq<byte>) returns (ok: bool, end: nat)
    requires used <= body.Length
    modifies body
    ensures ok <==> |value| < 0x1_0000 && 4 + |value| <= body.Length - used
    ensures ok ==> end == used + 4 + |value| && body[..end] == old(body[..used]) + Record(kind, value)
    ensures !ok ==> end == used && body[..] == old(body[..])
  {
    hide Put16;
    if |value| > 0xffff || |value| > body.Length - used || 4 > body.Length - used - |value| {
      return false, used;
    }
    ghost var before := body[..used];
    var header := Put16(kind) + Put16(|value|);
    body[used], body[used + 1], body[used + 2], body[used + 3] := header[0], header[1], header[2], header[3];
    assert body[..used + 4] == before + header;
    for i := 0 to |value|
      invariant body[..used + 4 + i] == before + header + value[..i]
    {
      body[used + 4 + i] := value[i];
      assert body[..used + 4 + i + 1] == body[..used + 4 + i] + [value[i]];
      assert value[..i + 1] == value[..i] + [value[i]];
    }
    assert value[..|value|] == value;
    return true, used + 4 + |value|;
  }

  lemma {:induction false} RecordsSnoc(items: seq<Item>, item: Item)
    requires Writable(items) && |item.value| <= 1024
    ensures Writable(items + [item])
    ensures Records(items + [item]) == Records(items) + Record(item.kind, item.value)
  {
    hide Record;
    if items == [] {
      assert items + [item] == [item] && [item][1..] == [];
    } else {
      RecordsSnoc(items[1..], item);
      assert (items + [item])[1..] == items[1..] + [item];
    }
  }

  lemma {:induction false} SizeMonotone(items: seq<Item>, i: nat)
    requires i <= |items|
    ensures Size(items[..i]) <= Size(items)
  {
    SizeAppend(items[..i], items[i..]);
    assert items[..i] + items[i..] == items;
  }

  /** Writes every record, stopping at the first that does not fit. */
  method AppendRecords(body: array<byte>, items: seq<Item>) returns (ok: bool, used: nat)
    requires Writable(items)
    modifies body
    ensures ok <==> Size(items) <= body.Length
    ensures ok ==> used == Size(items) && body[..used] == Records(items)
  {
    hide Record, Size, Records, Writable;
    SizeEmpty();
    used := 0;
    assert items[..0] == [];
    for i := 0 to |items|
      invariant Writable(items[..i])
      invariant used == Size(items[..i]) <= body.Length
      invariant body[..used] == Records(items[..i])
    {
      WritableSplit(items, i);
      assert items[..i + 1] == items[..i] + [items[i]];
      SizeAppend(items[..i], [items[i]]);
      SizeOne(items[i]);
      SizeMonotone(items, i + 1);
      RecordsSnoc(items[..i], items[i]);
      var more, end := AppendRecord(body, used, items[i].kind, items[i].value);
      if !more {
        return false, used;
      }
      used := end;
    }
    assert items[..|items|] == items;
    return true, used;
  }

  lemma SizeEmpty()
    ensures Size([]) == 0 && Writable([]) && Records([]) == []
  {
  }

  lemma WritableSplit(items: seq<Item>, i: nat)
    requires Writable(items) && i < |items|
    ensures Writable(items[..i]) && Writable(items[..i + 1]) && |items[i].value| <= 1024
  {
  }

  /** Saves valid settings, whatever they are; the buffer is never too small. */
  method Save(s: Settings) returns (file: Option<seq<byte>>)
    ensures file == if Valid(s) then Some(Image(s)) else None
  {
    hide Size, Records, UnknownValid, Utf8.Valid, GeneralBytes, Plain, HexDigit, Covered, Crc32.Spell, Valid, Items;
    var ok := Check(s);
    if !ok {
      return None;
    }
    ValidWritable(s);
    BodyFits(s);
    RecordsSize(Items(s));
    var buffer := new byte[BODY_MAX];
    var written, used := AppendRecords(buffer, Items(s));
    var body := buffer[..used] + s.unknown;
    var covered := Covered(s.version, |body|);
    var crc := ChecksumOf(covered, body);
    return Some(MAGIC + covered + Crc32.Spell(crc) + body);
  }

  /** Every check a settings value must pass. */
  method Check(s: Settings) returns (ok: bool)
    ensures ok == Valid(s)
  {
    hide UnknownValid, HexOrEmpty, TextValid;
    if s.version < 2 || s.general.interval < MIN_INTERVAL {
      return false;
    }
    if s.general.hasStampCost && (s.general.stampCost < 1 || s.general.stampCost > 254) {
      return false;
    }
    var name := CheckText(s.name, NAME_MAX, false);
    var root := CheckText(s.root, ROOT_MAX, false);
    var pages := CheckText(s.pages, PAGES_MAX, false);
    if !name || !root || !pages || (s.root != [] && s.root[0] != 47)
       || (s.enabled && (s.root == [] || s.pages == [])) {
      return false;
    }
    var hub := CheckHex(s.hub, HUB_MAX);
    var identity := CheckHex(s.identity, IDENTITY_MAX);
    var nick := CheckText(s.nick, NICK_MAX, false);
    var room := CheckText(s.room, ROOM_MAX, false);
    var draft := CheckText(s.draft, DRAFT_MAX, true);
    var unknown := CheckUnknown(s.unknown);
    return hub && identity && nick && room && draft && unknown;
  }

  // ---------------------------------------------------------------- reading a file

  /** The checksum of two pieces, taken one after the other. */
  method ChecksumOf(a: seq<byte>, b: seq<byte>) returns (crc: bv32)
    ensures crc == Crc32.Checksum(a + b)
  {
    hide Crc32.Update, Crc32.Xor;
    crc := Crc32.UpdateInPlace(0xffffffff, a);
    crc := Crc32.UpdateInPlace(crc, b);
    Crc32.UpdateAppend(0xffffffff, a, b);
    crc := Crc32.Xor(crc, 0xffffffff);
  }

  method ReadVersion1(file: seq<byte>) returns (s: Option<Settings>)
    ensures s == LoadV1(file)
  {
    hide Valid, Get16, Get32, Crc32.Checksum, Crc32.ReadWord, Flag, Defaults;
    if |file| < V1_HEADER || Get16(file[10..]) != V1_HEADER {
      return None;
    }
    var length := Get16(file[12..]);
    if length > NAME_MAX || |file| != V1_HEADER + length {
      return None;
    }
    var crc := ChecksumOf(file[8..36], file[40..]);
    if crc != Crc32.ReadWord(file[36..40]) || file[14] >= 8 || file[15] > 254 {
      return None;
    }
    var loaded := Defaults().(name := file[40..]);
    loaded := loaded.(general := General(Flag(file[14], 1), Flag(file[14], 2), Flag(file[14], 4),
                                         file[15], Get32(file[16..20]), file[20..36]));
    var ok := Check(loaded);
    return if ok then Some(loaded) else None;
  }

  method ReadVersion2(file: seq<byte>) returns (s: Option<Settings>)
    requires |file| >= 12 && Get16(file[8..]) >= 2
    ensures s == LoadV2(file)
  {
    hide Valid, Get16, Get32, Crc32.Checksum, Crc32.ReadWord, Defaults, TakeAll;
    if |file| < V2_HEADER || Get16(file[10..]) != V2_HEADER {
      return None;
    }
    var length := Get32(file[12..16]);
    if length > BODY_MAX || |file| != V2_HEADER + length {
      return None;
    }
    var crc := ChecksumOf(file[8..16], file[20..]);
    if crc != Crc32.ReadWord(file[16..20]) {
      return None;
    }
    var reading := TakeRecords(Reading(Defaults().(version := Get16(file[8..])), {}), file[20..]);
    if reading.None? {
      return None;
    }
    var ok := Check(reading.value.settings);
    return if ok then Some(reading.value.settings) else None;
  }

  const PATH_MAX := 1024

  /** A missing file gives the defaults; a path that is too long, and a file that cannot be opened,
      is refused or does not close, leaves the settings alone. */
  method Open(path: seq<byte>, disk: Disk, closes: bool, current: Settings)
    returns (ok: bool, s: Settings, found: bool)
    ensures ok <==> |path| <= PATH_MAX
                    && (disk.Missing? || (disk.Present? && closes && Load(disk.bytes).Some?))
    ensures found <==> ok && disk.Present?
    ensures s == if !ok then current else if disk.Missing? then Defaults() else Load(disk.bytes).value
  {
    hide LoadV1, LoadV2, Get16, Defaults;
    if |path| > PATH_MAX || disk.Unreadable? {
      return false, current, false;
    }
    if disk.Missing? {
      return true, Defaults(), false;
    }
    var file := disk.bytes;
    if |file| < 12 || file[..8] != MAGIC {
      return false, current, false;
    }
    var version := Get16(file[8..]);
    var loaded := None;
    if version == 1 {
      loaded := ReadVersion1(file);
    } else if version >= 2 {
      loaded := ReadVersion2(file);
    }
    if loaded.None? || !closes {
      return false, current, false;
    }
    return true, loaded.value, true;
  }
}
