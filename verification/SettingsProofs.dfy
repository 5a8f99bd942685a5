/** What saving and loading settings keep, and what the checksum cannot miss. */
module SettingsProofs {
  import opened Common
  import opened Settings
  import Crc32
  import Utf8

  // ---------------------------------------------------------------- known records, read back

  function TakeItems(r: Reading, items: seq<Item>): Option<Reading>
    requires Writable(items)
    decreases items
  {
    if items == [] then Some(r)
    else
      match Take(r, items[0].kind, items[0].value)
      case None => None
      case Some(next) => TakeItems(next, items[1..])
  }

  lemma RecordFramed(kind: u16, value: seq<byte>, rest: seq<byte>)
    requires |value| <= 1024
    ensures var body := Record(kind, value) + rest;
            && body != [] && Framed(body) && Get16(body) == kind && Get16(body[2..]) == |value|
            && body[4..4 + |value|] == value && body[4 + |value|..] == rest
            && body[..4 + |value|] == Record(kind, value)
  {
    hide Put16, Get16;
    var body := Record(kind, value) + rest;
    assert body == Put16(kind) + (Put16(|value|) + value + rest);
    GetPut16(kind, Put16(|value|) + value + rest);
    assert body[2..] == Put16(|value|) + (value + rest);
    GetPut16(|value|, value + rest);
  }

  /** Written records are read one by one, then what follows them. */
  lemma {:induction false} TakeWritten(r: Reading, items: seq<Item>, rest: seq<byte>)
    requires Writable(items)
    ensures TakeAll(r, Records(items) + rest)
         == match TakeItems(r, items) case None => None case Some(next) => TakeAll(next, rest)
    decreases items
  {
    hide Take, Framed, Get16, Record;
    if items == [] {
      assert Records(items) + rest == rest;
    } else {
      var tail := Records(items[1..]) + rest;
      RecordFramed(items[0].kind, items[0].value, tail);
      assert Records(items) + rest == Record(items[0].kind, items[0].value) + tail;
      if Take(r, items[0].kind, items[0].value).Some? {
        TakeWritten(Take(r, items[0].kind, items[0].value).value, items[1..], rest);
      }
    }
  }

  predicate AllAcceptable(items: seq<Item>) {
    forall i :: 0 <= i < |items| ==> Known(items[i].kind) && Acceptable(items[i].kind, items[i].value)
  }

  predicate Ascending(items: seq<Item>) {
    forall i, j :: 0 <= i < j < |items| ==> items[i].kind < items[j].kind
  }

  function StoreAll(s: Settings, items: seq<Item>): Settings
    requires AllAcceptable(items)
    decreases items
  {
    if items == [] then s else StoreAll(Store(s, items[0].kind, items[0].value), items[1..])
  }

  predicate Unseen(seen: set<u16>, items: seq<Item>) {
    forall i :: 0 <= i < |items| ==> items[i].kind !in seen
  }

  lemma {:induction false} TakeAcceptable(r: Reading, items: seq<Item>)
    requires Writable(items) && AllAcceptable(items) && Ascending(items) && Unseen(r.seen, items)
    ensures TakeItems(r, items).Some?
    ensures TakeItems(r, items).value.settings == StoreAll(r.settings, items)
    decreases items
  {
    hide Acceptable, Known, Store;
    if items != [] {
      var next := Reading(Store(r.settings, items[0].kind, items[0].value), r.seen + {items[0].kind});
      TakeAcceptable(next, items[1..]);
    }
  }

  lemma GeneralRoundTrip(g: General)
    ensures ReadGeneral(GeneralBytes(g)) == g
  {
    hide Put32, Get32;
    var b := GeneralBytes(g);
    assert b[2..6] == Put32(g.interval) && b[6..] == g.propagationNode;
    GetPut32(g.interval);
  }

  lemma PlainIsText(t: seq<byte>)
    requires Plain(t)
    ensures 0 !in t
  {
  }

  /** Every record of valid settings is acceptable but for one: a stamp cost of 255 that is not in use. */
  lemma ItemsAcceptable(s: Settings)
    requires Valid(s) && s.general.stampCost <= 254
    ensures AllAcceptable(Items(s)) && Ascending(Items(s))
  {
    hide UnknownValid, Utf8.Valid, Put32, HexDigit;
    PlainIsText(s.name);
  }

  lemma StoreFirst(s: Settings, t: Settings)
    requires Valid(s) && s.general.stampCost <= 254 && AllAcceptable(Items(s))
    ensures StoreAll(t, Items(s))
         == StoreAll(t.(name := s.name, general := s.general, hub := s.hub, identity := s.identity), Items(s)[4..])
  {
    hide Valid, Known, Acceptable, GeneralBytes, ReadGeneral, StoreAll, AllAcceptable;
    var i := Items(s);
    GeneralRoundTrip(s.general);
    StoreAt(t, i, 0);
    var t1 := t.(name := s.name);
    StoreAt(t1, i, 1);
    var t2 := t1.(general := s.general);
    StoreAt(t2, i, 2);
    var t3 := t2.(hub := s.hub);
    StoreAt(t3, i, 3);
    assert i[0..] == i;
  }

  lemma StoreAt(t: Settings, items: seq<Item>, k: nat)
    requires k < |items| && AllAcceptable(items)
    ensures AllAcceptable(items[k..]) && AllAcceptable(items[k + 1..])
    ensures Acceptable(items[k].kind, items[k].value)
    ensures StoreAll(t, items[k..]) == StoreAll(Store(t, items[k].kind, items[k].value), items[k + 1..])
  {
    hide Known, Acceptable, Store;
    assert items[k..][1..] == items[k + 1..];
  }

  lemma StoreMiddle(s: Settings, t: Settings)
    requires Valid(s) && AllAcceptable(Items(s))
    ensures StoreAll(t, Items(s)[4..])
         == StoreAll(t.(nick := s.nick, room := s.room, draft := s.draft, reconnect := s.reconnect), Items(s)[8..])
  {
    hide Valid, Known, Acceptable, GeneralBytes, ReadGeneral, StoreAll, AllAcceptable;
    var i := Items(s);
    StoreAt(t, i, 4);
    var t1 := t.(nick := s.nick);
    StoreAt(t1, i, 5);
    var t2 := t1.(room := s.room);
    StoreAt(t2, i, 6);
    var t3 := t2.(draft := s.draft);
    StoreAt(t3, i, 7);
  }

  lemma StoreLast(s: Settings, t: Settings)
    requires Valid(s) && AllAcceptable(Items(s))
    ensures StoreAll(t, Items(s)[8..])
         == t.(root := s.root, pages := s.pages, enabled := s.enabled, identifiedOnly := s.identifiedOnly)
  {
    hide Valid, Known, Acceptable, GeneralBytes, ReadGeneral;
    var i := Items(s);
    StoreAt(t, i, 8);
    var t1 := t.(root := s.root);
    StoreAt(t1, i, 9);
    var t2 := t1.(pages := s.pages);
    StoreAt(t2, i, 10);
  }

  // ---------------------------------------------------------------- unknown records

  /** Valid unknown records are read back as they stand. */
  lemma {:induction false} TakeUnknown(r: Reading, u: seq<byte>)
    requires UnknownValid(u) && |r.settings.unknown| + |u| <= UNKNOWN_MAX
    ensures TakeAll(r, u) == Some(r.(settings := r.settings.(unknown := r.settings.unknown + u)))
    decreases |u|
  {
    hide Known, Get16, Put16, Store, Acceptable, Record;
    if u == [] {
      assert r.settings.unknown + u == r.settings.unknown;
    } else {
      var size := 4 + Get16(u[2..]);
      RecordSpelling(u);
      var kept := r.settings.unknown + u[..size];
      TakeUnknown(r.(settings := r.settings.(unknown := kept)), u[size..]);
      assert kept + u[size..] == r.settings.unknown + u;
    }
  }

  /** What loading keeps of the unknown records is exactly what stood in the body. */
  lemma {:induction false} TakeKeepsUnknown(r: Reading, body: seq<byte>)
    requires TakeAll(r, body).Some?
    ensures TakeAll(r, body).value.settings.unknown == r.settings.unknown + Unknowns(body)
    decreases |body|
  {
    hide Get16, Put16, Acceptable, Record;
    if body != [] {
      var size := 4 + Get16(body[2..]);
      RecordSpelling(body);
      TakeKeepsUnknown(Take(r, Get16(body), body[4..size]).value, body[size..]);
    }
  }

  lemma {:induction false} TakeBoundsStamp(r: Reading, body: seq<byte>)
    requires TakeAll(r, body).Some? && r.settings.general.stampCost <= 254
    ensures TakeAll(r, body).value.settings.general.stampCost <= 254
    ensures TakeAll(r, body).value.settings.version == r.settings.version
    decreases |body|
  {
    hide Get16, Put16, Record, Get32;
    if body != [] {
      var size := 4 + Get16(body[2..]);
      TakeBoundsStamp(Take(r, Get16(body), body[4..size]).value, body[size..]);
    }
  }

  // ---------------------------------------------------------------- round trips

  function Fresh(version: u16): Reading {
    Reading(Defaults().(version := version), {})
  }

  lemma BodyReadsBack(s: Settings)
    requires Valid(s) && s.general.stampCost <= 254
    ensures TakeAll(Fresh(s.version), Body(s)).Some?
    ensures TakeAll(Fresh(s.version), Body(s)).value.settings == s
  {
    hide TakeAll, Valid, Items, Records, Known, Acceptable, Store, StoreAll, TakeItems, Defaults, UnknownValid, Unseen,
         AllAcceptable, Writable, Ascending;
    var t := Fresh(s.version).settings;
    ValidWritable(s);
    ItemsAcceptable(s);
    NothingSeen(Items(s));
    TakeAcceptable(Fresh(s.version), Items(s));
    StoreFirst(s, t);
    var t1 := t.(name := s.name, general := s.general, hub := s.hub, identity := s.identity);
    StoreMiddle(s, t1);
    var t2 := t1.(nick := s.nick, room := s.room, draft := s.draft, reconnect := s.reconnect);
    StoreLast(s, t2);
    TakeWritten(Fresh(s.version), Items(s), s.unknown);
    var r := TakeItems(Fresh(s.version), Items(s)).value;
    ValidUnknown(s);
    DefaultsKeepNone();
    TakeUnknown(r, s.unknown);
  }

  lemma NothingSeen(items: seq<Item>)
    ensures Unseen({}, items)
  {
  }

  lemma ValidUnknown(s: Settings)
    requires Valid(s)
    ensures UnknownValid(s.unknown) && |s.unknown| <= UNKNOWN_MAX && s.version >= 2
  {
  }

  lemma DefaultsKeepNone()
    ensures Defaults().unknown == [] && Defaults().general.stampCost <= 254
  {
  }

  /** A stamp cost of 255, which validity lets through when it is not in use, is refused by the reader. */
  lemma BodyRefused(s: Settings)
    requires Valid(s) && s.general.stampCost > 254
    ensures TakeAll(Fresh(s.version), Body(s)).None?
  {
    hide TakeAll, Records, UnknownValid, Utf8.Valid, HexDigit, Defaults, Put32, Plain, HostValid, ChatValid;
    ValidWritable(s);
    var i := Items(s);
    TakeWritten(Fresh(s.version), i, s.unknown);
    assert i[1..][0] == i[1] && !Acceptable(2, i[1].value);
  }

  predicate Wraps(f: seq<byte>, version: u16, body: seq<byte>) {
    && |f| == V2_HEADER + |body|
    && f[..8] == MAGIC
    && Get16(f[8..]) == version
    && Get16(f[10..]) == V2_HEADER
    && Get32(f[12..16]) == |body|
    && f[20..] == body
    && Crc32.Checksum(f[8..16] + f[20..]) == Crc32.ReadWord(f[16..20])
  }

  lemma WrapReads(version: u16, body: seq<byte>)
    requires version >= 2 && |body| <= BODY_MAX
    ensures Wraps(Wrap(version, body), version, body)
  {
    hide Put16, Get16, Put32, Get32, Crc32.Checksum, Crc32.Spell, Crc32.ReadWord;
    var f := Wrap(version, body);
    var covered := Covered(version, |body|);
    var spelt := Crc32.Spell(Crc32.Checksum(covered + body));
    assert f[8..16] == covered && f[16..20] == spelt && f[20..] == body;
    Crc32.ReadSpell(Crc32.Checksum(covered + body));
    var tail := Put32(|body|) + spelt + body;
    assert f[8..] == Put16(version) + (Put16(V2_HEADER) + tail);
    GetPut16(version, Put16(V2_HEADER) + tail);
    assert f[10..] == Put16(V2_HEADER) + tail;
    GetPut16(V2_HEADER, tail);
    assert f[12..16] == Put32(|body|);
    GetPut32(|body|);
  }

  /** Loading what was saved gives the settings back exactly when the stamp cost field is at most 254,
      and fails otherwise. */
  lemma SavedLoads(s: Settings)
    requires Valid(s)
    ensures s.general.stampCost <= 254 ==> Load(Image(s)) == Some(s)
    ensures s.general.stampCost > 254 ==> Load(Image(s)) == None
  {
    hide Valid, Body, Wrap, TakeAll, Get16, Get32, Crc32.Checksum, Crc32.ReadWord, Defaults, LoadV1;
    ValidUnknown(s);
    BodyFits(s);
    WrapReads(s.version, Body(s));
    if s.general.stampCost <= 254 {
      BodyReadsBack(s);
    } else {
      BodyRefused(s);
    }
  }

  /** Nothing set, and an unused stamp cost of 255. */
  function Unloadable(): Settings {
    Settings(2, [], General(false, false, false, 255, 30, seq(16, _ => 0)),
             [], [], [], [], [], false, [], [], false, false, [])
  }

  /** Valid settings that are saved and cannot be loaded. */
  lemma UnusedStampCostLost()
    ensures Valid(Unloadable()) && Load(Image(Unloadable())) == None
  {
    hide Load, Image;
    SavedLoads(Unloadable());
  }

  lemma LoadedIsSound(file: seq<byte>)
    requires Load(file).Some?
    ensures Valid(Load(file).value) && Load(file).value.general.stampCost <= 254
  {
    hide Valid, Get16, Get32, Crc32.Checksum, Crc32.ReadWord, Defaults, TakeAll;
    DefaultsKeepNone();
    if Get16(file[8..]) >= 2 {
      TakeBoundsStamp(Fresh(Get16(file[8..])), file[20..]);
    }
  }

  /** Whatever version a file was, its settings can be saved, and load again unchanged. */
  lemma ResaveKeeps(file: seq<byte>)
    requires Load(file).Some?
    ensures Valid(Load(file).value)
    ensures |Body(Load(file).value)| <= BODY_MAX
    ensures Load(Image(Load(file).value)) == Load(file)
  {
    hide Load, Valid, Body, Image;
    LoadedIsSound(file);
    BodyFits(Load(file).value);
    SavedLoads(Load(file).value);
  }

  /** The unknown records of a file stand unchanged and in order in the file it is saved as. */
  lemma UnknownRecordsRetained(file: seq<byte>)
    requires Load(file).Some?
    requires Get16(file[8..]) >= 2
    ensures Valid(Load(file).value)
    ensures Load(file).value.unknown == Unknowns(file[20..])
    ensures Unknowns(Image(Load(file).value)[20..]) == Unknowns(file[20..])
  {
    hide Valid, Get32, Get16, Crc32.Checksum, Crc32.ReadWord, Defaults, TakeAll, Unknowns, Body, Wrap;
    DefaultsKeepNone();
    LoadedIsSound(file);
    var s := Load(file).value;
    TakeKeepsUnknown(Fresh(Get16(file[8..])), file[20..]);
    BodyFits(s);
    ValidUnknown(s);
    WrapReads(s.version, Body(s));
    BodyReadsBack(s);
    TakeKeepsUnknown(Fresh(s.version), Body(s));
    assert [] + Unknowns(file[20..]) == Unknowns(file[20..]);
    assert [] + Unknowns(Body(s)) == Unknowns(Body(s));
  }

  // ---------------------------------------------------------------- the checksum

  /** An accepted file with up to four consecutive octets after its header changed is refused. */
  lemma BurstRefused(before: seq<byte>, a: seq<byte>, b: seq<byte>, after: seq<byte>)
    requires |a| == |b| <= 4 && a != b
    requires Load(before + a + after).Some?
    requires |before| >= if Get16((before + a + after)[8..]) == 1 then V1_HEADER else V2_HEADER
    ensures Load(before + b + after) == None
  {
    hide Valid, Get32, Crc32.Checksum, Crc32.ReadWord, Defaults, TakeAll;
    var f, g := before + a + after, before + b + after;
    assert f[..|before|] == before == g[..|before|];
    if Get16(f[8..]) == 1 {
      SameHeader(f, g, V1_HEADER);
      BurstShifts(before, a, b, after, 8, 36, 40);
    } else {
      SameHeader(f, g, V2_HEADER);
      BurstShifts(before, a, b, after, 8, 16, 20);
    }
  }

  lemma SameHeader(f: seq<byte>, g: seq<byte>, size: nat)
    requires 20 <= size <= |f| == |g| && f[..size] == g[..size]
    ensures f[..8] == g[..8] && f[8..16] == g[8..16] && f[16..20] == g[16..20]
    ensures Get16(f[8..]) == Get16(g[8..]) && Get16(f[10..]) == Get16(g[10..]) && Get16(f[12..]) == Get16(g[12..])
    ensures f[12..16] == g[12..16]
    ensures size >= 40 ==> f[8..36] == g[8..36] && f[36..40] == g[36..40]
  {
    assert forall i :: 0 <= i < size ==> f[i] == f[..size][i] == g[i];
  }

  lemma BurstShifts(before: seq<byte>, a: seq<byte>, b: seq<byte>, after: seq<byte>, from: nat, to: nat, start: nat)
    requires from <= to <= start <= |before| && |a| == |b| <= 4 && a != b
    ensures var f, g := before + a + after, before + b + after;
            Crc32.Checksum(f[from..to] + f[start..]) != Crc32.Checksum(g[from..to] + g[start..])
  {
    hide Crc32.Checksum;
    var f, g := before + a + after, before + b + after;
    var prefix := before[from..to] + before[start..];
    Crc32.BurstDetected(prefix, a, b, after);
    assert f[from..to] + f[start..] == prefix + a + after;
    assert g[from..to] + g[start..] == prefix + b + after;
  }
}
