/** The ratchet store: a bounded newest-first list of private keys, mirrored by a file.
    A rotation that cannot be persisted is undone. */
module RatchetStore {
  import opened Common
  import opened RatchetFile
  import opened Identity

  const DEFAULT_INTERVAL: u64 := 1800

  /** The slots after a new key has been put in front of the first `count`; a full list
      loses its last. */
  function Pushed(slots: seq<Key>, count: nat, next: Key): seq<Key>
    requires count <= |slots| && 0 < |slots|
  {
    var keep := if count < |slots| - 1 then count else |slots| - 1;
    [next] + slots[..keep] + slots[keep + 1..]
  }

  /** The slots after the front key has been taken out again. */
  function Popped(slots: seq<Key>, count: nat, oldest: Key): seq<Key>
    requires count <= |slots| && 0 < |slots|
  {
    if count == |slots| then slots[1..] + [oldest] else slots[1..count + 1] + slots[count..]
  }

  lemma PushedIsRotation(slots: seq<Key>, count: nat, history: seq<Key>, next: Key)
    requires count <= |slots| && 0 < |slots| && slots[..count] == Truncate(history, |slots|)
    ensures Pushed(slots, count, next)[..if count < |slots| then count + 1 else count]
         == Truncate([next] + history, |slots|)
  {
  }

  lemma PopUndoesPush(slots: seq<Key>, count: nat, next: Key)
    requires count <= |slots| && 0 < |slots|
    ensures |Pushed(slots, count, next)| == |slots|
    ensures Popped(Pushed(slots, count, next), count, slots[|slots| - 1])[..count] == slots[..count]
  {
  }

  class Store {
    const signer: Signer
    const suite: Suite
    const privateKeys: array<Key>
    const interval: u64
    var count: nat
    var latestRotation: u64

    ghost var file: seq<byte>          // what the path holds
    ghost var rotations: seq<Key>      // persisted rotations, newest first
    ghost var loaded: seq<Key>         // the list found at opening

    ghost predicate Shape()
      reads this
    {
      0 < privateKeys.Length <= MAX_RETAINED && count <= privateKeys.Length && signer.Sound()
    }

    ghost function Keys(): seq<Key>
      reads this, privateKeys
      requires count <= privateKeys.Length
    {
      privateKeys[..count]
    }

    ghost function History(): seq<Key>
      reads this
    {
      rotations + loaded
    }

    ghost predicate Valid()
      reads this, privateKeys
    {
      && Shape()
      && Keys() == Truncate(History(), privateKeys.Length)
      && LoadFile(file, privateKeys.Length, signer) == Loaded.Keys(Keys())
    }

    /** An empty store; `Open` fills it. */
    constructor (s: Signer, u: Suite, retained: nat, i: u64)
      requires 0 < retained <= MAX_RETAINED && s.Sound()
      ensures Shape() && fresh(privateKeys) && privateKeys.Length == retained && signer == s && suite == u
      ensures count == 0 && rotations == [] && loaded == [] && latestRotation == 0 && file == [] && interval == i
    {
      signer, suite, interval := s, u, i;
      privateKeys := new Key[retained](_ => seq(KEY_SIZE, k => 0));
      count, latestRotation := 0, 0;
      file, rotations, loaded := [], [], [];
    }

    /** Opens the file, or creates it empty; `disk` and `writing` are the file system's answers. */
    static method Open(s: Signer, u: Suite, hasPrivate: bool, wanted: nat, i: u64, disk: Disk, writing: Status)
      returns (status: Status, store: Store?)
      requires s.Sound()
      ensures status == Ok ==> store != null && fresh(store) && store.Valid()
      ensures status == Ok ==> store.rotations == [] && store.latestRotation == 0
                               && store.privateKeys.Length == (if wanted == 0 then MAX_RETAINED else wanted)
                               && store.interval == (if i == 0 then DEFAULT_INTERVAL else i)
      ensures status == Ok && disk.Present? ==> store.file == disk.bytes
      ensures status == Ok && disk.Missing? ==> store.loaded == []
      ensures !hasPrivate || wanted > MAX_RETAINED ==> status == InvalidArgument
      ensures status != Ok ==> store == null
      ensures disk.Present? && hasPrivate && wanted <= MAX_RETAINED ==>
                status == match LoadFile(disk.bytes, if wanted == 0 then MAX_RETAINED else wanted, s)
                          case Keys(_) => Ok
                          case Failed(e) => e
      ensures disk.Unreadable? && hasPrivate && wanted <= MAX_RETAINED ==> status == Io
      ensures disk.Missing? && hasPrivate && wanted <= MAX_RETAINED ==>
                status == if s.sign(Pack([])).None? then Crypto else writing
    {
      hide LoadFile, Truncate;
      if !hasPrivate || wanted > MAX_RETAINED {
        return InvalidArgument, null;
      }
      store := new Store(s, u, if wanted == 0 then MAX_RETAINED else wanted, if i == 0 then DEFAULT_INTERVAL else i);
      TruncateFits(store.Keys(), store.privateKeys.Length);
      match disk {
        case Unreadable =>
          status := Io;
        case Missing =>
          status := store.Persist(writing);
        case Present(bytes) =>
          var found;
          status, found := LoadInto(bytes, store.privateKeys, s);
          store.count, store.file := found, bytes;
          store.loaded := store.privateKeys[..found];
          TruncateFits(store.Keys(), store.privateKeys.Length);
      }
      if status != Ok {
        store := null;
      }
    }

    /** The MessagePack array of the present list. */
    method PackRatchets() returns (packed: seq<byte>)
      requires Shape()
      ensures packed == Pack(Keys())
    {
      packed := ArrayHeader(count);
      for index := 0 to count
        invariant packed == ArrayHeader(count) + PackKeys(privateKeys[..index])
      {
        assert privateKeys[..index + 1][..index] == privateKeys[..index];
        packed := packed + ([0xc4, KEY_SIZE] + privateKeys[index]);
      }
    }

    /** Replaces the file by the signed present list, or leaves it alone. */
    method Persist(writing: Status) returns (status: Status)
      requires Shape()
      modifies this`file
      ensures status == Ok <==> writing == Ok && signer.sign(Pack(Keys())).Some?
      ensures status == Ok ==> LoadFile(file, privateKeys.Length, signer) == Loaded.Keys(Keys())
      ensures status != Ok ==> file == old(file) && status == if signer.sign(Pack(Keys())).None? then Crypto else writing
    {
      hide LoadFile, FileBytes, Pack;
      var packed := PackRatchets();
      PackReads(Keys());
      var signature := signer.sign(packed);
      if signature.None? {
        return Crypto;
      }
      if writing == Ok {
        FileRoundTrip(Keys(), privateKeys.Length, signer);
        file := FileBytes(signature.value, packed);
      }
      return writing;
    }

    predicate Due(now: u64)
      reads this
    {
      count == 0 || (now > latestRotation && now - latestRotation > interval)
    }

    method PushFront(next: Key)
      requires Shape()
      modifies this`count, privateKeys
      ensures privateKeys[..] == Pushed(old(privateKeys[..]), old(count), next)
      ensures count == if old(count) < privateKeys.Length then old(count) + 1 else old(count)
    {
      var keep := if count < privateKeys.Length - 1 then count else privateKeys.Length - 1;
      forall j | 0 <= j < keep {
        privateKeys[j + 1] := privateKeys[j];
      }
      privateKeys[0] := next;
      if count < privateKeys.Length {
        count := count + 1;
      }
    }

    method PopFront(oldCount: nat, oldest: Key)
      requires Shape() && oldCount <= privateKeys.Length
      modifies this`count, privateKeys
      ensures privateKeys[..] == Popped(old(privateKeys[..]), oldCount, oldest) && count == oldCount
    {
      var keep := if oldCount < privateKeys.Length - 1 then oldCount else privateKeys.Length - 1;
      forall j | 0 <= j < keep {
        privateKeys[j] := privateKeys[j + 1];
      }
      if oldCount == privateKeys.Length {
        privateKeys[privateKeys.Length - 1] := oldest;
      }
      count := oldCount;
    }

    /** A due rotation. Persisted, it is the new front of the history; otherwise the list,
        its length, the rotation time and the file are exactly what they were. */
    method Rotate(now: u64, next: Key, writing: Status) returns (status: Status)
      requires Valid()
      modifies this, privateKeys
      ensures Valid()
      ensures status == Ok <==> writing == Ok && signer.sign(Pack(Truncate([next] + old(History()), privateKeys.Length))).Some?
      ensures status == Ok ==> rotations == [next] + old(rotations) && latestRotation == now && loaded == old(loaded)
      ensures status != Ok ==> Keys() == old(Keys()) && latestRotation == old(latestRotation)
                               && file == old(file) && rotations == old(rotations) && loaded == old(loaded)
      ensures status != Ok ==>
                status == if signer.sign(Pack(Truncate([next] + old(History()), privateKeys.Length))).None? then Crypto
                          else writing
    {
      hide LoadFile, Pushed, Popped, Truncate, Signer.Sound;
      ghost var slots := privateKeys[..];
      var oldest := privateKeys[privateKeys.Length - 1];
      var oldCount, oldRotation := count, latestRotation;
      assert slots[..count] == Keys();
      PushedIsRotation(slots, count, History(), next);
      PopUndoesPush(slots, count, next);
      PushFront(next);
      latestRotation := now;
      assert Keys() == privateKeys[..][..count];
      status := Persist(writing);
      if status != Ok {
        PopFront(oldCount, oldest);
        latestRotation := oldRotation;
        assert Keys() == privateKeys[..][..count];
      } else {
        assert [next] + rotations + loaded == [next] + (rotations + loaded);
        rotations := [next] + rotations;
      }
    }

    /** The current ratchet, rotating first when that is due. `generated` is the fresh key. */
    method Current(now: u64, generated: Option<Key>, writing: Status)
      returns (status: Status, private: Key, public: Key, id: seq<byte>, rotated: bool)
      requires Valid()
      modifies this, privateKeys
      ensures Valid() && loaded == old(loaded)
      ensures rotated <==> old(Due(now)) && generated.Some? && writing == Ok
                           && signer.sign(Pack(Truncate([generated.value] + old(History()), privateKeys.Length))).Some?
      ensures rotated ==> rotations == [generated.value] + old(rotations) && latestRotation == now
      ensures !rotated ==> Keys() == old(Keys()) && latestRotation == old(latestRotation) && file == old(file)
                           && rotations == old(rotations)
      ensures old(Due(now)) && !rotated ==>
                && status != Ok
                && status == if generated.None?
                                || signer.sign(Pack(Truncate([generated.value] + old(History()), privateKeys.Length))).None?
                             then Crypto else writing
      ensures rotated || !old(Due(now)) ==> History() != [] && status == (if suite.public(History()[0]).Some? then Ok else Crypto)
      ensures status == Ok ==> History() != [] && private == History()[0] && suite.public(private) == Some(public)
                               && id == suite.id(public)
    {
      hide LoadFile, Truncate, Pack, Signer.Sound;
      TruncateFront(History(), privateKeys.Length);
      private, public, id, rotated := seq(KEY_SIZE, k => 0), seq(KEY_SIZE, k => 0), [], false;
      if Due(now) {
        if generated.None? {
          return Crypto, private, public, id, false;
        }
        status := Rotate(now, generated.value, writing);
        if status != Ok {
          return;
        }
        rotated := true;
      }
      TruncateFront(History(), privateKeys.Length);
      private := privateKeys[0];
      var derived := suite.public(private);
      if derived.None? {
        status := Crypto;
      } else {
        status, public, id := Ok, derived.value, suite.id(derived.value);
      }
    }

    /** The list for decryption, newest first. */
    method CopyPrivate(target: array<Key>) returns (status: Status, keyCount: nat)
      requires Valid() && target != privateKeys
      modifies target
      ensures Valid() && keyCount == count
      ensures status == Ok <==> count <= target.Length
      ensures status == Ok ==> target[..keyCount] == Truncate(History(), privateKeys.Length)
      ensures status != Ok ==> status == Overflow && target[..] == old(target[..])
    {
      hide LoadFile;
      keyCount := count;
      if target.Length < count {
        return Overflow, keyCount;
      }
      forall j | 0 <= j < count {
        target[j] := privateKeys[j];
      }
      assert target[..count] == privateKeys[..count];
      return Ok, keyCount;
    }
  }

  lemma TruncateFront(keys: seq<Key>, retained: nat)
    requires retained > 0
    ensures Truncate(keys, retained) == [] <==> keys == []
    ensures keys != [] ==> Truncate(keys, retained)[0] == keys[0]
  {
  }

  lemma TruncateFits(keys: seq<Key>, retained: nat)
    requires |keys| <= retained
    ensures Truncate([] + keys, retained) == keys
  {
    assert [] + keys == keys;
  }

  lemma LoadFailure(file: seq<byte>, retained: nat, signer: Signer)
    ensures LoadFile(file, retained, signer).Failed? ==> LoadFile(file, retained, signer).status != Ok
  {
    hide ReadFields, Unpack;
  }

  /** The outcome of reading on after `read`. */
  ghost function Resumed(read: seq<Key>, more: Option<seq<Key>>): Option<seq<Key>> {
    if more.Some? then Some(read + more.value) else None
  }

  lemma ResumedStart(more: Option<seq<Key>>)
    ensures Resumed([], more) == more
  {
    assert more.Some? ==> [] + more.value == more.value;
  }

  lemma ResumedEnd(read: seq<Key>)
    ensures Resumed(read, ReadKeys([], 0)) == Some(read)
    ensures forall rest: seq<byte> :: rest != [] ==> ReadKeys(rest, 0).None?
    ensures Resumed(read, None).None?
  {
    assert read + [] == read;
  }

  lemma ResumedStep(read: seq<Key>, rest: seq<byte>, count: nat)
    requires count > 0
    ensures Resumed(read, ReadKeys(rest, count))
         == match ReadBin(rest)
            case None => None
            case Some(item) => if |item.value| != KEY_SIZE then None
                               else Resumed(read + [item.value], ReadKeys(item.rest, count - 1))
  {
    hide ReadBin;
    var item := ReadBin(rest);
    if item.Some? && |item.value.value| == KEY_SIZE {
      var more := ReadKeys(item.value.rest, count - 1);
      assert more.Some? ==> read + ([item.value.value] + more.value) == read + [item.value.value] + more.value;
    }
  }

  /** The keys of a packed array, read one by one; those beyond the target are checked and
      dropped. */
  method UnpackInto(packed: seq<byte>, target: array<Key>) returns (status: Status, count: nat)
    modifies target
    ensures status == if Unpack(packed).Some? then Ok else Protocol
    ensures count <= target.Length
    ensures status == Ok ==> target[..count] == Truncate(Unpack(packed).value, target.Length)
  {
    hide ReadBin, ReadKeys, Resumed;
    var header := ReadCount(packed);
    if header.None? || header.value.value > MAX_RETAINED {
      return Protocol, 0;
    }
    var total, rest := header.value.value, header.value.rest;
    ghost var read: seq<Key> := [];
    ResumedStart(ReadKeys(rest, total));
    for index := 0 to total
      invariant |read| == index
      invariant Unpack(packed) == Resumed(read, ReadKeys(rest, total - index))
      invariant forall j :: 0 <= j < index && j < target.Length ==> target[j] == read[j]
    {
      ResumedStep(read, rest, total - index);
      var item := ReadBin(rest);
      if item.None? || |item.value.value| != KEY_SIZE {
        return Protocol, 0;
      }
      if index < target.Length {
        target[index] := item.value.value;
      }
      read, rest := read + [item.value.value], item.value.rest;
    }
    ResumedEnd(read);
    if rest != [] {
      return Protocol, 0;
    }
    return Ok, if total < target.Length then total else target.Length;
  }

  /** The two named fields of a file, in the order they come. */
  method ReadTwoFields(input: seq<byte>) returns (result: Option<Item<Fields>>)
    ensures result == ReadFields(input, 2, Fields(None, None))
  {
    hide ReadString, ReadBin;
    var fields, rest := Fields(None, None), input;
    for field := 0 to 2
      invariant ReadFields(input, 2, Fields(None, None)) == ReadFields(rest, 2 - field, fields)
    {
      var key := ReadString(rest);
      if key.None? {
        return None;
      }
      var value := ReadBin(key.value.rest);
      if value.None? {
        return None;
      }
      rest := value.value.rest;
      if key.value.value == SIGNATURE {
        fields := fields.(signature := Some(value.value.value));
      } else if key.value.value == RATCHETS {
        fields := fields.(packed := Some(value.value.value));
      } else {
        return None;
      }
    }
    return Some(Item(fields, rest));
  }

  /** Reads a file image into the key slots. */
  method LoadInto(file: seq<byte>, target: array<Key>, signer: Signer) returns (status: Status, count: nat)
    modifies target
    ensures status == match LoadFile(file, target.Length, signer) case Keys(_) => Ok case Failed(e) => e
    ensures count <= target.Length
    ensures status == Ok ==> LoadFile(file, target.Length, signer) == Loaded.Keys(target[..count])
  {
    hide Unpack, ReadFields, Truncate;
    LoadFailure(file, target.Length, signer);
    if |file| == 0 || |file| > FILE_MAX || file[0] != 0x82 {
      return Protocol, 0;
    }
    var item := ReadTwoFields(file[1..]);
    if item.None? {
      return Protocol, 0;
    }
    var fields := item.value.value;
    if item.value.rest != [] || fields.signature.None? || fields.packed.None? || |fields.signature.value| != 64
       || |fields.packed.value| > PACKED_MAX || !signer.verify(fields.packed.value, fields.signature.value) {
      return Crypto, 0;
    }
    status, count := UnpackInto(fields.packed.value, target);
  }

  // ---------------------------------------------------------------- decryptability

  /** Whatever was current stays in the list until `retained` further rotations have been
      persisted, and exactly until then by position. */
  lemma CurrentSurvives(history: seq<Key>, newer: seq<Key>, retained: nat)
    requires history != [] && |newer| < retained
    ensures history[0] in Truncate(newer + history, retained)
    ensures Truncate(newer + history, retained)[|newer|] == history[0]
  {
    assert (newer + history)[|newer|] == history[0];
  }

  /** A ciphertext made to the ratchet that was current when the store's history was
      `history` decrypts, with ratchets enforced, as long as fewer than `retained`
      rotations have been persisted since; the ratchet reported is that one. */
  lemma CurrentDecrypts(store: Store, suite: Suite, identity: Identity, history: seq<Key>, newer: seq<Key>,
                        plaintext: seq<byte>, room: nat, outRoom: nat, ephemeral: Option<Key>, iv: seq<byte>)
    requires store.Valid() && store.History() == newer + history && history != []
    requires |newer| < store.privateKeys.Length
    requires suite.Sound() && identity.hasPrivate && suite.public(history[0]).Some?
    requires Padded(|plaintext|) <= outRoom
    requires Encrypt(suite, identity, suite.public(history[0]), plaintext, room, ephemeral, iv).Some?
    ensures Decrypt(suite, identity, store.Keys(), true,
                    Encrypt(suite, identity, suite.public(history[0]), plaintext, room, ephemeral, iv).value, outRoom)
         == Some(Decrypted(plaintext, Some(suite.id(suite.public(history[0]).value))))
  {
    hide LoadFile, Encrypt, Decrypt, Suite.Sound;
    CurrentSurvives(history, newer, store.privateKeys.Length);
    RatchetDecrypts(suite, identity, history[0], store.Keys(), true, plaintext, room, outRoom, ephemeral, iv);
  }
}
