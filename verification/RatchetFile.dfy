/** The signed MessagePack file that mirrors a ratchet list: the writer's layout and the
    reader, which accepts more than the writer produces. */
module RatchetFile {
  import opened Common

  const KEY_SIZE := 32
  const MAX_RETAINED := 512
  const PACKED_MAX := 3 + MAX_RETAINED * (2 + KEY_SIZE)
  const FILE_MAX := 1 + 10 + 3 + 64 + 9 + 3 + PACKED_MAX

  type Key = k: seq<byte> | |k| == KEY_SIZE witness seq(KEY_SIZE, i => 0)

  /** The identity's signature, as far as the file needs it. */
  datatype Signer = Signer(sign: seq<byte> -> Option<seq<byte>>, verify: (seq<byte>, seq<byte>) -> bool)
  {
    ghost predicate Sound() {
      forall m: seq<byte> :: sign(m).Some? ==> |sign(m).value| == 64 && verify(m, sign(m).value)
    }
  }

  // ---------------------------------------------------------------- writing

  function Put16(value: nat): seq<byte>
    requires value < 65536
  {
    [value / 256, value % 256]
  }

  function BinHeader(length: nat): seq<byte>
    requires length < 65536
  {
    if length <= 255 then [0xc4, length] else [0xc5] + Put16(length)
  }

  function PackKey(key: Key): seq<byte> {
    [0xc4, KEY_SIZE] + key
  }

  function ArrayHeader(count: nat): seq<byte>
    requires count < 65536
  {
    if count <= 15 then [0x90 + count] else [0xdc] + Put16(count)
  }

  function PackKeys(keys: seq<Key>): seq<byte> {
    if keys == [] then [] else PackKeys(keys[..|keys| - 1]) + PackKey(keys[|keys| - 1])
  }

  function Pack(keys: seq<Key>): seq<byte>
    requires |keys| <= MAX_RETAINED
  {
    ArrayHeader(|keys|) + PackKeys(keys)
  }

  const SIGNATURE: seq<byte> := [0x73, 0x69, 0x67, 0x6e, 0x61, 0x74, 0x75, 0x72, 0x65]
  const RATCHETS: seq<byte> := [0x72, 0x61, 0x74, 0x63, 0x68, 0x65, 0x74, 0x73]

  function FileBytes(signature: seq<byte>, packed: seq<byte>): seq<byte>
    requires |signature| == 64 && |packed| < 65536
  {
    [0x82] + ([0xa9] + SIGNATURE) + (BinHeader(64) + signature)
    + ([0xa8] + RATCHETS) + (BinHeader(|packed|) + packed)
  }

  // ---------------------------------------------------------------- reading

  /** What was read, and what is left. */
  datatype Item<T> = Item(value: T, rest: seq<byte>)

  function BigEndian(bytes: seq<byte>): nat {
    if bytes == [] then 0 else BigEndian(bytes[..|bytes| - 1]) * 256 + bytes[|bytes| - 1]
  }

  /** A length of `width` octets, then that many octets. */
  function ReadSized(input: seq<byte>, width: nat): Option<Item<seq<byte>>> {
    if |input| < width then None
    else
      var length, rest := BigEndian(input[..width]), input[width..];
      if length > |rest| then None else Some(Item(rest[..length], rest[length..]))
  }

  /** The reader takes string markers for binary ones too. */
  function ReadBin(input: seq<byte>): Option<Item<seq<byte>>> {
    if input == [] then None
    else if input[0] in {0xc4, 0xd9} then ReadSized(input[1..], 1)
    else if input[0] in {0xc5, 0xda} then ReadSized(input[1..], 2)
    else if input[0] in {0xc6, 0xdb} then ReadSized(input[1..], 4)
    else None
  }

  function ReadString(input: seq<byte>): Option<Item<seq<byte>>> {
    if input == [] then None
    else if 0xa0 <= input[0] <= 0xbf then
      var length, rest := input[0] - 0xa0, input[1..];
      if length > |rest| then None else Some(Item(rest[..length], rest[length..]))
    else if input[0] == 0xd9 then ReadSized(input[1..], 1)
    else if input[0] == 0xda then ReadSized(input[1..], 2)
    else if input[0] == 0xdb then ReadSized(input[1..], 4)
    else None
  }

  function ReadCount(input: seq<byte>): Option<Item<nat>> {
    if input == [] then None
    else if 0x90 <= input[0] <= 0x9f then Some(Item(input[0] - 0x90, input[1..]))
    else
      var width := if input[0] == 0xdc then 2 else if input[0] == 0xdd then 4 else 0;
      if width == 0 || |input| - 1 < width then None
      else Some(Item(BigEndian(input[1..1 + width]), input[1 + width..]))
  }

  /** The next `count` keys, and nothing after them. */
  function ReadKeys(input: seq<byte>, count: nat): Option<seq<Key>> {
    if count == 0 then if input == [] then Some([]) else None
    else
      match ReadBin(input)
      case None => None
      case Some(item) =>
        if |item.value| != KEY_SIZE then None
        else
          match ReadKeys(item.rest, count - 1)
          case None => None
          case Some(more) => Some([item.value] + more)
  }

  function Unpack(packed: seq<byte>): Option<seq<Key>> {
    match ReadCount(packed)
    case None => None
    case Some(item) => if item.value > MAX_RETAINED then None else ReadKeys(item.rest, item.value)
  }

  datatype Loaded = Keys(keys: seq<Key>) | Failed(status: Status)

  function Truncate(keys: seq<Key>, retained: nat): seq<Key> {
    if |keys| <= retained then keys else keys[..retained]
  }

  /** The two fields may come in either order; a repeated one leaves the other missing. */
  datatype Fields = Fields(signature: Option<seq<byte>>, packed: Option<seq<byte>>)

  function ReadFields(input: seq<byte>, count: nat, so: Fields): Option<Item<Fields>>
    decreases count
  {
    if count == 0 then Some(Item(so, input))
    else
      match ReadString(input)
      case None => None
      case Some(key) =>
        match ReadBin(key.rest)
        case None => None
        case Some(value) =>
          if key.value == SIGNATURE then ReadFields(value.rest, count - 1, so.(signature := Some(value.value)))
          else if key.value == RATCHETS then ReadFields(value.rest, count - 1, so.(packed := Some(value.value)))
          else None
  }

  function LoadFile(file: seq<byte>, retained: nat, signer: Signer): Loaded {
    if |file| == 0 || |file| > FILE_MAX || file[0] != 0x82 then Failed(Protocol)
    else
      match ReadFields(file[1..], 2, Fields(None, None))
      case None => Failed(Protocol)
      case Some(item) =>
        var f := item.value;
        if item.rest != [] || f.signature.None? || f.packed.None? || |f.signature.value| != 64
           || |f.packed.value| > PACKED_MAX || !signer.verify(f.packed.value, f.signature.value)
        then Failed(Crypto)
        else
          match Unpack(f.packed.value)
          case None => Failed(Protocol)
          case Some(keys) => Keys(Truncate(keys, retained))
  }

  // ---------------------------------------------------------------- round trip

  lemma {:induction false} PackedSize(keys: seq<Key>)
    ensures |PackKeys(keys)| == 34 * |keys|
  {
    if keys != [] {
      PackedSize(keys[..|keys| - 1]);
    }
  }

  lemma ReadSizedExact(width: nat, length: seq<byte>, data: seq<byte>, rest: seq<byte>)
    requires |length| == width && BigEndian(length) == |data|
    ensures ReadSized(length + data + rest, width) == Some(Item(data, rest))
  {
    hide BigEndian;
    var input := length + data + rest;
    assert input[..width] == length && input[width..] == data + rest;
    assert (data + rest)[..|data|] == data && (data + rest)[|data|..] == rest;
  }

  lemma BigEndianOne(a: byte)
    ensures BigEndian([a]) == a
  {
  }

  lemma BigEndianTwo(a: byte, b: byte)
    ensures BigEndian([a, b]) == a * 256 + b
  {
    BigEndianOne(a);
    assert [a, b][..1] == [a];
  }

  /** A binary value of any length the writer uses reads back, whatever follows it. */
  lemma BinReads(data: seq<byte>, rest: seq<byte>)
    requires |data| < 65536
    ensures ReadBin(BinHeader(|data|) + data + rest) == Some(Item(data, rest))
  {
    hide BigEndian, ReadSized;
    var input := BinHeader(|data|) + data + rest;
    if |data| <= 255 {
      BigEndianOne(|data|);
      ReadSizedExact(1, [|data|], data, rest);
      assert input[1..] == [|data|] + data + rest;
    } else {
      BigEndianTwo(|data| / 256, |data| % 256);
      ReadSizedExact(2, Put16(|data|), data, rest);
      assert input[1..] == Put16(|data|) + data + rest;
    }
  }

  lemma NameReads(name: seq<byte>, rest: seq<byte>)
    requires |name| < 32
    ensures ReadString([0xa0 + |name|] + name + rest) == Some(Item(name, rest))
  {
    var input := [0xa0 + |name|] + name + rest;
    assert input[1..] == name + rest;
    assert (name + rest)[..|name|] == name && (name + rest)[|name|..] == rest;
  }

  lemma CountReads(count: nat, rest: seq<byte>)
    requires count <= MAX_RETAINED
    ensures ReadCount(ArrayHeader(count) + rest) == Some(Item(count, rest))
  {
    hide BigEndian;
    var input := ArrayHeader(count) + rest;
    if count > 15 {
      BigEndianTwo(count / 256, count % 256);
      assert input[1..3] == Put16(count) && input[3..] == rest;
    } else {
      assert input[1..] == rest;
    }
  }

  lemma {:induction false} KeysFront(keys: seq<Key>)
    requires keys != []
    ensures PackKeys(keys) == PackKey(keys[0]) + PackKeys(keys[1..])
  {
    hide PackKeys, PackKey;
    PackSnoc(keys);
    if |keys| == 1 {
      PackNone();
      assert keys[..0] == [] && keys[1..] == [];
    } else {
      var rest := keys[..|keys| - 1];
      KeysFront(rest);
      PackSnoc(keys[1..]);
      assert rest[1..] == keys[1..][..|keys| - 2];
    }
  }

  lemma PackSnoc(keys: seq<Key>)
    requires keys != []
    ensures PackKeys(keys) == PackKeys(keys[..|keys| - 1]) + PackKey(keys[|keys| - 1])
  {
  }

  lemma PackNone()
    ensures PackKeys([]) == []
  {
  }

  lemma {:induction false} KeysRead(keys: seq<Key>)
    ensures ReadKeys(PackKeys(keys), |keys|) == Some(keys)
  {
    hide ReadBin;
    if keys != [] {
      KeysFront(keys);
      BinReads(keys[0], PackKeys(keys[1..]));
      assert BinHeader(KEY_SIZE) + keys[0] + PackKeys(keys[1..]) == PackKeys(keys);
      KeysRead(keys[1..]);
      assert [keys[0]] + keys[1..] == keys;
    }
  }

  lemma PackReads(keys: seq<Key>)
    requires |keys| <= MAX_RETAINED
    ensures Unpack(Pack(keys)) == Some(keys)
    ensures 0 < |Pack(keys)| <= PACKED_MAX
  {
    hide ReadKeys, ReadCount, PackKeys;
    CountReads(|keys|, PackKeys(keys));
    KeysRead(keys);
    PackedSize(keys);
  }

  /** The two fields, read back. */
  lemma FieldsRead(signature: seq<byte>, packed: seq<byte>)
    requires |signature| == 64 && |packed| < 65536
    ensures ReadFields(FileBytes(signature, packed)[1..], 2, Fields(None, None))
         == Some(Item(Fields(Some(signature), Some(packed)), []))
  {
    hide ReadBin, ReadString, BinHeader;
    var last := BinHeader(|packed|) + packed;
    var second := ([0xa8] + RATCHETS) + last;
    var value := (BinHeader(64) + signature) + second;
    assert FileBytes(signature, packed)[1..] == [0xa9] + SIGNATURE + value;
    NameReads(SIGNATURE, value);
    BinReads(signature, second);
    NameReads(RATCHETS, last);
    BinReads(packed, []);
    assert last + [] == last;
    SecondField(last, Fields(Some(signature), None), packed);
  }

  lemma SecondField(last: seq<byte>, so: Fields, packed: seq<byte>)
    requires ReadString([0xa8] + RATCHETS + last) == Some(Item(RATCHETS, last))
    requires ReadBin(last) == Some(Item(packed, []))
    ensures ReadFields([0xa8] + RATCHETS + last, 1, so) == Some(Item(so.(packed := Some(packed)), []))
  {
    hide ReadBin, ReadString;
    assert ReadFields([], 0, so.(packed := Some(packed))) == Some(Item(so.(packed := Some(packed)), []));
  }

  /** Reading what was written gives the list back, cut to what the reader retains. */
  lemma FileRoundTrip(keys: seq<Key>, retained: nat, signer: Signer)
    requires |keys| <= MAX_RETAINED && signer.Sound() && signer.sign(Pack(keys)).Some?
    ensures |Pack(keys)| < 65536
    ensures LoadFile(FileBytes(signer.sign(Pack(keys)).value, Pack(keys)), retained, signer)
         == Keys(Truncate(keys, retained))
  {
    hide ReadFields, Unpack, Pack;
    PackReads(keys);
    FieldsRead(signer.sign(Pack(keys)).value, Pack(keys));
  }

  /** No file is accepted unless the identity's signature covers its ratchets. */
  lemma LoadedIsSigned(file: seq<byte>, retained: nat, signer: Signer)
    requires LoadFile(file, retained, signer).Keys?
    ensures exists packed: seq<byte>, signature ::
              signer.verify(packed, signature) && Unpack(packed).Some?
              && LoadFile(file, retained, signer).keys == Truncate(Unpack(packed).value, retained)
  {
    var f := ReadFields(file[1..], 2, Fields(None, None)).value.value;
    assert signer.verify(f.packed.value, f.signature.value);
  }
}
