/** Encryption to an identity or to one of its ratchets, over abstract primitives. */
module Identity {
  import opened Common
  import opened RatchetFile

  const SIZE_MAX: nat := UINT64_MAX

  /** The primitives. `seal` is given the random initialisation vector; `unseal` the room
      there is for the plaintext; `id` is the truncated digest of a public key. */
  datatype Suite = Suite(public: Key -> Option<Key>,
                         exchange: (Key, Key) -> Option<Key>,
                         derive: (Key, seq<byte>) -> Option<seq<byte>>,
                         seal: (seq<byte>, seq<byte>, seq<byte>) -> Option<seq<byte>>,
                         unseal: (seq<byte>, seq<byte>, nat) -> Option<seq<byte>>,
                         id: Key -> seq<byte>)
  {
    /** The token key that a private key and a peer's public key lead to. */
    function TokenKey(private: Key, peer: Key, salt: seq<byte>): Option<seq<byte>> {
      match exchange(private, peer)
      case None => None
      case Some(shared) => derive(shared, salt)
    }

    /** Both sides of an exchange agree. */
    ghost predicate Agrees() {
      forall a: Key, b: Key :: public(a).Some? && public(b).Some? ==>
        exchange(a, public(b).value) == exchange(b, public(a).value)
    }

    /** Private keys that lead to one token key have one public key. */
    ghost predicate Separates() {
      forall a: Key, b: Key, peer: Key, salt: seq<byte> ::
        TokenKey(a, peer, salt).Some? && TokenKey(a, peer, salt) == TokenKey(b, peer, salt)
        ==> public(a) == public(b)
    }

    /** A token opens under its own key, given room, and under no other. */
    ghost predicate Authentic() {
      && (forall k: seq<byte>, iv: seq<byte>, p: seq<byte> :: seal(k, iv, p).Some? ==>
            |seal(k, iv, p).value| == 48 + Padded(|p|))
      && (forall k: seq<byte>, k': seq<byte>, iv: seq<byte>, p: seq<byte>, room: nat :: seal(k, iv, p).Some? ==>
            unseal(k', seal(k, iv, p).value, room) == if k == k' && Padded(|p|) <= room then Some(p) else None)
    }

    ghost predicate Sound() {
      Agrees() && Separates() && Authentic()
    }
  }

  datatype Identity = Identity(encryptionPrivate: Key, encryptionPublic: Key, hash: seq<byte>, hasPrivate: bool)

  // ---------------------------------------------------------------- sizes

  function Padded(length: nat): nat {
    (length / 16 + 1) * 16
  }

  function EncryptBound(length: nat): nat {
    if length > SIZE_MAX - 16 then 0
    else
      var blocks := length / 16 + 1;
      if blocks > (SIZE_MAX - 80) / 16 then 0 else 80 + blocks * 16
  }

  /** Zero exactly when the ciphertext could not be addressed, and exact otherwise. */
  lemma EncryptBoundExact(length: nat)
    ensures EncryptBound(length) == if 80 + Padded(length) <= SIZE_MAX then 80 + Padded(length) else 0
  {
  }

  // ---------------------------------------------------------------- encryption

  /** `ephemeral` is the fresh key pair's private half, if one could be generated. */
  function Encrypt(suite: Suite, identity: Identity, ratchet: Option<Key>, plaintext: seq<byte>,
                   room: nat, ephemeral: Option<Key>, iv: seq<byte>): Option<seq<byte>>
  {
    var bound := EncryptBound(|plaintext|);
    if bound == 0 || room < bound || ephemeral.None? || suite.public(ephemeral.value).None? then None
    else
      var target := if ratchet.Some? then ratchet.value else identity.encryptionPublic;
      match suite.TokenKey(ephemeral.value, target, identity.hash)
      case None => None
      case Some(key) =>
        match suite.seal(key, iv, plaintext)
        case None => None
        case Some(token) => Some(suite.public(ephemeral.value).value + token)
  }

  // ---------------------------------------------------------------- decryption

  /** A plaintext, and the identifier of the ratchet that opened it, if one did. */
  datatype Decrypted = Decrypted(plaintext: seq<byte>, ratchet: Option<seq<byte>>)

  function OpenWith(suite: Suite, identity: Identity, private: Key, ciphertext: seq<byte>, room: nat): Option<seq<byte>>
    requires |ciphertext| > 32
  {
    match suite.TokenKey(private, ciphertext[..32], identity.hash)
    case None => None
    case Some(key) => suite.unseal(key, ciphertext[32..], room)
  }

  /** The first key that opens the token decides, even if its public half then fails. */
  function OpenWithAny(suite: Suite, identity: Identity, keys: seq<Key>, ciphertext: seq<byte>, room: nat):
    Option<Option<Decrypted>>
    requires |ciphertext| > 32
  {
    if keys == [] then None
    else
      match OpenWith(suite, identity, keys[0], ciphertext, room)
      case None => OpenWithAny(suite, identity, keys[1..], ciphertext, room)
      case Some(plaintext) =>
        if suite.public(keys[0]).None? then Some(None)
        else Some(Some(Decrypted(plaintext, Some(suite.id(suite.public(keys[0]).value)))))
  }

  function Decrypt(suite: Suite, identity: Identity, keys: seq<Key>, enforce: bool,
                   ciphertext: seq<byte>, room: nat): Option<Decrypted>
  {
    if !identity.hasPrivate || |ciphertext| <= 32 then None
    else
      match OpenWithAny(suite, identity, keys, ciphertext, room)
      case Some(result) => result
      case None =>
        if enforce then None
        else
          match OpenWith(suite, identity, identity.encryptionPrivate, ciphertext, room)
          case None => None
          case Some(plaintext) => Some(Decrypted(plaintext, None))
  }

  /** Tries the ratchets in array order, then the identity key unless ratchets are enforced. */
  method DecryptWithRatchets(suite: Suite, identity: Identity, keys: array<Key>, count: nat, enforce: bool,
                             ciphertext: seq<byte>, room: nat) returns (result: Option<Decrypted>)
    requires count <= keys.Length
    ensures result == Decrypt(suite, identity, keys[..count], enforce, ciphertext, room)
  {
    if !identity.hasPrivate || |ciphertext| <= 32 {
      return None;
    }
    ghost var all := keys[..count];
    for i := 0 to count
      invariant OpenWithAny(suite, identity, all, ciphertext, room)
             == OpenWithAny(suite, identity, all[i..], ciphertext, room)
    {
      assert all[i..][1..] == all[i + 1..];
      var plain := OpenWith(suite, identity, keys[i], ciphertext, room);
      if plain.Some? {
        var public := suite.public(keys[i]);
        return if public.None? then None else Some(Decrypted(plain.value, Some(suite.id(public.value))));
      }
    }
    if enforce {
      return None;
    }
    var plain := OpenWith(suite, identity, identity.encryptionPrivate, ciphertext, room);
    return if plain.None? then None else Some(Decrypted(plain.value, None));
  }

  // ---------------------------------------------------------------- what decryption recovers

  /** Under any private key the token opens to its plaintext or not at all, and it opens
      only if that key has the public half it was made to. */
  lemma OpenWithExact(suite: Suite, identity: Identity, owner: Key, private: Key, plaintext: seq<byte>,
                      room: nat, outRoom: nat, ephemeral: Option<Key>, iv: seq<byte>)
    requires suite.Sound() && suite.public(owner).Some?
    requires Encrypt(suite, identity, suite.public(owner), plaintext, room, ephemeral, iv).Some?
    ensures var c := Encrypt(suite, identity, suite.public(owner), plaintext, room, ephemeral, iv).value;
            && |c| == 80 + Padded(|plaintext|) <= room
            && var o := OpenWith(suite, identity, private, c, outRoom);
               && (o.Some? ==> o.value == plaintext && suite.public(private) == suite.public(owner))
               && (private == owner && Padded(|plaintext|) <= outRoom ==> o.Some?)
  {
    var e := ephemeral.value;
    var c := Encrypt(suite, identity, suite.public(owner), plaintext, room, ephemeral, iv).value;
    var E, token := suite.public(e).value, c[32..];
    assert c[..32] == E;
    var key := suite.TokenKey(e, suite.public(owner).value, identity.hash).value;
    assert c == E + suite.seal(key, iv, plaintext).value && token == suite.seal(key, iv, plaintext).value;
    assert suite.exchange(e, suite.public(owner).value) == suite.exchange(owner, E);
    assert suite.TokenKey(owner, E, identity.hash) == Some(key);
    var mine := suite.TokenKey(private, E, identity.hash);
    if mine.Some? {
      assert suite.unseal(mine.value, token, outRoom)
          == if key == mine.value && Padded(|plaintext|) <= outRoom then Some(plaintext) else None;
    }
  }

  lemma {:induction false} SomeKeyOpens(suite: Suite, identity: Identity, owner: Key, keys: seq<Key>, plaintext: seq<byte>,
                                        room: nat, outRoom: nat, ephemeral: Option<Key>, iv: seq<byte>)
    requires suite.Sound() && suite.public(owner).Some? && owner in keys && Padded(|plaintext|) <= outRoom
    requires Encrypt(suite, identity, suite.public(owner), plaintext, room, ephemeral, iv).Some?
    ensures var c := Encrypt(suite, identity, suite.public(owner), plaintext, room, ephemeral, iv).value;
            && |c| > 32
            && OpenWithAny(suite, identity, keys, c, outRoom)
               == Some(Some(Decrypted(plaintext, Some(suite.id(suite.public(owner).value)))))
  {
    hide Encrypt, Suite.Sound, OpenWith;
    OpenWithExact(suite, identity, owner, keys[0], plaintext, room, outRoom, ephemeral, iv);
    if keys[0] != owner {
      SomeKeyOpens(suite, identity, owner, keys[1..], plaintext, room, outRoom, ephemeral, iv);
    }
  }

  /** A ciphertext made to any key of the list decrypts with that list, enforced or not,
      to its plaintext and to the identifier of the key it was made to. */
  lemma RatchetDecrypts(suite: Suite, identity: Identity, owner: Key, keys: seq<Key>, enforce: bool, plaintext: seq<byte>,
                        room: nat, outRoom: nat, ephemeral: Option<Key>, iv: seq<byte>)
    requires suite.Sound() && identity.hasPrivate
    requires suite.public(owner).Some? && owner in keys && Padded(|plaintext|) <= outRoom
    requires Encrypt(suite, identity, suite.public(owner), plaintext, room, ephemeral, iv).Some?
    ensures Decrypt(suite, identity, keys, enforce,
                    Encrypt(suite, identity, suite.public(owner), plaintext, room, ephemeral, iv).value, outRoom)
         == Some(Decrypted(plaintext, Some(suite.id(suite.public(owner).value))))
  {
    hide Encrypt, Suite.Sound, OpenWith, OpenWithAny;
    SomeKeyOpens(suite, identity, owner, keys, plaintext, room, outRoom, ephemeral, iv);
  }

  lemma {:induction false} NoKeyOpens(suite: Suite, identity: Identity, owner: Key, keys: seq<Key>, plaintext: seq<byte>,
                                      room: nat, outRoom: nat, ephemeral: Option<Key>, iv: seq<byte>)
    requires suite.Sound() && suite.public(owner).Some?
    requires forall i :: 0 <= i < |keys| ==> suite.public(keys[i]) != suite.public(owner)
    requires Encrypt(suite, identity, suite.public(owner), plaintext, room, ephemeral, iv).Some?
    ensures var c := Encrypt(suite, identity, suite.public(owner), plaintext, room, ephemeral, iv).value;
            |c| > 32 && OpenWithAny(suite, identity, keys, c, outRoom).None?
  {
    hide Encrypt, Suite.Sound, OpenWith;
    if keys == [] {
      OpenWithExact(suite, identity, owner, owner, plaintext, room, outRoom, ephemeral, iv);
    } else {
      OpenWithExact(suite, identity, owner, keys[0], plaintext, room, outRoom, ephemeral, iv);
      NoKeyOpens(suite, identity, owner, keys[1..], plaintext, room, outRoom, ephemeral, iv);
    }
  }

  /** Enforcement: once every copy of a ratchet has been dropped, what was made to it is
      unreadable. */
  lemma ForgottenRatchetRefused(suite: Suite, identity: Identity, owner: Key, keys: seq<Key>, plaintext: seq<byte>,
                                room: nat, outRoom: nat, ephemeral: Option<Key>, iv: seq<byte>)
    requires suite.Sound() && suite.public(owner).Some?
    requires forall i :: 0 <= i < |keys| ==> suite.public(keys[i]) != suite.public(owner)
    requires Encrypt(suite, identity, suite.public(owner), plaintext, room, ephemeral, iv).Some?
    ensures Decrypt(suite, identity, keys, true,
                    Encrypt(suite, identity, suite.public(owner), plaintext, room, ephemeral, iv).value, outRoom).None?
  {
    hide Encrypt, Suite.Sound, OpenWith, OpenWithAny;
    NoKeyOpens(suite, identity, owner, keys, plaintext, room, outRoom, ephemeral, iv);
  }

  // ---------------------------------------------------------------- the assumptions can be met

  function Sum(a: Key, b: Key): Key {
    seq(KEY_SIZE, i requires 0 <= i < KEY_SIZE => var x: nat := a[i]; (x + b[i]) % 256)
  }

  lemma SumLaws(a: Key, b: Key, c: Key)
    ensures Sum(a, b) == Sum(b, a)
    ensures Sum(a, c) == Sum(b, c) ==> a == b
  {
    if Sum(a, c) == Sum(b, c) {
      forall i | 0 <= i < KEY_SIZE ensures a[i] == b[i] {
        assert Sum(a, c)[i] == Sum(b, c)[i];
      }
    }
  }

  function Tail(p: seq<byte>): (n: byte)
    ensures |p| + n == Padded(|p|) && 1 <= n <= 16
  {
    16 - |p| % 16
  }

  function Seal(k: seq<byte>, p: seq<byte>): Option<seq<byte>> {
    if |k| != KEY_SIZE then None else Some(k + seq(16, _ => 0) + p + seq(Tail(p), _ => Tail(p)))
  }

  function Unseal(k: seq<byte>, token: seq<byte>, room: nat): Option<seq<byte>> {
    if |token| <= 48 || token[..32] != k then None
    else
      var tail := token[|token| - 1];
      if tail > |token| - 48 || |token| - 48 > room then None else Some(token[48..|token| - tail])
  }

  lemma SealOpens(k: seq<byte>, k': seq<byte>, p: seq<byte>, room: nat)
    requires |k| == KEY_SIZE
    ensures |Seal(k, p).value| == 48 + Padded(|p|)
    ensures Unseal(k', Seal(k, p).value, room) == if k == k' && Padded(|p|) <= room then Some(p) else None
  {
    var t := Seal(k, p).value;
    assert t[..32] == k && t[|t| - 1] == Tail(p);
    assert t[48..|t| - Tail(p)] == p;
  }

  /** A suite that keeps nothing secret. */
  function Transparent(): Suite {
    Suite(k => Some(k), (a, b) => Some(Sum(a, b)), (k: Key, salt) => Some(k), (k, iv, p) => Seal(k, p), Unseal, k => k)
  }

  /** The assumptions on the primitives can be met together, by a suite under which encryption succeeds. */
  lemma AssumptionsCanBeMet(identity: Identity, ratchet: Option<Key>, plaintext: seq<byte>, room: nat, ephemeral: Key, iv: seq<byte>)
    ensures Transparent().Sound()
    ensures 0 < EncryptBound(|plaintext|) <= room ==>
              Encrypt(Transparent(), identity, ratchet, plaintext, room, Some(ephemeral), iv).Some?
  {
    hide Sum, Seal, Unseal, Padded;
    var s := Transparent();
    forall a: Key, b: Key ensures s.exchange(a, s.public(b).value) == s.exchange(b, s.public(a).value) {
      SumLaws(a, b, b);
    }
    forall a: Key, b: Key, peer: Key, salt: seq<byte> | s.TokenKey(a, peer, salt) == s.TokenKey(b, peer, salt)
      ensures s.public(a) == s.public(b)
    {
      SumLaws(a, b, peer);
    }
    forall k: seq<byte>, k': seq<byte>, iv: seq<byte>, p: seq<byte>, room: nat | s.seal(k, iv, p).Some?
      ensures |s.seal(k, iv, p).value| == 48 + Padded(|p|)
      ensures s.unseal(k', s.seal(k, iv, p).value, room) == if k == k' && Padded(|p|) <= room then Some(p) else None
    {
      SealKey(k, p);
      SealOpens(k, k', p, room);
    }
    assert s.Agrees() && s.Separates();
    assert s.Authentic() by {
      forall k: seq<byte>, iv: seq<byte>, p: seq<byte> | s.seal(k, iv, p).Some?
        ensures |s.seal(k, iv, p).value| == 48 + Padded(|p|)
      {
        SealKey(k, p);
        SealOpens(k, k, p, 0);
      }
    }
    SealKey(Sum(ephemeral, if ratchet.Some? then ratchet.value else identity.encryptionPublic), plaintext);
  }

  lemma SealKey(k: seq<byte>, p: seq<byte>)
    ensures Seal(k, p).Some? <==> |k| == KEY_SIZE
  {
  }
}
