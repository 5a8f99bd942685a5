/** Contacts, cached messages and the filters over them, as values. */
module Conversations {
  import opened Common

  const MAX_CONTACTS := 64
  const MAX_MESSAGES := 256
  const MAX_CONTENT := 4096

  type hash = seq<byte>

  datatype Trust = Unknown | Trusted | Untrusted

  datatype Contact = Contact(
    peer: hash, messages: nat, unread: nat, latest: real, trust: Trust, pinned: bool, blocked: bool, note: seq<byte>)

  datatype Delivery = Queued | Sending | Sent | Delivered | Failed

  datatype Signature = Unverified | Verified | Invalid

  datatype Message = Message(
    id: hash, source: hash, destination: hash, timestamp: real, content: seq<byte>, status: Delivery, signature: Signature)

  /** Everything the filters look at. */
  datatype View = View(
    local: hash, contacts: seq<Contact>, messages: seq<Message>, selected: nat, tab: Trust, search: seq<byte>)

  // ---------------------------------------------------------------- peers

  /** The other side of a message. */
  function PeerOf(local: hash, m: Message): hash {
    if m.source == local then m.destination else m.source
  }

  predicate Known(contacts: seq<Contact>, peer: hash) {
    exists i :: 0 <= i < |contacts| && contacts[i].peer == peer
  }

  predicate Distinct(contacts: seq<Contact>) {
    forall i, j :: 0 <= i < j < |contacts| ==> contacts[i].peer != contacts[j].peer
  }

  /** How many cached messages a peer has. */
  function Count(local: hash, ms: seq<Message>, peer: hash): nat {
    if ms == [] then 0
    else Count(local, ms[..|ms| - 1], peer) + (if PeerOf(local, ms[|ms| - 1]) == peer then 1 else 0)
  }

  /** The latest time of a peer's cached messages, or zero. */
  function Latest(local: hash, ms: seq<Message>, peer: hash): real {
    if ms == [] then 0.0
    else
      var before, m := Latest(local, ms[..|ms| - 1], peer), ms[|ms| - 1];
      if PeerOf(local, m) == peer && m.timestamp > before then m.timestamp else before
  }

  lemma CountSnoc(local: hash, ms: seq<Message>, m: Message, peer: hash)
    ensures Count(local, ms + [m], peer) == Count(local, ms, peer) + (if PeerOf(local, m) == peer then 1 else 0)
    ensures Latest(local, ms + [m], peer)
         == if PeerOf(local, m) == peer && m.timestamp > Latest(local, ms, peer) then m.timestamp else Latest(local, ms, peer)
  {
    assert (ms + [m])[..|ms|] == ms;
  }

  /** A message of another peer, wherever it is taken out, counts for nothing. */
  lemma {:induction false} WithoutOther(local: hash, a: seq<Message>, m: Message, b: seq<Message>, peer: hash)
    requires PeerOf(local, m) != peer
    ensures Count(local, a + [m] + b, peer) == Count(local, a + b, peer)
    ensures Latest(local, a + [m] + b, peer) == Latest(local, a + b, peer)
    decreases b
  {
    hide Count, Latest, PeerOf;
    if b == [] {
      assert a + [m] + b == a + [m] && a + b == a;
      CountSnoc(local, a, m, peer);
    } else {
      var front, last := b[..|b| - 1], b[|b| - 1];
      WithoutOther(local, a, m, front, peer);
      assert a + [m] + b == (a + [m] + front) + [last] && a + b == (a + front) + [last];
      CountSnoc(local, a + [m] + front, last, peer);
      CountSnoc(local, a + front, last, peer);
    }
  }

  /** The tally of a contact is that of its cached messages. */
  predicate Tallied(v: View, c: Contact) {
    c.messages == Count(v.local, v.messages, c.peer) && c.latest == Latest(v.local, v.messages, c.peer)
  }

  predicate AllTallied(v: View) {
    forall i :: 0 <= i < |v.contacts| ==> Tallied(v, v.contacts[i])
  }

  predicate AllKnown(v: View) {
    forall j :: 0 <= j < |v.messages| ==> Known(v.contacts, PeerOf(v.local, v.messages[j]))
  }

  predicate Consistent(v: View) {
    && |v.contacts| <= MAX_CONTACTS && |v.messages| <= MAX_MESSAGES
    && Distinct(v.contacts) && AllKnown(v) && AllTallied(v)
  }

  // ---------------------------------------------------------------- searching

  function LowerByte(b: byte): byte {
    if 65 <= b <= 90 then b + 32 else b
  }

  predicate MatchesAt(text: seq<byte>, needle: seq<byte>, start: nat) {
    && start + |needle| <= |text|
    && forall i :: 0 <= i < |needle| ==> LowerByte(text[start + i]) == LowerByte(needle[i])
  }

  /** The needle occurs in the text, letter case aside. */
  predicate Contains(text: seq<byte>, needle: seq<byte>) {
    needle == [] || exists start :: 0 <= start <= |text| && MatchesAt(text, needle, start)
  }

  method SearchText(text: seq<byte>, needle: seq<byte>) returns (found: bool)
    ensures found == Contains(text, needle)
  {
    if needle == [] {
      return true;
    }
    var start := 0;
    while start + |needle| <= |text|
      invariant start <= |text| + 1
      invariant forall s :: 0 <= s < start ==> !MatchesAt(text, needle, s)
    {
      var i := 0;
      while i < |needle| && LowerByte(text[start + i]) == LowerByte(needle[i])
        invariant i <= |needle|
        invariant forall k :: 0 <= k < i ==> LowerByte(text[start + k]) == LowerByte(needle[k])
      {
        i := i + 1;
      }
      if i == |needle| {
        assert MatchesAt(text, needle, start);
        return true;
      }
      start := start + 1;
    }
    return false;
  }

  function HexDigit(n: nat): byte
    requires n < 16
  {
    if n < 10 then 48 + n else 87 + n
  }

  /** An address as hexadecimal digits. */
  function HexText(peer: hash): seq<byte> {
    if peer == [] then [] else HexText(peer[..|peer| - 1]) + [HexDigit(peer[|peer| - 1] / 16), HexDigit(peer[|peer| - 1] % 16)]
  }

  // ---------------------------------------------------------------- filters

  predicate SaidBy(v: View, c: Contact, m: Message) {
    PeerOf(v.local, m) == c.peer && Contains(m.content, v.search)
  }

  /** Listed under the current tab and, if something is searched for, found by address, note or message. */
  predicate Shown(v: View, c: Contact) {
    && c.trust == v.tab
    && (|| v.search == []
        || Contains(HexText(c.peer), v.search)
        || Contains(c.note, v.search)
        || exists j :: 0 <= j < |v.messages| && SaidBy(v, c, v.messages[j]))
  }

  function Visible(v: View, n: nat): seq<nat>
    requires n <= |v.contacts|
  {
    if n == 0 then [] else Visible(v, n - 1) + (if Shown(v, v.contacts[n - 1]) then [n - 1] else [])
  }

  /** A message of the selected conversation that the search finds. */
  predicate InThread(v: View, m: Message) {
    && v.selected < |v.contacts|
    && SaidBy(v, v.contacts[v.selected], m)
  }

  function Thread(v: View, n: nat): seq<nat>
    requires n <= |v.messages|
  {
    if n == 0 then [] else Thread(v, n - 1) + (if InThread(v, v.messages[n - 1]) then [n - 1] else [])
  }

  /** The filters list exactly the indices that qualify, in ascending order. */
  lemma {:induction false} VisibleExact(v: View, n: nat)
    requires n <= |v.contacts|
    ensures forall i :: i in Visible(v, n) <==> 0 <= i < n && Shown(v, v.contacts[i])
    ensures forall i, j :: 0 <= i < j < |Visible(v, n)| ==> Visible(v, n)[i] < Visible(v, n)[j]
  {
    hide Shown;
    if n > 0 {
      VisibleExact(v, n - 1);
      var before := Visible(v, n - 1);
      assert forall i :: 0 <= i < |before| ==> before[i] in before;
    }
  }

  lemma {:induction false} ThreadExact(v: View, n: nat)
    requires n <= |v.messages|
    ensures forall i :: i in Thread(v, n) <==> 0 <= i < n && InThread(v, v.messages[i])
    ensures forall i, j :: 0 <= i < j < |Thread(v, n)| ==> Thread(v, n)[i] < Thread(v, n)[j]
  {
    hide InThread;
    if n > 0 {
      ThreadExact(v, n - 1);
      var before := Thread(v, n - 1);
      assert forall i :: 0 <= i < |before| ==> before[i] in before;
    }
  }

  /** Contacts alike in what the filters look at. */
  predicate Alike(a: seq<Contact>, b: seq<Contact>) {
    && |a| == |b|
    && forall i :: 0 <= i < |a| ==> a[i].peer == b[i].peer && a[i].trust == b[i].trust && a[i].note == b[i].note
  }

  lemma {:induction false} VisibleIgnores(v: View, contacts: seq<Contact>, n: nat)
    requires Alike(v.contacts, contacts) && n <= |contacts|
    ensures Visible(v.(contacts := contacts), n) == Visible(v, n)
  {
    hide Contains;
    if n > 0 {
      VisibleIgnores(v, contacts, n - 1);
      var w := v.(contacts := contacts);
      assert v.contacts[n - 1].peer == contacts[n - 1].peer;
      assert forall j :: 0 <= j < |v.messages| ==> SaidBy(v, v.contacts[n - 1], v.messages[j]) == SaidBy(w, contacts[n - 1], v.messages[j]);
    }
  }

  lemma {:induction false} ThreadIgnores(v: View, contacts: seq<Contact>, n: nat)
    requires Alike(v.contacts, contacts) && n <= |v.messages|
    ensures Thread(v.(contacts := contacts), n) == Thread(v, n)
  {
    hide Contains;
    if n > 0 {
      ThreadIgnores(v, contacts, n - 1);
    }
  }

  // ---------------------------------------------------------------- what changes the view

  function NewContact(peer: hash): Contact {
    Contact(peer, 0, 0, 0.0, Unknown, false, false, [])
  }

  function WithContact(v: View, peer: hash): View {
    v.(contacts := v.contacts + [NewContact(peer)])
  }

  lemma {:induction false} CountNone(local: hash, ms: seq<Message>, peer: hash)
    requires forall j :: 0 <= j < |ms| ==> PeerOf(local, ms[j]) != peer
    ensures Count(local, ms, peer) == 0 && Latest(local, ms, peer) == 0.0
  {
    if ms != [] {
      CountNone(local, ms[..|ms| - 1], peer);
    }
  }

  /** A contact that was not there has no cached messages. */
  lemma WithContactConsistent(v: View, peer: hash)
    requires Consistent(v) && !Known(v.contacts, peer) && |v.contacts| < MAX_CONTACTS
    ensures Consistent(WithContact(v, peer))
  {
    hide Count, Latest, PeerOf;
    var w := WithContact(v, peer);
    forall j | 0 <= j < |v.messages| ensures Known(w.contacts, PeerOf(v.local, v.messages[j])) && PeerOf(v.local, v.messages[j]) != peer {
      assert Known(v.contacts, PeerOf(v.local, v.messages[j]));
      var i :| 0 <= i < |v.contacts| && v.contacts[i].peer == PeerOf(v.local, v.messages[j]);
      assert w.contacts[i] == v.contacts[i];
    }
    CountNone(v.local, v.messages, peer);
    forall i | 0 <= i < |w.contacts| ensures Tallied(w, w.contacts[i]) {
      if i < |v.contacts| {
        assert Tallied(v, v.contacts[i]) && w.contacts[i] == v.contacts[i];
      }
    }
    forall i, j | 0 <= i < j < |w.contacts| ensures w.contacts[i].peer != w.contacts[j].peer {
      if j == |v.contacts| {
        assert v.contacts[i].peer != peer;
      }
    }
  }

  /** The contact after one more message. */
  function Received(local: hash, c: Contact, m: Message): Contact {
    c.(messages := c.messages + 1,
       latest := if m.timestamp > c.latest then m.timestamp else c.latest,
       unread := if m.source != local then c.unread + 1 else c.unread)
  }

  function WithMessage(v: View, m: Message, i: nat): View
    requires i < |v.contacts|
  {
    v.(messages := v.messages + [m], contacts := v.contacts[i := Received(v.local, v.contacts[i], m)])
  }

  lemma KnownUpdate(contacts: seq<Contact>, i: nat, c: Contact, peer: hash)
    requires i < |contacts| && c.peer == contacts[i].peer
    ensures Known(contacts[i := c], peer) <==> Known(contacts, peer)
  {
    var updated := contacts[i := c];
    if j :| 0 <= j < |contacts| && contacts[j].peer == peer {
      assert updated[j].peer == peer;
    }
    if j :| 0 <= j < |updated| && updated[j].peer == peer {
      assert contacts[j].peer == peer;
    }
  }

  lemma DistinctUpdate(contacts: seq<Contact>, i: nat, c: Contact)
    requires Distinct(contacts) && i < |contacts| && c.peer == contacts[i].peer
    ensures Distinct(contacts[i := c])
  {
  }

  lemma WithMessageConsistent(v: View, m: Message, i: nat)
    requires Consistent(v) && |v.messages| < MAX_MESSAGES && i < |v.contacts| && v.contacts[i].peer == PeerOf(v.local, m)
    ensures Consistent(WithMessage(v, m, i))
  {
    hide Count, Latest, PeerOf, Known, Distinct;
    var w := WithMessage(v, m, i);
    DistinctUpdate(v.contacts, i, w.contacts[i]);
    forall j | 0 <= j < |w.messages| ensures Known(w.contacts, PeerOf(v.local, w.messages[j])) {
      KnownUpdate(v.contacts, i, w.contacts[i], PeerOf(v.local, w.messages[j]));
      if j < |v.messages| {
        assert w.messages[j] == v.messages[j];
      } else {
        IsKnown(v.contacts, i);
      }
    }
    forall k | 0 <= k < |w.contacts| ensures Tallied(w, w.contacts[k]) {
      assert Tallied(v, v.contacts[k]);
      CountSnoc(v.local, v.messages, m, v.contacts[k].peer);
      if k != i {
        OtherPeer(v.contacts, k, i);
      }
    }
  }

  lemma IsKnown(contacts: seq<Contact>, i: nat)
    requires i < |contacts|
    ensures Known(contacts, contacts[i].peer)
  {
  }

  lemma OtherPeer(contacts: seq<Contact>, i: nat, j: nat)
    requires Distinct(contacts) && i < |contacts| && j < |contacts| && i != j
    ensures contacts[i].peer != contacts[j].peer
  {
  }

  /** The contact once a message of its is gone and its tally taken again. */
  function Recounted(v: View, c: Contact, incoming: bool): Contact {
    c.(messages := Count(v.local, v.messages, c.peer),
       latest := Latest(v.local, v.messages, c.peer),
       unread := if incoming && c.unread > 0 then c.unread - 1 else c.unread)
  }

  function Without(v: View, position: nat, i: nat): View
    requires position < |v.messages| && i < |v.contacts|
  {
    var w := v.(messages := v.messages[..position] + v.messages[position + 1..]);
    w.(contacts := v.contacts[i := Recounted(w, v.contacts[i], v.messages[position].source != v.local)])
  }

  lemma WithoutConsistent(v: View, position: nat, i: nat)
    requires Consistent(v) && position < |v.messages| && i < |v.contacts|
    requires v.contacts[i].peer == PeerOf(v.local, v.messages[position])
    ensures Consistent(Without(v, position, i))
  {
    hide Count, Latest, PeerOf, Known, Distinct;
    var w := Without(v, position, i);
    var a, m, b := v.messages[..position], v.messages[position], v.messages[position + 1..];
    assert v.messages == a + [m] + b && w.messages == a + b;
    DistinctUpdate(v.contacts, i, w.contacts[i]);
    forall j | 0 <= j < |w.messages| ensures Known(w.contacts, PeerOf(v.local, w.messages[j])) {
      KnownUpdate(v.contacts, i, w.contacts[i], PeerOf(v.local, w.messages[j]));
      assert w.messages[j] == v.messages[if j < position then j else j + 1];
    }
    forall k | 0 <= k < |w.contacts| ensures Tallied(w, w.contacts[k]) {
      assert Tallied(v, v.contacts[k]);
      if k != i {
        OtherPeer(v.contacts, k, i);
        WithoutOther(v.local, a, m, b, v.contacts[k].peer);
      }
    }
  }

  /** Only what the tally does not speak of. */
  predicate SameTally(a: Contact, b: Contact) {
    a.peer == b.peer && a.messages == b.messages && a.latest == b.latest
  }

  lemma UpdateConsistent(v: View, i: nat, c: Contact)
    requires Consistent(v) && i < |v.contacts| && SameTally(v.contacts[i], c)
    ensures Consistent(v.(contacts := v.contacts[i := c]))
  {
    hide Count, Latest, PeerOf, Known, Distinct;
    var w := v.(contacts := v.contacts[i := c]);
    DistinctUpdate(v.contacts, i, c);
    forall j | 0 <= j < |v.messages| ensures Known(w.contacts, PeerOf(v.local, w.messages[j])) {
      KnownUpdate(v.contacts, i, c, PeerOf(v.local, v.messages[j]));
    }
    forall k | 0 <= k < |w.contacts| ensures Tallied(w, w.contacts[k]) {
      assert Tallied(v, v.contacts[k]);
    }
  }

  /** A message that changes only its state keeps its peer and time. */
  predicate SameOrigin(a: Message, b: Message) {
    a.source == b.source && a.destination == b.destination && a.timestamp == b.timestamp
  }

  lemma {:induction false} SameTallies(local: hash, a: seq<Message>, b: seq<Message>, peer: hash)
    requires |a| == |b| && forall j :: 0 <= j < |a| ==> SameOrigin(a[j], b[j])
    ensures Count(local, a, peer) == Count(local, b, peer) && Latest(local, a, peer) == Latest(local, b, peer)
    decreases a
  {
    if a != [] {
      SameTallies(local, a[..|a| - 1], b[..|b| - 1], peer);
      assert SameOrigin(a[|a| - 1], b[|b| - 1]);
    }
  }

  lemma MarkConsistent(v: View, position: nat, m: Message)
    requires Consistent(v) && position < |v.messages| && SameOrigin(v.messages[position], m)
    ensures Consistent(v.(messages := v.messages[position := m]))
  {
    hide Count, Latest, Known, Distinct;
    var w := v.(messages := v.messages[position := m]);
    forall k | 0 <= k < |w.contacts| ensures Tallied(w, w.contacts[k]) {
      assert Tallied(v, v.contacts[k]);
      SameTallies(v.local, v.messages, w.messages, v.contacts[k].peer);
    }
    forall j | 0 <= j < |w.messages| ensures Known(w.contacts, PeerOf(w.local, w.messages[j])) {
      assert Known(v.contacts, PeerOf(v.local, v.messages[j]));
    }
  }
}
