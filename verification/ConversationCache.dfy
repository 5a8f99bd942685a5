/** The conversation list of the terminal client, changed in place, with its cached filter results. */
module ConversationCache {
  import opened Common
  import opened Conversations

  /** What is stored about a peer between sessions. */
  datatype Stored = Stored(address: hash, trust: Trust, pinned: bool, blocked: bool, unread: nat, note: seq<byte>)

  const NOTE_MAX := 48

  /** "Local note". */
  const LOCAL_NOTE: seq<byte> := [76, 111, 99, 97, 108, 32, 110, 111, 116, 101]

  predicate Fresh(v: View, visible: seq<nat>, thread: seq<nat>) {
    visible == Visible(v, |v.contacts|) && thread == Thread(v, |v.messages|)
  }

  class Cache {
    var view: View
    var visible: seq<nat>
    var thread: seq<nat>
    var dirty: bool

    /** The tables agree with one another, and clean filter results with the tables. */
    ghost predicate Valid()
      reads this
    {
      Consistent(view) && (!dirty ==> Fresh(view, visible, thread))
    }

    constructor (local: hash)
      ensures Valid() && view == View(local, [], [], 0, Unknown, [])
    {
      view := View(local, [], [], 0, Unknown, []);
      visible, thread, dirty := [], [], true;
    }

    /** The place of a peer, or the number of contacts. */
    method Find(peer: hash) returns (index: nat)
      requires Valid()
      ensures index <= |view.contacts|
      ensures index < |view.contacts| ==> view.contacts[index].peer == peer
      ensures index == |view.contacts| <==> !Known(view.contacts, peer)
    {
      hide Consistent, Fresh;
      for i := 0 to |view.contacts|
        invariant forall j :: 0 <= j < i ==> view.contacts[j].peer != peer
      {
        if view.contacts[i].peer == peer {
          return i;
        }
      }
      return |view.contacts|;
    }

    /** The place of a peer, added if it is not there and there is room; otherwise the number of contacts. */
    method Ensure(peer: hash) returns (index: nat)
      requires Valid()
      modifies this`view, this`dirty
      ensures Valid()
      ensures view == if Known(old(view).contacts, peer) || |old(view).contacts| >= MAX_CONTACTS then old(view)
                      else WithContact(old(view), peer)
      ensures view == old(view) ==> dirty == old(dirty)
      ensures index == |view.contacts| ==> view == old(view)
      ensures index < |view.contacts| ==> view.contacts[index].peer == peer
      ensures index <= |view.contacts| && (index == |view.contacts| <==> !Known(view.contacts, peer))
    {
      hide Fresh, AllKnown, AllTallied, Distinct;
      index := Find(peer);
      if index < |view.contacts| || |view.contacts| >= MAX_CONTACTS {
        return;
      }
      WithContactConsistent(view, peer);
      view := WithContact(view, peer);
      dirty := true;
      assert view.contacts[index].peer == peer;
    }

    /** Takes a message in, with its conversation, or refuses it for want of room. */
    method Ingest(m: Message) returns (ok: bool)
      requires Valid()
      modifies this`view, this`dirty
      ensures Valid()
      ensures var v, peer := old(view), PeerOf(old(view).local, m);
              && ok == (|v.messages| < MAX_MESSAGES && |m.content| <= MAX_CONTENT
                        && (Known(v.contacts, peer) || |v.contacts| < MAX_CONTACTS))
              && (!ok ==> view == v)
              && (ok ==>
                    var w := if Known(v.contacts, peer) then v else WithContact(v, peer);
                    exists i :: 0 <= i < |w.contacts| && w.contacts[i].peer == peer && view == WithMessage(w, m, i))
    {
      hide Fresh, AllKnown, AllTallied, Distinct, Received;
      if |view.messages| >= MAX_MESSAGES || |m.content| > MAX_CONTENT {
        return false;
      }
      var index := Ensure(PeerOf(view.local, m));
      if index == |view.contacts| {
        return false;
      }
      WithMessageConsistent(view, m, index);
      view := WithMessage(view, m, index);
      dirty := true;
      return true;
    }

    /** Takes the tally of a contact again, message by message. */
    method Tally(peer: hash, ms: seq<Message>) returns (count: nat, latest: real)
      ensures count == Count(view.local, ms, peer) && latest == Latest(view.local, ms, peer)
    {
      count, latest := 0, 0.0;
      assert ms[..0] == [];
      for i := 0 to |ms|
        invariant count == Count(view.local, ms[..i], peer) && latest == Latest(view.local, ms[..i], peer)
      {
        assert ms[..i + 1] == ms[..i] + [ms[i]];
        CountSnoc(view.local, ms[..i], ms[i], peer);
        if PeerOf(view.local, ms[i]) == peer {
          count := count + 1;
          if ms[i].timestamp > latest {
            latest := ms[i].timestamp;
          }
        }
      }
      assert ms[..|ms|] == ms;
    }

    /** Drops a cached message; the messages after it move up and its conversation is counted again. */
    method Remove(position: nat)
      requires Valid() && position < |view.messages|
      modifies this`view, this`dirty
      ensures Valid()
      ensures Dropped(old(view), position, view)
    {
      hide Fresh, AllTallied, Distinct, Count, Latest;
      var m := view.messages[position];
      assert Known(view.contacts, PeerOf(view.local, m));
      var rest := view.messages[..position] + view.messages[position + 1..];
      var i := Find(PeerOf(view.local, m));
      var c := view.contacts[i];
      WithoutConsistent(view, position, i);
      var count, latest := Tally(c.peer, rest);
      var unread := if m.source != view.local && c.unread > 0 then c.unread - 1 else c.unread;
      view := view.(messages := rest,
                    contacts := view.contacts[i := c.(messages := count, latest := latest, unread := unread)]);
      dirty := true;
    }

    /** The place of a message, or the number of messages. */
    method FindMessage(id: hash) returns (position: nat)
      ensures position == MessagePlace(view.messages, id)
    {
      position := 0;
      var ms := view.messages;
      assert ms[0..] == ms;
      while position < |ms| && ms[position].id != id
        invariant position <= |ms|
        invariant MessagePlace(ms, id) == position + MessagePlace(ms[position..], id)
      {
        assert ms[position..][1..] == ms[position + 1..];
        position := position + 1;
      }
    }

    /** Changes a cached message in what its origin does not say. */
    method Mark(position: nat, m: Message)
      requires Valid() && position < |view.messages| && SameOrigin(view.messages[position], m)
      modifies this`view, this`dirty
      ensures Valid() && dirty && view == old(view).(messages := old(view).messages[position := m])
    {
      hide Fresh, AllTallied, Distinct, AllKnown;
      MarkConsistent(view, position, m);
      view := view.(messages := view.messages[position := m]);
      dirty := true;
    }

    /** A late verdict on a signature: a message that fails it goes, any other is marked. */
    method ApplySignature(id: hash, signature: Signature)
      requires Valid()
      modifies this`view, this`dirty
      ensures Valid()
      ensures var v, p := old(view), MessagePlace(old(view).messages, id);
              if p == |v.messages| then view == v
              else if signature != Invalid then
                view == v.(messages := v.messages[p := v.messages[p].(signature := signature)])
              else Dropped(v, p, view)
    {
      hide Fresh, Consistent, Without;
      var position := FindMessage(id);
      if position == |view.messages| {
        return;
      }
      if signature != Invalid {
        Mark(position, view.messages[position].(signature := signature));
        return;
      }
      Remove(position);
    }

    /** A delivery report: the message is marked, and the filters are run again in any case. */
    method ApplyDelivery(id: hash, status: Delivery)
      requires Valid()
      modifies this`view, this`dirty
      ensures Valid() && dirty
      ensures var v, p := old(view), MessagePlace(old(view).messages, id);
              view == if p == |v.messages| then v else v.(messages := v.messages[p := v.messages[p].(status := status)])
    {
      hide Fresh, Consistent;
      var position := FindMessage(id);
      if position < |view.messages| {
        Mark(position, view.messages[position].(status := status));
      }
      dirty := true;
    }

    /** An event of the router: an incoming message refused by policy goes if it was not verified yet;
        otherwise the message takes the state of the event. */
    method ApplyEvent(id: hash, status: Delivery, refused: bool)
      requires Valid()
      modifies this`view, this`dirty
      ensures Valid()
      ensures var v, p := old(view), MessagePlace(old(view).messages, id);
              if p == |v.messages| then view == v
              else if status == Failed && refused && v.messages[p].source != v.local then
                if v.messages[p].signature == Unverified then Dropped(v, p, view) else view == v
              else view == v.(messages := v.messages[p := v.messages[p].(status := status)])
    {
      hide Fresh, Consistent, Without;
      var position := FindMessage(id);
      if position == |view.messages| {
        return;
      }
      var m := view.messages[position];
      if status == Failed && refused && m.source != view.local {
        if m.signature == Unverified {
          Remove(position);
        }
        return;
      }
      Mark(position, m.(status := status));
    }

    /** Runs the filters again if anything they look at may have changed. */
    method Refresh()
      requires Valid()
      modifies this`visible, this`thread, this`dirty
      ensures Valid() && !dirty
    {
      hide Consistent, Shown, InThread;
      if !dirty {
        return;
      }
      visible := [];
      for i := 0 to |view.contacts|
        invariant visible == Visible(view, i)
        invariant Consistent(view) && dirty
      {
        var shown := IsShown(view.contacts[i]);
        if shown {
          visible := visible + [i];
        }
      }
      thread := [];
      for j := 0 to |view.messages|
        invariant thread == Thread(view, j)
        invariant Consistent(view) && dirty && visible == Visible(view, |view.contacts|)
      {
        var within := IsInThread(view.messages[j]);
        if within {
          thread := thread + [j];
        }
      }
      dirty := false;
    }

    method IsShown(c: Contact) returns (shown: bool)
      ensures shown == Shown(view, c)
    {
      hide Contains;
      if c.trust != view.tab {
        return false;
      }
      if view.search == [] {
        return true;
      }
      var byAddress := SearchText(HexText(c.peer), view.search);
      var byNote := SearchText(c.note, view.search);
      if byAddress || byNote {
        return true;
      }
      for j := 0 to |view.messages|
        invariant forall k :: 0 <= k < j ==> !SaidBy(view, c, view.messages[k])
      {
        if PeerOf(view.local, view.messages[j]) == c.peer {
          var said := SearchText(view.messages[j].content, view.search);
          if said {
            assert SaidBy(view, c, view.messages[j]);
            return true;
          }
        }
      }
      return false;
    }

    method IsInThread(m: Message) returns (within: bool)
      ensures within == InThread(view, m)
    {
      hide Contains;
      if view.selected >= |view.contacts| || PeerOf(view.local, m) != view.contacts[view.selected].peer {
        return false;
      }
      within := SearchText(m.content, view.search);
    }

    // -------------------------------------------------------------- selection, tab, search

    /** Where the selection stands among the visible conversations. */
    method FindVisible() returns (position: nat)
      ensures position == Place(visible, view.selected)
    {
      position := 0;
      assert visible[0..] == visible;
      while position < |visible| && visible[position] != view.selected
        invariant position <= |visible|
        invariant Place(visible, view.selected) == position + Place(visible[position..], view.selected)
      {
        assert visible[position..][1..] == visible[position + 1..];
        position := position + 1;
      }
    }

    /** Moves to the next or the previous visible conversation, around the ends, and reads it. */
    method SelectOffset(delta: int)
      requires Valid()
      modifies this
      ensures Valid()
      ensures var v, shown := old(view), Visible(old(view), |old(view).contacts|);
              if shown == [] then view == v && !dirty
              else dirty && view == ReadConversation(v, Neighbour(shown, v.selected, delta))
    {
      hide Consistent, Shown, InThread, Visible, Thread, ReadConversation;
      Refresh();
      if |visible| == 0 {
        return;
      }
      var position := FindVisible();
      var next := if position == |visible| then 0 else Around(position, |visible|, delta);
      VisibleInRange(view, next);
      ReadConsistent(view, visible[next]);
      view := ReadConversation(view, visible[next]);
      dirty := true;
    }

    /** Another tab selects its first visible conversation, if it has one. */
    method SetTab(tab: Trust)
      requires Valid()
      modifies this
      ensures Valid() && dirty
      ensures var v := old(view).(tab := tab);
              var shown := Visible(v, |v.contacts|);
              view == if shown == [] then v else v.(selected := shown[0])
    {
      hide AllKnown, AllTallied, Distinct, Shown, InThread, Visible, Thread;
      Retabbed(view, tab);
      view := view.(tab := tab);
      dirty := true;
      Refresh();
      if |visible| > 0 {
        Reselected(view, visible[0]);
        view := view.(selected := visible[0]);
      }
      dirty := true;
    }

    /** Any edit of the search text makes the filters run again. */
    method EditSearch(text: seq<byte>)
      requires Valid()
      modifies this`view, this`dirty
      ensures Valid() && dirty && view == old(view).(search := text)
    {
      hide AllKnown, AllTallied, Distinct, Fresh;
      Searched(view, text);
      view := view.(search := text);
      dirty := true;
    }

    /** Entering the search selects the first conversation it finds. */
    method SubmitSearch()
      requires Valid()
      modifies this
      ensures Valid() && dirty
      ensures var shown := Visible(old(view), |old(view).contacts|);
              view == if shown == [] then old(view) else old(view).(selected := shown[0])
    {
      hide AllKnown, AllTallied, Distinct, Visible, Thread;
      Refresh();
      if |visible| > 0 {
        Reselected(view, visible[0]);
        view := view.(selected := visible[0]);
      }
      dirty := true;
    }

    /** Opens a conversation with a peer under the tab its trust puts it in. */
    method OpenConversation(peer: hash) returns (ok: bool)
      requires Valid()
      modifies this`view, this`dirty
      ensures Valid()
      ensures var v := old(view);
              var w := if Known(v.contacts, peer) || |v.contacts| >= MAX_CONTACTS then v else WithContact(v, peer);
              && ok == Known(w.contacts, peer)
              && (!ok ==> view == v)
              && (ok ==> dirty && view.selected < |w.contacts| && w.contacts[view.selected].peer == peer
                         && view == w.(selected := view.selected, tab := w.contacts[view.selected].trust))
    {
      hide AllKnown, AllTallied, Distinct, Fresh;
      var index := Ensure(peer);
      if index == |view.contacts| {
        return false;
      }
      Retabbed(view, view.contacts[index].trust);
      Reselected(view.(tab := view.contacts[index].trust), index);
      view := view.(selected := index, tab := view.contacts[index].trust);
      dirty := true;
      return true;
    }

    // -------------------------------------------------------------- contacts

    /** Changes the selected contact in what neither the tally nor the filters look at. */
    method UpdateSelected(c: Contact)
      requires Valid() && view.selected < |view.contacts| && SameTally(view.contacts[view.selected], c)
      requires view.contacts[view.selected].trust == c.trust && view.contacts[view.selected].note == c.note
      modifies this`view
      ensures Valid() && view == old(view).(contacts := old(view).contacts[old(view).selected := c])
    {
      hide Visible, Thread, AllKnown, AllTallied, Distinct;
      UpdateConsistent(view, view.selected, c);
      var contacts := view.contacts[view.selected := c];
      VisibleIgnores(view, contacts, |contacts|);
      ThreadIgnores(view, contacts, |view.messages|);
      view := view.(contacts := contacts);
    }

    method TogglePin()
      requires Valid()
      modifies this`view
      ensures Valid()
      ensures var v := old(view);
              view == if v.selected >= |v.contacts| then v
                      else v.(contacts := v.contacts[v.selected := v.contacts[v.selected].(pinned := !v.contacts[v.selected].pinned)])
    {
      hide Consistent, Fresh;
      if view.selected < |view.contacts| {
        var c := view.contacts[view.selected];
        UpdateSelected(c.(pinned := !c.pinned));
      }
    }

    method ToggleBlock()
      requires Valid()
      modifies this`view
      ensures Valid()
      ensures var v := old(view);
              view == if v.selected >= |v.contacts| then v
                      else v.(contacts := v.contacts[v.selected := v.contacts[v.selected].(blocked := !v.contacts[v.selected].blocked)])
    {
      hide Consistent, Fresh;
      if view.selected < |view.contacts| {
        var c := view.contacts[view.selected];
        UpdateSelected(c.(blocked := !c.blocked));
      }
    }

    method ToggleNote()
      requires Valid()
      modifies this`view, this`dirty
      ensures Valid()
      ensures var v := old(view);
              view == if v.selected >= |v.contacts| then v
                      else v.(contacts := v.contacts[v.selected := v.contacts[v.selected].(
                                note := if v.contacts[v.selected].note != [] then [] else LOCAL_NOTE)])
    {
      hide AllKnown, AllTallied, Distinct, Fresh;
      if view.selected < |view.contacts| {
        var c := view.contacts[view.selected];
        var changed := c.(note := if c.note != [] then [] else LOCAL_NOTE);
        UpdateConsistent(view, view.selected, changed);
        view := view.(contacts := view.contacts[view.selected := changed]);
        dirty := true;
      }
    }

    /** A trust decision moves the contact to the tab of that trust and shows that tab. */
    method SetTrust(trust: Trust)
      requires Valid()
      modifies this
      ensures Valid()
      ensures var v := old(view);
              if v.selected >= |v.contacts| then view == v
              else
                var w := v.(tab := trust, contacts := v.contacts[v.selected := v.contacts[v.selected].(trust := trust)]);
                var shown := Visible(w, |w.contacts|);
                dirty && view == if shown == [] then w else w.(selected := shown[0])
    {
      hide AllKnown, AllTallied, Distinct, Fresh, Visible, Thread;
      if view.selected >= |view.contacts| {
        return;
      }
      var c := view.contacts[view.selected].(trust := trust);
      UpdateConsistent(view, view.selected, c);
      view := view.(contacts := view.contacts[view.selected := c]);
      dirty := true;
      SetTab(trust);
    }

    /** What is stored of a peer is taken over; the tally stays that of the cached messages. */
    method LoadPeer(p: Stored)
      requires Valid()
      modifies this`view, this`dirty
      ensures Valid()
      ensures var v := old(view);
              var w := if Known(v.contacts, p.address) || |v.contacts| >= MAX_CONTACTS then v else WithContact(v, p.address);
              if !Known(w.contacts, p.address) then view == v
              else
                exists i :: 0 <= i < |w.contacts| && w.contacts[i].peer == p.address
                            && view == w.(contacts := w.contacts[i := Taken(w.contacts[i], p)])
    {
      hide AllKnown, AllTallied, Distinct, Fresh;
      var i := Ensure(p.address);
      if i == |view.contacts| {
        return;
      }
      UpdateConsistent(view, i, Taken(view.contacts[i], p));
      view := view.(contacts := view.contacts[i := Taken(view.contacts[i], p)]);
      dirty := true;
    }
  }

  /** The first message with an identifier, or the end. */
  function MessagePlace(ms: seq<Message>, id: hash): (p: nat)
    ensures p <= |ms| && (p < |ms| ==> ms[p].id == id)
  {
    if ms == [] || ms[0].id == id then 0 else 1 + MessagePlace(ms[1..], id)
  }

  /** A message and what its conversation counted for it are gone. */
  ghost predicate Dropped(v: View, position: nat, w: View)
    requires position < |v.messages|
  {
    exists i :: 0 <= i < |v.contacts| && v.contacts[i].peer == PeerOf(v.local, v.messages[position])
                && w == Without(v, position, i)
  }

  /** The first place of a value, or the end. */
  function Place(s: seq<nat>, x: nat): (p: nat)
    ensures p <= |s|
  {
    if s == [] || s[0] == x then 0 else 1 + Place(s[1..], x)
  }

  /** One place back or on, around the ends. */
  function Around(p: nat, n: nat, delta: int): (q: nat)
    requires p < n
    ensures q < n
  {
    if delta < 0 then (if p == 0 then n - 1 else p - 1) else (p + 1) % n
  }

  /** The next or the previous of some values, around the ends; the first if the value is not among them. */
  function Neighbour(s: seq<nat>, x: nat, delta: int): nat
    requires s != []
  {
    var p := Place(s, x);
    s[if p == |s| then 0 else Around(p, |s|, delta)]
  }

  /** A conversation is selected, and its messages are no longer unread. */
  function ReadConversation(v: View, i: nat): View {
    if i >= |v.contacts| then v
    else v.(selected := i, contacts := v.contacts[i := v.contacts[i].(unread := 0)])
  }

  lemma ReadConsistent(v: View, i: nat)
    requires Consistent(v)
    ensures Consistent(ReadConversation(v, i))
  {
    hide Consistent;
    if i < |v.contacts| {
      UpdateConsistent(v, i, v.contacts[i].(unread := 0));
      Reselected(v.(contacts := v.contacts[i := v.contacts[i].(unread := 0)]), i);
    }
  }

  lemma VisibleInRange(v: View, p: nat)
    requires p < |Visible(v, |v.contacts|)|
    ensures Visible(v, |v.contacts|)[p] < |v.contacts|
  {
    hide Visible, Shown;
    VisibleExact(v, |v.contacts|);
    assert Visible(v, |v.contacts|)[p] in Visible(v, |v.contacts|);
  }

  /** A text stored in an array ends at its first zero octet. */
  function UpToZero(s: seq<byte>): (t: seq<byte>)
    ensures t <= s && 0 !in t && (|t| == |s| || s[|t|] == 0)
  {
    if s == [] || s[0] == 0 then [] else [s[0]] + UpToZero(s[1..])
  }

  function Taken(c: Contact, p: Stored): Contact {
    c.(trust := p.trust, pinned := p.pinned, blocked := p.blocked, unread := p.unread,
       note := UpToZero(if |p.note| >= NOTE_MAX then p.note[..NOTE_MAX - 1] else p.note))
  }

  lemma Reselected(v: View, selected: nat)
    requires Consistent(v)
    ensures Consistent(v.(selected := selected))
  {
    hide Count, Latest, PeerOf, Known, Distinct;
    var w := v.(selected := selected);
    assert forall i :: 0 <= i < |v.contacts| ==> Tallied(v, v.contacts[i]) == Tallied(w, v.contacts[i]);
  }

  lemma Retabbed(v: View, tab: Trust)
    requires Consistent(v)
    ensures Consistent(v.(tab := tab))
  {
    hide Count, Latest, PeerOf, Known, Distinct;
    var w := v.(tab := tab);
    assert forall i :: 0 <= i < |v.contacts| ==> Tallied(v, v.contacts[i]) == Tallied(w, v.contacts[i]);
  }

  lemma Searched(v: View, search: seq<byte>)
    requires Consistent(v)
    ensures Consistent(v.(search := search))
  {
    hide Count, Latest, PeerOf, Known, Distinct;
    var w := v.(search := search);
    assert forall i :: 0 <= i < |v.contacts| ==> Tallied(v, v.contacts[i]) == Tallied(w, v.contacts[i]);
  }
}
