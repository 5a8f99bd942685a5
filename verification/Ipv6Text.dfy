/** The textual form of an IPv6 address (section 4 of RFC 5952) and its inverse (section 2.2 of RFC 4291). */
module Ipv6Text {
  import opened Common

  type group = w: nat | w < 0x1_0000

  type address = a: seq<byte> | |a| == 16 witness seq(16, _ => 0)

  type groups = ws: seq<group> | |ws| == 8 witness seq(8, _ => 0)

  function GroupAt(a: address, i: nat): group
    requires i < 8
  {
    var high: nat := a[2 * i];
    256 * high + a[2 * i + 1]
  }

  function Groups(a: address): groups {
    seq(8, i requires 0 <= i < 8 => GroupAt(a, i))
  }

  // ---------------------------------------------------------------- one group

  const DIGITS := "0123456789abcdef"

  function Hex(n: nat): (s: string)
    ensures s != ""
  {
    if n < 16 then [DIGITS[n]] else Hex(n / 16) + [DIGITS[n % 16]]
  }

  function DigitValue(c: char): Option<nat> {
    if '0' <= c <= '9' then Some((c - '0') as nat)
    else if 'a' <= c <= 'f' then Some((c - 'a') as nat + 10)
    else if 'A' <= c <= 'F' then Some((c - 'A') as nat + 10)
    else None
  }

  predicate AllHex(s: string) {
    forall i :: 0 <= i < |s| ==> DigitValue(s[i]).Some?
  }

  function Value(s: string): nat
    requires AllHex(s)
  {
    if s == "" then 0 else 16 * Value(s[..|s| - 1]) + DigitValue(s[|s| - 1]).value
  }

  lemma DigitRead(d: nat)
    requires d < 16
    ensures DigitValue(DIGITS[d]) == Some(d) && DIGITS[d] != ':' && !('A' <= DIGITS[d] <= 'Z')
    ensures DIGITS[d] == '0' <==> d == 0
  {
  }

  /** Lowercase, no leading zero, and read back. */
  lemma {:induction false} HexCanonical(n: nat)
    ensures AllHex(Hex(n)) && Value(Hex(n)) == n
    ensures forall i :: 0 <= i < |Hex(n)| ==> !('A' <= Hex(n)[i] <= 'Z') && Hex(n)[i] != ':'
    ensures Hex(n)[0] == '0' <==> n == 0
    ensures n == 0 ==> Hex(n) == "0"
  {
    if n < 16 {
      DigitRead(n);
      assert Hex(n)[..0] == "";
    } else {
      HexCanonical(n / 16);
      DigitRead(n % 16);
      assert Hex(n)[..|Hex(n)| - 1] == Hex(n / 16);
    }
  }

  lemma HexLength(n: group)
    ensures 1 <= |Hex(n)| <= 4
  {
    if n >= 16 {
      var a := n / 16;
      if a >= 16 {
        var b := a / 16;
        assert |Hex(b)| <= 2 by { assert b / 16 < 16; }
      }
    }
  }

  // ---------------------------------------------------------------- the run that is compressed

  function ZerosFrom(ws: seq<group>, i: nat): (n: nat)
    requires i <= |ws|
    ensures i + n <= |ws|
    decreases |ws| - i
  {
    if i < |ws| && ws[i] == 0 then 1 + ZerosFrom(ws, i + 1) else 0
  }

  /** The first of the longest runs of zero groups that start before a bound, if one has two groups. */
  ghost predicate FirstLongest(ws: seq<group>, bound: nat, start: nat, length: nat)
    requires bound <= |ws|
  {
    if length == 0 then start == |ws| && forall j :: 0 <= j < bound ==> ZerosFrom(ws, j) < 2
    else
      && length >= 2 && start < bound
      && ZerosFrom(ws, start) == length
      && (forall j :: 0 <= j < bound ==> ZerosFrom(ws, j) <= length)
      && (forall j :: 0 <= j < start ==> ZerosFrom(ws, j) < length)
  }

  ghost predicate Compressed(ws: groups, start: nat, length: nat) {
    FirstLongest(ws, 8, start, length)
  }

  lemma CompressedUnique(ws: groups, s: nat, l: nat, s': nat, l': nat)
    requires Compressed(ws, s, l) && Compressed(ws, s', l')
    ensures s == s' && l == l'
  {
    if l > 0 && l' > 0 {
      assert ZerosFrom(ws, s) == l && ZerosFrom(ws, s') == l';
    }
  }

  lemma {:induction false} WithinRun(ws: seq<group>, i: nat, end: nat)
    requires i <= end <= |ws| && (forall k :: i <= k < end ==> ws[k] == 0) && (end < |ws| ==> ws[end] != 0)
    ensures ZerosFrom(ws, i) == end - i
    decreases end - i
  {
    if i < end {
      WithinRun(ws, i + 1, end);
    }
  }

  /** One pass over the groups, skipping from run to run. */
  method LongestRun(ws: array<group>) returns (start: nat, length: nat)
    requires ws.Length == 8
    ensures Compressed(ws[..], start, length)
  {
    ghost var all := ws[..];
    start, length := 8, 0;
    var i := 0;
    while i < 8
      invariant i <= 8 && ws[..] == all
      invariant FirstLongest(all, i, start, length)
    {
      if ws[i] != 0 {
        i := i + 1;
      } else {
        var end := i + 1;
        while end < 8 && ws[end] == 0
          invariant i < end <= 8
          invariant forall k :: i <= k < end ==> all[k] == 0
        {
          end := end + 1;
        }
        forall j | i <= j < end ensures ZerosFrom(all, j) == end - j {
          WithinRun(all, j, end);
        }
        if end - i > length && end - i >= 2 {
          start, length := i, end - i;
        }
        i := end;
      }
    }
  }

  // ---------------------------------------------------------------- the whole address

  function Join(ws: seq<group>): string {
    if |ws| == 0 then ""
    else if |ws| == 1 then Hex(ws[0])
    else Join(ws[..|ws| - 1]) + ":" + Hex(ws[|ws| - 1])
  }

  /** All groups, or those around a run of zeros that "::" stands for. */
  function Text(ws: groups, start: nat, length: nat): string
    requires length == 0 || start + length <= 8
  {
    if length == 0 then Join(ws) else Join(ws[..start]) + "::" + Join(ws[start + length..])
  }

  ghost predicate IsText(ws: groups, text: string) {
    exists start, length :: Compressed(ws, start, length) && text == Text(ws, start, length)
  }

  /** What has been printed when the loop stands at group i. */
  ghost function Printed(ws: groups, start: nat, length: nat, i: nat): string
    requires i <= 8 && (length == 0 || i <= start || start + length <= i)
  {
    if length == 0 || i <= start then Join(ws[..i]) else Join(ws[..start]) + "::" + Join(ws[start + length..i])
  }

  lemma {:induction false} JoinBounds(ws: seq<group>)
    ensures |Join(ws)| <= if ws == [] then 0 else 5 * |ws| - 1
    ensures ws == [] <==> Join(ws) == ""
    ensures ws != [] ==> Join(ws)[|Join(ws)| - 1] != ':'
  {
    if |ws| == 1 {
      HexLength(ws[0]);
      HexCanonical(ws[0]);
    } else if |ws| > 1 {
      JoinBounds(ws[..|ws| - 1]);
      HexLength(ws[|ws| - 1]);
      HexCanonical(ws[|ws| - 1]);
    }
  }

  /** Every address fits the 39 characters that precede the terminator. */
  lemma TextFits(ws: groups, start: nat, length: nat)
    requires Compressed(ws, start, length)
    ensures length > 0 ==> start + length <= 8
    ensures 2 <= |Text(ws, start, length)| <= 39
  {
    hide Join;
    JoinBounds(ws);
    if length > 0 {
      JoinBounds(ws[..start]);
      JoinBounds(ws[start + length..]);
    } else {
      JoinPair(ws);
    }
  }

  lemma JoinPair(ws: groups)
    ensures |Join(ws)| >= 2
  {
    assert |Hex(ws[7])| >= 1;
  }

  /** Copies a text into a buffer that must keep room for a terminator. */
  method Put(output: array<char>, position: nat, text: string) returns (ok: bool, end: nat)
    requires position <= output.Length
    modifies output
    ensures ok <==> |text| < output.Length - position
    ensures ok ==> end == position + |text| && output[..end] == old(output[..position]) + text
    ensures !ok ==> end == position
  {
    if |text| >= output.Length - position {
      return false, position;
    }
    ghost var before := output[..position];
    for i := 0 to |text|
      invariant output[..position + i] == before + text[..i]
    {
      output[position + i] := text[i];
      assert output[..position + i + 1] == output[..position + i] + [text[i]];
      assert text[..i + 1] == text[..i] + [text[i]];
    }
    assert text[..|text|] == text;
    return true, position + |text|;
  }

  function Separator(before: string): string {
    if before != "" && before[|before| - 1] != ':' then ":" else ""
  }

  lemma NextGroup(head: string, done: seq<group>, w: group)
    requires head == "" || head[|head| - 1] == ':'
    ensures head + Join(done + [w]) == head + Join(done) + Separator(head + Join(done)) + Hex(w)
  {
    hide Join, Hex;
    JoinBounds(done);
    JoinSnoc(done, w);
    if done == [] {
      assert head + Join(done) == head;
    }
  }

  lemma PrintedGroup(ws: groups, start: nat, length: nat, i: nat)
    requires i < 8 && (length == 0 || i < start || start + length <= i)
    ensures Printed(ws, start, length, i + 1)
         == Printed(ws, start, length, i) + Separator(Printed(ws, start, length, i)) + Hex(ws[i])
  {
    hide Join, Hex, Separator;
    if length == 0 || i < start {
      NextGroup("", ws[..i], ws[i]);
      assert ws[..i + 1] == ws[..i] + [ws[i]];
      assert "" + Join(ws[..i]) == Join(ws[..i]);
    } else {
      NextGroup(Join(ws[..start]) + "::", ws[start + length..i], ws[i]);
      assert ws[start + length..i + 1] == ws[start + length..i] + [ws[i]];
    }
  }

  lemma JoinSnoc(ws: seq<group>, w: group)
    ensures Join(ws + [w]) == if ws == [] then Hex(w) else Join(ws) + ":" + Hex(w)
  {
    assert ws != [] ==> (ws + [w])[..|ws|] == ws;
  }

  lemma PrintedRun(ws: groups, start: nat, length: nat)
    requires length > 0 && start + length <= 8
    ensures Printed(ws, start, length, start + length) == Printed(ws, start, length, start) + "::"
  {
    assert ws[start + length..start + length] == [];
  }

  lemma PrintedGrows(ws: groups, start: nat, length: nat, i: nat)
    requires i <= 8 && (length == 0 || (start + length <= 8 && (i <= start || start + length <= i)))
    ensures |Printed(ws, start, length, i)| <= |Printed(ws, start, length, 8)|
    decreases 8 - i
  {
    hide Printed, Hex;
    if i < 8 {
      if length > 0 && i == start {
        PrintedRun(ws, start, length);
        PrintedGrows(ws, start, length, start + length);
      } else {
        PrintedGroup(ws, start, length, i);
        PrintedGrows(ws, start, length, i + 1);
      }
    }
  }

  lemma PrintedAll(ws: groups, start: nat, length: nat)
    requires length == 0 || start + length <= 8
    ensures Printed(ws, start, length, 8) == Text(ws, start, length)
    ensures Printed(ws, start, length, 0) == ""
  {
    assert ws[..8] == ws;
    assert length > 0 ==> ws[start + length..8] == ws[start + length..];
    assert length > 0 && start == 8 ==> false;
  }

  /** Prints the groups into a buffer; it succeeds exactly when the text and its terminator fit. */
  method Print(ws: array<group>, output: array<char>) returns (ok: bool, position: nat)
    requires ws.Length == 8
    modifies output
    ensures ok ==> position <= output.Length && IsText(ws[..], output[..position])
    ensures forall s, l :: Compressed(ws[..], s, l) ==> (s + l <= 8 && (ok <==> |Text(ws[..], s, l)| < output.Length))
  {
    hide Printed, Hex, Join, FirstLongest;
    ghost var all: groups := ws[..];
    var start, length := LongestRun(ws);
    Bounded(all, start, length);
    PrintedAll(all, start, length);
    OnlyOne(all, start, length);
    position := 0;
    if output.Length == 0 {
      TextFits(all, start, length);
      return false, 0;
    }
    assert output[..0] == "";
    var i := 0;
    while i < 8
      invariant i <= 8 && (length == 0 || i <= start || start + length <= i)
      invariant position < output.Length && output[..position] == Printed(all, start, length, i)
      invariant ws[..] == all
      decreases 8 - i
    {
      var fits := true;
      if i == start {
        PrintedRun(all, start, length);
        PrintedGrows(all, start, length, start + length);
        fits, position := Put(output, position, "::");
        i := i + length;
      } else {
        PrintedGroup(all, start, length, i);
        PrintedGrows(all, start, length, i + 1);
        if position != 0 && output[position - 1] != ':' {
          fits, position := Put(output, position, ":");
        }
        if fits {
          fits, position := Put(output, position, Hex(ws[i]));
        }
        i := i + 1;
      }
      if !fits {
        return false, position;
      }
    }
    return true, position;
  }

  lemma Bounded(ws: groups, start: nat, length: nat)
    requires Compressed(ws, start, length)
    ensures start + length <= 8 && (length == 0 ==> start == 8)
  {
  }

  lemma OnlyOne(ws: groups, start: nat, length: nat)
    requires Compressed(ws, start, length)
    ensures forall s, l :: Compressed(ws, s, l) ==> s == start && l == length
  {
    forall s, l | Compressed(ws, s, l) ensures s == start && l == length {
      CompressedUnique(ws, s, l, start, length);
    }
  }

  lemma {:induction false} RunExists(ws: groups, bound: nat) returns (start: nat, length: nat)
    requires bound <= 8
    ensures FirstLongest(ws, bound, start, length)
  {
    if bound == 0 {
      return 8, 0;
    }
    start, length := RunExists(ws, bound - 1);
    var here := ZerosFrom(ws, bound - 1);
    if here >= 2 && here > length {
      return bound - 1, here;
    }
  }

  /** The one text of an address. */
  ghost function TextOf(a: address): (text: string)
    ensures IsText(Groups(a), text)
  {
    assert exists start: nat, length: nat :: Compressed(Groups(a), start, length) by {
      var start, length := RunExists(Groups(a), 8);
      assert Compressed(Groups(a), start, length);
    }
    var start: nat, length: nat :| Compressed(Groups(a), start, length);
    Text(Groups(a), start, length)
  }

  lemma TextUnique(ws: groups, text: string, text': string)
    requires IsText(ws, text) && IsText(ws, text')
    ensures text == text'
  {
    hide Text, ZerosFrom;
    var s: nat, l: nat :| Compressed(ws, s, l) && text == Text(ws, s, l);
    var s': nat, l': nat :| Compressed(ws, s', l') && text' == Text(ws, s', l');
    CompressedUnique(ws, s, l, s', l');
  }

  /** The text of an address: never too long for the 40 characters the caller provides. */
  method Format(a: address) returns (text: string)
    ensures |text| <= 39 && text == TextOf(a)
  {
    hide Compressed, Text, Join, IsText;
    var ws := new group[8](i requires 0 <= i < 8 => GroupAt(a, i));
    var output := new char[40];
    assert ws[..] == Groups(a);
    var start, length := LongestRun(ws);
    TextFits(ws[..], start, length);
    var ok, position := Print(ws, output);
    assert ws[..] == Groups(a) && Compressed(ws[..], start, length) && ok;
    TextUnique(Groups(a), output[..position], TextOf(a));
    return output[..position];
  }

  // ---------------------------------------------------------------- reading a text back

  /** The first colon, or the end. */
  function Colon(s: string): (i: nat)
    ensures i <= |s| && (i < |s| ==> s[i] == ':')
  {
    if s == "" || s[0] == ':' then 0 else 1 + Colon(s[1..])
  }

  /** One to four hexadecimal digits. */
  function Field(s: string): Option<group> {
    if 1 <= |s| <= 4 && AllHex(s) && Value(s) < 0x1_0000 then Some(Value(s)) else None
  }

  function Fields(s: string): Option<seq<group>>
    decreases |s|
  {
    var i := Colon(s);
    match Field(s[..i])
    case None => None
    case Some(w) =>
      if i == |s| then Some([w])
      else match Fields(s[i + 1..]) case None => None case Some(rest) => Some([w] + rest)
  }

  function Side(s: string): Option<seq<group>> {
    if s == "" then Some([]) else Fields(s)
  }

  /** The first "::", or the end. */
  function Gap(s: string): (i: nat)
    ensures i <= |s| && (i < |s| ==> i + 2 <= |s|)
  {
    if |s| < 2 then |s| else if s[0] == ':' && s[1] == ':' then 0 else 1 + Gap(s[1..])
  }

  /** Eight groups, or fewer around one "::" that stands for the zero groups left out. */
  function Parse(s: string): Option<groups> {
    var i := Gap(s);
    if i == |s| then
      match Fields(s)
      case Some(ws) => if |ws| == 8 then Some(ws) else None
      case None => None
    else
      match (Side(s[..i]), Side(s[i + 2..]))
      case (Some(l), Some(r)) => if |l| + |r| <= 7 then Some(l + Zeros(8 - |l| - |r|) + r) else None
      case _ => None
  }

  function Zeros(n: nat): (z: seq<group>)
    ensures |z| == n
  {
    seq(n, _ => 0)
  }

  lemma {:induction false} ColonAfter(s: string, rest: string)
    requires (forall i :: 0 <= i < |s| ==> s[i] != ':') && (rest == "" || rest[0] == ':')
    ensures Colon(s + rest) == |s|
  {
    if s == "" {
      assert s + rest == rest;
    } else {
      ColonAfter(s[1..], rest);
      assert (s + rest)[1..] == s[1..] + rest;
    }
  }

  lemma FieldReads(w: group)
    ensures Field(Hex(w)) == Some(w)
  {
    HexCanonical(w);
    HexLength(w);
  }

  lemma {:induction false} JoinCons(w: group, ws: seq<group>)
    requires ws != []
    ensures Join([w] + ws) == Hex(w) + ":" + Join(ws)
  {
    hide Hex;
    var all := [w] + ws;
    assert all[..|all| - 1] == [w] + ws[..|ws| - 1];
    if |ws| > 1 {
      JoinCons(w, ws[..|ws| - 1]);
    } else {
      assert all[..1] == [w];
    }
  }

  lemma {:induction false} FieldsRead(ws: seq<group>)
    requires ws != []
    ensures Fields(Join(ws)) == Some(ws)
  {
    hide Hex, Field, Join;
    var w, rest := ws[0], ws[1..];
    HexCanonical(w);
    FieldReads(w);
    assert ws == [w] + rest;
    if rest == [] {
      assert ws == [w];
      JoinOne(w);
      ColonAfter(Hex(w), "");
      assert Hex(w) + "" == Hex(w) && Hex(w)[..|Hex(w)|] == Hex(w);
    } else {
      JoinCons(w, rest);
      ColonAfter(Hex(w), ":" + Join(rest));
      assert Join(ws) == Hex(w) + (":" + Join(rest));
      assert Join(ws)[|Hex(w)| + 1..] == Join(rest) && Join(ws)[..|Hex(w)|] == Hex(w);
      FieldsRead(rest);
    }
  }

  lemma JoinOne(w: group)
    ensures Join([w]) == Hex(w)
  {
  }

  lemma SideReads(ws: seq<group>)
    ensures Side(Join(ws)) == Some(ws)
  {
    JoinBounds(ws);
    if ws != [] {
      FieldsRead(ws);
    }
  }

  predicate NoGap(s: string) {
    && (forall i :: 0 <= i < |s| - 1 ==> s[i] != ':' || s[i + 1] != ':')
    && (s == "" || s[|s| - 1] != ':')
  }

  lemma {:induction false} JoinHasNoGap(ws: seq<group>)
    ensures NoGap(Join(ws))
  {
    hide Hex;
    if |ws| == 1 {
      HexCanonical(ws[0]);
    } else if |ws| > 1 {
      var front, last := ws[..|ws| - 1], ws[|ws| - 1];
      JoinHasNoGap(front);
      JoinBounds(front);
      HexCanonical(last);
    }
  }

  lemma {:induction false} GapAfter(s: string, rest: string)
    requires NoGap(s)
    ensures Gap(s) == |s|
    ensures Gap(s + "::" + rest) == |s|
  {
    if s == "" {
      assert s + "::" + rest == "::" + rest;
    } else {
      GapAfter(s[1..], rest);
      assert (s + "::" + rest)[1..] == s[1..] + "::" + rest;
    }
  }

  lemma {:induction false} RunIsZero(ws: seq<group>, i: nat)
    requires i <= |ws|
    ensures ws[i..i + ZerosFrom(ws, i)] == Zeros(ZerosFrom(ws, i))
    decreases |ws| - i
  {
    var n := ZerosFrom(ws, i);
    if n > 0 {
      RunIsZero(ws, i + 1);
      assert ws[i..i + n] == [0] + ws[i + 1..i + n];
    }
  }

  /** The printed text parses back to the groups it was printed from. */
  lemma TextParses(ws: groups, start: nat, length: nat)
    requires Compressed(ws, start, length)
    ensures length > 0 ==> start + length <= 8
    ensures Parse(Text(ws, start, length)) == Some(ws)
  {
    hide Join, Fields, Side, Gap, Zeros, NoGap;
    Bounded(ws, start, length);
    if length == 0 {
      JoinHasNoGap(ws);
      GapAfter(Join(ws), "");
      FieldsRead(ws);
    } else {
      var l, r := ws[..start], ws[start + length..];
      var text := Join(l) + "::" + Join(r);
      JoinHasNoGap(l);
      GapAfter(Join(l), Join(r));
      SideReads(l);
      SideReads(r);
      assert text[..|Join(l)|] == Join(l) && text[|Join(l)| + 2..] == Join(r);
      RunIsZero(ws, start);
      assert ws == l + ws[start..start + length] + r;
    }
  }

  function Octets(ws: groups): (a: address) {
    seq(16, i requires 0 <= i < 16 => if i % 2 == 0 then ws[i / 2] / 256 else ws[i / 2] % 256)
  }

  lemma OctetsOfGroups(a: address)
    ensures Octets(Groups(a)) == a
  {
    forall i | 0 <= i < 16 ensures Octets(Groups(a))[i] == a[i] {
      assert Groups(a)[i / 2] == GroupAt(a, i / 2);
    }
  }

  /** The text of an address parses back to that address. */
  lemma RoundTrip(a: address)
    ensures Parse(TextOf(a)).Some? && Octets(Parse(TextOf(a)).value) == a
  {
    hide Text, Parse, Octets, Groups, ZerosFrom;
    assert IsText(Groups(a), TextOf(a));
    var start: nat, length: nat :| Compressed(Groups(a), start, length) && TextOf(a) == Text(Groups(a), start, length);
    TextParses(Groups(a), start, length);
    OctetsOfGroups(a);
  }

  /** Different addresses have different texts. */
  lemma Injective(a: address, b: address)
    requires TextOf(a) == TextOf(b)
    ensures a == b
  {
    hide TextOf, Parse, Octets, Groups;
    RoundTrip(a);
    RoundTrip(b);
  }

  predicate Lowercase(s: string) {
    forall i :: 0 <= i < |s| ==> !('A' <= s[i] <= 'Z')
  }

  lemma {:induction false} JoinLowercase(ws: seq<group>)
    ensures Lowercase(Join(ws))
  {
    if |ws| == 1 {
      HexCanonical(ws[0]);
    } else if |ws| > 1 {
      JoinLowercase(ws[..|ws| - 1]);
      HexCanonical(ws[|ws| - 1]);
    }
  }

  /** The text is lowercase, and "::" is used exactly when two neighbouring groups are zero. */
  lemma TextCanonical(ws: groups, text: string)
    requires IsText(ws, text)
    ensures Lowercase(text)
    ensures Gap(text) < |text| <==> exists j :: 0 <= j < 7 && ZerosFrom(ws, j) >= 2
  {
    hide Join, Gap, NoGap;
    var start: nat, length: nat :| Compressed(ws, start, length) && text == Text(ws, start, length);
    Bounded(ws, start, length);
    if length == 0 {
      JoinLowercase(ws);
      JoinHasNoGap(ws);
      GapAfter(Join(ws), "");
    } else {
      JoinLowercase(ws[..start]);
      JoinLowercase(ws[start + length..]);
      JoinHasNoGap(ws[..start]);
      GapAfter(Join(ws[..start]), Join(ws[start + length..]));
      assert ZerosFrom(ws, start) >= 2;
    }
  }
}
