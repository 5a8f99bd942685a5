/** Print and parse stability of the configuration, and the loops that read and write it. */
module ConfigWriter {
  import opened Common
  import opened ConfigText
  import opened Config
  import opened ConfigLines
  import opened ConfigKeys
  import opened ConfigRoundTrip
  import opened ConfigStability
  import opened ConfigFile
  import opened ConfigReader

  // ---------------------------------------------------------------- written lines

  predicate AllClear(lines: seq<string>) {
    forall i :: 0 <= i < |lines| ==> Free(lines[i], STOPS)
  }

  lemma ClearAppend(a: seq<string>, b: seq<string>)
    requires AllClear(a) && AllClear(b)
    ensures AllClear(a + b)
  {
    hide Free;
  }

  lemma SettingClear(pad: string, key: string, value: string)
    requires Indent(pad) && Keyword(key) && Writable(value)
    ensures Free(pad + key + " = " + value, STOPS)
  {
    hide Free, Keyword, Trimmed;
    IndentIsSpace(pad);
    KeywordShape(key);
    EqualsClear();
    FreeAppend(pad, key, STOPS);
    FreeAppend(pad + key, " = ", STOPS);
    FreeAppend(pad + key + " = ", value, STOPS);
  }

  lemma EqualsClear()
    ensures Free(" = ", STOPS) && Free("", STOPS) && Free("  [[", STOPS) && Free("]]", STOPS)
    ensures Free("[reticulum]", STOPS) && Free("[interfaces]", STOPS)
  {
  }

  lemma PairLinesClear(ps: seq<Pair>)
    requires AllWritable(ps)
    ensures AllClear(PairLines(ps))
  {
    hide Free, Keyword, Writable, KeyName;
    forall i | 0 <= i < |ps| ensures Free(PairLines(ps)[i], STOPS) {
      KeyKeyword(ps[i].key);
      SettingClear("    ", KeyName(ps[i].key), ps[i].value);
    }
  }

  lemma InterfaceLinesClear(i: Interface)
    requires Accepted(i)
    ensures AllClear(InterfaceLines(i))
  {
    hide Free, AllWritable, Pairs, PairLines, NetWell, DiscoveryWell, SerialWell, RadioWell, Trimmed, Validate;
    var ps := Pairs(i, i.kind.value);
    EqualsClear();
    PairsWritable(i, i.kind.value);
    PairLinesClear(ps);
    FreeAppend("  [[", i.name, STOPS);
    FreeAppend("  [[" + i.name, "]]", STOPS);
    ClearAppend([NameLine(i.name)], PairLines(ps));
    ClearAppend([NameLine(i.name)] + PairLines(ps), [""]);
  }

  lemma {:induction false} ItemLinesClear(items: seq<Interface>)
    requires AllAccepted(items) && AllTyped(items)
    ensures AllClear(ItemLines(items))
  {
    hide AllClear, Accepted, InterfaceLines, AllNamed, Named, AllAccepted;
    if items == [] {
      NoneClear();
    } else {
      NamedSplit(items);
      InterfaceLinesClear(items[0]);
      ItemLinesClear(items[1..]);
      ClearAppend(InterfaceLines(items[0]), ItemLines(items[1..]));
    }
  }

  lemma NoneClear()
    ensures AllClear([])
  {
  }

  lemma OptionValuesWritable(o: Options)
    requires OptionsWell(o)
    ensures forall j :: 0 <= j < |OptionPairs(o)| ==> Writable(OptionPairs(o)[j].value)
  {
    hide Writable, YesNo, Dec;
    YesNoReads(o.transport);
    YesNoReads(o.share);
    YesNoReads(o.panic);
    SharedReads(o.unix);
    DecWritable(o.port);
    DecWritable(o.controlPort);
  }

  lemma HeaderLinesClear(o: Options)
    requires OptionsWell(o)
    ensures AllClear(HeaderLines(o))
  {
    hide Free, OptionPairs, Writable, OptionsWell, OptionName, Keyword;
    var ps := OptionPairs(o);
    EqualsClear();
    OptionValuesWritable(o);
    forall j | 0 <= j < |ps| ensures Free(OptionLines(ps)[j], STOPS) {
      OptionKeyword(ps[j].key);
      SettingClear("  ", OptionName(ps[j].key), ps[j].value);
    }
    ClearAppend(["[reticulum]"], OptionLines(ps));
    ClearAppend(["[reticulum]"] + OptionLines(ps), ["", "[interfaces]"]);
  }

  lemma ClearLines(lines: seq<string>)
    requires AllClear(lines)
    ensures NoNewline(lines)
  {
    hide Free;
    forall i | 0 <= i < |lines| ensures Free(lines[i], "\n") {
      CleanFree(lines[i]);
    }
  }

  lemma {:induction false} JoinedHasNoNul(lines: seq<string>)
    requires AllClear(lines)
    ensures '\0' !in Joined(lines)
  {
    if lines != [] {
      JoinedHasNoNul(lines[1..]);
      CleanFree(lines[0]);
      assert '\0' in "\0" by { assert "\0"[0] == '\0'; }
    }
  }

  lemma LinesClear(c: Config)
    requires Sound(c) && AllTyped(c.interfaces)
    ensures AllClear(Lines(c))
  {
    hide AllClear, OptionsWell, AllAccepted, HeaderLines, ItemLines;
    HeaderLinesClear(c.options);
    ItemLinesClear(c.interfaces);
    ClearAppend(HeaderLines(c.options), ItemLines(c.interfaces));
  }

  // ---------------------------------------------------------------- stability

  /** The configuration written text is read back as. */
  function NormalConfig(c: Config): Config
    requires AllTyped(c.interfaces)
  {
    Config(c.options, Normals(c.interfaces))
  }

  lemma {:induction false} NormalsValid(items: seq<Interface>)
    requires AllAccepted(items) && AllTyped(items)
    ensures ValidateAll(Normals(items)) == Ok
    decreases items
  {
    hide Validate, ItemWell, Normal, Named, AllNamed;
    if items != [] {
      NamedSplit(items);
      NormalsSplit(items);
      NotProvider(items[0]);
      NormalAccepted(items[0], items[0].kind.value);
      NormalsValid(items[1..]);
      assert Normals(items)[1..] == Normals(items[1..]);
    }
  }

  /** What the writer writes is read back, except for the texts it had to leave empty. */
  lemma WrittenParses(c: Config)
    requires Sound(c) && AllTyped(c.interfaces)
    ensures Parse(Written(c)) == if AllNamed(c.interfaces) then Good(NormalConfig(c)) else Bad(Protocol)
  {
    hide StepAll, Joined, OptionsWell, AllAccepted, AllNamed, HeaderLines, ItemLines, AllClear, ValidateAll, Normals, NoNewline,
         ParseLines;
    LinesClear(c);
    ClearLines(Lines(c));
    JoinedHasNoNul(Lines(c));
    JoinedParses(Initial(), Lines(c));
    StepHeader(c.options);
    StepAllAppend(Initial(), HeaderLines(c.options), ItemLines(c.interfaces));
    StepItems(State(c.options, [], Interfaces), c.interfaces);
    NormalsValid(c.interfaces);
    if AllNamed(c.interfaces) {
      assert [] + Normals(c.interfaces) == Normals(c.interfaces);
    }
  }

  lemma {:induction false} NormalItemLines(items: seq<Interface>)
    requires AllAccepted(items) && AllTyped(items)
    ensures AllTyped(Normals(items)) && ItemLines(Normals(items)) == ItemLines(items)
    decreases items
  {
    hide Accepted, Normal, PairLines, Pairs, NameLine, Named, AllNamed;
    if items != [] {
      var i := items[0];
      NamedSplit(items);
      NormalsSplit(items);
      AcceptedNotProvider(i);
      NormalPairs(i, i.kind.value);
      NormalItemLines(items[1..]);
      assert Normals(items)[1..] == Normals(items[1..]);
    }
  }

  lemma AcceptedNotProvider(i: Interface)
    requires Accepted(i)
    ensures i.kind.Some? && !i.kind.value.Provider?
  {
  }

  /** For every text the reader accepts: what is written for it can be read if and only if every text
      the writer must name is there, and then writing again gives the same text. */
  lemma PrintParseStable(text: string)
    requires Parse(text).Good?
    ensures Sound(Parse(text).value) && AllTyped(Parse(text).value.interfaces)
    ensures var c := Parse(text).value;
            && (Parse(Written(c)).Good? <==> AllNamed(c.interfaces))
            && (Parse(Written(c)).Good? ==>
                  && AllTyped(Parse(Written(c)).value.interfaces)
                  && Written(Parse(Written(c)).value) == Written(c))
  {
    hide Parse, Joined, HeaderLines, ItemLines, AllNamed, OptionsWell, AllAccepted, Normals;
    ParsedIsSound(text);
    var c := Parse(text).value;
    AcceptedTyped(c.interfaces);
    WrittenParses(c);
    NormalItemLines(c.interfaces);
  }

  /** A disabled KISS interface without a device. */
  function Deviceless(): seq<string> {
    ["[interfaces]", NameLine("a"), PairLine(Pair(KType, KindName(Kiss)))]
  }

  /** A text the reader accepts, and for which it refuses what the writer writes. */
  lemma DevicelessLost()
    ensures var text := Joined(Deviceless());
            && Parse(text).Good?
            && AllTyped(Parse(text).value.interfaces)
            && Parse(Written(Parse(text).value)).Bad?
  {
    hide Parse, Joined, Written;
    DevicelessParses();
    PrintParseStable(Joined(Deviceless()));
  }

  lemma DevicelessParses()
    ensures Parse(Joined(Deviceless())) == Good(Config(DefaultOptions(), [OfKind(Fresh("a"), Kiss)]))
    ensures !AllNamed([OfKind(Fresh("a"), Kiss)])
  {
    hide Step, StepAll, Joined, KindName, NameLine, PairLine, Fresh, DefaultOptions, Writable, ParseLines, AllClear;
    var lines := Deviceless();
    var st1 := State(DefaultOptions(), [], Interfaces);
    var e := Entry(Fresh("a"), false, false);
    var p := Pair(KType, KindName(Kiss));
    DevicelessClear();
    ClearLines(lines);
    JoinedHasNoNul(lines);
    JoinedParses(Initial(), lines);
    StepInterfaces(Initial());
    LetterClean();
    StepName(st1, "a");
    KindWord(Kiss);
    KindReads(Kiss);
    StepPairOf(State(DefaultOptions(), [], Section.Within(e)), e, p);
    StepThree(Initial(), lines);
    FreshIsDisabled();
    var item := OfKind(Fresh("a"), Kiss);
    assert Assign(e, KType, KindName(Kiss)) == Good(e.(item := item));
    LoneItem(item);
    assert State(DefaultOptions(), [], Section.Within(e.(item := item))).All() == [item];
  }

  lemma LoneItem(item: Interface)
    requires item.kind == Some(Kiss) && !item.enabled && item.serial.device == ""
    ensures ValidateAll([item]) == Ok && !AllNamed([item])
  {
    assert [item][1..] == [];
    assert !Named([item][0], Kiss);
  }

  lemma StepThree(st: State, lines: seq<string>)
    requires |lines| == 3 && Step(st, lines[0]).Good? && Step(Step(st, lines[0]).value, lines[1]).Good?
    ensures StepAll(st, lines) == Step(Step(Step(st, lines[0]).value, lines[1]).value, lines[2])
  {
    hide Step;
    var st1 := Step(st, lines[0]).value;
    var st2 := Step(st1, lines[1]).value;
    assert lines[1..][0] == lines[1] && lines[1..][1..] == [lines[2]];
    assert StepAll(st1, lines[1..]) == StepAll(st2, [lines[2]]);
    StepOne(st2, lines[2]);
  }

  lemma FreshIsDisabled()
    ensures !Fresh("a").enabled && Fresh("a").serial.device == ""
  {
  }

  lemma LetterClean()
    ensures Clean("a")
  {
  }

  lemma DevicelessClear()
    ensures AllClear(Deviceless())
  {
    hide Free, Keyword, KeyName, KindName, Writable;
    EqualsClear();
    KindWord(Kiss);
    KeyKeyword(KType);
    SettingClear("    ", KeyName(KType), KindName(Kiss));
    LetterFree();
    FreeAppend("  [[", "a", STOPS);
    FreeAppend("  [[" + "a", "]]", STOPS);
  }

  lemma LetterFree()
    ensures Free("a", STOPS)
  {
  }

  // ---------------------------------------------------------------- the reading loop

  method ReadHeading(st: State, c: string) returns (r: Outcome<State>)
    requires c != "" && c[0] == '['
    ensures r == Heading(st, c)
  {
    hide Trim, Fresh;
    var n := |c|;
    if n >= 4 && c[1] == '[' && c[n - 2] == ']' && c[n - 1] == ']' {
      var name := TrimSpan(c[2..n - 2]);
      if !st.section.Interfaces? && !st.section.Within? {
        return Bad(Protocol);
      }
      if name == "" || |st.All()| >= MAX_INTERFACES {
        return Bad(Overflow);
      }
      if |name| >= NAME_MAX {
        return Bad(Overflow);
      }
      return Good(State(st.options, st.All(), Section.Within(Entry(Fresh(name), false, false))));
    }
    if n >= 2 && c[n - 1] == ']' {
      var name := TrimSpan(c[1..n - 1]);
      if name == "reticulum" {
        return Good(State(st.options, st.All(), Reticulum));
      }
      if name == "interfaces" {
        return Good(State(st.options, st.All(), Interfaces));
      }
      return Bad(Unsupported);
    }
    return Bad(Protocol);
  }

  method ReadLine(st: State, raw: string) returns (r: Outcome<State>)
    ensures r == Step(st, raw)
  {
    hide Trim, Heading, Dispatch;
    var line := WithoutReturn(raw);
    if |line| >= LINE_MAX {
      return Bad(Overflow);
    }
    var c := TrimSpan(line[..Scan(line, "#;")]);
    if c == "" {
      return Good(st);
    }
    if c[0] == '[' {
      r := ReadHeading(st, c);
      return;
    }
    var i := Scan(c, "=");
    if i == |c| {
      return Bad(Protocol);
    }
    var key := TrimSpan(c[..i]);
    var value := TrimSpan(c[i + 1..]);
    if key == "" || value == "" {
      return Bad(Protocol);
    }
    return Dispatch(st, key, value);
  }

  lemma NewlineFree(s: string)
    requires forall k :: 0 <= k < |s| ==> s[k] != '\n'
    ensures Free(s, "\n")
  {
  }

  lemma ScanReached(text: string, from: nat, position: nat)
    requires from <= position <= |text| && Free(text[from..position], "\n")
    requires position < |text| ==> text[position] == '\n'
    ensures Scan(text[from..], "\n") == position - from
  {
    var before := text[from..position];
    if position < |text| {
      ScanTo(before, '\n', text[position + 1..], "\n");
      assert text[from..] == before + ['\n'] + text[position + 1..];
    } else {
      ScanAll(before, "\n");
      assert text[from..] == before;
    }
  }

  /** Moves over a line, up to its newline or the end of the text. */
  method LineEnd(text: string, start: nat) returns (position: nat)
    requires start <= |text|
    ensures start <= position <= |text| && position == start + Scan(text[start..], "\n")
  {
    hide Scan, Free;
    position := start;
    while position < |text| && text[position] != '\n'
      invariant start <= position <= |text|
      invariant forall k :: start <= k < position ==> text[k] != '\n'
    {
      position := position + 1;
    }
    NewlineFree(text[start..position]);
    ScanReached(text, start, position);
  }

  method CheckAll(items: seq<Interface>) returns (status: Status)
    ensures status == ValidateAll(items)
  {
    hide ValidateAll, Validate;
    assert items[0..] == items;
    for j := 0 to |items|
      invariant ValidateAll(items) == ValidateAll(items[j..])
    {
      ValidateFirst(items, j);
      if Validate(items[j]) != Ok {
        return Validate(items[j]);
      }
    }
    ValidateNone(items);
    return Ok;
  }

  lemma ParseStep(st: State, text: string, start: nat, position: nat)
    requires start < |text| && start <= position <= |text| && position == start + Scan(text[start..], "\n")
    ensures var next := Step(st, text[start..position]);
            ParseLines(st, text[start..])
            == if next.Bad? then Bad(next.status)
               else ParseLines(next.value, text[if position < |text| then position + 1 else position..])
  {
    hide Step, Scan;
    assert text[start..][..position - start] == text[start..position];
    if position < |text| {
      assert text[start..][position - start + 1..] == text[position + 1..];
    }
  }

  /** Takes the text line by line, then checks every interface. */
  method ReadConfig(text: string) returns (r: Outcome<Config>)
    ensures r == Parse(text)
  {
    hide Step, Scan, ValidateAll, Initial, State.All, ParseLines;
    if '\0' in text {
      return Bad(InvalidArgument);
    }
    var st := Initial();
    var position := 0;
    assert text[0..] == text;
    while position < |text|
      invariant position <= |text|
      invariant ParseLines(Initial(), text) == ParseLines(st, text[position..])
    {
      var end := LineEnd(text, position);
      ParseStep(st, text, position, end);
      var next := ReadLine(st, text[position..end]);
      if next.Bad? {
        return Bad(next.status);
      }
      st := next.value;
      position := if end < |text| then end + 1 else end;
    }
    NoText(st);
    assert text[position..] == "";
    var status := CheckAll(st.All());
    return if status != Ok then Bad(status) else Good(Config(st.options, st.All()));
  }

  lemma NoText(st: State)
    ensures ParseLines(st, "") == Good(st)
  {
  }

  lemma ValidateFirst(items: seq<Interface>, j: nat)
    requires j < |items|
    ensures ValidateAll(items[j..]) == if Validate(items[j]) != Ok then Validate(items[j]) else ValidateAll(items[j + 1..])
  {
    hide Validate;
    assert items[j..][1..] == items[j + 1..];
  }

  lemma ValidateNone(items: seq<Interface>)
    ensures ValidateAll(items[|items|..]) == Ok
  {
  }
}
