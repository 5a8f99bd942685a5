/** The whole configuration file: reading what was written. */
module ConfigFile {
  import opened Common
  import opened ConfigText
  import opened Config
  import opened ConfigLines
  import opened ConfigKeys
  import opened ConfigRoundTrip
  import opened ConfigStability

  // ---------------------------------------------------------------- interfaces

  predicate AllAccepted(items: seq<Interface>) {
    forall j :: 0 <= j < |items| ==> Accepted(items[j])
  }

  /** Every enabled server and datagram interface names the address it listens on,
      and every serial and radio interface its device. */
  predicate AllNamed(items: seq<Interface>) {
    forall j :: 0 <= j < |items| && items[j].kind.Some? ==> Named(items[j], items[j].kind.value)
  }

  function NormalItem(i: Interface): Interface
    requires i.kind.Some?
  {
    Normal(i, i.kind.value)
  }

  function Normals(items: seq<Interface>): seq<Interface>
    requires AllTyped(items)
  {
    seq(|items|, j requires 0 <= j < |items| => NormalItem(items[j]))
  }

  predicate Ready(st: State) {
    st.section.Interfaces? || st.section.Within?
  }

  lemma StepInterface(st: State, i: Interface)
    requires Accepted(i) && Ready(st) && |st.All()| < MAX_INTERFACES
    ensures StepAll(st, InterfaceLines(i))
         == if Named(i, i.kind.value)
            then Good(State(st.options, st.All(), Section.Within(Entry(NormalItem(i), i.enabled, false))))
            else Bad(Protocol)
  {
    hide StepAll, Step, Pairs, PairLines, NameLine, Named, Normal, Fresh, AssignAll, AllWritable, NetWell, DiscoveryWell,
         SerialWell, RadioWell, Validate, Clean;
    var k := i.kind.value;
    var ps := Pairs(i, k);
    var named := State(st.options, st.All(), Section.Within(Entry(Fresh(i.name), false, false)));
    StepName(st, i.name);
    StepOne(st, NameLine(i.name));
    PairsRead(i);
    PairsWritable(i, k);
    StepPairs(named, Entry(Fresh(i.name), false, false), ps);
    StepAllAppend(st, [NameLine(i.name)], PairLines(ps));
    StepAllAppend(st, [NameLine(i.name)] + PairLines(ps), [""]);
    if Named(i, k) {
      var end := State(st.options, st.All(), Section.Within(Entry(Normal(i, k), i.enabled, false)));
      StepBlank(end);
      StepOne(end, "");
    }
  }

  lemma NamedSplit(items: seq<Interface>)
    requires items != [] && AllAccepted(items)
    ensures AllAccepted(items[1..]) && Accepted(items[0])
    ensures AllNamed(items) <==> Named(items[0], items[0].kind.value) && AllNamed(items[1..])
  {
    hide Accepted, Named;
    AcceptedTyped(items);
    assert forall j :: 0 <= j < |items[1..]| ==> items[1..][j] == items[j + 1];
    if Named(items[0], items[0].kind.value) && AllNamed(items[1..]) {
      forall j | 0 <= j < |items| && items[j].kind.Some? ensures Named(items[j], items[j].kind.value) {
        if j > 0 {
          assert items[j] == items[1..][j - 1];
        }
      }
    }
  }

  lemma AcceptedTyped(items: seq<Interface>)
    requires AllAccepted(items)
    ensures AllTyped(items)
  {
  }

  lemma NormalsSplit(items: seq<Interface>)
    requires items != [] && AllTyped(items)
    ensures AllTyped(items[1..]) && Normals(items) == [NormalItem(items[0])] + Normals(items[1..])
  {
  }

  /** Written interfaces are read back one after another, up to one that misses a text. */
  lemma {:induction false} StepItems(st: State, items: seq<Interface>)
    requires AllAccepted(items) && AllTyped(items) && Ready(st) && |st.All()| + |items| <= MAX_INTERFACES
    ensures !AllNamed(items) ==> StepAll(st, ItemLines(items)) == Bad(Protocol)
    ensures AllNamed(items) ==>
              && StepAll(st, ItemLines(items)).Good?
              && StepAll(st, ItemLines(items)).value.options == st.options
              && StepAll(st, ItemLines(items)).value.All() == st.All() + Normals(items)
    decreases items
  {
    hide StepAll, Accepted, Named, AllNamed, InterfaceLines, Normal, AllAccepted;
    if items == [] {
      StepNone(st);
      NoneNamed();
      assert st.All() + Normals(items) == st.All();
    } else {
      var i, rest := items[0], items[1..];
      NamedSplit(items);
      NormalsSplit(items);
      StepInterface(st, i);
      StepAllAppend(st, InterfaceLines(i), ItemLines(rest));
      if Named(i, i.kind.value) {
        var next := State(st.options, st.All(), Section.Within(Entry(NormalItem(i), i.enabled, false)));
        assert next.All() == st.All() + [NormalItem(i)];
        StepItems(next, rest);
        assert st.All() + [NormalItem(i)] + Normals(rest) == st.All() + Normals(items);
      }
    }
  }

  lemma StepNone(st: State)
    ensures StepAll(st, []) == Good(st)
  {
  }

  lemma NoneNamed()
    ensures AllNamed([])
  {
  }

  // ---------------------------------------------------------------- the instance

  lemma StepOption(st: State, k: OptionKey, value: string, o: Options, rest: seq<string>)
    requires st.section.Reticulum? && Writable(value) && value != "" && SetOption(st.options, k, value) == Some(o)
    ensures StepAll(st, [OptionLine(OptionPair(k, value))] + rest) == StepAll(st.(options := o), rest)
  {
    hide Step, OptionName, OptionOf, SetOption, Keyword, Clean;
    OptionRead(k);
    OptionKeyword(k);
    StepPair(st, "  ", OptionName(k), value);
    var line := OptionLine(OptionPair(k, value));
    assert ([line] + rest)[1..] == rest;
  }

  lemma OptionLinesCons(ps: seq<OptionPair>, j: nat)
    requires j < |ps|
    ensures OptionLines(ps[j..]) == [OptionLine(ps[j])] + OptionLines(ps[j + 1..])
  {
    hide OptionLine;
  }

  lemma OptionAt(st: State, ps: seq<OptionPair>, j: nat, o: Options)
    requires j < |ps| && st.section.Reticulum? && Writable(ps[j].value) && ps[j].value != ""
    requires SetOption(st.options, ps[j].key, ps[j].value) == Some(o)
    ensures StepAll(st, OptionLines(ps[j..])) == StepAll(st.(options := o), OptionLines(ps[j + 1..]))
  {
    hide StepAll, OptionLine, OptionLines, SetOption, Writable;
    OptionLinesCons(ps, j);
    StepOption(st, ps[j].key, ps[j].value, o, OptionLines(ps[j + 1..]));
  }

  lemma FlagsRead(st: State, o: Options)
    requires st.section.Reticulum? && OptionsWell(o)
    ensures StepAll(st, OptionLines(OptionPairs(o)))
         == StepAll(st.(options := st.options.(transport := o.transport, share := o.share, unix := o.unix)),
                    OptionLines(OptionPairs(o)[3..]))
  {
    hide StepAll, OptionLines, Boolean, SharedType, YesNo, Writable, Dec;
    var ps := OptionPairs(o);
    YesNoReads(o.transport);
    YesNoReads(o.share);
    SharedReads(o.unix);
    var o1 := st.options.(transport := o.transport);
    var o2 := o1.(share := o.share);
    OptionAt(st, ps, 0, o1);
    OptionAt(st.(options := o1), ps, 1, o2);
    OptionAt(st.(options := o2), ps, 2, o2.(unix := o.unix));
    assert ps[0..] == ps;
  }

  lemma PortsRead(st: State, o: Options)
    requires st.section.Reticulum? && OptionsWell(o)
    ensures StepAll(st, OptionLines(OptionPairs(o)[3..]))
         == Good(st.(options := st.options.(name := o.name, panic := o.panic, port := o.port, controlPort := o.controlPort)))
  {
    hide StepAll, OptionLines, Boolean, YesNo, Clean, Dec, Number;
    var ps := OptionPairs(o);
    YesNoReads(o.panic);
    NumberReads(o.port, 1, U16);
    NumberReads(o.controlPort, 1, U16);
    var o1 := st.options.(name := o.name);
    var o2 := o1.(panic := o.panic);
    var o3 := o2.(port := o.port);
    var o4 := o3.(controlPort := o.controlPort);
    OptionAt(st, ps, 3, o1);
    OptionAt(st.(options := o1), ps, 4, o2);
    OptionAt(st.(options := o2), ps, 5, o3);
    OptionAt(st.(options := o3), ps, 6, o4);
    NoOptionLines(ps);
    StepNone(st.(options := o4));
  }

  lemma NoOptionLines(ps: seq<OptionPair>)
    requires |ps| == 7
    ensures OptionLines(ps[7..]) == []
  {
  }

  lemma StepHeader(o: Options)
    requires OptionsWell(o)
    ensures StepAll(Initial(), HeaderLines(o)) == Good(State(o, [], Interfaces))
  {
    hide Step, StepAll, OptionLines, OptionPairs, OptionsWell, DefaultOptions;
    var st0 := Initial();
    var st1 := State(st0.options, [], Reticulum);
    var st2 := st1.(options := st1.options.(transport := o.transport, share := o.share, unix := o.unix));
    var lines := OptionLines(OptionPairs(o));
    StepReticulum(st0);
    StepOne(st0, "[reticulum]");
    FlagsRead(st1, o);
    PortsRead(st2, o);
    var st3 := State(o, [], Reticulum);
    StepBlank(st3);
    StepInterfaces(st3);
    StepOne(st3, "");
    StepOne(st3, "[interfaces]");
    StepAllAppend(st0, ["[reticulum]"], lines);
    StepAllAppend(st0, ["[reticulum]"] + lines, ["", "[interfaces]"]);
    StepAllAppend(st3, [""], ["[interfaces]"]);
    assert [""] + ["[interfaces]"] == ["", "[interfaces]"];
  }
}
