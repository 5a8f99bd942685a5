/** What every configuration the reader accepts satisfies. */
module ConfigReader {
  import opened Common
  import opened ConfigText
  import opened Config
  import opened ConfigLines
  import opened ConfigKeys
  import opened ConfigRoundTrip
  import opened ConfigStability
  import opened ConfigFile

  // ---------------------------------------------------------------- values keep their bounds

  lemma NumberBounds(s: string, low: nat, high: nat)
    ensures Number(s, low, high).Some? ==> low <= Number(s, low, high).value <= high
  {
  }

  lemma NetKeeps(n: Net, k: Key, s: string)
    requires NetWell(n) && Clean(s) && NetValue(n, k, s).Some?
    ensures NetWell(NetValue(n, k, s).value)
  {
    hide Number, Clean;
    NumberBounds(s, 1, U16);
  }

  lemma ScopeCanonical(s: string)
    requires Scope(s).Some?
    ensures var v := Scope(s).value; Scope(v) == Some(v) && Writable(v)
  {
    ScopeWords();
    WordWritable(Scope(s).value);
    hide Writable, Word;
    ScopesDiffer();
  }

  lemma ScopeWords()
    ensures Word("link") && Word("admin") && Word("site") && Word("organisation") && Word("global")
  {
  }

  lemma ScopesDiffer()
    ensures !Same("site", "link")
  {
    assert Lower("site")[0] == 's' && Lower("link")[0] == 'l';
  }

  lemma AddressTypeCanonical(s: string)
    requires AddressType(s).Some?
    ensures var v := AddressType(s).value; AddressType(v) == Some(v) && Writable(v)
  {
    assert Word("temporary") && Word("permanent");
    WordWritable(AddressType(s).value);
    assert Lower("permanent")[0] == 'p' && Lower("temporary")[0] == 't';
  }

  lemma DiscoveryKeeps(d: Discovery, k: Key, s: string)
    requires DiscoveryWell(d) && Clean(s) && DiscoveryValue(d, k, s).Some?
    ensures DiscoveryWell(DiscoveryValue(d, k, s).value)
  {
    hide Number, Clean, Scope, AddressType;
    NumberBounds(s, 1, U16);
    NumberBounds(s, 5, U32);
    if k.KScope? {
      ScopeCanonical(s);
    } else if k.KAddressType? {
      AddressTypeCanonical(s);
    }
  }

  lemma SerialKeeps(p: Serial, k: Key, s: string)
    requires SerialWell(p) && Clean(s) && SerialValue(p, k, s).Some?
    ensures SerialWell(SerialValue(p, k, s).value)
  {
    hide Number, Clean, Boolean, Same;
    NumberBounds(s, 1, U32);
    NumberBounds(s, 0, U16);
    NumberBounds(s, 0, U8);
    NumberBounds(s, 5, 8);
    NumberBounds(s, 1, 2);
  }

  lemma PercentBounds(s: string)
    ensures Percent(s).Some? ==> Percent(s).value <= 10000
  {
    hide Value, Digits, Fraction;
  }

  lemma SignedBounds(s: string, low: int, high: int)
    ensures Signed(s, low, high).Some? ==> low <= Signed(s, low, high).value <= high
  {
    hide Value;
  }

  lemma RadioKeeps(r: Radio, k: Key, s: string)
    requires RadioWell(r) && RadioValue(r, k, s).Some?
    ensures RadioWell(RadioValue(r, k, s).value)
  {
    hide Number, Signed, Percent;
    NumberBounds(s, 0, U32);
    NumberBounds(s, 0, U8);
    SignedBounds(s, -127, 127);
    PercentBounds(s);
  }

  lemma AssignKeeps(e: Entry, k: Key, s: string)
    requires ItemWell(e.item) && Clean(s) && Assign(e, k, s).Good?
    ensures ItemWell(Assign(e, k, s).value.item)
  {
    hide NetWell, DiscoveryWell, RadioWell, Clean, NetValue, DiscoveryValue, SerialValue, RadioValue, Boolean, Same, Writable;
    if IsNet(k) {
      NetKeeps(e.item.net, k, s);
    } else if IsDiscovery(k) {
      DiscoveryKeeps(e.item.discovery, k, s);
    } else if IsSerial(k) {
      SerialKeeps(e.item.serial, k, s);
    } else if k != KType && k != KEnabled && k != KLegacyEnabled {
      RadioKeeps(e.item.radio, k, s);
    }
  }

  lemma OptionKeeps(o: Options, k: OptionKey, s: string)
    requires OptionsWell(o) && Clean(s) && s != "" && SetOption(o, k, s).Some?
    ensures OptionsWell(SetOption(o, k, s).value)
  {
    hide Number, Clean, Boolean, SharedType;
    NumberBounds(s, 1, U16);
  }

  lemma FreshWell(name: string)
    requires Clean(name) && 0 < |name| < NAME_MAX
    ensures ItemWell(Fresh(name))
  {
    EmptyWritable();
    hide Clean;
  }

  lemma EmptyWritable()
    ensures Clean("") && Writable("")
  {
  }

  // ---------------------------------------------------------------- lines keep the state well

  predicate AllWell(items: seq<Interface>) {
    forall j :: 0 <= j < |items| ==> ItemWell(items[j])
  }

  predicate StateWell(st: State) {
    OptionsWell(st.options) && AllWell(st.All()) && |st.All()| <= MAX_INTERFACES
  }

  /** What is cut out of a text without stops and trimmed is clean. */
  lemma CutClean(c: string, from: nat, to: nat)
    requires from <= to <= |c| && Free(c, STOPS)
    ensures Clean(Trim(c[from..to]))
  {
    hide Trim;
    var cut := c[from..to];
    TrimResult(cut);
    assert Free(cut, STOPS) by { assert forall k :: 0 <= k < |cut| ==> cut[k] == c[from + k]; }
    FreeWithin(cut, Trim(cut), STOPS);
  }

  lemma ContentClean(raw: string)
    requires Free(raw, "\n") && Free(raw, "\0")
    ensures Clean(Content(WithoutReturn(raw)))
  {
    hide Trim;
    var line := WithoutReturn(raw);
    var n := Scan(line, "#;");
    assert Free(line[..n], STOPS) by {
      forall k | 0 <= k < n ensures line[..n][k] !in STOPS {
        assert line[k] == raw[k] && line[..n][k] !in "#;";
        assert raw[k] !in "\n" && raw[k] !in "\0";
        assert raw[k] != '#' && raw[k] != ';' by { assert "#;"[0] == '#' && "#;"[1] == ';'; }
        assert raw[k] != '\n' by { assert "\n"[0] == '\n'; }
        assert raw[k] != '\0' by { assert "\0"[0] == '\0'; }
      }
    }
    CutClean(line[..n], 0, n);
    assert line[..n][0..n] == line[..n];
  }

  lemma HeadingKeeps(st: State, c: string)
    requires StateWell(st) && Clean(c) && c != "" && c[0] == '[' && Heading(st, c).Good?
    ensures StateWell(Heading(st, c).value)
  {
    hide Trim, OptionsWell, ItemWell, Fresh, Free, Trimmed;
    var n := |c|;
    if n >= 4 && c[1] == '[' && c[n - 2] == ']' && c[n - 1] == ']' {
      CutClean(c, 2, n - 2);
      FreshWell(Trim(c[2..n - 2]));
    }
  }

  lemma DispatchKeeps(st: State, key: string, value: string)
    requires StateWell(st) && Clean(value) && value != "" && Dispatch(st, key, value).Good?
    ensures StateWell(Dispatch(st, key, value).value)
  {
    hide OptionsWell, ItemWell, Assign, SetOption, KeyOf, OptionOf, Clean;
    match st.section {
      case Reticulum => OptionKeeps(st.options, OptionOf(key).value, value);
      case Within(e) =>
        assert st.All()[|st.finished|] == e.item;
        AssignKeeps(e, KeyOf(key).value, value);
        var st' := Dispatch(st, key, value).value;
        forall j | 0 <= j < |st'.All()| ensures ItemWell(st'.All()[j]) {
          if j < |st.finished| {
            assert st'.All()[j] == st.All()[j];
          }
        }
      case _ =>
    }
  }

  lemma SettingKeeps(st: State, c: string)
    requires StateWell(st) && Clean(c) && Setting(st, c).Good?
    ensures StateWell(Setting(st, c).value)
  {
    hide Trim, StateWell, Dispatch, Trimmed;
    var i := Scan(c, "=");
    CutClean(c, i + 1, |c|);
    assert c[i + 1..|c|] == c[i + 1..];
    DispatchKeeps(st, Trim(c[..i]), Trim(c[i + 1..]));
  }

  lemma StepKeeps(st: State, raw: string)
    requires StateWell(st) && Free(raw, "\n") && Free(raw, "\0") && Step(st, raw).Good?
    ensures StateWell(Step(st, raw).value)
  {
    hide StateWell, Heading, Setting, Content, WithoutReturn, Clean;
    ContentClean(raw);
    var c := Content(WithoutReturn(raw));
    if c != "" {
      if c[0] == '[' {
        HeadingKeeps(st, c);
      } else {
        SettingKeeps(st, c);
      }
    }
  }

  lemma {:induction false} ParseKeeps(st: State, text: string)
    requires StateWell(st) && Free(text, "\0") && ParseLines(st, text).Good?
    ensures StateWell(ParseLines(st, text).value)
    decreases |text|
  {
    hide StateWell, Step;
    if text != "" {
      var i := Scan(text, "\n");
      assert text[..i] == text[0..i];
      FreeWithin(text, text[..i], "\0");
      StepKeeps(st, text[..i]);
      if i < |text| {
        assert text[i + 1..] == text[i + 1..|text|];
        FreeWithin(text, text[i + 1..], "\0");
        ParseKeeps(Step(st, text[..i]).value, text[i + 1..]);
      }
    }
  }

  lemma InitialWell()
    ensures StateWell(Initial())
  {
    assert Word("default");
    WordWritable("default");
  }

  lemma {:induction false} ValidateEach(items: seq<Interface>, j: nat)
    requires ValidateAll(items) == Ok && j < |items|
    ensures Validate(items[j]) == Ok
    decreases items
  {
    hide Validate;
    if j > 0 {
      ValidateEach(items[1..], j - 1);
    }
  }

  lemma TypedWhenValid(i: Interface)
    requires Validate(i) == Ok
    ensures i.kind.Some?
  {
  }

  /** What the writer needs of a configuration. */
  predicate Sound(c: Config) {
    OptionsWell(c.options) && AllAccepted(c.interfaces) && |c.interfaces| <= MAX_INTERFACES
  }

  lemma NulFree(text: string)
    requires '\0' !in text
    ensures Free(text, "\0")
  {
    forall i | 0 <= i < |text| ensures text[i] !in "\0" {
      assert text[i] in text;
      assert text[i] != '\0';
    }
  }

  /** Every configuration the reader accepts can be given to the writer. */
  lemma ParsedIsSound(text: string)
    requires Parse(text).Good?
    ensures Sound(Parse(text).value)
  {
    hide ParseLines, Validate, ItemWell, OptionsWell, ValidateAll;
    InitialWell();
    NulFree(text);
    ParseKeeps(Initial(), text);
    var items := Parse(text).value.interfaces;
    forall j | 0 <= j < |items| ensures Accepted(items[j]) {
      ValidateEach(items, j);
      TypedWhenValid(items[j]);
    }
  }
}
