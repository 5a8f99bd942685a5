/** How the reader takes each line the writer writes. */
module ConfigLines {
  import opened Common
  import opened ConfigText
  import opened Config

  /** Characters no stored text contains: comment signs, the newline, the terminator. */
  const STOPS := "#;\n\0"

  predicate Clean(s: string) {
    Trimmed(s) && Free(s, STOPS)
  }

  lemma CleanFree(s: string)
    requires Free(s, STOPS)
    ensures Free(s, "#;") && Free(s, "\n") && Free(s, "\0")
  {
    forall i | 0 <= i < |s| ensures s[i] !in "#;" && s[i] !in "\n" && s[i] !in "\0" {
      assert s[i] !in STOPS;
      assert STOPS[0] == '#' && STOPS[1] == ';' && STOPS[2] == '\n' && STOPS[3] == '\0';
    }
  }

  lemma FreeAppend(s: string, t: string, stops: string)
    requires Free(s, stops) && Free(t, stops)
    ensures Free(s + t, stops)
  {
  }

  // ---------------------------------------------------------------- folding lines

  function StepAll(st: State, lines: seq<string>): Outcome<State>
    decreases lines
  {
    if lines == [] then Good(st)
    else
      match Step(st, lines[0])
      case Bad(status) => Bad(status)
      case Good(next) => StepAll(next, lines[1..])
  }

  predicate NoNewline(lines: seq<string>) {
    forall i :: 0 <= i < |lines| ==> Free(lines[i], "\n")
  }

  /** Reading joined lines is taking them one by one. */
  lemma {:induction false} JoinedParses(st: State, lines: seq<string>)
    requires NoNewline(lines)
    ensures ParseLines(st, Joined(lines)) == StepAll(st, lines)
    decreases lines
  {
    hide Step, Free;
    if lines != [] {
      var text, rest := Joined(lines), Joined(lines[1..]);
      ScanTo(lines[0], '\n', rest, "\n");
      assert text == lines[0] + ['\n'] + rest;
      assert text[..|lines[0]|] == lines[0] && text[|lines[0]| + 1..] == rest;
      if Step(st, lines[0]).Good? {
        JoinedParses(Step(st, lines[0]).value, lines[1..]);
      }
    }
  }

  lemma {:induction false} StepAllAppend(st: State, a: seq<string>, b: seq<string>)
    ensures StepAll(st, a + b) == match StepAll(st, a) case Bad(s) => Bad(s) case Good(next) => StepAll(next, b)
    decreases a
  {
    hide Step;
    if a == [] {
      assert a + b == b;
    } else {
      assert (a + b)[1..] == a[1..] + b;
      if Step(st, a[0]).Good? {
        StepAllAppend(Step(st, a[0]).value, a[1..], b);
      }
    }
  }

  lemma StepOne(st: State, line: string)
    ensures StepAll(st, [line]) == Step(st, line)
  {
    assert [line][1..] == [];
  }

  // ---------------------------------------------------------------- one line

  predicate Indent(pad: string) {
    |pad| <= 4 && forall i :: 0 <= i < |pad| ==> pad[i] == ' '
  }

  lemma IndentIsSpace(pad: string)
    requires Indent(pad)
    ensures AllSpace(pad) && Free(pad, "#;") && Free(pad, STOPS)
  {
  }

  /** A padded, trimmed body without comment signs is taken whole. */
  lemma StepPadded(st: State, pad: string, body: string, tail: string)
    requires Indent(pad) && Indent(tail) && body != "" && Trimmed(body) && Free(body, "#;") && |body| < 500
    ensures Step(st, pad + body + tail) == if body[0] == '[' then Heading(st, body) else Setting(st, body)
  {
    hide Heading, Setting, Trim, Free, Scan;
    var raw := pad + body + tail;
    IndentIsSpace(pad);
    IndentIsSpace(tail);
    assert raw[|raw| - 1] != '\r';
    FreeAppend(pad, body, "#;");
    FreeAppend(pad + body, tail, "#;");
    ScanAll(raw, "#;");
    assert raw[..|raw|] == raw;
    TrimPadded(pad, body, tail);
  }

  lemma StepBlank(st: State)
    ensures Step(st, "") == Good(st)
  {
    assert ""[..0] == "";
  }

  predicate KeyChar(c: char) {
    'a' <= c <= 'z' || c == '_'
  }

  /** A key as every key is: letters and underscores. */
  predicate Keyword(s: string) {
    1 <= |s| <= 24 && forall i :: 0 <= i < |s| ==> KeyChar(s[i])
  }

  lemma KeywordShape(s: string)
    requires Keyword(s)
    ensures Trimmed(s) && Free(s, "#;") && Free(s, "=") && Free(s, STOPS) && s[0] != '['
  {
  }

  /** A written pair: an empty value is an error, any other goes to its key. */
  lemma StepPair(st: State, pad: string, key: string, value: string)
    requires Indent(pad) && Keyword(key) && Clean(value) && |value| < VALUE_MAX
    ensures Step(st, pad + key + " = " + value) == if value == "" then Bad(Protocol) else Dispatch(st, key, value)
  {
    hide Dispatch, Trim, Scan, Keyword, Clean, Heading, Step, Free, Trimmed;
    KeywordShape(key);
    CleanParts(value);
    BodyShape(key, value);
    KeywordNonempty(key);
    if value == "" {
      var body := key + " =";
      assert pad + key + " = " + value == pad + body + " ";
      StepPadded(st, pad, body, " ");
      ScanTo(key, '=', "", "=");
      SettingSplit(st, body, |key| + 1, key, "");
    } else {
      var body := key + " = " + value;
      assert pad + key + " = " + value == pad + body + "";
      StepPadded(st, pad, body, "");
      SettingSplit(st, body, |key| + 1, key, value);
    }
  }

  lemma KeywordNonempty(key: string)
    requires Keyword(key)
    ensures key != "" && |key| <= 24
  {
  }

  lemma CleanParts(s: string)
    requires Clean(s)
    ensures Trimmed(s) && Free(s, "#;")
  {
    CleanFree(s);
  }

  lemma BodyShape(key: string, value: string)
    requires Keyword(key) && Trimmed(value) && Free(value, "#;")
    ensures value == "" ==> Trimmed(key + " =") && Free(key + " =", "#;")
    ensures value != "" ==> Trimmed(key + " = " + value) && Free(key + " = " + value, "#;")
  {
    KeywordShape(key);
  }

  lemma SettingSplit(st: State, body: string, i: nat, key: string, value: string)
    requires Free(key, "=") && Trimmed(key) && key != "" && Trimmed(value) && i == |key| + 1
    requires body == if value == "" then key + " =" else key + " = " + value
    ensures Setting(st, body) == if value == "" then Bad(Protocol) else Dispatch(st, key, value)
  {
    hide Dispatch, Trim, Scan, Free;
    var rest := if value == "" then "" else " " + value;
    assert body == key + " " + ['='] + rest;
    SpaceFree(key);
    ScanTo(key + " ", '=', rest, "=");
    assert body[..i] == "" + key + " ";
    TrimPadded("", key, " ");
    assert body[i + 1..] == (if value == "" then "" else " ") + value + "";
    TrimPadded(if value == "" then "" else " ", value, "");
  }

  lemma SpaceFree(key: string)
    requires Free(key, "=")
    ensures Free(key + " ", "=")
  {
  }

  // ---------------------------------------------------------------- headings

  lemma StepSection(st: State, word: string)
    requires Keyword(word)
    ensures Step(st, "[" + word + "]")
         == if word == "reticulum" then Good(State(st.options, st.All(), Reticulum))
            else if word == "interfaces" then Good(State(st.options, st.All(), Interfaces))
            else Bad(Unsupported)
  {
    hide Trim, Step, Free, Keyword, State.All;
    var body := "[" + word + "]";
    KeywordShape(word);
    KeywordNonempty(word);
    SectionFree(word);
    assert "" + body + "" == body;
    StepPadded(st, "", body, "");
    assert body[1] == word[0] && body[1..|body| - 1] == "" + word + "";
    TrimPadded("", word, "");
  }

  lemma SectionFree(word: string)
    requires Free(word, "#;")
    ensures Free("[" + word + "]", "#;")
  {
  }

  lemma StepReticulum(st: State)
    ensures Step(st, "[reticulum]") == Good(State(st.options, st.All(), Reticulum))
  {
    hide Step, State.All;
    StepSection(st, "reticulum");
    assert "[" + "reticulum" + "]" == "[reticulum]";
  }

  lemma StepInterfaces(st: State)
    ensures Step(st, "[interfaces]") == Good(State(st.options, st.All(), Interfaces))
  {
    hide Step, State.All;
    StepSection(st, "interfaces");
    assert "[" + "interfaces" + "]" == "[interfaces]";
    assert |"interfaces"| != |"reticulum"|;
  }

  /** A written name, whatever brackets it contains, is read back whole. */
  lemma StepName(st: State, name: string)
    requires Clean(name) && 0 < |name| < NAME_MAX && |st.All()| < MAX_INTERFACES
    requires st.section.Interfaces? || st.section.Within?
    ensures Step(st, NameLine(name))
         == Good(State(st.options, st.All(), Section.Within(Entry(Fresh(name), false, false))))
  {
    hide Trim, Step, Free, Fresh;
    var body := "[[" + name + "]]";
    CleanParts(name);
    BracketsFree(name);
    assert NameLine(name) == "  " + body + "";
    StepPadded(st, "  ", body, "");
    assert body[2..|body| - 2] == "" + name + "";
    TrimPadded("", name, "");
  }

  lemma BracketsFree(name: string)
    requires Free(name, "#;")
    ensures Free("[[" + name + "]]", "#;")
  {
  }
}
