/** Text pieces of the configuration file: trimming, searching, numbers, percentages. */
module ConfigText {
  import opened Common

  // ---------------------------------------------------------------- white space

  predicate Space(c: char) {
    c == ' ' || '\t' <= c <= '\r'
  }

  predicate AllSpace(s: string) {
    forall i :: 0 <= i < |s| ==> Space(s[i])
  }

  function TrimLeft(s: string): (t: string)
    ensures t == "" || !Space(t[0])
  {
    if s != "" && Space(s[0]) then TrimLeft(s[1..]) else s
  }

  function TrimRight(s: string): (t: string)
    ensures t == "" || !Space(t[|t| - 1])
  {
    if s != "" && Space(s[|s| - 1]) then TrimRight(s[..|s| - 1]) else s
  }

  function Trim(s: string): string {
    TrimRight(TrimLeft(s))
  }

  /** Neither begins nor ends with white space. */
  predicate Trimmed(s: string) {
    s == "" || (!Space(s[0]) && !Space(s[|s| - 1]))
  }

  lemma {:induction false} TrimLeftPadding(pad: string, s: string)
    requires AllSpace(pad)
    ensures TrimLeft(pad + s) == TrimLeft(s)
  {
    if pad == "" {
      assert pad + s == s;
    } else {
      TrimLeftPadding(pad[1..], s);
      assert (pad + s)[1..] == pad[1..] + s;
    }
  }

  lemma {:induction false} TrimRightPadding(s: string, pad: string)
    requires AllSpace(pad)
    ensures TrimRight(s + pad) == TrimRight(s)
  {
    if pad == "" {
      assert s + pad == s;
    } else {
      TrimRightPadding(s, pad[..|pad| - 1]);
      assert (s + pad)[..|s + pad| - 1] == s + pad[..|pad| - 1];
    }
  }

  /** Trimming takes away exactly the white space around a trimmed text. */
  lemma TrimPadded(left: string, s: string, right: string)
    requires AllSpace(left) && AllSpace(right) && Trimmed(s)
    ensures Trim(left + s + right) == s
  {
    assert left + s + right == left + (s + right);
    TrimLeftPadding(left, s + right);
    if s == "" {
      assert s + right == right + "";
      TrimLeftPadding(right, "");
    } else {
      assert (s + right)[0] == s[0];
      TrimRightPadding(s, right);
    }
  }

  /** A part of a text: some characters from its front and back left out. */
  ghost predicate Within(t: string, s: string) {
    exists i, j :: 0 <= i <= j <= |s| && t == s[i..j]
  }

  lemma {:induction false} TrimLeftWithin(s: string)
    ensures exists i :: 0 <= i <= |s| && TrimLeft(s) == s[i..]
  {
    if s != "" && Space(s[0]) {
      TrimLeftWithin(s[1..]);
      var i :| 0 <= i <= |s[1..]| && TrimLeft(s[1..]) == s[1..][i..];
      assert s[1..][i..] == s[i + 1..];
    } else {
      assert s[0..] == s;
    }
  }

  lemma {:induction false} TrimRightWithin(s: string)
    ensures exists j :: 0 <= j <= |s| && TrimRight(s) == s[..j]
  {
    if s != "" && Space(s[|s| - 1]) {
      TrimRightWithin(s[..|s| - 1]);
      var j :| 0 <= j <= |s| - 1 && TrimRight(s[..|s| - 1]) == s[..|s| - 1][..j];
      assert s[..|s| - 1][..j] == s[..j];
    } else {
      assert s[..|s|] == s;
    }
  }

  lemma TrimResult(s: string)
    ensures Trimmed(Trim(s)) && Within(Trim(s), s)
  {
    hide TrimLeft, TrimRight;
    var left := TrimLeft(s);
    TrimLeftWithin(s);
    TrimRightWithin(left);
    var i :| 0 <= i <= |s| && left == s[i..];
    var j :| 0 <= j <= |left| && TrimRight(left) == left[..j];
    assert s[i..][..j] == s[i..i + j];
    assert j > 0 ==> left[..j][0] == left[0];
  }

  /** Two marks walk inwards over the white space. */
  method TrimSpan(s: string) returns (t: string)
    ensures t == Trim(s)
  {
    var from := 0;
    assert s[0..] == s;
    while from < |s| && Space(s[from])
      invariant from <= |s| && TrimLeft(s) == TrimLeft(s[from..])
    {
      assert s[from..][1..] == s[from + 1..];
      from := from + 1;
    }
    var rest := s[from..];
    assert TrimLeft(s) == rest;
    var end := |rest|;
    assert rest[..end] == rest;
    while end > 0 && Space(rest[end - 1])
      invariant end <= |rest| && TrimRight(rest) == TrimRight(rest[..end])
    {
      assert rest[..end][..end - 1] == rest[..end - 1];
      end := end - 1;
    }
    return rest[..end];
  }

  // ---------------------------------------------------------------- searching

  /** No character of the text is one of the stops. */
  predicate Free(s: string, stops: string) {
    forall i :: 0 <= i < |s| ==> s[i] !in stops
  }

  /** The first stop, or the end. */
  function Scan(s: string, stops: string): (i: nat)
    ensures i <= |s| && (i < |s| ==> s[i] in stops) && Free(s[..i], stops)
  {
    if s == "" || s[0] in stops then 0
    else
      var i := 1 + Scan(s[1..], stops);
      assert forall k :: 1 <= k < i ==> s[k] == s[1..][..i - 1][k - 1];
      i
  }

  lemma {:induction false} ScanFree(s: string, rest: string, stops: string)
    requires Free(s, stops)
    ensures Scan(s + rest, stops) == |s| + Scan(rest, stops)
  {
    if s == "" {
      assert s + rest == rest;
    } else {
      assert forall i :: 0 <= i < |s[1..]| ==> s[1..][i] == s[i + 1];
      ScanFree(s[1..], rest, stops);
      assert (s + rest)[1..] == s[1..] + rest;
    }
  }

  lemma ScanTo(s: string, c: char, rest: string, stops: string)
    requires Free(s, stops) && c in stops
    ensures Scan(s + [c] + rest, stops) == |s|
  {
    ScanFree(s, [c] + rest, stops);
    assert s + [c] + rest == s + ([c] + rest);
  }

  lemma ScanAll(s: string, stops: string)
    requires Free(s, stops)
    ensures Scan(s, stops) == |s|
  {
    ScanFree(s, "", stops);
    assert s + "" == s;
  }

  lemma FreeWithin(s: string, t: string, stops: string)
    requires Free(s, stops) && Within(t, s)
    ensures Free(t, stops)
  {
    var i, j :| 0 <= i <= j <= |s| && t == s[i..j];
    assert forall k :: 0 <= k < |t| ==> t[k] == s[i + k];
  }

  // ---------------------------------------------------------------- letter case

  function LowerChar(c: char): char {
    if 'A' <= c <= 'Z' then (c as int + 32) as char else c
  }

  function Lower(s: string): (t: string)
    ensures |t| == |s|
  {
    seq(|s|, i requires 0 <= i < |s| => LowerChar(s[i]))
  }

  predicate Same(s: string, t: string) {
    Lower(s) == Lower(t)
  }

  /** Compares character by character, as far as both go. */
  method EqualIgnoreCase(s: string, t: string) returns (same: bool)
    ensures same == Same(s, t)
  {
    var i := 0;
    while i < |s| && i < |t|
      invariant i <= |s| && i <= |t|
      invariant forall k :: 0 <= k < i ==> LowerChar(s[k]) == LowerChar(t[k])
    {
      if LowerChar(s[i]) != LowerChar(t[i]) {
        assert Lower(s)[i] != Lower(t)[i];
        return false;
      }
      i := i + 1;
    }
    if i == |s| && i == |t| {
      assert forall k :: 0 <= k < |s| ==> Lower(s)[k] == Lower(t)[k];
      return true;
    }
    return false;
  }

  // ---------------------------------------------------------------- decimal numbers

  const DIGITS := "0123456789"

  function DecDigit(c: char): Option<nat> {
    if '0' <= c <= '9' then Some((c - '0') as nat) else None
  }

  predicate AllDigits(s: string) {
    forall i :: 0 <= i < |s| ==> DecDigit(s[i]).Some?
  }

  function Value(s: string): nat
    requires AllDigits(s)
  {
    if s == "" then 0 else 10 * Value(s[..|s| - 1]) + DecDigit(s[|s| - 1]).value
  }

  function Dec(n: nat): (s: string)
    ensures s != ""
  {
    if n < 10 then [DIGITS[n]] else Dec(n / 10) + [DIGITS[n % 10]]
  }

  lemma DigitRead(d: nat)
    requires d < 10
    ensures DecDigit(DIGITS[d]) == Some(d)
  {
  }

  lemma {:induction false} DecReads(n: nat)
    ensures AllDigits(Dec(n)) && Value(Dec(n)) == n
  {
    if n < 10 {
      DigitRead(n);
      assert Dec(n)[..0] == "";
    } else {
      DecReads(n / 10);
      DigitRead(n % 10);
      assert Dec(n)[..|Dec(n)| - 1] == Dec(n / 10);
    }
  }

  function Pow10(k: nat): nat {
    if k == 0 then 1 else 10 * Pow10(k - 1)
  }

  lemma {:induction false} DecLength(n: nat, k: nat)
    requires k >= 1 && n < Pow10(k)
    ensures |Dec(n)| <= k
    decreases k
  {
    if n >= 10 {
      DecLength(n / 10, k - 1);
    }
  }

  /** Digits, with a plus sign allowed in front. */
  function Unsigned(s: string, limit: nat): Option<nat> {
    var digits := if s != "" && s[0] == '+' then s[1..] else s;
    if digits != "" && AllDigits(digits) && Value(digits) <= limit then Some(Value(digits)) else None
  }

  /** Digits, with either sign allowed in front. */
  function Signed(s: string, low: int, high: int): Option<int> {
    var minus := s != "" && s[0] == '-';
    var digits := if s != "" && (s[0] == '+' || s[0] == '-') then s[1..] else s;
    if digits == "" || !AllDigits(digits) then None
    else
      var v: int := Value(digits);
      var n := if minus then -v else v;
      if low <= n <= high then Some(n) else None
  }

  function Int(n: int): (s: string)
    ensures s != ""
  {
    if n < 0 then "-" + Dec(-n) else Dec(n)
  }

  lemma DecUnsigned(n: nat, limit: nat)
    ensures Unsigned(Dec(n), limit) == if n <= limit then Some(n) else None
  {
    hide Dec, Value;
    DecReads(n);
    assert DecDigit(Dec(n)[0]).Some?;
  }

  lemma IntSigned(n: int, low: int, high: int)
    ensures Signed(Int(n), low, high) == if low <= n <= high then Some(n) else None
  {
    hide Dec, Value;
    var s := Dec(if n < 0 then -n else n);
    DecReads(if n < 0 then -n else n);
    assert DecDigit(s[0]).Some?;
    if n < 0 {
      assert Int(n)[0] == '-' && Int(n)[1..] == s;
    }
  }

  // ---------------------------------------------------------------- percentages

  /** How many characters at the front are digits. */
  function Digits(s: string): (n: nat)
    ensures n <= |s| && AllDigits(s[..n]) && (n < |s| ==> DecDigit(s[n]).None?)
  {
    if s == "" || DecDigit(s[0]).None? then 0
    else
      var n := 1 + Digits(s[1..]);
      assert forall k :: 1 <= k < n ==> s[k] == s[1..][..n - 1][k - 1];
      n
  }

  /** Hundredths from the digits after the point: the first two count. */
  function Fraction(f: string): nat
    requires AllDigits(f)
  {
    if |f| == 0 then 0 else if |f| == 1 then 10 * Value(f) else Value(f[..2])
  }

  /** Digits, then perhaps a point and digits; at most one hundred. */
  function Percent(s: string): Option<nat> {
    var n := Digits(s);
    var point := n < |s| && s[n] == '.';
    var f := if point then Digits(s[n + 1..]) else 0;
    var end := if point then n + 1 + f else n;
    if s == "" || end < |s| || (f == 0 && s[0] == '.') then None
    else
      var hundredths := 100 * Value(s[..n]) + (if point then Fraction(s[n + 1..][..f]) else 0);
      if hundredths > 10000 then None else Some(hundredths)
  }

  function TwoDigits(n: nat): string
    requires n < 100
  {
    [DIGITS[n / 10], DIGITS[n % 10]]
  }

  function PercentText(h: nat): string {
    Dec(h / 100) + "." + TwoDigits(h % 100)
  }

  lemma {:induction false} DigitsAre(d: string, rest: string)
    requires AllDigits(d) && (rest == "" || DecDigit(rest[0]).None?)
    ensures Digits(d + rest) == |d|
  {
    if d == "" {
      assert d + rest == rest;
    } else {
      assert forall i :: 0 <= i < |d[1..]| ==> d[1..][i] == d[i + 1];
      DigitsAre(d[1..], rest);
      assert (d + rest)[1..] == d[1..] + rest;
    }
  }

  lemma TwoDigitsRead(n: nat)
    requires n < 100
    ensures AllDigits(TwoDigits(n)) && Value(TwoDigits(n)) == n
  {
    DigitRead(n / 10);
    DigitRead(n % 10);
    var s := TwoDigits(n);
    assert s[..1] == [s[0]] && s[..1][..0] == "";
    assert Value(s[..1]) == n / 10;
  }

  /** Every hundredth up to one hundred per cent prints and reads back. */
  lemma PercentReads(h: nat)
    requires h <= 10000
    ensures Percent(PercentText(h)) == Some(h)
  {
    hide Dec, Value, Digits;
    var w, f := Dec(h / 100), TwoDigits(h % 100);
    var s := PercentText(h);
    DecReads(h / 100);
    TwoDigitsRead(h % 100);
    assert s == w + ("." + f);
    DigitsAre(w, "." + f);
    assert s[..|w|] == w && s[|w| + 1..] == f + "";
    DigitsAre(f, "");
    assert f + "" == f && f[..2] == f;
    assert s[0] == w[0] && DecDigit(w[0]).Some?;
  }

  lemma ValueSnoc(s: string, c: char)
    requires AllDigits(s) && DecDigit(c).Some?
    ensures AllDigits(s + [c]) && Value(s + [c]) == 10 * Value(s) + DecDigit(c).value
  {
    assert (s + [c])[..|s|] == s;
  }

  lemma {:induction false} ValueGrows(s: string, i: nat)
    requires AllDigits(s) && i <= |s|
    ensures Value(s[..i]) <= Value(s)
    decreases |s|
  {
    if i < |s| {
      ValueGrows(s[..|s| - 1], i);
      assert s[..|s| - 1][..i] == s[..i];
    } else {
      assert s[..i] == s;
    }
  }

  lemma DigitsExtend(s: string, i: nat)
    requires i <= |s| && AllDigits(s[..i])
    ensures Digits(s) == i + Digits(s[i..])
    decreases i
  {
    if i == 0 {
      assert s[0..] == s;
    } else {
      assert s[..i][0] == s[0] && s[1..][i - 1..] == s[i..];
      assert s[1..][..i - 1] == s[..i][1..];
      DigitsExtend(s[1..], i - 1);
    }
  }

  /** Reads the whole part digit by digit and gives up once it is past one hundred. */
  method ReadWhole(s: string) returns (whole: nat, n: nat, ok: bool)
    ensures ok ==> n == Digits(s) && whole == Value(s[..n])
    ensures !ok ==> Value(s[..Digits(s)]) > 100
  {
    hide Value, Digits;
    whole, n := 0, 0;
    ValueEmpty(s);
    while n < |s| && DecDigit(s[n]).Some?
      invariant n <= |s| && AllDigits(s[..n]) && whole == Value(s[..n])
    {
      assert s[..n + 1] == s[..n] + [s[n]];
      ValueSnoc(s[..n], s[n]);
      if whole > 100 {
        DigitsExtend(s, n);
        ValueGrows(s[..Digits(s)], n);
        assert s[..Digits(s)][..n] == s[..n];
        return whole, n, false;
      }
      whole := 10 * whole + DecDigit(s[n]).value;
      n := n + 1;
    }
    DigitsExtend(s, n);
    DigitsNone(s[n..]);
    return whole, n, true;
  }

  lemma ValueEmpty(s: string)
    ensures s[..0] == "" && Value("") == 0
  {
  }

  lemma DigitsNone(s: string)
    ensures s == "" || DecDigit(s[0]).None? ==> Digits(s) == 0
  {
  }

  /** Reads the digits after the point; only the first two are worth anything. */
  method ReadFraction(s: string) returns (fraction: nat, n: nat)
    ensures n == Digits(s)
    ensures fraction == if n == 0 then 0 else if n == 1 then Value(s[..1]) else Value(s[..2])
  {
    hide Value, Digits;
    fraction, n := 0, 0;
    ValueEmpty(s);
    while n < |s| && DecDigit(s[n]).Some?
      invariant n <= |s| && AllDigits(s[..n])
      invariant fraction == if n < 2 then Value(s[..n]) else Value(s[..2])
    {
      assert s[..n + 1] == s[..n] + [s[n]];
      ValueSnoc(s[..n], s[n]);
      if n < 2 {
        fraction := 10 * fraction + DecDigit(s[n]).value;
      }
      n := n + 1;
    }
    DigitsExtend(s, n);
    DigitsNone(s[n..]);
  }

  method ReadPercent(s: string) returns (h: Option<nat>)
    ensures h == Percent(s)
  {
    hide Value, Digits;
    if s == "" {
      return None;
    }
    var whole, n, ok := ReadWhole(s);
    if !ok {
      return None;
    }
    var fraction, f, end := 0, 0, n;
    if n < |s| && s[n] == '.' {
      fraction, f := ReadFraction(s[n + 1..]);
      end := n + 1 + f;
      var digits := s[n + 1..][..f];
      assert f >= 1 ==> digits[..1] == s[n + 1..][..1];
      assert f == 1 ==> digits == s[n + 1..][..1];
      assert f >= 2 ==> digits[..2] == s[n + 1..][..2];
    }
    if end < |s| || (f == 0 && s[0] == '.') {
      return None;
    }
    if f == 1 {
      fraction := 10 * fraction;
    }
    var hundredths := 100 * whole + fraction;
    return if hundredths > 10000 then None else Some(hundredths);
  }
}
