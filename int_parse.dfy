/** Python's `int(text)` (base 10) as used by `JigglerApp.set_timeout` on the
    text of the timeout entry: surrounding whitespace is ignored, an optional
    sign is followed by decimal digits, single underscores may separate digits,
    and any other text raises ValueError, which is modelled as `None`. */
module IntParse {

  datatype Option<T> = None | Some(value: T)

  /** CPython's default limit on the number of digits `int()` converts from a
      string (from 3.11, and from the 3.7.14, 3.8.14, 3.9.14 and 3.10.7
      security releases on); longer inputs raise ValueError. */
  const MaxStrDigits: nat := 4300

  /** The whitespace CPython skips around the digits of `int()`. */
  predicate IsSpace(c: char) {
    c == ' ' || c == '\t' || c == '\n' || c == '\r' || c == '\U{B}' || c == '\U{C}'
  }

  predicate IsDigit(c: char) { '0' <= c <= '9' }

  predicate AllSpace(s: string) { forall i :: 0 <= i < |s| ==> IsSpace(s[i]) }

  function DigitValue(c: char): (d: nat)
    requires IsDigit(c)
    ensures d < 10
  {
    c as int - '0' as int
  }

  function DigitChar(d: nat): (c: char)
    requires d < 10
    ensures IsDigit(c) && DigitValue(c) == d
  {
    ('0' as int + d) as char
  }

  // ---------------------------------------------------------------------------
  // Stripping surrounding whitespace

  /** How many whitespace characters `s` starts with. */
  function LeadingSpaces(s: string): (k: nat)
    ensures k <= |s| && AllSpace(s[..k])
    ensures k == |s| || !IsSpace(s[k])
  {
    if s != [] && IsSpace(s[0]) then
      var k := LeadingSpaces(s[1..]);
      assert s[..k + 1] == [s[0]] + s[1..][..k];
      k + 1
    else 0
  }

  /** `s` with its trailing whitespace removed. */
  function StripTrailing(s: string): (r: string)
    ensures |r| <= |s| && r == s[..|r|]
    ensures AllSpace(s[|r|..])
    ensures r == [] || !IsSpace(r[|r| - 1])
  {
    if s != [] && IsSpace(s[|s| - 1]) then
      var r := StripTrailing(s[..|s| - 1]);
      assert s[|r|..] == s[..|s| - 1][|r|..] + [s[|s| - 1]];
      r
    else s
  }

  /** `str.strip()` over the whitespace `int()` skips: the result is the slice
      of the input that starts at its first non-whitespace character, ends at
      its last one, and everything cut off is whitespace. */
  function Strip(s: string): (r: string)
    ensures LeadingSpaces(s) + |r| <= |s|
    ensures r == s[LeadingSpaces(s)..LeadingSpaces(s) + |r|]
    ensures AllSpace(s[LeadingSpaces(s) + |r|..])
    ensures r == [] || (!IsSpace(r[0]) && !IsSpace(r[|r| - 1]))
  {
    var lo := LeadingSpaces(s);
    var r := StripTrailing(s[lo..]);
    assert s[lo + |r|..] == s[lo..][|r|..];
    r
  }

  // ---------------------------------------------------------------------------
  // The digit part

  predicate DigitsOrUnderscores(s: string) {
    forall i :: 0 <= i < |s| ==> IsDigit(s[i]) || s[i] == '_'
  }

  /** Decimal digits, where an underscore may only stand between two digits. */
  predicate WellFormedDigits(s: string) {
    DigitsOrUnderscores(s) && |s| > 0 && IsDigit(s[0]) &&
    forall i :: 0 <= i < |s| && s[i] == '_' ==> i + 1 < |s| && IsDigit(s[i + 1])
  }

  /** The number the digits of `s` spell, underscores skipped. */
  function Value(s: string): nat
    requires DigitsOrUnderscores(s)
  {
    if s == [] then 0
    else if s[|s| - 1] == '_' then Value(s[..|s| - 1])
    else Value(s[..|s| - 1]) * 10 + DigitValue(s[|s| - 1])
  }

  /** How many digits (not underscores) `s` holds; this is what the digit limit counts. */
  function CountDigits(s: string): nat {
    if s == [] then 0
    else CountDigits(s[..|s| - 1]) + if IsDigit(s[|s| - 1]) then 1 else 0
  }

  /** `int(text)`: `Some(n)` when Python returns `n`, `None` when it raises ValueError. */
  function ParseInt(text: string): (r: Option<int>)
    ensures r.Some? ==> Strip(text) != [] && IsDigit(Strip(text)[|Strip(text)| - 1])
  {
    ParseSigned(Strip(text))
  }

  /** `int()` of text that has already been stripped. */
  function ParseSigned(t: string): (r: Option<int>)
    ensures r.Some? ==> t != [] && IsDigit(t[|t| - 1])
  {
    var negative := |t| > 0 && t[0] == '-';
    var body := if |t| > 0 && (t[0] == '+' || t[0] == '-') then t[1..] else t;
    if WellFormedDigits(body) && CountDigits(body) <= MaxStrDigits then
      var magnitude: int := Value(body);
      Some(if negative then -magnitude else magnitude)
    else None
  }

  // ---------------------------------------------------------------------------
  // Formatting, the inverse used to state what ParseInt accepts

  /** Decimal digits of `m`, most significant first, no leading zeros. */
  function Digits(m: nat): (s: string)
    ensures |s| > 0
    ensures forall i :: 0 <= i < |s| ==> IsDigit(s[i])
  {
    if m < 10 then [DigitChar(m)] else Digits(m / 10) + [DigitChar(m % 10)]
  }

  /** `str(n)`. */
  function FormatInt(n: int): string {
    if n < 0 then "-" + Digits(-n) else Digits(n)
  }

  lemma {:induction false} DigitsValue(m: nat)
    ensures DigitsOrUnderscores(Digits(m)) && Value(Digits(m)) == m
    ensures CountDigits(Digits(m)) == |Digits(m)|
  {
    var s := Digits(m);
    if m >= 10 {
      DigitsValue(m / 10);
      assert s[..|s| - 1] == Digits(m / 10);
    }
  }

  lemma {:induction false} LeadingSpacesAfterPadding(pre: string, x: string)
    requires AllSpace(pre)
    ensures LeadingSpaces(pre + x) == |pre| + LeadingSpaces(x)
  {
    if pre != [] {
      assert (pre + x)[1..] == pre[1..] + x;
      LeadingSpacesAfterPadding(pre[1..], x);
    } else {
      assert pre + x == x;
    }
  }

  lemma {:induction false} StripTrailingPadding(x: string, post: string)
    requires AllSpace(post)
    ensures StripTrailing(x + post) == StripTrailing(x)
  {
    if post != [] {
      var p := post[..|post| - 1];
      assert (x + post)[..|x + post| - 1] == x + p;
      StripTrailingPadding(x, p);
    } else {
      assert x + post == x;
    }
  }

  /** Text with whitespace on either side strips to the text itself, provided
      its own ends are not whitespace. */
  lemma StripPadded(pre: string, t: string, post: string)
    requires AllSpace(pre) && AllSpace(post)
    requires t != [] && !IsSpace(t[0]) && !IsSpace(t[|t| - 1])
    ensures Strip(pre + t + post) == t
  {
    var s := pre + t + post;
    assert s == pre + (t + post);
    LeadingSpacesAfterPadding(pre, t + post);
    assert LeadingSpaces(t + post) == 0;
    assert s[|pre|..] == t + post;
    StripTrailingPadding(t, post);
  }

  /** `int(str(n)) == n`, also with whitespace around the text, for every `n`
      whose digits fit under the digit limit. */
  lemma FormatParseRoundTrip(pre: string, n: int, post: string)
    requires AllSpace(pre) && AllSpace(post)
    requires |Digits(if n < 0 then -n else n)| <= MaxStrDigits
    ensures ParseInt(pre + FormatInt(n) + post) == Some(n)
  {
    var m: nat := if n < 0 then -n else n;
    var t := FormatInt(n);
    FormatShape(n);
    DigitsValue(m);
    StripPadded(pre, t, post);
    AcceptsBody(t, Digits(m));
  }

  /** A number with more digits than the limit is rejected, even though it is
      well formed. */
  lemma RejectsTooManyDigits(n: int)
    requires |Digits(if n < 0 then -n else n)| > MaxStrDigits
    ensures ParseInt(FormatInt(n)) == None
  {
    var t := FormatInt(n);
    FormatShape(n);
    assert t == "" + t + "";
    StripPadded("", t, "");
    RejectsLongBody(t, Digits(if n < 0 then -n else n));
  }

  /** The sign and digits `str(n)` is made of. */
  lemma FormatShape(n: int)
    ensures var t := FormatInt(n);
      |t| > 0 && !IsSpace(t[0]) && !IsSpace(t[|t| - 1]) &&
      (if n < 0 then t[0] == '-' && t[1..] == Digits(-n) else t == Digits(n)) &&
      CountDigits(Digits(if n < 0 then -n else n)) == |Digits(if n < 0 then -n else n)|
  {
    var t := FormatInt(n);
    DigitsValue(if n < 0 then -n else n);
    assert IsDigit(t[|t| - 1]);
    if n < 0 {
      assert t[1..] == Digits(-n);
    }
  }

  lemma AcceptsBody(t: string, body: string)
    requires body == (if |t| > 0 && (t[0] == '+' || t[0] == '-') then t[1..] else t)
    requires WellFormedDigits(body) && CountDigits(body) <= MaxStrDigits
    ensures ParseSigned(t) == Some(if t[0] == '-' then 0 - Value(body) else Value(body) as int)
  {
  }

  lemma RejectsLongBody(t: string, body: string)
    requires body == (if |t| > 0 && (t[0] == '+' || t[0] == '-') then t[1..] else t)
    requires CountDigits(body) > MaxStrDigits
    ensures ParseSigned(t) == None
  {
  }

  /** A character that is neither whitespace, a digit, an underscore nor a sign
      makes `int()` raise ValueError wherever it stands ("1.5", "15s", "abc"). */
  lemma RejectsForeignCharacter(text: string, i: nat)
    requires i < |text|
    requires !IsSpace(text[i]) && !IsDigit(text[i]) && text[i] != '_'
    requires text[i] != '+' && text[i] != '-'
    ensures ParseInt(text) == None
  {
    var t := Strip(text);
    var lo := LeadingSpaces(text);
    assert t[i - lo] == text[i];
    var body := if |t| > 0 && (t[0] == '+' || t[0] == '-') then t[1..] else t;
    var j := if body == t then i - lo else i - lo - 1;
    assert body[j] == text[i];
  }

  /** Input that is empty or whitespace only raises ValueError. */
  lemma RejectsBlank(text: string)
    requires AllSpace(text)
    ensures ParseInt(text) == None
  {
    assert Strip(text) == [];
  }

  /** A timeout typed as "30" sets 30 seconds. */
  lemma ParsesPlainNumber()
    ensures ParseInt("30") == Some(30)
  {
    assert Digits(30) == Digits(3) + [DigitChar(0)] == "30";
    FormatParseRoundTrip("", 30, "");
    assert "" + FormatInt(30) + "" == "30";
  }

  /** A signed number with whitespace around it is accepted: " -5\n" gives -5. */
  lemma ParsesPaddedNegative()
    ensures ParseInt(" -5\n") == Some(-5)
  {
    assert Digits(5) == "5";
    assert AllSpace(" ") && AllSpace("\n");
    FormatParseRoundTrip(" ", -5, "\n");
    assert " " + FormatInt(-5) + "\n" == " -5\n";
  }

  /** Underscores may group digits: "1_000" gives 1000. */
  lemma ParsesGroupedDigits()
    ensures ParseInt("1_000") == Some(1000)
  {
    var t := "1_000";
    assert LeadingSpaces(t) == 0;
    assert StripTrailing(t) == t;
    assert t[..4] == "1_00" && "1_00"[..3] == "1_0" && "1_0"[..2] == "1_" && "1_"[..1] == "1";
    assert Value("1") == 1;
    assert Value("1_") == 1;
    assert Value("1_0") == 10;
    assert Value("1_00") == 100;
    assert CountDigits(t) == 4;
    assert WellFormedDigits(t);
  }

  /** Two underscores in a row are rejected: "1__000" raises ValueError. */
  lemma RejectsDoubleUnderscore()
    ensures ParseInt("1__000") == None
  {
    var t := "1__000";
    assert LeadingSpaces(t) == 0;
    assert StripTrailing(t) == t;
    assert !WellFormedDigits(t) by {
      assert t[1] == '_' && t[2] == '_';
    }
  }
}
