/**
 * Character classes and string helpers the plugin relies on, written out explicitly:
 * Ruby `String#strip`, ActiveSupport `blank?`/`present?`, Ruby `String#to_i`,
 * JavaScript `String.prototype.trim` and `split(/\s+/)`, and decimal formatting of integers.
 */
module Text {
  import opened Wrappers

  /** Characters removed by Ruby's `String#strip`: NUL, tab, line feed, vertical tab, form feed, carriage return, space. */
  predicate IsStripSpace(c: char) {
    c == '\0' || c == '\t' || c == '\n' || c == '\U{B}' || c == '\U{C}' || c == '\r' || c == ' '
  }

  /** Characters skipped before the digits by Ruby's `String#to_i` (C `isspace`). */
  predicate IsCSpace(c: char) {
    c == '\t' || c == '\n' || c == '\U{B}' || c == '\U{C}' || c == '\r' || c == ' '
  }

  /** Unicode White_Space, the `[[:space:]]` class ActiveSupport's `String#blank?` matches. */
  predicate IsUnicodeSpace(c: char) {
    ('\t' <= c <= '\r') || c == ' ' || c == '\U{85}' || c == '\U{A0}' || c == '\U{1680}'
    || ('\U{2000}' <= c <= '\U{200A}') || c == '\U{2028}' || c == '\U{2029}'
    || c == '\U{202F}' || c == '\U{205F}' || c == '\U{3000}'
  }

  /** WhiteSpace and LineTerminator of ECMAScript: what `trim()` removes and `\s` matches. */
  predicate IsJsSpace(c: char) {
    c == '\t' || c == '\n' || c == '\U{B}' || c == '\U{C}' || c == '\r' || c == ' '
    || c == '\U{A0}' || c == '\U{1680}' || ('\U{2000}' <= c <= '\U{200A}')
    || c == '\U{2028}' || c == '\U{2029}' || c == '\U{202F}' || c == '\U{205F}'
    || c == '\U{3000}' || c == '\U{FEFF}'
  }

  /** ActiveSupport `String#blank?`: empty or only Unicode white space. */
  predicate IsBlank(s: string) {
    forall i :: 0 <= i < |s| ==> IsUnicodeSpace(s[i])
  }

  /** `nil.blank?` is true; a string is blank as above. */
  predicate IsBlankOpt(s: Option<string>) {
    s.None? || IsBlank(s.value)
  }

  predicate EndsWith(s: string, c: char) {
    |s| > 0 && s[|s| - 1] == c
  }

  /** Removes the leading characters that satisfy `sp`. */
  function DropLeading(s: string, sp: char -> bool): (r: string)
    ensures |r| <= |s|
  {
    if s != [] && sp(s[0]) then DropLeading(s[1..], sp) else s
  }

  /** Removes the trailing characters that satisfy `sp`. */
  function DropTrailing(s: string, sp: char -> bool): (r: string)
    ensures |r| <= |s|
  {
    if s != [] && sp(s[|s| - 1]) then DropTrailing(s[..|s| - 1], sp) else s
  }

  /** What `DropLeading` removes is a run of `sp` characters, and what it keeps does not start with one. */
  lemma {:induction false} DropLeadingSpec(s: string, sp: char -> bool)
    ensures var r := DropLeading(s, sp); r == s[|s| - |r|..]
    ensures var r := DropLeading(s, sp); r == [] || !sp(r[0])
    ensures var r := DropLeading(s, sp); forall i :: 0 <= i < |s| - |r| ==> sp(s[i])
    decreases |s|
  {
    if s != [] && sp(s[0]) {
      DropLeadingSpec(s[1..], sp);
    }
  }

  /** What `DropTrailing` removes is a run of `sp` characters, and what it keeps does not end with one. */
  lemma {:induction false} DropTrailingSpec(s: string, sp: char -> bool)
    ensures var r := DropTrailing(s, sp); r == s[..|r|]
    ensures var r := DropTrailing(s, sp); r == [] || !sp(r[|r| - 1])
    ensures var r := DropTrailing(s, sp); forall i :: |r| <= i < |s| ==> sp(s[i])
    decreases |s|
  {
    if s != [] && sp(s[|s| - 1]) {
      DropTrailingSpec(s[..|s| - 1], sp);
    }
  }

  function TrimWith(s: string, sp: char -> bool): string {
    DropTrailing(DropLeading(s, sp), sp)
  }

  /** Ruby `String#strip`. */
  function Strip(s: string): string {
    TrimWith(s, IsStripSpace)
  }

  /** JavaScript `String.prototype.trim`. */
  function JsTrim(s: string): string {
    TrimWith(s, IsJsSpace)
  }

  /** A stripped string neither starts nor ends with a stripped character. */
  lemma StripEnds(s: string)
    ensures Strip(s) == [] || !IsStripSpace(Strip(s)[0])
    ensures Strip(s) == [] || !IsStripSpace(Strip(s)[|Strip(s)| - 1])
  {
    var d := DropLeading(s, IsStripSpace);
    DropLeadingSpec(s, IsStripSpace);
    DropTrailingSpec(d, IsStripSpace);
  }

  /** `strip` is idempotent. */
  lemma StripIdempotent(s: string)
    ensures Strip(Strip(s)) == Strip(s)
  {
    StripEnds(s);
    DropLeadingNoop(Strip(s), IsStripSpace);
    DropTrailingNoop(Strip(s), IsStripSpace);
  }

  /** A text that does not start with a stripped character keeps its colon when stripped. */
  lemma StripWithColon(t: string)
    requires t == [] || !IsStripSpace(t[0])
    ensures Strip(t + ":") == t + ":"
  {
    DropLeadingNoop(t + ":", IsStripSpace);
    DropTrailingNoop(t + ":", IsStripSpace);
  }

  /** Characters in the stripped set are all Unicode white space except NUL. */
  lemma StripSpaceIsBlankSpace(c: char)
    requires IsStripSpace(c) && c != '\0'
    ensures IsUnicodeSpace(c)
  {
  }

  // ---------------------------------------------------------------------------
  // Integers: Ruby `String#to_i` and decimal formatting.

  predicate IsDigit(c: char) {
    '0' <= c <= '9'
  }

  function DigitValue(c: char): nat
    requires IsDigit(c)
  {
    (c as int) - ('0' as int)
  }

  function DigitChar(d: nat): (c: char)
    requires d < 10
    ensures IsDigit(c) && DigitValue(c) == d
  {
    (('0' as int) + d) as char
  }

  /**
   * The leading run of digits `to_i` reads: it stops at the first character that is
   * neither a digit nor a single underscore standing between two digits; underscores are dropped.
   */
  function DigitRun(s: string): (r: string)
    ensures forall i :: 0 <= i < |r| ==> IsDigit(r[i])
  {
    if |s| == 0 || !IsDigit(s[0]) then []
    else if |s| >= 3 && s[1] == '_' && IsDigit(s[2]) then [s[0]] + DigitRun(s[2..])
    else [s[0]] + DigitRun(s[1..])
  }

  /** The value of a string of decimal digits. */
  function DigitsValue(ds: string): nat
    requires forall i :: 0 <= i < |ds| ==> IsDigit(ds[i])
  {
    if ds == [] then 0 else DigitsValue(ds[..|ds| - 1]) * 10 + DigitValue(ds[|ds| - 1])
  }

  /** After an optional sign, base 10 accepts an optional `0d`/`0D` prefix. */
  function DropDecimalPrefix(s: string): string {
    if |s| >= 2 && s[0] == '0' && (s[1] == 'd' || s[1] == 'D') then s[2..] else s
  }

  /**
   * Ruby `String#to_i`: skip leading white space, read an optional sign, then as many
   * digits as possible; no digits gives 0.
   */
  function ToI(s: string): int {
    var t := DropLeading(s, IsCSpace);
    if t != [] && t[0] == '-' then 0 - DigitsValue(DigitRun(DropDecimalPrefix(t[1..])))
    else if t != [] && t[0] == '+' then DigitsValue(DigitRun(DropDecimalPrefix(t[1..])))
    else DigitsValue(DigitRun(DropDecimalPrefix(t)))
  }

  /** Decimal representation of a natural number, without leading zeros. */
  function NatToDecimal(n: nat): (r: string)
    ensures |r| > 0 && forall i :: 0 <= i < |r| ==> IsDigit(r[i])
    ensures n > 0 ==> r[0] != '0'
  {
    if n < 10 then [DigitChar(n)] else NatToDecimal(n / 10) + [DigitChar(n % 10)]
  }

  /** Decimal representation of an integer, as Ruby string interpolation and JavaScript template literals print it. */
  function IntToDecimal(n: int): string {
    if n < 0 then "-" + NatToDecimal(-n) else NatToDecimal(n)
  }

  lemma {:induction false} DigitsValueOfDecimal(n: nat)
    ensures DigitsValue(NatToDecimal(n)) == n
  {
    if n >= 10 {
      DigitsValueOfDecimal(n / 10);
      var r := NatToDecimal(n);
      assert r[..|r| - 1] == NatToDecimal(n / 10);
    }
  }

  lemma {:induction false} DigitRunOfDigits(s: string)
    requires forall i :: 0 <= i < |s| ==> IsDigit(s[i])
    ensures DigitRun(s) == s
  {
    if s != [] {
      DigitRunOfDigits(s[1..]);
    }
  }

  /** A string with no removable first character is left as it is. */
  lemma DropLeadingNoop(s: string, sp: char -> bool)
    requires s == [] || !sp(s[0])
    ensures DropLeading(s, sp) == s
  {
  }

  /** A string with no removable last character is left as it is. */
  lemma DropTrailingNoop(s: string, sp: char -> bool)
    requires s == [] || !sp(s[|s| - 1])
    ensures DropTrailing(s, sp) == s
  {
  }

  /** `to_i` of an unsigned decimal numeral is its value. */
  lemma ToIOfNatDecimal(n: nat)
    ensures ToI(NatToDecimal(n)) == n
  {
    var d := NatToDecimal(n);
    DropLeadingNoop(d, IsCSpace);
    assert DropDecimalPrefix(d) == d;
    DigitRunOfDigits(d);
    DigitsValueOfDecimal(n);
  }

  /** `to_i` reads back exactly the integer that decimal formatting printed. */
  lemma ToIOfDecimal(n: int)
    ensures ToI(IntToDecimal(n)) == n
  {
    if n < 0 {
      var d := NatToDecimal(-n);
      var s := "-" + d;
      DropLeadingNoop(s, IsCSpace);
      assert s[1..] == d;
      assert DropDecimalPrefix(d) == d;
      DigitRunOfDigits(d);
      DigitsValueOfDecimal(-n);
    } else {
      ToIOfNatDecimal(n);
    }
  }

  /** Strings without a leading digit (after white space and sign) read as 0. */
  lemma ToINoDigits(s: string)
    requires var t := DropLeading(s, IsCSpace); t == [] || (!IsDigit(t[0]) && t[0] != '-' && t[0] != '+')
    ensures ToI(s) == 0
  {
  }

  // ---------------------------------------------------------------------------
  // Scalars passed in from request parameters or callers: nil, an Integer or a String.

  datatype Scalar = Nil | Int(i: int) | Str(s: string)

  /** `blank?`: nil and blank strings; an Integer is never blank. */
  predicate ScalarBlank(v: Scalar) {
    match v
    case Nil => true
    case Int(_) => false
    case Str(s) => IsBlank(s)
  }

  /** `to_i` on nil, an Integer or a String. */
  function ScalarToI(v: Scalar): int {
    match v
    case Nil => 0
    case Int(i) => i
    case Str(s) => ToI(s)
  }

  // ---------------------------------------------------------------------------
  // JavaScript `split(/\s+/g)`.

  /** Index of the first character satisfying `sp`, or |s|. */
  function FirstIndexWhere(s: string, sp: char -> bool): (k: nat)
    ensures k <= |s|
    ensures forall i :: 0 <= i < k ==> !sp(s[i])
    ensures k < |s| ==> sp(s[k])
  {
    if s == [] || sp(s[0]) then 0 else 1 + FirstIndexWhere(s[1..], sp)
  }

  /**
   * `s.split(/\s+/g)`: the pieces between maximal runs of white space; a leading or
   * trailing run yields an empty first or last piece, and "" splits to [""].
   */
  function SplitOnSpaceRuns(s: string): (r: seq<string>)
    ensures |r| > 0
    decreases |s|
  {
    var k := FirstIndexWhere(s, IsJsSpace);
    if k == |s| then [s]
    else [s[..k]] + SplitOnSpaceRuns(DropLeading(s[k..], IsJsSpace))
  }

  /** The concatenation of a sequence of strings. */
  function Concat(ss: seq<string>): string {
    if ss == [] then [] else Concat(ss[..|ss| - 1]) + ss[|ss| - 1]
  }

  /** The characters of `s` that are not white space, in order. */
  function NonSpace(s: string): string {
    if s == [] then [] else (if IsJsSpace(s[0]) then [] else [s[0]]) + NonSpace(s[1..])
  }

  lemma {:induction false} NonSpaceAppend(a: string, b: string)
    ensures NonSpace(a + b) == NonSpace(a) + NonSpace(b)
  {
    if a != [] {
      assert (a + b)[0] == a[0];
      assert (a + b)[1..] == a[1..] + b;
      NonSpaceAppend(a[1..], b);
    } else {
      assert a + b == b;
    }
  }

  lemma {:induction false} NonSpaceOfSpaces(s: string)
    requires forall i :: 0 <= i < |s| ==> IsJsSpace(s[i])
    ensures NonSpace(s) == []
  {
    if s != [] {
      NonSpaceOfSpaces(s[1..]);
    }
  }

  lemma {:induction false} NonSpaceOfWord(s: string)
    requires forall i :: 0 <= i < |s| ==> !IsJsSpace(s[i])
    ensures NonSpace(s) == s
  {
    if s != [] {
      NonSpaceOfWord(s[1..]);
    }
  }

  lemma ConcatCons(x: string, ss: seq<string>)
    ensures Concat([x] + ss) == x + Concat(ss)
    decreases |ss|
  {
    if ss != [] {
      ConcatCons(x, ss[..|ss| - 1]);
      assert ([x] + ss)[..|ss|] == [x] + ss[..|ss| - 1];
    }
  }

  predicate NoSpace(w: string) {
    forall i :: 0 <= i < |w| ==> !IsJsSpace(w[i])
  }

  /** No piece of a split contains white space. */
  lemma {:induction false} SplitOnSpaceRunsNoSpace(s: string)
    ensures forall j :: 0 <= j < |SplitOnSpaceRuns(s)| ==> NoSpace(SplitOnSpaceRuns(s)[j])
    decreases |s|
  {
    var k := FirstIndexWhere(s, IsJsSpace);
    if k < |s| {
      SplitOnSpaceRunsNoSpace(DropLeading(s[k..], IsJsSpace));
    }
  }

  /** Skipping leading white space drops nothing `NonSpace` keeps. */
  lemma NonSpaceSkipsLeading(t: string)
    ensures NonSpace(t) == NonSpace(DropLeading(t, IsJsSpace))
  {
    var rest := DropLeading(t, IsJsSpace);
    DropLeadingSpec(t, IsJsSpace);
    var gap := t[..|t| - |rest|];
    NonSpaceOfSpaces(gap);
    assert t == gap + rest;
    NonSpaceAppend(gap, rest);
  }

  lemma {:induction false} NonSpaceAtFirstRun(s: string, k: nat)
    requires k == FirstIndexWhere(s, IsJsSpace) && k < |s|
    ensures NonSpace(s) == s[..k] + NonSpace(DropLeading(s[k..], IsJsSpace))
  {
    var w, t := s[..k], s[k..];
    NonSpaceOfWord(w);
    NonSpaceSkipsLeading(t);
    assert s == w + t;
    NonSpaceAppend(w, t);
  }

  /** Together the pieces of a split hold exactly the non-space characters of the input, in order. */
  lemma {:induction false} SplitOnSpaceRunsKeepsText(s: string)
    ensures Concat(SplitOnSpaceRuns(s)) == NonSpace(s)
    decreases |s|
  {
    var k := FirstIndexWhere(s, IsJsSpace);
    if k == |s| {
      NonSpaceOfWord(s);
      assert SplitOnSpaceRuns(s) == [s];
      assert Concat([s]) == Concat([]) + s;
    } else {
      var rest := DropLeading(s[k..], IsJsSpace);
      NonSpaceAtFirstRun(s, k);
      SplitOnSpaceRunsKeepsText(rest);
      ConcatCons(s[..k], SplitOnSpaceRuns(rest));
    }
  }
}
