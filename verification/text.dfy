/**
 * The string operations of JavaScript that the portal relies on: decimal
 * rendering and parsing of numbers, `split`/`join`, `startsWith`,
 * `includes`, `trim` and ASCII lower-casing.  Strings are `seq<char>`.
 */
module Text {
  import opened Wrappers

  // ---------------------------------------------------------------------------
  // Prefixes, suffixes and searching

  predicate StartsWith(s: string, prefix: string) {
    |prefix| <= |s| && s[..|prefix|] == prefix
  }

  predicate EndsWith(s: string, suffix: string) {
    |suffix| <= |s| && s[|s| - |suffix|..] == suffix
  }

  /** True when `sep` occurs in `s` starting at index `i`. */
  predicate OccursAt(s: string, sep: string, i: int) {
    0 <= i && i + |sep| <= |s| && s[i..i + |sep|] == sep
  }

  /** The first index at or after `from` where `sep` occurs in `s`. */
  function IndexOfFrom(s: string, sep: string, from: nat): (r: Option<nat>)
    ensures r.Some? ==> from <= r.value && OccursAt(s, sep, r.value)
    ensures r.Some? ==> forall j :: from <= j < r.value ==> !OccursAt(s, sep, j)
    ensures r.None? ==> forall j :: from <= j ==> !OccursAt(s, sep, j)
    decreases |s| - from
  {
    if from + |sep| > |s| then None
    else if s[from..from + |sep|] == sep then Some(from)
    else IndexOfFrom(s, sep, from + 1)
  }

  /** JavaScript's `s.indexOf(sep)`, with -1 as None. */
  function IndexOf(s: string, sep: string): Option<nat> {
    IndexOfFrom(s, sep, 0)
  }

  /** JavaScript's `s.includes(sep)`. */
  predicate Contains(s: string, sep: string) {
    IndexOf(s, sep).Some?
  }

  // ---------------------------------------------------------------------------
  // split and join

  /** JavaScript's `s.split(sep)` for a non-empty separator string. */
  function Split(s: string, sep: string): (parts: seq<string>)
    requires |sep| > 0
    ensures |parts| >= 1
    decreases |s|
  {
    match IndexOf(s, sep)
    case None => [s]
    case Some(k) => [s[..k]] + Split(s[k + |sep|..], sep)
  }

  /** JavaScript's `parts.join(sep)`. */
  function Join(parts: seq<string>, sep: string): string {
    if |parts| == 0 then ""
    else if |parts| == 1 then parts[0]
    else parts[0] + sep + Join(parts[1..], sep)
  }

  /** Joining the pieces of a split with the same separator gives the string back. */
  lemma {:induction false} JoinSplit(s: string, sep: string)
    requires |sep| > 0
    ensures Join(Split(s, sep), sep) == s
    decreases |s|
  {
    match IndexOf(s, sep)
    case None =>
    case Some(k) =>
      var rest := s[k + |sep|..];
      var parts := Split(s, sep);
      assert parts == [s[..k]] + Split(rest, sep);
      assert parts[1..] == Split(rest, sep);
      JoinSplit(rest, sep);
      calc {
        Join(parts, sep);
        parts[0] + sep + Join(parts[1..], sep);
        s[..k] + sep + rest;
        { assert s == s[..k] + s[k..k + |sep|] + rest; }
        s;
      }
  }

  /** Splitting at a separator that is absent from the head gives the head first. */
  lemma SplitCons(a: string, sep: string, b: string)
    requires |sep| > 0
    requires forall j :: 0 <= j < |a| ==> !OccursAt(a + sep + b, sep, j)
    ensures Split(a + sep + b, sep) == [a] + Split(b, sep)
  {
    var s := a + sep + b;
    assert OccursAt(s, sep, |a|) by {
      assert s[|a|..|a| + |sep|] == sep;
    }
    var k := IndexOf(s, sep);
    assert k == Some(|a|);
    assert s[..|a|] == a;
    assert s[|a| + |sep|..] == b;
  }

  /** A string holding no occurrence of `sep` splits into itself alone. */
  lemma SplitNone(s: string, sep: string)
    requires |sep| > 0
    requires !Contains(s, sep)
    ensures Split(s, sep) == [s]
  {
  }

  /** True when the character `c` does not occur in `s`. */
  predicate Lacks(s: string, c: char) {
    forall i :: 0 <= i < |s| ==> s[i] != c
  }

  /** A separator cannot start inside a text that lacks its first character. */
  lemma LacksNoOccurrence(s: string, sep: string, b: string)
    requires |sep| > 0 && Lacks(s, sep[0])
    ensures forall j :: 0 <= j < |s| ==> !OccursAt(s + b, sep, j)
  {
    forall j | 0 <= j < |s| ensures !OccursAt(s + b, sep, j) {
      if j + |sep| <= |s + b| {
        assert (s + b)[j..j + |sep|][0] == s[j];
      }
    }
  }

  lemma LacksNotContains(s: string, sep: string)
    requires |sep| > 0 && Lacks(s, sep[0])
    ensures !Contains(s, sep)
  {
    LacksNoOccurrence(s, sep, "");
    assert s + "" == s;
  }

  // ---------------------------------------------------------------------------
  // Single characters

  predicate IsDigit(c: char) {
    '0' <= c <= '9'
  }

  predicate AllDigits(s: string) {
    forall i :: 0 <= i < |s| ==> IsDigit(s[i])
  }

  /** The ASCII white-space characters JavaScript's `trim` and `parseInt` skip. */
  predicate IsSpace(c: char) {
    c == ' ' || c == '\t' || c == '\n' || c == '\r' || c == '\U{B}' || c == '\U{C}'
  }

  function DigitChar(d: nat): (c: char)
    requires d < 10
    ensures IsDigit(c) && c as int - '0' as int == d
  {
    ('0' as int + d) as char
  }

  /** JavaScript's `s.toLowerCase()` on ASCII letters. */
  function LowerChar(c: char): char {
    if 'A' <= c <= 'Z' then (c as int - 'A' as int + 'a' as int) as char else c
  }

  function ToLower(s: string): (r: string)
    ensures |r| == |s|
    ensures forall i :: 0 <= i < |s| ==> r[i] == LowerChar(s[i])
  {
    seq(|s|, i requires 0 <= i < |s| => LowerChar(s[i]))
  }

  /** JavaScript's `s.replace(/c/g, d)` for one character. */
  function ReplaceChar(s: string, c: char, d: char): (r: string)
    ensures |r| == |s|
    ensures forall i :: 0 <= i < |s| ==> r[i] == if s[i] == c then d else s[i]
  {
    seq(|s|, i requires 0 <= i < |s| => if s[i] == c then d else s[i])
  }

  // ---------------------------------------------------------------------------
  // trim

  function TrimStart(s: string): (r: string)
    ensures |r| <= |s| && r == s[|s| - |r|..]
    ensures |r| > 0 ==> !IsSpace(r[0])
  {
    if |s| > 0 && IsSpace(s[0]) then TrimStart(s[1..]) else s
  }

  function TrimEnd(s: string): (r: string)
    ensures |r| <= |s| && r == s[..|r|]
    ensures |r| > 0 ==> !IsSpace(r[|r| - 1])
  {
    if |s| > 0 && IsSpace(s[|s| - 1]) then TrimEnd(s[..|s| - 1]) else s
  }

  /** JavaScript's `s.trim()` over the ASCII white-space characters (tab, line feed, vertical tab, form feed, carriage return, space). */
  function Trim(s: string): string {
    TrimEnd(TrimStart(s))
  }

  /** A text made only of white space trims to ''. */
  lemma {:induction false} TrimBlank(s: string)
    requires forall i :: 0 <= i < |s| ==> IsSpace(s[i])
    ensures Trim(s) == ""
  {
    if |s| > 0 {
      TrimBlank(s[1..]);
    }
  }

  /** A text that neither starts nor ends with white space is its own trim. */
  lemma TrimUnchanged(s: string)
    requires |s| > 0 && !IsSpace(s[0]) && !IsSpace(s[|s| - 1])
    ensures Trim(s) == s
  {
    assert TrimStart(s) == s;
  }

  // ---------------------------------------------------------------------------
  // Decimal numbers

  /** The value of a string of decimal digits, most significant first. */
  function DigitsValue(s: string): nat
    requires AllDigits(s)
  {
    if |s| == 0 then 0
    else DigitsValue(s[..|s| - 1]) * 10 + (s[|s| - 1] as int - '0' as int)
  }

  /** The decimal text of a natural number, as `n.toString()` writes it. */
  function NatToString(n: nat): (s: string)
    ensures |s| > 0 && AllDigits(s)
    ensures DigitsValue(s) == n
    ensures n < 10 <==> |s| == 1
    ensures 10 <= n < 100 <==> |s| == 2
    decreases n
  {
    if n < 10 then [DigitChar(n)]
    else
      var s := NatToString(n / 10) + [DigitChar(n % 10)];
      assert s[..|s| - 1] == NatToString(n / 10);
      s
  }

  /** The decimal text of an integer, with a leading '-' when negative. */
  function IntToString(i: int): string {
    if i < 0 then "-" + NatToString(-i) else NatToString(i)
  }

  /** `n.toString().padStart(2, '0')`. */
  function Pad2(n: nat): (s: string)
    ensures n < 100 ==> |s| == 2 && AllDigits(s) && DigitsValue(s) == n
  {
    if n < 10 then "0" + NatToString(n) else NatToString(n)
  }

  /** Below 100, the padded text is the tens digit and the units digit. */
  lemma Pad2Chars(n: nat)
    requires n < 100
    ensures Pad2(n) == [DigitChar(n / 10), DigitChar(n % 10)]
  {
    if n >= 10 {
      assert NatToString(n) == NatToString(n / 10) + [DigitChar(n % 10)];
    }
  }

  /** `s.slice(-2)`: the last two characters, or all of a shorter string. */
  function LastTwo(s: string): (r: string)
    ensures |s| >= 2 ==> |r| == 2 && r == s[|s| - 2..]
    ensures |s| < 2 ==> r == s
  {
    if |s| >= 2 then s[|s| - 2..] else s
  }

  /** A string of digits only, read as a natural number; None otherwise. */
  function ParseNat(s: string): (r: Option<nat>)
    ensures r.Some? <==> |s| > 0 && AllDigits(s)
  {
    if |s| > 0 && AllDigits(s) then Some(DigitsValue(s)) else None
  }

  /** Length of the longest prefix of `s` made of digits. */
  function DigitRun(s: string): (n: nat)
    ensures n <= |s| && AllDigits(s[..n])
    ensures n < |s| ==> !IsDigit(s[n])
  {
    if |s| > 0 && IsDigit(s[0]) then
      var k := 1 + DigitRun(s[1..]);
      assert s[..k] == [s[0]] + s[1..][..k - 1];
      k
    else 0
  }

  /**
   * JavaScript's `parseInt(s)` in base 10: leading white space is skipped, an
   * optional sign is read, then the longest run of digits; None (NaN) when
   * there is no digit.
   */
  function ParseIntPrefix(s: string): Option<int> {
    var t := TrimStart(s);
    var neg := |t| > 0 && t[0] == '-';
    var body := if |t| > 0 && (t[0] == '-' || t[0] == '+') then t[1..] else t;
    var n := DigitRun(body);
    if n == 0 then None
    else
      var v: int := DigitsValue(body[..n]);
      Some(if neg then -v else v)
  }

  // ---------------------------------------------------------------------------
  // Round trips of the decimal rendering

  lemma {:induction false} DigitsValueLeadingZero(s: string)
    requires AllDigits(s)
    ensures AllDigits("0" + s) && DigitsValue("0" + s) == DigitsValue(s)
    decreases |s|
  {
    var t := "0" + s;
    if |s| > 0 {
      assert t[..|t| - 1] == "0" + s[..|s| - 1];
      DigitsValueLeadingZero(s[..|s| - 1]);
    }
  }

  /** Reading back the decimal text of n gives n, also through parseInt. */
  lemma NatToStringParses(n: nat)
    ensures ParseNat(NatToString(n)) == Some(n)
    ensures ParseIntPrefix(NatToString(n)) == Some(n)
  {
    DigitStringParsesAsInt(NatToString(n));
  }

  /** parseInt reads a whole digit string as its value. */
  lemma DigitStringParsesAsInt(s: string)
    requires |s| > 0 && AllDigits(s)
    ensures ParseIntPrefix(s) == Some(DigitsValue(s))
  {
    assert IsDigit(s[0]);
    ParseIntDigitStart(s);
    DigitRunAll(s);
    assert s[..|s|] == s;
  }

  /** parseInt of a text starting with a digit reads its leading run of digits. */
  lemma ParseIntDigitStart(s: string)
    requires |s| > 0 && IsDigit(s[0])
    ensures DigitRun(s) > 0
    ensures ParseIntPrefix(s) == Some(DigitsValue(s[..DigitRun(s)]))
  {
    assert TrimStart(s) == s;
    assert !(s[0] == '-' || s[0] == '+');
  }

  lemma DigitRunAll(s: string)
    requires AllDigits(s)
    ensures DigitRun(s) == |s|
  {
  }

  /** The two-digit padded text of n < 100 reads back as n. */
  lemma Pad2Parses(n: nat)
    requires n < 100
    ensures ParseNat(Pad2(n)) == Some(n)
  {
  }

  /** Two digit strings of the same length are equal when their values are. */
  lemma {:induction false} DigitsValueInjective(s: string, t: string)
    requires AllDigits(s) && AllDigits(t) && |s| == |t|
    requires DigitsValue(s) == DigitsValue(t)
    ensures s == t
    decreases |s|
  {
    if |s| > 0 {
      var ds := s[|s| - 1] as int - '0' as int;
      var dt := t[|t| - 1] as int - '0' as int;
      assert ds == DigitsValue(s) % 10 && dt == DigitsValue(t) % 10;
      DigitsValueInjective(s[..|s| - 1], t[..|t| - 1]);
      assert s == s[..|s| - 1] + [s[|s| - 1]];
      assert t == t[..|t| - 1] + [t[|t| - 1]];
    }
  }
}
