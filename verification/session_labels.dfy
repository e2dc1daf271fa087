/**
 * Academic-session labels "YYYY-yy": a start year, a dash and the last two
 * digits of the following year.  The session picker offers the four
 * sessions before the current year; the routine form offers "All" and the
 * four sessions starting with the current year.
 */
module Sessions {
  import opened Wrappers
  import opened Text

  /** `${y}-${(y + 1).toString().slice(-2)}`. */
  function SessionLabel(y: int): string {
    IntToString(y) + "-" + LastTwo(IntToString(y + 1))
  }

  /** The `sessions` of the session picker: label i starts in currentYear - 1 - i. */
  function SelectorSessions(currentYear: int): (r: seq<string>)
    ensures |r| == 4
  {
    seq(4, i requires 0 <= i < 4 => SessionLabel(currentYear - 1 - i))
  }

  /** The option values of the picker: the '' placeholder, then the sessions. */
  function SelectorOptions(currentYear: int): seq<string> {
    [""] + SelectorSessions(currentYear)
  }

  /** The `sessions` of the routine form: "All", then sessions from currentYear down. */
  function FormSessions(currentYear: int): (r: seq<string>)
    ensures |r| == 5 && r[0] == "All"
  {
    ["All"] + seq(4, i requires 0 <= i < 4 => SessionLabel(currentYear - i))
  }

  /** The last two characters of a number of two or more digits are its value mod 100. */
  lemma LastTwoDigits(n: nat)
    requires n >= 10
    ensures var t := LastTwo(NatToString(n));
      |t| == 2 && AllDigits(t) && DigitsValue(t) == n % 100
  {
    if n < 100 {
      assert |NatToString(n)| == 2;
    } else {
      var d0 := DigitChar(n % 10);
      var d1 := DigitChar((n / 10) % 10);
      var high := NatToString(n / 100);
      assert NatToString(n) == NatToString(n / 10) + [d0];
      assert NatToString(n / 10) == high + [d1] by {
        assert n / 10 >= 10 && n / 10 / 10 == n / 100;
      }
      LastTwoOfDigits(high, d1, d0);
      TwoDigitValue((n / 10) % 10, n % 10);
      LastTwoArithmetic(n);
    }
  }

  lemma LastTwoOfDigits(high: string, d1: char, d0: char)
    ensures LastTwo(high + [d1] + [d0]) == [d1, d0]
  {
    var s := high + [d1] + [d0];
    assert s[|s| - 2..] == [d1, d0];
  }

  lemma TwoDigitValue(a: nat, b: nat)
    requires a < 10 && b < 10
    ensures DigitsValue([DigitChar(a), DigitChar(b)]) == 10 * a + b
  {
    var ca, cb := DigitChar(a), DigitChar(b);
    var t := [ca, cb];
    assert DigitsValue([ca]) == a by {
      assert [ca][..0] == [];
      assert DigitsValue([ca]) == DigitsValue([]) * 10 + (ca as int - '0' as int);
    }
    assert t[..1] == [ca];
    assert DigitsValue(t) == DigitsValue([ca]) * 10 + (cb as int - '0' as int);
  }

  lemma LastTwoArithmetic(n: nat)
    ensures n % 100 == 10 * ((n / 10) % 10) + n % 10
  {
    var q, r := n / 100, n % 100;
    assert n == 100 * q + r;
    assert n == 10 * (10 * q + r / 10) + r % 10;
    assert n / 10 == 10 * q + r / 10;
    assert (n / 10) % 10 == r / 10;
    assert n % 10 == r % 10;
  }

  /** `text` splits at '-' into the digits of y and those of (y + 1) mod 100. */
  predicate ReadsAs(text: string, y: nat) {
    var parts := Split(text, "-");
    |parts| == 2 && ParseNat(parts[0]) == Some(y) &&
    |parts[1]| == 2 && ParseNat(parts[1]) == Some((y + 1) % 100)
  }

  /** Two digit groups joined by '-' split back into the groups. */
  lemma DashSplit(a: string, t: string)
    requires AllDigits(a) && AllDigits(t)
    ensures Split(a + "-" + t, "-") == [a, t]
  {
    assert Lacks(a, '-') && Lacks(t, '-');
    LacksNoOccurrence(a, "-", "-" + t);
    assert a + "-" + t == a + ("-" + t);
    SplitCons(a, "-", t);
    LacksNotContains(t, "-");
    SplitNone(t, "-");
  }

  /** For a start year of two or more digits the label reads back. */
  lemma SessionLabelParts(y: nat)
    requires y >= 9
    ensures ReadsAs(SessionLabel(y), y)
  {
    var a := NatToString(y);
    var t := LastTwo(NatToString(y + 1));
    LastTwoDigits(y + 1);
    assert SessionLabel(y) == a + "-" + t;
    DashSplit(a, t);
  }

  /** Different start years give different labels. */
  lemma SessionLabelInjective(y: nat, z: nat)
    requires y >= 9 && z >= 9 && SessionLabel(y) == SessionLabel(z)
    ensures y == z
  {
    SessionLabelParts(y);
    SessionLabelParts(z);
  }

  /**
   * The picker: four different labels, label i reading as the session that
   * starts in currentYear - 1 - i.
   */
  lemma SelectorSessionsFacts(currentYear: int)
    requires currentYear >= 13
    ensures var r := SelectorSessions(currentYear);
      forall i :: 0 <= i < 4 ==> ReadsAs(r[i], currentYear - 1 - i)
    ensures var r := SelectorSessions(currentYear);
      forall i, j :: 0 <= i < j < 4 ==> r[i] != r[j]
  {
    var r := SelectorSessions(currentYear);
    forall i | 0 <= i < 4 ensures ReadsAs(r[i], currentYear - 1 - i) {
      SessionLabelParts(currentYear - 1 - i);
    }
  }

  /** The picker's first option is the '' placeholder and the rest are the sessions. */
  lemma SelectorOptionsFacts(currentYear: int)
    ensures var o := SelectorOptions(currentYear);
      |o| == 5 && o[0] == "" && o[1..] == SelectorSessions(currentYear)
  {
  }

  /** The form's sessions start with the current year, one year before the picker's. */
  lemma FormSessionsShift(currentYear: int)
    ensures FormSessions(currentYear)[1..] == SelectorSessions(currentYear + 1)
  {
  }
}
