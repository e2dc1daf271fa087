/**
 * The degrees-minutes-seconds coordinate parser of the land-area calculator.
 *
 * A coordinate string such as `24°24'10.5"N 88°37'34.7"E` is searched twice,
 * independently, for the pattern `(\d+)°(\d+)'([\d.]+)"([NS])` and for the
 * same pattern ending in `[EW]`; each match gives
 * degrees + minutes/60 + seconds/3600, negated for S and for W.
 */
module GpsParse {
  import opened Wrappers
  import opened Text

  /** A latitude/longitude pair in signed decimal degrees. */
  datatype GeoCoord = GeoCoord(lat: real, lng: real)

  /** The four capture groups of one match of the DMS pattern. */
  datatype DmsMatch = DmsMatch(degrees: string, minutes: string, seconds: string, hemisphere: char)

  /** A character of the `[\d.]` class used for the seconds group. */
  predicate IsSecondsChar(c: char) {
    IsDigit(c) || c == '.'
  }

  /** A character that can stand in a DMS triple before its closing quote. */
  predicate IsDmsChar(c: char) {
    IsSecondsChar(c) || c == '°' || c == '\''
  }

  /** Number of consecutive digits of `s` starting at `p` (the greedy `\d+`). */
  function DigitRunFrom(s: string, p: nat): (n: nat)
    requires p <= |s|
    ensures p + n <= |s|
    decreases |s| - p
  {
    if p < |s| && IsDigit(s[p]) then 1 + DigitRunFrom(s, p + 1) else 0
  }

  /** Number of consecutive `[\d.]` characters of `s` starting at `p`. */
  function SecondsRunFrom(s: string, p: nat): (n: nat)
    requires p <= |s|
    ensures p + n <= |s|
    decreases |s| - p
  {
    if p < |s| && IsSecondsChar(s[p]) then 1 + SecondsRunFrom(s, p + 1) else 0
  }

  /** The digit run is made of digits and stops at the end or at a non-digit. */
  lemma {:induction false} DigitRunFacts(s: string, p: nat)
    requires p <= |s|
    ensures var n := DigitRunFrom(s, p);
      (forall k :: p <= k < p + n ==> IsDigit(s[k])) && (p + n < |s| ==> !IsDigit(s[p + n]))
    decreases |s| - p
  {
    if p < |s| && IsDigit(s[p]) {
      DigitRunFacts(s, p + 1);
    }
  }

  /** The seconds run is made of `[\d.]` and stops at the end or at another character. */
  lemma {:induction false} SecondsRunFacts(s: string, p: nat)
    requires p <= |s|
    ensures var n := SecondsRunFrom(s, p);
      (forall k :: p <= k < p + n ==> IsSecondsChar(s[k])) && (p + n < |s| ==> !IsSecondsChar(s[p + n]))
    decreases |s| - p
  {
    if p < |s| && IsSecondsChar(s[p]) {
      SecondsRunFacts(s, p + 1);
    }
  }

  /**
   * The match of `(\d+)°(\d+)'([\d.]+)"([hem])` that starts exactly at `p`.
   * Every quantifier in the pattern is followed by a character outside its
   * class, so the greedy runs are the only candidates.
   */
  function MatchAt(s: string, p: nat, hem: string): (r: Option<DmsMatch>)
    requires p <= |s|
    ensures r.Some? ==> |r.value.degrees| > 0 && AllDigits(r.value.degrees)
    ensures r.Some? ==> |r.value.minutes| > 0 && AllDigits(r.value.minutes)
    ensures r.Some? ==> |r.value.seconds| > 0 && r.value.hemisphere in hem
  {
    var q := p + DigitRunFrom(s, p);
    if q == p || q >= |s| || s[q] != '°' then None
    else
      var r := q + 1 + DigitRunFrom(s, q + 1);
      if r == q + 1 || r >= |s| || s[r] != '\'' then None
      else
        var t := r + 1 + SecondsRunFrom(s, r + 1);
        if t == r + 1 || t + 1 >= |s| || s[t] != '"' || s[t + 1] !in hem then None
        else
          var degrees, minutes := s[p..q], s[q + 1..r];
          assert AllDigits(degrees) by {
            DigitRunFacts(s, p);
            assert forall k :: 0 <= k < |degrees| ==> degrees[k] == s[p + k];
          }
          assert AllDigits(minutes) by {
            DigitRunFacts(s, q + 1);
            assert forall k :: 0 <= k < |minutes| ==> minutes[k] == s[q + 1 + k];
          }
          Some(DmsMatch(degrees, minutes, s[r + 1..t], s[t + 1]))
  }

  /** JavaScript's `s.match(pattern)`: the leftmost match at or after `p`. */
  function Search(s: string, p: nat, hem: string): Option<DmsMatch>
    requires p <= |s|
    decreases |s| - p
  {
    match MatchAt(s, p, hem)
    case Some(m) => Some(m)
    case None => if p == |s| then None else Search(s, p + 1, hem)
  }

  function Pow10(n: nat): (r: nat)
    ensures r >= 1
  {
    if n == 0 then 1 else 10 * Pow10(n - 1)
  }

  /**
   * JavaScript's `parseFloat` on a `[\d.]+` group: the longest prefix of the
   * form digits, optionally '.' and digits.  None stands for NaN.
   */
  function ParseSeconds(t: string): Option<real> {
    var a := DigitRunFrom(t, 0);
    if a < |t| && t[a] == '.' then
      var f := DigitRunFrom(t, a + 1);
      if a == 0 && f == 0 then None
      else
        var whole, fraction := t[..a], t[a + 1..a + 1 + f];
        assert AllDigits(whole) by {
          DigitRunFacts(t, 0);
          assert forall k :: 0 <= k < |whole| ==> whole[k] == t[k];
        }
        assert AllDigits(fraction) by {
          DigitRunFacts(t, a + 1);
          assert forall k :: 0 <= k < |fraction| ==> fraction[k] == t[a + 1 + k];
        }
        Some(DigitsValue(whole) as real + DigitsValue(fraction) as real / Pow10(f) as real)
    else if a == 0 then None
    else
      assert AllDigits(t[..a]) by {
        DigitRunFacts(t, 0);
        assert forall k :: 0 <= k < a ==> t[..a][k] == t[k];
      }
      Some(DigitsValue(t[..a]) as real)
  }

  /** degrees + minutes/60 + seconds/3600 of one match, unsigned. */
  function MatchDegrees(m: DmsMatch): Option<real>
    requires AllDigits(m.degrees) && AllDigits(m.minutes)
  {
    match ParseSeconds(m.seconds)
    case None => None
    case Some(sec) =>
      Some(DigitsValue(m.degrees) as real + DigitsValue(m.minutes) as real / 60.0 + sec / 3600.0)
  }

  /** The error the parser throws; it names the input as given. */
  function ParseError(coord: string): string {
    "Failed to parse GPS coordinate: " + coord
  }

  /** `parseGPSCoordinate`: both patterns are searched in the trimmed input. */
  function ParseGpsCoordinate(coord: string): Result<GeoCoord, string> {
    var normalized := Trim(coord);
    var latMatch := Search(normalized, 0, "NS");
    var lngMatch := Search(normalized, 0, "EW");
    if latMatch.None? || lngMatch.None? then Failure(ParseError(coord))
    else
      var lm := latMatch.value;
      var gm := lngMatch.value;
      assert AllDigits(lm.degrees) && AllDigits(lm.minutes) by { SearchFound(normalized, 0, "NS"); }
      assert AllDigits(gm.degrees) && AllDigits(gm.minutes) by { SearchFound(normalized, 0, "EW"); }
      match (MatchDegrees(lm), MatchDegrees(gm))
      case (Some(lat), Some(lng)) =>
        Success(GeoCoord(if lm.hemisphere == 'S' then -lat else lat,
                         if gm.hemisphere == 'W' then -lng else lng))
      case _ => Failure(ParseError(coord))
  }

  // ---------------------------------------------------------------------------
  // Facts about the search

  lemma {:induction false} SearchFound(s: string, p: nat, hem: string)
    requires p <= |s|
    ensures Search(s, p, hem).Some? ==> exists k :: p <= k <= |s| && MatchAt(s, k, hem) == Search(s, p, hem)
    decreases |s| - p
  {
    if MatchAt(s, p, hem).None? && p < |s| {
      SearchFound(s, p + 1, hem);
    }
  }

  /** Starting positions that cannot match may be skipped. */
  lemma {:induction false} SearchSkip(s: string, p: nat, q: nat, hem: string)
    requires p <= q <= |s|
    requires forall k :: p <= k < q ==> MatchAt(s, k, hem).None?
    ensures Search(s, p, hem) == Search(s, q, hem)
    decreases q - p
  {
    if p < q {
      assert MatchAt(s, p, hem).None?;
      SearchSkip(s, p + 1, q, hem);
    }
  }

  /** A match can only start on a digit. */
  lemma MatchStartsWithDigit(s: string, p: nat, hem: string)
    requires p <= |s|
    requires p == |s| || !IsDigit(s[p])
    ensures MatchAt(s, p, hem).None?
  {
  }

  /**
   * If every character from `p` up to the first closing quote belongs to a
   * DMS triple and the quote is followed by a hemisphere outside `hem`, no
   * match of `hem` starts at `p`.
   */
  lemma NoMatchBeforeQuote(s: string, p: nat, quote: nat, hem: string)
    requires p <= quote && quote + 1 < |s|
    requires s[quote] == '"' && s[quote + 1] !in hem
    requires forall k :: p <= k < quote ==> IsDmsChar(s[k])
    ensures MatchAt(s, p, hem).None?
  {
    var q := p + DigitRunFrom(s, p);
    DigitRunStops(s, p, quote);
    if q == p || q >= |s| || s[q] != '°' {
    } else {
      var r := q + 1 + DigitRunFrom(s, q + 1);
      DigitRunStops(s, q + 1, quote);
      if r == q + 1 || r >= |s| || s[r] != '\'' {
      } else {
        SecondsRunStops(s, r + 1, quote);
      }
    }
  }

  /** A digit run that starts before the quote ends at or before it. */
  lemma DigitRunStops(s: string, p: nat, quote: nat)
    requires p <= quote < |s| && s[quote] == '"'
    ensures p + DigitRunFrom(s, p) <= quote
  {
    DigitRunFacts(s, p);
  }

  /**
   * A seconds run that starts before the quote, over DMS characters only,
   * ends exactly at the quote.
   */
  lemma SecondsRunStops(s: string, p: nat, quote: nat)
    requires p <= quote < |s| && s[quote] == '"'
    requires forall k :: p <= k < quote ==> IsDmsChar(s[k])
    ensures var t := p + SecondsRunFrom(s, p); t == quote || (t < quote && s[t] != '"')
  {
    SecondsRunFacts(s, p);
  }

  /** No match of `hem` at all in a string none of whose characters is in `hem`. */
  lemma {:induction false} NoHemisphereNoMatch(s: string, p: nat, hem: string)
    requires p <= |s|
    requires forall i :: 0 <= i < |s| ==> s[i] !in hem
    ensures Search(s, p, hem).None?
    decreases |s| - p
  {
    if p < |s| {
      NoHemisphereNoMatch(s, p + 1, hem);
    }
  }

  /** Without an N/S hemisphere, or without an E/W one, parsing fails and names the input. */
  lemma MissingHemisphereFails(coord: string)
    requires (forall i :: 0 <= i < |coord| ==> coord[i] !in "NS") ||
             (forall i :: 0 <= i < |coord| ==> coord[i] !in "EW")
    ensures ParseGpsCoordinate(coord) == Failure("Failed to parse GPS coordinate: " + coord)
  {
    var normalized := Trim(coord);
    assert forall i :: 0 <= i < |normalized| ==> normalized[i] in coord by {
      TrimIsInfix(coord);
    }
    if forall i :: 0 <= i < |coord| ==> coord[i] !in "NS" {
      NoHemisphereNoMatch(normalized, 0, "NS");
    } else {
      NoHemisphereNoMatch(normalized, 0, "EW");
    }
  }

  /**
   * A DMS component of the class `hem` is laid out at `p`: non-empty digit
   * groups, a non-empty `[\d.]` group and a hemisphere letter of the class.
   */
  ghost predicate ComponentAt(s: string, p: nat, hem: string) {
    exists D, M, T, h ::
      |D| > 0 && AllDigits(D) && |M| > 0 && AllDigits(M) && h in hem &&
      |T| > 0 && (forall k :: 0 <= k < |T| ==> IsSecondsChar(T[k])) &&
      p + |Layout(D, M, T, h)| <= |s| && s[p..p + |Layout(D, M, T, h)|] == Layout(D, M, T, h)
  }

  /** The text from `p` up to the letter after the quote, cut at the three separators, is a layout. */
  lemma SpellLayout(s: string, p: nat, q: nat, r: nat, t: nat)
    requires p <= q < r < t && t + 1 < |s|
    requires s[q] == '°' && s[r] == '\'' && s[t] == '"'
    ensures s[p..t + 2] == Layout(s[p..q], s[q + 1..r], s[r + 1..t], s[t + 1])
  {
    var e := t + 2;
    SliceSplit(s, p, q, e);
    SliceSplit(s, q + 1, r, e);
    SliceSplit(s, r + 1, t, e);
    assert s[q..e] == "°" + s[q + 1..e];
    assert s[r..e] == "'" + s[r + 1..e];
    assert s[t..e] == "\"" + [s[t + 1]];
  }

  lemma SliceSplit(s: string, a: nat, b: nat, c: nat)
    requires a <= b <= c <= |s|
    ensures s[a..c] == s[a..b] + s[b..c]
  {
  }

  /** What the pattern matches at `p` is spelt out there. */
  lemma MatchAtSound(s: string, p: nat, hem: string)
    requires p <= |s|
    ensures var m := MatchAt(s, p, hem);
      m.Some? ==>
        (forall k :: 0 <= k < |m.value.seconds| ==> IsSecondsChar(m.value.seconds[k])) &&
        var L := Layout(m.value.degrees, m.value.minutes, m.value.seconds, m.value.hemisphere);
        p + |L| <= |s| && s[p..p + |L|] == L
  {
    if MatchAt(s, p, hem).Some? {
      var q := p + DigitRunFrom(s, p);
      var r := q + 1 + DigitRunFrom(s, q + 1);
      var t := r + 1 + SecondsRunFrom(s, r + 1);
      MatchAtFound(s, p, hem, q, r, t);
      SecondsRunFacts(s, r + 1);
      var T := s[r + 1..t];
      assert forall k :: 0 <= k < |T| ==> T[k] == s[r + 1 + k];
      SpellLayout(s, p, q, r, t);
    }
  }

  /** So every match is a component of its class. */
  lemma MatchIsComponent(s: string, p: nat, hem: string)
    requires p <= |s|
    ensures MatchAt(s, p, hem).Some? ==> ComponentAt(s, p, hem)
  {
    if MatchAt(s, p, hem).Some? {
      MatchAtSound(s, p, hem);
      var m := MatchAt(s, p, hem).value;
      var L := Layout(m.degrees, m.minutes, m.seconds, m.hemisphere);
      assert p + |L| <= |s| && s[p..p + |L|] == L;
    }
  }

  /**
   * Without a complete DMS component of the N/S class, or without one of the
   * E/W class, anywhere in the trimmed input, parsing fails and names the input.
   */
  lemma MissingComponentFails(coord: string)
    requires (forall p :: 0 <= p <= |Trim(coord)| ==> !ComponentAt(Trim(coord), p, "NS")) ||
             (forall p :: 0 <= p <= |Trim(coord)| ==> !ComponentAt(Trim(coord), p, "EW"))
    ensures ParseGpsCoordinate(coord) == Failure(ParseError(coord))
  {
    var normalized := Trim(coord);
    var hem := if forall p :: 0 <= p <= |normalized| ==> !ComponentAt(normalized, p, "NS") then "NS" else "EW";
    SearchFound(normalized, 0, hem);
    if Search(normalized, 0, hem).Some? {
      var k :| 0 <= k <= |normalized| && MatchAt(normalized, k, hem) == Search(normalized, 0, hem);
      MatchIsComponent(normalized, k, hem);
    }
  }

  /** No match at all in a text without a closing '"'. */
  lemma {:induction false} NoQuoteNoMatch(s: string, p: nat, hem: string)
    requires p <= |s|
    requires forall i :: 0 <= i < |s| ==> s[i] != '"'
    ensures Search(s, p, hem).None?
    decreases |s| - p
  {
    if p < |s| {
      NoQuoteNoMatch(s, p + 1, hem);
    }
  }

  /** A coordinate without a closing '"' fails to parse, whatever letters it holds. */
  lemma NoQuoteFails(coord: string)
    requires forall i :: 0 <= i < |Trim(coord)| ==> Trim(coord)[i] != '"'
    ensures ParseGpsCoordinate(coord) == Failure(ParseError(coord))
  {
    NoQuoteNoMatch(Trim(coord), 0, "NS");
  }

  /** A coordinate written without seconds has both hemisphere letters, yet fails. */
  lemma NoSecondsFails(coord: string)
    requires coord == "24°24' N 88°37'E"
    ensures ParseGpsCoordinate(coord) == Failure(ParseError(coord))
  {
    TrimUnchanged(coord);
    NoQuoteFails(coord);
  }

  lemma TrimIsInfix(s: string)
    ensures exists a, b :: 0 <= a <= b <= |s| && Trim(s) == s[a..b]
  {
    var t := TrimStart(s);
    var a := |s| - |t|;
    var u := TrimEnd(t);
    assert u == s[a..a + |u|];
  }

  // ---------------------------------------------------------------------------
  // Round trip through the canonical text

  /** A DMS triple with seconds given to tenths, as the calculator's samples are written. */
  datatype Dms = Dms(degrees: nat, minutes: nat, seconds: nat, tenths: nat, hemisphere: char)

  /** The seconds text `S.t`. */
  function SecondsText(d: Dms): string
    requires d.tenths < 10
  {
    NatToString(d.seconds) + "." + [DigitChar(d.tenths)]
  }

  /** Degrees, minutes, seconds text and hemisphere laid out as `D°M'T"H`. */
  function Layout(D: string, M: string, T: string, h: char): string {
    D + "°" + M + "'" + T + "\"" + [h]
  }

  /** The text `D°M'S.t"H`. */
  function Render(d: Dms): string
    requires d.tenths < 10
  {
    Layout(NatToString(d.degrees), NatToString(d.minutes), SecondsText(d), d.hemisphere)
  }

  /** The signed decimal degrees a triple denotes: negative for S and W. */
  function Signed(d: Dms): real {
    var v := d.degrees as real + d.minutes as real / 60.0 +
             (d.seconds as real + d.tenths as real / 10.0) / 3600.0;
    if d.hemisphere == 'S' || d.hemisphere == 'W' then -v else v
  }

  lemma {:induction false} DigitRunExact(s: string, p: nat, n: nat)
    requires p + n < |s|
    requires forall k :: p <= k < p + n ==> IsDigit(s[k])
    requires !IsDigit(s[p + n])
    ensures DigitRunFrom(s, p) == n
    decreases n
  {
    if n > 0 {
      DigitRunExact(s, p + 1, n - 1);
    }
  }

  lemma {:induction false} SecondsRunExact(s: string, p: nat, n: nat)
    requires p + n < |s|
    requires forall k :: p <= k < p + n ==> IsSecondsChar(s[k])
    requires !IsSecondsChar(s[p + n])
    ensures SecondsRunFrom(s, p) == n
    decreases n
  {
    if n > 0 {
      SecondsRunExact(s, p + 1, n - 1);
    }
  }

  /** The seconds text `S.t` reads back as S + t/10. */
  lemma ParseSecondsRendered(sec: nat, tenths: nat)
    requires tenths < 10
    ensures ParseSeconds(NatToString(sec) + "." + [DigitChar(tenths)]) ==
            Some(sec as real + tenths as real / 10.0)
  {
    var S := NatToString(sec);
    var t := S + "." + [DigitChar(tenths)];
    DigitRunExact(t, 0, |S|);
    assert t[|S|] == '.';
    assert |t| == |S| + 2;
    assert t[|S| + 1] == DigitChar(tenths);
    assert DigitRunFrom(t, |S| + 2) == 0;
    assert DigitRunFrom(t, |S| + 1) == 1;
    assert t[..|S|] == S;
    assert t[|S| + 1..|S| + 2] == [DigitChar(tenths)];
    assert DigitsValue([DigitChar(tenths)]) == tenths by {
      assert [DigitChar(tenths)][..0] == [];
    }
    assert Pow10(1) == 10;
    assert ParseSeconds(t) == Some(DigitsValue(S) as real + DigitsValue([DigitChar(tenths)]) as real / 10.0);
  }

  /** Facts about the positions inside a rendered triple placed at `p` in `s`. */
  lemma RenderedAt(s: string, p: nat, d: Dms)
    requires d.tenths < 10
    requires p + |Render(d)| <= |s| && s[p..p + |Render(d)|] == Render(d)
    ensures var D, M, S := NatToString(d.degrees), NatToString(d.minutes), NatToString(d.seconds);
      var quote := p + |D| + |M| + |S| + 4;
      && quote + 1 < |s| && s[quote] == '"' && s[quote + 1] == d.hemisphere
      && quote + 2 == p + |Render(d)|
      && (forall k :: p <= k < quote ==> IsDmsChar(s[k]))
      && IsDigit(s[p])
  {
    var D, M, S := NatToString(d.degrees), NatToString(d.minutes), NatToString(d.seconds);
    var R := Render(d);
    assert forall k :: 0 <= k < |R| ==> s[p + k] == R[k];
    forall k | p <= k < p + |D| + |M| + |S| + 4 ensures IsDmsChar(s[k]) {
      var i := k - p;
      assert s[k] == R[i];
      if i < |D| { assert R[i] == D[i]; }
      else if i == |D| { assert R[i] == '°'; }
      else if i < |D| + 1 + |M| { assert R[i] == M[i - |D| - 1]; }
      else if i == |D| + 1 + |M| { assert R[i] == '\''; }
      else if i < |D| + 2 + |M| + |S| { assert R[i] == S[i - |D| - 2 - |M|]; }
      else if i == |D| + 2 + |M| + |S| { assert R[i] == '.'; }
      else { assert R[i] == DigitChar(d.tenths); }
    }
    assert s[p] == R[0] == D[0];
  }

  /** Where the pieces of a laid-out triple lie. */
  lemma TextLayout(D: string, M: string, T: string, h: char)
    ensures var R := Layout(D, M, T, h);
      && |R| == |D| + |M| + |T| + 4
      && R[..|D|] == D && R[|D|] == '°'
      && R[|D| + 1..|D| + 1 + |M|] == M && R[|D| + 1 + |M|] == '\''
      && R[|D| + 2 + |M|..|D| + 2 + |M| + |T|] == T
      && R[|D| + 2 + |M| + |T|] == '"' && R[|D| + 3 + |M| + |T|] == h
  {
    var tail := "\"" + [h];
    var a := D + "°";
    var b := a + M + "'";
    var R := D + "°" + M + "'" + T + tail;
    assert R == a + M + ("'" + T + tail);
    MiddleSlice(a, M, "'" + T + tail);
    assert R == b + T + tail;
    MiddleSlice(b, T, tail);
    assert R == [] + D + ("°" + M + "'" + T + tail);
    MiddleSlice([], D, "°" + M + "'" + T + tail);
  }

  lemma MiddleSlice(x: string, y: string, z: string)
    ensures (x + y + z)[|x|..|x| + |y|] == y
  {
  }

  lemma SliceOfSlice(s: string, p: nat, R: string, i: nat, j: nat)
    requires p + |R| <= |s| && s[p..p + |R|] == R
    requires i <= j <= |R|
    ensures s[p + i..p + j] == R[i..j]
  {
    forall k | 0 <= k < j - i ensures s[p + i..p + j][k] == R[i..j][k] {
      assert s[p + i + k] == s[p..p + |R|][i + k];
    }
  }

  lemma CharOfSlice(s: string, p: nat, R: string, i: nat)
    requires p + |R| <= |s| && s[p..p + |R|] == R
    requires i < |R|
    ensures s[p + i] == R[i]
  {
    assert s[p + i] == s[p..p + |R|][i];
  }

  lemma DigitRunOfSlice(s: string, p: nat, n: nat)
    requires p + n < |s| && AllDigits(s[p..p + n]) && !IsDigit(s[p + n])
    ensures DigitRunFrom(s, p) == n
  {
    forall k | p <= k < p + n ensures IsDigit(s[k]) {
      assert s[k] == s[p..p + n][k - p];
    }
    DigitRunExact(s, p, n);
  }

  lemma SecondsRunOfSlice(s: string, p: nat, T: string)
    requires p + |T| < |s| && s[p..p + |T|] == T && !IsSecondsChar(s[p + |T|])
    requires forall k :: 0 <= k < |T| ==> IsSecondsChar(T[k])
    ensures SecondsRunFrom(s, p) == |T|
  {
    forall k | p <= k < p + |T| ensures IsSecondsChar(s[k]) {
      assert s[k] == T[k - p];
    }
    SecondsRunExact(s, p, |T|);
  }

  /** Well-formed groups laid out at `p` are exactly what the pattern matches there. */
  lemma MatchLayoutAt(s: string, p: nat, D: string, M: string, T: string, h: char, hem: string)
    requires |D| > 0 && AllDigits(D) && |M| > 0 && AllDigits(M) && h in hem
    requires |T| > 0 && forall k :: 0 <= k < |T| ==> IsSecondsChar(T[k])
    requires p + |Layout(D, M, T, h)| <= |s| && s[p..p + |Layout(D, M, T, h)|] == Layout(D, M, T, h)
    ensures MatchAt(s, p, hem) == Some(DmsMatch(D, M, T, h))
  {
    LayoutPositions(s, p, D, M, T, h);
    MatchPositions(s, p, D, M, T, h, hem);
  }

  /** Where the groups and separators of a laid-out triple lie in `s`. */
  lemma LayoutPositions(s: string, p: nat, D: string, M: string, T: string, h: char)
    requires p + |Layout(D, M, T, h)| <= |s| && s[p..p + |Layout(D, M, T, h)|] == Layout(D, M, T, h)
    ensures p + |D| + |M| + |T| + 4 <= |s|
    ensures s[p..p + |D|] == D && s[p + |D|] == '°'
    ensures s[p + |D| + 1..p + |D| + 1 + |M|] == M && s[p + |D| + 1 + |M|] == '\''
    ensures s[p + |D| + 2 + |M|..p + |D| + 2 + |M| + |T|] == T
    ensures s[p + |D| + 2 + |M| + |T|] == '"' && s[p + |D| + 3 + |M| + |T|] == h
  {
    var L := Layout(D, M, T, h);
    TextLayout(D, M, T, h);
    SliceOfSlice(s, p, L, 0, |D|);
    SliceOfSlice(s, p, L, |D| + 1, |D| + 1 + |M|);
    SliceOfSlice(s, p, L, |D| + 2 + |M|, |D| + 2 + |M| + |T|);
    CharOfSlice(s, p, L, |D|);
    CharOfSlice(s, p, L, |D| + 1 + |M|);
    CharOfSlice(s, p, L, |D| + 2 + |M| + |T|);
    CharOfSlice(s, p, L, |D| + 3 + |M| + |T|);
  }

  /** The pattern matches the groups found at their positions. */
  lemma MatchPositions(s: string, p: nat, D: string, M: string, T: string, h: char, hem: string)
    requires |D| > 0 && AllDigits(D) && |M| > 0 && AllDigits(M) && h in hem
    requires |T| > 0 && forall k :: 0 <= k < |T| ==> IsSecondsChar(T[k])
    requires p + |D| + |M| + |T| + 4 <= |s|
    requires s[p..p + |D|] == D && s[p + |D|] == '°'
    requires s[p + |D| + 1..p + |D| + 1 + |M|] == M && s[p + |D| + 1 + |M|] == '\''
    requires s[p + |D| + 2 + |M|..p + |D| + 2 + |M| + |T|] == T
    requires s[p + |D| + 2 + |M| + |T|] == '"' && s[p + |D| + 3 + |M| + |T|] == h
    ensures MatchAt(s, p, hem) == Some(DmsMatch(D, M, T, h))
  {
    var q := p + |D|;
    var r := q + 1 + |M|;
    var t := r + 1 + |T|;
    assert !IsDigit(s[q]) && !IsDigit(s[r]) && !IsSecondsChar(s[t]);
    DigitRunOfSlice(s, p, |D|);
    DigitRunOfSlice(s, q + 1, |M|);
    SecondsRunOfSlice(s, r + 1, T);
    MatchAtFound(s, p, hem, q, r, t);
  }

  /** Where the three runs end and the separators sit, the pattern matches the slices between them. */
  lemma MatchAtFound(s: string, p: nat, hem: string, q: nat, r: nat, t: nat)
    requires p <= |s|
    requires q == p + DigitRunFrom(s, p) && q > p && q < |s| && s[q] == '°'
    requires r == q + 1 + DigitRunFrom(s, q + 1) && r > q + 1 && r < |s| && s[r] == '\''
    requires t == r + 1 + SecondsRunFrom(s, r + 1) && t > r + 1 && t + 1 < |s| && s[t] == '"' && s[t + 1] in hem
    ensures MatchAt(s, p, hem) == Some(DmsMatch(s[p..q], s[q + 1..r], s[r + 1..t], s[t + 1]))
  {
  }

  /** The seconds text is made of `[\d.]` characters only. */
  lemma SecondsTextChars(d: Dms)
    requires d.tenths < 10
    ensures |SecondsText(d)| > 0
    ensures forall k :: 0 <= k < |SecondsText(d)| ==> IsSecondsChar(SecondsText(d)[k])
  {
    var S := NatToString(d.seconds);
    var T := SecondsText(d);
    forall k | 0 <= k < |T| ensures IsSecondsChar(T[k]) {
      if k < |S| { assert T[k] == S[k]; }
    }
  }

  /** The triple rendered at `p` is what the pattern matches there. */
  lemma MatchRendered(s: string, p: nat, d: Dms, hem: string)
    requires d.tenths < 10 && d.hemisphere in hem
    requires p + |Render(d)| <= |s| && s[p..p + |Render(d)|] == Render(d)
    ensures MatchAt(s, p, hem) == Some(Groups(d))
  {
    SecondsTextChars(d);
    MatchLayoutAt(s, p, NatToString(d.degrees), NatToString(d.minutes), SecondsText(d), d.hemisphere, hem);
  }

  /** The capture groups a rendered triple yields. */
  function Groups(d: Dms): DmsMatch
    requires d.tenths < 10
  {
    DmsMatch(NatToString(d.degrees), NatToString(d.minutes), SecondsText(d), d.hemisphere)
  }

  /** The value a rendered triple's match denotes. */
  lemma MatchDegreesRendered(d: Dms)
    requires d.tenths < 10
    ensures MatchDegrees(Groups(d)) == Some(d.degrees as real + d.minutes as real / 60.0 +
                                            (d.seconds as real + d.tenths as real / 10.0) / 3600.0)
  {
    ParseSecondsRendered(d.seconds, d.tenths);
  }

  /**
   * `A` ends in a closing quote and a character that is neither a digit nor
   * in `hem`, and holds only DMS characters before that.
   */
  predicate Skippable(A: string, hem: string) {
    |A| >= 2 && A[|A| - 2] == '"' && A[|A| - 1] !in hem && !IsDigit(A[|A| - 1]) &&
    forall k :: 0 <= k < |A| - 2 ==> IsDmsChar(A[k])
  }

  /** A rendered triple whose hemisphere is not a digit and not in `hem` is skippable for `hem`. */
  lemma RenderSkippable(d: Dms, hem: string)
    requires d.tenths < 10 && d.hemisphere !in hem && !IsDigit(d.hemisphere)
    ensures Skippable(Render(d), hem)
  {
    var R := Render(d);
    assert R[0..|R|] == R;
    RenderedAt(R, 0, d);
  }

  /**
   * In `A + " " + B`, where A is DMS characters, a quote and a character
   * outside `hem`, no match of `hem` starts before B.
   */
  lemma SkipFirst(s: string, A: string, B: string, hem: string)
    requires s == A + " " + B && Skippable(A, hem)
    ensures Search(s, 0, hem) == Search(s, |A| + 1, hem)
  {
    SkippableBefore(s, A, B, hem);
    SkipPrefix(s, |A| - 2, |A| + 1, hem);
  }

  /** Where the quote and the hemisphere of a skippable `A` lie in `A + " " + B`. */
  lemma SkippableBefore(s: string, A: string, B: string, hem: string)
    requires s == A + " " + B && Skippable(A, hem)
    ensures |A| >= 2 && QuoteBefore(s, |A| - 2, hem)
  {
    assert forall k :: 0 <= k < |A| ==> s[k] == A[k];
    assert s[|A|] == ' ';
  }

  /**
   * Everything before position `quote` of `s` is DMS characters, and there
   * stand a closing quote, a hemisphere outside `hem` that is not a digit,
   * and another non-digit.
   */
  predicate QuoteBefore(s: string, quote: nat, hem: string) {
    quote + 3 <= |s| && s[quote] == '"' && s[quote + 1] !in hem &&
    !IsDigit(s[quote + 1]) && !IsDigit(s[quote + 2]) &&
    forall k :: 0 <= k < quote ==> IsDmsChar(s[k])
  }

  /**
   * When everything before a quote is DMS characters, the quote is followed
   * by a hemisphere outside `hem` and then a non-digit, no match of `hem`
   * starts up to there.
   */
  lemma SkipPrefix(s: string, quote: nat, after: nat, hem: string)
    requires after == quote + 3 && QuoteBefore(s, quote, hem)
    ensures Search(s, 0, hem) == Search(s, after, hem)
  {
    forall k | 0 <= k < after ensures MatchAt(s, k, hem).None? {
      if k <= quote {
        NoMatchBeforeQuote(s, k, quote, hem);
      } else {
        MatchStartsWithDigit(s, k, hem);
      }
    }
    SearchSkip(s, 0, after, hem);
  }

  /** A search that starts on a rendered triple finds it. */
  lemma SearchRendered(s: string, p: nat, d: Dms, hem: string)
    requires d.tenths < 10 && d.hemisphere in hem
    requires p + |Render(d)| <= |s| && s[p..p + |Render(d)|] == Render(d)
    ensures Search(s, p, hem) == Some(Groups(d))
  {
    MatchRendered(s, p, d, hem);
    SearchAtMatch(s, p, hem);
  }

  /** A search that starts on a match returns that match. */
  lemma SearchAtMatch(s: string, p: nat, hem: string)
    requires p <= |s| && MatchAt(s, p, hem).Some?
    ensures Search(s, p, hem) == MatchAt(s, p, hem)
  {
  }

  lemma SliceAfterSpace(A: string, B: string)
    ensures (A + " " + B)[|A| + 1..|A| + 1 + |B|] == B
  {
    MiddleSlice(A + " ", B, []);
    assert A + " " + B + [] == A + " " + B;
  }

  /**
   * In `first + " " + second`, searching for the hemispheres of `second`
   * skips all of `first` and finds `second`.
   */
  lemma SearchSecond(s: string, first: Dms, second: Dms, hem: string)
    requires first.tenths < 10 && second.tenths < 10
    requires first.hemisphere !in hem && second.hemisphere in hem
    requires !IsDigit(first.hemisphere)
    requires s == Render(first) + " " + Render(second)
    ensures Search(s, 0, hem) == Some(Groups(second))
  {
    RenderSkippable(first, hem);
    SearchAfterSpace(s, Render(first), second, hem);
    SearchSecondAt(s, Render(first), Render(second), Groups(second), hem);
  }

  lemma SearchSecondAt(s: string, A: string, B: string, m: DmsMatch, hem: string)
    requires s == A + " " + B && Skippable(A, hem)
    requires Search(s, |A| + 1, hem) == Some(m)
    ensures Search(s, 0, hem) == Some(m)
  {
    SkipFirst(s, A, B, hem);
  }

  /** The triple rendered after `A` and a space is found by a search starting there. */
  lemma SearchAfterSpace(s: string, A: string, d: Dms, hem: string)
    requires d.tenths < 10 && d.hemisphere in hem
    requires s == A + " " + Render(d)
    ensures Search(s, |A| + 1, hem) == Some(Groups(d))
  {
    SliceAfterSpace(A, Render(d));
    SearchRendered(s, |A| + 1, d, hem);
  }

  /** The triple at the front of `first + " " + second` is found at once. */
  lemma SearchFirst(s: string, first: Dms, second: Dms, hem: string)
    requires first.tenths < 10 && second.tenths < 10 && first.hemisphere in hem
    requires s == Render(first) + " " + Render(second)
    ensures Search(s, 0, hem) == Some(Groups(first))
  {
    assert s[0..|Render(first)|] == Render(first);
    MatchRendered(s, 0, first, hem);
  }

  lemma TrimRendered(s: string, first: Dms, second: Dms)
    requires first.tenths < 10 && second.tenths < 10
    requires !IsSpace(second.hemisphere)
    requires s == Render(first) + " " + Render(second)
    ensures Trim(s) == s
  {
    assert IsDigit(s[0]) by {
      assert s[0] == NatToString(first.degrees)[0];
    }
    assert TrimStart(s) == s;
    assert s[|s| - 1] == second.hemisphere;
  }

  /** The parser's result once both searches are known. */
  lemma ParseFromMatches(coord: string, lat: Dms, lng: Dms)
    requires lat.tenths < 10 && lng.tenths < 10
    requires lat.hemisphere in "NS" && lng.hemisphere in "EW"
    requires Trim(coord) == coord
    requires Search(coord, 0, "NS") == Some(Groups(lat))
    requires Search(coord, 0, "EW") == Some(Groups(lng))
    ensures ParseGpsCoordinate(coord) == Success(GeoCoord(Signed(lat), Signed(lng)))
  {
    HemisphereValue(lat, 'S');
    HemisphereValue(lng, 'W');
    ParseOfSearches(coord, Groups(lat), Groups(lng));
  }

  /** The parser's result in terms of the two matches it finds. */
  lemma ParseOfSearches(coord: string, lm: DmsMatch, gm: DmsMatch)
    requires Trim(coord) == coord
    requires Search(coord, 0, "NS") == Some(lm) && Search(coord, 0, "EW") == Some(gm)
    requires AllDigits(lm.degrees) && AllDigits(lm.minutes) && AllDigits(gm.degrees) && AllDigits(gm.minutes)
    requires MatchDegrees(lm).Some? && MatchDegrees(gm).Some?
    ensures ParseGpsCoordinate(coord) ==
      Success(GeoCoord(if lm.hemisphere == 'S' then -MatchDegrees(lm).value else MatchDegrees(lm).value,
                       if gm.hemisphere == 'W' then -MatchDegrees(gm).value else MatchDegrees(gm).value))
  {
  }

  /**
   * A component's groups read back as its signed value, when `negative` is
   * the one letter of its class (S or W) that turns the sign.
   */
  lemma HemisphereValue(d: Dms, negative: char)
    requires d.tenths < 10 && negative in "SW"
    requires d.hemisphere == negative || d.hemisphere !in "SW"
    ensures var m := Groups(d);
      MatchDegrees(m).Some? && (if m.hemisphere == negative then -MatchDegrees(m).value else MatchDegrees(m).value) == Signed(d)
  {
    MatchDegreesRendered(d);
  }

  lemma HemisphereFacts(lat: Dms, lng: Dms)
    requires lat.hemisphere in "NS" && lng.hemisphere in "EW"
    ensures lat.hemisphere !in "EW" && lng.hemisphere !in "NS"
    ensures !IsDigit(lat.hemisphere) && !IsDigit(lng.hemisphere)
    ensures !IsSpace(lat.hemisphere) && !IsSpace(lng.hemisphere)
  {
    assert lat.hemisphere == 'N' || lat.hemisphere == 'S';
    assert lng.hemisphere == 'E' || lng.hemisphere == 'W';
  }

  lemma ParseLatFirst(coord: string, lat: Dms, lng: Dms)
    requires lat.tenths < 10 && lng.tenths < 10
    requires lat.hemisphere in "NS" && lng.hemisphere in "EW"
    requires coord == Render(lat) + " " + Render(lng)
    ensures ParseGpsCoordinate(coord) == Success(GeoCoord(Signed(lat), Signed(lng)))
  {
    HemisphereFacts(lat, lng);
    TrimRendered(coord, lat, lng);
    SearchFirst(coord, lat, lng, "NS");
    SearchSecond(coord, lat, lng, "EW");
    ParseFromMatches(coord, lat, lng);
  }

  lemma ParseLngFirst(coord: string, lat: Dms, lng: Dms)
    requires lat.tenths < 10 && lng.tenths < 10
    requires lat.hemisphere in "NS" && lng.hemisphere in "EW"
    requires coord == Render(lng) + " " + Render(lat)
    ensures ParseGpsCoordinate(coord) == Success(GeoCoord(Signed(lat), Signed(lng)))
  {
    HemisphereFacts(lat, lng);
    TrimRendered(coord, lng, lat);
    SearchFirst(coord, lng, lat, "EW");
    SearchSecond(coord, lng, lat, "NS");
    ParseFromMatches(coord, lat, lng);
  }

  /**
   * Parsing `lat lng` or `lng lat` gives the signed decimal degrees of both
   * triples: the two patterns are searched independently, so the order of
   * the parts does not matter, and minutes and seconds are not range-checked.
   */
  lemma ParseRendered(lat: Dms, lng: Dms)
    requires lat.tenths < 10 && lng.tenths < 10
    requires lat.hemisphere in "NS" && lng.hemisphere in "EW"
    ensures ParseGpsCoordinate(Render(lat) + " " + Render(lng)) == Success(GeoCoord(Signed(lat), Signed(lng)))
    ensures ParseGpsCoordinate(Render(lng) + " " + Render(lat)) == Success(GeoCoord(Signed(lat), Signed(lng)))
  {
    ParseLatFirst(Render(lat) + " " + Render(lng), lat, lng);
    ParseLngFirst(Render(lng) + " " + Render(lat), lat, lng);
  }

  lemma SampleTexts()
    ensures Render(Dms(24, 24, 10, 5, 'N')) == "24°24'10.5\"N"
    ensures Render(Dms(88, 37, 34, 7, 'E')) == "88°37'34.7\"E"
  {
    SampleLatText();
    SampleLngText();
  }

  lemma SampleLatText()
    ensures Render(Dms(24, 24, 10, 5, 'N')) == "24°24'10.5\"N"
  {
    assert NatToString(24) == "24";
    assert SecondsText(Dms(24, 24, 10, 5, 'N')) == "10.5" by {
      assert NatToString(10) == "10";
    }
  }

  lemma SampleLngText()
    ensures Render(Dms(88, 37, 34, 7, 'E')) == "88°37'34.7\"E"
  {
    assert NatToString(88) == "88";
    assert NatToString(37) == "37";
    assert SecondsText(Dms(88, 37, 34, 7, 'E')) == "34.7" by {
      assert NatToString(34) == "34";
    }
  }

  /** The calculator's default coordinate parses to 24°24'10.5"N, 88°37'34.7"E. */
  lemma SampleCoordinate(coord: string)
    requires coord == "24°24'10.5\"N 88°37'34.7\"E"
    ensures ParseGpsCoordinate(coord) ==
            Success(GeoCoord(24.0 + 24.0 / 60.0 + 10.5 / 3600.0, 88.0 + 37.0 / 60.0 + 34.7 / 3600.0))
  {
    var lat := Dms(24, 24, 10, 5, 'N');
    var lng := Dms(88, 37, 34, 7, 'E');
    SampleRendering(coord);
    ParseLatFirst(coord, lat, lng);
    SampleValues();
  }

  lemma SampleRendering(coord: string)
    requires coord == "24°24'10.5\"N 88°37'34.7\"E"
    ensures coord == Render(Dms(24, 24, 10, 5, 'N')) + " " + Render(Dms(88, 37, 34, 7, 'E'))
  {
    SampleTexts();
  }

  lemma SampleValues()
    ensures Signed(Dms(24, 24, 10, 5, 'N')) == 24.0 + 24.0 / 60.0 + 10.5 / 3600.0
    ensures Signed(Dms(88, 37, 34, 7, 'E')) == 88.0 + 37.0 / 60.0 + 34.7 / 3600.0
  {
  }
}
