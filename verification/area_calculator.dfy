/**
 * The state of the land-area calculator component: the input mode, the
 * manual vertex list, the list of DMS coordinate strings, the last result and
 * the error message, with the edit operations and `calculateArea`.
 */
module AreaCalculator {
  import opened Wrappers
  import opened GpsParse
  import opened Shoelace
  import opened Projection
  import opened LandUnits

  datatype InputMode = Manual | Gps

  /** The coordinate field `updateCoordinate` writes. */
  datatype Field = X | Y

  /** The coordinate `addGpsCoordinate` appends. */
  const DefaultGpsCoordinate: string := "24°24'10.5\"N 88°37'34.7\"E"

  /** The eight coordinates `loadSample` puts in GPS mode. */
  const SampleGpsCoordinates: seq<string> := [
    "24°24'10.5\"N 88°37'34.7\"E",
    "24°24'11.9\"N 88°37'35.0\"E",
    "24°24'11.8\"N 88°37'36.1\"E",
    "24°24'15.0\"N 88°37'36.6\"E",
    "24°24'15.3\"N 88°37'33.3\"E",
    "24°24'13.9\"N 88°37'32.8\"E",
    "24°24'14.7\"N 88°37'29.3\"E",
    "24°24'11.4\"N 88°37'28.5\"E"
  ]

  const TooFewCoordinates: string := "At least 3 coordinates are required"
  const TooFewGpsCoordinates: string := "At least 3 GPS coordinates are required"

  function InvalidGps(coord: string): string {
    "Invalid GPS coordinate: " + coord
  }

  /** `list.filter((_, i) => i !== index)`. */
  function RemoveAt<T>(s: seq<T>, index: int): (r: seq<T>)
    ensures 0 <= index < |s| ==> r == s[..index] + s[index + 1..]
    ensures !(0 <= index < |s|) ==> r == s
    decreases |s|
  {
    if |s| == 0 then []
    else
      var rest := RemoveAt(s[1..], index - 1);
      if index == 0 then rest
      else
        assert 0 < index < |s| ==> s[1..][..index - 1] == s[1..index];
        [s[0]] + rest
  }

  /** The vertex with one field replaced. */
  function WithField(p: Point, field: Field, value: real): (q: Point)
    ensures field == X ==> q.x == value && q.y == p.y
    ensures field == Y ==> q.y == value && q.x == p.x
  {
    match field
    case X => p.(x := value)
    case Y => p.(y := value)
  }

  /**
   * The parsing loop of `calculateArea` over a coordinate parser: every
   * string parsed in order, or the error naming the first string that does
   * not parse.
   */
  function ParseAll(gps: seq<string>, parse: string -> Result<GeoCoord, string>)
    : (r: Result<seq<GeoCoord>, string>)
    ensures r.Success? ==> (|r.value| == |gps| &&
      forall i :: 0 <= i < |gps| ==> parse(gps[i]) == Success(r.value[i]))
    ensures r.Failure? ==>
      (exists k :: 0 <= k < |gps| && parse(gps[k]).Failure? &&
         (forall j :: 0 <= j < k ==> parse(gps[j]).Success?) &&
         r.error == InvalidGps(gps[k]))
    decreases |gps|
  {
    if |gps| == 0 then Success([])
    else match parse(gps[0])
      case Failure(_) => Failure(InvalidGps(gps[0]))
      case Success(c) =>
        match ParseAll(gps[1..], parse)
        case Failure(e) =>
          ghost var k :| 0 <= k < |gps[1..]| && parse(gps[1..][k]).Failure? &&
            (forall j :: 0 <= j < k ==> parse(gps[1..][j]).Success?) &&
            e == InvalidGps(gps[1..][k]);
          assert forall j :: 0 <= j < k + 1 ==> parse(gps[j]).Success? by {
            forall j | 0 <= j < k + 1 ensures parse(gps[j]).Success? {
              if j > 0 { assert gps[j] == gps[1..][j - 1]; }
            }
          }
          Failure(e)
        case Success(cs) =>
          var r := [c] + cs;
          assert forall i :: 0 < i < |gps| ==> gps[i] == gps[1..][i - 1] && r[i] == cs[i - 1];
          Success(r)
  }

  /** Every string parses exactly when the parsing loop succeeds. */
  lemma ParseAllSucceedsIff(gps: seq<string>, parse: string -> Result<GeoCoord, string>)
    ensures ParseAll(gps, parse).Success? <==> forall i :: 0 <= i < |gps| ==> parse(gps[i]).Success?
  {
    if ParseAll(gps, parse).Failure? {
      var k :| 0 <= k < |gps| && parse(gps[k]).Failure?;
    }
  }

  /** The parsing loop's error names the first string that does not parse. */
  lemma FirstFailure(gps: seq<string>, parse: string -> Result<GeoCoord, string>, k: nat)
    requires k < |gps| && parse(gps[k]).Failure?
    requires forall j :: 0 <= j < k ==> parse(gps[j]).Success?
    ensures ParseAll(gps, parse) == Failure(InvalidGps(gps[k]))
  {
    var r := ParseAll(gps, parse);
    ParseAllSucceedsIff(gps, parse);
    var k' :| 0 <= k' < |gps| && parse(gps[k']).Failure? &&
      (forall j :: 0 <= j < k' ==> parse(gps[j]).Success?) &&
      r.error == InvalidGps(gps[k']);
    assert k' == k;
  }

  /** When every string parses, the loop yields their values in order. */
  lemma AllParsed(gps: seq<string>, parse: string -> Result<GeoCoord, string>, cs: seq<GeoCoord>)
    requires |cs| == |gps| && forall i :: 0 <= i < |gps| ==> parse(gps[i]) == Success(cs[i])
    ensures ParseAll(gps, parse) == Success(cs)
  {
    ParseAllSucceedsIff(gps, parse);
    assert ParseAll(gps, parse).value == cs;
  }

  /**
   * What `calculateArea` produces from the state: the error it sets, or
   * the result in every unit.  The projection factors are parameters.
   */
  function Calculation(mode: InputMode, coordinates: seq<Point>, gpsCoordinates: seq<string>,
                       latFactor: real -> real, lngFactor: real -> real): Result<AreaResult, string>
  {
    match mode
    case Manual =>
      if |coordinates| < 3 then Failure(TooFewCoordinates)
      else Success(Convert(Area(coordinates)))
    case Gps => GpsOutcome(gpsCoordinates, ParseGpsCoordinate, latFactor, lngFactor)
  }

  /** The GPS branch of `calculateArea`, over the coordinate parser it calls. */
  function GpsOutcome(gps: seq<string>, parse: string -> Result<GeoCoord, string>,
                      latFactor: real -> real, lngFactor: real -> real): Result<AreaResult, string>
  {
    if |gps| < 3 then Failure(TooFewGpsCoordinates)
    else match ParseAll(gps, parse)
      case Failure(e) => Failure(e)
      case Success(cs) => Success(Convert(Area(GpsToMeters(cs, latFactor, lngFactor))))
  }

  /**
   * The count check comes first: with fewer than three inputs in the active
   * mode the calculation fails with the count message, whatever the inputs are.
   */
  lemma TooFewInputsFail(mode: InputMode, coordinates: seq<Point>, gpsCoordinates: seq<string>,
                         latFactor: real -> real, lngFactor: real -> real)
    ensures mode == Manual && |coordinates| < 3 ==>
      Calculation(mode, coordinates, gpsCoordinates, latFactor, lngFactor) == Failure(TooFewCoordinates)
    ensures mode == Gps && |gpsCoordinates| < 3 ==>
      Calculation(mode, coordinates, gpsCoordinates, latFactor, lngFactor) == Failure(TooFewGpsCoordinates)
  {
  }

  /**
   * In GPS mode with at least three strings, the first string that does not
   * parse is the one the error names, and no result is produced.
   */
  lemma FirstInvalidCoordinate(gps: seq<string>, parse: string -> Result<GeoCoord, string>,
                               latFactor: real -> real, lngFactor: real -> real, k: nat)
    requires |gps| >= 3 && k < |gps| && parse(gps[k]).Failure?
    requires forall j :: 0 <= j < k ==> parse(gps[j]).Success?
    ensures GpsOutcome(gps, parse, latFactor, lngFactor) == Failure(InvalidGps(gps[k]))
  {
    FirstFailure(gps, parse, k);
  }

  /**
   * When every string parses, the GPS result is the area of the projected
   * polygon: the degree-polygon area scaled by the two factors.
   */
  lemma GpsOutcomeArea(gps: seq<string>, parse: string -> Result<GeoCoord, string>, cs: seq<GeoCoord>,
                       latFactor: real -> real, lngFactor: real -> real)
    requires |gps| >= 3 && |cs| == |gps|
    requires forall i :: 0 <= i < |gps| ==> parse(gps[i]) == Success(cs[i])
    ensures GpsOutcome(gps, parse, latFactor, lngFactor) ==
      Success(Convert(Abs(lngFactor(AvgLat(cs)) * latFactor(AvgLat(cs))) * Area(Degrees(cs))))
  {
    AllParsed(gps, parse, cs);
    ProjectedArea(cs, latFactor, lngFactor);
  }

  /** The first |parsed| strings parse, to the values in `parsed`. */
  predicate ParsedPrefix(gps: seq<string>, parse: string -> Result<GeoCoord, string>, parsed: seq<GeoCoord>) {
    |parsed| <= |gps| && forall j :: 0 <= j < |parsed| ==> parse(gps[j]) == Success(parsed[j])
  }

  lemma ParsedPrefixPush(gps: seq<string>, parse: string -> Result<GeoCoord, string>, parsed: seq<GeoCoord>, v: GeoCoord)
    requires ParsedPrefix(gps, parse, parsed) && |parsed| < |gps| && parse(gps[|parsed|]) == Success(v)
    ensures ParsedPrefix(gps, parse, parsed + [v])
  {
  }

  /**
   * The parsing loop of `calculateArea`: parse each string in order, and stop
   * at the first one that does not parse.
   */
  method ParseCoordinates(gps: seq<string>) returns (r: Result<seq<GeoCoord>, string>)
    ensures r == ParseAll(gps, ParseGpsCoordinate)
  {
    var parsed: seq<GeoCoord> := [];
    for i := 0 to |gps|
      invariant |parsed| == i
      invariant ParsedPrefix(gps, ParseGpsCoordinate, parsed)
    {
      var coord := gps[i];
      var p := ParseGpsCoordinate(coord);
      if p.Failure? {
        FirstFailure(gps, ParseGpsCoordinate, i);
        return Failure(InvalidGps(coord));
      }
      ParsedPrefixPush(gps, ParseGpsCoordinate, parsed, p.value);
      parsed := parsed + [p.value];
    }
    AllParsed(gps, ParseGpsCoordinate, parsed);
    r := Success(parsed);
  }

  class Calculator {
    var mode: InputMode
    var coordinates: seq<Point>
    var gpsCoordinates: seq<string>
    var result: Option<AreaResult>
    var error: string

    /** The component's initial state: manual mode, nothing entered. */
    constructor()
      ensures mode == Manual && coordinates == [] && gpsCoordinates == []
      ensures result == None && error == ""
    {
      mode := Manual;
      coordinates := [];
      gpsCoordinates := [];
      result := None;
      error := "";
    }

    /** The two mode buttons: switch mode, clear the error and the result. */
    method SetMode(m: InputMode)
      modifies this
      ensures mode == m && error == "" && result == None
      ensures coordinates == old(coordinates) && gpsCoordinates == old(gpsCoordinates)
    {
      mode := m;
      error := "";
      result := None;
    }

    /** `addCoordinate`: append (0, 0) and clear the error; a result stays. */
    method AddCoordinate()
      modifies this
      ensures coordinates == old(coordinates) + [Point(0.0, 0.0)]
      ensures error == "" && result == old(result)
      ensures mode == old(mode) && gpsCoordinates == old(gpsCoordinates)
    {
      coordinates := coordinates + [Point(0.0, 0.0)];
      error := "";
    }

    /** `removeCoordinate`: drop exactly the vertex at `index` and clear the result. */
    method RemoveCoordinate(index: int)
      modifies this
      ensures coordinates == RemoveAt(old(coordinates), index)
      ensures result == None
      ensures mode == old(mode) && gpsCoordinates == old(gpsCoordinates) && error == old(error)
    {
      coordinates := RemoveAt(coordinates, index);
      result := None;
    }

    /** `updateCoordinate`: write one field of one vertex and clear the result. */
    method UpdateCoordinate(index: nat, field: Field, value: real)
      requires index < |coordinates|
      modifies this
      ensures |coordinates| == |old(coordinates)|
      ensures coordinates[index] == WithField(old(coordinates)[index], field, value)
      ensures forall i :: 0 <= i < |coordinates| && i != index ==> coordinates[i] == old(coordinates)[i]
      ensures result == None
      ensures mode == old(mode) && gpsCoordinates == old(gpsCoordinates) && error == old(error)
    {
      coordinates := coordinates[index := WithField(coordinates[index], field, value)];
      result := None;
    }

    /** `addGpsCoordinate`: append the default coordinate and clear the error. */
    method AddGpsCoordinate()
      modifies this
      ensures gpsCoordinates == old(gpsCoordinates) + [DefaultGpsCoordinate]
      ensures error == "" && result == old(result)
      ensures mode == old(mode) && coordinates == old(coordinates)
    {
      gpsCoordinates := gpsCoordinates + [DefaultGpsCoordinate];
      error := "";
    }

    /** `removeGpsCoordinate`: drop exactly the string at `index` and clear the result. */
    method RemoveGpsCoordinate(index: int)
      modifies this
      ensures gpsCoordinates == RemoveAt(old(gpsCoordinates), index)
      ensures result == None
      ensures mode == old(mode) && coordinates == old(coordinates) && error == old(error)
    {
      gpsCoordinates := RemoveAt(gpsCoordinates, index);
      result := None;
    }

    /** `updateGpsCoordinate`: replace the string at `index` and clear the result. */
    method UpdateGpsCoordinate(index: nat, value: string)
      requires index < |gpsCoordinates|
      modifies this
      ensures gpsCoordinates == old(gpsCoordinates)[index := value]
      ensures result == None
      ensures mode == old(mode) && coordinates == old(coordinates) && error == old(error)
    {
      gpsCoordinates := gpsCoordinates[index := value];
      result := None;
    }

    /** `loadSample`: the eight sample strings in GPS mode, the 10 m square otherwise. */
    method LoadSample()
      modifies this
      ensures error == "" && result == None && mode == old(mode)
      ensures mode == Gps ==> gpsCoordinates == SampleGpsCoordinates && coordinates == old(coordinates)
      ensures mode == Manual ==> coordinates == SampleSquare && gpsCoordinates == old(gpsCoordinates)
    {
      error := "";
      result := None;
      if mode == Gps {
        gpsCoordinates := SampleGpsCoordinates;
      } else {
        coordinates := SampleSquare;
      }
    }

    /** `clearAll`. */
    method ClearAll()
      modifies this
      ensures coordinates == [] && gpsCoordinates == [] && result == None && error == ""
      ensures mode == old(mode)
    {
      coordinates := [];
      gpsCoordinates := [];
      result := None;
      error := "";
    }

    /**
     * `calculateArea`: on failure the error is set and the previous result is
     * left as it was; on success the error is cleared and the result set.
     */
    method CalculateArea(latFactor: real -> real, lngFactor: real -> real)
      modifies this
      ensures var c := Calculation(mode, coordinates, gpsCoordinates, latFactor, lngFactor);
        && (c.Failure? ==> error == c.error && result == old(result))
        && (c.Success? ==> error == "" && result == Some(c.value))
      ensures mode == old(mode) && coordinates == old(coordinates) && gpsCoordinates == old(gpsCoordinates)
    {
      error := "";
      var areaInSquareMeters: real;
      if mode == Manual {
        if |coordinates| < 3 {
          error := TooFewCoordinates;
          return;
        }
        areaInSquareMeters := PolygonArea(coordinates);
      } else {
        if |gpsCoordinates| < 3 {
          error := TooFewGpsCoordinates;
          return;
        }
        var parsed := ParseCoordinates(gpsCoordinates);
        if parsed.Failure? {
          error := parsed.error;
          return;
        }
        var metersCoords := GpsToMeters(parsed.value, latFactor, lngFactor);
        areaInSquareMeters := PolygonArea(metersCoords);
      }
      result := Some(Convert(areaInSquareMeters));
    }
  }

  /** Loading the manual sample and calculating gives 100 square metres. */
  lemma SampleSquareCalculation(latFactor: real -> real, lngFactor: real -> real)
    ensures Calculation(Manual, SampleSquare, [], latFactor, lngFactor) == Success(Convert(100.0))
  {
    SampleSquareArea();
  }
}
