/**
 * The Bangladeshi land-unit table of the land-area calculator.  Every unit
 * is a fixed number of square feet, and one square metre is 10.764 square
 * feet.  Values are exact reals, before the display rounding.
 */
module LandUnits {

  /** One calculation result, in every unit the calculator shows. */
  datatype AreaResult = AreaResult(
    squareMeters: real,
    squareFeet: real,
    katha: real,
    bigha: real,
    acre: real,
    decimal: real,
    shotok: real,
    kani: real)

  const SquareFeetPerSquareMeter: real := 10.764
  const KathaSquareFeet: real := 720.0
  const DecimalSquareFeet: real := 435.6
  const BighaSquareFeet: real := 14400.0
  const AcreSquareFeet: real := 43560.0
  const KaniSquareFeet: real := 17280.0

  /**
   * The conversions of `calculateArea`: each unit, times its size in square
   * feet, gives back the area in square feet; a shotok is a decimal.
   */
  function Convert(squareMeters: real): (r: AreaResult)
    ensures r.squareMeters == squareMeters
    ensures r.squareFeet == squareMeters * SquareFeetPerSquareMeter
    ensures r.katha * KathaSquareFeet == r.squareFeet
    ensures r.decimal * DecimalSquareFeet == r.squareFeet
    ensures r.bigha * BighaSquareFeet == r.squareFeet
    ensures r.acre * AcreSquareFeet == r.squareFeet
    ensures r.kani * KaniSquareFeet == r.squareFeet
    ensures r.shotok == r.decimal
  {
    var squareFeet := squareMeters * 10.764;
    var decimal := squareFeet / 435.6;
    AreaResult(
      squareMeters,
      squareFeet,
      squareFeet / 720.0,
      squareFeet / 14400.0,
      squareFeet / 43560.0,
      decimal,
      decimal,
      squareFeet / 17280.0)
  }

  /** One bigha is twenty katha. */
  lemma KathaIsTwentyBigha(squareMeters: real)
    ensures Convert(squareMeters).katha == 20.0 * Convert(squareMeters).bigha
  {
  }

  /** One acre is a hundred decimal (and so a hundred shotok). */
  lemma DecimalIsHundredAcre(squareMeters: real)
    ensures Convert(squareMeters).decimal == 100.0 * Convert(squareMeters).acre
    ensures Convert(squareMeters).shotok == 100.0 * Convert(squareMeters).acre
  {
  }

  /**
   * The help text's "1 Kani = 40 Shotok" does not follow from the table:
   * 40 * 435.6 = 17424 square feet, not 17280, so the two differ for every
   * non-zero area.
   */
  lemma KaniIsNotFortyShotok(squareMeters: real)
    requires squareMeters != 0.0
    ensures Convert(squareMeters).kani != 40.0 * Convert(squareMeters).shotok
  {
    var r := Convert(squareMeters);
    assert r.squareFeet != 0.0;
    assert 40.0 * r.shotok * KaniSquareFeet == r.squareFeet * (40.0 * 17280.0 / 435.6);
  }

  /** Every unit scales linearly with the area, so a non-negative area stays non-negative. */
  lemma ConvertNonNegative(squareMeters: real)
    requires squareMeters >= 0.0
    ensures var r := Convert(squareMeters);
      r.squareFeet >= 0.0 && r.katha >= 0.0 && r.bigha >= 0.0 && r.acre >= 0.0 &&
      r.decimal >= 0.0 && r.shotok >= 0.0 && r.kani >= 0.0
  {
  }

  /** The 100 square metre sample is 1076.4 square feet, 1.495 katha and 2.4710... decimal. */
  lemma SampleSquareUnits()
    ensures var r := Convert(100.0);
      r.squareFeet == 1076.4 && r.katha == 1.495 && r.bigha == 0.07475 &&
      r.decimal == 1076.4 / 435.6 && r.kani == 1076.4 / 17280.0
  {
  }
}
