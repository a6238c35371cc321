/**
 * A country (classes/country.ts): a named rectangle of cells on the map and the list of
 * cities created for it. Cities are indices into the map's arena (see module City).
 */
module Country {
  import opened Errors
  import Text
  import City

  /** Largest coordinate a country may use, zero-based (classes/country.ts:14). */
  const MaxCoordinate: int := 10
  /** Longest accepted country name, in UTF-16 code units (classes/country.ts:76). */
  const MaxNameLength: int := 25

  /** `CountryCoordinates`: lower-left and upper-right cell, both inclusive. */
  datatype Coordinates = Coordinates(xl: int, yl: int, xh: int, yh: int)

  predicate InBounds(coordinate: int)
  {
    0 <= coordinate <= MaxCoordinate
  }

  /**
   * `areCoordinatesValid` (classes/country.ts:34-50): all four coordinates in
   * `[0, MaxCoordinate]` and neither low/high pair inverted.
   */
  predicate AreCoordinatesValid(c: Coordinates)
  {
    InBounds(c.xl) && InBounds(c.yl) && InBounds(c.xh) && InBounds(c.yh) &&
    c.xl <= c.xh && c.yl <= c.yh
  }

  /** `isCompleted` over a snapshot of the arena: every city of the list is complete. */
  predicate AllCompleted(rows: seq<seq<int>>, cities: seq<nat>)
  {
    forall j :: 0 <= j < |cities| ==> cities[j] < |rows| && City.Completed(rows[cities[j]])
  }

  /**
   * Adding a city to a country keeps it complete exactly when the new city is complete;
   * a country without cities is complete.
   */
  lemma {:induction false} AllCompletedAppend(rows: seq<seq<int>>, cities: seq<nat>, city: nat)
    ensures AllCompleted(rows, [])
    ensures AllCompleted(rows, cities + [city]) <==>
              AllCompleted(rows, cities) && city < |rows| && City.Completed(rows[city])
  {
    var extended := cities + [city];
    assert extended[|cities|] == city;
    assert forall j :: 0 <= j < |cities| ==> extended[j] == cities[j];
  }

  class Country {
    const name: string
    const coordinates: Coordinates
    var cities: seq<nat>

    /** The constructor's success path (classes/country.ts:21-28). */
    constructor(name: string, coordinates: Coordinates)
      requires AreCoordinatesValid(coordinates)
      ensures this.name == name && this.coordinates == coordinates && cities == []
    {
      this.name := name;
      this.coordinates := coordinates;
      cities := [];
    }

    /** `addCity` (classes/country.ts:56-58): append at the end. */
    method AddCity(city: nat)
      modifies this
      ensures cities == old(cities) + [city]
    {
      cities := cities + [city];
    }

    /**
     * `isCompleted` (classes/country.ts:64-66), reading each city's `isCompleted()`; the
     * source reads a `completed` property instead (see `IsCompletedAsWritten`).
     */
    function IsCompleted(coins: array2<int>): (r: bool)
      reads this, coins
      ensures r <==> forall j :: 0 <= j < |cities| ==> cities[j] < coins.Length0 && City.IsCompleted(coins, cities[j])
    {
      AllCompleted(City.Rows(coins), cities)
    }
  }

  /**
   * `isCompleted` as written: `city.completed` is a property no City has, so each test
   * yields `undefined` and `every` is true only for a country without cities.
   */
  function IsCompletedAsWritten(cities: seq<nat>): bool
  {
    forall j :: 0 <= j < |cities| ==> Truthy(CompletedProperty(cities[j]))
  }

  /** Reading the missing `completed` property of a city: always `undefined`. */
  function CompletedProperty(city: nat): Option<bool>
  {
    None
  }

  /** JavaScript truthiness of an optional boolean (`undefined` is falsy). */
  predicate Truthy(v: Option<bool>)
  {
    v.Some? && v.value
  }

  /** A country whose only city holds a coin of every type is not complete as written. */
  lemma {:induction false} AsWrittenMissesCompletedCity()
    ensures AllCompleted([[1]], [0]) && !IsCompletedAsWritten([0])
  {
    assert City.Completed([1]);
    assert !Truthy(CompletedProperty([0][0]));
  }

  /**
   * `new Country(name, coordinates)`, including the throw for invalid coordinates
   * (classes/country.ts:21-28).
   */
  method NewCountry(name: string, coordinates: Coordinates) returns (r: Result<Country>)
    ensures r.Err? <==> !AreCoordinatesValid(coordinates)
    ensures r.Err? ==> r.error == InvalidCoordinates
    ensures r.Ok? ==> fresh(r.value) && r.value.name == name && r.value.coordinates == coordinates &&
                      r.value.cities == []
  {
    if !AreCoordinatesValid(coordinates) {
      return Err(InvalidCoordinates);
    }
    var country := new Country(name, coordinates);
    return Ok(country);
  }

  /** The i-th coordinate token read by `parseInt` and shifted to zero-based; `None` is NaN. */
  function CoordinateAt(tokens: seq<string>, i: nat): Option<int>
  {
    if i < |tokens| then
      match Text.ParseInt(tokens[i])
      case Some(v) => Some(v - 1)
      case None => None
    else None
  }

  /**
   * The values `parseCountryString` (classes/country.ts:73-82) passes to the constructor:
   * the first space-separated token is the name, whose JavaScript `length` (UTF-16 code
   * units) may be at most 25;
   * the next four tokens are one-based coordinates. A missing or non-numeric coordinate is
   * NaN and fails the constructor's validation.
   */
  function ParseCountryFields(line: string): (r: Result<(string, Coordinates)>)
    ensures r.Ok? ==> Text.Utf16Length(r.value.0) <= MaxNameLength && AreCoordinatesValid(r.value.1)
  {
    var parts := Text.Split(line, ' ');
    var name := parts[0];
    if Text.Utf16Length(name) > MaxNameLength then Err(NameTooLong)
    else
      var tokens := parts[1..];
      var xl, yl, xh, yh := CoordinateAt(tokens, 0), CoordinateAt(tokens, 1), CoordinateAt(tokens, 2), CoordinateAt(tokens, 3);
      if xl.Some? && yl.Some? && xh.Some? && yh.Some? &&
         AreCoordinatesValid(Coordinates(xl.value, yl.value, xh.value, yh.value))
      then Ok((name, Coordinates(xl.value, yl.value, xh.value, yh.value)))
      else Err(InvalidCoordinates)
  }

  /** `parseCountryString`: parse, then construct. */
  method ParseCountryString(line: string) returns (r: Result<Country>)
    ensures ParseCountryFields(line).Err? ==> r == Err(ParseCountryFields(line).error)
    ensures ParseCountryFields(line).Ok? ==>
              r.Ok? && fresh(r.value) && r.value.name == ParseCountryFields(line).value.0 &&
              r.value.coordinates == ParseCountryFields(line).value.1 && r.value.cities == []
  {
    var fields := ParseCountryFields(line);
    if fields.Err? {
      return Err(fields.error);
    }
    var country := new Country(fields.value.0, fields.value.1);
    return Ok(country);
  }

  /** The line `name xl yl xh yh` with the coordinates written in decimal. */
  function Line(name: string, xl: nat, yl: nat, xh: nat, yh: nat): string
  {
    Text.Join([name, Text.Decimal(xl), Text.Decimal(yl), Text.Decimal(xh), Text.Decimal(yh)], ' ')
  }

  /**
   * Parsing a well-formed line: a name over 25 UTF-16 code units is refused first; otherwise the
   * one-based coordinates are shifted down by one and accepted exactly when the shifted
   * rectangle is valid.
   */
  lemma {:induction false} ParseLine(name: string, xl: nat, yl: nat, xh: nat, yh: nat)
    requires ' ' !in name
    ensures ParseCountryFields(Line(name, xl, yl, xh, yh)) ==
              if Text.Utf16Length(name) > MaxNameLength then Err(NameTooLong)
              else if AreCoordinatesValid(Coordinates(xl - 1, yl - 1, xh - 1, yh - 1))
              then Ok((name, Coordinates(xl - 1, yl - 1, xh - 1, yh - 1)))
              else Err(InvalidCoordinates)
  {
    var parts := [name, Text.Decimal(xl), Text.Decimal(yl), Text.Decimal(xh), Text.Decimal(yh)];
    forall i, k | 1 <= i < 5 && 0 <= k < |parts[i]|
      ensures parts[i][k] != ' '
    {
      assert Text.IsDigit(parts[i][k]);
    }
    Text.SplitJoin(parts, ' ');
    Text.ParseDecimal(xl);
    Text.ParseDecimal(yl);
    Text.ParseDecimal(xh);
    Text.ParseDecimal(yh);
    assert parts[1..] == [Text.Decimal(xl), Text.Decimal(yl), Text.Decimal(xh), Text.Decimal(yh)];
  }

  /**
   * One-based input: a square `v v v v` is accepted exactly for 1 <= v <= 11, and a name
   * of exactly 25 UTF-16 code units passes the length check while 26 does not.
   */
  lemma {:induction false} ParseOneBasedRange(name: string, v: nat)
    requires ' ' !in name
    ensures Text.Utf16Length(name) <= MaxNameLength ==> (ParseCountryFields(Line(name, v, v, v, v)).Ok? <==> 1 <= v <= 11)
    ensures Text.Utf16Length(name) > MaxNameLength ==> ParseCountryFields(Line(name, v, v, v, v)) == Err(NameTooLong)
  {
    ParseLine(name, v, v, v, v);
  }

  /**
   * The length check counts UTF-16 code units: a name of thirteen or more characters
   * outside the Basic Multilingual Plane is refused even though it has fewer than 25
   * characters.
   */
  lemma AstralNameRefused(name: string, xl: nat, yl: nat, xh: nat, yh: nat)
    requires forall i :: 0 <= i < |name| ==> name[i] as int >= 0x1_0000
    requires |name| >= 13
    ensures ParseCountryFields(Line(name, xl, yl, xh, yh)) == Err(NameTooLong)
  {
    assert ' ' !in name by {
      forall i | 0 <= i < |name|
        ensures name[i] != ' '
      {
      }
    }
    Text.Utf16LengthAstral(name);
    ParseLine(name, xl, yl, xh, yh);
  }
}
