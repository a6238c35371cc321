/**
 * The map (src/classes/map.ts): the countries, the lookup from cells to cities, the bounding
 * box, the neighbour lists, and the day loop of the euro diffusion.
 *
 * Cities are rows of the two arena arrays `coins` and `cache` (see module City); a city's
 * country name and neighbour list are kept by the map, indexed by the city.
 */
module MapGrid {
  import opened Errors
  import City
  import Country
  import Geometry
  import Diffusion

  type Cell = Geometry.Cell

  /** The rectangles of the countries, in order. */
  function RectsOf(countries: seq<Country.Country>): seq<Country.Coordinates>
  {
    seq(|countries|, k requires 0 <= k < |countries| => countries[k].coordinates)
  }

  /** `coinTypes`: the countries' names, in order (src/classes/map.ts:71). */
  function NamesOf(countries: seq<Country.Country>): seq<string>
  {
    seq(|countries|, k requires 0 <= k < |countries| => countries[k].name)
  }

  /** The arena right after every city was created: its own coin type holds the initial count. */
  function InitialState(coinTypes: seq<string>, countryNames: seq<string>): City.State
  {
    City.State(
      seq(|countryNames|, c requires 0 <= c < |countryNames| =>
        City.InitialCoins(coinTypes, countryNames[c], City.InitialCoinsCount)),
      seq(|countryNames|, c => City.Zeros(|coinTypes|)))
  }

  /** Every city's cell is in the lookup, and the lookup maps each cell to a city placed on it. */
  predicate Indexes(grid: map<Cell, nat>, cells: seq<Cell>)
  {
    (forall c :: 0 <= c < |cells| ==> cells[c] in grid) &&
    (forall q :: q in grid ==> grid[q] < |cells| && cells[grid[q]] == q)
  }

  lemma {:induction false} IndexIndexes(cells: seq<Cell>)
    ensures Indexes(Geometry.Index(cells), cells)
  {
    Geometry.IndexMaps(cells);
    forall c | 0 <= c < |cells|
      ensures cells[c] in Geometry.Index(cells)
    {
      assert cells[c] in Geometry.Index(cells).Keys;
    }
  }

  /** City `c` is the one the lookup holds for its own cell (a later city on the same cell hides it). */
  predicate Live(grid: map<Cell, nat>, cells: seq<Cell>, c: nat)
    requires c < |cells|
  {
    cells[c] in grid && grid[cells[c]] == c
  }

  /** `p` comes before `(x, y)` in addNeighborsToCities' scan: x outer, y inner, both ascending. */
  predicate Scanned(p: Cell, x: int, y: int)
  {
    p.0 < x || (p.0 == x && p.1 < y)
  }

  /** The list addNeighborsToCities gives each city; a city the scan never reaches keeps `[]`. */
  function NeighborLists(grid: map<Cell, nat>, b: Geometry.Bounds, cells: seq<Cell>): (r: seq<seq<nat>>)
    ensures |r| == |cells|
  {
    seq(|cells|, c requires 0 <= c < |cells| =>
      if Live(grid, cells, c) then Geometry.NeighborList(grid, b, cells[c].0, cells[c].1) else [])
  }

  /** A city the scan reaches whose neighbour list comes out empty. */
  predicate Isolated(grid: map<Cell, nat>, b: Geometry.Bounds, cells: seq<Cell>, c: nat)
    requires c < |cells|
  {
    Live(grid, cells, c) && Geometry.NeighborList(grid, b, cells[c].0, cells[c].1) == []
  }

  /** City `c` is isolated and no isolated city comes before it in the scan. */
  predicate FirstIsolated(grid: map<Cell, nat>, b: Geometry.Bounds, cells: seq<Cell>, c: nat)
  {
    c < |cells| && Isolated(grid, b, cells, c) &&
    forall c' :: 0 <= c' < |cells| && Isolated(grid, b, cells, c') ==> !Scanned(cells[c'], cells[c].0, cells[c].1)
  }

  /**
   * The map the rectangles `rects` make is refused: there is more than one country and some
   * city the scan reaches has no neighbour.
   */
  predicate Disconnected(rects: seq<Country.Coordinates>)
  {
    var cells := Geometry.AllCells(rects);
    |rects| > 1 && exists c :: 0 <= c < |cells| && Isolated(Geometry.Index(cells), Geometry.BoundsOf(rects), cells, c)
  }

  /** Every entry of `s` is below `n`. */
  predicate Below(s: seq<nat>, n: nat)
  {
    forall j :: 0 <= j < |s| ==> s[j] < n
  }

  lemma {:induction false} BelowConcat(a: seq<nat>, b: seq<nat>, n: nat)
    requires Below(a, n) && Below(b, n)
    ensures Below(a + b, n)
  {
    forall j | 0 <= j < |a + b|
      ensures (a + b)[j] < n
    {
      if j >= |a| {
        assert (a + b)[j] == b[j - |a|];
      }
    }
  }

  /** A neighbour list holds only what the lookup holds. */
  lemma {:induction false} NeighborListBelow(grid: map<Cell, nat>, b: Geometry.Bounds, x: int, y: int, n: nat)
    requires forall q :: q in grid ==> grid[q] < n
    ensures Below(Geometry.NeighborList(grid, b, x, y), n)
  {
    var right := Geometry.Probe(grid, x + 1 <= b.maxX, (x + 1, y));
    var left := Geometry.Probe(grid, x - 1 >= b.minY, (x - 1, y));
    var up := Geometry.Probe(grid, y + 1 <= b.maxY, (x, y + 1));
    var down := Geometry.Probe(grid, y - 1 >= b.minY, (x, y - 1));
    BelowConcat(right, left, n);
    BelowConcat(right + left, up, n);
    BelowConcat(right + left + up, down, n);
  }

  /** The lookup names only cities, so every neighbour list does. */
  lemma {:induction false} NeighborListsInRange(cells: seq<Cell>, b: Geometry.Bounds)
    ensures forall c :: 0 <= c < |cells| ==> Below(NeighborLists(Geometry.Index(cells), b, cells)[c], |cells|)
  {
    var grid := Geometry.Index(cells);
    Geometry.IndexMaps(cells);
    var lists := NeighborLists(grid, b, cells);
    forall c | 0 <= c < |cells|
      ensures Below(lists[c], |cells|)
    {
      NeighborListBelow(grid, b, cells[c].0, cells[c].1, |cells|);
    }
  }

  /**
   * The scan has reached `(x, y)`: each city whose cell comes earlier has the list the scan
   * gives it, every other city none, and, when `several` countries take part, no earlier
   * city was found isolated.
   */
  predicate LinkedUpTo(neighbors: seq<seq<nat>>, grid: map<Cell, nat>, b: Geometry.Bounds, cells: seq<Cell>,
                       several: bool, x: int, y: int)
  {
    var lists := NeighborLists(grid, b, cells);
    |neighbors| == |cells| &&
    (forall c :: 0 <= c < |cells| ==> neighbors[c] == if Scanned(cells[c], x, y) then lists[c] else []) &&
    (several ==> forall c :: 0 <= c < |cells| && Scanned(cells[c], x, y) ==> !Isolated(grid, b, cells, c))
  }

  /** Every city has either no list yet or the one the scan gives it. */
  predicate PartlyLinked(neighbors: seq<seq<nat>>, grid: map<Cell, nat>, b: Geometry.Bounds, cells: seq<Cell>)
  {
    |neighbors| == |cells| &&
    forall c :: 0 <= c < |cells| ==> neighbors[c] == [] || neighbors[c] == NeighborLists(grid, b, cells)[c]
  }

  /** Lists that are empty or the scan's own hold only cities. */
  lemma {:induction false} PartlyLinkedInRange(neighbors: seq<seq<nat>>, cells: seq<Cell>, b: Geometry.Bounds)
    requires PartlyLinked(neighbors, Geometry.Index(cells), b, cells)
    ensures forall c, j :: 0 <= c < |neighbors| && 0 <= j < |neighbors[c]| ==> neighbors[c][j] < |cells|
  {
    var lists := NeighborLists(Geometry.Index(cells), b, cells);
    NeighborListsInRange(cells, b);
    forall c, j | 0 <= c < |neighbors| && 0 <= j < |neighbors[c]|
      ensures neighbors[c][j] < |cells|
    {
      assert Below(lists[c], |cells|) && neighbors[c] == lists[c];
    }
  }

  /** Before the first cell of the box nothing is scanned: a map whose cities have no list yet is at the start. */
  lemma {:induction false} ScanStart(neighbors: seq<seq<nat>>, grid: map<Cell, nat>, b: Geometry.Bounds,
                                     cells: seq<Cell>, several: bool)
    requires |neighbors| == |cells| && forall c :: 0 <= c < |cells| ==> neighbors[c] == []
    requires forall c :: 0 <= c < |cells| ==> Geometry.WithinBounds(b, cells[c])
    ensures LinkedUpTo(neighbors, grid, b, cells, several, b.minX, b.minY)
  {
    forall c | 0 <= c < |cells|
      ensures !Scanned(cells[c], b.minX, b.minY)
    {
      assert Geometry.WithinBounds(b, cells[c]);
    }
  }

  /** A cell no city occupies moves the scan on without any change. */
  lemma {:induction false} SkipCell(neighbors: seq<seq<nat>>, grid: map<Cell, nat>, b: Geometry.Bounds,
                                    cells: seq<Cell>, several: bool, x: int, y: int)
    requires Indexes(grid, cells) && (x, y) !in grid
    requires LinkedUpTo(neighbors, grid, b, cells, several, x, y)
    ensures LinkedUpTo(neighbors, grid, b, cells, several, x, y + 1)
  {
    forall c | 0 <= c < |cells|
      ensures Scanned(cells[c], x, y + 1) == Scanned(cells[c], x, y)
    {
      assert cells[c] in grid;
    }
  }

  /** An occupied cell whose list is not refused gives its city that list, and the scan moves on. */
  lemma {:induction false} LinkStep(neighbors: seq<seq<nat>>, grid: map<Cell, nat>, b: Geometry.Bounds,
                                    cells: seq<Cell>, several: bool, x: int, y: int)
    requires (x, y) in grid && grid[(x, y)] < |cells| && cells[grid[(x, y)]] == (x, y)
    requires LinkedUpTo(neighbors, grid, b, cells, several, x, y)
    requires several ==> Geometry.NeighborList(grid, b, x, y) != []
    ensures LinkedUpTo(neighbors[grid[(x, y)] := Geometry.NeighborList(grid, b, x, y)], grid, b, cells, several, x, y + 1)
  {
    LinkLists(neighbors, grid, b, cells, several, x, y);
    LinkKeepsConnected(neighbors, grid, b, cells, several, x, y);
  }

  /** Storing the list of the city at `(x, y)` extends the lists of the scanned cities by that one. */
  lemma {:induction false} LinkLists(neighbors: seq<seq<nat>>, grid: map<Cell, nat>, b: Geometry.Bounds,
                                     cells: seq<Cell>, several: bool, x: int, y: int)
    requires (x, y) in grid && grid[(x, y)] < |cells| && cells[grid[(x, y)]] == (x, y)
    requires LinkedUpTo(neighbors, grid, b, cells, several, x, y)
    ensures var updated := neighbors[grid[(x, y)] := Geometry.NeighborList(grid, b, x, y)];
      |updated| == |cells| &&
      forall c :: 0 <= c < |cells| ==>
        updated[c] == if Scanned(cells[c], x, y + 1) then NeighborLists(grid, b, cells)[c] else []
  {
    var city := grid[(x, y)];
    var lists := NeighborLists(grid, b, cells);
    assert Live(grid, cells, city);
    forall c | 0 <= c < |cells| && c != city && cells[c] == (x, y)
      ensures lists[c] == []
    {
      assert !Live(grid, cells, c);
    }
    ScanExtends(neighbors, lists, cells, x, y, city, Geometry.NeighborList(grid, b, x, y));
  }

  /** Storing `v` at the one index `city` among those at `(x, y)` moves the scanned prefix past `(x, y)`. */
  lemma {:induction false} ScanExtends(neighbors: seq<seq<nat>>, lists: seq<seq<nat>>, cells: seq<Cell>,
                                       x: int, y: int, city: nat, v: seq<nat>)
    requires |neighbors| == |cells| == |lists| && city < |cells| && cells[city] == (x, y) && lists[city] == v
    requires forall c :: 0 <= c < |cells| ==> neighbors[c] == if Scanned(cells[c], x, y) then lists[c] else []
    requires forall c :: 0 <= c < |cells| && c != city && cells[c] == (x, y) ==> lists[c] == []
    ensures forall c :: 0 <= c < |cells| ==>
      neighbors[city := v][c] == if Scanned(cells[c], x, y + 1) then lists[c] else []
  {
    forall c | 0 <= c < |cells|
      ensures neighbors[city := v][c] == if Scanned(cells[c], x, y + 1) then lists[c] else []
    {
      if c != city && cells[c] == (x, y) {
      }
    }
  }

  /** A city whose list is not empty is not isolated, so the scan still has met no isolated city. */
  lemma {:induction false} LinkKeepsConnected(neighbors: seq<seq<nat>>, grid: map<Cell, nat>, b: Geometry.Bounds,
                                              cells: seq<Cell>, several: bool, x: int, y: int)
    requires (x, y) in grid && grid[(x, y)] < |cells| && cells[grid[(x, y)]] == (x, y)
    requires LinkedUpTo(neighbors, grid, b, cells, several, x, y)
    requires several ==> Geometry.NeighborList(grid, b, x, y) != []
    ensures several ==> forall c :: 0 <= c < |cells| && Scanned(cells[c], x, y + 1) ==> !Isolated(grid, b, cells, c)
  {
    var city := grid[(x, y)];
    forall c | 0 <= c < |cells| && several && Scanned(cells[c], x, y + 1)
      ensures !Isolated(grid, b, cells, c)
    {
      if Scanned(cells[c], x, y) {
      } else if c == city {
        assert cells[c] == (x, y);
      } else {
        assert cells[c] == (x, y) && !Live(grid, cells, c);
      }
    }
  }

  /** With several countries, an empty list at an occupied `(x, y)` marks the first isolated city of the scan. */
  lemma {:induction false} FoundIsolated(neighbors: seq<seq<nat>>, grid: map<Cell, nat>, b: Geometry.Bounds,
                                         cells: seq<Cell>, x: int, y: int)
    requires (x, y) in grid && grid[(x, y)] < |cells| && cells[grid[(x, y)]] == (x, y)
    requires LinkedUpTo(neighbors, grid, b, cells, true, x, y)
    requires Geometry.NeighborList(grid, b, x, y) == []
    ensures FirstIsolated(grid, b, cells, grid[(x, y)])
  {
    assert Live(grid, cells, grid[(x, y)]);
  }

  /** Part way through, every list is either still empty or final. */
  lemma {:induction false} LinkedPartly(neighbors: seq<seq<nat>>, grid: map<Cell, nat>, b: Geometry.Bounds,
                                        cells: seq<Cell>, several: bool, x: int, y: int)
    requires LinkedUpTo(neighbors, grid, b, cells, several, x, y)
    ensures PartlyLinked(neighbors, grid, b, cells)
  {
    forall c | 0 <= c < |cells|
      ensures neighbors[c] == [] || neighbors[c] == NeighborLists(grid, b, cells)[c]
    {
      if Scanned(cells[c], x, y) {
        assert neighbors[c] == NeighborLists(grid, b, cells)[c];
      }
    }
  }

  /** A finished column continues at the bottom of the next one. */
  lemma {:induction false} NextColumn(neighbors: seq<seq<nat>>, grid: map<Cell, nat>, b: Geometry.Bounds,
                                      cells: seq<Cell>, several: bool, x: int, next: int)
    requires LinkedUpTo(neighbors, grid, b, cells, several, x, b.maxY + 1) && next == x + 1
    requires forall c :: 0 <= c < |cells| ==> Geometry.WithinBounds(b, cells[c])
    ensures LinkedUpTo(neighbors, grid, b, cells, several, next, b.minY)
  {
    forall c | 0 <= c < |cells|
      ensures Scanned(cells[c], x, b.maxY + 1) == Scanned(cells[c], next, b.minY)
    {
      assert Geometry.WithinBounds(b, cells[c]);
    }
  }

  /** Past the last column every city has its list and, with several countries, none is isolated. */
  lemma {:induction false} ScanComplete(neighbors: seq<seq<nat>>, grid: map<Cell, nat>, b: Geometry.Bounds,
                                        cells: seq<Cell>, several: bool)
    requires LinkedUpTo(neighbors, grid, b, cells, several, b.maxX + 1, b.minY)
    requires forall c :: 0 <= c < |cells| ==> Geometry.WithinBounds(b, cells[c])
    ensures neighbors == NeighborLists(grid, b, cells)
    ensures several ==> forall c :: 0 <= c < |cells| ==> !Isolated(grid, b, cells, c)
  {
    forall c | 0 <= c < |cells|
      ensures Scanned(cells[c], b.maxX + 1, b.minY)
    {
      assert Geometry.WithinBounds(b, cells[c]);
    }
  }

  /** The cities of country `k`: one per cell of its rectangle, numbered after the earlier countries' cities. */
  function CityRange(rects: seq<Country.Coordinates>, k: nat): seq<nat>
    requires k < |rects|
  {
    Diffusion.Range(Geometry.Start(rects, k), Geometry.Start(rects, k + 1))
  }

  /** Every city of the list exists and has `name` as its country name. */
  predicate NamedAs(countryNames: seq<string>, cities: seq<nat>, name: string)
  {
    forall j :: 0 <= j < |cities| ==> cities[j] < |countryNames| && countryNames[cities[j]] == name
  }

  /** The first city of each country, followed by the number of cities. */
  function StartsOf(rects: seq<Country.Coordinates>): (r: seq<nat>)
    ensures |r| == |rects| + 1
  {
    seq(|rects| + 1, k requires 0 <= k <= |rects| => Geometry.Start(rects, k))
  }

  /** The countries split the cities `0 .. |AllCells(rects)| - 1` into consecutive blocks, in order. */
  lemma {:induction false} StartsInOrder(rects: seq<Country.Coordinates>)
    ensures StartsOf(rects)[0] == 0 && StartsOf(rects)[|rects|] == |Geometry.AllCells(rects)|
    ensures forall i, j :: 0 <= i <= j <= |rects| ==> StartsOf(rects)[i] <= StartsOf(rects)[j]
    ensures forall k :: 0 <= k < |rects| ==> Diffusion.Range(StartsOf(rects)[k], StartsOf(rects)[k + 1]) == CityRange(rects, k)
  {
    Geometry.StartAll(rects);
    forall i, j | 0 <= i <= j <= |rects|
      ensures StartsOf(rects)[i] <= StartsOf(rects)[j]
    {
      Geometry.StartMonotone(rects, i, j);
    }
  }


  /** The constructor's `forEach` over the countries (src/classes/map.ts:42-53): the bounds start at the origin and grow. */
  method FindBounds(countries: seq<Country.Country>) returns (b: Geometry.Bounds)
    ensures b == Geometry.BoundsOf(RectsOf(countries))
  {
    ghost var rects := RectsOf(countries);
    b := Geometry.Bounds(0, 0, 0, 0);
    for k := 0 to |countries|
      invariant b == Geometry.BoundsOf(rects[..k])
    {
      b := Geometry.Extend(b, countries[k].coordinates);
      assert rects[..k + 1][..k] == rects[..k];
    }
    assert rects[..|countries|] == rects;
  }

  class MapGrid {
    const countries: seq<Country.Country>
    var countriesGrid: map<Cell, nat>
    var minX: int
    var minY: int
    var maxX: int
    var maxY: int
    /** Each city's `countryName`. */
    var countryNames: seq<string>
    /** Each city's `neighbors`. */
    var neighbors: seq<seq<nat>>
    /** Each city's `coins` and `cache`, one row per city. */
    const coins: array2<int>
    const cache: array2<int>

    function Bounds(): Geometry.Bounds
      reads this`minX, this`minY, this`maxX, this`maxY
    {
      Geometry.Bounds(minX, minY, maxX, maxY)
    }

    /** The cell of every city, in creation order. */
    function Cells(): seq<Cell>
    {
      Geometry.AllCells(RectsOf(countries))
    }

    function Net(): Diffusion.Net
      reads this`neighbors
    {
      Diffusion.Net(neighbors, City.RepresentativePortion, StartsOf(RectsOf(countries)), NamesOf(countries))
    }

    function Snapshot(): City.State
      requires City.Arena(coins, cache)
      reads coins, cache
    {
      City.Snapshot(coins, cache)
    }

    /**
     * One row per city and one column per country; country `k` owns the cities of
     * `CityRange(k)`, which carry its name; the bounds are those the constructor computes;
     * every neighbour is a city.
     */
    ghost predicate Valid()
      reads this`minX, this`minY, this`maxX, this`maxY, this`countryNames, this`neighbors, countries
    {
      var rects := RectsOf(countries);
      var n := |Geometry.AllCells(rects)|;
      City.Arena(coins, cache) && coins.Length0 == n && coins.Length1 == |countries| &&
      Bounds() == Geometry.BoundsOf(rects) &&
      |countryNames| == n &&
      Diffusion.Wired(Net(), n) &&
      (forall k :: 0 <= k < |countries| ==> countries[k].cities == CityRange(rects, k)) &&
      (forall k :: 0 <= k < |countries| ==> NamedAs(countryNames, countries[k].cities, countries[k].name))
    }

    /**
     * The constructor up to `addNeighborsToCities` (src/classes/map.ts:40-55): the bounds
     * are found, then the cities are created; every city starts with its own coin type full,
     * an empty buffer and no neighbour.
     */
    constructor(countries: seq<Country.Country>)
      requires forall k :: 0 <= k < |countries| ==>
                 Country.AreCoordinatesValid(countries[k].coordinates) && countries[k].cities == []
      requires forall j, k :: 0 <= j < k < |countries| ==> countries[j] != countries[k]
      modifies countries
      ensures this.countries == countries && Laid() && countriesGrid == Geometry.Index(Cells())
      ensures |neighbors| == |Cells()| && forall c :: 0 <= c < |neighbors| ==> neighbors[c] == []
      ensures Snapshot() == InitialState(NamesOf(countries), countryNames)
      ensures fresh(coins) && fresh(cache)
    {
      var b := FindBounds(countries);
      var n := |Geometry.AllCells(RectsOf(countries))|;
      this.countries := countries;
      minX, minY, maxX, maxY := b.minX, b.minY, b.maxX, b.maxY;
      countriesGrid := map[];
      countryNames := [];
      neighbors := [];
      coins := new int[n, |countries|];
      cache := new int[n, |countries|];
      new;
      AddCitiesToCountries();
      CreatedLaid();
    }

    /** Once every country has its cities, the map is laid out and every city is at its initial counters. */
    lemma {:induction false} CreatedLaid()
      requires City.Arena(coins, cache) && coins.Length0 == |Cells()| && coins.Length1 == |countries|
      requires Bounds() == Geometry.BoundsOf(RectsOf(countries)) && |countryNames| == |Cells()|
      requires forall k :: 0 <= k < |countries| ==> countries[k].cities == CityRange(RectsOf(countries), k)
      requires forall k :: 0 <= k < |countries| ==> NamedAs(countryNames, countries[k].cities, countries[k].name)
      requires Initialized(NamesOf(countries))
      ensures Laid() && Snapshot() == InitialState(NamesOf(countries), countryNames)
    {
      InitializedSnapshot(NamesOf(countries));
    }

    /** `Valid` without the neighbour lists: what the scan of `addNeighborsToCities` leaves untouched. */
    ghost predicate Laid()
      reads this`minX, this`minY, this`maxX, this`maxY, this`countryNames, countries
    {
      var rects := RectsOf(countries);
      var n := |Geometry.AllCells(rects)|;
      City.Arena(coins, cache) && coins.Length0 == n && coins.Length1 == |countries| &&
      Bounds() == Geometry.BoundsOf(rects) &&
      |countryNames| == n &&
      (forall k :: 0 <= k < |countries| ==> countries[k].cities == CityRange(rects, k)) &&
      (forall k :: 0 <= k < |countries| ==> NamedAs(countryNames, countries[k].cities, countries[k].name))
    }

    /** The cities of each country carry its name. */
    lemma LaidNames()
      requires Laid()
      ensures forall k :: 0 <= k < |countries| ==>
                NamedAs(countryNames, CityRange(RectsOf(countries), k), countries[k].name)
    {
    }

    /** Any lists naming cities only, one per city, complete a laid-out map. */
    lemma {:induction false} LaidIsValid()
      requires Laid() && |neighbors| == |Cells()|
      requires forall c, j :: 0 <= c < |neighbors| && 0 <= j < |neighbors[c]| ==> neighbors[c][j] < |Cells()|
      ensures Valid()
    {
      StartsInOrder(RectsOf(countries));
    }

    /**
     * The state the constructor leaves (src/classes/map.ts:40-57): valid, every cell in the
     * lookup, the neighbour lists the scan gives and every city at its initial counters.
     */
    ghost predicate Built()
      reads this, countries, coins, cache
    {
      Valid() && countriesGrid == Geometry.Index(Cells()) &&
      neighbors == NeighborLists(countriesGrid, Bounds(), Cells()) &&
      Snapshot() == InitialState(NamesOf(countries), countryNames)
    }

    lemma {:induction false} LaidIsBuilt()
      requires Laid() && countriesGrid == Geometry.Index(Cells())
      requires neighbors == NeighborLists(countriesGrid, Bounds(), Cells())
      requires Snapshot() == InitialState(NamesOf(countries), countryNames)
      ensures Built()
    {
      NeighborListsInRange(Cells(), Bounds());
      LaidIsValid();
    }

    /** Every city created so far has its initial counters: its own coin type full, the cache empty. */
    ghost predicate Initialized(coinTypes: seq<string>)
      reads this`countryNames, coins, cache
    {
      |countryNames| <= coins.Length0 && |countryNames| <= cache.Length0 &&
      forall i :: 0 <= i < |countryNames| ==>
        City.Rows(coins)[i] == City.InitialCoins(coinTypes, countryNames[i], City.InitialCoinsCount) &&
        City.Rows(cache)[i] == City.Zeros(|coinTypes|)
    }

    lemma {:induction false} InitializedSnapshot(coinTypes: seq<string>)
      requires City.Arena(coins, cache) && |countryNames| == coins.Length0 && Initialized(coinTypes)
      ensures Snapshot() == InitialState(coinTypes, countryNames)
    {
      assert City.Rows(coins) == InitialState(coinTypes, countryNames).coins;
      assert City.Rows(cache) == InitialState(coinTypes, countryNames).cache;
    }

    /**
     * Countries `0 .. k - 1` have their cities: one per cell of `AllCells(rects[..k])`, in
     * the lookup, named after their country and initialized; the later countries have none.
     */
    ghost predicate Added(k: nat, coinTypes: seq<string>)
      reads this`countriesGrid, this`countryNames, this`neighbors, countries, coins, cache
    {
      var rects := RectsOf(countries);
      k <= |countries| && |countryNames| == Geometry.Start(rects, k) &&
      countriesGrid == Geometry.Index(Geometry.AllCells(rects[..k])) &&
      |neighbors| == |countryNames| && (forall c :: 0 <= c < |neighbors| ==> neighbors[c] == []) &&
      (forall k' :: 0 <= k' < |countries| ==> countries[k'].cities == if k' < k then CityRange(rects, k') else []) &&
      (forall k' :: 0 <= k' < k ==> NamedAs(countryNames, countries[k'].cities, countries[k'].name)) &&
      Initialized(coinTypes)
    }

    /**
     * `addCitiesToCountries` (src/classes/map.ts:70-81): country after country, a new city
     * is created for every cell of the country's rectangle, with that country as home, set in
     * the lookup and appended to the country's cities.
     */
    method AddCitiesToCountries()
      requires City.Arena(coins, cache) && coins.Length0 == |Cells()| && coins.Length1 == |countries|
      requires forall k :: 0 <= k < |countries| ==>
                 Country.AreCoordinatesValid(countries[k].coordinates) && countries[k].cities == []
      requires forall j, k :: 0 <= j < k < |countries| ==> countries[j] != countries[k]
      requires countriesGrid == map[] && countryNames == [] && neighbors == []
      modifies this`countriesGrid, this`countryNames, this`neighbors, coins, cache, countries
      ensures countriesGrid == Geometry.Index(Cells())
      ensures |countryNames| == |Cells()| && |neighbors| == |countryNames|
      ensures forall c :: 0 <= c < |neighbors| ==> neighbors[c] == []
      ensures forall k :: 0 <= k < |countries| ==> countries[k].cities == CityRange(RectsOf(countries), k)
      ensures forall k :: 0 <= k < |countries| ==> NamedAs(countryNames, countries[k].cities, countries[k].name)
      ensures Initialized(NamesOf(countries))
    {
      var coinTypes := NamesOf(countries);
      ghost var rects := RectsOf(countries);
      var k := 0;
      while k < |countries|
        invariant k <= |countries| && Added(k, coinTypes)
      {
        k := AddCountry(k, coinTypes);
      }
      Geometry.StartAll(rects);
    }

    /**
     * The callback of addCitiesToCountries' `forEach` for country `k` (src/classes/map.ts:72-80):
     * its cities take the indices after those of the earlier countries.
     */
    method AddCountry(k: nat, coinTypes: seq<string>) returns (next: nat)
      requires k < |countries| && coinTypes == NamesOf(countries)
      requires City.Arena(coins, cache) && coins.Length0 == |Cells()| && coins.Length1 == |countries|
      requires forall k :: 0 <= k < |countries| ==> Country.AreCoordinatesValid(countries[k].coordinates)
      requires forall j, k :: 0 <= j < k < |countries| ==> countries[j] != countries[k]
      requires Added(k, coinTypes)
      modifies this`countriesGrid, this`countryNames, this`neighbors, coins, cache, countries[k]
      ensures next == k + 1 && Added(next, coinTypes)
    {
      Distinct(countries, k);
      ghost var rects := RectsOf(countries);
      ghost var before := countryNames;
      ghost var first := |countryNames|;
      assert Placing(Geometry.AllCells(rects[..k]), first, countries[k], coinTypes);
      AddCitiesOfCountry(k, coinTypes, first);
      AddedNext(k, coinTypes, before);
      next := k + 1;
    }

    /** Once country `k` has its cities, the first `k + 1` countries are added. */
    lemma {:induction false} AddedNext(k: nat, coinTypes: seq<string>, before: seq<string>)
      requires k < |countries| && |before| == Geometry.Start(RectsOf(countries), k)
      requires Placing(Geometry.AllCells(RectsOf(countries)[..k + 1]), |before|, countries[k], coinTypes)
      requires forall i :: 0 <= i < |before| ==> countryNames[i] == before[i]
      requires forall k' :: 0 <= k' < |countries| && k' != k ==>
                 countries[k'].cities == if k' < k then CityRange(RectsOf(countries), k') else []
      requires forall k' :: 0 <= k' < k ==> NamedAs(before, countries[k'].cities, countries[k'].name)
      ensures Added(k + 1, coinTypes)
    {
      ghost var rects := RectsOf(countries);
      assert countries[k].cities == CityRange(rects, k);
      forall k' | 0 <= k' < k + 1
        ensures NamedAs(countryNames, countries[k'].cities, countries[k'].name)
      {
        if k' < k {
          Geometry.StartMonotone(rects, k' + 1, k);
          assert NamedAs(before, countries[k'].cities, countries[k'].name);
        }
      }
    }

    /**
     * The cities of `placed` exist, in the lookup, without neighbours and initialized; those
     * from `first` on belong to `country` and are its cities.
     */
    ghost predicate Placing(placed: seq<Cell>, first: nat, country: Country.Country, coinTypes: seq<string>)
      reads this`countriesGrid, this`countryNames, this`neighbors, country, coins, cache
    {
      |countryNames| == |placed| && countriesGrid == Geometry.Index(placed) &&
      |neighbors| == |countryNames| && (forall c :: 0 <= c < |neighbors| ==> neighbors[c] == []) &&
      first <= |countryNames| &&
      (forall i :: first <= i < |countryNames| ==> countryNames[i] == country.name) &&
      country.cities == Diffusion.Range(first, |countryNames|) &&
      Initialized(coinTypes)
    }

    /** The outer loop for country `k` (src/classes/map.ts:73-79): x from `xl` to `xh`, one column of new cities each. */
    method AddCitiesOfCountry(k: nat, coinTypes: seq<string>, ghost first: nat)
      requires k < |countries| && coinTypes == NamesOf(countries)
      requires City.Arena(coins, cache) && coins.Length0 == |Cells()| && coins.Length1 == |countries|
      requires Country.AreCoordinatesValid(countries[k].coordinates)
      requires Placing(Geometry.AllCells(RectsOf(countries)[..k]), first, countries[k], coinTypes)
      modifies this`countriesGrid, this`countryNames, this`neighbors, coins, cache, countries[k]
      ensures Placing(Geometry.AllCells(RectsOf(countries)[..k + 1]), first, countries[k], coinTypes)
      ensures forall i :: 0 <= i < first ==> countryNames[i] == old(countryNames)[i]
    {
      ghost var rects := RectsOf(countries);
      var r := countries[k].coordinates;
      ghost var names := countryNames;
      Geometry.PlacedEnds(rects, k);
      var x := r.xl;
      while x <= r.xh
        invariant r.xl <= x <= r.xh + 1
        invariant Placing(Geometry.Placed(rects, k, x, r.yl), first, countries[k], coinTypes)
        invariant forall i :: 0 <= i < first ==> countryNames[i] == names[i]
      {
        x := AddColumn(k, x, coinTypes, first);
      }
    }

    /** The inner loop of addCitiesToCountries (src/classes/map.ts:74-78): y from `yl` to `yh` in column `x`. */
    method AddColumn(k: nat, x: int, coinTypes: seq<string>, ghost first: nat) returns (nx: int)
      requires k < |countries| && coinTypes == NamesOf(countries)
      requires countries[k].coordinates.xl <= x <= countries[k].coordinates.xh
      requires Country.AreCoordinatesValid(countries[k].coordinates)
      requires City.Arena(coins, cache) && coins.Length0 == |Cells()| && coins.Length1 == |countries|
      requires Placing(Geometry.Placed(RectsOf(countries), k, x, countries[k].coordinates.yl), first, countries[k], coinTypes)
      modifies this`countriesGrid, this`countryNames, this`neighbors, coins, cache, countries[k]
      ensures nx == x + 1
      ensures Placing(Geometry.Placed(RectsOf(countries), k, nx, countries[k].coordinates.yl), first, countries[k], coinTypes)
      ensures forall i :: 0 <= i < old(|countryNames|) ==> countryNames[i] == old(countryNames)[i]
    {
      ghost var rects := RectsOf(countries);
      ghost var names := countryNames;
      var r := countries[k].coordinates;
      var y := r.yl;
      while y <= r.yh
        invariant r.yl <= y <= r.yh + 1
        invariant Placing(Geometry.Placed(rects, k, x, y), first, countries[k], coinTypes)
        invariant |countryNames| >= |names| && forall i :: 0 <= i < |names| ==> countryNames[i] == names[i]
      {
        y := AddCell(k, x, y, coinTypes, first);
      }
      nx := x + 1;
      Geometry.PlacedNextColumn(rects, k, x, nx);
    }

    /** One pass of the inner loop (src/classes/map.ts:74-78): the city at `(x, y)`, then on to `y + 1`. */
    method AddCell(k: nat, x: int, y: int, coinTypes: seq<string>, ghost first: nat) returns (ny: int)
      requires k < |countries| && coinTypes == NamesOf(countries)
      requires countries[k].coordinates.xl <= x <= countries[k].coordinates.xh
      requires countries[k].coordinates.yl <= y <= countries[k].coordinates.yh
      requires City.Arena(coins, cache) && coins.Length0 == |Cells()| && coins.Length1 == |countries|
      requires Placing(Geometry.Placed(RectsOf(countries), k, x, y), first, countries[k], coinTypes)
      modifies this`countriesGrid, this`countryNames, this`neighbors, coins, cache, countries[k]
      ensures ny == y + 1
      ensures Placing(Geometry.Placed(RectsOf(countries), k, x, ny), first, countries[k], coinTypes)
      ensures countryNames == old(countryNames) + [countries[k].name]
    {
      ghost var rects := RectsOf(countries);
      Geometry.PlacedCount(rects, k, x, y);
      AddCityAt(countries[k], coinTypes, x, y, Geometry.Placed(rects, k, x, y), first);
      ny := y + 1;
      Geometry.PlacedNext(rects, k, x, y, ny);
    }

    /**
     * The body of addCitiesToCountries' inner loop (src/classes/map.ts:75-77): the next city
     * gets the initial counters for `country`, is set in the lookup at `(x, y)` and is
     * appended to the country's cities.
     */
    method AddCityAt(country: Country.Country, coinTypes: seq<string>, x: int, y: int,
                     ghost placed: seq<Cell>, ghost first: nat)
      requires City.Arena(coins, cache) && |countryNames| < coins.Length0 && coins.Length1 == |coinTypes|
      requires Placing(placed, first, country, coinTypes)
      modifies this`countriesGrid, this`countryNames, this`neighbors, coins, cache, country
      ensures Placing(placed + [(x, y)], first, country, coinTypes)
      ensures countryNames == old(countryNames) + [country.name]
    {
      var c := |countryNames|;
      ghost var coinsBefore, cacheBefore, namesBefore := City.Rows(coins), City.Rows(cache), countryNames;
      City.NewCity(coins, cache, c, coinTypes, country.name, City.InitialCoinsCount);
      countriesGrid := countriesGrid[(x, y) := c];
      country.AddCity(c);
      countryNames := countryNames + [country.name];
      neighbors := neighbors + [[]];
      forall i | 0 <= i < c + 1
        ensures City.Rows(coins)[i] == City.InitialCoins(coinTypes, countryNames[i], City.InitialCoinsCount)
        ensures City.Rows(cache)[i] == City.Zeros(|coinTypes|)
      {
        if i < c {
          assert City.Rows(coins)[i] == coinsBefore[i] && City.Rows(cache)[i] == cacheBefore[i];
          assert countryNames[i] == namesBefore[i];
        }
      }
      Geometry.IndexAppend(placed, (x, y));
    }

    // -------------------------------------------------------------------------------
    // Neighbours

    /** Every city has either no list yet or the one the scan gives it. */
    ghost predicate Partial()
      reads this
    {
      PartlyLinked(neighbors, countriesGrid, Bounds(), Cells())
    }

    /** The scan has reached `(x, y)` (see `LinkedUpTo`). */
    ghost predicate Linked(x: int, y: int)
      reads this
    {
      LinkedUpTo(neighbors, countriesGrid, Bounds(), Cells(), |countries| > 1, x, y)
    }

    /**
     * `addNeighborsToCities` (src/classes/map.ts:86-123): every cell of the bounding box is
     * visited, x outer and y inner. With more than one country, the first city met whose list
     * comes out empty ends the construction with an error naming its country; otherwise every
     * city the lookup holds gets its list.
     */
    method AddNeighborsToCities() returns (err: Option<Error>)
      requires Laid() && countriesGrid == Geometry.Index(Cells())
      requires |neighbors| == |Cells()| && forall c :: 0 <= c < |neighbors| ==> neighbors[c] == []
      modifies this`neighbors
      ensures Snapshot() == old(Snapshot())
      ensures |neighbors| == |Cells()|
      ensures forall c, j :: 0 <= c < |neighbors| && 0 <= j < |neighbors[c]| ==> neighbors[c][j] < |Cells()|
      ensures err.Some? <==> Disconnected(RectsOf(countries))
      ensures err.Some? ==>
                exists c: nat :: FirstIsolated(countriesGrid, Bounds(), Cells(), c) && err.value == DisconnectedCity(countryNames[c])
      ensures err.None? ==> neighbors == NeighborLists(countriesGrid, Bounds(), Cells())
    {
      ghost var rects := RectsOf(countries);
      Geometry.BoundsOfIsTightBox(rects);
      Geometry.CellsWithinBounds(rects);
      IndexIndexes(Cells());
      err := ScanBox();
      PartlyLinkedInRange(neighbors, Cells(), Bounds());
      DisconnectedIff(countries, countriesGrid, Bounds(), Cells());
    }

    /** The two nested loops of `addNeighborsToCities` (src/classes/map.ts:88-121): column after column. */
    method ScanBox() returns (err: Option<Error>)
      requires Indexes(countriesGrid, Cells()) && |countryNames| == |Cells()|
      requires |neighbors| == |Cells()| && forall c :: 0 <= c < |neighbors| ==> neighbors[c] == []
      requires minX <= maxX + 1 && minY <= maxY
      requires forall c :: 0 <= c < |Cells()| ==> Geometry.WithinBounds(Bounds(), Cells()[c])
      modifies this`neighbors
      ensures Partial()
      ensures err.Some? <==>
                |countries| > 1 && exists c :: 0 <= c < |Cells()| && Isolated(countriesGrid, Bounds(), Cells(), c)
      ensures err.Some? ==>
                exists c: nat :: FirstIsolated(countriesGrid, Bounds(), Cells(), c) && err.value == DisconnectedCity(countryNames[c])
      ensures err.None? ==> neighbors == NeighborLists(countriesGrid, Bounds(), Cells())
    {
      ghost var cells := Cells();
      ghost var several := |countries| > 1;
      ScanStart(neighbors, countriesGrid, Bounds(), cells, several);
      err := None;
      var x := minX;
      while x <= maxX && err.None?
        invariant minX <= x <= maxX + 1
        invariant err.None? ==> Linked(x, minY)
        invariant err.Some? ==> (Partial() && several &&
                    exists c: nat :: FirstIsolated(countriesGrid, Bounds(), cells, c) && err.value == DisconnectedCity(countryNames[c]))
      {
        err, x := ScanColumn(x);
      }
      if err.None? {
        ScanComplete(neighbors, countriesGrid, Bounds(), cells, several);
        LinkedPartly(neighbors, countriesGrid, Bounds(), cells, several, x, minY);
      }
    }

    /** One pass of the outer loop of `addNeighborsToCities` (src/classes/map.ts:87-122): column `x`, then on to the next. */
    method ScanColumn(x: int) returns (err: Option<Error>, next: int)
      requires Indexes(countriesGrid, Cells()) && |countryNames| == |Cells()| && Linked(x, minY)
      requires minY <= maxY
      requires forall c :: 0 <= c < |Cells()| ==> Geometry.WithinBounds(Bounds(), Cells()[c])
      modifies this`neighbors
      ensures next == x + 1
      ensures err.None? ==> Linked(next, minY)
      ensures err.Some? ==> (Partial() && |countries| > 1 &&
                exists c: nat :: FirstIsolated(countriesGrid, Bounds(), Cells(), c) && err.value == DisconnectedCity(countryNames[c]))
    {
      err := LinkColumn(x);
      next := x + 1;
      if err.None? {
        NextColumn(neighbors, countriesGrid, Bounds(), Cells(), |countries| > 1, x, next);
      }
    }

    /** The scan of column `x` (src/classes/map.ts:88-121): y from `minY` to `maxY`. */
    method LinkColumn(x: int) returns (err: Option<Error>)
      requires Indexes(countriesGrid, Cells()) && |countryNames| == |Cells()| && Linked(x, minY)
      requires minY <= maxY
      modifies this`neighbors
      ensures Partial()
      ensures err.None? ==> Linked(x, maxY + 1)
      ensures err.Some? ==> (|countries| > 1 &&
                exists c: nat :: FirstIsolated(countriesGrid, Bounds(), Cells(), c) && err.value == DisconnectedCity(countryNames[c]))
    {
      ghost var cells := Cells();
      ghost var several := |countries| > 1;
      err := None;
      for y := minY to maxY + 1
        invariant err == None && Linked(x, y)
      {
        err := LinkCell(x, y);
        if err.Some? {
          return;
        }
      }
      LinkedPartly(neighbors, countriesGrid, Bounds(), cells, several, x, maxY + 1);
    }

    /**
     * One cell of the scan (src/classes/map.ts:89-120): when a city occupies `(x, y)`, its
     * list is built by `NeighborsAt`; an empty list with more than one country is the error,
     * otherwise the list is stored.
     */
    method LinkCell(x: int, y: int) returns (err: Option<Error>)
      requires Indexes(countriesGrid, Cells()) && |countryNames| == |Cells()| && Linked(x, y)
      modifies this`neighbors
      ensures Partial()
      ensures err.None? ==> Linked(x, y + 1)
      ensures err.Some? ==> (|countries| > 1 && (x, y) in countriesGrid &&
                FirstIsolated(countriesGrid, Bounds(), Cells(), countriesGrid[(x, y)]) &&
                err.value == DisconnectedCity(countryNames[countriesGrid[(x, y)]]))
      ensures err.Some? ==>
                exists c: nat :: FirstIsolated(countriesGrid, Bounds(), Cells(), c) && err.value == DisconnectedCity(countryNames[c])
    {
      ghost var cells := Cells();
      ghost var several := |countries| > 1;
      err := None;
      if (x, y) !in countriesGrid {
        SkipCell(neighbors, countriesGrid, Bounds(), cells, several, x, y);
        LinkedPartly(neighbors, countriesGrid, Bounds(), cells, several, x, y + 1);
      } else {
        var city := countriesGrid[(x, y)];
        var list := NeighborsAt(x, y);
        if |countries| > 1 && |list| == 0 {
          FoundIsolated(neighbors, countriesGrid, Bounds(), cells, x, y);
          LinkedPartly(neighbors, countriesGrid, Bounds(), cells, several, x, y);
          err := Some(DisconnectedCity(countryNames[city]));
        } else {
          LinkStep(neighbors, countriesGrid, Bounds(), cells, several, x, y);
          neighbors := neighbors[city := list];
          LinkedPartly(neighbors, countriesGrid, Bounds(), cells, several, x, y + 1);
        }
      }
    }

    /**
     * The four probes of one city (src/classes/map.ts:94-114): right, left, up and down,
     * each behind its bounds test; the left test compares `x - 1` with `minY`, as written.
     */
    method NeighborsAt(x: int, y: int) returns (list: seq<nat>)
      ensures list == Geometry.NeighborList(countriesGrid, Bounds(), x, y)
    {
      ghost var right := Geometry.Probe(countriesGrid, x + 1 <= maxX, (x + 1, y));
      ghost var left := Geometry.Probe(countriesGrid, x - 1 >= minY, (x - 1, y));
      ghost var up := Geometry.Probe(countriesGrid, y + 1 <= maxY, (x, y + 1));
      list := [];
      if x + 1 <= maxX && (x + 1, y) in countriesGrid {
        list := list + [countriesGrid[(x + 1, y)]];
      }
      assert list == right;
      if x - 1 >= minY && (x - 1, y) in countriesGrid {
        list := list + [countriesGrid[(x - 1, y)]];
      }
      assert list == right + left;
      if y + 1 <= maxY && (x, y + 1) in countriesGrid {
        list := list + [countriesGrid[(x, y + 1)]];
      }
      assert list == right + left + up;
      if y - 1 >= minY && (x, y - 1) in countriesGrid {
        list := list + [countriesGrid[(x, y - 1)]];
      }
    }

    // -------------------------------------------------------------------------------
    // Completion and the day loop

    /** Country `k` owns the cities `net.starts[k] .. net.starts[k + 1] - 1`. */
    ghost predicate Owned(net: Diffusion.Net)
      reads countries
    {
      |net.starts| == |countries| + 1 &&
      forall k :: 0 <= k < |countries| ==> countries[k].cities == Diffusion.Range(net.starts[k], net.starts[k + 1])
    }

    /**
     * What a day needs of the map: `net` is its wiring, `today` has the arena's shape, and
     * the countries own consecutive blocks of cities. Only the arrays' contents change
     * during the day, and this does not depend on them.
     */
    ghost predicate Ready(today: City.State, net: Diffusion.Net)
      reads this`neighbors, countries
    {
      Wiring(today, net) && Owned(net)
    }

    /** `net` is the map's wiring and `today` has the arena's shape. */
    ghost predicate Wiring(today: City.State, net: Diffusion.Net)
      reads this`neighbors
    {
      City.Arena(coins, cache) && net == Net() && Diffusion.Fits(today, net) && |today.coins| == coins.Length0
    }

    /** A valid map is ready for a day from its own arena. */
    lemma ValidReady()
      requires Valid()
      ensures City.Arena(coins, cache) && Ready(Snapshot(), Net())
    {
      StartsInOrder(RectsOf(countries));
    }

    /** Country by country is city by city: the map is complete exactly when every city is. */
    lemma CountriesCompleteIffDone()
      requires City.Arena(coins, cache) && Ready(Snapshot(), Net())
      ensures (forall k :: 0 <= k < |countries| ==> countries[k].IsCompleted(coins)) <==> Diffusion.AllDone(Snapshot(), Net())
      ensures Diffusion.AllDone(Snapshot(), Net()) <==> forall c :: 0 <= c < coins.Length0 ==> City.IsCompleted(coins, c)
    {
      var s, net := Snapshot(), Net();
      Diffusion.AllDoneIffAllCities(s, net);
      assert s.coins == City.Rows(coins) && |net.names| == |countries|;
      if Diffusion.AllDone(s, net) {
        forall k | 0 <= k < |countries|
          ensures countries[k].IsCompleted(coins)
        {
          assert Country.AllCompleted(s.coins, Diffusion.Range(net.starts[k], net.starts[k + 1]));
        }
      } else {
        var k :| 0 <= k < |net.names| && !Country.AllCompleted(s.coins, Diffusion.Range(net.starts[k], net.starts[k + 1]));
        assert !countries[k].IsCompleted(coins);
      }
      forall c | 0 <= c < coins.Length0
        ensures City.IsCompleted(coins, c) == City.Completed(s.coins[c])
      {
      }
    }

    /**
     * A built map meets what the sign lemmas of the day loop ask for: every city has at most
     * four neighbours, fewer than the portion of 1000, and no counter or buffer starts
     * negative.
     */
    lemma BuiltSparse()
      requires Built()
      ensures Diffusion.Fits(Snapshot(), Net()) && Diffusion.Sparse(Net()) && City.NonNegative(Snapshot())
    {
      ValidReady();
      var s := Snapshot();
      assert s == InitialState(NamesOf(countries), countryNames);
      forall c, t | 0 <= c < |s.coins| && 0 <= t < City.Width(s)
        ensures 0 <= s.coins[c][t] && 0 <= s.cache[c][t]
      {
        assert s.coins[c] == City.InitialCoins(NamesOf(countries), countryNames[c], City.InitialCoinsCount);
      }
    }

    /** From a built map no counter is negative on any day of the emulation. */
    lemma BuiltStaysNonNegative(e: nat)
      requires Built()
      ensures City.NonNegative(Diffusion.DayState(Snapshot(), Net(), e))
    {
      BuiltSparse();
      Diffusion.DayStateNonNegative(Snapshot(), Net(), e);
    }

    /**
     * From a built map, once every city holds every coin type at the end of day `d`, it
     * still does at the end of every later day: the first such day is the only one the
     * loop's stopping test can pick.
     */
    lemma BuiltSettledStaysSettled(d: nat, e: nat)
      requires Built() && d <= e && Diffusion.SettledOn(Snapshot(), Net(), d)
      ensures Diffusion.SettledOn(Snapshot(), Net(), e)
    {
      BuiltSparse();
      Diffusion.SettledStaysSettled(Snapshot(), Net(), d, e);
    }

    /**
     * For valid, non-overlapping countries the neighbour lists of a built map are
     * symmetric and irreflexive: `b` is a neighbour of `a` exactly when `a` is one of `b`,
     * and no city is its own neighbour.
     */
    lemma {:induction false} BuiltNeighborsSymmetric()
      requires Built() && Geometry.NoOverlap(RectsOf(countries))
      requires forall k :: 0 <= k < |countries| ==> Country.AreCoordinatesValid(countries[k].coordinates)
      ensures forall a, b :: 0 <= a < |neighbors| && 0 <= b < |neighbors| ==> (b in neighbors[a] <==> a in neighbors[b])
      ensures forall a :: 0 <= a < |neighbors| ==> a !in neighbors[a]
    {
      var rects := RectsOf(countries);
      assert forall k :: 0 <= k < |rects| ==> Country.AreCoordinatesValid(rects[k]);
      assert Bounds() == Geometry.BoundsOf(rects);
      NeighborListsSymmetric(rects, countriesGrid, Bounds(), neighbors);
    }

    /**
     * `isCompleted` (src/classes/map.ts:63-65): every country is complete, which is every
     * city holding a coin of every type.
     */
    function IsCompleted(): (r: bool)
      requires Valid()
      reads this`minX, this`minY, this`maxX, this`maxY, this`countryNames, this`neighbors, countries, coins
      ensures r <==> Diffusion.AllDone(Snapshot(), Net())
      ensures r <==> forall c :: 0 <= c < coins.Length0 ==> City.IsCompleted(coins, c)
    {
      ValidReady();
      CountriesCompleteIffDone();
      forall k :: 0 <= k < |countries| ==> countries[k].IsCompleted(coins)
    }

    /**
     * `startDiffusionEmulation` (src/classes/map.ts:132-166), allowed at most `maxDays` days:
     * the lookup is dropped, then day after day every country's cities transport (each
     * country checked and recorded right after its own cities), every city settles, and the
     * loop stops at the end of the first day that leaves the map complete; names still
     * missing get the number of days. The outcome and the final arena are those of
     * `Diffusion.Emulate`; `None` when the map is not complete after `maxDays` days.
     */
    method StartDiffusionEmulation(maxDays: nat) returns (r: Option<map<string, int>>)
      requires Valid()
      modifies this`countriesGrid, coins, cache
      ensures Valid() && countriesGrid == map[]
      ensures Diffusion.Fits(old(Snapshot()), Net())
      ensures match Diffusion.Emulate(old(Snapshot()), Net(), maxDays)
                case None => r.None? && Snapshot() == Diffusion.DayState(old(Snapshot()), Net(), maxDays)
                case Some(f) => r == Some(f.result) && Snapshot() == Diffusion.DayState(old(Snapshot()), Net(), f.days)
    {
      countriesGrid := map[];
      ghost var s0 := Snapshot();
      ghost var net := Net();
      var result, day, completed := RunDays(maxDays, s0, net);
      if completed {
        result := FillResult(result, day);
        r := Some(result);
      } else {
        r := None;
      }
    }

    /**
     * The `do ... while` loop (src/classes/map.ts:137-156), cut off after `maxDays` days: it
     * stops at the end of the first day that leaves the map complete.
     */
    method RunDays(maxDays: nat, ghost s0: City.State, ghost net: Diffusion.Net)
      returns (result: map<string, int>, day: nat, completed: bool)
      requires Valid() && net == Net() && Snapshot() == s0
      modifies coins, cache
      ensures Diffusion.Fits(s0, net) && day <= maxDays
      ensures Snapshot() == Diffusion.DayState(s0, net, day) && result == Diffusion.Recorded(s0, net, day)
      ensures completed ==> Diffusion.FirstSettled(s0, net, 1, maxDays) == Some(day)
      ensures !completed ==> day == maxDays && Diffusion.FirstSettled(s0, net, 1, maxDays).None?
    {
      ValidReady();
      result := map[];
      day := 0;
      completed := false;
      while day < maxDays && !completed
        invariant Running(s0, net, maxDays, day, result, completed)
        decreases maxDays - day
      {
        result, day, completed := NextDay(maxDays, day, result, s0, net);
      }
    }

    /** One more turn of the `do ... while` loop (src/classes/map.ts:137-156): run the day, then test `isCompleted`. */
    method NextDay(maxDays: nat, day: nat, result: map<string, int>, ghost s0: City.State, ghost net: Diffusion.Net)
      returns (updated: map<string, int>, next: nat, completed: bool)
      requires Valid() && net == Net() && day < maxDays && Running(s0, net, maxDays, day, result, false)
      modifies coins, cache
      ensures next == day + 1 && Running(s0, net, maxDays, next, updated, completed)
    {
      ghost var today := Snapshot();
      updated, completed := RunDay(day, result, today, net);
      next := day + 1;
      Diffusion.DayStep(s0, net, day, next);
      Diffusion.FirstSettledStep(s0, net, next, maxDays);
    }

    /**
     * After `day` days from `s0` the arena and `result` are those of the model; `completed`
     * says that `day` is the first settled day, otherwise none is settled yet.
     */
    ghost predicate Running(s0: City.State, net: Diffusion.Net, maxDays: nat, day: nat, result: map<string, int>, completed: bool)
      reads coins, cache
    {
      City.Arena(coins, cache) && Diffusion.Fits(s0, net) && day <= maxDays &&
      Snapshot() == Diffusion.DayState(s0, net, day) && result == Diffusion.Recorded(s0, net, day) &&
      (completed ==> 1 <= day && Diffusion.FirstSettled(s0, net, 1, maxDays) == Some(day)) &&
      (!completed ==> Diffusion.FirstSettled(s0, net, 1, maxDays) == Diffusion.FirstSettled(s0, net, day + 1, maxDays))
    }

    /**
     * One pass of the `do` body (src/classes/map.ts:138-155): the transport phase, then the
     * settle phase, then the loop's `isCompleted` test; the arena moves on by one
     * `Diffusion.Day`, `result` takes the day's checks and `completed` says whether the day
     * left the map complete.
     */
    method RunDay(day: nat, result: map<string, int>, ghost today: City.State, ghost net: Diffusion.Net)
      returns (updated: map<string, int>, completed: bool)
      requires Valid() && net == Net() && Snapshot() == today
      modifies coins, cache
      ensures Diffusion.Fits(today, net)
      ensures Snapshot() == Diffusion.Day(today, net)
      ensures updated == Diffusion.RecordUpTo(Diffusion.Checks(today, net), net.names, |net.names|, result, day)
      ensures completed <==> Diffusion.AllDone(Diffusion.Day(today, net), net)
    {
      ValidReady();
      updated := TransportPhase(day, result, today, net);
      ghost var moved := Snapshot();
      SettlePhase(moved, net);
      completed := IsCompleted();
    }

    /**
     * The first `forEach` of a day (src/classes/map.ts:138-148): each country's cities
     * transport in order, then the country is checked and, when complete and not yet in
     * `result`, recorded with `day`.
     */
    method TransportPhase(day: nat, result: map<string, int>, ghost today: City.State, ghost net: Diffusion.Net)
      returns (updated: map<string, int>)
      requires Ready(today, net) && Snapshot() == today
      modifies coins, cache
      ensures Snapshot() == Diffusion.TransportUpTo(today, net, |today.coins|)
      ensures updated == Diffusion.RecordUpTo(Diffusion.Checks(today, net), net.names, |net.names|, result, day)
    {
      ghost var starts := net.starts;
      ghost var flags := Diffusion.Checks(today, net);
      updated := result;
      for k := 0 to |countries|
        invariant Snapshot() == Diffusion.TransportUpTo(today, net, starts[k])
        invariant updated == Diffusion.RecordUpTo(flags, net.names, k, result, day)
      {
        assert starts[k] <= starts[k + 1] <= starts[|countries|];
        updated := TransportCountry(k, day, updated, today, net, starts[k], starts[k + 1]);
      }
    }

    /**
     * One country's turn in the first `forEach` (src/classes/map.ts:139-147): its cities
     * transport in order, then it is checked and, when complete and not yet in `result`,
     * recorded with `day`.
     */
    method TransportCountry(k: nat, day: nat, result: map<string, int>, ghost today: City.State,
                            ghost net: Diffusion.Net, ghost lo: nat, ghost hi: nat)
      returns (updated: map<string, int>)
      requires Wiring(today, net) && k < |countries| && lo == net.starts[k] && hi == net.starts[k + 1] && lo <= hi <= |today.coins|
      requires countries[k].cities == Diffusion.Range(lo, hi)
      requires Snapshot() == Diffusion.TransportUpTo(today, net, lo)
      modifies coins, cache
      ensures Snapshot() == Diffusion.TransportUpTo(today, net, hi)
      ensures updated == if Diffusion.Checks(today, net)[k] && net.names[k] !in result
                         then result[net.names[k] := day] else result
    {
      TransportCities(countries[k].cities, today, net, lo, hi);
      updated := result;
      if countries[k].IsCompleted(coins) {
        if countries[k].name !in updated {
          updated := updated[countries[k].name := day];
        }
      }
    }

    /** The inner `forEach` of the first phase (src/classes/map.ts:139-141): country `k`'s cities transport in order. */
    method TransportCities(cities: seq<nat>, ghost today: City.State, ghost net: Diffusion.Net, ghost lo: nat, ghost hi: nat)
      requires City.Arena(coins, cache) && Diffusion.Fits(today, net) && |today.coins| == coins.Length0
      requires net.neighbors == neighbors && net.portion == City.RepresentativePortion
      requires hi == lo + |cities| <= |today.coins| && forall j :: 0 <= j < |cities| ==> cities[j] == lo + j
      requires Snapshot() == Diffusion.TransportUpTo(today, net, lo)
      modifies coins, cache
      ensures Snapshot() == Diffusion.TransportUpTo(today, net, hi)
    {
      var j := 0;
      ghost var done := lo;
      while j < |cities|
        invariant j <= |cities| && done == lo + j
        invariant Snapshot() == Diffusion.TransportUpTo(today, net, done)
      {
        done := TransportCity(cities[j], today, net);
        j := j + 1;
      }
    }

    /** One call of `transportCoinsToNeighbors` (src/classes/map.ts:140), as the next city in order. */
    method TransportCity(c: nat, ghost today: City.State, ghost net: Diffusion.Net) returns (ghost next: nat)
      requires City.Arena(coins, cache) && Diffusion.Fits(today, net) && |today.coins| == coins.Length0
      requires net.neighbors == neighbors && net.portion == City.RepresentativePortion
      requires c < |today.coins| && Snapshot() == Diffusion.TransportUpTo(today, net, c)
      modifies coins, cache
      ensures next == c + 1 && Snapshot() == Diffusion.TransportUpTo(today, net, next)
    {
      next := c + 1;
      Diffusion.TransportUpToStep(today, net, c, next);
      City.TransportCoinsToNeighbors(coins, cache, c, neighbors[c], City.RepresentativePortion);
    }

    /** The second `forEach` of a day (src/classes/map.ts:150-154): every country's cities settle in order. */
    method SettlePhase(ghost moved: City.State, ghost net: Diffusion.Net)
      requires Ready(moved, net) && Snapshot() == moved
      modifies coins, cache
      ensures Snapshot() == Diffusion.SettleUpTo(moved, |moved.coins|)
    {
      ghost var starts := net.starts;
      for k := 0 to |countries|
        invariant Snapshot() == Diffusion.SettleUpTo(moved, starts[k])
      {
        assert starts[k] <= starts[k + 1] <= starts[|countries|];
        SettleCountry(k, moved, starts);
      }
    }

    /** The cities of country `k` settle in order (src/classes/map.ts:151-153). */
    method SettleCountry(k: nat, ghost moved: City.State, ghost starts: seq<nat>)
      requires City.Arena(coins, cache) && City.Shaped(moved) && |moved.coins| == coins.Length0
      requires k < |countries| && k + 1 < |starts| && starts[k] <= starts[k + 1] <= |moved.coins|
      requires countries[k].cities == Diffusion.Range(starts[k], starts[k + 1])
      requires Snapshot() == Diffusion.SettleUpTo(moved, starts[k])
      modifies coins, cache
      ensures Snapshot() == Diffusion.SettleUpTo(moved, starts[k + 1])
    {
      var cities := countries[k].cities;
      for j := 0 to |cities|
        invariant Snapshot() == Diffusion.SettleUpTo(moved, starts[k] + j)
      {
        Diffusion.SettleUpToStep(moved, starts[k] + j, starts[k] + j + 1);
        City.UpdateCoins(coins, cache, cities[j]);
      }
    }

    /** The final `forEach` (src/classes/map.ts:159-163): every country missing from `result` gets `day`. */
    method FillResult(result: map<string, int>, day: nat) returns (filled: map<string, int>)
      ensures filled == Diffusion.FillUpTo(result, NamesOf(countries), |countries|, day)
    {
      filled := result;
      for k := 0 to |countries|
        invariant filled == Diffusion.FillUpTo(result, NamesOf(countries), k, day)
      {
        if countries[k].name !in filled {
          filled := filled[countries[k].name := day];
        }
      }
    }
  }

  /**
   * `new MapGrid(countries)` (src/classes/map.ts:40-57): the map with its cities and their
   * neighbour lists, or the error of the first city the scan finds isolated when there is
   * more than one country.
   */
  method NewMapGrid(countries: seq<Country.Country>) returns (r: Result<MapGrid>)
    requires forall k :: 0 <= k < |countries| ==>
               Country.AreCoordinatesValid(countries[k].coordinates) && countries[k].cities == []
    requires forall j, k :: 0 <= j < k < |countries| ==> countries[j] != countries[k]
    modifies countries
    ensures r.Err? <==> Disconnected(RectsOf(countries))
    ensures r.Err? ==> exists c: nat, k :: 0 <= k < |countries| && c in CityRange(RectsOf(countries), k) &&
                         FirstIsolated(Geometry.Index(Geometry.AllCells(RectsOf(countries))), Geometry.BoundsOf(RectsOf(countries)),
                                       Geometry.AllCells(RectsOf(countries)), c) &&
                         r.error == DisconnectedCity(countries[k].name)
    ensures r.Ok? ==> fresh(r.value) && r.value.countries == countries && r.value.Built()
  {
    var map_ := new MapGrid(countries);
    ghost var names := map_.countryNames;
    ghost var start := map_.Snapshot();
    var err := map_.AddNeighborsToCities();
    assert map_.Snapshot() == start && map_.countryNames == names;
    Outcome(map_, err);
    if err.Some? {
      r := Err(err.value);
    } else {
      r := Ok(map_);
    }
  }

  /**
   * What the scan's result means for the constructor (src/classes/map.ts:55-56): an error
   * names the country of the first isolated city; otherwise the map is built.
   */
  lemma {:induction false} Outcome(m: MapGrid, err: Option<Error>)
    requires m.Laid() && m.countriesGrid == Geometry.Index(m.Cells())
    requires m.Snapshot() == InitialState(NamesOf(m.countries), m.countryNames)
    requires err.Some? ==> exists c: nat :: FirstIsolated(m.countriesGrid, m.Bounds(), m.Cells(), c) &&
                                             err.value == DisconnectedCity(m.countryNames[c])
    requires err.None? ==> m.neighbors == NeighborLists(m.countriesGrid, m.Bounds(), m.Cells())
    ensures err.Some? ==> exists c: nat, k :: 0 <= k < |m.countries| && c in CityRange(RectsOf(m.countries), k) &&
                            FirstIsolated(Geometry.Index(Geometry.AllCells(RectsOf(m.countries))),
                                          Geometry.BoundsOf(RectsOf(m.countries)), Geometry.AllCells(RectsOf(m.countries)), c) &&
                            err.value == DisconnectedCity(m.countries[k].name)
    ensures err.None? ==> m.Built()
  {
    if err.Some? {
      var c: nat :| FirstIsolated(m.countriesGrid, m.Bounds(), m.Cells(), c) &&
                    err.value == DisconnectedCity(m.countryNames[c]);
      m.LaidNames();
      DisconnectedError(m.countries, m.countryNames, c, err.value);
    } else {
      m.LaidIsBuilt();
    }
  }

  /** Every cell of the lookup lies within the map's bounds. */
  lemma {:induction false} KeysWithinBounds(rects: seq<Country.Coordinates>)
    ensures forall q :: q in Geometry.Index(Geometry.AllCells(rects)) ==> Geometry.WithinBounds(Geometry.BoundsOf(rects), q)
  {
    var cells := Geometry.AllCells(rects);
    Geometry.IndexMaps(cells);
    Geometry.CellsWithinBounds(rects);
    forall q | q in Geometry.Index(cells)
      ensures Geometry.WithinBounds(Geometry.BoundsOf(rects), q)
    {
      assert q in Geometry.Index(cells).Keys;
    }
  }

  /**
   * For valid, non-overlapping rectangles every city is reached by the scan, and its list
   * is exactly the cities on the orthogonally adjacent cells.
   */
  lemma {:induction false} NeighborListsAdjacent(rects: seq<Country.Coordinates>, a: nat)
    requires Geometry.NoOverlap(rects) && forall k :: 0 <= k < |rects| ==> Country.AreCoordinatesValid(rects[k])
    requires a < |Geometry.AllCells(rects)|
    ensures var cells := Geometry.AllCells(rects);
      NeighborLists(Geometry.Index(cells), Geometry.BoundsOf(rects), cells)[a] ==
        Geometry.Adjacent(Geometry.Index(cells), cells[a].0, cells[a].1)
  {
    var cells := Geometry.AllCells(rects);
    Geometry.AllCellsDistinct(rects);
    Geometry.IndexOfDistinct(cells);
    assert Live(Geometry.Index(cells), cells, a);
    Geometry.ValidBoundsAtOrigin(rects);
    KeysWithinBounds(rects);
    Geometry.GuardsOnlySkipEmptyCells(Geometry.Index(cells), Geometry.BoundsOf(rects), cells[a].0, cells[a].1);
  }

  /**
   * For valid, non-overlapping rectangles the neighbour lists the scan gives are symmetric
   * and irreflexive.
   */
  lemma {:induction false} NeighborListsSymmetric(rects: seq<Country.Coordinates>, grid: map<Cell, nat>, bounds: Geometry.Bounds,
                                                  neighbors: seq<seq<nat>>)
    requires Geometry.NoOverlap(rects) && forall k :: 0 <= k < |rects| ==> Country.AreCoordinatesValid(rects[k])
    requires grid == Geometry.Index(Geometry.AllCells(rects)) && bounds == Geometry.BoundsOf(rects)
    requires neighbors == NeighborLists(grid, bounds, Geometry.AllCells(rects))
    ensures forall a, b :: 0 <= a < |neighbors| && 0 <= b < |neighbors| ==> (b in neighbors[a] <==> a in neighbors[b])
    ensures forall a :: 0 <= a < |neighbors| ==> a !in neighbors[a]
  {
    var cells := Geometry.AllCells(rects);
    Geometry.AllCellsDistinct(rects);
    forall a, b | 0 <= a < |neighbors| && 0 <= b < |neighbors|
      ensures (b in neighbors[a] <==> a in neighbors[b]) && a !in neighbors[a]
    {
      NeighborListsAdjacent(rects, a);
      NeighborListsAdjacent(rects, b);
      Geometry.NeighborsSymmetric(cells, a, b);
    }
  }

  /**
   * The test map of two single-cell countries at (1, 1) and (3, 3) is refused: the city at
   * (1, 1), the first the scan reaches, has no neighbour (src/__tests__/index.test.ts:18-23).
   */
  lemma {:induction false} DisjointSingleCellsDisconnected()
    ensures var rects := [Country.Coordinates(1, 1, 1, 1), Country.Coordinates(3, 3, 3, 3)];
      var cells := Geometry.AllCells(rects);
      Disconnected(rects) && FirstIsolated(Geometry.Index(cells), Geometry.BoundsOf(rects), cells, 0)
  {
    var rects := [Country.Coordinates(1, 1, 1, 1), Country.Coordinates(3, 3, 3, 3)];
    Geometry.DisjointSingleCellsIsolated();
    var cells := Geometry.AllCells(rects);
    assert cells == [(1, 1), (3, 3)];
    assert cells[..1] == [(1, 1)];
    assert [(1, 1)][..0] == [];
    var grid := Geometry.Index(cells);
    assert grid == map[(1, 1) := 0, (3, 3) := 1];
    assert Isolated(grid, Geometry.BoundsOf(rects), cells, 0);
    forall c' | 0 <= c' < |cells| && Isolated(grid, Geometry.BoundsOf(rects), cells, c')
      ensures !Scanned(cells[c'], cells[0].0, cells[0].1)
    {
    }
  }

  /** Countries that differ pairwise differ from country `k`. */
  lemma Distinct(countries: seq<Country.Country>, k: nat)
    requires k < |countries| && forall j, k :: 0 <= j < k < |countries| ==> countries[j] != countries[k]
    ensures forall k' :: 0 <= k' < |countries| && k' != k ==> countries[k'] != countries[k]
  {
    forall k' | 0 <= k' < |countries| && k' != k
      ensures countries[k'] != countries[k]
    {
      if k' < k {
        assert countries[k'] != countries[k];
      } else {
        assert countries[k] != countries[k'];
      }
    }
  }

  /** `Disconnected` in terms of the lookup, the bounds and the cells of a map. */
  lemma DisconnectedIff(countries: seq<Country.Country>, grid: map<Cell, nat>, b: Geometry.Bounds, cells: seq<Cell>)
    requires cells == Geometry.AllCells(RectsOf(countries)) && grid == Geometry.Index(cells)
    requires b == Geometry.BoundsOf(RectsOf(countries))
    ensures Disconnected(RectsOf(countries)) <==>
              |countries| > 1 && exists c :: 0 <= c < |cells| && Isolated(grid, b, cells, c)
  {
  }

  /** The error for the first isolated city names the country that owns it. */
  lemma {:induction false} DisconnectedError(countries: seq<Country.Country>, countryNames: seq<string>, c: nat, e: Error)
    requires FirstIsolated(Geometry.Index(Geometry.AllCells(RectsOf(countries))), Geometry.BoundsOf(RectsOf(countries)),
                           Geometry.AllCells(RectsOf(countries)), c)
    requires c < |countryNames| && e == DisconnectedCity(countryNames[c])
    requires forall k :: 0 <= k < |countries| ==>
               NamedAs(countryNames, CityRange(RectsOf(countries), k), countries[k].name)
    ensures exists c: nat, k :: 0 <= k < |countries| && c in CityRange(RectsOf(countries), k) &&
              FirstIsolated(Geometry.Index(Geometry.AllCells(RectsOf(countries))), Geometry.BoundsOf(RectsOf(countries)),
                            Geometry.AllCells(RectsOf(countries)), c) &&
              e == DisconnectedCity(countries[k].name)
  {
    var k := OwningCountry(countries, countryNames, c);
  }

  /** Every city belongs to a country, whose name it carries. */
  lemma {:induction false} OwningCountry(countries: seq<Country.Country>, countryNames: seq<string>, c: nat)
    returns (k: nat)
    requires c < |Geometry.AllCells(RectsOf(countries))|
    requires forall k :: 0 <= k < |countries| ==>
               NamedAs(countryNames, CityRange(RectsOf(countries), k), countries[k].name)
    ensures k < |countries| && c in CityRange(RectsOf(countries), k) &&
            c < |countryNames| && countryNames[c] == countries[k].name
  {
    var rects := RectsOf(countries);
    k := CityOwner(rects, c);
    var range := CityRange(rects, k);
    assert range[c - Geometry.Start(rects, k)] == c;
  }

  /** The city numbered `c` is one of the cities of country `k`, the one returned. */
  lemma {:induction false} CityOwner(rects: seq<Country.Coordinates>, c: nat) returns (k: nat)
    requires c < |Geometry.AllCells(rects)|
    ensures k < |rects| && Geometry.Start(rects, k) <= c < Geometry.Start(rects, k + 1)
    ensures CityRange(rects, k)[c - Geometry.Start(rects, k)] == c
  {
    StartsInOrder(rects);
    var starts := StartsOf(rects);
    k := Diffusion.Owner(starts, c, |rects|);
  }
}
