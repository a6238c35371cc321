/**
 * The layout src/classes/map.ts builds from the countries' rectangles, as values: the map's
 * bounds, the cells of each rectangle in creation order, the coordinate lookup
 * (`GridDictionary`, keyed by the pair `(x, y)` rather than the string `x-y`), and the
 * neighbour list of a cell.
 */
module Geometry {
  import Country

  type Coordinates = Country.Coordinates
  type Cell = (int, int)

  /** `minX`, `minY`, `maxX`, `maxY` of a MapGrid. */
  datatype Bounds = Bounds(minX: int, minY: int, maxX: int, maxY: int)

  predicate Distinct<T(==)>(s: seq<T>)
  {
    forall i, j :: 0 <= i < j < |s| ==> s[i] != s[j]
  }

  function Min(a: int, b: int): int { if a <= b then a else b }
  function Max(a: int, b: int): int { if a >= b then a else b }

  // ---------------------------------------------------------------------------------
  // Bounds

  /** One step of the constructor's `forEach` over the countries (src/classes/map.ts:48-53). */
  function Extend(b: Bounds, r: Coordinates): Bounds
  {
    Bounds(Min(b.minX, r.xl), Min(b.minY, r.yl), Max(b.maxX, r.xh), Max(b.maxY, r.yh))
  }

  /** The bounds after the constructor has seen every rectangle, starting from all zeros. */
  function BoundsOf(rects: seq<Coordinates>): Bounds
  {
    if rects == [] then Bounds(0, 0, 0, 0) else Extend(BoundsOf(rects[..|rects| - 1]), rects[|rects| - 1])
  }

  /**
   * The bounds are the smallest box that contains the origin and every rectangle: each
   * minimum is at most 0 and at most every low coordinate, and it is 0 or one of them; each
   * maximum likewise with 0 and the high coordinates.
   */
  lemma {:induction false} BoundsOfIsTightBox(rects: seq<Coordinates>)
    ensures var b := BoundsOf(rects);
      b.minX <= 0 && b.minY <= 0 && 0 <= b.maxX && 0 <= b.maxY &&
      (forall k :: 0 <= k < |rects| ==>
         b.minX <= rects[k].xl && b.minY <= rects[k].yl && rects[k].xh <= b.maxX && rects[k].yh <= b.maxY) &&
      (b.minX == 0 || exists k :: 0 <= k < |rects| && b.minX == rects[k].xl) &&
      (b.minY == 0 || exists k :: 0 <= k < |rects| && b.minY == rects[k].yl) &&
      (b.maxX == 0 || exists k :: 0 <= k < |rects| && b.maxX == rects[k].xh) &&
      (b.maxY == 0 || exists k :: 0 <= k < |rects| && b.maxY == rects[k].yh)
  {
    if rects != [] {
      var n := |rects| - 1;
      BoundsOfIsTightBox(rects[..n]);
      assert forall k :: 0 <= k < n ==> rects[..n][k] == rects[k];
    }
  }

  /** With valid rectangles the map starts at the origin and stays within the coordinate range. */
  lemma {:induction false} ValidBoundsAtOrigin(rects: seq<Coordinates>)
    requires forall k :: 0 <= k < |rects| ==> Country.AreCoordinatesValid(rects[k])
    ensures BoundsOf(rects).minX == 0 && BoundsOf(rects).minY == 0
    ensures BoundsOf(rects).maxX <= Country.MaxCoordinate && BoundsOf(rects).maxY <= Country.MaxCoordinate
  {
    BoundsOfIsTightBox(rects);
  }

  // ---------------------------------------------------------------------------------
  // Cells of a rectangle

  /** The cells `(x, yl)`, ..., `(x, y - 1)`: the inner loop of addCitiesToCountries. */
  function ColumnCells(x: int, yl: int, y: int): (cells: seq<Cell>)
    ensures |cells| == if y <= yl then 0 else y - yl
    decreases y - yl
  {
    if y <= yl then [] else ColumnCells(x, yl, y - 1) + [(x, y - 1)]
  }

  /** Columns `xl`, ..., `x - 1` of the rows `yl..yh`, column after column. */
  function RectCells(xl: int, x: int, yl: int, yh: int): seq<Cell>
    decreases x - xl
  {
    if x <= xl then [] else RectCells(xl, x - 1, yl, yh) + ColumnCells(x - 1, yl, yh + 1)
  }

  /**
   * The cells for which addCitiesToCountries creates a city, in creation order: x from
   * `xl` to `xh`, and for each x, y from `yl` to `yh` (src/classes/map.ts:73-74).
   */
  function Cells(r: Coordinates): seq<Cell>
  {
    RectCells(r.xl, r.xh + 1, r.yl, r.yh)
  }

  lemma {:induction false} ColumnCellsAt(x: int, yl: int, y: int)
    ensures forall j :: 0 <= j < |ColumnCells(x, yl, y)| ==> ColumnCells(x, yl, y)[j] == (x, yl + j)
    decreases y - yl
  {
    if yl < y {
      ColumnCellsAt(x, yl, y - 1);
    }
  }

  /** A cell is in a column exactly when it has the column's x and a y in range. */
  lemma {:induction false} ColumnCellsMembers(x: int, yl: int, y: int)
    ensures forall q: Cell :: q in ColumnCells(x, yl, y) <==> q.0 == x && yl <= q.1 < y
    decreases y - yl
  {
    if yl < y {
      ColumnCellsMembers(x, yl, y - 1);
    }
  }

  /** A cell is created for a rectangle exactly when it lies inside it. */
  lemma {:induction false} RectCellsMembers(xl: int, x: int, yl: int, yh: int)
    ensures forall q: Cell :: q in RectCells(xl, x, yl, yh) <==> xl <= q.0 < x && yl <= q.1 <= yh
    decreases x - xl
  {
    if xl < x {
      RectCellsMembers(xl, x - 1, yl, yh);
      ColumnCellsMembers(x - 1, yl, yh + 1);
    }
  }

  /** No cell is created twice for one rectangle. */
  lemma {:induction false} RectCellsDistinct(xl: int, x: int, yl: int, yh: int)
    ensures Distinct(RectCells(xl, x, yl, yh))
    decreases x - xl
  {
    if xl < x {
      RectCellsDistinct(xl, x - 1, yl, yh);
      RectCellsMembers(xl, x - 1, yl, yh);
      var left, col := RectCells(xl, x - 1, yl, yh), ColumnCells(x - 1, yl, yh + 1);
      ColumnCellsAt(x - 1, yl, yh + 1);
      var all := left + col;
      forall i, j | 0 <= i < j < |all|
        ensures all[i] != all[j]
      {
        if j >= |left| && i < |left| {
          assert all[i] in left;
        }
      }
    }
  }

  /** A rectangle of width `w` and height `h` gets `w * h` cities. */
  lemma {:induction false} RectCellsCount(xl: int, x: int, yl: int, yh: int)
    requires xl <= x && yl <= yh + 1
    ensures |RectCells(xl, x, yl, yh)| == (x - xl) * (yh - yl + 1)
    decreases x - xl
  {
    if xl < x {
      RectCellsCount(xl, x - 1, yl, yh);
      assert (x - xl) * (yh - yl + 1) == (x - 1 - xl) * (yh - yl + 1) + (yh - yl + 1);
    }
  }

  /**
   * Every country gets exactly `(xh - xl + 1) * (yh - yl + 1)` cities, one per cell of its
   * rectangle, and no cell twice.
   */
  lemma {:induction false} CellsOfRectangle(r: Coordinates)
    requires r.xl <= r.xh && r.yl <= r.yh
    ensures |Cells(r)| == (r.xh - r.xl + 1) * (r.yh - r.yl + 1)
    ensures Distinct(Cells(r))
    ensures forall q :: q in Cells(r) <==> InRect(r, q)
  {
    RectCellsCount(r.xl, r.xh + 1, r.yl, r.yh);
    RectCellsDistinct(r.xl, r.xh + 1, r.yl, r.yh);
    RectCellsMembers(r.xl, r.xh + 1, r.yl, r.yh);
  }

  // ---------------------------------------------------------------------------------
  // All cities of a map

  /** The cell lies inside the rectangle, borders included. */
  predicate InRect(r: Coordinates, q: Cell)
  {
    r.xl <= q.0 <= r.xh && r.yl <= q.1 <= r.yh
  }

  /** Cells of all cities in creation order: country after country. */
  function AllCells(rects: seq<Coordinates>): seq<Cell>
  {
    if rects == [] then [] else AllCells(rects[..|rects| - 1]) + Cells(rects[|rects| - 1])
  }

  /** Index of the first city of country `k`. */
  function Start(rects: seq<Coordinates>, k: nat): nat
    requires k <= |rects|
  {
    |AllCells(rects[..k])|
  }

  /** Country `k`'s cities are the indices `Start(k) .. Start(k + 1) - 1`, holding its cells. */
  lemma {:induction false} StartStep(rects: seq<Coordinates>, k: nat)
    requires k < |rects|
    ensures Start(rects, k + 1) == Start(rects, k) + |Cells(rects[k])|
    ensures AllCells(rects[..k + 1]) == AllCells(rects[..k]) + Cells(rects[k])
  {
    assert rects[..k + 1][..k] == rects[..k];
  }

  /** Later countries start no earlier; the last start is the number of cities. */
  lemma {:induction false} StartMonotone(rects: seq<Coordinates>, j: nat, k: nat)
    requires j <= k <= |rects|
    ensures Start(rects, j) <= Start(rects, k) <= |AllCells(rects)|
    decreases |rects| - j
  {
    StartAll(rects);
    if j < |rects| {
      StartStep(rects, j);
      StartMonotone(rects, j + 1, |rects|);
      if j < k {
        StartMonotone(rects, j + 1, k);
      }
    }
  }

  /**
   * While a rectangle is being filled column by column, the cells placed so far in it are
   * fewer than all of its cells.
   */
  lemma {:induction false} PlacedBelowRect(r: Coordinates, x: int, y: int)
    requires r.xl <= x <= r.xh && r.yl <= y <= r.yh
    ensures |RectCells(r.xl, x, r.yl, r.yh)| + |ColumnCells(x, r.yl, y)| < |Cells(r)|
  {
    assert RectCells(r.xl, x + 1, r.yl, r.yh) == RectCells(r.xl, x, r.yl, r.yh) + ColumnCells(x, r.yl, r.yh + 1);
    RectCellsLonger(r.xl, x + 1, r.xh + 1, r.yl, r.yh);
  }

  /** Filling more columns never gives fewer cells. */
  lemma {:induction false} RectCellsLonger(xl: int, x: int, z: int, yl: int, yh: int)
    requires xl <= x <= z
    ensures |RectCells(xl, x, yl, yh)| <= |RectCells(xl, z, yl, yh)|
    decreases z - x
  {
    if x < z {
      RectCellsLonger(xl, x, z - 1, yl, yh);
    }
  }

  /**
   * The cells that have received a city when addCitiesToCountries reaches `(x, y)` in
   * country `k`: all earlier countries, the finished columns of this one, and the current
   * column up to `y - 1`.
   */
  function Placed(rects: seq<Coordinates>, k: nat, x: int, y: int): seq<Cell>
    requires k < |rects|
  {
    AllCells(rects[..k]) + RectCells(rects[k].xl, x, rects[k].yl, rects[k].yh) + ColumnCells(x, rects[k].yl, y)
  }

  /** Placing `(x, y)`, with `z = y + 1`, appends it. */
  lemma {:induction false} PlacedNext(rects: seq<Coordinates>, k: nat, x: int, y: int, z: int)
    requires k < |rects| && rects[k].xl <= x && rects[k].yl <= y && z == y + 1
    ensures Placed(rects, k, x, z) == Placed(rects, k, x, y) + [(x, y)]
  {
    assert ColumnCells(x, rects[k].yl, z) == ColumnCells(x, rects[k].yl, y) + [(x, y)];
  }

  /** A full column `x` continues with column `nx = x + 1`. */
  lemma {:induction false} PlacedNextColumn(rects: seq<Coordinates>, k: nat, x: int, nx: int)
    requires k < |rects| && rects[k].xl <= x && nx == x + 1
    ensures Placed(rects, k, x, rects[k].yh + 1) == Placed(rects, k, nx, rects[k].yl)
  {
    var r := rects[k];
    assert ColumnCells(nx, r.yl, r.yl) == [];
    assert RectCells(r.xl, nx, r.yl, r.yh) == RectCells(r.xl, x, r.yl, r.yh) + ColumnCells(x, r.yl, r.yh + 1);
  }

  /** Country `k` starts where the earlier countries ended, and ends with all of its own cells. */
  lemma {:induction false} PlacedEnds(rects: seq<Coordinates>, k: nat)
    requires k < |rects|
    ensures Placed(rects, k, rects[k].xl, rects[k].yl) == AllCells(rects[..k])
    ensures Placed(rects, k, rects[k].xh + 1, rects[k].yl) == AllCells(rects[..k + 1])
  {
    var r := rects[k];
    assert ColumnCells(r.xl, r.yl, r.yl) == [] && RectCells(r.xl, r.xl, r.yl, r.yh) == [];
    assert ColumnCells(r.xh + 1, r.yl, r.yl) == [];
    StartStep(rects, k);
  }

  /** While country `k` is being filled, fewer cells than the first city of country `k + 1` have been placed. */
  lemma {:induction false} PlacedCount(rects: seq<Coordinates>, k: nat, x: int, y: int)
    requires k < |rects| && rects[k].xl <= x <= rects[k].xh && rects[k].yl <= y <= rects[k].yh
    ensures Start(rects, k) <= |Placed(rects, k, x, y)| < Start(rects, k + 1) <= |AllCells(rects)|
  {
    PlacedBelowRect(rects[k], x, y);
    StartStep(rects, k);
    StartMonotone(rects, k + 1, |rects|);
  }

  /** The whole prefix of the rectangles is all of them. */
  lemma {:induction false} StartAll(rects: seq<Coordinates>)
    ensures Start(rects, |rects|) == |AllCells(rects)|
    ensures AllCells(rects[..|rects|]) == AllCells(rects)
  {
    assert rects[..|rects|] == rects;
  }

  /** Cell of the `j`-th city of country `k`. */
  lemma {:induction false} AllCellsAt(rects: seq<Coordinates>, k: nat, j: nat)
    requires k < |rects| && j < |Cells(rects[k])|
    ensures Start(rects, k) + j < |AllCells(rects)|
    ensures AllCells(rects)[Start(rects, k) + j] == Cells(rects[k])[j]
    decreases |rects|
  {
    var n := |rects| - 1;
    StartStep(rects, k);
    if k < n {
      AllCellsAt(rects[..n], k, j);
      assert rects[..n][k] == rects[k];
      assert rects[..n][..k] == rects[..k];
    } else {
      assert rects[..k] == rects[..n];
    }
  }

  /** A cell lies in the map's cells exactly when it lies in some country's rectangle. */
  lemma {:induction false} AllCellsMembers(rects: seq<Coordinates>)
    ensures forall q :: q in AllCells(rects) <==> exists k :: 0 <= k < |rects| && InRect(rects[k], q)
  {
    if rects != [] {
      var n := |rects| - 1;
      AllCellsMembers(rects[..n]);
      var r := rects[n];
      RectCellsMembers(r.xl, r.xh + 1, r.yl, r.yh);
      assert forall k :: 0 <= k < n ==> rects[..n][k] == rects[k];
    }
  }

  /** Two rectangles without a common cell. */
  predicate Disjoint(a: Coordinates, b: Coordinates)
  {
    a.xh < b.xl || b.xh < a.xl || a.yh < b.yl || b.yh < a.yl
  }

  predicate NoOverlap(rects: seq<Coordinates>)
  {
    forall j, k :: 0 <= j < k < |rects| ==> Disjoint(rects[j], rects[k])
  }

  /** With non-overlapping rectangles no cell gets two cities. */
  lemma {:induction false} AllCellsDistinct(rects: seq<Coordinates>)
    requires NoOverlap(rects)
    ensures Distinct(AllCells(rects))
  {
    if rects != [] {
      var n := |rects| - 1;
      var before, last := AllCells(rects[..n]), Cells(rects[n]);
      assert NoOverlap(rects[..n]);
      AllCellsDistinct(rects[..n]);
      AllCellsMembers(rects[..n]);
      RectCellsMembers(rects[n].xl, rects[n].xh + 1, rects[n].yl, rects[n].yh);
      RectCellsDistinct(rects[n].xl, rects[n].xh + 1, rects[n].yl, rects[n].yh);
      var all := before + last;
      forall i, j | 0 <= i < j < |all|
        ensures all[i] != all[j]
      {
        if i < |before| <= j {
          assert all[i] in before;
          var k :| 0 <= k < n && InRect(rects[..n][k], all[i]);
          assert rects[..n][k] == rects[k];
          assert Disjoint(rects[k], rects[n]);
          assert all[j] in last;
        }
      }
    }
  }

  /** Every cell of every country lies within the map's bounds. */
  lemma {:induction false} CellsWithinBounds(rects: seq<Coordinates>)
    ensures forall i :: 0 <= i < |AllCells(rects)| ==> WithinBounds(BoundsOf(rects), AllCells(rects)[i])
  {
    AllCellsMembers(rects);
    BoundsOfIsTightBox(rects);
    forall i | 0 <= i < |AllCells(rects)|
      ensures WithinBounds(BoundsOf(rects), AllCells(rects)[i])
    {
      assert AllCells(rects)[i] in AllCells(rects);
    }
  }

  predicate WithinBounds(b: Bounds, cell: Cell)
  {
    b.minX <= cell.0 <= b.maxX && b.minY <= cell.1 <= b.maxY
  }

  // ---------------------------------------------------------------------------------
  // The coordinate lookup

  /**
   * `countriesGrid` after setting `cells[0]`, `cells[1]`, ... to cities 0, 1, ...: a later
   * city placed on the same cell replaces an earlier one (src/classes/map.ts:76).
   */
  function Index(cells: seq<Cell>): map<Cell, nat>
  {
    if cells == [] then map[] else Index(cells[..|cells| - 1])[cells[|cells| - 1] := |cells| - 1]
  }

  /**
   * The lookup holds exactly the cells that received a city, and maps each to the LAST
   * city placed on it.
   */
  lemma {:induction false} IndexMaps(cells: seq<Cell>)
    ensures Index(cells).Keys == set i | 0 <= i < |cells| :: cells[i]
    ensures forall q :: q in Index(cells) ==>
              Index(cells)[q] < |cells| && cells[Index(cells)[q]] == q &&
              forall i :: Index(cells)[q] < i < |cells| ==> cells[i] != q
  {
    if cells != [] {
      var n := |cells| - 1;
      IndexMaps(cells[..n]);
      assert forall i :: 0 <= i < n ==> cells[..n][i] == cells[i];
      assert (set i | 0 <= i < |cells| :: cells[i]) == (set i | 0 <= i < n :: cells[..n][i]) + {cells[n]};
    }
  }

  /** Setting one more cell adds it to the lookup with the next index. */
  lemma {:induction false} IndexAppend(cells: seq<Cell>, q: Cell)
    ensures Index(cells + [q]) == Index(cells)[q := |cells|]
  {
    assert (cells + [q])[..|cells|] == cells;
  }

  /** Without repeated cells, city `i` is found at its own cell. */
  lemma {:induction false} IndexOfDistinct(cells: seq<Cell>)
    requires Distinct(cells)
    ensures forall i :: 0 <= i < |cells| ==> cells[i] in Index(cells) && Index(cells)[cells[i]] == i
  {
    IndexMaps(cells);
    forall i | 0 <= i < |cells|
      ensures cells[i] in Index(cells) && Index(cells)[cells[i]] == i
    {
      assert cells[i] in Index(cells).Keys;
      var j := Index(cells)[cells[i]];
      assert cells[j] == cells[i];
    }
  }

  // ---------------------------------------------------------------------------------
  // Neighbour lists

  /** `addNeighbor` behind its bounds test: the city at `cell`, if the test passed and there is one. */
  function Probe(lookup: map<Cell, nat>, inRange: bool, cell: Cell): (r: seq<nat>)
    ensures |r| <= 1
  {
    if inRange && cell in lookup then [lookup[cell]] else []
  }

  /**
   * The neighbour list addNeighborsToCities builds for the city at `(x, y)`
   * (src/classes/map.ts:94-114): right, left, up, down, each only if its bounds test passes
   * and a city occupies the cell. As written, the left test compares with `minY`.
   */
  function NeighborList(lookup: map<Cell, nat>, b: Bounds, x: int, y: int): (r: seq<nat>)
    ensures |r| <= 4
  {
    Probe(lookup, x + 1 <= b.maxX, (x + 1, y)) +
    Probe(lookup, x - 1 >= b.minY, (x - 1, y)) +
    Probe(lookup, y + 1 <= b.maxY, (x, y + 1)) +
    Probe(lookup, y - 1 >= b.minY, (x, y - 1))
  }

  /** The occupied cells among the four orthogonal neighbours, in the same order, with no bounds test. */
  function Adjacent(lookup: map<Cell, nat>, x: int, y: int): seq<nat>
  {
    Probe(lookup, true, (x + 1, y)) + Probe(lookup, true, (x - 1, y)) +
    Probe(lookup, true, (x, y + 1)) + Probe(lookup, true, (x, y - 1))
  }

  /**
   * When every occupied cell lies within the bounds and `minY <= minX` (for valid countries
   * both are 0), the bounds tests, the left one included, reject only empty cells: the list
   * is exactly the occupied orthogonal neighbours.
   */
  lemma {:induction false} GuardsOnlySkipEmptyCells(lookup: map<Cell, nat>, b: Bounds, x: int, y: int)
    requires forall q :: q in lookup ==> WithinBounds(b, q)
    requires b.minY <= b.minX
    ensures NeighborList(lookup, b, x, y) == Adjacent(lookup, x, y)
  {
    assert (x + 1, y) in lookup ==> x + 1 <= b.maxX by {
      if (x + 1, y) in lookup { assert WithinBounds(b, (x + 1, y)); }
    }
    assert (x - 1, y) in lookup ==> x - 1 >= b.minY by {
      if (x - 1, y) in lookup { assert WithinBounds(b, (x - 1, y)); }
    }
    assert (x, y + 1) in lookup ==> y + 1 <= b.maxY by {
      if (x, y + 1) in lookup { assert WithinBounds(b, (x, y + 1)); }
    }
    assert (x, y - 1) in lookup ==> y - 1 >= b.minY by {
      if (x, y - 1) in lookup { assert WithinBounds(b, (x, y - 1)); }
    }
  }

  /** Two cells differ by one step right, left, up or down. */
  predicate Orthogonal(p: Cell, q: Cell)
  {
    (p.1 == q.1 && (p.0 == q.0 + 1 || q.0 == p.0 + 1)) ||
    (p.0 == q.0 && (p.1 == q.1 + 1 || q.1 == p.1 + 1))
  }

  /** With one city per cell, probing cell `p` finds city `b` exactly when `p` is `b`'s cell. */
  lemma {:induction false} ProbeFinds(cells: seq<Cell>, p: Cell, b: nat)
    requires Distinct(cells) && b < |cells|
    ensures b in Probe(Index(cells), true, p) <==> p == cells[b]
  {
    IndexOfDistinct(cells);
    IndexMaps(cells);
  }

  /** Membership in an adjacency list is membership in one of its four probes. */
  lemma {:induction false} InAdjacent(lookup: map<Cell, nat>, x: int, y: int, b: nat)
    ensures b in Adjacent(lookup, x, y) <==>
              b in Probe(lookup, true, (x + 1, y)) || b in Probe(lookup, true, (x - 1, y)) ||
              b in Probe(lookup, true, (x, y + 1)) || b in Probe(lookup, true, (x, y - 1))
  {
  }

  /** City `b` is in the adjacency list of city `a`'s cell exactly when their cells touch. */
  lemma {:induction false} AdjacentIffOrthogonal(cells: seq<Cell>, a: nat, b: nat)
    requires Distinct(cells) && a < |cells| && b < |cells|
    ensures b in Adjacent(Index(cells), cells[a].0, cells[a].1) <==> Orthogonal(cells[a], cells[b])
  {
    var p := cells[a];
    InAdjacent(Index(cells), p.0, p.1, b);
    ProbeFinds(cells, (p.0 + 1, p.1), b);
    ProbeFinds(cells, (p.0 - 1, p.1), b);
    ProbeFinds(cells, (p.0, p.1 + 1), b);
    ProbeFinds(cells, (p.0, p.1 - 1), b);
  }

  /**
   * The neighbour relation is symmetric and irreflexive: with one city per cell, `b` is a
   * neighbour of `a` exactly when `a` is one of `b`, and no city is its own neighbour.
   */
  lemma {:induction false} NeighborsSymmetric(cells: seq<Cell>, a: nat, b: nat)
    requires Distinct(cells) && a < |cells| && b < |cells|
    ensures b in Adjacent(Index(cells), cells[a].0, cells[a].1) <==> a in Adjacent(Index(cells), cells[b].0, cells[b].1)
    ensures a !in Adjacent(Index(cells), cells[a].0, cells[a].1)
  {
    AdjacentIffOrthogonal(cells, a, b);
    AdjacentIffOrthogonal(cells, b, a);
    AdjacentIffOrthogonal(cells, a, a);
  }

  /**
   * The test map of two single-cell countries at (1, 1) and (3, 3): the city at (1, 1) gets
   * no neighbour (src/__tests__/index.test.ts:18-23).
   */
  lemma {:induction false} DisjointSingleCellsIsolated()
    ensures var rects := [Country.Coordinates(1, 1, 1, 1), Country.Coordinates(3, 3, 3, 3)];
      AllCells(rects) == [(1, 1), (3, 3)] &&
      NeighborList(Index(AllCells(rects)), BoundsOf(rects), 1, 1) == []
  {
    var rects := [Country.Coordinates(1, 1, 1, 1), Country.Coordinates(3, 3, 3, 3)];
    assert ColumnCells(1, 1, 2) == [(1, 1)] by { assert ColumnCells(1, 1, 1) == []; }
    assert ColumnCells(3, 3, 4) == [(3, 3)] by { assert ColumnCells(3, 3, 3) == []; }
    assert Cells(rects[0]) == [(1, 1)] by { assert RectCells(1, 1, 1, 1) == []; }
    assert Cells(rects[1]) == [(3, 3)] by { assert RectCells(3, 3, 3, 3) == []; }
    assert rects[..1] == [rects[0]];
    assert [rects[0]][..0] == [];
    assert AllCells(rects[..1]) == [(1, 1)];
    assert AllCells(rects) == [(1, 1), (3, 3)];
    var cells := [(1, 1), (3, 3)];
    assert cells[..1] == [(1, 1)];
    assert [(1, 1)][..0] == [];
    var lookup := Index(cells);
    assert lookup == map[(1, 1) := 0, (3, 3) := 1];
    assert BoundsOf(rects) == Bounds(0, 0, 3, 3) by {
      assert BoundsOf(rects[..1]) == Bounds(0, 0, 1, 1);
    }
  }
}
