# Euro diffusion, modelled in Dafny

This project models the core of the euro-diffusion emulator. Countries are axis-parallel
rectangles on a grid of at most 11 x 11 cells. Every cell of a country holds one city.
At the start, each city holds 1000000 coins of its own country's type. Every day, each city
sends each neighbour `floor(count / 1000)` coins of every type it holds. The coins are
buffered and then added at the end of the day. The emulation reports, for each country, the
first day on which every one of its cities held a coin of every type.

The modules follow the source files:

- `Text`: the JavaScript string operations the country parser relies on: `split(' ')`,
  `parseInt` on decimal tokens, and `length`, which counts UTF-16 code units.
- `City` (src/classes/city.ts): construction, `isCompleted`,
  `transportCoinsToNeighbors` and `updateCoins`.
  - The cities of a map live in an arena: city `c` is row `c` of two `array2<int>`
    tables, `coins` and `cache`.
  - Every arena method is proved against a function on an immutable snapshot of the
    two tables.
  - Coin conservation, sign preservation and idempotence are proved about those functions.
- `LegacyCity` (classes/city.ts): the older constructor and its default portion
  `initialCoinsCount / 1000`, which may be fractional.
- `Country` (classes/country.ts): coordinate validation, the class with `addCity` and
  `isCompleted`, and `parseCountryString`.
- `Geometry`: the layout src/classes/map.ts computes, as values:
  - the bounding box;
  - the cells of each rectangle in creation order;
  - the coordinate lookup `GridDictionary`;
  - the four-way neighbour probe.
- `Diffusion`: the day loop of `startDiffusionEmulation` as functions of a snapshot:
  - the transport phase, with each country checked right after its own cities
    transport, then the settle phase;
  - the history of checks, the result map and the stopping day.
  - a day in closed form: with symmetric neighbour lists, each city keeps its count less
    one share per neighbour and receives one share from each neighbour, whatever the order
    in which the cities transport.
- `MapGrid` (src/classes/map.ts): the `MapGrid` class.
  - The constructor, `addCitiesToCountries` and `addNeighborsToCities` are loops over the
    class's state.
  - `isCompleted`.
  - `startDiffusionEmulation`, whose loops are proved to produce exactly the arena and
    the result map that `Diffusion` defines.

Errors (`throw`) are values of `Errors.Error`, returned in a `Result` or an `Option`.

## Model

| member | source | states |
|---|---|---|
| Text.Split | classes/country.ts:74 | `split` with a one-character separator returns at least one piece, and no piece contains the separator |
| Text.JoinSplit | classes/country.ts:74 | joining the pieces of a split with the separator gives back the original string |
| Text.SplitPiece | classes/country.ts:74 | a string without the separator splits into itself alone |
| Text.SplitFirst | classes/country.ts:74 | a separator-free leading piece followed by a separator splits off as the first piece |
| Text.SplitJoin | classes/country.ts:74 | splitting a join of separator-free pieces gives back exactly those pieces |
| Text.Decimal | classes/country.ts:80 | the decimal numeral of a natural number is a non-empty run of digits |
| Text.ParseDecimal | classes/country.ts:80 | `parseInt` reads back every decimal numeral as the number it denotes |
| Text.Utf16Length | classes/country.ts:76 | `name.length` counts UTF-16 code units: at least one per character and at most two |
| Text.Utf16LengthBmp | classes/country.ts:76 | a string of characters below U+10000 has one code unit per character |
| Text.Utf16LengthAstral | classes/country.ts:76 | a string of characters above U+FFFF has two code units per character |
| City.Snapshot | src/classes/city.ts:8-9 | the view of the arena has one row per city in both tables, each as wide as the number of coin types |
| City.Row | src/classes/city.ts:8 | the view of one city's counters agrees with the array entry by entry |
| City.Rows | src/classes/city.ts:8-9 | the view of a whole table holds each city's row |
| City.RowsAre | src/classes/city.ts:8-9 | a table that agrees with an array entry by entry is that array's view |
| City.IndexOf | src/classes/city.ts:31 | `indexOf` is -1 exactly when the name is absent; otherwise it is the first position holding the name |
| City.Zeros | src/classes/city.ts:28-29 | `new Array(n).fill(0)` has n entries, all zero |
| City.InitialCoinsAt | src/classes/city.ts:28-33 | a new city has one counter per coin type; only the first type named like its country holds the initial count, and the rest are zero |
| City.InitialCoinsCompleted | src/classes/city.ts:19-43 | a new city is complete exactly when there is no coin type, or when its own type is the only one and the initial count is positive |
| City.FillRows | src/classes/city.ts:28-33 | zero-fills both rows of one city and then sets the counter at the given index; an index outside the row (`indexOf`'s -1) changes nothing, and other cities are unchanged |
| City.NewCity | src/classes/city.ts:19-35 | the city's counters become its initial coins and its buffer becomes zero; no other city changes |
| City.IsCompleted | src/classes/city.ts:41-43 | a city is complete exactly when every counter is positive |
| City.Share | src/classes/city.ts:50 | `Math.floor(count / portion)` for a positive portion: the unique share with `share * portion <= count < share * portion + portion` |
| City.ShareBelowPortion | src/classes/city.ts:50 | fewer coins than the portion give a share of zero, so they never move |
| City.Count | src/classes/city.ts:51 | how often a city occurs in a neighbour list, never more than the list's length |
| City.TransportOne | src/classes/city.ts:48-56 | a transport keeps the arena's shape and changes no other city's counters |
| City.SettleOne | src/classes/city.ts:61-66 | a settlement keeps the arena's shape and changes no other city's counters or buffer |
| City.TransportCoinsToNeighbors | src/classes/city.ts:48-56 | the arena after the loops is `TransportOne` of the arena before: for each coin type, the share of the count read at that type is added to each neighbour's buffer and subtracted from the sender once per neighbour |
| City.SendShare | src/classes/city.ts:51-54 | for one coin type, every neighbour entry gains one share in its buffer and the sender loses one share per entry; every other entry is unchanged |
| City.UpdateCoins | src/classes/city.ts:61-66 | the arena after the loop is `SettleOne` of the arena before: each buffered amount is added to the counter and the buffer is cleared |
| City.SettleOneIdempotent | src/classes/city.ts:61-66 | settling the same city twice is the same as settling it once |
| City.SentKeepsSign | src/classes/city.ts:50-53 | with fewer neighbours than the portion, sending never makes a counter negative and never empties a positive one |
| City.TransportOneKeepsSigns | src/classes/city.ts:48-56 | with fewer neighbours than the portion, a transport keeps every counter and buffer non-negative and every positive counter positive |
| City.SettleOneKeepsSigns | src/classes/city.ts:61-66 | settling keeps every entry non-negative and never lowers a counter |
| City.Column | src/classes/city.ts:8-9 | column `t` of a table holds each city's entry of coin type `t` |
| City.SumCounts | src/classes/city.ts:51-53 | giving one share to each entry of a neighbour list gives out as many shares as the list has entries |
| City.TransportOneConserves | src/classes/city.ts:48-56 | a transport creates and destroys no coin: for every type, held plus buffered coins over the arena stay the same |
| City.TransportHeldTotal | src/classes/city.ts:53 | the counters of a type lose one share per neighbour entry in total |
| City.TransportBufferedTotal | src/classes/city.ts:52 | the buffers of a type gain one share per neighbour entry in total |
| City.TransportColumns | src/classes/city.ts:52-53 | after a transport, column `t` holds the sender's counter less its shares and each buffer plus its shares |
| City.TransportOneAt | src/classes/city.ts:48-56 | every counter and buffer entry after a transport, in terms of the entries before |
| City.SettleOneConserves | src/classes/city.ts:61-66 | settling moves coins from a buffer to the counters, so each type's total stays the same |
| LegacyCity.NewCity | classes/city.ts:14-27 | the older constructor sets the counter at `countryIndex` to the initial count and zeroes the rest of the row and the whole buffer; no other city changes |
| LegacyCity.InitialCoinsAgree | classes/city.ts:22-25 | when `countryIndex` is the first coin type with its name, the older constructor builds the same row as the newer one |
| LegacyCity.DefaultShare | classes/city.ts:17 | with the default portion `initialCoinsCount / 1000`, in exact arithmetic, the share is the floor of `1000 * count / initialCoinsCount` |
| LegacyCity.DefaultShareIntegral | classes/city.ts:16-17 | for an initial count that is a multiple of 1000, the default share equals `City.Share` with the whole-number portion; the default count gives the newer City's portion |
| LegacyCity.FloorUnique | classes/city.ts:42 | a rounded-down quotient is unique |
| Country.AllCompletedAppend | classes/country.ts:56-66 | a country without cities is complete; adding a city keeps it complete exactly when the new city is complete |
| Country.Country.constructor | classes/country.ts:21-28 | a country built from valid coordinates keeps its name and coordinates and has no city |
| Country.Country.AddCity | classes/country.ts:56-58 | `addCity` appends the city at the end of the list |
| Country.Country.IsCompleted | classes/country.ts:64-66 | a country is complete exactly when every one of its cities exists and holds a coin of every type (the corrected reading; see Findings) |
| Country.AsWrittenMissesCompletedCity | classes/country.ts:65 | as written, a country whose only city holds a coin of every type is not reported complete |
| Country.NewCountry | classes/country.ts:21-28 | construction fails with the coordinates error exactly when the coordinates are invalid; otherwise it returns a new country with the given name and coordinates and no city |
| Country.ParseCountryFields | classes/country.ts:73-82 | an accepted line has a name of at most 25 UTF-16 code units and valid coordinates |
| Country.ParseCountryString | classes/country.ts:73-82 | `parseCountryString` fails exactly as the field parse fails; otherwise it returns a new country with the parsed fields |
| Country.ParseLine | classes/country.ts:73-82 | for a line `name xl yl xh yh`: a name over 25 UTF-16 code units is refused first; otherwise the coordinates are shifted down by one and accepted exactly when the shifted rectangle is valid |
| Country.ParseOneBasedRange | classes/country.ts:14-50 | one-based input: a square `v v v v` is accepted exactly for 1 <= v <= 11; a name of 25 code units passes and a longer one does not |
| Country.AstralNameRefused | classes/country.ts:76-77 | a name of 13 characters outside the Basic Multilingual Plane is 26 code units long, so the line is refused as too long |
| Geometry.BoundsOfIsTightBox | src/classes/map.ts:42-53 | the bounds are the smallest box containing the origin and every rectangle: each bound is 0 or a coordinate of some rectangle, and no rectangle sticks out |
| Geometry.ValidBoundsAtOrigin | src/classes/map.ts:42-53 | with valid rectangles the minimum corner is the origin and the maxima are at most 10 |
| Geometry.ColumnCells | src/classes/map.ts:74 | the inner loop over y visits `y - yl` cells |
| Geometry.ColumnCellsAt | src/classes/map.ts:74 | the `j`-th cell of a column is `(x, yl + j)` |
| Geometry.ColumnCellsMembers | src/classes/map.ts:74 | a cell is in a column exactly when it has the column's x and a y in range |
| Geometry.RectCellsMembers | src/classes/map.ts:73-74 | the two loops visit a cell exactly when it lies inside the rectangle |
| Geometry.RectCellsDistinct | src/classes/map.ts:73-74 | the two loops never visit a cell twice |
| Geometry.RectCellsCount | src/classes/map.ts:73-74 | `w` columns of `h` rows give `w * h` cells |
| Geometry.CellsOfRectangle | src/classes/map.ts:73-77 | each country gets `(xh - xl + 1) * (yh - yl + 1)` cities, one for each cell of its rectangle, and no cell twice |
| Geometry.StartStep | src/classes/map.ts:72-80 | country `k + 1` starts right after the cities of country `k` |
| Geometry.StartMonotone | src/classes/map.ts:72-80 | later countries start no earlier, and no country starts after the last city |
| Geometry.PlacedBelowRect | src/classes/map.ts:73-78 | while a rectangle is being filled, fewer cells than all of its cells have been placed |
| Geometry.RectCellsLonger | src/classes/map.ts:73 | filling more columns never gives fewer cells |
| Geometry.PlacedNext | src/classes/map.ts:74-78 | one pass of the inner loop appends the cell `(x, y)` |
| Geometry.PlacedNextColumn | src/classes/map.ts:73-79 | a finished column continues at the bottom of the next one |
| Geometry.PlacedEnds | src/classes/map.ts:72-80 | a country's loops start where the earlier countries ended and end with all of its own cells added |
| Geometry.PlacedCount | src/classes/map.ts:72-80 | while country `k` is being filled, the next city's index lies within country `k`'s block |
| Geometry.StartAll | src/classes/map.ts:72-80 | after the last country, all cities have been placed |
| Geometry.AllCellsAt | src/classes/map.ts:72-80 | the `j`-th city of country `k` is city `Start(k) + j`, at the `j`-th cell of the rectangle |
| Geometry.AllCellsMembers | src/classes/map.ts:72-80 | a cell holds a city exactly when it lies in some country's rectangle |
| Geometry.AllCellsDistinct | src/classes/map.ts:72-80 | with non-overlapping rectangles, no two cities share a cell |
| Geometry.CellsWithinBounds | src/classes/map.ts:42-80 | every city lies within the bounds the constructor computes |
| Geometry.IndexMaps | src/classes/map.ts:9-25 | the lookup holds exactly the cells that received a city and maps each to the last city placed on it |
| Geometry.IndexAppend | src/classes/map.ts:76 | setting one more cell adds it to the lookup with the next city |
| Geometry.IndexOfDistinct | src/classes/map.ts:76 | with one city per cell, each city is found at its own cell |
| Geometry.Probe | src/classes/map.ts:96-101 | `addNeighbor` behind its bounds test adds at most one city |
| Geometry.NeighborList | src/classes/map.ts:94-114 | a neighbour list has at most four entries |
| Geometry.GuardsOnlySkipEmptyCells | src/classes/map.ts:103-114 | when every city lies within the bounds and `minY <= minX`, the bounds tests, including the left one written against `minY`, reject only empty cells, so the list is exactly the occupied orthogonal neighbours |
| Geometry.ProbeFinds | src/classes/map.ts:97 | with one city per cell, probing a cell finds a city exactly when it is that city's cell |
| Geometry.AdjacentIffOrthogonal | src/classes/map.ts:94-114 | with one city per cell, city `b` is listed for city `a` exactly when their cells differ by one step right, left, up or down |
| Geometry.NeighborsSymmetric | src/classes/map.ts:94-114 | the neighbour relation is symmetric, and no city is its own neighbour |
| Geometry.DisjointSingleCellsIsolated | src/__tests__/index.test.ts:18-23 | for the two single-cell countries at (1, 1) and (3, 3), the city at (1, 1) gets no neighbour |
| Diffusion.Range | src/classes/map.ts:139 | a country's cities `lo .. hi - 1`, in order |
| Diffusion.TransportUpTo | src/classes/map.ts:138-148 | the transport phase keeps the arena's shape and the wiring |
| Diffusion.TransportUpToStep | src/classes/map.ts:139-141 | the transport phase is one `TransportOne` per city, in city order |
| Diffusion.SettleUpTo | src/classes/map.ts:150-154 | the settle phase keeps the arena's shape |
| Diffusion.SettleUpToStep | src/classes/map.ts:151-153 | the settle phase is one `SettleOne` per city, in city order |
| Diffusion.Day | src/classes/map.ts:137-155 | a day keeps the arena's shape and the wiring |
| Diffusion.DayState | src/classes/map.ts:137-156 | every day's arena has the starting arena's shape |
| Diffusion.Checks | src/classes/map.ts:143 | a day's checks hold one flag per country |
| Diffusion.History | src/classes/map.ts:137-156 | the history of `d` days has `d` days, each with one flag per country |
| Diffusion.HistoryAt | src/classes/map.ts:137-156 | day `e` of the history holds the checks of the arena at the start of day `e` |
| Diffusion.DayStateNext | src/classes/map.ts:155-156 | day `d + 1` is one more day run from day `d` |
| Diffusion.DayStep | src/classes/map.ts:137-155 | one more day runs `Day` and adds that day's checks to the result |
| Diffusion.SettledDays | src/classes/map.ts:156 | the completion test after each of the days `0 .. maxDays` |
| Diffusion.SettledDaysAt | src/classes/map.ts:156 | entry `e` of the list is whether the map is complete after `e` days |
| Diffusion.FirstTrueMeaning | src/classes/map.ts:156 | the search finds the first set flag from `d` on, and finds none exactly when none is set |
| Diffusion.FirstSettledStep | src/classes/map.ts:137-156 | either day `d` is settled, or the search moves on to `d + 1` |
| Diffusion.Owner | src/classes/map.ts:72-80 | every city belongs to exactly one country's block, the one returned |
| Diffusion.AllDoneIffAllCities | src/classes/map.ts:63-65 | the map is complete exactly when every city holds a coin of every type |
| Diffusion.TransportRows | src/classes/map.ts:138-141 | during the transport phase, a city's counters change only on its own turn |
| Diffusion.CheckedAtPhaseEnd | src/classes/map.ts:143 | checking a country right after its own cities transport gives the same answer as checking it after the whole transport phase |
| Diffusion.SettleUpToRows | src/classes/map.ts:150-154 | after the settle phase every settled city's buffer is empty and each counter has received its buffer; the rest are untouched |
| Diffusion.DayClearsCache | src/classes/map.ts:137-155 | every day ends with every buffer empty |
| Diffusion.TransportUpToCoins | src/classes/map.ts:138-141 | during the transport phase a city's counters change once, on its own turn, to its day-start count less one share per neighbour entry |
| Diffusion.TransportCacheStep | src/classes/map.ts:139-141 | one more city's transport adds its shares to the buffers of the cities it lists |
| Diffusion.TransportUpToCache | src/classes/map.ts:138-148 | after the transport phase each buffer holds its day-start amount plus every share sent to it that day, all computed from day-start counts |
| Diffusion.DayClosed | src/classes/map.ts:137-155 | a day leaves each city what it kept, plus its day-start buffer, plus everything sent to it that day, and empties every buffer |
| Diffusion.CountOnce | src/classes/city.ts:51 | a neighbour list without repeats names each city once or not at all |
| Diffusion.InflowWeighted | src/classes/map.ts:138-141 | with symmetric lists, what a city receives from the senders before `j` is their shares weighted by its own list |
| Diffusion.WeightedReceived | src/classes/map.ts:138-141 | weighting every city by how often a list names it adds up exactly the listed cities' shares |
| Diffusion.DayFromNeighbors | src/classes/map.ts:137-155 | with symmetric lists a day does not depend on the order of transport: each city keeps its count less one share per neighbour and receives one share from each neighbour, all from the day-start counts, and every buffer ends empty |
| Diffusion.NeighborRow | src/classes/city.ts:48-56 | a counter of a city with two or three neighbours after such a day, written out |
| Diffusion.EmptyCityFailsCheck | src/classes/map.ts:139-147 | a city holding none of some coin type at the start of a day still holds none when its country is checked, so that check fails that day |
| Diffusion.TransportUpToConserves | src/classes/map.ts:138-148 | the transport phase keeps each coin type's total |
| Diffusion.SettleUpToConserves | src/classes/map.ts:150-154 | the settle phase keeps each coin type's total |
| Diffusion.DayConserves | src/classes/map.ts:137-155 | a day keeps each coin type's total |
| Diffusion.DayStateStepConserves | src/classes/map.ts:137-156 | day `d + 1` has the totals of day `d` |
| Diffusion.DayStateConserves | src/classes/map.ts:137-156 | no coin is created or lost: on every day each type's total is the starting total |
| Diffusion.TransportUpToKeepsSigns | src/classes/map.ts:138-148 | with fewer neighbours than the portion, the transport phase keeps the arena non-negative and every positive counter positive |
| Diffusion.SettleUpToKeepsSigns | src/classes/map.ts:150-154 | the settle phase keeps the arena non-negative and every positive counter positive |
| Diffusion.KeepsPositiveChain | src/classes/map.ts:137-156 | two steps that each keep positive counters positive keep them positive together |
| Diffusion.DayKeepsSigns | src/classes/map.ts:137-155 | with fewer neighbours than the portion, one day keeps the arena non-negative and every positive counter positive |
| Diffusion.DayStateNonNegative | src/classes/map.ts:137-156 | with fewer neighbours than the portion, no counter or buffer is negative on any day |
| Diffusion.DayStateKeepsSigns | src/classes/map.ts:137-156 | a counter positive on day `d` is positive on every later day, so a complete city stays complete |
| Diffusion.DayStateStepKeepsSigns | src/classes/map.ts:137-156 | with fewer neighbours than the portion, day `d + 1` keeps positive every counter positive on day `d` |
| Diffusion.SettledStaysSettled | src/classes/map.ts:156 | a map complete at the end of one day is complete at the end of every later day |
| Diffusion.RecordUpToMeaning | src/classes/map.ts:143-147 | the checks of one day add exactly the complete countries' names that were missing, each with the day's number, and change no recorded value |
| Diffusion.NothingRecorded | src/classes/map.ts:143-147 | a day on which no country is found complete leaves the result unchanged |
| Diffusion.RecordDaysMeaning | src/classes/map.ts:137-156 | after several days, a name is recorded exactly when a country of that name was found complete, and its value is the first such day |
| Diffusion.HistoryChecks | src/classes/map.ts:137-156 | the recorded history holds exactly the checks of the days simulated |
| Diffusion.FillUpToMeaning | src/classes/map.ts:159-163 | the final fill adds every missing name with the day count and keeps every recorded value |
| Diffusion.FilledMeaning | src/classes/map.ts:143-163 | after the fill every country name is a key, and its value is the first day it was found complete, or the number of days |
| Diffusion.FirstSettledMeaning | src/classes/map.ts:156 | the search returns the first day in range at whose end the map is complete, or none when there is no such day |
| Diffusion.EmulateStops | src/classes/map.ts:137-156 | the loop stops at the first day, at least one, at whose end every country is complete; it fails exactly when no day up to the limit is such a day |
| Diffusion.ResultMeaning | src/classes/map.ts:132-166 | the returned map has one key per country name; each value is the first day, numbered from 0, on which a country of that name was found complete, or the number of days if there was none |
| Diffusion.LoneCityTransportFixed | src/__tests__/index.test.ts:37-42 | a lone city has no neighbour, so its transport leaves the arena unchanged |
| Diffusion.LoneCitySettleFixed | src/__tests__/index.test.ts:37-42 | with an empty buffer, the lone city's settlement leaves the arena unchanged |
| Diffusion.LoneCityDayFixed | src/__tests__/index.test.ts:37-42 | a day leaves the lone city as it was, and it is complete |
| Diffusion.LoneCityDoneOnDayZero | src/__tests__/index.test.ts:37-42 | the single-country sample ends after one day with Luxembourg reported at day 0 |
| Diffusion.LowlandsSymmetric | src/__tests__/index.test.ts:44-51 | the two-country sample's neighbour lists are symmetric and repeat no city |
| Diffusion.LowlandsNetherlandsDayOne | src/__tests__/index.test.ts:44-51 | on day 0 the Dutch cities bordering Belgium each receive 1000 Belgian coins and send 1000 guilders per neighbour; the inner ones only exchange guilders |
| Diffusion.LowlandsBelgiumDayOne | src/__tests__/index.test.ts:44-51 | the same first day for the Belgian cities |
| Diffusion.LowlandsNetherlandsDayTwo | src/__tests__/index.test.ts:44-51 | on day 1 every Dutch city ends with both coin types, the inner ones with a single Belgian coin |
| Diffusion.LowlandsBelgiumDayTwo | src/__tests__/index.test.ts:44-51 | the same second day for the Belgian cities |
| Diffusion.LowlandsDayOne | src/__tests__/index.test.ts:44-51 | the arena after the first day, city by city, with every buffer empty |
| Diffusion.LowlandsDayTwo | src/__tests__/index.test.ts:44-51 | the arena after the second day, city by city |
| Diffusion.LowlandsSettled | src/__tests__/index.test.ts:44-51 | the arena after the second day is complete |
| Diffusion.LowlandsDayZeroChecks | src/__tests__/index.test.ts:44-51 | neither country is complete when checked on day 0 |
| Diffusion.LowlandsDayOneChecks | src/__tests__/index.test.ts:44-51 | neither country is complete when checked on day 1, and the map is not complete after it |
| Diffusion.LowlandsRecorded | src/__tests__/index.test.ts:44-51 | with no country complete on days 0 and 1, the result is still empty after two days |
| Diffusion.LowlandsDayStates | src/__tests__/index.test.ts:44-51 | the checks of days 0 and 1 all fail, the map is not complete after day 1 and is complete after day 2 |
| Diffusion.LowlandsEmulate | src/classes/map.ts:132-166 | a map first complete after day 2 with nothing recorded returns both names with day 2 |
| Diffusion.LowlandsFill | src/classes/map.ts:159-163 | the final fill of an empty result gives both names the day count |
| Diffusion.LowlandsDoneOnDayTwo | src/__tests__/index.test.ts:44-51 | the two-country sample ends after two days with the Netherlands and Belgium both reported at day 2 |
| MapGrid.IndexIndexes | src/classes/map.ts:76 | every city's cell is in the lookup, and the lookup maps each cell to a city placed on it |
| MapGrid.NeighborLists | src/classes/map.ts:86-123 | the scan gives exactly one list per city |
| MapGrid.NeighborListBelow | src/classes/map.ts:94-114 | a neighbour list holds only cities the lookup holds |
| MapGrid.NeighborListsInRange | src/classes/map.ts:86-123 | every neighbour in every list is a city of the map |
| MapGrid.PartlyLinkedInRange | src/classes/map.ts:86-123 | partway through the scan, every list names only cities |
| MapGrid.ScanStart | src/classes/map.ts:87-88 | before the first cell nothing has been scanned |
| MapGrid.SkipCell | src/classes/map.ts:89-92 | an empty cell moves the scan on and changes nothing |
| MapGrid.LinkStep | src/classes/map.ts:94-120 | an occupied cell whose list is not refused gives its city that list, and the scan moves on |
| MapGrid.LinkLists | src/classes/map.ts:120 | storing the list of the city at `(x, y)` extends the scanned prefix by that city |
| MapGrid.ScanExtends | src/classes/map.ts:120 | storing one list moves the scanned prefix past `(x, y)` |
| MapGrid.LinkKeepsConnected | src/classes/map.ts:116-120 | a stored non-empty list keeps the scan free of isolated cities |
| MapGrid.FoundIsolated | src/classes/map.ts:116-118 | with several countries, an empty list at an occupied cell marks the first isolated city of the scan |
| MapGrid.LinkedPartly | src/classes/map.ts:86-123 | partway through, every list is either still empty or final |
| MapGrid.NextColumn | src/classes/map.ts:87-88 | a finished column continues at the bottom of the next one |
| MapGrid.ScanComplete | src/classes/map.ts:86-123 | past the last column every city has its list and, with several countries, none is isolated |
| MapGrid.StartsOf | src/classes/map.ts:72-80 | one start per country, plus the number of cities |
| MapGrid.StartsInOrder | src/classes/map.ts:72-80 | the countries split the cities into consecutive blocks in order, and country `k`'s block is its list of cities |
| MapGrid.FindBounds | src/classes/map.ts:42-53 | the bounding-box loop computes the bounds of all rectangles, starting from the origin |
| MapGrid.NewMapGrid | src/classes/map.ts:40-57 | construction fails exactly when the map is disconnected (several countries and a city without neighbours); the error names the country of the first isolated city in scan order; otherwise the new map is built |
| MapGrid.Outcome | src/classes/map.ts:55-56 | an error from the scan names the country of the first isolated city; no error leaves the map built |
| MapGrid.DisconnectedIff | src/classes/map.ts:116 | being disconnected, stated with the map's own lookup, bounds and cells |
| MapGrid.DisconnectedError | src/classes/map.ts:116-118 | the error of the first isolated city names the country that owns it |
| MapGrid.OwningCountry | src/classes/map.ts:75-77 | every city belongs to a country, whose name it carries |
| MapGrid.CityOwner | src/classes/map.ts:72-80 | the city numbered `c` is one of the cities of the country returned |
| MapGrid.KeysWithinBounds | src/classes/map.ts:42-53 | every cell of the lookup lies within the map's bounds |
| MapGrid.NeighborListsAdjacent | src/classes/map.ts:86-123 | for valid, non-overlapping countries each city's scanned list is exactly the cities on the orthogonally adjacent cells |
| MapGrid.NeighborListsSymmetric | src/classes/map.ts:86-123 | for valid, non-overlapping countries the scanned lists are symmetric, and no city is its own neighbour |
| MapGrid.DisjointSingleCellsDisconnected | src/__tests__/index.test.ts:18-23 | the two single-cell countries at (1, 1) and (3, 3) make a disconnected map, and the city at (1, 1) is the first isolated city the scan meets, so construction fails |
| MapGrid.MapGrid.constructor | src/classes/map.ts:40-55 | the constructor up to `addNeighborsToCities`: the bounds are found; every country gets its block of cities, named after it; the lookup indexes every cell; every city has its own coin full, an empty buffer and no neighbour |
| MapGrid.MapGrid.CreatedLaid | src/classes/map.ts:70-81 | once every country has its cities, the map is laid out and at its initial counters |
| MapGrid.MapGrid.LaidNames | src/classes/map.ts:75-77 | the cities of each country carry its name |
| MapGrid.MapGrid.LaidIsValid | src/classes/map.ts:40-57 | any neighbour lists that name only cities, one per city, complete a laid-out map |
| MapGrid.MapGrid.LaidIsBuilt | src/classes/map.ts:40-57 | a laid-out map with the scan's lists and the initial counters is what the constructor promises |
| MapGrid.MapGrid.InitializedSnapshot | src/classes/map.ts:75 | when every city has its initial counters, the arena is the initial arena |
| MapGrid.MapGrid.AddCitiesToCountries | src/classes/map.ts:70-81 | afterwards every cell is in the lookup, each country's cities are its block, named after it and initialized, and no city has a neighbour yet |
| MapGrid.MapGrid.AddCountry | src/classes/map.ts:72-80 | one more country gets its cities |
| MapGrid.MapGrid.AddedNext | src/classes/map.ts:72-80 | once country `k` has its cities, the first `k + 1` countries have theirs |
| MapGrid.MapGrid.AddCitiesOfCountry | src/classes/map.ts:73-79 | the outer loop places every cell of country `k`'s rectangle and keeps the earlier cities' names |
| MapGrid.MapGrid.AddColumn | src/classes/map.ts:74-78 | the inner loop places column `x` of the rectangle |
| MapGrid.MapGrid.AddCell | src/classes/map.ts:75-77 | one city is placed at `(x, y)`, and the list of country names grows by the country's name |
| MapGrid.MapGrid.AddCityAt | src/classes/map.ts:75-77 | the next city gets the initial counters, is set in the lookup at `(x, y)` and is appended to the country's cities |
| MapGrid.MapGrid.AddNeighborsToCities | src/classes/map.ts:86-123 | returns an error exactly when the map is disconnected, and the error names the first isolated city's country; otherwise every city gets the scan's list; the arena is untouched |
| MapGrid.MapGrid.ScanBox | src/classes/map.ts:87-122 | the two loops fail exactly when there are several countries and some city's list is empty; otherwise every city gets its list |
| MapGrid.MapGrid.ScanColumn | src/classes/map.ts:87-122 | one column of the scan, then on to the next |
| MapGrid.MapGrid.LinkColumn | src/classes/map.ts:88-121 | the scan of one column: either every cell is linked, or the first isolated city is reported |
| MapGrid.MapGrid.LinkCell | src/classes/map.ts:89-120 | one cell: an empty cell is skipped; an occupied cell's list is stored, or reported as the error when it is empty and there are several countries |
| MapGrid.MapGrid.NeighborsAt | src/classes/map.ts:94-114 | the four probes build the neighbour list: right, left, up, down, each behind its bounds test |
| MapGrid.MapGrid.ValidReady | src/classes/map.ts:132-137 | a valid map is ready for a day from its own arena |
| MapGrid.MapGrid.BuiltSparse | src/classes/map.ts:40-57 | a built map fits its wiring, every city has fewer neighbours than the portion, and no counter or buffer starts negative |
| MapGrid.MapGrid.BuiltStaysNonNegative | src/classes/map.ts:132-156 | from a built map no counter or buffer is negative on any day |
| MapGrid.MapGrid.BuiltSettledStaysSettled | src/classes/map.ts:156 | from a built map, a map complete after one day is complete after every later day |
| MapGrid.MapGrid.BuiltNeighborsSymmetric | src/classes/map.ts:86-123 | for valid, non-overlapping countries a built map's neighbour lists are symmetric, and no city is its own neighbour |
| MapGrid.MapGrid.CountriesCompleteIffDone | src/classes/map.ts:63-65 | every country is complete exactly when the map is done, and exactly when every city is complete |
| MapGrid.MapGrid.IsCompleted | src/classes/map.ts:63-65 | the map is complete exactly when every city holds a coin of every type |
| MapGrid.MapGrid.StartDiffusionEmulation | src/classes/map.ts:132-166 | drops the lookup, then runs days until the map is complete; the result and the final arena are those of `Diffusion.Emulate` (see `Diffusion.ResultMeaning` and `Diffusion.EmulateStops`) |
| MapGrid.MapGrid.RunDays | src/classes/map.ts:137-156 | after the loop, the arena and the result are those of the days run; `completed` means the last day is the first settled one; otherwise the day limit was reached with no settled day |
| MapGrid.MapGrid.NextDay | src/classes/map.ts:137-156 | one more turn of the loop keeps the arena and the result in step with the model |
| MapGrid.MapGrid.RunDay | src/classes/map.ts:138-156 | one day moves the arena on by `Diffusion.Day`, records that day's checks and tests `isCompleted` on the new arena |
| MapGrid.MapGrid.TransportPhase | src/classes/map.ts:138-148 | every city transports in order, and each country is checked and recorded right after its own cities |
| MapGrid.MapGrid.TransportCountry | src/classes/map.ts:139-147 | a country's cities transport, then the country is recorded with the day when it is complete and its name is missing |
| MapGrid.MapGrid.TransportCities | src/classes/map.ts:139-141 | a country's cities transport in order |
| MapGrid.MapGrid.TransportCity | src/classes/map.ts:140 | one city's transport, as the next in order |
| MapGrid.MapGrid.SettlePhase | src/classes/map.ts:150-154 | every city settles, in order |
| MapGrid.MapGrid.SettleCountry | src/classes/map.ts:151-153 | a country's cities settle, in order |
| MapGrid.MapGrid.FillResult | src/classes/map.ts:159-163 | every country name missing from the result gets the day count |

## Left out

- src/classes/reader.ts and src/index.ts are not part of this model. They read the input
  file and print the results, which is I/O.
- classes/map.ts is not part of this model. It is an older copy of the map.
- src/classes/country.ts, which src/classes/map.ts imports, is not part of this model. The
  model uses classes/country.ts in its place.
- `GridDictionary` keys cells by the string `x-y`. The model keys them by the pair `(x, y)`.
  Distinct integer pairs give distinct strings, so the two lookups hold the same entries.
- Object references are arena indices. A city is a row of the map's `coins` and `cache`
  tables. The map keeps each city's country name and neighbour list. A country keeps the
  indices of its cities. A Country object reused in a second MapGrid would get more cities
  appended in the source, so the map's constructor requires countries without cities.
- MapGrid.MapGrid.constructor and MapGrid.NewMapGrid require valid coordinates and pairwise
  distinct Country objects (the same object twice would alias its city list). They do not
  require non-overlapping rectangles: the lookup keeps the last city placed on a cell, as
  in the source.
- MapGrid.MapGrid.StartDiffusionEmulation: the `do ... while` loop runs at most `maxDays`
  days. When the map is not complete by then, the method returns `None`. The source loops
  until the map is complete, which might never happen. Dafny needs a termination argument,
  and `decreases *` is not used.
- MapGrid.MapGrid.StartDiffusionEmulation: dropping the lookup at src/classes/map.ts:133 is
  modelled as clearing it; nothing reads it afterwards.
- The three-country sample in src/__tests__/index.test.ts (Spain 382, Portugal 416,
  France 1325) is not proved. It would need thousands of concrete days evaluated by the
  verifier. The single-country sample (`Diffusion.LoneCityDoneOnDayZero`) and the
  two-country sample (`Diffusion.LowlandsDoneOnDayTwo`) are proved.
- Diffusion.LowlandsDoneOnDayTwo runs the day loop on the two-country sample's arena and
  neighbour lists written out by hand: each city lists its orthogonally adjacent cities,
  in the probe order right, left, up, down. That the constructor builds exactly these lists
  for this map is not proved. `MapGrid.NeighborListsAdjacent` states the adjacency for
  every valid map, and `Diffusion.DayFromNeighbors` shows that the order within a list does
  not change a day.
- Diffusion.DayStateKeepsSigns and Diffusion.SettledStaysSettled assume that every city has
  fewer neighbours than the portion. A city has at most 4 neighbours and the portion is 1000.
  `MapGrid.MapGrid.BuiltSparse` proves this assumption for every built map, and
  `MapGrid.MapGrid.BuiltSettledStaysSettled` states the result for the constructor's maps.
- JavaScript numbers are doubles. The model uses unbounded integers; every count stays far
  below 2^53.
- LegacyCity.DefaultShare computes the share with the fractional default portion in exact
  arithmetic. JavaScript computes `initialCoinsCount / 1000` and then `count / portion` in
  doubles, and each division rounds. For count 17 with initial count 17, the portion is the
  double nearest 0.017, `17 / 0.017` is just below 1000, and `Math.floor` gives 999. The
  model gives 1000. The (count, initial count) pairs (21, 21), (67, 67) and (17, 34) behave the
  same way. For the
  default initial count of 1000000 the portion is the whole number 1000, and for counts far
  below 2^53 the rounded quotient has the same floor (`LegacyCity.DefaultShareIntegral`).
- LegacyCity.NewCity requires `countryIndex < coinTypesNumber`. In JavaScript a larger
  index stores the initial count past the end of the filled array, so the array grows and
  the city has more counters than coin types. The arena's rows have a fixed width, so the
  model leaves that case out.
- The older city's transport and update are the same code as the newer city's and are
  modelled once, by `City.TransportCoinsToNeighbors` and `City.UpdateCoins`, which take a
  whole-number portion.
- Text.ParseInt (used by Country.ParseCountryFields) reads only tokens made entirely of
  decimal digits. `parseInt` also accepts a sign, leading spaces and trailing non-digits
  (`"3x"` is 3). The model treats such tokens as NaN, which the constructor rejects.
- Country.ParseCountryFields ignores coordinate tokens after the fourth, as the
  destructuring does. It keeps the name check before the coordinate check.
- The left-neighbour test at src/classes/map.ts:106 compares `x - 1` with `minY` rather than
  `minX`. The model keeps it as written (`Geometry.NeighborList`,
  `MapGrid.MapGrid.NeighborsAt`). For valid countries both minima are 0, and
  `Geometry.GuardsOnlySkipEmptyCells` shows that the test then rejects only empty cells. So
  it is not listed as a finding.

## Findings

| source | as written | input that shows it | evidently intended | confidence | as-written member | corrected member |
|---|---|---|---|---|---|---|
| classes/country.ts:65 | `isCompleted` tests `city.completed`, a property City does not have; every test is `undefined`, so only a country without cities is complete | a country with one city that holds a coin of every type (the single-country sample) is reported not complete, and the day loop never stops | call `city.isCompleted()` | not executed | Country.AsWrittenMissesCompletedCity | Country.Country.IsCompleted |
