/**
 * One cell of the map (src/classes/city.ts): a counter per coin type (`coins`) and a
 * same-length buffer of coins in transit (`cache`).
 *
 * The cities of one map live in an arena owned by the map: city `c` is row `c` of two
 * two-dimensional arrays, one column per coin type. A city's neighbours are row indices
 * into the same arena, so sending coins to a neighbour writes another row of `cache`
 * and can never touch the sender's own `coins`.
 *
 * Every arena method is specified by a function on `State`, an immutable snapshot of the
 * two arrays; the lemmas below are about those functions.
 */
module City {

  /** Coins a city starts with of its own country's type (src/classes/city.ts:1). */
  const InitialCoinsCount: int := 1000000
  /** Default divisor of the share sent to each neighbour (src/classes/city.ts:2). */
  const RepresentativePortion: int := InitialCoinsCount / 1000

  /** A representative portion; the map always uses a positive one. */
  type Portion = p: int | 1 <= p witness 1

  /** Snapshot of the arena: row `c` of each table belongs to city `c`. */
  datatype State = State(coins: seq<seq<int>>, cache: seq<seq<int>>)

  /** Number of coin types in a snapshot. */
  function Width(s: State): nat
  {
    if |s.coins| == 0 then 0 else |s.coins[0]|
  }

  /** Both tables have one row per city and one column per coin type. */
  predicate Shaped(s: State)
  {
    |s.coins| == |s.cache| &&
    forall c :: 0 <= c < |s.coins| ==> |s.coins[c]| == Width(s) && |s.cache[c]| == Width(s)
  }

  /** No counter and no buffered amount is negative. */
  predicate NonNegative(s: State)
    requires Shaped(s)
  {
    forall c, t :: 0 <= c < |s.coins| && 0 <= t < Width(s) ==> 0 <= s.coins[c][t] && 0 <= s.cache[c][t]
  }

  // ---------------------------------------------------------------------------------
  // Views of the arena arrays

  /** Two arrays of the same shape that can hold the counters and buffers of the cities. */
  predicate Arena(coins: array2<int>, cache: array2<int>)
  {
    coins != cache && coins.Length0 == cache.Length0 && coins.Length1 == cache.Length1
  }

  function Row(a: array2<int>, c: nat): (r: seq<int>)
    requires c < a.Length0
    reads a
    ensures |r| == a.Length1
    ensures forall t :: 0 <= t < a.Length1 ==> r[t] == a[c, t]
  {
    seq(a.Length1, t requires 0 <= t < a.Length1 reads a => a[c, t])
  }

  function Rows(a: array2<int>): (r: seq<seq<int>>)
    reads a
    ensures |r| == a.Length0
    ensures forall c :: 0 <= c < a.Length0 ==> r[c] == Row(a, c)
  {
    seq(a.Length0, c requires 0 <= c < a.Length0 reads a => Row(a, c))
  }

  function Snapshot(coins: array2<int>, cache: array2<int>): (s: State)
    requires Arena(coins, cache)
    reads coins, cache
    ensures Shaped(s) && |s.coins| == coins.Length0
    ensures |s.coins| > 0 ==> Width(s) == coins.Length1
  {
    State(Rows(coins), Rows(cache))
  }

  /** Entry-wise agreement of an array with a table gives equality of the views. */
  lemma {:induction false} RowsAre(a: array2<int>, rows: seq<seq<int>>)
    requires |rows| == a.Length0
    requires forall c :: 0 <= c < a.Length0 ==> |rows[c]| == a.Length1
    requires forall c, t :: 0 <= c < a.Length0 && 0 <= t < a.Length1 ==> a[c, t] == rows[c][t]
    ensures Rows(a) == rows
  {
    forall c | 0 <= c < a.Length0
      ensures Rows(a)[c] == rows[c]
    {
      assert Row(a, c) == rows[c];
    }
  }

  // ---------------------------------------------------------------------------------
  // Construction

  /**
   * `Array.prototype.indexOf`: the first index holding `name`, or -1 when there is none.
   */
  function IndexOf(coinTypes: seq<string>, name: string): (r: int)
    ensures -1 <= r < |coinTypes|
    ensures 0 <= r ==> coinTypes[r] == name && name !in coinTypes[..r]
    ensures r == -1 <==> name !in coinTypes
  {
    if |coinTypes| == 0 then -1
    else if coinTypes[0] == name then 0
    else
      var r := IndexOf(coinTypes[1..], name);
      assert coinTypes == [coinTypes[0]] + coinTypes[1..];
      if r == -1 then -1
      else
        assert coinTypes[..r + 1] == [coinTypes[0]] + coinTypes[1..][..r];
        r + 1
  }

  function Zeros(d: nat): (r: seq<int>)
    ensures |r| == d && forall t :: 0 <= t < d ==> r[t] == 0
  {
    seq(d, t => 0)
  }

  /**
   * Counters of a new city with `d` coin types whose own type has index `home`; an index
   * outside `[0, d)` (indexOf's -1) writes nothing the array's elements can see.
   */
  function HomeRow(d: nat, home: int, initialCoinsCount: int): seq<int>
  {
    seq(d, t => if t == home then initialCoinsCount else 0)
  }

  /** Counters of `new City(coinTypes, countryName, initialCoinsCount, ...)`. */
  function InitialCoins(coinTypes: seq<string>, countryName: string, initialCoinsCount: int): seq<int>
  {
    HomeRow(|coinTypes|, IndexOf(coinTypes, countryName), initialCoinsCount)
  }

  /**
   * A new city has one counter per coin type; the counter at the FIRST occurrence of its
   * country's name holds the initial count and every other counter is zero.
   */
  lemma {:induction false} InitialCoinsAt(coinTypes: seq<string>, countryName: string, initialCoinsCount: int, t: nat)
    requires t < |coinTypes|
    ensures |InitialCoins(coinTypes, countryName, initialCoinsCount)| == |coinTypes|
    ensures InitialCoins(coinTypes, countryName, initialCoinsCount)[t] ==
              if coinTypes[t] == countryName && countryName !in coinTypes[..t] then initialCoinsCount else 0
  {
    var home := IndexOf(coinTypes, countryName);
    assert forall j :: 0 <= j < t ==> coinTypes[..t][j] == coinTypes[j];
    assert 0 <= home ==> forall j :: 0 <= j < home ==> coinTypes[..home][j] == coinTypes[j];
  }

  /**
   * A new city is complete exactly when there is no coin type at all, or when its own
   * type is the only one and it starts with a positive count.
   */
  lemma {:induction false} InitialCoinsCompleted(coinTypes: seq<string>, countryName: string, initialCoinsCount: int)
    ensures Completed(InitialCoins(coinTypes, countryName, initialCoinsCount)) <==>
              |coinTypes| == 0 || (coinTypes == [countryName] && initialCoinsCount > 0)
  {
    var row := InitialCoins(coinTypes, countryName, initialCoinsCount);
    var home := IndexOf(coinTypes, countryName);
    if |coinTypes| >= 2 {
      var other := if home == 0 then 1 else 0;
      assert row[other] == 0;
    } else if |coinTypes| == 1 && coinTypes != [countryName] {
      assert countryName !in coinTypes;
      assert row[0] == 0;
    } else if |coinTypes| == 1 {
      assert home == 0;
      assert row[0] == initialCoinsCount;
    }
  }

  /**
   * The array set-up shared by both City constructors: both rows of city `c` filled with
   * zeros, then the counter at `home` set to the initial count. Assigning to an index
   * outside the row (indexOf's -1) changes no element.
   */
  method FillRows(coins: array2<int>, cache: array2<int>, c: nat, home: int, initialCoinsCount: int)
    requires Arena(coins, cache) && c < coins.Length0
    modifies coins, cache
    ensures Rows(coins) == old(Rows(coins))[c := HomeRow(coins.Length1, home, initialCoinsCount)]
    ensures Rows(cache) == old(Rows(cache))[c := Zeros(coins.Length1)]
  {
    var d := coins.Length1;
    for t := 0 to d
      invariant forall c', t' :: 0 <= c' < coins.Length0 && 0 <= t' < d ==>
                  coins[c', t'] == (if c' == c && t' < t then 0 else old(coins[c', t'])) &&
                  cache[c', t'] == (if c' == c && t' < t then 0 else old(cache[c', t']))
    {
      coins[c, t] := 0;
      cache[c, t] := 0;
    }
    if 0 <= home < d {
      coins[c, home] := initialCoinsCount;
    }
    RowsAre(coins, old(Rows(coins))[c := HomeRow(d, home, initialCoinsCount)]);
    RowsAre(cache, old(Rows(cache))[c := Zeros(d)]);
  }

  /**
   * `new City(coinTypes, countryName, initialCoinsCount, ...)` for city `c`
   * (src/classes/city.ts:19-35): the row of the first coin type named like the country
   * gets the initial count, every other counter and the whole buffer are zero.
   */
  method NewCity(coins: array2<int>, cache: array2<int>, c: nat,
                 coinTypes: seq<string>, countryName: string, initialCoinsCount: int)
    requires Arena(coins, cache) && c < coins.Length0 && coins.Length1 == |coinTypes|
    modifies coins, cache
    ensures Rows(coins) == old(Rows(coins))[c := InitialCoins(coinTypes, countryName, initialCoinsCount)]
    ensures Rows(cache) == old(Rows(cache))[c := Zeros(|coinTypes|)]
  {
    var countryIndex := IndexOf(coinTypes, countryName);
    FillRows(coins, cache, c, countryIndex, initialCoinsCount);
  }

  // ---------------------------------------------------------------------------------
  // Completion

  /** `isCompleted`: the city holds at least one coin of every type (src/classes/city.ts:41-43). */
  predicate Completed(coins: seq<int>)
  {
    forall t :: 0 <= t < |coins| ==> coins[t] > 0
  }

  /** `isCompleted` read from the arena. */
  function IsCompleted(coins: array2<int>, c: nat): (r: bool)
    requires c < coins.Length0
    reads coins
    ensures r <==> forall t :: 0 <= t < coins.Length1 ==> coins[c, t] > 0
  {
    Completed(Row(coins, c))
  }

  // ---------------------------------------------------------------------------------
  // Transport and settlement

  /**
   * `Math.floor(count / portion)`. For a positive divisor Dafny's `/` also rounds toward
   * negative infinity, so no case split is needed.
   */
  function Share(count: int, portion: Portion): (share: int)
    ensures share * portion <= count < share * portion + portion
  {
    count / portion
  }

  /** A count below the portion gives a share of 0: such coins do not move. */
  lemma {:induction false} ShareBelowPortion(count: int, portion: Portion)
    requires 0 <= count < portion
    ensures Share(count, portion) == 0
  {
  }

  /** Number of occurrences of `n` in `ns`. */
  function Count(n: nat, ns: seq<nat>): (k: nat)
    ensures k <= |ns|
  {
    if ns == [] then 0
    else Count(n, ns[..|ns| - 1]) + (if ns[|ns| - 1] == n then 1 else 0)
  }

  lemma {:induction false} Distribute(a: int, b: int, k: int)
    ensures (a + b) * k == a * k + b * k
  {
  }

  lemma {:induction false} CountPrefix(ns: seq<nat>, j: nat)
    requires j < |ns|
    ensures forall n :: Count(n, ns[..j + 1]) == Count(n, ns[..j]) + (if ns[j] == n then 1 else 0)
  {
    assert ns[..j + 1][..j] == ns[..j];
  }

  /**
   * The snapshot after city `c` sends its coins: for every coin type the share
   * `Share(count, portion)` of the sender's count before the call goes to each entry of
   * `neighbors` (so a neighbour listed twice gets it twice), and the sender's own counter
   * loses one share per entry. The sender's buffer and the other cities' counters stay.
   */
  function TransportOne(s: State, c: nat, neighbors: seq<nat>, portion: Portion): (r: State)
    requires Shaped(s) && c < |s.coins|
    ensures Shaped(r) && |r.coins| == |s.coins| && Width(r) == Width(s)
    ensures forall n :: 0 <= n < |s.coins| && n != c ==> r.coins[n] == s.coins[n]
  {
    var d := Width(s);
    State(
      s.coins[c := seq(d, t requires 0 <= t < d => s.coins[c][t] - |neighbors| * Share(s.coins[c][t], portion))],
      seq(|s.cache|, n requires 0 <= n < |s.cache| =>
        seq(d, t requires 0 <= t < d => s.cache[n][t] + Count(n, neighbors) * Share(s.coins[c][t], portion))))
  }

  /** The snapshot after city `c` folds its buffer into its counters and clears the buffer. */
  function SettleOne(s: State, c: nat): (r: State)
    requires Shaped(s) && c < |s.coins|
    ensures Shaped(r) && |r.coins| == |s.coins| && Width(r) == Width(s)
    ensures forall n :: 0 <= n < |s.coins| && n != c ==> r.coins[n] == s.coins[n] && r.cache[n] == s.cache[n]
  {
    var d := Width(s);
    State(s.coins[c := seq(d, t requires 0 <= t < d => s.coins[c][t] + s.cache[c][t])], s.cache[c := Zeros(d)])
  }

  /**
   * `transportCoinsToNeighbors` (src/classes/city.ts:48-56): for each coin type, the share
   * of the count it had when the loop reached it is added to every neighbour's buffer and
   * taken from the sender's counter once per neighbour.
   */
  method TransportCoinsToNeighbors(coins: array2<int>, cache: array2<int>, c: nat,
                                   neighbors: seq<nat>, portion: Portion)
    requires Arena(coins, cache) && c < coins.Length0
    requires forall j :: 0 <= j < |neighbors| ==> neighbors[j] < cache.Length0
    modifies coins, cache
    ensures Snapshot(coins, cache) == TransportOne(old(Snapshot(coins, cache)), c, neighbors, portion)
  {
    var rows, d := coins.Length0, coins.Length1;
    for t := 0 to d
      invariant forall c', t' :: 0 <= c' < rows && 0 <= t' < d ==>
                  coins[c', t'] == if c' == c && t' < t
                                   then old(coins[c, t']) - |neighbors| * Share(old(coins[c, t']), portion)
                                   else old(coins[c', t'])
      invariant forall n, t' :: 0 <= n < rows && 0 <= t' < d ==>
                  cache[n, t'] == if t' < t
                                  then old(cache[n, t']) + Count(n, neighbors) * Share(old(coins[c, t']), portion)
                                  else old(cache[n, t'])
    {
      var share := Share(coins[c, t], portion);
      SendShare(coins, cache, c, t, neighbors, share);
    }
    ghost var r := TransportOne(old(Snapshot(coins, cache)), c, neighbors, portion);
    RowsAre(coins, r.coins);
    RowsAre(cache, r.cache);
  }

  /**
   * The inner `forEach` of transportCoinsToNeighbors (src/classes/city.ts:51-54): `share`
   * coins of type `t` are added to each neighbour's buffer in turn and taken from city `c`'s
   * counter each time.
   */
  method SendShare(coins: array2<int>, cache: array2<int>, c: nat, t: nat, neighbors: seq<nat>, share: int)
    requires Arena(coins, cache) && c < coins.Length0 && t < coins.Length1
    requires forall j :: 0 <= j < |neighbors| ==> neighbors[j] < cache.Length0
    modifies coins, cache
    ensures coins[c, t] == old(coins[c, t]) - |neighbors| * share
    ensures forall n :: 0 <= n < cache.Length0 ==> cache[n, t] == old(cache[n, t]) + Count(n, neighbors) * share
    ensures forall c', t' :: 0 <= c' < coins.Length0 && 0 <= t' < coins.Length1 && (c' != c || t' != t) ==>
              coins[c', t'] == old(coins[c', t'])
    ensures forall n, t' :: 0 <= n < cache.Length0 && 0 <= t' < cache.Length1 && t' != t ==>
              cache[n, t'] == old(cache[n, t'])
  {
    for j := 0 to |neighbors|
      invariant coins[c, t] == old(coins[c, t]) - j * share
      invariant forall n :: 0 <= n < cache.Length0 ==> cache[n, t] == old(cache[n, t]) + Count(n, neighbors[..j]) * share
      invariant forall c', t' :: 0 <= c' < coins.Length0 && 0 <= t' < coins.Length1 && (c' != c || t' != t) ==>
                  coins[c', t'] == old(coins[c', t'])
      invariant forall n, t' :: 0 <= n < cache.Length0 && 0 <= t' < cache.Length1 && t' != t ==>
                  cache[n, t'] == old(cache[n, t'])
    {
      CountPrefix(neighbors, j);
      ghost var previous := Column(Rows(cache), t);
      cache[neighbors[j], t] := cache[neighbors[j], t] + share;
      coins[c, t] := coins[c, t] - share;
      Distribute(j, 1, share);
      forall n | 0 <= n < cache.Length0
        ensures cache[n, t] == old(cache[n, t]) + Count(n, neighbors[..j + 1]) * share
      {
        var one := if neighbors[j] == n then 1 else 0;
        assert cache[n, t] == previous[n] + one * share;
        Distribute(Count(n, neighbors[..j]), one, share);
      }
    }
    assert neighbors[..|neighbors|] == neighbors;
  }

  /**
   * `updateCoins` (src/classes/city.ts:61-66): for every coin type the buffered amount is
   * added to the counter and the buffer entry is reset to 0.
   */
  method UpdateCoins(coins: array2<int>, cache: array2<int>, c: nat)
    requires Arena(coins, cache) && c < coins.Length0
    modifies coins, cache
    ensures Snapshot(coins, cache) == SettleOne(old(Snapshot(coins, cache)), c)
  {
    var rows, d := coins.Length0, coins.Length1;
    for coinType := 0 to d
      invariant forall c', t :: 0 <= c' < rows && 0 <= t < d ==>
                  coins[c', t] == (if c' == c && t < coinType then old(coins[c, t]) + old(cache[c, t]) else old(coins[c', t])) &&
                  cache[c', t] == (if c' == c && t < coinType then 0 else old(cache[c', t]))
    {
      coins[c, coinType] := coins[c, coinType] + cache[c, coinType];
      cache[c, coinType] := 0;
    }
    ghost var r := SettleOne(old(Snapshot(coins, cache)), c);
    RowsAre(coins, r.coins);
    RowsAre(cache, r.cache);
  }

  // ---------------------------------------------------------------------------------
  // Properties of one city's step

  /** Settling a city a second time changes nothing. */
  lemma {:induction false} SettleOneIdempotent(s: State, c: nat)
    requires Shaped(s) && c < |s.coins|
    ensures Shaped(SettleOne(s, c))
    ensures SettleOne(SettleOne(s, c), c) == SettleOne(s, c)
  {
    var s1 := SettleOne(s, c);
    assert Width(s1) == Width(s);
    assert SettleOne(s1, c).coins[c] == s1.coins[c];
  }

  /**
   * With fewer neighbours than the portion, sending never drives a counter below zero
   * and never empties a positive one.
   */
  lemma {:induction false} SentKeepsSign(count: int, k: nat, portion: Portion)
    requires k < portion
    ensures 0 <= count ==> 0 <= count - k * Share(count, portion)
    ensures 0 < count ==> 0 < count - k * Share(count, portion)
  {
    var share := Share(count, portion);
    if 0 <= count {
      if count < portion {
        ShareBelowPortion(count, portion);
      } else {
        assert 1 <= share;
        FewerShares(k, share, portion);
      }
    }
  }

  /** Fewer than `portion` shares weigh at most one share less than `portion` of them. */
  lemma {:induction false} FewerShares(k: nat, share: nat, portion: int)
    requires k < portion
    ensures k * share <= share * portion - share
  {
    assert share * portion - share == (portion - 1) * share;
    assert (portion - 1) * share - k * share == (portion - 1 - k) * share;
  }

  /** Transport keeps every counter and buffer non-negative when `|neighbors| < portion`. */
  lemma {:induction false} TransportOneKeepsSigns(s: State, c: nat, neighbors: seq<nat>, portion: Portion)
    requires Shaped(s) && c < |s.coins| && NonNegative(s) && |neighbors| < portion
    ensures Shaped(TransportOne(s, c, neighbors, portion))
    ensures NonNegative(TransportOne(s, c, neighbors, portion))
    ensures forall c', t :: 0 <= c' < |s.coins| && 0 <= t < Width(s) && 0 < s.coins[c'][t] ==>
              0 < TransportOne(s, c, neighbors, portion).coins[c'][t]
  {
    var r := TransportOne(s, c, neighbors, portion);
    var d := Width(s);
    assert Width(r) == d;
    forall c', t | 0 <= c' < |s.coins| && 0 <= t < d
      ensures 0 <= r.coins[c'][t] && 0 <= r.cache[c'][t]
      ensures 0 < s.coins[c'][t] ==> 0 < r.coins[c'][t]
    {
      var share := Share(s.coins[c][t], portion);
      assert r.cache[c'][t] == s.cache[c'][t] + Count(c', neighbors) * share;
      NonNegativeProduct(Count(c', neighbors), share);
      if c' == c {
        assert r.coins[c][t] == s.coins[c][t] - |neighbors| * share;
        SentKeepsSign(s.coins[c][t], |neighbors|, portion);
      }
    }
  }

  lemma {:induction false} NonNegativeProduct(a: nat, b: nat)
    ensures 0 <= a * b
  {
  }

  /** Settling keeps the signs and never lowers a counter. */
  lemma {:induction false} SettleOneKeepsSigns(s: State, c: nat)
    requires Shaped(s) && c < |s.coins| && NonNegative(s)
    ensures Shaped(SettleOne(s, c))
    ensures NonNegative(SettleOne(s, c))
    ensures forall c', t :: 0 <= c' < |s.coins| && 0 <= t < Width(s) ==>
              s.coins[c'][t] <= SettleOne(s, c).coins[c'][t]
  {
    assert Width(SettleOne(s, c)) == Width(s);
  }

  // ---------------------------------------------------------------------------------
  // Conservation

  function Sum(xs: seq<int>): int
  {
    if xs == [] then 0 else Sum(xs[..|xs| - 1]) + xs[|xs| - 1]
  }

  /** Column `t` of a table (0 for a row too short to have one). */
  function Column(rows: seq<seq<int>>, t: nat): (col: seq<int>)
    ensures |col| == |rows|
    ensures forall c :: 0 <= c < |rows| && t < |rows[c]| ==> col[c] == rows[c][t]
  {
    seq(|rows|, c requires 0 <= c < |rows| => if t < |rows[c]| then rows[c][t] else 0)
  }

  /** All coins of type `t` in the arena, held or in transit. */
  function ColumnTotal(s: State, t: nat): int
  {
    Sum(Column(s.coins, t)) + Sum(Column(s.cache, t))
  }

  lemma {:induction false} SumUpdate(xs: seq<int>, i: nat, v: int)
    requires i < |xs|
    ensures Sum(xs[i := v]) == Sum(xs) - xs[i] + v
  {
    var n := |xs| - 1;
    assert xs[i := v][..n] == if i < n then xs[..n][i := v] else xs[..n];
    if i < n {
      SumUpdate(xs[..n], i, v);
    }
  }

  lemma {:induction false} SumPointwise(xs: seq<int>, ys: seq<int>, zs: seq<int>)
    requires |xs| == |ys| == |zs|
    requires forall i :: 0 <= i < |zs| ==> zs[i] == xs[i] + ys[i]
    ensures Sum(zs) == Sum(xs) + Sum(ys)
  {
    if zs != [] {
      var n := |zs| - 1;
      SumPointwise(xs[..n], ys[..n], zs[..n]);
    }
  }

  /** Handing one share to every entry of `ns` hands out `|ns|` shares in all. */
  lemma {:induction false} SumCounts(ns: seq<nat>, share: int, zs: seq<int>)
    requires forall j :: 0 <= j < |ns| ==> ns[j] < |zs|
    requires forall n :: 0 <= n < |zs| ==> zs[n] == Count(n, ns) * share
    ensures Sum(zs) == |ns| * share
  {
    if ns == [] {
      ZeroSum(zs);
    } else {
      var m := ns[|ns| - 1];
      var before := ns[..|ns| - 1];
      var ys := seq(|zs|, n requires 0 <= n < |zs| => Count(n, before) * share);
      SumCounts(before, share, ys);
      forall n | 0 <= n < |zs|
        ensures zs[n] == ys[n] + (if n == m then share else 0)
      {
        assert ns[..|ns| - 1] == before;
        Distribute(Count(n, before), if n == m then 1 else 0, share);
      }
      assert zs == ys[m := ys[m] + share];
      SumUpdate(ys, m, ys[m] + share);
      Distribute(|before|, 1, share);
    }
  }

  lemma {:induction false} ZeroSum(zs: seq<int>)
    requires forall n :: 0 <= n < |zs| ==> zs[n] == 0
    ensures Sum(zs) == 0
  {
    if zs != [] {
      ZeroSum(zs[..|zs| - 1]);
    }
  }

  /**
   * Transport moves coins and creates none: for every coin type the total of the counters
   * and buffers over the arena is the same before and after, provided every neighbour is a
   * city of the arena.
   */
  lemma {:induction false} TransportOneConserves(s: State, c: nat, neighbors: seq<nat>, portion: Portion, t: nat)
    requires Shaped(s) && c < |s.coins| && t < Width(s)
    requires forall j :: 0 <= j < |neighbors| ==> neighbors[j] < |s.coins|
    ensures ColumnTotal(TransportOne(s, c, neighbors, portion), t) == ColumnTotal(s, t)
  {
    var sent := |neighbors| * Share(s.coins[c][t], portion);
    TransportHeldTotal(s, c, neighbors, portion, t);
    TransportBufferedTotal(s, c, neighbors, portion, t);
    assert Sum(Column(TransportOne(s, c, neighbors, portion).coins, t)) == Sum(Column(s.coins, t)) - sent;
    assert Sum(Column(TransportOne(s, c, neighbors, portion).cache, t)) == Sum(Column(s.cache, t)) + sent;
  }

  /** The sender's counters lose one share per neighbour entry. */
  lemma {:induction false} TransportHeldTotal(s: State, c: nat, neighbors: seq<nat>, portion: Portion, t: nat)
    requires Shaped(s) && c < |s.coins| && t < Width(s)
    ensures Sum(Column(TransportOne(s, c, neighbors, portion).coins, t)) ==
              Sum(Column(s.coins, t)) - |neighbors| * Share(s.coins[c][t], portion)
  {
    var before := Column(s.coins, t);
    TransportColumns(s, c, neighbors, portion, t);
    SumUpdate(before, c, before[c] - |neighbors| * Share(s.coins[c][t], portion));
  }

  /** The buffers gain one share per neighbour entry. */
  lemma {:induction false} TransportBufferedTotal(s: State, c: nat, neighbors: seq<nat>, portion: Portion, t: nat)
    requires Shaped(s) && c < |s.coins| && t < Width(s)
    requires forall j :: 0 <= j < |neighbors| ==> neighbors[j] < |s.coins|
    ensures Sum(Column(TransportOne(s, c, neighbors, portion).cache, t)) ==
              Sum(Column(s.cache, t)) + |neighbors| * Share(s.coins[c][t], portion)
  {
    var share := Share(s.coins[c][t], portion);
    TransportColumns(s, c, neighbors, portion, t);
    var sent := seq(|s.cache|, n requires 0 <= n < |s.cache| => Count(n, neighbors) * share);
    SumCounts(neighbors, share, sent);
    SumPointwise(Column(s.cache, t), sent, Column(TransportOne(s, c, neighbors, portion).cache, t));
  }

  /** Column `t` after a transport: the sender's counter drops, each buffer gains its shares. */
  lemma {:induction false} TransportColumns(s: State, c: nat, neighbors: seq<nat>, portion: Portion, t: nat)
    requires Shaped(s) && c < |s.coins| && t < Width(s)
    ensures Column(TransportOne(s, c, neighbors, portion).coins, t) ==
              Column(s.coins, t)[c := s.coins[c][t] - |neighbors| * Share(s.coins[c][t], portion)]
    ensures forall n :: 0 <= n < |s.cache| ==>
              Column(TransportOne(s, c, neighbors, portion).cache, t)[n] ==
              Column(s.cache, t)[n] + Count(n, neighbors) * Share(s.coins[c][t], portion)
  {
    var r := TransportOne(s, c, neighbors, portion);
    TransportOneAt(s, c, neighbors, portion);
    var share := Share(s.coins[c][t], portion);
    var expected := Column(s.coins, t)[c := s.coins[c][t] - |neighbors| * share];
    assert |Column(r.coins, t)| == |expected|;
    forall n | 0 <= n < |s.coins|
      ensures Column(r.coins, t)[n] == expected[n]
    {
    }
    assert Column(r.coins, t) == expected;
    forall n | 0 <= n < |s.cache|
      ensures Column(r.cache, t)[n] == Column(s.cache, t)[n] + Count(n, neighbors) * share
    {
      assert |r.cache[n]| == Width(s) && |s.cache[n]| == Width(s);
    }
  }

  /** Every counter and buffer entry after a transport. */
  lemma {:induction false} TransportOneAt(s: State, c: nat, neighbors: seq<nat>, portion: Portion)
    requires Shaped(s) && c < |s.coins|
    ensures var r := TransportOne(s, c, neighbors, portion);
      forall n, t :: 0 <= n < |s.coins| && 0 <= t < Width(s) ==>
        r.coins[n][t] == (if n == c then s.coins[c][t] - |neighbors| * Share(s.coins[c][t], portion) else s.coins[n][t]) &&
        r.cache[n][t] == s.cache[n][t] + Count(n, neighbors) * Share(s.coins[c][t], portion)
  {
  }

  /** Settling only moves coins from a city's buffer to its counters. */
  lemma {:induction false} SettleOneConserves(s: State, c: nat, t: nat)
    requires Shaped(s) && c < |s.coins| && t < Width(s)
    ensures ColumnTotal(SettleOne(s, c), t) == ColumnTotal(s, t)
  {
    var r := SettleOne(s, c);
    var held, buffered := Column(s.coins, t), Column(s.cache, t);
    assert Column(r.coins, t) == held[c := held[c] + buffered[c]];
    assert Column(r.cache, t) == buffered[c := 0];
    SumUpdate(held, c, held[c] + buffered[c]);
    SumUpdate(buffered, c, 0);
  }
}
