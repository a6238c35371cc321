/**
 * The older City (classes/city.ts). It differs from src/classes/city.ts only in its
 * constructor: the own coin type is given as a number, and the default representative
 * portion is derived from the initial count. Its transport, update and completion code is
 * the same and is modelled once, by `City.TransportCoinsToNeighbors`,
 * `City.UpdateCoins` and `City.Completed`.
 */
module LegacyCity {
  import City

  /** Default initial count of the older constructor (classes/city.ts:16). */
  const DefaultInitialCoinsCount: int := 1000000

  /**
   * `new City(coinTypesNumber, countryIndex, initialCoinsCount, ...)` for city `c`
   * (classes/city.ts:14-27): zero counters and buffer except the counter at
   * `countryIndex`, which gets the initial count.
   */
  method NewCity(coins: array2<int>, cache: array2<int>, c: nat,
                 coinTypesNumber: nat, countryIndex: nat, initialCoinsCount: int)
    requires City.Arena(coins, cache) && c < coins.Length0 && coins.Length1 == coinTypesNumber
    requires countryIndex < coinTypesNumber
    modifies coins, cache
    ensures City.Rows(coins)[c] == City.HomeRow(coinTypesNumber, countryIndex, initialCoinsCount)
    ensures City.Rows(coins) == old(City.Rows(coins))[c := City.HomeRow(coinTypesNumber, countryIndex, initialCoinsCount)]
    ensures City.Rows(cache) == old(City.Rows(cache))[c := City.Zeros(coinTypesNumber)]
  {
    City.FillRows(coins, cache, c, countryIndex, initialCoinsCount);
  }

  /**
   * The row the older constructor builds: one counter per coin type, the initial count at
   * `countryIndex` and zero elsewhere. When `countryIndex` is the first coin type named
   * like the country it is the row the newer constructor builds.
   */
  lemma {:induction false} InitialCoinsAgree(coinTypes: seq<string>, countryIndex: nat, initialCoinsCount: int)
    requires countryIndex < |coinTypes|
    requires coinTypes[countryIndex] !in coinTypes[..countryIndex]
    ensures City.HomeRow(|coinTypes|, countryIndex, initialCoinsCount) ==
              City.InitialCoins(coinTypes, coinTypes[countryIndex], initialCoinsCount)
  {
    var name := coinTypes[countryIndex];
    var home := City.IndexOf(coinTypes, name);
    assert forall j :: 0 <= j < countryIndex ==> coinTypes[..countryIndex][j] == coinTypes[j];
    assert forall j :: 0 <= j < home ==> coinTypes[..home][j] == coinTypes[j];
    assert home == countryIndex;
  }

  /**
   * `Math.floor(count / representativePortion)` with the default portion
   * `initialCoinsCount / 1000` (classes/city.ts:17, 42), in exact arithmetic: the quotient
   * rounded down of `1000 * count` by the initial count.
   */
  function DefaultShare(count: int, initialCoinsCount: int): (share: int)
    requires initialCoinsCount > 0
    ensures share * initialCoinsCount <= 1000 * count < share * initialCoinsCount + initialCoinsCount
  {
    (1000 * count) / initialCoinsCount
  }

  /**
   * When the initial count is a multiple of 1000 the default portion is a whole number and
   * the share is the one `City.Share` computes with it; the default count gives the
   * portion 1000 of the newer City.
   */
  lemma {:induction false} DefaultShareIntegral(count: int, initialCoinsCount: int)
    requires initialCoinsCount > 0 && initialCoinsCount % 1000 == 0
    ensures initialCoinsCount / 1000 >= 1
    ensures DefaultShare(count, initialCoinsCount) == City.Share(count, initialCoinsCount / 1000)
    ensures DefaultInitialCoinsCount / 1000 == City.RepresentativePortion
  {
    var q := initialCoinsCount / 1000;
    assert initialCoinsCount == 1000 * q;
    var b := City.Share(count, q);
    ScaleBounds(b, q, count, 1000);
    FloorUnique(1000 * count, initialCoinsCount, DefaultShare(count, initialCoinsCount), b);
  }

  /** Multiplying `b * q <= n < b * q + q` through by a positive `k`. */
  lemma {:induction false} ScaleBounds(b: int, q: int, n: int, k: int)
    requires 0 < k && b * q <= n < b * q + q
    ensures b * (k * q) <= k * n < b * (k * q) + k * q
  {
    assert b * (k * q) == k * (b * q);
    MulMonotone(b * q, n, k);
    MulMonotone(n + 1, b * q + q, k);
  }

  lemma {:induction false} MulMonotone(x: int, y: int, k: int)
    requires x <= y && 0 <= k
    ensures k * x <= k * y
  {
    assert k * y - k * x == k * (y - x);
  }

  /** Rounded-down quotients are unique. */
  lemma {:induction false} FloorUnique(n: int, d: int, a: int, b: int)
    requires 0 < d
    requires a * d <= n < a * d + d
    requires b * d <= n < b * d + d
    ensures a == b
  {
    if a < b {
      assert d * (a + 1) == a * d + d;
      MulMonotone(a + 1, b, d);
    } else if b < a {
      assert d * (b + 1) == b * d + d;
      MulMonotone(b + 1, a, d);
    }
  }
}
