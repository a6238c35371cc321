/**
 * The day loop of `startDiffusionEmulation` (src/classes/map.ts:132-166) as functions of a
 * snapshot of the arena. Cities are numbered in creation order, so country `k` owns the
 * consecutive cities `starts[k] .. starts[k + 1] - 1`, and visiting the countries in order and
 * each country's cities in order visits the cities `0, 1, ..., n - 1`.
 */
module Diffusion {
  import City
  import Country
  import opened Errors

  type State = City.State

  /**
   * What a day needs besides the counters: each city's neighbour list, the representative
   * portion, where each country's cities start, and the countries' names.
   */
  datatype Net = Net(neighbors: seq<seq<nat>>, portion: City.Portion, starts: seq<nat>, names: seq<string>)

  /** The indices `lo`, ..., `hi - 1`. */
  function Range(lo: nat, hi: nat): (r: seq<nat>)
    ensures |r| == if lo <= hi then hi - lo else 0
    ensures forall i :: 0 <= i < |r| ==> r[i] == lo + i
    decreases hi
  {
    if hi <= lo then [] else Range(lo, hi - 1) + [hi - 1]
  }


  /** A wiring for `n` cities: neighbours are cities, and the countries split `0 .. n - 1` in order. */
  predicate Wired(net: Net, n: nat)
  {
    |net.neighbors| == n &&
    (forall c, j :: 0 <= c < n && 0 <= j < |net.neighbors[c]| ==> net.neighbors[c][j] < n) &&
    |net.starts| == |net.names| + 1 && net.starts[0] == 0 && net.starts[|net.names|] == n &&
    (forall i, j :: 0 <= i <= j < |net.starts| ==> net.starts[i] <= net.starts[j])
  }

  predicate Fits(s: State, net: Net)
  {
    City.Shaped(s) && Wired(net, |s.coins|)
  }

  /** Every city has fewer neighbours than the portion, so no transport empties a counter. */
  predicate Sparse(net: Net)
  {
    forall c :: 0 <= c < |net.neighbors| ==> |net.neighbors[c]| < net.portion
  }

  // ---------------------------------------------------------------------------------
  // One day

  /** The snapshot after cities `0 .. j - 1` have run `transportCoinsToNeighbors`. */
  function TransportUpTo(s: State, net: Net, j: nat): (r: State)
    requires Fits(s, net) && j <= |s.coins|
    ensures Fits(r, net) && |r.coins| == |s.coins| && City.Width(r) == City.Width(s)
  {
    if j == 0 then s
    else City.TransportOne(TransportUpTo(s, net, j - 1), j - 1, net.neighbors[j - 1], net.portion)
  }

  /** One more city's transport. */
  lemma {:induction false} TransportUpToStep(s: State, net: Net, j: nat, k: nat)
    requires Fits(s, net) && j < |s.coins| && k == j + 1
    ensures TransportUpTo(s, net, k) == City.TransportOne(TransportUpTo(s, net, j), j, net.neighbors[j], net.portion)
  {
  }

  /** The snapshot after cities `0 .. j - 1` have run `updateCoins`. */
  function SettleUpTo(s: State, j: nat): (r: State)
    requires City.Shaped(s) && j <= |s.coins|
    ensures City.Shaped(r) && |r.coins| == |s.coins| && City.Width(r) == City.Width(s)
  {
    if j == 0 then s else City.SettleOne(SettleUpTo(s, j - 1), j - 1)
  }

  /** One more city's settlement. */
  lemma {:induction false} SettleUpToStep(s: State, j: nat, k: nat)
    requires City.Shaped(s) && j < |s.coins| && k == j + 1
    ensures SettleUpTo(s, k) == City.SettleOne(SettleUpTo(s, j), j)
  {
  }

  /** One day: every city transports, then every city settles. */
  function Day(s: State, net: Net): (r: State)
    requires Fits(s, net)
    ensures Fits(r, net) && |r.coins| == |s.coins| && City.Width(r) == City.Width(s)
  {
    SettleUpTo(TransportUpTo(s, net, |s.coins|), |s.coins|)
  }

  /** The snapshot after `d` days. */
  function DayState(s0: State, net: Net, d: nat): (r: State)
    requires Fits(s0, net)
    ensures Fits(r, net) && |r.coins| == |s0.coins| && City.Width(r) == City.Width(s0)
  {
    if d == 0 then s0 else Day(DayState(s0, net, d - 1), net)
  }

  /** Country `k` is found complete on the day starting from `s`, checked right after its own cities transported. */
  predicate Checked(s: State, net: Net, k: nat)
    requires Fits(s, net) && k < |net.names|
  {
    Country.AllCompleted(TransportUpTo(s, net, net.starts[k + 1]).coins, Range(net.starts[k], net.starts[k + 1]))
  }

  /** The map's `isCompleted`: every country is complete. */
  predicate AllDone(s: State, net: Net)
    requires Fits(s, net)
  {
    forall k :: 0 <= k < |net.names| ==> Country.AllCompleted(s.coins, Range(net.starts[k], net.starts[k + 1]))
  }

  // ---------------------------------------------------------------------------------
  // The result map

  /** The outcome of each country's check on the day starting from `s`. */
  function Checks(s: State, net: Net): (flags: seq<bool>)
    requires Fits(s, net)
    ensures |flags| == |net.names|
  {
    seq(|net.names|, k requires 0 <= k < |net.names| => Checked(s, net, k))
  }

  /**
   * `result` after countries `0 .. k - 1` of the day numbered `day` were checked, `flags`
   * holding the outcomes: a complete country's name is recorded with `day` unless the name
   * is already there.
   */
  function RecordUpTo(flags: seq<bool>, names: seq<string>, k: nat, result: map<string, int>, day: nat): map<string, int>
    requires k <= |flags| == |names|
  {
    if k == 0 then result
    else
      var r := RecordUpTo(flags, names, k - 1, result, day);
      if flags[k - 1] && names[k - 1] !in r then r[names[k - 1] := day] else r
  }

  /** Every day of a history has one flag per country. */
  predicate Rectangular(h: seq<seq<bool>>, names: seq<string>)
  {
    forall e :: 0 <= e < |h| ==> |h[e]| == |names|
  }

  /** The checks' outcomes of days `0 .. d - 1`, one sequence of flags per day. */
  function History(s0: State, net: Net, d: nat): (h: seq<seq<bool>>)
    requires Fits(s0, net)
    ensures |h| == d && Rectangular(h, net.names)
  {
    seq(d, e requires 0 <= e < d => Checks(DayState(s0, net, e), net))
  }

  /** Day `e` of the history holds that day's checks. */
  lemma {:induction false} HistoryAt(s0: State, net: Net, d: nat, e: nat)
    requires Fits(s0, net) && e < d
    ensures History(s0, net, d)[e] == Checks(DayState(s0, net, e), net)
  {
  }

  /** `result` after the days of the history `h`, numbered from 0. */
  function RecordDays(h: seq<seq<bool>>, names: seq<string>): map<string, int>
    requires Rectangular(h, names)
  {
    if h == [] then map[]
    else RecordUpTo(h[|h| - 1], names, |names|, RecordDays(h[..|h| - 1], names), |h| - 1)
  }

  /** `result` after `d` whole days. */
  function Recorded(s0: State, net: Net, d: nat): map<string, int>
    requires Fits(s0, net)
  {
    RecordDays(History(s0, net, d), net.names)
  }

  /** Day `e = d + 1` is one more day run from day `d`. */
  lemma {:induction false} DayStateNext(s0: State, net: Net, d: nat, e: nat)
    requires Fits(s0, net) && e == d + 1
    ensures DayState(s0, net, e) == Day(DayState(s0, net, d), net)
  {
    assert e != 0 && e - 1 == d;
  }

  /** Day `e = d + 1` runs one more day from day `d` and appends that day's checks to the result. */
  lemma {:induction false} DayStep(s0: State, net: Net, d: nat, e: nat)
    requires Fits(s0, net) && e == d + 1
    ensures DayState(s0, net, e) == Day(DayState(s0, net, d), net)
    ensures Recorded(s0, net, e) ==
              RecordUpTo(Checks(DayState(s0, net, d), net), net.names, |net.names|, Recorded(s0, net, d), d)
  {
    var h, earlier := History(s0, net, e), History(s0, net, d);
    forall i | 0 <= i < d
      ensures h[i] == earlier[i]
    {
      HistoryAt(s0, net, e, i);
      HistoryAt(s0, net, d, i);
    }
    assert h[..d] == earlier;
    HistoryAt(s0, net, e, d);
  }

  /** The final `forEach`: names of countries `0 .. k - 1` still missing get `day`. */
  function FillUpTo(result: map<string, int>, names: seq<string>, k: nat, day: nat): map<string, int>
    requires k <= |names|
  {
    if k == 0 then result
    else
      var r := FillUpTo(result, names, k - 1, day);
      if names[k - 1] !in r then r[names[k - 1] := day] else r
  }

  /** The map is complete at the end of day `d` (numbered from 1). */
  predicate SettledOn(s0: State, net: Net, d: nat)
    requires Fits(s0, net)
  {
    AllDone(DayState(s0, net, d), net)
  }

  /** Whether the map is complete at the end of each day `0 .. maxDays`. */
  function SettledDays(s0: State, net: Net, maxDays: nat): (r: seq<bool>)
    requires Fits(s0, net)
    ensures |r| == maxDays + 1
  {
    seq(maxDays + 1, e requires 0 <= e <= maxDays => SettledOn(s0, net, e))
  }

  lemma {:induction false} SettledDaysAt(s0: State, net: Net, maxDays: nat, e: nat)
    requires Fits(s0, net) && e <= maxDays
    ensures SettledDays(s0, net, maxDays)[e] == SettledOn(s0, net, e)
  {
  }

  /** The first index from `d` on whose flag is set. */
  function FirstTrue(flags: seq<bool>, d: nat): Option<nat>
    decreases |flags| - d
  {
    if d >= |flags| then None
    else if flags[d] then Some(d)
    else FirstTrue(flags, d + 1)
  }

  lemma {:induction false} FirstTrueMeaning(flags: seq<bool>, d: nat)
    ensures FirstTrue(flags, d).None? <==> forall e :: d <= e < |flags| ==> !flags[e]
    ensures FirstTrue(flags, d).Some? ==>
              var f := FirstTrue(flags, d).value;
              d <= f < |flags| && flags[f] && forall e :: d <= e < f ==> !flags[e]
    decreases |flags| - d
  {
    if d < |flags| && !flags[d] {
      FirstTrueMeaning(flags, d + 1);
    }
  }

  /** The first day in `d .. maxDays` at whose end the map is complete. */
  function FirstSettled(s0: State, net: Net, d: nat, maxDays: nat): Option<nat>
    requires Fits(s0, net)
  {
    FirstTrue(SettledDays(s0, net, maxDays), d)
  }

  /** Looking for the first settled day from `d` on: either day `d` is settled, or the search moves on to `d + 1`. */
  lemma {:induction false} FirstSettledStep(s0: State, net: Net, d: nat, maxDays: nat)
    requires Fits(s0, net) && d <= maxDays
    ensures FirstSettled(s0, net, d, maxDays) ==
              if AllDone(DayState(s0, net, d), net) then Some(d) else FirstSettled(s0, net, d + 1, maxDays)
  {
    SettledDaysAt(s0, net, maxDays, d);
  }

  /** How a run ends: the returned map and the number of days simulated. */
  datatype Finish = Finish(result: map<string, int>, days: nat)

  /**
   * `startDiffusionEmulation` allowed at most `maxDays` days: `None` when the map is not
   * complete by then, otherwise the recorded days with the missing names filled in.
   */
  function Emulate(s0: State, net: Net, maxDays: nat): Option<Finish>
    requires Fits(s0, net)
  {
    match FirstSettled(s0, net, 1, maxDays)
    case None => None
    case Some(days) => Some(Finish(FillUpTo(Recorded(s0, net, days), net.names, |net.names|, days), days))
  }

  /** Every city below `starts[m]` belongs to one of the first `m` countries: the one returned. */
  lemma {:induction false} Owner(starts: seq<nat>, c: nat, m: nat) returns (k: nat)
    requires 1 <= m < |starts| && starts[0] == 0 && c < starts[m]
    ensures k < m && starts[k] <= c < starts[k + 1]
  {
    if m > 1 && c < starts[m - 1] {
      k := Owner(starts, c, m - 1);
    } else {
      k := m - 1;
    }
  }

  /** The map is complete exactly when every city is complete. */
  lemma {:induction false} AllDoneIffAllCities(s: State, net: Net)
    requires Fits(s, net)
    ensures AllDone(s, net) <==> forall c :: 0 <= c < |s.coins| ==> City.Completed(s.coins[c])
  {
    if AllDone(s, net) {
      forall c | 0 <= c < |s.coins|
        ensures City.Completed(s.coins[c])
      {
        var k := Owner(net.starts, c, |net.names|);
        var range := Range(net.starts[k], net.starts[k + 1]);
        assert range[c - net.starts[k]] == c;
      }
    }
  }

  // ---------------------------------------------------------------------------------
  // Transport and settlement of a whole phase

  /**
   * During the transport phase a city's counters change only on its own turn: before it they
   * are the day's initial ones, after it they stay as its turn left them.
   */
  lemma {:induction false} TransportRows(s: State, net: Net, j: nat, m: nat)
    requires Fits(s, net) && j <= m <= |s.coins|
    ensures forall c :: j <= c < |s.coins| ==> TransportUpTo(s, net, j).coins[c] == s.coins[c]
    ensures forall c :: 0 <= c < j ==> TransportUpTo(s, net, m).coins[c] == TransportUpTo(s, net, j).coins[c]
    decreases m
  {
    if m > j {
      TransportRows(s, net, j, m - 1);
    } else if j > 0 {
      TransportRows(s, net, j - 1, j - 1);
    }
  }

  /**
   * Checking a country right after its own cities transported sees the same counters as
   * checking it after the whole transport phase.
   */
  lemma {:induction false} CheckedAtPhaseEnd(s: State, net: Net, k: nat)
    requires Fits(s, net) && k < |net.names|
    ensures Checked(s, net, k) <==>
              Country.AllCompleted(TransportUpTo(s, net, |s.coins|).coins, Range(net.starts[k], net.starts[k + 1]))
  {
    var hi := net.starts[k + 1];
    var range := Range(net.starts[k], hi);
    TransportRows(s, net, hi, |s.coins|);
    var early, late := TransportUpTo(s, net, hi).coins, TransportUpTo(s, net, |s.coins|).coins;
    forall j | 0 <= j < |range|
      ensures early[range[j]] == late[range[j]]
    {
    }
  }

  /** After the settle phase every buffer is empty and every counter has received its buffer. */
  lemma {:induction false} SettleUpToRows(s: State, j: nat)
    requires City.Shaped(s) && j <= |s.coins|
    ensures forall c, t :: 0 <= c < j && 0 <= t < City.Width(s) ==>
              SettleUpTo(s, j).coins[c][t] == s.coins[c][t] + s.cache[c][t] && SettleUpTo(s, j).cache[c][t] == 0
    ensures forall c :: j <= c < |s.coins| ==> SettleUpTo(s, j).coins[c] == s.coins[c] && SettleUpTo(s, j).cache[c] == s.cache[c]
  {
    if j > 0 {
      SettleUpToRows(s, j - 1);
    }
  }

  /** A day ends with every buffer empty. */
  lemma {:induction false} DayClearsCache(s: State, net: Net)
    requires Fits(s, net)
    ensures forall c, t :: 0 <= c < |s.coins| && 0 <= t < City.Width(s) ==> Day(s, net).cache[c][t] == 0
  {
    SettleUpToRows(TransportUpTo(s, net, |s.coins|), |s.coins|);
  }

  // ---------------------------------------------------------------------------------
  // A day in closed form

  /** What city `c` keeps of coin type `t` after sending one share to each of its neighbours. */
  function Kept(s: State, net: Net, c: nat, t: nat): int
    requires Fits(s, net) && c < |s.coins| && t < City.Width(s)
  {
    s.coins[c][t] - |net.neighbors[c]| * City.Share(s.coins[c][t], net.portion)
  }

  /** What city `m` has received of coin type `t` once cities `0 .. j - 1` sent their shares of the day-start counts. */
  function Inflow(s: State, net: Net, j: nat, m: nat, t: nat): int
    requires Fits(s, net) && j <= |s.coins| && t < City.Width(s)
  {
    if j == 0 then 0
    else Inflow(s, net, j - 1, m, t) + City.Count(m, net.neighbors[j - 1]) * City.Share(s.coins[j - 1][t], net.portion)
  }

  /**
   * During the transport phase a city's counters change once, on its own turn, to what it
   * keeps: shares are computed from the day-start counts, since what arrives waits in the buffer.
   */
  lemma {:induction false} TransportUpToCoins(s: State, net: Net, j: nat)
    requires Fits(s, net) && j <= |s.coins|
    ensures forall c, t :: 0 <= c < |s.coins| && 0 <= t < City.Width(s) ==>
      TransportUpTo(s, net, j).coins[c][t] == if c < j then Kept(s, net, c, t) else s.coins[c][t]
  {
    TransportRows(s, net, j, j);
    forall c, t | 0 <= c < j && 0 <= t < City.Width(s)
      ensures TransportUpTo(s, net, j).coins[c][t] == Kept(s, net, c, t)
    {
      var k := c + 1;
      TransportRows(s, net, c, c);
      TransportRows(s, net, k, j);
      TransportUpToStep(s, net, c, k);
      City.TransportOneAt(TransportUpTo(s, net, c), c, net.neighbors[c], net.portion);
    }
  }

  /** One more city's transport adds its shares to the buffers of its neighbours. */
  lemma {:induction false} TransportCacheStep(s: State, net: Net, p: nat, j: nat)
    requires Fits(s, net) && j <= |s.coins| && j == p + 1
    requires forall c, t :: 0 <= c < |s.coins| && 0 <= t < City.Width(s) ==>
      TransportUpTo(s, net, p).cache[c][t] == s.cache[c][t] + Inflow(s, net, p, c, t)
    ensures forall c, t :: 0 <= c < |s.coins| && 0 <= t < City.Width(s) ==>
      TransportUpTo(s, net, j).cache[c][t] == s.cache[c][t] + Inflow(s, net, j, c, t)
  {
    var before := TransportUpTo(s, net, p);
    TransportRows(s, net, p, p);
    TransportUpToStep(s, net, p, j);
    City.TransportOneAt(before, p, net.neighbors[p], net.portion);
  }

  /** The buffers after cities `0 .. j - 1` transported: the day-start buffers plus the inflow. */
  lemma {:induction false} TransportUpToCache(s: State, net: Net, j: nat)
    requires Fits(s, net) && j <= |s.coins|
    ensures forall c, t :: 0 <= c < |s.coins| && 0 <= t < City.Width(s) ==>
      TransportUpTo(s, net, j).cache[c][t] == s.cache[c][t] + Inflow(s, net, j, c, t)
  {
    if j > 0 {
      var p := j - 1;
      TransportUpToCache(s, net, p);
      TransportCacheStep(s, net, p, j);
    }
  }

  /** A day leaves each city what it kept, its day-start buffer and everything sent to it that day. */
  lemma {:induction false} DayClosed(s: State, net: Net)
    requires Fits(s, net)
    ensures forall c, t :: 0 <= c < |s.coins| && 0 <= t < City.Width(s) ==>
      Day(s, net).coins[c][t] == Kept(s, net, c, t) + s.cache[c][t] + Inflow(s, net, |s.coins|, c, t) &&
      Day(s, net).cache[c][t] == 0
  {
    TransportUpToCoins(s, net, |s.coins|);
    TransportUpToCache(s, net, |s.coins|);
    SettleUpToRows(TransportUpTo(s, net, |s.coins|), |s.coins|);
  }

  /** `b` is in `a`'s list exactly when `a` is in `b`'s, and no list names a city twice. */
  predicate Symmetric(net: Net)
  {
    (forall a, b :: 0 <= a < |net.neighbors| && 0 <= b < |net.neighbors| ==>
       (b in net.neighbors[a] <==> a in net.neighbors[b])) &&
    (forall a, i, j :: 0 <= a < |net.neighbors| && 0 <= i < j < |net.neighbors[a]| ==>
       net.neighbors[a][i] != net.neighbors[a][j])
  }

  /** Without repeated entries a list names each city once or not at all. */
  lemma {:induction false} CountOnce(senders: seq<nat>, n: nat)
    requires forall i, j :: 0 <= i < j < |senders| ==> senders[i] != senders[j]
    ensures City.Count(n, senders) == if n in senders then 1 else 0
  {
    if senders != [] {
      var init := senders[..|senders| - 1];
      CountOnce(init, n);
      assert senders == init + [senders[|senders| - 1]];
    }
  }

  /** The shares of coin type `t` that the cities of `senders` send, from their counts in `s`. */
  function Received(s: State, portion: City.Portion, senders: seq<nat>, t: nat): int
    requires City.Shaped(s) && t < City.Width(s)
    requires forall i :: 0 <= i < |senders| ==> senders[i] < |s.coins|
  {
    if senders == [] then 0
    else Received(s, portion, senders[..|senders| - 1], t) + City.Share(s.coins[senders[|senders| - 1]][t], portion)
  }

  /** The shares of cities `0 .. j - 1`, each weighted by how often `senders` names it. */
  function Weighted(s: State, portion: City.Portion, senders: seq<nat>, j: nat, t: nat): int
    requires City.Shaped(s) && j <= |s.coins| && t < City.Width(s)
  {
    if j == 0 then 0
    else Weighted(s, portion, senders, j - 1, t) + City.Count(j - 1, senders) * City.Share(s.coins[j - 1][t], portion)
  }

  lemma {:induction false} WeightedNone(s: State, portion: City.Portion, j: nat, t: nat)
    requires City.Shaped(s) && j <= |s.coins| && t < City.Width(s)
    ensures Weighted(s, portion, [], j, t) == 0
  {
    if j > 0 {
      WeightedNone(s, portion, j - 1, t);
    }
  }

  /** One more sender adds its share once, if it is among the cities weighted. */
  lemma {:induction false} WeightedAppend(s: State, portion: City.Portion, senders: seq<nat>, x: nat, j: nat, t: nat)
    requires City.Shaped(s) && j <= |s.coins| && t < City.Width(s) && x < |s.coins|
    ensures Weighted(s, portion, senders + [x], j, t) ==
      Weighted(s, portion, senders, j, t) + (if x < j then City.Share(s.coins[x][t], portion) else 0)
  {
    assert (senders + [x])[..|senders|] == senders;
    if j > 0 {
      WeightedAppend(s, portion, senders, x, j - 1, t);
    }
  }

  /** Weighting every city by its count in `senders` adds up the senders' shares. */
  lemma {:induction false} WeightedReceived(s: State, portion: City.Portion, senders: seq<nat>, t: nat)
    requires City.Shaped(s) && t < City.Width(s)
    requires forall i :: 0 <= i < |senders| ==> senders[i] < |s.coins|
    ensures Weighted(s, portion, senders, |s.coins|, t) == Received(s, portion, senders, t)
  {
    if senders != [] {
      var init, x := senders[..|senders| - 1], senders[|senders| - 1];
      WeightedReceived(s, portion, init, t);
      assert senders == init + [x];
      WeightedAppend(s, portion, init, x, |s.coins|, t);
    } else {
      WeightedNone(s, portion, |s.coins|, t);
    }
  }

  /** With symmetric lists, what city `m` receives from the senders before `j` is their shares weighted by `m`'s own list. */
  lemma {:induction false} InflowWeighted(s: State, net: Net, j: nat, m: nat, t: nat)
    requires Fits(s, net) && j <= |s.coins| && t < City.Width(s) && m < |s.coins| && Symmetric(net)
    ensures Inflow(s, net, j, m, t) == Weighted(s, net.portion, net.neighbors[m], j, t)
  {
    if j > 0 {
      InflowWeighted(s, net, j - 1, m, t);
      CountOnce(net.neighbors[m], j - 1);
      CountOnce(net.neighbors[j - 1], m);
    }
  }

  /**
   * `next` holds what every city has after a day from `s` in which it kept its count less one
   * share per neighbour and received one share from each neighbour.
   */
  predicate NeighborlyDay(s: State, net: Net, next: seq<seq<int>>)
    requires Fits(s, net)
  {
    |next| == |s.coins| &&
    forall c, t :: 0 <= c < |s.coins| && 0 <= t < City.Width(s) ==>
      |next[c]| == City.Width(s) &&
      next[c][t] == Kept(s, net, c, t) + s.cache[c][t] + Received(s, net.portion, net.neighbors[c], t)
  }

  /** Every buffer is empty. */
  predicate Emptied(s: State)
    requires City.Shaped(s)
  {
    forall c, t :: 0 <= c < |s.coins| && 0 <= t < City.Width(s) ==> s.cache[c][t] == 0
  }

  /**
   * With symmetric lists the order in which cities transport does not matter: a day gives
   * each city what it kept plus one share from each neighbour, all computed from the counts
   * at the start of the day, and leaves every buffer empty.
   */
  lemma {:induction false} DayFromNeighbors(s: State, net: Net)
    requires Fits(s, net) && Symmetric(net)
    ensures NeighborlyDay(s, net, Day(s, net).coins) && Emptied(Day(s, net))
  {
    DayClosed(s, net);
    forall c, t | 0 <= c < |s.coins| && 0 <= t < City.Width(s)
      ensures Inflow(s, net, |s.coins|, c, t) == Received(s, net.portion, net.neighbors[c], t)
    {
      InflowWeighted(s, net, |s.coins|, c, t);
      WeightedReceived(s, net.portion, net.neighbors[c], t);
    }
  }

  /** What two or three senders send, written out. */
  lemma {:induction false} ReceivedFew(s: State, portion: City.Portion, senders: seq<nat>, t: nat)
    requires City.Shaped(s) && t < City.Width(s)
    requires forall i :: 0 <= i < |senders| ==> senders[i] < |s.coins|
    requires 2 <= |senders| <= 3
    ensures Received(s, portion, senders, t) ==
      City.Share(s.coins[senders[0]][t], portion) + City.Share(s.coins[senders[1]][t], portion) +
      (if |senders| == 3 then City.Share(s.coins[senders[2]][t], portion) else 0)
  {
    var two := senders[..2];
    assert two[..1] == [senders[0]];
    assert [senders[0]][..0] == [];
    assert Received(s, portion, [senders[0]], t) == City.Share(s.coins[senders[0]][t], portion);
    assert Received(s, portion, two, t) == City.Share(s.coins[senders[0]][t], portion) + City.Share(s.coins[senders[1]][t], portion);
    if |senders| == 3 {
      assert senders[..2] == two;
    } else {
      assert senders == two;
    }
  }

  /** One counter of a city with two or three neighbours after a day, written out. */
  lemma {:induction false} NeighborRow(s: State, net: Net, next: seq<seq<int>>, c: nat, t: nat)
    requires Fits(s, net) && NeighborlyDay(s, net, next) && c < |s.coins| && t < City.Width(s)
    requires 2 <= |net.neighbors[c]| <= 3
    ensures c < |next| && t < |next[c]|
    ensures var nb, p := net.neighbors[c], net.portion;
      next[c][t] == s.coins[c][t] - |nb| * City.Share(s.coins[c][t], p) + s.cache[c][t] +
        City.Share(s.coins[nb[0]][t], p) + City.Share(s.coins[nb[1]][t], p) +
        (if |nb| == 3 then City.Share(s.coins[nb[2]][t], p) else 0)
  {
    ReceivedFew(s, net.portion, net.neighbors[c], t);
  }

  /**
   * A city holding none of a coin type at the start of a day still holds none once its
   * country has transported, so the country's check fails that day.
   */
  lemma {:induction false} EmptyCityFailsCheck(s: State, net: Net, k: nat, c: nat, t: nat)
    requires Fits(s, net) && k < |net.names| && net.starts[k] <= c < net.starts[k + 1] && t < City.Width(s)
    requires s.coins[c][t] == 0
    ensures !Checked(s, net, k)
  {
    TransportUpToCoins(s, net, net.starts[k + 1]);
    var r := Range(net.starts[k], net.starts[k + 1]);
    assert r[c - net.starts[k]] == c;
  }

  // ---------------------------------------------------------------------------------
  // Conservation

  lemma {:induction false} TransportUpToConserves(s: State, net: Net, j: nat, t: nat)
    requires Fits(s, net) && j <= |s.coins| && t < City.Width(s)
    ensures City.ColumnTotal(TransportUpTo(s, net, j), t) == City.ColumnTotal(s, t)
  {
    if j > 0 {
      var p := j - 1;
      TransportUpToConserves(s, net, p, t);
      var before := TransportUpTo(s, net, p);
      var nbrs := net.neighbors[p];
      assert forall i :: 0 <= i < |nbrs| ==> nbrs[i] < |before.coins|;
      TransportUpToStep(s, net, p, j);
      City.TransportOneConserves(before, p, nbrs, net.portion, t);
    }
  }

  lemma {:induction false} SettleUpToConserves(s: State, j: nat, t: nat)
    requires City.Shaped(s) && j <= |s.coins| && t < City.Width(s)
    ensures City.ColumnTotal(SettleUpTo(s, j), t) == City.ColumnTotal(s, t)
  {
    if j > 0 {
      var p := j - 1;
      SettleUpToConserves(s, p, t);
      SettleUpToStep(s, p, j);
      City.SettleOneConserves(SettleUpTo(s, p), p, t);
    }
  }

  lemma {:induction false} DayConserves(s: State, net: Net, t: nat)
    requires Fits(s, net) && t < City.Width(s)
    ensures City.ColumnTotal(Day(s, net), t) == City.ColumnTotal(s, t)
  {
    var n := |s.coins|;
    var moved := TransportUpTo(s, net, n);
    TransportUpToConserves(s, net, n, t);
    SettleUpToConserves(moved, n, t);
  }

  /** Day `e = d + 1` keeps the totals of day `d`. */
  lemma {:induction false} DayStateStepConserves(s0: State, net: Net, d: nat, e: nat, t: nat)
    requires Fits(s0, net) && t < City.Width(s0) && e == d + 1
    ensures City.ColumnTotal(DayState(s0, net, e), t) == City.ColumnTotal(DayState(s0, net, d), t)
  {
    DayStateNext(s0, net, d, e);
    DayConserves(DayState(s0, net, d), net, t);
  }

  /** No coin is created or lost: every type's total, held or in transit, is the same on every day. */
  lemma {:induction false} DayStateConserves(s0: State, net: Net, d: nat, t: nat)
    requires Fits(s0, net) && t < City.Width(s0)
    ensures City.ColumnTotal(DayState(s0, net, d), t) == City.ColumnTotal(s0, t)
  {
    if d == 0 {
      assert DayState(s0, net, d) == s0;
    } else {
      var p := d - 1;
      DayStateConserves(s0, net, p, t);
      DayStateStepConserves(s0, net, p, d, t);
    }
  }

  // ---------------------------------------------------------------------------------
  // Signs and completion

  /** Positive on every counter of `a` that is positive in `s`. */
  predicate KeepsPositive(s: State, a: State)
    requires City.Shaped(s) && City.Shaped(a) && |a.coins| == |s.coins| && City.Width(a) == City.Width(s)
  {
    forall c, t :: 0 <= c < |s.coins| && 0 <= t < City.Width(s) && 0 < s.coins[c][t] ==> 0 < a.coins[c][t]
  }

  lemma {:induction false} TransportUpToKeepsSigns(s: State, net: Net, j: nat)
    requires Fits(s, net) && j <= |s.coins| && City.NonNegative(s) && Sparse(net)
    ensures City.NonNegative(TransportUpTo(s, net, j)) && KeepsPositive(s, TransportUpTo(s, net, j))
  {
    if j > 0 {
      var p := j - 1;
      TransportUpToKeepsSigns(s, net, p);
      TransportUpToStep(s, net, p, j);
      City.TransportOneKeepsSigns(TransportUpTo(s, net, p), p, net.neighbors[p], net.portion);
    }
  }

  lemma {:induction false} SettleUpToKeepsSigns(s: State, j: nat)
    requires City.Shaped(s) && j <= |s.coins| && City.NonNegative(s)
    ensures City.NonNegative(SettleUpTo(s, j)) && KeepsPositive(s, SettleUpTo(s, j))
  {
    if j > 0 {
      var p := j - 1;
      SettleUpToKeepsSigns(s, p);
      SettleUpToStep(s, p, j);
      City.SettleOneKeepsSigns(SettleUpTo(s, p), p);
    }
  }

  /** A positive counter that stays positive twice stays positive. */
  lemma {:induction false} KeepsPositiveChain(a: State, b: State, c: State)
    requires City.Shaped(a) && City.Shaped(b) && City.Shaped(c)
    requires |b.coins| == |a.coins| && City.Width(b) == City.Width(a)
    requires |c.coins| == |a.coins| && City.Width(c) == City.Width(a)
    requires KeepsPositive(a, b) && KeepsPositive(b, c)
    ensures KeepsPositive(a, c)
  {
    forall n, t | 0 <= n < |a.coins| && 0 <= t < City.Width(a) && 0 < a.coins[n][t]
      ensures 0 < c.coins[n][t]
    {
      assert 0 < b.coins[n][t];
    }
  }

  /** With fewer neighbours than the portion, one day keeps every counter non-negative and every positive counter positive. */
  lemma {:induction false} DayKeepsSigns(s: State, net: Net)
    requires Fits(s, net) && City.NonNegative(s) && Sparse(net)
    ensures City.NonNegative(Day(s, net)) && KeepsPositive(s, Day(s, net))
  {
    var n := |s.coins|;
    var moved := TransportUpTo(s, net, n);
    TransportUpToKeepsSigns(s, net, n);
    SettleUpToKeepsSigns(moved, n);
    KeepsPositiveChain(s, moved, Day(s, net));
  }

  /** No counter is negative on any day. */
  lemma {:induction false} DayStateNonNegative(s0: State, net: Net, e: nat)
    requires Fits(s0, net) && City.NonNegative(s0) && Sparse(net)
    ensures City.NonNegative(DayState(s0, net, e))
  {
    if e > 0 {
      var p := e - 1;
      DayStateNonNegative(s0, net, p);
      DayStateNext(s0, net, p, e);
      DayKeepsSigns(DayState(s0, net, p), net);
    }
  }

  /**
   * With fewer neighbours than the portion, counters never become negative and a counter
   * that holds a coin keeps holding one: a complete city stays complete on every later day.
   */
  lemma {:induction false} DayStateKeepsSigns(s0: State, net: Net, d: nat, e: nat)
    requires Fits(s0, net) && City.NonNegative(s0) && Sparse(net) && d <= e
    ensures City.NonNegative(DayState(s0, net, e))
    ensures KeepsPositive(DayState(s0, net, d), DayState(s0, net, e))
    decreases e
  {
    DayStateNonNegative(s0, net, e);
    if d < e {
      var p := e - 1;
      DayStateKeepsSigns(s0, net, d, p);
      DayStateStepKeepsSigns(s0, net, p, e);
      KeepsPositiveChain(DayState(s0, net, d), DayState(s0, net, p), DayState(s0, net, e));
    }
  }

  /** Day `e = d + 1` keeps positive every counter positive on day `d`. */
  lemma {:induction false} DayStateStepKeepsSigns(s0: State, net: Net, d: nat, e: nat)
    requires Fits(s0, net) && City.NonNegative(s0) && Sparse(net) && e == d + 1
    ensures KeepsPositive(DayState(s0, net, d), DayState(s0, net, e))
  {
    DayStateNonNegative(s0, net, d);
    DayStateNext(s0, net, d, e);
    DayKeepsSigns(DayState(s0, net, d), net);
  }

  /** A map that is complete at the end of one day is complete at the end of every later day. */
  lemma {:induction false} SettledStaysSettled(s0: State, net: Net, d: nat, e: nat)
    requires Fits(s0, net) && City.NonNegative(s0) && Sparse(net) && d <= e
    requires SettledOn(s0, net, d)
    ensures SettledOn(s0, net, e)
  {
    DayStateKeepsSigns(s0, net, d, e);
    var a, b := DayState(s0, net, d), DayState(s0, net, e);
    forall k | 0 <= k < |net.names|
      ensures Country.AllCompleted(b.coins, Range(net.starts[k], net.starts[k + 1]))
    {
      var range := Range(net.starts[k], net.starts[k + 1]);
      assert Country.AllCompleted(a.coins, range);
      forall j | 0 <= j < |range|
        ensures City.Completed(b.coins[range[j]])
      {
        assert City.Completed(a.coins[range[j]]);
      }
    }
  }

  // ---------------------------------------------------------------------------------
  // Meaning of the result map

  /**
   * Checking countries `0 .. k - 1` adds exactly the names of the complete ones that were
   * missing, each with the day's number, and changes no recorded value.
   */
  lemma {:induction false} RecordUpToMeaning(flags: seq<bool>, names: seq<string>, k: nat, result: map<string, int>, day: nat)
    requires k <= |flags| == |names|
    ensures forall q :: q in RecordUpTo(flags, names, k, result, day) <==>
              q in result || exists i :: 0 <= i < k && names[i] == q && flags[i]
    ensures forall q :: q in RecordUpTo(flags, names, k, result, day) ==>
              RecordUpTo(flags, names, k, result, day)[q] == if q in result then result[q] else day
  {
    if k > 0 {
      RecordUpToMeaning(flags, names, k - 1, result, day);
    }
  }

  /** A day on which no country is found complete records nothing. */
  lemma {:induction false} NothingRecorded(flags: seq<bool>, names: seq<string>, k: nat, result: map<string, int>, day: nat)
    requires k <= |flags| == |names|
    requires forall i :: 0 <= i < k ==> !flags[i]
    ensures RecordUpTo(flags, names, k, result, day) == result
  {
    if k > 0 {
      NothingRecorded(flags, names, k - 1, result, day);
    }
  }

  /** Day `e` of the history has a country named `q` found complete. */
  predicate HasCheck(h: seq<seq<bool>>, names: seq<string>, q: string, e: nat)
    requires Rectangular(h, names) && e < |h|
  {
    exists i :: 0 <= i < |names| && names[i] == q && h[e][i]
  }

  /**
   * After the days of `h` the result holds a name exactly when a country with that name was
   * found complete on one of those days, and its value is the first such day.
   */
  lemma {:induction false} RecordDaysMeaning(h: seq<seq<bool>>, names: seq<string>)
    requires Rectangular(h, names)
    ensures forall q :: q in RecordDays(h, names) <==> exists e :: 0 <= e < |h| && HasCheck(h, names, q, e)
    ensures forall q :: q in RecordDays(h, names) ==>
              0 <= RecordDays(h, names)[q] < |h| && HasCheck(h, names, q, RecordDays(h, names)[q]) &&
              forall e :: 0 <= e < RecordDays(h, names)[q] ==> !HasCheck(h, names, q, e)
  {
    if h != [] {
      var d := |h| - 1;
      var earlier := h[..d];
      assert forall e :: 0 <= e < d ==> earlier[e] == h[e];
      assert forall q, e :: 0 <= e < d ==> (HasCheck(earlier, names, q, e) <==> HasCheck(h, names, q, e));
      var before := RecordDays(earlier, names);
      RecordDaysMeaning(earlier, names);
      RecordUpToMeaning(h[d], names, |names|, before, d);
      forall q
        ensures q in RecordDays(h, names) <==> exists e :: 0 <= e < |h| && HasCheck(h, names, q, e)
      {
        if q in RecordDays(h, names) && q !in before {
          var i :| 0 <= i < |names| && names[i] == q && h[d][i];
          assert HasCheck(h, names, q, d);
        }
        if exists e :: 0 <= e < |h| && HasCheck(h, names, q, e) {
          var e :| 0 <= e < |h| && HasCheck(h, names, q, e);
          if e < d {
            assert HasCheck(earlier, names, q, e);
          } else {
            var i :| 0 <= i < |names| && names[i] == q && h[d][i];
          }
        }
      }
    }
  }

  /** A country named `q` is found complete during day `e` (numbered from 0). */
  predicate CheckedOn(s0: State, net: Net, q: string, e: nat)
    requires Fits(s0, net)
  {
    exists i :: 0 <= i < |net.names| && net.names[i] == q && Checked(DayState(s0, net, e), net, i)
  }

  /** The recorded history holds exactly the checks of the simulated days. */
  lemma {:induction false} HistoryChecks(s0: State, net: Net, d: nat)
    requires Fits(s0, net)
    ensures Rectangular(History(s0, net, d), net.names)
    ensures forall q, e :: 0 <= e < d ==> (HasCheck(History(s0, net, d), net.names, q, e) <==> CheckedOn(s0, net, q, e))
  {
    var h := History(s0, net, d);
    forall q, e | 0 <= e < d
      ensures HasCheck(h, net.names, q, e) <==> CheckedOn(s0, net, q, e)
    {
      HistoryAt(s0, net, d, e);
    }
  }

  /** The final fill adds every missing name with `day` and keeps the recorded values. */
  lemma {:induction false} FillUpToMeaning(result: map<string, int>, names: seq<string>, k: nat, day: nat)
    requires k <= |names|
    ensures FillUpTo(result, names, k, day).Keys == result.Keys + set i | 0 <= i < k :: names[i]
    ensures forall q :: q in FillUpTo(result, names, k, day) ==>
              FillUpTo(result, names, k, day)[q] == if q in result then result[q] else day
  {
    if k > 0 {
      FillUpToMeaning(result, names, k - 1, day);
      assert (set i | 0 <= i < k :: names[i]) == (set i | 0 <= i < k - 1 :: names[i]) + {names[k - 1]};
    }
  }

  /**
   * After the final fill every country name is a key; a name's value is the first day of the
   * history on which a country with that name was found complete, or the history's length.
   */
  lemma {:induction false} FilledMeaning(h: seq<seq<bool>>, names: seq<string>)
    requires Rectangular(h, names)
    ensures FillUpTo(RecordDays(h, names), names, |names|, |h|).Keys == set i | 0 <= i < |names| :: names[i]
    ensures forall i :: 0 <= i < |names| ==>
              var v := FillUpTo(RecordDays(h, names), names, |names|, |h|)[names[i]];
              0 <= v <= |h| && (v < |h| ==> HasCheck(h, names, names[i], v)) &&
              forall e :: 0 <= e < v ==> !HasCheck(h, names, names[i], e)
  {
    var recorded := RecordDays(h, names);
    RecordDaysMeaning(h, names);
    FillUpToMeaning(recorded, names, |names|, |h|);
    assert recorded.Keys <= (set i | 0 <= i < |names| :: names[i]) by {
      forall q | q in recorded
        ensures q in (set i | 0 <= i < |names| :: names[i])
      {
        var e := recorded[q];
        var i :| 0 <= i < |names| && names[i] == q && h[e][i];
      }
    }
  }

  lemma {:induction false} FirstSettledMeaning(s0: State, net: Net, d: nat, maxDays: nat)
    requires Fits(s0, net)
    ensures FirstSettled(s0, net, d, maxDays).None? <==> forall e :: d <= e <= maxDays ==> !SettledOn(s0, net, e)
    ensures FirstSettled(s0, net, d, maxDays).Some? ==>
              var f := FirstSettled(s0, net, d, maxDays).value;
              d <= f <= maxDays && SettledOn(s0, net, f) && forall e :: d <= e < f ==> !SettledOn(s0, net, e)
  {
    var flags := SettledDays(s0, net, maxDays);
    FirstTrueMeaning(flags, d);
    forall e | d <= e <= maxDays
      ensures flags[e] == SettledOn(s0, net, e)
    {
      SettledDaysAt(s0, net, maxDays, e);
    }
  }

  /**
   * When `startDiffusionEmulation` stops: at the first day (at least one) at whose end every
   * country is complete; within `maxDays` days it gives up.
   */
  lemma {:induction false} EmulateStops(s0: State, net: Net, maxDays: nat)
    requires Fits(s0, net)
    ensures Emulate(s0, net, maxDays).None? <==> forall e :: 1 <= e <= maxDays ==> !SettledOn(s0, net, e)
    ensures Emulate(s0, net, maxDays).Some? ==>
              var days := Emulate(s0, net, maxDays).value.days;
              1 <= days <= maxDays && SettledOn(s0, net, days) && forall e :: 1 <= e < days ==> !SettledOn(s0, net, e)
  {
    FirstSettledMeaning(s0, net, 1, maxDays);
  }

  /**
   * What `startDiffusionEmulation` returns after `days` days: one key per country name, and a
   * name's value is the first day (numbered from 0) on which a country with that name was
   * found complete, or `days` if none was.
   */
  lemma {:induction false} ResultMeaning(s0: State, net: Net, days: nat)
    requires Fits(s0, net)
    ensures var result := FillUpTo(Recorded(s0, net, days), net.names, |net.names|, days);
      result.Keys == (set i | 0 <= i < |net.names| :: net.names[i]) &&
      forall i :: 0 <= i < |net.names| ==>
        0 <= result[net.names[i]] <= days &&
        (result[net.names[i]] < days ==> CheckedOn(s0, net, net.names[i], result[net.names[i]])) &&
        (forall e :: 0 <= e < result[net.names[i]] ==> !CheckedOn(s0, net, net.names[i], e))
  {
    var h := History(s0, net, days);
    HistoryChecks(s0, net, days);
    FilledMeaning(h, net.names);
  }

  /** The arena of the single-city sample: one city holding the initial count of its own coin. */
  function LoneState(): State
  {
    City.State([[City.InitialCoinsCount]], [[0]])
  }

  /** The wiring of the single-city sample: no neighbour, one country owning city 0. */
  function LoneNet(): Net
  {
    Net([[]], City.RepresentativePortion, [0, 1], ["Luxembourg"])
  }

  /** A lone city has no neighbour to send to, so its transport leaves the arena as it was. */
  lemma {:induction false} LoneCityTransportFixed()
    ensures Fits(LoneState(), LoneNet())
    ensures TransportUpTo(LoneState(), LoneNet(), 1) == LoneState()
  {
    var s0, net := LoneState(), LoneNet();
    assert City.Width(s0) == 1;
    assert TransportUpTo(s0, net, 0) == s0;
    var moved := TransportUpTo(s0, net, 1);
    assert moved == City.TransportOne(s0, 0, net.neighbors[0], net.portion);
    assert net.neighbors[0] == [] && City.Count(0, []) == 0;
    assert moved.coins[0][0] == City.InitialCoinsCount && moved.cache[0][0] == 0;
    assert |moved.coins| == 1 && |moved.coins[0]| == 1 && |moved.cache[0]| == 1;
    assert moved.coins[0] == [City.InitialCoinsCount] && moved.cache[0] == [0];
  }

  /** With an empty buffer, the lone city's settlement leaves the arena as it was. */
  lemma {:induction false} LoneCitySettleFixed()
    ensures City.Shaped(LoneState()) && SettleUpTo(LoneState(), 1) == LoneState()
  {
    var s0 := LoneState();
    assert City.Width(s0) == 1;
    assert SettleUpTo(s0, 0) == s0;
    var settled := City.SettleOne(s0, 0);
    assert settled.coins[0][0] == City.InitialCoinsCount && settled.cache[0][0] == 0;
    assert settled.coins[0] == [City.InitialCoinsCount] && settled.cache[0] == [0];
  }

  /** A lone city sends nothing and receives nothing, so a day leaves it as it was; it is complete. */
  lemma {:induction false} LoneCityDayFixed()
    ensures Fits(LoneState(), LoneNet())
    ensures Day(LoneState(), LoneNet()) == LoneState()
    ensures Checks(LoneState(), LoneNet()) == [true] && AllDone(LoneState(), LoneNet())
  {
    var s0, net := LoneState(), LoneNet();
    LoneCityTransportFixed();
    LoneCitySettleFixed();
    assert Range(0, 1) == [0];
    assert City.Completed(s0.coins[0]);
    assert Checked(s0, net, 0);
    assert Checks(s0, net) == [true];
  }

  /**
   * The single-city sample (src/__tests__/index.test.ts:38-41): a country of one cell has no
   * neighbour, is complete from the start and is reported with day 0 after one day.
   */
  lemma {:induction false} LoneCityDoneOnDayZero(maxDays: nat)
    requires 1 <= maxDays
    ensures Fits(LoneState(), LoneNet())
    ensures Emulate(LoneState(), LoneNet(), maxDays) == Some(Finish(map["Luxembourg" := 0], 1))
  {
    var s0, net := LoneState(), LoneNet();
    LoneCityDayFixed();
    assert DayState(s0, net, 1) == s0;
    assert SettledOn(s0, net, 1);
    SettledDaysAt(s0, net, maxDays, 1);
    assert FirstSettled(s0, net, 1, maxDays) == Some(1);
    var h := History(s0, net, 1);
    assert h == [[true]];
    assert h[..0] == [];
    assert RecordDays(h[..0], net.names) == map[];
    assert RecordUpTo(h[0], net.names, 0, map[], 0) == map[];
    assert RecordDays(h, net.names) == map["Luxembourg" := 0];
  }

  /**
   * The two-country sample (src/__tests__/index.test.ts:44-51): the Netherlands on cells
   * (1,3)-(2,4) and Belgium on (1,1)-(2,2), each cell holding the initial count of its own
   * country's coin. Cities 0-3 are the Netherlands' cells (1,3), (1,4), (2,3), (2,4) and
   * cities 4-7 Belgium's (1,1), (1,2), (2,1), (2,2).
   */
  function LowlandsState(): State
  {
    City.State([[1000000, 0], [1000000, 0], [1000000, 0], [1000000, 0], [0, 1000000], [0, 1000000], [0, 1000000], [0, 1000000]],
               [[0, 0], [0, 0], [0, 0], [0, 0], [0, 0], [0, 0], [0, 0], [0, 0]])
  }

  /** The neighbour lists of the two-country sample, in the order the grid scan produces them. */
  function LowlandsNet(): Net
  {
    Net([[2, 1, 5], [3, 0], [0, 3, 7], [1, 2], [6, 5], [7, 0, 4], [4, 7], [5, 2, 6]],
        City.RepresentativePortion, [0, 4, 8], ["Netherlands", "Belgium"])
  }

  /** The sample's lists are symmetric. */
  lemma {:induction false} LowlandsSymmetric()
    ensures Symmetric(LowlandsNet())
  {
    var nb := LowlandsNet().neighbors;
    assert forall a, b :: 0 <= a < |nb| && 0 <= b < |nb| ==> (b in nb[a] <==> a in nb[b]);
    assert forall a, i, j :: 0 <= a < |nb| && 0 <= i < j < |nb[a]| ==> nb[a][i] != nb[a][j];
  }

  /** The sample's arena fits its wiring, has two coin types and empty buffers. */
  lemma {:induction false} LowlandsShape()
    ensures Fits(LowlandsState(), LowlandsNet()) && City.Width(LowlandsState()) == 2 && |LowlandsState().coins| == 8
    ensures Emptied(LowlandsState())
  {
  }

  /** The sample's wiring, one list at a time. */
  lemma {:induction false} LowlandsLists(net: Net)
    requires net == LowlandsNet()
    ensures net.portion == 1000 && net.starts == [0, 4, 8] && net.names == ["Netherlands", "Belgium"]
    ensures net.neighbors[0] == [2, 1, 5] && net.neighbors[1] == [3, 0] && net.neighbors[2] == [0, 3, 7] && net.neighbors[3] == [1, 2]
    ensures net.neighbors[4] == [6, 5] && net.neighbors[5] == [7, 0, 4] && net.neighbors[6] == [4, 7] && net.neighbors[7] == [5, 2, 6]
  {
  }

  /** The sample's starting counts, one city at a time. */
  lemma {:induction false} LowlandsRows(s0: State)
    requires s0 == LowlandsState()
    ensures s0.coins[0] == [1000000, 0] && s0.coins[1] == [1000000, 0] && s0.coins[2] == [1000000, 0] && s0.coins[3] == [1000000, 0]
    ensures s0.coins[4] == [0, 1000000] && s0.coins[5] == [0, 1000000] && s0.coins[6] == [0, 1000000] && s0.coins[7] == [0, 1000000]
  {
  }

  lemma {:induction false} LowlandsNetherlandsDayOne(s: State, net: Net, next: seq<seq<int>>)
    requires Fits(s, net) && City.Width(s) == 2 && Emptied(s) && |s.coins| == 8 && net.portion == 1000
    requires net.neighbors[0] == [2, 1, 5] && net.neighbors[1] == [3, 0] && net.neighbors[2] == [0, 3, 7] && net.neighbors[3] == [1, 2]
    requires s.coins[0] == [1000000, 0] && s.coins[1] == [1000000, 0] && s.coins[2] == [1000000, 0] && s.coins[3] == [1000000, 0]
    requires s.coins[5] == [0, 1000000] && s.coins[7] == [0, 1000000]
    requires NeighborlyDay(s, net, next)
    ensures next[0] == [999000, 1000] && next[1] == [1000000, 0] && next[2] == [999000, 1000] && next[3] == [1000000, 0]
  {
    NeighborRow(s, net, next, 0, 0);
    NeighborRow(s, net, next, 0, 1);
    NeighborRow(s, net, next, 1, 0);
    NeighborRow(s, net, next, 1, 1);
    NeighborRow(s, net, next, 2, 0);
    NeighborRow(s, net, next, 2, 1);
    NeighborRow(s, net, next, 3, 0);
    NeighborRow(s, net, next, 3, 1);
  }

  lemma {:induction false} LowlandsBelgiumDayOne(s: State, net: Net, next: seq<seq<int>>)
    requires Fits(s, net) && City.Width(s) == 2 && Emptied(s) && |s.coins| == 8 && net.portion == 1000
    requires net.neighbors[4] == [6, 5] && net.neighbors[5] == [7, 0, 4] && net.neighbors[6] == [4, 7] && net.neighbors[7] == [5, 2, 6]
    requires s.coins[4] == [0, 1000000] && s.coins[5] == [0, 1000000] && s.coins[6] == [0, 1000000] && s.coins[7] == [0, 1000000]
    requires s.coins[0] == [1000000, 0] && s.coins[2] == [1000000, 0]
    requires NeighborlyDay(s, net, next)
    ensures next[4] == [0, 1000000] && next[5] == [1000, 999000] && next[6] == [0, 1000000] && next[7] == [1000, 999000]
  {
    NeighborRow(s, net, next, 4, 0);
    NeighborRow(s, net, next, 4, 1);
    NeighborRow(s, net, next, 5, 0);
    NeighborRow(s, net, next, 5, 1);
    NeighborRow(s, net, next, 6, 0);
    NeighborRow(s, net, next, 6, 1);
    NeighborRow(s, net, next, 7, 0);
    NeighborRow(s, net, next, 7, 1);
  }

  lemma {:induction false} LowlandsNetherlandsDayTwo(s: State, net: Net, next: seq<seq<int>>)
    requires Fits(s, net) && City.Width(s) == 2 && Emptied(s) && |s.coins| == 8 && net.portion == 1000
    requires net.neighbors[0] == [2, 1, 5] && net.neighbors[1] == [3, 0] && net.neighbors[2] == [0, 3, 7] && net.neighbors[3] == [1, 2]
    requires s.coins[0] == [999000, 1000] && s.coins[1] == [1000000, 0] && s.coins[2] == [999000, 1000] && s.coins[3] == [1000000, 0]
    requires s.coins[5] == [1000, 999000] && s.coins[7] == [1000, 999000]
    requires NeighborlyDay(s, net, next)
    ensures next[0] == [998003, 1997] && next[1] == [999999, 1] && next[2] == [998003, 1997] && next[3] == [999999, 1]
  {
    NeighborRow(s, net, next, 0, 0);
    NeighborRow(s, net, next, 0, 1);
    NeighborRow(s, net, next, 1, 0);
    NeighborRow(s, net, next, 1, 1);
    NeighborRow(s, net, next, 2, 0);
    NeighborRow(s, net, next, 2, 1);
    NeighborRow(s, net, next, 3, 0);
    NeighborRow(s, net, next, 3, 1);
  }

  lemma {:induction false} LowlandsBelgiumDayTwo(s: State, net: Net, next: seq<seq<int>>)
    requires Fits(s, net) && City.Width(s) == 2 && Emptied(s) && |s.coins| == 8 && net.portion == 1000
    requires net.neighbors[4] == [6, 5] && net.neighbors[5] == [7, 0, 4] && net.neighbors[6] == [4, 7] && net.neighbors[7] == [5, 2, 6]
    requires s.coins[4] == [0, 1000000] && s.coins[5] == [1000, 999000] && s.coins[6] == [0, 1000000] && s.coins[7] == [1000, 999000]
    requires s.coins[0] == [999000, 1000] && s.coins[2] == [999000, 1000]
    requires NeighborlyDay(s, net, next)
    ensures next[4] == [1, 999999] && next[5] == [1997, 998003] && next[6] == [1, 999999] && next[7] == [1997, 998003]
  {
    NeighborRow(s, net, next, 4, 0);
    NeighborRow(s, net, next, 4, 1);
    NeighborRow(s, net, next, 5, 0);
    NeighborRow(s, net, next, 5, 1);
    NeighborRow(s, net, next, 6, 0);
    NeighborRow(s, net, next, 6, 1);
    NeighborRow(s, net, next, 7, 0);
    NeighborRow(s, net, next, 7, 1);
  }

  lemma {:induction false} LowlandsDayOne(s: State, net: Net)
    requires Fits(s, net) && City.Width(s) == 2 && Emptied(s) && |s.coins| == 8
    requires net.portion == 1000 && net.starts == [0, 4, 8] && net.names == ["Netherlands", "Belgium"]
    requires net.neighbors[0] == [2, 1, 5] && net.neighbors[1] == [3, 0] && net.neighbors[2] == [0, 3, 7] && net.neighbors[3] == [1, 2]
    requires net.neighbors[4] == [6, 5] && net.neighbors[5] == [7, 0, 4] && net.neighbors[6] == [4, 7] && net.neighbors[7] == [5, 2, 6]
    requires Symmetric(net)
    requires s.coins[0] == [1000000, 0] && s.coins[1] == [1000000, 0] && s.coins[2] == [1000000, 0] && s.coins[3] == [1000000, 0]
    requires s.coins[4] == [0, 1000000] && s.coins[5] == [0, 1000000] && s.coins[6] == [0, 1000000] && s.coins[7] == [0, 1000000]
    ensures var d := Day(s, net).coins;
      d[0] == [999000, 1000] && d[1] == [1000000, 0] && d[2] == [999000, 1000] && d[3] == [1000000, 0] &&
      d[4] == [0, 1000000] && d[5] == [1000, 999000] && d[6] == [0, 1000000] && d[7] == [1000, 999000]
    ensures Emptied(Day(s, net))
  {
    DayFromNeighbors(s, net);
    LowlandsNetherlandsDayOne(s, net, Day(s, net).coins);
    LowlandsBelgiumDayOne(s, net, Day(s, net).coins);
  }

  lemma {:induction false} LowlandsDayTwo(s: State, net: Net)
    requires Fits(s, net) && City.Width(s) == 2 && Emptied(s) && |s.coins| == 8
    requires net.portion == 1000 && net.starts == [0, 4, 8] && net.names == ["Netherlands", "Belgium"]
    requires net.neighbors[0] == [2, 1, 5] && net.neighbors[1] == [3, 0] && net.neighbors[2] == [0, 3, 7] && net.neighbors[3] == [1, 2]
    requires net.neighbors[4] == [6, 5] && net.neighbors[5] == [7, 0, 4] && net.neighbors[6] == [4, 7] && net.neighbors[7] == [5, 2, 6]
    requires Symmetric(net)
    requires s.coins[0] == [999000, 1000] && s.coins[1] == [1000000, 0] && s.coins[2] == [999000, 1000] && s.coins[3] == [1000000, 0]
    requires s.coins[4] == [0, 1000000] && s.coins[5] == [1000, 999000] && s.coins[6] == [0, 1000000] && s.coins[7] == [1000, 999000]
    ensures var d := Day(s, net).coins;
      d[0] == [998003, 1997] && d[1] == [999999, 1] && d[2] == [998003, 1997] && d[3] == [999999, 1] &&
      d[4] == [1, 999999] && d[5] == [1997, 998003] && d[6] == [1, 999999] && d[7] == [1997, 998003]
  {
    var d := Day(s, net);
    DayFromNeighbors(s, net);
    LowlandsNetherlandsDayTwo(s, net, d.coins);
    LowlandsBelgiumDayTwo(s, net, d.coins);
  }

  lemma {:induction false} LowlandsSettled(s: State, net: Net)
    requires Fits(s, net) && |s.coins| == 8
    requires s.coins[0] == [998003, 1997] && s.coins[1] == [999999, 1] && s.coins[2] == [998003, 1997] && s.coins[3] == [999999, 1]
    requires s.coins[4] == [1, 999999] && s.coins[5] == [1997, 998003] && s.coins[6] == [1, 999999] && s.coins[7] == [1997, 998003]
    ensures AllDone(s, net)
  {
    forall c | 0 <= c < 8
      ensures City.Completed(s.coins[c])
    {
      assert c in {0, 1, 2, 3, 4, 5, 6, 7};
    }
    AllDoneIffAllCities(s, net);
  }

  lemma {:induction false} LowlandsDayZeroChecks(s: State, net: Net)
    requires Fits(s, net) && City.Width(s) == 2 && Emptied(s) && |s.coins| == 8
    requires net.portion == 1000 && net.starts == [0, 4, 8] && net.names == ["Netherlands", "Belgium"]
    requires net.neighbors[0] == [2, 1, 5] && net.neighbors[1] == [3, 0] && net.neighbors[2] == [0, 3, 7] && net.neighbors[3] == [1, 2]
    requires net.neighbors[4] == [6, 5] && net.neighbors[5] == [7, 0, 4] && net.neighbors[6] == [4, 7] && net.neighbors[7] == [5, 2, 6]
    requires s.coins[0][1] == 0 && s.coins[4][0] == 0
    ensures Checks(s, net) == [false, false]
  {
    EmptyCityFailsCheck(s, net, 0, 0, 1);
    EmptyCityFailsCheck(s, net, 1, 4, 0);
  }

  lemma {:induction false} LowlandsDayOneChecks(s: State, net: Net)
    requires Fits(s, net) && City.Width(s) == 2 && Emptied(s) && |s.coins| == 8
    requires net.portion == 1000 && net.starts == [0, 4, 8] && net.names == ["Netherlands", "Belgium"]
    requires net.neighbors[0] == [2, 1, 5] && net.neighbors[1] == [3, 0] && net.neighbors[2] == [0, 3, 7] && net.neighbors[3] == [1, 2]
    requires net.neighbors[4] == [6, 5] && net.neighbors[5] == [7, 0, 4] && net.neighbors[6] == [4, 7] && net.neighbors[7] == [5, 2, 6]
    requires s.coins[1][1] == 0 && s.coins[4][0] == 0
    ensures Checks(s, net) == [false, false] && !AllDone(s, net)
  {
    EmptyCityFailsCheck(s, net, 0, 1, 1);
    EmptyCityFailsCheck(s, net, 1, 4, 0);
    AllDoneIffAllCities(s, net);
    assert !City.Completed(s.coins[1]);
  }

  lemma {:induction false} LowlandsRecorded(s0: State, net: Net)
    requires Fits(s0, net) && net.names == ["Netherlands", "Belgium"]
    requires Checks(DayState(s0, net, 0), net) == [false, false] && Checks(DayState(s0, net, 1), net) == [false, false]
    ensures Recorded(s0, net, 2) == map[]
  {
    DayStep(s0, net, 0, 1);
    DayStep(s0, net, 1, 2);
    assert Recorded(s0, net, 0) == map[] by {
      assert History(s0, net, 0) == [];
    }
    NothingRecorded([false, false], net.names, 2, Recorded(s0, net, 0), 0);
    NothingRecorded([false, false], net.names, 2, Recorded(s0, net, 1), 1);
  }

  lemma {:induction false} LowlandsDayStates(s: State, net: Net)
    requires Fits(s, net) && City.Width(s) == 2 && Emptied(s) && |s.coins| == 8
    requires net.portion == 1000 && net.starts == [0, 4, 8] && net.names == ["Netherlands", "Belgium"]
    requires net.neighbors[0] == [2, 1, 5] && net.neighbors[1] == [3, 0] && net.neighbors[2] == [0, 3, 7] && net.neighbors[3] == [1, 2]
    requires net.neighbors[4] == [6, 5] && net.neighbors[5] == [7, 0, 4] && net.neighbors[6] == [4, 7] && net.neighbors[7] == [5, 2, 6]
    requires Symmetric(net)
    requires s.coins[0] == [1000000, 0] && s.coins[1] == [1000000, 0] && s.coins[2] == [1000000, 0] && s.coins[3] == [1000000, 0]
    requires s.coins[4] == [0, 1000000] && s.coins[5] == [0, 1000000] && s.coins[6] == [0, 1000000] && s.coins[7] == [0, 1000000]
    ensures Checks(DayState(s, net, 0), net) == [false, false] && Checks(DayState(s, net, 1), net) == [false, false]
    ensures !AllDone(DayState(s, net, 1), net) && AllDone(DayState(s, net, 2), net)
  {
    LowlandsDayZeroChecks(s, net);
    LowlandsDayOne(s, net);
    var s1 := Day(s, net);
    LowlandsDayOneChecks(s1, net);
    LowlandsDayTwo(s1, net);
    LowlandsSettled(Day(s1, net), net);
    DayStateNext(s, net, 0, 1);
    DayStateNext(s, net, 1, 2);
  }

  lemma {:induction false} LowlandsEmulate(s0: State, net: Net, maxDays: nat)
    requires Fits(s0, net) && 2 <= maxDays && net.names == ["Netherlands", "Belgium"]
    requires !AllDone(DayState(s0, net, 1), net) && AllDone(DayState(s0, net, 2), net) && Recorded(s0, net, 2) == map[]
    ensures Emulate(s0, net, maxDays) == Some(Finish(map["Netherlands" := 2, "Belgium" := 2], 2))
  {
    FirstSettledStep(s0, net, 1, maxDays);
    FirstSettledStep(s0, net, 2, maxDays);
    LowlandsFill(net.names);
  }

  lemma {:induction false} LowlandsFill(names: seq<string>)
    requires names == ["Netherlands", "Belgium"]
    ensures FillUpTo(map[], names, 2, 2) == map["Netherlands" := 2, "Belgium" := 2]
  {
    assert FillUpTo(map[], names, 0, 2) == map[];
    assert FillUpTo(map[], names, 1, 2) == map["Netherlands" := 2];
  }

  /**
   * The two-country sample ends after two days with both countries reported on day 2: on
   * day 0 neither border city has the other coin, on day 1 the Netherlands' city 1 still
   * lacks the Belgian coin, and after day 2 every city holds both.
   */
  lemma {:induction false} LowlandsDoneOnDayTwo(maxDays: nat)
    requires 2 <= maxDays
    ensures Fits(LowlandsState(), LowlandsNet())
    ensures Emulate(LowlandsState(), LowlandsNet(), maxDays) == Some(Finish(map["Netherlands" := 2, "Belgium" := 2], 2))
  {
    var s0, net := LowlandsState(), LowlandsNet();
    LowlandsSymmetric();
    LowlandsShape();
    LowlandsLists(net);
    LowlandsRows(s0);
    LowlandsDayStates(s0, net);
    LowlandsRecorded(s0, net);
    LowlandsEmulate(s0, net, maxDays);
  }
}
