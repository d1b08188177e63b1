/**
 * Tour construction and improvement of the route engine
 * (src/lib/routeOptimization.ts): the distance matrix, the nearest-neighbour
 * tour from the depot, the length of a tour, and 2-opt improvement.
 */
module Tour {
  import opened Collections
  import opened RouteTypes

  /** matrix[i][j]: the distance from stop i to stop j, in metres. */
  type Matrix = seq<seq<real>>

  /** An n x n matrix. */
  predicate IsSquare(m: Matrix)
  {
    forall i :: 0 <= i < |m| ==> |m[i]| == |m|
  }

  /** buildDistanceMatrix: zero on the diagonal, the stops' distance elsewhere. */
  method BuildDistanceMatrix(stops: seq<Stop>, dist: DistanceFn) returns (matrix: Matrix)
    ensures |matrix| == |stops| && IsSquare(matrix)
    ensures forall i, j :: 0 <= i < |stops| && 0 <= j < |stops| ==>
      matrix[i][j] == if i == j then 0.0 else StopDistance(dist, stops[i], stops[j])
  {
    var n := |stops|;
    matrix := [];
    for i := 0 to n
      invariant |matrix| == i
      invariant forall a :: 0 <= a < i ==> |matrix[a]| == n
      invariant forall a, j :: 0 <= a < i && 0 <= j < n ==>
        matrix[a][j] == if a == j then 0.0 else StopDistance(dist, stops[a], stops[j])
    {
      var row: seq<real> := [];
      for j := 0 to n
        invariant |row| == j
        invariant forall b :: 0 <= b < j ==>
          row[b] == if i == b then 0.0 else StopDistance(dist, stops[i], stops[b])
      {
        if i == j {
          row := row + [0.0];
        } else {
          row := row + [StopDistance(dist, stops[i], stops[j])];
        }
      }
      matrix := matrix + [row];
    }
  }

  /** When the distance is symmetric, so is the matrix built from it. */
  lemma MatrixSymmetric(stops: seq<Stop>, dist: DistanceFn, matrix: Matrix)
    requires forall a, b :: StopDistance(dist, a, b) == StopDistance(dist, b, a)
    requires |matrix| == |stops| && IsSquare(matrix)
    requires forall i, j :: 0 <= i < |stops| && 0 <= j < |stops| ==>
      matrix[i][j] == if i == j then 0.0 else StopDistance(dist, stops[i], stops[j])
    ensures forall i, j :: 0 <= i < |stops| && 0 <= j < |stops| ==> matrix[i][j] == matrix[j][i]
  {
    forall i, j | 0 <= i < |stops| && 0 <= j < |stops| ensures matrix[i][j] == matrix[j][i] {
      assert StopDistance(dist, stops[i], stops[j]) == StopDistance(dist, stops[j], stops[i]);
    }
  }

  /** The length of a route: the sum of matrix[route[i]][route[i + 1]] over consecutive pairs. */
  function RouteDistance(route: seq<nat>, m: Matrix): real
    requires IsSquare(m) && InRange(route, |m|)
  {
    if |route| <= 1 then 0.0
    else RouteDistance(route[..|route| - 1], m) + m[route[|route| - 2]][route[|route| - 1]]
  }

  /** calculateRouteDistance: accumulates the pair distances left to right. */
  method CalculateRouteDistance(route: seq<nat>, m: Matrix) returns (total: real)
    requires IsSquare(m) && InRange(route, |m|)
    ensures total == RouteDistance(route, m)
  {
    total := 0.0;
    var i := 0;
    while i < |route| - 1
      invariant 0 <= i && (|route| > 0 ==> i <= |route| - 1)
      invariant |route| > 0 ==> total == RouteDistance(route[..i + 1], m)
      invariant |route| == 0 ==> total == 0.0
    {
      assert route[..i + 2][..i + 1] == route[..i + 1];
      total := total + m[route[i]][route[i + 1]];
      i := i + 1;
    }
    assert |route| > 0 ==> route[..i + 1] == route;
  }

  /**
   * The tour shape nearestNeighbor promises for n stops: n + 1 entries,
   * the depot at both ends, and in between every other index exactly once.
   */
  ghost predicate IsTour(route: seq<nat>, n: nat, depot: nat)
  {
    && |route| == n + 1
    && route[0] == depot && route[n] == depot
    && InRange(route, n)
    && Distinct(route[..n])
    && forall k :: 0 <= k < n ==> k in route[..n]
  }

  /**
   * `next` is the unvisited index nearest to the last index of `prefix`,
   * the lowest such index when several are equally near.
   */
  ghost predicate NearestChoice(m: Matrix, prefix: seq<nat>, next: nat)
  {
    && |prefix| > 0
    && var c := prefix[|prefix| - 1];
    && c < |m| && next < |m| && |m[c]| == |m| && next !in prefix
    && forall k :: 0 <= k < |m| && k !in prefix ==>
         m[c][next] <= m[c][k] && (k < next ==> m[c][next] < m[c][k])
  }

  /** Every index after the first in `route` was a nearest choice when taken. */
  ghost predicate NearestWalk(m: Matrix, route: seq<nat>)
  {
    forall t :: 1 <= t < |route| ==> NearestChoice(m, route[..t], route[t])
  }

  /**
   * The inner scan of nearestNeighbor: the first index, among those not yet
   * visited, at minimum distance from `current`; -1 when all are visited.
   */
  method NearestUnvisited(m: Matrix, current: nat, visited: set<nat>) returns (nearestIdx: int)
    requires IsSquare(m) && current < |m|
    ensures nearestIdx == -1 <==> forall k :: 0 <= k < |m| ==> k in visited
    ensures nearestIdx != -1 ==>
      && 0 <= nearestIdx < |m| && nearestIdx !in visited
      && forall k :: 0 <= k < |m| && k !in visited ==>
           m[current][nearestIdx] <= m[current][k]
           && (k < nearestIdx ==> m[current][nearestIdx] < m[current][k])
  {
    var n := |m|;
    var nearestDist := 0.0;
    nearestIdx := -1;
    for i := 0 to n
      invariant nearestIdx == -1 ==> forall k :: 0 <= k < i ==> k in visited
      invariant nearestIdx != -1 ==>
        && 0 <= nearestIdx < i && nearestIdx !in visited
        && nearestDist == m[current][nearestIdx]
        && forall k :: 0 <= k < i && k !in visited ==>
             nearestDist <= m[current][k] && (k < nearestIdx ==> nearestDist < m[current][k])
    {
      if i !in visited && (nearestIdx == -1 || m[current][i] < nearestDist) {
        nearestDist := m[current][i];
        nearestIdx := i;
      }
    }
  }

  /** Appending a nearest choice keeps every earlier step a nearest choice. */
  lemma ExtendNearest(m: Matrix, route: seq<nat>, next: nat)
    requires forall t :: 1 <= t < |route| ==> NearestChoice(m, route[..t], route[t])
    requires NearestChoice(m, route, next)
    ensures forall t :: 1 <= t < |route| + 1 ==> NearestChoice(m, (route + [next])[..t], (route + [next])[t])
  {
    var r := route + [next];
    forall t | 1 <= t < |r| ensures NearestChoice(m, r[..t], r[t]) {
      if t < |route| {
        assert r[..t] == route[..t];
      } else {
        assert r[..t] == route;
      }
    }
  }

  /**
   * nearestNeighbor: from the depot, repeatedly move to the nearest unvisited
   * index (strict <, so the first index wins a tie), then return to the depot.
   */
  method NearestNeighbor(m: Matrix, depot: nat) returns (route: seq<nat>)
    requires IsSquare(m) && depot < |m|
    ensures IsTour(route, |m|, depot)
    ensures forall t :: 1 <= t < |m| ==> NearestChoice(m, route[..t], route[t])
  {
    var n := |m|;
    var visited: set<nat> := {depot};
    route := [depot];
    var current := depot;
    while |visited| < n
      invariant Walk(m, depot, route, visited) && current == route[|route| - 1]
      decreases n - |visited|
    {
      WalkNotDone(m, depot, route, visited);
      var nearestIdx := NearestUnvisited(m, current, visited);
      if nearestIdx != -1 {
        StepNearest(m, depot, route, visited, nearestIdx);
        route := route + [nearestIdx];
        visited := visited + {nearestIdx};
        current := nearestIdx;
      }
    }
    TourClosed(m, depot, route, visited);
    route := route + [depot];
  }

  /**
   * The state of nearestNeighbor's loop: a walk from the depot through
   * distinct indices, each a nearest choice, whose indices are `visited`.
   */
  ghost predicate Walk(m: Matrix, depot: nat, route: seq<nat>, visited: set<nat>)
  {
    && IsSquare(m) && 1 <= |route| <= |m| && route[0] == depot
    && InRange(route, |m|) && Distinct(route)
    && (forall x :: x in visited <==> x in route) && |visited| == |route|
    && NearestWalk(m, route)
  }

  /** The visited set of a walk over indices below n holds only indices below n. */
  lemma VisitedBelow(route: seq<nat>, visited: set<nat>, n: nat)
    requires InRange(route, n)
    requires forall x :: x in visited <==> x in route
    ensures forall x :: x in visited ==> x < n
  {
    forall x | x in visited ensures x < n {
      var i :| 0 <= i < |route| && route[i] == x;
    }
  }

  /** While fewer than n indices are visited, one is left to visit. */
  lemma WalkNotDone(m: Matrix, depot: nat, route: seq<nat>, visited: set<nat>)
    requires Walk(m, depot, route, visited) && |visited| < |m|
    ensures exists k :: 0 <= k < |m| && k !in visited
  {
    VisitedBelow(route, visited, |m|);
    MissingIndex(visited, |m|);
  }

  /** One step of nearestNeighbor keeps its loop invariant. */
  lemma StepNearest(m: Matrix, depot: nat, route: seq<nat>, visited: set<nat>, next: nat)
    requires Walk(m, depot, route, visited)
    requires 0 <= next < |m| && next !in visited
    requires forall k :: 0 <= k < |m| && k !in visited ==>
      m[route[|route| - 1]][next] <= m[route[|route| - 1]][k]
      && (k < next ==> m[route[|route| - 1]][next] < m[route[|route| - 1]][k])
    ensures Walk(m, depot, route + [next], visited + {next})
    ensures |visited + {next}| == |visited| + 1
  {
    assert NearestChoice(m, route, next);
    ExtendNearest(m, route, next);
    VisitedBelow(route + [next], visited + {next}, |m|);
    FullRangeBound(visited + {next}, |m|);
  }

  /** A set of indices below n has at most n members. */
  lemma FullRangeBound(s: set<nat>, n: nat)
    requires forall x :: x in s ==> x < n
    ensures |s| <= n
  {
    RangeSize(n);
    assert s <= Range(n);
    SubsetSize(s, Range(n));
  }

  /** Closing a walk over all n indices with the depot gives a tour. */
  lemma TourClosed(m: Matrix, depot: nat, route: seq<nat>, visited: set<nat>)
    requires Walk(m, depot, route, visited) && |visited| >= |m|
    ensures IsTour(route + [depot], |m|, depot)
    ensures forall t :: 1 <= t < |m| ==> NearestChoice(m, (route + [depot])[..t], (route + [depot])[t])
  {
    VisitedBelow(route, visited, |m|);
    FullRange(visited, |m|);
    var r := route + [depot];
    assert r[..|m|] == route;
    forall t | 1 <= t < |m| ensures NearestChoice(m, r[..t], r[t]) {
      assert r[..t] == route[..t];
    }
  }

  /** A permutation keeps the values in range. */
  lemma PermutationInRange(a: seq<nat>, b: seq<nat>, n: nat)
    requires multiset(a) == multiset(b) && InRange(a, n)
    ensures InRange(b, n)
  {
    forall k | 0 <= k < |b| ensures b[k] < n {
      assert b[k] in multiset(b);
      assert b[k] in multiset(a);
      var i :| 0 <= i < |a| && a[i] == b[k];
    }
  }

  /** The route with the segment route[i..j] (both ends included) reversed. */
  function TwoOptMove(route: seq<nat>, i: nat, j: nat): (r: seq<nat>)
    requires i <= j < |route|
    ensures |r| == |route|
    ensures multiset(r) == multiset(route)
    ensures r[..i] == route[..i] && r[j + 1..] == route[j + 1..]
    ensures forall k :: i <= k <= j ==> r[k] == route[i + j - k]
    ensures forall n: nat :: InRange(route, n) ==> InRange(r, n)
  {
    var r := route[..i] + Reverse(route[i..j + 1]) + route[j + 1..];
    assert route == route[..i] + route[i..j + 1] + route[j + 1..];
    assert r[..i] == route[..i];
    assert r[j + 1..] == route[j + 1..];
    assert forall n: nat :: InRange(route, n) ==> InRange(r, n) by {
      forall n: nat | InRange(route, n) ensures InRange(r, n) {
        PermutationInRange(route, r, n);
      }
    }
    r
  }

  /** The move reversing route[i..j] does not make the route shorter than d. */
  ghost predicate NoShorterMove(route: seq<nat>, m: Matrix, i: nat, j: nat, d: real)
    requires IsSquare(m) && InRange(route, |m|) && i <= j < |route|
  {
    RouteDistance(TwoOptMove(route, i, j), m) >= d
  }

  /** No 2-opt move over the interior positions strictly shortens the route. */
  ghost predicate LocallyOptimal(route: seq<nat>, m: Matrix)
    requires IsSquare(m) && InRange(route, |m|)
  {
    forall i, j :: 1 <= i < j < |route| - 1 ==> NoShorterMove(route, m, i, j, RouteDistance(route, m))
  }

  /** All sequences of length len over the values in e. */
  ghost function AllSeqs(e: set<nat>, len: nat): (r: set<seq<nat>>)
    ensures forall p :: p in r ==> |p| == len && forall x :: x in p ==> x in e
  {
    if len == 0 then {[]}
    else set p, x | p in AllSeqs(e, len - 1) && x in e :: p + [x]
  }

  lemma {:induction false} InAllSeqs(e: set<nat>, p: seq<nat>)
    requires forall x :: x in p ==> x in e
    ensures p in AllSeqs(e, |p|)
  {
    if p != [] {
      var q := p[..|p| - 1];
      assert forall x :: x in q ==> x in p;
      InAllSeqs(e, q);
      assert p == q + [p[|p| - 1]];
    }
  }

  /** The rearrangements of `route`'s values that are strictly shorter than d. */
  ghost function Shorter(route: seq<nat>, m: Matrix, d: real): set<seq<nat>>
    requires IsSquare(m)
  {
    set p | p in AllSeqs(Elems(route), |route|) && InRange(p, |m|) && RouteDistance(p, m) < d
  }

  /** Accepting a strictly shorter rearrangement shrinks the set of shorter ones. */
  lemma ShorterShrinks(route: seq<nat>, m: Matrix, best: seq<nat>, d: real, d': real)
    requires IsSquare(m) && InRange(route, |m|) && InRange(best, |m|)
    requires multiset(best) == multiset(route) && RouteDistance(best, m) == d' && d' < d
    ensures Shorter(route, m, d') < Shorter(route, m, d)
    ensures |Shorter(route, m, d')| < |Shorter(route, m, d)|
  {
    forall x | x in best ensures x in Elems(route) {
      assert x in multiset(best);
    }
    InAllSeqs(Elems(route), best);
    assert |best| == |route| by {
      assert |multiset(best)| == |multiset(route)|;
    }
    assert best in Shorter(route, m, d) && best !in Shorter(route, m, d');
    var a, b := Shorter(route, m, d'), Shorter(route, m, d);
    assert b == a + (b - a);
    assert best in b - a;
  }

  /** `b` is `route` rearranged: same values, same first and last entries. */
  ghost predicate Rearranged(b: seq<nat>, route: seq<nat>, m: Matrix)
  {
    && |b| == |route| && multiset(b) == multiset(route) && InRange(b, |m|)
    && (|route| > 0 ==> b[0] == route[0] && b[|route| - 1] == route[|route| - 1])
  }

  /** An interior reversal keeps a rearrangement a rearrangement. */
  lemma MoveRearranges(b: seq<nat>, route: seq<nat>, m: Matrix, i: nat, j: nat)
    requires Rearranged(b, route, m) && 1 <= i <= j < |b| - 1
    ensures Rearranged(TwoOptMove(b, i, j), route, m)
  {
    var r := TwoOptMove(b, i, j);
    assert r[0] == b[0];
    assert r[|b| - 1] == b[|b| - 1];
  }

  /** No reversal of route[i..b] with i < b < j shortens the route below d. */
  ghost predicate NoShorterUpTo(route: seq<nat>, m: Matrix, i: nat, j: nat, d: real)
    requires IsSquare(m) && InRange(route, |m|)
  {
    forall b :: i < b < j && b < |route| - 1 ==> NoShorterMove(route, m, i, b, d)
  }

  lemma NoShorterStep(route: seq<nat>, m: Matrix, i: nat, j: nat, d: real)
    requires IsSquare(m) && InRange(route, |m|) && i < j < |route| - 1
    requires NoShorterUpTo(route, m, i, j, d)
    requires RouteDistance(TwoOptMove(route, i, j), m) >= d
    ensures NoShorterUpTo(route, m, i, j + 1, d)
  {
    forall b | i < b < j + 1 && b < |route| - 1
      ensures NoShorterMove(route, m, i, b, d)
    {
      if b == j {
        assert NoShorterMove(route, m, i, j, d);
      }
    }
  }

  /**
   * The inner loop of twoOpt for a fixed i: tries j = i+1 .. n-2 in order,
   * keeping each strictly shorter reversal.
   */
  method ImproveFrom(start: seq<nat>, startDistance: real, m: Matrix, i: nat)
    returns (best: seq<nat>, bestDistance: real)
    requires IsSquare(m) && InRange(start, |m|) && 1 <= i
    requires startDistance == RouteDistance(start, m)
    ensures Rearranged(best, start, m)
    ensures bestDistance == RouteDistance(best, m) <= startDistance
    ensures bestDistance == startDistance ==>
      best == start && NoShorterUpTo(start, m, i, |start|, startDistance)
  {
    var n := |start|;
    best, bestDistance := start, startDistance;
    var j := i + 1;
    while j < n - 1
      invariant i + 1 <= j
      invariant Rearranged(best, start, m)
      invariant bestDistance == RouteDistance(best, m) <= startDistance
      invariant bestDistance == startDistance ==> best == start && NoShorterUpTo(start, m, i, j, startDistance)
    {
      var newRoute := TwoOptMove(best, i, j);
      MoveRearranges(best, start, m, i, j);
      var newDistance := CalculateRouteDistance(newRoute, m);
      if newDistance < bestDistance {
        best := newRoute;
        bestDistance := newDistance;
      } else if bestDistance == startDistance {
        NoShorterStep(start, m, i, j, startDistance);
      }
      j := j + 1;
    }
  }

  /** No reversal of route[a..b] with 1 <= a < i shortens the route below d. */
  ghost predicate NoShorterBelow(route: seq<nat>, m: Matrix, i: nat, d: real)
    requires IsSquare(m) && InRange(route, |m|)
  {
    forall a, b :: 1 <= a < i && a < b < |route| - 1 ==> NoShorterMove(route, m, a, b, d)
  }

  lemma NoShorterBelowStep(route: seq<nat>, m: Matrix, i: nat, d: real)
    requires IsSquare(m) && InRange(route, |m|) && 1 <= i
    requires NoShorterBelow(route, m, i, d) && NoShorterUpTo(route, m, i, |route|, d)
    ensures NoShorterBelow(route, m, i + 1, d)
  {
  }

  lemma NoShorterBelowDone(route: seq<nat>, m: Matrix, i: nat)
    requires IsSquare(m) && InRange(route, |m|) && |route| - 2 <= i
    requires NoShorterBelow(route, m, i, RouteDistance(route, m))
    ensures LocallyOptimal(route, m)
  {
  }

  /** A rearrangement of a rearrangement is a rearrangement. */
  lemma RearrangedTrans(c: seq<nat>, b: seq<nat>, route: seq<nat>, m: Matrix)
    requires Rearranged(c, b, m) && Rearranged(b, route, m)
    ensures Rearranged(c, route, m)
  {
  }

  /**
   * One pass of twoOpt's outer loop body: all 1 <= i < j <= n - 2. It
   * reports an improvement exactly when the route became strictly shorter,
   * and a pass without one certifies the route locally optimal.
   */
  method ImprovePass(start: seq<nat>, startDistance: real, m: Matrix)
    returns (best: seq<nat>, bestDistance: real, improved: bool)
    requires IsSquare(m) && InRange(start, |m|)
    requires startDistance == RouteDistance(start, m)
    ensures Rearranged(best, start, m)
    ensures bestDistance == RouteDistance(best, m) <= startDistance
    ensures improved <==> bestDistance < startDistance
    ensures !improved ==> best == start && LocallyOptimal(start, m)
    ensures |start| <= 3 ==> !improved
  {
    var n := |start|;
    best, bestDistance := start, startDistance;
    improved := false;
    var i := 1;
    while i < n - 2
      invariant 1 <= i
      invariant Rearranged(best, start, m)
      invariant bestDistance == RouteDistance(best, m) <= startDistance
      invariant improved <==> bestDistance < startDistance
      invariant n <= 3 ==> !improved
      invariant !improved ==> best == start && NoShorterBelow(start, m, i, startDistance)
    {
      var next, nextDistance := ImproveFrom(best, bestDistance, m, i);
      RearrangedTrans(next, best, start, m);
      if nextDistance < bestDistance {
        improved := true;
      } else if !improved {
        NoShorterBelowStep(start, m, i, startDistance);
      }
      best, bestDistance := next, nextDistance;
      i := i + 1;
    }
    if !improved {
      NoShorterBelowDone(start, m, i);
    }
  }

  /**
   * twoOpt: passes over all 1 <= i < j <= n - 2, replacing the route by the
   * reversal of route[i..j] whenever that is strictly shorter, until a pass
   * changes nothing.
   */
  method TwoOpt(route: seq<nat>, m: Matrix) returns (bestRoute: seq<nat>)
    requires IsSquare(m) && InRange(route, |m|)
    ensures Rearranged(bestRoute, route, m)
    ensures RouteDistance(bestRoute, m) <= RouteDistance(route, m)
    ensures LocallyOptimal(bestRoute, m)
    ensures |route| <= 3 ==> bestRoute == route
  {
    var improved := true;
    bestRoute := route;
    var bestDistance := CalculateRouteDistance(bestRoute, m);
    while improved
      invariant Rearranged(bestRoute, route, m)
      invariant bestDistance == RouteDistance(bestRoute, m) <= RouteDistance(route, m)
      invariant !improved ==> LocallyOptimal(bestRoute, m)
      invariant |route| <= 3 ==> bestRoute == route
      decreases (if improved then 1 else 0) + |Shorter(route, m, bestDistance)|
    {
      ghost var passDistance := bestDistance;
      bestRoute, bestDistance, improved := ImprovePass(bestRoute, bestDistance, m);
      if improved {
        ShorterShrinks(route, m, bestRoute, passDistance, bestDistance);
      }
    }
  }

  /** A rearrangement of a tour that keeps both ends is again a tour. */
  lemma TourRearranged(route: seq<nat>, b: seq<nat>, m: Matrix, depot: nat)
    requires IsTour(route, |m|, depot) && Rearranged(b, route, m)
    ensures IsTour(b, |m|, depot)
  {
    var n := |m|;
    assert route == route[..n] + [route[n]];
    assert b == b[..n] + [b[n]];
    assert b[n] == route[n];
    assert multiset(route) == multiset(route[..n]) + multiset{route[n]};
    assert multiset(b) == multiset(b[..n]) + multiset{route[n]};
    assert multiset(b[..n]) == multiset(route[..n]) by {
      forall x ensures multiset(b[..n])[x] == multiset(route[..n])[x] {
        assert multiset(b)[x] == multiset(b[..n])[x] + multiset{route[n]}[x];
        assert multiset(route)[x] == multiset(route[..n])[x] + multiset{route[n]}[x];
      }
    }
    DistinctPermutation(route[..n], b[..n]);
    forall k | 0 <= k < n ensures k in b[..n] {
      assert k in route[..n];
      assert k in multiset(route[..n]);
    }
  }
}
