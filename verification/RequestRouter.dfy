/** Weighted choice of a host (src/common/request-router.service.ts), over exact reals. */
module RequestRouter {
  import opened Prelude

  datatype RouteTarget = RouteTarget(host: string, weight: real)

  datatype RouteError = NoTargets

  /** The weights of the first `n` targets together. */
  function Cumulative(targets: seq<RouteTarget>, n: nat): real
    requires n <= |targets|
  {
    if n == 0 then 0.0 else Cumulative(targets, n - 1) + targets[n - 1].weight
  }

  /** The running weight once target `i` has been counted. */
  function Through(targets: seq<RouteTarget>, i: nat): real
    requires i < |targets|
  {
    Cumulative(targets, i + 1)
  }

  function Total(targets: seq<RouteTarget>): real { Cumulative(targets, |targets|) }

  /** The running weight first reaches the draw at target `i`. */
  ghost predicate ReachedAt(targets: seq<RouteTarget>, draw: real, i: nat) {
    i < |targets| && Through(targets, i) >= draw &&
    forall j :: 0 <= j < i ==> Through(targets, j) < draw
  }

  ghost predicate Reached(targets: seq<RouteTarget>, draw: real) {
    exists i: nat :: ReachedAt(targets, draw, i)
  }

  /** `random` is what `Math.random()` answers; weights may be anything, negative ones included. */
  method SelectTarget(targets: seq<RouteTarget>, random: real)
    returns (r: Result<RouteTarget, RouteError>, index: nat, fellBack: bool)
    requires 0.0 <= random < 1.0
    ensures r.Err? <==> targets == []
    ensures r.Ok? ==> index < |targets| && r.value == targets[index]
    ensures r.Ok? && !fellBack ==> ReachedAt(targets, random * Total(targets), index)
    ensures r.Ok? && fellBack ==> index == |targets| - 1 && !Reached(targets, random * Total(targets))
  {
    if |targets| == 0 { return Err(NoTargets), 0, false; }
    var totalWeight := 0.0;
    for i := 0 to |targets|
      invariant totalWeight == Cumulative(targets, i)
    {
      totalWeight := totalWeight + targets[i].weight;
    }
    var left := random * totalWeight;
    for i := 0 to |targets|
      invariant left == random * totalWeight - Cumulative(targets, i)
      invariant forall j :: 0 <= j < i ==> Through(targets, j) < random * totalWeight
    {
      left := left - targets[i].weight;
      if left <= 0.0 { return Ok(targets[i]), i, false; }
    }
    return Ok(targets[|targets| - 1]), |targets| - 1, true;
  }

  /** At most one target is reached first. */
  lemma ReachedOnce(targets: seq<RouteTarget>, draw: real)
    ensures forall i: nat, j: nat :: ReachedAt(targets, draw, i) && ReachedAt(targets, draw, j) ==> i == j
  {
    forall i: nat, j: nat | ReachedAt(targets, draw, i) && ReachedAt(targets, draw, j) ensures i == j {
      assert !(i < j) && !(j < i);
    }
  }

  lemma {:induction false} FirstReached(targets: seq<RouteTarget>, draw: real, n: nat)
    requires n <= |targets|
    ensures (exists i: nat :: i < n && ReachedAt(targets, draw, i)) <==>
            (exists j: nat :: j < n && Through(targets, j) >= draw)
  {
    if n > 0 {
      FirstReached(targets, draw, n - 1);
      if Through(targets, n - 1) >= draw && !exists i: nat :: i < n - 1 && ReachedAt(targets, draw, i) {
        assert ReachedAt(targets, draw, n - 1);
      }
    }
  }

  lemma Product(a: real, b: real)
    requires a >= 0.0 && b >= 0.0
    ensures a * b >= 0.0
    ensures a > 0.0 && b > 0.0 ==> a * b > 0.0
  {}

  /** Unless the weights sum to less than zero, the last line of the method is never reached. */
  lemma NeverFallsBack(targets: seq<RouteTarget>, random: real)
    requires targets != [] && Total(targets) >= 0.0 && 0.0 <= random < 1.0
    ensures Reached(targets, random * Total(targets))
  {
    var draw := random * Total(targets);
    Product(Total(targets), 1.0 - random);
    assert Through(targets, |targets| - 1) >= draw;
    FirstReached(targets, draw, |targets|);
  }

  /** Unless the weights sum to less than zero, every draw reaches one target, and only one. */
  lemma ChosenOnce(targets: seq<RouteTarget>, random: real)
    requires targets != [] && Total(targets) >= 0.0 && 0.0 <= random < 1.0
    ensures ReachedByOne(targets, random * Total(targets))
  {
    NeverFallsBack(targets, random);
    ReachedOnce(targets, random * Total(targets));
  }

  ghost predicate ReachedByOne(targets: seq<RouteTarget>, draw: real) {
    Reached(targets, draw) &&
    forall i: nat, j: nat :: ReachedAt(targets, draw, i) && ReachedAt(targets, draw, j) ==> i == j
  }

  predicate NonNegative(targets: seq<RouteTarget>) {
    forall i :: 0 <= i < |targets| ==> targets[i].weight >= 0.0
  }

  lemma {:induction false} CumulativeGrows(targets: seq<RouteTarget>, i: nat, j: nat)
    requires NonNegative(targets) && i <= j <= |targets|
    ensures Cumulative(targets, i) <= Cumulative(targets, j)
    decreases j - i
  {
    if i < j { CumulativeGrows(targets, i, j - 1); }
  }

  /** With non-negative weights a target is chosen exactly by the draws in its own stretch of the total. */
  lemma ChosenExactly(targets: seq<RouteTarget>, draw: real, i: nat)
    requires NonNegative(targets) && i < |targets| && draw >= 0.0
    ensures ReachedAt(targets, draw, i) <==>
            draw <= Through(targets, i) && (i == 0 || Cumulative(targets, i) < draw)
  {
    if i > 0 && Cumulative(targets, i) < draw { EarlierMissed(targets, draw, i); }
    if i > 0 { assert Through(targets, i - 1) == Cumulative(targets, i); }
  }

  lemma EarlierMissed(targets: seq<RouteTarget>, draw: real, i: nat)
    requires NonNegative(targets) && i < |targets| && Cumulative(targets, i) < draw
    ensures forall j :: 0 <= j < i ==> Through(targets, j) < draw
  {
    forall j | 0 <= j < i ensures Through(targets, j) < draw { CumulativeGrows(targets, j + 1, i); }
  }

  /** The share of `random`, between 0 and 1, below which one of the first `n` targets is chosen. */
  function Share(targets: seq<RouteTarget>, n: nat): real
    requires n <= |targets| && Total(targets) > 0.0
  {
    Cumulative(targets, n) / Total(targets)
  }

  /**
   * A target is chosen on an interval of `random` whose length is its part of the total weight; the
   * intervals follow one another from 0 to 1, and the first also holds 0 itself.
   */
  lemma Proportional(targets: seq<RouteTarget>, random: real, i: nat)
    requires NonNegative(targets) && Total(targets) > 0.0 && i < |targets| && 0.0 <= random < 1.0
    ensures ReachedAt(targets, random * Total(targets), i) <==>
            random <= Share(targets, i + 1) && (i == 0 || Share(targets, i) < random)
    ensures Share(targets, i + 1) - Share(targets, i) == targets[i].weight / Total(targets)
    ensures Share(targets, 0) == 0.0 && Share(targets, |targets|) == 1.0
  {
    var total := Total(targets);
    Product(random, total);
    ChosenExactly(targets, random * total, i);
    Scaled(Cumulative(targets, i + 1), random, total);
    Scaled(Cumulative(targets, i), random, total);
    SharesTile(targets, i);
  }

  lemma SharesTile(targets: seq<RouteTarget>, i: nat)
    requires Total(targets) > 0.0 && i < |targets|
    ensures Share(targets, i + 1) - Share(targets, i) == targets[i].weight / Total(targets)
    ensures Share(targets, 0) == 0.0 && Share(targets, |targets|) == 1.0
  {
    SharesAdd(Cumulative(targets, i), targets[i].weight, Total(targets));
    Whole(Total(targets));
  }

  lemma Whole(total: real)
    requires total > 0.0
    ensures 0.0 / total == 0.0 && total / total == 1.0
  {}

  lemma Scaled(c: real, u: real, total: real)
    requires total > 0.0
    ensures c < u * total <==> c / total < u
    ensures u * total <= c <==> u <= c / total
  {
    var q := c / total;
    assert q * total == c;
    assert (u - q) * total == u * total - c;
  }

  lemma SharesAdd(a: real, b: real, total: real)
    requires total > 0.0
    ensures (a + b) / total - a / total == b / total
  {}

  /** A target of no weight is chosen exactly when it comes first and the draw is 0. */
  lemma WeightlessChosenExactly(targets: seq<RouteTarget>, random: real, i: nat)
    requires NonNegative(targets) && i < |targets| && 0.0 <= random < 1.0 && targets[i].weight == 0.0
    ensures ReachedAt(targets, random * Total(targets), i) <==>
            i == 0 && (random == 0.0 || Total(targets) == 0.0)
  {
    CumulativeGrows(targets, 0, |targets|);
    var draw := random * Total(targets);
    Product(random, Total(targets));
    ChosenExactly(targets, draw, i);
  }
}
