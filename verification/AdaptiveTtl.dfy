/** Adaptive cache lifetimes (src/caching/adaptive-ttl.service.ts), over exact reals. */
module AdaptiveTtl {
  import opened Prelude

  type Factor = f: real | f > 0.0 witness 1.0

  datatype Rule = Rule(minTtl: nat, maxTtl: nat, hitRateThreshold: real, accessFrequencyThreshold: real,
                       adjustmentFactor: Factor, enabled: bool)

  datatype Metrics = Metrics(hitRate: real, accessFrequency: real)

  /** `Math.round`: the nearest integer, halves upwards. */
  function Round(x: real): int { (x + 0.5).Floor }

  function RMin(a: real, b: real): real { if a <= b then a else b }

  function RMax(a: real, b: real): real { if a >= b then a else b }

  // ---- The service -------------------------------------------------------

  datatype Reason = HighTraffic | LowHitRate | LowFrequency | Adaptive

  /** `getAdjustmentReason` */
  function AdjustmentReason(m: Metrics, rule: Rule): Reason {
    if m.hitRate >= rule.hitRateThreshold && m.accessFrequency >= rule.accessFrequencyThreshold then HighTraffic
    else if m.hitRate < rule.hitRateThreshold * 0.7 then LowHitRate
    else if m.accessFrequency < rule.accessFrequencyThreshold * 0.5 then LowFrequency
    else Adaptive
  }

  /** The branch taken for an enabled rule when both metrics are known. */
  function Moved(rule: Rule, ttl: real, m: Metrics): real {
    if m.hitRate >= rule.hitRateThreshold && m.accessFrequency >= rule.accessFrequencyThreshold then
      RMin(ttl * rule.adjustmentFactor, rule.maxTtl as real)
    else if m.hitRate < rule.hitRateThreshold * 0.7 then RMax(ttl / rule.adjustmentFactor, rule.minTtl as real)
    else if m.accessFrequency < rule.accessFrequencyThreshold * 0.5 then RMax(ttl * 0.8, rule.minTtl as real)
    else ttl
  }

  function Adjusted(rule: Rule, ttl: real, m: Metrics): real {
    Round(RMax(rule.minTtl as real, RMin(Moved(rule, ttl, m), rule.maxTtl as real))) as real
  }

  function GetAdaptiveTtl(rule: Option<Rule>, defaultTtl: real, hitRate: Option<real>, accessFrequency: Option<real>)
    : (ttl: real)
  {
    if rule.None? || !rule.value.enabled then defaultTtl
    else if hitRate.None? || accessFrequency.None? then
      RMax(rule.value.minTtl as real, RMin(defaultTtl, rule.value.maxTtl as real))
    else Adjusted(rule.value, defaultTtl, Metrics(hitRate.value, accessFrequency.value))
  }

  datatype Recommendation = Recommendation(currentTtl: real, recommendedTtl: real, reason: Reason)

  /** `handlePerformanceAnalysis`, with the rule that matches the key. */
  function HandlePerformanceAnalysis(rule: Option<Rule>, defaultRule: Rule, currentTtl: real, m: Metrics)
    : Option<Recommendation>
  {
    var ttl := GetAdaptiveTtl(rule, currentTtl, Some(m.hitRate), Some(m.accessFrequency));
    if ttl != currentTtl then Some(Recommendation(currentTtl, ttl, AdjustmentReason(m, rule.GetOr(defaultRule))))
    else None
  }

  // ---- One step, on the whole seconds it returns -------------------------

  function Lo(rule: Rule): nat { rule.minTtl }

  function Hi(rule: Rule): nat { Max(rule.minTtl, rule.maxTtl) }

  predicate Within(rule: Rule, x: int) { Lo(rule) <= x <= Hi(rule) }

  function Next(rule: Rule, m: Metrics, x: int): int { Adjusted(rule, x as real, m).Floor }

  /** The unrounded multiple of the current lifetime that a step aims for. */
  function Aim(rule: Rule, m: Metrics, x: int): real {
    match AdjustmentReason(m, rule)
    case HighTraffic => x as real * rule.adjustmentFactor
    case LowHitRate => x as real / rule.adjustmentFactor
    case LowFrequency => x as real * 0.8
    case Adaptive => x as real
  }

  function Clamp(rule: Rule, x: int): int { Max(Lo(rule), Min(x, Hi(rule))) }

  lemma RoundClamps(lo: int, hi: int, x: real)
    requires lo <= hi
    ensures Round(RMax(lo as real, RMin(x, hi as real))) == Max(lo, Min(Round(x), hi))
  {}

  /** Rounding commutes with the clamping: a step is the rounded aim, clamped to the rule's bounds. */
  lemma StepRoundsAim(rule: Rule, m: Metrics, x: int)
    requires Within(rule, x)
    ensures Next(rule, m, x) == Clamp(rule, Round(Aim(rule, m, x)))
    ensures Adjusted(rule, x as real, m) == Next(rule, m, x) as real
    ensures Within(rule, Next(rule, m, x))
  {
    RoundClamps(Lo(rule), Hi(rule), Aim(rule, m, x));
    StepAims(rule, m, x);
  }

  lemma StepAims(rule: Rule, m: Metrics, x: int)
    requires Within(rule, x)
    ensures Adjusted(rule, x as real, m)
            == Round(RMax(Lo(rule) as real, RMin(Aim(rule, m, x), Hi(rule) as real))) as real
  {}

  // ---- Which way it moves ------------------------------------------------

  /** High traffic moves up and a low hit rate down, unless the factor is below one, which swaps them. */
  predicate Rising(rule: Rule, m: Metrics) {
    match AdjustmentReason(m, rule)
    case HighTraffic => rule.adjustmentFactor >= 1.0
    case LowHitRate => rule.adjustmentFactor < 1.0
    case LowFrequency => false
    case Adaptive => true
  }

  lemma Quotient(x: real, f: real)
    requires f > 0.0
    ensures x / f * f == x
    ensures x >= 0.0 ==> x / f >= 0.0
  {}

  lemma Product(a: real, b: real)
    requires a >= 0.0 && b >= 0.0
    ensures a * b >= 0.0
  {}

  lemma TimesGrows(x: real, f: real)
    requires x >= 0.0 && f > 0.0
    ensures f >= 1.0 ==> x * f >= x && x / f <= x
    ensures f <= 1.0 ==> x * f <= x && x / f >= x
  {
    Quotient(x, f);
    var q := x / f;
    assert f >= 1.0 ==> q * (f - 1.0) >= 0.0;
    assert f <= 1.0 ==> q * (1.0 - f) >= 0.0;
    assert f >= 1.0 ==> x * (f - 1.0) >= 0.0;
    assert f <= 1.0 ==> x * (1.0 - f) >= 0.0;
  }

  lemma Direction(rule: Rule, m: Metrics, x: int)
    requires Within(rule, x)
    ensures Rising(rule, m) ==> Next(rule, m, x) >= x
    ensures !Rising(rule, m) ==> Next(rule, m, x) <= x
  {
    StepRoundsAim(rule, m, x);
    TimesGrows(x as real, rule.adjustmentFactor);
  }

  // ---- Feeding the result back -------------------------------------------

  function Iterate(rule: Rule, m: Metrics, x: int, n: nat): int
    decreases n
  {
    if n == 0 then x else Iterate(rule, m, Next(rule, m, x), n - 1)
  }

  predicate Settled(rule: Rule, m: Metrics, x: int) { Next(rule, m, x) == x }

  lemma {:induction false} SettledStays(rule: Rule, m: Metrics, x: int, n: nat)
    requires Settled(rule, m, x)
    ensures Iterate(rule, m, x, n) == x
  {
    if n > 0 { SettledStays(rule, m, x, n - 1); }
  }

  /** What is left to go, in the direction of travel: strictly smaller after every step that changes anything. */
  function Distance(rule: Rule, m: Metrics, x: int): int {
    if Rising(rule, m) then Hi(rule) - x else x - Lo(rule)
  }

  lemma DistanceShrinks(rule: Rule, m: Metrics, x: int)
    requires Within(rule, x)
    ensures Within(rule, Next(rule, m, x))
    ensures Settled(rule, m, x) || 0 <= Distance(rule, m, Next(rule, m, x)) < Distance(rule, m, x)
  {
    StepRoundsAim(rule, m, x);
    Direction(rule, m, x);
  }

  /** From any lifetime inside the bounds, it settles within as many steps as the distance. */
  lemma {:induction false} Settles(rule: Rule, m: Metrics, x: int, n: nat)
    requires Within(rule, x) && n >= Distance(rule, m, x)
    ensures Within(rule, Iterate(rule, m, x, n))
    ensures Settled(rule, m, Iterate(rule, m, x, n))
    decreases n
  {
    DistanceShrinks(rule, m, x);
    if Settled(rule, m, x) {
      SettledStays(rule, m, x, n);
    } else {
      Settles(rule, m, Next(rule, m, x), n - 1);
    }
  }

  /** A lifetime that keeps following its recommendations, as the handler emits them. */
  function Follow(rule: Rule, m: Metrics, ttl: real, n: nat): real
    decreases n
  {
    if n == 0 then ttl
    else
      var r := HandlePerformanceAnalysis(Some(rule), rule, ttl, m);
      Follow(rule, m, if r.Some? then r.value.recommendedTtl else ttl, n - 1)
  }

  lemma {:induction false} FollowIterates(rule: Rule, m: Metrics, x: int, n: nat)
    requires rule.enabled && Within(rule, x)
    ensures Follow(rule, m, x as real, n) == Iterate(rule, m, x, n) as real
    decreases n
  {
    if n > 0 {
      StepRoundsAim(rule, m, x);
      FollowIterates(rule, m, Next(rule, m, x), n - 1);
    }
  }

  /** The lifetime after one recommendation: whole seconds inside the bounds, wherever it started. */
  lemma FirstStep(rule: Rule, m: Metrics, ttl: real)
    ensures var x := Adjusted(rule, ttl, m).Floor;
            Adjusted(rule, ttl, m) == x as real && Within(rule, x)
  {
    RoundWithin(rule.minTtl, rule.maxTtl, Moved(rule, ttl, m));
  }

  /** Without both metrics a lifetime inside the bounds comes back as it is, one outside as the nearer bound. */
  lemma WithoutMetricsExactly(rule: Rule, ttl: real, hitRate: Option<real>, accessFrequency: Option<real>)
    requires rule.enabled && rule.minTtl <= rule.maxTtl && (hitRate.None? || accessFrequency.None?)
    ensures var r := GetAdaptiveTtl(Some(rule), ttl, hitRate, accessFrequency);
            (rule.minTtl as real <= ttl <= rule.maxTtl as real ==> r == ttl) &&
            (ttl < rule.minTtl as real ==> r == rule.minTtl as real) &&
            (ttl > rule.maxTtl as real ==> r == rule.maxTtl as real)
  {}

  /** No rule, or a disabled one, leaves every lifetime alone and recommends nothing. */
  lemma WithoutRuleUnchanged(rule: Option<Rule>, other: Rule, ttl: real, m: Metrics)
    requires rule.None? || !rule.value.enabled
    ensures GetAdaptiveTtl(rule, ttl, Some(m.hitRate), Some(m.accessFrequency)) == ttl
    ensures HandlePerformanceAnalysis(rule, other, ttl, m) == None
  {}

  /** With an enabled rule the handler recommends the adjusted lifetime exactly when it differs. */
  lemma RecommendsExactly(rule: Rule, other: Rule, ttl: real, m: Metrics)
    requires rule.enabled
    ensures var r := HandlePerformanceAnalysis(Some(rule), other, ttl, m);
            (r.None? <==> Adjusted(rule, ttl, m) == ttl) &&
            (r.Some? ==> r.value.currentTtl == ttl && r.value.recommendedTtl == Adjusted(rule, ttl, m) &&
                         r.value.reason == AdjustmentReason(m, rule))
  {}

  /** With or without metrics, an enabled rule's bounds hold for every starting lifetime. */
  lemma ResultBounded(rule: Rule, ttl: real, hitRate: Option<real>, accessFrequency: Option<real>)
    requires rule.enabled
    ensures Lo(rule) as real <= GetAdaptiveTtl(Some(rule), ttl, hitRate, accessFrequency) <= Hi(rule) as real
  {
    if hitRate.Some? && accessFrequency.Some? { FirstStep(rule, Metrics(hitRate.value, accessFrequency.value), ttl); }
  }

  lemma RoundWithin(lo: int, hi: int, x: real)
    ensures lo <= Round(RMax(lo as real, RMin(x, hi as real))) <= Max(lo, hi)
  {}

  /**
   * For every enabled rule, every constant pair of metrics and every starting lifetime: after one
   * recommendation per second of the allowed range (and one to get into it) there are no more.
   */
  lemma RecommendationsStop(rule: Rule, m: Metrics, ttl: real, n: nat)
    requires rule.enabled && n >= 1 + Hi(rule) - Lo(rule)
    ensures HandlePerformanceAnalysis(Some(rule), rule, Follow(rule, m, ttl, n), m) == None
    ensures Lo(rule) as real <= Follow(rule, m, ttl, n) <= Hi(rule) as real
  {
    FirstStep(rule, m, ttl);
    var x := Adjusted(rule, ttl, m).Floor;
    assert Follow(rule, m, ttl, n) == Follow(rule, m, x as real, n - 1);
    FollowIterates(rule, m, x, n - 1);
    Settles(rule, m, x, n - 1);
    StepRoundsAim(rule, m, Iterate(rule, m, x, n - 1));
  }

  // ---- Where it stops ----------------------------------------------------

  /** From everywhere inside the bounds, the lifetime ends at `target`. */
  ghost predicate Reaches(rule: Rule, m: Metrics, target: int) {
    forall x: int :: Within(rule, x) ==> Iterate(rule, m, x, Hi(rule) - Lo(rule)) == target
  }

  /** Rounding can swallow a step; it ends at `target` from everywhere exactly if nothing else is settled. */
  lemma ReachesExactly(rule: Rule, m: Metrics, target: int)
    requires Within(rule, target)
    ensures Reaches(rule, m, target) <==> forall x: int :: Within(rule, x) ==> (Settled(rule, m, x) <==> x == target)
  {
    if Reaches(rule, m, target) { OnlyTargetSettled(rule, m, target); }
    if forall x: int :: Within(rule, x) ==> (Settled(rule, m, x) <==> x == target) {
      forall x: int | Within(rule, x) ensures Iterate(rule, m, x, Hi(rule) - Lo(rule)) == target {
        Settles(rule, m, x, Hi(rule) - Lo(rule));
      }
    }
  }

  lemma OnlyTargetSettled(rule: Rule, m: Metrics, target: int)
    requires Within(rule, target) && Reaches(rule, m, target)
    ensures forall x: int :: Within(rule, x) ==> (Settled(rule, m, x) <==> x == target)
  {
    Settles(rule, m, target, Hi(rule) - Lo(rule));
    forall x: int | Within(rule, x) ensures Settled(rule, m, x) <==> x == target {
      if Settled(rule, m, x) { SettledStays(rule, m, x, Hi(rule) - Lo(rule)); }
    }
  }

  /** The lowest lifetime grows by at least half a second. */
  predicate CanClimb(rule: Rule) {
    Lo(rule) == Hi(rule) || Lo(rule) as real * rule.adjustmentFactor >= Lo(rule) as real + 0.5
  }

  /** The second lowest shrinks by more than half a second. */
  predicate CanSink(rule: Rule) {
    Lo(rule) == Hi(rule) || (Lo(rule) + 1) as real / rule.adjustmentFactor < Lo(rule) as real + 0.5
  }

  lemma ClimbsOn(lo: real, x: real, f: real)
    requires 0.0 <= lo <= x && lo * f >= lo + 0.5
    ensures x * f >= x + 0.5
  {
    assert f <= 1.0 ==> lo * (1.0 - f) >= 0.0;
    assert (x - lo) * (f - 1.0) >= 0.0;
    assert x * f - x - (lo * f - lo) == (x - lo) * (f - 1.0);
  }

  lemma ClimbSettles(rule: Rule, m: Metrics, x: int)
    requires Within(rule, x) && CanClimb(rule) && AdjustmentReason(m, rule) == HighTraffic
    ensures Settled(rule, m, x) <==> x == Hi(rule)
  {
    StepRoundsAim(rule, m, x);
    if Lo(rule) != Hi(rule) { ClimbsOn(Lo(rule) as real, x as real, rule.adjustmentFactor); }
  }

  /** Under high traffic every lifetime climbs to the maximum, exactly when the minimum itself can leave. */
  lemma HighTrafficReachesMaxExactly(rule: Rule, m: Metrics)
    requires AdjustmentReason(m, rule) == HighTraffic
    ensures Reaches(rule, m, Hi(rule)) <==> CanClimb(rule)
  {
    ReachesExactly(rule, m, Hi(rule));
    if CanClimb(rule) {
      forall x: int | Within(rule, x) ensures Settled(rule, m, x) <==> x == Hi(rule) { ClimbSettles(rule, m, x); }
    } else {
      StuckAtMin(rule, m);
    }
  }

  lemma StuckAtMin(rule: Rule, m: Metrics)
    requires AdjustmentReason(m, rule) == HighTraffic && !CanClimb(rule)
    ensures Settled(rule, m, Lo(rule)) && Within(rule, Lo(rule)) && Lo(rule) != Hi(rule)
  {
    StepRoundsAim(rule, m, Lo(rule));
  }

  lemma SinksOn(a: real, x: real, f: real)
    requires 0.0 < a <= x && f > 0.0 && a / f < a - 0.5
    ensures x / f < x - 0.5
  {
    var p, q := a / f, x / f;
    Quotient(a, f);
    Quotient(x, f);
    if f <= 1.0 { Product(p, 1.0 - f); }
    assert (q - p) * f == x - a;
    assert q - p > x - a ==> (q - p - (x - a)) * f > 0.0 && (x - a) * (f - 1.0) >= 0.0;
  }

  lemma SinkSettles(rule: Rule, m: Metrics, x: int)
    requires Within(rule, x) && CanSink(rule) && AdjustmentReason(m, rule) == LowHitRate
    ensures Settled(rule, m, x) <==> x == Lo(rule)
  {
    StepRoundsAim(rule, m, x);
    if Lo(rule) < x { SinksOn((Lo(rule) + 1) as real, x as real, rule.adjustmentFactor); }
    if Lo(rule) == x < Hi(rule) { SinkAtMin(rule, m); }
  }

  lemma SinkAtMin(rule: Rule, m: Metrics)
    requires Lo(rule) < Hi(rule) && CanSink(rule) && AdjustmentReason(m, rule) == LowHitRate
    ensures Settled(rule, m, Lo(rule))
  {
    StepRoundsAim(rule, m, Lo(rule));
    var f := rule.adjustmentFactor;
    TimesGrows((Lo(rule) + 1) as real, f);
    TimesGrows(Lo(rule) as real, f);
  }

  /** Under a low hit rate every lifetime sinks to the minimum, exactly when the one above it can. */
  lemma LowHitRateReachesMinExactly(rule: Rule, m: Metrics)
    requires AdjustmentReason(m, rule) == LowHitRate
    ensures Reaches(rule, m, Lo(rule)) <==> CanSink(rule)
  {
    ReachesExactly(rule, m, Lo(rule));
    if CanSink(rule) {
      forall x: int | Within(rule, x) ensures Settled(rule, m, x) <==> x == Lo(rule) { SinkSettles(rule, m, x); }
    } else {
      StuckAboveMin(rule, m);
    }
  }

  lemma StuckAboveMin(rule: Rule, m: Metrics)
    requires AdjustmentReason(m, rule) == LowHitRate && !CanSink(rule)
    ensures exists x: int :: Within(rule, x) && !(Settled(rule, m, x) <==> x == Lo(rule))
  {
    var x := Lo(rule) + 1;
    StepRoundsAim(rule, m, x);
    Direction(rule, m, x);
    if !Rising(rule, m) {
      assert Settled(rule, m, x);
    } else {
      StuckAtMax(rule, m);
    }
  }

  lemma StuckAtMax(rule: Rule, m: Metrics)
    requires Rising(rule, m) && Lo(rule) < Hi(rule)
    ensures Settled(rule, m, Hi(rule)) && Within(rule, Hi(rule))
  {
    DistanceShrinks(rule, m, Hi(rule));
  }

  /** Rare access takes a fifth off: it reaches the minimum from everywhere unless that is below two seconds. */
  lemma LowFrequencyReachesMinExactly(rule: Rule, m: Metrics)
    requires AdjustmentReason(m, rule) == LowFrequency
    ensures Reaches(rule, m, Lo(rule)) <==> (Lo(rule) == Hi(rule) || Lo(rule) >= 2)
  {
    ReachesExactly(rule, m, Lo(rule));
    if Lo(rule) == Hi(rule) || Lo(rule) >= 2 {
      forall x: int | Within(rule, x) ensures Settled(rule, m, x) <==> x == Lo(rule) { StepRoundsAim(rule, m, x); }
    } else {
      StepRoundsAim(rule, m, Lo(rule) + 1);
      assert Settled(rule, m, Lo(rule) + 1);
    }
  }

  // ---- The shipped rules -------------------------------------------------

  function DefaultRules(): seq<Rule> {
    [ Rule(300, 3600, 0.7, 2.0, 1.2, true),      // cache:user:profile:*
      Rule(180, 1800, 0.6, 5.0, 1.3, true),      // cache:course:*
      Rule(60, 600, 0.5, 10.0, 1.5, true),       // cache:search:*
      Rule(600, 7200, 0.8, 1.0, 1.1, true),      // cache:popular:*
      Rule(120, 900, 0.6, 3.0, 1.25, true) ]     // cache:enrollment:*
  }

  /** Every rule with a minimum of a minute and a factor of at least 1.1 reaches both of its bounds. */
  lemma UsualRulesReachBounds(rule: Rule, m: Metrics)
    requires 60 <= rule.minTtl <= rule.maxTtl && rule.adjustmentFactor >= 1.1
    ensures match AdjustmentReason(m, rule)
            case HighTraffic => Reaches(rule, m, rule.maxTtl)
            case LowHitRate => Reaches(rule, m, rule.minTtl)
            case LowFrequency => Reaches(rule, m, rule.minTtl)
            case Adaptive => forall x: int :: Within(rule, x) ==> Settled(rule, m, x)
  {
    UsualRulesMove(rule);
    match AdjustmentReason(m, rule)
    case HighTraffic => HighTrafficReachesMaxExactly(rule, m);
    case LowHitRate => LowHitRateReachesMinExactly(rule, m);
    case LowFrequency => LowFrequencyReachesMinExactly(rule, m);
    case Adaptive => forall x: int | Within(rule, x) ensures Settled(rule, m, x) { StepRoundsAim(rule, m, x); }
  }

  /** Both metrics at their thresholds or above. */
  predicate Busy(rule: Rule, m: Metrics) {
    rule.hitRateThreshold <= m.hitRate && rule.accessFrequencyThreshold <= m.accessFrequency
  }

  /** The hit rate under seven tenths of its threshold, or the accesses under half of theirs. */
  predicate Idle(rule: Rule, m: Metrics) {
    m.hitRate < rule.hitRateThreshold * 0.7 || m.accessFrequency < rule.accessFrequencyThreshold * 0.5
  }

  /**
   * Strictly between the bounds of a usual rule, a lifetime grows exactly for a busy key, by the factor, and
   * shrinks exactly for an idle one that is not busy: by the factor for its hit rate, else by a fifth.
   */
  lemma MovesExactly(rule: Rule, m: Metrics, x: int)
    requires 60 <= rule.minTtl < x < rule.maxTtl && rule.adjustmentFactor >= 1.1
    ensures Next(rule, m, x) > x <==> Busy(rule, m)
    ensures Next(rule, m, x) < x <==> Idle(rule, m) && !Busy(rule, m)
    ensures Busy(rule, m) ==> Next(rule, m, x) == Clamp(rule, Round(x as real * rule.adjustmentFactor))
    ensures Idle(rule, m) && !Busy(rule, m) ==>
              Next(rule, m, x) ==
              Clamp(rule, Round(if m.hitRate < rule.hitRateThreshold * 0.7 then x as real / rule.adjustmentFactor
                                else x as real * 0.8))
  {
    UsualRulesMove(rule);
    match AdjustmentReason(m, rule)
    case HighTraffic => MovesUp(rule, m, x);
    case LowHitRate => MovesDown(rule, m, x);
    case LowFrequency => StepRoundsAim(rule, m, x);
    case Adaptive => StepRoundsAim(rule, m, x);
  }

  lemma MovesUp(rule: Rule, m: Metrics, x: int)
    requires CanClimb(rule) && rule.adjustmentFactor >= 1.0 && Lo(rule) < x < Hi(rule)
    requires AdjustmentReason(m, rule) == HighTraffic
    ensures Next(rule, m, x) > x && Next(rule, m, x) == Clamp(rule, Round(x as real * rule.adjustmentFactor))
  {
    StepRoundsAim(rule, m, x);
    Direction(rule, m, x);
    ClimbSettles(rule, m, x);
  }

  lemma MovesDown(rule: Rule, m: Metrics, x: int)
    requires CanSink(rule) && rule.adjustmentFactor >= 1.0 && Lo(rule) < x < Hi(rule)
    requires AdjustmentReason(m, rule) == LowHitRate
    ensures Next(rule, m, x) < x && Next(rule, m, x) == Clamp(rule, Round(x as real / rule.adjustmentFactor))
  {
    StepRoundsAim(rule, m, x);
    Direction(rule, m, x);
    SinkSettles(rule, m, x);
  }

  lemma UsualRulesMove(rule: Rule)
    requires 60 <= rule.minTtl <= rule.maxTtl && rule.adjustmentFactor >= 1.1
    ensures CanClimb(rule) && CanSink(rule)
  {
    var lo, f := rule.minTtl as real, rule.adjustmentFactor;
    Product(lo, f - 1.1);
    var q := (lo + 1.0) / f;
    Quotient(lo + 1.0, f);
    Product(lo + 0.5, f - 1.1);
    if q >= lo + 0.5 { Product(q - (lo + 0.5), f); }
  }

  lemma DefaultRulesAreUsual(i: nat)
    requires i < |DefaultRules()|
    ensures var rule := DefaultRules()[i];
            60 <= rule.minTtl < rule.maxTtl && rule.adjustmentFactor >= 1.1 && rule.enabled
  {}
}
