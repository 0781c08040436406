/**
 The three average-latency rules, with their 64-bit arithmetic. The kernel
 halves from 0, the Linux simulation halves from the first sample, and the
 Windows simulation keeps an integer running mean.
 */
module Averages {
  import opened Arithmetic

  const HALF_RANGE: nat := 0x8000_0000_0000_0000

  /** What was measured since the last reset, latest last. */
  datatype Log<T> = Empty | Snoc(earlier: Log<T>, latest: T)

  type Samples = Log<nat>

  function Length<T>(h: Log<T>): nat {
    if h.Empty? then 0 else Length(h.earlier) + 1
  }

  function Bag<T>(h: Log<T>): multiset<T> {
    if h.Empty? then multiset{} else Bag(h.earlier) + multiset{h.latest}
  }

  /** Every sample lies in lo..hi. */
  predicate Within(h: Samples, lo: nat, hi: nat) {
    h.Snoc? ==> lo <= h.latest <= hi && Within(h.earlier, lo, hi)
  }

  predicate Below(h: Samples, bound: nat) {
    h.Snoc? ==> h.latest < bound && Below(h.earlier, bound)
  }

  function First(h: Samples): nat
    requires h.Snoc?
  {
    if h.earlier.Empty? then h.latest else First(h.earlier)
  }

  // ------------------------------------------------------------------
  // The rules as the backends compute them

  /** `(avg + latency) / 2` in 64-bit words. */
  function Halve(avg: nat, latency: nat): nat {
    ((avg + latency) % U64) / 2
  }

  function KernelAvg(h: Samples): nat {
    if h.Empty? then 0 else Halve(KernelAvg(h.earlier), h.latest)
  }

  function LinuxAvg(h: Samples): nat {
    if h.Empty? then 0
    else if h.earlier.Empty? then h.latest
    else Halve(LinuxAvg(h.earlier), h.latest)
  }

  /** `(avg * n + latency) / (n + 1)` in 64-bit words. */
  function MeanWith(avg: nat, n: nat, latency: nat): nat {
    Floor((avg * n + latency) % U64, n + 1)
  }

  function WindowsAvg(h: Samples): nat {
    if h.Empty? then 0
    else if h.earlier.Empty? then h.latest
    else MeanWith(WindowsAvg(h.earlier), Length(h.earlier), h.latest)
  }

  // ------------------------------------------------------------------
  // Closed forms: one division at the end instead of one per sample

  function Pow2(n: nat): (p: nat)
    ensures p >= 1
  {
    if n == 0 then 1 else 2 * Pow2(n - 1)
  }

  /** The sum of 2^(i-1) x_i over the samples x_1, ..., x_n. */
  function KernelWeighted(h: Samples): nat {
    if h.Empty? then 0 else KernelWeighted(h.earlier) + Pow2(Length(h.earlier)) * h.latest
  }

  /** x_1 plus the sum of 2^(i-2) x_i for i >= 2. */
  function LinuxWeighted(h: Samples): nat
    requires h.Snoc?
  {
    if h.earlier.Empty? then h.latest
    else LinuxWeighted(h.earlier) + Pow2(Length(h.earlier) - 1) * h.latest
  }

  function KernelClosed(h: Samples): nat {
    Floor(KernelWeighted(h), Pow2(Length(h)))
  }

  function LinuxClosed(h: Samples): nat {
    if h.Empty? then 0 else Floor(LinuxWeighted(h), Pow2(Length(h) - 1))
  }

  lemma KernelClosedStep(h: Samples)
    requires h.Snoc?
    ensures KernelClosed(h) == (KernelClosed(h.earlier) + h.latest) / 2
  {
    NestedFloor(KernelWeighted(h.earlier), Pow2(Length(h.earlier)), h.latest);
  }

  lemma LinuxClosedStep(h: Samples)
    requires h.Snoc?
    ensures LinuxClosed(h) ==
            if h.earlier.Empty? then h.latest else (LinuxClosed(h.earlier) + h.latest) / 2
  {
    if h.earlier.Empty? {
      FloorUnique(h.latest, h.latest, 1);
    } else {
      NestedFloor(LinuxWeighted(h.earlier), Pow2(Length(h.earlier) - 1), h.latest);
    }
  }

  /** Halving is exact on a pair of 64-bit words precisely when their sum fits in one. */
  lemma HalveIsExactIff(a: nat, x: nat)
    requires a < U64 && x < U64
    ensures Halve(a, x) == (a + x) / 2 <==> a + x < U64
  {
  }

  predicate KernelNeverWraps(h: Samples) {
    h.Snoc? ==> KernelNeverWraps(h.earlier) && KernelClosed(h.earlier) + h.latest < U64
  }

  predicate KernelAlwaysExact(h: Samples) {
    KernelAvg(h) == KernelClosed(h) && (h.Snoc? ==> KernelAlwaysExact(h.earlier))
  }

  /** The kernel's nested floors collapse to one at every report exactly when no addition wraps. */
  lemma {:induction false} KernelExactIff(h: Samples)
    requires Below(h, U64)
    ensures KernelAlwaysExact(h) <==> KernelNeverWraps(h)
    ensures KernelAvg(h) < U64
  {
    if h.Snoc? {
      KernelExactIff(h.earlier);
      KernelClosedStep(h);
      HalveIsExactIff(KernelAvg(h.earlier), h.latest);
    } else {
      FloorUnique(0, 0, 1);
    }
  }

  predicate LinuxNeverWraps(h: Samples) {
    h.Snoc? && h.earlier.Snoc? ==> LinuxNeverWraps(h.earlier) && LinuxClosed(h.earlier) + h.latest < U64
  }

  predicate LinuxAlwaysExact(h: Samples) {
    LinuxAvg(h) == LinuxClosed(h) && (h.Snoc? ==> LinuxAlwaysExact(h.earlier))
  }

  /** The same for the Linux simulation, whose first sample is the seed. */
  lemma {:induction false} LinuxExactIff(h: Samples)
    requires Below(h, U64)
    ensures LinuxAlwaysExact(h) <==> LinuxNeverWraps(h)
    ensures LinuxAvg(h) < U64
  {
    if h.Snoc? {
      LinuxExactIff(h.earlier);
      LinuxClosedStep(h);
      if h.earlier.Snoc? {
        HalveIsExactIff(LinuxAvg(h.earlier), h.latest);
      }
    }
  }

  // ------------------------------------------------------------------
  // Latencies below 2^63 ns never wrap a halving average

  lemma {:induction false} KernelClosedWithin(h: Samples, hi: nat)
    requires Within(h, 0, hi)
    ensures KernelClosed(h) <= hi
  {
    if h.Snoc? {
      KernelClosedWithin(h.earlier, hi);
      KernelClosedStep(h);
    } else {
      FloorUnique(0, 0, 1);
    }
  }

  lemma {:induction false} LinuxClosedWithin(h: Samples, lo: nat, hi: nat)
    requires h.Snoc? && Within(h, lo, hi)
    ensures lo <= LinuxClosed(h) <= hi
  {
    LinuxClosedStep(h);
    if h.earlier.Snoc? {
      LinuxClosedWithin(h.earlier, lo, hi);
    }
  }

  lemma {:induction false} BelowIsWithin(h: Samples, bound: nat)
    requires Below(h, bound) && 0 < bound
    ensures Within(h, 0, bound - 1)
  {
    if h.Snoc? {
      BelowIsWithin(h.earlier, bound);
    }
  }

  lemma {:induction false} BelowIsMonotone(h: Samples, lo: nat, hi: nat)
    requires Below(h, lo) && lo <= hi
    ensures Below(h, hi)
  {
    if h.Snoc? {
      BelowIsMonotone(h.earlier, lo, hi);
    }
  }

  lemma {:induction false} SmallNeverWraps(h: Samples)
    requires Below(h, HALF_RANGE)
    ensures KernelNeverWraps(h) && LinuxNeverWraps(h)
  {
    if h.Snoc? {
      SmallNeverWraps(h.earlier);
      BelowIsWithin(h.earlier, HALF_RANGE);
      KernelClosedWithin(h.earlier, HALF_RANGE - 1);
      if h.earlier.Snoc? {
        LinuxClosedWithin(h.earlier, 0, HALF_RANGE - 1);
      }
    }
  }

  /** Below 2^63 ns, both halving averages are the floor of one fraction. */
  lemma ClosedForms(h: Samples)
    requires Below(h, HALF_RANGE)
    ensures KernelAvg(h) == KernelClosed(h)
    ensures LinuxAvg(h) == LinuxClosed(h)
  {
    SmallNeverWraps(h);
    BelowIsMonotone(h, HALF_RANGE, U64);
    UnwrappedIsClosed(h);
  }

  // ------------------------------------------------------------------
  // Kernel against Linux

  lemma {:induction false} SeedWeighsDouble(h: Samples)
    requires h.Snoc?
    ensures 2 * LinuxWeighted(h) == KernelWeighted(h) + First(h)
  {
    if h.earlier.Snoc? {
      SeedWeighsDouble(h.earlier);
      var p, x := Pow2(Length(h.earlier) - 1), h.latest;
      assert (2 * p) * x == 2 * (p * x);
    } else {
      assert Pow2(0) * h.latest == h.latest;
    }
  }

  lemma UnwrappedIsClosed(h: Samples)
    requires Below(h, U64) && KernelNeverWraps(h) && LinuxNeverWraps(h)
    ensures KernelAvg(h) == KernelClosed(h) && LinuxAvg(h) == LinuxClosed(h)
  {
    KernelExactIff(h);
    LinuxExactIff(h);
  }

  /** The Linux average leads the kernel's by the first latency over 2^n, give or take 1 ns. */
  lemma LinuxLeadsKernel(h: Samples)
    requires h.Snoc? && Below(h, U64) && KernelNeverWraps(h) && LinuxNeverWraps(h)
    ensures var seed := Floor(First(h), Pow2(Length(h)));
            KernelAvg(h) + seed <= LinuxAvg(h) <= KernelAvg(h) + seed + 1
  {
    UnwrappedIsClosed(h);
    SeedWeighsDouble(h);
    FloorOfDoubled(LinuxWeighted(h), Pow2(Length(h) - 1));
    FloorOfSum(KernelWeighted(h), First(h), Pow2(Length(h)));
  }

  /** Once 2^n exceeds the first latency the two agree to within 1 ns, and 2^n then always does. */
  lemma KernelAndLinuxConverge(h: Samples)
    requires h.Snoc? && Below(h, U64) && KernelNeverWraps(h) && LinuxNeverWraps(h)
    requires First(h) < Pow2(Length(h))
    ensures KernelAvg(h) <= LinuxAvg(h) <= KernelAvg(h) + 1
    ensures forall x: nat :: First(Snoc(h, x)) < Pow2(Length(Snoc(h, x)))
  {
    LinuxLeadsKernel(h);
    FloorUnique(First(h), 0, Pow2(Length(h)));
  }

  // ------------------------------------------------------------------
  // The Windows running mean

  function Sum(h: Samples): nat {
    if h.Empty? then 0 else Sum(h.earlier) + h.latest
  }

  /** 0 + 1 + ... + (n - 1). */
  function Triangle(n: nat): nat {
    if n == 0 then 0 else Triangle(n - 1) + n - 1
  }

  lemma {:induction false} TriangleClosed(n: nat)
    ensures 2 * Triangle(n) == n * (n - 1)
  {
    if n != 0 {
      TriangleClosed(n - 1);
      assert n * (n - 1) == (n - 1) * (n - 2) + 2 * (n - 1);
    }
  }

  /** The running mean without 64-bit limits. */
  function IdealMean(h: Samples): nat {
    if h.Empty? then 0
    else if h.earlier.Empty? then h.latest
    else Floor(IdealMean(h.earlier) * Length(h.earlier) + h.latest, Length(h.earlier) + 1)
  }

  predicate WindowsNeverWraps(h: Samples) {
    h.Snoc? && h.earlier.Snoc? ==>
      WindowsNeverWraps(h.earlier) && IdealMean(h.earlier) * Length(h.earlier) + h.latest < U64
  }

  predicate WindowsAlwaysExact(h: Samples) {
    WindowsAvg(h) == IdealMean(h) && (h.Snoc? ==> WindowsAlwaysExact(h.earlier))
  }

  /** A wrapped numerator always shows in the quotient, because no divisor exceeds 2^64. */
  lemma MeanIsExactIff(a: nat, n: nat, x: nat)
    requires n + 1 <= U64
    ensures MeanWith(a, n, x) == Floor(a * n + x, n + 1) <==> a * n + x < U64
  {
    var w, d := a * n + x, n + 1;
    if U64 <= w {
      FloorGrows(w % U64, w, d);
    }
  }

  /** Every reported mean is that of unlimited integers exactly when no numerator reaches 2^64. */
  lemma {:induction false} WindowsExactIff(h: Samples)
    requires Length(h) <= U64
    ensures WindowsAlwaysExact(h) <==> WindowsNeverWraps(h)
  {
    if h.Snoc? {
      WindowsExactIff(h.earlier);
      if h.earlier.Snoc? && WindowsAlwaysExact(h.earlier) {
        MeanIsExactIff(WindowsAvg(h.earlier), Length(h.earlier), h.latest);
      }
    }
  }

  lemma MeanStep(n: nat, n': nat, a: nat, a': nat, x: nat, sum: nat, slack: nat)
    requires n >= 1 && n' == n + 1 && 0 <= sum - a * n <= slack
    requires a' == Floor(a * n + x, n')
    ensures 0 <= sum + x - a' * n' <= slack + n
  {
    FloorBounds(a * n + x, n');
  }

  lemma {:induction false} IdealShortfall(h: Samples)
    ensures 0 <= Sum(h) - IdealMean(h) * Length(h) <= Triangle(Length(h))
  {
    if h.Snoc? {
      IdealShortfall(h.earlier);
      if h.earlier.Snoc? {
        var n := Length(h.earlier);
        MeanStep(n, Length(h), IdealMean(h.earlier), IdealMean(h), h.latest, Sum(h.earlier), Triangle(n));
      }
    }
  }

  /** No numerator exceeds the latency total, so none wraps while that fits in 64 bits. */
  lemma {:induction false} SmallTotalNeverWraps(h: Samples)
    requires Sum(h) < U64
    ensures WindowsNeverWraps(h)
    ensures h.Snoc? ==> IdealMean(h.earlier) * Length(h.earlier) + h.latest <= Sum(h)
  {
    if h.Snoc? {
      SmallTotalNeverWraps(h.earlier);
      IdealShortfall(h.earlier);
    }
  }

  lemma {:induction false} NeverWrapsIsExact(h: Samples)
    requires WindowsNeverWraps(h)
    ensures WindowsAvg(h) == IdealMean(h)
  {
    if h.Snoc? && h.earlier.Snoc? {
      NeverWrapsIsExact(h.earlier);
      assert (IdealMean(h.earlier) * Length(h.earlier) + h.latest) % U64
             == IdealMean(h.earlier) * Length(h.earlier) + h.latest;
    }
  }

  /** The mean is never overstated, and over n samples its shortfall totals at most n(n-1)/2. */
  lemma WindowsAverage(h: Samples)
    requires WindowsNeverWraps(h)
    ensures WindowsAvg(h) * Length(h) <= Sum(h)
    ensures 2 * (Sum(h) - WindowsAvg(h) * Length(h)) <= Length(h) * (Length(h) - 1)
  {
    NeverWrapsIsExact(h);
    IdealShortfall(h);
    TriangleClosed(Length(h));
  }

  /** The samples 0, 1, ..., n - 1. */
  function Ramp(n: nat): Samples {
    if n == 0 then Empty else Snoc(Ramp(n - 1), n - 1)
  }

  /** The bound is attained: on a ramp the reported mean stays 0 for ever. */
  lemma {:induction false} ShortfallIsAttained(n: nat)
    requires n < U64
    ensures WindowsAvg(Ramp(n)) == 0
    ensures Length(Ramp(n)) == n && Sum(Ramp(n)) == Triangle(n)
  {
    if n != 0 {
      ShortfallIsAttained(n - 1);
      FloorUnique(n - 1, 0, n);
    }
  }

  lemma BetweenStep(n: nat, a: nat, a': nat, x: nat, lo: nat, hi: nat)
    requires n >= 1 && lo <= a <= hi && lo <= x <= hi
    requires a' == Floor(a * n + x, n + 1)
    ensures lo <= a' <= hi
  {
    TimesIsMonotone(lo, a, n);
    TimesIsMonotone(a, hi, n);
    assert lo * (n + 1) == lo * n + lo && hi * (n + 1) == hi * n + hi;
    FloorWithin(a * n + x, n + 1, lo, hi);
  }

  lemma {:induction false} IdealWithin(h: Samples, lo: nat, hi: nat)
    requires h.Snoc? && Within(h, lo, hi)
    ensures lo <= IdealMean(h) <= hi
  {
    if h.earlier.Snoc? {
      IdealWithin(h.earlier, lo, hi);
      BetweenStep(Length(h.earlier), IdealMean(h.earlier), IdealMean(h), h.latest, lo, hi);
    }
  }

  // ------------------------------------------------------------------
  // Extremes

  function Greatest(h: Samples): nat {
    if h.Empty? then 0
    else if h.latest > Greatest(h.earlier) then h.latest
    else Greatest(h.earlier)
  }

  function Least(h: Samples): nat
    requires h.Snoc?
  {
    if h.earlier.Empty? || h.latest < Least(h.earlier) then h.latest else Least(h.earlier)
  }

  lemma {:induction false} WithinWidens(h: Samples, lo: nat, hi: nat, lo': nat, hi': nat)
    requires Within(h, lo, hi) && lo' <= lo && hi <= hi'
    ensures Within(h, lo', hi')
  {
    if h.Snoc? {
      WithinWidens(h.earlier, lo, hi, lo', hi');
    }
  }

  lemma {:induction false} ExtremesAreTight(h: Samples)
    requires h.Snoc?
    ensures Within(h, Least(h), Greatest(h))
    ensures Least(h) in Bag(h) && Greatest(h) in Bag(h)
  {
    if h.earlier.Snoc? {
      ExtremesAreTight(h.earlier);
      WithinWidens(h.earlier, Least(h.earlier), Greatest(h.earlier), Least(h), Greatest(h));
    }
  }

  /** Minimum, average and maximum stay in order for Linux and Windows while nothing wraps. */
  lemma AveragesBetweenExtremes(h: Samples)
    requires h.Snoc? && Below(h, U64)
    ensures LinuxNeverWraps(h) ==> Least(h) <= LinuxAvg(h) <= Greatest(h)
    ensures WindowsNeverWraps(h) ==> Least(h) <= WindowsAvg(h) <= Greatest(h)
  {
    ExtremesAreTight(h);
    if LinuxNeverWraps(h) {
      LinuxExactIff(h);
      LinuxClosedWithin(h, Least(h), Greatest(h));
    }
    if WindowsNeverWraps(h) {
      NeverWrapsIsExact(h);
      IdealWithin(h, Least(h), Greatest(h));
    }
  }

  lemma MeanBelow(n: nat, a: nat, x: nat, hi: nat)
    requires n >= 1 && a <= hi && x <= hi
    ensures MeanWith(a, n, x) <= hi
  {
    var w := a * n + x;
    TimesIsMonotone(a, hi, n);
    assert hi * (n + 1) == hi * n + hi;
    FloorWithin(w % U64, n + 1, 0, hi);
  }

  lemma HalveBelow(a: nat, x: nat, hi: nat)
    requires a <= hi && x <= hi
    ensures Halve(a, x) <= hi
  {
  }

  lemma {:induction false} HalvingBelowMaximum(h: Samples)
    ensures KernelAvg(h) <= Greatest(h) && LinuxAvg(h) <= Greatest(h)
  {
    if h.Snoc? {
      HalvingBelowMaximum(h.earlier);
      HalveBelow(KernelAvg(h.earlier), h.latest, Greatest(h));
      HalveBelow(LinuxAvg(h.earlier), h.latest, Greatest(h));
    }
  }

  lemma {:induction false} MeanBelowMaximum(h: Samples)
    ensures WindowsAvg(h) <= Greatest(h)
  {
    if h.Snoc? && h.earlier.Snoc? {
      MeanBelowMaximum(h.earlier);
      MeanBelow(Length(h.earlier), WindowsAvg(h.earlier), h.latest, Greatest(h));
    }
  }

  /** Whatever the latencies, wrapped or not, no backend reports an average above the maximum. */
  lemma {:induction false} AveragesBelowMaximum(h: Samples)
    ensures KernelAvg(h) <= Greatest(h) && LinuxAvg(h) <= Greatest(h) && WindowsAvg(h) <= Greatest(h)
  {
    HalvingBelowMaximum(h);
    MeanBelowMaximum(h);
  }

  // ------------------------------------------------------------------
  // When an average reaches the minimum

  /** Half of a 64-bit sum is at least `m`, the sum taken without its wrap-around. */
  predicate HalfReaches(sum: nat, m: nat) {
    if sum < U64 then sum >= 2 * m else sum >= U64 + 2 * m
  }

  lemma HalveReachesIff(a: nat, x: nat, m: nat)
    requires a < U64 && x < U64
    ensures Halve(a, x) >= m <==> HalfReaches(a + x, m)
  {
  }

  /** After any one positive latency the kernel's average undercuts the minimum. */
  lemma KernelCanUndercutMinimum(x: nat)
    requires 0 < x
    ensures var h := Snoc(Empty, x); KernelAvg(h) < Least(h)
  {
  }

  lemma KernelFits(h: Samples)
    ensures KernelAvg(h) < U64
  {
  }

  /** A kernel report reaches the minimum exactly when its sum does, wrapped or not. */
  lemma KernelReportReachesMinimumIff(h: Samples)
    requires h.Snoc? && h.latest < U64
    ensures KernelAvg(h) >= Least(h) <==> HalfReaches(KernelAvg(h.earlier) + h.latest, Least(h))
  {
    KernelFits(h.earlier);
    HalveReachesIff(KernelAvg(h.earlier), h.latest, Least(h));
  }

  /** Without wrap-around that is exactly when the weighted latencies carry 2^n times the minimum. */
  lemma KernelReachesMinimumIff(h: Samples)
    requires h.Snoc? && Below(h, U64) && KernelNeverWraps(h)
    ensures KernelAvg(h) >= Least(h) <==> KernelWeighted(h) >= Least(h) * Pow2(Length(h))
  {
    KernelExactIff(h);
    FloorAtLeast(KernelWeighted(h), Pow2(Length(h)), Least(h));
  }

  /** Once the kernel's average has reached the minimum it stays there as long as no sum wraps. */
  lemma KernelStaysAboveMinimum(h: Samples, x: nat)
    requires h.Snoc? && KernelAvg(h) >= Least(h) && KernelAvg(h) + x < U64
    ensures KernelAvg(Snoc(h, x)) >= Least(Snoc(h, x))
  {
    HalveReachesIff(KernelAvg(h), x, Least(Snoc(h, x)));
  }

  /** Once 2^n exceeds the first latency the kernel is at most 1 ns below the minimum. */
  lemma KernelNearsMinimum(h: Samples)
    requires h.Snoc? && Below(h, U64) && KernelNeverWraps(h) && LinuxNeverWraps(h)
    requires First(h) < Pow2(Length(h))
    ensures KernelAvg(h) + 1 >= Least(h)
  {
    KernelAndLinuxConverge(h);
    AveragesBetweenExtremes(h);
  }

  /** Every Linux report so far was at least the minimum so far. */
  predicate LinuxAlwaysOrdered(h: Samples) {
    h.Snoc? ==> Least(h) <= LinuxAvg(h) && LinuxAlwaysOrdered(h.earlier)
  }

  /** Each sum fitted in 64 bits, or wrapped so far that its half was at least the minimum again. */
  predicate LinuxSumsReach(h: Samples) {
    h.Snoc? && h.earlier.Snoc? ==>
      && LinuxSumsReach(h.earlier)
      && var sum := LinuxAvg(h.earlier) + h.latest; sum < U64 || sum >= U64 + 2 * Least(h)
  }

  /** Linux reports minimum and average in order throughout exactly when every wrapped sum wraps far enough. */
  lemma {:induction false} LinuxOrderedIff(h: Samples)
    requires Below(h, U64)
    ensures LinuxAlwaysOrdered(h) <==> LinuxSumsReach(h)
  {
    if h.Snoc? && h.earlier.Snoc? {
      LinuxOrderedIff(h.earlier);
      LinuxExactIff(h.earlier);
      HalveReachesIff(LinuxAvg(h.earlier), h.latest, Least(h));
    }
  }

  predicate WindowsAlwaysOrdered(h: Samples) {
    h.Snoc? ==> Least(h) <= WindowsAvg(h) && WindowsAlwaysOrdered(h.earlier)
  }

  /** Each 64-bit numerator, wrapped or not, carried the minimum once per sample. */
  predicate WindowsSumsReach(h: Samples) {
    h.Snoc? && h.earlier.Snoc? ==>
      && WindowsSumsReach(h.earlier)
      && (WindowsAvg(h.earlier) * Length(h.earlier) + h.latest) % U64 >= Least(h) * Length(h)
  }

  lemma {:induction false} WindowsOrderedIff(h: Samples)
    ensures WindowsAlwaysOrdered(h) <==> WindowsSumsReach(h)
  {
    if h.Snoc? && h.earlier.Snoc? {
      WindowsOrderedIff(h.earlier);
      var w := WindowsAvg(h.earlier) * Length(h.earlier) + h.latest;
      FloorAtLeast(w % U64, Length(h), Least(h));
    }
  }

  // ------------------------------------------------------------------
  // Order of arrival

  function Map<T, U>(f: T -> U, h: Log<T>): Log<U> {
    if h.Empty? then Empty else Snoc(Map(f, h.earlier), f(h.latest))
  }

  function Remove<T(==)>(h: Log<T>, x: T): Log<T>
    requires x in Bag(h)
  {
    if h.latest == x then h.earlier else Snoc(Remove(h.earlier, x), h.latest)
  }

  lemma {:induction false} RemoveOne<T>(h: Log<T>, x: T)
    requires x in Bag(h)
    ensures Bag(h) == Bag(Remove(h, x)) + multiset{x}
    ensures Length(h) == Length(Remove(h, x)) + 1
  {
    if h.latest != x {
      RemoveOne(h.earlier, x);
    }
  }

  lemma {:induction false} RemoveFromSum(h: Samples, x: nat)
    requires x in Bag(h)
    ensures Sum(h) == Sum(Remove(h, x)) + x
  {
    if h.latest != x {
      RemoveFromSum(h.earlier, x);
    }
  }

  lemma {:induction false} RemoveFromMap<T, U>(f: T -> U, h: Log<T>, x: T)
    requires x in Bag(h)
    ensures Bag(Map(f, h)) == Bag(Map(f, Remove(h, x))) + multiset{f(x)}
  {
    if h.latest != x {
      RemoveFromMap(f, h.earlier, x);
    }
  }

  lemma CancelOne<T>(a: multiset<T>, b: multiset<T>, x: T)
    requires a + multiset{x} == b + multiset{x}
    ensures a == b
  {
    assert a == (a + multiset{x}) - multiset{x};
    assert b == (b + multiset{x}) - multiset{x};
  }

  lemma LatestIsInBag<T>(h: Log<T>)
    requires h.Snoc?
    ensures h.latest in Bag(h)
  {
  }

  lemma {:induction false} BagFixesSum(g: Samples, h: Samples)
    requires Bag(g) == Bag(h)
    ensures Sum(g) == Sum(h) && Length(g) == Length(h)
  {
    if g.Snoc? {
      var x := g.latest;
      RemoveOne(h, x);
      RemoveFromSum(h, x);
      CancelOne(Bag(g.earlier), Bag(Remove(h, x)), x);
      BagFixesSum(g.earlier, Remove(h, x));
    } else if h.Snoc? {
      LatestIsInBag(h);
    }
  }

  lemma {:induction false} BagFixesMap<T, U>(f: T -> U, g: Log<T>, h: Log<T>)
    requires Bag(g) == Bag(h)
    ensures Bag(Map(f, g)) == Bag(Map(f, h))
  {
    if g.Snoc? {
      var x := g.latest;
      RemoveOne(h, x);
      RemoveFromMap(f, h, x);
      CancelOne(Bag(g.earlier), Bag(Remove(h, x)), x);
      BagFixesMap(f, g.earlier, Remove(h, x));
    } else if h.Snoc? {
      LatestIsInBag(h);
    }
  }

  lemma {:induction false} WithinMeansMembers(h: Samples, lo: nat, hi: nat, x: nat)
    requires Within(h, lo, hi) && x in Bag(h)
    ensures lo <= x <= hi
  {
    if h.latest != x {
      WithinMeansMembers(h.earlier, lo, hi, x);
    }
  }

  /** The extremes and the total depend only on which latencies arrived, not on their order. */
  lemma OrderKeepsExtremes(g: Samples, h: Samples)
    requires Bag(g) == Bag(h)
    ensures Length(g) == Length(h) && Sum(g) == Sum(h) && Greatest(g) == Greatest(h)
    ensures g.Snoc? && h.Snoc? ==> Least(g) == Least(h)
  {
    BagFixesSum(g, h);
    if g.Snoc? {
      ExtremesAreTight(g);
      ExtremesAreTight(h);
      WithinMeansMembers(h, Least(h), Greatest(h), Least(g));
      WithinMeansMembers(h, Least(h), Greatest(h), Greatest(g));
      WithinMeansMembers(g, Least(g), Greatest(g), Least(h));
      WithinMeansMembers(g, Least(g), Greatest(g), Greatest(h));
    }
  }

  /** Two arrival orders of the same latencies give Windows means at most (n-1)/2 apart. */
  lemma OrderMovesMean(g: Samples, h: Samples)
    requires Bag(g) == Bag(h) && WindowsNeverWraps(g) && WindowsNeverWraps(h)
    ensures Length(g) == Length(h)
    ensures 2 * (WindowsAvg(g) * Length(g) - WindowsAvg(h) * Length(h)) <= Length(h) * (Length(h) - 1)
  {
    BagFixesSum(g, h);
    WindowsAverage(g);
    WindowsAverage(h);
  }

  // ------------------------------------------------------------------
  // The kernel's minimum, with 0 for "not measured"

  function SentinelMin(h: Samples): nat {
    if h.Empty? then 0
    else if SentinelMin(h.earlier) == 0 || h.latest < SentinelMin(h.earlier) then h.latest
    else SentinelMin(h.earlier)
  }

  /** The samples measured after the last zero latency. */
  function SinceZero(h: Samples): Samples {
    if h.Empty? || h.latest == 0 then Empty else Snoc(SinceZero(h.earlier), h.latest)
  }

  /** The kernel forgets everything up to the last zero latency. */
  lemma {:induction false} SentinelMinForgets(h: Samples)
    ensures SentinelMin(h) == if SinceZero(h).Empty? then 0 else Least(SinceZero(h))
    ensures SentinelMin(h) == 0 <==> SinceZero(h).Empty?
    ensures SentinelMin(h) <= Greatest(h)
  {
    if h.Snoc? {
      SentinelMinForgets(h.earlier);
    }
  }

  lemma {:induction false} NoZeroNoForgetting(h: Samples)
    requires 0 !in Bag(h)
    ensures SinceZero(h) == h
  {
    if h.Snoc? {
      assert h.latest in Bag(h);
      NoZeroNoForgetting(h.earlier);
    }
  }

  lemma {:induction false} LeastOfZero(h: Samples)
    requires h.Snoc?
    ensures Least(h) == 0 <==> 0 in Bag(h)
  {
    if h.earlier.Snoc? {
      LeastOfZero(h.earlier);
    }
  }

  /** It reports the true minimum exactly when no latency was zero or the last one was. */
  lemma SentinelMinIsExactIff(h: Samples)
    requires h.Snoc?
    ensures SentinelMin(h) == Least(h) <==> (0 !in Bag(h) || h.latest == 0)
  {
    SentinelMinForgets(h);
    LeastOfZero(h);
    if 0 !in Bag(h) {
      NoZeroNoForgetting(h);
    }
  }

  // ------------------------------------------------------------------
  // What the averages do not promise

  /** All three averages depend on the order of arrival. */
  lemma AveragesDependOnOrder()
    ensures KernelAvg(Snoc(Snoc(Empty, 0), 2)) != KernelAvg(Snoc(Snoc(Empty, 2), 0))
    ensures LinuxAvg(Snoc(Snoc(Snoc(Empty, 0), 0), 2)) != LinuxAvg(Snoc(Snoc(Snoc(Empty, 2), 0), 0))
    ensures WindowsAvg(Snoc(Snoc(Snoc(Empty, 1), 0), 2)) != WindowsAvg(Snoc(Snoc(Snoc(Empty, 2), 0), 1))
  {
    assert WindowsAvg(Snoc(Snoc(Empty, 1), 0)) == 0;
    assert WindowsAvg(Snoc(Snoc(Empty, 2), 0)) == 1;
  }

  lemma HalvingTwice(a: nat, x: nat, y: nat)
    requires a + x < U64 && (a + x) / 2 + y < U64
    ensures Halve(Halve(a, x), y) == (a + x + 2 * y) / 4
  {
  }

  /** Whichever of two latencies comes later weighs a quarter of their difference more. */
  lemma LaterWeighsMore(a: nat, x: nat, y: nat)
    requires x <= y && a + y < U64 && (a + x) / 2 + y < U64
    ensures var late, early := Halve(Halve(a, x), y), Halve(Halve(a, y), x);
            early + (y - x) / 4 <= late <= early + (y - x) / 4 + 1
  {
    HalvingTwice(a, x, y);
    HalvingTwice(a, y, x);
  }

  /** Swapping the last two latencies moves both halving averages by a quarter of their difference. */
  lemma SwapMovesHalving(h: Samples, x: nat, y: nat)
    requires x <= y
    ensures KernelAvg(h) + y < U64 && (KernelAvg(h) + x) / 2 + y < U64 ==>
              var late, early := KernelAvg(Snoc(Snoc(h, x), y)), KernelAvg(Snoc(Snoc(h, y), x));
              early + (y - x) / 4 <= late <= early + (y - x) / 4 + 1
    ensures h.Snoc? && LinuxAvg(h) + y < U64 && (LinuxAvg(h) + x) / 2 + y < U64 ==>
              var late, early := LinuxAvg(Snoc(Snoc(h, x), y)), LinuxAvg(Snoc(Snoc(h, y), x));
              early + (y - x) / 4 <= late <= early + (y - x) / 4 + 1
  {
    if KernelAvg(h) + y < U64 && (KernelAvg(h) + x) / 2 + y < U64 {
      LaterWeighsMore(KernelAvg(h), x, y);
    }
    if h.Snoc? && LinuxAvg(h) + y < U64 && (LinuxAvg(h) + x) / 2 + y < U64 {
      LaterWeighsMore(LinuxAvg(h), x, y);
    }
  }

  /** Two latencies of 2^63 ns wrap, and the reported average falls below the minimum. */
  lemma LargeLatenciesWrap()
    ensures var h := Snoc(Snoc(Empty, HALF_RANGE), HALF_RANGE);
            LinuxAvg(h) == 0 && WindowsAvg(h) == 0 && Least(h) == HALF_RANGE
  {
  }
}
