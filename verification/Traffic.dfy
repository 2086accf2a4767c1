/** The interface spike detector of internal/tui/traffic/manager.go: a capped moving average
    of peak throughput, and a display level that follows raw levels with hysteresis.
    `float64` is modelled as `real`. */
module Traffic {

  datatype HealthLevel = HealthUnknown | HealthOK | HealthWarn | HealthCrit

  datatype ThresholdBand = ThresholdBand(warn: real, crit: real)

  datatype InterfaceRates = InterfaceRates(rxBytesPerSec: real, txBytesPerSec: real, firstReading: bool)

  datatype Assessment = Assessment(
    level: HealthLevel,
    displayLevel: HealthLevel,
    peakBytesPerSec: real,
    baselineBytesPerSec: real,
    ratio: real,
    ready: bool,
    linkSpeedBps: real,
    linkSpeedKnown: bool,
    linkUtilPercent: real)

  const WARMUP_SAMPLES := 3
  const EMA_ALPHA := 0.2
  const WARN_SAMPLES := 2
  const CLEAR_SAMPLES := 3
  const CRIT_DOWNSAMPLE := 2
  const UTIL_BAND := ThresholdBand(60.0, 85.0)
  const BYTES_BAND := ThresholdBand(83886080.0, 209715200.0)
  const RATIO_BAND := ThresholdBand(2.0, 3.0)
  const BASELINE_FLOOR_BPS := 5242880.0

  function Rank(level: HealthLevel): int {
    match level
    case HealthUnknown => 0
    case HealthOK => 1
    case HealthWarn => 2
    case HealthCrit => 3
  }

  function MaxHealthLevel(a: HealthLevel, b: HealthLevel): HealthLevel {
    if Rank(a) > Rank(b) then a else b
  }

  function ClassifyMetric(value: real, threshold: ThresholdBand): HealthLevel {
    if value >= threshold.crit then HealthCrit
    else if value >= threshold.warn then HealthWarn
    else HealthOK
  }

  function MaxReal(a: real, b: real): real { if a >= b then a else b }

  function MinReal(a: real, b: real): real { if a <= b then a else b }

  function LinkUtilPercent(peak: real, linkSpeedBps: real): real
    requires linkSpeedBps > 0.0
  {
    peak / linkSpeedBps * 100.0
  }

  /** Percentage of the link in use when its speed is known, bytes per second otherwise. */
  function AbsoluteLevel(peak: real, linkSpeedBps: real, linkSpeedKnown: bool): HealthLevel {
    if linkSpeedKnown && linkSpeedBps > 0.0 then ClassifyMetric(LinkUtilPercent(peak, linkSpeedBps), UTIL_BAND)
    else ClassifyMetric(peak, BYTES_BAND)
  }

  // ---------- The baseline ----------

  function SpikeRatio(baseline: real, peak: real): real {
    peak / MaxReal(1.0, MaxReal(baseline, BASELINE_FLOOR_BPS))
  }

  /** The raw level of a sample behind the first. */
  function SampleLevel(baseline: real, peak: real, linkSpeedBps: real, linkSpeedKnown: bool): HealthLevel {
    MaxHealthLevel(AbsoluteLevel(peak, linkSpeedBps, linkSpeedKnown),
                   ClassifyMetric(SpikeRatio(baseline, peak), RATIO_BAND))
  }

  function NextBaseline(baseline: real, peak: real): real {
    baseline * (1.0 - EMA_ALPHA) + MinReal(peak, baseline * RATIO_BAND.crit) * EMA_ALPHA
  }

  /** The baseline left behind by a run of positive peaks; the first peak is taken as it is. */
  function Baseline(peaks: seq<real>): real
    requires peaks != []
  {
    if |peaks| == 1 then peaks[0]
    else NextBaseline(Baseline(peaks[..|peaks| - 1]), peaks[|peaks| - 1])
  }

  ghost predicate AllPositive(peaks: seq<real>) {
    forall i :: 0 <= i < |peaks| ==> peaks[i] > 0.0
  }

  lemma {:induction false} BaselineWithinPeaks(peaks: seq<real>, low: real, high: real)
    requires peaks != [] && 0.0 < low
    requires forall i :: 0 <= i < |peaks| ==> low <= peaks[i] <= high
    ensures low <= Baseline(peaks) <= high
  {
    if |peaks| > 1 {
      var front, last := peaks[..|peaks| - 1], peaks[|peaks| - 1];
      assert forall i :: 0 <= i < |front| ==> front[i] == peaks[i];
      BaselineWithinPeaks(front, low, high);
    }
  }

  function LeastPeak(peaks: seq<real>): real
    requires peaks != []
  {
    if |peaks| == 1 then peaks[0] else MinReal(peaks[0], LeastPeak(peaks[1..]))
  }

  function GreatestPeak(peaks: seq<real>): real
    requires peaks != []
  {
    if |peaks| == 1 then peaks[0] else MaxReal(peaks[0], GreatestPeak(peaks[1..]))
  }

  lemma {:induction false} PeakExtremes(peaks: seq<real>)
    requires peaks != []
    ensures forall i :: 0 <= i < |peaks| ==> LeastPeak(peaks) <= peaks[i] <= GreatestPeak(peaks)
    ensures LeastPeak(peaks) in peaks && GreatestPeak(peaks) in peaks
  {
    if |peaks| > 1 {
      PeakExtremes(peaks[1..]);
      assert forall i :: 0 < i < |peaks| ==> peaks[i] == peaks[1..][i - 1];
    }
  }

  /** Over any run of positive peaks the baseline stays between the smallest and the largest
      of them, and one sample changes it by a factor between 0.8 and 1.4. */
  lemma BaselineBounds(peaks: seq<real>, peak: real)
    requires peaks != [] && AllPositive(peaks) && peak > 0.0
    ensures LeastPeak(peaks) <= Baseline(peaks) <= GreatestPeak(peaks)
    ensures 0.8 * Baseline(peaks) < Baseline(peaks + [peak]) <= 1.4 * Baseline(peaks)
  {
    PeakExtremes(peaks);
    BaselineWithinPeaks(peaks, LeastPeak(peaks), GreatestPeak(peaks));
    assert (peaks + [peak])[..|peaks|] == peaks;
  }

  /** The first peak is the baseline; each further one moves it by a fifth of the way to the peak, which counts
      for three times the baseline at most. */
  lemma BaselineMoves(peaks: seq<real>, peak: real)
    requires peaks != []
    ensures Baseline([peak]) == peak
    ensures peak <= 3.0 * Baseline(peaks) ==> 5.0 * Baseline(peaks + [peak]) == 4.0 * Baseline(peaks) + peak
    ensures peak >= 3.0 * Baseline(peaks) ==> 5.0 * Baseline(peaks + [peak]) == 7.0 * Baseline(peaks)
  {
    assert (peaks + [peak])[..|peaks|] == peaks;
  }

  /** 1.2^k times `start`. */
  function Compounded(start: real, k: nat): real {
    if k == 0 then start else 1.2 * Compounded(start, k - 1)
  }

  function Steady(peak: real, k: nat): (s: seq<real>)
    ensures |s| == k
  {
    seq(k, _ => peak)
  }

  lemma {:induction false} SteadyStep(peaks: seq<real>, peak: real, k: nat)
    requires peaks != [] && k > 0
    ensures Baseline(peaks + Steady(peak, k)) == NextBaseline(Baseline(peaks + Steady(peak, k - 1)), peak)
  {
    var run := peaks + Steady(peak, k);
    assert run[..|run| - 1] == peaks + Steady(peak, k - 1);
  }

  /** A sample whose ratio is at least 2 lifts the baseline by a fifth or more. */
  lemma LargeRatioLifts(baseline: real, peak: real)
    requires baseline > 0.0 && SpikeRatio(baseline, peak) >= 2.0
    ensures peak >= 2.0 * baseline
    ensures NextBaseline(baseline, peak) >= 1.2 * baseline
  {
    var denom := MaxReal(1.0, MaxReal(baseline, BASELINE_FLOOR_BPS));
    assert peak == SpikeRatio(baseline, peak) * denom;
    assert peak >= 2.0 * denom;
  }

  /** A steady peak either has been caught up by half, or has grown the baseline every time. */
  lemma {:induction false} SteadyPeakGrowth(peaks: seq<real>, peak: real, k: nat)
    requires peaks != [] && Baseline(peaks) > 0.0 && peak > 0.0
    ensures Baseline(peaks + Steady(peak, k)) > 0.0
    ensures Baseline(peaks + Steady(peak, k)) > peak / 2.0
         || Baseline(peaks + Steady(peak, k)) >= Compounded(Baseline(peaks), k)
  {
    if k == 0 {
      assert peaks + Steady(peak, 0) == peaks;
    } else {
      SteadyPeakGrowth(peaks, peak, k - 1);
      SteadyStep(peaks, peak, k);
      var before := Baseline(peaks + Steady(peak, k - 1));
    }
  }

  lemma AboveHalfIsQuiet(baseline: real, peak: real)
    requires 0.0 < peak && peak / 2.0 < baseline
    ensures ClassifyMetric(SpikeRatio(baseline, peak), RATIO_BAND) == HealthOK
  {
    var denom := MaxReal(1.0, MaxReal(baseline, BASELINE_FLOOR_BPS));
    assert peak < 2.0 * denom;
    assert SpikeRatio(baseline, peak) * denom == peak;
  }

  /** Under a constant peak the ratio level becomes OK, and stays OK, after any number of samples
      k with 1.2^k times the baseline above half the peak. */
  lemma {:induction false} SteadyPeakSettles(peaks: seq<real>, peak: real, k: nat, m: nat)
    requires peaks != [] && AllPositive(peaks) && peak > 0.0
    requires Compounded(Baseline(peaks), k) > peak / 2.0
    requires k <= m
    ensures ClassifyMetric(SpikeRatio(Baseline(peaks + Steady(peak, m)), peak), RATIO_BAND) == HealthOK
    decreases m
  {
    SteadySettledBaseline(peaks, peak, k, m);
    AboveHalfIsQuiet(Baseline(peaks + Steady(peak, m)), peak);
  }

  lemma {:induction false} SteadySettledBaseline(peaks: seq<real>, peak: real, k: nat, m: nat)
    requires peaks != [] && AllPositive(peaks) && peak > 0.0
    requires Compounded(Baseline(peaks), k) > peak / 2.0
    requires k <= m
    ensures Baseline(peaks + Steady(peak, m)) > peak / 2.0
    decreases m
  {
    if m == k {
      BaselineBounds(peaks, peak);
      PeakExtremes(peaks);
      SteadyPeakGrowth(peaks, peak, k);
    } else {
      SteadySettledBaseline(peaks, peak, k, m - 1);
      SteadyStep(peaks, peak, m);
    }
  }

  // ---------- What a raw level means ----------

  /** The peak takes this share of a link of known speed, or else this many bytes per second. */
  predicate Reaches(peak: real, linkSpeedBps: real, linkSpeedKnown: bool, percent: real, bytes: real) {
    if linkSpeedKnown && linkSpeedBps > 0.0 then 100.0 * peak >= percent * linkSpeedBps else peak >= bytes
  }

  /** The peak is so many times the baseline and the floor of 5 MiB per second. */
  predicate Jumps(baseline: real, peak: real, times: real) {
    peak >= times * baseline && peak >= times * 5242880.0
  }

  lemma UtilMeans(peak: real, linkSpeedBps: real, percent: real)
    requires linkSpeedBps > 0.0
    ensures LinkUtilPercent(peak, linkSpeedBps) * linkSpeedBps == 100.0 * peak
    ensures LinkUtilPercent(peak, linkSpeedBps) >= percent <==> 100.0 * peak >= percent * linkSpeedBps
  {
    var share := peak / linkSpeedBps;
    assert share * linkSpeedBps == peak;
    Scales(share * 100.0, percent, linkSpeedBps);
  }

  lemma Scales(a: real, b: real, c: real)
    requires c > 0.0
    ensures a >= b <==> a * c >= b * c
  {
  }

  lemma RatioMeans(baseline: real, peak: real, times: real)
    requires times > 0.0
    ensures SpikeRatio(baseline, peak) * MaxReal(baseline, 5242880.0) == peak
    ensures SpikeRatio(baseline, peak) >= times <==> Jumps(baseline, peak, times)
  {
    var denom := MaxReal(baseline, 5242880.0);
    assert SpikeRatio(baseline, peak) * denom == peak;
    Scales(SpikeRatio(baseline, peak), times, denom);
    Scales(denom, baseline, times);
    Scales(denom, 5242880.0, times);
  }

  /** On the first sample. */
  lemma AbsoluteMeans(peak: real, linkSpeedBps: real, linkSpeedKnown: bool)
    ensures var level := AbsoluteLevel(peak, linkSpeedBps, linkSpeedKnown);
            && level != HealthUnknown
            && (level == HealthCrit <==> Reaches(peak, linkSpeedBps, linkSpeedKnown, 85.0, 209715200.0))
            && (level == HealthOK <==> !Reaches(peak, linkSpeedBps, linkSpeedKnown, 60.0, 83886080.0))
  {
    if linkSpeedKnown && linkSpeedBps > 0.0 {
      UtilMeans(peak, linkSpeedBps, 85.0);
      UtilMeans(peak, linkSpeedBps, 60.0);
    }
  }

  /** On every later one. */
  lemma LevelMeans(baseline: real, peak: real, linkSpeedBps: real, linkSpeedKnown: bool)
    ensures var level := SampleLevel(baseline, peak, linkSpeedBps, linkSpeedKnown);
            && level != HealthUnknown
            && (level == HealthCrit <==>
                  Reaches(peak, linkSpeedBps, linkSpeedKnown, 85.0, 209715200.0) || Jumps(baseline, peak, 3.0))
            && (level == HealthOK <==>
                  !Reaches(peak, linkSpeedBps, linkSpeedKnown, 60.0, 83886080.0) && !Jumps(baseline, peak, 2.0))
  {
    AbsoluteMeans(peak, linkSpeedBps, linkSpeedKnown);
    RatioMeans(baseline, peak, 3.0);
    RatioMeans(baseline, peak, 2.0);
  }

  // ---------- The display level as a function of the raw levels ----------

  /** The `default` branch takes every level that is neither Warn nor Crit. */
  predicate Clear(level: HealthLevel) {
    level != HealthWarn && level != HealthCrit
  }

  /** Samples j and j + 1 are both Warn or both clear. */
  predicate CalmPair(h: seq<HealthLevel>, j: int) {
    0 <= j && j + 1 < |h| &&
    ((h[j] == HealthWarn && h[j + 1] == HealthWarn) || (Clear(h[j]) && Clear(h[j + 1])))
  }

  predicate ClearTriple(h: seq<HealthLevel>, j: int) {
    0 <= j && j + 2 < |h| && Clear(h[j]) && Clear(h[j + 1]) && Clear(h[j + 2])
  }

  ghost predicate CritSince(h: seq<HealthLevel>, c: int) {
    0 <= c < |h| && h[c] == HealthCrit && forall j :: c < j ==> !CalmPair(h, j)
  }

  /** Some Crit sample has not been followed by two samples of one calm kind in a row. */
  ghost predicate CritHeld(h: seq<HealthLevel>) {
    exists c :: CritSince(h, c)
  }

  /** Sample e completes a pair that puts Warn on display: two Warns, or the two clear samples
      that end a Crit. */
  ghost predicate WarnBegins(h: seq<HealthLevel>, e: int) {
    0 < e < |h| &&
    ((h[e - 1] == HealthWarn && h[e] == HealthWarn) ||
     (Clear(h[e - 1]) && Clear(h[e]) && CritHeld(h[..e])))
  }

  ghost predicate WarnSince(h: seq<HealthLevel>, e: int) {
    WarnBegins(h, e) && forall j :: e < j ==> !ClearTriple(h, j)
  }

  /** Some pair put Warn on display and no three clear samples in a row came after it. */
  ghost predicate WarnHeld(h: seq<HealthLevel>) {
    exists e :: WarnSince(h, e)
  }

  /** What is displayed after the raw levels `h`, all of them taken after warm-up. */
  ghost function Shown(h: seq<HealthLevel>): HealthLevel {
    if h == [] then HealthUnknown
    else if CritHeld(h) then HealthCrit
    else if WarnHeld(h) then HealthWarn
    else HealthOK
  }

  /** How many clear samples in a row ended `h` while Warn was already on display. */
  ghost function ClearRun(h: seq<HealthLevel>): nat {
    if h == [] || !Clear(h[|h| - 1]) || Shown(h[..|h| - 1]) != HealthWarn then 0
    else 1 + ClearRun(h[..|h| - 1])
  }

  lemma CritHeldExtends(h: seq<HealthLevel>, x: HealthLevel)
    ensures CritHeld(h + [x]) <==>
            x == HealthCrit || (CritHeld(h) && !CalmPair(h + [x], |h| - 1))
  {
    var g := h + [x];
    if x == HealthCrit {
      assert CritSince(g, |h|);
    } else if CritHeld(g) {
      var c :| CritSince(g, c);
      assert forall j :: CalmPair(h, j) ==> CalmPair(g, j);
      assert CritSince(h, c);
      assert c < |h|;
    } else if CritHeld(h) && !CalmPair(g, |h| - 1) {
      var c :| CritSince(h, c);
      forall j | c < j ensures !CalmPair(g, j) {
        assert CalmPair(g, j) && j != |h| - 1 ==> CalmPair(h, j);
      }
      assert CritSince(g, c);
    }
  }

  lemma WarnBeginsInPrefix(h: seq<HealthLevel>, x: HealthLevel, e: int)
    requires e < |h|
    ensures WarnBegins(h + [x], e) <==> WarnBegins(h, e)
  {
    if 0 < e {
      assert (h + [x])[..e] == h[..e];
    }
  }

  /** A pair that began Warn still counts after one more sample unless that sample completes
      three clear ones after it. */
  lemma WarnSinceExtends(h: seq<HealthLevel>, x: HealthLevel, e: int)
    requires e < |h|
    ensures WarnSince(h + [x], e) <==>
            WarnSince(h, e) && !(e < |h| - 2 && ClearTriple(h + [x], |h| - 2))
  {
    var g := h + [x];
    WarnBeginsInPrefix(h, x, e);
    assert forall j :: ClearTriple(h, j) ==> ClearTriple(g, j);
    assert forall j :: ClearTriple(g, j) && j != |h| - 2 ==> ClearTriple(h, j);
  }

  lemma NewPair(h: seq<HealthLevel>, x: HealthLevel)
    ensures WarnSince(h + [x], |h|) <==>
            h != [] && ((h[|h| - 1] == HealthWarn && x == HealthWarn) ||
                        (Clear(h[|h| - 1]) && Clear(x) && CritHeld(h)))
  {
    assert (h + [x])[..|h|] == h;
  }

  /** One more Warn sample. */
  lemma ShownAfterWarn(h: seq<HealthLevel>)
    ensures Shown(h + [HealthWarn]) ==
            if h != [] && h[|h| - 1] == HealthWarn then HealthWarn
            else if Shown(h) == HealthUnknown then HealthOK
            else Shown(h)
  {
    var g := h + [HealthWarn];
    CritHeldExtends(h, HealthWarn);
    NewPair(h, HealthWarn);
    if h != [] && h[|h| - 1] == HealthWarn {
      assert CalmPair(g, |h| - 1);
      assert WarnHeld(g);
    } else {
      if WarnHeld(g) {
        var e :| WarnSince(g, e);
        assert e < |h|;
        WarnSinceExtends(h, HealthWarn, e);
        assert WarnHeld(h);
      }
      if WarnHeld(h) {
        var e :| WarnSince(h, e);
        WarnSinceExtends(h, HealthWarn, e);
        assert WarnHeld(g);
      }
    }
  }

  /** While Warn is displayed, a pair that began it lies before the current run of clear samples. */
  lemma {:induction false} WarnBeganBeforeRun(h: seq<HealthLevel>, e: int)
    requires WarnSince(h, e) && !CritHeld(h)
    ensures e <= |h| - 1 - ClearRun(h)
    ensures ClearRun(h) <= 2
    ensures forall i :: |h| - ClearRun(h) <= i < |h| ==> Clear(h[i])
    decreases |h|
  {
    if ClearRun(h) > 0 {
      var front, last := h[..|h| - 1], h[|h| - 1];
      assert h == front + [last];
      CritHeldExtends(front, last);
      NewPair(front, last);
      assert Shown(front) == HealthWarn;
      assert e < |front|;
      WarnSinceExtends(front, last, e);
      WarnBeganBeforeRun(front, e);
      assert ClearRun(h) > 2 ==> ClearTriple(h, |h| - 3);
    }
  }

  /** Behind a clear sample that Warn did not begin before, Warn began with it at the earliest. */
  lemma BeganWithFirst(front: seq<HealthLevel>, x: HealthLevel, y: HealthLevel, e: int)
    requires Clear(x) && Clear(y) && e < |front| && WarnSince(front + [x] + [y], e)
    requires !CritHeld(front + [x]) && ClearRun(front + [x] + [y]) < 2
    ensures WarnSince(front + [x] + [y], |front|)
  {
    var mid := front + [x];
    var h := mid + [y];
    WarnSinceExtends(mid, y, e);
    WarnSinceExtends(front, x, e);
    CritHeldExtends(mid, y);
    CritHeldExtends(front, x);
    NewPair(mid, y);
    NewPair(front, x);
    assert WarnHeld(mid) && Shown(mid) == HealthWarn;
    assert ClearRun(h) == 1 + ClearRun(mid);
    assert Shown(front) != HealthWarn;
    assert WarnHeld(front) && CritHeld(front);
    assert Clear(front[|front| - 1]);
    WarnSinceExtends(mid, y, |front|);
    assert forall j :: |front| < j ==> !ClearTriple(h, j);
  }

  /** If the clear run is shorter than two, Warn began late enough to survive one more clear sample. */
  lemma LateWarnPair(h: seq<HealthLevel>) returns (e: int)
    requires Shown(h) == HealthWarn && ClearRun(h) < 2
    ensures WarnSince(h, e)
    ensures e < |h| - 2 ==> !(Clear(h[|h| - 2]) && Clear(h[|h| - 1]))
  {
    e :| WarnSince(h, e);
    var n := |h|;
    if e < n - 2 && Clear(h[n - 2]) && Clear(h[n - 1]) {
      var mid, front := h[..n - 1], h[..n - 2];
      assert h == mid + [h[n - 1]] && mid == front + [h[n - 2]];
      if CritHeld(mid) {
        e := n - 1;
      } else {
        BeganWithFirst(front, h[n - 2], h[n - 1], e);
        e := n - 2;
      }
    }
  }

  /** One more clear sample. */
  lemma ShownAfterClear(h: seq<HealthLevel>, x: HealthLevel)
    requires Clear(x)
    ensures Shown(h + [x]) ==
            match Shown(h)
            case HealthUnknown => HealthOK
            case HealthOK => HealthOK
            case HealthCrit => if Clear(h[|h| - 1]) then HealthWarn else HealthCrit
            case HealthWarn => if ClearRun(h) == 2 then HealthOK else HealthWarn
  {
    var g := h + [x];
    CritHeldExtends(h, x);
    NewPair(h, x);
    match Shown(h)
    case HealthUnknown =>
    case HealthOK =>
      forall e | e < |h| ensures WarnSince(g, e) ==> WarnSince(h, e) {
        WarnSinceExtends(h, x, e);
      }
    case HealthCrit =>
      if Clear(h[|h| - 1]) {
        assert CalmPair(g, |h| - 1);
        assert WarnHeld(g);
      }
    case HealthWarn =>
      if ClearRun(h) == 2 {
        if WarnHeld(g) {
          var e :| WarnSince(g, e);
          WarnSinceExtends(h, x, e);
          WarnBeganBeforeRun(h, e);
        }
      } else {
        var w :| WarnSince(h, w);
        WarnBeganBeforeRun(h, w);
        var e := LateWarnPair(h);
        WarnSinceExtends(h, x, e);
        assert WarnHeld(g);
      }
  }

  lemma ShownAfterCrit(h: seq<HealthLevel>)
    ensures Shown(h + [HealthCrit]) == HealthCrit
  {
    CritHeldExtends(h, HealthCrit);
  }

  // ---------- What the display promises ----------

  function Last(h: seq<HealthLevel>): HealthLevel
    requires h != []
  {
    h[|h| - 1]
  }

  /** Crit is displayed at once and by nothing else. */
  lemma CritShowsAtOnce(h: seq<HealthLevel>, x: HealthLevel)
    requires Shown(h) != HealthCrit
    ensures Shown(h + [x]) == HealthCrit <==> x == HealthCrit
  {
    CritHeldExtends(h, x);
  }

  /** OK rises to Warn only on two consecutive Warns. */
  lemma OkRisesOnTwoWarns(h: seq<HealthLevel>, x: HealthLevel)
    requires Shown(h) == HealthOK
    ensures Shown(h + [x]) == HealthWarn <==> x == HealthWarn && Last(h) == HealthWarn
  {
    match x
    case HealthWarn => ShownAfterWarn(h);
    case HealthCrit => ShownAfterCrit(h);
    case _ => ShownAfterClear(h, x);
  }

  /** Crit leaves the display exactly on the second of two samples of one calm kind, and then to
      Warn: OK is never reached directly. */
  lemma CritFallsOnCalmPair(h: seq<HealthLevel>, x: HealthLevel)
    requires Shown(h) == HealthCrit
    ensures Shown(h + [x]) == if CalmPair(h + [x], |h| - 1) then HealthWarn else HealthCrit
  {
    match x
    case HealthWarn => ShownAfterWarn(h);
    case HealthCrit => ShownAfterCrit(h);
    case _ => ShownAfterClear(h, x);
  }

  /** Warn falls to OK exactly on the third of three consecutive clear samples taken while Warn
      was already displayed. */
  lemma WarnFallsOnThirdClear(h: seq<HealthLevel>, x: HealthLevel)
    requires Shown(h) == HealthWarn
    ensures Shown(h + [x]) == HealthOK <==>
            |h| >= 2 && Clear(x) && Clear(h[|h| - 1]) && Clear(h[|h| - 2])
            && Shown(h[..|h| - 1]) == HealthWarn && Shown(h[..|h| - 2]) == HealthWarn
  {
    var e :| WarnSince(h, e);
    WarnBeganBeforeRun(h, e);
    match x {
      case HealthWarn => ShownAfterWarn(h);
      case HealthCrit => ShownAfterCrit(h);
      case _ => ShownAfterClear(h, x);
    }
    if |h| >= 2 {
      assert h[..|h| - 1][..|h| - 2] == h[..|h| - 2];
    }
  }

  predicate Alternating(tail: seq<HealthLevel>) {
    (forall i :: 0 <= i < |tail| ==> tail[i] != HealthCrit) &&
    (forall i :: 0 <= i < |tail| - 1 ==> (Clear(tail[i]) <==> !Clear(tail[i + 1])))
  }

  /** Warn and OK taking turns hold Crit on display however long they go on. */
  lemma {:induction false} AlternationHoldsCrit(h: seq<HealthLevel>, tail: seq<HealthLevel>)
    requires h != [] && Last(h) == HealthCrit && Alternating(tail)
    ensures Shown(h + tail) == HealthCrit
  {
    if tail == [] {
      assert h + tail == h;
      ShownAfterCrit(h[..|h| - 1]);
      assert h == h[..|h| - 1] + [HealthCrit];
    } else {
      var front, x := tail[..|tail| - 1], tail[|tail| - 1];
      AlternationHoldsCrit(h, front);
      assert h + tail == (h + front) + [x];
      CritFallsOnCalmPair(h + front, x);
    }
  }

  function Clears(k: nat): (s: seq<HealthLevel>)
    ensures |s| == k && forall i :: 0 <= i < k ==> Clear(s[i])
  {
    seq(k, _ => HealthOK)
  }

  lemma ClearsStep(h: seq<HealthLevel>, k: nat)
    ensures h + Clears(k + 1) == (h + Clears(k)) + [HealthOK]
    ensures (h + Clears(k + 1))[..|h| + k] == h + Clears(k)
  {
  }

  /** From a Crit sample it takes exactly five consecutive OKs to reach OK, by way of Warn. */
  lemma {:induction false} CritClearsInFive(h: seq<HealthLevel>, k: nat)
    requires h != [] && Last(h) == HealthCrit
    ensures Shown(h + Clears(k)) ==
            if k < 2 then HealthCrit else if k < 5 then HealthWarn else HealthOK
    ensures 2 <= k < 5 ==> ClearRun(h + Clears(k)) == k - 2
  {
    if k == 0 {
      assert h + Clears(0) == h;
      ShownAfterCrit(h[..|h| - 1]);
      assert h == h[..|h| - 1] + [HealthCrit];
    } else {
      CritClearsInFive(h, k - 1);
      ClearsStep(h, k - 1);
      ShownAfterClear(h + Clears(k - 1), HealthOK);
    }
  }

  /** Whatever was displayed, five consecutive OKs are enough, and OK then stays. */
  lemma {:induction false} FiveClearsAlwaysSuffice(h: seq<HealthLevel>, k: nat)
    ensures k >= 5 ==> Shown(h + Clears(k)) == HealthOK
    ensures k >= 2 ==> Shown(h + Clears(k)) != HealthCrit
    ensures k >= 2 && Shown(h + Clears(k)) == HealthWarn ==> ClearRun(h + Clears(k)) >= k - 2
    ensures k == 1 && Shown(h + Clears(k)) == HealthCrit ==> Clear(Last(h + Clears(k)))
    decreases k
  {
    if k > 0 {
      FiveClearsAlwaysSuffice(h, k - 1);
      ClearsStep(h, k - 1);
      var before := h + Clears(k - 1);
      ShownAfterClear(before, HealthOK);
      if Shown(before) == HealthWarn {
        var e :| WarnSince(before, e);
        WarnBeganBeforeRun(before, e);
      }
      if k == 2 && Shown(before) == HealthCrit { assert Clear(Last(before)); }
    }
  }

  // ---------- The manager ----------

  class Manager {
    var spikeEMA: real
    var spikeCount: int
    var displayLevel: HealthLevel
    var warnStreak: int
    var clearStreak: int

    /** The positive peaks seen so far, and the raw levels since the display last went unknown. */
    ghost var peaks: seq<real>
    ghost var raws: seq<HealthLevel>

    ghost predicate Valid()
      reads this
    {
      && spikeCount == |peaks|
      && AllPositive(peaks)
      && (peaks != [] ==> spikeEMA == Baseline(peaks) && spikeEMA > 0.0)
      && DisplayFollowsHistory()
    }

    /** The counters are determined by the history; at most one of them is positive. */
    ghost predicate DisplayFollowsHistory()
      reads this
    {
      && displayLevel == Shown(raws)
      && warnStreak == (if raws != [] && Last(raws) == HealthWarn && Shown(raws) != HealthWarn then 1 else 0)
      && clearStreak >= 0
      && (raws == [] || !Clear(Last(raws)) ==> clearStreak == 0)
      && (displayLevel == HealthCrit && Clear(Last(raws)) ==> clearStreak == 1)
      && (displayLevel == HealthWarn ==> clearStreak == ClearRun(raws))
    }

    constructor ()
      ensures Valid() && peaks == [] && raws == []
    {
      spikeEMA, spikeCount := 0.0, 0;
      displayLevel, warnStreak, clearStreak := HealthUnknown, 0, 0;
      peaks, raws := [], [];
    }

    /** The counter machine; `raws` says which display it must give. */
    method Stabilize(raw: HealthLevel, ready: bool) returns (shown: HealthLevel)
      requires DisplayFollowsHistory()
      modifies this`displayLevel, this`warnStreak, this`clearStreak, this`raws
      ensures DisplayFollowsHistory()
      ensures raws == if ready then old(raws) + [raw] else []
      ensures shown == displayLevel == Shown(raws)
      ensures warnStreak == 0 || clearStreak == 0
    {
      if !ready {
        displayLevel := HealthUnknown;
        warnStreak := 0;
        clearStreak := 0;
        raws := [];
        return HealthUnknown;
      }
      ghost var before := raws;
      raws := raws + [raw];
      assert raws[..|raws| - 1] == before;
      match raw {
        case HealthCrit =>
          ShownAfterCrit(before);
          displayLevel := HealthCrit;
          warnStreak := 0;
          clearStreak := 0;
          return displayLevel;
        case HealthWarn =>
          ShownAfterWarn(before);
          clearStreak := 0;
          warnStreak := warnStreak + 1;
          if displayLevel == HealthCrit {
            if warnStreak >= CRIT_DOWNSAMPLE {
              displayLevel := HealthWarn;
              warnStreak := 0;
            }
            return displayLevel;
          }
          if displayLevel == HealthWarn || warnStreak >= WARN_SAMPLES {
            displayLevel := HealthWarn;
            warnStreak := 0;
            return displayLevel;
          }
          if displayLevel == HealthUnknown {
            displayLevel := HealthOK;
          }
          return displayLevel;
        case _ =>
          ShownAfterClear(before, raw);
          if displayLevel == HealthWarn {
            ghost var e :| WarnSince(before, e);
            WarnBeganBeforeRun(before, e);
          }
          warnStreak := 0;
          if displayLevel == HealthUnknown {
            displayLevel := HealthOK;
            return displayLevel;
          }
          clearStreak := clearStreak + 1;
          if displayLevel == HealthCrit {
            if clearStreak >= CRIT_DOWNSAMPLE {
              displayLevel := HealthWarn;
              clearStreak := 0;
            }
            return displayLevel;
          }
          if clearStreak >= CLEAR_SAMPLES {
            displayLevel := HealthOK;
            clearStreak := 0;
          }
          return displayLevel;
      }
    }

    /** One sample. A first reading or a non-positive peak changes nothing; any other sample
        extends the run of peaks, and the raw level enters the display history once three
        samples have been seen. */
    method EvaluateInterfaceSpike(rates: InterfaceRates, linkSpeedBps: real, linkSpeedKnown: bool)
      returns (a: Assessment)
      requires Valid()
      modifies this
      ensures Valid()
      ensures a.peakBytesPerSec >= rates.rxBytesPerSec && a.peakBytesPerSec >= rates.txBytesPerSec
      ensures a.peakBytesPerSec == rates.rxBytesPerSec || a.peakBytesPerSec == rates.txBytesPerSec
      ensures a.linkSpeedBps == linkSpeedBps && a.linkSpeedKnown == (linkSpeedKnown && linkSpeedBps > 0.0)
      ensures rates.firstReading || a.peakBytesPerSec <= 0.0 ==>
                unchanged(this) && a.level == a.displayLevel == HealthUnknown && !a.ready
                && a.baselineBytesPerSec == a.ratio == a.linkUtilPercent == 0.0
      ensures !rates.firstReading && a.peakBytesPerSec > 0.0 ==>
                && peaks == old(peaks) + [a.peakBytesPerSec]
                && a.ready == (|old(peaks)| >= 3)
                && raws == (if a.ready then old(raws) + [a.level] else [])
                && a.displayLevel == Shown(raws)
                && a.linkUtilPercent == (if a.linkSpeedKnown
                                         then LinkUtilPercent(a.peakBytesPerSec, linkSpeedBps) else 0.0)
      ensures !rates.firstReading && a.peakBytesPerSec > 0.0 && old(peaks) == [] ==>
                && a.baselineBytesPerSec == a.peakBytesPerSec && a.ratio == 1.0
                && a.level == AbsoluteLevel(a.peakBytesPerSec, linkSpeedBps, a.linkSpeedKnown)
      ensures !rates.firstReading && a.peakBytesPerSec > 0.0 && old(peaks) != [] ==>
                && a.baselineBytesPerSec == Baseline(old(peaks))
                && a.ratio == SpikeRatio(Baseline(old(peaks)), a.peakBytesPerSec)
                && a.level == SampleLevel(Baseline(old(peaks)), a.peakBytesPerSec, linkSpeedBps, a.linkSpeedKnown)
    {
      var peak := MaxReal(rates.rxBytesPerSec, rates.txBytesPerSec);
      var known := linkSpeedKnown && linkSpeedBps > 0.0;
      a := Assessment(HealthUnknown, HealthUnknown, peak, 0.0, 0.0, false, linkSpeedBps, known, 0.0);
      if rates.firstReading || peak <= 0.0 {
        return;
      }
      if known {
        a := a.(linkUtilPercent := LinkUtilPercent(peak, linkSpeedBps));
      }
      if spikeCount == 0 || spikeEMA <= 0.0 {
        spikeEMA := peak;
        spikeCount := 1;
        peaks := [peak];
        a := a.(baselineBytesPerSec := peak, ratio := 1.0,
                level := AbsoluteLevel(peak, linkSpeedBps, known));
        var shown := Stabilize(a.level, false);
        a := a.(displayLevel := shown);
        return;
      }
      var baseline := spikeEMA;
      var absLevel := AbsoluteLevel(peak, linkSpeedBps, known);
      var ratio := SpikeRatio(baseline, peak);
      var level := MaxHealthLevel(absLevel, ClassifyMetric(ratio, RATIO_BAND));
      var ready := spikeCount >= WARMUP_SAMPLES;
      var shown := Stabilize(level, ready);
      a := a.(baselineBytesPerSec := baseline, ratio := ratio, level := level,
              ready := ready, displayLevel := shown);
      var emaInput := peak;
      if baseline > 0.0 && RATIO_BAND.crit > 1.0 {
        emaInput := MinReal(emaInput, baseline * RATIO_BAND.crit);
      }
      assert (peaks + [peak])[..|peaks|] == peaks;
      spikeEMA := baseline * (1.0 - EMA_ALPHA) + emaInput * EMA_ALPHA;
      spikeCount := spikeCount + 1;
      peaks := peaks + [peak];
    }
  }
}
