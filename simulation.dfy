/**
 * The integer skeleton of `simulate_data.py`: how many samples there are,
 * when each is taken, which anomaly window or light phase each index falls
 * in, how each signal is assembled from a sine and Gaussian noise, the
 * row-by-row data set and its `fallback_active` column.
 *
 * The sine is a parameter `sin`, and the noise is a sequence of standard
 * normal draws `z`: `np.random.normal(0, s)` is `s * z`, one draw per call,
 * consumed in the order the script calls it.
 */
module Simulation {
  import opened Wrappers
  import opened Numerals

  const Hours: int := 72
  const IntervalMinutes: int := 5

  /** Python's `int(a / b)` for exactly representable quotients: division truncated toward zero. */
  function TruncDiv(a: int, b: int): (q: int)
    requires b != 0
    ensures b > 0 && a >= 0 ==> q >= 0 && q * b <= a < (q + 1) * b
  {
    var m := (if a < 0 then -a else a) / (if b < 0 then -b else b);
    if (a < 0) != (b < 0) then -m else m
  }

  /**
   * The quotient is rounded toward zero: the remainder takes the sign of the
   * dividend and is smaller than the divisor in magnitude, so `int(-7 / 2)`
   * is -3 where floor division gives -4.
   */
  lemma TruncDivTowardZero(a: int, b: int)
    requires b != 0
    ensures var r := a - TruncDiv(a, b) * b;
      (a >= 0 ==> 0 <= r) && (a < 0 ==> r <= 0) && (if r < 0 then -r else r) < (if b < 0 then -b else b)
  {
    var ua, ub := (if a < 0 then -a else a), (if b < 0 then -b else b);
    var m := ua / ub;
    QuotientBounds(ua, ub);
    var q := TruncDiv(a, b);
    assert q == (if (a < 0) != (b < 0) then -m else m);
    SignedProduct(m, ub, q, b);
  }

  /** The quotient of non-negative numbers leaves a remainder in `[0, d)`. */
  lemma QuotientBounds(n: nat, d: nat)
    requires d > 0
    ensures (n / d) * d <= n < (n / d) * d + d
  {
  }

  /** Flipping the sign of either factor flips the sign of the product. */
  lemma SignedProduct(m: int, u: int, q: int, b: int)
    requires q == m || q == -m
    requires b == u || b == -u
    ensures q * b == (if (q == m) == (b == u) then m * u else -(m * u))
  {
    if q == m && b == -u {
      assert q * b == -(m * u);
    } else if q == -m && b == u {
      assert q * b == -(m * u);
    } else if q == -m && b == -u {
      assert q * b == m * u;
    }
  }

  /** `int(-7 / 2)` is -3: truncation, not floor. */
  lemma TruncDivNegative()
    ensures TruncDiv(-7, 2) == -3 && TruncDiv(7, -2) == -3
  {
  }

  /** `int((hours * 60) / interval_minutes)`; `None` where Python raises `ZeroDivisionError`. */
  function NumSamples(hours: int, intervalMinutes: int): (r: Option<int>)
    ensures r.None? <==> intervalMinutes == 0
  {
    if intervalMinutes == 0 then None else Some(TruncDiv(hours * 60, intervalMinutes))
  }

  /** 72 hours at 5-minute intervals is 864 samples. */
  lemma DefaultSampleCount()
    ensures NumSamples(Hours, IntervalMinutes) == Some(864)
  {
  }

  /** For a positive interval the count is the number of whole intervals in the duration. */
  lemma SampleCountBounds(hours: nat, intervalMinutes: nat)
    requires intervalMinutes > 0
    ensures var n := NumSamples(hours, intervalMinutes).value;
      n >= 0 && n * intervalMinutes <= hours * 60 < (n + 1) * intervalMinutes
  {
    var n := TruncDiv(hours * 60, intervalMinutes);
    assert NumSamples(hours, intervalMinutes).value == n;
  }

  /** Number of samples `range(num_samples)` actually yields: none for a negative count. */
  function RangeLength(n: int): nat
  {
    if n < 0 then 0 else n
  }

  const MicrosPerMinute: int := 60_000_000

  /**
   * `[start_time + timedelta(minutes=i * interval_minutes) for i in range(n)]`,
   * instants counted in microseconds.
   */
  function Timestamps(start: int, intervalMinutes: int, n: nat): (ts: seq<int>)
    ensures |ts| == n
  {
    seq(n, i requires 0 <= i < n => start + i * intervalMinutes * MicrosPerMinute)
  }

  /** A run with at least one sample starts at the start time. */
  lemma TimestampsStart(start: int, intervalMinutes: int, n: nat)
    requires n > 0
    ensures Timestamps(start, intervalMinutes, n)[0] == start
  {
  }

  /** Entry `i` lies `i` intervals after the start, and neighbours are exactly one interval apart. */
  lemma TimestampsSpacing(start: int, intervalMinutes: int, n: nat, i: nat)
    requires i + 1 < n
    ensures Timestamps(start, intervalMinutes, n)[0] == start
    ensures Timestamps(start, intervalMinutes, n)[i + 1] - Timestamps(start, intervalMinutes, n)[i]
      == intervalMinutes * MicrosPerMinute
  {
    var ts := Timestamps(start, intervalMinutes, n);
    assert ts[i + 1] - ts[i] == (i + 1) * intervalMinutes * MicrosPerMinute - i * intervalMinutes * MicrosPerMinute;
  }

  /** With a positive interval the timestamps strictly increase. */
  lemma {:induction false} TimestampsIncrease(start: int, intervalMinutes: int, n: nat, i: nat, j: nat)
    requires intervalMinutes > 0 && i < j < n
    ensures Timestamps(start, intervalMinutes, n)[i] < Timestamps(start, intervalMinutes, n)[j]
    decreases j - i
  {
    TimestampsSpacing(start, intervalMinutes, n, j - 1);
    if i < j - 1 {
      TimestampsIncrease(start, intervalMinutes, n, i, j - 1);
    }
  }

  /** Heat-stress branch of `simulate_temperature`. */
  predicate InHeatStress(i: int)
  {
    500 < i < 600
  }

  /** Dry-out branch of `simulate_moisture`. */
  predicate InDryOut(i: int)
  {
    1000 < i < 1100
  }

  const DayLength: int := 288
  const DarkSamples: int := 60

  /** Position in the 24-hour light cycle. */
  function CyclePosition(i: int): (c: int)
    ensures 0 <= c < DayLength
  {
    i % DayLength
  }

  /** Lights-off phase of `simulate_light`. */
  predicate LightsOff(i: int)
  {
    CyclePosition(i) < DarkSamples
  }

  /** The heat-stress branch is taken at exactly the 99 indices 501..599. */
  lemma HeatStressIndices(i: int)
    ensures InHeatStress(i) <==> 501 <= i <= 599
    ensures !InHeatStress(500) && !InHeatStress(600)
  {
  }

  /** With the default 864 samples no index reaches the dry-out window. */
  lemma DryOutUnreached(i: int)
    requires 0 <= i < RangeLength(NumSamples(Hours, IntervalMinutes).value)
    ensures !InDryOut(i)
  {
    DefaultSampleCount();
  }

  /** The light phase depends only on the index modulo 288. */
  lemma LightPeriodic(i: nat, k: nat)
    ensures LightsOff(i + k * DayLength) == LightsOff(i)
    ensures CyclePosition(i + k * DayLength) == CyclePosition(i)
  {
    var q, r := i / DayLength, i % DayLength;
    assert i + k * DayLength == (q + k) * DayLength + r;
    DivModUnique(i + k * DayLength, DayLength, q + k, r);
  }

  /** The first 60 samples of every day are dark. */
  lemma DarkHours(i: int)
    ensures LightsOff(i) <==> i % 288 < 60
  {
  }

  /** A sine bounded like the real one. */
  ghost predicate SineBounded(sin: real -> real)
  {
    forall x :: -1.0 <= sin(x) <= 1.0
  }

  /** `simulate_temperature(i)` with noise draw `z`. */
  function Temperature(i: nat, sin: real -> real, z: real): real
  {
    var base := 23.0 + 5.0 * sin(i as real / 50.0);
    if InHeatStress(i) then base + 10.0 + 0.5 * z else base + 0.2 * z
  }

  /** `simulate_moisture(i)` with noise draw `z`. */
  function Moisture(i: nat, sin: real -> real, z: real): real
  {
    var base := 60.0 + 10.0 * sin(i as real / 80.0);
    if InDryOut(i) then base - 25.0 + 1.0 * z else base + 0.5 * z
  }

  /** `simulate_co2(i)` with noise draw `z`. */
  function Co2(i: nat, sin: real -> real, z: real): real
  {
    400.0 + 20.0 * sin(i as real / 70.0) + 5.0 * z
  }

  /** `simulate_light(i)`: no noise. */
  function Light(i: nat, sin: real -> real): real
  {
    if LightsOff(i) then 0.0 else 500.0 + 100.0 * sin((CyclePosition(i) - DarkSamples) as real / 50.0)
  }

  /** Outside the heat-stress window the temperature passes 35 only on a draw above 35 standard deviations. */
  lemma HotOnlyInWindow(i: nat, sin: real -> real, z: real)
    requires SineBounded(sin) && !InHeatStress(i) && Temperature(i, sin, z) > 35.0
    ensures z > 35.0
  {
    assert sin(i as real / 50.0) <= 1.0;
  }

  /** The sine is below -1/2 on [10, 12], which holds of the real sine (sin 10 < -0.54, sin 12 < -0.53, minimum at 3.5 pi). */
  ghost predicate SineLowOnWindow(sin: real -> real)
  {
    forall x :: 10.0 <= x <= 12.0 ==> sin(x) <= -0.5
  }

  /**
   * Inside the heat-stress window the daily baseline is at its trough, so the
   * offset temperature stays at most 30.5 plus the noise: it passes 35 only
   * on a draw above 9 standard deviations, and reaches 46.2 only on a draw
   * of at least 31.4.
   */
  lemma HeatWindowBelowThreshold(i: nat, sin: real -> real, z: real)
    requires SineLowOnWindow(sin) && InHeatStress(i)
    ensures Temperature(i, sin, z) <= 30.5 + 0.5 * z
    ensures Temperature(i, sin, z) > 35.0 ==> z > 9.0
    ensures Temperature(i, sin, z) >= 46.2 ==> z >= 31.4
  {
    var x := i as real / 50.0;
    assert 10.0 <= x <= 12.0;
    assert sin(x) <= -0.5;
  }

  /** Outside the dry-out window the moisture drops below 40 only on a draw below -20 standard deviations. */
  lemma DryOnlyInWindow(i: nat, sin: real -> real, z: real)
    requires SineBounded(sin) && !InDryOut(i) && Moisture(i, sin, z) < 40.0
    ensures z < -20.0
  {
    assert sin(i as real / 80.0) >= -1.0;
  }

  /** CO2 passes 800 only on a draw above 76 standard deviations. */
  lemma Co2NoiseNeedsOutlier(i: nat, sin: real -> real, z: real)
    requires SineBounded(sin) && Co2(i, sin, z) > 800.0
    ensures z > 76.0
  {
    assert sin(i as real / 70.0) <= 1.0;
  }

  /** Light is zero exactly in the dark phase. */
  lemma LightZeroExactlyWhenOff(i: nat, sin: real -> real)
    requires SineBounded(sin)
    ensures Light(i, sin) == 0.0 <==> LightsOff(i)
  {
    if !LightsOff(i) {
      assert sin((CyclePosition(i) - DarkSamples) as real / 50.0) >= -1.0;
    }
  }

  /** One record of `data` before rounding. */
  datatype DataRow = DataRow(timestamp: int, temp: real, moisture: real, co2: real, light: real)

  /**
   * Row `i` of the data set: the lists `temps`, `moisture` and `co2` draw
   * their noise one after the other from one stream, `n` draws each.
   */
  function RowAt(i: nat, n: nat, start: int, intervalMinutes: int, sin: real -> real, noise: seq<real>): DataRow
    requires i < n && |noise| >= 3 * n
  {
    DataRow(
      Timestamps(start, intervalMinutes, n)[i],
      Temperature(i, sin, noise[i]),
      Moisture(i, sin, noise[n + i]),
      Co2(i, sin, noise[2 * n + i]),
      Light(i, sin))
  }

  /**
   * The loop of lines 76-85: one row per index, appended in index order.
   */
  method BuildDataset(n: nat, start: int, intervalMinutes: int, sin: real -> real, noise: seq<real>)
    returns (data: seq<DataRow>)
    requires |noise| >= 3 * n
    ensures |data| == n
    ensures forall i :: 0 <= i < n ==> data[i] == RowAt(i, n, start, intervalMinutes, sin, noise)
    ensures forall i :: 0 <= i < n ==> data[i].timestamp == start + i * intervalMinutes * MicrosPerMinute
  {
    data := [];
    var i := 0;
    while i < n
      invariant 0 <= i <= n && |data| == i
      invariant forall k :: 0 <= k < i ==> data[k] == RowAt(k, n, start, intervalMinutes, sin, noise)
    {
      data := data + [RowAt(i, n, start, intervalMinutes, sin, noise)];
      i := i + 1;
    }
  }

  /** `check_fallback(temp, moisture)`: both conditions, strictly. */
  predicate CheckFallback(temp: real, moisture: real)
  {
    temp > 35.0 && moisture < 40.0
  }

  /** The boundary values themselves never set the flag. */
  lemma CheckFallbackStrict(temp: real, moisture: real)
    ensures !CheckFallback(35.0, moisture) && !CheckFallback(temp, 40.0)
  {
  }

  /** The data frame after the data set is loaded: its rows and, once added, the `fallback_active` column. */
  class Frame {
    var rows: seq<DataRow>
    var fallbackActive: seq<bool>

    constructor (data: seq<DataRow>)
      ensures rows == data && fallbackActive == []
    {
      rows := data;
      fallbackActive := [];
    }

    /** `df["fallback_active"] = df.apply(... check_fallback ...)` (lines 99-102). */
    method AddFallbackColumn()
      modifies this
      ensures rows == old(rows)
      ensures |fallbackActive| == |rows|
      ensures forall i :: 0 <= i < |rows| ==>
        fallbackActive[i] == CheckFallback(rows[i].temp, rows[i].moisture)
    {
      var data := rows;
      fallbackActive := seq(|data|, i requires 0 <= i < |data| => CheckFallback(data[i].temp, data[i].moisture));
    }
  }

  /**
   * The script from line 10 on: count the samples (raising on a zero
   * interval), build one row per index, load the rows into a frame and add
   * the `fallback_active` column.
   */
  method Simulate(hours: int, intervalMinutes: int, start: int, sin: real -> real, noise: seq<real>)
    returns (frame: Option<Frame>)
    requires intervalMinutes != 0 ==> |noise| >= 3 * RangeLength(NumSamples(hours, intervalMinutes).value)
    ensures frame.None? <==> intervalMinutes == 0
    ensures frame.Some? ==>
      var n := RangeLength(NumSamples(hours, intervalMinutes).value);
      && fresh(frame.value)
      && |frame.value.rows| == n && |frame.value.fallbackActive| == n
      && forall i :: 0 <= i < n ==>
        && frame.value.rows[i] == RowAt(i, n, start, intervalMinutes, sin, noise)
        && frame.value.fallbackActive[i] == CheckFallback(frame.value.rows[i].temp, frame.value.rows[i].moisture)
  {
    var count := NumSamples(hours, intervalMinutes);
    if count.None? {
      return None;
    }
    var n := RangeLength(count.value);
    var data := BuildDataset(n, start, intervalMinutes, sin, noise);
    var f := new Frame(data);
    f.AddFallbackColumn();
    frame := Some(f);
  }
}
