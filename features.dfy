/**
 * The per-ticker part of `pick_stocks` (`modules/stock_data.py`): the MA20
 * column and the cascade of gates over a ticker's last 10 and last 5 rows,
 * producing one candidate record or nothing.
 *
 * Volatility is `std / mean · 100` with pandas' sample standard deviation.
 * Reals have no square root, so the model carries the volatility SQUARED
 * (`var / mean² · 10000`) and states both gates that use it in squared form;
 * `VolatilityGatesExact` shows the squared gates decide exactly as the
 * original ones do.
 */
module Features {
  import opened Wrappers
  import opened PriceData
  import opened Stats

  /** Rows in the rolling MA window (`rolling(20, min_periods=20)`). */
  const MaWindow: nat := 20
  const MinRows: nat := 10
  const MinAvgVolume: real := 1000000.0
  const MinAvgRange: real := 0.5
  const MaxSlope: real := 2.0
  /** The volatility cap of 8 %, squared. */
  const MaxVolatilitySq: real := 64.0
  /** The floor of the dynamic distance cap, 3 %. */
  const MinDistanceCap: real := 3.0
  /** The volatility reported when the mean close is not positive: 999, squared. */
  const NoMeanVolatilitySq: real := 998001.0

  /** One row of the `results` list of `pick_stocks`. */
  datatype Candidate = Candidate(
    code: string,
    close: real,
    ma20: real,
    distance: real,
    volatilitySq: real,
    ma20Slope: real,
    maxDistanceSq: real,
    volume: nat,
    avgVolume10d: real,
    avgMa20Distance: real,
    isLowestClose: bool)

  // ----- Columns --------------------------------------------------------------

  function Closes(bars: seq<Bar>): (r: seq<real>)
    ensures |r| == |bars|
    ensures forall i :: 0 <= i < |bars| ==> r[i] == bars[i].close
  {
    seq(|bars|, i requires 0 <= i < |bars| => bars[i].close as real)
  }

  function Volumes(bars: seq<Bar>): (r: seq<real>)
    ensures |r| == |bars|
  {
    seq(|bars|, i requires 0 <= i < |bars| => bars[i].volume as real)
  }

  /** The `high - low` column. */
  function Ranges(bars: seq<Bar>): (r: seq<real>)
    ensures |r| == |bars|
  {
    seq(|bars|, i requires 0 <= i < |bars| => bars[i].high - bars[i].low)
  }

  /** `(open + close) / 2`. */
  function Mid(b: Bar): real
  {
    (b.open + b.close) / 2.0
  }

  /** The sum of the closes of rows `lo..hi-1`. */
  function CloseSum(bars: seq<Bar>, lo: nat, hi: nat): (r: real)
    requires lo <= hi <= |bars|
    ensures lo < hi ==> r > 0.0
    decreases hi - lo
  {
    if lo == hi then 0.0 else CloseSum(bars, lo, hi - 1) + bars[hi - 1].close
  }

  /** `close.rolling(20, min_periods=20).mean()` at row `i`: the mean close of rows `i-19..i`. */
  function Ma20(bars: seq<Bar>, i: nat): (m: Option<real>)
    requires i < |bars|
    ensures m.Some? ==> m.value > 0.0
  {
    if i + 1 < MaWindow then None
    else Some(CloseSum(bars, i + 1 - MaWindow, i + 1) / MaWindow as real)
  }

  /** The `ma20` column that `add_feat` attaches to a ticker's rows. */
  function Ma20Column(bars: seq<Bar>): (col: seq<Option<real>>)
    ensures |col| == |bars|
  {
    seq(|bars|, i requires 0 <= i < |bars| => Ma20(bars, i))
  }

  /** The sample variance of `closes` over the squared mean, times 100²; 999² for a non-positive mean. */
  function VolatilitySq(closes: seq<real>): real
    requires |closes| >= 2
  {
    var m := Mean(closes);
    if m > 0.0 then
      var variance := SquaredDeviations(closes, m) / (|closes| - 1) as real;
      variance / (m * m) * 10000.0
    else NoMeanVolatilitySq
  }

  // ----- The gates of one ticker ---------------------------------------------

  /** `last_5["ma20"].isna().any()`. */
  predicate MaMissing(ma: seq<Option<real>>)
  {
    exists j :: 0 <= j < |ma| && ma[j].None?
  }

  /**
   * The cascade of `pick_stocks` for one ticker whose rows are in date order:
   * `None` at the first gate that fails (the `continue`s), else the record
   * appended to `results`.
   */
  function Evaluate(code: string, bars: seq<Bar>): (r: Option<Candidate>)
  {
    var n := |bars|;
    if n < MinRows then None
    else if Mean(Volumes(bars[n - 10..])) < MinAvgVolume then None
    else
      var ma := Ma20Column(bars)[n - 5..];
      if MaMissing(ma) then None
      else Assess(code, bars[n - 10..], bars[n - 5..], seq(5, j requires 0 <= j < 5 => ma[j].value))
  }

  /** The gates after the MA20 check, on the last 10 rows and the last 5 MA20 values. */
  function Assess(code: string, last10: seq<Bar>, last5: seq<Bar>, ma5: seq<real>): (r: Option<Candidate>)
    requires |last10| == 10 && |last5| == 5 && |ma5| == 5
    requires forall j :: 0 <= j < 5 ==> ma5[j] > 0.0
  {
    if !(forall j :: 0 <= j < 5 ==> Mid(last5[j]) > ma5[j]) then None
    else if Mean(Ranges(last10)) <= MinAvgRange then None
    else
      var slope := (ma5[4] - ma5[0]) / 4.0;
      if slope >= MaxSlope then None
      else
        var volSq := VolatilitySq(Closes(last5));
        if volSq > MaxVolatilitySq then None
        else
          var distance := Mean(Distances(last5, ma5));
          if distance > MinDistanceCap && distance * distance > 2.25 * volSq then None
          else
            Some(Candidate(
              code := code,
              close := last5[4].close,
              ma20 := ma5[4],
              distance := distance,
              volatilitySq := volSq,
              ma20Slope := slope,
              maxDistanceSq := Max(MinDistanceCap * MinDistanceCap, 2.25 * volSq),
              volume := last5[4].volume,
              avgVolume10d := Mean(Volumes(last10)),
              avgMa20Distance := Mean(MaGaps(last5, ma5)),
              isLowestClose := last5[4].close == Min(Closes(last5))))
  }

  /** `(min(open, close) - ma20) / ma20 · 100` on each row. */
  function Distances(rows: seq<Bar>, ma: seq<real>): (r: seq<real>)
    requires |rows| == |ma|
    requires forall j :: 0 <= j < |ma| ==> ma[j] > 0.0
    ensures |r| == |rows|
  {
    seq(|rows|, j requires 0 <= j < |rows| => (MinOf(rows[j].open, rows[j].close) - ma[j]) / ma[j] * 100.0)
  }

  /** `abs((open + close) / 2 - ma20)` on each row. */
  function MaGaps(rows: seq<Bar>, ma: seq<real>): (r: seq<real>)
    requires |rows| == |ma|
    ensures |r| == |rows|
  {
    seq(|rows|, j requires 0 <= j < |rows| => Abs(Mid(rows[j]) - ma[j]))
  }

  // ----- The gates stated on row indices --------------------------------------

  /** The MA20 of the last row at or after a first defined MA20 five rows back. */
  function Slope(bars: seq<Bar>): real
    requires |bars| >= MaWindow + 4
  {
    var n := |bars|;
    (Ma20(bars, n - 1).value - Ma20(bars, n - 5).value) / 4.0
  }

  function LastFiveMa(bars: seq<Bar>): (ma5: seq<real>)
    requires |bars| >= MaWindow + 4
    ensures |ma5| == 5
    ensures forall j :: 0 <= j < 5 ==> ma5[j] == Ma20(bars, |bars| - 5 + j).value && ma5[j] > 0.0
  {
    var n := |bars|;
    seq(5, j requires 0 <= j < 5 => Ma20(bars, n - 5 + j).value)
  }

  /** `d <= max(3, 1.5 · volatility)`, on the squared volatility. */
  predicate WithinDistanceCap(d: real, volSq: real)
  {
    d <= MinDistanceCap || d * d <= 2.25 * volSq
  }

  /**
   * Every gate of the screen, on row indices: 24 rows at least (10 rows and
   * an MA20 on each of the last 5), the 10-day mean volume at least 1,000,000,
   * each of the last 5 rows' `(open+close)/2` strictly above its MA20, a slope
   * below 2, and the range, volatility and distance gates of `RiskGates`.
   */
  predicate Qualifies(bars: seq<Bar>)
  {
    var n := |bars|;
    && n >= MaWindow + 4
    && Mean(Volumes(bars[n - 10..])) >= MinAvgVolume
    && (forall i :: n - 5 <= i < n ==> Mid(bars[i]) > Ma20(bars, i).value)
    && Slope(bars) < MaxSlope
    && RiskGates(bars[n - 10..], bars[n - 5..], LastFiveMa(bars))
  }

  /**
   * The 10-day mean `high - low` above 0.5, the volatility at most 8 %, and
   * the mean distance from the MA20 within `max(3, 1.5 · volatility)`.
   */
  predicate RiskGates(last10: seq<Bar>, last5: seq<Bar>, ma5: seq<real>)
    requires |last10| == 10 && |last5| == 5 && |ma5| == 5
    requires forall j :: 0 <= j < 5 ==> ma5[j] > 0.0
  {
    && Mean(Ranges(last10)) > MinAvgRange
    && VolatilitySq(Closes(last5)) <= MaxVolatilitySq
    && WithinDistanceCap(Mean(Distances(last5, ma5)), VolatilitySq(Closes(last5)))
  }

  /** What the record of a qualifying ticker holds, field by field. */
  predicate Describes(code: string, bars: seq<Bar>, c: Candidate)
    requires |bars| >= MaWindow + 4
  {
    var n := |bars|;
    var last := bars[n - 1];
    && c.code == code
    && c.close == last.close
    && c.volume == last.volume
    && c.ma20 == Ma20(bars, n - 1).value
    && c.ma20Slope == Slope(bars)
    && (c.isLowestClose <==> forall i :: n - 5 <= i < n ==> last.close <= bars[i].close)
    && WindowStats(bars[n - 10..], bars[n - 5..], LastFiveMa(bars), c)
  }

  /**
   * The averaged fields of a record: 10-day mean volume, squared volatility,
   * mean distance from the MA20, the squared cap on it, and the mean gap
   * between `(open+close)/2` and the MA20.
   */
  predicate WindowStats(last10: seq<Bar>, last5: seq<Bar>, ma5: seq<real>, c: Candidate)
    requires |last10| == 10 && |last5| == 5 && |ma5| == 5
    requires forall j :: 0 <= j < 5 ==> ma5[j] > 0.0
  {
    && c.avgVolume10d == Mean(Volumes(last10))
    && c.volatilitySq == VolatilitySq(Closes(last5))
    && c.distance == Mean(Distances(last5, ma5))
    && c.maxDistanceSq == Max(9.0, 2.25 * c.volatilitySq)
    && c.avgMa20Distance == Mean(MaGaps(last5, ma5))
  }

  /** The gates a record itself shows it has passed. */
  predicate Admissible(c: Candidate)
  {
    && c.avgVolume10d >= MinAvgVolume
    && c.ma20Slope < MaxSlope
    && c.volatilitySq <= MaxVolatilitySq
    && WithinDistanceCap(c.distance, c.volatilitySq)
    && (c.distance <= MinDistanceCap || c.distance * c.distance <= c.maxDistanceSq)
    && c.ma20 > 0.0
  }

  // ----- Lemmas ---------------------------------------------------------------

  /** With at least 10 rows, the MA20 is missing on one of the last 5 rows exactly when there are fewer than 24. */
  lemma WarmUp(bars: seq<Bar>)
    requires |bars| >= MinRows
    ensures MaMissing(Ma20Column(bars)[|bars| - 5..]) <==> |bars| < MaWindow + 4
  {
    var n := |bars|;
    var ma := Ma20Column(bars)[n - 5..];
    if n < MaWindow + 4 {
      assert ma[0] == Ma20(bars, n - 5);
    } else {
      forall j | 0 <= j < 5 ensures ma[j].Some? {
        assert ma[j] == Ma20(bars, n - 5 + j);
      }
    }
  }

  /** Past the warm-up, the MA20 values `Evaluate` hands on are the index-based ones. */
  lemma Windows(bars: seq<Bar>)
    requires |bars| >= MaWindow + 4
    ensures var ma := Ma20Column(bars)[|bars| - 5..];
      seq(5, j requires 0 <= j < 5 => ma[j].value) == LastFiveMa(bars)
  {
  }

  /** The gates `Assess` applies, on the windows it is given. */
  predicate WindowGates(last10: seq<Bar>, last5: seq<Bar>, ma5: seq<real>)
    requires |last10| == 10 && |last5| == 5 && |ma5| == 5
    requires forall j :: 0 <= j < 5 ==> ma5[j] > 0.0
  {
    && (forall j :: 0 <= j < 5 ==> Mid(last5[j]) > ma5[j])
    && (ma5[4] - ma5[0]) / 4.0 < MaxSlope
    && RiskGates(last10, last5, ma5)
  }

  /** The record `Assess` builds, on the windows it is given. */
  predicate WindowDescribes(code: string, last10: seq<Bar>, last5: seq<Bar>, ma5: seq<real>, c: Candidate)
    requires |last10| == 10 && |last5| == 5 && |ma5| == 5
    requires forall j :: 0 <= j < 5 ==> ma5[j] > 0.0
  {
    && c.code == code
    && c.close == last5[4].close
    && c.volume == last5[4].volume
    && c.ma20 == ma5[4]
    && c.ma20Slope == (ma5[4] - ma5[0]) / 4.0
    && c.isLowestClose == (last5[4].close == Min(Closes(last5)))
    && WindowStats(last10, last5, ma5, c)
  }

  lemma AssessSpec(code: string, last10: seq<Bar>, last5: seq<Bar>, ma5: seq<real>)
    requires |last10| == 10 && |last5| == 5 && |ma5| == 5
    requires forall j :: 0 <= j < 5 ==> ma5[j] > 0.0
    ensures Assess(code, last10, last5, ma5).Some? <==> WindowGates(last10, last5, ma5)
    ensures Assess(code, last10, last5, ma5).Some? ==>
      WindowDescribes(code, last10, last5, ma5, Assess(code, last10, last5, ma5).value)
  {
  }

  /** Past the warm-up and the volume gate, `Evaluate` is `Assess` on the last windows. */
  lemma EvaluateByWindows(code: string, bars: seq<Bar>)
    requires |bars| >= MaWindow + 4
    requires Mean(Volumes(bars[|bars| - 10..])) >= MinAvgVolume
    ensures Evaluate(code, bars) == Assess(code, bars[|bars| - 10..], bars[|bars| - 5..], LastFiveMa(bars))
  {
    WarmUp(bars);
    Windows(bars);
  }

  /** Past the warm-up, the window gates with the volume gate are `Qualifies`. */
  lemma QualifiesByWindows(bars: seq<Bar>)
    requires |bars| >= MaWindow + 4
    ensures WindowGates(bars[|bars| - 10..], bars[|bars| - 5..], LastFiveMa(bars)) && Mean(Volumes(bars[|bars| - 10..])) >= MinAvgVolume
      <==> Qualifies(bars)
  {
    AboveMa(bars);
  }

  /** Past the warm-up, the record built on the windows describes the ticker's last rows. */
  lemma DescribesByWindows(code: string, bars: seq<Bar>, c: Candidate)
    requires |bars| >= MaWindow + 4
    ensures WindowDescribes(code, bars[|bars| - 10..], bars[|bars| - 5..], LastFiveMa(bars), c) ==> Describes(code, bars, c)
  {
    LowestClose(bars);
  }

  /** Too few rows, or too little volume: no record, and the gates fail. */
  lemma ShortCircuit(code: string, bars: seq<Bar>)
    requires !(|bars| >= MaWindow + 4 && Mean(Volumes(bars[|bars| - 10..])) >= MinAvgVolume)
    ensures Evaluate(code, bars).None? && !Qualifies(bars)
  {
    if |bars| >= MinRows && Mean(Volumes(bars[|bars| - 10..])) >= MinAvgVolume {
      WarmUp(bars);
    }
  }

  /**
   * `Evaluate` yields a record exactly for a ticker that passes every gate,
   * and that record describes the ticker's last rows.
   */
  lemma EvaluateSpec(code: string, bars: seq<Bar>)
    ensures Evaluate(code, bars).Some? <==> Qualifies(bars)
    ensures Evaluate(code, bars).Some? ==> Describes(code, bars, Evaluate(code, bars).value)
  {
    var n := |bars|;
    if n >= MaWindow + 4 && Mean(Volumes(bars[n - 10..])) >= MinAvgVolume {
      EvaluateLong(code, bars);
    } else {
      ShortCircuit(code, bars);
    }
  }

  lemma EvaluateLong(code: string, bars: seq<Bar>)
    requires |bars| >= MaWindow + 4 && Mean(Volumes(bars[|bars| - 10..])) >= MinAvgVolume
    ensures Evaluate(code, bars).Some? <==> Qualifies(bars)
    ensures Evaluate(code, bars).Some? ==> Describes(code, bars, Evaluate(code, bars).value)
  {
    var n := |bars|;
    EvaluateByWindows(code, bars);
    AssessSpec(code, bars[n - 10..], bars[n - 5..], LastFiveMa(bars));
    QualifiesByWindows(bars);
    RecordByWindows(code, bars);
  }

  lemma RecordByWindows(code: string, bars: seq<Bar>)
    requires |bars| >= MaWindow + 4
    ensures var r := Assess(code, bars[|bars| - 10..], bars[|bars| - 5..], LastFiveMa(bars));
      r.Some? ==> WindowDescribes(code, bars[|bars| - 10..], bars[|bars| - 5..], LastFiveMa(bars), r.value) ==> Describes(code, bars, r.value)
  {
    var r := Assess(code, bars[|bars| - 10..], bars[|bars| - 5..], LastFiveMa(bars));
    if r.Some? {
      DescribesByWindows(code, bars, r.value);
    }
  }

  /** The MA test of `Assess` on the window is the index-based one. */
  lemma AboveMa(bars: seq<Bar>)
    requires |bars| >= MaWindow + 4
    ensures var n := |bars|; var last5 := bars[n - 5..]; var ma5 := LastFiveMa(bars);
      (forall j :: 0 <= j < 5 ==> Mid(last5[j]) > ma5[j])
        <==> (forall i :: n - 5 <= i < n ==> Mid(bars[i]) > Ma20(bars, i).value)
  {
    var n := |bars|;
    var last5 := bars[n - 5..];
    var ma5 := LastFiveMa(bars);
    if forall j :: 0 <= j < 5 ==> Mid(last5[j]) > ma5[j] {
      forall i | n - 5 <= i < n ensures Mid(bars[i]) > Ma20(bars, i).value {
        assert last5[i - (n - 5)] == bars[i];
      }
    }
  }

  /** `close == min(last 5 closes)` means the last close is at most each of them. */
  lemma LowestClose(bars: seq<Bar>)
    requires |bars| >= 5
    ensures var n := |bars|;
      (bars[n - 1].close == Min(Closes(bars[n - 5..]))) <==> forall i :: n - 5 <= i < n ==> bars[n - 1].close <= bars[i].close
  {
    var n := |bars|;
    var cs := Closes(bars[n - 5..]);
    assert cs[4] == bars[n - 1].close;
    if forall i :: n - 5 <= i < n ==> bars[n - 1].close <= bars[i].close {
      var m := Min(cs);
      var j :| 0 <= j < 5 && cs[j] == m;
      assert cs[j] == bars[n - 5 + j].close;
    } else {
      var i :| n - 5 <= i < n && bars[n - 1].close > bars[i].close;
      assert cs[i - (n - 5)] == bars[i].close;
    }
  }

  /** Every record the cascade yields shows the gates it passed. */
  lemma EvaluateAdmissible(code: string, bars: seq<Bar>)
    ensures Evaluate(code, bars).Some? ==>
      Admissible(Evaluate(code, bars).value) && Evaluate(code, bars).value.code == code
  {
    var n := |bars|;
    if n >= MaWindow + 4 && Mean(Volumes(bars[n - 10..])) >= MinAvgVolume {
      EvaluateByWindows(code, bars);
      AssessAdmissible(code, bars[n - 10..], bars[n - 5..], LastFiveMa(bars));
    } else {
      ShortCircuit(code, bars);
    }
  }

  lemma AssessAdmissible(code: string, last10: seq<Bar>, last5: seq<Bar>, ma5: seq<real>)
    requires |last10| == 10 && |last5| == 5 && |ma5| == 5
    requires forall j :: 0 <= j < 5 ==> ma5[j] > 0.0
    requires Mean(Volumes(last10)) >= MinAvgVolume
    ensures Assess(code, last10, last5, ma5).Some? ==>
      Admissible(Assess(code, last10, last5, ma5).value) && Assess(code, last10, last5, ma5).value.code == code
  {
    var r := Assess(code, last10, last5, ma5);
    if r.Some? {
      DistanceCapSquared(r.value.distance, r.value.volatilitySq);
    }
  }

  lemma DistanceCapSquared(d: real, volSq: real)
    requires WithinDistanceCap(d, volSq)
    ensures d <= MinDistanceCap || d * d <= Max(9.0, 2.25 * volSq)
  {
  }

  /** A ticker with fewer than 24 rows is never selected: its MA20 is missing on a last-5 row. */
  lemma FewRowsExcluded(code: string, bars: seq<Bar>)
    requires |bars| < MaWindow + 4
    ensures Evaluate(code, bars) == None
  {
    EvaluateSpec(code, bars);
  }

  /**
   * For the true volatility `vol` (a non-negative root of `volSq`), the squared
   * gates decide as the original ones: `vol <= 8`, and `d <= max(3, 1.5 · vol)`.
   */
  lemma VolatilityGatesExact(vol: real, volSq: real, d: real)
    requires vol >= 0.0 && vol * vol == volSq
    ensures vol <= 8.0 <==> volSq <= MaxVolatilitySq
    ensures d <= Max(MinDistanceCap, 1.5 * vol) <==> WithinDistanceCap(d, volSq)
  {
    if vol <= 8.0 {
      assert vol * vol <= 8.0 * vol <= 64.0;
    } else {
      assert vol * vol > 8.0 * vol > 64.0;
    }
    var cap := 1.5 * vol;
    assert cap * cap == 2.25 * volSq;
    if d > MinDistanceCap {
      if d <= cap {
        assert d * d <= d * cap <= cap * cap;
      } else {
        assert d * d > d * cap >= cap * cap;
      }
    }
  }

  /** A sum of closes each between `lo` and `hi` lies between `(hi-lo rows)·lo` and `·hi`. */
  lemma {:induction false} CloseSumBounds(bars: seq<Bar>, a: nat, b: nat, lo: real, hi: real)
    requires a <= b <= |bars|
    requires forall t :: a <= t < b ==> lo <= bars[t].close <= hi
    ensures (b - a) as real * lo <= CloseSum(bars, a, b) <= (b - a) as real * hi
    decreases b - a
  {
    if a < b {
      CloseSumBounds(bars, a, b - 1, lo, hi);
      Distribute((b - 1 - a) as real, lo);
      Distribute((b - 1 - a) as real, hi);
    }
  }

  /** The MA20 lies between the smallest and largest close of its 20-row window. */
  lemma Ma20Bounds(bars: seq<Bar>, i: nat, lo: real, hi: real)
    requires MaWindow <= i + 1 <= |bars|
    requires forall t :: i + 1 - MaWindow <= t <= i ==> lo <= bars[t].close <= hi
    ensures lo <= Ma20(bars, i).value <= hi
  {
    CloseSumBounds(bars, i + 1 - MaWindow, i + 1, lo, hi);
  }

  /** Dropping the first row of a non-empty range takes its close off the sum. */
  lemma {:induction false} CloseSumDropFirst(bars: seq<Bar>, a: nat, b: nat)
    requires a < b <= |bars|
    ensures CloseSum(bars, a, b) == bars[a].close + CloseSum(bars, a + 1, b)
    decreases b - a
  {
    if a + 1 < b {
      CloseSumDropFirst(bars, a, b - 1);
    }
  }

  /** Rolling forward one row adds the new close and drops the oldest, each weighted 1/20. */
  lemma Ma20Step(bars: seq<Bar>, i: nat)
    requires MaWindow <= i + 1 && i + 1 < |bars|
    ensures Ma20(bars, i + 1).value == Ma20(bars, i).value + (bars[i + 1].close - bars[i + 1 - MaWindow].close) / 20.0
  {
    CloseSumDropFirst(bars, i + 1 - MaWindow, i + 1);
    CloseSumDropFirst(bars, i + 2 - MaWindow, i + 2);
    assert CloseSum(bars, i + 2 - MaWindow, i + 2) == CloseSum(bars, i + 2 - MaWindow, i + 1) + bars[i + 1].close;
  }
}
