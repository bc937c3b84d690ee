/**
 * The volume test both liquidity screens apply to a downloaded `Volume`
 * column: the NaN-skipping mean must reach `min_volume`, and the recorded
 * average is Python's `int()` of that mean.
 */
module Volume {
  import opened Wrappers
  import opened Stats

  /** Python's `int(x)` on a float: truncation toward zero. */
  function Truncate(x: real): (n: int)
    ensures 0.0 <= x ==> 0 <= n && n as real <= x < n as real + 1.0
    ensures x < 0.0 ==> n <= 0 && n as real - 1.0 < x <= n as real
  {
    if x >= 0.0 then x.Floor else -((-x).Floor)
  }

  /** Truncating a value that is at least the integer `m` gives at least `m`. */
  lemma TruncateKeepsLowerBound(x: real, m: int)
    requires m as real <= x
    ensures m <= Truncate(x)
  {
    var n := Truncate(x);
    if x >= 0.0 {
      assert m as real < n as real + 1.0;
    }
  }

  /** `volume.mean() >= min_volume`; an all-NaN mean is NaN and compares false. */
  predicate MeetsVolume(volumes: seq<Option<real>>, minVolume: int)
  {
    NanMean(volumes).Some? && NanMean(volumes).value >= minVolume as real
  }

  /** The recorded `avg_volume`: `int()` of the mean. */
  function AverageVolume(volumes: seq<Option<real>>, minVolume: int): (n: int)
    requires MeetsVolume(volumes, minVolume)
    ensures minVolume <= n
    ensures n == Truncate(NanMean(volumes).value)
  {
    var mean := NanMean(volumes).value;
    TruncateKeepsLowerBound(mean, minVolume);
    Truncate(mean)
  }
}
