/** The chunk planner of `split_audio`: from the file's size, a ceiling in MiB
    and the total duration, either keep the file whole or cut it into equal
    segments that each fit under the ceiling. */
module Planner {

  import opened Wrappers
  import opened Errors

  const MiB: int := 1024 * 1024

  /** The default ceiling, in MiB. */
  const DefaultMaxSizeMb: int := 24

  /** The remote transcription endpoint's hard payload limit (25 MiB), which the
      default ceiling stays below as a safety margin. */
  const RemoteLimitBytes: int := 25 * MiB

  /** `max_size_mb * 1024 * 1024`. */
  function ByteCeiling(maxSizeMb: int): int {
    maxSizeMb * MiB
  }

  /** The default ceiling is 25165824 bytes, one MiB under the remote limit. */
  lemma DefaultCeiling()
    ensures ByteCeiling(DefaultMaxSizeMb) == 25165824
    ensures RemoteLimitBytes - ByteCeiling(DefaultMaxSizeMb) == MiB
  {
  }

  /** `math.ceil(a / b)`: the least integer `q` with `q >= a / b`, for a divisor
      of either sign. */
  function CeilDiv(a: nat, b: int): (q: int)
    requires b != 0
    ensures b > 0 ==> (q - 1) * b < a <= q * b
    ensures b < 0 ==> q * b <= a < (q - 1) * b
  {
    if b > 0 then
      var q := (a + b - 1) / b;
      var m := (a + b - 1) % b;
      assert a + b - 1 == q * b + m;
      assert (q - 1) * b == q * b - b;
      q
    else
      var d := a / -b;
      var m := a % -b;
      assert a == d * -b + m;
      assert -d * b == d * -b;
      assert (-d - 1) * b == -d * b - b;
      -d
  }

  /** The outcome of planning. */
  datatype ChunkPlan =
      /** The file is within the ceiling and is transcribed as it is. */
    | Whole
      /** The file is cut into `count` segments of `duration` seconds each. */
    | Segments(count: int, duration: real)

  /** More than one ceiling's worth of bytes needs at least two chunks. */
  lemma AtLeastTwo(a: nat, b: int, q: int)
    requires b > 0 && a > b && a <= q * b
    ensures q >= 2
  {
  }

  /** Below a negative ceiling the count is zero exactly when the file is
      smaller than the ceiling's magnitude. */
  lemma ZeroCount(a: nat, b: int, q: int)
    requires b < 0 && q * b <= a < (q - 1) * b
    ensures q == 0 <==> a < -b
  {
    if q <= -1 {
      assert (q - 1) * b >= -2 * b;
      assert q * b >= -b;
    }
  }

  /** Equal shares of a total add back up to it; a non-negative total gives
      shares between zero and the total. */
  lemma EqualShares(total: real, n: int)
    requires n != 0
    ensures (total / n as real) * n as real == total
    ensures n >= 1 && total >= 0.0 ==> 0.0 <= total / n as real <= total
  {
    var d := total / n as real;
    assert d * n as real == total;
  }

  /** The planning arithmetic of `split_audio`. Files within the ceiling are
      kept whole. Above a positive ceiling the chunk count is the least `n` with
      `n` ceilings holding the file, at least two, and the segments share the
      duration equally. A zero ceiling, or a negative one that makes the count
      zero, raises `ZeroDivisionError`. */
  function Plan(sizeBytes: nat, maxSizeMb: int, totalDuration: real): (r: Result<ChunkPlan, Error>)
    ensures r == Success(Whole) <==> sizeBytes <= ByteCeiling(maxSizeMb)
    ensures r.Failure? <==> sizeBytes > ByteCeiling(maxSizeMb) && (maxSizeMb == 0 || sizeBytes < -ByteCeiling(maxSizeMb))
    ensures r.Failure? ==> r.error == ZeroDivision
    ensures maxSizeMb > 0 && sizeBytes > ByteCeiling(maxSizeMb) ==>
      && r.Success? && r.value.Segments?
      && (r.value.count - 1) * ByteCeiling(maxSizeMb) < sizeBytes <= r.value.count * ByteCeiling(maxSizeMb)
      && r.value.count >= 2
    ensures r.Success? && r.value.Segments? ==> r.value.count != 0
    ensures r.Success? && r.value.Segments? ==> r.value.duration * r.value.count as real == totalDuration
    ensures r.Success? && r.value.Segments? && r.value.count > 0 && totalDuration >= 0.0 ==>
      0.0 <= r.value.duration <= totalDuration
  {
    var maxSize := ByteCeiling(maxSizeMb);
    if sizeBytes <= maxSize then
      Success(Whole)
    else if maxSize == 0 then
      Failure(ZeroDivision)
    else
      var n := CeilDiv(sizeBytes, maxSize);
      if maxSize > 0 then
        AtLeastTwo(sizeBytes, maxSize, n);
        EqualShares(totalDuration, n);
        Success(Segments(n, totalDuration / n as real))
      else
        ZeroCount(sizeBytes, maxSize, n);
        if n == 0 then Failure(ZeroDivision)
        else
          EqualShares(totalDuration, n);
          Success(Segments(n, totalDuration / n as real))
  }

  /** A 50 MiB file of 600 s under the default ceiling: three segments of 200 s. */
  lemma PlanFiftyMiB()
    ensures Plan(50 * MiB, DefaultMaxSizeMb, 600.0) == Success(Segments(3, 200.0))
  {
  }

  /** A 10 MiB file of 300 s under the default ceiling is kept whole. */
  lemma PlanTenMiB()
    ensures Plan(10 * MiB, DefaultMaxSizeMb, 300.0) == Success(Whole)
  {
  }
}
