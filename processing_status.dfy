/** The `ProcessingStatus` panel: progress percentage, elapsed-time display, the badge
    variant of a result status, and the elapsed-seconds counter driven by a one-second
    interval while the job is processing. Rendering is not modelled. */
module ProcessingStatus {
  import opened Wrappers
  import Text

  /** `getProgressPercentage`: 0 without a positive total, otherwise
      `Math.round(processed / total * 100)` in exact arithmetic; `Math.round` rounds halves up,
      which is `floor(x + 1/2)`. */
  function Progress(total: Option<int>, processed: int): int {
    if total.None? || total.value <= 0 then 0
    else (200 * processed + total.value) / (2 * total.value)
  }

  /** With a positive total, the percentage is the integer nearest to 100·processed/total,
      halves rounding up. */
  lemma ProgressIsRounded(total: int, processed: int)
    requires total > 0
    ensures var p := Progress(Some(total), processed);
            (p as real) - 0.5 <= 100.0 * (processed as real) / (total as real) < (p as real) + 0.5
  {
    var p := (200 * processed + total) / (2 * total);
    DivBounds(200 * processed + total, 2 * total);
    CastBounds(total, processed, p);
    RoundedReal(processed as real, total as real, p as real);
  }

  /** A count of processed students within the total gives a percentage within [0, 100],
      0 for none and 100 for all; more processed students never lower it. */
  lemma ProgressBounds(total: Option<int>, processed: int, more: int)
    requires 0 <= processed <= more
    requires total.Some? ==> more <= total.value
    ensures 0 <= Progress(total, processed) <= Progress(total, more) <= 100
    ensures processed == 0 ==> Progress(total, processed) == 0
    ensures total.Some? && total.value > 0 && processed == total.value ==> Progress(total, processed) == 100
  {
    if total.Some? && total.value > 0 {
      var t := total.value;
      DivMonotone(200 * processed + t, 200 * more + t, 2 * t);
      DivMonotone(200 * more + t, 201 * t, 2 * t);
      var q := 201 * t / (2 * t);
      DivBounds(201 * t, 2 * t);
      MulCancel(2 * t, q, 101);
      MulCancel(2 * t, 100, q + 1);
      if processed == 0 {
        var z := t / (2 * t);
        DivBounds(t, 2 * t);
        MulCancel(2 * t, z, 1);
        MulCancel(2 * t, 0, z + 1);
      }
    }
  }

  // ---------------------------------------------------------------- arithmetic helpers

  lemma DivBounds(n: int, d: int)
    requires d > 0
    ensures d * (n / d) <= n < d * (n / d + 1)
  {
  }

  lemma MulCancel(d: int, x: int, y: int)
    requires d > 0 && d * x < d * y
    ensures x < y
  {
  }

  lemma DivMonotone(a: int, b: int, d: int)
    requires 0 <= a <= b && d > 0
    ensures 0 <= a / d <= b / d
  {
    var qa, qb := a / d, b / d;
    assert d * qa <= a;
    assert b < d * (qb + 1);
    MulCancel(d, qa, qb + 1);
  }

  lemma CastMul(a: int, b: int)
    ensures (a * b) as real == (a as real) * (b as real)
  {
  }

  lemma CastBounds(total: int, processed: int, p: int)
    requires 2 * total * p <= 200 * processed + total < 2 * total * (p + 1)
    ensures 2.0 * (total as real) * (p as real) <= 200.0 * (processed as real) + total as real
            < 2.0 * (total as real) * (p as real + 1.0)
  {
    CastMul(2 * total, p);
    CastMul(2 * total, p + 1);
  }

  lemma RealCancel(t: real, a: real, b: real)
    requires t > 0.0 && t * a <= t * b
    ensures a <= b
  {
  }

  lemma RealCancelStrict(t: real, a: real, b: real)
    requires t > 0.0 && t * a < t * b
    ensures a < b
  {
  }

  lemma RoundedReal(P: real, T: real, p: real)
    requires T > 0.0
    requires 2.0 * T * p <= 200.0 * P + T < 2.0 * T * (p + 1.0)
    ensures p - 0.5 <= 100.0 * P / T < p + 0.5
  {
    var x := 100.0 * P / T;
    assert x * T == 100.0 * P;
    var u := 2.0 * T;
    assert u * (x + 0.5) == 2.0 * (x * T) + T;
    assert u * p == 2.0 * T * p;
    assert u * (p + 1.0) == 2.0 * T * (p + 1.0);
    var y := x + 0.5;
    var A, C, E := u * p, u * y, u * (p + 1.0);
    assert A <= 200.0 * P + T;
    assert C == 200.0 * P + T;
    assert 200.0 * P + T < E;
    RealCancel(u, p, y);
    RealCancelStrict(u, y, p + 1.0);
  }

  /** `formatTime`: minutes, a colon, and the seconds padded to two digits. */
  function FormatTime(seconds: nat): string {
    var mins := seconds / 60;
    var secs := seconds % 60;
    Text.NatToString(mins) + ":" + Padded(secs)
  }

  /** The display reads back as the same number of seconds: the digits before the colon are
      the minutes, the two digits after it the seconds below 60. */
  lemma FormatTimeParse(seconds: nat)
    ensures var t := FormatTime(seconds);
            var c := |Text.NatToString(seconds / 60)|;
            |t| == c + 3 && t[c] == ':'
            && (forall k :: 0 <= k < |t| && k != c ==> Text.IsDigit(t[k]))
            && 60 * Text.ParseDigits(t[..c]) + Text.ParseDigits(t[c + 1..]) == seconds
  {
    var m := Text.NatToString(seconds / 60);
    var tail := Padded(seconds % 60);
    var t := FormatTime(seconds);
    assert t == m + ":" + tail;
    assert t[..|m|] == m;
    assert t[|m| + 1..] == tail;
    Text.ParseNatToString(seconds / 60);
    PaddedDigits(seconds % 60);
  }

  function Padded(secs: nat): string {
    (if secs < 10 then "0" else "") + Text.NatToString(secs)
  }

  lemma PaddedDigits(secs: nat)
    requires secs < 60
    ensures |Padded(secs)| == 2 && Text.IsDigit(Padded(secs)[0]) && Text.IsDigit(Padded(secs)[1])
    ensures Text.ParseDigits(Padded(secs)) == secs
  {
    var tail := Padded(secs);
    Text.ParseNatToString(secs);
    if secs < 10 {
      assert tail == ['0', Text.DigitChar(secs)];
      assert tail[..1] == "0";
    } else {
      assert Text.NatToString(secs) == Text.NatToString(secs / 10) + [Text.DigitChar(secs % 10)];
    }
  }

  /** `getStatusVariant`: the badge colour of a result status. */
  function StatusVariant(status: string): (v: string)
    ensures v == "secondary" <==> status !in ["Success", "Partial Success", "Failure"]
  {
    if status == "Success" then "success"
    else if status == "Partial Success" then "warning"
    else if status == "Failure" then "danger"
    else "secondary"
  }

  /** The seconds counted while `statuses` (the job status at each tick) are shown: only
      ticks during `processing` count. */
  function ProcessingSeconds(statuses: seq<Option<string>>): (n: nat)
    ensures n <= |statuses|
  {
    if statuses == [] then 0
    else ProcessingSeconds(statuses[..|statuses| - 1]) + (if statuses[|statuses| - 1] == Some("processing") then 1 else 0)
  }

  /** Every tick during processing counts, and none outside it. */
  lemma {:induction false} ProcessingSecondsExtremes(statuses: seq<Option<string>>)
    ensures (forall k :: 0 <= k < |statuses| ==> statuses[k] == Some("processing")) ==> ProcessingSeconds(statuses) == |statuses|
    ensures (forall k :: 0 <= k < |statuses| ==> statuses[k] != Some("processing")) ==> ProcessingSeconds(statuses) == 0
  {
    if statuses != [] {
      ProcessingSecondsExtremes(statuses[..|statuses| - 1]);
    }
  }

  /** The elapsed-seconds state. It starts at 0 and is never reset while the panel stays
      mounted, even when a new job's data arrives. */
  class ElapsedCounter {
    var elapsed: nat

    constructor ()
      ensures elapsed == 0
    {
      elapsed := 0;
    }

    /** One interval tick: the timer only runs while the data says `processing`. */
    method Tick(status: Option<string>)
      modifies this
      ensures elapsed == old(elapsed) + (if status == Some("processing") then 1 else 0)
    {
      if status == Some("processing") {
        elapsed := elapsed + 1;
      }
    }

    /** A run of one-second ticks. */
    method Run(statuses: seq<Option<string>>)
      modifies this
      ensures elapsed == old(elapsed) + ProcessingSeconds(statuses)
    {
      var i := 0;
      while i < |statuses|
        invariant 0 <= i <= |statuses|
        invariant elapsed == old(elapsed) + ProcessingSeconds(statuses[..i])
      {
        assert statuses[..i + 1][..i] == statuses[..i];
        Tick(statuses[i]);
        i := i + 1;
      }
      assert statuses[..i] == statuses;
    }
  }
}
