/**
 * The wait at the end of each tick (src/main.rs:130-135): one second minus
 * the sub-second part of the current time since the Unix epoch, so that the
 * next tick starts on a whole second.
 */
module Schedule {

  import opened Options

  const NanosPerSec: nat := 1_000_000_000

  /** Rust's `Duration`: whole seconds and a nanosecond part. */
  datatype Duration = Duration(secs: nat, nanos: nat)

  /** Every `Duration` Rust builds keeps its nanosecond part below one second. */
  predicate Valid(d: Duration) {
    d.nanos < NanosPerSec
  }

  function TotalNanos(d: Duration): nat {
    d.secs * NanosPerSec + d.nanos
  }

  /** `Duration::new`: whole seconds in the nanosecond argument are carried into the seconds. */
  function NewDuration(secs: nat, nanos: nat): (d: Duration)
    ensures Valid(d) && TotalNanos(d) == secs * NanosPerSec + nanos
  {
    Duration(secs + nanos / NanosPerSec, nanos % NanosPerSec)
  }

  /**
   * `Duration::checked_sub`: None when the result would be negative. The `-`
   * operator used in src/main.rs:133-134 panics exactly where this is None.
   */
  function CheckedSub(a: Duration, b: Duration): (r: Option<Duration>)
    requires Valid(a) && Valid(b)
    ensures r.Some? <==> TotalNanos(a) >= TotalNanos(b)
    ensures r.Some? ==> Valid(r.value) && TotalNanos(r.value) == TotalNanos(a) - TotalNanos(b)
  {
    if a.secs < b.secs then None
    else
      var secs := a.secs - b.secs;
      if a.nanos >= b.nanos then Some(NewDuration(secs, a.nanos - b.nanos))
      else if secs >= 1 then Some(NewDuration(secs - 1, a.nanos + NanosPerSec - b.nanos))
      else None
  }

  /** `subsec_nanos()`. */
  function SubsecNanos(d: Duration): nat {
    d.nanos
  }

  /** `Duration::new(1, 0) - Duration::new(0, since_epoch.subsec_nanos())`, None standing for the panic. */
  function DelayToNextSecond(sinceEpoch: Duration): Option<Duration> {
    CheckedSub(NewDuration(1, 0), NewDuration(0, SubsecNanos(sinceEpoch)))
  }

  /**
   * The subtraction never panics; the delay is one second minus the
   * sub-second part, so it lies in [1 ns, 1 s] (never zero or negative, so no
   * clamp is needed); it ends exactly at the start of the next whole second;
   * and at a whole second it is a full second.
   */
  lemma DelaySpec(sinceEpoch: Duration)
    requires Valid(sinceEpoch)
    ensures DelayToNextSecond(sinceEpoch).Some?
    ensures var d := DelayToNextSecond(sinceEpoch).value;
      Valid(d)
      && TotalNanos(d) == NanosPerSec - sinceEpoch.nanos
      && 1 <= TotalNanos(d) <= NanosPerSec
      && TotalNanos(sinceEpoch) + TotalNanos(d) == (sinceEpoch.secs + 1) * NanosPerSec
      && (sinceEpoch.nanos == 0 ==> d == Duration(1, 0))
  {
    var one, part := NewDuration(1, 0), NewDuration(0, sinceEpoch.nanos);
    assert TotalNanos(part) == sinceEpoch.nanos;
    var d := CheckedSub(one, part).value;
    if sinceEpoch.nanos == 0 {
      assert TotalNanos(d) == NanosPerSec;
      assert d.secs == 1 && d.nanos == 0;
    }
  }
}
