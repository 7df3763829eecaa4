// The polling loops of await_exists and await_port: exponential backoff with a
// cap, inside a Timer.
module Backoff {
  import opened Common

  // The loop's sleeping period after n failed probes.
  function Period(n: nat): real {
    if n == 0 then 0.03125 else Min(1.0, 2.0 * Period(n - 1))
  }

  function Min(a: real, b: real): real {
    if b < a then b else a
  }

  // The time of probe n, when probes take no time.
  function ProbeTime(n: nat): real {
    if n == 0 then 0.0 else ProbeTime(n - 1) + Period(n - 1)
  }

  function Pow2(n: nat): int {
    if n == 0 then 1 else 2 * Pow2(n - 1)
  }

  lemma {:induction false} PeriodIs(n: nat)
    ensures Period(n) == if n <= 5 then Pow2(n) as real / 32.0 else 1.0
  {
    if n > 0 {
      PeriodIs(n - 1);
      assert Pow2(5) == 32;
    }
  }

  // The sum of the periods doubles up to the fifth failure and then grows by
  // one second at a time.
  lemma {:induction false} ProbeTimeIs(n: nat)
    ensures ProbeTime(n) == if n <= 5 then (Pow2(n) - 1) as real / 32.0 else 31.0 / 32.0 + (n - 5) as real
  {
    if n > 0 {
      ProbeTimeIs(n - 1);
      PeriodIs(n - 1);
      assert Pow2(5) == 32;
    }
  }

  // Each wait is at most as long as everything before it and a tick.
  lemma {:induction false} PeriodBounded(n: nat)
    ensures 0.03125 <= Period(n) <= Min(1.0, ProbeTime(n) + 0.03125)
  {
    if n > 0 {
      PeriodBounded(n - 1);
    }
  }

  datatype Ending = Noticed(time: real) | TimedOut(time: real)

  // What is awaited becomes true at readyAt and stays true.  The alarm cuts a
  // sleep short at the timeout.
  method Await(readyAt: real, timeout: Option<real>) returns (e: Ending, ghost failed: nat)
    requires timeout.Some? ==> timeout.value > 0.0
    ensures e.Noticed? ==> e.time == ProbeTime(failed) && readyAt <= e.time
    ensures e.Noticed? && failed > 0 ==> ProbeTime(failed - 1) < readyAt
    ensures e.Noticed? && timeout.Some? ==> e.time < timeout.value
    ensures e.Noticed? && readyAt >= 0.0 ==> e.time - readyAt <= Min(1.0, readyAt + 0.03125)
    ensures e.TimedOut? ==>
      && timeout == Some(e.time) && ProbeTime(failed) < readyAt
      && ProbeTime(failed) < e.time <= ProbeTime(failed + 1)
  {
    var now := 0.0;
    var period := 0.03125;
    failed := 0;
    while now < readyAt
      invariant now == ProbeTime(failed) && period == Period(failed)
      invariant failed > 0 ==> ProbeTime(failed - 1) < readyAt
      invariant timeout.Some? ==> now < timeout.value
      decreases if now < readyAt then ((readyAt - now) / 0.03125).Floor + 1 else 0
    {
      PeriodBounded(failed);
      if timeout.Some? && timeout.value <= now + period {
        return TimedOut(timeout.value), failed;
      }
      WaitShrinks(readyAt, now, period);
      now := now + period;
      period := if period * 2.0 < 1.0 then period * 2.0 else 1.0;
      failed := failed + 1;
    }
    if readyAt >= 0.0 {
      NoticedSoon(readyAt, failed);
    }
    e := Noticed(now);
  }

  lemma {:induction false} WaitShrinks(readyAt: real, now: real, period: real)
    requires now < readyAt && period >= 0.03125
    ensures ((readyAt - (now + period)) / 0.03125).Floor < ((readyAt - now) / 0.03125).Floor
  {
    var x := (readyAt - now) / 0.03125;
    var y := (readyAt - (now + period)) / 0.03125;
    assert y <= x - 1.0;
  }

  // The probe that notices comes within a second, and for early conditions
  // within a thirty-second more than the time already waited.
  lemma NoticedSoon(readyAt: real, failed: nat)
    requires readyAt >= 0.0 && readyAt <= ProbeTime(failed)
    requires failed > 0 ==> ProbeTime(failed - 1) < readyAt
    ensures ProbeTime(failed) - readyAt <= Min(1.0, readyAt + 0.03125)
  {
    if failed > 0 {
      PeriodBounded(failed - 1);
    }
  }
}
