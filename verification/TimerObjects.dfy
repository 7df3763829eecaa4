// The Timer class, acting on the process state in place.
module TimerObjects {
  import opened Common
  import opened Timers

  // The parts of the process that Timer uses: the clock, the interval timer
  // and the SIGALRM handler.
  class Os {
    var now: real
    var alarm: real
    var handler: Handler

    ghost function State(): Process
      reads this
    {
      Process(now, alarm, handler)
    }

    // signal.signal(SIGALRM, h)
    method Signal(h: Handler) returns (previous: Handler)
      modifies this`handler
      ensures handler == h && previous == old(handler)
    {
      previous := handler;
      handler := h;
    }

    // signal.setitimer(ITIMER_REAL, seconds)
    method SetTimer(seconds: real) returns (previous: real)
      requires seconds >= 0.0
      modifies this`alarm
      ensures alarm == seconds && previous == old(alarm)
    {
      previous := alarm;
      alarm := seconds;
    }
  }

  // Some of the process's time: a body, or what comes after it.
  method Spend(os: Os, d: real)
    requires d >= 0.0
    modifies os
    ensures os.State() == Elapse(old(os.State()), d)
  {
    os.alarm := if os.alarm <= d then 0.0 else os.alarm - d;
    os.now := os.now + d;
  }

  // with Timer() as timer: ..., and elapsed_time read inside and afterwards.
  // Inside it is the time since entering.  Afterwards, however late, it is the
  // time between entering and leaving, even if leaving failed its assertion.
  method TimedBlock(os: Os, t: Timer, before: real, within: real, later: real) returns (inside: real, afterwards: real)
    requires before >= 0.0 && within >= 0.0 && later >= 0.0
    requires t.timeout.Some? ==> t.timeout.value >= 0.0
    requires t.stopTime.None? && os.alarm >= 0.0
    modifies os, t
    ensures inside == before && afterwards == before + within
    ensures os.now == old(os.now) + before + within + later
  {
    t.Begin(os);
    Spend(os, before);
    inside := t.ElapsedTime(os);
    Spend(os, within);
    var _ := t.End(os);
    Spend(os, later);
    afterwards := t.ElapsedTime(os);
  }

  class Timer {
    const id: nat
    const timeout: Option<real>
    var startTime: Option<real>
    var stopTime: Option<real>
    var prevHandler: Handler
    var prevTimeout: real
    var suspendTime: real

    constructor (id: nat, timeout: Option<real>)
      ensures this.id == id && this.timeout == timeout && startTime.None? && stopTime.None?
    {
      this.id, this.timeout := id, timeout;
      startTime, stopTime := None, None;
      prevHandler, prevTimeout, suspendTime := Outside, 0.0, 0.0;
    }

    ghost function Remembers(): Saved
      reads this
    {
      if timeout.None? then Plain else Suspended(prevHandler, prevTimeout, suspendTime)
    }

    method Begin(os: Os)
      requires timeout.Some? ==> timeout.value >= 0.0
      modifies this, os
      ensures (os.State(), Remembers()) == Start(old(os.State()), id, timeout)
      ensures startTime == Some(os.now) && stopTime == old(stopTime)
      ensures timeout.Some? ==>
        && os.handler == Raise(id) && os.alarm == timeout.value
        && prevHandler == old(os.handler) && prevTimeout == old(os.alarm) && suspendTime == os.now
      ensures timeout.None? ==> os.handler == old(os.handler) && os.alarm == old(os.alarm)
    {
      startTime := Some(os.now);
      if timeout.Some? {
        prevHandler := os.Signal(Raise(id));
        prevTimeout := os.SetTimer(timeout.value);
        suspendTime := os.now;
      }
    }

    // False stands for the failure of the assertion that time has passed; the
    // process state is then left as it is.
    method End(os: Os) returns (ok: bool)
      requires timeout.Some? ==> prevTimeout >= 0.0
      modifies this, os
      ensures ok <==> MayStop(old(os.State()), old(Remembers()))
      ensures os.State() == if ok then Stop(old(os.State()), old(Remembers())) else old(os.State())
      ensures Remembers() == old(Remembers())
      ensures ok <==> timeout.None? || os.now > suspendTime
      ensures if timeout.Some? && ok then os.handler == prevHandler && os.alarm == prevTimeout
              else os.handler == old(os.handler) && os.alarm == old(os.alarm)
      ensures startTime == old(startTime) && stopTime == Some(os.now)
    {
      stopTime := Some(os.now);
      if timeout.Some? {
        if !(os.now - suspendTime > 0.0) {
          return false;
        }
        var _ := os.Signal(prevHandler);
        var _ := os.SetTimer(prevTimeout);
      }
      ok := true;
    }

    method ElapsedTime(os: Os) returns (elapsed: real)
      requires startTime.Some?
      ensures elapsed == (if stopTime.Some? then stopTime.value else os.now) - startTime.value
    {
      if stopTime.None? {
        elapsed := os.now - startTime.value;
      } else {
        elapsed := stopTime.value - startTime.value;
      }
    }
  }
}
