/** The way from the microseconds to the earliest deadline to the millisecond argument of
    epoll_wait: nty_schedule_epoll builds a timespec and nty_epoller_wait converts it in floating
    point, which the call truncates to an int. */
module EpollTimeout {
  import opened Common
  import opened Scheduler

  datatype Timespec = Timespec(sec: nat, nsec: nat)

  function ToTimespec(usecs: nat): (t: Timespec)
  {
    var sec := usecs / 1000000;
    Timespec(sec, if sec != 0 then usecs % 1000 * 1000 else usecs * 1000)
  }

  /** The timespec is a proper one.  Below a second it is the gap itself; from a second on it is the gap
      without its whole milliseconds beyond the second. */
  lemma TimespecIs(usecs: nat)
    ensures var t := ToTimespec(usecs);
            && t.nsec < 1000000000 && t.nsec % 1000 == 0
            && (usecs < 1000000 ==> t.sec * 1000000 + t.nsec / 1000 == usecs)
            && (usecs >= 1000000 ==> t.sec * 1000000 + t.nsec / 1000 == usecs - usecs % 1000000 / 1000 * 1000)
  {
    var sec, rest := usecs / 1000000, usecs % 1000000;
    Remainder(1000 * sec + rest / 1000, rest % 1000, usecs);
    Thousands(if sec != 0 then usecs % 1000 else usecs);
  }

  lemma Remainder(k: nat, u: nat, n: nat)
    requires n == 1000 * k + u && u < 1000
    ensures n % 1000 == u
  {
  }

  lemma Thousands(n: nat)
    ensures n * 1000 / 1000 == n && n * 1000 % 1000 == 0
  {
  }

  /** The double passed for an int parameter, with its fraction dropped. */
  function ToMillis(t: Timespec): (ms: int)
    ensures ms as real <= t.sec as real * 1000.0 + t.nsec as real / 1000000.0 < (ms + 1) as real
  {
    (t.sec as real * 1000.0 + t.nsec as real / 1000000.0).Floor
  }

  function Timeout(usecs: nat): (ms: int) { ToMillis(ToTimespec(usecs)) }

  /** Below a second the timeout is the gap in whole milliseconds; from a second on it is the gap in
      whole seconds, because the remainder kept is the one below a millisecond. */
  lemma TimeoutIs(usecs: nat)
    ensures Timeout(usecs) == if usecs < 1000000 then usecs / 1000 else usecs / 1000000 * 1000
  {
    var t, ms := ToTimespec(usecs), Timeout(usecs);
    if usecs < 1000000 {
      assert t.sec == 0 && t.nsec as real / 1000000.0 == usecs as real / 1000.0;
      assert (ms * 1000) as real <= usecs as real < (ms * 1000 + 1000) as real;
    } else {
      assert t.nsec < 1000000;
      assert t.nsec as real / 1000000.0 < 1.0;
      assert (t.sec * 1000) as real <= t.sec as real * 1000.0;
      assert ms <= t.sec * 1000 by {
        assert ms as real < (t.sec * 1000 + 1) as real;
      }
    }
  }

  /** A wait that begins at time `t` never runs past the earliest deadline; it ends less than a
      millisecond before it when that is less than a second away, and less than a second before it
      otherwise. */
  lemma NeverLate(s: State, t: nat)
    requires s.sleeping != map[] && MinTimeout(s, t) != 0
    ensures var first, end := Min(s.sleeping.Keys), t + Timeout(MinTimeout(s, t)) * 1000;
            && t <= end <= first < end + 1000000
            && (first < t + 1000000 ==> first < end + 1000)
  {
    TimeoutIs(MinTimeout(s, t));
  }

  /** A wait without sleepers lasts for the default of three seconds. */
  lemma DefaultWait(s: State, t: nat)
    requires s.sleeping == map[]
    ensures Timeout(MinTimeout(s, t)) == 3000
  {
    TimeoutIs(3000000);
  }

  /** The timeout fits an int exactly when the gap is below 2147484 seconds. */
  lemma FitsInt(usecs: nat)
    ensures Timeout(usecs) <= INT_MAX <==> usecs < 2147484 * 1000000
  {
    TimeoutIs(usecs);
  }

  /** From a second on the milliseconds of the gap are lost, not rounded. */
  lemma SubSecondLost(usecs: nat)
    requires usecs >= 1000000
    ensures Timeout(usecs) * 1000 == usecs <==> usecs % 1000000 == 0
  {
    TimeoutIs(usecs);
  }
}
