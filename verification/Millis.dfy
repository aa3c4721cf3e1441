/** The microsecond clock of cores/ardulinux/linux/millis.cpp. */
module Millis {
  const WORD: nat := 0x1_0000_0000_0000_0000

  /** Microseconds since `start` in 64-bit unsigned arithmetic. */
  function Since(start: nat, now: nat): nat {
    (now - start) % WORD
  }

  class Clock {
    var startUsec: nat

    constructor ()
      ensures startUsec == 0
    {
      startUsec := 0;
    }

    method Micros(now: nat) returns (t: nat)
      requires now < WORD
      modifies this
      ensures startUsec == if old(startUsec) == 0 then now else old(startUsec)
      ensures t == Since(startUsec, now)
    {
      if startUsec == 0 {
        startUsec := now;
      }
      t := (now - startUsec) % WORD;
    }
  }

  predicate NotBefore(times: nat -> nat, i: nat, j: nat) {
    times(i) <= times(j)
  }

  predicate Fits(times: nat -> nat, i: nat) {
    0 < times(i) < WORD
  }

  /** The first `horizon` wall-clock readings never go back, and fit the word. */
  ghost predicate Ticks(times: nat -> nat, horizon: nat) {
    && (forall i: nat, j: nat | i < j <= horizon :: NotBefore(times, i, j))
    && (forall i: nat | i <= horizon :: Fits(times, i))
  }

  predicate Gains(times: nat -> nat, i: nat, reach: nat, duration: nat) {
    times(i) + duration <= times(i + reach)
  }

  /** Within any `reach` readings the clock gains `duration`; many of them may show the same time. */
  ghost predicate Reaches(times: nat -> nat, horizon: nat, reach: nat, duration: nat) {
    forall i: nat | i + reach <= horizon :: Gains(times, i, reach, duration)
  }

  /** micros() differences are wall-clock differences, for a clock whose first-ever reading was `start`. */
  lemma MicrosAdvance(start: nat, times: nat -> nat, horizon: nat, i: nat, j: nat)
    requires Ticks(times, horizon) && start <= times(0) && i < j <= horizon
    ensures Since(start, times(j)) - Since(start, times(i)) == times(j) - times(i) >= 0
    ensures Since(start, times(i)) == times(i) - start
  {
    assert Fits(times, i) && Fits(times, j) && NotBefore(times, i, j);
    assert i > 0 ==> NotBefore(times, 0, i);
    assert 0 <= times(i) - start < WORD && 0 <= times(j) - start < WORD;
  }

  /** A microsecond or more from each reading to the next. */
  ghost predicate StrictlyAdvances(times: nat -> nat) {
    forall i: nat :: Gains(times, i, 1, 1)
  }

  lemma {:induction false} StrictGains(times: nat -> nat, i: nat, n: nat)
    requires StrictlyAdvances(times)
    ensures Gains(times, i, n, n)
    decreases n
  {
    if n > 0 {
      StrictGains(times, i, n - 1);
      assert Gains(times, i + n - 1, 1, 1);
    }
  }

  /** A strictly advancing clock gains any duration within as many readings. */
  lemma StrictReaches(times: nat -> nat, horizon: nat, duration: nat)
    requires StrictlyAdvances(times)
    ensures Reaches(times, horizon, duration, duration)
  {
    forall i: nat | i + duration <= horizon
      ensures Gains(times, i, duration, duration)
    {
      StrictGains(times, i, duration);
    }
  }
}
