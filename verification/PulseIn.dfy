/**
  GPIOPin::pulseIn (cores/ardulinux/ArduLinuxGPIO.h): three polling loops over readPin() and
  micros(). Reads and clock readings come from the environment; `start` is kept in 32 bits
  while micros() is 64 bits wide, as in the source.
 */
module PulseIn {
  import opened Wrappers
  import opened Millis
  import opened GpioPin

  const UINT32: nat := 0x1_0000_0000

  predicate IsRead(polled: nat -> Op, i: nat) {
    polled(i).Read? && WellFormed(polled(i))
  }

  ghost predicate AllReads(polled: nat -> Op) {
    forall i: nat :: IsRead(polled, i)
  }

  /** The first `n` operations of the environment. */
  function Prefix(ops: nat -> Op, n: nat): seq<Op> {
    seq(n, (i: nat) => ops(i))
  }

  lemma {:induction false} RunAllSnoc(p: Pin, ops: seq<Op>, op: Op)
    requires !RunAll(p, ops).dead
    ensures RunAll(p, ops + [op]) == Run(RunAll(p, ops), op)
    decreases |ops|
  {
    if p.dead {
    } else if ops == [] {
      assert (ops + [op])[1..] == [];
      assert RunAll(Run(p, op), []) == Run(p, op);
    } else {
      assert (ops + [op])[1..] == ops[1..] + [op];
      RunAllSnoc(Run(p, ops[0]), ops[1..], op);
    }
  }

  /** The pin after the first `n` polled, and hence the value the last of them returned. */
  function PinsOf(p: Pin, polled: nat -> Op): nat -> Pin {
    (n: nat) => RunAll(p, Prefix(polled, n))
  }

  /** `pins(n)` is the pin after `n` of the reads, up to a read that ends the program. */
  ghost predicate Follows(pins: nat -> Pin, polled: nat -> Op) {
    forall n: nat :: Advances(pins, polled, n)
  }

  predicate Advances(pins: nat -> Pin, polled: nat -> Op, n: nat) {
    !pins(n).dead ==> pins(n + 1) == Run(pins(n), polled(n))
  }

  lemma PinsFollow(p: Pin, polled: nat -> Op)
    ensures Follows(PinsOf(p, polled), polled) && PinsOf(p, polled)(0) == p
  {
    var pins := PinsOf(p, polled);
    assert Prefix(polled, 0) == [];
    forall n: nat
      ensures Advances(pins, polled, n)
    {
      if !pins(n).dead {
        assert Prefix(polled, n + 1) == Prefix(polled, n) + [polled(n)];
        RunAllSnoc(p, Prefix(polled, n), polled(n));
      }
    }
  }

  /** micros() - start at clock reading `i`. */
  function Elapsed(clock: nat, times: nat -> nat, start: nat, i: nat): int {
    times(i) - clock - start
  }

  lemma ElapsedGrows(clock: nat, times: nat -> nat, horizon: nat, start: nat, base: nat, i: nat)
    requires Ticks(times, horizon) && base < i <= horizon
    requires clock + start <= times(base)
    ensures 0 <= Elapsed(clock, times, start, base) <= Elapsed(clock, times, start, i)
  {
    assert NotBefore(times, base, i);
  }

  /** `reach` readings after `base` the timeout has passed. */
  lemma ElapsedReaches(clock: nat, times: nat -> nat, horizon: nat, reach: nat, timeout: nat,
                       start: nat, base: nat, i: nat)
    requires Ticks(times, horizon) && Reaches(times, horizon, reach, timeout)
    requires clock + start <= times(base) && base + reach <= i <= horizon
    ensures Elapsed(clock, times, start, i) >= timeout
  {
    assert Gains(times, base, reach, timeout);
    assert base + reach < i ==> NotBefore(times, base + reach, i);
  }

  /** One evaluation of a loop condition: a level that ends it, no time left, or neither. */
  datatype Poll = LevelSeen | TimeUp | GoesOn

  function Started(startUsec: nat, times: nat -> nat): nat {
    if startUsec == 0 then times(0) else startUsec
  }

  /** micros(), as clock reading number `i`. */
  method ReadClock(clock: Clock, times: nat -> nat, ghost horizon: nat, i: nat) returns (t: nat)
    requires Ticks(times, horizon) && i <= horizon && clock.startUsec <= times(0)
    requires clock.startUsec != 0 || i == 0
    modifies clock
    ensures 0 < clock.startUsec == Started(old(clock.startUsec), times) <= times(0)
    ensures t == times(i) - clock.startUsec
  {
    assert Fits(times, i) && Fits(times, 0);
    assert i > 0 ==> NotBefore(times, 0, i);
    t := clock.Micros(times(i));
  }

  /** What a reading loses by being cut to 32 bits. */
  function Lost(micros: int): int {
    micros / UINT32 * UINT32
  }

  /** A reading cut to 32 bits. */
  function Cut(micros: int): int {
    micros - Lost(micros)
  }

  /** uint32_t start = micros(), as clock reading number `i`. */
  method ReadStart(clock: Clock, times: nat -> nat, ghost horizon: nat, i: nat) returns (start: nat)
    requires Ticks(times, horizon) && i <= horizon && clock.startUsec <= times(0)
    requires clock.startUsec != 0 || i == 0
    modifies clock
    ensures 0 < clock.startUsec == Started(old(clock.startUsec), times) <= times(0)
    ensures clock.startUsec + start <= times(i)
    ensures start == Cut(times(i) - clock.startUsec)
  {
    var now := ReadClock(clock, times, horizon, i);
    start := now % UINT32;
  }

  /** readPin() number `n`. */
  method ReadNext(pin: LinuxGPIOPin, polled: nat -> Op, n: nat, ghost pins: nat -> Pin) returns (v: Outcome<PinStatus>)
    requires Follows(pins, polled) && AllReads(polled) && !pin.dead && pin.View() == pins(n)
    modifies pin
    ensures pin.View() == pins(n + 1)
    ensures v.Returned? ==> !pin.dead && v.value == pins(n + 1).status
  {
    assert IsRead(polled, n) && Advances(pins, polled, n);
    v := pin.ReadPin(polled(n).res, polled(n).callback);
  }

  /** Every read from number `a` + 1 to number `b` returned `state` (`same`) or something else (not `same`). */
  ghost predicate AllSame(pins: nat -> Pin, state: PinStatus, same: bool, a: nat, b: nat) {
    forall i :: a < i <= b ==> (pins(i).status == state) == same
  }

  /** (readPin() == state) == same && micros() - start < timeout, with the clock read only if need be. */
  method PollOnce(pin: LinuxGPIOPin, clock: Clock, state: PinStatus, same: bool, start: nat, timeout: nat,
                  polled: nat -> Op, times: nat -> nat, ghost horizon: nat, n: nat, k: nat, ghost pins: nat -> Pin)
    returns (r: Outcome<Poll>)
    requires Ticks(times, horizon) && AllReads(polled)
    requires clock.startUsec != 0 && clock.startUsec <= times(0)
    requires k < horizon && clock.startUsec + start <= times(k)
    requires Follows(pins, polled) && !pin.dead && pin.View() == pins(n)
    modifies pin, clock
    ensures clock.startUsec == old(clock.startUsec) && pin.View() == pins(n + 1)
    ensures r.Returned? ==> !pin.dead
    ensures r.Returned? && r.value != LevelSeen ==>
              (pins(n + 1).status == state) == same
    ensures r == Returned(LevelSeen) ==> (pins(n + 1).status == state) != same
    ensures r == Returned(TimeUp) ==> Elapsed(clock.startUsec, times, start, k) >= timeout
    ensures r == Returned(GoesOn) ==> Elapsed(clock.startUsec, times, start, k) < timeout
  {
    var value := ReadNext(pin, polled, n, pins);
    if !value.Returned? {
      return if value.Thrown? then Thrown else Aborted;
    }
    if (value.value == state) != same {
      return Returned(LevelSeen);
    }
    var now := ReadClock(clock, times, horizon, k);
    r := Returned(if now - start < timeout then GoesOn else TimeUp);
  }

  /** The last clock reading a loop can go on at, its `start` being at most reading `base`. */
  function LastReading(base: nat, k0: nat, reach: nat): nat {
    if base + reach < k0 then k0 else base + reach
  }

  /**
    while ((readPin() == state) == same && micros() - start < timeout);
    from read number `n0` and clock reading `k0` on.
   */
  method WaitWhile(pin: LinuxGPIOPin, clock: Clock, state: PinStatus, same: bool, start: nat, timeout: nat,
                   polled: nat -> Op, times: nat -> nat, ghost horizon: nat, ghost reach: nat, ghost base: nat,
                   n0: nat, k0: nat, ghost pins: nat -> Pin)
    returns (r: Outcome<Poll>, n: nat, k: nat)
    requires Ticks(times, horizon) && Reaches(times, horizon, reach, timeout) && AllReads(polled)
    requires clock.startUsec != 0 && clock.startUsec + start <= times(base) && clock.startUsec <= times(0)
    requires base < k0 <= LastReading(base, k0, reach) < horizon
    requires Follows(pins, polled) && !pin.dead && pin.View() == pins(n0)
    modifies pin, clock
    ensures clock.startUsec == old(clock.startUsec)
    ensures pin.View() == pins(n) && n0 < n && k0 <= k
    ensures AllSame(pins, state, same, n0, n - 1)
    ensures n - n0 - 1 <= k - k0 <= n - n0 && k0 + (n - n0) - 1 <= LastReading(base, k0, reach)
    ensures r.Returned? ==> !pin.dead && r.value != GoesOn
    ensures r == Returned(LevelSeen) ==> (pins(n).status == state) != same
    ensures r == Returned(TimeUp) ==> k > k0 && Elapsed(clock.startUsec, times, start, k - 1) >= timeout
  {
    n, k := n0, k0;
    ghost var s := clock.startUsec;
    while true
      invariant clock.startUsec == s && !pin.dead && pin.View() == pins(n)
      invariant n0 <= n && k - k0 == n - n0 && k <= LastReading(base, k0, reach)
      invariant AllSame(pins, state, same, n0, n)
      decreases LastReading(base, k0, reach) - k
    {
      ElapsedGrows(s, times, horizon, start, base, k);
      var poll := PollOnce(pin, clock, state, same, start, timeout, polled, times, horizon, n, k, pins);
      n := n + 1;
      if !poll.Returned? {
        return if poll.Thrown? then Thrown else Aborted, n, k;
      }
      match poll.value {
        case LevelSeen =>
          return poll, n, k;
        case TimeUp =>
          return poll, n, k + 1;
        case GoesOn =>
          if k >= base + reach {
            ElapsedReaches(s, times, horizon, reach, timeout, start, base, k);
          }
          k := k + 1;
      }
    }
  }

  /** Enough clock readings for any pulseIn on a clock that gains the timeout within `reach` of them. */
  function Horizon(reach: nat): nat {
    2 * reach + 8
  }

  /** A clock on which `reach` readings are enough for the timeout to pass. */
  ghost predicate TimedBy(times: nat -> nat, reach: nat, timeout: nat) {
    Ticks(times, Horizon(reach)) && Reaches(times, Horizon(reach), reach, timeout)
  }

  /** The first loop: start the clock and let a pulse in progress pass. */
  method PassPulse(pin: LinuxGPIOPin, clock: Clock, state: PinStatus, timeout: nat,
                   polled: nat -> Op, times: nat -> nat, ghost reach: nat, ghost pins: nat -> Pin)
    returns (r: Outcome<Poll>, n: nat, k: nat, start: nat)
    requires TimedBy(times, reach, timeout) && AllReads(polled) && clock.startUsec <= times(0)
    requires Follows(pins, polled) && !pin.dead && pin.View() == pins(0)
    modifies pin, clock
    ensures 0 < clock.startUsec == Started(old(clock.startUsec), times) <= times(0)
    ensures pin.View() == pins(n)
    ensures 0 < n <= reach + 1 && 1 <= k <= n + 1 && n <= k
    ensures start == Cut(times(0) - clock.startUsec) && clock.startUsec + start <= times(0)
    ensures AllSame(pins, state, true, 0, n - 1)
    ensures r.Returned? ==> !pin.dead
    ensures r.Returned? ==> pins(n).status != state || Elapsed(clock.startUsec, times, start, k - 1) >= timeout
  {
    ghost var horizon := Horizon(reach);
    start := ReadStart(clock, times, horizon, 0);
    r, n, k := WaitWhile(pin, clock, state, true, start, timeout, polled, times, horizon, reach, 0, 0, 1, pins);
  }

  /** The second loop: wait for the next pulse, on the same timeout. */
  method AwaitPulse(pin: LinuxGPIOPin, clock: Clock, state: PinStatus, timeout: nat, start: nat,
                    polled: nat -> Op, times: nat -> nat, ghost reach: nat, n0: nat, k0: nat, ghost pins: nat -> Pin)
    returns (r: Outcome<Poll>, n: nat, k: nat)
    requires TimedBy(times, reach, timeout) && AllReads(polled)
    requires clock.startUsec != 0 && clock.startUsec <= times(0) && clock.startUsec + start <= times(0)
    requires n0 <= reach + 1 && 1 <= k0 <= n0 + 1 && n0 <= k0
    requires Follows(pins, polled) && !pin.dead && pin.View() == pins(n0)
    modifies pin, clock
    ensures clock.startUsec == old(clock.startUsec)
    ensures pin.View() == pins(n)
    ensures n0 < n <= reach + 2 && k0 <= k <= n + 1
    ensures AllSame(pins, state, false, n0, n - 1)
    ensures r.Returned? ==> !pin.dead
    ensures r.Returned? ==> pins(n).status == state || Elapsed(clock.startUsec, times, start, k - 1) >= timeout
  {
    ghost var horizon := Horizon(reach);
    r, n, k := WaitWhile(pin, clock, state, false, start, timeout, polled, times, horizon, reach, 0, n0, k0, pins);
  }

  /**
    The reads of the first two loops end at `a` and `b`: `state` and then anything else, each
    but for its last read, which is a change of level unless it is `late`.
   */
  ghost predicate Found(pins: nat -> Pin, state: PinStatus, a: nat, b: nat, late: bool) {
    && 0 < a < b
    && AllSame(pins, state, true, 0, a - 1)
    && AllSame(pins, state, false, a, b - 1)
    && (pins(a).status != state || late)
    && (pins(b).status == state || late)
  }

  /** No time is left at clock reading `i`, counted from reading 0. */
  predicate Late(startUsec: nat, times: nat -> nat, timeout: nat, i: nat) {
    Elapsed(startUsec, times, Cut(times(0) - startUsec), i) >= timeout
  }

  /** The first two loops. */
  method FindPulse(pin: LinuxGPIOPin, clock: Clock, state: PinStatus, timeout: nat,
                   polled: nat -> Op, times: nat -> nat, ghost reach: nat, ghost pins: nat -> Pin)
    returns (r: Outcome<Poll>, ghost a: nat, b: nat, k: nat)
    requires TimedBy(times, reach, timeout) && AllReads(polled) && clock.startUsec <= times(0)
    requires Follows(pins, polled) && !pin.dead && pin.View() == pins(0)
    modifies pin, clock
    ensures 0 < clock.startUsec == Started(old(clock.startUsec), times) <= times(0)
    ensures pin.View() == pins(b)
    ensures b <= reach + 2 && 1 <= k <= b + 1
    ensures r.Returned? ==> !pin.dead && Found(pins, state, a, b, Late(clock.startUsec, times, timeout, k))
  {
    var n, start;
    r, n, k, start := PassPulse(pin, clock, state, timeout, polled, times, reach, pins);
    a, b := n, n;
    if !r.Returned? {
      return;
    }
    assert NotBefore(times, k - 1, k);
    ghost var k1 := k;
    r, b, k := AwaitPulse(pin, clock, state, timeout, start, polled, times, reach, n, k, pins);
    assert k1 < k ==> NotBefore(times, k1, k);
    assert NotBefore(times, k - 1, k);
  }

  /** The third loop: time the pulse from `start` on, with a timeout of its own. */
  method MeasurePulse(pin: LinuxGPIOPin, clock: Clock, state: PinStatus, timeout: nat, start: nat,
                      polled: nat -> Op, times: nat -> nat, ghost reach: nat, n0: nat, k0: nat, ghost pins: nat -> Pin)
    returns (r: Outcome<nat>, ghost n: nat, ghost to: nat)
    requires TimedBy(times, reach, timeout) && AllReads(polled)
    requires clock.startUsec != 0 && clock.startUsec <= times(0)
    requires k0 <= reach + 3 && clock.startUsec + start <= times(k0)
    requires Follows(pins, polled) && !pin.dead && pin.View() == pins(n0)
    modifies pin, clock
    ensures pin.View() == pins(n) && n0 < n <= n0 + reach + 1
    ensures AllSame(pins, state, true, n0, n - 1)
    ensures r.Returned? ==>
              && k0 < to <= Horizon(reach)
              && r.value == Elapsed(old(clock.startUsec), times, start, to)
              && (r.value < timeout ==> pins(n).status != state)
  {
    ghost var horizon, s := Horizon(reach), clock.startUsec;
    var ending, n', k :=
      WaitWhile(pin, clock, state, true, start, timeout, polled, times, horizon, reach, k0, n0, k0 + 1, pins);
    n, to := n', k;
    if !ending.Returned? {
      return if ending.Thrown? then Thrown else Aborted, n, to;
    }
    var end := ReadClock(clock, times, horizon, k);
    ElapsedGrows(s, times, horizon, start, k0, k);
    if ending == Returned(TimeUp) {
      assert NotBefore(times, k - 1, k);
    }
    r := Returned(end - start);
  }

  /**
    Polling is bounded by two timeouts, however the reads behave: `reach` is how many clock
    readings a timeout takes, the timeout itself if every reading differs. The reads fall
    into three runs, up to `a`, `b` and `polls`: of `state`, of anything else, and of `state`
    again, each but for its last read. The first two runs end on a change of level or, together,
    on one timeout; a result below the timeout means that the third ended on a change. `from`
    and `to` are the clock readings it lies between, and the result is the time between them
    plus what `start` lost by being cut to 32 bits: right exactly while micros() fits them.
   */
  method PulseIn(pin: LinuxGPIOPin, clock: Clock, state: PinStatus, timeout: nat, addRet: int, reconfRet: int,
                 polled: nat -> Op, times: nat -> nat, ghost reach: nat)
    returns (r: Outcome<nat>, ghost polls: nat, ghost a: nat, ghost b: nat, ghost from: nat, ghost to: nat)
    requires TimedBy(times, reach, timeout) && AllReads(polled)
    requires clock.startUsec <= times(0) && !pin.dead
    modifies pin, clock
    ensures pin.View() == PinsOf(old(pin.View()).SetMode(INPUT, addRet, reconfRet), polled)(polls)
    ensures polls <= 2 * reach + 3
    ensures var pins := PinsOf(old(pin.View()).SetMode(INPUT, addRet, reconfRet), polled);
            var started := Started(old(clock.startUsec), times);
            r.Returned? ==>
              && from < to <= Horizon(reach) && b < polls
              && r.value == (times(to) - started) - (times(from) - started) % UINT32
              && (r.value == times(to) - times(from) <==> times(from) - started < UINT32)
              && Found(pins, state, a, b, Late(started, times, timeout, from))
              && AllSame(pins, state, true, b, polls - 1)
              && (r.value < timeout ==> pins(polls).status != state)
  {
    pin.SetPinMode(INPUT, addRet, reconfRet);
    ghost var pins := PinsOf(pin.View(), polled);
    PinsFollow(pin.View(), polled);
    var found, n, k;
    found, a, n, k := FindPulse(pin, clock, state, timeout, polled, times, reach, pins);
    polls, b, from, to := n, n, k, k;
    if !found.Returned? {
      return if found.Thrown? then Thrown else Aborted, polls, a, b, from, to;
    }
    var start := ReadStart(clock, times, Horizon(reach), k);
    assert start == (times(k) - clock.startUsec) % UINT32;
    r, polls, to := MeasurePulse(pin, clock, state, timeout, start, polled, times, reach, n, k, pins);
  }
}
