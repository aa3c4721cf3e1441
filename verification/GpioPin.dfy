/**
  One GPIO pin under libgpiod v2: the cached mode, status and interrupt of GPIOPin
  (cores/ardulinux/ArduLinuxGPIO.h) kept over a line whose every libgpiod call may fail
  (cores/ardulinux/linux/gpio/LinuxGPIOPin.cpp).

  `Pin` says what each operation does to pin and line together, for every result libgpiod can
  give; `LinuxGPIOPin` is the object, proved to do exactly that. An operation that may run an
  interrupt callback carries the operations that callback performs on the same pin.
 */
module GpioPin {
  import opened Wrappers

  datatype PinStatus = LOW | HIGH | CHANGE | FALLING | RISING

  datatype PinMode = INPUT | OUTPUT | INPUT_PULLUP | INPUT_PULLDOWN

  predicate IsLevel(s: PinStatus) {
    s.LOW? || s.HIGH?
  }

  function LevelOf(res: int): PinStatus {
    if res == 1 then HIGH else LOW
  }

  /** The hardware side: the line's direction, and the level it is driven to while an output. */
  datatype Line = Line(output: bool, driven: PinStatus)
  {
    /** gpiod_line_request_reconfigure_lines; `settings` is None when adding them had failed. */
    function Reconfigure(settings: Option<Line>, ret: int): Line {
      if ret == 0 && settings.Some? then settings.value else this
    }
  }

  /** Operations on a pin, with the results of the libgpiod calls they make. */
  datatype Op =
    | SetMode(m: PinMode, addRet: int, reconfRet: int)
    | Write(s: PinStatus, addRet: int, reconfRet: int, setRet: int)
    | Read(res: int, callback: seq<Op>)     // digitalRead
    | Poll(res: int, callback: seq<Op>)     // gpioIdle
    | Attach(isNull: bool, when: PinStatus)
    | Detach

  datatype Edge = Edge(before: PinStatus, after: PinStatus)

  datatype Pin = Pin(
    mode: PinMode,
    status: PinStatus,
    isr: bool,                    // whether the callback pointer is non-null
    trigger: Option<PinStatus>,   // isrPinStatus, None for -1
    line: Line,
    calls: seq<Edge>,             // callback invocations so far
    dead: bool)                   // assert(isr) failed and ended the process
  {
    function SetMode(m: PinMode, addRet: int, reconfRet: int): Pin {
      var settings := if m.OUTPUT? then Line(true, status) else Line(false, line.driven);
      var line' := line.Reconfigure(if addRet == 0 then Some(settings) else None, reconfRet);
      this.(mode := if addRet != 0 || reconfRet != 0 then mode else m, line := line')
    }

    function Promote(addRet: int, reconfRet: int): Pin {
      if mode.OUTPUT? then this else SetMode(OUTPUT, addRet, reconfRet)
    }

    function Write(s: PinStatus, addRet: int, reconfRet: int, setRet: int): Pin {
      var p := Promote(addRet, reconfRet);
      if setRet != 0 then p else p.(line := p.line.(driven := s), status := s)
    }

    predicate ReadFails(res: int) {
      !mode.OUTPUT? && res != 0 && res != 1
    }

    /** Whether this refresh would invoke the callback. */
    predicate Fires(res: int) {
      !mode.OUTPUT? && !ReadFails(res) && trigger.Some? && Triggered(trigger.value, status, LevelOf(res))
    }

    /** refreshState up to the call of the interrupt callback. */
    function Sample(res: int): Pin {
      if mode.OUTPUT? || ReadFails(res) then this
      else
        var p := this.(status := LevelOf(res));
        if !Fires(res) then p
        else if !isr then p.(dead := true)
        else p.(calls := calls + [Edge(status, LevelOf(res))])
    }
  }

  predicate Triggered(when: PinStatus, before: PinStatus, after: PinStatus) {
    match when
    case HIGH => !after.LOW?
    case LOW => after.LOW?
    case RISING => before.LOW? && !after.LOW?
    case FALLING => !before.LOW? && after.LOW?
    case CHANGE => before.LOW? != after.LOW?
  }

  function Refresh(p: Pin, res: int, callback: seq<Op>): Pin
    decreases callback, 1
  {
    if p.Fires(res) && p.isr then RunAll(p.Sample(res), callback) else p.Sample(res)
  }

  function Run(p: Pin, op: Op): Pin
    decreases op, 2
  {
    match op
    case SetMode(m, a, r) => p.SetMode(m, a, r)
    case Write(s, a, r, w) => p.Write(s, a, r, w)
    case Read(res, callback) => Refresh(p, res, callback)
    case Poll(res, callback) => if p.isr then Refresh(p, res, callback) else p
    case Attach(isNull, when) => p.(isr := !isNull, trigger := Some(when))
    case Detach => p.(isr := false, trigger := None)
  }

  /** A run of operations; a dead process performs none. */
  function RunAll(p: Pin, ops: seq<Op>): Pin
    decreases ops, 0
  {
    if p.dead || ops == [] then p else RunAll(Run(p, ops[0]), ops[1..])
  }

  /** A pin as the constructor leaves it: nothing is known of the line's direction. */
  function Fresh(line: Line): Pin {
    Pin(INPUT_PULLUP, HIGH, false, None, line, [], false)
  }

  datatype Outcome<+T> = Returned(value: T) | Thrown | Aborted

  class LinuxGPIOPin {
    var mode: PinMode
    var status: PinStatus
    var isr: bool
    var isrPinStatus: Option<PinStatus>
    var line: Line
    var calls: seq<Edge>
    var dead: bool

    ghost function View(): Pin
      reads this
    {
      Pin(mode, status, isr, isrPinStatus, line, calls, dead)
    }

    constructor (acquired: Line)
      ensures View() == Fresh(acquired)
      ensures mode == INPUT_PULLUP && status == HIGH && !isr && isrPinStatus == None && calls == [] && !dead
    {
      mode, status, isr, isrPinStatus := INPUT_PULLUP, HIGH, false, None;
      line, calls, dead := acquired, [], false;
    }

    method AttachInterrupt(isNull: bool, when: PinStatus)
      modifies `isr, `isrPinStatus
      ensures View() == Run(old(View()), Attach(isNull, when))
    {
      isr := !isNull;
      isrPinStatus := Some(when);
    }

    method DetachInterrupt()
      modifies `isr, `isrPinStatus
      ensures View() == Run(old(View()), Detach)
    {
      isr := false;
      isrPinStatus := None;
    }

    /** Cache first, so that the output seed is the cached level; roll back if the line did not follow. */
    method SetPinMode(m: PinMode, addRet: int, reconfRet: int)
      modifies `mode, `line
      ensures View() == old(View()).SetMode(m, addRet, reconfRet)
    {
      var previous := mode;
      mode := m;
      var settings: Line;
      if m.OUTPUT? {
        var seed := status;                 // readPin() returns the cache once mode is OUTPUT
        settings := Line(true, seed);
      } else {
        settings := Line(false, line.driven);
      }
      line := line.Reconfigure(if addRet == 0 then Some(settings) else None, reconfRet);
      if addRet != 0 || reconfRet != 0 {
        mode := previous;
      }
    }

    /** Drive the hardware before caching the level. */
    method WritePin(s: PinStatus, addRet: int, reconfRet: int, setRet: int) returns (r: Outcome<()>)
      requires IsLevel(s)
      modifies `mode, `line, `status
      ensures View() == old(View()).Write(s, addRet, reconfRet, setRet)
      ensures r == if setRet != 0 then Thrown else Returned(())
    {
      if !mode.OUTPUT? {
        SetPinMode(OUTPUT, addRet, reconfRet);
      }
      if setRet != 0 {
        return Thrown;
      }
      line := line.(driven := s);
      status := s;
      r := Returned(());
    }

    method RefreshState(res: int, callback: seq<Op>) returns (r: Outcome<()>)
      requires forall op :: op in callback ==> WellFormed(op)
      requires !dead
      modifies this
      ensures View() == Refresh(old(View()), res, callback)
      ensures r == if old(View()).ReadFails(res) then Thrown else if dead then Aborted else Returned(())
      decreases callback, 1
    {
      r := Returned(());
      if !mode.OUTPUT? {
        if res != 0 && res != 1 {
          return Thrown;
        }
        var newState := LevelOf(res);
        var oldState := status;
        status := newState;
        if isrPinStatus.Some? && Triggered(isrPinStatus.value, oldState, newState) {
          if !isr {
            dead := true;
            return Aborted;
          }
          calls := calls + [Edge(oldState, newState)];
          RunCallback(callback);
          if dead {
            r := Aborted;
          }
        }
      }
    }

    method ReadPin(res: int, callback: seq<Op>) returns (r: Outcome<PinStatus>)
      requires forall op :: op in callback ==> WellFormed(op)
      requires !dead
      modifies this
      ensures View() == Run(old(View()), Read(res, callback))
      ensures r == if old(View()).ReadFails(res) then Thrown else if dead then Aborted else Returned(status)
      decreases callback, 2
    {
      var refreshed := RefreshState(res, callback);
      if refreshed.Returned? {
        r := Returned(status);
      } else {
        r := if refreshed.Thrown? then Thrown else Aborted;
      }
    }

    /** gpioIdle's poll of this pin. */
    method RefreshIfNeeded(res: int, callback: seq<Op>) returns (r: Outcome<()>)
      requires forall op :: op in callback ==> WellFormed(op)
      requires !dead
      modifies this
      ensures View() == Run(old(View()), Poll(res, callback))
      ensures r == if !old(isr) then Returned(()) else if old(View()).ReadFails(res) then Thrown
                   else if dead then Aborted else Returned(())
      decreases callback, 2
    {
      r := Returned(());
      if isr {
        r := RefreshState(res, callback);
      }
    }

    /** The interrupt callback: what the application does to this very pin when called. */
    method RunCallback(ops: seq<Op>)
      requires forall op :: op in ops ==> WellFormed(op)
      modifies this
      ensures View() == RunAll(old(View()), ops)
      decreases ops, 0
    {
      if dead || ops == [] {
        return;
      }
      assert ops[0] in ops;
      match ops[0] {
        case SetMode(m, a, r) => SetPinMode(m, a, r);
        case Write(s, a, r, w) => var outcome := WritePin(s, a, r, w);
        case Read(res, callback) => var outcome := ReadPin(res, callback);
        case Poll(res, callback) => var outcome := RefreshIfNeeded(res, callback);
        case Attach(isNull, when) => AttachInterrupt(isNull, when);
        case Detach => DetachInterrupt();
      }
      RunCallback(ops[1..]);
    }
  }

  /** Writes name a level, in callbacks too: the source asserts it. */
  predicate WellFormed(op: Op)
    decreases op
  {
    match op
    case Write(s, _, _, _) => IsLevel(s)
    case Read(_, callback) => forall o :: o in callback ==> WellFormed(o)
    case Poll(_, callback) => forall o :: o in callback ==> WellFormed(o)
    case _ => true
  }

  // ---- coherence ----

  /** A cached OUTPUT is the truth, and the cached level is the one on the wire. */
  ghost predicate Coherent(p: Pin) {
    && IsLevel(p.status)
    && (p.mode.OUTPUT? ==> p.line.output && p.line.driven == p.status)
  }

  lemma {:induction false} RunKeepsCoherent(p: Pin, op: Op)
    requires Coherent(p) && WellFormed(op)
    ensures Coherent(Run(p, op))
    decreases op, 1
  {
    match op
    case Read(res, callback) => RunAllKeepsCoherent(p.Sample(res), callback);
    case Poll(res, callback) => RunAllKeepsCoherent(p.Sample(res), callback);
    case _ =>
  }

  /** Coherence survives every run of operations, whatever fails and whatever the callbacks do. */
  lemma {:induction false} RunAllKeepsCoherent(p: Pin, ops: seq<Op>)
    requires Coherent(p) && forall op :: op in ops ==> WellFormed(op)
    ensures Coherent(RunAll(p, ops))
    decreases ops, 0
  {
    if !p.dead && ops != [] {
      RunKeepsCoherent(p, ops[0]);
      RunAllKeepsCoherent(Run(p, ops[0]), ops[1..]);
    }
  }

  /** digitalRead of an OUTPUT pin is the level on the wire, needs no hardware, and changes nothing. */
  lemma OutputReadIsReal(line: Line, ops: seq<Op>, res: int, callback: seq<Op>)
    requires forall op :: op in ops ==> WellFormed(op)
    ensures var p := RunAll(Fresh(line), ops);
            p.mode.OUTPUT? ==>
              Run(p, Read(res, callback)) == p && p.line.output && p.status == p.line.driven
  {
    RunAllKeepsCoherent(Fresh(line), ops);
  }

  /** Every hardware read and write it makes fails. */
  predicate HardwareFails(op: Op) {
    match op
    case Write(_, _, _, setRet) => setRet != 0
    case Read(res, _) => res != 0 && res != 1
    case Poll(res, _) => res != 0 && res != 1
    case _ => true
  }

  lemma FailingOpKeepsLevel(p: Pin, op: Op)
    requires HardwareFails(op)
    ensures op.Read? || op.Poll? ==> Run(p, op) == p
    ensures Run(p, op).status == p.status && Run(p, op).calls == p.calls && Run(p, op).dead == p.dead
  {
    match op
    case Read(res, callback) => assert Refresh(p, res, callback) == p;
    case Poll(res, callback) => assert Refresh(p, res, callback) == p;
    case _ =>
  }

  /**
    While reads and writes fail the cached level stands and no callback runs, however often the
    mode changes or a callback is attached meanwhile.
   */
  lemma {:induction false} FailingRunKeepsLevel(p: Pin, ops: seq<Op>)
    requires forall op :: op in ops ==> HardwareFails(op)
    ensures RunAll(p, ops).status == p.status && RunAll(p, ops).calls == p.calls && RunAll(p, ops).dead == p.dead
    decreases |ops|
  {
    if !p.dead && ops != [] {
      assert ops[0] in ops;
      FailingOpKeepsLevel(p, ops[0]);
      FailingRunKeepsLevel(Run(p, ops[0]), ops[1..]);
    }
  }

  /** The cached mode tells the line's direction. */
  predicate Settled(p: Pin) {
    p.mode.OUTPUT? <==> p.line.output
  }

  lemma {:induction false} RunKeepsSettled(p: Pin, op: Op)
    requires Settled(p)
    ensures Settled(Run(p, op))
    decreases op, 1
  {
    match op
    case SetMode(m, a, r) => SetModeIsAllOrNothing(p, m, a, r);
    case Read(res, callback) => RunAllKeepsSettled(p.Sample(res), callback);
    case Poll(res, callback) => RunAllKeepsSettled(p.Sample(res), callback);
    case _ =>
  }

  lemma {:induction false} RunAllKeepsSettled(p: Pin, ops: seq<Op>)
    requires Settled(p)
    ensures Settled(RunAll(p, ops))
    decreases ops, 0
  {
    if !p.dead && ops != [] {
      RunKeepsSettled(p, ops[0]);
      RunAllKeepsSettled(Run(p, ops[0]), ops[1..]);
    }
  }

  /**
    A line is acquired in whatever direction it has. Once one mode change has succeeded, the
    cached mode is OUTPUT exactly if the line is an output, after every run, whatever fails.
   */
  lemma ModeIsDirection(line: Line, before: seq<Op>, m: PinMode, ops: seq<Op>)
    requires !RunAll(Fresh(line), before).dead
    ensures Settled(RunAll(Run(RunAll(Fresh(line), before), SetMode(m, 0, 0)), ops))
  {
    var p := RunAll(Fresh(line), before);
    SetModeIsAllOrNothing(p, m, 0, 0);
    RunAllKeepsSettled(Run(p, SetMode(m, 0, 0)), ops);
  }

  /** A mode change takes pin and line along, or neither; both libgpiod calls have to succeed. */
  lemma SetModeIsAllOrNothing(p: Pin, m: PinMode, addRet: int, reconfRet: int)
    ensures var p' := Run(p, SetMode(m, addRet, reconfRet));
            && p'.status == p.status
            && (if addRet == 0 && reconfRet == 0
                then p'.mode == m && (p'.line.output <==> m.OUTPUT?) && (m.OUTPUT? ==> p'.line.driven == p.status)
                else p' == p)
  {
  }

  /**
    A write that was accepted is read back, from the cache, exactly when the pin was or became
    an output; otherwise the next read samples the line again.
   */
  lemma WriteThenRead(p: Pin, s: PinStatus, addRet: int, reconfRet: int, res: int, callback: seq<Op>)
    requires IsLevel(s)
    ensures var p' := Run(p, Write(s, addRet, reconfRet, 0));
            && (p'.mode.OUTPUT? <==> p.mode.OUTPUT? || (addRet == 0 && reconfRet == 0))
            && p'.status == s && p'.line.driven == s
            && (p'.mode.OUTPUT? ==> Run(p', Read(res, callback)) == p')
            && (!p'.mode.OUTPUT? && res == 1 ==> Run(p', Read(res, [])).status == HIGH)
            && (!p'.mode.OUTPUT? && res == 0 ==> Run(p', Read(res, [])).status == LOW)
  {
  }

  /** A line that reads 1 is HIGH and one that reads 0 is LOW, to the caller and in the cache. */
  lemma ReadIsTheLine(p: Pin, callback: seq<Op>)
    requires !p.mode.OUTPUT? && (callback == [] || p.trigger == None)
    ensures Run(p, Read(1, callback)).status == HIGH && Run(p, Read(0, callback)).status == LOW
    ensures p.isr ==> Run(p, Poll(1, callback)).status == HIGH && Run(p, Poll(0, callback)).status == LOW
    ensures !p.isr ==> Run(p, Poll(1, callback)) == p && Run(p, Poll(0, callback)) == p
  {
    assert p.trigger == None ==> !p.Fires(1) && !p.Fires(0);
    assert callback == [] ==> RunAll(p.Sample(1), callback) == p.Sample(1);
    assert callback == [] ==> RunAll(p.Sample(0), callback) == p.Sample(0);
  }

  // ---- attach and detach ----

  predicate NoAttach(op: Op) {
    !op.Attach?
  }

  /** Nothing is called, and nothing aborts, from a detach until the next attach. */
  lemma {:induction false} DetachedStaysSilent(p: Pin, ops: seq<Op>)
    requires p.trigger == None && !p.dead && forall op :: op in ops ==> NoAttach(op)
    ensures RunAll(p, ops).calls == p.calls && !RunAll(p, ops).dead
    decreases |ops|
  {
    if ops != [] {
      assert NoAttach(ops[0]);
      DetachedStep(p, ops[0]);
      DetachedStaysSilent(Run(p, ops[0]), ops[1..]);
    }
  }

  lemma DetachedStep(p: Pin, op: Op)
    requires p.trigger == None && !p.dead && NoAttach(op)
    ensures Run(p, op).calls == p.calls && !Run(p, op).dead && Run(p, op).trigger == None
  {
    match op
    case Read(res, callback) => assert !p.Fires(res);
    case Poll(res, callback) => assert !p.Fires(res);
    case _ =>
  }

  lemma DetachSilences(p: Pin, ops: seq<Op>)
    requires !p.dead && forall op :: op in ops ==> NoAttach(op)
    ensures var p' := RunAll(Run(p, Detach), ops); p'.calls == p.calls && !p'.dead
  {
    DetachedStaysSilent(Run(p, Detach), ops);
  }

  // ---- assert(isr) ----

  predicate NeverNull(op: Op)
    decreases op
  {
    match op
    case Attach(isNull, _) => !isNull
    case Read(_, callback) => forall o :: o in callback ==> NeverNull(o)
    case Poll(_, callback) => forall o :: o in callback ==> NeverNull(o)
    case _ => true
  }

  ghost predicate Armed(p: Pin) {
    !p.dead && (p.trigger.Some? <==> p.isr)
  }

  lemma {:induction false} RunKeepsArmed(p: Pin, op: Op)
    requires Armed(p) && NeverNull(op)
    ensures Armed(Run(p, op))
    decreases op, 1
  {
    match op
    case Read(res, callback) => RunAllKeepsArmed(p.Sample(res), callback);
    case Poll(res, callback) => RunAllKeepsArmed(p.Sample(res), callback);
    case _ =>
  }

  /** With no null callback ever attached, assert(isr) never fails. */
  lemma {:induction false} RunAllKeepsArmed(p: Pin, ops: seq<Op>)
    requires Armed(p) && forall op :: op in ops ==> NeverNull(op)
    ensures Armed(RunAll(p, ops))
    decreases ops, 0
  {
    if ops != [] {
      RunKeepsArmed(p, ops[0]);
      RunAllKeepsArmed(Run(p, ops[0]), ops[1..]);
    }
  }

  /** It fails on a read exactly when the null callback attached last is due. */
  lemma NullCallbackAborts(p: Pin, when: PinStatus, res: int)
    requires !p.dead
    ensures var p' := Run(p, Attach(true, when));
            Run(p', Read(res, [])).dead <==>
              !p.mode.OUTPUT? && (res == 0 || res == 1) && Triggered(when, p.status, LevelOf(res))
  {
  }
}
