/** The pin table of cores/ardulinux/ArduLinuxGPIO.cpp: gpioInit, gpioBind and gpioIdle. */
module GpioTable {
  import opened Wrappers
  import opened GpioPin
  import opened GpioEdges

  /** One table entry; a pin that is not hardware is a SimGPIOPin, whose hardware read is its own status. */
  datatype Slot = Slot(number: nat, hardware: bool, pin: Pin)
  {
    function Sees(res: int): int {
      if hardware then res else if pin.status.HIGH? then 1 else 0
    }

    function Polled(res: int): Slot {
      this.(pin := Run(pin, Poll(Sees(res), [])))
    }

    /** A hardware pin that is an input with a callback attached for `when`. */
    predicate Watches(when: PinStatus) {
      hardware && Watching(pin, when)
    }

    predicate PollThrows(res: int) {
      pin.isr && pin.ReadFails(Sees(res))
    }
  }

  /** A hardware input with a callback attached, whose line returned neither 0 nor 1. */
  predicate CannotRead(slot: Slot, res: int) {
    slot.hardware && slot.pin.isr && !slot.pin.mode.OUTPUT? && res != 0 && res != 1
  }

  function SimSlot(number: nat): Slot {
    Slot(number, false, Fresh(Line(false, LOW)))
  }

  function SimSlots(n: nat): seq<Slot> {
    seq(n, (i: nat) => SimSlot(i))
  }

  class PinTable {
    var numGpios: nat
    var realHardware: bool
    var pins: seq<Slot>

    constructor ()
      ensures numGpios == 0 && !realHardware && pins == []
    {
      numGpios, realHardware, pins := 0, false, [];
    }

    /** Appends to whatever is there. */
    method GpioInit(n: nat)
      modifies this
      ensures numGpios == n && pins == old(pins) + SimSlots(n) && realHardware == old(realHardware)
    {
      numGpios := n;
      for i := 0 to n
        invariant numGpios == n && pins == old(pins) + SimSlots(n)[..i] && realHardware == old(realHardware)
      {
        pins := pins + [SimSlot(i)];
        assert SimSlots(n)[..i + 1] == SimSlots(n)[..i] + [SimSlots(n)[i]];
      }
      assert SimSlots(n)[..n] == SimSlots(n);
    }

    method GpioBind(slot: Slot)
      requires slot.number < numGpios <= |pins|
      modifies this
      ensures pins == old(pins)[slot.number := slot] && realHardware && numGpios == old(numGpios)
    {
      pins := pins[slot.number := slot];
      realHardware := true;
    }

    /**
      Polls the pins in order until one throws. `results` are the hardware reads; `next` is where
      it stopped.
     */
    method GpioIdle(results: seq<int>) returns (threw: bool, ghost next: nat)
      requires numGpios <= |pins| && |results| == numGpios
      modifies this`pins
      ensures |pins| == |old(pins)| && next <= numGpios
      ensures threw <==> next < numGpios
      ensures threw ==> CannotRead(old(pins)[next], results[next])
      ensures forall i :: 0 <= i < next ==> !CannotRead(old(pins)[i], results[i])
      ensures forall i :: 0 <= i < |pins| ==>
                pins[i] == if i < next then old(pins)[i].Polled(results[i]) else old(pins)[i]
      ensures !threw ==> pins[..numGpios] == Swept(old(pins)[..numGpios], [results])
    {
      var i := 0;
      while i < numGpios
        invariant 0 <= i <= numGpios && |pins| == |old(pins)|
        invariant forall j :: 0 <= j < i ==> !old(pins)[j].PollThrows(results[j])
        invariant forall j :: 0 <= j < |pins| ==>
                    pins[j] == if j < i then old(pins)[j].Polled(results[j]) else old(pins)[j]
      {
        if pins[i].PollThrows(results[i]) {
          return true, i;
        }
        pins := pins[i := pins[i].Polled(results[i])];
        i := i + 1;
      }
      threw, next := false, i;
      assert [results][1..] == [];
    }
  }

  /** getGPIO(n) is the pin with number n, for every n it accepts. */
  ghost predicate Dispatches(pins: seq<Slot>, numGpios: nat) {
    numGpios <= |pins| && forall n :: 0 <= n < numGpios ==> pins[n].number == n
  }

  /** Binding keeps dispatch right, and touches no other pin. */
  lemma BindKeepsDispatch(pins: seq<Slot>, numGpios: nat, slot: Slot)
    requires Dispatches(pins, numGpios) && slot.number < numGpios
    ensures Dispatches(pins[slot.number := slot], numGpios)
  {
  }

  /** A second gpioInit leaves the old pins in front: dispatch survives exactly if it asks for no more pins. */
  lemma SecondInit(first: nat, second: nat)
    ensures Dispatches([] + SimSlots(first), first)
    ensures Dispatches(SimSlots(first) + SimSlots(second), second) <==> second <= first || first == 0
  {
    var pins := SimSlots(first) + SimSlots(second);
    if second > first > 0 {
      assert pins[first].number == 0;
    }
  }

  /** The pins a first initialisation makes: simulated, HIGH, as inputs with nothing attached. */
  lemma FreshSlots(n: nat, i: nat)
    requires i < n
    ensures var slot := SimSlots(n)[i];
            && slot.number == i && !slot.hardware
            && slot.pin.status == HIGH && slot.pin.mode == INPUT_PULLUP && !slot.pin.isr && slot.pin.calls == []
  {
  }

  // ---- sweeps ----

  /** What one sweep does to a pin it gets to, in terms of what the line returned. */
  lemma SweepOfPin(slot: Slot, when: PinStatus, res: int)
    requires slot.Watches(when) && (res == 0 || res == 1)
    ensures var pin, pin' := slot.pin, slot.Polled(res).pin;
            && pin'.status == (if res == 1 then HIGH else LOW)
            && (|pin'.calls| > |pin.calls| <==>
                  match when
                  case HIGH => res == 1
                  case LOW => res == 0
                  case RISING => pin.status == LOW && res == 1
                  case FALLING => pin.status == HIGH && res == 0
                  case CHANGE => pin.status != if res == 1 then HIGH else LOW)
            && pin.calls <= pin'.calls && |pin'.calls| <= |pin.calls| + 1
            && pin'.mode == pin.mode && Watching(pin', when)
  {
    ReadIsTheLine(slot.pin, []);
    assert RunAll(slot.pin.Sample(res), []) == slot.pin.Sample(res);
  }

  /** A pin without a callback is left alone, and a simulated one keeps its level. */
  lemma SweepLeavesAlone(slot: Slot, res: int)
    ensures !slot.pin.isr ==> slot.Polled(res) == slot
    ensures !slot.hardware && IsLevel(slot.pin.status) ==> slot.Polled(res).pin.status == slot.pin.status
    ensures slot.Polled(res).number == slot.number && slot.Polled(res).hardware == slot.hardware
  {
    var sampled := slot.pin.Sample(slot.Sees(res));
    assert RunAll(sampled, []) == sampled;
    assert Refresh(slot.pin, slot.Sees(res), []) == sampled;
    assert sampled.status == if slot.pin.mode.OUTPUT? || slot.pin.ReadFails(slot.Sees(res)) then slot.pin.status
                             else LevelOf(slot.Sees(res));
  }

  /** The table after sweeps none of which throws; row `k` holds the results of sweep `k`. */
  function Swept(pins: seq<Slot>, rows: seq<seq<int>>): seq<Slot>
    requires forall row :: row in rows ==> |row| == |pins|
    decreases |rows|
  {
    if rows == [] then pins
    else
      assert rows[0] in rows;
      Swept(seq(|pins|, (i: nat) requires i < |pins| => pins[i].Polled(rows[0][i])), rows[1..])
  }

  function Column(rows: seq<seq<int>>, i: nat): seq<int>
    requires forall row :: row in rows ==> i < |row|
  {
    if rows == [] then [] else assert rows[0] in rows; [rows[0][i]] + Column(rows[1..], i)
  }

  function Polls(results: seq<int>): seq<Op> {
    seq(|results|, (k: nat) requires k < |results| => Poll(results[k], []))
  }

  lemma {:induction false} PollsResults(results: seq<int>)
    ensures (forall op :: op in Polls(results) ==> Plain(op)) && Results(Polls(results)) == results
  {
    if results != [] {
      PollsResults(results[1..]);
      assert Polls(results)[1..] == Polls(results[1..]);
    }
  }

  /** To one hardware pin, sweeps of the table are a run of polls of that pin. */
  lemma {:induction false} SweepsArePolls(pins: seq<Slot>, rows: seq<seq<int>>, i: nat)
    requires i < |pins| && pins[i].hardware && !pins[i].pin.dead && pins[i].pin.isr
    requires forall row :: row in rows ==> |row| == |pins|
    ensures |Swept(pins, rows)| == |pins|
    ensures Swept(pins, rows)[i].pin == RunAll(pins[i].pin, Polls(Column(rows, i)))
    decreases |rows|
  {
    if rows == [] {
      assert Polls([]) == [];
    } else {
      assert rows[0] in rows;
      var next := seq(|pins|, (k: nat) requires k < |pins| => pins[k].Polled(rows[0][k]));
      var column := Column(rows, i);
      assert column == [rows[0][i]] + Column(rows[1..], i);
      assert Polls(column)[0] == Poll(rows[0][i], []) && Polls(column)[1..] == Polls(column[1..]);
      PollKeepsAttached(pins[i].pin, rows[0][i]);
      SweepsArePolls(next, rows[1..], i);
    }
  }

  lemma PollKeepsAttached(p: Pin, res: int)
    requires p.isr && !p.dead
    ensures Run(p, Poll(res, [])).isr && !Run(p, Poll(res, [])).dead
  {
    assert RunAll(p.Sample(res), []) == p.Sample(res);
  }

  /**
    Over any number of sweeps, a hardware input's callback runs once per rise, fall or change of
    the values its line returned, and its cached level is the last of them.
   */
  lemma SweepsCountTurns(pins: seq<Slot>, rows: seq<seq<int>>, i: nat, when: PinStatus)
    requires i < |pins| && pins[i].Watches(when) && forall row :: row in rows ==> |row| == |pins|
    requires when == CHANGE || when == RISING || when == FALLING
    ensures |Swept(pins, rows)| == |pins|
    ensures var p, p' := pins[i].pin, Swept(pins, rows)[i].pin;
            var values := [if p.status == HIGH then 1 else 0] + Values(Column(rows, i));
            && |p'.calls| - |p.calls| == Turns(values, when != FALLING, when != RISING)
            && p'.status == if values[|values| - 1] == 1 then HIGH else LOW
  {
    var p, column := pins[i].pin, Column(rows, i);
    SweepsArePolls(pins, rows, i);
    PollsResults(column);
    assert Run(p, Attach(false, when)) == p;
    CallsCountTurns(p, when, Polls(column));
  }
}
