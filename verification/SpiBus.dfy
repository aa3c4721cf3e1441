/**
  cores/ardulinux/linux/LinuxHardwareSPI.cpp: chips shared through a map keyed by device path,
  one mutex per chip, and transactions whose end unlocks before it restores the clock.

  The objects come first; `Bus` then lets any number of threads run transactions through any
  number of LinuxHardwareSPI objects, one atomic action at a time.
 */
module SpiBus {
  import opened Wrappers

  type Path = string

  datatype Attached<+C> = NoChip | Simulated | Hardware(chip: C)

  /** A LinuxSPIChip: its device, its clock and its mutex. */
  datatype Chip = Chip(path: Path, defaultSpeed: nat, speed: nat, locked: bool)
  {
    function Lock(): Chip { this.(locked := true) }
    function SetSpeed(s: nat): Chip { this.(speed := s) }
    function Unlock(): Chip { this.(locked := false) }
    function Restore(): Chip { this.(speed := defaultSpeed) }
  }

  function OpenChip(path: Path, freq: nat): Chip {
    Chip(path, freq, freq, false)
  }

  class LinuxSPIChip {
    const path: Path
    const defaultSpeed: nat
    var speed: nat
    var locked: bool

    ghost function View(): Chip
      reads this
    {
      Chip(path, defaultSpeed, speed, locked)
    }

    constructor (path: Path, freq: nat)
      ensures View() == OpenChip(path, freq)
    {
      this.path, defaultSpeed, speed, locked := path, freq, freq, false;
    }

    /** Returns once the mutex is free, hence the precondition. */
    method BeginTransaction(clockSpeed: nat)
      requires !locked
      modifies this
      ensures View() == old(View()).Lock().SetSpeed(clockSpeed)
    {
      locked := true;
      speed := clockSpeed;
    }

    method EndTransaction()
      requires locked
      modifies this
      ensures View() == old(View()).Unlock().Restore()
    {
      locked := false;
      speed := defaultSpeed;
    }
  }

  /** SPI_map: entries are never removed. */
  class SpiMap {
    var chips: map<Path, LinuxSPIChip>

    constructor ()
      ensures chips == map[]
    {
      chips := map[];
    }

    ghost predicate Valid()
      reads this
    {
      forall p :: p in chips ==> chips[p].path == p
    }
  }

  class LinuxHardwareSPI {
    var spiString: Path
    var spiChip: Attached<LinuxSPIChip>

    constructor (path: Path)
      ensures spiString == path && spiChip == NoChip
    {
      spiString, spiChip := path, NoChip;
    }

    /** What a begin on the path now in `spiString` does to this object's chip and to the map. */
    twostate predicate Began(spiMap: SpiMap, freq: nat, opens: bool)
      reads this, spiMap, if spiChip.Hardware? then {spiChip.chip} else {}
    {
      if old(spiChip) != NoChip then spiChip == old(spiChip) && spiMap.chips == old(spiMap.chips)
      else if spiString in old(spiMap.chips) then
        spiChip == Hardware(old(spiMap.chips)[spiString]) && spiMap.chips == old(spiMap.chips)
      else if opens then
        && spiChip.Hardware? && fresh(spiChip.chip) && spiChip.chip.View() == OpenChip(spiString, freq)
        && spiMap.chips == old(spiMap.chips)[spiString := spiChip.chip]
      else spiChip == Simulated && spiMap.chips == old(spiMap.chips)
    }

    /** One chip per path: a path already in the map is never opened again. `opens` is the device's answer. */
    method Begin(spiMap: SpiMap, freq: nat, opens: bool)
      requires spiMap.Valid()
      modifies this`spiChip, spiMap
      ensures spiMap.Valid()
      ensures Began(spiMap, freq, opens)
    {
      if spiChip == NoChip {
        if spiString in spiMap.chips {
          spiChip := Hardware(spiMap.chips[spiString]);
        } else if opens {
          var chip := new LinuxSPIChip(spiString, freq);
          spiChip := Hardware(chip);
          spiMap.chips := spiMap.chips[spiString := chip];
        }
        if spiChip == NoChip {
          spiChip := Simulated;
        }
      }
    }

    method BeginNamed(spiMap: SpiMap, name: Option<Path>, freq: nat, opens: bool)
      requires spiMap.Valid()
      modifies this, spiMap
      ensures spiMap.Valid()
      ensures spiString == if name.Some? then name.value else old(spiString)
      ensures Began(spiMap, freq, opens)
    {
      if name.Some? {
        spiString := name.value;
      }
      Begin(spiMap, freq, opens);
    }

    method End()
      modifies this`spiChip
      ensures spiChip == NoChip
    {
      spiChip := NoChip;
    }

    /** Only a hardware chip serialises; the simulated one lets everybody through. */
    method BeginTransaction(clockSpeed: nat)
      requires spiChip.Hardware? ==> !spiChip.chip.locked
      modifies if spiChip.Hardware? then {spiChip.chip} else {}
      ensures spiChip.Hardware? ==> spiChip.chip.View() == old(spiChip.chip.View()).Lock().SetSpeed(clockSpeed)
    {
      if spiChip.Hardware? {
        spiChip.chip.BeginTransaction(clockSpeed);
      }
    }

    method EndTransaction()
      requires spiChip.Hardware? ==> spiChip.chip.locked
      modifies if spiChip.Hardware? then {spiChip.chip} else {}
      ensures spiChip.Hardware? ==> spiChip.chip.View() == old(spiChip.chip.View()).Unlock().Restore()
    {
      if spiChip.Hardware? {
        spiChip.chip.EndTransaction();
      }
    }
  }

  // ---- threads ----

  datatype Device = Device(path: Path, chip: Attached<nat>)

  /** Where a thread is in a transaction through device `via`; `clean` records that nobody was in the window. */
  datatype Thread =
    | Outside
    | Bypassing(via: nat)                                       // a simulated chip: nothing is locked
    | Locked(via: nat, id: nat, wanted: nat)                    // mutex taken, clock not yet set
    | Inside(via: nat, id: nat, wanted: nat, clean: bool)
    | Unlocked(via: nat, id: nat)                               // mutex given back, clock not yet restored

  datatype Bus = Bus(devices: seq<Device>, chips: seq<Chip>, table: map<Path, nat>, threads: seq<Thread>)

  datatype Step =
    | Begin(d: nat, name: Option<Path>, freq: nat, opens: bool)
    | End(d: nat)
    | Lock(t: nat, d: nat, speed: nat)
    | SetSpeed(t: nat)
    | Unlock(t: nat)
    | Restore(t: nat)

  /** Objects for these device paths, none begun. */
  function Start(paths: seq<Path>, threads: nat): Bus {
    Bus(seq(|paths|, (d: nat) requires d < |paths| => Device(paths[d], NoChip)), [], map[],
        seq(threads, _ => Outside))
  }

  predicate Holds(th: Thread, id: nat) {
    (th.Locked? || th.Inside?) && th.id == id
  }

  predicate InWindow(th: Thread, id: nat) {
    th.Unlocked? && th.id == id
  }

  ghost predicate WindowEmpty(b: Bus, id: nat) {
    forall t :: 0 <= t < |b.threads| ==> !InWindow(b.threads[t], id)
  }

  /** Transactions are bracketed: a device is not begun or ended while a thread uses it. */
  ghost predicate Unused(b: Bus, d: nat) {
    forall t :: 0 <= t < |b.threads| ==> b.threads[t] == Outside || b.threads[t].via != d
  }

  ghost predicate Enabled(b: Bus, step: Step) {
    match step
    case Begin(d, _, _, _) => d < |b.devices| && Unused(b, d)
    case End(d) => d < |b.devices| && Unused(b, d)
    case Lock(t, d, _) =>
      && t < |b.threads| && b.threads[t] == Outside && d < |b.devices|
      && (b.devices[d].chip.Hardware? ==>
            b.devices[d].chip.chip < |b.chips| && !b.chips[b.devices[d].chip.chip].locked)
    case SetSpeed(t) => t < |b.threads| && b.threads[t].Locked? && b.threads[t].id < |b.chips|
    case Unlock(t) =>
      && t < |b.threads|
      && (b.threads[t].Bypassing? || (b.threads[t].Inside? && b.threads[t].id < |b.chips|))
    case Restore(t) => t < |b.threads| && b.threads[t].Unlocked? && b.threads[t].id < |b.chips|
  }

  function Attach(b: Bus, d: nat, freq: nat, opens: bool): Bus
    requires d < |b.devices|
  {
    var dev := b.devices[d];
    if dev.chip != NoChip then b
    else if dev.path in b.table then b.(devices := b.devices[d := dev.(chip := Hardware(b.table[dev.path]))])
    else if opens then
      b.(devices := b.devices[d := dev.(chip := Hardware(|b.chips|))],
         chips := b.chips + [OpenChip(dev.path, freq)],
         table := b.table[dev.path := |b.chips|])
    else b.(devices := b.devices[d := dev.(chip := Simulated)])
  }

  ghost function Do(b: Bus, step: Step): Bus
    requires Enabled(b, step)
  {
    match step
    case Begin(d, name, freq, opens) =>
      var path := if name.Some? then name.value else b.devices[d].path;
      Attach(b.(devices := b.devices[d := b.devices[d].(path := path)]), d, freq, opens)
    case End(d) => b.(devices := b.devices[d := b.devices[d].(chip := NoChip)])
    case Lock(t, d, speed) =>
      if b.devices[d].chip.Hardware? then
        var id := b.devices[d].chip.chip;
        b.(chips := b.chips[id := b.chips[id].Lock()], threads := b.threads[t := Locked(d, id, speed)])
      else b.(threads := b.threads[t := Bypassing(d)])
    case SetSpeed(t) =>
      var th := b.threads[t];
      b.(chips := b.chips[th.id := b.chips[th.id].SetSpeed(th.wanted)],
         threads := b.threads[t := Inside(th.via, th.id, th.wanted, WindowEmpty(b, th.id))])
    case Unlock(t) =>
      var th := b.threads[t];
      if th.Bypassing? then b.(threads := b.threads[t := Outside])
      else b.(chips := b.chips[th.id := b.chips[th.id].Unlock()],
              threads := b.threads[t := Unlocked(th.via, th.id)])
    case Restore(t) =>
      var th := b.threads[t];
      b.(chips := b.chips[th.id := b.chips[th.id].Restore()], threads := b.threads[t := Outside])
  }

  ghost predicate Legal(b: Bus, steps: seq<Step>)
    decreases |steps|
  {
    steps != [] ==> Enabled(b, steps[0]) && Legal(Do(b, steps[0]), steps[1..])
  }

  ghost function After(b: Bus, steps: seq<Step>): Bus
    requires Legal(b, steps)
    decreases |steps|
  {
    if steps == [] then b else After(Do(b, steps[0]), steps[1..])
  }

  // ---- invariants ----

  /** The table and the chips list each other: one chip per path. */
  ghost predicate OneChipPerPath(b: Bus) {
    && (forall p :: p in b.table ==> b.table[p] < |b.chips| && b.chips[b.table[p]].path == p)
    && (forall id :: 0 <= id < |b.chips| ==> b.chips[id].path in b.table && b.table[b.chips[id].path] == id)
    && (forall d :: 0 <= d < |b.devices| && b.devices[d].chip.Hardware? ==> b.devices[d].chip.chip < |b.chips|)
    && (forall t :: 0 <= t < |b.threads| && !b.threads[t].Outside? && !b.threads[t].Bypassing? ==>
          b.threads[t].id < |b.chips|)
  }

  ghost predicate OneHolder(b: Bus) {
    forall t, u, id: nat | 0 <= t < |b.threads| && 0 <= u < |b.threads| ::
      Holds(b.threads[t], id) && Holds(b.threads[u], id) ==> t == u
  }

  ghost predicate HeldMeansLocked(b: Bus) {
    forall t, id: nat :: 0 <= t < |b.threads| && id < |b.chips| && Holds(b.threads[t], id) ==> b.chips[id].locked
  }

  ghost predicate ClockKept(b: Bus) {
    && (forall id: nat :: id < |b.chips| && !b.chips[id].locked && WindowEmpty(b, id) ==>
          b.chips[id].speed == b.chips[id].defaultSpeed)
    && (forall t ::
          0 <= t < |b.threads| && b.threads[t].Inside? && b.threads[t].clean && b.threads[t].id < |b.chips| ==>
            WindowEmpty(b, b.threads[t].id) && b.chips[b.threads[t].id].speed == b.threads[t].wanted)
  }

  ghost predicate Inv(b: Bus) {
    OneChipPerPath(b) && OneHolder(b) && HeldMeansLocked(b) && ClockKept(b)
  }

  lemma StartInv(paths: seq<Path>, threads: nat)
    ensures Inv(Start(paths, threads))
  {
  }

  lemma AttachKeepsInv(b: Bus, d: nat, freq: nat, opens: bool)
    requires Inv(b) && d < |b.devices|
    ensures Inv(Attach(b, d, freq, opens))
    ensures Attach(b, d, freq, opens).threads == b.threads && b.chips <= Attach(b, d, freq, opens).chips
  {
    var b' := Attach(b, d, freq, opens);
    assert b'.threads == b.threads;
    assert forall id: nat :: id < |b.chips| ==> b'.chips[id] == b.chips[id];
    assert forall id: nat :: WindowEmpty(b', id) == WindowEmpty(b, id);
  }

  lemma RenameKeepsInv(b: Bus, d: nat, dev: Device)
    requires Inv(b) && d < |b.devices| && (dev.chip.Hardware? ==> dev.chip.chip < |b.chips|)
    ensures Inv(b.(devices := b.devices[d := dev]))
  {
    var b' := b.(devices := b.devices[d := dev]);
    assert forall id: nat :: WindowEmpty(b', id) == WindowEmpty(b, id);
  }

  lemma LockKeepsInv(b: Bus, t: nat, d: nat, speed: nat)
    requires Inv(b) && Enabled(b, Lock(t, d, speed))
    ensures Inv(Do(b, Lock(t, d, speed)))
  {
    var b' := Do(b, Lock(t, d, speed));
    WindowStays(b, b', t);
  }

  /** A thread that neither enters nor leaves the window leaves it as it was. */
  lemma WindowStays(b: Bus, b': Bus, t: nat)
    requires t < |b.threads| == |b'.threads| && b'.threads == b.threads[t := b'.threads[t]]
    requires !b.threads[t].Unlocked? && !b'.threads[t].Unlocked?
    ensures forall id: nat :: WindowEmpty(b', id) == WindowEmpty(b, id)
  {
    forall id: nat
      ensures WindowEmpty(b', id) == WindowEmpty(b, id)
    {
      assert forall u :: 0 <= u < |b.threads| ==> InWindow(b'.threads[u], id) == InWindow(b.threads[u], id);
    }
  }

  lemma SetSpeedKeepsInv(b: Bus, t: nat)
    requires Inv(b) && Enabled(b, SetSpeed(t))
    ensures Inv(Do(b, SetSpeed(t)))
  {
    WindowStays(b, Do(b, SetSpeed(t)), t);
    var id := b.threads[t].id;
    assert Holds(b.threads[t], id);
    assert forall u :: 0 <= u < |b.threads| && u != t ==> !Holds(b.threads[u], id);
  }

  lemma UnlockKeepsInv(b: Bus, t: nat)
    requires Inv(b) && Enabled(b, Unlock(t))
    ensures Inv(Do(b, Unlock(t)))
  {
    var b' := Do(b, Unlock(t));
    if b.threads[t].Bypassing? {
      WindowStays(b, b', t);
    } else {
      var id := b.threads[t].id;
      assert InWindow(b'.threads[t], id);
      assert forall u :: 0 <= u < |b.threads| && u != t ==> b'.threads[u] == b.threads[u] && !Holds(b'.threads[u], id);
      forall i: nat | i != id
        ensures WindowEmpty(b', i) == WindowEmpty(b, i)
      {
        assert forall u :: 0 <= u < |b.threads| ==> InWindow(b'.threads[u], i) == InWindow(b.threads[u], i);
      }
    }
  }

  lemma RestoreKeepsInv(b: Bus, t: nat)
    requires Inv(b) && Enabled(b, Restore(t))
    ensures Inv(Do(b, Restore(t)))
  {
    var b' := Do(b, Restore(t));
    var id := b.threads[t].id;
    assert InWindow(b.threads[t], id);
    forall i: nat | i != id
      ensures WindowEmpty(b', i) == WindowEmpty(b, i)
    {
      assert forall u :: 0 <= u < |b.threads| ==> InWindow(b'.threads[u], i) == InWindow(b.threads[u], i);
    }
    assert forall u :: 0 <= u < |b.threads| && b.threads[u].Inside? && b.threads[u].clean ==> b.threads[u].id != id;
  }

  lemma InvStep(b: Bus, step: Step)
    requires Inv(b) && Enabled(b, step)
    ensures Inv(Do(b, step))
  {
    match step
    case Begin(d, name, freq, opens) =>
      var dev := b.devices[d].(path := if name.Some? then name.value else b.devices[d].path);
      RenameKeepsInv(b, d, dev);
      AttachKeepsInv(b.(devices := b.devices[d := dev]), d, freq, opens);
    case End(d) => RenameKeepsInv(b, d, b.devices[d].(chip := NoChip));
    case Lock(t, d, speed) => LockKeepsInv(b, t, d, speed);
    case SetSpeed(t) => SetSpeedKeepsInv(b, t);
    case Unlock(t) => UnlockKeepsInv(b, t);
    case Restore(t) => RestoreKeepsInv(b, t);
  }

  lemma {:induction false} InvRun(b: Bus, steps: seq<Step>)
    requires Inv(b) && Legal(b, steps)
    ensures Inv(After(b, steps))
    decreases |steps|
  {
    if steps != [] {
      InvStep(b, steps[0]);
      InvRun(Do(b, steps[0]), steps[1..]);
    }
  }

  // ---- what the mutex gives, and what unlocking early takes away ----

  /** From taking the mutex to giving it back. */
  predicate InTransaction(th: Thread) {
    th.Locked? || th.Inside?
  }

  /** Transactions on one device path never overlap, through however many objects they run. */
  lemma NoOverlapOnAPath(paths: seq<Path>, threads: nat, steps: seq<Step>, t: nat, u: nat)
    requires Legal(Start(paths, threads), steps)
    requires var b := After(Start(paths, threads), steps);
             t < |b.threads| && u < |b.threads| && InTransaction(b.threads[t]) && InTransaction(b.threads[u])
             && b.threads[t].id < |b.chips| && b.threads[u].id < |b.chips|
             && b.chips[b.threads[t].id].path == b.chips[b.threads[u].id].path
    ensures t == u
  {
    StartInv(paths, threads);
    InvRun(Start(paths, threads), steps);
    var b := After(Start(paths, threads), steps);
    assert b.threads[t].id == b.table[b.chips[b.threads[t].id].path] == b.threads[u].id;
    assert Holds(b.threads[t], b.threads[t].id) && Holds(b.threads[u], b.threads[t].id);
  }

  /** With the mutex free and nobody between unlock and restore, the clock is the default. */
  lemma IdleClockIsDefault(paths: seq<Path>, threads: nat, steps: seq<Step>, id: nat)
    requires Legal(Start(paths, threads), steps)
    requires var b := After(Start(paths, threads), steps);
             id < |b.chips| && !b.chips[id].locked && WindowEmpty(b, id)
    ensures var b := After(Start(paths, threads), steps);
            b.chips[id].speed == b.chips[id].defaultSpeed
  {
    StartInv(paths, threads);
    InvRun(Start(paths, threads), steps);
  }

  /** The steps of other threads; the objects may be begun and ended as well. */
  predicate NotBy(t: nat, step: Step) {
    match step
    case Lock(u, _, _) => u != t
    case SetSpeed(u) => u != t
    case Unlock(u) => u != t
    case Restore(u) => u != t
    case _ => true
  }

  /**
    A transaction that set its clock with nobody in the window keeps that clock for as long as
    it lasts, whatever the other threads do.
   */
  lemma {:induction false} CleanClockIsKept(b: Bus, t: nat, steps: seq<Step>)
    requires Inv(b) && t < |b.threads| && b.threads[t].Inside? && b.threads[t].clean
    requires Legal(b, steps) && forall step :: step in steps ==> NotBy(t, step)
    ensures var b', th := After(b, steps), b.threads[t];
            && t < |b'.threads| && b'.threads[t] == th && th.id < |b'.chips|
            && b'.chips[th.id].speed == th.wanted
    decreases |steps|
  {
    if steps != [] {
      assert steps[0] in steps;
      InvStep(b, steps[0]);
      CleanClockIsKept(Do(b, steps[0]), t, steps[1..]);
    }
  }

  /**
    Otherwise it is at the mercy of any thread still in the window, whose restore it cannot
    stop: its clock is lost exactly if it is not the default.
   */
  lemma DirtyClockIsLost(b: Bus, t: nat, u: nat)
    requires Inv(b) && Enabled(b, SetSpeed(t)) && u < |b.threads| && InWindow(b.threads[u], b.threads[t].id)
    ensures var b1 := Do(b, SetSpeed(t));
            var id, wanted := b.threads[t].id, b.threads[t].wanted;
            && !b1.threads[t].clean
            && Enabled(b1, Restore(u))
            && Do(b1, Restore(u)).threads[t] == b1.threads[t]
            && (Do(b1, Restore(u)).chips[id].speed == wanted <==> wanted == b.chips[id].defaultSpeed)
  {
  }

  lemma LegalCons(b: Bus, step: Step, rest: seq<Step>)
    requires Enabled(b, step) && Legal(Do(b, step), rest)
    ensures Legal(b, [step] + rest) && After(b, [step] + rest) == After(Do(b, step), rest)
  {
    assert ([step] + rest)[1..] == rest;
  }

  /** Thread 0 has given the mutex back and not restored the clock; thread 1 comes in meanwhile. */
  lemma OvertakeRestore(b: Bus, wanted: nat) returns (steps: seq<Step>)
    requires |b.devices| == 1 && b.devices[0].chip == Hardware(0) && |b.chips| == 1 && !b.chips[0].locked
    requires b.threads == [Unlocked(0, 0), Outside]
    ensures Legal(b, steps)
    ensures After(b, steps).threads == [Outside, Inside(0, 0, wanted, false)]
    ensures After(b, steps).chips == [b.chips[0].Lock().Restore()]
  {
    var b1 := Do(b, Lock(1, 0, wanted));
    assert InWindow(b1.threads[0], 0);
    var b2 := Do(b1, SetSpeed(1));
    assert b2.threads == [Unlocked(0, 0), Inside(0, 0, wanted, false)];
    LegalCons(b2, Restore(0), []);
    LegalCons(b1, SetSpeed(1), [Restore(0)] + []);
    LegalCons(b, Lock(1, 0, wanted), [SetSpeed(1)] + ([Restore(0)] + []));
    steps := [Lock(1, 0, wanted)] + ([SetSpeed(1)] + ([Restore(0)] + []));
  }

  /** One object, one device, two threads: thread 0 gives the mutex back and is slow to restore. */
  lemma LoseClock(path: Path, freq: nat, first: nat, wanted: nat) returns (steps: seq<Step>)
    ensures Legal(Start([path], 2), steps)
    ensures var b := After(Start([path], 2), steps);
            && b.threads == [Outside, Inside(0, 0, wanted, false)]
            && b.chips == [Chip(path, freq, freq, true)]
  {
    var b0 := Start([path], 2);
    var b1 := Do(b0, Begin(0, None, freq, true));
    assert b1.chips == [OpenChip(path, freq)] && b1.devices == [Device(path, Hardware(0))];
    var b2 := Do(b1, Lock(0, 0, first));
    var b3 := Do(b2, SetSpeed(0));
    var b4 := Do(b3, Unlock(0));
    assert b4.threads == [Unlocked(0, 0), Outside] && b4.chips == [Chip(path, freq, first, false)];
    steps := OvertakeRestore(b4, wanted);
    LegalCons(b3, Unlock(0), steps);
    LegalCons(b2, SetSpeed(0), [Unlock(0)] + steps);
    LegalCons(b1, Lock(0, 0, first), [SetSpeed(0)] + ([Unlock(0)] + steps));
    steps := [Lock(0, 0, first)] + ([SetSpeed(0)] + ([Unlock(0)] + steps));
    LegalCons(b0, Begin(0, None, freq, true), steps);
    steps := [Begin(0, None, freq, true)] + steps;
  }
}
