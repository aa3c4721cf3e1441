/**
  The objects of SpiBus.dfy do what its steps say: a bus made of SPI objects, chip objects and
  the map stands for a `Bus`, and each method, run without interruption, takes it through the
  steps of that name.
 */
module SpiBusObjects {
  import opened Wrappers
  import opened SpiBus

  ghost predicate SameChip(attached: Attached<LinuxSPIChip>, dev: Attached<nat>, chips: seq<LinuxSPIChip>) {
    match attached
    case NoChip => dev == NoChip
    case Simulated => dev == Simulated
    case Hardware(chip) => dev.Hardware? && dev.chip < |chips| && chips[dev.chip] == chip
  }

  /** The fields of each SPI object. */
  ghost function Fields(devices: seq<LinuxHardwareSPI>): seq<(Path, Attached<LinuxSPIChip>)>
    reads devices
  {
    seq(|devices|, (d: nat) requires d < |devices| reads devices => (devices[d].spiString, devices[d].spiChip))
  }

  ghost predicate SameDevices(b: Bus, fields: seq<(Path, Attached<LinuxSPIChip>)>, chips: seq<LinuxSPIChip>) {
    && |fields| == |b.devices|
    && forall d :: 0 <= d < |fields| ==>
         fields[d].0 == b.devices[d].path && SameChip(fields[d].1, b.devices[d].chip, chips)
  }

  ghost predicate SameChips(b: Bus, chips: seq<LinuxSPIChip>)
    reads chips
  {
    && |chips| == |b.chips|
    && (forall i, j :: 0 <= i < j < |chips| ==> chips[i] != chips[j])
    && (forall id :: 0 <= id < |chips| ==> chips[id].View() == b.chips[id])
  }

  ghost predicate SameTable(b: Bus, chips: seq<LinuxSPIChip>, known: map<Path, LinuxSPIChip>) {
    && known.Keys == b.table.Keys
    && (forall p :: p in b.table ==> b.table[p] < |chips| && known[p] == chips[b.table[p]])
  }

  ghost predicate Distinct(devices: seq<LinuxHardwareSPI>) {
    forall i, j :: 0 <= i < j < |devices| ==> devices[i] != devices[j]
  }

  /** These objects are the bus `b`, its threads aside. */
  ghost predicate Represents(b: Bus, devices: seq<LinuxHardwareSPI>, chips: seq<LinuxSPIChip>, spiMap: SpiMap)
    reads devices, chips, spiMap
  {
    && Distinct(devices)
    && SameDevices(b, Fields(devices), chips)
    && SameChips(b, chips)
    && SameTable(b, chips, spiMap.chips)
  }

  function Named(b: Bus, d: nat, name: Option<Path>): Path
    requires d < |b.devices|
  {
    if name.Some? then name.value else b.devices[d].path
  }

  /** A begin that opens nothing: the object keeps its chip, or finds one in the map, or simulates. */
  lemma BeginKeepsSame(b: Bus, fields: seq<(Path, Attached<LinuxSPIChip>)>, chips: seq<LinuxSPIChip>,
                       known: map<Path, LinuxSPIChip>, d: nat, name: Option<Path>, freq: nat, opens: bool)
    requires SameDevices(b, fields, chips) && SameTable(b, chips, known) && Enabled(b, Begin(d, name, freq, opens))
    requires fields[d].1 != NoChip || Named(b, d, name) in known || !opens
    ensures var b', path := Do(b, Begin(d, name, freq, opens)), Named(b, d, name);
            var chip := if fields[d].1 != NoChip then fields[d].1
                        else if path in known then Hardware(known[path]) else Simulated;
            && b'.chips == b.chips
            && SameDevices(b', fields[d := (path, chip)], chips) && SameTable(b', chips, known)
  {
    assert SameChip(fields[d].1, b.devices[d].chip, chips);
  }

  /** A begin that opens the device. */
  lemma BeginOpensSame(b: Bus, fields: seq<(Path, Attached<LinuxSPIChip>)>, chips: seq<LinuxSPIChip>,
                       known: map<Path, LinuxSPIChip>, d: nat, name: Option<Path>, freq: nat, chip: LinuxSPIChip)
    requires SameDevices(b, fields, chips) && SameTable(b, chips, known) && Enabled(b, Begin(d, name, freq, true))
    requires fields[d].1 == NoChip && Named(b, d, name) !in known && |chips| == |b.chips|
    ensures var b', path := Do(b, Begin(d, name, freq, true)), Named(b, d, name);
            && b'.chips == b.chips + [OpenChip(path, freq)]
            && SameDevices(b', fields[d := (path, Hardware(chip))], chips + [chip])
            && SameTable(b', chips + [chip], known[path := chip])
  {
    assert SameChip(fields[d].1, b.devices[d].chip, chips);
  }

  method BeginSteps(devices: seq<LinuxHardwareSPI>, ghost chips: seq<LinuxSPIChip>, spiMap: SpiMap, ghost b: Bus,
                    d: nat, name: Option<Path>, freq: nat, opens: bool)
    returns (ghost chips': seq<LinuxSPIChip>)
    requires Represents(b, devices, chips, spiMap) && spiMap.Valid()
    requires d < |devices| && Enabled(b, Begin(d, name, freq, opens))
    modifies devices[d], spiMap
    ensures spiMap.Valid() && chips <= chips'
    ensures Represents(Do(b, Begin(d, name, freq, opens)), devices, chips', spiMap)
  {
    ghost var fields, known, path := Fields(devices), spiMap.chips, Named(b, d, name);
    devices[d].BeginNamed(spiMap, name, freq, opens);
    assert Fields(devices) == fields[d := (path, devices[d].spiChip)];
    if fields[d].1 != NoChip || path in known || !opens {
      BeginKeepsSame(b, fields, chips, known, d, name, freq, opens);
      chips' := chips;
    } else {
      BeginOpensSame(b, fields, chips, known, d, name, freq, devices[d].spiChip.chip);
      ghost var chip := devices[d].spiChip.chip;
      chips' := chips + [chip];
      assert chip !in chips && chip.View() == OpenChip(path, freq);
      assert forall id :: 0 <= id < |chips| ==> chips'[id] == chips[id] && chips[id].View() == b.chips[id];
    }
  }

  /** A thread in a transaction goes on with the chip it began on: its device keeps it meanwhile. */
  predicate ViaRight(b: Bus, th: Thread) {
    th.Outside?
    || (th.via < |b.devices|
        && if th.Bypassing? then !b.devices[th.via].chip.Hardware? else b.devices[th.via].chip == Hardware(th.id))
  }

  ghost predicate ViaKept(b: Bus) {
    forall t :: 0 <= t < |b.threads| ==> ViaRight(b, b.threads[t])
  }

  lemma ViaKeptStep(b: Bus, step: Step)
    requires Enabled(b, step) && ViaKept(b)
    ensures ViaKept(Do(b, step))
  {
    var b' := Do(b, step);
    match step
    case Begin(d, _, _, _) =>
      assert b'.threads == b.threads && forall i :: 0 <= i < |b.devices| && i != d ==> b'.devices[i] == b.devices[i];
    case End(d) =>
      assert b'.threads == b.threads && forall i :: 0 <= i < |b.devices| && i != d ==> b'.devices[i] == b.devices[i];
    case Lock(t, d, _) =>
      assert b'.devices == b.devices && b'.threads == b.threads[t := b'.threads[t]];
    case SetSpeed(t) =>
      assert ViaRight(b, b.threads[t]);
      assert b'.devices == b.devices && b'.threads == b.threads[t := b'.threads[t]];
    case Unlock(t) =>
      assert ViaRight(b, b.threads[t]);
      assert b'.devices == b.devices && b'.threads == b.threads[t := b'.threads[t]];
    case Restore(t) =>
      assert b'.devices == b.devices && b'.threads == b.threads[t := b'.threads[t]];
  }

  lemma {:induction false} ViaKeptRun(b: Bus, steps: seq<Step>)
    requires Legal(b, steps) && ViaKept(b)
    ensures ViaKept(After(b, steps))
    decreases |steps|
  {
    if steps != [] {
      ViaKeptStep(b, steps[0]);
      ViaKeptRun(Do(b, steps[0]), steps[1..]);
    }
  }

  method EndSteps(devices: seq<LinuxHardwareSPI>, ghost chips: seq<LinuxSPIChip>, ghost spiMap: SpiMap, ghost b: Bus,
                  d: nat)
    requires Represents(b, devices, chips, spiMap)
    requires d < |devices| && Enabled(b, End(d))
    modifies devices[d]
    ensures Represents(Do(b, End(d)), devices, chips, spiMap)
  {
    devices[d].End();
  }

  /** With a hardware chip, the mutex and then the clock; with a simulated one, nothing. */
  method BeginTransactionSteps(devices: seq<LinuxHardwareSPI>, ghost chips: seq<LinuxSPIChip>, ghost spiMap: SpiMap,
                               ghost b: Bus, ghost t: nat, d: nat, speed: nat)
    requires Represents(b, devices, chips, spiMap)
    requires d < |devices| && Enabled(b, Lock(t, d, speed))
    modifies if devices[d].spiChip.Hardware? then {devices[d].spiChip.chip} else {}
    ensures var b1 := Do(b, Lock(t, d, speed));
            if devices[d].spiChip.Hardware? then
              Enabled(b1, SetSpeed(t)) && Represents(Do(b1, SetSpeed(t)), devices, chips, spiMap)
            else Represents(b1, devices, chips, spiMap)
  {
    devices[d].BeginTransaction(speed);
  }

  /** With a hardware chip, the unlock and then the restore. */
  method EndTransactionSteps(devices: seq<LinuxHardwareSPI>, ghost chips: seq<LinuxSPIChip>, ghost spiMap: SpiMap,
                             ghost b: Bus, ghost t: nat, d: nat)
    requires Represents(b, devices, chips, spiMap) && HeldMeansLocked(b) && ViaKept(b)
    requires d < |devices| && Enabled(b, Unlock(t)) && b.threads[t].via == d
    modifies if devices[d].spiChip.Hardware? then {devices[d].spiChip.chip} else {}
    ensures var b1 := Do(b, Unlock(t));
            if devices[d].spiChip.Hardware? then
              Enabled(b1, Restore(t)) && Represents(Do(b1, Restore(t)), devices, chips, spiMap)
            else Represents(b1, devices, chips, spiMap)
  {
    assert ViaRight(b, b.threads[t]);
    assert b.threads[t].Inside? ==> Holds(b.threads[t], b.threads[t].id);
    devices[d].EndTransaction();
  }
}
