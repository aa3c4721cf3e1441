/**
  Which libgpiod handles LinuxGPIOPin.cpp holds at any moment: the chip scan, both getLine
  functions, the constructors that call them, the destructor and setPinMode's temporaries.
 */
module GpioHandles {
  import opened Wrappers

  type Handle = nat

  datatype Version = V1 | V2

  /** One directory entry that passed chip_dir_filter, and what libgpiod would say of it. */
  datatype Candidate = Candidate(name: string, opens: bool, reported: Option<string>)
  {
    predicate Matches(chipLabel: string) {
      opens && reported == Some(chipLabel)
    }
  }

  /** What /dev looks like for one label: None for a scandir that failed. */
  datatype Dev = Dev(readable: bool, opens: bool, scan: Option<seq<Candidate>>)

  /** The first entry whose chip opens and reports the label. */
  function FirstMatch(entries: seq<Candidate>, chipLabel: string): (r: Option<nat>)
    ensures r.Some? ==> r.value < |entries| && entries[r.value].Matches(chipLabel)
    ensures forall i :: 0 <= i < (if r.Some? then r.value else |entries|) ==> !entries[i].Matches(chipLabel)
  {
    if entries == [] then None
    else if entries[0].Matches(chipLabel) then Some(0)
    else
      var rest := FirstMatch(entries[1..], chipLabel);
      if rest.Some? then Some(rest.value + 1) else None
  }

  /** The name of the chip that find_chip_by_label returns. */
  function FoundChip(dev: Dev, chipLabel: string): Option<string> {
    if dev.readable then (if dev.opens then Some(chipLabel) else None)
    else if dev.scan.None? then None
    else
      var i := FirstMatch(dev.scan.value, chipLabel);
      if i.Some? then Some(dev.scan.value[i.value].name) else None
  }

  /**
    The lookup order: a readable device of that name is opened and nothing else is tried; for any
    other label the scan decides, by the first chip that opens and reports the label itself.
   */
  lemma LookupOrder(dev: Dev, chipLabel: string, i: nat)
    ensures dev.readable ==> FoundChip(dev, chipLabel) == if dev.opens then Some(chipLabel) else None
    ensures !dev.readable && dev.scan == None ==> FoundChip(dev, chipLabel) == None
    ensures !dev.readable && dev.scan.Some? ==>
              var entries := dev.scan.value;
              && (i < |entries| && entries[i].opens && entries[i].reported == Some(chipLabel)
                  && (forall j :: 0 <= j < i ==> !(entries[j].opens && entries[j].reported == Some(chipLabel)))
                  ==> FoundChip(dev, chipLabel) == Some(entries[i].name))
              && (FoundChip(dev, chipLabel) == None <==>
                    forall j :: 0 <= j < |entries| ==> !(entries[j].opens && entries[j].reported == Some(chipLabel)))
  {
    if !dev.readable && dev.scan.Some? {
      var entries := dev.scan.value;
      var first := FirstMatch(entries, chipLabel);
      assert forall j :: 0 <= j < |entries| ==>
        (entries[j].Matches(chipLabel) <==> entries[j].opens && entries[j].reported == Some(chipLabel));
      if first.Some? {
        assert entries[first.value].Matches(chipLabel);
      }
    }
  }

  /** libgpiod's side: what has been handed out and not yet given back. */
  class Gpiod {
    var next: Handle                  // every handle ever handed out is below it
    var opens: nat
    var closes: nat
    var chips: map<Handle, string>    // open chips, by device name
    var lines: set<Handle>            // held line requests
    var temporaries: set<Handle>      // settings, line configs, request configs and chip infos

    ghost predicate Valid()
      reads this
    {
      && (forall h :: h in chips || h in lines || h in temporaries ==> h < next)
      && opens == closes + |chips|
    }

    constructor ()
      ensures Valid() && chips == map[] && lines == {} && temporaries == {}
    {
      next, opens, closes, chips, lines, temporaries := 0, 0, 0, map[], {}, {};
    }

    method ChipOpen(name: string, ok: bool) returns (h: Option<Handle>)
      requires Valid()
      modifies this
      ensures Valid() && next >= old(next) && lines == old(lines) && temporaries == old(temporaries)
      ensures h.Some? <==> ok
      ensures if ok then h.value !in old(chips) && chips == old(chips)[h.value := name] else chips == old(chips)
    {
      h := None;
      if ok {
        h := Some(next);
        chips := chips[next := name];
        next, opens := next + 1, opens + 1;
      }
    }

    /** Closing a chip that is not open would be a double close; closing NULL is allowed in version 2. */
    method ChipClose(h: Option<Handle>, version: Version)
      requires Valid() && (h.Some? ==> h.value in chips) && (version.V1? ==> h.Some?)
      modifies this
      ensures Valid() && next == old(next) && lines == old(lines) && temporaries == old(temporaries)
      ensures chips == if h.Some? then old(chips) - {h.value} else old(chips)
    {
      if h.Some? {
        assert chips.Keys == (chips - {h.value}).Keys + {h.value};
        assert |chips| == |chips.Keys| && |(chips - {h.value})| == |(chips - {h.value}).Keys|;
        chips := chips - {h.value};
        closes := closes + 1;
      }
    }

    method TemporaryNew() returns (h: Handle)
      requires Valid()
      modifies this
      ensures Valid() && next >= old(next) && chips == old(chips) && lines == old(lines)
      ensures h !in old(temporaries) && temporaries == old(temporaries) + {h}
    {
      h := next;
      temporaries := temporaries + {h};
      next := next + 1;
    }

    method TemporaryFree(h: Handle)
      requires Valid() && h in temporaries
      modifies this
      ensures Valid() && next == old(next) && chips == old(chips) && lines == old(lines)
      ensures temporaries == old(temporaries) - {h}
    {
      temporaries := temporaries - {h};
    }

    method RequestLine(ok: bool) returns (line: Option<Handle>)
      requires Valid()
      modifies this
      ensures Valid() && next >= old(next) && chips == old(chips) && temporaries == old(temporaries)
      ensures line.Some? <==> ok
      ensures if ok then line.value !in old(lines) && lines == old(lines) + {line.value} else lines == old(lines)
    {
      line := None;
      if ok {
        line := Some(next);
        lines := lines + {next};
        next := next + 1;
      }
    }

    method ReleaseLine(line: Handle)
      requires Valid() && line in lines
      modifies this
      ensures Valid() && next == old(next) && chips == old(chips) && temporaries == old(temporaries)
      ensures lines == old(lines) - {line}
    {
      lines := lines - {line};
    }

    // ---- find_chip_by_label ----

    method ReportedLabel(c: Candidate, version: Version) returns (reported: Option<string>)
      requires Valid()
      modifies this
      ensures Valid() && next >= old(next)
      ensures chips == old(chips) && lines == old(lines) && temporaries == old(temporaries)
      ensures reported == c.reported
    {
      reported := c.reported;
      if version.V2? {
        var info := TemporaryNew();
        TemporaryFree(info);
      }
    }

    /** Leaves open the chip it returns and nothing else. */
    method FindChipByLabel(chipLabel: string, dev: Dev, version: Version) returns (chip: Option<Handle>)
      requires Valid()
      modifies this
      ensures Valid() && next >= old(next) && lines == old(lines) && temporaries == old(temporaries)
      ensures chip.Some? <==> FoundChip(dev, chipLabel).Some?
      ensures chip.Some? ==>
                chip.value !in old(chips) && chips == old(chips)[chip.value := FoundChip(dev, chipLabel).value]
      ensures chip.None? ==> chips == old(chips)
    {
      if dev.readable {
        chip := ChipOpen(chipLabel, dev.opens);
        return;
      }
      if dev.scan.None? {
        return None;
      }
      var entries := dev.scan.value;
      chip := None;
      var i := 0;
      while i < |entries|
        invariant 0 <= i <= |entries| && Valid() && next >= old(next)
        invariant lines == old(lines) && temporaries == old(temporaries)
        invariant chip.None? ==> chips == old(chips) && forall j :: 0 <= j < i ==> !entries[j].Matches(chipLabel)
        invariant chip.Some? ==>
                    exists j :: 0 <= j < i && entries[j].Matches(chipLabel)
                      && (forall k :: 0 <= k < j ==> !entries[k].Matches(chipLabel))
                      && chip.value !in old(chips) && chips == old(chips)[chip.value := entries[j].name]
      {
        if chip.None? {
          var c := ChipOpen(entries[i].name, entries[i].opens);
          if c.Some? {
            var reported := ReportedLabel(entries[i], version);
            if reported == Some(chipLabel) {
              chip := c;
            } else {
              ChipClose(c, version);
              assert chips == old(chips);
            }
          }
        }
        i := i + 1;
      }
    }
  }

  lemma OpenThenClose(chips: map<Handle, string>, h: Handle, name: string)
    requires h !in chips
    ensures chips[h := name] - {h} == chips
  {
  }

  /** Opening one chip more is one open more than closes. */
  lemma OneMore(chips: map<Handle, string>, h: Handle, name: string)
    requires h !in chips
    ensures |chips[h := name]| == |chips| + 1
  {
    assert chips[h := name].Keys == chips.Keys + {h};
    assert |chips| == |chips.Keys| && |chips[h := name]| == |chips[h := name].Keys|;
  }

  /** What a constructor was asked for, with what the chip answers to a name (negative: unknown). */
  datatype Wanted = ByName(offset: int) | ByOffset(offset: int)

  datatype Outcome = Built | Threw

  /** Whether the constructor succeeds: chip found, offset not negative, line granted. */
  predicate Succeeds(chipLabel: string, dev: Dev, wanted: Wanted, version: Version, granted: bool) {
    && FoundChip(dev, chipLabel).Some?
    && (version.V2? || wanted.ByOffset? ==> wanted.offset >= 0)
    && granted
  }

  /** Each of the reasons to throw, and no other. */
  lemma ReasonsToThrow(chipLabel: string, dev: Dev, wanted: Wanted, version: Version, granted: bool)
    ensures !Succeeds(chipLabel, dev, wanted, version, granted) <==>
              || FoundChip(dev, chipLabel) == None
              || (wanted.offset < 0 && !(version == V1 && wanted.ByName?))
              || !granted
  {
  }

  /** The handle-owning fields of LinuxGPIOPin. */
  class PinHandles {
    var chip: Option<Handle>
    var line: Option<Handle>
    var offset: nat

    constructor ()
      ensures chip.None? && line.None? && offset == 0
    {
      chip, line, offset := None, None, 0;
    }

    /** What this pin holds while it lives: its line, and under version 1 its chip. */
    ghost predicate Holds(gpiod: Gpiod, version: Version)
      reads this, gpiod
    {
      && gpiod.Valid()
      && line.Some? && line.value in gpiod.lines
      && (version.V1? <==> chip.Some?)
      && (chip.Some? ==> chip.value in gpiod.chips)
    }

    /** Ask for the line as it is; version 2 builds and frees its three configuration objects. */
    method RequestAsIs(gpiod: Gpiod, version: Version, granted: bool) returns (acquired: Option<Handle>)
      requires gpiod.Valid()
      modifies gpiod
      ensures gpiod.Valid() && gpiod.chips == old(gpiod.chips) && gpiod.temporaries == old(gpiod.temporaries)
      ensures acquired.Some? <==> granted
      ensures if granted then acquired.value !in old(gpiod.lines) && gpiod.lines == old(gpiod.lines) + {acquired.value}
              else gpiod.lines == old(gpiod.lines)
    {
      if version.V1? {
        acquired := gpiod.RequestLine(granted);
        return;
      }
      var settings := gpiod.TemporaryNew();
      var lineConfig := gpiod.TemporaryNew();
      var requestConfig := gpiod.TemporaryNew();
      acquired := gpiod.RequestLine(granted);
      gpiod.TemporaryFree(requestConfig);
      gpiod.TemporaryFree(lineConfig);
      gpiod.TemporaryFree(settings);
      assert gpiod.temporaries == old(gpiod.temporaries);
    }

    /**
      Either constructor. Whatever fails, a throw leaves every handle as it was; success keeps
      one line, under version 1 also the chip, and no temporary.
     */
    method Construct(gpiod: Gpiod, chipLabel: string, dev: Dev, wanted: Wanted, version: Version, granted: bool)
      returns (r: Outcome)
      requires gpiod.Valid() && chip.None? && line.None?
      modifies this, gpiod
      ensures gpiod.Valid() && gpiod.temporaries == old(gpiod.temporaries)
      ensures r.Built? <==> Succeeds(chipLabel, dev, wanted, version, granted)
      ensures r.Threw? ==> gpiod.chips == old(gpiod.chips) && gpiod.lines == old(gpiod.lines) && chip.None?
      ensures r.Built? ==>
                && Holds(gpiod, version)
                && line.value !in old(gpiod.lines) && gpiod.lines == old(gpiod.lines) + {line.value}
                && (version.V2? ==> gpiod.chips == old(gpiod.chips) && offset == wanted.offset)
                && (version.V1? ==> chip.value !in old(gpiod.chips))
                && (version.V1? ==> gpiod.chips == old(gpiod.chips)[chip.value := FoundChip(dev, chipLabel).value])
    {
      chip := gpiod.FindChipByLabel(chipLabel, dev, version);
      if chip.None? {
        return Threw;
      }
      if wanted.offset < 0 && (version.V2? || wanted.ByOffset?) {
        GiveBackChip(gpiod, version, old(gpiod.chips), FoundChip(dev, chipLabel).value);
        return Threw;
      }
      if version.V2? {
        offset := wanted.offset;
      }
      line := RequestAsIs(gpiod, version, granted);
      if version.V2? || line.None? {
        GiveBackChip(gpiod, version, old(gpiod.chips), FoundChip(dev, chipLabel).value);
      }
      r := if line.None? then Threw else Built;
    }

    /** Close the chip just opened and forget it, so that the destructor will not close it again. */
    method GiveBackChip(gpiod: Gpiod, version: Version, ghost before: map<Handle, string>, ghost name: string)
      requires gpiod.Valid() && chip.Some?
      requires chip.value !in before && gpiod.chips == before[chip.value := name]
      modifies this`chip, gpiod
      ensures gpiod.Valid() && chip.None? && gpiod.chips == before
      ensures gpiod.lines == old(gpiod.lines) && gpiod.temporaries == old(gpiod.temporaries)
    {
      gpiod.ChipClose(chip, version);
      OpenThenClose(before, chip.value, name);
      chip := None;
    }

    /** The destructor gives back exactly what Construct kept, and never closes a chip twice. */
    method Destroy(gpiod: Gpiod, version: Version)
      requires Holds(gpiod, version)
      modifies gpiod
      ensures gpiod.Valid() && gpiod.temporaries == old(gpiod.temporaries)
      ensures gpiod.lines == old(gpiod.lines) - {line.value}
      ensures gpiod.chips == if version.V1? then old(gpiod.chips) - {chip.value} else old(gpiod.chips)
    {
      gpiod.ReleaseLine(line.value);
      gpiod.ChipClose(chip, version);
    }

    /** setPinMode under version 2: its settings and config are gone again whatever failed. */
    method Reconfigure(gpiod: Gpiod, addRet: int, reconfRet: int) returns (applied: bool)
      requires gpiod.Valid()
      modifies gpiod
      ensures gpiod.Valid() && gpiod.temporaries == old(gpiod.temporaries)
      ensures gpiod.chips == old(gpiod.chips) && gpiod.lines == old(gpiod.lines)
      ensures applied <==> addRet == 0 && reconfRet == 0
    {
      var settings := gpiod.TemporaryNew();
      var lineConfig := gpiod.TemporaryNew();
      applied := addRet == 0 && reconfRet == 0;
      gpiod.TemporaryFree(lineConfig);
      gpiod.TemporaryFree(settings);
      assert gpiod.temporaries == old(gpiod.temporaries);
    }
  }

  /**
    A pin's whole life: however construction goes and however often it is reconfigured, the
    ledger ends where it began, with as many closes as opens in between. `held` is how many more
    opens than closes there were once the constructor was through: one only for a version 1 pin.
   */
  method PinLife(gpiod: Gpiod, chipLabel: string, dev: Dev, wanted: Wanted, version: Version, granted: bool,
                 reconfigurations: seq<(int, int)>)
    returns (ghost held: int)
    requires gpiod.Valid()
    modifies gpiod
    ensures gpiod.Valid()
    ensures gpiod.chips == old(gpiod.chips) && gpiod.lines == old(gpiod.lines)
    ensures gpiod.temporaries == old(gpiod.temporaries)
    ensures held == if version.V1? && Succeeds(chipLabel, dev, wanted, version, granted) then 1 else 0
    ensures gpiod.opens - gpiod.closes == old(gpiod.opens) - old(gpiod.closes)
  {
    var pin := new PinHandles();
    var r := pin.Construct(gpiod, chipLabel, dev, wanted, version, granted);
    held := (gpiod.opens - gpiod.closes) - (old(gpiod.opens) - old(gpiod.closes));
    if r.Built? {
      if version.V1? {
        OneMore(old(gpiod.chips), pin.chip.value, FoundChip(dev, chipLabel).value);
      }
      var i := 0;
      while i < |reconfigurations| && version.V2?
        invariant pin.Holds(gpiod, version)
        invariant gpiod.chips == old(gpiod.chips) || version.V1?
        invariant version.V1? ==> pin.chip.value !in old(gpiod.chips)
        invariant version.V1? ==> gpiod.chips.Keys == old(gpiod.chips).Keys + {pin.chip.value}
        invariant version.V1? ==> gpiod.chips - {pin.chip.value} == old(gpiod.chips)
        invariant pin.line.value !in old(gpiod.lines) && gpiod.lines == old(gpiod.lines) + {pin.line.value}
        invariant gpiod.temporaries == old(gpiod.temporaries)
      {
        var applied := pin.Reconfigure(gpiod, reconfigurations[i].0, reconfigurations[i].1);
        i := i + 1;
      }
      pin.Destroy(gpiod, version);
      assert gpiod.lines == old(gpiod.lines);
    }
  }
}
