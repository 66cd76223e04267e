/** Whole runs: array writes, saves, power cuts, program errors and restarts in any order, against one register. */
module EepromRuns {
  import opened Basics
  import opened FlashChip
  import opened EepromSpec
  import opened EepromInvariant
  import opened EepromDurability

  /** The device: its flash, its RAM, and whether a start-up has completed since the last loss of power. */
  datatype System = System(chip: Chip, ram: Ram, up: bool) {
    ghost predicate Fits(cfg: Config) {
      && chip.Fits(cfg)
      && (up ==> ram.Fits(cfg) && ram.next < cfg.Slots())
      && (up && ram.data.Some? ==> ram.data.value < cfg.Slots())
    }
  }

  /** A write of bytes into the RAM buffer, a save of the buffer, or a reset followed by start-up. */
  datatype Event = Put(at: nat, bytes: seq<Byte>) | Save(script: seq<Outcome>) | Boot(script: seq<Outcome>)

  ghost predicate ScriptFits(cfg: Config, script: seq<Outcome>) {
    forall i :: 0 <= i < |script| && script[i].Fault? ==> cfg.Fits(script[i].junk)
  }

  ghost predicate EventFits(cfg: Config, e: Event) {
    match e
    case Put(at, bytes) => at + |bytes| <= cfg.DataSize()
    case Save(script) => ScriptFits(cfg, script)
    case Boot(script) => ScriptFits(cfg, script)
  }

  function Powered(chip: Chip, script: seq<Outcome>): Chip {
    chip.(script := script, on := true)
  }

  function Stored(data: seq<Byte>, at: nat, bytes: seq<Byte>): (r: seq<Byte>)
    requires at + |bytes| <= |data|
    ensures |r| == |data|
  {
    data[..at] + bytes + data[at + |bytes|..]
  }

  function Step(cfg: Config, sys: System, e: Event): (r: System)
    requires sys.Fits(cfg) && EventFits(cfg, e)
    ensures r.Fits(cfg)
  {
    match e
    case Put(at, bytes) =>
      if sys.up then sys.(ram := sys.ram.(buffer := sys.ram.buffer.(data := Stored(sys.ram.buffer.data, at, bytes))))
      else sys
    case Save(script) =>
      if sys.up then
        var r := Update(cfg, Powered(sys.chip, script), sys.ram);
        System(r.chip, r.ram, r.chip.on)
      else sys
    case Boot(script) =>
      var r := Init(cfg, Powered(sys.chip, script), FreshRam(cfg));
      System(r.chip, r.ram, r.chip.on && r.status != EraseError)
  }

  /** The run's hypotheses on one event; start-up and array writes need none. */
  ghost predicate Admissible(cfg: Config, sys: System, e: Event)
    requires sys.Fits(cfg)
  {
    && EventFits(cfg, e)
    && (e.Save? && sys.up ==>
          var chip := Powered(sys.chip, e.script);
          && sys.ram.buffer.count < 0xFFFF_FFFF
          && WrapSafe(cfg, sys.ram)
          && Detected(cfg, chip, sys.ram)
          && Update(cfg, chip, sys.ram).status != EraseError)
  }

  ghost predicate SysInv(cfg: Config, sys: System) {
    && sys.chip.Fits(cfg) && FlashInv(cfg, sys.chip.blocks) && !sys.chip.clobbered
    && (sys.up ==> RamInv(cfg, sys.chip.blocks, sys.ram))
  }

  /** The reference: one register, replaced as a whole by each save that lands and by nothing else. */
  function RegisterStep(cfg: Config, sys: System, e: Event, reg: Option<seq<Byte>>): Option<seq<Byte>>
    requires sys.Fits(cfg) && EventFits(cfg, e)
  {
    if e.Save? && sys.up && Landed(cfg, Powered(sys.chip, e.script), sys.ram) then Some(sys.ram.buffer.data) else reg
  }

  ghost predicate Remembers(cfg: Config, blocks: seq<Image>, reg: Option<seq<Byte>>)
    requires |blocks| == cfg.Slots()
  {
    var c := Content(cfg, blocks);
    (c.None? <==> reg.None?) && (c.Some? ==> reg == Some(c.value.data))
  }

  /** Every admissible event keeps the invariant, programs erased pages only, and moves flash and register alike. */
  lemma StepRefines(cfg: Config, sys: System, e: Event, reg: Option<seq<Byte>>)
    requires SysInv(cfg, sys) && sys.Fits(cfg) && Admissible(cfg, sys, e)
    requires Remembers(cfg, sys.chip.blocks, reg)
    ensures var r := Step(cfg, sys, e);
      SysInv(cfg, r) && Remembers(cfg, r.chip.blocks, RegisterStep(cfg, sys, e, reg))
  {
    match e
    case Put(at, bytes) =>
      if sys.up { assert RamInv(cfg, sys.chip.blocks, Step(cfg, sys, e).ram); }
    case Save(script) =>
      if sys.up { UpdateAtomic(cfg, Powered(sys.chip, script), sys.ram); }
    case Boot(script) =>
      InitRecovers(cfg, Powered(sys.chip, script));
  }

  // ---- runs ---------------------------------------------------------------------------------------------------------

  /** The run is admissible throughout. */
  ghost predicate AdmissibleRun(cfg: Config, sys: System, es: seq<Event>)
    requires sys.Fits(cfg)
    decreases |es|
  {
    |es| == 0 || (Admissible(cfg, sys, es[0]) && AdmissibleRun(cfg, Step(cfg, sys, es[0]), es[1..]))
  }

  function Run(cfg: Config, sys: System, es: seq<Event>): (r: System)
    requires sys.Fits(cfg) && AdmissibleRun(cfg, sys, es)
    ensures r.Fits(cfg)
    decreases |es|
  {
    if |es| == 0 then sys else Run(cfg, Step(cfg, sys, es[0]), es[1..])
  }

  function Register(cfg: Config, sys: System, es: seq<Event>, reg: Option<seq<Byte>>): Option<seq<Byte>>
    requires sys.Fits(cfg) && AdmissibleRun(cfg, sys, es)
    decreases |es|
  {
    if |es| == 0 then reg else Register(cfg, Step(cfg, sys, es[0]), es[1..], RegisterStep(cfg, sys, es[0], reg))
  }

  /**
   Crash-safe durable register. Over every admissible run, whatever cuts, errors and restarts it contains, the
   flash is never programmed where it is not erased, the invariant holds, and the flash remembers exactly the
   value of the reference register.
   */
  lemma {:induction false} DurableRun(cfg: Config, sys: System, es: seq<Event>, reg: Option<seq<Byte>>)
    requires SysInv(cfg, sys) && sys.Fits(cfg) && Remembers(cfg, sys.chip.blocks, reg)
    requires AdmissibleRun(cfg, sys, es)
    ensures SysInv(cfg, Run(cfg, sys, es))
    ensures Remembers(cfg, Run(cfg, sys, es).chip.blocks, Register(cfg, sys, es, reg))
    decreases |es|
  {
    if |es| > 0 {
      StepRefines(cfg, sys, es[0], reg);
      DurableRun(cfg, Step(cfg, sys, es[0]), es[1..], RegisterStep(cfg, sys, es[0], reg));
    }
  }

  /** A flash fresh from the factory, not yet started. */
  ghost predicate Factory(cfg: Config, sys: System) {
    sys.chip.Fits(cfg) && AllBlank(cfg, sys.chip.blocks) && !sys.chip.clobbered && !sys.up
  }

  /**
   After any admissible run from an erased flash, every start-up that completes, itself perhaps after others
   that were cut short, leaves in RAM exactly the register's value, or reports an empty store if nothing landed.
   */
  lemma BootRestoresRegister(cfg: Config, sys: System, es: seq<Event>, script: seq<Outcome>)
    requires Factory(cfg, sys) && sys.Fits(cfg) && AdmissibleRun(cfg, sys, es) && ScriptFits(cfg, script)
    ensures var reg := Register(cfg, sys, es, None); var r := Step(cfg, Run(cfg, sys, es), Boot(script));
      r.up ==>
        && (reg.None? <==> r.ram.data.None?)
        && (reg.Some? ==> r.ram.buffer.data == reg.value)
  {
    assert Content(cfg, sys.chip.blocks).None?;
    DurableRun(cfg, sys, es, None);
    InitRecovers(cfg, Powered(Run(cfg, sys, es).chip, script));
  }

  // ---- runs without flash errors ------------------------------------------------------------------------------------

  predicate NoFaults(script: seq<Outcome>) {
    forall i :: 0 <= i < |script| ==> !script[i].Fault?
  }

  /** Without program errors the cursor stays just above the latest block, or inside its sector since start-up. */
  predicate Tight(cfg: Config, ram: Ram)
  {
    && (ram.data.None? ==> ram.buffer.count == 0)
    && (ram.data.Some? ==> ram.sector < 4)
    && (ram.data.Some? ==> cfg.Succ(ram.data.value) == ram.next || ram.next != cfg.Start(ram.sector))
  }

  lemma TightIsSafe(cfg: Config, ram: Ram)
    requires Tight(cfg, ram) && (ram.data.Some? ==> ram.data.value < cfg.Slots())
    ensures WrapSafe(cfg, ram)
  {
  }

  lemma AdvanceNoFaults(chip: Chip)
    requires NoFaults(chip.script)
    ensures !chip.Fate().Fault? && NoFaults(chip.Advance().script)
  {
  }

  lemma {:induction false} EraseNoFaults(cfg: Config, chip: Chip, ram: Ram, j: nat)
    requires chip.Fits(cfg) && ram.Fits(cfg) && j <= 4 && NoFaults(chip.script)
    ensures ErasePass(cfg, chip, ram, j).status == Ok
    ensures NoFaults(ErasePass(cfg, chip, ram, j).chip.script)
    decreases 4 - j
  {
    AdvanceNoFaults(chip);
    if j < 4 {
      if ram.sector != j && ram.dirty[j] {
        EraseNoFaults(cfg, EraseSector(cfg, chip, j).0, ram.(dirty := ram.dirty[j := false]), j + 1);
      } else {
        EraseNoFaults(cfg, chip, ram, j + 1);
      }
    }
  }

  lemma {:induction false} WriteNoFaults(cfg: Config, chip: Chip, slot: nat, img: Image, k: nat)
    requires chip.Fits(cfg) && cfg.Fits(img) && slot < cfg.Slots() && k <= cfg.pages && NoFaults(chip.script)
    ensures WritePages(cfg, chip, slot, img, k).1
    decreases cfg.pages - k
  {
    AdvanceNoFaults(chip);
    if k < cfg.pages { WriteNoFaults(cfg, ProgramPage(cfg, chip, slot, img, k).0, slot, img, k + 1); }
  }

  /** Without flash errors a save never reports one and leaves the cursor just above the block it wrote. */
  lemma UpdateNoFaults(cfg: Config, chip: Chip, ram: Ram)
    requires chip.Fits(cfg) && ram.Fits(cfg) && ram.next < cfg.Slots() && ram.sector < 4 && NoFaults(chip.script)
    requires ram.data.Some? ==> ram.data.value < cfg.Slots()
    ensures var r := Update(cfg, chip, ram); r.status == Ok && Tight(cfg, r.ram)
  {
    if RingFull(cfg, ram) {
      EraseNoFaults(cfg, chip, ram.(sector := HomeSector(cfg, ram.data), dirty := [true, true, true, true]), 0);
    }
    var e := Reclaim(cfg, chip, ram);
    WriteNoFaults(cfg, e.chip, e.ram.next, Next(cfg, e.ram), 0);
  }

  /** Start-up puts the cursor inside or just above the sector of the latest block, never at that sector's start. */
  lemma InitTight(cfg: Config, chip: Chip)
    requires chip.Fits(cfg) && Ordered(cfg, chip.blocks)
    ensures var r := Init(cfg, chip, FreshRam(cfg));
      r.chip.on && r.status != EraseError ==> Tight(cfg, r.ram)
  {
    InitSafe(cfg, chip);
  }

  /** An event free of flash errors; all that is assumed of a save is that a torn block fails the check. */
  ghost predicate Clean(cfg: Config, sys: System, e: Event)
    requires sys.Fits(cfg)
  {
    && EventFits(cfg, e)
    && (e.Boot? ==> NoFaults(e.script))
    && (e.Save? && sys.up ==>
          && NoFaults(e.script)
          && sys.ram.buffer.count < 0xFFFF_FFFF
          && TornFails(cfg, Powered(sys.chip, e.script), sys.ram))
  }

  predicate TornFails(cfg: Config, chip: Chip, ram: Ram)
    requires chip.Fits(cfg) && ram.Fits(cfg) && ram.next < cfg.Slots()
    requires ram.data.Some? ==> ram.data.value < cfg.Slots()
  {
    var b := Update(cfg, chip, ram).chip.blocks[ram.next];
    Reached(cfg, chip, ram) && b != Next(cfg, ram) ==> !cfg.Good(b)
  }

  /** Without flash errors the reclaim is always safe, so such an event is admissible, and the cursor stays tight. */
  lemma CleanStep(cfg: Config, sys: System, e: Event)
    requires SysInv(cfg, sys) && sys.Fits(cfg) && Clean(cfg, sys, e) && (sys.up ==> Tight(cfg, sys.ram))
    ensures Admissible(cfg, sys, e)
    ensures var r := Step(cfg, sys, e); r.up ==> Tight(cfg, r.ram)
  {
    if e.Save? && sys.up {
      TightIsSafe(cfg, sys.ram);
      UpdateNoFaults(cfg, Powered(sys.chip, e.script), sys.ram);
    } else if e.Boot? {
      InitTight(cfg, Powered(sys.chip, e.script));
    }
  }

  ghost predicate CleanRun(cfg: Config, sys: System, es: seq<Event>)
    requires sys.Fits(cfg)
    decreases |es|
  {
    |es| == 0 || (Clean(cfg, sys, es[0]) && CleanRun(cfg, Step(cfg, sys, es[0]), es[1..]))
  }

  lemma {:induction false} CleanRunAdmissible(cfg: Config, sys: System, es: seq<Event>, reg: Option<seq<Byte>>)
    requires SysInv(cfg, sys) && sys.Fits(cfg) && (sys.up ==> Tight(cfg, sys.ram))
    requires Remembers(cfg, sys.chip.blocks, reg)
    requires CleanRun(cfg, sys, es)
    ensures AdmissibleRun(cfg, sys, es)
    decreases |es|
  {
    if |es| > 0 {
      CleanStep(cfg, sys, es[0]);
      StepRefines(cfg, sys, es[0], reg);
      CleanRunAdmissible(cfg, Step(cfg, sys, es[0]), es[1..], RegisterStep(cfg, sys, es[0], reg));
    }
  }

  /**
   The durable register where only the power may fail: any interleaving of array writes, saves and start-ups, each
   possibly cut before any page program or sector erase. No assumption on wrapping is left.
   */
  lemma CleanRunsAreDurable(cfg: Config, sys: System, es: seq<Event>, script: seq<Outcome>)
    requires Factory(cfg, sys) && sys.Fits(cfg) && CleanRun(cfg, sys, es) && NoFaults(script)
    ensures AdmissibleRun(cfg, sys, es) && !Run(cfg, sys, es).chip.clobbered
    ensures var reg := Register(cfg, sys, es, None); var r := Step(cfg, Run(cfg, sys, es), Boot(script));
      r.up ==>
        && (reg.None? <==> r.ram.data.None?)
        && (reg.Some? ==> r.ram.buffer.data == reg.value)
  {
    CleanRunAdmissible(cfg, sys, es, None);
    DurableRun(cfg, sys, es, None);
    BootRestoresRegister(cfg, sys, es, script);
  }
}
