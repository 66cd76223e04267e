/** How many saves in a row may fail before a wrap is unsafe: fewer than three sectors' worth never make it so. */
module EepromStreak {
  import opened Basics
  import opened FlashChip
  import opened EepromSpec
  import opened EepromInvariant
  import opened EepromDurability
  import opened EepromRuns

  /** Slots from the start of the active sector round the ring to the cursor; a full ring is four sectors. */
  function Ahead(cfg: Config, ram: Ram): int
    requires ram.sector < 4
  {
    var start := cfg.Start(ram.sector);
    if ram.next == start then (if ram.buffer.count == 0 then 0 else cfg.Slots())
    else if ram.next > start then ram.next - start else ram.next + cfg.Slots() - start
  }

  /** Slots from `d` round the ring to `next`. */
  function Dist(cfg: Config, d: nat, next: nat): int {
    if next > d then next - d else next + cfg.Slots() - d
  }

  /**
   With `c` saves failed in a row: while the latest block is in the active sector the cursor is at most `c` slots past
   that sector, and otherwise at most `c` slots past the slot above that block.
   */
  ghost predicate Near(cfg: Config, ram: Ram, c: nat) {
    && ram.sector < 4 && ram.next < cfg.Slots() && (ram.data.Some? ==> ram.data.value < cfg.Slots())
    && (HomeSector(cfg, ram.data) == ram.sector ==> Ahead(cfg, ram) <= cfg.n + c)
    && (HomeSector(cfg, ram.data) != ram.sector ==> ram.data.Some? && Dist(cfg, ram.data.value, ram.next) <= 1 + c)
  }

  lemma NearIsSafe(cfg: Config, ram: Ram, c: nat)
    requires Near(cfg, ram, c) && c < 3 * cfg.n
    ensures WrapSafe(cfg, ram)
  {
  }

  lemma BootedIsNear(cfg: Config, ram: Ram)
    requires Booted(cfg, ram) && ram.next < cfg.Slots()
    ensures Near(cfg, ram, 0)
  {
  }

  /** A reclaim makes the sector of the latest block the active one; the cursor is near that too. */
  lemma ReclaimStaysNear(cfg: Config, ram: Ram, after: Ram, c: nat)
    requires Near(cfg, ram, c) && RingFull(cfg, ram) && WrapSafe(cfg, ram)
    requires after == ram.(sector := HomeSector(cfg, ram.data), dirty := after.dirty)
    ensures Near(cfg, after, c) && !RingFull(cfg, after)
  {
  }

  lemma SuccessStaysNear(cfg: Config, ram: Ram, img: Image)
    requires ram.sector < 4 && ram.next < cfg.Slots() && img.count != 0
    ensures Near(cfg, Ram(img, cfg.Succ(ram.next), Some(ram.next), ram.sector, ram.dirty), 0)
  {
  }

  lemma FailureStaysNear(cfg: Config, ram: Ram, img: Image, c: nat)
    requires Near(cfg, ram, c) && !RingFull(cfg, ram) && img.count != 0
    requires ram.buffer.count == 0 ==> ram.next == cfg.Start(ram.sector)
    ensures Near(cfg, ram.(buffer := img, next := cfg.Succ(ram.next)), c + 1)
  {
  }

  // ---- runs ---------------------------------------------------------------------------------------------------------

  /** Saves failed in a row after one more event; a start-up or a save that works begins anew. */
  function Streak(cfg: Config, sys: System, e: Event, c: nat): nat
    requires sys.Fits(cfg) && EventFits(cfg, e)
  {
    match e
    case Put(_, _) => c
    case Boot(_) => 0
    case Save(script) =>
      if !sys.up then c else if Update(cfg, Powered(sys.chip, script), sys.ram).status == WriteError then c + 1 else 0
  }

  /** The hypotheses of a run but the one on wrapping, in whose place fewer than 3n saves in a row have failed. */
  ghost predicate Counted(cfg: Config, sys: System, e: Event, c: nat)
    requires sys.Fits(cfg)
  {
    && EventFits(cfg, e)
    && (e.Save? && sys.up ==>
          var chip := Powered(sys.chip, e.script);
          && sys.ram.buffer.count < 0xFFFF_FFFF
          && c < 3 * cfg.n
          && Detected(cfg, chip, sys.ram)
          && Update(cfg, chip, sys.ram).status != EraseError)
  }

  lemma SaveStaysNear(cfg: Config, chip: Chip, ram: Ram, c: nat)
    requires chip.Fits(cfg) && ram.Fits(cfg) && Near(cfg, ram, c) && WrapSafe(cfg, ram)
    requires ram.buffer.count == 0 ==> ram.next == 0 && ram.sector == 0
    requires ram.buffer.count < 0xFFFF_FFFF && Update(cfg, chip, ram).status != EraseError
    ensures var r := Update(cfg, chip, ram); Near(cfg, r.ram, if r.status == WriteError then c + 1 else 0)
  {
    var e := Reclaim(cfg, chip, ram);
    if RingFull(cfg, ram) { ReclaimStaysNear(cfg, ram, e.ram, c); }
    SuccessStaysNear(cfg, e.ram, Next(cfg, e.ram));
    FailureStaysNear(cfg, e.ram, Next(cfg, e.ram), c);
  }

  lemma EventStaysNear(cfg: Config, sys: System, e: Event, c: nat)
    requires SysInv(cfg, sys) && sys.Fits(cfg) && (sys.up ==> Near(cfg, sys.ram, c)) && Counted(cfg, sys, e, c)
    ensures Admissible(cfg, sys, e)
    ensures var r := Step(cfg, sys, e); r.up ==> Near(cfg, r.ram, Streak(cfg, sys, e, c))
  {
    if e.Save? && sys.up {
      NearIsSafe(cfg, sys.ram, c);
      SaveStaysNear(cfg, Powered(sys.chip, e.script), sys.ram, c);
    } else if e.Boot? {
      var chip := Powered(sys.chip, e.script);
      InitSafe(cfg, chip);
      var r := Init(cfg, chip, FreshRam(cfg));
      if r.chip.on && r.status != EraseError { BootedIsNear(cfg, r.ram); }
    }
  }

  ghost predicate CountedRun(cfg: Config, sys: System, es: seq<Event>, c: nat)
    requires sys.Fits(cfg)
    decreases |es|
  {
    |es| == 0
    || (Counted(cfg, sys, es[0], c) && CountedRun(cfg, Step(cfg, sys, es[0]), es[1..], Streak(cfg, sys, es[0], c)))
  }

  lemma {:induction false} CountedIsAdmissible(cfg: Config, sys: System, es: seq<Event>, c: nat, reg: Option<seq<Byte>>)
    requires SysInv(cfg, sys) && sys.Fits(cfg) && (sys.up ==> Near(cfg, sys.ram, c))
    requires Remembers(cfg, sys.chip.blocks, reg) && CountedRun(cfg, sys, es, c)
    ensures AdmissibleRun(cfg, sys, es)
    decreases |es|
  {
    if |es| > 0 {
      EventStaysNear(cfg, sys, es[0], c);
      StepRefines(cfg, sys, es[0], reg);
      CountedIsAdmissible(cfg, Step(cfg, sys, es[0]), es[1..], Streak(cfg, sys, es[0], c),
                          RegisterStep(cfg, sys, es[0], reg));
    }
  }

  /**
   The durable register without the hypothesis on wrapping: in a run from a new device in which never 3n saves in a row
   fail, every wrap is safe, no page is programmed unless erased, and start-up restores the register.
   */
  lemma FewFailuresAreDurable(cfg: Config, sys: System, es: seq<Event>, script: seq<Outcome>)
    requires Factory(cfg, sys) && sys.Fits(cfg) && CountedRun(cfg, sys, es, 0) && ScriptFits(cfg, script)
    ensures AdmissibleRun(cfg, sys, es) && !Run(cfg, sys, es).chip.clobbered
    ensures var reg := Register(cfg, sys, es, None); var r := Step(cfg, Run(cfg, sys, es), Boot(script));
      r.up ==>
        && (reg.None? <==> r.ram.data.None?)
        && (reg.Some? ==> r.ram.buffer.data == reg.value)
  {
    assert Content(cfg, sys.chip.blocks).None?;
    CountedIsAdmissible(cfg, sys, es, 0, None);
    DurableRun(cfg, sys, es, None);
    BootRestoresRegister(cfg, sys, es, script);
  }
}
