/** Program errors in concrete runs: the hypotheses on wrapping are there for a reason. */
module EepromFaults {
  import opened Basics
  import opened FlashChip
  import opened EepromSpec
  import opened EepromInvariant
  import opened EepromDurability
  import opened EepromRuns
  import opened EepromEdges

  /** What a failed program of the first page leaves in an erased slot. */
  function Spoilt(cfg: Config, junk: Image): Image
    requires cfg.Fits(junk)
  {
    Overlay(cfg, cfg.Blank(), junk, 0)
  }

  /** A program error that shows: the slot is not blank and fails the check. */
  predicate Spoils(cfg: Config, junk: Image) {
    cfg.Fits(junk) && Spoilt(cfg, junk).count != 0 && !cfg.Good(Spoilt(cfg, junk))
  }

  /** There is one for every checksum: counter 1, no data, and a checksum that is one off. */
  lemma SomethingSpoils(cfg: Config) returns (junk: Image)
    ensures Spoils(cfg, junk)
  {
    junk := Image((cfg.crc(1, Zeros(cfg.DataSize())) + 1) % 0x1_0000_0000, 1, Zeros(cfg.DataSize()));
    assert Spoilt(cfg, junk).data == junk.data;
  }

  /** A save whose first page fails. */
  lemma SpoiltSave(cfg: Config, chip: Chip, ram: Ram, junk: Image)
    requires chip.Fits(cfg) && chip.on && ram.Fits(cfg) && ram.next < cfg.Slots() && !RingFull(cfg, ram)
    requires ram.data.Some? ==> ram.data.value < cfg.Slots()
    requires chip.blocks[ram.next] == cfg.Blank() && cfg.Fits(junk) && chip.script == [Fault(junk)]
    ensures Update(cfg, chip, ram)
      == Result(chip.(blocks := chip.blocks[ram.next := Spoilt(cfg, junk)], script := []),
                ram.(buffer := Next(cfg, ram), next := cfg.Succ(ram.next)), WriteError)
  {
    assert PageErased(cfg, cfg.Blank(), 0);
    assert chip.script[1..] == [];
  }

  // ---- a whole lap of program errors --------------------------------------------------------------------------------

  /** A device that has met nothing but program errors since it first started. */
  ghost predicate AfterErrors(cfg: Config, sys: System, junk: Image, m: nat)
    requires cfg.Fits(junk)
  {
    && sys.Fits(cfg) && sys.up && !sys.chip.clobbered
    && (forall s :: 0 <= s < cfg.Slots() ==> sys.chip.blocks[s] == if s < m then Spoilt(cfg, junk) else cfg.Blank())
    && sys.ram.buffer.count == m && sys.ram.sector == 0 && sys.ram.data.None?
    && sys.ram.next == if m == cfg.Slots() then 0 else m
  }

  function Failing(junk: Image): Event {
    Save([Fault(junk)])
  }

  lemma ErrorStep(cfg: Config, sys: System, junk: Image, m: nat)
    requires Spoils(cfg, junk) && AfterErrors(cfg, sys, junk, m) && m < cfg.Slots() < 0xFFFF_FFFF
    ensures Admissible(cfg, sys, Failing(junk))
    ensures AfterErrors(cfg, Step(cfg, sys, Failing(junk)), junk, m + 1)
  {
    SpoiltSave(cfg, Powered(sys.chip, [Fault(junk)]), sys.ram, junk);
  }

  function Errors(junk: Image, m: nat): (es: seq<Event>)
    ensures |es| == m
  {
    seq(m, _ => Failing(junk))
  }

  lemma {:induction false} ErrorsRun(cfg: Config, sys: System, junk: Image, m: nat, k: nat)
    requires Spoils(cfg, junk) && AfterErrors(cfg, sys, junk, m) && m + k <= cfg.Slots() < 0xFFFF_FFFF
    ensures AdmissibleRun(cfg, sys, Errors(junk, k))
    ensures AfterErrors(cfg, Run(cfg, sys, Errors(junk, k)), junk, m + k)
    decreases k
  {
    if k > 0 {
      ErrorStep(cfg, sys, junk, m);
      assert Errors(junk, k)[1..] == Errors(junk, k - 1);
      ErrorsRun(cfg, Step(cfg, sys, Failing(junk)), junk, m + 1, k - 1);
    }
  }

  lemma FirstBoot(cfg: Config, sys: System, junk: Image)
    requires Factory(cfg, sys) && sys.Fits(cfg) && cfg.Fits(junk)
    ensures AfterErrors(cfg, Step(cfg, sys, Boot([])), junk, 0)
  {
    var chip := Powered(sys.chip, []);
    assert Content(cfg, chip.blocks).None?;
    InitRecovers(cfg, chip);
    InitTight(cfg, chip);
    InitIdle(cfg, chip);
  }

  /**
   The hypothesis on wrapping is not idle: a new device that meets a program error in every save of its first lap
   stands, after an otherwise admissible run, before a full ring whose latest block is in the sector to be reused,
   and its next save programs pages that are not erased.
   */
  lemma UnsafeWrapReached(cfg: Config, sys: System, junk: Image)
    requires Factory(cfg, sys) && sys.Fits(cfg) && Spoils(cfg, junk) && cfg.Slots() < 0xFFFF_FFFF
    ensures var es := [Boot([])] + Errors(junk, cfg.Slots());
      && AdmissibleRun(cfg, sys, es)
      && var r := Run(cfg, sys, es);
         && r.up && RingFull(cfg, r.ram) && !WrapSafe(cfg, r.ram)
         && Step(cfg, r, Save([])).chip.clobbered
  {
    LapRun(cfg, sys, junk);
    LapEnd(cfg, Run(cfg, sys, [Boot([])] + Errors(junk, cfg.Slots())), junk);
  }

  lemma LapRun(cfg: Config, sys: System, junk: Image)
    requires Factory(cfg, sys) && sys.Fits(cfg) && Spoils(cfg, junk) && cfg.Slots() < 0xFFFF_FFFF
    ensures var es := [Boot([])] + Errors(junk, cfg.Slots());
      && AdmissibleRun(cfg, sys, es)
      && SysInv(cfg, Run(cfg, sys, es)) && AfterErrors(cfg, Run(cfg, sys, es), junk, cfg.Slots())
  {
    FirstBoot(cfg, sys, junk);
    ErrorsRun(cfg, Step(cfg, sys, Boot([])), junk, 0, cfg.Slots());
    RunCons(cfg, sys, Boot([]), Errors(junk, cfg.Slots()));
    FactoryInv(cfg, sys);
    DurableRun(cfg, sys, [Boot([])] + Errors(junk, cfg.Slots()), None);
  }

  lemma RunCons(cfg: Config, sys: System, e: Event, es: seq<Event>)
    requires sys.Fits(cfg) && Admissible(cfg, sys, e) && AdmissibleRun(cfg, Step(cfg, sys, e), es)
    ensures AdmissibleRun(cfg, sys, [e] + es) && Run(cfg, sys, [e] + es) == Run(cfg, Step(cfg, sys, e), es)
  {
    assert ([e] + es)[1..] == es;
  }

  lemma FactoryInv(cfg: Config, sys: System)
    requires Factory(cfg, sys)
    ensures SysInv(cfg, sys) && Remembers(cfg, sys.chip.blocks, None)
  {
    assert Content(cfg, sys.chip.blocks).None?;
  }

  lemma LapEnd(cfg: Config, sys: System, junk: Image)
    requires SysInv(cfg, sys) && cfg.Fits(junk) && AfterErrors(cfg, sys, junk, cfg.Slots())
    ensures RingFull(cfg, sys.ram) && !WrapSafe(cfg, sys.ram) && Step(cfg, sys, Save([])).chip.clobbered
  {
    WrapClobbersIff(cfg, Powered(sys.chip, []), sys.ram);
  }
}
