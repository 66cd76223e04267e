/** An erase error while reclaiming: the active sector has moved already, so later saves go on without a reclaim. */
module EepromRetry {
  import opened Basics
  import opened FlashChip
  import opened EepromSpec
  import opened EepromInvariant
  import opened EepromDurability
  import opened EepromRuns
  import opened EepromPasses
  import opened EepromEdges
  import opened EepromBlindSpot
  import opened EepromWear

  /** The reclaim of a full ring meets an erase error at sector `f`, the erasures below that having worked. */
  ghost predicate ReclaimFails(cfg: Config, chip: Chip, ram: Ram, f: nat, junk: Image) {
    && chip.Fits(cfg) && chip.on && !chip.clobbered
    && Inv(cfg, chip.blocks, ram) && RingFull(cfg, ram) && WrapSafe(cfg, ram)
    && f < 4 && f != HomeSector(cfg, ram.data)
    && chip.script == Dones(if f < HomeSector(cfg, ram.data) then f else f - 1) + [Fault(junk)]
  }

  /** The call reports it, with the sectors below erased and the active sector moved. */
  lemma FailedReclaim(cfg: Config, chip: Chip, ram: Ram, f: nat, junk: Image)
    requires ReclaimFails(cfg, chip, ram, f, junk)
    ensures var r := Update(cfg, chip, ram); var home := HomeSector(cfg, ram.data);
      && r.status == EraseError && !r.chip.clobbered
      && r.chip.blocks == Erased(cfg, chip.blocks, Below(f) - {home})
      && r.ram == ram.(sector := home, dirty := r.ram.dirty)
  {
    var start := ram.(sector := HomeSector(cfg, ram.data), dirty := [true, true, true, true]);
    StaleBelow(start, f);
    EraseStopsAt(cfg, chip, start, 0, f, junk);
  }

  /**
   After an erase error in the reclaim the active sector has already moved, so a second save skips the reclaim
   and programs at once. It clobbers exactly when the failed sector was not above the sector being reused.
   */
  lemma RetryAfterEraseError(cfg: Config, chip: Chip, ram: Ram, f: nat, junk: Image)
    requires ReclaimFails(cfg, chip, ram, f, junk)
    ensures var failed := Update(cfg, chip, ram);
      && failed.status == EraseError
      && (Update(cfg, Powered(failed.chip, []), failed.ram).chip.clobbered <==> f <= ram.sector)
  {
    FailedReclaim(cfg, chip, ram, f, junk);
    FailedFlash(cfg, chip.blocks, ram, f);
    var failed := Update(cfg, chip, ram);
    assert !RingFull(cfg, failed.ram);
    WriteClobbersIff(cfg, Powered(failed.chip, []), ram.next, Next(cfg, failed.ram));
  }

  lemma FailedFlash(cfg: Config, blocks: seq<Image>, ram: Ram, f: nat)
    requires Inv(cfg, blocks, ram) && RingFull(cfg, ram) && WrapSafe(cfg, ram)
    requires f < 4 && f != HomeSector(cfg, ram.data)
    ensures var home := HomeSector(cfg, ram.data); var r := Erased(cfg, blocks, Below(f) - {home});
      && WellFormed(cfg, r) && ram.next != cfg.Start(home)
      && (r[ram.next].count != 0 <==> f <= ram.sector)
  {
    ErasedKeepsOrdered(cfg, blocks, Below(f) - {HomeSector(cfg, ram.data)});
    StartIsHome(cfg, ram.sector);
    StartIsHome(cfg, HomeSector(cfg, ram.data));
  }

  // ---- going on without a restart -----------------------------------------------------------------------------------

  /** The next `m` slots at the cursor are blank, none of them the start of the active sector. */
  ghost predicate Clear(cfg: Config, chip: Chip, ram: Ram, m: nat) {
    && chip.Fits(cfg) && chip.on && chip.script == [] && !chip.clobbered
    && ram.Fits(cfg) && (ram.data.Some? ==> ram.data.value < cfg.Slots()) && ram.sector < 4
    && ram.next + m < cfg.Slots()
    && (forall s :: ram.next <= s < ram.next + m ==> chip.blocks[s] == cfg.Blank())
    && (cfg.Start(ram.sector) < ram.next || ram.next + m < cfg.Start(ram.sector))
  }

  ghost predicate Buffers(cfg: Config, buffers: seq<seq<Byte>>) {
    forall i :: 0 <= i < |buffers| ==> |buffers[i]| == cfg.DataSize()
  }

  /** So many saves go through, slot by slot, and leave what comes after. */
  lemma {:induction false} SavesGoThrough(cfg: Config, chip: Chip, ram: Ram, buffers: seq<seq<Byte>>, m: nat)
    requires Clear(cfg, chip, ram, m) && Buffers(cfg, buffers) && |buffers| <= m
    ensures var r := Saves(cfg, chip, ram, buffers);
      && Clear(cfg, r.chip, r.ram, m - |buffers|) && r.ram.next == ram.next + |buffers|
      && forall s :: r.ram.next <= s < cfg.Slots() ==> r.chip.blocks[s] == chip.blocks[s]
    decreases |buffers|
  {
    if buffers != [] {
      var k := |buffers| - 1;
      SavesGoThrough(cfg, chip, ram, buffers[..k], m);
      var r := Saves(cfg, chip, ram, buffers[..k]);
      SaveGoesThrough(cfg, r.chip, r.ram.(buffer := r.ram.buffer.(data := buffers[k])), m - k);
    }
  }

  lemma SaveGoesThrough(cfg: Config, chip: Chip, ram: Ram, m: nat)
    requires Clear(cfg, chip, ram, m) && m > 0
    ensures var r := Update(cfg, chip, ram);
      && Clear(cfg, r.chip, r.ram, m - 1) && r.ram.next == ram.next + 1
      && forall s :: r.ram.next <= s < cfg.Slots() ==> r.chip.blocks[s] == chip.blocks[s]
  {
    WriteNoTrouble(cfg, chip, ram.next, Next(cfg, ram), 0);
  }

  /** A save at a slot that is not blank breaks the rule. */
  lemma SaveBreaksRule(cfg: Config, chip: Chip, ram: Ram)
    requires Clear(cfg, chip, ram, 0) && chip.blocks[ram.next].count != 0
    ensures Update(cfg, chip, ram).chip.clobbered
  {
    ClobberedStays(cfg, ProgramPage(cfg, chip, ram.next, Next(cfg, ram), 0).0, ram.next, Next(cfg, ram), 1);
  }

  /** How many saves after an erase error at sector `f` go through: those in the sectors already erased. */
  function SavesLeft(cfg: Config, sector: nat, f: nat): nat
    requires sector < 4 && f < 4
  {
    if f <= sector then 0 else cfg.Start(f) - cfg.Start(sector)
  }

  /** After such an error at sector `f`, with the cursor at the start of sector `j` and the sector before it active. */
  ghost predicate StoppedBelow(cfg: Config, was: seq<Image>, r: Result, j: nat, f: nat) {
    && r.chip.Fits(cfg) && r.ram.Fits(cfg) && !r.chip.clobbered && j < 4 && f < 4
    && r.ram.sector == (if j == 0 then 3 else j - 1) && f != r.ram.sector && r.ram.next == cfg.Start(j)
    && (r.ram.data.Some? ==> r.ram.data.value < cfg.Slots())
    && |was| == cfg.Slots() && r.chip.blocks == Erased(cfg, was, Below(f) - {r.ram.sector})
  }

  ghost predicate NoneEmpty(cfg: Config, blocks: seq<Image>) {
    |blocks| == cfg.Slots() && forall j :: 0 <= j < 4 ==> blocks[cfg.Start(j)].count != 0
  }

  /** Of these saves, one after the other without trouble, the last is the first to program a page not erased. */
  ghost predicate BreaksAtLast(cfg: Config, chip: Chip, ram: Ram, buffers: seq<seq<Byte>>)
    requires chip.Fits(cfg) && ram.Fits(cfg) && ram.next < cfg.Slots() && Buffers(cfg, buffers) && |buffers| > 0
    requires ram.data.Some? ==> ram.data.value < cfg.Slots()
  {
    !Saves(cfg, chip, ram, buffers[..|buffers| - 1]).chip.clobbered && Saves(cfg, chip, ram, buffers).chip.clobbered
  }

  /**
   Without a restart the error catches up, whichever sector `f` it was in. Take a full ring with the cursor just above
   the latest block and something in every sector. After an erase error at `f`, as many saves go through as there are
   slots from the sector being reused up to sector `f`, and the next one programs a page that is not erased.
   */
  lemma EraseErrorCatchesUp(cfg: Config, chip: Chip, ram: Ram, f: nat, junk: Image, buffers: seq<seq<Byte>>)
    requires ReclaimFails(cfg, chip, ram, f, junk) && JustAbove(cfg, ram) && NoneEmpty(cfg, chip.blocks)
    requires Buffers(cfg, buffers) && |buffers| == SavesLeft(cfg, ram.sector, f) + 1
    ensures var failed := Update(cfg, chip, ram); BreaksAtLast(cfg, Powered(failed.chip, []), failed.ram, buffers)
  {
    ReclaimStops(cfg, chip, ram, f, junk);
    SavesRunOut(cfg, chip.blocks, Update(cfg, chip, ram), ram.sector, f, buffers);
  }

  lemma ReclaimStops(cfg: Config, chip: Chip, ram: Ram, f: nat, junk: Image)
    requires ReclaimFails(cfg, chip, ram, f, junk) && JustAbove(cfg, ram)
    ensures StoppedBelow(cfg, chip.blocks, Update(cfg, chip, ram), ram.sector, f)
  {
    FailedReclaim(cfg, chip, ram, f, junk);
    HomeIsBelow(cfg, ram);
  }

  lemma SavesRunOut(cfg: Config, was: seq<Image>, r: Result, j: nat, f: nat, buffers: seq<seq<Byte>>)
    requires StoppedBelow(cfg, was, r, j, f) && NoneEmpty(cfg, was)
    requires Buffers(cfg, buffers) && |buffers| == SavesLeft(cfg, j, f) + 1
    ensures BreaksAtLast(cfg, Powered(r.chip, []), r.ram, buffers)
  {
    var chip := Powered(r.chip, []);
    ClearAfter(cfg, was, r, j, f, chip, |buffers| - 1);
    RunOut(cfg, chip, r.ram, buffers);
  }

  lemma RunOut(cfg: Config, chip: Chip, ram: Ram, buffers: seq<seq<Byte>>)
    requires Buffers(cfg, buffers) && |buffers| > 0 && Clear(cfg, chip, ram, |buffers| - 1)
    requires chip.blocks[ram.next + |buffers| - 1].count != 0
    ensures BreaksAtLast(cfg, chip, ram, buffers)
  {
    var m := |buffers| - 1;
    SavesGoThrough(cfg, chip, ram, buffers[..m], m);
    var r := Saves(cfg, chip, ram, buffers[..m]);
    SaveBreaksRule(cfg, r.chip, r.ram.(buffer := r.ram.buffer.(data := buffers[m])));
  }

  lemma ClearAfter(cfg: Config, was: seq<Image>, r: Result, j: nat, f: nat, chip: Chip, m: nat)
    requires StoppedBelow(cfg, was, r, j, f) && NoneEmpty(cfg, was)
    requires chip == Powered(r.chip, []) && m == SavesLeft(cfg, j, f)
    ensures Clear(cfg, chip, r.ram, m) && chip.blocks[r.ram.next + m].count != 0
  {
    ErasedBelow(cfg, was, j, r.ram.sector, f);
    FilledAt(cfg, was, j, r.ram.sector, f);
  }

  /** The sector kept is the one before the sector being reused. */
  lemma HomeIsBelow(cfg: Config, ram: Ram)
    requires ram.next < cfg.Slots() && RingFull(cfg, ram) && ram.data.Some? && ram.data.value < cfg.Slots()
    requires JustAbove(cfg, ram)
    ensures HomeSector(cfg, ram.data) == if ram.sector == 0 then 3 else ram.sector - 1
  {
  }

  lemma ErasedBelow(cfg: Config, blocks: seq<Image>, j: nat, home: nat, f: nat)
    requires |blocks| == cfg.Slots() && j < 4 && f < 4 && f != home && home == if j == 0 then 3 else j - 1
    ensures var r := Erased(cfg, blocks, Below(f) - {home}); var m := SavesLeft(cfg, j, f);
      && (forall s :: cfg.Start(j) <= s < cfg.Start(j) + m ==> r[s] == cfg.Blank())
      && (cfg.Start(home) < cfg.Start(j) || cfg.Start(j) + m < cfg.Start(home))
  {
    forall s | cfg.Start(j) <= s < cfg.Start(j) + SavesLeft(cfg, j, f)
      ensures Erased(cfg, blocks, Below(f) - {home})[s] == cfg.Blank()
    {
      BlankBelow(cfg, blocks, j, home, f, s);
    }
  }

  lemma FilledAt(cfg: Config, blocks: seq<Image>, j: nat, home: nat, f: nat)
    requires NoneEmpty(cfg, blocks) && j < 4 && f < 4 && f != home && home == if j == 0 then 3 else j - 1
    ensures var top := cfg.Start(j) + SavesLeft(cfg, j, f);
      top < cfg.Slots() && Erased(cfg, blocks, Below(f) - {home})[top].count != 0
  {
    StartIsHome(cfg, if f <= j then j else f);
  }

  lemma BlankBelow(cfg: Config, blocks: seq<Image>, j: nat, home: nat, f: nat, s: nat)
    requires |blocks| == cfg.Slots() && j < f < 4 && home == if j == 0 then 3 else j - 1
    requires f != home && cfg.Start(j) <= s < cfg.Start(f)
    ensures Erased(cfg, blocks, Below(f) - {home})[s] == cfg.Blank()
  {
    assert j <= cfg.SectorOf(s) < f;
    assert cfg.SectorOf(s) in Below(f) - {home};
  }
}
