/** One program error in a save: in any page, leaving anything there. What the next start-up makes of it, exactly. */
module EepromErrors {
  import opened Basics
  import opened FlashChip
  import opened EepromSpec
  import opened EepromScan
  import opened EepromInvariant
  import opened EepromDurability
  import opened EepromRuns
  import opened EepromPasses
  import opened EepromEdges

  /** What the slot holds after page `k` of a save has failed: the pages before it, and `junk` in that page. */
  function Failed(cfg: Config, ram: Ram, k: nat, junk: Image): (b: Image)
    requires ram.Fits(cfg) && k < cfg.pages && cfg.Fits(junk)
    ensures cfg.Fits(b)
  {
    Overlay(cfg, Torn(cfg, Next(cfg, ram), k), junk, k)
  }

  /** A save that does the erasures it needs and `k` of its pages, and fails at the next. */
  ghost predicate FailsAtPage(cfg: Config, chip: Chip, ram: Ram, k: nat, junk: Image) {
    && chip.Fits(cfg) && chip.on && Current(cfg, chip.blocks, ram) && WrapSafe(cfg, ram)
    && ram.buffer.count < 0xFFFF_FFFF
    && k < cfg.pages && cfg.Fits(junk) && chip.script == Dones(Erasures(cfg, ram)) + (Dones(k) + [Fault(junk)])
  }

  /**
   All that is asked of the checksum: what a failing page leaves does not pass for a block with some other counter.
   Only an error in the first page could.
   */
  predicate NotForged(cfg: Config, ram: Ram, b: Image) {
    cfg.Good(b) ==> b.count == Next(cfg, ram).count
  }

  lemma LaterPagesCarryCounter(cfg: Config, ram: Ram, k: nat, junk: Image)
    requires ram.Fits(cfg) && 1 <= k < cfg.pages && cfg.Fits(junk)
    ensures Failed(cfg, ram, k, junk).count == Next(cfg, ram).count
    ensures NotForged(cfg, ram, Failed(cfg, ram, k, junk))
  {
  }

  // ---- the save -----------------------------------------------------------------------------------------------------

  lemma {:induction false} FaultAfter(cfg: Config, chip: Chip, slot: nat, img: Image, k: nat, m: nat, junk: Image)
    requires chip.Fits(cfg) && cfg.Fits(img) && slot < cfg.Slots() && k + m < cfg.pages && chip.on && cfg.Fits(junk)
    requires chip.blocks[slot] == Torn(cfg, img, k) && chip.script == Dones(m) + [Fault(junk)]
    ensures var b := Overlay(cfg, Torn(cfg, img, k + m), junk, k + m);
      WritePages(cfg, chip, slot, img, k) == (chip.(blocks := chip.blocks[slot := b], script := []), false)
    decreases m
  {
    TornGrows(cfg, img, k);
    if m > 0 {
      DonesTail(m, [Fault(junk)]);
      var c := ProgramPage(cfg, chip, slot, img, k).0;
      var b := Overlay(cfg, Torn(cfg, img, k + m), junk, k + m);
      FaultAfter(cfg, c, slot, img, k + 1, m - 1, junk);
      assert c.blocks[slot := b] == chip.blocks[slot := b];
    } else {
      assert chip.script == [Fault(junk)] && chip.script[1..] == [];
    }
  }

  /** The call reports the error, and leaves what the reclaim left with the failed block at the cursor. */
  lemma FailedSave(cfg: Config, chip: Chip, ram: Ram, k: nat, junk: Image)
    requires FailsAtPage(cfg, chip, ram, k, junk)
    ensures var e := Reclaim(cfg, chip, ram); var r := Update(cfg, chip, ram);
      && e.chip.on && Current(cfg, e.chip.blocks, e.ram) && !RingFull(cfg, e.ram)
      && e.ram == ram.(sector := e.ram.sector, dirty := e.ram.dirty) && e.chip.clobbered == chip.clobbered
      && r == Result(e.chip.(blocks := e.chip.blocks[ram.next := Failed(cfg, ram, k, junk)], script := []),
                     e.ram.(buffer := Next(cfg, ram), next := cfg.Succ(ram.next)), WriteError)
  {
    ReclaimWorks(cfg, chip, ram, Dones(k) + [Fault(junk)]);
    var e := Reclaim(cfg, chip, ram);
    CursorErased(cfg, e.chip.blocks, e.ram, e.ram.next);
    assert Next(cfg, e.ram) == Next(cfg, ram);
    FaultAfter(cfg, e.chip, ram.next, Next(cfg, ram), 0, k, junk);
  }

  // ---- the next start-up: its status --------------------------------------------------------------------------------

  /** A block at the cursor that passes the check has nothing above it; one that fails it stands above the latest. */
  lemma FailedShadow(cfg: Config, blocks: seq<Image>, ram: Ram, b: Image)
    requires Current(cfg, blocks, ram) && !RingFull(cfg, ram) && ram.buffer.count < 0xFFFF_FFFF
    requires NotForged(cfg, ram, b)
    ensures var r := blocks[ram.next := b];
      && Rising(cfg, r)
      && Latest(cfg, r) == (if cfg.Good(b) then Some(ram.next) else ram.data)
      && (Overshadowed(cfg, r) <==>
            !cfg.Good(b) && (Overshadowed(cfg, blocks) || (b.count != 0 && SameSector(cfg, ram))))
  {
    if cfg.Good(b) {
      NewBlockRises(cfg, blocks, ram, b);
      AboveCursor(cfg, blocks, ram);
      NoneAbove(cfg, blocks[ram.next := b], ram.next);
    } else {
      BadBlockHides(cfg, blocks, ram, b);
      BadBlockShadows(cfg, blocks, ram, b);
    }
  }

  lemma FailedFlash(cfg: Config, chip: Chip, ram: Ram, k: nat, junk: Image)
    requires FailsAtPage(cfg, chip, ram, k, junk) && NotForged(cfg, ram, Failed(cfg, ram, k, junk))
    ensures var b := Failed(cfg, ram, k, junk); var r := Update(cfg, chip, ram).chip.blocks;
      && Rising(cfg, r)
      && Latest(cfg, r) == (if cfg.Good(b) then Some(ram.next) else ram.data)
      && r[ram.next] == b
      && (Overshadowed(cfg, r) <==>
            !cfg.Good(b) && (Overshadowed(cfg, chip.blocks) || (b.count != 0 && SameSector(cfg, ram))))
  {
    FailedSave(cfg, chip, ram, k, junk);
    ReclaimKeepsShadow(cfg, chip, ram, Dones(k) + [Fault(junk)]);
    var e := Reclaim(cfg, chip, ram);
    assert Next(cfg, e.ram) == Next(cfg, ram);
    FailedShadow(cfg, e.chip.blocks, e.ram, Failed(cfg, ram, k, junk));
  }

  /**
   One program error in a save, in any page: the next start-up that completes reports OldData exactly if the failed
   block does not pass the check and the start-up would have done so before, or the block shows and the cursor was in
   the sector of the latest block.
   */
  lemma FaultStatus(cfg: Config, chip: Chip, ram: Ram, k: nat, junk: Image, script: seq<Outcome>)
    requires FailsAtPage(cfg, chip, ram, k, junk) && NotForged(cfg, ram, Failed(cfg, ram, k, junk))
    requires ScriptFits(cfg, script)
    ensures var b := Failed(cfg, ram, k, junk); var now := Update(cfg, chip, ram).chip;
      var r := Init(cfg, Powered(now, script), FreshRam(cfg));
      r.status != EraseError ==>
        (r.status == OldData <==>
           !cfg.Good(b) && (Overshadowed(cfg, chip.blocks) || (b.count != 0 && SameSector(cfg, ram))))
  {
    FailedFlash(cfg, chip, ram, k, junk);
    StatusExact(cfg, Powered(Update(cfg, chip, ram).chip, script));
  }

  // ---- the next start-up: its data ----------------------------------------------------------------------------------

  /**
   What a start-up has in RAM after a program error: the failed block if that passes the check, and otherwise exactly
   what the store remembered before.
   */
  lemma FaultData(cfg: Config, chip: Chip, ram: Ram, k: nat, junk: Image, script: seq<Outcome>)
    requires FailsAtPage(cfg, chip, ram, k, junk) && NotForged(cfg, ram, Failed(cfg, ram, k, junk))
    requires ScriptFits(cfg, script)
    ensures var b := Failed(cfg, ram, k, junk); var u := Update(cfg, chip, ram);
      var r := Init(cfg, Powered(u.chip, script), FreshRam(cfg));
      var had := if cfg.Good(b) then Some(b) else Content(cfg, chip.blocks);
      && u.status == WriteError
      && Content(cfg, u.chip.blocks) == had
      && (r.status != EraseError ==>
            (had.None? <==> r.ram.data.None?) && (had.Some? ==> r.ram.buffer == had.value))
  {
    FailedContent(cfg, chip, ram, k, junk);
    FailedFlash(cfg, chip, ram, k, junk);
    InitLoads(cfg, Powered(Update(cfg, chip, ram).chip, script));
  }

  lemma FailedContent(cfg: Config, chip: Chip, ram: Ram, k: nat, junk: Image)
    requires FailsAtPage(cfg, chip, ram, k, junk) && NotForged(cfg, ram, Failed(cfg, ram, k, junk))
    ensures var b := Failed(cfg, ram, k, junk); var u := Update(cfg, chip, ram);
      && u.status == WriteError
      && (b.count != 0 || b == cfg.Blank() ==> Ordered(cfg, u.chip.blocks))
      && Content(cfg, u.chip.blocks) == if cfg.Good(b) then Some(b) else Content(cfg, chip.blocks)
  {
    FailedFlash(cfg, chip, ram, k, junk);
    FailedSave(cfg, chip, ram, k, junk);
    ReclaimWorks(cfg, chip, ram, Dones(k) + [Fault(junk)]);
    var e := Reclaim(cfg, chip, ram);
    CursorErased(cfg, e.chip.blocks, e.ram, ram.next);
    if ram.data.Some? { assert cfg.Good(e.chip.blocks[ram.data.value]); }
  }

  /** The data is zero from its second page on. */
  predicate OnePage(cfg: Config, data: seq<Byte>) {
    |data| == cfg.DataSize() && data[248..] == Zeros(cfg.DataSize() - 248)
  }

  /**
   A block whose data fits into its first page, and an error in a later page that leaves that page erased: the block
   is whole, so the save that was reported as failed is kept.
   */
  lemma ErasedPageIsWhole(cfg: Config, ram: Ram, k: nat, junk: Image)
    requires ram.Fits(cfg) && OnePage(cfg, ram.buffer.data) && 1 <= k < cfg.pages && cfg.Fits(junk)
    requires PageErased(cfg, junk, k)
    ensures Failed(cfg, ram, k, junk) == Next(cfg, ram)
  {
    ErasedPageKeeps(cfg, Next(cfg, ram), k, junk);
  }

  lemma ErasedPageKeeps(cfg: Config, img: Image, k: nat, junk: Image)
    requires cfg.Fits(img) && OnePage(cfg, img.data) && 1 <= k < cfg.pages && cfg.Fits(junk) && PageErased(cfg, junk, k)
    ensures Overlay(cfg, Torn(cfg, img, k), junk, k) == img
  {
    var b := Overlay(cfg, Torn(cfg, img, k), junk, k);
    forall i | 0 <= i < |b.data|
      ensures b.data[i] == img.data[i]
    {
      if i >= 256 * k - 8 { assert img.data[i] == img.data[248..][i - 248] == 0; }
      if 256 * k - 8 <= i < 256 * k + 248 {
        assert junk.data[i] == junk.data[256 * k - 8..256 * k + 248][i - (256 * k - 8)] == 0;
      }
    }
    assert b.data == img.data;
  }
}
