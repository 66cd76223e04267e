/**
 Saves with errors of every kind in any page. Nothing is assumed but that a block not as intended fails the check and
 does not read as empty: a page may also be left erased, and a failed save may leave its block complete.
 */
module EepromSafety {
  import opened Basics
  import opened FlashChip
  import opened EepromSpec
  import opened EepromEffects
  import opened EepromInvariant
  import opened EepromDurability
  import opened EepromBlindSpot

  predicate SoundBlock(cfg: Config, ram: Ram, b: Image) {
    (b != Next(cfg, ram) ==> !cfg.Good(b)) && !BlindSpot(cfg, b)
  }

  /** Whatever the save leaves at the cursor is as intended, or fails the check and does not read as empty. */
  predicate Sound(cfg: Config, chip: Chip, ram: Ram)
    requires chip.Fits(cfg) && ram.Fits(cfg) && ram.next < cfg.Slots()
    requires ram.data.Some? ==> ram.data.value < cfg.Slots()
  {
    Reached(cfg, chip, ram) ==> SoundBlock(cfg, ram, Update(cfg, chip, ram).chip.blocks[ram.next])
  }

  /** Writing such a block at the cursor keeps room ahead of it. */
  lemma SoundWrite(cfg: Config, blocks: seq<Image>, ram: Ram, b: Image, data: Option<nat>)
    requires Roomy(cfg, blocks, ram) && !RingFull(cfg, ram) && ram.buffer.count < 0xFFFF_FFFF
    requires cfg.Fits(b) && SoundBlock(cfg, ram, b)
    ensures Roomy(cfg, blocks[ram.next := b], Ram(Next(cfg, ram), cfg.Succ(ram.next), data, ram.sector, ram.dirty))
  {
    var moved := Ram(Next(cfg, ram), cfg.Succ(ram.next), data, ram.sector, ram.dirty);
    if cfg.Good(b) {
      NewBlockRises(cfg, blocks, ram, b);
    } else {
      BadBlockHides(cfg, blocks, ram, b);
    }
    GapShrinks(cfg, blocks, ram, b, moved);
  }

  lemma AppendSafe(cfg: Config, chip: Chip, ram: Ram)
    requires chip.Fits(cfg) && Roomy(cfg, chip.blocks, ram) && !RingFull(cfg, ram) && ram.buffer.count < 0xFFFF_FFFF
    requires SoundBlock(cfg, ram, Append(cfg, chip, ram).chip.blocks[ram.next])
    ensures var r := Append(cfg, chip, ram); var b := r.chip.blocks[ram.next];
      && r.chip.blocks == chip.blocks[ram.next := b] && chip.blocks[ram.next].count == 0
      && Roomy(cfg, r.chip.blocks, r.ram)
      && r.chip.clobbered == chip.clobbered
      && (r.status == Ok && r.chip.on ==> b == Next(cfg, ram))
  {
    var r := Append(cfg, chip, ram);
    CursorErased(cfg, chip.blocks, ram, ram.next);
    var k, junk := WriteShape(cfg, chip, ram.next, Next(cfg, ram), 0);
    TornGrows(cfg, Next(cfg, ram), cfg.pages - 1);
    SoundWrite(cfg, chip.blocks, ram, r.chip.blocks[ram.next], r.ram.data);
  }

  /** A good block after the save is one that was there before, or the new one, if it landed at the cursor. */
  ghost predicate Survivors(cfg: Config, was: seq<Image>, now: seq<Image>, next: nat, landed: Option<Image>) {
    && |was| == |now|
    && forall s :: 0 <= s < |now| && cfg.Good(now[s]) ==> now[s] == was[s] || (s == next && landed == Some(now[s]))
  }

  function LandedBlock(cfg: Config, chip: Chip, ram: Ram): Option<Image>
    requires chip.Fits(cfg) && ram.Fits(cfg) && ram.next < cfg.Slots()
    requires ram.data.Some? ==> ram.data.value < cfg.Slots()
  {
    if Landed(cfg, chip, ram) then Some(Next(cfg, ram)) else None
  }

  /**
   One save, however it goes. No page is programmed unless erased, there is room again for the next save unless an
   erase failed, good blocks come only from before or from this save, and the block RAM knows as latest stays.
   */
  lemma UpdateSafe(cfg: Config, chip: Chip, ram: Ram)
    requires chip.Fits(cfg) && Roomy(cfg, chip.blocks, ram) && Anchored(cfg, chip.blocks, ram) && WrapSafe(cfg, ram)
    requires ram.buffer.count < 0xFFFF_FFFF && Sound(cfg, chip, ram)
    ensures var r := Update(cfg, chip, ram);
      && Ordered(cfg, r.chip.blocks) && r.chip.clobbered == chip.clobbered
      && (r.chip.on && r.status != EraseError ==> Roomy(cfg, r.chip.blocks, r.ram))
      && Survivors(cfg, chip.blocks, r.chip.blocks, ram.next, LandedBlock(cfg, chip, ram))
      && (ram.data.Some? ==> r.chip.blocks[ram.data.value] == chip.blocks[ram.data.value])
  {
    var E := ReclaimErases(cfg, chip, ram);
    var e := Reclaim(cfg, chip, ram);
    ErasedKeepsOrdered(cfg, chip.blocks, E);
    if Reached(cfg, chip, ram) {
      assert Next(cfg, e.ram) == Next(cfg, ram);
      AppendSafe(cfg, e.chip, e.ram);
      if ram.data.Some? { assert cfg.Good(e.chip.blocks[ram.data.value]); }
    } else if e.status == Ok {
      NothingWritten(cfg, e.chip, ram.next, Next(cfg, e.ram), 0);
    }
  }

  /**
   What the save returns says this much: on success the new block is there and RAM knows it; else RAM knows the old.
   */
  lemma UpdateTells(cfg: Config, chip: Chip, ram: Ram)
    requires chip.Fits(cfg) && Roomy(cfg, chip.blocks, ram) && Anchored(cfg, chip.blocks, ram) && WrapSafe(cfg, ram)
    requires ram.buffer.count < 0xFFFF_FFFF && Sound(cfg, chip, ram)
    ensures var r := Update(cfg, chip, ram);
      && (r.status == Ok && r.chip.on ==> Landed(cfg, chip, ram) && r.ram.data == Some(ram.next))
      && (r.status != Ok ==> r.ram.data == ram.data)
  {
    var E := ReclaimErases(cfg, chip, ram);
    var e := Reclaim(cfg, chip, ram);
    if Reached(cfg, chip, ram) {
      assert Next(cfg, e.ram) == Next(cfg, ram);
      AppendSafe(cfg, e.chip, e.ram);
    } else if e.status == Ok {
      NothingWritten(cfg, e.chip, ram.next, Next(cfg, e.ram), 0);
    }
  }
}
