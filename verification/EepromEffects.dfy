/** What the erase pass and the page loop leave in flash, whatever their script makes of them. */
module EepromEffects {
  import opened Basics
  import opened FlashChip
  import opened EepromSpec

  lemma ErasedTwice(cfg: Config, blocks: seq<Image>, E: set<nat>, F: set<nat>)
    requires |blocks| == cfg.Slots()
    ensures Erased(cfg, Erased(cfg, blocks, E), F) == Erased(cfg, blocks, E + F)
  {
  }

  lemma ErasedNone(cfg: Config, blocks: seq<Image>)
    requires |blocks| == cfg.Slots()
    ensures Erased(cfg, blocks, {}) == blocks
  {
  }

  /** The sectors from `j` on that an erase pass is after. */
  function Stale(ram: Ram, j: nat): set<nat>
    requires |ram.dirty| == 4
  {
    set i | j <= i < 4 && i != ram.sector && ram.dirty[i]
  }

  /** The effect of an erase pass: some whole sectors among the stale ones, all of them if it finished. */
  ghost predicate EraseEffect(cfg: Config, chip: Chip, ram: Ram, j: nat, r: Result, E: set<nat>)
    requires |chip.blocks| == cfg.Slots() && |ram.dirty| == 4
  {
    && r.chip.blocks == Erased(cfg, chip.blocks, E)
    && E <= Stale(ram, j)
    && (r.status == Ok && r.chip.on ==> E == Stale(ram, j))
    && (r.status == Ok || (r.status == EraseError && r.chip.on))
    && r.chip.clobbered == chip.clobbered
    && (r.chip.on ==> chip.on)
  }

  /** The erase pass clears whole sectors, only stale ones, and all of them unless it is stopped. */
  lemma {:induction false} EraseShape(cfg: Config, chip: Chip, ram: Ram, j: nat) returns (E: set<nat>)
    requires chip.Fits(cfg) && ram.Fits(cfg) && j <= 4
    ensures EraseEffect(cfg, chip, ram, j, ErasePass(cfg, chip, ram, j), E)
    decreases 4 - j
  {
    ErasedNone(cfg, chip.blocks);
    if j == 4 {
      E := {};
    } else if ram.sector != j && ram.dirty[j] {
      E := EraseShapeStale(cfg, chip, ram, j);
    } else {
      E := EraseShape(cfg, chip, ram, j + 1);
      assert Stale(ram, j) == Stale(ram, j + 1);
    }
  }

  lemma {:induction false} EraseShapeStale(cfg: Config, chip: Chip, ram: Ram, j: nat) returns (E: set<nat>)
    requires chip.Fits(cfg) && ram.Fits(cfg) && j < 4 && ram.sector != j && ram.dirty[j]
    ensures EraseEffect(cfg, chip, ram, j, ErasePass(cfg, chip, ram, j), E)
    decreases 4 - j, 0
  {
    ErasedNone(cfg, chip.blocks);
    var (c, ok) := EraseSector(cfg, chip, j);
    var cleaned := ram.(dirty := ram.dirty[j := false]);
    assert Stale(cleaned, j + 1) + {j} == Stale(ram, j);
    if ok {
      var F := EraseShape(cfg, c, cleaned, j + 1);
      var D := if chip.on && chip.Fate().Done? then {j} else {};
      assert c.blocks == Erased(cfg, chip.blocks, D);
      ErasedTwice(cfg, chip.blocks, D, F);
      E := D + F;
    } else {
      E := {};
    }
  }

  /** `b` is `img` programmed up to page `k`, with page `k` spoilt by an error if `spoilt`. */
  ghost predicate Partial(cfg: Config, img: Image, b: Image, k: nat, junk: Option<Image>)
    requires cfg.Fits(img)
  {
    && k <= cfg.pages
    && match junk
       case None => b == Torn(cfg, img, k)
       case Some(g) => k < cfg.pages && cfg.Fits(g) && b == Overlay(cfg, Torn(cfg, img, k), g, k)
  }

  /** The effect of the page loop on a slot that holds the first pages of the block already. */
  ghost predicate WriteEffect(cfg: Config, chip: Chip, slot: nat, img: Image, r: (Chip, bool), k: nat,
                              junk: Option<Image>)
    requires chip.Fits(cfg) && cfg.Fits(img) && slot < cfg.Slots()
  {
    && |r.0.blocks| == cfg.Slots()
    && r.0.blocks == chip.blocks[slot := r.0.blocks[slot]]
    && Partial(cfg, img, r.0.blocks[slot], k, junk)
    && r.1 == junk.None?
    && (r.0.on && r.1 ==> k == cfg.pages)
    && (!r.1 ==> r.0.on)
    && (r.0.on ==> chip.on)
    && r.0.clobbered == chip.clobbered
    && r.0.wear == chip.wear
  }

  /** The page loop on an erased slot programs erased pages only and changes nothing outside its slot. */
  lemma {:induction false} WriteShape(cfg: Config, chip: Chip, slot: nat, img: Image, k: nat)
    returns (m: nat, junk: Option<Image>)
    requires chip.Fits(cfg) && cfg.Fits(img) && slot < cfg.Slots() && k <= cfg.pages
    requires chip.blocks[slot] == Torn(cfg, img, k)
    ensures WriteEffect(cfg, chip, slot, img, WritePages(cfg, chip, slot, img, k), m, junk)
    ensures m >= k
    decreases cfg.pages - k
  {
    m, junk := k, None;
    if k == cfg.pages {
    } else if !chip.on || chip.Fate().Cut? {
      NothingWritten(cfg, ProgramPage(cfg, chip, slot, img, k).0, slot, img, k + 1);
    } else {
      TornGrows(cfg, img, k);
      if chip.Fate().Done? {
        m, junk := WriteShape(cfg, ProgramPage(cfg, chip, slot, img, k).0, slot, img, k + 1);
      } else {
        junk := Some(chip.Fate().junk);
        FaultInScript(cfg, chip);
      }
    }
  }

  lemma FaultInScript(cfg: Config, chip: Chip)
    requires chip.Fits(cfg) && chip.Fate().Fault?
    ensures cfg.Fits(chip.Fate().junk)
  {
    assert chip.script[0].Fault?;
  }

  /** Without power the page loop does nothing and meets no error. */
  lemma {:induction false} NothingWritten(cfg: Config, chip: Chip, slot: nat, img: Image, k: nat)
    requires chip.Fits(cfg) && cfg.Fits(img) && slot < cfg.Slots() && k <= cfg.pages && !chip.on
    ensures WritePages(cfg, chip, slot, img, k) == (chip, true)
    decreases cfg.pages - k
  {
    if k < cfg.pages { NothingWritten(cfg, chip, slot, img, k + 1); }
  }
}
