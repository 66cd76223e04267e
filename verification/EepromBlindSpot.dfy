/**
 The start-up scan takes a slot with counter 0 for an empty one. A program error in a first page can leave such a slot
 with something in it; the program-once rule then fails at the next save after a reset, and for no other error.
 */
module EepromBlindSpot {
  import opened Basics
  import opened FlashChip
  import opened EepromSpec
  import opened EepromScan
  import opened EepromEffects
  import opened EepromInvariant
  import opened EepromDurability
  import opened EepromRuns
  import opened EepromEdges
  import opened EepromErrors

  // ---- start-up and a save, whatever the order of the blocks --------------------------------------------------------

  /** After a completed start-up the ring is not full, and the slot at the cursor reads as empty. */
  ghost predicate Open(cfg: Config, blocks: seq<Image>, ram: Ram) {
    && |blocks| == cfg.Slots() && ram.Fits(cfg) && ram.next < cfg.Slots() && !RingFull(cfg, ram)
    && (ram.data.Some? ==> ram.data.value < cfg.Slots())
    && blocks[ram.next].count == 0
  }

  lemma BootOpens(cfg: Config, chip: Chip)
    requires chip.Fits(cfg)
    requires var r := Init(cfg, chip, FreshRam(cfg)); r.chip.on && r.status != EraseError
    ensures var r := Init(cfg, chip, FreshRam(cfg));
      && Open(cfg, r.chip.blocks, r.ram) && r.chip.clobbered == chip.clobbered
      && forall s :: 0 <= s < cfg.Slots() ==> r.chip.blocks[s] == chip.blocks[s] || r.chip.blocks[s] == cfg.Blank()
  {
    ScanTop(cfg, chip.blocks);
    var found := Scan(cfg, chip.blocks, FreshRam(cfg));
    var E := EraseShape(cfg, chip, found, 0);
    var e := ErasePass(cfg, chip, found, 0);
    CursorReadsEmpty(cfg, chip.blocks, found, e.chip.blocks, E);
  }

  lemma CursorReadsEmpty(cfg: Config, blocks: seq<Image>, found: Ram, after: seq<Image>, E: set<nat>)
    requires |blocks| == cfg.Slots() && found.Fits(cfg)
    requires DirtyUpTo(cfg, blocks, 4, FreshRam(cfg), found) && Topped(cfg, blocks, FreshRam(cfg), found)
    requires after == Erased(cfg, blocks, E) && E == Stale(found, 0)
    ensures var next := if found.data.None? || found.next >= cfg.Slots() then 0 else found.next;
      after[next].count == 0 && (found.data.Some? ==> next != cfg.Start(found.sector))
  {
    var next := if found.data.None? || found.next >= cfg.Slots() then 0 else found.next;
    var j := cfg.SectorOf(next);
    if j !in E && j != found.sector {
      assert !found.dirty[j];
      assert !AnyFilled(blocks, cfg.Start(j), cfg.Start(j) + cfg.n);
    }
  }

  /** A save into an erased slot keeps to erased pages, however it goes. */
  lemma OpenSaveKeepsRule(cfg: Config, chip: Chip, ram: Ram)
    requires chip.Fits(cfg) && Open(cfg, chip.blocks, ram) && chip.blocks[ram.next] == cfg.Blank()
    ensures Update(cfg, chip, ram).chip.clobbered == chip.clobbered
  {
    var m, junk := WriteShape(cfg, chip, ram.next, Next(cfg, ram), 0);
  }

  /** A save into a slot whose first page is not erased does not, if its first operation takes place. */
  lemma OpenSaveBreaksRule(cfg: Config, chip: Chip, ram: Ram)
    requires chip.Fits(cfg) && chip.on && Open(cfg, chip.blocks, ram) && !chip.Fate().Cut?
    requires !PageErased(cfg, chip.blocks[ram.next], 0)
    ensures Update(cfg, chip, ram).chip.clobbered
  {
    var img := Next(cfg, ram);
    var (c, ok) := ProgramPage(cfg, chip, ram.next, img, 0);
    if ok { ClobberedStays(cfg, c, ram.next, img, 1); }
  }

  // ---- after a program error ----------------------------------------------------------------------------------------

  /** The cursor is just above the latest block, as after a start-up with status Ok or a save that worked. */
  predicate JustAbove(cfg: Config, ram: Ram) {
    if ram.data.None? then ram.next == 0 else cfg.Succ(ram.data.value) == ram.next
  }

  /** The failed block reads as empty and is not. */
  predicate BlindSpot(cfg: Config, b: Image) {
    b.count == 0 && b != cfg.Blank()
  }

  /** Such a block is left only by an error in the first page, and there is something in that page. */
  lemma BlindSpotPage(cfg: Config, ram: Ram, k: nat, junk: Image)
    requires ram.Fits(cfg) && k < cfg.pages && cfg.Fits(junk) && ram.buffer.count < 0xFFFF_FFFF
    requires BlindSpot(cfg, Failed(cfg, ram, k, junk))
    ensures k == 0 && !PageErased(cfg, Failed(cfg, ram, k, junk), 0)
  {
  }

  /** The start-up after it puts the cursor back on that slot and leaves what is in it. */
  lemma BootReturns(cfg: Config, chip: Chip, blocks: seq<Image>, ram: Ram, b: Image)
    requires chip.Fits(cfg) && Current(cfg, blocks, ram) && !RingFull(cfg, ram) && JustAbove(cfg, ram)
    requires cfg.Fits(b) && b.count == 0 && chip.blocks == blocks[ram.next := b]
    requires var r := Init(cfg, chip, FreshRam(cfg)); r.chip.on && r.status != EraseError
    ensures var r := Init(cfg, chip, FreshRam(cfg)); r.ram.next == ram.next && r.chip.blocks[ram.next] == b
  {
    ScanReturns(cfg, blocks, ram, b);
    var E := EraseShape(cfg, chip, Scan(cfg, chip.blocks, FreshRam(cfg)), 0);
  }

  lemma ScanReturns(cfg: Config, blocks: seq<Image>, ram: Ram, b: Image)
    requires Current(cfg, blocks, ram) && !RingFull(cfg, ram) && JustAbove(cfg, ram) && b.count == 0
    ensures var found := Scan(cfg, blocks[ram.next := b], FreshRam(cfg));
      && (if found.data.None? || found.next >= cfg.Slots() then 0 else found.next) == ram.next
      && cfg.SectorOf(ram.next) !in Stale(found, 0)
  {
    var r := blocks[ram.next := b];
    BadBlockHides(cfg, blocks, ram, b);
    CursorErased(cfg, blocks, ram, ram.next);
    AboveCursor(cfg, blocks, ram);
    ScanMeaning(cfg, r);
    FoundReturns(cfg, r, ram.data, ram.next, Scan(cfg, r, FreshRam(cfg)));
  }

  lemma FoundReturns(cfg: Config, blocks: seq<Image>, d: Option<nat>, next: nat, found: Ram)
    requires |blocks| == cfg.Slots() && next < cfg.Slots() && Latest(cfg, blocks) == d
    requires DirtyUpTo(cfg, blocks, 4, FreshRam(cfg), found) && FoundUpTo(cfg, blocks, 4, FreshRam(cfg), found)
    requires if d.None? then next == 0 else cfg.Succ(d.value) == next
    requires forall s :: next <= s < cfg.Start(cfg.SectorOf(next)) + cfg.n ==> blocks[s].count == 0
    ensures (if found.data.None? || found.next >= cfg.Slots() then 0 else found.next) == next
    ensures cfg.SectorOf(next) !in Stale(found, 0)
  {
    if d.Some? { FoundJustAbove(cfg, blocks, d.value, next, found.next); }
    NotErased(cfg, blocks, found, next);
  }

  /** With nothing that shows above the latest block, the scan's cursor is just above it. */
  lemma FoundJustAbove(cfg: Config, blocks: seq<Image>, d: nat, next: nat, top: nat)
    requires |blocks| == cfg.Slots() && d < cfg.Slots() && next == cfg.Succ(d) && blocks[d].count != 0
    requires forall s :: next <= s < cfg.Start(cfg.SectorOf(next)) + cfg.n ==> blocks[s].count == 0
    requires IsTop(blocks, cfg.Start(cfg.SectorOf(d)), cfg.Start(cfg.SectorOf(d)) + cfg.n, top)
    ensures (if top >= cfg.Slots() then 0 else top) == next
  {
    if cfg.SectorOf(next) != cfg.SectorOf(d) { assert d + 1 == cfg.Start(cfg.SectorOf(d)) + cfg.n; }
  }

  /** The cursor's sector is the active one, or shows nothing; either way it is not erased. */
  lemma NotErased(cfg: Config, blocks: seq<Image>, found: Ram, next: nat)
    requires |blocks| == cfg.Slots() && next < cfg.Slots() && DirtyUpTo(cfg, blocks, 4, FreshRam(cfg), found)
    requires forall s :: next <= s < cfg.Start(cfg.SectorOf(next)) + cfg.n ==> blocks[s].count == 0
    requires found.sector == cfg.SectorOf(next) || next == cfg.Start(cfg.SectorOf(next))
    ensures cfg.SectorOf(next) !in Stale(found, 0)
  {
  }

  /** The state after the failed save, the start-up, and new data put into the buffer. */
  ghost predicate Restarted(cfg: Config, chip: Chip, ram: Ram, boot: seq<Outcome>, put: Ram)
    requires chip.Fits(cfg) && ram.Fits(cfg) && ram.next < cfg.Slots() && ScriptFits(cfg, boot)
    requires ram.data.Some? ==> ram.data.value < cfg.Slots()
  {
    var r := Init(cfg, Powered(Update(cfg, chip, ram).chip, boot), FreshRam(cfg));
    r.chip.on && r.status != EraseError && put.Fits(cfg) && put == r.ram.(buffer := put.buffer)
    && put.buffer.count == r.ram.buffer.count
  }

  /**
   Program-once after a program error. With the cursor just above the latest block: the save after the next start-up
   programs a page that is not erased if and only if the failed block reads as empty and is not. The first direction
   is for every cursor (`ErrorKeepsRule`).
   */
  lemma ErrorBreaksRuleIff(cfg: Config, chip: Chip, ram: Ram, k: nat, junk: Image, boot: seq<Outcome>,
                           put: Ram, script: seq<Outcome>)
    requires FailsAtPage(cfg, chip, ram, k, junk) && !chip.clobbered && JustAbove(cfg, ram)
    requires ScriptFits(cfg, boot) && ScriptFits(cfg, script) && (script == [] || !script[0].Cut?)
    ensures Restarted(cfg, chip, ram, boot, put) ==>
      var now := Init(cfg, Powered(Update(cfg, chip, ram).chip, boot), FreshRam(cfg)).chip;
      (Update(cfg, Powered(now, script), put).chip.clobbered <==> BlindSpot(cfg, Failed(cfg, ram, k, junk)))
  {
    if Restarted(cfg, chip, ram, boot, put) {
      if BlindSpot(cfg, Failed(cfg, ram, k, junk)) {
        ErrorBreaksRule(cfg, chip, ram, k, junk, boot, put, script);
      } else {
        ErrorKeepsRule(cfg, chip, ram, k, junk, boot, put, script);
      }
    }
  }

  lemma ErrorBreaksRule(cfg: Config, chip: Chip, ram: Ram, k: nat, junk: Image, boot: seq<Outcome>,
                        put: Ram, script: seq<Outcome>)
    requires FailsAtPage(cfg, chip, ram, k, junk) && JustAbove(cfg, ram)
    requires ScriptFits(cfg, boot) && ScriptFits(cfg, script) && (script == [] || !script[0].Cut?)
    requires Restarted(cfg, chip, ram, boot, put) && BlindSpot(cfg, Failed(cfg, ram, k, junk))
    ensures var now := Init(cfg, Powered(Update(cfg, chip, ram).chip, boot), FreshRam(cfg)).chip;
      Update(cfg, Powered(now, script), put).chip.clobbered
  {
    var b := Failed(cfg, ram, k, junk);
    FailedSave(cfg, chip, ram, k, junk);
    BlindSpotPage(cfg, ram, k, junk);
    var e := Reclaim(cfg, chip, ram);
    var again := Powered(Update(cfg, chip, ram).chip, boot);
    BootOpens(cfg, again);
    BootReturns(cfg, again, e.chip.blocks, e.ram, b);
    OpenSaveBreaksRule(cfg, Powered(Init(cfg, again, FreshRam(cfg)).chip, script), put);
  }

  lemma ErrorKeepsRule(cfg: Config, chip: Chip, ram: Ram, k: nat, junk: Image, boot: seq<Outcome>,
                       put: Ram, script: seq<Outcome>)
    requires FailsAtPage(cfg, chip, ram, k, junk) && !chip.clobbered
    requires ScriptFits(cfg, boot) && ScriptFits(cfg, script)
    requires Restarted(cfg, chip, ram, boot, put) && !BlindSpot(cfg, Failed(cfg, ram, k, junk))
    ensures var now := Init(cfg, Powered(Update(cfg, chip, ram).chip, boot), FreshRam(cfg)).chip;
      !Update(cfg, Powered(now, script), put).chip.clobbered
  {
    FailedSave(cfg, chip, ram, k, junk);
    var again := Powered(Update(cfg, chip, ram).chip, boot);
    assert WellFormed(cfg, again.blocks);
    BootOpens(cfg, again);
    OpenSaveKeepsRule(cfg, Powered(Init(cfg, again, FreshRam(cfg)).chip, script), put);
  }
}
