/** One save and one start-up, with power cuts and program errors anywhere in them. */
module EepromDurability {
  import opened Basics
  import opened FlashChip
  import opened EepromSpec
  import opened EepromScan
  import opened EepromEffects
  import opened EepromInvariant

  /** What the store remembers: the latest good block in flash. */
  function Content(cfg: Config, blocks: seq<Image>): (b: Option<Image>)
    requires |blocks| == cfg.Slots()
  {
    var d := Latest(cfg, blocks);
    if d.None? then None else Some(blocks[d.value])
  }

  function AllBut(j: nat): set<nat> {
    {0, 1, 2, 3} - {j}
  }

  // ---- reclaiming ---------------------------------------------------------------------------------------------------

  /** The cursor has room ahead, and the block RAM takes for the latest is the latest. */
  ghost predicate Current(cfg: Config, blocks: seq<Image>, ram: Ram) {
    Roomy(cfg, blocks, ram) && ram.data == Latest(cfg, blocks)
  }

  /** The block RAM takes for the latest is a good one. */
  predicate Anchored(cfg: Config, blocks: seq<Image>, ram: Ram) {
    ram.data.Some? ==> ram.data.value < |blocks| == cfg.Slots() && cfg.Good(blocks[ram.data.value])
  }

  /** After the erase pass of a full ring there is room up to the sector kept. */
  lemma ReclaimedRoomy(cfg: Config, blocks: seq<Image>, ram: Ram, after: Ram)
    requires Roomy(cfg, blocks, ram) && Anchored(cfg, blocks, ram) && RingFull(cfg, ram) && WrapSafe(cfg, ram)
    requires after == ram.(sector := HomeSector(cfg, ram.data), dirty := after.dirty) && |after.dirty| == 4
    ensures Roomy(cfg, Erased(cfg, blocks, AllBut(after.sector)), after) && !RingFull(cfg, after)
  {
    var E := AllBut(after.sector);
    var r := Erased(cfg, blocks, E);
    ErasedKeepsOrdered(cfg, blocks, E);
    StartIsHome(cfg, ram.sector);
    StartIsHome(cfg, after.sector);
    forall s | 0 <= s < |r| && InGap(after.next, cfg.Start(after.sector), s)
      ensures r[s] == cfg.Blank()
    {
      assert cfg.SectorOf(s) != after.sector;
    }
    assert Bounded(cfg, r, after.buffer.count);
  }

  /** With the latest block in RAM all but its sector is erased, and the whole invariant holds. */
  lemma ReclaimedGap(cfg: Config, blocks: seq<Image>, ram: Ram, after: Ram)
    requires Inv(cfg, blocks, ram) && RingFull(cfg, ram) && WrapSafe(cfg, ram)
    requires after == ram.(sector := HomeSector(cfg, ram.data), dirty := after.dirty) && |after.dirty| == 4
    ensures RamInv(cfg, Erased(cfg, blocks, AllBut(after.sector)), after) && !RingFull(cfg, after)
  {
    ReclaimedRoomy(cfg, blocks, ram, after);
    ErasedKeepsLatest(cfg, blocks, AllBut(after.sector));
    StartIsHome(cfg, ram.sector);
    StartIsHome(cfg, after.sector);
    var d := ram.data.value;
    assert blocks[d].count != 0 && cfg.SectorOf(d) == after.sector;
  }

  /** Erasing sectors that do not hold the latest good block. */
  lemma ErasedKeeps(cfg: Config, blocks: seq<Image>, E: set<nat>)
    requires FlashInv(cfg, blocks)
    requires Latest(cfg, blocks).Some? ==> cfg.SectorOf(Latest(cfg, blocks).value) !in E
    ensures FlashInv(cfg, Erased(cfg, blocks, E))
    ensures Latest(cfg, Erased(cfg, blocks, E)) == Latest(cfg, blocks)
    ensures Content(cfg, Erased(cfg, blocks, E)) == Content(cfg, blocks)
  {
    ErasedKeepsFlash(cfg, blocks, E);
    ErasedKeepsLatest(cfg, blocks, E);
  }

  /** Reclaiming erases whole sectors other than that of RAM's latest block, and makes room if it gets to its end. */
  lemma ReclaimErases(cfg: Config, chip: Chip, ram: Ram) returns (E: set<nat>)
    requires chip.Fits(cfg) && Roomy(cfg, chip.blocks, ram) && Anchored(cfg, chip.blocks, ram) && WrapSafe(cfg, ram)
    ensures var e := Reclaim(cfg, chip, ram);
      && e.chip.blocks == Erased(cfg, chip.blocks, E) && HomeSector(cfg, ram.data) !in E
      && e.chip.clobbered == chip.clobbered
      && (e.status == Ok && e.chip.on ==> Roomy(cfg, e.chip.blocks, e.ram) && !RingFull(cfg, e.ram))
      && (e.status != Ok ==> e.status == EraseError && e.chip.on)
      && (e.chip.on ==> chip.on)
  {
    if RingFull(cfg, ram) {
      var start := ram.(sector := HomeSector(cfg, ram.data), dirty := [true, true, true, true]);
      E := EraseShape(cfg, chip, start, 0);
      var e := ErasePass(cfg, chip, start, 0);
      if e.status == Ok && e.chip.on {
        AllStale(start);
        ReclaimedRoomy(cfg, chip.blocks, ram, e.ram);
      }
    } else {
      E := {};
      ErasedNone(cfg, chip.blocks);
    }
  }

  /** Reclaiming, wherever it is stopped, keeps the flash invariant and what the store remembers. */
  lemma ReclaimKeeps(cfg: Config, chip: Chip, ram: Ram)
    requires chip.Fits(cfg) && Inv(cfg, chip.blocks, ram) && WrapSafe(cfg, ram)
    ensures var e := Reclaim(cfg, chip, ram);
      && FlashInv(cfg, e.chip.blocks)
      && Latest(cfg, e.chip.blocks) == Latest(cfg, chip.blocks)
      && Content(cfg, e.chip.blocks) == Content(cfg, chip.blocks)
      && e.chip.clobbered == chip.clobbered
      && (e.status == Ok && e.chip.on ==> RamInv(cfg, e.chip.blocks, e.ram) && !RingFull(cfg, e.ram))
      && (e.status != Ok ==> e.status == EraseError && e.chip.on)
      && (e.chip.on ==> chip.on)
  {
    if RingFull(cfg, ram) {
      var start := ram.(sector := HomeSector(cfg, ram.data), dirty := [true, true, true, true]);
      var E := EraseShape(cfg, chip, start, 0);
      ErasedKeeps(cfg, chip.blocks, E);
      var e := ErasePass(cfg, chip, start, 0);
      if e.status == Ok && e.chip.on {
        AllStale(start);
        ReclaimedGap(cfg, chip.blocks, ram, e.ram);
      }
    }
  }

  lemma AllStale(ram: Ram)
    requires ram.dirty == [true, true, true, true]
    ensures Stale(ram, 0) == AllBut(ram.sector)
  {
    assert forall i :: 0 <= i < 4 ==> ram.dirty[i];
  }

  // ---- saving -------------------------------------------------------------------------------------------------------

  /** The block a save is about to program. */
  function Next(cfg: Config, ram: Ram): (img: Image)
    ensures img.data == ram.buffer.data && img.count == Bump(ram.buffer.count)
  {
    Sealed(cfg, ram.buffer.(count := Bump(ram.buffer.count)))
  }

  /** The save got as far as programming: its erase pass, if any, was neither refused nor cut short. */
  predicate Reached(cfg: Config, chip: Chip, ram: Ram)
    requires chip.Fits(cfg) && ram.Fits(cfg) && (ram.data.Some? ==> ram.data.value < cfg.Slots())
  {
    var e := Reclaim(cfg, chip, ram);
    e.status == Ok && e.chip.on
  }

  /** The save's block is in flash as intended, page for page. */
  predicate Landed(cfg: Config, chip: Chip, ram: Ram)
    requires chip.Fits(cfg) && ram.Fits(cfg) && ram.next < cfg.Slots()
    requires ram.data.Some? ==> ram.data.value < cfg.Slots()
  {
    Reached(cfg, chip, ram) && Update(cfg, chip, ram).chip.blocks[ram.next] == Next(cfg, ram)
  }

  /**
   Errors are detected: a block that is not as intended fails the check, and a program error leaves a block that shows
   and fails it too. `EepromErrors` and `EepromSafety` are about errors that do not keep to this.
   */
  predicate Detected(cfg: Config, chip: Chip, ram: Ram)
    requires chip.Fits(cfg) && ram.Fits(cfg) && ram.next < cfg.Slots()
    requires ram.data.Some? ==> ram.data.value < cfg.Slots()
  {
    var r := Update(cfg, chip, ram);
    var b := r.chip.blocks[ram.next];
    Reached(cfg, chip, ram) ==>
      && (b != Next(cfg, ram) ==> !cfg.Good(b))
      && (r.status == WriteError ==> b.count != 0 && !cfg.Good(b))
  }

  /** Writing at the cursor of a ring that is not full, with the counter below its maximum. */
  lemma AppendKeeps(cfg: Config, chip: Chip, ram: Ram)
    requires chip.Fits(cfg) && Inv(cfg, chip.blocks, ram) && !RingFull(cfg, ram)
    requires ram.buffer.count < 0xFFFF_FFFF
    requires var r := Append(cfg, chip, ram); var b := r.chip.blocks[ram.next];
      && (b != Next(cfg, ram) ==> !cfg.Good(b))
      && (r.status == WriteError ==> b.count != 0 && !cfg.Good(b))
    ensures var r := Append(cfg, chip, ram); var b := r.chip.blocks[ram.next];
      && FlashInv(cfg, r.chip.blocks)
      && r.chip.clobbered == chip.clobbered
      && (r.chip.on ==> RamInv(cfg, r.chip.blocks, r.ram))
      && Latest(cfg, r.chip.blocks) == (if b == Next(cfg, ram) then Some(ram.next) else Latest(cfg, chip.blocks))
      && r.chip.blocks == chip.blocks[ram.next := b]
      && (r.status == Ok && r.chip.on ==> b == Next(cfg, ram))
  {
    var img := Next(cfg, ram);
    var r := Append(cfg, chip, ram);
    var b := r.chip.blocks[ram.next];
    CursorErased(cfg, chip.blocks, ram, ram.next);
    var k, junk := WriteShape(cfg, chip, ram.next, img, 0);
    TornGrows(cfg, img, cfg.pages - 1);
    if b == img {
      GoodWriteKeeps(cfg, chip.blocks, ram, b);
    } else if b.count != 0 {
      BadWriteKeeps(cfg, chip.blocks, ram, b, img);
    } else {
      assert b == cfg.Blank() && !r.chip.on;
      assert r.chip.blocks == chip.blocks;
    }
  }

  /**
   A save from a state satisfying the invariant. No page is programmed unless erased; the flash invariant holds
   wherever the power fails, and the full invariant if it does not; and the store then remembers the new block
   if it landed and otherwise exactly what it remembered before.
   */
  lemma UpdateAtomic(cfg: Config, chip: Chip, ram: Ram)
    requires chip.Fits(cfg) && Inv(cfg, chip.blocks, ram) && WrapSafe(cfg, ram)
    requires ram.buffer.count < 0xFFFF_FFFF && Detected(cfg, chip, ram)
    ensures var r := Update(cfg, chip, ram);
      && r.chip.clobbered == chip.clobbered
      && FlashInv(cfg, r.chip.blocks)
      && (r.chip.on && r.status != EraseError ==> Inv(cfg, r.chip.blocks, r.ram))
      && Content(cfg, r.chip.blocks) ==
           (if Landed(cfg, chip, ram) then Some(Next(cfg, ram)) else Content(cfg, chip.blocks))
      && (r.status == Ok && r.chip.on ==> Landed(cfg, chip, ram))
      && (r.status != Ok ==> !Landed(cfg, chip, ram))
  {
    ReclaimKeeps(cfg, chip, ram);
    var e := Reclaim(cfg, chip, ram);
    if Reached(cfg, chip, ram) {
      assert Next(cfg, e.ram) == Next(cfg, ram);
      AppendKeeps(cfg, e.chip, e.ram);
      AppendContent(cfg, e.chip, e.ram);
    } else if e.status == Ok {
      NothingWritten(cfg, e.chip, ram.next, Next(cfg, e.ram), 0);
    }
  }

  lemma AppendContent(cfg: Config, chip: Chip, ram: Ram)
    requires chip.Fits(cfg) && Inv(cfg, chip.blocks, ram) && !RingFull(cfg, ram)
    requires var r := Append(cfg, chip, ram); var b := r.chip.blocks[ram.next];
      && r.chip.blocks == chip.blocks[ram.next := b]
      && Latest(cfg, r.chip.blocks) == (if b == Next(cfg, ram) then Some(ram.next) else Latest(cfg, chip.blocks))
    ensures var r := Append(cfg, chip, ram); var b := r.chip.blocks[ram.next];
      Content(cfg, r.chip.blocks) == (if b == Next(cfg, ram) then Some(b) else Content(cfg, chip.blocks))
  {
    CursorErased(cfg, chip.blocks, ram, ram.next);
  }

  // ---- start-up -----------------------------------------------------------------------------------------------------

  /** The start-up erase pass never touches the latest good block and keeps the order of the blocks. */
  lemma InitErases(cfg: Config, chip: Chip) returns (E: set<nat>)
    requires chip.Fits(cfg) && Ordered(cfg, chip.blocks)
    ensures var ram := Scan(cfg, chip.blocks, FreshRam(cfg)); var e := ErasePass(cfg, chip, ram, 0);
      && EraseEffect(cfg, chip, ram, 0, e, E)
      && Ordered(cfg, e.chip.blocks)
      && Latest(cfg, e.chip.blocks) == Latest(cfg, chip.blocks)
      && Content(cfg, e.chip.blocks) == Content(cfg, chip.blocks)
  {
    ScanKeepsLatest(cfg, chip.blocks);
    E := EraseShape(cfg, chip, Scan(cfg, chip.blocks, FreshRam(cfg)), 0);
    ErasedKeepsOrdered(cfg, chip.blocks, E);
    ErasedKeepsLatest(cfg, chip.blocks, E);
  }

  lemma ScanKeepsLatest(cfg: Config, blocks: seq<Image>)
    requires Ordered(cfg, blocks)
    ensures var ram := Scan(cfg, blocks, FreshRam(cfg));
      Latest(cfg, blocks).Some? ==> ram.sector == cfg.SectorOf(Latest(cfg, blocks).value)
  {
    ScanMeaning(cfg, blocks);
  }

  /** Completed, it leaves exactly the sector of the latest good block; every other sector is erased. */
  lemma InitClears(cfg: Config, chip: Chip, ram: Ram, e: Result, E: set<nat>)
    requires chip.Fits(cfg) && WellFormed(cfg, chip.blocks) && ram.Fits(cfg)
    requires DirtyUpTo(cfg, chip.blocks, 4, FreshRam(cfg), ram)
    requires EraseEffect(cfg, chip, ram, 0, e, E) && e.status == Ok && e.chip.on
    ensures forall s :: 0 <= s < cfg.Slots() && cfg.SectorOf(s) != ram.sector ==> e.chip.blocks[s] == cfg.Blank()
    ensures forall s :: 0 <= s < cfg.Slots() && cfg.SectorOf(s) == ram.sector ==> e.chip.blocks[s] == chip.blocks[s]
  {
    forall s | 0 <= s < cfg.Slots() && cfg.SectorOf(s) != ram.sector
      ensures e.chip.blocks[s] == cfg.Blank()
    {
      var j := cfg.SectorOf(s);
      if chip.blocks[s].count != 0 { assert AnyFilled(chip.blocks, cfg.Start(j), cfg.Start(j) + cfg.n); }
    }
  }

  /** The cursor found by the scan, wrapped at the end of the last sector, has room ahead. */
  lemma SettledRoomy(cfg: Config, blocks: seq<Image>, before: seq<Image>, ram: Ram)
    requires Ordered(cfg, blocks) && |before| == cfg.Slots() && ram.Fits(cfg) && ram.sector < 4
    requires ram.data == Latest(cfg, blocks) && ram.data.Some? && ram.sector == cfg.SectorOf(ram.data.value)
    requires IsTop(before, cfg.Start(ram.sector), cfg.Start(ram.sector) + cfg.n, ram.next)
    requires forall s :: 0 <= s < cfg.Slots() && cfg.SectorOf(s) != ram.sector ==> blocks[s] == cfg.Blank()
    requires forall s :: 0 <= s < cfg.Slots() && cfg.SectorOf(s) == ram.sector ==> blocks[s] == before[s]
    ensures Roomy(cfg, blocks, ram.(buffer := blocks[ram.data.value],
                  next := if ram.next >= cfg.Slots() then 0 else ram.next))
  {
    var d := ram.data.value;
    var r := ram.(buffer := blocks[d], next := if ram.next >= cfg.Slots() then 0 else ram.next);
    assert blocks[d].count != 0;
    forall s | 0 <= s < |blocks| && InGap(r.next, cfg.Start(r.sector), s)
      ensures blocks[s] == cfg.Blank()
    {
      if cfg.SectorOf(s) == r.sector { assert before[s].count == 0; }
    }
  }

  /** Where start-up puts the cursor: above the latest block in its sector, or just past it; or at slot 0. */
  predicate Booted(cfg: Config, ram: Ram) {
    if ram.data.None? then ram.sector == 0 && ram.next == 0 && ram.buffer.count == 0
    else
      && ram.data.value < cfg.Slots() && ram.sector == cfg.SectorOf(ram.data.value)
      && (ram.data.value < ram.next <= cfg.Start(ram.sector) + cfg.n || (ram.next == 0 && ram.sector == 3))
  }

  lemma SettledInv(cfg: Config, blocks: seq<Image>, ram: Ram)
    requires FlashInv(cfg, blocks) && Roomy(cfg, blocks, ram) && Booted(cfg, ram) && ram.data == Latest(cfg, blocks)
    ensures RamInv(cfg, blocks, ram)
  {
    StartIsHome(cfg, ram.sector);
    if ram.data.Some? { assert blocks[ram.data.value].count != 0; }
  }

  /**
   Start-up from any flash whose blocks are in order. Wherever it is cut short, and whatever erase fails, the store
   remembers what it remembered; and when it completes, the RAM buffer is exactly the remembered block, or the store
   reports itself empty if there is none, and the cursor has room ahead.
   */
  lemma InitSafe(cfg: Config, chip: Chip)
    requires chip.Fits(cfg) && Ordered(cfg, chip.blocks)
    ensures var r := Init(cfg, chip, FreshRam(cfg));
      && Ordered(cfg, r.chip.blocks)
      && Latest(cfg, r.chip.blocks) == Latest(cfg, chip.blocks)
      && Content(cfg, r.chip.blocks) == Content(cfg, chip.blocks)
      && r.chip.clobbered == chip.clobbered
      && (r.chip.on && r.status != EraseError ==>
            && Roomy(cfg, r.chip.blocks, r.ram) && Booted(cfg, r.ram) && r.ram.data == Latest(cfg, chip.blocks)
            && (Content(cfg, chip.blocks).Some? ==> r.ram.buffer == Content(cfg, chip.blocks).value))
  {
    var E := InitErases(cfg, chip);
    InitLoads(cfg, chip);
    var r := Init(cfg, chip, FreshRam(cfg));
    if r.chip.on && r.status != EraseError { InitCompletes(cfg, chip); }
  }

  /** Whatever else is in the flash, a start-up that completes has the latest good block in RAM. */
  lemma InitLoads(cfg: Config, chip: Chip)
    requires chip.Fits(cfg) && Rising(cfg, chip.blocks)
    ensures var r := Init(cfg, chip, FreshRam(cfg)); var d := Latest(cfg, chip.blocks);
      r.status != EraseError ==> r.ram.data == d && (d.Some? ==> r.ram.buffer == chip.blocks[d.value])
  {
    ScanMeaning(cfg, chip.blocks);
    var E := EraseShape(cfg, chip, Scan(cfg, chip.blocks, FreshRam(cfg)), 0);
  }

  lemma InitCompletes(cfg: Config, chip: Chip)
    requires chip.Fits(cfg) && Ordered(cfg, chip.blocks)
    requires var r := Init(cfg, chip, FreshRam(cfg)); r.chip.on && r.status != EraseError
    ensures var r := Init(cfg, chip, FreshRam(cfg)); Roomy(cfg, r.chip.blocks, r.ram) && Booted(cfg, r.ram)
  {
    ScanMeaning(cfg, chip.blocks);
    var E := InitErases(cfg, chip);
    var ram := Scan(cfg, chip.blocks, FreshRam(cfg));
    var e := ErasePass(cfg, chip, ram, 0);
    InitClears(cfg, chip, ram, e, E);
    InitSettles(cfg, chip.blocks, e.chip, ram, e.ram);
  }

  lemma InitSettles(cfg: Config, before: seq<Image>, chip: Chip, found: Ram, ram: Ram)
    requires chip.Fits(cfg) && Ordered(cfg, chip.blocks) && |before| == cfg.Slots() && ram.Fits(cfg)
    requires ram == found.(dirty := ram.dirty) && FoundUpTo(cfg, before, 4, FreshRam(cfg), found)
    requires Latest(cfg, chip.blocks) == Latest(cfg, before)
    requires forall s :: 0 <= s < cfg.Slots() && cfg.SectorOf(s) != ram.sector ==> chip.blocks[s] == cfg.Blank()
    requires forall s :: 0 <= s < cfg.Slots() && cfg.SectorOf(s) == ram.sector ==> chip.blocks[s] == before[s]
    ensures var r := Settle(cfg, chip, ram).ram; Roomy(cfg, chip.blocks, r) && Booted(cfg, r)
  {
    if ram.data.Some? {
      SettledRoomy(cfg, chip.blocks, before, ram);
      SettledAbove(cfg, before, ram.data.value, ram.next);
    } else {
      EmptyRoomy(cfg, chip.blocks, ram);
    }
  }

  lemma SettledAbove(cfg: Config, blocks: seq<Image>, d: nat, top: nat)
    requires |blocks| == cfg.Slots() && d < cfg.Slots() && blocks[d].count != 0
    requires IsTop(blocks, cfg.Start(cfg.SectorOf(d)), cfg.Start(cfg.SectorOf(d)) + cfg.n, top)
    ensures d < top
  {
  }

  lemma EmptyRoomy(cfg: Config, blocks: seq<Image>, ram: Ram)
    requires Ordered(cfg, blocks) && ram.Fits(cfg) && ram.data.None? && ram.buffer.count == 0
    requires Latest(cfg, blocks).None? && AllBlank(cfg, blocks)
    ensures Roomy(cfg, blocks, ram.(sector := 0, next := 0))
  {
  }

  /** The same with the whole invariant: from a flash satisfying its part of it, start-up sets up the rest. */
  lemma InitRecovers(cfg: Config, chip: Chip)
    requires chip.Fits(cfg) && FlashInv(cfg, chip.blocks)
    ensures var r := Init(cfg, chip, FreshRam(cfg));
      && FlashInv(cfg, r.chip.blocks)
      && Content(cfg, r.chip.blocks) == Content(cfg, chip.blocks)
      && r.chip.clobbered == chip.clobbered
      && (r.chip.on && r.status != EraseError ==>
            && Inv(cfg, r.chip.blocks, r.ram)
            && (Content(cfg, chip.blocks).None? <==> r.ram.data.None?)
            && (Content(cfg, chip.blocks).Some? ==> r.ram.buffer == Content(cfg, chip.blocks).value))
  {
    InitSafe(cfg, chip);
    InitKeepsFlash(cfg, chip);
    var r := Init(cfg, chip, FreshRam(cfg));
    if r.chip.on && r.status != EraseError { SettledInv(cfg, r.chip.blocks, r.ram); }
  }

  lemma InitKeepsFlash(cfg: Config, chip: Chip)
    requires chip.Fits(cfg) && FlashInv(cfg, chip.blocks)
    ensures FlashInv(cfg, Init(cfg, chip, FreshRam(cfg)).chip.blocks)
  {
    var E := InitErases(cfg, chip);
    ErasedKeepsFlash(cfg, chip.blocks, E);
  }
}
